# Moxy presenter injection, modelled in Dafny

This project models the presenter injection routine of the Moxy MVP library, the
class `moxy.MvpProcessor`. A view asks for its presenters under a delegate tag.
The processor first lists the view's presenter fields: the fields of the view's
generated presenter binder, if it has one, and then the extra fields passed in.
For each field it builds the key `delegateTag + "$" + fieldTag`. If the
process-wide presenter store already holds a presenter under that key, that
presenter is reused. Otherwise the field's provider is asked for a new one. A new
presenter is stamped with the key and the field's presenter class and then
registered in the store. A provider may also answer null, and then nothing is
stored. Every presenter that is not null is reported to the presenters counter,
returned in field order, and bound into the view's field.

Files:

- `wrappers.dfy`: the `Option` datatype, which stands for Java's nullable references.
- `moxy.dfy`: the collaborators as classes that are updated in place:
  - `MvpPresenter`, with its tag and presenter class;
  - `PresenterStore`, a map from keys to presenters;
  - `PresentersCounter`, with a log of its injections;
  - `PresenterField`, with its class, tag function and provider;
  - the view `Delegated`, with a log of the presenters bound into it.
- `resolution.dfy`: the specification as functions over the store's map:
  - the composite key;
  - `GetOrCreate` for one field;
  - `ResolveFields`, which folds over the field list, with the lemmas that state
    what resolution guarantees.
- `mvp_processor.dfy`: the processor itself. `GetMvpPresenter` and
  `GetMvpPresenters` are imperative methods whose postconditions tie the new
  store, the counter's log, the view's bindings and the stamps written into the
  presenters to `ResolveFields`. `CombinePresenterFields` is also here.

The key is unambiguous under a single delegate tag (`PresenterKeyInjective`). It
is not unambiguous across delegate tags: a delegate tag that contains `$` can
produce the same key as another delegate tag with a different field tag
(`PresenterKeyAmbiguous`). Delegate tag generation is not part of this model, so
no claim is made about whether such tags occur.

## Model

| member | source | states |
|---|---|---|
| Moxy.MvpPresenter.SetTag | libs/moxy/src/main/java/moxy/MvpProcessor.java:54 | the presenter's tag becomes the given key and its class is unchanged |
| Moxy.MvpPresenter.SetPresenterClass | libs/moxy/src/main/java/moxy/MvpProcessor.java:55 | the presenter's class becomes the given class and its tag is unchanged |
| Moxy.PresenterStore.Get | libs/moxy/src/main/java/moxy/MvpProcessor.java:42 | the lookup returns a presenter exactly when the key is stored, and then it is the stored one |
| Moxy.PresenterStore.Add | libs/moxy/src/main/java/moxy/MvpProcessor.java:56 | the store afterwards maps the key to the presenter and keeps every other entry |
| Moxy.PresentersCounter.InjectPresenter | libs/moxy/src/main/java/moxy/MvpProcessor.java:91 | the counter records exactly one more injection of this presenter under this delegate tag |
| Moxy.PresenterField.Bind | libs/moxy/src/main/java/moxy/MvpProcessor.java:93 | the view records exactly one more binding of this field to this presenter |
| Resolution.PresenterKey | libs/moxy/src/main/java/moxy/MvpProcessor.java:39 | the key is the delegate tag, then one '$', then the field tag |
| Resolution.PresenterKeyInjective | libs/moxy/src/main/java/moxy/MvpProcessor.java:39 | under one delegate tag, two field tags with the same key are equal, so fields with different tags never share a store key |
| Resolution.PresenterKeyAmbiguous | libs/moxy/src/main/java/moxy/MvpProcessor.java:39 | two different delegate tags can produce the same key with suitable field tags |
| Resolution.GetOrCreate | libs/moxy/src/main/java/moxy/MvpProcessor.java:42-58 | a hit returns the stored presenter and changes nothing; a miss returns the provider's answer; null comes back only on a miss the provider does not answer; a returned presenter is what the store holds under the key; no other key is added and no stored presenter is replaced |
| Resolution.GetOrCreateIdempotent | libs/moxy/src/main/java/moxy/MvpProcessor.java:42-45 | once a key resolves to a presenter, resolving it again returns the same presenter and leaves the store alone, whatever the provider would answer |
| Resolution.BindingsKeepFieldOrder | libs/moxy/src/main/java/moxy/MvpProcessor.java:86-95 | the bound fields form a subsequence of the field list, so bindings keep list order |
| Resolution.BindingsExtendPrefix | libs/moxy/src/main/java/moxy/MvpProcessor.java:86-95 | bindings are only ever appended: those made for the first n fields are a prefix of those made for the whole list |
| Resolution.FieldBoundUnlessNull | libs/moxy/src/main/java/moxy/MvpProcessor.java:87-94 | the i-th field adds exactly one binding, for itself, when its key was stored before its turn or its provider yields a presenter, and adds nothing otherwise; so a field whose key is in the initial store or whose provider yields a presenter is bound |
| Resolution.ResolvedCount | libs/moxy/src/main/java/moxy/MvpProcessor.java:86-97 | there are never more presenters than fields, and when the counts are equal the j-th presenter belongs to the j-th field |
| Resolution.StoreOnlyGrows | libs/moxy/src/main/java/moxy/MvpProcessor.java:86-95 | resolution keeps every stored presenter under its key and adds only keys of the view's fields |
| Resolution.BindingsAreStored | libs/moxy/src/main/java/moxy/MvpProcessor.java:86-93 | every presenter bound to a field is the one the store holds under that field's key after resolution |
| Resolution.StampsAreStored | libs/moxy/src/main/java/moxy/MvpProcessor.java:54-56 | a created presenter is registered in the store under the very tag stamped into it |
| Resolution.StampsComeFromProviders | libs/moxy/src/main/java/moxy/MvpProcessor.java:48-55 | only presenters that some field's provider yields are ever stamped |
| Resolution.NewPresentersAreStamped | libs/moxy/src/main/java/moxy/MvpProcessor.java:54-56 | every presenter newly added to the store has been stamped |
| Resolution.AllHits | libs/moxy/src/main/java/moxy/MvpProcessor.java:86-95 | when every field's key is already stored, the store is unchanged, nothing is stamped and each field is bound, in order, to its stored presenter |
| Resolution.RecreatedViewGetsSamePresenters | libs/moxy/src/main/java/moxy/MvpProcessor.java:39-45 | after a view's fields have all been resolved, a recreated view whose fields give the same tags gets the same presenters in the same order, and nothing is created or stamped |
| MvpProcessor.CombinePresenterFields | libs/moxy/src/main/java/moxy/MvpProcessor.java:100-108 | the combined list is the binder's fields followed by the external fields, or only the external fields when there is no binder |
| MvpProcessor.GetMvpPresenter | libs/moxy/src/main/java/moxy/MvpProcessor.java:34-59 | returns and stores what GetOrCreate gives on the old store; the ghost result `consulted` marks the provider as asked exactly on a miss; a created presenter carries the key and the field's class; otherwise no presenter's tag or class changes |
| MvpProcessor.ResolveAndBind | libs/moxy/src/main/java/moxy/MvpProcessor.java:86-95 | one loop pass: the store, the counter's log and the view's bindings advance by exactly one Step of the specification, and the stamps and untouched labels stay as recorded |
| MvpProcessor.GetMvpPresenters | libs/moxy/src/main/java/moxy/MvpProcessor.java:71-98 | the returned presenters, the new store, the counter's injections and the view's bindings are those of ResolveFields over the combined fields; every created presenter carries its stamp and no other provided presenter's tag or class changes; with no fields nothing changes |

## Left out

- The lookup of the presenter binder by reflection on the view's class (lines 74-75) is left out. The binder is passed in as the list of its fields, or None when the class has none.
- The `MvpFacade` singleton (lines 37 and 84) is left out. The store and the counter are passed in as parameters.
- The internals of `PresenterStore`, `PresentersCounter`, `PresenterField.bind` and the generated providers are not part of this model.
  - The store is a map.
  - The counter and the view keep logs of the injections and bindings they receive.
  - `getTag` and `providePresenter` are fixed functions of the view, so a provider answers the same each time it is asked.
- Java generics and the class-name suffix constants (lines 14-20) are left out, because nothing in the modelled routine uses them.
- The external fields arrive as a `Set`. Its iteration order is unspecified, so the model takes them as any sequence, and the proved properties hold for every order.
- MvpProcessor.GetMvpPresenter: the presenters a provider may yield must be allocated objects. The provider is modelled as a function, so the model cannot otherwise rule out a reference that does not exist yet. The provider call itself is recorded by the ghost result `consulted`, not by a side effect.
- MvpProcessor.GetMvpPresenters: states the "tag and class unchanged" guarantee only for presenters that some field's provider yields. Presenters reached only through the store are not in its frame and cannot change.
- Resolution.FieldKey: a field's tag is never null. In Java a null tag is concatenated as the text "null", so it gets the same key as the tag "null"; the model does not represent that case.
- The application's `MainActivity.kt` is UI glue and is not part of this model.
