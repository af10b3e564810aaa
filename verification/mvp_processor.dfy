/**
 * The presenter injection routine of moxy's MvpProcessor: get-or-create a
 * presenter per field, keyed by the delegate tag and the field's tag, then
 * notify the counter and bind it to the view. The process-wide store and
 * counter are passed in explicitly; the presenter binder found by reflection
 * is passed in as its list of fields (None when the view has no binder).
 */
module MvpProcessor {
  import opened Wrappers
  import opened Moxy
  import opened Resolution

  /** The binder's fields (when there is a binder) followed by the external fields. */
  function CombinePresenterFields(presenterBinder: Option<seq<PresenterField>>,
                                  externalFields: seq<PresenterField>): (fields: seq<PresenterField>)
    ensures presenterBinder.None? ==> fields == externalFields
    ensures presenterBinder.Some? ==>
              && |fields| == |presenterBinder.value| + |externalFields|
              && fields[..|presenterBinder.value|] == presenterBinder.value
              && fields[|presenterBinder.value|..] == externalFields
  {
    var binderFields := if presenterBinder.Some? then presenterBinder.value else [];
    binderFields + externalFields
  }

  /**
   * Returns the presenter stored under the field's key, or else the one its
   * provider yields, stamped with the key and the field's presenter class and
   * registered in the store; null when the provider yields null. `consulted`
   * records whether the provider was asked.
   */
  method GetMvpPresenter(target: Delegated, presenterField: PresenterField, delegateTag: string,
                         store: PresenterStore)
    returns (presenter: Option<MvpPresenter>, ghost consulted: bool)
    requires allocated(Supplied(presenterField, target))
    modifies store, Supplied(presenterField, target)
    ensures var key := FieldKey(presenterField, target, delegateTag);
            var r := GetOrCreate(old(store.presenters), key, presenterField.providePresenter(target));
            presenter == r.presenter && store.presenters == r.store
    // the provider is asked exactly on a miss
    ensures consulted <==> FieldKey(presenterField, target, delegateTag) !in old(store.presenters)
    // a newly created presenter carries its key and class
    ensures Creates(old(store.presenters), FieldKey(presenterField, target, delegateTag),
                    presenterField.providePresenter(target)) ==>
              && presenter.Some?
              && presenter.value.tag == Some(FieldKey(presenterField, target, delegateTag))
              && presenter.value.presenterClass == Some(presenterField.presenterClass)
    // otherwise no presenter is touched
    ensures !Creates(old(store.presenters), FieldKey(presenterField, target, delegateTag),
                     presenterField.providePresenter(target)) ==>
              forall q :: q in Supplied(presenterField, target) ==>
                q.tag == old(q.tag) && q.presenterClass == old(q.presenterClass)
  {
    var presenterClass := presenterField.presenterClass;
    var tag := PresenterKey(delegateTag, presenterField.getTag(target));
    var stored := store.Get(tag);
    if stored.Some? {
      presenter, consulted := stored, false;
      return;
    }
    consulted := true;
    presenter := presenterField.providePresenter(target);
    if presenter.None? {
      return;
    }
    presenter.value.SetTag(tag);
    presenter.value.SetPresenterClass(presenterClass);
    store.Add(tag, presenter.value);
  }

  lemma SuppliedInProvided(fields: seq<PresenterField>, i: nat, target: Delegated)
    requires i < |fields|
    ensures Supplied(fields[i], target) <= Provided(fields, target)
  {
  }

  lemma LogsAppend(bindings: seq<Binding>, b: Binding, delegateTag: string)
    ensures PresentersOf(bindings + [b]) == PresentersOf(bindings) + [b.presenter]
    ensures Injections(bindings + [b], delegateTag) == Injections(bindings, delegateTag) + [Injection(b.presenter, delegateTag)]
  {
    assert (bindings + [b])[..|bindings|] == bindings;
  }

  lemma AppendAssoc<T>(a: seq<T>, b: seq<T>, c: seq<T>)
    ensures a + (b + c) == (a + b) + c
  {
  }

  /** Every stamp of the outcome is written in its presenter. */
  ghost predicate Stamped(out: Outcome)
    reads out.stamps.Keys
  {
    forall p :: p in out.stamps ==>
      p.tag == Some(out.stamps[p].tag) && p.presenterClass == Some(out.stamps[p].presenterClass)
  }

  /** The tag and class a presenter carries. */
  datatype Label = Label(tag: Option<string>, presenterClass: Option<PresenterClass>)

  /** The labels of a set of presenters, as they are in the current state. */
  function Labels(ps: set<MvpPresenter>): (labels: map<MvpPresenter, Label>)
    reads ps
    ensures labels.Keys == ps
  {
    map p | p in ps :: Label(p.tag, p.presenterClass)
  }

  /** Every presenter of `ps` that was not stamped still carries the label recorded in `labels`. */
  ghost predicate KeepsLabels(ps: set<MvpPresenter>, stamps: map<MvpPresenter, Stamp>,
                              labels: map<MvpPresenter, Label>)
    reads ps
  {
    forall p :: p in ps && p !in stamps && p in labels ==> Label(p.tag, p.presenterClass) == labels[p]
  }

  /** The binding made for a field's resolution: one when it is a presenter, none when null. */
  function Bound(field: PresenterField, presenter: Option<MvpPresenter>): seq<Binding>
  {
    if presenter.Some? then [Binding(field, presenter.value)] else []
  }

  /** The counter notification for a field's resolution. */
  function Notified(presenter: Option<MvpPresenter>, delegateTag: string): seq<Injection>
  {
    if presenter.Some? then [Injection(presenter.value, delegateTag)] else []
  }

  /**
   * One pass of the loop in getMvpPresenters: resolves the field and, when it
   * yields a presenter, notifies the counter and binds the presenter to the
   * view. `prev` is what the earlier fields produced.
   */
  method ResolveAndBind(delegated: Delegated, presenterField: PresenterField, delegateTag: string,
                        store: PresenterStore, counter: PresentersCounter, ghost prev: Outcome,
                        ghost ps: set<MvpPresenter>, ghost labels: map<MvpPresenter, Label>)
    returns (presenter: Option<MvpPresenter>)
    requires allocated(ps) && Supplied(presenterField, delegated) <= ps
    requires store.presenters == prev.store
    requires Stamped(prev)
    requires KeepsLabels(ps, prev.stamps, labels)
    modifies store, counter, delegated, Supplied(presenterField, delegated)
    ensures var out := Step(prev, presenterField, delegated, delegateTag);
            && store.presenters == out.store
            && out.bindings == prev.bindings + Bound(presenterField, presenter)
            && counter.injected == old(counter.injected) + Notified(presenter, delegateTag)
            && delegated.bound == old(delegated.bound) + Bound(presenterField, presenter)
            && Stamped(out)
            && KeepsLabels(ps, out.stamps, labels)
  {
    ghost var provided := presenterField.providePresenter(delegated);
    ghost var created := Creates(prev.store, FieldKey(presenterField, delegated, delegateTag), provided);
    ghost var out := Step(prev, presenterField, delegated, delegateTag);
    ghost var consulted;
    presenter, consulted := GetMvpPresenter(delegated, presenterField, delegateTag, store);
    assert Stamped(out) by {
      forall p | p in out.stamps
        ensures p.tag == Some(out.stamps[p].tag) && p.presenterClass == Some(out.stamps[p].presenterClass)
      {
        if !(created && p == provided.value) {
          assert p in prev.stamps && out.stamps[p] == prev.stamps[p];
          assert p.tag == old(p.tag) && p.presenterClass == old(p.presenterClass);
        }
      }
    }
    assert KeepsLabels(ps, out.stamps, labels) by {
      forall p | p in ps && p !in out.stamps && p in labels
        ensures Label(p.tag, p.presenterClass) == labels[p]
      {
        assert p !in prev.stamps;
        assert p.tag == old(p.tag) && p.presenterClass == old(p.presenterClass);
      }
    }
    if presenter.Some? {
      counter.InjectPresenter(presenter.value, delegateTag);
      presenterField.Bind(delegated, presenter.value);
    }
  }

  /**
   * Resolves the presenters of a view: for each field of the binder and then
   * each external field, in order, get-or-create its presenter; each one that
   * is not null is reported to the counter, returned, and bound to the view.
   */
  method GetMvpPresenters(delegated: Delegated, delegateTag: string,
                          presenterBinder: Option<seq<PresenterField>>,
                          externalPresenterFields: seq<PresenterField>,
                          store: PresenterStore, counter: PresentersCounter)
    returns (presenters: seq<MvpPresenter>)
    requires allocated(Provided(CombinePresenterFields(presenterBinder, externalPresenterFields), delegated))
    modifies store, counter, delegated,
             Provided(CombinePresenterFields(presenterBinder, externalPresenterFields), delegated)
    ensures var out := ResolveFields(CombinePresenterFields(presenterBinder, externalPresenterFields),
                                     delegated, delegateTag, old(store.presenters));
            && presenters == PresentersOf(out.bindings)
            && store.presenters == out.store
            && counter.injected == old(counter.injected) + Injections(out.bindings, delegateTag)
            && delegated.bound == old(delegated.bound) + out.bindings
            && Stamped(out)
            && KeepsLabels(Provided(CombinePresenterFields(presenterBinder, externalPresenterFields), delegated),
                           out.stamps,
                           old(Labels(Provided(CombinePresenterFields(presenterBinder, externalPresenterFields), delegated))))
    // with no fields at all nothing is resolved and nothing changes
    ensures CombinePresenterFields(presenterBinder, externalPresenterFields) == [] ==>
              && presenters == []
              && store.presenters == old(store.presenters)
              && counter.injected == old(counter.injected)
              && delegated.bound == old(delegated.bound)
  {
    var presenterFields := CombinePresenterFields(presenterBinder, externalPresenterFields);
    if |presenterFields| == 0 {
      return [];
    }
    presenters := [];
    ghost var labels0 := Labels(Provided(presenterFields, delegated));
    ghost var out := Outcome([], store.presenters, map[]);
    for i := 0 to |presenterFields|
      invariant out == ResolveFields(presenterFields[..i], delegated, delegateTag, old(store.presenters))
      invariant presenters == PresentersOf(out.bindings)
      invariant store.presenters == out.store
      invariant counter.injected == old(counter.injected) + Injections(out.bindings, delegateTag)
      invariant delegated.bound == old(delegated.bound) + out.bindings
      invariant Stamped(out)
      invariant out.stamps.Keys <= Provided(presenterFields, delegated)
      invariant KeepsLabels(Provided(presenterFields, delegated), out.stamps, labels0)
    {
      var presenterField := presenterFields[i];
      ghost var prev := out;
      SuppliedInProvided(presenterFields, i, delegated);
      var presenter := ResolveAndBind(delegated, presenterField, delegateTag, store, counter, prev,
                                      Provided(presenterFields, delegated), labels0);
      out := Step(prev, presenterField, delegated, delegateTag);
      assert presenterFields[..i + 1][..i] == presenterFields[..i];
      if presenter.Some? {
        presenters := presenters + [presenter.value];
        ghost var b := Binding(presenterField, presenter.value);
        LogsAppend(prev.bindings, b, delegateTag);
        AppendAssoc(old(counter.injected), Injections(prev.bindings, delegateTag), [Injection(b.presenter, delegateTag)]);
        AppendAssoc(old(delegated.bound), prev.bindings, [b]);
      }
    }
    assert presenterFields[..|presenterFields|] == presenterFields;
  }
}
