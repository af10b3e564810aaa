/**
 * What MvpProcessor computes, as functions over the store's map: the
 * composite key of a field, the get-or-create step for one field, and the
 * left-to-right resolution of a whole field list. The imperative methods in
 * module MvpProcessor are proved equal to these functions; the lemmas below
 * say what the functions guarantee.
 */
module Resolution {
  import opened Wrappers
  import opened Moxy

  /** The store key of a field: the delegate tag, a dollar sign, the field's tag. */
  function PresenterKey(delegateTag: string, fieldTag: string): (key: string)
    ensures |key| == |delegateTag| + 1 + |fieldTag|
    ensures key[..|delegateTag|] == delegateTag
    ensures key[|delegateTag|] == '$'
    ensures key[|delegateTag| + 1..] == fieldTag
  {
    delegateTag + "$" + fieldTag
  }

  /** The key under which a field of the given view is stored. */
  function FieldKey(field: PresenterField, target: Delegated, delegateTag: string): string
  {
    PresenterKey(delegateTag, field.getTag(target))
  }

  /** Under one delegate tag, different field tags never share a key. */
  lemma PresenterKeyInjective(delegateTag: string, a: string, b: string)
    requires PresenterKey(delegateTag, a) == PresenterKey(delegateTag, b)
    ensures a == b
  {
  }

  /**
   * Across delegate tags the key is ambiguous: a delegate tag that itself
   * contains '$' can meet another delegate's key.
   */
  lemma PresenterKeyAmbiguous()
    ensures exists d1, f1, d2, f2 :: d1 != d2 && PresenterKey(d1, f1) == PresenterKey(d2, f2)
  {
    assert PresenterKey("a$", "b") == PresenterKey("a", "$b");
  }

  /** What one get-or-create step returns and leaves in the store. */
  datatype Resolved = Resolved(presenter: Option<MvpPresenter>, store: map<string, MvpPresenter>)

  /** A step creates (and so stamps and registers) a presenter exactly on a miss the provider answers. */
  predicate Creates(store: map<string, MvpPresenter>, key: string, provided: Option<MvpPresenter>)
  {
    key !in store && provided.Some?
  }

  /** Get-or-create by key: the stored presenter on a hit, otherwise what the provider yields, registered. */
  function GetOrCreate(store: map<string, MvpPresenter>, key: string, provided: Option<MvpPresenter>): (r: Resolved)
    // a hit returns the stored presenter and changes nothing
    ensures key in store ==> r.presenter == Some(store[key]) && r.store == store
    // a miss returns what the provider yields
    ensures key !in store ==> r.presenter == provided
    // null is returned only on a miss the provider does not answer, and then nothing changes
    ensures r.presenter.None? <==> key !in store && provided.None?
    ensures r.presenter.None? ==> r.store == store
    // whatever is returned is what the store now holds under the key
    ensures r.presenter.Some? ==> key in r.store && r.store[key] == r.presenter.value
    // no other key is touched, and no stored presenter is replaced
    ensures r.store.Keys == store.Keys + (if r.presenter.Some? then {key} else {})
    ensures forall k :: k in store ==> r.store[k] == store[k]
  {
    if key in store then Resolved(Some(store[key]), store)
    else if provided.None? then Resolved(None, store)
    else Resolved(provided, store[key := provided.value])
  }

  /** Once a key resolves to a presenter, asking again returns it and consults no provider. */
  lemma GetOrCreateIdempotent(store: map<string, MvpPresenter>, key: string,
                              first: Option<MvpPresenter>, second: Option<MvpPresenter>)
    requires GetOrCreate(store, key, first).presenter.Some?
    ensures var r := GetOrCreate(store, key, first);
            key in r.store && GetOrCreate(r.store, key, second) == r
  {
  }

  /** The presenters a field could hand to the processor: its provider's answer, if any. */
  function Supplied(field: PresenterField, target: Delegated): set<MvpPresenter>
  {
    if field.providePresenter(target).Some? then {field.providePresenter(target).value} else {}
  }

  /** Every presenter some field of the list could hand to the processor. */
  function Provided(fields: seq<PresenterField>, target: Delegated): set<MvpPresenter>
  {
    set i, p | 0 <= i < |fields| && p in Supplied(fields[i], target) :: p
  }

  /** The keys of all fields of the list. */
  function FieldKeys(fields: seq<PresenterField>, target: Delegated, delegateTag: string): set<string>
  {
    set i | 0 <= i < |fields| :: FieldKey(fields[i], target, delegateTag)
  }

  /** The tag and class written into a newly created presenter. */
  datatype Stamp = Stamp(tag: string, presenterClass: PresenterClass)

  /**
   * The state after resolving a prefix of the field list: the bindings made
   * so far (field and presenter, in order), the store, and the stamp last
   * written into each presenter that was created.
   */
  datatype Outcome = Outcome(bindings: seq<Binding>, store: map<string, MvpPresenter>,
                             stamps: map<MvpPresenter, Stamp>)

  /** Resolves one more field: get-or-create its presenter, stamp it if new, bind it if not null. */
  function Step(prev: Outcome, field: PresenterField, target: Delegated, delegateTag: string): Outcome
  {
    var key := FieldKey(field, target, delegateTag);
    var provided := field.providePresenter(target);
    var r := GetOrCreate(prev.store, key, provided);
    var stamps := if Creates(prev.store, key, provided)
                  then prev.stamps[provided.value := Stamp(key, field.presenterClass)]
                  else prev.stamps;
    var bindings := if r.presenter.Some? then prev.bindings + [Binding(field, r.presenter.value)]
                    else prev.bindings;
    Outcome(bindings, r.store, stamps)
  }

  /** Resolves the fields one after the other, starting from the given store. */
  function ResolveFields(fields: seq<PresenterField>, target: Delegated, delegateTag: string,
                         store: map<string, MvpPresenter>): Outcome
    decreases |fields|
  {
    if fields == [] then Outcome([], store, map[])
    else Step(ResolveFields(fields[..|fields| - 1], target, delegateTag, store),
              fields[|fields| - 1], target, delegateTag)
  }

  /** The presenters of a binding log, in order. */
  function PresentersOf(bindings: seq<Binding>): seq<MvpPresenter>
  {
    seq(|bindings|, j requires 0 <= j < |bindings| => bindings[j].presenter)
  }

  /** The fields of a binding log, in order. */
  function FieldsOf(bindings: seq<Binding>): seq<PresenterField>
  {
    seq(|bindings|, j requires 0 <= j < |bindings| => bindings[j].field)
  }

  /** The counter notifications for a binding log under one delegate tag. */
  function Injections(bindings: seq<Binding>, delegateTag: string): seq<Injection>
  {
    seq(|bindings|, j requires 0 <= j < |bindings| => Injection(bindings[j].presenter, delegateTag))
  }

  /** `sub` is `s` with some elements left out, the rest kept in order. */
  ghost predicate IsSubsequence(sub: seq<PresenterField>, s: seq<PresenterField>)
    decreases |s|
  {
    if sub == [] then true
    else if s == [] then false
    else if sub[|sub| - 1] == s[|s| - 1] && IsSubsequence(sub[..|sub| - 1], s[..|s| - 1]) then true
    else IsSubsequence(sub, s[..|s| - 1])
  }

  lemma {:induction false} SubsequenceLength(sub: seq<PresenterField>, s: seq<PresenterField>)
    requires IsSubsequence(sub, s)
    ensures |sub| <= |s|
    ensures |sub| == |s| ==> sub == s
    decreases |s|
  {
    if sub != [] {
      if sub[|sub| - 1] == s[|s| - 1] && IsSubsequence(sub[..|sub| - 1], s[..|s| - 1]) {
        SubsequenceLength(sub[..|sub| - 1], s[..|s| - 1]);
        assert sub == sub[..|sub| - 1] + [sub[|sub| - 1]];
        assert s == s[..|s| - 1] + [s[|s| - 1]];
      } else {
        SubsequenceLength(sub, s[..|s| - 1]);
      }
    }
  }

  /**
   * The bound fields form a subsequence of the field list: they keep list
   * order. Which fields are left out is stated by FieldBoundUnlessNull.
   */
  lemma {:induction false} BindingsKeepFieldOrder(fields: seq<PresenterField>, target: Delegated,
                                                  delegateTag: string, store: map<string, MvpPresenter>)
    ensures var out := ResolveFields(fields, target, delegateTag, store);
            IsSubsequence(FieldsOf(out.bindings), fields)
    decreases |fields|
  {
    if fields != [] {
      var init := fields[..|fields| - 1];
      var prev := ResolveFields(init, target, delegateTag, store);
      BindingsKeepFieldOrder(init, target, delegateTag, store);
      var out := ResolveFields(fields, target, delegateTag, store);
      if |out.bindings| == |prev.bindings| {
        assert FieldsOf(out.bindings) == FieldsOf(prev.bindings);
        SubsequenceDropLast(FieldsOf(prev.bindings), fields);
      } else {
        var sub := FieldsOf(out.bindings);
        assert sub[..|sub| - 1] == FieldsOf(prev.bindings);
      }
    }
  }

  lemma {:induction false} SubsequenceDropLast(sub: seq<PresenterField>, s: seq<PresenterField>)
    requires s != [] && IsSubsequence(sub, s[..|s| - 1])
    ensures IsSubsequence(sub, s)
  {
  }

  /**
   * At most one binding per field; when every field yields a presenter, the
   * j-th binding belongs to the j-th field.
   */
  lemma {:induction false} ResolvedCount(fields: seq<PresenterField>, target: Delegated,
                                         delegateTag: string, store: map<string, MvpPresenter>)
    ensures var out := ResolveFields(fields, target, delegateTag, store);
            && |out.bindings| <= |fields|
            && (|out.bindings| == |fields| ==> forall j :: 0 <= j < |fields| ==> out.bindings[j].field == fields[j])
  {
    var out := ResolveFields(fields, target, delegateTag, store);
    BindingsKeepFieldOrder(fields, target, delegateTag, store);
    SubsequenceLength(FieldsOf(out.bindings), fields);
  }

  /**
   * Resolution only adds to the store: every stored presenter stays under its
   * key, and every new key is the key of one of the fields.
   */
  lemma {:induction false} StoreOnlyGrows(fields: seq<PresenterField>, target: Delegated,
                                          delegateTag: string, store: map<string, MvpPresenter>)
    ensures var out := ResolveFields(fields, target, delegateTag, store);
            && store.Keys <= out.store.Keys
            && (forall k :: k in store ==> out.store[k] == store[k])
            && out.store.Keys <= store.Keys + FieldKeys(fields, target, delegateTag)
    decreases |fields|
  {
    if fields != [] {
      var init := fields[..|fields| - 1];
      StoreOnlyGrows(init, target, delegateTag, store);
      assert FieldKeys(init, target, delegateTag) <= FieldKeys(fields, target, delegateTag) by {
        forall k | k in FieldKeys(init, target, delegateTag)
          ensures k in FieldKeys(fields, target, delegateTag)
        {
          var i :| 0 <= i < |init| && FieldKey(init[i], target, delegateTag) == k;
          assert fields[i] == init[i];
        }
      }
      assert FieldKey(fields[|fields| - 1], target, delegateTag) in FieldKeys(fields, target, delegateTag);
    }
  }

  /** The bindings made for a prefix of the field list are a prefix of the bindings made for the whole list. */
  lemma {:induction false} BindingsExtendPrefix(fields: seq<PresenterField>, n: nat, target: Delegated,
                                                delegateTag: string, store: map<string, MvpPresenter>)
    requires n <= |fields|
    ensures ResolveFields(fields[..n], target, delegateTag, store).bindings
            <= ResolveFields(fields, target, delegateTag, store).bindings
    decreases |fields|
  {
    if n < |fields| {
      var init := fields[..|fields| - 1];
      assert init[..n] == fields[..n];
      BindingsExtendPrefix(init, n, target, delegateTag, store);
    } else {
      assert fields[..n] == fields;
    }
  }

  /**
   * The i-th field gets a binding exactly when its resolution is not null:
   * its key was stored before its turn, or its provider yields a presenter.
   * Otherwise it is skipped and the bindings stay as they were. In
   * particular a field whose key is in the initial store, or whose provider
   * yields a presenter, is bound.
   */
  lemma FieldBoundUnlessNull(fields: seq<PresenterField>, i: nat, target: Delegated,
                             delegateTag: string, store: map<string, MvpPresenter>)
    requires i < |fields|
    ensures var before := ResolveFields(fields[..i], target, delegateTag, store);
            var after := ResolveFields(fields[..i + 1], target, delegateTag, store);
            var resolves := FieldKey(fields[i], target, delegateTag) in before.store
                            || fields[i].providePresenter(target).Some?;
            && (resolves ==> && |after.bindings| == |before.bindings| + 1
                             && after.bindings[..|before.bindings|] == before.bindings
                             && after.bindings[|before.bindings|].field == fields[i])
            && (!resolves ==> after.bindings == before.bindings)
            && after.bindings <= ResolveFields(fields, target, delegateTag, store).bindings
    ensures FieldKey(fields[i], target, delegateTag) in store || fields[i].providePresenter(target).Some? ==>
              fields[i] in FieldsOf(ResolveFields(fields, target, delegateTag, store).bindings)
  {
    var before := ResolveFields(fields[..i], target, delegateTag, store);
    var after := ResolveFields(fields[..i + 1], target, delegateTag, store);
    var out := ResolveFields(fields, target, delegateTag, store);
    assert fields[..i + 1][..i] == fields[..i];
    assert after == Step(before, fields[i], target, delegateTag);
    BindingsExtendPrefix(fields, i + 1, target, delegateTag, store);
    StoreOnlyGrows(fields[..i], target, delegateTag, store);
    if FieldKey(fields[i], target, delegateTag) in store || fields[i].providePresenter(target).Some? {
      var j := |before.bindings|;
      assert out.bindings[j] == after.bindings[j];
      assert FieldsOf(out.bindings)[j] == fields[i];
    }
  }

  /** Every binding's presenter is what the store holds under the key of the binding's field. */
  ghost predicate BoundAsStored(out: Outcome, target: Delegated, delegateTag: string)
  {
    forall j :: 0 <= j < |out.bindings| ==> StoredUnderKey(out.store, out.bindings[j], target, delegateTag)
  }

  ghost predicate StoredUnderKey(store: map<string, MvpPresenter>, b: Binding, target: Delegated, delegateTag: string)
  {
    FieldKey(b.field, target, delegateTag) in store && store[FieldKey(b.field, target, delegateTag)] == b.presenter
  }

  /** Every bound presenter is the one the store finally holds under its field's key. */
  lemma {:induction false} BindingsAreStored(fields: seq<PresenterField>, target: Delegated,
                                             delegateTag: string, store: map<string, MvpPresenter>)
    ensures BoundAsStored(ResolveFields(fields, target, delegateTag, store), target, delegateTag)
    decreases |fields|
  {
    if fields != [] {
      var init := fields[..|fields| - 1];
      var last := fields[|fields| - 1];
      BindingsAreStored(init, target, delegateTag, store);
      var prev := ResolveFields(init, target, delegateTag, store);
      var r := GetOrCreate(prev.store, FieldKey(last, target, delegateTag), last.providePresenter(target));
      var out := ResolveFields(fields, target, delegateTag, store);
      assert out == Step(prev, last, target, delegateTag);
      assert out.store == r.store;
      forall j | 0 <= j < |out.bindings|
        ensures StoredUnderKey(out.store, out.bindings[j], target, delegateTag)
      {
        if j < |prev.bindings| {
          assert out.bindings[j] == prev.bindings[j];
          assert StoredUnderKey(prev.store, prev.bindings[j], target, delegateTag);
        } else {
          assert out.bindings[j] == Binding(last, r.presenter.value);
        }
      }
    }
  }

  /** Every stamped presenter is what the store holds under the tag it was last stamped with. */
  ghost predicate StampsStored(out: Outcome)
  {
    forall p :: p in out.stamps ==> StoredUnderStamp(out, p)
  }

  ghost predicate StoredUnderStamp(out: Outcome, p: MvpPresenter)
    requires p in out.stamps
  {
    out.stamps[p].tag in out.store && out.store[out.stamps[p].tag] == p
  }

  /** A created presenter stays registered under the tag stamped into it. */
  lemma {:induction false} StampsAreStored(fields: seq<PresenterField>, target: Delegated,
                                           delegateTag: string, store: map<string, MvpPresenter>)
    ensures StampsStored(ResolveFields(fields, target, delegateTag, store))
    decreases |fields|
  {
    if fields != [] {
      var init := fields[..|fields| - 1];
      var last := fields[|fields| - 1];
      StampsAreStored(init, target, delegateTag, store);
      var prev := ResolveFields(init, target, delegateTag, store);
      var key := FieldKey(last, target, delegateTag);
      var r := GetOrCreate(prev.store, key, last.providePresenter(target));
      var out := ResolveFields(fields, target, delegateTag, store);
      assert out == Step(prev, last, target, delegateTag);
      forall p | p in out.stamps
        ensures StoredUnderStamp(out, p)
      {
        if !(Creates(prev.store, key, last.providePresenter(target)) && p == last.providePresenter(target).value) {
          var tag := prev.stamps[p].tag;
          assert StoredUnderStamp(prev, p);
          assert r.store[tag] == prev.store[tag];
        }
      }
    }
  }

  /** Only presenters that the fields' providers yield are ever stamped. */
  lemma {:induction false} StampsComeFromProviders(fields: seq<PresenterField>, target: Delegated,
                                                   delegateTag: string, store: map<string, MvpPresenter>)
    ensures ResolveFields(fields, target, delegateTag, store).stamps.Keys <= Provided(fields, target)
    decreases |fields|
  {
    if fields != [] {
      var init := fields[..|fields| - 1];
      var last := fields[|fields| - 1];
      StampsComeFromProviders(init, target, delegateTag, store);
      var prev := ResolveFields(init, target, delegateTag, store);
      forall p | p in prev.stamps ensures p in Provided(fields, target) {
        var i, q :| 0 <= i < |init| && q in Supplied(init[i], target) && q == p;
        assert fields[i] == init[i];
      }
      if Creates(prev.store, FieldKey(last, target, delegateTag), last.providePresenter(target)) {
        assert last.providePresenter(target).value in Supplied(fields[|fields| - 1], target);
      }
    }
  }

  /** Every presenter added to the store was stamped. */
  lemma {:induction false} NewPresentersAreStamped(fields: seq<PresenterField>, target: Delegated,
                                                   delegateTag: string, store: map<string, MvpPresenter>)
    ensures var out := ResolveFields(fields, target, delegateTag, store);
            forall k :: k in out.store && k !in store ==> out.store[k] in out.stamps
    decreases |fields|
  {
    if fields != [] {
      NewPresentersAreStamped(fields[..|fields| - 1], target, delegateTag, store);
    }
  }

  /**
   * When every field's key is already stored (the view was recreated), the
   * store is left as it is, nothing is stamped, and every field is bound, in
   * order, to the presenter stored under its key.
   */
  lemma {:induction false} AllHits(fields: seq<PresenterField>, target: Delegated,
                                   delegateTag: string, store: map<string, MvpPresenter>)
    requires forall i :: 0 <= i < |fields| ==> FieldKey(fields[i], target, delegateTag) in store
    ensures var out := ResolveFields(fields, target, delegateTag, store);
            && out.store == store
            && out.stamps == map[]
            && |out.bindings| == |fields|
            && forall j :: 0 <= j < |fields| ==>
                 out.bindings[j] == Binding(fields[j], store[FieldKey(fields[j], target, delegateTag)])
    decreases |fields|
  {
    if fields != [] {
      var init := fields[..|fields| - 1];
      AllHits(init, target, delegateTag, store);
    }
  }

  /**
   * A presenter survives the recreation of its view: once every field of a
   * view was resolved, resolving the same fields for a new view whose fields
   * derive the same tags returns the same presenters, in the same order,
   * and neither creates nor stamps anything.
   */
  lemma RecreatedViewGetsSamePresenters(fields: seq<PresenterField>, view: Delegated, recreated: Delegated,
                                        delegateTag: string, store: map<string, MvpPresenter>)
    requires |ResolveFields(fields, view, delegateTag, store).bindings| == |fields|
    requires forall i :: 0 <= i < |fields| ==> fields[i].getTag(recreated) == fields[i].getTag(view)
    ensures var first := ResolveFields(fields, view, delegateTag, store);
            var again := ResolveFields(fields, recreated, delegateTag, first.store);
            && again.store == first.store
            && again.stamps == map[]
            && PresentersOf(again.bindings) == PresentersOf(first.bindings)
  {
    var first := ResolveFields(fields, view, delegateTag, store);
    ResolvedCount(fields, view, delegateTag, store);
    BindingsAreStored(fields, view, delegateTag, store);
    forall i | 0 <= i < |fields|
      ensures FieldKey(fields[i], recreated, delegateTag) in first.store
      ensures first.store[FieldKey(fields[i], recreated, delegateTag)] == first.bindings[i].presenter
    {
      assert first.bindings[i].field == fields[i];
      assert StoredUnderKey(first.store, first.bindings[i], view, delegateTag);
    }
    AllHits(fields, recreated, delegateTag, first.store);
  }
}
