/**
 * The collaborators that MvpProcessor talks to. Only the behaviour the
 * processor relies on is modelled: the store is a map with get and
 * add-with-overwrite, the counter and the field binding are append-only logs.
 */
module Moxy {
  import opened Wrappers

  /** A presenter class, identified by its name. */
  type PresenterClass = string

  /** A presenter instance; its tag and class are null until the processor stamps them. */
  class MvpPresenter {
    var tag: Option<string>
    var presenterClass: Option<PresenterClass>

    constructor ()
      ensures tag == None && presenterClass == None
    {
      tag := None;
      presenterClass := None;
    }

    method SetTag(t: string)
      modifies this
      ensures tag == Some(t) && presenterClass == old(presenterClass)
    {
      tag := Some(t);
    }

    method SetPresenterClass(c: PresenterClass)
      modifies this
      ensures presenterClass == Some(c) && tag == old(tag)
    {
      presenterClass := Some(c);
    }
  }

  /** One call of PresenterField.bind: the field of the view now holds the presenter. */
  datatype Binding = Binding(field: PresenterField, presenter: MvpPresenter)

  /** One call of PresentersCounter.injectPresenter. */
  datatype Injection = Injection(presenter: MvpPresenter, delegateTag: string)

  /** The view (the "delegated" object) whose presenter fields are injected. */
  class Delegated {
    ghost var bound: seq<Binding>

    constructor ()
      ensures bound == []
    {
      bound := [];
    }
  }

  /**
   * Describes one presenter field of a view: the class it holds, the tag it
   * derives from the view, and what its provider yields (null or a presenter).
   */
  class PresenterField {
    const presenterClass: PresenterClass
    const getTag: Delegated -> string
    const providePresenter: Delegated -> Option<MvpPresenter>

    constructor (presenterClass: PresenterClass, getTag: Delegated -> string,
                 providePresenter: Delegated -> Option<MvpPresenter>)
      ensures this.presenterClass == presenterClass
      ensures this.getTag == getTag && this.providePresenter == providePresenter
    {
      this.presenterClass := presenterClass;
      this.getTag := getTag;
      this.providePresenter := providePresenter;
    }

    /** Assigns the presenter to this field of the view. */
    method Bind(delegated: Delegated, presenter: MvpPresenter)
      modifies delegated
      ensures delegated.bound == old(delegated.bound) + [Binding(this, presenter)]
    {
      delegated.bound := delegated.bound + [Binding(this, presenter)];
    }
  }

  /** The registry from tag to live presenter. */
  class PresenterStore {
    var presenters: map<string, MvpPresenter>

    constructor ()
      ensures presenters == map[]
    {
      presenters := map[];
    }

    /** The presenter stored under the tag, or null when there is none. */
    method Get(tag: string) returns (presenter: Option<MvpPresenter>)
      ensures presenter.Some? <==> tag in presenters
      ensures presenter.Some? ==> presenters[tag] == presenter.value
    {
      presenter := if tag in presenters then Some(presenters[tag]) else None;
    }

    /** Registers the presenter under the tag, replacing any earlier one. */
    method Add(tag: string, presenter: MvpPresenter)
      modifies this
      ensures presenters == old(presenters)[tag := presenter]
    {
      presenters := presenters[tag := presenter];
    }
  }

  /** Reference-counting bookkeeping; only the sequence of notifications is kept. */
  class PresentersCounter {
    ghost var injected: seq<Injection>

    constructor ()
      ensures injected == []
    {
      injected := [];
    }

    method InjectPresenter(presenter: MvpPresenter, delegateTag: string)
      modifies this
      ensures injected == old(injected) + [Injection(presenter, delegateTag)]
    {
      injected := injected + [Injection(presenter, delegateTag)];
    }
  }
}
