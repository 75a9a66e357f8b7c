/** Reveal-on-scroll bookkeeping, shared by the home page and the writings
    page. An IntersectionObserver holds a set of observed targets; its
    callback receives a batch of entries and, for each entry that is
    intersecting, adds the `in-view` class to the target and stops observing
    it. Whether an entry is intersecting is computed by the browser and is
    an input here. */
module Reveal {

  /** One `IntersectionObserverEntry`: its target and `isIntersecting`. */
  datatype Entry<T> = Entry(target: T, isIntersecting: bool)

  /** The observer's observed set, and the targets carrying `in-view`. */
  datatype RevealState<T> = RevealState(observed: set<T>, inView: set<T>)

  /** The targets of the intersecting entries of a batch. */
  function Intersecting<T>(entries: seq<Entry<T>>): set<T> {
    set i | 0 <= i < |entries| && entries[i].isIntersecting :: entries[i].target
  }

  /** The callback's work for one entry. */
  function OnEntry<T>(s: RevealState<T>, e: Entry<T>): (r: RevealState<T>)
    ensures s.inView <= r.inView && r.observed <= s.observed
    ensures r.inView - s.inView <= {e.target} && s.observed - r.observed <= {e.target}
    ensures e.isIntersecting ==> e.target in r.inView && e.target !in r.observed
    ensures !e.isIntersecting ==> r == s
  {
    if e.isIntersecting then RevealState(s.observed - {e.target}, s.inView + {e.target}) else s
  }

  /** The callback's `forEach` over a batch, entry by entry in order. */
  function OnBatch<T>(s: RevealState<T>, entries: seq<Entry<T>>): (r: RevealState<T>)
    ensures s.inView <= r.inView && r.observed <= s.observed
    decreases |entries|
  {
    if entries == [] then s else OnBatch(OnEntry(s, entries[0]), entries[1..])
  }

  /** A batch as a whole: the intersecting targets `I` join `in-view` and
      leave the observed set, `inView' = inView + I` and
      `observed' = observed - I`. */
  lemma {:induction false} BatchClosedForm<T>(s: RevealState<T>, entries: seq<Entry<T>>)
    ensures OnBatch(s, entries) ==
      RevealState(s.observed - Intersecting(entries), s.inView + Intersecting(entries))
    decreases |entries|
  {
    if entries != [] {
      BatchClosedForm(OnEntry(s, entries[0]), entries[1..]);
      IntersectingCons(entries);
    }
  }

  lemma IntersectingCons<T>(entries: seq<Entry<T>>)
    requires entries != []
    ensures Intersecting(entries) ==
      (if entries[0].isIntersecting then {entries[0].target} else {}) + Intersecting(entries[1..])
  {
    var rest := entries[1..];
    forall t | t in Intersecting(entries)
      ensures t in (if entries[0].isIntersecting then {entries[0].target} else {}) + Intersecting(rest)
    {
      var i :| 0 <= i < |entries| && entries[i].isIntersecting && entries[i].target == t;
      if i > 0 {
        assert rest[i - 1] == entries[i];
      }
    }
    forall t | t in Intersecting(rest) ensures t in Intersecting(entries) {
      var i :| 0 <= i < |rest| && rest[i].isIntersecting && rest[i].target == t;
      assert entries[i + 1] == rest[i];
    }
  }

  /** The outcome of a batch does not depend on the order of its entries,
      nor on entries repeated. */
  lemma BatchOrderIrrelevant<T>(s: RevealState<T>, e1: seq<Entry<T>>, e2: seq<Entry<T>>)
    requires forall e :: e in e1 <==> e in e2
    ensures OnBatch(s, e1) == OnBatch(s, e2)
  {
    BatchClosedForm(s, e1);
    BatchClosedForm(s, e2);
    forall t | t in Intersecting(e1) ensures t in Intersecting(e2) {
      var i :| 0 <= i < |e1| && e1[i].isIntersecting && e1[i].target == t;
      assert e1[i] in e2;
    }
    forall t | t in Intersecting(e2) ensures t in Intersecting(e1) {
      var i :| 0 <= i < |e2| && e2[i].isIntersecting && e2[i].target == t;
      assert e2[i] in e1;
    }
  }

  /** `in-view` is never taken away; a target gains it only through an
      intersecting entry, and stops being observed in the same batch. */
  lemma RevealIsOneShot<T>(s: RevealState<T>, entries: seq<Entry<T>>, t: T)
    ensures s.inView <= OnBatch(s, entries).inView
    ensures t in OnBatch(s, entries).inView - s.inView ==>
              exists i :: 0 <= i < |entries| && entries[i].target == t && entries[i].isIntersecting
    ensures t in OnBatch(s, entries).inView - s.inView ==> t !in OnBatch(s, entries).observed
  {
    BatchClosedForm(s, entries);
  }

  /** Entries that are not intersecting change neither set. */
  lemma NonIntersectingIsNoOp<T>(s: RevealState<T>, entries: seq<Entry<T>>)
    requires forall i :: 0 <= i < |entries| ==> !entries[i].isIntersecting
    ensures OnBatch(s, entries) == s
  {
    BatchClosedForm(s, entries);
    assert Intersecting(entries) == {};
  }

  /** The browser reports only observed targets; under that contract every
      target revealed by a batch was being observed. */
  lemma RevealedWereObserved<T>(s: RevealState<T>, entries: seq<Entry<T>>)
    requires forall i :: 0 <= i < |entries| ==> entries[i].target in s.observed
    ensures OnBatch(s, entries).inView - s.inView <= s.observed
  {
    BatchClosedForm(s, entries);
  }

  /** Observing: `observe` on a target already observed changes nothing. */
  function Observe<T>(observed: set<T>, t: T): (r: set<T>)
    ensures t in r && observed <= r && r - {t} <= observed
  {
    observed + {t}
  }

  lemma ObserveIdempotent<T>(observed: set<T>, t: T)
    ensures Observe(Observe(observed, t), t) == Observe(observed, t)
    ensures t in observed ==> Observe(observed, t) == observed
  {
  }

  /** The elements of a list of targets. */
  function Elements<T>(ts: seq<T>): set<T> {
    set i | 0 <= i < |ts| :: ts[i]
  }

  /** An observer and the `in-view` marks on its targets. */
  class RevealObserver<T(==)> {
    var observed: set<T>
    var inView: set<T>

    function State(): RevealState<T>
      reads this
    {
      RevealState(observed, inView)
    }

    /** A new observer, observing nothing; `inView` is the set of targets that
        already carry the class. */
    constructor (inView: set<T>)
      ensures observed == {} && this.inView == inView
    {
      observed := {};
      this.inView := inView;
    }

    /** `observer.observe(t)`. */
    method ObserveTarget(t: T)
      modifies this`observed
      ensures observed == Observe(old(observed), t)
    {
      observed := observed + {t};
    }

    /** `targets.forEach(t => observer.observe(t))`. */
    method ObserveAll(targets: seq<T>)
      modifies this`observed
      ensures observed == old(observed) + Elements(targets)
    {
      var i := 0;
      while i < |targets|
        invariant 0 <= i <= |targets|
        invariant observed == old(observed) + Elements(targets[..i])
      {
        assert Elements(targets[..i + 1]) == Elements(targets[..i]) + {targets[i]} by {
          assert targets[..i + 1] == targets[..i] + [targets[i]];
        }
        ObserveTarget(targets[i]);
        i := i + 1;
      }
      assert targets[..i] == targets;
    }

    /** The observer's callback, applied to one batch of entries. */
    method OnEntries(entries: seq<Entry<T>>)
      modifies this
      ensures State() == OnBatch(old(State()), entries)
      ensures inView == old(inView) + Intersecting(entries)
      ensures observed == old(observed) - Intersecting(entries)
    {
      var i := 0;
      while i < |entries|
        invariant 0 <= i <= |entries|
        invariant OnBatch(old(State()), entries) == OnBatch(State(), entries[i..])
      {
        var entry := entries[i];
        if entry.isIntersecting {
          inView := inView + {entry.target};
          observed := observed - {entry.target};
        }
        i := i + 1;
      }
      BatchClosedForm(old(State()), entries);
    }
  }

  /** The home page's set-up: every reveal target is observed once at
      creation of the observer and again when the stagger delays are set;
      the second pass changes nothing. */
  method SetUpHomePage<T(==)>(revealTargets: seq<T>, marked: set<T>)
    returns (observer: RevealObserver<T>)
    ensures fresh(observer)
    ensures observer.observed == Elements(revealTargets) && observer.inView == marked
  {
    observer := new RevealObserver(marked);
    observer.ObserveAll(revealTargets);
    ghost var once := observer.observed;
    observer.ObserveAll(revealTargets);
    assert observer.observed == once;
  }
}
