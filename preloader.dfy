/** The preloader overlay. On the window's `load` event, if the overlay is
    in the document it gets the `hide` class and a removal is scheduled
    600 ms later. A failsafe timer at 4.5 s does the same, but only if the
    overlay is still in the document and not yet hidden. A scheduled removal
    detaches the element; calling `remove` on an element already detached
    does nothing. Timers are events here, taken one at a time. */
module Preloader {

  datatype PreloaderState = PreloaderState(
    /** The page's markup has the overlay at all. */
    wasPresent: bool,
    /** `getElementById("preloader")` finds it. */
    inDocument: bool,
    /** It carries the `hide` class. */
    hidden: bool,
    /** Removal timers scheduled and not yet run. */
    pendingRemovals: nat,
    loadFired: bool,
    failsafeFired: bool,
    /** How many `remove` calls actually detached the element. */
    removals: nat)

  /** The page as it starts, with or without the overlay. */
  function Start(present: bool): (r: PreloaderState)
    ensures r.wasPresent == present && r.inDocument == present
    ensures !r.hidden && r.pendingRemovals == 0 && r.removals == 0
    ensures !r.loadFired && !r.failsafeFired
  {
    PreloaderState(present, present, false, 0, false, false, 0)
  }

  /** The `load` listener. */
  function OnLoad(s: PreloaderState): (r: PreloaderState)
    ensures r.loadFired && r.wasPresent == s.wasPresent && r.inDocument == s.inDocument
    ensures s.inDocument ==> r.hidden && r.pendingRemovals == s.pendingRemovals + 1
    ensures !s.inDocument ==> r == s.(loadFired := true)
  {
    var s' := s.(loadFired := true);
    if s.inDocument then s'.(hidden := true, pendingRemovals := s.pendingRemovals + 1) else s'
  }

  /** The 4.5 s failsafe. */
  function OnFailsafe(s: PreloaderState): (r: PreloaderState)
    ensures r.failsafeFired && r.wasPresent == s.wasPresent && r.inDocument == s.inDocument
    ensures r.hidden <==> s.hidden || s.inDocument
    ensures r.pendingRemovals == s.pendingRemovals + (if s.inDocument && !s.hidden then 1 else 0)
  {
    var s' := s.(failsafeFired := true);
    if s.inDocument && !s.hidden then s'.(hidden := true, pendingRemovals := s.pendingRemovals + 1)
    else s'
  }

  /** One scheduled `preloader.remove()` running. */
  function OnRemoveTimer(s: PreloaderState): (r: PreloaderState)
    requires s.pendingRemovals > 0
    ensures !r.inDocument && r.hidden == s.hidden && r.pendingRemovals == s.pendingRemovals - 1
    ensures r.removals == s.removals + (if s.inDocument then 1 else 0)
  {
    var s' := s.(pendingRemovals := s.pendingRemovals - 1);
    if s.inDocument then s'.(inDocument := false, removals := s.removals + 1) else s'
  }

  datatype Event = Load | Failsafe | RemoveTimer

  /** An event as the browser delivers it: `load` and the failsafe fire at
      most once, and a removal timer runs only when one was scheduled;
      anything else is not an event the page can see. */
  function Step(s: PreloaderState, e: Event): (r: PreloaderState)
    ensures r.wasPresent == s.wasPresent && s.removals <= r.removals
    ensures (s.hidden ==> r.hidden) && (!s.inDocument ==> !r.inDocument)
    ensures (s.loadFired ==> r.loadFired) && (s.failsafeFired ==> r.failsafeFired)
  {
    match e
    case Load => if s.loadFired then s else OnLoad(s)
    case Failsafe => if s.failsafeFired then s else OnFailsafe(s)
    case RemoveTimer => if s.pendingRemovals == 0 then s else OnRemoveTimer(s)
  }

  /** A trace of events: nothing it does is ever undone. */
  function Run(s: PreloaderState, events: seq<Event>): (r: PreloaderState)
    ensures r.wasPresent == s.wasPresent && s.removals <= r.removals
    ensures (s.hidden ==> r.hidden) && (!s.inDocument ==> !r.inDocument)
    ensures (s.loadFired ==> r.loadFired) && (s.failsafeFired ==> r.failsafeFired)
    decreases |events|
  {
    if events == [] then s else Run(Step(s, events[0]), events[1..])
  }

  /** What holds of the overlay at every point of the page's life. */
  predicate Valid(s: PreloaderState) {
    // without markup there is nothing to hide or remove
    && (!s.wasPresent ==> !s.inDocument && !s.hidden && s.pendingRemovals == 0)
    // a removal is scheduled only together with `hide`
    && (!s.hidden ==> s.pendingRemovals == 0 && s.inDocument == s.wasPresent)
    // at most one removal per trigger that has fired
    && s.pendingRemovals <= (if s.loadFired then 1 else 0) + (if s.failsafeFired then 1 else 0)
    // a hidden overlay still in the document has a removal on its way
    && (s.inDocument && s.hidden ==> s.pendingRemovals > 0)
    // once either trigger has fired, the overlay has been hidden
    && (s.wasPresent && (s.loadFired || s.failsafeFired) ==> s.hidden)
    // the element is detached by exactly one effective removal
    && s.removals == (if s.wasPresent && !s.inDocument then 1 else 0)
  }

  lemma StartValid(present: bool)
    ensures Valid(Start(present))
  {
  }

  lemma StepKeepsValid(s: PreloaderState, e: Event)
    requires Valid(s)
    ensures Valid(Step(s, e))
  {
  }

  /** Every trace of events keeps the invariant: the overlay is never
      removed before it is hidden, and it is removed at most once. */
  lemma {:induction false} RunKeepsValid(s: PreloaderState, events: seq<Event>)
    requires Valid(s)
    ensures Valid(Run(s, events)) && Run(s, events).wasPresent == s.wasPresent
    ensures Run(s, events).removals <= 1
    ensures !Run(s, events).inDocument && Run(s, events).wasPresent ==> Run(s, events).hidden
    decreases |events|
  {
    if events != [] {
      StepKeepsValid(s, events[0]);
      RunKeepsValid(Step(s, events[0]), events[1..]);
    }
  }

  /** Once either trigger has fired and every scheduled removal has run,
      an overlay that was on the page is gone, removed exactly once. */
  lemma RemovedExactlyOnce(events: seq<Event>)
    requires var s := Run(Start(true), events);
      (s.loadFired || s.failsafeFired) && s.pendingRemovals == 0
    ensures !Run(Start(true), events).inDocument && Run(Start(true), events).removals == 1
  {
    StartValid(true);
    RunKeepsValid(Start(true), events);
  }

  /** The failsafe does nothing but note that it ran when the overlay is
      already hidden or gone. */
  lemma FailsafeAfterHide(s: PreloaderState)
    requires s.hidden || !s.inDocument
    ensures OnFailsafe(s) == s.(failsafeFired := true)
  {
  }

  /** A removal timer that finds the element already detached changes
      nothing but its own count. */
  lemma SecondRemovalNoOp(s: PreloaderState)
    requires s.pendingRemovals > 0 && !s.inDocument
    ensures OnRemoveTimer(s) == s.(pendingRemovals := s.pendingRemovals - 1)
  {
  }

  /** The two orders of the triggers, each followed by its removals, both
      end with the overlay removed once. */
  lemma BothOrdersRemoveOnce()
    ensures Run(Start(true), [Load, RemoveTimer, Failsafe]).removals == 1
    ensures Run(Start(true), [Failsafe, Load, RemoveTimer, RemoveTimer]).removals == 1
    ensures Run(Start(true), [Failsafe, Load, RemoveTimer, RemoveTimer]).pendingRemovals == 0
  {
  }

  /** The overlay as the page holds it. */
  class PreloaderOverlay {
    var inDocument: bool
    var hidden: bool
    var pendingRemovals: nat
    var loadFired: bool
    var failsafeFired: bool
    ghost const wasPresent: bool
    ghost var removals: nat

    ghost function State(): PreloaderState
      reads this
    {
      PreloaderState(wasPresent, inDocument, hidden, pendingRemovals, loadFired, failsafeFired, removals)
    }

    constructor (present: bool)
      ensures State() == Start(present) && Valid(State())
    {
      wasPresent := present;
      inDocument := present;
      hidden := false;
      pendingRemovals := 0;
      loadFired := false;
      failsafeFired := false;
      removals := 0;
    }

    /** The `load` listener, which the browser runs once. */
    method OnLoadEvent()
      requires Valid(State()) && !loadFired
      modifies this
      ensures State() == OnLoad(old(State())) && Valid(State())
    {
      if inDocument {
        hidden := true;
        pendingRemovals := pendingRemovals + 1;
      }
      loadFired := true;
    }

    /** The failsafe timer's callback, which runs once. */
    method OnFailsafeTimer()
      requires Valid(State()) && !failsafeFired
      modifies this
      ensures State() == OnFailsafe(old(State())) && Valid(State())
    {
      if inDocument && !hidden {
        hidden := true;
        pendingRemovals := pendingRemovals + 1;
      }
      failsafeFired := true;
    }

    /** A scheduled `preloader.remove()`. */
    method OnRemoval()
      requires Valid(State()) && pendingRemovals > 0
      modifies this
      ensures State() == OnRemoveTimer(old(State())) && Valid(State())
      ensures old(inDocument) ==> old(hidden)
    {
      pendingRemovals := pendingRemovals - 1;
      if inDocument {
        inDocument := false;
        removals := removals + 1;
      }
    }
  }
}
