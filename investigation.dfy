/** The investigation phase: a latch that switches the game into the
    accusation phase once the police officer has all the evidence, and that
    only a reset switches off. */
module Investigation {
  import opened Police

  /** Something that happens to the latch: a frame tick (with whether the
      officer was ready at that tick), the debug force, or the debug reset. */
  datatype Event = Tick(policeReady: bool) | Force | Reset

  /** The phase after one event, as the manager's methods define it. */
  function Step(active: bool, e: Event): (next: bool)
    ensures e.Reset? ==> !next
    ensures e.Force? ==> next
    ensures e.Tick? ==> (next <==> active || e.policeReady)
  {
    match e
    case Tick(ready) => active || ready
    case Force => true
    case Reset => false
  }

  /** The phase after a run of events. */
  function Run(active: bool, events: seq<Event>): bool
    decreases |events|
  {
    if events == [] then active else Run(Step(active, events[0]), events[1..])
  }

  predicate Activates(e: Event) {
    e.Force? || (e.Tick? && e.policeReady)
  }

  /** Without a reset, the phase is active after a run exactly when it was
      active before or some event of the run activated it: nothing but a
      reset ever ends the phase. */
  lemma {:induction false} RunWithoutReset(active: bool, events: seq<Event>)
    requires forall i :: 0 <= i < |events| ==> !events[i].Reset?
    ensures Run(active, events) <==> active || exists i :: 0 <= i < |events| && Activates(events[i])
    decreases |events|
  {
    if events != [] {
      RunWithoutReset(Step(active, events[0]), events[1..]);
      if exists i :: 0 <= i < |events| && Activates(events[i]) {
        var i :| 0 <= i < |events| && Activates(events[i]);
        if i > 0 {
          assert Activates(events[1..][i - 1]);
        }
      }
      forall i | 0 <= i < |events| - 1 && Activates(events[1..][i])
        ensures Activates(events[i + 1])
      {
      }
    }
  }

  /** After a run whose last event is a reset, the phase is off. */
  lemma {:induction false} RunEndingInReset(active: bool, events: seq<Event>)
    requires events != [] && events[|events| - 1].Reset?
    ensures !Run(active, events)
    decreases |events|
  {
    if |events| > 1 {
      RunEndingInReset(Step(active, events[0]), events[1..]);
    }
  }

  class InvestigationManager {
    /** The officer whose readiness the manager watches, when assigned. */
    const policeInvestigator: PoliceInvestigator?
    var isAccusationPhaseActive: bool

    /** The phase starts inactive. */
    constructor (policeInvestigator: PoliceInvestigator?)
      ensures this.policeInvestigator == policeInvestigator && !isAccusationPhaseActive
    {
      this.policeInvestigator := policeInvestigator;
      isAccusationPhaseActive := false;
    }

    /** The officer is assigned and ready for the accusation. */
    predicate PoliceReady()
      reads this, policeInvestigator
    {
      policeInvestigator != null && policeInvestigator.IsReadyForAccusation()
    }

    /** The per-frame check: an inactive phase becomes active once the
        officer is ready. */
    method Update()
      modifies this
      ensures isAccusationPhaseActive == Step(old(isAccusationPhaseActive), Tick(old(PoliceReady())))
    {
      if !isAccusationPhaseActive && policeInvestigator != null {
        if policeInvestigator.IsReadyForAccusation() {
          ActivateAccusationPhase();
        }
      }
    }

    /** Switches the phase on; on an active phase it changes nothing. */
    method ActivateAccusationPhase()
      modifies this
      ensures isAccusationPhaseActive
      ensures old(isAccusationPhaseActive) ==> unchanged(this)
    {
      if isAccusationPhaseActive {
        return;
      }
      isAccusationPhaseActive := true;
    }

    method IsAccusationPhaseActive() returns (active: bool)
      ensures active <==> isAccusationPhaseActive
    {
      return isAccusationPhaseActive;
    }

    /** The debug force: the phase is switched on whatever the officer's
        state. */
    method ForceActivateAccusation()
      modifies this
      ensures isAccusationPhaseActive == Step(old(isAccusationPhaseActive), Force)
    {
      ActivateAccusationPhase();
    }

    /** The debug reset: the phase is switched off. */
    method ResetState()
      modifies this
      ensures isAccusationPhaseActive == Step(old(isAccusationPhaseActive), Reset)
    {
      isAccusationPhaseActive := false;
    }
  }
}
