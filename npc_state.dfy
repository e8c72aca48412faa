/** The persistent store of per-character conversation state, keyed by actor
    id. Records are shared objects: the characters that read one back also
    edit its evidence list in place. */
module NpcStates {
  import opened Types

  /** The value held by one record at a given moment. */
  datatype Record = Record(actorId: string, currentNodeId: string, hasReceivedEvidence: bool, evidenceGiven: seq<string>)

  class NPCState {
    var actorId: string
    var currentNodeId: string
    var hasReceivedEvidence: bool
    var evidenceGiven: seq<string>

    /** A new record starts with an empty evidence list. */
    constructor (actorId: string, currentNodeId: string, hasReceivedEvidence: bool)
      ensures Snapshot() == Record(actorId, currentNodeId, hasReceivedEvidence, [])
    {
      this.actorId := actorId;
      this.currentNodeId := currentNodeId;
      this.hasReceivedEvidence := hasReceivedEvidence;
      evidenceGiven := [];
    }

    function Snapshot(): Record
      reads this
    {
      Record(actorId, currentNodeId, hasReceivedEvidence, evidenceGiven)
    }
  }

  /** The store's contents after saving `(actorId, nodeId, flag)`: that id
      gets the node id and the flag; an existing record keeps its actor id
      and gets `evidence` as its list; a new record has an empty list; every
      other id keeps its record. */
  function AfterSave(before: map<string, Record>, actorId: string, nodeId: string, flag: bool, evidence: seq<string>): (after: map<string, Record>)
    ensures after.Keys == before.Keys + {actorId}
  {
    before[actorId := if actorId in before
                      then before[actorId].(currentNodeId := nodeId, hasReceivedEvidence := flag, evidenceGiven := evidence)
                      else Record(actorId, nodeId, flag, [])]
  }

  /** What saving does to the store: the saved id gets the node id and the
      flag; an existing record keeps its actor id and takes `evidence` as its
      list; a new record carries the saved id and an empty list; every other
      id keeps its record. */
  lemma AfterSaveEffects(before: map<string, Record>, actorId: string, nodeId: string, flag: bool, evidence: seq<string>)
    ensures var after := AfterSave(before, actorId, nodeId, flag, evidence);
      && after.Keys == before.Keys + {actorId}
      && (forall k :: k in before && k != actorId ==> after[k] == before[k])
      && after[actorId].currentNodeId == nodeId && after[actorId].hasReceivedEvidence == flag
      && (actorId in before ==> after[actorId].actorId == before[actorId].actorId && after[actorId].evidenceGiven == evidence)
      && (actorId !in before ==> after[actorId].actorId == actorId && after[actorId].evidenceGiven == [])
  {
  }

  /** `after` is what a write-back of `(actorId, nodeId, flag)` with the
      names `evidence` makes of `before`, for some order of the names. */
  ghost predicate WrittenBack(before: map<string, Record>, after: map<string, Record>,
                              actorId: string, nodeId: string, flag: bool, evidence: set<string>)
  {
    exists list :: Enumerates(list, evidence) &&
      after == AfterSave(before, actorId, nodeId, flag, if actorId in before then list else [])
  }

  class NPCStateManager {
    var npcStates: map<string, NPCState>

    /** Each record carries its own id, so distinct ids hold distinct
        record objects. */
    ghost predicate Valid()
      reads this, npcStates.Values
    {
      forall k :: k in npcStates ==> npcStates[k].actorId == k
    }

    /** The store's contents as values. */
    ghost function View(): map<string, Record>
      reads this, npcStates.Values
    {
      map k | k in npcStates :: npcStates[k].Snapshot()
    }

    constructor ()
      ensures Valid() && View() == map[]
    {
      npcStates := map[];
    }

    /** Records the node id and the flag under `actorId`; a first save
        creates the record with an empty evidence list. */
    method SaveNPCState(actorId: string, currentNodeId: string, hasReceivedEvidence: bool)
      requires Valid()
      modifies this, npcStates.Values
      ensures Valid()
      ensures actorId in old(npcStates) ==>
        npcStates == old(npcStates) &&
        View() == AfterSave(old(View()), actorId, currentNodeId, hasReceivedEvidence, old(View())[actorId].evidenceGiven)
      ensures actorId !in old(npcStates) ==>
        actorId in npcStates && fresh(npcStates[actorId]) && npcStates == old(npcStates)[actorId := npcStates[actorId]] &&
        View() == AfterSave(old(View()), actorId, currentNodeId, hasReceivedEvidence, [])
    {
      if actorId in npcStates {
        var s := npcStates[actorId];
        s.currentNodeId := currentNodeId;
        s.hasReceivedEvidence := hasReceivedEvidence;
        assert forall k :: k in npcStates && k != actorId ==> npcStates[k] != s;
      } else {
        var s := new NPCState(actorId, currentNodeId, hasReceivedEvidence);
        npcStates := npcStates[actorId := s];
      }
    }

    /** The record object held for `actorId`, or null when there is none. */
    method GetNPCState(actorId: string) returns (state: NPCState?)
      ensures actorId in npcStates ==> state == npcStates[actorId]
      ensures actorId !in npcStates ==> state == null
    {
      if actorId in npcStates {
        return npcStates[actorId];
      }
      return null;
    }

    method HasInteractedWith(actorId: string) returns (r: bool)
      ensures r <==> actorId in npcStates
    {
      return actorId in npcStates;
    }

    /** Forgets every record (a new game). */
    method ClearAllStates()
      modifies this
      ensures Valid() && View() == map[] && npcStates == map[]
    {
      npcStates := map[];
    }
  }

  /** Clears the record's evidence list and appends the elements of
      `evidence` one by one, in the hash set's iteration order. */
  method CopyEvidence(state: NPCState, evidence: set<string>)
    modifies state
    ensures state.Snapshot() == old(state.Snapshot()).(evidenceGiven := state.evidenceGiven)
    ensures Enumerates(state.evidenceGiven, evidence)
  {
    state.evidenceGiven := [];
    var rest := evidence;
    while rest != {}
      invariant rest <= evidence
      invariant NoDuplicates(state.evidenceGiven)
      invariant forall x :: x in state.evidenceGiven <==> x in evidence - rest
      invariant |state.evidenceGiven| + |rest| == |evidence|
      invariant state.Snapshot() == old(state.Snapshot()).(evidenceGiven := state.evidenceGiven)
      decreases rest
    {
      var id :| id in rest;
      assert id !in state.evidenceGiven;
      state.evidenceGiven := state.evidenceGiven + [id];
      rest := rest - {id};
    }
  }

  /** The write-back that the characters perform after a change: look the
      record up; when there is none, fill a fresh record that is never
      stored; copy `evidence` into the record's list; then save the node id
      and the flag. So a first save stores an empty evidence list and a
      later one stores the set, in some order. */
  /** The store and its record objects: everything a write-back may touch,
      nothing without a store. */
  ghost function StoreFrame(store: NPCStateManager?): set<object>
    reads store
  {
    if store == null then {} else {store} + store.npcStates.Values
  }

  method WriteBack(store: NPCStateManager?, actorId: string, nodeId: string, flag: bool, evidence: set<string>)
      returns (ghost list: seq<string>)
    requires store != null ==> store.Valid()
    modifies StoreFrame(store)
    ensures Enumerates(list, evidence)
    ensures store != null ==> store.Valid()
    ensures store != null ==>
      store.View() == AfterSave(old(store.View()), actorId, nodeId, flag,
            if actorId in old(store.View()) then list else [])
  {
    list := EnumerationOf(evidence);
    if store == null {
      return;
    }
    var state := store.GetNPCState(actorId);
    ghost var before := store.View();
    if state == null {
      list := FillUnstored(actorId, flag, evidence);
      assert store.View() == before;
      store.SaveNPCState(actorId, nodeId, flag);
      return;
    }
    list := CopyStoredEvidence(store, actorId, state, evidence);
    store.SaveNPCState(actorId, nodeId, flag);
    SaveOverridesList(before, actorId, nodeId, flag, list);
  }

  /** Saving over a record whose list was just replaced by `evidence` is
      saving with `evidence` as the list. */
  lemma SaveOverridesList(before: map<string, Record>, actorId: string, nodeId: string, flag: bool, evidence: seq<string>)
    requires actorId in before
    ensures var mid := before[actorId := before[actorId].(evidenceGiven := evidence)];
      AfterSave(mid, actorId, nodeId, flag, mid[actorId].evidenceGiven) == AfterSave(before, actorId, nodeId, flag, evidence)
  {
  }

  /** The record a first write-back fills: it is never stored, so only the
      order it lists the evidence in is of interest. */
  method FillUnstored(actorId: string, flag: bool, evidence: set<string>) returns (ghost list: seq<string>)
    ensures Enumerates(list, evidence)
  {
    var state := new NPCState(actorId, "", flag);
    CopyEvidence(state, evidence);
    list := state.evidenceGiven;
  }

  /** `CopyEvidence` on the record stored under `actorId`: the store reads
      as before with that record's list replaced. */
  method CopyStoredEvidence(store: NPCStateManager, actorId: string, state: NPCState, evidence: set<string>)
      returns (ghost list: seq<string>)
    requires store.Valid() && actorId in store.npcStates && state == store.npcStates[actorId]
    modifies state
    ensures Enumerates(list, evidence)
    ensures store.Valid() && store.npcStates == old(store.npcStates)
    ensures store.View() == old(store.View())[actorId := old(store.View())[actorId].(evidenceGiven := list)]
  {
    CopyEvidence(state, evidence);
    list := state.evidenceGiven;
  }

  /** Some list that enumerates `s`. */
  ghost function EnumerationOf(s: set<string>): (list: seq<string>)
    ensures Enumerates(list, s)
    decreases s
  {
    if s == {} then [] else
      var x :| x in s;
      var rest := EnumerationOf(s - {x});
      assert x !in rest;
      [x] + rest
  }
}
