/** A named character with an evidence gate on its dialogue nodes, custom
    first-time and repeat reactions to particular items, and a record in the
    persistent state store. */
module Actor {
  import opened Types
  import opened NpcStates

  /** How the character reacts to one item: a node for the first time it is
      shown, one for later times; either may be unset. */
  datatype EvidenceReaction = EvidenceReaction(evidence: Option<EvidenceItem>, onFirstPresent: Option<NodeRef>, onRepeat: Option<NodeRef>)

  /** The position of the first reaction configured for `item`, as the
      list's `Find` returns it. */
  function FindReaction(reactions: seq<EvidenceReaction>, item: EvidenceItem): (r: Option<nat>)
    ensures r.Some? ==> r.value < |reactions| && reactions[r.value].evidence == Some(item)
    ensures r.Some? ==> forall j :: 0 <= j < r.value ==> reactions[j].evidence != Some(item)
    ensures r.None? ==> forall j :: 0 <= j < |reactions| ==> reactions[j].evidence != Some(item)
  {
    if reactions == [] then None
    else if reactions[0].evidence == Some(item) then Some(0)
    else
      match FindReaction(reactions[1..], item)
      case None => None
      case Some(i) => Some(i + 1)
  }

  const Irrelevant := "I don't think that's relevant right now."
  const NotWhatINeed := "That's not what I need."
  const AlreadyShown := "You already showed me that."
  const Interesting := "Interesting..."

  /** The one-line reply spoken when a reaction has no lines to show. */
  function FallbackReply(displayName: string, seenBefore: bool): (ls: seq<DialogueLine>)
    ensures |ls| == 1 && ls[0].speaker == displayName
    ensures ls[0].text == AlreadyShown <==> seenBefore
    ensures ls[0].text == Interesting <==> !seenBefore
  {
    [DialogueLine(displayName, if seenBefore then AlreadyShown else Interesting)]
  }

  class DialogueActor {
    const actorId: string
    const displayName: string
    const graph: Graph
    const startingNode: Option<NodeRef>
    const afterEvidenceNode: Option<NodeRef>
    const evidenceReactions: seq<EvidenceReaction>
    /** The scene's state store, when there is one. */
    const store: NPCStateManager?

    var currentNode: Option<NodeRef>
    var hasReceivedCorrectEvidence: bool
    var presentedEvidenceIds: set<string>

    ghost predicate Valid()
      reads this
    {
      && Closed(graph) && RefIn(graph, startingNode) && RefIn(graph, afterEvidenceNode)
      && RefIn(graph, currentNode)
      && (forall i :: 0 <= i < |evidenceReactions| ==>
            RefIn(graph, evidenceReactions[i].onFirstPresent) && RefIn(graph, evidenceReactions[i].onRepeat))
    }

    /** Set-up on scene start, restoring from the store: the received flag
        and the presented names come back from this actor's record, when
        there is one; the saved node id is not read back, so the walk
        always restarts at the starting node. */
    constructor (actorId: string, displayName: string, graph: Graph,
                 startingNode: Option<NodeRef>, afterEvidenceNode: Option<NodeRef>,
                 evidenceReactions: seq<EvidenceReaction>, store: NPCStateManager?)
      requires Closed(graph) && RefIn(graph, startingNode) && RefIn(graph, afterEvidenceNode)
      requires forall i :: 0 <= i < |evidenceReactions| ==>
        RefIn(graph, evidenceReactions[i].onFirstPresent) && RefIn(graph, evidenceReactions[i].onRepeat)
      ensures Valid()
      ensures this.actorId == actorId && this.displayName == displayName && this.graph == graph
      ensures this.startingNode == startingNode && this.afterEvidenceNode == afterEvidenceNode
      ensures this.evidenceReactions == evidenceReactions && this.store == store
      ensures currentNode == startingNode
      ensures store != null && actorId in store.View() ==>
        && hasReceivedCorrectEvidence == store.View()[actorId].hasReceivedEvidence
        && (forall id :: id in presentedEvidenceIds <==> id in store.View()[actorId].evidenceGiven)
      ensures store == null || actorId !in store.View() ==>
        !hasReceivedCorrectEvidence && presentedEvidenceIds == {}
    {
      this.actorId := actorId;
      this.displayName := displayName;
      this.graph := graph;
      this.startingNode := startingNode;
      this.afterEvidenceNode := afterEvidenceNode;
      this.evidenceReactions := evidenceReactions;
      this.store := store;
      currentNode := None;
      hasReceivedCorrectEvidence := false;
      presentedEvidenceIds := {};
      new;
      if store != null {
        var state := store.GetNPCState(actorId);
        if state != null {
          hasReceivedCorrectEvidence := state.hasReceivedEvidence;
          var given := state.evidenceGiven;
          for i := 0 to |given|
            invariant forall id :: id in presentedEvidenceIds <==> id in given[..i]
            invariant currentNode.None? && hasReceivedCorrectEvidence == state.hasReceivedEvidence
          {
            presentedEvidenceIds := presentedEvidenceIds + {given[i]};
          }
          assert given[..|given|] == given;
        }
      }
      if currentNode.None? {
        currentNode := startingNode;
      }
    }

    /** The node a conversation with this character opens at. */
    function GetCurrentNode(): (r: Option<NodeRef>)
      reads this
      requires Valid()
      ensures RefIn(graph, r)
      ensures r == afterEvidenceNode || r == currentNode
      ensures r == afterEvidenceNode <== hasReceivedCorrectEvidence && afterEvidenceNode.Some?
      ensures r == currentNode <== !hasReceivedCorrectEvidence || afterEvidenceNode.None?
    {
      if hasReceivedCorrectEvidence && afterEvidenceNode.Some? then afterEvidenceNode else currentNode
    }

    /** The node the character is at is gated. */
    predicate Gated()
      reads this
      requires Valid()
    {
      currentNode.Some? && graph[currentNode.value].requiredEvidence.Some?
    }

    /** The id of the current node, or "" at the end of the walk: the node
        id a save writes. */
    function CurrentNodeId(): string
      reads this
      requires Valid()
    {
      if currentNode.Some? then graph[currentNode.value].nodeId else ""
    }

    /** The store holds what a save of the current state writes: the node
        id, the received flag and, once a record exists, the presented
        names. */
    twostate predicate Saved()
      reads this, StoreFrame(store)
      requires Valid()
    {
      store != null ==>
        WrittenBack(old(store.View()), store.View(), actorId, CurrentNodeId(),
                    hasReceivedCorrectEvidence, presentedEvidenceIds)
    }

    /** The store is as it was. */
    twostate predicate StoreKept()
      reads this, StoreFrame(store)
    {
      store != null ==> store.View() == old(store.View())
    }

    /** What the gate of the current node does with `item`: the required
        item sets the flag, records the name, moves to the success node (and
        past it when it has a `next`) and is saved; a wrong one changes
        nothing and shows the wrong-evidence node, else the no-evidence node,
        else a stock refusal. */
    twostate predicate GateOutcome(item: EvidenceItem, shown: seq<DialogueLine>)
      reads this, StoreFrame(store)
      requires old(Valid()) && old(Gated()) && Valid()
    {
      var node := graph[old(currentNode).value];
      && (Some(item) == node.requiredEvidence ==>
            && hasReceivedCorrectEvidence
            && presentedEvidenceIds == old(presentedEvidenceIds) + {item.name}
            && (node.ifEvidenceCorrect.None? ==> currentNode == old(currentNode) && shown == [])
            && (node.ifEvidenceCorrect.Some? ==>
                  var success := graph[node.ifEvidenceCorrect.value];
                  shown == success.lines &&
                  currentNode == (if success.next.Some? then success.next else node.ifEvidenceCorrect))
            && Saved())
      && (Some(item) != node.requiredEvidence ==>
            && unchanged(this) && StoreKept()
            && var wrong := OrElse(node.ifEvidenceWrong, node.ifNoEvidence);
               shown == if wrong.Some? then graph[wrong.value].lines
                        else [DialogueLine(displayName, NotWhatINeed)])
    }

    /** What a configured reaction does with `item`: the repeat node when
        the name was presented before, else the first-present node, which
        also records and saves the name; without lines to show, a one-line
        reply that says whether the item was seen before. The walk and the
        flag are untouched. */
    twostate predicate ReactionOutcome(item: EvidenceItem, reaction: EvidenceReaction, shown: seq<DialogueLine>)
      reads this, StoreFrame(store)
      requires Valid() && RefIn(graph, reaction.onFirstPresent) && RefIn(graph, reaction.onRepeat)
    {
      var seen := item.name in old(presentedEvidenceIds);
      var records := !seen && reaction.onFirstPresent.Some?;
      var nodeToShow := if seen then reaction.onRepeat else reaction.onFirstPresent;
      && currentNode == old(currentNode) && hasReceivedCorrectEvidence == old(hasReceivedCorrectEvidence)
      && presentedEvidenceIds == (if records then old(presentedEvidenceIds) + {item.name} else old(presentedEvidenceIds))
      && (records ==> Saved())
      && (!records ==> StoreKept())
      && shown == (if nodeToShow.Some? && graph[nodeToShow.value].lines != []
                   then graph[nodeToShow.value].lines
                   else FallbackReply(displayName, seen))
    }

    /** Writes the received flag, the node id and the presented names back
        to the store. */
    method SaveState() returns (ghost list: seq<string>)
      requires Valid()
      requires store != null ==> store.Valid()
      modifies StoreFrame(store)
      ensures unchanged(this)
      ensures Enumerates(list, presentedEvidenceIds)
      ensures store != null ==> store.Valid()
      ensures store != null ==>
        store.View() == AfterSave(old(store.View()), actorId, CurrentNodeId(), hasReceivedCorrectEvidence,
              if actorId in old(store.View()) then list else [])
      ensures Saved()
    {
      list := WriteBack(store, actorId, CurrentNodeId(), hasReceivedCorrectEvidence, presentedEvidenceIds);
    }

    /** The player presents `item`. A gated node handles it; otherwise the
        first reaction configured for the item does; otherwise the character
        says the item is not relevant and nothing changes. */
    method ReceiveEvidence(item: Option<EvidenceItem>) returns (shown: seq<DialogueLine>)
      requires Valid()
      requires store != null ==> store.Valid()
      modifies this, StoreFrame(store)
      ensures Valid() && (store != null ==> store.Valid())
      ensures old(presentedEvidenceIds) <= presentedEvidenceIds
      ensures item.None? ==> unchanged(this) && StoreKept() && shown == []
      ensures item.Some? && old(Gated()) ==> GateOutcome(item.value, shown)
      ensures item.Some? && !old(Gated()) && FindReaction(evidenceReactions, item.value).Some? ==>
        ReactionOutcome(item.value, evidenceReactions[FindReaction(evidenceReactions, item.value).value], shown)
      ensures item.Some? && !old(Gated()) && FindReaction(evidenceReactions, item.value).None? ==>
        && unchanged(this) && StoreKept()
        && shown == [DialogueLine(displayName, Irrelevant)]
    {
      if item.None? {
        return [];
      }
      if currentNode.Some? && graph[currentNode.value].requiredEvidence.Some? {
        shown := HandleRequiredEvidence(item.value);
        return;
      }
      var found := FindReaction(evidenceReactions, item.value);
      if found.Some? {
        shown := HandleEvidenceReaction(item.value, evidenceReactions[found.value]);
        return;
      }
      shown := [DialogueLine(displayName, Irrelevant)];
    }

    /** The gate of the current node judges `item`. The required item sets
        the received flag, records its name as presented and moves to the
        success node, then past it when it has a `next`; a wrong one changes
        nothing and shows the wrong-evidence node, else the no-evidence
        node, else a stock refusal. */
    method HandleRequiredEvidence(item: EvidenceItem) returns (shown: seq<DialogueLine>)
      requires Valid() && Gated()
      requires store != null ==> store.Valid()
      modifies this, StoreFrame(store)
      ensures Valid() && (store != null ==> store.Valid())
      ensures GateOutcome(item, shown)
    {
      var node := graph[currentNode.value];
      if Some(item) == node.requiredEvidence {
        shown := AcceptRequired(item);
      } else {
        var wrongNode := OrElse(node.ifEvidenceWrong, node.ifNoEvidence);
        if wrongNode.Some? {
          shown := graph[wrongNode.value].lines;
        } else {
          shown := [DialogueLine(displayName, NotWhatINeed)];
        }
      }
    }

    /** The gate's success branch: the required item was presented. */
    method AcceptRequired(item: EvidenceItem) returns (shown: seq<DialogueLine>)
      requires Valid() && Gated() && Some(item) == graph[currentNode.value].requiredEvidence
      requires store != null ==> store.Valid()
      modifies this, StoreFrame(store)
      ensures Valid() && (store != null ==> store.Valid())
      ensures GateOutcome(item, shown)
    {
      ghost var before := if store != null then store.View() else map[];
      shown := MoveOnCorrect(item);
      assert store != null ==> store.View() == before;
      var _ := SaveState();
    }

    /** The walk and the flag after the required item, before the save. */
    method MoveOnCorrect(item: EvidenceItem) returns (shown: seq<DialogueLine>)
      requires Valid() && Gated() && Some(item) == graph[currentNode.value].requiredEvidence
      modifies this
      ensures Valid()
      ensures var node := graph[old(currentNode).value];
        && hasReceivedCorrectEvidence
        && presentedEvidenceIds == old(presentedEvidenceIds) + {item.name}
        && (node.ifEvidenceCorrect.None? ==> currentNode == old(currentNode) && shown == [])
        && (node.ifEvidenceCorrect.Some? ==>
              var success := graph[node.ifEvidenceCorrect.value];
              shown == success.lines &&
              currentNode == (if success.next.Some? then success.next else node.ifEvidenceCorrect))
    {
      var node := graph[currentNode.value];
      hasReceivedCorrectEvidence := true;
      shown := [];
      if node.ifEvidenceCorrect.Some? {
        currentNode := node.ifEvidenceCorrect;
        shown := graph[currentNode.value].lines;
        if graph[currentNode.value].next.Some? {
          currentNode := graph[currentNode.value].next;
        }
      }
      presentedEvidenceIds := presentedEvidenceIds + {item.name};
    }

    /** A configured reaction answers `item`: the repeat node when the item
        was presented before, the first-present node (recording the item as
        presented) when it was not; without lines to show, a one-line reply
        that says whether the item was seen before. */
    method HandleEvidenceReaction(item: EvidenceItem, reaction: EvidenceReaction) returns (shown: seq<DialogueLine>)
      requires Valid() && RefIn(graph, reaction.onFirstPresent) && RefIn(graph, reaction.onRepeat)
      requires store != null ==> store.Valid()
      modifies this, StoreFrame(store)
      ensures Valid() && (store != null ==> store.Valid())
      ensures ReactionOutcome(item, reaction, shown)
    {
      var hasSeenBefore := item.name in presentedEvidenceIds;
      ghost var before := if store != null then store.View() else map[];
      var nodeToShow: Option<NodeRef> := None;
      if hasSeenBefore && reaction.onRepeat.Some? {
        nodeToShow := reaction.onRepeat;
      } else if !hasSeenBefore && reaction.onFirstPresent.Some? {
        nodeToShow := reaction.onFirstPresent;
        presentedEvidenceIds := presentedEvidenceIds + {item.name};
        assert store != null ==> store.View() == before;
        var _ := SaveState();
      }
      if nodeToShow.Some? && |graph[nodeToShow.value].lines| > 0 {
        shown := graph[nodeToShow.value].lines;
      } else {
        shown := FallbackReply(displayName, hasSeenBefore);
      }
    }

    /** Back to the beginning: the starting node, no evidence received and
        nothing presented; the cleared state is written back. */
    method ResetState()
      requires Valid()
      requires store != null ==> store.Valid()
      modifies this, StoreFrame(store)
      ensures Valid() && (store != null ==> store.Valid())
      ensures currentNode == startingNode && !hasReceivedCorrectEvidence && presentedEvidenceIds == {}
      ensures store != null ==>
        store.View() == AfterSave(old(store.View()), actorId,
              if startingNode.Some? then graph[startingNode.value].nodeId else "", false, [])
    {
      ghost var before := if store != null then store.View() else map[];
      currentNode := startingNode;
      hasReceivedCorrectEvidence := false;
      presentedEvidenceIds := {};
      assert store != null ==> store.View() == before;
      var _ := SaveState();
    }
  }
}
