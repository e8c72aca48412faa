/** The police officer: collects the four items that solve the case, says
    how far the investigation has come, and hands out the autopsy report on
    the first talk. The received items are remembered by asset name, while
    an item is recognised as required by asset identity. */
module Police {
  import opened Types
  import opened EvidenceInventory
  import opened NpcStates
  import opened AutopsyHandout

  /** The officer's inspector settings. The four required item slots are
      assumed set. With one unset the officer still runs, but can never
      hold all the evidence; that configuration is not represented. */
  datatype PoliceConfig = PoliceConfig(
    displayName: string,
    detectiveBadge: EvidenceItem,
    brokenSwitch: EvidenceItem,
    silverMask: EvidenceItem,
    autopsyReport: EvidenceItem,
    badgeResponseNode: Option<Node>,
    switchResponseNode: Option<Node>,
    maskResponseNode: Option<Node>,
    autopsyResponseNode: Option<Node>,
    greetingNode: Option<Node>,
    needMoreEvidenceNode: Option<Node>,
    allEvidenceReceivedNode: Option<Node>,
    defaultResponseText: string)

  /** The settings' initial values. */
  const DefaultDisplayName := "Police"
  const DefaultResponseText := "I don't think that's relevant right now."

  /** The officer's record in the state store. */
  const PoliceId := "Police"

  /** The label the officer uses for each required slot, in slot order. */
  const Labels := ["Detective Badge", "Broken Light Switch", "Silver Mask", "Autopsy Report"]
  const UnknownLabel := "evidence"

  /** The required slots and their response nodes, in the order the
      officer checks them. */
  function Slots(cfg: PoliceConfig): seq<EvidenceItem> {
    [cfg.detectiveBadge, cfg.brokenSwitch, cfg.silverMask, cfg.autopsyReport]
  }

  function Responses(cfg: PoliceConfig): seq<Option<Node>> {
    [cfg.badgeResponseNode, cfg.switchResponseNode, cfg.maskResponseNode, cfg.autopsyResponseNode]
  }

  /** The asset names of the required items; fewer than four when two
      slots share a name. */
  function RequiredNames(cfg: PoliceConfig): set<string> {
    {cfg.detectiveBadge.name, cfg.brokenSwitch.name, cfg.silverMask.name, cfg.autopsyReport.name}
  }

  /** `item` is the very asset in one of the four required slots. */
  function IsRequiredEvidence(cfg: PoliceConfig, item: EvidenceItem): (r: bool)
    ensures r <==> item in Slots(cfg)
    ensures r ==> item.name in RequiredNames(cfg)
  {
    item == cfg.detectiveBadge || item == cfg.brokenSwitch ||
    item == cfg.silverMask || item == cfg.autopsyReport
  }

  /** The label of the first slot that holds `item`; "evidence" for an item
      in no slot. */
  function GetEvidenceName(cfg: PoliceConfig, item: EvidenceItem): (r: string)
    ensures r == UnknownLabel <==> item !in Slots(cfg)
    ensures forall i :: 0 <= i < 4 && Slots(cfg)[i] == item && item !in Slots(cfg)[..i] ==> r == Labels[i]
  {
    assert Slots(cfg)[..1] == [cfg.detectiveBadge] && Slots(cfg)[..2] == [cfg.detectiveBadge, cfg.brokenSwitch];
    assert Slots(cfg)[..3] == [cfg.detectiveBadge, cfg.brokenSwitch, cfg.silverMask];
    if item == cfg.detectiveBadge then "Detective Badge"
    else if item == cfg.brokenSwitch then "Broken Light Switch"
    else if item == cfg.silverMask then "Silver Mask"
    else if item == cfg.autopsyReport then "Autopsy Report"
    else "evidence"
  }

  /** The response of the first position whose slot holds `item` and whose
      response is set. */
  function FirstResponse(slots: seq<EvidenceItem>, responses: seq<Option<Node>>, item: EvidenceItem): Option<Node>
    requires |slots| == |responses|
  {
    if slots == [] then None
    else if slots[0] == item && responses[0].Some? then responses[0]
    else FirstResponse(slots[1..], responses[1..], item)
  }

  /** The response node for `item`: that of the first required slot that
      holds it and has a response set; unset when there is none, which
      includes every item in no slot. */
  function EvidenceDialogueNode(cfg: PoliceConfig, item: EvidenceItem): (r: Option<Node>)
    ensures r == FirstResponse(Slots(cfg), Responses(cfg), item)
    ensures item !in Slots(cfg) ==> r.None?
  {
    var slots, responses := Slots(cfg), Responses(cfg);
    assert FirstResponse(slots[2..], responses[2..], item) ==
      if item == cfg.silverMask && cfg.maskResponseNode.Some? then cfg.maskResponseNode
      else FirstResponse(slots[3..], responses[3..], item);
    assert FirstResponse(slots[3..], responses[3..], item) ==
      if item == cfg.autopsyReport && cfg.autopsyResponseNode.Some? then cfg.autopsyResponseNode
      else None;
    if item == cfg.detectiveBadge && cfg.badgeResponseNode.Some? then cfg.badgeResponseNode
    else if item == cfg.brokenSwitch && cfg.switchResponseNode.Some? then cfg.switchResponseNode
    else if item == cfg.silverMask && cfg.maskResponseNode.Some? then cfg.maskResponseNode
    else if item == cfg.autopsyReport && cfg.autopsyResponseNode.Some? then cfg.autopsyResponseNode
    else None
  }

  /** The progress node: the all-evidence node once all is in, else the
      need-more node once anything is in; never the greeting. */
  function ProgressDialogueNode(cfg: PoliceConfig, hasAll: bool, count: nat): (r: Option<Node>)
    ensures r.Some? ==> r == cfg.allEvidenceReceivedNode || r == cfg.needMoreEvidenceNode
    ensures hasAll && cfg.allEvidenceReceivedNode.Some? ==> r == cfg.allEvidenceReceivedNode
    ensures !(hasAll && cfg.allEvidenceReceivedNode.Some?) ==>
      r == (if count > 0 then cfg.needMoreEvidenceNode else None)
    ensures r.None? <==>
      (!hasAll || cfg.allEvidenceReceivedNode.None?) && (count == 0 || cfg.needMoreEvidenceNode.None?)
  {
    if hasAll && cfg.allEvidenceReceivedNode.Some? then cfg.allEvidenceReceivedNode
    else if count > 0 && cfg.needMoreEvidenceNode.Some? then cfg.needMoreEvidenceNode
    else None
  }

  /** The node a talk shows: all-evidence, else need-more, else greeting,
      each only when it is set. */
  function CurrentDialogueNode(cfg: PoliceConfig, hasAll: bool, count: nat): (r: Option<Node>)
    ensures r == OrElse(ProgressDialogueNode(cfg, hasAll, count), cfg.greetingNode)
    ensures r.None? ==> cfg.greetingNode.None?
    ensures r.Some? ==> r == cfg.allEvidenceReceivedNode || r == cfg.needMoreEvidenceNode || r == cfg.greetingNode
  {
    if hasAll && cfg.allEvidenceReceivedNode.Some? then cfg.allEvidenceReceivedNode
    else if count > 0 && cfg.needMoreEvidenceNode.Some? then cfg.needMoreEvidenceNode
    else if cfg.greetingNode.Some? then cfg.greetingNode
    else None
  }

  /** The all-evidence condition: at least four names received, and among
      them the name of each required slot. */
  predicate AllEvidenceReceived(cfg: PoliceConfig, received: set<string>)
    ensures AllEvidenceReceived(cfg, received) <==> |received| >= 4 && RequiredNames(cfg) <= received
  {
    |received| >= 4 &&
    cfg.detectiveBadge.name in received && cfg.brokenSwitch.name in received &&
    cfg.silverMask.name in received && cfg.autopsyReport.name in received
  }

  /** What the officer says to a required item shown again: the officer
      names the label of the first slot holding the item. */
  function AlreadySeenLine(cfg: PoliceConfig, item: EvidenceItem): (line: DialogueLine)
    ensures line.speaker == cfg.displayName
    ensures forall i :: 0 <= i < 4 && Slots(cfg)[i] == item && item !in Slots(cfg)[..i] ==>
      line.text == "You already showed me the " + Labels[i] + "."
    ensures item !in Slots(cfg) ==> line.text == "You already showed me the evidence."
  {
    DialogueLine(cfg.displayName, "You already showed me the " + GetEvidenceName(cfg, item) + ".")
  }

  lemma {:induction false} SubsetCardinality(a: set<string>, b: set<string>)
    requires a <= b
    ensures |a| <= |b|
    decreases a
  {
    if a != {} {
      var x :| x in a;
      SubsetCardinality(a - {x}, b - {x});
    }
  }

  /** With four distinct required names, all evidence is in exactly when
      every required name is. */
  lemma AllReceivedIffRequiredNames(cfg: PoliceConfig, received: set<string>)
    requires |RequiredNames(cfg)| == 4
    ensures AllEvidenceReceived(cfg, received) <==> RequiredNames(cfg) <= received
  {
    if RequiredNames(cfg) <= received {
      SubsetCardinality(RequiredNames(cfg), received);
    }
  }

  /** When two required slots share a name, an officer who has only been
      given required items can never have all the evidence: it takes four
      names and there are at most three. */
  lemma NeverAllWhenNamesClash(cfg: PoliceConfig, received: set<string>)
    requires |RequiredNames(cfg)| < 4 && received <= RequiredNames(cfg)
    ensures !AllEvidenceReceived(cfg, received)
  {
    SubsetCardinality(received, RequiredNames(cfg));
  }

  /** Receiving more names never takes the all-evidence condition away. */
  lemma AllReceivedMonotone(cfg: PoliceConfig, received: set<string>, more: set<string>)
    requires received <= more
    ensures AllEvidenceReceived(cfg, received) ==> AllEvidenceReceived(cfg, more)
  {
    SubsetCardinality(received, more);
  }

  /** The talk-node priority over the received names, with the flag kept
      as the all-evidence condition: the all-evidence node (when set) once
      all is in; the need-more node (when set) while some but not all is
      in; the greeting while nothing is. The all-evidence node is chosen
      over a set need-more node only when all the evidence is in. */
  lemma TalkNodePriority(cfg: PoliceConfig, received: set<string>)
    ensures var all := AllEvidenceReceived(cfg, received);
      var r := CurrentDialogueNode(cfg, all, |received|);
      && (all && cfg.allEvidenceReceivedNode.Some? ==> r == cfg.allEvidenceReceivedNode)
      && (!all && received != {} && cfg.needMoreEvidenceNode.Some? ==> r == cfg.needMoreEvidenceNode)
      && (received == {} ==> r == cfg.greetingNode)
  {
  }

  class PoliceInvestigator {
    const cfg: PoliceConfig
    /** The autopsy hand-out on the same game object, when there is one. */
    const evidenceGiver: PoliceEvidenceGiver?
    /** The scene's state store, when there is one. */
    const store: NPCStateManager?

    var receivedEvidence: set<string>
    var hasAllEvidence: bool

    /** The flag is always the all-evidence condition of the received set. */
    ghost predicate Valid()
      reads this
    {
      hasAllEvidence == AllEvidenceReceived(cfg, receivedEvidence)
    }

    /** Set-up on scene start: the names recorded under "Police" come back
        from the store, when there is such a record. */
    constructor (cfg: PoliceConfig, evidenceGiver: PoliceEvidenceGiver?, store: NPCStateManager?)
      ensures Valid()
      ensures this.cfg == cfg && this.evidenceGiver == evidenceGiver && this.store == store
      ensures store != null && PoliceId in store.View() ==>
        forall id :: id in receivedEvidence <==> id in store.View()[PoliceId].evidenceGiven
      ensures store == null || PoliceId !in store.View() ==>
        receivedEvidence == {} && !hasAllEvidence
    {
      this.cfg := cfg;
      this.evidenceGiver := evidenceGiver;
      this.store := store;
      receivedEvidence := {};
      hasAllEvidence := false;
      new;
      LoadState();
    }

    /** Adds the names recorded under "Police" to the received set and
        recomputes the flag; without a record nothing changes. */
    method LoadState()
      modifies this
      ensures receivedEvidence == old(receivedEvidence) + (if store != null && PoliceId in store.View()
                                                            then ElementsOf(store.View()[PoliceId].evidenceGiven)
                                                            else {})
      ensures store != null && PoliceId in store.View() ==> Valid()
      ensures store == null || PoliceId !in store.View() ==> unchanged(this)
    {
      if store == null {
        return;
      }
      var state := store.GetNPCState(PoliceId);
      if state == null {
        return;
      }
      var given := state.evidenceGiven;
      for i := 0 to |given|
        invariant receivedEvidence == old(receivedEvidence) + ElementsOf(given[..i])
      {
        assert given[..i + 1] == given[..i] + [given[i]];
        receivedEvidence := receivedEvidence + {given[i]};
      }
      assert given[..|given|] == given;
      CheckIfAllEvidenceReceived();
    }

    /** Recomputes the flag from the received set. */
    method CheckIfAllEvidenceReceived()
      modifies this
      ensures Valid() && receivedEvidence == old(receivedEvidence)
    {
      hasAllEvidence := |receivedEvidence| >= 4 &&
        cfg.detectiveBadge.name in receivedEvidence && cfg.brokenSwitch.name in receivedEvidence &&
        cfg.silverMask.name in receivedEvidence && cfg.autopsyReport.name in receivedEvidence;
    }

    /** Writes the received names and the flag back under "Police", with an
        empty node id. */
    method SaveState()
      requires store != null ==> store.Valid()
      modifies StoreFrame(store)
      ensures unchanged(this)
      ensures store != null ==> store.Valid()
      ensures store != null ==>
        WrittenBack(old(store.View()), store.View(), PoliceId, "", hasAllEvidence, receivedEvidence)
    {
      var list := WriteBack(store, PoliceId, "", hasAllEvidence, receivedEvidence);
    }

    /** The player presents `item` (absent when nothing is selected). A
        required item is accepted: a new one is recorded, saved and answered
        with its response followed by the progress lines; one shown before
        is answered by name. Anything else is refused with the default
        response. */
    method ReceiveEvidence(item: Option<EvidenceItem>) returns (accepted: bool, shown: seq<DialogueLine>)
      requires Valid() && (store != null ==> store.Valid())
      modifies this, StoreFrame(store)
      ensures Valid() && (store != null ==> store.Valid())
      ensures old(receivedEvidence) <= receivedEvidence && (old(hasAllEvidence) ==> hasAllEvidence)
      ensures old(receivedEvidence) <= RequiredNames(cfg) ==> receivedEvidence <= RequiredNames(cfg)
      ensures accepted <==> item.Some? && IsRequiredEvidence(cfg, item.value)
      ensures (item.None? || !IsRequiredEvidence(cfg, item.value) || item.value.name in old(receivedEvidence)) ==>
        receivedEvidence == old(receivedEvidence) && (store != null ==> store.View() == old(store.View()))
      ensures item.None? ==> shown == []
      ensures item.Some? && !IsRequiredEvidence(cfg, item.value) ==>
        shown == [DialogueLine(cfg.displayName, cfg.defaultResponseText)]
      ensures item.Some? && IsRequiredEvidence(cfg, item.value) && item.value.name in old(receivedEvidence) ==>
        shown == [AlreadySeenLine(cfg, item.value)]
      ensures item.Some? && IsRequiredEvidence(cfg, item.value) && item.value.name !in old(receivedEvidence) ==>
        && receivedEvidence == old(receivedEvidence) + {item.value.name}
        && shown == NodeLines(EvidenceDialogueNode(cfg, item.value)) +
                    NodeLines(if hasAllEvidence && cfg.allEvidenceReceivedNode.Some?
                              then cfg.allEvidenceReceivedNode else cfg.needMoreEvidenceNode)
        && (store != null ==> WrittenBack(old(store.View()), store.View(), PoliceId, "", hasAllEvidence, receivedEvidence))
    {
      if item.None? {
        return false, [];
      }
      if IsRequiredEvidence(cfg, item.value) {
        var isNewEvidence := item.value.name !in receivedEvidence;
        if isNewEvidence {
          shown := AcceptNewEvidence(item.value);
        } else {
          shown := [AlreadySeenLine(cfg, item.value)];
        }
        return true, shown;
      }
      return false, [DialogueLine(cfg.displayName, cfg.defaultResponseText)];
    }

    /** A required item not received before: its name is recorded, the flag
        recomputed and the state saved, and the item's response is shown
        with the progress lines after it. */
    method AcceptNewEvidence(item: EvidenceItem) returns (shown: seq<DialogueLine>)
      requires Valid() && (store != null ==> store.Valid())
      requires IsRequiredEvidence(cfg, item) && item.name !in receivedEvidence
      modifies this, StoreFrame(store)
      ensures Valid() && (store != null ==> store.Valid())
      ensures receivedEvidence == old(receivedEvidence) + {item.name}
      ensures old(hasAllEvidence) ==> hasAllEvidence
      ensures shown == NodeLines(EvidenceDialogueNode(cfg, item)) +
                       NodeLines(if hasAllEvidence && cfg.allEvidenceReceivedNode.Some?
                                 then cfg.allEvidenceReceivedNode else cfg.needMoreEvidenceNode)
      ensures store != null ==>
        WrittenBack(old(store.View()), store.View(), PoliceId, "", hasAllEvidence, receivedEvidence)
    {
      ghost var before := if store != null then store.View() else map[];
      receivedEvidence := receivedEvidence + {item.name};
      CheckIfAllEvidenceReceived();
      assert store != null ==> store.View() == before;
      SaveState();
      shown := ShowEvidenceResponseWithProgress(item);
      AllReceivedMonotone(cfg, old(receivedEvidence), receivedEvidence);
    }

    /** The response node of `item` followed by the progress node, as one
        conversation. */
    method ShowEvidenceResponseWithProgress(item: EvidenceItem) returns (combined: seq<DialogueLine>)
      requires receivedEvidence != {}
      ensures combined == NodeLines(EvidenceDialogueNode(cfg, item)) +
        NodeLines(if hasAllEvidence && cfg.allEvidenceReceivedNode.Some?
                  then cfg.allEvidenceReceivedNode else cfg.needMoreEvidenceNode)
    {
      var evidenceNode := EvidenceDialogueNode(cfg, item);
      var progressNode := ProgressDialogueNode(cfg, hasAllEvidence, |receivedEvidence|);
      combined := [];
      if evidenceNode.Some? {
        combined := combined + evidenceNode.value.lines;
      }
      if progressNode.Some? {
        combined := combined + progressNode.value.lines;
      }
    }

    /** The player talks to the officer. While the autopsy report is still
        owed, the autopsy dialogue is shown and the report handed over, both
        only when that dialogue has lines, and nothing else happens.
        Otherwise the node chosen by the received evidence is shown. */
    method Interact() returns (shown: seq<DialogueLine>)
      requires evidenceGiver != null ==> evidenceGiver.Valid()
      modifies evidenceGiver, if evidenceGiver == null then {} else {evidenceGiver.inventory}
      ensures evidenceGiver != null ==> evidenceGiver.Valid()
      ensures evidenceGiver != null && !old(evidenceGiver.hasGivenAutopsy) ==>
        && shown == NodeLines(evidenceGiver.autopsyDialogueNode)
        && (shown != [] ==> evidenceGiver.hasGivenAutopsy)
        && (shown != [] && evidenceGiver.inventory != null ==>
              evidenceGiver.inventory.collected == Added(old(evidenceGiver.inventory.collected), evidenceGiver.autopsyReport))
        && (shown == [] ==> unchanged(evidenceGiver))
        && (shown == [] && evidenceGiver.inventory != null ==> unchanged(evidenceGiver.inventory))
      ensures evidenceGiver == null || old(evidenceGiver.hasGivenAutopsy) ==>
        && shown == NodeLines(CurrentDialogueNode(cfg, hasAllEvidence, |receivedEvidence|))
        && (evidenceGiver != null ==> unchanged(evidenceGiver))
        && (evidenceGiver != null && evidenceGiver.inventory != null ==> unchanged(evidenceGiver.inventory))
    {
      if evidenceGiver != null {
        var shouldGive := evidenceGiver.ShouldGiveAutopsy();
        if shouldGive {
          var autopsyDialogue := evidenceGiver.autopsyDialogueNode;
          if autopsyDialogue.Some? && |autopsyDialogue.value.lines| > 0 {
            shown := autopsyDialogue.value.lines;
            evidenceGiver.GiveAutopsyReport();
          } else {
            shown := [];
          }
          return;
        }
      }
      var nodeToShow := CurrentDialogueNode(cfg, hasAllEvidence, |receivedEvidence|);
      shown := NodeLines(nodeToShow);
    }

    /** The officer is ready for the accusation exactly when all the
        evidence is in. */
    function IsReadyForAccusation(): (ready: bool)
      reads this
      ensures Valid() ==> (ready <==> AllEvidenceReceived(cfg, receivedEvidence))
    {
      hasAllEvidence
    }

    /** The number of distinct names received; at least four once the
        officer is ready. */
    function GetEvidenceCount(): (n: nat)
      reads this
      ensures Valid() && hasAllEvidence ==> n >= 4
    {
      |receivedEvidence|
    }
  }

  /** The elements of a list, as a set. */
  function ElementsOf(s: seq<string>): (r: set<string>)
    ensures forall x :: x in r <==> x in s
  {
    set x | x in s
  }
}
