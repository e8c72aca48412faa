/** An evidence object in the scene: inspecting it puts its item into the
    inventory, tells the player so, and may remove the object. */
module Pickup {
  import opened Types
  import opened EvidenceInventory
  import opened Dialogue

  const PickupSpeaker := "Detective"

  /** The lines told on a pickup: the object's own lines when it has any,
      else a one-line notice naming the item. */
  function PickupLines(custom: seq<string>, item: EvidenceItem): (lines: seq<string>)
    ensures lines != []
    ensures custom != [] ==> lines == custom
    ensures custom == [] ==> lines == ["Added " + item.displayName + " to evidence."]
  {
    if |custom| > 0 then custom else ["Added " + item.displayName + " to evidence."]
  }

  class EvidencePickup {
    /** The item the object holds; it may be unset. */
    const evidence: Option<EvidenceItem>
    const dialogueLinesOnPickup: seq<string>
    const disableAfterPickup: bool
    /** The scene's evidence manager and dialogue panel. */
    const inventory: EvidenceManager
    const dialogue: DialogueManager

    /** The object is active in the scene. */
    var active: bool

    constructor (evidence: Option<EvidenceItem>, dialogueLinesOnPickup: seq<string>, disableAfterPickup: bool,
                 inventory: EvidenceManager, dialogue: DialogueManager)
      ensures this.evidence == evidence && this.dialogueLinesOnPickup == dialogueLinesOnPickup
      ensures this.disableAfterPickup == disableAfterPickup
      ensures this.inventory == inventory && this.dialogue == dialogue
      ensures active
    {
      this.evidence := evidence;
      this.dialogueLinesOnPickup := dialogueLinesOnPickup;
      this.disableAfterPickup := disableAfterPickup;
      this.inventory := inventory;
      this.dialogue := dialogue;
      active := true;
    }

    /** The player inspects the object. Only an item that was newly added
        opens the panel with the pickup lines, spoken by the detective; an
        item already held, or none, shows nothing. The object goes away
        only after a new item when it is set to. */
    method Interact() returns (added: bool)
      requires inventory.Valid()
      modifies this, inventory, dialogue, dialogue.fpsController, dialogue.interactor
      ensures inventory.Valid()
      ensures added <==> evidence.Some? && evidence.value !in old(inventory.collected)
      ensures inventory.collected == Added(old(inventory.collected), evidence)
      ensures added ==>
        var lines := PickupLines(dialogueLinesOnPickup, evidence.value);
        && dialogue.IsOpen() && dialogue.PlayerLocked() && dialogue.speakerText == PickupSpeaker
        && dialogue.bodyText == lines[0] && dialogue.lines == lines[1..]
      ensures !added ==> unchanged(dialogue) && unchanged(dialogue.Controls())
      ensures active <==> old(active) && !(disableAfterPickup && added)
    {
      added := inventory.AddEvidence(evidence);
      if added && |dialogueLinesOnPickup| > 0 {
        dialogue.ShowDialogue(PickupSpeaker, dialogueLinesOnPickup);
      } else if added {
        dialogue.ShowDialogue(PickupSpeaker, ["Added " + evidence.value.displayName + " to evidence."]);
      }
      if disableAfterPickup && added {
        active := false;
      }
    }
  }
}
