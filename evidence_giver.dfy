/** The police officer's one-shot hand-out of the autopsy report: the first
    time the player talks to the officer the report goes into the inventory,
    and never again until the hand-out is reset. */
module AutopsyHandout {
  import opened Types
  import opened EvidenceInventory

  class PoliceEvidenceGiver {
    /** The report asset and the dialogue about it; either may be unset. */
    const autopsyReport: Option<EvidenceItem>
    const autopsyDialogueNode: Option<Node>
    /** The scene's evidence manager, when there is one. */
    const inventory: EvidenceManager?

    var hasGivenAutopsy: bool

    ghost predicate Valid()
      reads this, inventory
    {
      inventory != null ==> inventory.Valid()
    }

    constructor (autopsyReport: Option<EvidenceItem>, autopsyDialogueNode: Option<Node>, inventory: EvidenceManager?)
      requires inventory != null ==> inventory.Valid()
      ensures Valid()
      ensures this.autopsyReport == autopsyReport && this.autopsyDialogueNode == autopsyDialogueNode
      ensures this.inventory == inventory
      ensures !hasGivenAutopsy
    {
      this.autopsyReport := autopsyReport;
      this.autopsyDialogueNode := autopsyDialogueNode;
      this.inventory := inventory;
      hasGivenAutopsy := false;
    }

    /** The report is still owed exactly when it has not been given. */
    method ShouldGiveAutopsy() returns (should: bool)
      ensures should <==> !hasGivenAutopsy
    {
      should := !hasGivenAutopsy;
    }

    /** Hands the report over once: it is added to the inventory when both
        the manager and the report exist, and the hand-out counts as done
        even when one of them is missing. A later call changes nothing. */
    method GiveAutopsyReport()
      requires Valid()
      modifies this, inventory
      ensures Valid() && hasGivenAutopsy
      ensures old(hasGivenAutopsy) ==>
        unchanged(this) && (inventory != null ==> unchanged(inventory))
      ensures !old(hasGivenAutopsy) && inventory != null ==>
        inventory.collected == Added(old(inventory.collected), autopsyReport)
    {
      if hasGivenAutopsy {
        return;
      }
      if inventory != null && autopsyReport.Some? {
        var _ := inventory.AddEvidence(autopsyReport);
      }
      hasGivenAutopsy := true;
    }

    /** The report is owed again. */
    method ResetState()
      modifies this
      ensures !hasGivenAutopsy
    {
      hasGivenAutopsy := false;
    }
  }
}
