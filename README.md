# Noir detective game: narrative and evidence state, in Dafny

This project models the narrative layer of a first-person detective game
and proves properties of it. The player collects evidence items into an
inventory. They talk to characters, whose conversations walk a graph of
dialogue nodes, and some nodes wait for a particular item. They also
present items to those characters.

A police officer collects the four items that solve the case and hands over
the autopsy report on the first talk. Once the officer has all four, an
investigation latch switches the game into the accusation phase. In that
phase, interacting with a witness accuses them and loads that witness's
ending scene. A persistent store keeps each character's conversation state,
keyed by actor id. A browser panel lets the player page through the
inventory.

One Dafny module per script:

| file | module | script |
|---|---|---|
| types.dfy | `Types` | shared data: evidence items, dialogue lines, the node graph, the engine's enable flag |
| evidence_manager.dfy | `EvidenceInventory` | `EvidenceManager` |
| dialogue_manager.dfy | `Dialogue` | `DialogueManager` |
| npc_dialogue.dfy | `NpcDialogue` | `NPCDialogue` |
| npc_state.dfy | `NpcStates` | `NPCStateManager`, `NPCState`, and the characters' shared write-back |
| dialogue_actor.dfy | `Actor` | `DialogueActor` |
| evidence_giver.dfy | `AutopsyHandout` | `PoliceEvidenceGiver` |
| police.dfy | `Police` | `PoliceInvestigator` |
| investigation.dfy | `Investigation` | `InvestigationManager` |
| witness.dfy | `Witness` | `WitnessAccusation` |
| pickup.dfy | `Pickup` | `EvidencePickup` |
| evidence_ui.dfy | `InventoryBrowser` | `EvidenceUI` |

Modelling choices:

- **Evidence identity.** An evidence asset is a datatype value whose
  `instance` field stands for its object identity. Each asset is one value,
  so two items are the same asset exactly when they are equal values, and
  `==` plays the part of the scripts' reference comparison. Two values with
  the same `instance` but different fields do not occur in a scene and
  count as different items. The asset `name` is a separate string.
  The officer and the dialogue actor remember items by `name`, while they
  recognise a required item by identity. Both notions are kept.
- **Node graph and nulls.** Dialogue nodes form a
  `map<NodeRef, Node>` whose links are `Option<NodeRef>`, so links may form
  cycles. `Closed(graph)` says that every link resolves. An unset line
  array and an empty one are the same value, `[]`, because every script
  treats them alike.
- **Showing a conversation.** Different callers use differently shaped
  "show dialogue" entry points, so every caller except the pickup returns
  the lines it shows as `shown: seq<DialogueLine>`, with `[]` meaning
  nothing is shown. The pickup calls the modelled `DialogueManager`
  directly, since it uses the one entry point that manager defines.
- **Objects.** Objects whose fields the scripts change in place are
  classes with `modifies` frames.
  - Store records are shared `NPCState` objects: a character that reads
    its record back also edits that record's evidence list in place.
  - A ghost `View()` turns the store into a map of `Record` values, and
    the operations are specified against that map.
- **Hash-set order.** Copying a hash set into a list picks the elements one
  at a time in an unspecified order. The model states only that the list
  holds each element of the set exactly once.
- **Source quirks kept as written:**
  - A character's first save keeps no evidence list. The write-back fills
    a fresh record that is never stored, and then the save creates a new
    record with an empty list. `NpcStates.WriteBack` states this.
  - The dialogue actor's `LoadState` restores the received flag and the
    presented names, but never the saved node id. The walk always restarts
    at the starting node. `Actor.DialogueActor.constructor` states this.
  - When two required slots share an asset name, the officer can never
    hold all the evidence, because the check wants four distinct names.
    `Police.NeverAllWhenNamesClash` proves it.
  - C#'s `%` is written out as `CsRem`. It agrees with Dafny's `%` on the
    non-negative operands the cursor arithmetic uses.

## Model

| member | source | states |
|---|---|---|
| EvidenceInventory.Added | Assets/Scripts/EvidenceManager.cs:18-25 | adding keeps the old list as a prefix, grows it by at most one, holds the added item afterwards, adds nothing else, and keeps the list duplicate-free |
| EvidenceInventory.CollectFacts | Assets/Scripts/EvidenceManager.cs:8-25 | after any sequence of additions the earlier list is still a prefix, there are no duplicates, and the list holds exactly the earlier items plus the non-null items added |
| EvidenceInventory.CollectKeepsPositions | Assets/Scripts/EvidenceManager.cs:18-25 | later additions never reorder earlier ones: the list after the first k additions is a prefix of the final list |
| EvidenceInventory.EvidenceManager.constructor | Assets/Scripts/EvidenceManager.cs:8 | the inventory starts empty |
| EvidenceInventory.EvidenceManager.AddEvidence | Assets/Scripts/EvidenceManager.cs:18-25 | null or an item already held returns false and leaves the list unchanged; a new item returns true and is appended at the end; the list stays duplicate-free |
| Dialogue.DialogueManager.constructor | Assets/Scripts/DialogueManager.cs:36-40 | the panel starts hidden with nothing queued |
| Dialogue.DialogueManager.IsOpen | Assets/Scripts/DialogueManager.cs:24 | the dialogue is open exactly when its panel is shown |
| Dialogue.DialogueManager.ShowDialogue | Assets/Scripts/DialogueManager.cs:53-67 | empty lines change nothing (queue, panel, controls); otherwise the panel opens, the player is locked, the speaker is set, line 0 is shown and exactly lines 1.. stay queued, replacing any earlier queue |
| Dialogue.DialogueManager.NextLine | Assets/Scripts/DialogueManager.cs:69-78 | a non-empty queue shows its head and drops it, with the panel and controls unchanged; an empty queue closes the panel and unlocks the player |
| Dialogue.DialogueManager.CloseDialogue | Assets/Scripts/DialogueManager.cs:80-84 | the panel closes and the player is free; the texts and the queue are unchanged |
| Dialogue.DialogueManager.Update | Assets/Scripts/DialogueManager.cs:41-51 | a closed panel, or a frame without an advance press, changes nothing; otherwise NextLine's outcome: the speaker is kept; a non-empty queue shows its head and drops it, with the panel open and the controls unchanged; an empty queue closes the panel, frees the player and keeps the body text |
| Dialogue.DialogueManager.LockPlayer | Assets/Scripts/DialogueManager.cs:86-93 | every assigned control is disabled |
| Dialogue.DialogueManager.UnlockPlayer | Assets/Scripts/DialogueManager.cs:95-102 | every assigned control is enabled |
| Dialogue.ReadToEnd | Assets/Scripts/DialogueManager.cs:53-78 | after showing k ≥ 1 lines, exactly k advance presses close the panel; the body texts seen are the input lines in order; the player is free at the end |
| NpcDialogue.TalkStart | Assets/Scripts/NPCDialogue.cs:22-23 | a talk starts at the after-verified node once verified, when one is set, and otherwise at the current node |
| NpcDialogue.NPCDialogue.constructor | Assets/Scripts/NPCDialogue.cs:14-17 | the walk starts at the start node, unverified |
| NpcDialogue.NPCDialogue.Talk | Assets/Scripts/NPCDialogue.cs:20-33 | the start node's lines are shown; an ungated node moves on to its next, a gated one stays; verified is unchanged |
| NpcDialogue.NPCDialogue.ReceiveEvidence | Assets/Scripts/NPCDialogue.cs:36-70 | no current node, or no gate: false and no change. The required item: true, verified, the success node's lines, then on to that node's next. Any other item: false, no state change, the wrong-evidence lines, else the no-evidence lines, else none. Verified never goes back to false |
| NpcStates.NPCState.constructor | Assets/Scripts/NPCStateManager.cs:61-66 | a new record has the given fields and an empty evidence list |
| NpcStates.AfterSave | Assets/Scripts/NPCStateManager.cs:21-37 | a save leaves exactly the old ids plus the saved one in the store; AfterSaveEffects states the records |
| NpcStates.AfterSaveEffects | Assets/Scripts/NPCStateManager.cs:21-37 | saving gives the saved id the node id and the flag; an existing record keeps its actor id and takes the list given; a new record has the id and an empty list; every other id keeps its record |
| NpcStates.SaveOverridesList | Assets/Scripts/NPCStateManager.cs:21-37 | saving over a record whose list was just replaced is a save with that list |
| NpcStates.NPCStateManager.constructor | Assets/Scripts/NPCStateManager.cs:8 | the store starts empty |
| NpcStates.NPCStateManager.SaveNPCState | Assets/Scripts/NPCStateManager.cs:21-37 | the store afterwards is AfterSave of the store before: an existing record object is edited in place and keeps its list; a new id gets a fresh record with an empty list |
| NpcStates.NPCStateManager.GetNPCState | Assets/Scripts/NPCStateManager.cs:39-46 | the record object held for the id, or null for an unknown id |
| NpcStates.NPCStateManager.HasInteractedWith | Assets/Scripts/NPCStateManager.cs:48-51 | true exactly when the id has a record |
| NpcStates.NPCStateManager.ClearAllStates | Assets/Scripts/NPCStateManager.cs:54-57 | no id has a record afterwards |
| NpcStates.CopyEvidence | Assets/Scripts/DialogueActor.cs:77-82 | the record's list is cleared and refilled with each element of the set exactly once; its other fields are unchanged |
| NpcStates.FillUnstored | Assets/Scripts/DialogueActor.cs:68-82 | a first write-back fills a fresh record with the set's elements |
| NpcStates.CopyStoredEvidence | Assets/Scripts/DialogueActor.cs:77-82 | filling the stored record replaces only that record's list in the store |
| NpcStates.WriteBack | Assets/Scripts/DialogueActor.cs:63-87 | the store becomes AfterSave with the node id and flag; an existing record gets the set's elements as its list, and a first save stores an empty list |
| Actor.FindReaction | Assets/Scripts/DialogueActor.cs:122 | the position of the first reaction configured for the item, or none when no reaction names it |
| Actor.FallbackReply | Assets/Scripts/DialogueActor.cs:208-216 | one line by the character, "You already showed me that." exactly when the item was seen before and "Interesting..." exactly when it was not |
| Actor.DialogueActor.constructor | Assets/Scripts/DialogueActor.cs:32-61 | with a stored record, the received flag and the presented names come back from it, else both start empty; the walk starts at the starting node either way, because the stored node id is not read |
| Actor.DialogueActor.GetCurrentNode | Assets/Scripts/DialogueActor.cs:99-108 | the after-evidence node when the correct evidence was received and that node is set; otherwise the current node |
| Actor.DialogueActor.SaveState | Assets/Scripts/DialogueActor.cs:63-87 | the actor is unchanged; the store becomes AfterSave with CurrentNodeId (the current node's id, or "") and the flag, the list being the presented names once a record exists, which is the write-back of the current state |
| Actor.DialogueActor.ReceiveEvidence | Assets/Scripts/DialogueActor.cs:110-135 | null changes nothing and shows nothing. At a gated node the gate's outcome holds and no reaction is consulted. Otherwise the first reaction naming the item gives that reaction's outcome. With neither, nothing changes (store included) and "I don't think that's relevant right now." is shown. The presented set only grows |
| Actor.DialogueActor.HandleRequiredEvidence | Assets/Scripts/DialogueActor.cs:137-180 | the required item sets the flag, adds its name to the presented set and moves to the success node, then to that node's next when set; with no success node it stays and shows nothing; the new state is written back to the store. A wrong item changes no state and leaves the store as it was, and shows the wrong node, else the no-evidence node, else "That's not what I need." |
| Actor.DialogueActor.AcceptRequired | Assets/Scripts/DialogueActor.cs:139-160 | the required item's whole outcome: the walk moves on, the flag is set, the name is recorded and all three are saved |
| Actor.DialogueActor.MoveOnCorrect | Assets/Scripts/DialogueActor.cs:141-158 | before the save: the flag set, the name recorded, and the walk at the success node's next, else the success node, else where it was, with the success node's lines shown |
| Actor.DialogueActor.HandleEvidenceReaction | Assets/Scripts/DialogueActor.cs:182-218 | the walk and the flag are untouched. A first presentation with a first-present node records the name and saves the state. A repeat, or a first presentation without that node, changes neither the set nor the store. The node's lines are shown when it has any, else the fallback reply |
| Actor.DialogueActor.ResetState | Assets/Scripts/DialogueActor.cs:220-226 | back to the starting node, flag cleared, presented set empty, and that state saved with an empty list |
| AutopsyHandout.PoliceEvidenceGiver.constructor | Assets/Scripts/PoliceEvidenceGiver.cs:11 | the report starts owed |
| AutopsyHandout.PoliceEvidenceGiver.ShouldGiveAutopsy | Assets/Scripts/PoliceEvidenceGiver.cs:14-19 | true exactly when the report has not been given |
| AutopsyHandout.PoliceEvidenceGiver.GiveAutopsyReport | Assets/Scripts/PoliceEvidenceGiver.cs:22-46 | the first call adds the report to the inventory (when both exist) and sets the flag even when one is missing; a later call changes nothing |
| AutopsyHandout.PoliceEvidenceGiver.ResetState | Assets/Scripts/PoliceEvidenceGiver.cs:55-59 | the report is owed again |
| Police.IsRequiredEvidence | Assets/Scripts/PoliceInvestigator.cs:216-222 | true exactly when the item is the asset in one of the four required slots |
| Police.GetEvidenceName | Assets/Scripts/PoliceInvestigator.cs:310-322 | the label of the first slot holding the item; "evidence" exactly for an item in no slot |
| Police.AlreadySeenLine | Assets/Scripts/PoliceInvestigator.cs:298-308 | the officer says "You already showed me the X." with X the label of the first slot holding the item, or "evidence" for an item in no slot |
| Police.EvidenceDialogueNode | Assets/Scripts/PoliceInvestigator.cs:270-282 | the response of the first slot that holds the item and has a response set, as FirstResponse defines it; unset for an item in no slot |
| Police.ProgressDialogueNode | Assets/Scripts/PoliceInvestigator.cs:284-296 | the all-evidence node when all is in and it is set; otherwise the need-more node once anything is received (nothing while it is unset), and nothing when nothing is received; never the greeting |
| Police.CurrentDialogueNode | Assets/Scripts/PoliceInvestigator.cs:158-174 | the progress node when there is one, else the greeting: all-evidence, then need-more, then greeting, each only when set; nothing only when the greeting is unset |
| Police.AllEvidenceReceived | Assets/Scripts/PoliceInvestigator.cs:228-232 | all the evidence is in exactly when at least four names are received and every required name is among them |
| Police.AllReceivedIffRequiredNames | Assets/Scripts/PoliceInvestigator.cs:224-232 | with four distinct required names, the flag's condition holds exactly when every required name has been received |
| Police.NeverAllWhenNamesClash | Assets/Scripts/PoliceInvestigator.cs:228-232 | when two slots share a name, a set of required names can never meet the four-name condition |
| Police.AllReceivedMonotone | Assets/Scripts/PoliceInvestigator.cs:228-232 | receiving more names never takes the all-evidence condition away |
| Police.TalkNodePriority | Assets/Scripts/PoliceInvestigator.cs:158-174 | with the flag kept as the all-evidence condition: once all four names are in, a set all-evidence node is shown; while some but not all are in, a set need-more node; with nothing received, the greeting. So the all-evidence node wins over a set need-more node only when all the evidence is in |
| Police.PoliceInvestigator.constructor | Assets/Scripts/PoliceInvestigator.cs:39-54 | with a stored record, the received names are exactly that record's list, else none; the flag agrees with them |
| Police.PoliceInvestigator.LoadState | Assets/Scripts/PoliceInvestigator.cs:56-73 | the stored names are added to the received set and the flag is recomputed; with no record nothing changes |
| Police.PoliceInvestigator.CheckIfAllEvidenceReceived | Assets/Scripts/PoliceInvestigator.cs:224-238 | the flag becomes the all-evidence condition of the received set, which is unchanged |
| Police.PoliceInvestigator.SaveState | Assets/Scripts/PoliceInvestigator.cs:75-97 | the store is written back under "Police" with an empty node id, the flag and the received names |
| Police.PoliceInvestigator.ReceiveEvidence | Assets/Scripts/PoliceInvestigator.cs:176-214 | null: false, no change. A non-required item: false and the default response. A required item: true; a new name is added and saved; a repeat leaves the set and store alone and shows "You already showed me the X.". The set only grows and the flag never falls |
| Police.PoliceInvestigator.AcceptNewEvidence | Assets/Scripts/PoliceInvestigator.cs:185-197 | a new required name is added, the flag recomputed, the state saved, and the item's response shown followed by the all-evidence or need-more lines |
| Police.PoliceInvestigator.ShowEvidenceResponseWithProgress | Assets/Scripts/PoliceInvestigator.cs:240-268 | the response lines followed by the progress lines, which once anything is received are the all-evidence node when earned and set, else need-more |
| Police.PoliceInvestigator.Interact | Assets/Scripts/PoliceInvestigator.cs:99-156 | while the report is owed, the autopsy dialogue is shown and the report given, both only when that dialogue has lines, and nothing else happens; otherwise the current node's lines are shown and the giver is untouched |
| Police.PoliceInvestigator.IsReadyForAccusation | Assets/Scripts/PoliceInvestigator.cs:335-338 | ready exactly when all the evidence is in |
| Police.PoliceInvestigator.GetEvidenceCount | Assets/Scripts/PoliceInvestigator.cs:341-344 | at least four once the officer is ready |
| Investigation.Step | Assets/Scripts/InvestigationManager.cs:24-77 | a tick activates the phase when the officer is ready and never deactivates it; the force activates it; the reset deactivates it |
| Investigation.RunWithoutReset | Assets/Scripts/InvestigationManager.cs:24-45 | without a reset, the phase is on after a run exactly when it was on before or some tick or force activated it, so only a reset ends it |
| Investigation.RunEndingInReset | Assets/Scripts/InvestigationManager.cs:73-77 | after a final reset the phase is off |
| Investigation.InvestigationManager.constructor | Assets/Scripts/InvestigationManager.cs:8 | the phase starts inactive |
| Investigation.InvestigationManager.Update | Assets/Scripts/InvestigationManager.cs:24-34 | the phase afterwards is a tick with the officer's readiness |
| Investigation.InvestigationManager.ActivateAccusationPhase | Assets/Scripts/InvestigationManager.cs:36-45 | the phase is on; on an active phase nothing changes |
| Investigation.InvestigationManager.IsAccusationPhaseActive | Assets/Scripts/InvestigationManager.cs:47-51 | returns the phase and changes nothing |
| Investigation.InvestigationManager.ForceActivateAccusation | Assets/Scripts/InvestigationManager.cs:67-70 | the phase is on whatever the officer's state |
| Investigation.InvestigationManager.ResetState | Assets/Scripts/InvestigationManager.cs:73-77 | the phase is off |
| Witness.PromptText | Assets/Scripts/WitnessAccusation.cs:19-29 | "Press E to accuse " + name exactly when the phase is on, "Press E to talk to " + name exactly when it is off |
| Witness.LoadEndingScene | Assets/Scripts/WitnessAccusation.cs:88-99 | the named scene loads exactly when its name is non-empty |
| Witness.AccuseWitness | Assets/Scripts/WitnessAccusation.cs:69-99 | non-empty accusation lines are shown with the load scheduled after them; otherwise the ending loads at once; either way the load is LoadEndingScene's, so an unset scene name loads nothing |
| Witness.NormalInteraction | Assets/Scripts/WitnessAccusation.cs:55-67 | the dialogue actor takes over exactly when there is one; otherwise the normal lines are shown exactly when non-empty, else nothing |
| Witness.Interact | Assets/Scripts/WitnessAccusation.cs:40-53 | accuse while the phase is on, talk normally while it is off |
| Witness.AccusesIffPhaseActive | Assets/Scripts/WitnessAccusation.cs:40-53 | an interaction accuses exactly when the phase is on; an accusation, immediate or delayed, loads a scene exactly when the ending name is set, and that scene is this witness's ending |
| Witness.PromptMatchesInteraction | Assets/Scripts/WitnessAccusation.cs:19-53 | the prompt offers the accusation exactly when pressing the key accuses |
| Pickup.PickupLines | Assets/Scripts/EvidencePickup.cs:19-26 | the object's own lines when it has any, else "Added {displayName} to evidence."; never empty |
| Pickup.EvidencePickup.constructor | Assets/Scripts/EvidencePickup.cs:5-11 | the pickup starts active |
| Pickup.EvidencePickup.Interact | Assets/Scripts/EvidencePickup.cs:15-30 | the inventory gets the item as AddEvidence would; only a newly added item opens the panel with the pickup lines spoken by "Detective"; otherwise the panel and controls are unchanged; the object goes inactive only when set to and the item was new |
| InventoryBrowser.CsRem | Assets/Scripts/EvidenceUI.cs:104 | C#'s remainder agrees with Dafny's on a non-negative dividend and is in (-n, 0] on a negative one |
| InventoryBrowser.NextIndex | Assets/Scripts/EvidenceUI.cs:99-106 | (i+1) mod n, in range, wrapping from the last item to the first |
| InventoryBrowser.PrevIndex | Assets/Scripts/EvidenceUI.cs:108-115 | (i-1+n) mod n, in range, wrapping from the first item to the last |
| InventoryBrowser.ClampedIndex | Assets/Scripts/EvidenceUI.cs:151-156 | 0 on an empty list; otherwise min(max(i, 0), n-1) |
| InventoryBrowser.PrevUndoesNext | Assets/Scripts/EvidenceUI.cs:99-115 | previous after next restores an in-range cursor |
| InventoryBrowser.NextUndoesPrev | Assets/Scripts/EvidenceUI.cs:99-115 | next after previous restores an in-range cursor |
| InventoryBrowser.NextTimesBeforeEnd | Assets/Scripts/EvidenceUI.cs:99-106 | k presses of next before the end move k places on |
| InventoryBrowser.NextFullCycle | Assets/Scripts/EvidenceUI.cs:99-106 | n presses of next on an n-item list bring the cursor back |
| InventoryBrowser.NatToString | Assets/Scripts/EvidenceUI.cs:179 | a non-empty string of decimal digits in `int.ToString`'s canonical form: it starts with '0' exactly when the number is 0, and 0 is "0" |
| InventoryBrowser.CounterText | Assets/Scripts/EvidenceUI.cs:179 | the counter is digits, "/", digits; the part before the first "/" reads back as the position and the part after it as the count |
| InventoryBrowser.EmptyCounterText | Assets/Scripts/EvidenceUI.cs:167 | the empty-list counter is the text "0/0" |
| InventoryBrowser.ParseNatToString | Assets/Scripts/EvidenceUI.cs:179 | the numeral reads back as the number it was written from |
| InventoryBrowser.CounterTextInjective | Assets/Scripts/EvidenceUI.cs:179 | two counters that read alike have the same position and count |
| InventoryBrowser.ShownCounterNotEmpty | Assets/Scripts/EvidenceUI.cs:162-182 | a non-empty list never shows "0/0" |
| InventoryBrowser.EvidenceUI.constructor | Assets/Scripts/EvidenceUI.cs:36-55 | the browser starts closed with the cursor at 0 |
| InventoryBrowser.EvidenceUI.Evidence | Assets/Scripts/EvidenceUI.cs:191-198 | the list browsed is the evidence manager's collected list, or empty without a manager |
| InventoryBrowser.EvidenceUI.Refresh | Assets/Scripts/EvidenceUI.cs:158-189 | the panel is drawn: an empty list shows "No evidence", "You haven't collected any evidence yet.", "0/0" and disabled buttons; otherwise the item at the cursor, "{index+1}/{n}", and buttons enabled exactly when n > 1. The cursor, the open flag, the panel and the feedback are unchanged |
| InventoryBrowser.EvidenceUI.ClampIndex | Assets/Scripts/EvidenceUI.cs:151-156 | the cursor is clamped into the list; the open flag, the panel, the texts, the buttons and the feedback are unchanged |
| InventoryBrowser.EvidenceUI.Open | Assets/Scripts/EvidenceUI.cs:72-84 | with a dialogue on screen nothing changes, the controller included; otherwise the browser is open, the panel shown, the player stopped, the cursor clamped and the panel drawn as Refresh draws it, with the feedback unchanged |
| InventoryBrowser.EvidenceUI.Close | Assets/Scripts/EvidenceUI.cs:86-93 | always closed and hidden, the player moving again and the feedback cleared; the cursor, the texts and the buttons are unchanged |
| InventoryBrowser.EvidenceUI.Toggle | Assets/Scripts/EvidenceUI.cs:66-70 | an open browser gets Close's whole outcome; a closed one gets Open's whole outcome, which with a dialogue on screen is no change at all |
| InventoryBrowser.EvidenceUI.LockPlayer | Assets/Scripts/EvidenceUI.cs:200-207 | the controller is enabled exactly when not locked |
| InventoryBrowser.EvidenceUI.Next | Assets/Scripts/EvidenceUI.cs:99-106 | an empty list leaves the cursor; otherwise NextIndex; the panel is drawn as Refresh draws it; the open flag, the panel and the feedback are unchanged |
| InventoryBrowser.EvidenceUI.Prev | Assets/Scripts/EvidenceUI.cs:108-115 | an empty list leaves the cursor; otherwise PrevIndex; the panel is drawn as Refresh draws it; the open flag, the panel and the feedback are unchanged |
| InventoryBrowser.EvidenceUI.HandleEvidenceChanged | Assets/Scripts/EvidenceUI.cs:145-149 | the cursor is clamped into the changed list; an open browser is drawn as Refresh draws it, and a closed one keeps its texts; the open flag, the panel and the feedback are unchanged |
| InventoryBrowser.EvidenceUI.OnPresentPressed | Assets/Scripts/EvidenceUI.cs:117-143 | an empty list shows "No evidence to present." and calls no one; no target: "No one to present this to."; otherwise the selected item goes to the target with NPCDialogue.ReceiveEvidence's outcome (its lines, its node and its verified flag), and the feedback says "Presented: " + the display name exactly when the target accepted, else "That didn't work."; the cursor and the panel's texts are unchanged |

## Left out

- Engine wiring is not modelled:
  - The first-person controller's movement, the interactor's raycasts and
    the browser's target search, because they are physics and floating
    point. The found target is a parameter of `OnPresentPressed`.
  - Key polling and the input router.
  - The evidence toast.
  - The ending-scene manager.
  - Cursor lock and visibility, sprites, and `SetActive` on widgets other
    than the panels. Panels are booleans and texts are strings.
- Timed behaviour is not modelled. The feedback line's timed clearing and
  the two-second delay before an accusation's scene load are left out; the
  load appears only as "scheduled after the lines".
- Singleton set-up and `DontDestroyOnLoad` are left out. Each manager
  exists once, and a missing manager is a null reference where the scripts
  check for one.
- `ConversationContext`'s active receiver is not modelled, because nothing
  in the modelled scripts reads it.
- `DialogueActor.Interact` is not modelled, because it calls a
  `StartConversation` that the dialogue manager does not define. A witness
  with a dialogue actor therefore only reports that the actor takes over.
- Debug logging and the context-menu status dumps are left out.
- The remaining context-menu actions are modelled as follows:
  - the investigation's force and reset, and the giver's reset, are methods of their own;
  - the witness's `TestAccusation` only calls the accusation, so `Witness.AccuseWitness` models it and it has no member of its own.
- Prompt strings other than the witness's are left out.
- The officer's four required slots are assumed set. With one unset the
  officer runs normally, but only the three set assets count as required,
  so the four-name check never holds and the officer can never have all
  the evidence. The model does not represent that configuration.
- The giver's `GetAutopsyDialogue` getter is not a member of its own. The officer reads the `autopsyDialogueNode` field directly.
- NpcStates.WriteBack: the order in which a hash set is copied into a record's list is not modelled; the contract says only that the list holds each name once.
