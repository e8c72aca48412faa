/** A witness the player can talk to, or accuse once the accusation phase is
    on; accusing loads the ending scene that belongs to that witness. Every
    operation is a choice of what happens, written as a value. */
module Witness {
  import opened Types

  /** The witness's inspector settings; `hasDialogueActor` is whether a
      dialogue actor sits on the same object. */
  datatype WitnessConfig = WitnessConfig(
    witnessName: string,
    endingSceneName: string,
    normalDialogueNode: Option<Node>,
    accusationDialogueNode: Option<Node>,
    hasDialogueActor: bool)

  /** The outcome of loading the ending: the named scene, or nothing when no
      scene name is set. */
  datatype SceneLoad = SceneLoaded(scene: string) | NoScene

  /** What one interaction does. */
  datatype Action =
    | ActorConversation                                  // the dialogue actor takes over
    | ShowLines(lines: seq<DialogueLine>)                // the dialogue panel shows lines
    | NoAction
    | AccusationLinesThenLoad(lines: seq<DialogueLine>, load: SceneLoad)  // lines now, `load` after the delay
    | EndingLoad(load: SceneLoad)                                          // the ending loads at once

  const AccusePrompt := "Press E to accuse "
  const TalkPrompt := "Press E to talk to "

  /** The prompt names the witness; it offers the accusation exactly when
      the phase is on. `phaseActive` is false when there is no manager. */
  function PromptText(phaseActive: bool, witnessName: string): (prompt: string)
    ensures prompt == AccusePrompt + witnessName <==> phaseActive
    ensures prompt == TalkPrompt + witnessName <==> !phaseActive
  {
    assert (AccusePrompt + witnessName)[11] != (TalkPrompt + witnessName)[11];
    if phaseActive then AccusePrompt + witnessName else TalkPrompt + witnessName
  }

  /** Loading the ending: only a set scene name loads anything. */
  function LoadEndingScene(cfg: WitnessConfig): (load: SceneLoad)
    ensures load.SceneLoaded? <==> cfg.endingSceneName != ""
    ensures load.SceneLoaded? ==> load.scene == cfg.endingSceneName
  {
    if cfg.endingSceneName != "" then SceneLoaded(cfg.endingSceneName) else NoScene
  }

  /** The accusation: with accusation lines to show, they are shown and the
      load follows later; without, the ending loads at once. */
  function AccuseWitness(cfg: WitnessConfig): (a: Action)
    ensures a.AccusationLinesThenLoad? <==> NodeLines(cfg.accusationDialogueNode) != []
    ensures a.AccusationLinesThenLoad? ==> a.lines == NodeLines(cfg.accusationDialogueNode)
    ensures !a.AccusationLinesThenLoad? ==> a.EndingLoad?
    ensures a.load == LoadEndingScene(cfg)
  {
    var lines := NodeLines(cfg.accusationDialogueNode);
    if |lines| > 0 then AccusationLinesThenLoad(lines, LoadEndingScene(cfg)) else EndingLoad(LoadEndingScene(cfg))
  }

  /** A normal talk: the dialogue actor when there is one, else the normal
      node's lines when it has any, else nothing. */
  function NormalInteraction(cfg: WitnessConfig): (a: Action)
    ensures a.ActorConversation? <==> cfg.hasDialogueActor
    ensures a.ShowLines? <==> !cfg.hasDialogueActor && NodeLines(cfg.normalDialogueNode) != []
    ensures a.ShowLines? ==> a.lines == NodeLines(cfg.normalDialogueNode)
    ensures a.NoAction? <==> !cfg.hasDialogueActor && NodeLines(cfg.normalDialogueNode) == []
  {
    if cfg.hasDialogueActor then ActorConversation
    else if |NodeLines(cfg.normalDialogueNode)| > 0 then ShowLines(NodeLines(cfg.normalDialogueNode))
    else NoAction
  }

  /** An accusation happens or scene loads. */
  predicate IsAccusation(a: Action) {
    a.AccusationLinesThenLoad? || a.EndingLoad?
  }

  /** Pressing the interact key: accuse while the phase is on, else talk. */
  function Interact(cfg: WitnessConfig, phaseActive: bool): (a: Action)
    ensures phaseActive ==> a == AccuseWitness(cfg)
    ensures !phaseActive ==> a == NormalInteraction(cfg)
  {
    if phaseActive then AccuseWitness(cfg) else NormalInteraction(cfg)
  }

  /** The player accuses the witness exactly when the phase is on, and the
      ending then loaded, at once or after the lines, is this witness's own:
      its scene when the name is set, nothing otherwise. */
  lemma AccusesIffPhaseActive(cfg: WitnessConfig, phaseActive: bool)
    ensures IsAccusation(Interact(cfg, phaseActive)) <==> phaseActive
    ensures IsAccusation(Interact(cfg, phaseActive)) ==>
      && (Interact(cfg, phaseActive).load.SceneLoaded? <==> cfg.endingSceneName != "")
      && (Interact(cfg, phaseActive).load.SceneLoaded? ==> Interact(cfg, phaseActive).load.scene == cfg.endingSceneName)
  {
  }

  /** The prompt and the interaction agree: the prompt offers the
      accusation exactly when pressing the key accuses. */
  lemma PromptMatchesInteraction(cfg: WitnessConfig, phaseActive: bool)
    ensures PromptText(phaseActive, cfg.witnessName) == AccusePrompt + cfg.witnessName <==>
      IsAccusation(Interact(cfg, phaseActive))
  {
  }
}
