/** The dialogue panel: a queue of body lines shown one at a time; while the
    panel is open the player's controller and interactor are switched off. */
module Dialogue {
  import opened Types

  class DialogueManager {
    /** The first-person controller and the interactor; either may be unset. */
    const fpsController: Behaviour?
    const interactor: Behaviour?

    var lines: seq<string>      // the queue, head first
    var panelActive: bool
    var speakerText: string
    var bodyText: string

    /** The assigned controls. */
    ghost function Controls(): set<object>
    {
      (if fpsController == null then {} else {fpsController}) +
      (if interactor == null then {} else {interactor})
    }

    /** The player is locked: every assigned control is disabled. */
    predicate PlayerLocked()
      reads this, fpsController, interactor
    {
      (fpsController != null ==> !fpsController.enabled) &&
      (interactor != null ==> !interactor.enabled)
    }

    /** The player is free: every assigned control is enabled. */
    predicate PlayerFree()
      reads this, fpsController, interactor
    {
      (fpsController != null ==> fpsController.enabled) &&
      (interactor != null ==> interactor.enabled)
    }

    /** Set-up on scene start: the panel is hidden and nothing is queued. */
    constructor (fpsController: Behaviour?, interactor: Behaviour?)
      ensures this.fpsController == fpsController && this.interactor == interactor
      ensures !IsOpen() && lines == [] && speakerText == "" && bodyText == ""
    {
      this.fpsController := fpsController;
      this.interactor := interactor;
      lines := [];
      panelActive := false;
      speakerText := "";
      bodyText := "";
    }

    /** The dialogue is open exactly when its panel is shown. */
    predicate IsOpen()
      reads this
      ensures IsOpen() <==> panelActive
    {
      panelActive
    }

    /** Replaces the queue by `dialogueLines`, opens the panel and shows the
        first line; an absent or empty array changes nothing. */
    method ShowDialogue(speaker: string, dialogueLines: seq<string>)
      modifies this, fpsController, interactor
      ensures dialogueLines == [] ==>
        unchanged(this) && unchanged(Controls())
      ensures dialogueLines != [] ==>
        && IsOpen() && PlayerLocked() && speakerText == speaker
        && bodyText == dialogueLines[0] && lines == dialogueLines[1..]
    {
      if |dialogueLines| == 0 {
        return;
      }
      speakerText := speaker;
      lines := [];
      var i := 0;
      while i < |dialogueLines|
        invariant 0 <= i <= |dialogueLines|
        invariant lines == dialogueLines[..i]
        invariant speakerText == speaker
      {
        lines := lines + [dialogueLines[i]];
        i := i + 1;
      }
      assert lines == dialogueLines;
      panelActive := true;
      LockPlayer();
      NextLine();
    }

    /** Shows the next queued line, or closes the panel when none is left. */
    method NextLine()
      modifies this, fpsController, interactor
      ensures speakerText == old(speakerText)
      ensures old(lines) != [] ==>
        && bodyText == old(lines)[0] && lines == old(lines)[1..]
        && panelActive == old(panelActive)
        && unchanged(Controls())
      ensures old(lines) == [] ==>
        && !IsOpen() && PlayerFree() && lines == [] && bodyText == old(bodyText)
    {
      if |lines| == 0 {
        CloseDialogue();
        return;
      }
      bodyText := lines[0];
      lines := lines[1..];
    }

    method CloseDialogue()
      modifies this, fpsController, interactor
      ensures !IsOpen() && PlayerFree()
      ensures lines == old(lines) && bodyText == old(bodyText) && speakerText == old(speakerText)
    {
      panelActive := false;
      UnlockPlayer();
    }

    /** The per-frame handler: `advance` is whether space or the left mouse
        button went down this frame. */
    method Update(advance: bool)
      modifies this, fpsController, interactor
      ensures !old(IsOpen()) || !advance ==>
        unchanged(this) && unchanged(Controls())
      ensures old(IsOpen()) && advance ==> speakerText == old(speakerText)
      ensures old(IsOpen()) && advance && old(lines) != [] ==>
        && IsOpen() && bodyText == old(lines)[0] && lines == old(lines)[1..]
        && unchanged(Controls())
      ensures old(IsOpen()) && advance && old(lines) == [] ==>
        !IsOpen() && PlayerFree() && lines == [] && bodyText == old(bodyText)
    {
      if !IsOpen() {
        return;
      }
      if advance {
        NextLine();
      }
    }

    method LockPlayer()
      modifies fpsController, interactor
      ensures PlayerLocked()
    {
      if fpsController != null { fpsController.enabled := false; }
      if interactor != null { interactor.enabled := false; }
    }

    method UnlockPlayer()
      modifies fpsController, interactor
      ensures PlayerFree()
    {
      if fpsController != null { fpsController.enabled := true; }
      if interactor != null { interactor.enabled := true; }
    }
  }

  /** The player reads a conversation to its end, pressing "advance" every
      frame: the body texts shown are exactly the given lines in order, the
      `|dialogueLines|`-th press closes the panel, and control returns to the
      player. */
  method ReadToEnd(m: DialogueManager, speaker: string, dialogueLines: seq<string>)
      returns (seen: seq<string>, presses: nat)
    requires dialogueLines != []
    modifies m, m.fpsController, m.interactor
    ensures seen == dialogueLines && presses == |dialogueLines|
    ensures !m.IsOpen() && m.PlayerFree() && m.lines == []
  {
    m.ShowDialogue(speaker, dialogueLines);
    seen := [m.bodyText];
    presses := 0;
    while m.IsOpen()
      invariant m.IsOpen() ==> presses < |dialogueLines| && |seen| == presses + 1
      invariant m.IsOpen() ==> m.lines == dialogueLines[presses + 1..]
      invariant m.IsOpen() ==> seen == dialogueLines[..presses + 1]
      invariant !m.IsOpen() ==> presses == |dialogueLines| && seen == dialogueLines
      invariant !m.IsOpen() ==> m.PlayerFree() && m.lines == []
      decreases |dialogueLines| - presses
    {
      m.Update(true);
      presses := presses + 1;
      if m.IsOpen() {
        seen := seen + [m.bodyText];
      }
    }
  }
}
