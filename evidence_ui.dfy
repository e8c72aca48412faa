/** The inventory browser: a panel that shows one collected item at a time,
    with a cyclic cursor over the inventory list, an "i/n" counter, and a
    present button that hands the selected item to the character in front
    of the player. */
module InventoryBrowser {
  import opened Types
  import opened EvidenceInventory
  import opened Dialogue
  import opened NpcDialogue

  const NoEvidenceTitle := "No evidence"
  const NoEvidenceDescription := "You haven't collected any evidence yet."
  const NothingToPresent := "No evidence to present."
  const NoOneToPresentTo := "No one to present this to."
  const PresentFailed := "That didn't work."
  const PresentedPrefix := "Presented: "

  /** C#'s `%` on `int`: the remainder has the sign of the dividend. */
  function CsRem(a: int, n: int): (r: int)
    requires n > 0
    ensures a >= 0 ==> r == a % n
    ensures a < 0 ==> -n < r <= 0
  {
    if a >= 0 then a % n else -((-a) % n)
  }

  /** The cursor after "next" on a list of `n > 0` items: one on, wrapping
      from the last item to the first. */
  function NextIndex(i: int, n: nat): (r: int)
    requires n > 0
    ensures 0 <= i ==> 0 <= r < n && r == (i + 1) % n
    ensures 0 <= i < n ==> r == if i + 1 < n then i + 1 else 0
  {
    CsRem(i + 1, n)
  }

  /** The cursor after "previous": one back, wrapping from the first item
      to the last. */
  function PrevIndex(i: int, n: nat): (r: int)
    requires n > 0
    ensures 0 <= i ==> 0 <= r < n && r == (i - 1 + n) % n
    ensures 0 <= i < n ==> r == if i == 0 then n - 1 else i - 1
  {
    CsRem(i - 1 + n, n)
  }

  /** The cursor clamped into a list of `n` items; 0 on an empty list. */
  function ClampedIndex(i: int, n: nat): (r: int)
    ensures n == 0 ==> r == 0
    ensures n > 0 ==> 0 <= r < n
    ensures n > 0 && 0 <= i < n ==> r == i
    ensures n > 0 && i < 0 ==> r == 0
    ensures n > 0 && i >= n ==> r == n - 1
  {
    if n == 0 then 0
    else if i < 0 then 0
    else if i > n - 1 then n - 1
    else i
  }

  lemma PrevUndoesNext(i: int, n: nat)
    requires 0 <= i < n
    ensures PrevIndex(NextIndex(i, n), n) == i
  {
  }

  lemma NextUndoesPrev(i: int, n: nat)
    requires 0 <= i < n
    ensures NextIndex(PrevIndex(i, n), n) == i
  {
  }

  /** The cursor after `k` presses of "next". */
  function NextTimes(i: int, n: nat, k: nat): int
    requires n > 0
    decreases k
  {
    if k == 0 then i else NextTimes(NextIndex(i, n), n, k - 1)
  }

  /** Pressing "next" `k` times from an item `k` or more places before the
      end moves exactly `k` places on. */
  lemma {:induction false} NextTimesBeforeEnd(i: int, n: nat, k: nat)
    requires 0 <= i && i + k < n
    ensures NextTimes(i, n, k) == i + k
    decreases k
  {
    if k > 0 {
      NextTimesBeforeEnd(i + 1, n, k - 1);
    }
  }

  lemma {:induction false} NextTimesSplit(i: int, n: nat, a: nat, b: nat)
    requires n > 0
    ensures NextTimes(i, n, a + b) == NextTimes(NextTimes(i, n, a), n, b)
    decreases a
  {
    if a > 0 {
      NextTimesSplit(NextIndex(i, n), n, a - 1, b);
    }
  }

  /** Pressing "next" once per item brings the cursor back where it was. */
  lemma NextFullCycle(i: int, n: nat)
    requires 0 <= i < n
    ensures NextTimes(i, n, n) == i
  {
    NextTimesSplit(i, n, n - 1 - i, 1);
    NextTimesBeforeEnd(i, n, n - 1 - i);
    assert NextTimes(i, n, n - i) == 0;
    NextTimesSplit(i, n, n - i, i);
    NextTimesBeforeEnd(0, n, i);
  }

  predicate IsDigit(c: char) {
    '0' <= c <= '9'
  }

  predicate AllDigits(s: string) {
    forall i :: 0 <= i < |s| ==> IsDigit(s[i])
  }

  function DigitChar(d: nat): (c: char)
    requires d < 10
    ensures IsDigit(c)
  {
    (('0' as int) + d) as char
  }

  function DigitValue(c: char): nat
    requires IsDigit(c)
  {
    (c as int) - ('0' as int)
  }

  /** The decimal numeral of `n`, as `int.ToString` writes it: digits
      only, and no leading zero except in the numeral "0" itself. */
  function NatToString(n: nat): (s: string)
    ensures s != [] && AllDigits(s)
    ensures s[0] == '0' <==> n == 0
    ensures n == 0 ==> s == "0"
    decreases n
  {
    if n < 10 then [DigitChar(n)] else NatToString(n / 10) + [DigitChar(n % 10)]
  }

  /** The value of a decimal numeral. */
  function ParseNat(s: string): nat
    requires AllDigits(s)
    decreases |s|
  {
    if s == [] then 0 else ParseNat(s[..|s| - 1]) * 10 + DigitValue(s[|s| - 1])
  }

  /** The numeral reads back as the number it was written from. */
  lemma {:induction false} ParseNatToString(n: nat)
    ensures ParseNat(NatToString(n)) == n
    decreases n
  {
    if n >= 10 {
      var s := NatToString(n);
      assert s[..|s| - 1] == NatToString(n / 10);
      ParseNatToString(n / 10);
    }
  }

  /** The counter "p/n": decimal digits up to the first '/', reading back
      as the position, and decimal digits after it, reading back as the
      count. */
  function CounterText(position: nat, count: nat): (t: string)
    ensures FirstSlash(t) < |t|
    ensures AllDigits(t[..FirstSlash(t)]) && ParseNat(t[..FirstSlash(t)]) == position
    ensures AllDigits(t[FirstSlash(t) + 1..]) && ParseNat(t[FirstSlash(t) + 1..]) == count
  {
    var s, u := NatToString(position), NatToString(count);
    SlashAfterDigits(s, u);
    ParseNatToString(position);
    ParseNatToString(count);
    assert (s + "/" + u)[..|s|] == s;
    assert (s + "/" + u)[|s| + 1..] == u;
    s + "/" + u
  }

  /** The empty-list counter is the text "0/0". */
  lemma EmptyCounterText()
    ensures CounterText(0, 0) == "0/0"
  {
  }

  /** The position of the first '/' in `t`, or `|t|` when there is none. */
  function FirstSlash(t: string): (k: nat)
    ensures k <= |t|
    ensures k < |t| ==> t[k] == '/'
    ensures forall i :: 0 <= i < k ==> t[i] != '/'
    decreases |t|
  {
    if t == [] then 0 else if t[0] == '/' then 0 else 1 + FirstSlash(t[1..])
  }

  lemma SlashAfterDigits(s: string, u: string)
    requires AllDigits(s)
    ensures FirstSlash(s + "/" + u) == |s|
  {
    var t := s + "/" + u;
    assert t[|s|] == '/';
  }

  /** A counter text names its position and count: two counters that read
      alike have the same position and the same count. */
  lemma CounterTextInjective(p: nat, n: nat, p': nat, n': nat)
    requires CounterText(p, n) == CounterText(p', n')
    ensures p == p' && n == n'
  {
  }

  /** A non-empty list never shows the empty-list counter "0/0". */
  lemma ShownCounterNotEmpty(index: nat, count: nat)
    ensures CounterText(index + 1, count) != CounterText(0, 0)
  {
    if CounterText(index + 1, count) == CounterText(0, 0) {
      CounterTextInjective(index + 1, count, 0, 0);
    }
  }

  class EvidenceUI {
    /** The evidence manager, the dialogue panel and the player controller;
        each may be missing. */
    const inventory: EvidenceManager?
    const dialogue: DialogueManager?
    const fpsController: Behaviour?

    var index: int
    var isOpen: bool
    var panelActive: bool
    var titleText: string
    var descriptionText: string
    var counterText: string
    /** Whether the previous and next buttons can be pressed. */
    var navInteractable: bool
    var feedbackText: string

    /** The list browsed: the inventory, or nothing without a manager. */
    function Evidence(): (list: seq<EvidenceItem>)
      reads this, inventory
      ensures inventory != null ==> list == inventory.collected
      ensures inventory == null ==> list == []
    {
      if inventory == null then [] else inventory.collected
    }

    /** The panel's texts and the buttons' state. */
    ghost function Texts(): (string, string, string, bool)
      reads this
    {
      (titleText, descriptionText, counterText, navInteractable)
    }

    /** The panel shows the item under the cursor, the counter
        "{index+1}/{n}" and buttons usable exactly when there is more than
        one item; on an empty list, the empty-list texts, "0/0" and
        disabled buttons. */
    ghost predicate Drawn()
      reads this, inventory
    {
      if Evidence() == [] then
        && titleText == NoEvidenceTitle && descriptionText == NoEvidenceDescription
        && counterText == CounterText(0, 0) && !navInteractable
      else
        && 0 <= index < |Evidence()|
        && titleText == Evidence()[index].displayName && descriptionText == Evidence()[index].description
        && counterText == CounterText(index + 1, |Evidence()|)
        && (navInteractable <==> |Evidence()| > 1)
    }

    /** The cursor is on an item, or is 0 on an empty list. The inventory
        only grows, so this survives pickups made elsewhere. */
    ghost predicate Valid()
      reads this, inventory
    {
      0 <= index && (index < |Evidence()| || index == 0)
    }

    /** Set-up on scene start: the panel is hidden, the cursor at 0. */
    constructor (inventory: EvidenceManager?, dialogue: DialogueManager?, fpsController: Behaviour?)
      ensures Valid()
      ensures this.inventory == inventory && this.dialogue == dialogue && this.fpsController == fpsController
      ensures index == 0 && !isOpen && !panelActive
    {
      this.inventory := inventory;
      this.dialogue := dialogue;
      this.fpsController := fpsController;
      index := 0;
      isOpen := false;
      panelActive := false;
      titleText := "";
      descriptionText := "";
      counterText := "";
      navInteractable := false;
      feedbackText := "";
    }

    /** Writes the panel's texts for the current item, or the empty-list
        texts with the buttons disabled. */
    method Refresh()
      requires Valid()
      modifies this
      ensures Valid()
      ensures index == old(index) && isOpen == old(isOpen) && panelActive == old(panelActive)
      ensures feedbackText == old(feedbackText)
      ensures Drawn()
    {
      var list := Evidence();
      if |list| == 0 {
        titleText := NoEvidenceTitle;
        descriptionText := NoEvidenceDescription;
        counterText := CounterText(0, 0);
        navInteractable := false;
        return;
      }
      var item := list[index];
      titleText := item.displayName;
      descriptionText := item.description;
      counterText := CounterText(index + 1, |list|);
      navInteractable := |list| > 1;
    }

    /** Moves the cursor into the list. */
    method ClampIndex()
      modifies this
      ensures Valid()
      ensures index == ClampedIndex(old(index), |Evidence()|)
      ensures isOpen == old(isOpen) && panelActive == old(panelActive)
      ensures feedbackText == old(feedbackText) && Texts() == old(Texts())
    {
      var list := Evidence();
      if |list| == 0 {
        index := 0;
        return;
      }
      index := if index < 0 then 0 else if index > |list| - 1 then |list| - 1 else index;
    }

    /** Opens the browser unless a dialogue is on screen: the panel shows,
        the player stops moving and the cursor is clamped into the list. */
    method Open()
      requires Valid()
      modifies this, fpsController
      ensures Valid()
      ensures dialogue != null && dialogue.IsOpen() ==>
        unchanged(this) && (fpsController != null ==> unchanged(fpsController))
      ensures !(dialogue != null && dialogue.IsOpen()) ==>
        && isOpen && panelActive && (fpsController != null ==> !fpsController.enabled)
        && index == ClampedIndex(old(index), |Evidence()|)
        && Drawn() && feedbackText == old(feedbackText)
    {
      if dialogue != null && dialogue.IsOpen() {
        return;
      }
      isOpen := true;
      panelActive := true;
      LockPlayer(true);
      ClampIndex();
      Refresh();
    }

    /** Closes the browser: the panel hides, the player moves again and the
        feedback line is cleared. */
    method Close()
      modifies this, fpsController
      ensures !isOpen && !panelActive && feedbackText == ""
      ensures fpsController != null ==> fpsController.enabled
      ensures index == old(index) && Texts() == old(Texts())
    {
      isOpen := false;
      panelActive := false;
      LockPlayer(false);
      feedbackText := "";
    }

    /** Opens a closed browser and closes an open one. */
    method Toggle()
      requires Valid()
      modifies this, fpsController
      ensures Valid()
      ensures old(isOpen) ==>
        && !isOpen && !panelActive && feedbackText == ""
        && (fpsController != null ==> fpsController.enabled)
        && index == old(index) && Texts() == old(Texts())
      ensures !old(isOpen) && !(dialogue != null && dialogue.IsOpen()) ==>
        && isOpen && panelActive && (fpsController != null ==> !fpsController.enabled)
        && index == ClampedIndex(old(index), |Evidence()|)
        && Drawn() && feedbackText == old(feedbackText)
      ensures !old(isOpen) && dialogue != null && dialogue.IsOpen() ==>
        unchanged(this) && (fpsController != null ==> unchanged(fpsController))
    {
      if isOpen {
        Close();
      } else {
        Open();
      }
    }

    /** The player controller stops while the browser is open. */
    method LockPlayer(locked: bool)
      modifies fpsController
      ensures fpsController != null ==> fpsController.enabled == !locked
    {
      if fpsController != null {
        fpsController.enabled := !locked;
      }
    }

    /** The cursor moves to the next item, cyclically; on an empty list it
        stays. */
    method Next()
      requires Valid()
      modifies this
      ensures Valid()
      ensures Evidence() == [] ==> index == old(index)
      ensures Evidence() != [] ==> index == NextIndex(old(index), |Evidence()|)
      ensures Drawn()
      ensures isOpen == old(isOpen) && panelActive == old(panelActive) && feedbackText == old(feedbackText)
    {
      var list := Evidence();
      if |list| == 0 {
        Refresh();
        return;
      }
      index := CsRem(index + 1, |list|);
      Refresh();
    }

    /** The cursor moves to the previous item, cyclically; on an empty list
        it stays. */
    method Prev()
      requires Valid()
      modifies this
      ensures Valid()
      ensures Evidence() == [] ==> index == old(index)
      ensures Evidence() != [] ==> index == PrevIndex(old(index), |Evidence()|)
      ensures Drawn()
      ensures isOpen == old(isOpen) && panelActive == old(panelActive) && feedbackText == old(feedbackText)
    {
      var list := Evidence();
      if |list| == 0 {
        Refresh();
        return;
      }
      index := CsRem(index - 1 + |list|, |list|);
      Refresh();
    }

    /** The inventory changed: the cursor is clamped and an open panel
        redrawn. */
    method HandleEvidenceChanged()
      modifies this
      ensures Valid()
      ensures index == ClampedIndex(old(index), |Evidence()|)
      ensures isOpen == old(isOpen) && panelActive == old(panelActive) && feedbackText == old(feedbackText)
      ensures isOpen ==> Drawn()
      ensures !isOpen ==> Texts() == old(Texts())
    {
      ClampIndex();
      if isOpen {
        Refresh();
      }
    }

    /** The present button, with `target` the character found in front of
        the player (or none). An empty list says there is nothing to present
        and calls no one; otherwise the selected item goes to the target,
        and the feedback line says whether it was accepted. */
    method OnPresentPressed(target: NPCDialogue?) returns (shown: seq<DialogueLine>)
      requires Valid()
      requires target != null ==> target.Valid()
      modifies this, target
      ensures Valid() && index == old(index) && isOpen == old(isOpen) && panelActive == old(panelActive)
      ensures Texts() == old(Texts())
      ensures Evidence() == [] ==>
        feedbackText == NothingToPresent && shown == [] && (target != null ==> unchanged(target))
      ensures Evidence() != [] && target == null ==> feedbackText == NoOneToPresentTo && shown == []
      ensures Evidence() != [] && target != null ==>
        var selected := Evidence()[index];
        && target.Valid()
        && (old(target.verified) ==> target.verified)
        && (!old(target.Waiting()) ==>
              && feedbackText == PresentFailed && shown == []
              && target.currentNode == old(target.currentNode) && target.verified == old(target.verified))
        && (old(target.Waiting()) ==>
              var node := target.graph[old(target.currentNode).value];
              var success := if node.ifEvidenceCorrect.Some? then node.ifEvidenceCorrect.value
                             else old(target.currentNode).value;
              && (Some(selected) == node.requiredEvidence ==>
                    && feedbackText == PresentedPrefix + selected.displayName
                    && target.verified && shown == target.graph[success].lines
                    && target.currentNode == target.graph[success].next)
              && (Some(selected) != node.requiredEvidence ==>
                    && feedbackText == PresentFailed
                    && target.currentNode == old(target.currentNode) && target.verified == old(target.verified)
                    && shown == LinesOf(target.graph, OrElse(node.ifEvidenceWrong, node.ifNoEvidence))))
    {
      var list := Evidence();
      if |list| == 0 {
        feedbackText := NothingToPresent;
        return [];
      }
      var selected := list[index];
      if target == null {
        feedbackText := NoOneToPresentTo;
        return [];
      }
      var ok;
      ok, shown := target.ReceiveEvidence(Some(selected));
      feedbackText := if ok then PresentedPrefix + selected.displayName else PresentFailed;
    }
  }
}
