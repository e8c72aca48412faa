/** Data shared by every script of the narrative layer: evidence items,
    dialogue lines, the dialogue-node graph and the engine's enable flag. */
module Types {

  datatype Option<+T> = None | Some(value: T)

  /** The first of the two that is set, or none when neither is. */
  function OrElse<T>(a: Option<T>, b: Option<T>): (r: Option<T>)
    ensures r.Some? <==> a.Some? || b.Some?
    ensures a.Some? ==> r == a
    ensures a.None? ==> r == b
  {
    if a.Some? then a else b
  }

  /** An evidence asset. Distinct assets are distinct values even when they
      share a `name`: `instance` stands for the asset's object identity, which
      is what `==` on two assets compares, while `name` is the asset name that
      some scripts record instead. The icon sprite is not modelled. */
  datatype EvidenceItem = EvidenceItem(instance: nat, name: string, displayName: string, description: string)

  /** One line of a conversation: who says it and what. */
  datatype DialogueLine = DialogueLine(speaker: string, text: string)

  /** A reference to a dialogue-node asset. */
  type NodeRef = nat

  /** A dialogue-node asset. An absent or empty `lines` array are one value,
      the empty sequence: every script treats the two alike. */
  datatype Node = Node(
    nodeId: string,
    lines: seq<DialogueLine>,
    requiredEvidence: Option<EvidenceItem>,
    ifEvidenceCorrect: Option<NodeRef>,
    ifEvidenceWrong: Option<NodeRef>,
    ifNoEvidence: Option<NodeRef>,
    next: Option<NodeRef>)

  /** The node assets of one scene, by reference. Links may form cycles. */
  type Graph = map<NodeRef, Node>

  /** A link that is unset or names an asset of the graph. */
  predicate RefIn(g: Graph, r: Option<NodeRef>) {
    r.None? || r.value in g
  }

  predicate LinksIn(g: Graph, n: Node) {
    RefIn(g, n.ifEvidenceCorrect) && RefIn(g, n.ifEvidenceWrong) &&
    RefIn(g, n.ifNoEvidence) && RefIn(g, n.next)
  }

  /** Every link of every node resolves: an asset reference is either unset
      or points at an existing asset. */
  predicate Closed(g: Graph) {
    forall r :: r in g ==> LinksIn(g, g[r])
  }

  /** The lines a link would show: none when the link is unset. */
  function LinesOf(g: Graph, r: Option<NodeRef>): (ls: seq<DialogueLine>)
    requires RefIn(g, r)
    ensures r.Some? ==> ls == g[r.value].lines
    ensures r.None? ==> ls == []
  {
    if r.Some? then g[r.value].lines else []
  }

  /** The lines of a node; an unset node has none. */
  function NodeLines(n: Option<Node>): seq<DialogueLine> {
    if n.Some? then n.value.lines else []
  }

  predicate NoDuplicates<T(==)>(s: seq<T>) {
    forall i, j :: 0 <= i < j < |s| ==> s[i] != s[j]
  }

  /** `list` holds exactly the elements of `s`, each once: what copying a
      hash set into a list element by element produces, in some order. */
  ghost predicate Enumerates(list: seq<string>, s: set<string>) {
    NoDuplicates(list) && |list| == |s| && (forall x :: x in list <==> x in s)
  }

  /** An engine component whose `enabled` flag other scripts switch: the
      first-person controller and the interactor. */
  class Behaviour {
    var enabled: bool

    constructor (enabled: bool)
      ensures this.enabled == enabled
    {
      this.enabled := enabled;
    }
  }
}
