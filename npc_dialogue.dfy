/** A character whose conversation walks the node graph and may wait at a
    node until the player presents the evidence that node asks for. */
module NpcDialogue {
  import opened Types

  /** The node a talk starts from: the after-verified node once the
      evidence was verified and such a node is set, else the current one. */
  function TalkStart(verified: bool, afterVerifiedNode: Option<NodeRef>, currentNode: Option<NodeRef>): (r: Option<NodeRef>)
    ensures verified && afterVerifiedNode.Some? ==> r == afterVerifiedNode
    ensures !verified || afterVerifiedNode.None? ==> r == currentNode
  {
    if verified && afterVerifiedNode.Some? then afterVerifiedNode else currentNode
  }

  class NPCDialogue {
    const graph: Graph
    const startNode: Option<NodeRef>
    const afterVerifiedNode: Option<NodeRef>

    var currentNode: Option<NodeRef>
    var verified: bool

    ghost predicate Valid()
      reads this
    {
      Closed(graph) && RefIn(graph, startNode) && RefIn(graph, afterVerifiedNode) && RefIn(graph, currentNode)
    }

    /** The node the character is at is gated: it waits for evidence. */
    predicate Waiting()
      reads this
      requires Valid()
    {
      currentNode.Some? && graph[currentNode.value].requiredEvidence.Some?
    }

    /** Set-up on scene start: the walk begins at the start node. */
    constructor (graph: Graph, startNode: Option<NodeRef>, afterVerifiedNode: Option<NodeRef>)
      requires Closed(graph) && RefIn(graph, startNode) && RefIn(graph, afterVerifiedNode)
      ensures Valid()
      ensures this.graph == graph && this.startNode == startNode && this.afterVerifiedNode == afterVerifiedNode
      ensures currentNode == startNode && !verified
    {
      this.graph := graph;
      this.startNode := startNode;
      this.afterVerifiedNode := afterVerifiedNode;
      currentNode := startNode;
      verified := false;
    }

    /** The player talks to the character: the lines of the node reached are
        shown; an ungated node then hands over to its `next`, a gated one
        stays put until evidence arrives. */
    method Talk() returns (shown: seq<DialogueLine>)
      requires Valid()
      modifies this
      ensures Valid() && verified == old(verified)
      ensures var start := TalkStart(old(verified), afterVerifiedNode, old(currentNode));
        && shown == LinesOf(graph, start)
        && (start.Some? && graph[start.value].requiredEvidence.None? ==> currentNode == graph[start.value].next)
        && (start.Some? && graph[start.value].requiredEvidence.Some? ==> currentNode == start)
        && (start.None? ==> currentNode == None)
    {
      if verified && afterVerifiedNode.Some? {
        currentNode := afterVerifiedNode;
      }
      if currentNode.None? {
        return [];
      }
      var node := graph[currentNode.value];
      shown := node.lines;
      if node.requiredEvidence.None? {
        currentNode := node.next;
      }
    }

    /** The player presents `item` (absent when nothing is selected). Only a
        gated node reacts: the required item is accepted, verifies the
        character and moves past the success node; any other item is
        refused with the node's wrong-evidence lines, or else its
        no-evidence lines. */
    method ReceiveEvidence(item: Option<EvidenceItem>) returns (accepted: bool, shown: seq<DialogueLine>)
      requires Valid()
      modifies this
      ensures Valid()
      ensures old(verified) ==> verified
      ensures !old(Waiting()) ==>
        !accepted && shown == [] && currentNode == old(currentNode) && verified == old(verified)
      ensures old(Waiting()) ==>
        var node := graph[old(currentNode).value];
        var success := if node.ifEvidenceCorrect.Some? then node.ifEvidenceCorrect.value else old(currentNode).value;
        && (accepted <==> item == node.requiredEvidence)
        && (accepted ==> verified && shown == graph[success].lines && currentNode == graph[success].next)
        && (!accepted ==> currentNode == old(currentNode) && verified == old(verified))
        && (!accepted ==> shown == LinesOf(graph, OrElse(node.ifEvidenceWrong, node.ifNoEvidence)))
    {
      if currentNode.None? {
        return false, [];
      }
      var node := graph[currentNode.value];
      if node.requiredEvidence.None? {
        return false, [];
      }
      if item == node.requiredEvidence {
        verified := true;
        if node.ifEvidenceCorrect.Some? {
          currentNode := node.ifEvidenceCorrect;
        }
        var success := graph[currentNode.value];
        shown := success.lines;
        currentNode := success.next;
        return true, shown;
      }
      var wrong := node.ifEvidenceWrong;
      if wrong.Some? {
        shown := graph[wrong.value].lines;
      } else if node.ifNoEvidence.Some? {
        shown := graph[node.ifNoEvidence.value].lines;
      } else {
        shown := [];
      }
      return false, shown;
    }
  }
}
