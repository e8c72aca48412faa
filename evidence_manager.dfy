/** The player's evidence inventory: an insertion-ordered list without
    duplicates that only ever grows. */
module EvidenceInventory {
  import opened Types

  /** What one `AddEvidence` call makes of the list `c`. */
  function Added(c: seq<EvidenceItem>, item: Option<EvidenceItem>): (r: seq<EvidenceItem>)
    ensures c <= r && |r| <= |c| + 1
    ensures item.Some? ==> item.value in r
    ensures forall x :: x in r ==> x in c || item == Some(x)
    ensures NoDuplicates(c) ==> NoDuplicates(r)
  {
    if item.None? || item.value in c then c else c + [item.value]
  }

  /** The list after adding each of `items` in turn, starting from `c`. */
  function Collect(c: seq<EvidenceItem>, items: seq<Option<EvidenceItem>>): (r: seq<EvidenceItem>)
    decreases |items|
  {
    if items == [] then c else Collect(Added(c, items[0]), items[1..])
  }

  /** Whatever is picked up, in whatever order: the earlier list stays a
      prefix, nothing is ever duplicated, and the list holds exactly the
      earlier items and the non-null items added. */
  lemma {:induction false} CollectFacts(c: seq<EvidenceItem>, items: seq<Option<EvidenceItem>>)
    requires NoDuplicates(c)
    ensures c <= Collect(c, items)
    ensures NoDuplicates(Collect(c, items))
    ensures forall x :: x in Collect(c, items) <==> x in c || Some(x) in items
    decreases |items|
  {
    if items != [] {
      var c' := Added(c, items[0]);
      CollectFacts(c', items[1..]);
      assert items == [items[0]] + items[1..];
      forall x ensures x in Collect(c, items) <==> x in c || Some(x) in items {
        assert Some(x) in items <==> items[0] == Some(x) || Some(x) in items[1..];
      }
    }
  }

  /** Each item sits where it was first added: the position of an item in the
      final list is fixed by the moment it was first picked up, so later
      pickups never reorder earlier ones. */
  lemma {:induction false} CollectKeepsPositions(c: seq<EvidenceItem>, items: seq<Option<EvidenceItem>>, k: nat)
    requires NoDuplicates(c)
    requires k <= |items|
    ensures Collect(c, items[..k]) <= Collect(c, items)
    decreases |items|
  {
    if k > 0 {
      var c' := Added(c, items[0]);
      CollectKeepsPositions(c', items[1..], k - 1);
      assert items[..k][1..] == items[1..][..k - 1];
    } else {
      CollectFacts(c, items);
    }
  }

  class EvidenceManager {
    var collected: seq<EvidenceItem>

    ghost predicate Valid()
      reads this
    {
      NoDuplicates(collected)
    }

    constructor ()
      ensures Valid() && collected == []
    {
      collected := [];
    }

    /** Adds a non-null item that is not yet held; answers whether it did. */
    method AddEvidence(item: Option<EvidenceItem>) returns (added: bool)
      requires Valid()
      modifies this
      ensures Valid()
      ensures added <==> item.Some? && item.value !in old(collected)
      ensures collected == Added(old(collected), item)
      ensures added ==> collected == old(collected) + [item.value]
      ensures !added ==> collected == old(collected)
    {
      if item.None? {
        return false;
      }
      if item.value in collected {
        return false;
      }
      collected := collected + [item.value];
      return true;
    }
  }
}
