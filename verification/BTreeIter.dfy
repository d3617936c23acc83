/** The iterator of benchmarks/metis/lib/keyvals_btree.c, as the rehash and the reduce
    step use it: entries come in key order, and may be cleared as they are read. */
module BTreeIter {
  import opened Common
  import opened BTreeNodes
  import opened BTreeLeaves
  import opened BTree

  /** Distinct leaves linked by `next`, none empty but perhaps the first. */
  ghost predicate Walk(h: Heap, leaves: seq<Node>) {
    && (forall n :: n in leaves ==> n in h && h[n].nkeys <= |h[n].arr|)
    && (forall i, j :: 0 <= i < j < |leaves| ==> leaves[i] != leaves[j])
    && (forall i :: 0 < i < |leaves| ==> h[leaves[i]].nkeys > 0)
    && (forall i :: 0 <= i < |leaves| ==> (i == |leaves| - 1 <==> h[leaves[i]].next == null))
    && (forall i :: 0 <= i < |leaves| - 1 ==> h[leaves[i]].next == leaves[i + 1])
  }

  /** What is left to read of a record from slot `next` on is as in `r`. */
  ghost predicate Unread(n: Node, r: Rec, next: nat)
    reads n
  {
    && n.nkeys == r.nkeys && n.next == r.next && |n.arr| == |r.arr|
    && forall i :: next <= i < |r.arr| ==> n.arr[i] == r.arr[i]
  }

  /** What `memset` leaves of a slot. */
  const CLEARED: Slot := Slot(0.0, [], 0, null)

  function Cleared(arr: seq<Slot>, i: int): seq<Slot> { if 0 <= i < |arr| then arr[i := CLEARED] else arr }

  /** `iter_t`.  `h` is the tree when the iteration began; the current leaf is `leaves[m]`. */
  class Iter {
    var next: nat
    var node: Node
    ghost const h: Heap
    ghost const leaves: seq<Node>
    ghost var m: nat

    ghost predicate Ok()
      reads this, leaves
    {
      && Walk(h, leaves)
      && m < |leaves| && node == leaves[m] && next <= node.nkeys
      && Unread(node, h[node], next)
      && forall j :: m < j < |leaves| ==> Unread(leaves[j], h[leaves[j]], 0)
    }

    /** How many entries have been read. */
    ghost function Pos(): nat
      reads this
      requires Walk(h, leaves) && m <= |leaves|
    {
      |Listing(h, leaves[..m])| + next
    }

    constructor (node: Node, ghost h: Heap, ghost leaves: seq<Node>)
      requires |leaves| > 0 && leaves[0] == node && Walk(h, leaves)
      requires forall n :: n in leaves ==> RecOf(n) == h[n]
      ensures Ok() && this.h == h && this.leaves == leaves && Pos() == 0
    {
      next := 0;
      this.node := node;
      this.h, this.leaves, m := h, leaves, 0;
    }

    /** The step to the next leaf. */
    method NextLeaf()
      requires Ok() && next == node.nkeys && node.next != null
      modifies this
      ensures Ok() && Pos() == old(Pos()) && next < node.nkeys
    {
      ListingStep(h, leaves, m);
      assert h[leaves[m]].next != null && m + 1 < |leaves|;
      node := node.next;
      next := 0;
      m := m + 1;
    }

    /** Reading, and perhaps clearing, the current slot. */
    method TakeSlot(bclear: bool) returns (kvs: KeyVals)
      requires Ok() && next < node.nkeys
      modifies this`next, node`arr
      ensures Ok() && Pos() == old(Pos()) + 1
      ensures old(Pos()) < |Listing(h, leaves)| && kvs == Listing(h, leaves)[old(Pos())]
      ensures next == old(next) + 1 && node.arr == if bclear then Cleared(old(node.arr), next - 1) else old(node.arr)
    {
      hide Listing;
      ListingStep(h, leaves, m);
      ListingPrefix(h, leaves, m + 1);
      kvs := KeyVals(node.arr[next].key, node.arr[next].vals, node.arr[next].hash);
      if bclear {
        node.arr := node.arr[next := CLEARED];
      }
      next := next + 1;
    }

    lemma Here()
      requires Ok()
      ensures node in leaves && next <= node.nkeys
    {
    }

    lemma AtEnd()
      requires Ok() && next == node.nkeys && node.next == null
      ensures Pos() == |Listing(h, leaves)|
    {
      assert h[leaves[m]].next == null && m == |leaves| - 1;
      assert leaves[..m + 1] == leaves;
      ListingStep(h, leaves, m);
    }

    /** `pch_iter_next_kvs`: the next entry, whose slot is cleared on request; nothing else is. */
    method NextKvs(bclear: bool) returns (ended: bool, kvs: KeyVals)
      requires Ok()
      modifies this, leaves
      ensures Ok()
      ensures ended <==> old(Pos()) == |Listing(h, leaves)|
      ensures ended ==> Pos() == old(Pos())
      ensures !ended ==> old(Pos()) < |Listing(h, leaves)| && kvs == Listing(h, leaves)[old(Pos())]
      ensures !ended ==> Pos() == old(Pos()) + 1 && next > 0
      ensures forall n :: n in leaves ==>
        n.arr == if !ended && bclear && n == node then Cleared(old(n.arr), next - 1) else old(n.arr)
    {
      hide Listing, Ok;
      Here();
      kvs := KeyVals(0.0, [], 0);
      if next == node.nkeys {
        if node.next == null {
          AtEnd();
          return true, kvs;
        }
        NextLeaf();
        Here();
      }
      kvs := TakeSlot(bclear);
      ended := false;
    }
  }

  /** `pch_iter_begin`: an iterator over the whole tree, or none if it is empty.  With
      `NextKvs` it yields the listing of the map. */
  method IterBegin(t: BTree) returns (ended: bool, iter: Iter?)
    requires t.Valid()
    ensures ended <==> t.nlevel == 0
    ensures ended ==> t.contents == map[] && iter == null
    ensures !ended ==> iter != null && fresh(iter) && iter.Ok() && iter.leaves == t.leaves && iter.Pos() == 0
    ensures !ended ==> IsListing(Listing(iter.h, iter.leaves), t.contents)
  {
    if t.nlevel == 0 {
      return true, null;
    }
    ghost var h := Snap(t.nodes);
    var node := t.FirstOfChain();
    ChainWalk(h, t.root, t.nlevel, t.leaves);
    CanRead(h, t.root, t.nlevel, t.leaves);
    ListingIsContents(h, t.root, t.nlevel, t.leaves, t.contents);
    iter := new Iter(node, h, t.leaves);
    ended := false;
  }

  lemma ChainWalk(h: Heap, root: Node, nlevel: nat, leaves: seq<Node>)
    requires Tree(h, root, nlevel, 0, None, None) && Chain(h, leaves)
    ensures Walk(h, leaves)
  {
    CanRead(h, root, nlevel, leaves);
    forall i, j | 0 <= i < j < |leaves| ensures leaves[i] != leaves[j] {
      ChainIncreases(h, root, nlevel, None, leaves, i, j);
    }
    forall i | 0 <= i < |leaves|
      ensures i > 0 ==> h[leaves[i]].nkeys > 0
      ensures i == |leaves| - 1 <==> h[leaves[i]].next == null
      ensures i < |leaves| - 1 ==> h[leaves[i]].next == leaves[i + 1]
    {
      assert LinkOk(h, leaves, i) && FillOk(h, root, None, leaves[i]);
      if i > 0 {
        assert LinkOk(h, leaves, i - 1);
      }
    }
  }
}
