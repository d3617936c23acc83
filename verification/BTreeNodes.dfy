/** The B+tree bucket of benchmarks/metis/lib/keyvals_btree.c.

    Nodes are heap objects changed in place.  A ghost snapshot of all nodes of a
    tree, a map from node to record, carries the invariants; each in-place step
    is shown to be one update of that snapshot, and lemmas about snapshots show
    that the update keeps the invariants. */
module BTreeNodes {
  import opened Common

  const ORDER: nat := 3

  /** `keyvals_t` as it lies in a node: the values pointer of an internal node holds a child. */
  datatype Slot = Slot(key: Key, vals: seq<Val>, hash: nat, child: Node?)

  /** `keyvals_cmp`, by key only. */
  function SlotCmp(a: Slot, b: Slot): int {
    if a.key < b.key then -1 else if a.key > b.key then 1 else 0
  }

  /** `btnode_t`.  A node covers the keys in [lo, hi); leaves have height 0. */
  class Node {
    var nkeys: nat
    var parent: Node?
    var arr: seq<Slot>
    var next: Node?
    ghost var height: nat
    ghost var lo: Option<Key>
    ghost var hi: Option<Key>

    /** `create_node`: all zero. */
    constructor (ghost height: nat, ghost lo: Option<Key>, ghost hi: Option<Key>)
      ensures nkeys == 0 && parent == null && next == null && |arr| == 2 * ORDER + 2
      ensures this.height == height && this.lo == lo && this.hi == hi
    {
      nkeys, parent, next := 0, null, null;
      arr := seq(2 * ORDER + 2, _ => Slot(0.0, [], 0, null));
      this.height, this.lo, this.hi := height, lo, hi;
    }
  }

  // ---------------------------------------------------------------- snapshots

  datatype Rec = Rec(nkeys: nat, parent: Node?, arr: seq<Slot>, next: Node?,
                     height: nat, lo: Option<Key>, hi: Option<Key>)

  type Heap = map<Node, Rec>

  ghost function RecOf(n: Node): Rec
    reads n
  {
    Rec(n.nkeys, n.parent, n.arr, n.next, n.height, n.lo, n.hi)
  }

  ghost function Snap(nodes: set<Node>): (h: Heap)
    reads nodes
  {
    map n: Node | n in nodes :: RecOf(n)
  }

  ghost predicate Above(lo: Option<Key>, k: Key) { lo.Some? ==> lo.value <= k }
  ghost predicate Below(k: Key, hi: Option<Key>) { hi.Some? ==> k < hi.value }

  ghost predicate KeysOk(r: Rec) {
    && |r.arr| == 2 * ORDER + 2
    && r.nkeys <= 2 * ORDER + 2
    && (r.height > 0 ==> 1 <= r.nkeys <= 2 * ORDER + 1)
    && (forall i, j :: 0 <= i < j < r.nkeys ==> r.arr[i].key < r.arr[j].key)
    && (forall i :: 0 <= i < r.nkeys ==> Above(r.lo, r.arr[i].key) && Below(r.arr[i].key, r.hi))
    && (r.height > 0 && r.lo.Some? ==> r.lo.value < r.arr[0].key)
  }

  /** The bounds an internal node gives its i-th child. */
  ghost function LoAt(r: Rec, i: nat): Option<Key>
    requires i <= |r.arr|
  {
    if i == 0 then r.lo else Some(r.arr[i - 1].key)
  }

  ghost function HiAt(r: Rec, i: nat): Option<Key>
    requires r.nkeys <= |r.arr|
  {
    if i < r.nkeys then Some(r.arr[i].key) else r.hi
  }

  /** A node just split into (left, right) whose right half has no entry in any parent yet. */
  type Pending = Option<(Node, Node)>

  /** The upper bound of `c` as the parents still see it. */
  ghost function HiOf(h: Heap, pend: Pending, c: Node): Option<Key>
    requires c in h
    requires pend.Some? ==> pend.value.1 in h
  {
    if pend.Some? && c == pend.value.0 then h[pend.value.1].hi else h[c].hi
  }

  ghost predicate PendIn(h: Heap, pend: Pending) {
    pend.Some? ==> pend.value.0 in h && pend.value.1 in h
  }

  ghost predicate KidOk(h: Heap, pend: Pending, n: Node, i: nat)
    requires PendIn(h, pend) && n in h && KeysOk(h[n]) && h[n].height > 0 && i <= h[n].nkeys
  {
    var c := h[n].arr[i].child;
    && c != null && c in h
    && h[c].height + 1 == h[n].height
    && h[c].lo == LoAt(h[n], i)
    && HiOf(h, pend, c) == HiAt(h[n], i)
  }

  ghost predicate KidsOk(h: Heap, pend: Pending, n: Node)
    requires PendIn(h, pend) && n in h && KeysOk(h[n])
  {
    h[n].height > 0 ==> forall i: nat :: i <= h[n].nkeys ==> KidOk(h, pend, n, i)
  }

  ghost predicate Shape(h: Heap, pend: Pending, nlevel: nat, n: Node)
    requires PendIn(h, pend)
  {
    n in h ==> h[n].height < nlevel && KeysOk(h[n]) && KidsOk(h, pend, n)
  }

  ghost predicate IsKid(p: Rec, c: Node) {
    |p.arr| == 2 * ORDER + 2 && p.nkeys < |p.arr| &&
    exists i: nat :: i <= p.nkeys && p.arr[i].child == c
  }

  /** The parent pointer of `n` is exact. */
  ghost predicate UpOk(h: Heap, root: Node, n: Node) {
    n in h ==>
      && (h[n].parent == null <==> n == root)
      && (h[n].parent != null ==>
            h[n].parent in h && h[h[n].parent].height == h[n].height + 1 && IsKid(h[h[n].parent], n))
  }

  /** All children of `n` point back to it. */
  ghost predicate DownOk(h: Heap, n: Node) {
    n in h && h[n].height > 0 && |h[n].arr| == 2 * ORDER + 2 && h[n].nkeys < |h[n].arr| ==>
      forall i: nat :: i <= h[n].nkeys ==>
        h[n].arr[i].child != null && h[n].arr[i].child in h && h[h[n].arr[i].child].parent == n
  }

  ghost predicate Full(r: Rec) {
    if r.height == 0 then ORDER + 1 <= r.nkeys <= 2 * ORDER + 1 else ORDER <= r.nkeys <= 2 * ORDER
  }

  /** Fill of a node; `over` may hold one key too many, about to be split. */
  ghost predicate FillOk(h: Heap, root: Node, over: Option<Node>, n: Node) {
    n in h && over != Some(n) ==>
      if n != root then Full(h[n])
      else h[n].nkeys <= (if h[n].height == 0 then 2 * ORDER + 1 else 2 * ORDER)
  }

  ghost predicate PendOk(h: Heap, pend: Pending, lvl: nat) {
    pend.Some? ==>
      var (l, r) := pend.value;
      && l in h && r in h && l != r
      && h[l].height == lvl == h[r].height
      && h[l].hi.Some? && h[l].hi == h[r].lo
      && Full(h[l]) && Full(h[r]) && h[r].parent == null
  }

  ghost predicate AllShape(h: Heap, pend: Pending, nlevel: nat)
    requires PendIn(h, pend)
  {
    forall n {:trigger Shape(h, pend, nlevel, n)} :: n in h ==> Shape(h, pend, nlevel, n)
  }

  ghost predicate AllUp(h: Heap, root: Node, lvl: nat, pend: Pending) {
    forall n {:trigger UpOk(h, root, n)} ::
      n in h && h[n].height >= lvl && !(pend.Some? && n == pend.value.1) ==> UpOk(h, root, n)
  }

  ghost predicate AllDown(h: Heap, lvl: nat) {
    forall n {:trigger DownOk(h, n)} :: n in h && h[n].height > lvl ==> DownOk(h, n)
  }

  ghost predicate AllFill(h: Heap, root: Node, over: Option<Node>) {
    forall n {:trigger FillOk(h, root, over, n)} :: n in h ==> FillOk(h, root, over, n)
  }

  ghost predicate RootOk(h: Heap, root: Node, nlevel: nat, pend: Pending)
    requires PendIn(h, pend)
  {
    root in h && h[root].height + 1 == nlevel && h[root].lo == None && HiOf(h, pend, root) == None
  }

  /** The tree structure, with parent pointers exact at heights `lvl` and above. */
  ghost predicate Tree(h: Heap, root: Node, nlevel: nat, lvl: nat, pend: Pending, over: Option<Node>) {
    var whole :=
      && PendOk(h, pend, lvl)
      && RootOk(h, root, nlevel, pend)
      && AllShape(h, pend, nlevel)
      && AllUp(h, root, lvl, pend)
      && AllDown(h, lvl)
      && AllFill(h, root, over);
    whole
  }

  // ------------------------------------------------- the steps on a snapshot

  /** `r` with (key, right) entered at `j`: the key at j, the child at j + 1. */
  ghost predicate Entered(r: Rec, r': Rec, j: nat, key: Key, right: Node) {
    && |r.arr| == |r'.arr| == 2 * ORDER + 2
    && j <= r.nkeys <= 2 * ORDER && r'.nkeys == r.nkeys + 1
    && r' == r.(nkeys := r'.nkeys, arr := r'.arr)
    && (forall i :: 0 <= i < j ==> r'.arr[i].key == r.arr[i].key)
    && r'.arr[j].key == key
    && (forall i :: j < i <= r.nkeys ==> r'.arr[i].key == r.arr[i - 1].key)
    && (forall i :: 0 <= i <= j ==> r'.arr[i].child == r.arr[i].child)
    && r'.arr[j + 1].child == right
    && (forall i :: j + 1 < i <= r.nkeys + 1 ==> r'.arr[i].child == r.arr[i - 1].child)
  }

  /** The snapshot once `p` has become `p'` and is the parent of `r`. */
  ghost function Enter(h: Heap, p: Node, p': Rec, r: Node): Heap
    requires r in h
  {
    h[p := p'][r := h[r].(parent := p)]
  }

  /** The pending key lies strictly inside the bounds of the two halves. */
  lemma PendingKey(h: Heap, nlevel: nat, lvl: nat, l: Node, r: Node)
    requires PendOk(h, Some((l, r)), lvl) && AllShape(h, Some((l, r)), nlevel)
    ensures h[l].lo.Some? ==> h[l].lo.value < h[l].hi.value
    ensures h[r].hi.Some? ==> h[l].hi.value < h[r].hi.value
  {
    assert Shape(h, Some((l, r)), nlevel, l);
    assert Shape(h, Some((l, r)), nlevel, r);
    assert Above(h[l].lo, h[l].arr[0].key) && Below(h[l].arr[0].key, h[l].hi);
    assert Above(h[r].lo, h[r].arr[0].key) && Below(h[r].arr[0].key, h[r].hi);
  }

  /** Children of one node at different positions are different nodes. */
  lemma KidsDiffer(h: Heap, pend: Pending, nlevel: nat, n: Node, i: nat, j: nat)
    requires PendIn(h, pend) && n in h && Shape(h, pend, nlevel, n)
    requires h[n].height > 0 && i < j <= h[n].nkeys
    ensures h[n].arr[i].child != h[n].arr[j].child
  {
    assert KidOk(h, pend, n, i) && KidOk(h, pend, n, j);
  }

  /** The parent `p` of the left half, and `p'` with the right half entered next to it. */
  ghost predicate Entering(h: Heap, lvl: nat, l: Node, r: Node, p: Node, p': Rec, j: nat) {
    && PendOk(h, Some((l, r)), lvl)
    && h[l].parent == p && p in h && h[p].height == lvl + 1
    && |h[p].arr| == 2 * ORDER + 2 && j <= h[p].nkeys <= 2 * ORDER && h[p].arr[j].child == l
    && Entered(h[p], p', j, h[l].hi.value, r)
  }

  /** Entering the pending right half in the parent of the left half restores the tree. */
  lemma EnterKid(h: Heap, root: Node, nlevel: nat, lvl: nat, l: Node, r: Node, p: Node, p': Rec, j: nat)
    requires Tree(h, root, nlevel, lvl, Some((l, r)), None)
    requires Entering(h, lvl, l, r, p, p', j)
    ensures Tree(Enter(h, p, p', r), root, nlevel, lvl, None, Some(p))
  {
    assert UpOk(h, root, l);
    EnterKidShape(h, nlevel, lvl, l, r, p, p', j);
    EnterKidUp(h, root, nlevel, lvl, l, r, p, p', j);
    EnterKidDown(h, nlevel, lvl, l, r, p, p', j);
    EnterKidFill(h, root, p, p', r);
  }

  lemma EnterKidShape(h: Heap, nlevel: nat, lvl: nat, l: Node, r: Node, p: Node, p': Rec, j: nat)
    requires Entering(h, lvl, l, r, p, p', j)
    requires AllShape(h, Some((l, r)), nlevel) && AllDown(h, lvl)
    ensures AllShape(Enter(h, p, p', r), None, nlevel)
  {
    var h' := Enter(h, p, p', r);
    forall n | n in h' ensures Shape(h', None, nlevel, n) {
      assert Shape(h, Some((l, r)), nlevel, n);
      if n == p {
        PendingKey(h, nlevel, lvl, l, r);
        EnterKidSelf(h, nlevel, lvl, l, r, p, p', j);
      } else if h[n].height > 0 {
        assert h[n].height > lvl ==> DownOk(h, n);
        EnterKidOther(h, nlevel, lvl, l, r, p, p', n);
      }
    }
  }

  lemma EnteredBounds(p: Rec, p': Rec, j: nat, key: Key, right: Node)
    requires KeysOk(p) && p.height > 0 && Entered(p, p', j, key, right)
    requires LoAt(p, j).Some? ==> LoAt(p, j).value < key
    requires HiAt(p, j).Some? ==> key < HiAt(p, j).value
    ensures forall i :: 0 <= i < p'.nkeys ==> Above(p'.lo, p'.arr[i].key) && Below(p'.arr[i].key, p'.hi)
  {
    assert j > 0 ==> Above(p.lo, p.arr[j - 1].key);
    assert j < p.nkeys ==> Below(p.arr[j].key, p.hi);
  }

  lemma EnteredKeys(p: Rec, p': Rec, j: nat, key: Key, right: Node)
    requires KeysOk(p) && p.height > 0 && Entered(p, p', j, key, right)
    requires LoAt(p, j).Some? ==> LoAt(p, j).value < key
    requires HiAt(p, j).Some? ==> key < HiAt(p, j).value
    ensures KeysOk(p')
  {
    EnteredBounds(p, p', j, key, right);
    forall a, b | 0 <= a < b < p'.nkeys ensures p'.arr[a].key < p'.arr[b].key {
      assert a < j ==> p'.arr[a].key <= p.arr[j - 1].key;
      assert b > j ==> p.arr[j].key <= p'.arr[b].key;
    }
  }

  /** Child and bounds at each position of the record with the new entry. */
  lemma EnteredAt(p: Rec, p': Rec, j: nat, key: Key, right: Node, i: nat)
    requires Entered(p, p', j, key, right) && i <= p'.nkeys
    ensures i < j ==> p'.arr[i].child == p.arr[i].child && LoAt(p', i) == LoAt(p, i) && HiAt(p', i) == HiAt(p, i)
    ensures i == j ==> p'.arr[i].child == p.arr[i].child && LoAt(p', i) == LoAt(p, i) && HiAt(p', i) == Some(key)
    ensures i == j + 1 ==> p'.arr[i].child == right && LoAt(p', i) == Some(key) && HiAt(p', i) == HiAt(p, j)
    ensures i > j + 1 ==>
      p'.arr[i].child == p.arr[i - 1].child && LoAt(p', i) == LoAt(p, i - 1) && HiAt(p', i) == HiAt(p, i - 1)
  {
  }

  lemma EnterKidAt(h: Heap, nlevel: nat, lvl: nat, l: Node, r: Node, p: Node, p': Rec, j: nat, i: nat)
    requires Entering(h, lvl, l, r, p, p', j) && Shape(h, Some((l, r)), nlevel, p)
    requires KeysOk(p') && i <= p'.nkeys
    ensures KidOk(Enter(h, p, p', r), None, p, i)
  {
    var pend := Some((l, r));
    EnteredAt(h[p], p', j, h[l].hi.value, r, i);
    assert KidOk(h, pend, p, j);
    if i < j {
      assert KidOk(h, pend, p, i);
      KidsDiffer(h, pend, nlevel, p, i, j);
    } else if i > j + 1 {
      assert KidOk(h, pend, p, i - 1);
      KidsDiffer(h, pend, nlevel, p, j, i - 1);
    }
  }

  lemma EnterKidSelf(h: Heap, nlevel: nat, lvl: nat, l: Node, r: Node, p: Node, p': Rec, j: nat)
    requires Entering(h, lvl, l, r, p, p', j)
    requires Shape(h, Some((l, r)), nlevel, p)
    requires h[l].lo.Some? ==> h[l].lo.value < h[l].hi.value
    requires h[r].hi.Some? ==> h[l].hi.value < h[r].hi.value
    ensures Shape(Enter(h, p, p', r), None, nlevel, p)
  {
    assert KidOk(h, Some((l, r)), p, j);
    EnteredKeys(h[p], p', j, h[l].hi.value, r);
    forall i: nat | i <= p'.nkeys ensures KidOk(Enter(h, p, p', r), None, p, i) {
      EnterKidAt(h, nlevel, lvl, l, r, p, p', j, i);
    }
  }

  /** Only `p` has the left half as a child, so no other node notices. */
  lemma EnterKidOther(h: Heap, nlevel: nat, lvl: nat, l: Node, r: Node, p: Node, p': Rec, n: Node)
    requires PendOk(h, Some((l, r)), lvl) && p in h && h[l].parent == p
    requires n in h && n != p && h[n].height > 0
    requires Shape(h, Some((l, r)), nlevel, n) && (h[n].height > lvl ==> DownOk(h, n))
    requires p'.lo == h[p].lo && p'.hi == h[p].hi && p'.height == h[p].height
    ensures Shape(Enter(h, p, p', r), None, nlevel, n)
  {
    forall i: nat | i <= h[n].nkeys ensures KidOk(Enter(h, p, p', r), None, n, i) {
      assert KidOk(h, Some((l, r)), n, i);
    }
  }

  lemma EnterKidUp(h: Heap, root: Node, nlevel: nat, lvl: nat, l: Node, r: Node, p: Node, p': Rec, j: nat)
    requires Entering(h, lvl, l, r, p, p', j)
    requires RootOk(h, root, nlevel, Some((l, r))) && AllUp(h, root, lvl, Some((l, r)))
    ensures AllUp(Enter(h, p, p', r), root, lvl, None)
  {
    var h' := Enter(h, p, p', r);
    forall n | n in h' && h'[n].height >= lvl ensures UpOk(h', root, n) {
      if n == r {
        assert p'.arr[j + 1].child == r;
      } else {
        assert UpOk(h, root, n);
        if h[n].parent == p {
          var i: nat :| i <= h[p].nkeys && h[p].arr[i].child == n;
          assert p'.arr[if i <= j then i else i + 1].child == n;
        }
      }
    }
  }

  lemma EnterKidDown(h: Heap, nlevel: nat, lvl: nat, l: Node, r: Node, p: Node, p': Rec, j: nat)
    requires Entering(h, lvl, l, r, p, p', j)
    requires AllShape(h, Some((l, r)), nlevel) && AllDown(h, lvl)
    ensures AllDown(Enter(h, p, p', r), lvl)
  {
    var h' := Enter(h, p, p', r);
    forall n | n in h' && h'[n].height > lvl ensures DownOk(h', n) {
      assert DownOk(h, n) && Shape(h, Some((l, r)), nlevel, n);
      if n == p {
        forall i: nat | i <= p'.nkeys
          ensures p'.arr[i].child != null && p'.arr[i].child in h
          ensures p'.arr[i].child == r || h[p'.arr[i].child].parent == p
        {
          assert p'.arr[i].child == if i <= j then h[p].arr[i].child else if i ==
            j + 1 then r else h[p].arr[i - 1].child;
        }
      }
    }
  }

  lemma EnterKidFill(h: Heap, root: Node, p: Node, p': Rec, r: Node)
    requires r in h && AllFill(h, root, None)
    ensures AllFill(Enter(h, p, p', r), root, Some(p))
  {
    var h' := Enter(h, p, p', r);
    forall n | n in h' ensures FillOk(h', root, Some(p), n) {
      assert FillOk(h, root, None, n);
    }
  }

  /** An overfull record halved at `key`: `r'` keeps the front, `q` has the back.
      Both kinds of node copy slots ORDER + 1 onwards; an internal node gives up the key between. */
  ghost predicate Halved(r: Rec, r': Rec, q: Rec, key: Key) {
    var whole :=
      && |r.arr| == 2 * ORDER + 2 && |q.arr| == 2 * ORDER + 2
      && (forall i :: 0 <= i <= ORDER ==> q.arr[i] == r.arr[ORDER + 1 + i])
      && q.parent == null && q.height == r.height && q.lo == Some(key) && q.hi == r.hi
      && r' == r.(nkeys := r'.nkeys, hi := Some(key))
      && if r.height == 0
         then r.nkeys == 2 * ORDER + 2 && r'.nkeys == q.nkeys == ORDER + 1 && key == r.arr[ORDER + 1].key
         else r.nkeys == 2 * ORDER + 1 && r'.nkeys == q.nkeys == ORDER && key == r.arr[ORDER].key;
    whole
  }

  ghost function Split(h: Heap, n: Node, n': Rec, q: Node, q': Rec): Heap { h[n := n'][q := q'] }

  /** Halving an overfull node leaves a tree with the right half pending. */
  lemma SplitNode(h: Heap, root: Node, nlevel: nat, lvl: nat, n: Node, n': Rec, q: Node, q': Rec, key: Key)
    requires Tree(h, root, nlevel, lvl, None, Some(n))
    requires n in h && q !in h && lvl <= h[n].height && Halved(h[n], n', q', key)
    ensures Tree(Split(h, n, n', q, q'), root, nlevel, h[n].height, Some((n, q)), None)
  {
    var h' := Split(h, n, n', q, q');
    SplitShape(h, nlevel, n, n', q, q', key);
    SplitLinks(h, root, nlevel, lvl, n, n', q, q', key);
    forall m | m in h' ensures FillOk(h', root, None, m) {
      assert m in h ==> FillOk(h, root, Some(n), m);
    }
  }

  lemma SplitLinks(h: Heap, root: Node, nlevel: nat, lvl: nat, n: Node, n': Rec, q: Node, q': Rec, key: Key)
    requires AllShape(h, None, nlevel) && AllUp(h, root, lvl, None) && AllDown(h, lvl)
    requires n in h && q !in h && lvl <= h[n].height && Halved(h[n], n', q', key)
    ensures AllUp(Split(h, n, n', q, q'), root, h[n].height, Some((n, q)))
    ensures AllDown(Split(h, n, n', q, q'), h[n].height)
  {
    var h' := Split(h, n, n', q, q');
    forall m | m in h' && h'[m].height >= h[n].height && m != q ensures UpOk(h', root, m) {
      assert UpOk(h, root, m) && Shape(h, None, nlevel, m);
    }
    forall m | m in h' && h'[m].height > h[n].height ensures DownOk(h', m) {
      assert DownOk(h, m) && Shape(h, None, nlevel, m);
    }
  }

  lemma HalvedKeys(r: Rec, r': Rec, q: Rec, key: Key)
    requires KeysOk(r) && Halved(r, r', q, key)
    ensures KeysOk(r') && KeysOk(q)
  {
  }

  lemma SplitShape(h: Heap, nlevel: nat, n: Node, n': Rec, q: Node, q': Rec, key: Key)
    requires AllShape(h, None, nlevel)
    requires n in h && q !in h && Halved(h[n], n', q', key)
    ensures AllShape(Split(h, n, n', q, q'), Some((n, q)), nlevel)
  {
    var h', pend := Split(h, n, n', q, q'), Some((n, q));
    assert Shape(h, None, nlevel, n);
    HalvedKeys(h[n], n', q', key);
    forall m | m in h' ensures Shape(h', pend, nlevel, m) {
      if m == n {
        forall i: nat | h[n].height > 0 && i <= n'.nkeys ensures KidOk(h', pend, n, i) {
          assert KidOk(h, None, n, i);
        }
      } else if m == q {
        forall i: nat | h[n].height > 0 && i <= q'.nkeys ensures KidOk(h', pend, q, i) {
          assert KidOk(h, None, n, ORDER + 1 + i);
        }
      } else {
        assert Shape(h, None, nlevel, m);
        forall i: nat | h[m].height > 0 && i <= h[m].nkeys ensures KidOk(h', pend, m, i) {
          assert KidOk(h, None, m, i);
        }
      }
    }
  }

  ghost function Raise(h: Heap, l: Node, r: Node, root: Node, root': Rec): Heap
    requires l in h && r in h
  {
    h[root := root'][l := h[l].(parent := root)][r := h[r].(parent := root)]
  }

  /** `top'` is a root record over the two halves of the old root. */
  ghost predicate IsTop(h: Heap, lvl: nat, l: Node, r: Node, top: Node, top': Rec) {
    && PendOk(h, Some((l, r)), lvl) && top !in h
    && |top'.arr| == 2 * ORDER + 2 && top'.nkeys == 1 && top'.parent == null
    && top'.arr[0].key == h[l].hi.value && top'.arr[0].child == l && top'.arr[1].child == r
    && top'.height == lvl + 1 && top'.lo == top'.hi == None
  }

  /** A new root over the two halves of the old one. */
  lemma RaiseRoot(h: Heap, root: Node, nlevel: nat, lvl: nat, l: Node, r: Node, top: Node, top': Rec)
    requires Tree(h, root, nlevel, lvl, Some((l, r)), None)
    requires h[l].parent == null && IsTop(h, lvl, l, r, top, top')
    ensures Tree(Raise(h, l, r, top, top'), top, nlevel + 1, lvl, None, None)
  {
    var h' := Raise(h, l, r, top, top');
    assert UpOk(h, root, l);
    RaiseShape(h, root, nlevel, lvl, l, r, top, top');
    RaiseUp(h, root, nlevel, lvl, l, r, top, top');
    forall m | m in h' && h'[m].height > lvl ensures DownOk(h', m) {
      assert m != top ==> Shape(h, Some((l, r)), nlevel, m);
    }
    forall m | m in h' ensures FillOk(h', top, None, m) {
      assert m != top ==> FillOk(h, root, None, m);
    }
  }

  lemma RaiseShape(h: Heap, root: Node, nlevel: nat, lvl: nat, l: Node, r: Node, top: Node, top': Rec)
    requires IsTop(h, lvl, l, r, top, top') && AllShape(h, Some((l, r)), nlevel)
    requires RootOk(h, root, nlevel, Some((l, r))) && l == root
    ensures AllShape(Raise(h, l, r, top, top'), None, nlevel + 1)
  {
    var h', pend := Raise(h, l, r, top, top'), Some((l, r));
    forall m | m in h' ensures Shape(h', None, nlevel + 1, m) {
      if m == top {
        assert KidOk(h', None, top, 0) && KidOk(h', None, top, 1);
      } else {
        assert Shape(h, pend, nlevel, m);
        forall i: nat | h[m].height > 0 && i <= h[m].nkeys ensures KidOk(h', None, m, i) {
          assert KidOk(h, pend, m, i);
        }
      }
    }
  }

  lemma RaiseUp(h: Heap, root: Node, nlevel: nat, lvl: nat, l: Node, r: Node, top: Node, top': Rec)
    requires IsTop(h, lvl, l, r, top, top') && AllShape(h, Some((l, r)), nlevel)
    requires RootOk(h, root, nlevel, Some((l, r))) && l == root && AllUp(h, root, lvl, Some((l, r)))
    ensures AllUp(Raise(h, l, r, top, top'), top, lvl, None)
  {
    var h' := Raise(h, l, r, top, top');
    forall m | m in h' && h'[m].height >= lvl ensures UpOk(h', top, m) {
      assert top'.arr[0].child == l && top'.arr[1].child == r;
      if m != top && m != r {
        assert UpOk(h, root, m);
        assert h[m].parent != null ==> Shape(h, Some((l, r)), nlevel, h[m].parent);
        assert m == l;
      }
    }
  }

  /** What a step may do to the nodes of height `lvl` and below: move parent pointers at `lvl`. */
  ghost predicate Grown(h: Heap, h': Heap, lvl: nat) {
    var whole :=
      && h.Keys <= h'.Keys
      && (forall n {:trigger h[n]} {:trigger h'[n]} :: n in h ==> h'[n].height == h[n].height)
      && (forall n {:trigger h[n]} {:trigger h'[n]} :: n in h && h[n].height < lvl ==> h'[n] == h[n])
      && (forall n {:trigger h[n]} {:trigger h'[n]} :: n in h && h[n].height == lvl ==>
        h'[n] == h[n].(parent := h'[n].parent))
      && (forall n {:trigger h'[n]} :: n in h' && n !in h ==> h'[n].height > lvl);
    whole
  }

  ghost function Adopt(h: Heap, q: Node): Heap
    requires q in h
  {
    map n: Node | n in h :: if IsKid(h[q], n) then h[n].(parent := q) else h[n]
  }

  /** Before the moved children of the split node `p` get their new parent `q`. */
  ghost predicate Orphans(h: Heap, lvl: nat, p: Node, q: Node) {
    var whole :=
      && p in h && q in h && p != q && h[p].height == h[q].height == lvl + 1 && h[p].hi == h[q].lo && h[p].hi.Some?
      && (forall n {:trigger h[n].parent} :: n in h && h[n].height == lvl ==>
            && h[n].parent != null && h[n].parent in h && h[h[n].parent].height == lvl + 1
            && (IsKid(h[h[n].parent], n) || (h[n].parent == p && IsKid(h[q], n))))
      && (forall n {:trigger DownOk(h, n)} :: n in h && h[n].height == lvl + 1 && n != q ==> DownOk(h, n))
      && (forall n {:trigger IsKid(h[q], n)} :: n in h && IsKid(h[q], n) ==> h[n].parent == p);
    whole
  }

  lemma AdoptKids(h: Heap, root: Node, nlevel: nat, lvl: nat, p: Node, q: Node)
    requires Tree(h, root, nlevel, lvl + 1, None, None) && Orphans(h, lvl, p, q)
    ensures Tree(Adopt(h, q), root, nlevel, lvl, None, None)
  {
    var h' := Adopt(h, q);
    AdoptShape(h, nlevel, q);
    AdoptUp(h, root, nlevel, lvl, p, q);
    AdoptDown(h, nlevel, lvl, p, q);
    forall m | m in h' ensures FillOk(h', root, None, m) {
      assert FillOk(h, root, None, m);
    }
  }

  lemma AdoptShape(h: Heap, nlevel: nat, q: Node)
    requires q in h && AllShape(h, None, nlevel)
    ensures AllShape(Adopt(h, q), None, nlevel)
  {
    var h' := Adopt(h, q);
    forall m | m in h' ensures Shape(h', None, nlevel, m) {
      assert Shape(h, None, nlevel, m);
      forall i: nat | h[m].height > 0 && i <= h[m].nkeys ensures KidOk(h', None, m, i) {
        assert KidOk(h, None, m, i);
      }
    }
  }

  lemma AdoptUp(h: Heap, root: Node, nlevel: nat, lvl: nat, p: Node, q: Node)
    requires Orphans(h, lvl, p, q) && RootOk(h, root, nlevel, None)
    requires AllShape(h, None, nlevel) && AllUp(h, root, lvl + 1, None)
    ensures AllUp(Adopt(h, q), root, lvl, None)
  {
    var h' := Adopt(h, q);
    forall m | m in h' && h'[m].height >= lvl ensures UpOk(h', root, m) {
      assert Shape(h, None, nlevel, p);
      if h[m].height > lvl {
        assert UpOk(h, root, m) && Shape(h, None, nlevel, q);
        KidsBelow(h, nlevel, q, m);
      } else {
        assert h[m].parent in h;
      }
    }
  }

  /** A child is one level below its parent. */
  lemma KidsBelow(h: Heap, nlevel: nat, q: Node, m: Node)
    requires q in h && m in h && Shape(h, None, nlevel, q) && h[q].height > 0
    ensures IsKid(h[q], m) ==> h[m].height + 1 == h[q].height
  {
    if IsKid(h[q], m) {
      var i: nat :| i <= h[q].nkeys && h[q].arr[i].child == m;
      assert KidOk(h, None, q, i);
    }
  }

  /** No child of the right half is also a child of the left half. */
  lemma HalvesDiffer(h: Heap, nlevel: nat, p: Node, q: Node, i: nat)
    requires p in h && q in h && Shape(h, None, nlevel, p) && Shape(h, None, nlevel, q)
    requires h[p].height == h[q].height > 0 && h[p].hi == h[q].lo && h[p].hi.Some?
    requires i <= h[p].nkeys
    ensures h[p].arr[i].child != null && !IsKid(h[q], h[p].arr[i].child)
  {
    assert KidOk(h, None, p, i);
    assert Below(h[p].arr[0].key, h[p].hi);
    assert i > 0 ==> Below(h[p].arr[i - 1].key, h[p].hi);
    forall j: nat | j <= h[q].nkeys ensures h[q].arr[j].child != h[p].arr[i].child {
      assert KidOk(h, None, q, j);
      assert j > 0 ==> Above(h[q].lo, h[q].arr[j - 1].key);
    }
  }

  lemma AdoptDown(h: Heap, nlevel: nat, lvl: nat, p: Node, q: Node)
    requires Orphans(h, lvl, p, q) && AllShape(h, None, nlevel) && AllDown(h, lvl + 1)
    ensures AllDown(Adopt(h, q), lvl)
  {
    var h' := Adopt(h, q);
    forall m | m in h' && h'[m].height > lvl ensures DownOk(h', m) {
      assert Shape(h, None, nlevel, m) && Shape(h, None, nlevel, q);
      assert m != q ==> DownOk(h, m);
      forall i: nat | i <= h[m].nkeys
        ensures h[m].arr[i].child != null && h[m].arr[i].child in h && h'[h[m].arr[i].child].parent == m
      {
        assert KidOk(h, None, m, i);
        var c := h[m].arr[i].child;
        if m == q {
          assert IsKid(h[q], c);
        } else if m == p {
          HalvesDiffer(h, nlevel, p, q, i);
        } else if h[m].height == lvl + 1 {
          assert h[c].parent != p;
        } else {
          KidsBelow(h, nlevel, q, c);
        }
      }
    }
  }

  /** `h'` comes from `h` by halving `p` into (p, q) and then moving parent pointers at
      height lvl + 1 and whatever lies above. */
  ghost predicate Cascaded(h: Heap, lvl: nat, p: Node, q: Node, h': Heap) {
    var whole :=
      && p in h && h[p].height == lvl + 1 && |h[p].arr| == 2 * ORDER + 2 && h[p].nkeys == 2 * ORDER + 1
      && q !in h && q in h' && h'[q].height == lvl + 1 && |h'[q].arr| == 2 * ORDER + 2 && h'[q].nkeys == ORDER
      && (forall i :: 0 <= i <= ORDER ==> h'[q].arr[i] == h[p].arr[ORDER + 1 + i])
      && h'[q].lo == Some(h[p].arr[ORDER].key)
      && h.Keys <= h'.Keys
      && (forall n {:trigger h[n]} {:trigger h'[n]} :: n in h ==> h'[n].height == h[n].height)
      && (forall n {:trigger h[n]} {:trigger h'[n]} :: n in h && h[n].height <= lvl ==> h'[n] == h[n])
      && (forall n {:trigger h[n]} {:trigger h'[n]} :: n in h && h[n].height == lvl + 1 && n != p ==>
            h'[n] == h[n].(parent := h'[n].parent))
      && h'[p] == h[p].(nkeys := ORDER, hi := Some(h[p].arr[ORDER].key), parent := h'[p].parent)
      && (forall n {:trigger h'[n]} :: n in h' && n !in h && n != q ==> h'[n].height > lvl + 1);
    whole
  }

  lemma HalvedThenGrown(h: Heap, lvl: nat, p: Node, p': Rec, q: Node, q': Rec, key: Key, h': Heap)
    requires p in h && h[p].height == lvl + 1 && q !in h && Halved(h[p], p', q', key)
    requires Grown(Split(h, p, p', q, q'), h', lvl + 1)
    ensures Cascaded(h, lvl, p, q, h')
  {
    var h2 := Split(h, p, p', q, q');
    assert h2[p] == p' && h2[q] == q';
    assert forall n :: n in h && n != p ==> h2[n] == h[n];
  }

  /** The children of the split node still point to where they were. */
  lemma StillOrphans(h: Heap, root: Node, nlevel: nat, lvl: nat, p: Node, q: Node, h': Heap)
    requires Tree(h, root, nlevel, lvl, None, Some(p)) && Cascaded(h, lvl, p, q, h')
    ensures Orphans(h', lvl, p, q)
  {
    assert Shape(h, None, nlevel, p) && DownOk(h, p);
    OrphansUp(h, root, nlevel, lvl, p, q, h');
    OrphansDown(h, nlevel, lvl, p, q, h');
    forall n | n in h' && IsKid(h'[q], n) ensures h'[n].parent == p {
      var i: nat :| i <= h'[q].nkeys && h'[q].arr[i].child == n;
      assert h[p].arr[ORDER + 1 + i].child == n && KidOk(h, None, p, ORDER + 1 + i);
    }
  }

  lemma OrphansUp(h: Heap, root: Node, nlevel: nat, lvl: nat, p: Node, q: Node, h': Heap)
    requires Cascaded(h, lvl, p, q, h') && RootOk(h, root, nlevel, None)
    requires AllUp(h, root, lvl, None) && AllShape(h, None, nlevel)
    ensures forall n {:trigger h'[n].parent} :: n in h' && h'[n].height == lvl ==>
      && h'[n].parent != null && h'[n].parent in h' && h'[h'[n].parent].height == lvl + 1
      && (IsKid(h'[h'[n].parent], n) || (h'[n].parent == p && IsKid(h'[q], n)))
  {
    assert Shape(h, None, nlevel, p);
    forall n | n in h' && h'[n].height == lvl
      ensures h'[n].parent != null && h'[n].parent in h' && h'[h'[n].parent].height == lvl + 1
      ensures IsKid(h'[h'[n].parent], n) || (h'[n].parent == p && IsKid(h'[q], n))
    {
      assert n in h && h'[n] == h[n] && UpOk(h, root, n);
      if h[n].parent == p {
        var i: nat :| i <= h[p].nkeys && h[p].arr[i].child == n;
        assert i > ORDER ==> h'[q].arr[i - ORDER - 1].child == n;
        assert i <= ORDER ==> h'[p].arr[i].child == n;
      }
    }
  }

  lemma OrphansDown(h: Heap, nlevel: nat, lvl: nat, p: Node, q: Node, h': Heap)
    requires Cascaded(h, lvl, p, q, h') && AllDown(h, lvl) && AllShape(h, None, nlevel)
    ensures forall n {:trigger DownOk(h', n)} :: n in h' && h'[n].height == lvl + 1 && n != q ==> DownOk(h', n)
  {
    forall n | n in h' && h'[n].height == lvl + 1 && n != q ensures DownOk(h', n) {
      assert n in h && DownOk(h, n) && Shape(h, None, nlevel, n);
      forall i: nat | i <= h'[n].nkeys
        ensures h'[n].arr[i].child != null && h'[n].arr[i].child in h' && h'[h'[n].arr[i].child].parent == n
      {
        assert h'[n].arr[i].child == h[n].arr[i].child && KidOk(h, None, n, i);
      }
    }
  }

  lemma CascadeGrown(h: Heap, nlevel: nat, lvl: nat, p: Node, q: Node, h': Heap)
    requires Cascaded(h, lvl, p, q, h') && q in h' && Shape(h', None, nlevel, q)
    ensures Grown(h, Adopt(h', q), lvl)
  {
    var h'' := Adopt(h', q);
    forall n | n in h && h[n].height < lvl ensures h''[n] == h[n] {
      assert h'[n] == h[n];
      KidsBelow(h', nlevel, q, n);
    }
  }

  /** After the rest of a cascade only the moved children are left to fix. */
  lemma CascadeDone(h: Heap, root: Node, nlevel: nat, lvl: nat, p: Node, p': Rec, q: Node, q': Rec, key: Key,
                    h': Heap, root': Node, nlevel': nat)
    requires Tree(h, root, nlevel, lvl, None, Some(p)) && p in h && h[p].height == lvl + 1
    requires q !in h && Halved(h[p], p', q', key) && Grown(Split(h, p, p', q, q'), h', lvl + 1)
    requires Tree(h', root', nlevel', lvl + 1, None, None)
    ensures Orphans(h', lvl, p, q)
    ensures Grown(h, Adopt(h', q), lvl)
  {
    HalvedThenGrown(h, lvl, p, p', q, q', key, h');
    StillOrphans(h, root, nlevel, lvl, p, q, h');
    assert Shape(h', None, nlevel', q);
    CascadeGrown(h, nlevel', lvl, p, q, h');
  }

  lemma RaiseGrown(h: Heap, lvl: nat, l: Node, r: Node, top: Node, top': Rec)
    requires IsTop(h, lvl, l, r, top, top')
    ensures Grown(h, Raise(h, l, r, top, top'), lvl)
  {
  }

  lemma EnterGrown(h: Heap, lvl: nat, l: Node, r: Node, p: Node, p': Rec, j: nat)
    requires Entering(h, lvl, l, r, p, p', j)
    ensures Grown(h, Enter(h, p, p', r), lvl)
  {
  }

  lemma GrownGrown(h: Heap, h': Heap, h'': Heap, lvl: nat)
    requires Grown(h, h', lvl) && Grown(h', h'', lvl)
    ensures Grown(h, h'', lvl)
  {
  }
}
