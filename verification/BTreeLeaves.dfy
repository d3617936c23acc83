/** What the leaves of a B+tree hold: the chain of `next` pointers, the map from key to
    values, its listing in key order, and the size a given height implies. */
module BTreeLeaves {
  import opened Common
  import opened BTreeNodes

  ghost predicate Covers(r: Rec, k: Key) { Above(r.lo, k) && Below(k, r.hi) }

  function Payload(s: Slot): KeyVals { KeyVals(s.key, s.vals, s.hash) }

  /** Neighbours in the chain of `next` pointers have adjacent ranges. */
  ghost predicate LinkOk(h: Heap, leaves: seq<Node>, i: nat)
    requires i < |leaves|
  {
    && leaves[i] in h && h[leaves[i]].height == 0
    && (i == 0 ==> h[leaves[i]].lo == None)
    && if i + 1 == |leaves| then h[leaves[i]].next == null && h[leaves[i]].hi == None
       else && h[leaves[i]].next == leaves[i + 1] && h[leaves[i]].hi.Some?
            && leaves[i + 1] in h && h[leaves[i + 1]].lo == h[leaves[i]].hi
  }

  /** `leaves` are all leaves from left to right, linked by their `next` pointers. */
  ghost predicate Chain(h: Heap, leaves: seq<Node>) {
    var whole :=
      && |leaves| > 0
      && (forall i: nat :: i < |leaves| ==> LinkOk(h, leaves, i))
      && (forall n {:trigger h[n]} :: n in h && h[n].height == 0 ==> n in leaves);
    whole
  }

  ghost predicate LeafHas(r: Rec, k: Key) {
    r.height == 0 && r.nkeys <= |r.arr| && exists i :: 0 <= i < r.nkeys && r.arr[i].key == k
  }

  /** The leaves hold exactly `contents`. */
  ghost predicate Holds(h: Heap, contents: map<Key, KeyVals>) {
    var whole :=
      && (forall n, i :: n in h && h[n].height == 0 && 0 <= i < h[n].nkeys <= |h[n].arr| ==>
            h[n].arr[i].key in contents && contents[h[n].arr[i].key] == Payload(h[n].arr[i]))
      && (forall k :: k in contents ==> exists n :: n in h && LeafHas(h[n], k));
    whole
  }

  /** A key belongs to at most one node of each height. */
  lemma OneNode(h: Heap, root: Node, nlevel: nat, over: Option<Node>, m: Node, n: Node, k: Key)
    requires Tree(h, root, nlevel, 0, None, over)
    requires m in h && n in h && h[m].height == h[n].height && Covers(h[m], k) && Covers(h[n], k)
    ensures m == n
    decreases nlevel - h[m].height
  {
    assert UpOk(h, root, m) && UpOk(h, root, n) && Shape(h, None, nlevel, m) && Shape(h, None, nlevel, n);
    if m != root && n != root {
      var p, q := h[m].parent, h[n].parent;
      assert Shape(h, None, nlevel, p) && Shape(h, None, nlevel, q);
      var i: nat :| i <= h[p].nkeys && h[p].arr[i].child == m;
      var j: nat :| j <= h[q].nkeys && h[q].arr[j].child == n;
      KidCovers(h, nlevel, p, i, k);
      KidCovers(h, nlevel, q, j, k);
      OneNode(h, root, nlevel, over, p, q, k);
      KidUnique(h, nlevel, p, i, j, k);
    } else {
      RootAlone(h, root, nlevel, over, m);
      RootAlone(h, root, nlevel, over, n);
    }
  }

  lemma RootAlone(h: Heap, root: Node, nlevel: nat, over: Option<Node>, m: Node)
    requires Tree(h, root, nlevel, 0, None, over) && m in h && h[m].height == h[root].height
    ensures m == root
  {
    assert UpOk(h, root, m);
    assert h[m].parent != null ==> Shape(h, None, nlevel, h[m].parent);
  }

  /** What a child covers its parent covers too. */
  lemma KidCovers(h: Heap, nlevel: nat, p: Node, i: nat, k: Key)
    requires p in h && Shape(h, None, nlevel, p) && h[p].height > 0 && i <= h[p].nkeys
    requires KidOk(h, None, p, i) && Covers(h[h[p].arr[i].child], k)
    ensures Covers(h[p], k)
  {
    assert i > 0 ==> Above(h[p].lo, h[p].arr[i - 1].key);
    assert i < h[p].nkeys ==> Below(h[p].arr[i].key, h[p].hi);
  }

  lemma KidUnique(h: Heap, nlevel: nat, p: Node, i: nat, j: nat, k: Key)
    requires p in h && Shape(h, None, nlevel, p) && h[p].height > 0 && i <= h[p].nkeys && j <= h[p].nkeys
    requires KidOk(h, None, p, i) && KidOk(h, None, p, j)
    requires Covers(h[h[p].arr[i].child], k) && Covers(h[h[p].arr[j].child], k)
    ensures i == j
  {
  }

  /** A key of the tree is found in the one leaf that covers it. */
  lemma InItsLeaf(h: Heap, root: Node, nlevel: nat, contents: map<Key, KeyVals>, leaf: Node, k: Key)
    requires Tree(h, root, nlevel, 0, None, None) && Holds(h, contents)
    requires leaf in h && h[leaf].height == 0 && Covers(h[leaf], k)
    ensures k in contents <==> LeafHas(h[leaf], k)
  {
    assert Shape(h, None, nlevel, leaf);
    if k in contents {
      var n :| n in h && LeafHas(h[n], k);
      assert Shape(h, None, nlevel, n);
      OneNode(h, root, nlevel, None, leaf, n, k);
    }
  }

  // ------------------------------------------------------------ leaf updates

  /** `r'` is `r` with the entry for its key set to `s`, at `pos`. */
  ghost predicate Put(r: Rec, r': Rec, pos: nat, s: Slot, isNew: bool) {
    var whole :=
      && |r.arr| == |r'.arr| == 2 * ORDER + 2 && r.nkeys <= 2 * ORDER + 1
      && r' == r.(nkeys := r'.nkeys, arr := r'.arr)
      && r'.nkeys == (if isNew then r.nkeys + 1 else r.nkeys) && pos < r'.nkeys
      && (forall i :: 0 <= i < pos ==> r'.arr[i] == r.arr[i])
      && r'.arr[pos] == s
      && (isNew ==> forall i :: pos < i < r'.nkeys ==> r'.arr[i] == r.arr[i - 1])
      && (!isNew ==> r.arr[pos].key == s.key && forall i :: pos < i < r'.nkeys ==> r'.arr[i] == r.arr[i]);
    whole
  }

  /** `pos` is where the key of `s` is, or where it belongs. */
  ghost predicate Placed(r: Rec, pos: nat, key: Key, isNew: bool) {
    && |r.arr| == 2 * ORDER + 2 && pos <= r.nkeys <= 2 * ORDER + 1
    && (!isNew ==> pos < r.nkeys && r.arr[pos].key == key)
    && (isNew ==> forall i :: 0 <= i < pos ==> r.arr[i].key < key)
    && (isNew ==> forall i :: pos <= i < r.nkeys ==> key < r.arr[i].key)
  }

  lemma PutKeys(r: Rec, r': Rec, pos: nat, s: Slot, isNew: bool)
    requires KeysOk(r) && r.height == 0 && Covers(r, s.key)
    requires Placed(r, pos, s.key, isNew) && Put(r, r', pos, s, isNew)
    ensures KeysOk(r')
  {
  }

  /** `h'` differs from `h` in the entries and next pointers of leaves only. */
  ghost predicate LeafEdit(h: Heap, h': Heap) {
    && h.Keys == h'.Keys
    && (forall n {:trigger h[n]} {:trigger h'[n]} :: n in h ==>
          if h[n].height > 0 then h'[n] == h[n]
          else h'[n] == h[n].(nkeys := h'[n].nkeys, arr := h'[n].arr, next := h'[n].next) && KeysOk(h'[n]))
  }

  /** Editing leaves keeps the structure. */
  lemma LeafEditTree(h: Heap, root: Node, nlevel: nat, over: Option<Node>, h': Heap, over': Option<Node>)
    requires Tree(h, root, nlevel, 0, None, over) && LeafEdit(h, h') && AllFill(h', root, over')
    ensures Tree(h', root, nlevel, 0, None, over')
  {
    forall n | n in h' ensures Shape(h', None, nlevel, n) {
      assert Shape(h, None, nlevel, n);
      forall i: nat | h'[n].height > 0 && i <= h'[n].nkeys ensures KidOk(h', None, n, i) {
        assert KidOk(h, None, n, i);
      }
    }
    LeafEditLinks(h, root, nlevel, over, h');
  }

  lemma LeafEditLinks(h: Heap, root: Node, nlevel: nat, over: Option<Node>, h': Heap)
    requires Tree(h, root, nlevel, 0, None, over) && LeafEdit(h, h')
    ensures AllUp(h', root, 0, None) && AllDown(h', 0)
  {
    forall n | n in h' ensures UpOk(h', root, n) {
      assert UpOk(h, root, n);
    }
    forall n | n in h' && h'[n].height > 0 ensures DownOk(h', n) {
      assert DownOk(h, n) && Shape(h, None, nlevel, n);
    }
  }

  /** Setting one entry of a leaf keeps the structure. */
  lemma PutTree(h: Heap, root: Node, nlevel: nat, leaf: Node, r': Rec)
    requires Tree(h, root, nlevel, 0, None, None)
    requires leaf in h && h[leaf].height == 0 && KeysOk(r') && r' == h[leaf].(nkeys := r'.nkeys, arr := r'.arr)
    ensures Tree(h[leaf := r'], root, nlevel, 0, None, Some(leaf))
  {
    var h' := h[leaf := r'];
    forall n | n in h' ensures FillOk(h', root, Some(leaf), n) {
      assert FillOk(h, root, None, n);
    }
    forall n | n in h ensures KeysOk(h'[n]) {
      assert Shape(h, None, nlevel, n);
    }
    LeafEditTree(h, root, nlevel, None, h', Some(leaf));
  }

  lemma PutChain(h: Heap, leaves: seq<Node>, leaf: Node, r': Rec)
    requires Chain(h, leaves) && leaf in h && r' == h[leaf].(nkeys := r'.nkeys, arr := r'.arr)
    ensures Chain(h[leaf := r'], leaves)
  {
    var h': Heap := h[leaf := r'];
    forall i: nat | i < |leaves| ensures LinkOk(h', leaves, i) {
      assert LinkOk(h, leaves, i);
    }
  }

  /** The entry set in the covering leaf is set in the map. */
  lemma PutHolds(h: Heap, root: Node, nlevel: nat, contents: map<Key, KeyVals>,
                 leaf: Node, r': Rec, pos: nat, s: Slot, isNew: bool)
    requires Tree(h, root, nlevel, 0, None, None) && Holds(h, contents)
    requires leaf in h && h[leaf].height == 0 && Covers(h[leaf], s.key)
    requires Placed(h[leaf], pos, s.key, isNew) && Put(h[leaf], r', pos, s, isNew)
    ensures isNew <==> s.key !in contents
    ensures Holds(h[leaf := r'], contents[s.key := Payload(s)])
  {
    var h', c' := h[leaf := r'], contents[s.key := Payload(s)];
    var r := h[leaf];
    InItsLeaf(h, root, nlevel, contents, leaf, s.key);
    assert Shape(h, None, nlevel, leaf);
    forall n, i | n in h' && h'[n].height == 0 && 0 <= i < h'[n].nkeys <= |h'[n].arr|
      ensures h'[n].arr[i].key in c' && c'[h'[n].arr[i].key] == Payload(h'[n].arr[i])
    {
      if n == leaf {
        PutEntry(r, r', pos, s, isNew, i);
      } else {
        assert Shape(h, None, nlevel, n);
        if h[n].arr[i].key == s.key {
          OneNode(h, root, nlevel, None, n, leaf, s.key);
        }
      }
    }
    forall k | k in c' ensures exists n :: n in h' && LeafHas(h'[n], k) {
      PutStays(h, contents, leaf, r', pos, s, isNew, k, h');
    }
  }

  lemma PutEntry(r: Rec, r': Rec, pos: nat, s: Slot, isNew: bool, i: nat)
    requires KeysOk(r) && r.height == 0
    requires Placed(r, pos, s.key, isNew) && Put(r, r', pos, s, isNew) && i < r'.nkeys
    ensures r'.arr[i] == s || (r'.arr[i].key != s.key && exists j :: 0 <= j < r.nkeys && r.arr[j] == r'.arr[i])
  {
    var j := if isNew && i > pos then i - 1 else i;
    assert i != pos ==> r'.arr[i] == r.arr[j];
  }

  lemma PutStays(h: Heap, contents: map<Key, KeyVals>, leaf: Node, r': Rec, pos: nat, s: Slot, isNew: bool, k: Key,
                 h': Heap)
    requires Holds(h, contents) && leaf in h && h[leaf].height == 0
    requires Put(h[leaf], r', pos, s, isNew)
    requires k in contents || k == s.key
    requires h' == h[leaf := r']
    ensures exists n :: n in h' && LeafHas(h'[n], k)
  {
    var r := h[leaf];
    if k == s.key {
      assert LeafHas(h'[leaf], k);
    } else {
      var n: Node :| n in h && LeafHas(h[n], k);
      if n == leaf {
        var i :| 0 <= i < r.nkeys && r.arr[i].key == k;
        assert r'.arr[if isNew && i >= pos then i + 1 else i].key == k;
        assert LeafHas(h'[leaf], k);
      } else {
        assert LeafHas(h'[n], k);
      }
    }
  }

  // -------------------------------------------------------------- leaf split

  ghost function Linked(h: Heap, leaf: Node, right: Node): Heap
    requires leaf in h && right in h
  {
    h[right := h[right].(next := h[leaf].next)][leaf := h[leaf].(next := right)]
  }

  lemma LinkedFill(h: Heap, root: Node, nlevel: nat, leaf: Node, right: Node)
    requires AllShape(h, None, nlevel) && AllFill(h, root, None) && leaf in h && right in h && leaf != right
    requires h[leaf].height == h[right].height == 0
    ensures LeafEdit(h, Linked(h, leaf, right)) && AllFill(Linked(h, leaf, right), root, None)
  {
    var h' := Linked(h, leaf, right);
    forall n | n in h' ensures FillOk(h', root, None, n) {
      assert FillOk(h, root, None, n);
    }
    forall n | n in h ensures KeysOk(h'[n]) {
      assert Shape(h, None, nlevel, n);
    }
  }

  lemma LinkedTree(h: Heap, root: Node, nlevel: nat, leaf: Node, right: Node)
    requires Tree(h, root, nlevel, 0, None, None) && leaf in h && right in h && leaf != right
    requires h[leaf].height == h[right].height == 0
    ensures Tree(Linked(h, leaf, right), root, nlevel, 0, None, None)
  {
    LinkedFill(h, root, nlevel, leaf, right);
    LeafEditTree(h, root, nlevel, None, Linked(h, leaf, right), None);
  }

  /** `h` after its leaf was halved and the right half entered in the index: the leaves are
      those of `h`, with (leaf, right) in place of leaf. */
  ghost predicate LeafSplit(h: Heap, leaf: Node, right: Node, h': Heap) {
    var whole :=
      && leaf in h && right !in h && leaf in h' && right in h' && |h[leaf].arr| == 2 * ORDER + 2
      && Halved(h[leaf], h'[leaf].(parent := h[leaf].parent), h'[right].(parent := null), h[leaf].arr[ORDER + 1].key)
      && h[leaf].height == 0
      && (forall n {:trigger h[n]} {:trigger h'[n]} :: n in h && n != leaf && h[n].height == 0 ==>
            n in h' && h'[n] == h[n].(parent := h'[n].parent))
      && (forall n {:trigger h'[n]} :: n in h' && h'[n].height == 0 && n != right ==> n in h && h[n].height == 0);
    whole
  }

  lemma GrownLeafSplit(h: Heap, leaf: Node, leaf': Rec, right: Node, right': Rec, key: Key, h': Heap)
    requires leaf in h && right !in h && h[leaf].height == 0 && Halved(h[leaf], leaf', right', key)
    requires Grown(Split(h, leaf, leaf', right, right'), h', 0)
    ensures LeafSplit(h, leaf, right, h')
  {
    var h2 := Split(h, leaf, leaf', right, right');
    assert h2[leaf] == leaf' && h2[right] == right';
    assert forall n :: n in h && n != leaf ==> h2[n] == h[n];
  }

  lemma SplitChain(h: Heap, leaves: seq<Node>, i: nat, right: Node, h': Heap)
    requires Chain(h, leaves) && i < |leaves| && LeafSplit(h, leaves[i], right, h')
    requires forall j, k :: 0 <= j < k < |leaves| ==> leaves[j] != leaves[k]
    ensures Chain(Linked(h', leaves[i], right), leaves[..i + 1] + [right] + leaves[i + 1..])
  {
    var g, ls := Linked(h', leaves[i], right), leaves[..i + 1] + [right] + leaves[i + 1..];
    forall j: nat | j < |ls| ensures LinkOk(g, ls, j) {
      assert LinkOk(h, leaves, i);
      if j < i {
        assert LinkOk(h, leaves, j) && LinkOk(h, leaves, j + 1);
      } else if j > i + 1 {
        assert LinkOk(h, leaves, j - 1) && (j < |leaves| ==> LinkOk(h, leaves, j));
      } else if j == i + 1 {
        assert i + 1 < |leaves| ==> LinkOk(h, leaves, i + 1);
      }
    }
    forall n | n in g && g[n].height == 0 ensures n in ls {
      if n != right {
        assert h[n].height == 0;
        var j :| 0 <= j < |leaves| && leaves[j] == n;
        assert ls[if j <= i then j else j + 1] == n;
      }
    }
  }

  lemma SplitHolds(h: Heap, contents: map<Key, KeyVals>, leaf: Node, right: Node, h': Heap)
    requires Holds(h, contents) && LeafSplit(h, leaf, right, h')
    ensures Holds(Linked(h', leaf, right), contents)
  {
    var g := Linked(h', leaf, right);
    forall n, i | n in g && g[n].height == 0 && 0 <= i < g[n].nkeys <= |g[n].arr|
      ensures g[n].arr[i].key in contents && contents[g[n].arr[i].key] == Payload(g[n].arr[i])
    {
      assert n == right ==> g[n].arr[i] == h[leaf].arr[ORDER + 1 + i];
      assert n != right ==> g[n].arr[i] == h[n].arr[i];
    }
    forall k | k in contents ensures exists n :: n in g && LeafHas(g[n], k) {
      SplitStays(h, contents, leaf, right, h', k, g);
    }
  }

  lemma SplitStays(h: Heap, contents: map<Key, KeyVals>, leaf: Node, right: Node, h': Heap, k: Key, g: Heap)
    requires Holds(h, contents) && LeafSplit(h, leaf, right, h') && k in contents
    requires g == Linked(h', leaf, right)
    ensures exists n :: n in g && LeafHas(g[n], k)
  {
    var n: Node :| n in h && LeafHas(h[n], k);
    var i :| 0 <= i < h[n].nkeys && h[n].arr[i].key == k;
    if n == leaf && i > ORDER {
      assert g[right].arr[i - ORDER - 1].key == k;
      assert LeafHas(g[right], k);
    } else {
      assert g[n].arr[i].key == k;
      assert LeafHas(g[n], k);
    }
  }

  // ------------------------------------------------------------ in key order

  /** The ranges along the chain increase, so no leaf occurs twice in it. */
  lemma ChainIncreases(h: Heap, root: Node, nlevel: nat, over: Option<Node>, leaves: seq<Node>, i: nat, j: nat)
    requires Tree(h, root, nlevel, 0, None, over) && Chain(h, leaves) && i < j < |leaves|
    requires over.Some? ==> over.value in h && h[over.value].nkeys > 0
    ensures leaves[i] in h && leaves[j] in h
    ensures h[leaves[i]].hi.Some? && h[leaves[j]].lo.Some? && h[leaves[i]].hi.value <= h[leaves[j]].lo.value
    ensures leaves[i] != leaves[j]
  {
    assert LinkOk(h, leaves, i) && LinkOk(h, leaves, j) && LinkOk(h, leaves, j - 1);
    if i + 1 < j {
      ChainIncreases(h, root, nlevel, over, leaves, i, j - 1);
      NotEmpty(h, root, nlevel, over, leaves[j - 1]);
    }
    NotEmpty(h, root, nlevel, over, leaves[i]);
  }

  /** A leaf with a bound is not the root, so it has entries. */
  lemma NotEmpty(h: Heap, root: Node, nlevel: nat, over: Option<Node>, leaf: Node)
    requires Tree(h, root, nlevel, 0, None, over) && leaf in h && h[leaf].height == 0
    requires over.Some? ==> over.value in h && h[over.value].nkeys > 0
    requires h[leaf].hi.Some?
    ensures h[leaf].nkeys > 0
    ensures h[leaf].lo.Some? ==> h[leaf].lo.value < h[leaf].hi.value
  {
    assert FillOk(h, root, over, leaf) && Shape(h, None, nlevel, leaf);
    assert Above(h[leaf].lo, h[leaf].arr[0].key) && Below(h[leaf].arr[0].key, h[leaf].hi);
  }

  ghost function Entries(r: Rec): seq<KeyVals>
    requires r.nkeys <= |r.arr|
  {
    seq(r.nkeys, i requires 0 <= i < r.nkeys => Payload(r.arr[i]))
  }

  /** All entries, leaf by leaf. */
  ghost function Listing(h: Heap, leaves: seq<Node>): seq<KeyVals>
    requires forall n :: n in leaves ==> n in h && h[n].nkeys <= |h[n].arr|
  {
    if leaves == [] then [] else Listing(h, leaves[..|leaves| - 1]) + Entries(h[leaves[|leaves| - 1]])
  }

  ghost predicate Readable(h: Heap, root: Node, nlevel: nat, leaves: seq<Node>) {
    && Tree(h, root, nlevel, 0, None, None) && Chain(h, leaves)
    && forall n :: n in leaves ==> n in h && h[n].nkeys <= |h[n].arr|
  }

  lemma CanRead(h: Heap, root: Node, nlevel: nat, leaves: seq<Node>)
    requires Tree(h, root, nlevel, 0, None, None) && Chain(h, leaves)
    ensures Readable(h, root, nlevel, leaves)
  {
    forall n | n in leaves ensures n in h && h[n].nkeys <= |h[n].arr| {
      var i: nat :| i < |leaves| && leaves[i] == n;
      assert LinkOk(h, leaves, i) && Shape(h, None, nlevel, n);
    }
  }

  lemma ListingSorted(h: Heap, root: Node, nlevel: nat, leaves: seq<Node>, m: nat)
    requires Readable(h, root, nlevel, leaves) && m <= |leaves|
    ensures StrictlySorted(Listing(h, leaves[..m]))
    ensures forall i :: 0 <= i < |Listing(h, leaves[..m])| ==>
      m > 0 && Below(Listing(h, leaves[..m])[i].key, h[leaves[m - 1]].hi)
  {
    if m > 0 {
      ListingSorted(h, root, nlevel, leaves, m - 1);
      var s, e := Listing(h, leaves[..m - 1]), Entries(h[leaves[m - 1]]);
      assert leaves[..m][..m - 1] == leaves[..m - 1];
      assert LinkOk(h, leaves, m - 1) && Shape(h, None, nlevel, leaves[m - 1]);
      assert m > 1 ==> LinkOk(h, leaves, m - 2);
      forall i | 0 <= i < |e| ensures Below(e[i].key, h[leaves[m - 1]].hi) && Above(h[leaves[m - 1]].lo, e[i].key) {
        assert e[i].key == h[leaves[m - 1]].arr[i].key;
      }
      if m > 1 {
        if m < |leaves| {
          NotEmpty(h, root, nlevel, None, leaves[m - 1]);
        }
        assert h[leaves[m - 2]].hi == h[leaves[m - 1]].lo;
      }
    }
  }

  lemma ListingHas(h: Heap, root: Node, nlevel: nat, leaves: seq<Node>, m: nat, i: nat, j: nat)
    requires Readable(h, root, nlevel, leaves) && i < m <= |leaves| && j < h[leaves[i]].nkeys
    ensures Payload(h[leaves[i]].arr[j]) in Listing(h, leaves[..m])
  {
    assert leaves[..m][..m - 1] == leaves[..m - 1];
    if i == m - 1 {
      assert Entries(h[leaves[i]])[j] == Payload(h[leaves[i]].arr[j]);
    } else {
      ListingHas(h, root, nlevel, leaves, m - 1, i, j);
    }
  }

  lemma ListingOnly(h: Heap, root: Node, nlevel: nat, leaves: seq<Node>, contents: map<Key, KeyVals>, m: nat)
    requires Readable(h, root, nlevel, leaves) && Holds(h, contents) && m <= |leaves|
    ensures forall i :: 0 <= i < |Listing(h, leaves[..m])| ==>
      var e := Listing(h, leaves[..m])[i];
      e.key in contents && contents[e.key] == e
  {
    if m > 0 {
      assert leaves[..m][..m - 1] == leaves[..m - 1];
      ListingOnly(h, root, nlevel, leaves, contents, m - 1);
      assert LinkOk(h, leaves, m - 1);
      var e := Entries(h[leaves[m - 1]]);
      forall i | 0 <= i < |e| ensures e[i].key in contents && contents[e[i].key] == e[i] {
        assert e[i] == Payload(h[leaves[m - 1]].arr[i]);
      }
    }
  }

  /** Walking the chain lists the map. */
  lemma ListingIsContents(h: Heap, root: Node, nlevel: nat, leaves: seq<Node>, contents: map<Key, KeyVals>)
    requires Readable(h, root, nlevel, leaves) && Holds(h, contents)
    ensures IsListing(Listing(h, leaves), contents)
  {
    assert leaves[..|leaves|] == leaves;
    ListingSorted(h, root, nlevel, leaves, |leaves|);
    ListingOnly(h, root, nlevel, leaves, contents, |leaves|);
    var s := Listing(h, leaves);
    forall k ensures k in KeySet(s) <==> k in contents {
      KeySetHas(s, k);
      if k in contents {
        var n: Node :| n in h && LeafHas(h[n], k);
        var j: nat :| j < h[n].nkeys && h[n].arr[j].key == k;
        var i: nat :| i < |leaves| && leaves[i] == n;
        ListingHas(h, root, nlevel, leaves, |leaves|, i, j);
        assert Payload(h[n].arr[j]) in s;
      }
    }
  }

  // --------------------------------------------------------- height and size

  ghost function Pow4(n: nat): nat { if n == 0 then 1 else 4 * Pow4(n - 1) }

  /** The keys a node covers, up to a bound. */
  ghost function Under(contents: map<Key, KeyVals>, lo: Option<Key>, hi: Option<Key>): set<Key> {
    set k | k in contents && Above(lo, k) && Below(k, hi)
  }

  /** Below a node that is not the root there are at least 4 * 4^height keys. */
  lemma {:induction false} MinUnder(h: Heap, root: Node, nlevel: nat, contents: map<Key, KeyVals>, n: Node)
    requires Tree(h, root, nlevel, 0, None, None) && Holds(h, contents)
    requires n in h && n != root
    ensures |Under(contents, h[n].lo, h[n].hi)| >= 4 * Pow4(h[n].height)
    decreases h[n].height, 1, 0
  {
    assert Shape(h, None, nlevel, n) && FillOk(h, root, None, n) && UpOk(h, root, n);
    if h[n].height == 0 {
      LeafUnder(h[n], contents, h[n].nkeys);
      CardMono(LeafKeys(h[n], h[n].nkeys), Under(contents, h[n].lo, h[n].hi));
    } else {
      KidsUnder(h, root, nlevel, contents, n, h[n].nkeys + 1);
      MulMono(4, h[n].nkeys + 1, 4 * Pow4(h[n].height - 1));
    }
  }

  ghost function LeafKeys(r: Rec, m: nat): set<Key>
    requires m <= |r.arr|
  {
    if m == 0 then {} else LeafKeys(r, m - 1) + {r.arr[m - 1].key}
  }

  lemma {:induction false} LeafUnder(r: Rec, contents: map<Key, KeyVals>, m: nat)
    requires KeysOk(r) && m <= r.nkeys
    requires forall i :: 0 <= i < r.nkeys ==> r.arr[i].key in contents
    ensures |LeafKeys(r, m)| == m
    ensures LeafKeys(r, m) <= Under(contents, r.lo, r.hi)
    ensures forall k :: k in LeafKeys(r, m) ==> m > 0 && k <= r.arr[m - 1].key
  {
    if m > 0 {
      LeafUnder(r, contents, m - 1);
      assert m > 1 ==> r.arr[m - 2].key < r.arr[m - 1].key;
      assert Above(r.lo, r.arr[m - 1].key) && Below(r.arr[m - 1].key, r.hi);
    }
  }

  lemma CardMono<T>(a: set<T>, b: set<T>)
    requires a <= b
    ensures |a| <= |b|
  {
    assert b == a + (b - a);
  }

  /** The keys below the first m children split into those of the last of them and the others. */
  lemma UnderSplit(r: Rec, contents: map<Key, KeyVals>, m: nat)
    requires KeysOk(r) && r.height > 0 && 2 <= m <= r.nkeys + 1
    ensures |Under(contents, r.lo, HiAt(r, m - 1))|
         == |Under(contents, r.lo, HiAt(r, m - 2))| + |Under(contents, LoAt(r, m - 1), HiAt(r, m - 1))|
  {
    var before, last := Under(contents, r.lo, HiAt(r, m - 2)), Under(contents, LoAt(r, m - 1), HiAt(r, m - 1));
    assert Above(r.lo, r.arr[m - 2].key) && Below(r.arr[m - 2].key, r.hi);
    assert m - 1 < r.nkeys ==> r.arr[m - 2].key < r.arr[m - 1].key;
    assert before !! last && before + last == Under(contents, r.lo, HiAt(r, m - 1));
  }

  /** The first m children of a node have at least m times the keys of one. */
  lemma {:induction false} KidsUnder(h: Heap, root: Node, nlevel: nat, contents: map<Key, KeyVals>, n: Node, m: nat)
    requires Tree(h, root, nlevel, 0, None, None) && Holds(h, contents)
    requires n in h && h[n].height > 0 && 1 <= m <= h[n].nkeys + 1 && KeysOk(h[n])
    ensures |Under(contents, h[n].lo, HiAt(h[n], m - 1))| >= m * (4 * Pow4(h[n].height - 1))
    decreases h[n].height, 0, m
  {
    assert Shape(h, None, nlevel, n) && KidOk(h, None, n, m - 1);
    var c: Node := h[n].arr[m - 1].child;
    MinUnder(h, root, nlevel, contents, c);
    if m > 1 {
      KidsUnder(h, root, nlevel, contents, n, m - 1);
      UnderSplit(h[n], contents, m);
    }
    MulStep(m, 4 * Pow4(h[n].height - 1));
  }

  lemma MulStep(m: nat, c: nat)
    requires m >= 1
    ensures m * c == (m - 1) * c + c
  {
  }

  /** A tree of nlevel >= 2 levels has at least 2 * 4^(nlevel - 1) keys. */
  lemma MinSize(h: Heap, root: Node, nlevel: nat, contents: map<Key, KeyVals>)
    requires Tree(h, root, nlevel, 0, None, None) && Holds(h, contents) && nlevel >= 2
    ensures |contents| >= 2 * Pow4(nlevel - 1)
  {
    assert Shape(h, None, nlevel, root);
    KidsUnder(h, root, nlevel, contents, root, h[root].nkeys + 1);
    var all := Under(contents, h[root].lo, HiAt(h[root], h[root].nkeys));
    assert all <= contents.Keys;
    CardMono(all, contents.Keys);
    assert h[root].nkeys + 1 >= 2;
    MulMono(2, h[root].nkeys + 1, 4 * Pow4(nlevel - 2));
  }

  lemma MulMono(a: nat, b: nat, c: nat)
    requires a <= b
    ensures a * c <= b * c
  {
  }

  /** A leaf split, once the new leaf is linked in, keeps everything. */
  lemma LinkedAll(h: Heap, leaves: seq<Node>, contents: map<Key, KeyVals>, root: Node, nlevel: nat, i: nat,
                  right: Node, h': Heap, root': Node, nlevel': nat, g: Heap, leaves': seq<Node>)
    requires i < |leaves| && Tree(h, root, nlevel, 0, None, Some(leaves[i])) && Chain(h, leaves) && Holds(h, contents)
    requires LeafSplit(h, leaves[i], right, h') && Tree(h', root', nlevel', 0, None, None)
    requires g == Linked(h', leaves[i], right) && leaves' == leaves[..i + 1] + [right] + leaves[i + 1..]
    ensures Tree(g, root', nlevel', 0, None, None) && Chain(g, leaves') && Holds(g, contents)
  {
    LinkedTree(h', root', nlevel', leaves[i], right);
    forall j, k | 0 <= j < k < |leaves| ensures leaves[j] != leaves[k] {
      ChainIncreases(h, root, nlevel, Some(leaves[i]), leaves, j, k);
    }
    SplitChain(h, leaves, i, right, h');
    SplitHolds(h, contents, leaves[i], right, h');
  }

  /** Setting the entry of one key keeps everything, the leaf perhaps being overfull. */
  lemma PutAll(h: Heap, root: Node, nlevel: nat, leaves: seq<Node>, contents: map<Key, KeyVals>,
               leaf: Node, r': Rec, pos: nat, s: Slot, isNew: bool, h': Heap)
    requires Tree(h, root, nlevel, 0, None, None) && Chain(h, leaves) && Holds(h, contents)
    requires leaf in h && h[leaf].height == 0 && Covers(h[leaf], s.key)
    requires Placed(h[leaf], pos, s.key, isNew) && Put(h[leaf], r', pos, s, isNew)
    requires h' == h[leaf := r']
    ensures isNew <==> s.key !in contents
    ensures !isNew ==> contents[s.key] == Payload(h[leaf].arr[pos])
    ensures Tree(h', root, nlevel, 0, None, Some(leaf)) && Chain(h', leaves)
    ensures Holds(h', contents[s.key := Payload(s)])
  {
    assert Shape(h, None, nlevel, leaf);
    PutKeys(h[leaf], r', pos, s, isNew);
    PutTree(h, root, nlevel, leaf, r');
    PutChain(h, leaves, leaf, r');
    PutHolds(h, root, nlevel, contents, leaf, r', pos, s, isNew);
  }

  /** The leaf with no lower bound is the first of the chain. */
  lemma LeftmostLeaf(h: Heap, root: Node, nlevel: nat, leaves: seq<Node>, n: Node)
    requires Tree(h, root, nlevel, 0, None, None) && Chain(h, leaves)
    requires n in h && h[n].height == 0 && h[n].lo == None
    ensures n == leaves[0]
  {
    assert LinkOk(h, leaves, 0);
    var a, b := h[n].hi, h[leaves[0]].hi;
    var k: Key := if a.None? && b.None? then 0.0
                  else if a.None? || (b.Some? && b.value <= a.value) then b.value - 1.0 else a.value - 1.0;
    OneNode(h, root, nlevel, None, n, leaves[0], k);
  }

  lemma ListingStep(h: Heap, leaves: seq<Node>, m: nat)
    requires forall n :: n in leaves ==> n in h && h[n].nkeys <= |h[n].arr|
    requires m < |leaves|
    ensures Listing(h, leaves[..m + 1]) == Listing(h, leaves[..m]) + Entries(h[leaves[m]])
  {
    assert leaves[..m + 1][..m] == leaves[..m];
  }

  lemma {:induction false} ListingPrefix(h: Heap, leaves: seq<Node>, m: nat)
    requires forall n :: n in leaves ==> n in h && h[n].nkeys <= |h[n].arr|
    requires m <= |leaves|
    ensures Listing(h, leaves[..m]) <= Listing(h, leaves)
    decreases |leaves| - m
  {
    if m == |leaves| {
      assert leaves[..m] == leaves;
    } else {
      ListingStep(h, leaves, m);
      ListingPrefix(h, leaves, m + 1);
    }
  }

  /** Following `k` parent pointers. */
  ghost function Ancestor(h: Heap, n: Node, k: nat): Node? {
    if k == 0 || n !in h || h[n].parent == null then (if k == 0 then n else null)
    else Ancestor(h, h[n].parent, k - 1)
  }

  /** Every leaf is nlevel - 1 parent pointers below the root. */
  lemma {:induction false} SameDepth(h: Heap, root: Node, nlevel: nat, n: Node)
    requires Tree(h, root, nlevel, 0, None, None) && n in h
    ensures h[n].height < nlevel && Ancestor(h, n, nlevel - 1 - h[n].height) == root
    decreases nlevel - h[n].height
  {
    assert UpOk(h, root, n) && Shape(h, None, nlevel, n);
    if n == root {
    } else if h[n].height == nlevel - 1 {
      RootAlone(h, root, nlevel, None, n);
    } else {
      SameDepth(h, root, nlevel, h[n].parent);
    }
  }
}
