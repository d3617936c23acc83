/** Inserting into and reading the B+tree of benchmarks/metis/lib/keyvals_btree.c. */
module BTree {
  import opened Common
  import opened BTreeNodes
  import opened BTreeLeaves
  import opened Values
  import BSearch

  /** Keys in order can be searched with `keyvals_cmp`. */
  lemma Searchable(r: Rec, key: Slot)
    requires KeysOk(r)
    ensures BSearch.SortedFor(key, r.arr[..r.nkeys], SlotCmp)
  {
  }

  /** Searching the parent for the pending key finds the left half. */
  lemma FindsLeft(h: Heap, nlevel: nat, lvl: nat, l: Node, r: Node, p: Node, ikey: nat)
    requires PendOk(h, Some((l, r)), lvl) && AllShape(h, Some((l, r)), nlevel)
    requires p in h && h[p].height == lvl + 1 && IsKid(h[p], l) && ikey <= h[p].nkeys <= 2 * ORDER
    requires forall i :: 0 <= i < ikey ==> h[p].arr[i].key <= h[l].hi.value
    requires forall i :: ikey <= i < h[p].nkeys ==> h[l].hi.value < h[p].arr[i].key
    ensures h[p].arr[ikey].child == l
  {
    PendingKey(h, nlevel, lvl, l, r);
    var j: nat :| j <= h[p].nkeys && h[p].arr[j].child == l;
    assert Shape(h, Some((l, r)), nlevel, p) && KidOk(h, Some((l, r)), p, j);
  }

  lemma NoneOver(h: Heap, root: Node, p: Node)
    requires p in h && AllFill(h, root, Some(p)) && FillOk(h, root, None, p)
    ensures AllFill(h, root, None)
  {
    forall n | n in h ensures FillOk(h, root, None, n) {
      assert FillOk(h, root, Some(p), n);
    }
  }

  /** The result of searching a leaf. */
  lemma FindsPlace(r: Rec, key: Slot, pos: nat, found: bool)
    requires KeysOk(r) && r.nkeys <= 2 * ORDER + 1 && pos <= r.nkeys
    requires found ==> pos < r.nkeys && SlotCmp(key, r.arr[pos]) == 0
    requires !found ==> forall i :: 0 <= i < pos ==> SlotCmp(key, r.arr[i]) > 0
    requires !found ==> forall i :: pos <= i < r.nkeys ==> SlotCmp(key, r.arr[i]) < 0
    ensures Placed(r, pos, key.key, !found)
  {
  }

  lemma SnapAt(nodes: set<Node>, n: Node)
    requires n in nodes || n in Snap(nodes)
    ensures n in nodes && n in Snap(nodes) && Snap(nodes)[n] == RecOf(n)
  {
  }

  lemma HalvesIn(nodes: set<Node>, root: Node, nlevel: nat, lvl: nat, left: Node, right: Node)
    requires Tree(Snap(nodes), root, nlevel, lvl, Some((left, right)), None)
    ensures left in nodes && right in nodes && left != right
    ensures PendOk(Snap(nodes), Some((left, right)), lvl)
  {
  }

  lemma LevelsLeft(nodes: set<Node>, root: Node, nlevel: nat, lvl: nat, parent: Node)
    requires parent in nodes && parent.height == lvl + 1 && Tree(Snap(nodes), root, nlevel, lvl, None, Some(parent))
    ensures lvl + 1 < nlevel
  {
    assert Shape(Snap(nodes), None, nlevel, parent);
  }

  lemma NotFound(h: Heap, root: Node, nlevel: nat, contents: map<Key, KeyVals>, leaf: Node, key: Key, pos: nat,
                 found: bool)
    requires Tree(h, root, nlevel, 0, None, None) && Holds(h, contents) && key !in contents
    requires leaf in h && h[leaf].height == 0 && Covers(h[leaf], key) && Placed(h[leaf], pos, key, !found)
    ensures !found
  {
    InItsLeaf(h, root, nlevel, contents, leaf, key);
  }

  /** The tree with a whole new entry. */
  lemma PutEntryAll(h: Heap, root: Node, nlevel: nat, leaves: seq<Node>, contents: map<Key, KeyVals>,
                    leaf: Node, r': Rec, pos: nat, s: Slot, h': Heap)
    requires Tree(h, root, nlevel, 0, None, None) && Chain(h, leaves) && Holds(h, contents)
    requires leaf in h && h[leaf].height == 0 && Covers(h[leaf], s.key)
    requires Placed(h[leaf], pos, s.key, true) && Put(h[leaf], r', pos, s, true) && h' == h[leaf := r']
    ensures Tree(h', root, nlevel, 0, None, Some(leaf)) && Chain(h', leaves)
    ensures Holds(h', contents[s.key := Payload(s)])
    ensures r'.height == 0 && r'.nkeys <= 2 * ORDER + 2 && (r'.nkeys <= 2 * ORDER + 1 ==> FillOk(h', root, None, leaf))
  {
    PutAll(h, root, nlevel, leaves, contents, leaf, r', pos, s, true, h');
    assert FillOk(h, root, None, leaf);
  }

  lemma RootCovers(nodes: set<Node>, root: Node, nlevel: nat, key: Key)
    requires Tree(Snap(nodes), root, nlevel, 0, None, None)
    ensures root in nodes && root.height == nlevel - 1 && Covers(RecOf(root), key)
  {
  }

  lemma NodeKeys(h: Heap, root: Node, nlevel: nat, node: Node, key: Key)
    requires Tree(h, root, nlevel, 0, None, None) && node in h
    ensures h[node].nkeys < |h[node].arr|
    ensures BSearch.SortedFor(Slot(key, [], 0, null), h[node].arr[..h[node].nkeys], SlotCmp)
  {
    assert Shape(h, None, nlevel, node) && FillOk(h, root, None, node);
    Searchable(h[node], Slot(key, [], 0, null));
  }

  /** The child before the first greater key covers the key. */
  lemma Descend(h: Heap, root: Node, nlevel: nat, node: Node, key: Key, i: nat)
    requires Tree(h, root, nlevel, 0, None, None) && node in h && h[node].height > 0 && Covers(h[node], key)
    requires i <= h[node].nkeys < |h[node].arr|
    requires forall j :: 0 <= j < i ==> SlotCmp(Slot(key, [], 0, null), h[node].arr[..h[node].nkeys][j]) >= 0
    requires forall j :: i <= j < h[node].nkeys ==> SlotCmp(Slot(key, [], 0, null), h[node].arr[..h[node].nkeys][j]) < 0
    ensures var c := h[node].arr[i].child; c != null && c in h && h[c].height + 1 == h[node].height && Covers(h[c], key)
  {
    assert Shape(h, None, nlevel, node) && KidOk(h, None, node, i);
    var keys := h[node].arr[..h[node].nkeys];
    assert i > 0 ==> SlotCmp(Slot(key, [], 0, null), keys[i - 1]) >= 0;
    assert i < h[node].nkeys ==> SlotCmp(Slot(key, [], 0, null), keys[i]) < 0;
  }

  lemma NoEntries(s: seq<KeyVals>)
    requires s == []
    ensures IsListing(s, map[])
  {
  }

  lemma ListingStart(h: Heap, leaves: seq<Node>)
    requires forall n :: n in leaves ==> n in h && h[n].nkeys <= |h[n].arr|
    ensures Listing(h, leaves[..0]) == []
  {
  }

  lemma SnapKeys(nodes: set<Node>)
    ensures Snap(nodes).Keys == nodes
  {
  }

  lemma InChain(h: Heap, leaves: seq<Node>, leaf: Node) returns (i: nat)
    requires Chain(h, leaves) && leaf in h && h[leaf].height == 0
    ensures i < |leaves| && leaves[i] == leaf
  {
    i :| i < |leaves| && leaves[i] == leaf;
  }

  lemma LinkAt(h: Heap, leaves: seq<Node>, i: nat)
    requires Chain(h, leaves) && i < |leaves|
    ensures leaves[i] in h && h[leaves[i]].next == (if i + 1 < |leaves| then leaves[i + 1] else null)
  {
    assert LinkOk(h, leaves, i);
  }

  /** The tree with a new value in the entry of its key. */
  lemma PutPairAll(app: App, h: Heap, root: Node, nlevel: nat, leaves: seq<Node>, contents: map<Key, KeyVals>,
                   leaf: Node, r': Rec, pos: nat, s: Slot, found: bool, h': Heap, val: Val, hash: nat)
    requires Tree(h, root, nlevel, 0, None, None) && Chain(h, leaves) && Holds(h, contents)
    requires leaf in h && h[leaf].height == 0 && Covers(h[leaf], s.key)
    requires Placed(h[leaf], pos, s.key, !found) && Put(h[leaf], r', pos, s, !found) && h' == h[leaf := r']
    requires found ==> s.vals == InsertVal(app, h[leaf].arr[pos].vals, val) && s.hash == h[leaf].arr[pos].hash
    requires !found ==> s.vals == InsertVal(app, [], val) && s.hash == hash
    ensures found <==> s.key in contents
    ensures Tree(h', root, nlevel, 0, None, Some(leaf)) && Chain(h', leaves)
    ensures Holds(h', PutPair(app, contents, s.key, val, hash))
    ensures r'.height == 0 && r'.nkeys <= 2 * ORDER + 2 && (r'.nkeys <= 2 * ORDER + 1 ==> FillOk(h', root, None, leaf))
  {
    PutAll(h, root, nlevel, leaves, contents, leaf, r', pos, s, !found, h');
    assert FillOk(h, root, None, leaf);
    hide Tree, Chain, Holds;
    assert Payload(s) == NewEntry(app, contents, s.key, val, hash);
  }

  /** `btree_t`. */
  class BTree {
    var nkeys: nat
    var nlevel: nat
    var root: Node?
    ghost var nodes: set<Node>
    ghost var leaves: seq<Node>
    ghost var contents: map<Key, KeyVals>

    ghost predicate Valid()
      reads this, nodes
    {
      && nkeys == |contents|
      && if nlevel == 0 then nodes == {} && leaves == [] && contents == map[] else Grounded()
    }

    ghost predicate Grounded()
      reads this, nodes
    {
      && root != null && nlevel > 0
      && Tree(Snap(nodes), root, nlevel, 0, None, None)
      && Chain(Snap(nodes), leaves)
      && Holds(Snap(nodes), contents)
    }

    /** `pch_init`. */
    constructor ()
      ensures Valid() && contents == map[] && nodes == {}
    {
      nkeys, nlevel, root := 0, 0, null;
      nodes, leaves, contents := {}, [], map[];
    }

    /** `btree_split_internal`. */
    method SplitInternal(node: Node) returns (newsib: Node)
      requires |node.arr| == 2 * ORDER + 2 && node.nkeys == 2 * ORDER + 1 && node.height > 0
      modifies node
      ensures fresh(newsib)
      ensures Halved(old(RecOf(node)), RecOf(node), RecOf(newsib), old(node.arr)[ORDER].key)
    {
      newsib := new Node(node.height, Some(node.arr[ORDER].key), node.hi);
      newsib.nkeys := ORDER;
      newsib.arr := node.arr[ORDER + 1..] + newsib.arr[ORDER + 1..];
      node.nkeys := ORDER;
      node.hi := Some(node.arr[ORDER].key);
    }

    /** First shifting loop of `btree_insert_index`: the keys from ikey on move up by one. */
    method ShiftKeys(parent: Node, ikey: nat)
      requires |parent.arr| == 2 * ORDER + 2 && ikey <= parent.nkeys <= 2 * ORDER
      modifies parent`arr
      ensures |parent.arr| == 2 * ORDER + 2
      ensures forall m :: 0 <= m < |parent.arr| ==> parent.arr[m].child == old(parent.arr)[m].child
      ensures forall m :: 0 <= m < ikey ==> parent.arr[m].key == old(parent.arr)[m].key
      ensures forall m :: ikey < m <= parent.nkeys ==> parent.arr[m].key == old(parent.arr)[m - 1].key
    {
      ghost var kv := parent.arr;
      var i := parent.nkeys - 1;
      while i >= ikey
        invariant ikey - 1 <= i < parent.nkeys && |parent.arr| == |kv|
        invariant forall m :: 0 <= m < |kv| ==> parent.arr[m].child == kv[m].child
        invariant forall m :: 0 <= m <= i + 1 ==> parent.arr[m].key == kv[m].key
        invariant forall m :: i + 1 < m <= parent.nkeys ==> parent.arr[m].key == kv[m - 1].key
      {
        parent.arr := parent.arr[i + 1 := parent.arr[i + 1].(key := parent.arr[i].key)];
        i := i - 1;
      }
    }

    /** Second shifting loop: the children from ikey + 1 on move up by one. */
    method ShiftKids(parent: Node, ikey: nat)
      requires |parent.arr| == 2 * ORDER + 2 && ikey <= parent.nkeys <= 2 * ORDER
      modifies parent`arr
      ensures |parent.arr| == 2 * ORDER + 2
      ensures forall m :: 0 <= m < |parent.arr| ==> parent.arr[m].key == old(parent.arr)[m].key
      ensures forall m :: 0 <= m <= ikey ==> parent.arr[m].child == old(parent.arr)[m].child
      ensures forall m :: ikey + 1 < m <= parent.nkeys + 1 ==> parent.arr[m].child == old(parent.arr)[m - 1].child
    {
      ghost var kv := parent.arr;
      var i := parent.nkeys;
      while i >= ikey + 1
        invariant ikey <= i <= parent.nkeys && |parent.arr| == |kv|
        invariant forall m :: 0 <= m < |kv| ==> parent.arr[m].key == kv[m].key
        invariant forall m :: 0 <= m <= i + 1 ==> parent.arr[m].child == kv[m].child
        invariant forall m :: i + 1 < m <= parent.nkeys + 1 ==> parent.arr[m].child == kv[m - 1].child
      {
        parent.arr := parent.arr[i + 1 := parent.arr[i + 1].(child := parent.arr[i].child)];
        i := i - 1;
      }
    }

    /** Enter (key, right) in the arrays of `parent`, the key at ikey and the child after it. */
    method EnterArr(parent: Node, ikey: nat, key: Key, right: Node)
      requires |parent.arr| == 2 * ORDER + 2 && ikey <= parent.nkeys <= 2 * ORDER
      modifies parent`arr, parent`nkeys
      ensures Entered(old(RecOf(parent)), RecOf(parent), ikey, key, right)
    {
      ShiftKeys(parent, ikey);
      ShiftKids(parent, ikey);
      parent.arr := parent.arr[ikey := parent.arr[ikey].(key := key)]
                    [ikey + 1 := parent.arr[ikey + 1].(child := right)];
      parent.nkeys := parent.nkeys + 1;
    }

    method EnterSlot(parent: Node, ikey: nat, key: Key, right: Node)
      requires |parent.arr| == 2 * ORDER + 2 && ikey <= parent.nkeys <= 2 * ORDER
      requires parent in nodes && right in nodes && parent != right
      modifies parent, right`parent
      ensures Entered(old(RecOf(parent)), RecOf(parent), ikey, key, right)
      ensures Snap(nodes) == Enter(old(Snap(nodes)), parent, RecOf(parent), right)
    {
      hide Entered;
      EnterArr(parent, ikey, key, right);
      right.parent := parent;
    }

    /** The loop that fixes the parent pointers of the moved children. */
    method FixParents(parent: Node, newparent: Node, ghost lvl: nat)
      requires root != null && Tree(Snap(nodes), root, nlevel, lvl + 1, None, None)
      requires Orphans(Snap(nodes), lvl, parent, newparent)
      modifies nodes
      ensures Snap(nodes) == Adopt(old(Snap(nodes)), newparent)
      ensures Tree(Snap(nodes), root, nlevel, lvl, None, None)
    {
      ghost var h := Snap(nodes);
      assert Shape(h, None, nlevel, newparent);
      var i := 0;
      while i < newparent.nkeys + 1
        invariant 0 <= i <= newparent.nkeys + 1
        invariant newparent.nkeys == h[newparent].nkeys && newparent.arr == h[newparent].arr
        invariant forall n :: n in nodes ==>
          RecOf(n) == if exists j: nat :: j < i && newparent.arr[j].child == n then h[n].(parent := newparent) else h[n]
      {
        assert KidOk(h, None, newparent, i);
        newparent.arr[i].child.parent := newparent;
        i := i + 1;
      }
      AdoptKids(h, root, nlevel, lvl, parent, newparent);
      assert Snap(nodes) == Adopt(h, newparent);
    }

    /** `btree_insert_index`: enter `key` between the two halves of a split node, splitting
        ancestors as far up as needed. */
    method InsertIndex(key: Key, left: Node, right: Node, ghost lvl: nat) returns (ghost added: set<Node>)
      requires root != null && Tree(Snap(nodes), root, nlevel, lvl, Some((left, right)), None)
      requires left.hi == Some(key)
      modifies this, nodes
      ensures root != null && Tree(Snap(nodes), root, nlevel, lvl, None, None)
      ensures Grown(old(Snap(nodes)), Snap(nodes), lvl)
      ensures nodes == old(nodes) + added && fresh(added)
      ensures nkeys == old(nkeys) && leaves == old(leaves) && contents == old(contents)
      decreases nlevel - lvl, 1
    {
      ghost var h := Snap(nodes);
      assert UpOk(h, root, left) && Shape(h, Some((left, right)), nlevel, left);
      assert left.parent != null ==>
          Shape(h, Some((left, right)), nlevel, left.parent) && FillOk(h, root, None, left.parent);
      if left.parent == null {
        added := NewTop(key, left, right, lvl);
      } else {
        var parent := left.parent;
        InsertInParent(key, left, right, parent, lvl);
        ghost var h1 := Snap(nodes);
        if parent.nkeys == 2 * ORDER + 1 {
          added := SplitParent(parent, lvl);
          GrownGrown(h, h1, Snap(nodes), lvl);
        } else {
          NoneOver(h1, root, parent);
          added := {};
        }
      }
    }

    /** First case of `btree_insert_index`, with what it keeps. */
    method NewTop(key: Key, left: Node, right: Node, ghost lvl: nat) returns (ghost added: set<Node>)
      requires root != null && Tree(Snap(nodes), root, nlevel, lvl, Some((left, right)), None)
      requires left.hi == Some(key) && left.parent == null
      modifies this, left, right
      ensures root != null && Tree(Snap(nodes), root, nlevel, lvl, None, None)
      ensures Grown(old(Snap(nodes)), Snap(nodes), lvl)
      ensures nodes == old(nodes) + added && fresh(added)
      ensures nkeys == old(nkeys) && leaves == old(leaves) && contents == old(contents)
    {
      hide Tree, Grown, Snap;
      ghost var h := Snap(nodes);
      HalvesIn(nodes, root, nlevel, lvl, left, right);
      SnapKeys(nodes);
      SnapAt(nodes, left);
      var newroot := NewRoot(key, left, right, lvl);
      InsertRoot(left, right, newroot);
      added := {newroot};
      RaiseRoot(h, old(root), old(nlevel), lvl, left, right, newroot, RecOf(newroot));
      RaiseGrown(h, lvl, left, right, newroot, RecOf(newroot));
    }

    /** The root made by `btree_insert_index` over two halves. */
    method NewRoot(key: Key, left: Node, right: Node, ghost lvl: nat) returns (newroot: Node)
      ensures fresh(newroot)
      ensures |newroot.arr| == 2 * ORDER + 2 && newroot.nkeys == 1 && newroot.parent == null
      ensures newroot.arr[0].key == key && newroot.arr[0].child == left && newroot.arr[1].child == right
      ensures newroot.height == lvl + 1 && newroot.lo == newroot.hi == None
    {
      newroot := new Node(lvl + 1, None, None);
      newroot.nkeys := 1;
      newroot.arr := newroot.arr[0 := newroot.arr[0].(key := key)];
      newroot.arr := newroot.arr[0 := newroot.arr[0].(child := left)];
      newroot.arr := newroot.arr[1 := newroot.arr[1].(child := right)];
    }

    /** First case of `btree_insert_index`: the split node was the root. */
    method InsertRoot(left: Node, right: Node, newroot: Node)
      requires left in nodes && right in nodes && left != right && newroot !in nodes
      modifies this`nlevel, this`root, this`nodes, left`parent, right`parent
      ensures root == newroot && nodes == old(nodes) + {newroot} && nlevel == old(nlevel) + 1
      ensures Snap(nodes) == Raise(old(Snap(nodes)), left, right, newroot, old(RecOf(newroot)))
    {
      left.parent := newroot;
      right.parent := newroot;
      nlevel := nlevel + 1;
      root := newroot;
      nodes := nodes + {newroot};
    }

    /** Second case: enter the new key and child in the parent, which may become overfull. */
    method InsertInParent(key: Key, left: Node, right: Node, parent: Node, ghost lvl: nat)
      requires root != null && Tree(Snap(nodes), root, nlevel, lvl, Some((left, right)), None)
      requires left.hi == Some(key) && left.parent == parent && parent in nodes && parent.height == lvl + 1
      requires IsKid(RecOf(parent), left)
      modifies parent, right
      ensures parent.height == lvl + 1 && old(parent.nkeys) < parent.nkeys <= 2 * ORDER + 1
      ensures Tree(Snap(nodes), root, nlevel, lvl, None, Some(parent))
      ensures Grown(old(Snap(nodes)), Snap(nodes), lvl)
    {
      ghost var h := Snap(nodes);
      assert Shape(h, Some((left, right)), nlevel, parent) && FillOk(h, root, None, parent);
      Searchable(h[parent], Slot(key, [], 0, null));
      var ikey := BSearch.BsearchLar(Slot(key, [], 0, null), parent.arr[..parent.nkeys], SlotCmp);
      FindsLeft(h, nlevel, lvl, left, right, parent, ikey);
      EnterSlot(parent, ikey, key, right);
      EnterKid(h, root, nlevel, lvl, left, right, parent, RecOf(parent), ikey);
      EnterGrown(h, lvl, left, right, parent, RecOf(parent), ikey);
    }

    /** The last part of `btree_insert_index`: split an overfull internal node, go on upwards,
        then fix the parent pointers of the moved children. */
    method SplitParent(parent: Node, ghost lvl: nat) returns (ghost added: set<Node>)
      requires root != null && parent in nodes && parent.height == lvl + 1 && parent.nkeys == 2 * ORDER + 1
      requires Tree(Snap(nodes), root, nlevel, lvl, None, Some(parent))
      modifies this, nodes
      ensures root != null && Tree(Snap(nodes), root, nlevel, lvl, None, None)
      ensures Grown(old(Snap(nodes)), Snap(nodes), lvl)
      ensures nodes == old(nodes) + added && fresh(added)
      ensures nkeys == old(nkeys) && leaves == old(leaves) && contents == old(contents)
      decreases nlevel - lvl, 0, 1
    {
      var newparent;
      newparent, added := PushUp(parent, lvl);
      FixParents(parent, newparent, lvl);
    }

    /** Split `parent` and push its middle key up, leaving the moved children to be fixed. */
    method PushUp(parent: Node, ghost lvl: nat) returns (newparent: Node, ghost added: set<Node>)
      requires root != null && parent in nodes && parent.height == lvl + 1 && parent.nkeys == 2 * ORDER + 1
      requires Tree(Snap(nodes), root, nlevel, lvl, None, Some(parent))
      modifies this, nodes
      ensures root != null && Tree(Snap(nodes), root, nlevel, lvl + 1, None, None)
      ensures Orphans(Snap(nodes), lvl, parent, newparent)
      ensures Grown(old(Snap(nodes)), Adopt(Snap(nodes), newparent), lvl)
      ensures nodes == old(nodes) + added && fresh(added)
      ensures nkeys == old(nkeys) && leaves == old(leaves) && contents == old(contents)
      decreases nlevel - lvl, 0, 0
    {
      hide Tree, Grown, Orphans, Snap, Halved;
      ghost var h, root1, nlevel1 := Snap(nodes), root, nlevel;
      LevelsLeft(nodes, root, nlevel, lvl, parent);
      SnapKeys(nodes);
      SnapAt(nodes, parent);
      var newkey;
      newkey, newparent := HalveParent(parent, lvl);
      ghost var p', q' := RecOf(parent), RecOf(newparent);
      added := InsertIndex(newkey, parent, newparent, lvl + 1);
      added := added + {newparent};
      assert fresh(added);
      CascadeDone(h, root1, nlevel1, lvl, parent, p', newparent, q', newkey, Snap(nodes), root, nlevel);
    }

    method HalveParent(parent: Node, ghost lvl: nat) returns (newkey: Key, newparent: Node)
      requires root != null && parent in nodes && parent.height == lvl + 1 && parent.nkeys == 2 * ORDER + 1
      requires Tree(Snap(nodes), root, nlevel, lvl, None, Some(parent))
      modifies this`nodes, parent
      ensures fresh(newparent) && nodes == old(nodes) + {newparent}
      ensures Halved(old(RecOf(parent)), RecOf(parent), RecOf(newparent), newkey)
      ensures Snap(nodes) == Split(old(Snap(nodes)), parent, RecOf(parent), newparent, RecOf(newparent))
      ensures Tree(Snap(nodes), root, nlevel, lvl + 1, Some((parent, newparent)), None)
    {
      ghost var h := Snap(nodes);
      assert Shape(h, None, nlevel, parent);
      newkey := parent.arr[ORDER].key;
      newparent := SplitInternal(parent);
      nodes := nodes + {newparent};
      SplitNode(h, root, nlevel, lvl, parent, RecOf(parent), newparent, RecOf(newparent), newkey);
      assert Snap(nodes) == Split(h, parent, RecOf(parent), newparent, RecOf(newparent));
    }

    /** `get_leaf`, for an empty tree: the first leaf is the root. */
    method FirstLeaf() returns (leaf: Node)
      requires Valid() && nlevel == 0
      modifies this
      ensures Valid() && Grounded() && contents == map[] && leaf in nodes && fresh(nodes)
      ensures leaf.height == 0 && leaf.lo == leaf.hi == None
    {
      leaf := new Node(0, None, None);
      root := leaf;
      nlevel := 1;
      nkeys := 0;
      nodes := {leaf};
      leaves := [leaf];
      ghost var h := Snap(nodes);
      assert Shape(h, None, nlevel, leaf) && UpOk(h, leaf, leaf) && FillOk(h, leaf, None, leaf);
      assert LinkOk(h, leaves, 0);
    }

    /** `get_leaf`, going down from the root: the leaf that covers `key`. */
    method FindLeaf(key: Key) returns (leaf: Node)
      requires Grounded()
      ensures leaf in nodes && leaf.height == 0 && Covers(RecOf(leaf), key)
    {
      hide Tree, Chain, Holds, Snap, Covers;
      ghost var h := Snap(nodes);
      RootCovers(nodes, root, nlevel, key);
      var node: Node := root;
      for i := 0 to nlevel - 1
        invariant node in nodes && node.height == nlevel - 1 - i && Covers(RecOf(node), key)
      {
        SnapAt(nodes, node);
        NodeKeys(h, root, nlevel, node, key);
        var ipt := BSearch.BsearchLar(Slot(key, [], 0, null), node.arr[..node.nkeys], SlotCmp);
        Descend(h, root, nlevel, node, key, ipt);
        node := node.arr[ipt].child;
        SnapAt(nodes, node);
      }
      leaf := node;
    }

    /** `insert_key`: make room at `pos` for a key without values. */
    method InsertKey(leaf: Node, key: Key, pos: nat)
      requires |leaf.arr| == 2 * ORDER + 2 && pos <= leaf.nkeys <= 2 * ORDER + 1
      modifies this`nkeys, leaf`nkeys, leaf`arr
      ensures nkeys == old(nkeys) + 1
      ensures exists s: Slot :: s.key == key && s.vals == [] && Put(old(RecOf(leaf)), RecOf(leaf), pos, s, true)
    {
      if pos < leaf.nkeys {
        leaf.arr := leaf.arr[..pos + 1] + leaf.arr[pos..leaf.nkeys] + leaf.arr[leaf.nkeys + 1..];
      }
      leaf.nkeys := leaf.nkeys + 1;
      nkeys := nkeys + 1;
      leaf.arr := leaf.arr[pos := leaf.arr[pos].(key := key, vals := [])];
      assert Put(old(RecOf(leaf)), RecOf(leaf), pos, leaf.arr[pos], true);
    }

    /** First half of `split_leaf`. */
    method HalveLeaf(leaf: Node) returns (right: Node)
      requires root != null && leaf in nodes && leaf.height == 0 && leaf.nkeys == 2 * ORDER + 2
      requires Tree(Snap(nodes), root, nlevel, 0, None, Some(leaf))
      modifies this`nodes, leaf
      ensures fresh(right) && nodes == old(nodes) + {right} && |right.arr| > 0
      ensures Halved(old(RecOf(leaf)), RecOf(leaf), RecOf(right), right.arr[0].key)
      ensures Snap(nodes) == Split(old(Snap(nodes)), leaf, RecOf(leaf), right, RecOf(right))
      ensures Tree(Snap(nodes), root, nlevel, 0, Some((leaf, right)), None)
    {
      ghost var h := Snap(nodes);
      assert Shape(h, None, nlevel, leaf);
      right := new Node(0, Some(leaf.arr[ORDER + 1].key), leaf.hi);
      right.arr := leaf.arr[ORDER + 1..] + right.arr[ORDER + 1..];
      right.nkeys := ORDER + 1;
      leaf.nkeys := ORDER + 1;
      leaf.hi := Some(leaf.arr[ORDER + 1].key);
      nodes := nodes + {right};
      SplitNode(h, root, nlevel, 0, leaf, RecOf(leaf), right, RecOf(right), right.arr[0].key);
      assert Snap(nodes) == Split(h, leaf, RecOf(leaf), right, RecOf(right));
    }

    /** `split_leaf` up to the index: the new leaf is in the tree, not yet in the chain. */
    method IndexNewLeaf(leaf: Node) returns (right: Node, ghost added: set<Node>)
      requires root != null && leaf in nodes && leaf.height == 0 && leaf.nkeys == 2 * ORDER + 2
      requires Tree(Snap(nodes), root, nlevel, 0, None, Some(leaf))
      modifies this, nodes
      ensures root != null && nlevel > 0 && Tree(Snap(nodes), root, nlevel, 0, None, None)
      ensures LeafSplit(old(Snap(nodes)), leaf, right, Snap(nodes))
      ensures nodes == old(nodes) + added && fresh(added) && right in nodes
      ensures nkeys == old(nkeys) && leaves == old(leaves) && contents == old(contents)
    {
      ghost var h := Snap(nodes);
      right := HalveLeaf(leaf);
      ghost var leaf', right' := RecOf(leaf), RecOf(right);
      added := InsertIndex(right.arr[0].key, leaf, right, 0);
      added := added + {right};
      assert fresh(added);
      GrownLeafSplit(h, leaf, leaf', right, right', right'.arr[0].key, Snap(nodes));
    }

    /** `split_leaf`. */
    method SplitLeaf(leaf: Node) returns (ghost added: set<Node>)
      requires root != null && leaf in nodes && leaf.height == 0 && leaf.nkeys == 2 * ORDER + 2
      requires Tree(Snap(nodes), root, nlevel, 0, None, Some(leaf))
      requires Chain(Snap(nodes), leaves) && Holds(Snap(nodes), contents)
      modifies this, nodes
      ensures Grounded() && nodes == old(nodes) + added && fresh(added)
      ensures nkeys == old(nkeys) && contents == old(contents)
    {
      hide Tree, Chain, Holds, Snap, LeafSplit;
      ghost var h, root1, nlevel1 := Snap(nodes), root, nlevel;
      SnapAt(nodes, leaf);
      ghost var i := InChain(h, leaves, leaf);
      var right;
      right, added := IndexNewLeaf(leaf);
      assert fresh(added) && leaf != right;
      ghost var h', leaves1 := Snap(nodes), leaves;
      LinkLeaf(leaf, right, i);
      LinkedAll(h, leaves1, contents, root1, nlevel1, i, right, h', root, nlevel, Snap(nodes), leaves);
    }

    /** Last part of `split_leaf`. */
    method LinkLeaf(leaf: Node, right: Node, ghost i: nat)
      requires leaf in nodes && right in nodes && leaf != right && i < |leaves|
      modifies leaf`next, right`next, this`leaves
      ensures leaves == old(leaves)[..i + 1] + [right] + old(leaves)[i + 1..]
      ensures Snap(nodes) == Linked(old(Snap(nodes)), leaf, right)
    {
      var next := leaf.next;
      leaf.next := right;
      right.next := next;
      leaves := leaves[..i + 1] + [right] + leaves[i + 1..];
    }

    /** `get_leaf`. */
    method GetLeaf(key: Key) returns (leaf: Node)
      requires Valid()
      modifies this
      ensures Valid() && Grounded() && contents == old(contents)
      ensures old(nodes) <= nodes && fresh(nodes - old(nodes))
      ensures leaf in nodes && leaf.height == 0 && Covers(RecOf(leaf), key)
    {
      if nlevel == 0 {
        leaf := FirstLeaf();
      } else {
        leaf := FindLeaf(key);
      }
    }

    /** Where `key` is, or belongs, in its leaf. */
    method Locate(leaf: Node, key: Key) returns (pos: nat, found: bool)
      requires Grounded() && leaf in nodes && leaf.height == 0
      ensures Placed(RecOf(leaf), pos, key, !found)
    {
      ghost var h := Snap(nodes);
      assert Shape(h, None, nlevel, leaf) && FillOk(h, root, None, leaf);
      Searchable(h[leaf], Slot(key, [], 0, null));
      var key' := Slot(key, [], 0, null);
      pos, found := BSearch.BsearchEq(key', leaf.arr[..leaf.nkeys], SlotCmp);
      assert forall i :: 0 <= i < leaf.nkeys ==> leaf.arr[..leaf.nkeys][i] == leaf.arr[i];
      FindsPlace(h[leaf], key', pos, found);
    }

    /** The middle of `pch_insert_kv`: the entry of `key` takes the new value. */
    method StoreValue(app: App, leaf: Node, key: Key, val: Val, hash: nat, pos: nat, found: bool)
      returns (ghost s: Slot)
      requires leaf in nodes && Placed(RecOf(leaf), pos, key, !found)
      modifies this`nkeys, leaf`nkeys, leaf`arr
      ensures nkeys == old(nkeys) + (if found then 0 else 1)
      ensures Put(old(RecOf(leaf)), RecOf(leaf), pos, s, !found) && s.key == key
      ensures found ==> s.vals == InsertVal(app, old(leaf.arr)[pos].vals, val) && s.hash == old(leaf.arr)[pos].hash
      ensures !found ==> s.vals == InsertVal(app, [], val) && s.hash == hash
      ensures Snap(nodes) == old(Snap(nodes))[leaf := RecOf(leaf)]
    {
      if !found {
        InsertKey(leaf, key, pos);
        leaf.arr := leaf.arr[pos := leaf.arr[pos].(hash := hash)];
      }
      leaf.arr := leaf.arr[pos := leaf.arr[pos].(vals := InsertVal(app, leaf.arr[pos].vals, val))];
      s := leaf.arr[pos];
    }

    /** One entry of `leaf` set, the leaf perhaps overfull. */
    ghost predicate Stored(leaf: Node)
      reads this, nodes
    {
      && root != null && nlevel > 0 && leaf in nodes && leaf.height == 0 && leaf.nkeys <= 2 * ORDER + 2
      && Tree(Snap(nodes), root, nlevel, 0, None, Some(leaf))
      && Chain(Snap(nodes), leaves)
      && Holds(Snap(nodes), contents)
      && (leaf.nkeys <= 2 * ORDER + 1 ==> FillOk(Snap(nodes), root, None, leaf))
    }

    /** `pch_insert_kv` up to the split. */
    method PutValue(app: App, leaf: Node, key: Key, val: Val, hash: nat) returns (found: bool)
      requires Grounded() && leaf in nodes && leaf.height == 0 && Covers(RecOf(leaf), key)
      modifies this`nkeys, this`contents, leaf
      ensures Stored(leaf)
      ensures found <==> key in old(contents)
      ensures nkeys == old(nkeys) + (if found then 0 else 1)
      ensures contents == PutPair(app, old(contents), key, val, hash)
    {
      hide Tree, Chain, Holds, Put, Placed, PutPair, FillOk, Snap;
      ghost var h := Snap(nodes);
      SnapAt(nodes, leaf);
      var pos;
      pos, found := Locate(leaf, key);
      ghost var s := StoreValue(app, leaf, key, val, hash, pos, found);
      PutPairAll(app, h, root, nlevel, leaves, contents, leaf, RecOf(leaf), pos, s, found, Snap(nodes), val, hash);
      contents := PutPair(app, contents, key, val, hash);
    }

    /** The split at the end of `pch_insert_kv` and `pch_insert_kvs`. */
    method Settle(leaf: Node)
      requires Stored(leaf) && nkeys == |contents|
      modifies this, nodes
      ensures Valid() && contents == old(contents) && fresh(nodes - old(nodes))
    {
      if leaf.nkeys == 2 * ORDER + 2 {
        ghost var added := SplitLeaf(leaf);
      } else {
        NoneOver(Snap(nodes), root, leaf);
      }
    }

    /** `pch_insert_kv`: the value joins exactly the values of its key. */
    method InsertKv(app: App, key: Key, val: Val, hash: nat) returns (isNew: bool)
      requires Valid()
      modifies this, nodes
      ensures Valid() && fresh(nodes - old(nodes))
      ensures isNew <==> key !in old(contents)
      ensures contents == PutPair(app, old(contents), key, val, hash)
    {
      hide Tree, Chain, Holds, Snap;
      var leaf := GetLeaf(key);
      var found := PutValue(app, leaf, key, val, hash);
      Settle(leaf);
      isNew := !found;
    }

    /** The middle of `pch_insert_kvs`: a whole entry goes to `pos`. */
    method StoreEntry(leaf: Node, kvs: KeyVals, pos: nat) returns (ghost s: Slot)
      requires leaf in nodes && Placed(RecOf(leaf), pos, kvs.key, true)
      modifies this`nkeys, leaf`nkeys, leaf`arr
      ensures nkeys == old(nkeys) + 1
      ensures Put(old(RecOf(leaf)), RecOf(leaf), pos, s, true) && Payload(s) == kvs
      ensures Snap(nodes) == old(Snap(nodes))[leaf := RecOf(leaf)]
    {
      InsertKey(leaf, kvs.key, pos);
      leaf.arr := leaf.arr[pos := leaf.arr[pos].(key := kvs.key, vals := kvs.vals, hash := kvs.hash)];
      s := leaf.arr[pos];
    }

    method PutEntry(leaf: Node, kvs: KeyVals)
      requires Grounded() && leaf in nodes && leaf.height == 0 && Covers(RecOf(leaf), kvs.key)
      requires kvs.key !in contents
      modifies this`nkeys, this`contents, leaf
      ensures Stored(leaf) && nkeys == old(nkeys) + 1 && contents == old(contents)[kvs.key := kvs]
    {
      hide Tree, Chain, Holds, Put, Placed, FillOk, Snap;
      ghost var h := Snap(nodes);
      SnapAt(nodes, leaf);
      var pos, bfound := Locate(leaf, kvs.key);
      NotFound(h, root, nlevel, contents, leaf, kvs.key, pos, bfound);
      ghost var s := StoreEntry(leaf, kvs, pos);
      PutEntryAll(h, root, nlevel, leaves, contents, leaf, RecOf(leaf), pos, s, Snap(nodes));
      contents := contents[kvs.key := kvs];
    }

    /** `pch_insert_kvs`: add a whole entry.  The source asserts that its key is new. */
    method InsertKvs(kvs: KeyVals)
      requires Valid() && kvs.key !in contents
      modifies this, nodes
      ensures Valid() && fresh(nodes - old(nodes))
      ensures contents == old(contents)[kvs.key := kvs]
    {
      hide Tree, Chain, Holds, Snap;
      var leaf := GetLeaf(kvs.key);
      PutEntry(leaf, kvs);
      Settle(leaf);
    }

    /** `pch_get_len`. */
    method GetLen() returns (len: nat)
      requires Valid()
      ensures len == |contents|
    {
      len := nkeys;
    }

    /** The walk to the first leaf in `pch_iter_begin` and `pch_copy_kvs`. */
    method FirstOfChain() returns (node: Node)
      requires Grounded()
      ensures |leaves| > 0 && node == leaves[0]
    {
      ghost var h := Snap(nodes);
      node := root;
      for i := 0 to nlevel - 1
        invariant node in nodes && node.height == nlevel - 1 - i && node.lo == None
      {
        assert Shape(h, None, nlevel, node) && KidOk(h, None, node, 0);
        node := node.arr[0].child;
      }
      LeftmostLeaf(h, root, nlevel, leaves, node);
    }

    /** `pch_copy_kvs`: all entries, in key order. */
    method CopyKvs(dst: array<KeyVals>) returns (len: nat)
      requires Valid() && dst.Length >= nkeys
      modifies dst
      ensures len == |contents| && IsListing(dst[..len], contents)
    {
      hide Tree, Holds, Chain, IsListing, Listing, Snap, LinkOk;
      if nlevel == 0 {
        NoEntries(dst[..0]);
        return 0;
      }
      ghost var h := Snap(nodes);
      CanRead(h, root, nlevel, leaves);
      ListingIsContents(h, root, nlevel, leaves, contents);
      ListingLength(Listing(h, leaves), contents);
      var first := FirstOfChain();
      var node: Node? := first;
      len := 0;
      ghost var m := 0;
      ListingStart(h, leaves);
      while node != null
        invariant Snap(nodes) == h && m <= |leaves|
        invariant (m < |leaves| ==> node == leaves[m]) && (m == |leaves| ==> node == null)
        invariant len <= dst.Length && dst[..len] == Listing(h, leaves[..m])
        decreases |leaves| - m
      {
        LinkAt(h, leaves, m);
        SnapAt(nodes, leaves[m]);
        ListingStep(h, leaves, m);
        ListingPrefix(h, leaves, m + 1);
        CopyNode(dst, len, node);
        len := len + node.nkeys;
        node := node.next;
        m := m + 1;
      }
      assert leaves[..m] == leaves;
    }

    /** One `memcpy` of `pch_copy_kvs`. */
    method CopyNode(dst: array<KeyVals>, len: nat, node: Node)
      requires node.nkeys <= |node.arr| && len + node.nkeys <= dst.Length
      modifies dst
      ensures dst[..len + node.nkeys] == old(dst[..len]) + Entries(RecOf(node))
    {
      for i := 0 to node.nkeys
        invariant dst[..len] == old(dst[..len])
        invariant forall j :: 0 <= j < i ==> dst[len + j] == Payload(node.arr[j])
      {
        dst[len + i] := KeyVals(node.arr[i].key, node.arr[i].vals, node.arr[i].hash);
      }
      assert dst[..len + node.nkeys] == dst[..len] + dst[len..len + node.nkeys];
      assert dst[len..len + node.nkeys] == Entries(RecOf(node));
    }
  }

  /** The number of keys a tree must have to be this high. */
  lemma HeightBound(t: BTree)
    requires t.Valid() && t.nlevel >= 2
    ensures t.nkeys >= 2 * Pow4(t.nlevel - 1)
  {
    MinSize(Snap(t.nodes), t.root, t.nlevel, t.contents);
  }

  /** All leaves are equally deep, and nodes other than the root are at least half full. */
  lemma Balanced(t: BTree, n: Node)
    requires t.Valid() && n in t.nodes
    ensures n.height < t.nlevel && Ancestor(Snap(t.nodes), n, t.nlevel - 1 - n.height) == t.root
    ensures n != t.root ==> Full(RecOf(n))
  {
    SameDepth(Snap(t.nodes), t.root, t.nlevel, n);
    assert FillOk(Snap(t.nodes), t.root, None, n);
  }

  /** Every run of inserts from an empty tree. */
  method Run(app: App, pairs: seq<Pair>) returns (t: BTree)
    ensures fresh(t) && t.Valid() && t.contents == PutPairs(app, pairs)
  {
    t := new BTree();
    for i := 0 to |pairs|
      invariant fresh(t) && fresh(t.nodes) && t.Valid() && t.contents == PutPairs(app, pairs[..i])
    {
      assert pairs[..i + 1][..i] == pairs[..i];
      var isNew := t.InsertKv(app, pairs[i].key, pairs[i].val, pairs[i].hash);
    }
    assert pairs[..|pairs|] == pairs;
  }
}
