/** Reducing and grouping: benchmarks/metis/lib/reduce.c. */
module Reduce {
  import opened Common
  import opened Seqs
  import opened Values

  /** One key with all its values, as handed to the reduce function or to the output. */
  datatype Group = Group(key: Key, vals: seq<Val>)

  predicate GroupsSorted(s: seq<Group>) {
    forall i, j :: 0 <= i < j < |s| ==> s[i].key < s[j].key
  }

  ghost predicate HasKey(node: seq<KeyVals>, k: Key) {
    exists i :: 0 <= i < |node| && node[i].key == k
  }

  ghost predicate SomeHas(nodes: seq<seq<KeyVals>>, k: Key) {
    exists i :: 0 <= i < |nodes| && HasKey(nodes[i], k)
  }

  /** The values `node` has for `k`, none if it does not have the key. */
  ghost function ValsAt(node: seq<KeyVals>, k: Key): seq<Val> {
    if HasKey(node, k) then var i :| 0 <= i < |node| && node[i].key == k; node[i].vals else []
  }

  ghost function RowVals(nodes: seq<seq<KeyVals>>, k: Key): seq<seq<Val>> {
    seq(|nodes|, i requires 0 <= i < |nodes| => ValsAt(nodes[i], k))
  }

  /** `out` has each key of the nodes once, in order, with its values joined in node order. */
  ghost predicate Grouped(app: App, nodes: seq<seq<KeyVals>>, out: seq<Group>) {
    && GroupsSorted(out)
    && (forall j :: 0 <= j < |out| ==> SomeHas(nodes, out[j].key))
    && (forall i, t :: 0 <= i < |nodes| && 0 <= t < |nodes[i]| ==> nodes[i][t].key in OutKeys(out))
    && (forall j :: 0 <= j < |out| ==> out[j].vals == Joined(app, RowVals(nodes, out[j].key)))
  }

  // ------------------------------------------------------- the k-way group-merge

  /** The heads of the nodes during the merge: `kvs[i]` is the entry of node i read last,
      `pos[i]` how many were read; a node is ended when it had no entry left. */
  ghost predicate Heads(nodes: seq<seq<KeyVals>>, kvs: seq<KeyVals>, pos: seq<nat>, ended: seq<bool>) {
    && |kvs| == |pos| == |ended| == |nodes|
    && forall i :: 0 <= i < |nodes| ==> HeadOk(nodes[i], kvs[i], pos[i], ended[i])
  }

  ghost predicate HeadOk(node: seq<KeyVals>, kvs: KeyVals, pos: nat, ended: bool) {
    && pos <= |node|
    && (ended ==> pos == |node|)
    && (!ended ==> pos > 0 && kvs == node[pos - 1])
  }

  /** How many entries of node i have been merged. */
  function Merged(pos: nat, ended: bool): int { if ended then pos else pos - 1 }

  /** The first inner loop of `reduce_or_groupkvs`: the minimum key, with every node at it marked. */
  method FindMin(kvs: seq<KeyVals>, ended: seq<bool>) returns (minIdx: int, marks: seq<nat>, m: nat)
    requires |kvs| == |ended|
    ensures |marks| == |kvs| && -1 <= minIdx < |kvs|
    ensures minIdx < 0 <==> forall i :: 0 <= i < |ended| ==> ended[i]
    ensures minIdx >= 0 ==> !ended[minIdx]
    ensures minIdx >= 0 ==> forall i :: 0 <= i < |kvs| && !ended[i] ==> kvs[minIdx].key <= kvs[i].key
    ensures minIdx >= 0 ==> forall i :: 0 <= i < |kvs| ==>
      (marks[i] == m <==> !ended[i] && kvs[i].key == kvs[minIdx].key)
  {
    minIdx := -1;
    marks := seq(|kvs|, _ => 0);
    m := 0;
    for i := 0 to |kvs|
      invariant |marks| == |kvs| && -1 <= minIdx < i && (minIdx < 0 <==> m == 0)
      invariant minIdx < 0 ==> forall j :: 0 <= j < i ==> ended[j]
      invariant minIdx >= 0 ==> !ended[minIdx]
      invariant minIdx >= 0 ==> forall j :: 0 <= j < i && !ended[j] ==> kvs[minIdx].key <= kvs[j].key
      invariant forall j :: 0 <= j < |kvs| ==> marks[j] <= m && (j >= i ==> marks[j] == 0)
      invariant minIdx >= 0 ==> forall j :: 0 <= j < i ==>
        (marks[j] == m <==> !ended[j] && kvs[j].key == kvs[minIdx].key)
    {
      if ended[i] {
        continue;
      }
      if minIdx < 0 || kvs[minIdx].key > kvs[i].key {
        m := m + 1;
        marks := marks[i := m];
        minIdx := i;
      } else if kvs[minIdx].key == kvs[i].key {
        marks := marks[i := m];
      }
    }
  }

  ghost predicate AllSorted(nodes: seq<seq<KeyVals>>) {
    forall i :: 0 <= i < |nodes| ==> StrictlySorted(nodes[i])
  }

  lemma ValsAtIs(node: seq<KeyVals>, t: nat)
    requires StrictlySorted(node) && t < |node|
    ensures ValsAt(node, node[t].key) == node[t].vals
  {
    assert HasKey(node, node[t].key);
  }

  /** A node whose merged entries lie below `k` and whose head lies above does not have `k`. */
  lemma NotThere(node: seq<KeyVals>, merged: nat, k: Key)
    requires StrictlySorted(node) && merged <= |node|
    requires forall t :: 0 <= t < merged ==> node[t].key < k
    requires merged < |node| ==> k < node[merged].key
    ensures !HasKey(node, k)
  {
  }

  lemma {:induction false} JoinedStep(app: App, rows: seq<seq<Val>>, i: nat)
    requires i < |rows|
    ensures Joined(app, rows[..i + 1]) == Move(app, Joined(app, rows[..i]), rows[i])
  {
    assert rows[..i + 1][..i] == rows[..i];
  }

  /** What the second inner loop does to one node: move on if it is at the minimum key. */
  ghost predicate Moved(node: seq<KeyVals>, kvs0: KeyVals, pos0: nat, ended0: bool, kvs: KeyVals, pos: nat,
                        ended: bool, key: Key) {
    && HeadOk(node, kvs, pos, ended)
    && Merged(pos, ended) == Merged(pos0, ended0) + (if !ended0 && kvs0.key == key then 1 else 0)
    && (!ended ==> key < kvs.key)
  }

  /** Before it: nothing merged reaches the minimum key, no head is below it. */
  ghost predicate AtOrAbove(node: seq<KeyVals>, kvs: KeyVals, pos: nat, ended: bool, key: Key) {
    && StrictlySorted(node) && HeadOk(node, kvs, pos, ended)
    && (!ended ==> key <= kvs.key)
    && forall t :: 0 <= t < Merged(pos, ended) ==> node[t].key < key
  }

  /** One round of that loop. */
  method EatOne(app: App, node: seq<KeyVals>, kvs0: KeyVals, pos0: nat, ended0: bool, marked: bool, key: Key,
                vals0: seq<Val>)
    returns (vals: seq<Val>, kvs: KeyVals, pos: nat, ended: bool)
    requires AtOrAbove(node, kvs0, pos0, ended0, key) && (marked <==> !ended0 && kvs0.key == key)
    ensures Moved(node, kvs0, pos0, ended0, kvs, pos, ended, key)
    ensures vals == Move(app, vals0, ValsAt(node, key))
  {
    vals, kvs, pos, ended := vals0, kvs0, pos0, ended0;
    if marked {
      ValsAtIs(node, pos - 1);
      vals := Move(app, vals, kvs.vals);
      if pos == |node| {
        ended := true;
      } else {
        kvs := node[pos];
        pos := pos + 1;
      }
    } else {
      NotThere(node, Merged(pos, ended), key);
    }
  }

  /** The second inner loop: the values at the minimum key are joined, and the marked nodes
      move on to their next entries. */
  method EatMin(app: App, nodes: seq<seq<KeyVals>>, kvs0: seq<KeyVals>, pos0: seq<nat>, ended0: seq<bool>,
                marks: seq<nat>, m: nat, key: Key)
    returns (vals: seq<Val>, kvs: seq<KeyVals>, pos: seq<nat>, ended: seq<bool>)
    requires |kvs0| == |pos0| == |ended0| == |marks| == |nodes|
    requires forall i :: 0 <= i < |nodes| ==> AtOrAbove(nodes[i], kvs0[i], pos0[i], ended0[i], key)
    requires forall i :: 0 <= i < |nodes| ==> (marks[i] == m <==> !ended0[i] && kvs0[i].key == key)
    ensures |kvs| == |pos| == |ended| == |nodes|
    ensures forall i :: 0 <= i < |nodes| ==>
      Moved(nodes[i], kvs0[i], pos0[i], ended0[i], kvs[i], pos[i], ended[i], key)
    ensures vals == Joined(app, RowVals(nodes, key))
  {
    vals, kvs, pos, ended := [], kvs0, pos0, ended0;
    ghost var rows := RowVals(nodes, key);
    for i := 0 to |nodes|
      invariant |kvs| == |pos| == |ended| == |nodes|
      invariant vals == Joined(app, rows[..i])
      invariant forall j :: i <= j < |nodes| ==> kvs[j] == kvs0[j] && pos[j] == pos0[j] && ended[j] == ended0[j]
      invariant forall j :: 0 <= j < i ==>
        Moved(nodes[j], kvs0[j], pos0[j], ended0[j], kvs[j], pos[j], ended[j], key)
    {
      JoinedStep(app, rows, i);
      var k, p, e;
      vals, k, p, e := EatOne(app, nodes[i], kvs[i], pos[i], ended[i], marks[i] == m, key, vals);
      kvs, pos, ended := kvs[i := k], pos[i := p], ended[i := e];
    }
    assert rows[..|nodes|] == rows;
  }

  ghost function AllKeys(nodes: seq<seq<KeyVals>>): set<Key> {
    set i, t | 0 <= i < |nodes| && 0 <= t < |nodes[i]| :: nodes[i][t].key
  }

  ghost function OutKeys(out: seq<Group>): set<Key> {
    set j | 0 <= j < |out| :: out[j].key
  }

  /** The state of the merge between rounds. */
  ghost predicate MidMerge(app: App, nodes: seq<seq<KeyVals>>, pos: seq<nat>, ended: seq<bool>, out: seq<Group>)
    requires |pos| == |ended| == |nodes|
    requires forall i :: 0 <= i < |nodes| ==> pos[i] <= |nodes[i]|
  {
    var whole :=
      && GroupsSorted(out)
      && (forall j :: 0 <= j < |out| ==> SomeHas(nodes, out[j].key))
      && (forall i, t :: 0 <= i < |nodes| && 0 <= t < Merged(pos[i], ended[i]) ==> nodes[i][t].key in OutKeys(out))
      && (forall j :: 0 <= j < |out| ==> out[j].vals == Joined(app, RowVals(nodes, out[j].key)));
    whole
  }

  /** No head is at or below a key already handed on. */
  ghost predicate Ahead(out: seq<Group>, kvs: seq<KeyVals>, ended: seq<bool>)
    requires |kvs| == |ended|
  {
    forall j, i :: 0 <= j < |out| && 0 <= i < |kvs| && !ended[i] ==> out[j].key < kvs[i].key
  }

  /** The start of `reduce_or_groupkvs`: the first entry of each node. */
  method FirstHeads(nodes: seq<seq<KeyVals>>) returns (kvs: seq<KeyVals>, pos: seq<nat>, ended: seq<bool>)
    ensures Heads(nodes, kvs, pos, ended)
    ensures forall i :: 0 <= i < |nodes| ==> Merged(pos[i], ended[i]) == 0
  {
    kvs := seq(|nodes|, _ => KeyVals(0.0, [], 0));
    pos := seq(|nodes|, _ => 0);
    ended := seq(|nodes|, _ => true);
    for i := 0 to |nodes|
      invariant |kvs| == |pos| == |ended| == |nodes|
      invariant forall j :: i <= j < |nodes| ==> pos[j] == 0 && ended[j]
      invariant forall j :: 0 <= j < i ==>
        HeadOk(nodes[j], kvs[j], pos[j], ended[j]) && Merged(pos[j], ended[j]) == 0
    {
      if |nodes[i]| > 0 {
        kvs := kvs[i := nodes[i][0]];
        pos := pos[i := 1];
        ended := ended[i := false];
      }
    }
  }

  /** `reduce_or_groupkvs` over nodes sorted by key: what is handed on, in order. */
  method GroupKvs(app: App, nodes: seq<seq<KeyVals>>) returns (out: seq<Group>)
    requires AllSorted(nodes)
    ensures Grouped(app, nodes, out)
  {
    var kvs, pos, ended := FirstHeads(nodes);
    out := [];
    while true
      invariant Heads(nodes, kvs, pos, ended) && MidMerge(app, nodes, pos, ended, out)
      invariant Ahead(out, kvs, ended)
      decreases AllKeys(nodes) - OutKeys(out)
    {
      var minIdx, marks, m := FindMin(kvs, ended);
      if minIdx < 0 {
        break;
      }
      var key := kvs[minIdx].key;
      ghost var kvs0, pos0, ended0, out0 := kvs, pos, ended, out;
      BeforeRound(app, nodes, kvs, pos, ended, out, key, minIdx);
      var vals;
      vals, kvs, pos, ended := EatMin(app, nodes, kvs, pos, ended, marks, m, key);
      out := out + [Group(key, vals)];
      StillMid(app, nodes, kvs0, pos0, ended0, out0, kvs, pos, ended, key);
    }
    AllMerged(app, nodes, kvs, pos, ended, out);
  }

  lemma BeforeRound(app: App, nodes: seq<seq<KeyVals>>, kvs: seq<KeyVals>, pos: seq<nat>, ended: seq<bool>,
                    out: seq<Group>, key: Key, minIdx: nat)
    requires AllSorted(nodes) && Heads(nodes, kvs, pos, ended) && MidMerge(app, nodes, pos, ended, out)
    requires Ahead(out, kvs, ended)
    requires minIdx < |nodes| && !ended[minIdx] && key == kvs[minIdx].key
    requires forall i :: 0 <= i < |kvs| && !ended[i] ==> key <= kvs[i].key
    ensures forall i :: 0 <= i < |nodes| ==> AtOrAbove(nodes[i], kvs[i], pos[i], ended[i], key)
    ensures key in AllKeys(nodes) && key !in OutKeys(out) && SomeHas(nodes, key)
    ensures forall j :: 0 <= j < |out| ==> out[j].key < key
  {
    assert HeadOk(nodes[minIdx], kvs[minIdx], pos[minIdx], ended[minIdx]);
    assert key == nodes[minIdx][pos[minIdx] - 1].key;
    assert HasKey(nodes[minIdx], key);
    forall i | 0 <= i < |nodes| ensures AtOrAbove(nodes[i], kvs[i], pos[i], ended[i], key) {
      assert HeadOk(nodes[i], kvs[i], pos[i], ended[i]);
      forall t | 0 <= t < Merged(pos[i], ended[i]) ensures nodes[i][t].key < key {
        assert nodes[i][t].key in OutKeys(out);
      }
    }
  }

  lemma AllMerged(app: App, nodes: seq<seq<KeyVals>>, kvs: seq<KeyVals>, pos: seq<nat>, ended: seq<bool>,
                  out: seq<Group>)
    requires Heads(nodes, kvs, pos, ended) && MidMerge(app, nodes, pos, ended, out)
    requires forall i :: 0 <= i < |ended| ==> ended[i]
    ensures Grouped(app, nodes, out)
  {
    forall i, t | 0 <= i < |nodes| && 0 <= t < |nodes[i]| ensures nodes[i][t].key in OutKeys(out) {
      assert HeadOk(nodes[i], kvs[i], pos[i], ended[i]);
    }
  }

  lemma StillMid(app: App, nodes: seq<seq<KeyVals>>, kvs0: seq<KeyVals>, pos0: seq<nat>, ended0: seq<bool>,
                 out: seq<Group>,
                 kvs: seq<KeyVals>, pos: seq<nat>, ended: seq<bool>, key: Key)
    requires Heads(nodes, kvs0, pos0, ended0) && MidMerge(app, nodes, pos0, ended0, out)
    requires |kvs| == |pos| == |ended| == |nodes|
    requires forall i :: 0 <= i < |nodes| ==>
      Moved(nodes[i], kvs0[i], pos0[i], ended0[i], kvs[i], pos[i], ended[i], key)
    requires SomeHas(nodes, key) && forall j :: 0 <= j < |out| ==> out[j].key < key
    ensures Heads(nodes, kvs, pos, ended)
    ensures MidMerge(app, nodes, pos, ended, out + [Group(key, Joined(app, RowVals(nodes, key)))])
    ensures OutKeys(out + [Group(key, Joined(app, RowVals(nodes, key)))]) == OutKeys(out) + {key}
    ensures Ahead(out + [Group(key, Joined(app, RowVals(nodes, key)))], kvs, ended)
  {
    hide Joined, RowVals, OutKeys, SomeHas;
    var out' := out + [Group(key, Joined(app, RowVals(nodes, key)))];
    OutKeysStep(out, Group(key, Joined(app, RowVals(nodes, key))));
    forall i, t | 0 <= i < |nodes| && 0 <= t < Merged(pos[i], ended[i]) ensures nodes[i][t].key in OutKeys(out') {
      assert Moved(nodes[i], kvs0[i], pos0[i], ended0[i], kvs[i], pos[i], ended[i], key);
      assert HeadOk(nodes[i], kvs0[i], pos0[i], ended0[i]);
    }
  }

  lemma OutKeysStep(out: seq<Group>, g: Group)
    ensures OutKeys(out + [g]) == OutKeys(out) + {g.key}
  {
    var out' := out + [g];
    assert out'[|out|] == g;
    forall k ensures k in OutKeys(out') <==> k in OutKeys(out) || k == g.key {
      if k in OutKeys(out) {
        var j :| 0 <= j < |out| && out[j].key == k;
        assert out'[j].key == k;
      }
    }
  }

  // ---------------------------------------------------------- sorting and grouping

  ghost predicate SortedPairs(arr: seq<Pair>) {
    forall i, j :: 0 <= i < j < |arr| ==> arr[i].key <= arr[j].key
  }

  /** `out` has each key of `arr` once, in order, with what is kept of its values. */
  ghost predicate SortGrouped(app: App, arr: seq<Pair>, out: seq<Group>) {
    && GroupsSorted(out)
    && (forall k :: k in OutKeys(out) <==> ValuesOf(arr, k) != [])
    && (forall j :: 0 <= j < |out| ==> out[j].vals == KeptOf(app, ValuesOf(arr, out[j].key)))
  }

  lemma NoValues(arr: seq<Pair>, k: Key)
    requires forall i :: 0 <= i < |arr| ==> arr[i].key != k
    ensures ValuesOf(arr, k) == []
  {
    ValuesOfSome(arr, k);
  }

  /** arr[start..end) are the pairs of one key, all of them. */
  ghost predicate IsRun(arr: seq<Pair>, start: nat, end: nat) {
    && start < end <= |arr|
    && (forall i :: 0 <= i < start ==> arr[i].key < arr[start].key)
    && (forall i :: start <= i < end ==> arr[i].key == arr[start].key)
    && (forall i :: end <= i < |arr| ==> arr[start].key < arr[i].key)
  }

  /** The first inner loop of `reduce_or_groupkv`: where the run of one key ends. */
  method FindRun(arr: seq<Pair>, start: nat) returns (end: nat)
    requires SortedPairs(arr) && start < |arr|
    requires forall i :: 0 <= i < start ==> arr[i].key < arr[start].key
    ensures IsRun(arr, start, end)
  {
    end := start + 1;
    while end < |arr| && arr[start].key == arr[end].key
      invariant start < end <= |arr| && forall i :: start <= i < end ==> arr[i].key == arr[start].key
    {
      end := end + 1;
    }
    if end < |arr| {
      assert arr[start].key < arr[end].key;
    }
  }

  lemma RunValues(arr: seq<Pair>, start: nat, end: nat)
    requires IsRun(arr, start, end)
    ensures ValuesOf(arr[..start], arr[start].key) == []
    ensures ValuesOf(arr, arr[start].key) == ValuesOf(arr[..end], arr[start].key)
  {
    var k := arr[start].key;
    NoValues(arr[..start], k);
    NoValues(arr[end..], k);
    assert arr[..end] + arr[end..] == arr;
    ValuesOfConcat(arr[..end], arr[end..], k);
  }

  lemma KeptStep(app: App, arr: seq<Pair>, i: nat)
    requires i < |arr|
    ensures KeptOf(app, ValuesOf(arr[..i + 1], arr[i].key))
         == InsertVal(app, KeptOf(app, ValuesOf(arr[..i], arr[i].key)), arr[i].val)
  {
    assert arr[..i + 1][..i] == arr[..i];
    var before := ValuesOf(arr[..i], arr[i].key);
    assert (before + [arr[i].val])[..|before|] == before;
  }

  lemma NoneKept(app: App)
    ensures KeptOf(app, []) == []
  {
  }

  /** The second inner loop: the values of the run, inserted one by one. */
  method TakeRun(app: App, arr: seq<Pair>, start: nat, end: nat) returns (vals: seq<Val>)
    requires IsRun(arr, start, end)
    ensures vals == KeptOf(app, ValuesOf(arr, arr[start].key))
  {
    hide KeptOf, ValuesOf, InsertVal;
    vals := [];
    RunValues(arr, start, end);
    NoneKept(app);
    for i := 0 to end - start
      invariant vals == KeptOf(app, ValuesOf(arr[..start + i], arr[start].key))
    {
      KeptStep(app, arr, start + i);
      vals := InsertVal(app, vals, arr[start + i].val);
    }
  }

  /** The groups of the pairs before `start`. */
  ghost predicate MidSort(app: App, arr: seq<Pair>, start: nat, out: seq<Group>) {
    var whole :=
      && start <= |arr| && GroupsSorted(out)
      && (forall j, i :: 0 <= j < |out| && start <= i < |arr| ==> out[j].key < arr[i].key)
      && (forall i :: 0 <= i < start ==> arr[i].key in OutKeys(out))
      && (forall j :: 0 <= j < |out| ==> ValuesOf(arr, out[j].key) != [])
      && (forall j :: 0 <= j < |out| ==> out[j].vals == KeptOf(app, ValuesOf(arr, out[j].key)));
    whole
  }

  lemma MidSortStep(app: App, arr: seq<Pair>, start: nat, out: seq<Group>, end: nat, g: Group)
    requires MidSort(app, arr, start, out) && IsRun(arr, start, end)
    requires g == Group(arr[start].key, KeptOf(app, ValuesOf(arr, arr[start].key)))
    ensures MidSort(app, arr, end, out + [g])
  {
    ValuesOfSome(arr, g.key);
    OutKeysStep(out, g);
  }

  /** `reduce_or_groupkv` once its array is sorted. */
  method GroupKv(app: App, arr: seq<Pair>) returns (out: seq<Group>)
    requires SortedPairs(arr)
    ensures SortGrouped(app, arr, out)
  {
    out := [];
    var start := 0;
    while start < |arr|
      invariant MidSort(app, arr, start, out)
      invariant start < |arr| ==> forall i :: 0 <= i < start ==> arr[i].key < arr[start].key
    {
      var end := FindRun(arr, start);
      var vals := TakeRun(app, arr, start, end);
      MidSortStep(app, arr, start, out, end, Group(arr[start].key, vals));
      out := out + [Group(arr[start].key, vals)];
      start := end;
    }
    forall k ensures k in OutKeys(out) <==> ValuesOf(arr, k) != [] {
      ValuesOfSome(arr, k);
    }
  }

  // -------------------------------------------------------- what the output means

  /** The values emitted for `k`, row by row. */
  function RowValues(rows: seq<seq<Pair>>, k: Key): (r: seq<seq<Val>>)
    ensures |r| == |rows|
  {
    if rows == [] then [] else RowValues(rows[..|rows| - 1], k) + [ValuesOf(rows[|rows| - 1], k)]
  }

  lemma {:induction false} FlatRowValues(rows: seq<seq<Pair>>, k: Key)
    ensures Flat(RowValues(rows, k)) == ValuesOf(Flat(rows), k)
  {
    if rows != [] {
      var init := rows[..|rows| - 1];
      FlatRowValues(init, k);
      ValuesOfConcat(Flat(init), rows[|rows| - 1], k);
      assert RowValues(rows, k)[..|rows| - 1] == RowValues(init, k);
    }
  }

  /** Node i lists the bucket that the pairs of row i went into. */
  ghost predicate Lists(app: App, rows: seq<seq<Pair>>, nodes: seq<seq<KeyVals>>) {
    |nodes| == |rows| && forall i :: 0 <= i < |rows| ==> IsListing(nodes[i], PutPairs(app, rows[i]))
  }

  lemma NodeVals(app: App, row: seq<Pair>, node: seq<KeyVals>, k: Key)
    requires IsListing(node, PutPairs(app, row))
    ensures HasKey(node, k) <==> ValuesOf(row, k) != []
    ensures ValsAt(node, k) == KeptOf(app, ValuesOf(row, k))
  {
    PutPairsMeans(app, row, k);
    KeySetHas(node, k);
    if HasKey(node, k) {
      var i :| 0 <= i < |node| && node[i].key == k;
      ValsAtIs(node, i);
    }
  }

  lemma {:induction false} RowValsKept(app: App, rows: seq<seq<Pair>>, nodes: seq<seq<KeyVals>>, k: Key)
    requires Lists(app, rows, nodes)
    ensures RowVals(nodes, k) == Kept(app, RowValues(rows, k))
    decreases |rows|
  {
    if rows == [] {
      return;
    }
    var n := |rows| - 1;
    RowValsKept(app, rows[..n], nodes[..n], k);
    NodeVals(app, rows[n], nodes[n], k);
    RowValsStep(nodes, k);
    KeptRowsStep(app, rows, k);
    hide ValsAt, KeptOf, ValuesOf, RowVals, Kept, RowValues;
  }

  lemma RowValsStep(nodes: seq<seq<KeyVals>>, k: Key)
    requires nodes != []
    ensures var n := |nodes| - 1; RowVals(nodes, k) == RowVals(nodes[..n], k) + [ValsAt(nodes[n], k)]
  {
    hide ValsAt;
  }

  lemma KeptRowsStep(app: App, rows: seq<seq<Pair>>, k: Key)
    requires rows != []
    ensures var n := |rows| - 1;
      Kept(app, RowValues(rows, k)) == Kept(app, RowValues(rows[..n], k)) + [KeptOf(app, ValuesOf(rows[n], k))]
  {
    hide KeptOf, ValuesOf;
    var n := |rows| - 1;
    assert RowValues(rows, k)[..n] == RowValues(rows[..n], k);
  }

  lemma {:induction false} InFlat(rows: seq<seq<Pair>>, k: Key)
    ensures ValuesOf(Flat(rows), k) != [] <==> exists i :: 0 <= i < |rows| && ValuesOf(rows[i], k) != []
  {
    if rows != [] {
      var init := rows[..|rows| - 1];
      InFlat(init, k);
      ValuesOfConcat(Flat(init), rows[|rows| - 1], k);
      assert forall i :: 0 <= i < |init| ==> init[i] == rows[i];
    }
  }

  /** The merge hands on exactly the keys emitted into any row. */
  lemma GroupedKeys(app: App, rows: seq<seq<Pair>>, nodes: seq<seq<KeyVals>>, out: seq<Group>, k: Key)
    requires Lists(app, rows, nodes) && Grouped(app, nodes, out)
    ensures k in OutKeys(out) <==> ValuesOf(Flat(rows), k) != []
  {
    InFlat(rows, k);
    if k in OutKeys(out) {
      var i :| 0 <= i < |nodes| && HasKey(nodes[i], k);
      NodeVals(app, rows[i], nodes[i], k);
    }
    if i :| 0 <= i < |rows| && ValuesOf(rows[i], k) != [] {
      NodeVals(app, rows[i], nodes[i], k);
      var t :| 0 <= t < |nodes[i]| && nodes[i][t].key == k;
      assert nodes[i][t].key in OutKeys(out);
    }
  }

  lemma {:induction false} KeptIsAll(app: App, vals: seq<Val>)
    requires app.KeepsAll()
    ensures KeptOf(app, vals) == vals
  {
    if vals != [] {
      KeptIsAll(app, vals[..|vals| - 1]);
    }
  }

  lemma {:induction false} JoinedIsFlat(app: App, rows: seq<seq<Val>>)
    requires app.KeepsAll()
    ensures Joined(app, Kept(app, rows)) == Flat(rows)
  {
    if rows != [] {
      JoinedIsFlat(app, rows[..|rows| - 1]);
      KeptIsAll(app, rows[|rows| - 1]);
      assert Kept(app, rows)[..|rows| - 1] == Kept(app, rows[..|rows| - 1]);
    }
  }

  /** For an application that keeps all values the group of a key is all values emitted for it, row by row. */
  lemma GroupMeaning(app: App, rows: seq<seq<Pair>>, nodes: seq<seq<KeyVals>>, out: seq<Group>, j: nat)
    requires app.KeepsAll() && Lists(app, rows, nodes) && Grouped(app, nodes, out) && j < |out|
    ensures out[j].vals == ValuesOf(Flat(rows), out[j].key)
  {
    RowValsKept(app, rows, nodes, out[j].key);
    JoinedIsFlat(app, RowValues(rows, out[j].key));
    FlatRowValues(rows, out[j].key);
  }

  /** For a reducing application the values handed on fold to the fold of all values emitted. */
  lemma ReduceMeaning(app: App, op: (Val, Val) -> Val, rows: seq<seq<Pair>>, nodes: seq<seq<KeyVals>>,
                      out: seq<Group>, j: nat)
    requires Commutative(op) && KeepsFold(app, op)
    requires Lists(app, rows, nodes) && Grouped(app, nodes, out) && j < |out|
    ensures |out[j].vals| > 0 && |ValuesOf(Flat(rows), out[j].key)| > 0
    ensures app.UsesVm() ==> |out[j].vals| == 1
    ensures Fold(op, out[j].vals) == Fold(op, ValuesOf(Flat(rows), out[j].key))
  {
    var k := out[j].key;
    GroupedKeys(app, rows, nodes, out, k);
    assert k in OutKeys(out);
    RowValsKept(app, rows, nodes, k);
    FlatRowValues(rows, k);
    ReducedValue(app, op, RowValues(rows, k));
  }

  /** Two sorted outputs with the same keys have the same keys at the same places. */
  lemma SameKeys(a: seq<Group>, b: seq<Group>)
    requires GroupsSorted(a) && GroupsSorted(b) && OutKeys(a) == OutKeys(b)
    ensures |a| == |b| && forall j :: 0 <= j < |a| ==> a[j].key == b[j].key
  {
    OutKeysSize(a);
    OutKeysSize(b);
    for n := 0 to |a|
      invariant forall i :: 0 <= i < n ==> a[i].key == b[i].key
    {
      KeyNotAbove(a, b, n);
      KeyNotAbove(b, a, n);
    }
  }

  lemma KeyNotAbove(a: seq<Group>, b: seq<Group>, n: nat)
    requires GroupsSorted(a) && GroupsSorted(b) && OutKeys(a) == OutKeys(b) && n < |a| == |b|
    requires forall i :: 0 <= i < n ==> a[i].key == b[i].key
    ensures b[n].key <= a[n].key
  {
    assert a[n].key in OutKeys(b);
    var i :| 0 <= i < |b| && b[i].key == a[n].key;
  }

  lemma {:induction false} OutKeysSize(a: seq<Group>)
    requires GroupsSorted(a)
    ensures |OutKeys(a)| == |a|
  {
    if a != [] {
      var init, last := a[..|a| - 1], a[|a| - 1];
      OutKeysSize(init);
      OutKeysStep(init, last);
      assert init + [last] == a;
      assert last.key !in OutKeys(init);
    }
  }

  lemma SameValues(arr: seq<Pair>, flat: seq<Pair>, k: Key)
    requires multiset(arr) == multiset(flat)
    ensures multiset(ValuesOf(arr, k)) == multiset(ValuesOf(flat, k)) && |ValuesOf(arr, k)| == |ValuesOf(flat, k)|
  {
    hide ValuesOf;
    ValuesOfOrder(arr, flat, k);
    assert |multiset(ValuesOf(arr, k))| == |ValuesOf(arr, k)| && |multiset(ValuesOf(flat, k))| == |ValuesOf(flat, k)|;
  }

  /** Merging the rows and sorting the flat pairs give the same keys. */
  lemma MergedKeysAreSorted(app: App, rows: seq<seq<Pair>>, nodes: seq<seq<KeyVals>>, out: seq<Group>,
                            arr: seq<Pair>, out': seq<Group>)
    requires Lists(app, rows, nodes) && Grouped(app, nodes, out)
    requires multiset(arr) == multiset(Flat(rows)) && SortGrouped(app, arr, out')
    ensures |out| == |out'| && forall j :: 0 <= j < |out| ==> out[j].key == out'[j].key
  {
    hide ValuesOf, Lists, KeptOf, Flat;
    forall k ensures k in OutKeys(out) <==> k in OutKeys(out') {
      GroupedKeys(app, rows, nodes, out, k);
      SameValues(arr, Flat(rows), k);
    }
    SameKeys(out, out');
  }

  /** If all values are kept the groups are the same up to the order of values. */
  lemma MergeIsSort(app: App, rows: seq<seq<Pair>>, nodes: seq<seq<KeyVals>>, out: seq<Group>,
                    arr: seq<Pair>, out': seq<Group>)
    requires app.KeepsAll() && Lists(app, rows, nodes) && Grouped(app, nodes, out)
    requires multiset(arr) == multiset(Flat(rows)) && SortGrouped(app, arr, out')
    ensures |out| == |out'|
    ensures forall j :: 0 <= j < |out| ==>
      out[j].key == out'[j].key && multiset(out[j].vals) == multiset(out'[j].vals)
  {
    hide ValuesOf, Lists, KeptOf, Flat, Grouped;
    MergedKeysAreSorted(app, rows, nodes, out, arr, out');
    forall j | 0 <= j < |out| ensures multiset(out[j].vals) == multiset(out'[j].vals) {
      GroupMeaning(app, rows, nodes, out, j);
      KeptIsAll(app, ValuesOf(arr, out'[j].key));
      SameValues(arr, Flat(rows), out[j].key);
    }
  }

  /** If they are modified or combined on the way they fold to the same value. */
  lemma MergeFoldsAsSort(app: App, op: (Val, Val) -> Val, rows: seq<seq<Pair>>, nodes: seq<seq<KeyVals>>,
                         out: seq<Group>,
                         arr: seq<Pair>, out': seq<Group>)
    requires Commutative(op) && KeepsFold(app, op) && Lists(app, rows, nodes) && Grouped(app, nodes, out)
    requires multiset(arr) == multiset(Flat(rows)) && SortGrouped(app, arr, out')
    ensures |out| == |out'|
    ensures forall j :: 0 <= j < |out| ==>
      && out[j].key == out'[j].key && |out[j].vals| > 0 && |out'[j].vals| > 0
      && Fold(op, out[j].vals) == Fold(op, out'[j].vals)
      && (app.UsesVm() ==> out[j].vals == out'[j].vals)
  {
    hide ValuesOf, Lists, KeptOf, Flat, Grouped, Fold;
    MergedKeysAreSorted(app, rows, nodes, out, arr, out');
    forall j | 0 <= j < |out|
      ensures |out[j].vals| > 0 && |out'[j].vals| > 0 && Fold(op, out[j].vals) == Fold(op, out'[j].vals)
      ensures app.UsesVm() ==> out[j].vals == out'[j].vals
    {
      var emitted, sorted := ValuesOf(Flat(rows), out[j].key), ValuesOf(arr, out[j].key);
      ReduceMeaning(app, op, rows, nodes, out, j);
      SameValues(arr, Flat(rows), out[j].key);
      FoldOrder(op, sorted, emitted);
      KeptFold(app, op, sorted);
      OneValue(op, out[j].vals);
      OneValue(op, out'[j].vals);
    }
  }

  lemma OneValue(op: (Val, Val) -> Val, vals: seq<Val>)
    ensures |vals| == 1 ==> vals == [Fold(op, vals)]
  {
  }
}
