/** Parallel sorting by regular sampling: benchmarks/metis/lib/psrs.c.

    Each phase between two barriers is one loop over CPUs.  In a phase a CPU writes only its own
    list, its own samples, its own row of cuts or its own part of the output; `SegmentsApart`
    says that the parts of the output do not overlap. */
module Psrs {
  import opened Common
  import opened Seqs

  ghost predicate Sorted(s: seq<Pair>) {
    forall i, j :: 0 <= i < j < |s| ==> s[i].key <= s[j].key
  }

  ghost predicate AllSorted(parts: seq<seq<Pair>>) {
    var whole := forall i :: 0 <= i < |parts| ==> Sorted(parts[i]);
    whole
  }

  // ------------------------------------------------------------- dividing the input

  function Width(total: nat, ncpus: nat): nat
    requires ncpus > 0
  {
    (total + ncpus - 1) / ncpus
  }

  /** The chunk of a CPU is [ChunkStart, ChunkEnd). */
  function ChunkStart(total: nat, ncpus: nat, lcpu: nat): nat
    requires ncpus > 0
  {
    Width(total, ncpus) * lcpu
  }

  function ChunkEnd(total: nat, ncpus: nat, lcpu: nat): nat
    requires ncpus > 0
  {
    var end := Width(total, ncpus) * (lcpu + 1);
    if end > total then total else end
  }

  /** Rounding up leaves less than one element for each CPU over. */
  lemma WidthBounds(total: nat, ncpus: nat)
    requires ncpus > 0
    ensures total <= Width(total, ncpus) * ncpus <= total + ncpus - 1
  {
  }

  /** When PSRS is used, every chunk is non-empty and the chunks tile the input. */
  lemma ChunksTile(total: nat, ncpus: nat, lcpu: nat)
    requires ncpus > 0 && total >= ncpus * ncpus * ncpus && lcpu < ncpus
    ensures ChunkStart(total, ncpus, lcpu) < ChunkEnd(total, ncpus, lcpu)
    ensures lcpu + 1 < ncpus ==> ChunkEnd(total, ncpus, lcpu) == ChunkStart(total, ncpus, lcpu + 1)
    ensures lcpu + 1 == ncpus ==> ChunkEnd(total, ncpus, lcpu) == total
    ensures ChunkStart(total, ncpus, 0) == 0
  {
    var w := Width(total, ncpus);
    WidthBounds(total, ncpus);
    StartBelow(total, ncpus, w, lcpu);
    if lcpu + 1 < ncpus {
      StartBelow(total, ncpus, w, lcpu + 1);
    }
  }

  lemma StartBelow(total: nat, n: nat, w: nat, l: nat)
    requires n > 0 && total >= n * n * n && l < n
    requires total <= w * n <= total + n - 1
    ensures w * l < total && w > 0
  {
    WideEnough(total, n, w);
    assert w * l <= w * (n - 1) by { Mono(w, l, n - 1); }
    assert w * (n - 1) == w * n - w;
  }

  lemma WideEnough(total: nat, n: nat, w: nat)
    requires n > 0 && total >= n * n * n && total <= w * n
    ensures w >= n
  {
    assert (n * n - 1) * n == n * n * n - n;
    Mono(n, n - 1, n * n - 1);
    if w < n {
      Mono(n, w, n - 1);
    }
  }

  lemma Mono(c: nat, a: int, b: int)
    requires a <= b
    ensures c * a <= c * b && a * c <= b * c
  {
  }

  function Max(a: int, b: int): int { if a < b then b else a }
  function Min(a: int, b: int): int { if a < b then a else b }

  /** The part of the elements of `c`, which have the indices from `glb` on, that lies in [a, b]. */
  method CopyOne(c: seq<Pair>, glbStart: nat, dstStart: nat, dstEnd: int, ghost s: seq<Pair>) returns (piece: seq<Pair>)
    requires dstStart <= dstEnd + 1 && |s| == glbStart
    ensures Within(s + c, dstStart, dstEnd) == Within(s, dstStart, dstEnd) + piece
  {
    piece := [];
    var len := |c|;
    if len != 0 {
      var glbEnd := glbStart + len - 1;
      if glbStart <= dstEnd && glbEnd >= dstStart {
        var locStart := Max(dstStart, glbStart) - glbStart;
        var locEnd := Min(dstEnd, glbEnd) - glbStart;
        piece := c[locStart..locEnd + 1];
      }
    }
  }

  /** `copy_elems`: the elements [dstStart, dstEnd] of all collections taken together. */
  method CopyElems(colls: seq<seq<Pair>>, dstStart: nat, dstEnd: int) returns (dest: seq<Pair>)
    requires dstStart <= dstEnd + 1 <= |Flat(colls)|
    ensures dest == Flat(colls)[dstStart..dstEnd + 1]
  {
    dest := [];
    var glbStart := 0;
    for i := 0 to |colls|
      invariant glbStart == |Flat(colls[..i])|
      invariant dest == Within(Flat(colls[..i]), dstStart, dstEnd)
    {
      assert colls[..i + 1][..i] == colls[..i];
      var piece := CopyOne(colls[i], glbStart, dstStart, dstEnd, Flat(colls[..i]));
      dest := dest + piece;
      glbStart := glbStart + |colls[i]|;
    }
    assert colls[..|colls|] == colls;
  }

  /** The part of a prefix of all elements that lies in [a, b]. */
  ghost function Within(s: seq<Pair>, a: nat, b: int): seq<Pair>
    requires a <= b + 1
  {
    if |s| <= a then [] else if |s| <= b then s[a..] else s[a..b + 1]
  }

  // -------------------------------------------------------------------- the pivots

  /** Selecting pivots in place: of the ncpus * (ncpus - 1) sorted samples every ncpus-th, into
      positions 1 to ncpus - 1. */
  method SelectPivots(pivots: array<Pair>, ncpus: nat)
    requires ncpus >= 2 && pivots.Length >= ncpus * (ncpus - 1) && pivots.Length >= ncpus
    requires Sorted(pivots[..ncpus * (ncpus - 1)])
    modifies pivots
    ensures pivots[0] == old(pivots[0])
    ensures forall i :: 0 < i < ncpus ==> Chosen(old(pivots[..]), i, ncpus, pivots[i])
    ensures Sorted(pivots[1..ncpus])
  {
    ghost var samples := pivots[..];
    for i := 0 to ncpus - 1
      invariant pivots[0] == samples[0]
      invariant forall j :: 0 < j <= i ==> Chosen(samples, j, ncpus, pivots[j])
      invariant forall j :: i < j < pivots.Length ==> pivots[j] == samples[j]
    {
      SampleBounds(i, ncpus);
      pivots[i + 1] := pivots[i * ncpus + ncpus / 2];
    }
    StillSorted(samples, pivots[..], ncpus);
    assert pivots[1..ncpus] == pivots[..][1..ncpus];
  }

  /** Pivot i is the sample in the middle of the i-th run of ncpus samples. */
  ghost predicate Chosen(samples: seq<Pair>, i: nat, ncpus: nat, pivot: Pair) {
    i > 0 && SampleAt(i - 1, ncpus) < |samples| && pivot == samples[SampleAt(i - 1, ncpus)]
  }

  lemma StillSorted(samples: seq<Pair>, pivots: seq<Pair>, ncpus: nat)
    requires ncpus >= 2 && |samples| >= ncpus * (ncpus - 1) && ncpus <= |pivots|
    requires Sorted(samples[..ncpus * (ncpus - 1)])
    requires forall i :: 0 < i < ncpus ==> Chosen(samples, i, ncpus, pivots[i])
    ensures Sorted(pivots[1..ncpus])
  {
    var m := ncpus * (ncpus - 1);
    forall i, j | 0 <= i < j < ncpus - 1 ensures pivots[1..ncpus][i].key <= pivots[1..ncpus][j].key {
      assert Chosen(samples, i + 1, ncpus, pivots[i + 1]) && Chosen(samples, j + 1, ncpus, pivots[j + 1]);
      SampleOrder(i, j, ncpus);
      SampleBounds(j, ncpus);
      assert samples[..m][SampleAt(i, ncpus)].key <= samples[..m][SampleAt(j, ncpus)].key;
    }
  }

  function SampleAt(i: nat, ncpus: nat): nat { i * ncpus + ncpus / 2 }

  lemma SampleBounds(i: nat, n: nat)
    requires n >= 2 && i < n - 1
    ensures i < SampleAt(i, n) < n * (n - 1)
  {
    assert i * n >= i;
    assert i * n <= (n - 2) * n;
    assert (n - 2) * n + n == n * (n - 1);
  }

  lemma SampleOrder(i: nat, j: nat, n: nat)
    requires i < j
    ensures SampleAt(i, n) <= SampleAt(j, n)
  {
    assert i * n <= j * n;
  }

  // ----------------------------------------------------------- merging a partition

  ghost function First(s: seq<Pair>, n: nat): seq<Pair> { if n <= |s| then s[..n] else s }

  /** How often `x` occurs in the first pos[i] elements of the first k parts. */
  ghost function Taken(parts: seq<seq<Pair>>, pos: seq<nat>, k: nat, x: Pair): nat
    requires k <= |parts| == |pos|
  {
    if k == 0 then 0 else Taken(parts, pos, k - 1, x) + Count(First(parts[k - 1], pos[k - 1]), x)
  }

  function SumPos(pos: seq<nat>): nat {
    if pos == [] then 0 else SumPos(pos[..|pos| - 1]) + pos[|pos| - 1]
  }

  function Lengths(parts: seq<seq<Pair>>): (r: seq<nat>)
    ensures |r| == |parts| && forall i :: 0 <= i < |parts| ==> r[i] == |parts[i]|
  {
    if parts == [] then [] else Lengths(parts[..|parts| - 1]) + [|parts[|parts| - 1]|]
  }

  lemma {:induction false} SumPosSet(pos: seq<nat>, i: nat, v: nat)
    requires i < |pos|
    ensures SumPos(pos[i := v]) == SumPos(pos) - pos[i] + v
  {
    var n := |pos| - 1;
    if i == n {
      assert pos[i := v][..n] == pos[..n];
    } else {
      assert pos[i := v][..n] == pos[..n][i := v];
      SumPosSet(pos[..n], i, v);
    }
  }

  lemma {:induction false} SumPosBelow(pos: seq<nat>, lens: seq<nat>)
    requires |pos| == |lens| && forall i :: 0 <= i < |pos| ==> pos[i] <= lens[i]
    ensures SumPos(pos) <= SumPos(lens)
    ensures SumPos(pos) == SumPos(lens) ==> pos == lens
  {
    if pos != [] {
      SumPosBelow(pos[..|pos| - 1], lens[..|lens| - 1]);
    }
  }

  lemma {:induction false} TakenSame(parts: seq<seq<Pair>>, pos: seq<nat>, i: nat, v: nat, k: nat, x: Pair)
    requires k <= i < |parts| == |pos|
    ensures Taken(parts, pos[i := v], k, x) == Taken(parts, pos, k, x)
  {
    if k > 0 {
      TakenSame(parts, pos, i, v, k - 1, x);
    }
  }

  lemma {:induction false} TakenStep(parts: seq<seq<Pair>>, pos: seq<nat>, i: nat, k: nat, x: Pair)
    requires i < |parts| == |pos| && k <= |parts| && pos[i] < |parts[i]|
    ensures Taken(parts, pos[i := pos[i] + 1], k, x)
         == Taken(parts, pos, k, x) + (if i < k && parts[i][pos[i]] == x then 1 else 0)
  {
    hide Count;
    if k > 0 {
      if i == k - 1 {
        TakenSame(parts, pos, i, pos[i] + 1, k - 1, x);
        assert parts[i][..pos[i] + 1] == parts[i][..pos[i]] + [parts[i][pos[i]]];
        CountMore(parts[i][..pos[i]], parts[i][pos[i]], x);
      } else {
        TakenStep(parts, pos, i, k - 1, x);
      }
    }
  }

  /** The state of the merge: what was taken from the parts is in `out`, in order, and nothing
      left is below it. */
  ghost predicate Merging(parts: seq<seq<Pair>>, pos: seq<nat>, out: seq<Pair>) {
    var whole :=
      && |pos| == |parts| && (forall i :: 0 <= i < |parts| ==> pos[i] <= |parts[i]|)
      && |out| == SumPos(pos) && Sorted(out)
      && (forall t, i :: 0 <= t < |out| && 0 <= i < |parts| && pos[i] < |parts[i]| ==>
        out[t].key <= parts[i][pos[i]].key)
      && SameCount(parts, pos, out);
    whole
  }

  /** The inner loop of `mergesort`: the part whose next element is least, the first of them. */
  method MinPart(parts: seq<seq<Pair>>, pos: seq<nat>) returns (minIdx: nat)
    requires |pos| == |parts| && exists i :: 0 <= i < |parts| && pos[i] < |parts[i]|
    ensures minIdx < |parts| && pos[minIdx] < |parts[minIdx]|
    ensures forall i :: 0 <= i < |parts| && pos[i] < |parts[i]| ==>
      parts[minIdx][pos[minIdx]].key <= parts[i][pos[i]].key
  {
    minIdx := 0;
    var found := false;
    for i := 0 to |parts|
      invariant found ==> minIdx < i && pos[minIdx] < |parts[minIdx]|
      invariant found ==> forall j :: 0 <= j < i && pos[j] < |parts[j]| ==>
        parts[minIdx][pos[minIdx]].key <= parts[j][pos[j]].key
      invariant !found ==> forall j :: 0 <= j < i ==> pos[j] >= |parts[j]|
    {
      if pos[i] >= |parts[i]| {
        continue;
      }
      if !found || parts[minIdx][pos[minIdx]].key > parts[i][pos[i]].key {
        found := true;
        minIdx := i;
      }
    }
  }

  ghost predicate SameCount(parts: seq<seq<Pair>>, pos: seq<nat>, out: seq<Pair>)
    requires |pos| == |parts|
  {
    var whole := forall x :: Count(out, x) == Taken(parts, pos, |parts|, x);
    whole
  }

  lemma MergeCount(parts: seq<seq<Pair>>, pos: seq<nat>, out: seq<Pair>, m: nat)
    requires |pos| == |parts| && SameCount(parts, pos, out) && m < |parts| && pos[m] < |parts[m]|
    ensures SameCount(parts, pos[m := pos[m] + 1], out + [parts[m][pos[m]]])
  {
    forall x ensures Count(out + [parts[m][pos[m]]], x) == Taken(parts, pos[m := pos[m] + 1], |parts|, x) {
      TakenStep(parts, pos, m, |parts|, x);
      CountConcat(out, [parts[m][pos[m]]], x);
      assert [parts[m][pos[m]]][..0] == [];
    }
  }

  lemma MergeStep(parts: seq<seq<Pair>>, pos: seq<nat>, out: seq<Pair>, m: nat)
    requires Merging(parts, pos, out) && AllSorted(parts)
    requires m < |parts| && pos[m] < |parts[m]|
    requires forall i :: 0 <= i < |parts| && pos[i] < |parts[i]| ==> parts[m][pos[m]].key <= parts[i][pos[i]].key
    ensures Merging(parts, pos[m := pos[m] + 1], out + [parts[m][pos[m]]])
  {
    hide SameCount, SumPos;
    SumPosSet(pos, m, pos[m] + 1);
    MergeCount(parts, pos, out, m);
    assert Sorted(parts[m]);
  }

  /** The `memcpy` of one element. */
  method Append(out: array<Pair>, start: nat, n: nat, x: Pair)
    requires start + n < out.Length
    modifies out
    ensures out[start..start + n + 1] == old(out[start..start + n]) + [x]
    ensures forall t :: 0 <= t < out.Length && t != start + n ==> out[t] == old(out[t])
  {
    out[start + n] := x;
  }

  lemma MergingSize(parts: seq<seq<Pair>>, pos: seq<nat>, out: seq<Pair>)
    requires Merging(parts, pos, out)
    ensures |pos| == |parts| && |out| == SumPos(pos)
  {
  }

  /** As long as elements are missing some part has one left. */
  lemma NotAllTaken(parts: seq<seq<Pair>>, pos: seq<nat>, out: seq<Pair>)
    requires Merging(parts, pos, out) && |out| < SumPos(Lengths(parts))
    ensures |pos| == |parts| && exists i :: 0 <= i < |parts| && pos[i] < |parts[i]|
  {
    SumPosBelow(pos, Lengths(parts));
    assert pos != Lengths(parts);
  }

  /** The static `mergesort`: the `npairs` least elements of the parts, in order, are written to
      out[start..]. */
  method MergeSort(parts: seq<seq<Pair>>, npairs: nat, out: array<Pair>, start: nat)
    returns (ghost pos: seq<nat>, ghost merged: seq<Pair>)
    requires AllSorted(parts) && npairs <= SumPos(Lengths(parts))
    requires start + npairs <= out.Length
    modifies out
    ensures SumPos(pos) == npairs && Merging(parts, pos, merged)
    ensures out[..start + npairs] == old(out[..start]) + merged
    ensures forall t :: start + npairs <= t < out.Length ==> out[t] == old(out[t])
  {
    hide Merging, AllSorted, SumPos, Lengths;
    var taskPos: seq<nat> := seq(|parts|, _ => 0);
    var nsorted := 0;
    assert out[start..start] == [];
    NothingTaken(parts, taskPos);
    while nsorted < npairs
      invariant nsorted <= npairs && Merging(parts, taskPos, out[start..start + nsorted])
      invariant forall t :: 0 <= t < start || start + nsorted <= t < out.Length ==> out[t] == old(out[t])
    {
      NotAllTaken(parts, taskPos, out[start..start + nsorted]);
      var minIdx := MinPart(parts, taskPos);
      MergeStep(parts, taskPos, out[start..start + nsorted], minIdx);
      Append(out, start, nsorted, parts[minIdx][taskPos[minIdx]]);
      taskPos := taskPos[minIdx := taskPos[minIdx] + 1];
      nsorted := nsorted + 1;
    }
    pos, merged := taskPos, out[start..start + nsorted];
    MergingSize(parts, pos, merged);
    Joint(out[..], old(out[..start]), start, start + nsorted);
  }

  lemma Joint(out: seq<Pair>, before: seq<Pair>, start: nat, end: nat)
    requires start <= end <= |out| && |before| == start && forall t :: 0 <= t < start ==> out[t] == before[t]
    ensures out[..end] == before + out[start..end]
  {
  }

  lemma {:induction false} ZeroSum(pos: seq<nat>)
    requires forall i :: 0 <= i < |pos| ==> pos[i] == 0
    ensures SumPos(pos) == 0
  {
    if pos != [] {
      ZeroSum(pos[..|pos| - 1]);
    }
  }

  lemma {:induction false} ZeroTaken(parts: seq<seq<Pair>>, pos: seq<nat>, k: nat, x: Pair)
    requires k <= |parts| == |pos| && forall i :: 0 <= i < |pos| ==> pos[i] == 0
    ensures Taken(parts, pos, k, x) == 0
  {
    if k > 0 {
      ZeroTaken(parts, pos, k - 1, x);
    }
  }

  lemma NothingTaken(parts: seq<seq<Pair>>, pos: seq<nat>)
    requires |pos| == |parts| && forall i :: 0 <= i < |pos| ==> pos[i] == 0
    ensures Merging(parts, pos, [])
  {
    ZeroSum(pos);
    forall x ensures Taken(parts, pos, |parts|, x) == 0 {
      ZeroTaken(parts, pos, |parts|, x);
    }
  }

  // ------------------------------------------------------------- all partitions

  /** cuts[l][i] is where CPU i cuts its list for partition l. */
  ghost predicate AreCuts(lists: seq<seq<Pair>>, cuts: seq<seq<nat>>) {
    var n := |lists|;
    var whole :=
      && |cuts| == n + 1 && (forall l :: 0 <= l <= n ==> |cuts[l]| == n)
      && (forall i :: 0 <= i < n ==> cuts[0][i] == 0)
      && (forall i :: 0 <= i < n ==> cuts[n][i] == |lists[i]|)
      && (forall l, i :: 0 <= l <= n && 0 <= i < n ==> cuts[l][i] <= |lists[i]|);
    whole
  }

  /** The cuts of every list come in order: they divide it into consecutive pieces. */
  ghost predicate CutsTile(lists: seq<seq<Pair>>, cuts: seq<seq<nat>>) {
    var whole :=
      && AreCuts(lists, cuts)
      && (forall l, m, i :: 0 <= l <= m <= |lists| && 0 <= i < |lists| ==> cuts[l][i] <= cuts[m][i]);
    whole
  }

  /** As the source documents them: cut l is the first element greater than pivot l. */
  ghost predicate CutsUpper(lists: seq<seq<Pair>>, cuts: seq<seq<nat>>, pivots: seq<Pair>)
    requires CutsTile(lists, cuts) && |pivots| >= |lists|
  {
    var whole :=
      forall i, l, t :: 0 <= i < |lists| && 0 < l < |lists| && 0 <= t < |lists[i]| ==>
        (t < cuts[l][i] <==> lists[i][t].key <= pivots[l].key);
    whole
  }

  /** A merge takes nothing from a list whose cuts are the wrong way round. */
  function Piece(list: seq<Pair>, a: nat, b: nat): seq<Pair> { if a <= b <= |list| then list[a..b] else [] }

  function Pieces(lists: seq<seq<Pair>>, a: seq<nat>, b: seq<nat>): (parts: seq<seq<Pair>>)
    requires |a| == |b| == |lists|
  {
    seq(|lists|, i requires 0 <= i < |lists| => Piece(lists[i], a[i], b[i]))
  }

  // ------------------------------------------------- sizes and places of the partitions

  /** How far apart two columns of cuts are, over the first k lists. */
  ghost function Apart(a: seq<nat>, b: seq<nat>, k: nat): int
    requires k <= |a| == |b|
  {
    if k == 0 then 0 else Apart(a, b, k - 1) + b[k - 1] - a[k - 1]
  }

  lemma {:induction false} ApartIs(a: seq<nat>, b: seq<nat>)
    requires |a| == |b|
    ensures Apart(a, b, |a|) == SumPos(b) - SumPos(a)
  {
    if a != [] {
      var n := |a| - 1;
      ApartIs(a[..n], b[..n]);
      ApartPrefix(a, b, n, n);
    }
  }

  lemma {:induction false} ApartPrefix(a: seq<nat>, b: seq<nat>, n: nat, k: nat)
    requires k <= n <= |a| == |b|
    ensures Apart(a[..n], b[..n], k) == Apart(a, b, k)
  {
    if k > 0 {
      ApartPrefix(a, b, n, k - 1);
    }
  }

  /** `partsize` of CPU l, which is negative if more cuts go back than forward. */
  method PartSize(cuts: seq<seq<nat>>, l: nat, ncpus: nat) returns (partsize: int)
    requires l + 1 < |cuts| && |cuts[l]| == |cuts[l + 1]| == ncpus
    ensures partsize == SumPos(cuts[l + 1]) - SumPos(cuts[l])
  {
    partsize := 0;
    for i := 0 to ncpus
      invariant partsize == Apart(cuts[l], cuts[l + 1], i)
    {
      var start, end := cuts[l][i], cuts[l + 1][i];
      partsize := partsize + end - start;
    }
    ApartIs(cuts[l], cuts[l + 1]);
  }

  /** The sizes of the partitions before l add up to the cuts for l: `start_pos`. */
  method StartPos(partsize: seq<int>, l: nat, ghost cuts: seq<seq<nat>>) returns (startPos: int)
    requires l <= |partsize| < |cuts| && SumPos(cuts[0]) == 0
    requires forall m :: 0 <= m < |partsize| ==> partsize[m] == SumPos(cuts[m + 1]) - SumPos(cuts[m])
    ensures startPos == SumPos(cuts[l])
  {
    startPos := 0;
    for m := 0 to l
      invariant startPos == SumPos(cuts[m])
    {
      startPos := startPos + partsize[m];
    }
  }

  // --------------------------------------------------------------------- the last phase

  /** Some of the elements of the parts, in order, none of those left out below them. */
  ghost predicate Least(parts: seq<seq<Pair>>, out: seq<Pair>) {
    exists pos: seq<nat> :: SumPos(pos) == |out| && Merging(parts, pos, out)
  }

  /** Partition l lies behind those before it. */
  ghost predicate Segment(lists: seq<seq<Pair>>, cuts: seq<seq<nat>>, l: nat, out: seq<Pair>) {
    && l + 1 < |cuts| && |cuts[l]| == |cuts[l + 1]| == |lists|
    && SumPos(cuts[l]) <= SumPos(cuts[l + 1]) <= |out|
    && Least(Pieces(lists, cuts[l], cuts[l + 1]), out[SumPos(cuts[l])..SumPos(cuts[l + 1])])
  }

  /** The first m partitions make up `out`. */
  ghost predicate Segments(lists: seq<seq<Pair>>, cuts: seq<seq<nat>>, m: nat, out: seq<Pair>) {
    && m < |cuts| && |out| == SumPos(cuts[m])
    && forall l :: 0 <= l < m ==> Segment(lists, cuts, l, out)
  }

  /** No partition has a negative size. */
  ghost predicate Forward(cuts: seq<seq<nat>>) {
    forall l :: 0 <= l < |cuts| - 1 ==> SumPos(cuts[l]) <= SumPos(cuts[l + 1])
  }

  lemma SegmentsMore(lists: seq<seq<Pair>>, cuts: seq<seq<nat>>, m: nat, out: seq<Pair>, more: seq<Pair>)
    requires Segments(lists, cuts, m, out) && m + 1 < |cuts| && |cuts[m]| == |cuts[m + 1]| == |lists|
    requires Least(Pieces(lists, cuts[m], cuts[m + 1]), more)
    requires |out + more| == SumPos(cuts[m + 1])
    ensures Segments(lists, cuts, m + 1, out + more)
  {
    hide Least, Pieces, SumPos;
    var all := out + more;
    forall l | 0 <= l < m + 1 ensures Segment(lists, cuts, l, all) {
      if l < m {
        assert Segment(lists, cuts, l, out);
        assert all[SumPos(cuts[l])..SumPos(cuts[l + 1])] == out[SumPos(cuts[l])..SumPos(cuts[l + 1])];
      } else {
        assert all[SumPos(cuts[m])..SumPos(cuts[m + 1])] == more;
      }
    }
  }

  lemma {:induction false} SumWithin(a: seq<nat>, b: seq<nat>, lens: seq<nat>)
    requires |a| == |b| == |lens| && forall i :: 0 <= i < |a| ==> b[i] <= a[i] + lens[i]
    ensures SumPos(b) - SumPos(a) <= SumPos(lens)
    ensures (forall i :: 0 <= i < |a| ==> b[i] == a[i] + lens[i]) ==> SumPos(b) - SumPos(a) == SumPos(lens)
  {
    if a != [] {
      var n := |a| - 1;
      SumWithin(a[..n], b[..n], lens[..n]);
    }
  }

  /** A partition is not larger than its pieces, and as large if all of them go forward. */
  lemma SumApart(lists: seq<seq<Pair>>, a: seq<nat>, b: seq<nat>, parts: seq<seq<Pair>>)
    requires |a| == |b| == |lists| == |parts| && forall i :: 0 <= i < |lists| ==> b[i] <= |lists[i]|
    requires forall i :: 0 <= i < |lists| ==> parts[i] == Piece(lists[i], a[i], b[i])
    ensures SumPos(b) - SumPos(a) <= SumPos(Lengths(parts))
    ensures (forall i :: 0 <= i < |a| ==> a[i] <= b[i]) ==> SumPos(b) - SumPos(a) == SumPos(Lengths(parts))
  {
    hide SumPos, Lengths;
    SumWithin(a, b, Lengths(parts));
  }

  lemma SortedPieces(lists: seq<seq<Pair>>, a: seq<nat>, b: seq<nat>)
    requires |a| == |b| == |lists| && AllSorted(lists)
    ensures AllSorted(Pieces(lists, a, b))
  {
  }

  lemma SortedSlice(s: seq<Pair>, a: nat, b: nat)
    requires Sorted(s) && a <= b <= |s|
    ensures Sorted(s[a..b])
  {
  }

  /** There is room for every partition. */
  lemma CutsBelow(lists: seq<seq<Pair>>, cuts: seq<seq<nat>>, l: nat)
    requires AreCuts(lists, cuts) && l <= |lists|
    ensures SumPos(cuts[l]) <= SumPos(Lengths(lists)) && SumPos(cuts[0]) == 0
    ensures SumPos(cuts[|lists|]) == SumPos(Lengths(lists))
  {
    SumPosBelow(cuts[l], Lengths(lists));
    ZeroSum(cuts[0]);
    assert cuts[|lists|] == Lengths(lists);
  }

  /** What CPU l does in the last phase: it merges its partition into the output, behind the
      partitions of the CPUs before it. */
  method MergePartition(lists: seq<seq<Pair>>, cuts: seq<seq<nat>>, l: nat, partsize: nat, output: array<Pair>,
                        startPos: nat)
    requires AreCuts(lists, cuts) && AllSorted(lists)
    requires output.Length == SumPos(Lengths(lists)) && l < |lists|
    requires startPos == SumPos(cuts[l]) && partsize == SumPos(cuts[l + 1]) - SumPos(cuts[l])
    requires startPos + partsize <= output.Length && Segments(lists, cuts, l, output[..startPos])
    modifies output
    ensures Segments(lists, cuts, l + 1, output[..startPos + partsize])
  {
    hide Merging, Segments, Sorted, AllSorted, SumPos;
    var parts := Pieces(lists, cuts[l], cuts[l + 1]);
    SumApart(lists, cuts[l], cuts[l + 1], parts);
    SortedPieces(lists, cuts[l], cuts[l + 1]);
    ghost var before := output[..startPos];
    ghost var pos, merged := MergeSort(parts, partsize, output, startPos);
    assert |before + merged| == |output[..startPos + partsize]|;
    SegmentsMore(lists, cuts, l, before, merged);
  }

  method PartSizes(lists: seq<seq<Pair>>, cuts: seq<seq<nat>>) returns (partsize: seq<int>)
    requires AreCuts(lists, cuts)
    ensures |partsize| == |lists|
    ensures forall l :: 0 <= l < |lists| ==> partsize[l] == SumPos(cuts[l + 1]) - SumPos(cuts[l])
  {
    partsize := [];
    for l := 0 to |lists|
      invariant |partsize| == l
      invariant forall m :: 0 <= m < l ==> partsize[m] == SumPos(cuts[m + 1]) - SumPos(cuts[m])
    {
      var size := PartSize(cuts, l, |lists|);
      partsize := partsize + [size];
    }
  }

  /** The last phase of `psrs`.  A partition of negative size is more than any number of elements
      to the loop of `mergesort`, and nothing is said of what follows. */
  method MergePartitions(lists: seq<seq<Pair>>, cuts: seq<seq<nat>>, total: nat) returns (ok: bool, output: array<Pair>)
    requires AreCuts(lists, cuts) && AllSorted(lists) && total == SumPos(Lengths(lists))
    ensures fresh(output) && output.Length == total
    ensures ok <==> Forward(cuts)
    ensures ok ==> Segments(lists, cuts, |lists|, output[..])
  {
    hide Segment, SumPos, AllSorted, Lengths;
    ok, output := true, new Pair[total](_ => Pair(0.0, 0, 0));
    var partsize := PartSizes(lists, cuts);
    assert output[..0] == [];
    CutsBelow(lists, cuts, 0);
    for l := 0 to |lists|
      invariant SumPos(cuts[l]) <= total && Segments(lists, cuts, l, output[..SumPos(cuts[l])])
      invariant forall m :: 0 <= m < l ==> SumPos(cuts[m]) <= SumPos(cuts[m + 1])
    {
      if partsize[l] < 0 {
        assert !(SumPos(cuts[l]) <= SumPos(cuts[l + 1]));
        ok := false;
        return;
      }
      CutsBelow(lists, cuts, l + 1);
      var startPos := StartPos(partsize, l, cuts);
      MergePartition(lists, cuts, l, partsize[l], output, startPos);
    }
    assert output[..total] == output[..];
  }

  /** No two CPUs write the same place. */
  lemma {:induction false} SegmentsApart(lists: seq<seq<Pair>>, cuts: seq<seq<nat>>, n: nat, out: seq<Pair>, l: nat,
                                         m: nat)
    requires Segments(lists, cuts, n, out) && l < m < n
    ensures SumPos(cuts[l]) <= SumPos(cuts[l + 1]) <= SumPos(cuts[m]) <= SumPos(cuts[m + 1]) <= |out|
  {
    assert Segment(lists, cuts, l, out) && Segment(lists, cuts, m, out);
    if l + 1 < m {
      SegmentsApart(lists, cuts, n, out, l, m - 1);
    }
  }

  // ------------------------------------------------------------ what the output holds

  /** `out` holds what lies before the positions `pos` of the lists. */
  ghost predicate Holds(lists: seq<seq<Pair>>, pos: seq<nat>, out: seq<Pair>) {
    var whole :=
      && |pos| == |lists| && (forall i :: 0 <= i < |lists| ==> pos[i] <= |lists[i]|)
      && |out| == SumPos(pos)
      && SameCount(lists, pos, out);
    whole
  }

  /** The positions a and b delimit a piece of each list. */
  ghost predicate Delimit(lists: seq<seq<Pair>>, a: seq<nat>, b: seq<nat>) {
    var whole := |a| == |b| == |lists| && forall i :: 0 <= i < |lists| ==> a[i] <= b[i] <= |lists[i]|;
    whole
  }

  lemma {:induction false} TakenAdd(lists: seq<seq<Pair>>, a: seq<nat>, b: seq<nat>, parts: seq<seq<Pair>>, k: nat,
                                    x: Pair)
    requires Delimit(lists, a, b) && parts == Pieces(lists, a, b) && k <= |lists|
    ensures Taken(lists, b, k, x) == Taken(lists, a, k, x) + Taken(parts, Lengths(parts), k, x)
  {
    hide Count, First;
    if k > 0 {
      TakenAdd(lists, a, b, parts, k - 1, x);
      OnePiece(lists[k - 1], a[k - 1], b[k - 1], parts[k - 1], x);
    }
  }

  lemma OnePiece(list: seq<Pair>, a: nat, b: nat, part: seq<Pair>, x: Pair)
    requires a <= b <= |list| && part == list[a..b]
    ensures Count(First(list, b), x) == Count(First(list, a), x) + Count(First(part, |part|), x)
  {
    assert part[..|part|] == part;
    assert list[..b] == list[..a] + part;
    CountConcat(list[..a], part, x);
  }

  /** A partition of full size takes all of its pieces. */
  lemma AllMerged(lists: seq<seq<Pair>>, a: seq<nat>, b: seq<nat>, out: seq<Pair>)
    requires Delimit(lists, a, b) && |out| == SumPos(b) - SumPos(a) && Least(Pieces(lists, a, b), out)
    ensures var parts := Pieces(lists, a, b); Merging(parts, Lengths(parts), out)
  {
    var parts := Pieces(lists, a, b);
    SumApart(lists, a, b, parts);
    var pos: seq<nat> :| SumPos(pos) == |out| && Merging(parts, pos, out);
    SumPosBelow(pos, Lengths(parts));
  }

  lemma HoldsStep(lists: seq<seq<Pair>>, a: seq<nat>, b: seq<nat>, out: seq<Pair>, more: seq<Pair>)
    requires Delimit(lists, a, b) && Holds(lists, a, out)
    requires |more| == SumPos(b) - SumPos(a) && Least(Pieces(lists, a, b), more)
    ensures Holds(lists, b, out + more)
  {
    hide SumPos, Sorted, Least;
    var parts := Pieces(lists, a, b);
    AllMerged(lists, a, b, more);
    forall x ensures Count(out + more, x) == Taken(lists, b, |lists|, x) {
      CountConcat(out, more, x);
      TakenAdd(lists, a, b, parts, |lists|, x);
    }
  }

  lemma NoneHeld(lists: seq<seq<Pair>>, pos: seq<nat>)
    requires |pos| == |lists| && forall i :: 0 <= i < |lists| ==> pos[i] == 0
    ensures Holds(lists, pos, [])
  {
    ZeroSum(pos);
    forall x ensures Taken(lists, pos, |lists|, x) == 0 {
      ZeroTaken(lists, pos, |lists|, x);
    }
  }

  lemma DelimitAt(lists: seq<seq<Pair>>, cuts: seq<seq<nat>>, l: nat)
    requires CutsTile(lists, cuts) && l < |lists|
    ensures |cuts| == |lists| + 1 && Delimit(lists, cuts[l], cuts[l + 1])
  {
  }

  lemma TileCuts(lists: seq<seq<Pair>>, cuts: seq<seq<nat>>)
    requires CutsTile(lists, cuts)
    ensures AreCuts(lists, cuts) && |cuts| == |lists| + 1
    ensures forall l :: 0 <= l <= |lists| ==> |cuts[l]| == |lists|
    ensures forall i :: 0 <= i < |lists| ==> cuts[0][i] == 0
  {
  }

  /** If the cuts of every list come in order, the partitions before l hold exactly what lies
      before the cuts for l. */
  lemma {:induction false} PrefixHolds(lists: seq<seq<Pair>>, cuts: seq<seq<nat>>, out: seq<Pair>, l: nat)
    requires CutsTile(lists, cuts) && Segments(lists, cuts, |lists|, out) && l <= |lists|
    ensures SumPos(cuts[l]) <= |out| && Holds(lists, cuts[l], out[..SumPos(cuts[l])])
  {
    hide Holds, SumPos, Least, Pieces, AreCuts, Lengths;
    TileCuts(lists, cuts);
    CutsBelow(lists, cuts, l);
    if l == 0 {
      NoneHeld(lists, cuts[0]);
    } else {
      PrefixHolds(lists, cuts, out, l - 1);
      DelimitAt(lists, cuts, l - 1);
      assert Segment(lists, cuts, l - 1, out);
      var a, b := SumPos(cuts[l - 1]), SumPos(cuts[l]);
      HoldsStep(lists, cuts[l - 1], cuts[l], out[..a], out[a..b]);
      assert out[..a] + out[a..b] == out[..b];
    }
  }

  /** All of it. */
  lemma AllHeld(lists: seq<seq<Pair>>, cuts: seq<seq<nat>>, out: seq<Pair>)
    requires CutsTile(lists, cuts) && Segments(lists, cuts, |lists|, out)
    ensures Holds(lists, Lengths(lists), out)
  {
    hide Holds, SumPos, Segment;
    PrefixHolds(lists, cuts, out, |lists|);
    assert cuts[|lists|] == Lengths(lists);
    assert out[..|out|] == out;
  }

  // ------------------------------------------------------------ when the output is sorted

  lemma {:induction false} TakenSome(parts: seq<seq<Pair>>, pos: seq<nat>, k: nat, x: Pair) returns (i: nat, t: nat)
    requires k <= |parts| == |pos| && (forall i :: 0 <= i < |parts| ==> pos[i] <= |parts[i]|)
    requires Taken(parts, pos, k, x) > 0
    ensures i < k && t < pos[i] && parts[i][t] == x
  {
    var last := parts[k - 1][..pos[k - 1]];
    CountSome(last, x);
    if Count(last, x) > 0 {
      i := k - 1;
      t :| 0 <= t < |last| && last[t] == x;
    } else {
      i, t := TakenSome(parts, pos, k - 1, x);
    }
  }

  lemma {:induction false} TakenMore(lists: seq<seq<Pair>>, a: seq<nat>, b: seq<nat>, k: nat, j: nat, u: nat)
    requires Delimit(lists, a, b) && k <= |lists| && j < |lists| && a[j] <= u < b[j]
    ensures Taken(lists, a, k, lists[j][u]) + (if j < k then 1 else 0) <= Taken(lists, b, k, lists[j][u])
  {
    hide Count, First;
    if k > 0 {
      TakenMore(lists, a, b, k - 1, j, u);
      PieceMore(lists[k - 1], a[k - 1], b[k - 1], lists[j][u], if j == k - 1 then u else a[k - 1]);
    }
  }

  lemma PieceMore(list: seq<Pair>, a: nat, b: nat, x: Pair, u: nat)
    requires a <= b <= |list|
    ensures Count(First(list, a), x) + (if a <= u < b && list[u] == x then 1 else 0) <= Count(First(list, b), x)
  {
    assert list[..b] == list[..a] + list[a..b];
    CountConcat(list[..a], list[a..b], x);
    CountSome(list[a..b], x);
    if a <= u < b {
      assert list[a..b][u - a] == list[u];
    }
  }

  /** What was taken from a list is in the output, and the other way round. */
  lemma FromHeld(lists: seq<seq<Pair>>, pos: seq<nat>, out: seq<Pair>, p: nat) returns (i: nat, t: nat)
    requires |pos| == |lists| && SameCount(lists, pos, out) && p < |out|
    requires forall i :: 0 <= i < |lists| ==> pos[i] <= |lists[i]|
    ensures i < |lists| && t < pos[i] && lists[i][t] == out[p]
  {
    CountSome(out, out[p]);
    assert Taken(lists, pos, |lists|, out[p]) > 0;
    i, t := TakenSome(lists, pos, |lists|, out[p]);
  }

  /** What lies before the positions is not greater than what lies behind them. */
  ghost predicate Below(lists: seq<seq<Pair>>, pos: seq<nat>)
    requires |pos| == |lists|
  {
    var whole :=
      forall i, t, j, u :: 0 <= i < |lists| && 0 <= t < |lists[i]| && 0 <= j < |lists| && 0 <= u < |lists[j]| ==>
        t < pos[i] && pos[j] <= u ==> lists[i][t].key <= lists[j][u].key;
    whole
  }

  /** Every cut separates what is before it, in all lists, from what is behind it. */
  ghost predicate Separated(lists: seq<seq<Pair>>, cuts: seq<seq<nat>>)
    requires AreCuts(lists, cuts)
  {
    forall l :: 0 <= l <= |lists| ==> Below(lists, cuts[l])
  }

  /** The documented cuts do. */
  lemma UpperSeparates(lists: seq<seq<Pair>>, cuts: seq<seq<nat>>, pivots: seq<Pair>)
    requires CutsTile(lists, cuts) && |pivots| >= |lists| && CutsUpper(lists, cuts, pivots)
    ensures Separated(lists, cuts)
  {
  }

  /** The elements behind a cut come behind the partitions before it. */
  lemma Behind(lists: seq<seq<Pair>>, pos: seq<nat>, out: seq<Pair>, j: nat, u: nat) returns (q: nat)
    requires Holds(lists, Lengths(lists), out) && SumPos(pos) <= |out| && Holds(lists, pos, out[..SumPos(pos)])
    requires j < |lists| && pos[j] <= u < |lists[j]|
    ensures SumPos(pos) <= q < |out| && out[q] == lists[j][u]
  {
    hide SumPos, Count, Taken, Lengths, First;
    var n, x := SumPos(pos), lists[j][u];
    assert Delimit(lists, pos, Lengths(lists));
    TakenMore(lists, pos, Lengths(lists), |lists|, j, u);
    assert out == out[..n] + out[n..];
    CountConcat(out[..n], out[n..], x);
    CountSome(out[n..], x);
    assert Count(out, x) == Taken(lists, Lengths(lists), |lists|, x);
    assert Count(out[..n], x) == Taken(lists, pos, |lists|, x);
    var q' :| 0 <= q' < |out[n..]| && out[n..][q'] == x;
    q := n + q';
  }

  lemma Before(lists: seq<seq<Pair>>, pos: seq<nat>, out: seq<Pair>, i: nat, t: nat) returns (p: nat)
    requires Holds(lists, pos, out) && i < |lists| && t < pos[i]
    ensures p < |out| && out[p] == lists[i][t]
  {
    hide SumPos;
    var zero: seq<nat> := seq(|lists|, _ => 0);
    assert Delimit(lists, zero, pos);
    TakenMore(lists, zero, pos, |lists|, i, t);
    CountSome(out, lists[i][t]);
    p :| 0 <= p < |out| && out[p] == lists[i][t];
  }

  lemma SortedIsBelow(lists: seq<seq<Pair>>, pos: seq<nat>, out: seq<Pair>)
    requires Holds(lists, Lengths(lists), out) && SumPos(pos) <= |out| && Holds(lists, pos, out[..SumPos(pos)])
    requires Sorted(out)
    ensures |pos| == |lists| && Below(lists, pos)
  {
    assert |pos| == |lists|;
    hide SumPos, Holds;
    forall i, t, j, u | 0 <= i < |lists| && 0 <= t < |lists[i]| && 0 <= j < |lists| && 0 <= u < |lists[j]| &&
      t < pos[i] && pos[j] <= u ensures lists[i][t].key <= lists[j][u].key
    {
      var p := Before(lists, pos, out[..SumPos(pos)], i, t);
      var q := Behind(lists, pos, out, j, u);
      assert out[p].key <= out[q].key;
    }
  }

  /** The partition a place of the output belongs to. */
  lemma {:induction false} PartitionOf(cuts: seq<seq<nat>>, n: nat, q: nat) returns (m: nat)
    requires n < |cuts| && SumPos(cuts[0]) <= q < SumPos(cuts[n])
    ensures m < n && SumPos(cuts[m]) <= q < SumPos(cuts[m + 1])
  {
    if SumPos(cuts[n - 1]) <= q {
      m := n - 1;
    } else {
      m := PartitionOf(cuts, n - 1, q);
    }
  }

  /** An element of partition m is not below what lies before the cuts for m. */
  lemma FromPartition(lists: seq<seq<Pair>>, cuts: seq<seq<nat>>, out: seq<Pair>, m: nat, q: nat) returns (j: nat,
                      u: nat)
    requires CutsTile(lists, cuts) && Segments(lists, cuts, |lists|, out)
    requires m < |lists| && SumPos(cuts[m]) <= q < SumPos(cuts[m + 1]) <= |out|
    ensures j < |lists| && cuts[m][j] <= u < |lists[j]| && out[q] == lists[j][u]
    ensures Sorted(out[SumPos(cuts[m])..SumPos(cuts[m + 1])])
  {
    hide SumPos, Least;
    var a, b := SumPos(cuts[m]), SumPos(cuts[m + 1]);
    assert Segment(lists, cuts, m, out);
    DelimitAt(lists, cuts, m);
    AllMerged(lists, cuts[m], cuts[m + 1], out[a..b]);
    var parts := Pieces(lists, cuts[m], cuts[m + 1]);
    var u';
    j, u' := FromHeld(parts, Lengths(parts), out[a..b], q - a);
    u := cuts[m][j] + u';
  }

  lemma BelowIsSorted(lists: seq<seq<Pair>>, cuts: seq<seq<nat>>, out: seq<Pair>, p: nat, q: nat)
    requires CutsTile(lists, cuts) && Segments(lists, cuts, |lists|, out) && Separated(lists, cuts)
    requires p < q < |out|
    ensures out[p].key <= out[q].key
  {
    hide SumPos, Segments, AreCuts, Segment;
    TileCuts(lists, cuts);
    CutsBelow(lists, cuts, |lists|);
    SegmentsSize(lists, cuts, out);
    var m := PartitionOf(cuts, |lists|, q);
    PrefixHolds(lists, cuts, out, m + 1);
    var j, u := FromPartition(lists, cuts, out, m, q);
    var a := SumPos(cuts[m]);
    if a <= p {
      var seg := out[a..SumPos(cuts[m + 1])];
      assert seg[p - a].key <= seg[q - a].key;
    } else {
      PrefixHolds(lists, cuts, out, m);
      var i, t := FromHeld(lists, cuts[m], out[..a], p);
      assert Below(lists, cuts[m]);
    }
  }

  lemma SegmentsSize(lists: seq<seq<Pair>>, cuts: seq<seq<nat>>, out: seq<Pair>)
    requires AreCuts(lists, cuts) && Segments(lists, cuts, |lists|, out)
    ensures |cuts| == |lists| + 1 && |out| == SumPos(cuts[|lists|])
  {
  }

  /** If the cuts of every list come in order the output is sorted exactly if every cut
      separates. */
  lemma SortedIff(lists: seq<seq<Pair>>, cuts: seq<seq<nat>>, out: seq<Pair>)
    requires CutsTile(lists, cuts) && Segments(lists, cuts, |lists|, out)
    ensures Sorted(out) <==> Separated(lists, cuts)
  {
    hide SumPos, Segments, Segment, Holds, Below, Separated;
    if Sorted(out) {
      AllHeld(lists, cuts, out);
      forall l | 0 <= l <= |lists| ensures Below(lists, cuts[l]) {
        PrefixHolds(lists, cuts, out, l);
        SortedIsBelow(lists, cuts[l], out);
      }
      AllBelow(lists, cuts);
    }
    if Separated(lists, cuts) {
      forall p, q | 0 <= p < q < |out| ensures out[p].key <= out[q].key {
        BelowIsSorted(lists, cuts, out, p, q);
      }
    }
  }

  lemma AllBelow(lists: seq<seq<Pair>>, cuts: seq<seq<nat>>)
    requires AreCuts(lists, cuts) && forall l :: 0 <= l <= |lists| ==> Below(lists, cuts[l])
    ensures Separated(lists, cuts)
  {
  }

  // ------------------------------------------------------------- when pieces overlap

  lemma CountTwo(out: seq<Pair>, a: nat, b: nat, c: nat, d: nat, x: Pair)
    requires a <= b <= c <= d <= |out| && x in out[a..b] && x in out[c..d]
    ensures Count(out, x) >= 2
  {
    CountSome(out[a..b], x);
    CountSome(out[c..d], x);
    assert out[..b] == out[..a] + out[a..b] && out[..d] == out[..c] + out[c..d];
    assert out[..c] == out[..b] + out[b..c] && out == out[..d] + out[d..];
    CountConcat(out[..a], out[a..b], x);
    CountConcat(out[..b], out[b..c], x);
    CountConcat(out[..c], out[c..d], x);
    CountConcat(out[..d], out[d..], x);
  }

  /** A partition whose pieces all go forward holds every element of them. */
  lemma InPartition(lists: seq<seq<Pair>>, cuts: seq<seq<nat>>, out: seq<Pair>, l: nat, i: nat, t: nat)
    requires Segments(lists, cuts, |lists|, out) && l < |lists| && Delimit(lists, cuts[l], cuts[l + 1])
    requires i < |lists| && cuts[l][i] <= t < cuts[l + 1][i]
    ensures SumPos(cuts[l]) <= SumPos(cuts[l + 1]) <= |out|
    ensures lists[i][t] in out[SumPos(cuts[l])..SumPos(cuts[l + 1])]
  {
    hide SumPos, Least;
    assert Segment(lists, cuts, l, out);
    var a, b := SumPos(cuts[l]), SumPos(cuts[l + 1]);
    AllMerged(lists, cuts[l], cuts[l + 1], out[a..b]);
    var parts := Pieces(lists, cuts[l], cuts[l + 1]);
    assert Holds(parts, Lengths(parts), out[a..b]);
    var p := Before(parts, Lengths(parts), out[a..b], i, t - cuts[l][i]);
    assert parts[i][t - cuts[l][i]] == lists[i][t];
  }

  /** An element in the pieces of two such partitions is written twice. */
  lemma WrittenTwice(lists: seq<seq<Pair>>, cuts: seq<seq<nat>>, out: seq<Pair>, l: nat, m: nat, i: nat, t: nat)
    requires Segments(lists, cuts, |lists|, out) && l < m < |lists| && i < |lists|
    requires Delimit(lists, cuts[l], cuts[l + 1]) && Delimit(lists, cuts[m], cuts[m + 1])
    requires cuts[l][i] <= t < cuts[l + 1][i] && cuts[m][i] <= t < cuts[m + 1][i]
    ensures Count(out, lists[i][t]) >= 2
  {
    hide SumPos, Segment, Count;
    SegmentsApart(lists, cuts, |lists|, out, l, m);
    InPartition(lists, cuts, out, l, i, t);
    InPartition(lists, cuts, out, m, i, t);
    CountTwo(out, SumPos(cuts[l]), SumPos(cuts[l + 1]), SumPos(cuts[m]), SumPos(cuts[m + 1]), lists[i][t]);
  }
}
