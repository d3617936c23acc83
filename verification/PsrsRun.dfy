/** The phases of `psrs` in sequence: benchmarks/metis/lib/psrs.c:207-314. */
module PsrsRun {
  import opened Common
  import opened Psrs
  import opened Seqs
  import opened Sublists

  /** What `qsort` promises. */
  ghost predicate Sorts(sort: seq<Pair> -> seq<Pair>) {
    forall s: seq<Pair> {:trigger sort(s)} :: Sorted(sort(s)) && multiset(sort(s)) == multiset(s)
  }

  // ----------------------------------------------------------------- the local lists

  lemma {:induction false} TakenPrefix(lists: seq<seq<Pair>>, c: seq<Pair>, pos: seq<nat>, v: nat, k: nat, x: Pair)
    requires k <= |lists| == |pos|
    ensures Taken(lists + [c], pos + [v], k, x) == Taken(lists, pos, k, x)
  {
    if k > 0 {
      TakenPrefix(lists, c, pos, v, k - 1, x);
    }
  }

  lemma LengthsAppend(lists: seq<seq<Pair>>, c: seq<Pair>)
    ensures Lengths(lists + [c]) == Lengths(lists) + [|c|]
    ensures SumPos(Lengths(lists + [c])) == SumPos(Lengths(lists)) + |c|
  {
    assert (lists + [c])[..|lists|] == lists;
    assert (Lengths(lists) + [|c|])[..|lists|] == Lengths(lists);
  }

  lemma TakenAppend(lists: seq<seq<Pair>>, c: seq<Pair>, x: Pair)
    ensures Taken(lists + [c], Lengths(lists) + [|c|], |lists| + 1, x)
         == Taken(lists, Lengths(lists), |lists|, x) + Count(c, x)
  {
    TakenPrefix(lists, c, Lengths(lists), |c|, |lists|, x);
    assert First(c, |c|) == c;
  }

  lemma HoldsAppend(lists: seq<seq<Pair>>, c: seq<Pair>, out: seq<Pair>, more: seq<Pair>)
    requires Holds(lists, Lengths(lists), out) && multiset(c) == multiset(more)
    ensures Holds(lists + [c], Lengths(lists + [c]), out + more)
  {
    assert |multiset(c)| == |c| && |multiset(more)| == |more|;
    LengthsAppend(lists, c);
    forall x ensures Count(out + more, x) == Taken(lists + [c], Lengths(lists + [c]), |lists| + 1, x) {
      CountConcat(out, more, x);
      SameCounts(c, more, x);
      TakenAppend(lists, c, x);
    }
  }

  ghost predicate NoneEmpty(lists: seq<seq<Pair>>) {
    forall i :: 0 <= i < |lists| ==> |lists[i]| > 0
  }

  /** The chunk of a CPU. */
  function Chunk(all: seq<Pair>, ncpus: nat, lcpu: nat): seq<Pair>
    requires ncpus > 0
  {
    var start, end := ChunkStart(|all|, ncpus, lcpu), ChunkEnd(|all|, ncpus, lcpu);
    if start <= end <= |all| then all[start..end] else []
  }

  /** What the lists of the CPUs are: the chunks, each sorted. */
  function ListsOf(all: seq<Pair>, ncpus: nat, sort: seq<Pair> -> seq<Pair>): seq<seq<Pair>>
    requires ncpus > 0
  {
    seq(ncpus, i requires 0 <= i < ncpus => sort(Chunk(all, ncpus, i)))
  }

  /** A CPU copies its chunk and sorts it. */
  method LocalList(colls: seq<seq<Pair>>, ncpus: nat, lcpu: nat, sort: seq<Pair> -> seq<Pair>) returns (list: seq<Pair>)
    requires ncpus > 0 && |Flat(colls)| >= ncpus * ncpus * ncpus && lcpu < ncpus
    ensures list == sort(Chunk(Flat(colls), ncpus, lcpu))
  {
    hide Flat;
    var total := |Flat(colls)|;
    ChunkBounds(total, ncpus, lcpu);
    var start, end := ChunkStart(total, ncpus, lcpu), ChunkEnd(total, ncpus, lcpu) - 1;
    var localpairs := CopyElems(colls, start, end);
    return sort(localpairs);
  }

  lemma ChunkBounds(total: nat, ncpus: nat, lcpu: nat)
    requires ncpus > 0 && total >= ncpus * ncpus * ncpus && lcpu < ncpus
    ensures ChunkStart(total, ncpus, lcpu) < ChunkEnd(total, ncpus, lcpu) <= total
  {
    ChunksTile(total, ncpus, lcpu);
  }

  /** Where the chunks of the first k CPUs end. */
  ghost function ChunksEnd(total: nat, ncpus: nat, k: nat): nat
    requires ncpus > 0
  {
    if k < ncpus then ChunkStart(total, ncpus, k) else total
  }

  /** The lists of the first k CPUs hold the elements of their chunks. */
  ghost predicate Local(all: seq<Pair>, ncpus: nat, k: nat, lists: seq<seq<Pair>>)
    requires ncpus > 0
  {
    var end := ChunksEnd(|all|, ncpus, k);
    && |lists| == k && AllSorted(lists) && NoneEmpty(lists)
    && end <= |all| && Holds(lists, Lengths(lists), all[..end])
  }

  lemma LocalMore(all: seq<Pair>, ncpus: nat, k: nat, lists: seq<seq<Pair>>, sorted: seq<Pair>)
    requires ncpus > 0 && |all| >= ncpus * ncpus * ncpus && k < ncpus && Local(all, ncpus, k, lists)
    requires Sorted(sorted) && multiset(sorted) == multiset(Chunk(all, ncpus, k))
    ensures Local(all, ncpus, k + 1, lists + [sorted])
  {
    hide Holds, Sorted, AllSorted;
    var start, end := ChunkStart(|all|, ncpus, k), ChunkEnd(|all|, ncpus, k);
    ChunksTile(|all|, ncpus, k);
    hide ChunkStart, ChunkEnd;
    assert end == ChunksEnd(|all|, ncpus, k + 1);
    var chunk := all[start..end];
    assert |multiset(sorted)| == |sorted| && |multiset(chunk)| == |chunk|;
    assert all[..start] + chunk == all[..end];
    HoldsAppend(lists, sorted, all[..start], chunk);
    SortedAppend(lists, sorted);
  }

  /** A list is the sorted chunk of a CPU: total / ncpus elements, rounded up, or what is left. */
  ghost predicate EqualShare(all: seq<Pair>, ncpus: nat, sort: seq<Pair> -> seq<Pair>, i: nat, list: seq<Pair>)
    requires ncpus > 0
  {
    var w := (|all| + ncpus - 1) / ncpus;
    var end := if w * (i + 1) <= |all| then w * (i + 1) else |all|;
    0 <= w * i < end && list == sort(all[w * i..end])
  }

  lemma ShareIs(all: seq<Pair>, ncpus: nat, sort: seq<Pair> -> seq<Pair>, i: nat)
    requires ncpus > 0 && |all| >= ncpus * ncpus * ncpus && i < ncpus
    ensures EqualShare(all, ncpus, sort, i, sort(Chunk(all, ncpus, i)))
  {
    ChunkBounds(|all|, ncpus, i);
  }

  /** Every CPU makes its list. */
  method LocalLists(colls: seq<seq<Pair>>, ncpus: nat, sort: seq<Pair> -> seq<Pair>) returns (lists: seq<seq<Pair>>)
    requires Sorts(sort) && ncpus > 0 && |Flat(colls)| >= ncpus * ncpus * ncpus
    ensures lists == ListsOf(Flat(colls), ncpus, sort) && |lists| == ncpus && NoneEmpty(lists) && AllSorted(lists)
    ensures forall i :: 0 <= i < ncpus ==> EqualShare(Flat(colls), ncpus, sort, i, lists[i])
    ensures Holds(lists, Lengths(lists), Flat(colls))
  {
    hide Holds, Sorted, Flat, AllSorted, Chunk, Local, NoneEmpty, EqualShare;
    ghost var all := Flat(colls);
    lists := [];
    LocalNone(all, ncpus);
    for lcpu := 0 to ncpus
      invariant |lists| == lcpu && Local(all, ncpus, lcpu, lists)
      invariant forall i :: 0 <= i < lcpu ==> lists[i] == sort(Chunk(all, ncpus, i))
    {
      var list := LocalList(colls, ncpus, lcpu, sort);
      LocalMore(all, ncpus, lcpu, lists, list);
      lists := lists + [list];
    }
    LocalAll(all, ncpus, lists);
    forall i | 0 <= i < ncpus ensures EqualShare(all, ncpus, sort, i, lists[i]) {
      ShareIs(all, ncpus, sort, i);
    }
  }

  lemma LocalNone(all: seq<Pair>, ncpus: nat)
    requires ncpus > 0
    ensures Local(all, ncpus, 0, [])
  {
    NoLists();
    assert all[..0] == [];
  }

  lemma LocalAll(all: seq<Pair>, ncpus: nat, lists: seq<seq<Pair>>)
    requires ncpus > 0 && Local(all, ncpus, ncpus, lists)
    ensures AllSorted(lists) && NoneEmpty(lists) && Holds(lists, Lengths(lists), all)
  {
    assert all[..|all|] == all;
  }

  lemma NoLists()
    ensures Holds([], Lengths([]), []) && AllSorted([])
  {
  }

  lemma SortedAppend(lists: seq<seq<Pair>>, c: seq<Pair>)
    requires AllSorted(lists) && Sorted(c)
    ensures AllSorted(lists + [c])
  {
  }

  // ------------------------------------------------------------- samples and pivots

  ghost predicate FromLists(lists: seq<seq<Pair>>, x: Pair) {
    exists i :: 0 <= i < |lists| && x in lists[i]
  }

  /** Sample i of a list of a CPU. */
  function Sample(list: seq<Pair>, ncpus: nat, i: nat): Pair
    requires |list| > 0 && ncpus > 0
  {
    var rsize := (|list| + ncpus - 1) / ncpus;
    if (i + 1) * rsize < |list| then list[(i + 1) * rsize] else list[|list| - 1]
  }

  /** The samples of all CPUs, one CPU after the other. */
  function SamplesOf(lists: seq<seq<Pair>>): seq<Pair>
    requires |lists| >= 2 && NoneEmpty(lists)
  {
    var n := |lists|;
    seq(n * (n - 1), k requires 0 <= k < n * (n - 1) => SampleAmong(lists, k))
  }

  function SampleAmong(lists: seq<seq<Pair>>, k: nat): Pair
    requires |lists| >= 2 && k < |lists| * (|lists| - 1) && NoneEmpty(lists)
  {
    WhoseSample(|lists|, k);
    Sample(lists[k / (|lists| - 1)], |lists|, k % (|lists| - 1))
  }

  lemma WhoseSample(n: nat, k: nat)
    requires n >= 2 && k < n * (n - 1)
    ensures k / (n - 1) < n
  {
    assert k == (n - 1) * (k / (n - 1)) + k % (n - 1);
    if k / (n - 1) >= n {
      Mono(n - 1, n, k / (n - 1));
    }
  }

  lemma SamplePlace(m: nat, lcpu: nat, i: nat)
    requires i < m
    ensures (lcpu * m + i) / m == lcpu && (lcpu * m + i) % m == i
  {
    var k: nat := lcpu * m + i;
    var q, r := k / m, k % m;
    assert k == m * q + r && m * lcpu == lcpu * m;
    assert m * (q + 1) == m * q + m && m * (lcpu + 1) == m * lcpu + m;
    if q < lcpu {
      Mono(m, q + 1, lcpu);
    } else if q > lcpu {
      Mono(m, lcpu + 1, q);
    }
  }

  lemma SampleIs(lists: seq<seq<Pair>>, lcpu: nat, i: nat)
    requires |lists| >= 2 && NoneEmpty(lists) && lcpu < |lists| && i < |lists| - 1
    ensures lcpu * (|lists| - 1) + i < |lists| * (|lists| - 1)
    ensures SampleAmong(lists, lcpu * (|lists| - 1) + i) == Sample(lists[lcpu], |lists|, i)
  {
    hide Sample;
    var m := |lists| - 1;
    Mono(m, lcpu + 1, |lists|);
    assert (lcpu + 1) * m == lcpu * m + m;
    SamplePlace(m, lcpu, i);
  }

  lemma SampleFrom(lists: seq<seq<Pair>>, k: nat)
    requires |lists| >= 2 && NoneEmpty(lists) && k < |lists| * (|lists| - 1)
    ensures FromLists(lists, SampleAmong(lists, k))
  {
    hide Sample;
    WhoseSample(|lists|, k);
    var lcpu := k / (|lists| - 1);
    FromSample(lists[lcpu], |lists|, k % (|lists| - 1));
  }

  lemma FromSample(list: seq<Pair>, ncpus: nat, i: nat)
    requires |list| > 0 && ncpus > 0
    ensures Sample(list, ncpus, i) in list
  {
  }

  /** A CPU sends ncpus - 1 samples of its list. */
  method SendSamples(list: seq<Pair>, ncpus: nat) returns (sent: seq<Pair>)
    requires |list| > 0 && ncpus > 0
    ensures |sent| == ncpus - 1 && forall i :: 0 <= i < ncpus - 1 ==> sent[i] == Sample(list, ncpus, i)
  {
    sent := [];
    var copied := |list|;
    var rsize := (copied + ncpus - 1) / ncpus;
    for i := 0 to ncpus - 1
      invariant |sent| == i && forall t :: 0 <= t < i ==> sent[t] == Sample(list, ncpus, t)
    {
      if (i + 1) * rsize < copied {
        sent := sent + [list[(i + 1) * rsize]];
      } else {
        sent := sent + [list[copied - 1]];
      }
    }
  }

  /** The samples of the first k CPUs. */
  ghost predicate Sent(lists: seq<seq<Pair>>, k: nat, samples: seq<Pair>)
    requires |lists| >= 2 && NoneEmpty(lists)
  {
    var whole :=
      && |samples| == k * (|lists| - 1) <= |lists| * (|lists| - 1)
      && forall t :: 0 <= t < |samples| ==> samples[t] == SampleAmong(lists, t);
    whole
  }

  lemma SentMore(lists: seq<seq<Pair>>, k: nat, samples: seq<Pair>, more: seq<Pair>)
    requires |lists| >= 2 && NoneEmpty(lists) && k < |lists| && Sent(lists, k, samples)
    requires |more| == |lists| - 1 && forall i :: 0 <= i < |more| ==> more[i] == Sample(lists[k], |lists|, i)
    ensures Sent(lists, k + 1, samples + more)
  {
    hide Sample, SampleAmong;
    var m := |lists| - 1;
    assert (k + 1) * m == k * m + m;
    Mono(m, k + 1, |lists|);
    forall t | 0 <= t < |samples + more| ensures (samples + more)[t] == SampleAmong(lists, t) {
      if t >= |samples| {
        SampleIs(lists, k, t - |samples|);
      }
    }
  }

  /** Every CPU sends its samples. */
  method Samples(lists: seq<seq<Pair>>) returns (samples: seq<Pair>)
    requires |lists| >= 2 && NoneEmpty(lists)
    ensures samples == SamplesOf(lists)
  {
    samples := [];
    for lcpu := 0 to |lists|
      invariant Sent(lists, lcpu, samples)
    {
      var more := SendSamples(lists[lcpu], |lists|);
      SentMore(lists, lcpu, samples, more);
      samples := samples + more;
    }
    AllSent(lists, samples);
  }

  lemma AllSent(lists: seq<seq<Pair>>, samples: seq<Pair>)
    requires |lists| >= 2 && NoneEmpty(lists) && Sent(lists, |lists|, samples)
    ensures samples == SamplesOf(lists)
  {
    hide SampleAmong;
  }

  /** The pivots: in place 0 the least sample, which is not used, then every ncpus-th. */
  function PivotsOf(lists: seq<seq<Pair>>, sort: seq<Pair> -> seq<Pair>): seq<Pair>
    requires |lists| >= 2 && NoneEmpty(lists)
  {
    var sorted := sort(SamplesOf(lists));
    seq(|lists|, l requires 0 <= l < |lists| => PivotAmong(sorted, |lists|, l))
  }

  function PivotAmong(sorted: seq<Pair>, ncpus: nat, l: nat): Pair {
    var t := if l == 0 then 0 else SampleAt(l - 1, ncpus);
    if t < |sorted| then sorted[t] else Pair(0.0, 0, 0)
  }

  /** The main CPU sorts the samples and selects the pivots, which come from the lists. */
  method Pivots(lists: seq<seq<Pair>>, sort: seq<Pair> -> seq<Pair>) returns (pivots: seq<Pair>)
    requires Sorts(sort) && |lists| >= 2 && NoneEmpty(lists)
    ensures pivots == PivotsOf(lists, sort) && |pivots| == |lists| && Sorted(pivots[1..])
    ensures forall l :: 0 <= l < |pivots| ==> FromLists(lists, pivots[l])
  {
    hide SamplesOf, PivotsOf, FromLists, Chosen, Sorted, NoneEmpty;
    var n := |lists|;
    var samples := Samples(lists);
    var sorted := sort(samples);
    ManySamples(lists, sorted);
    var a := new Pair[|sorted|](i requires 0 <= i < |sorted| => sorted[i]);
    assert a[..] == sorted && a[..n * (n - 1)] == sorted;
    SelectPivots(a, n);
    pivots := a[..n];
    assert pivots[1..] == a[1..n];
    ThesePivotsAre(lists, sort, sorted, pivots);
  }

  lemma ManySamples(lists: seq<seq<Pair>>, sorted: seq<Pair>)
    requires |lists| >= 2 && NoneEmpty(lists) && multiset(sorted) == multiset(SamplesOf(lists))
    ensures |sorted| == |lists| * (|lists| - 1) >= |lists|
  {
    hide SampleAmong;
    assert |multiset(sorted)| == |sorted| && |multiset(SamplesOf(lists))| == |SamplesOf(lists)|;
    Mono(|lists|, 1, |lists| - 1);
  }

  lemma ThesePivotsAre(lists: seq<seq<Pair>>, sort: seq<Pair> -> seq<Pair>, sorted: seq<Pair>, pivots: seq<Pair>)
    requires |lists| >= 2 && NoneEmpty(lists) && sorted == sort(SamplesOf(lists)) != []
    requires multiset(sorted) == multiset(SamplesOf(lists))
    requires |pivots| == |lists| && pivots[0] == sorted[0]
    requires forall i :: 0 < i < |lists| ==> Chosen(sorted, i, |lists|, pivots[i])
    ensures pivots == PivotsOf(lists, sort) && forall l :: 0 <= l < |pivots| ==> FromLists(lists, pivots[l])
  {
    hide SamplesOf, FromLists;
    forall l | 0 <= l < |lists| ensures pivots[l] == PivotAmong(sorted, |lists|, l) && FromLists(lists, pivots[l]) {
      if l > 0 {
        assert Chosen(sorted, l, |lists|, pivots[l]);
      }
      AreSamples(lists, sorted, pivots[l]);
    }
  }

  lemma AreSamples(lists: seq<seq<Pair>>, sorted: seq<Pair>, x: Pair)
    requires |lists| >= 2 && NoneEmpty(lists) && multiset(sorted) == multiset(SamplesOf(lists)) && x in sorted
    ensures FromLists(lists, x)
  {
    hide SampleAmong;
    assert x in multiset(SamplesOf(lists));
    var k :| 0 <= k < |SamplesOf(lists)| && SamplesOf(lists)[k] == x;
    SampleFrom(lists, k);
  }

  // ------------------------------------------------------------------------ the cuts

  function Column(rows: seq<seq<nat>>, l: nat): (col: seq<nat>)
    requires forall i :: 0 <= i < |rows| ==> l < |rows[i]|
  {
    seq(|rows|, i requires 0 <= i < |rows| => rows[i][l])
  }

  /** `subsize` by columns. */
  function Columns(rows: seq<seq<nat>>, m: nat): (cuts: seq<seq<nat>>)
    requires forall i :: 0 <= i < |rows| ==> m <= |rows[i]|
  {
    seq(m, l requires 0 <= l < m => Column(rows, l))
  }

  /** The cuts of all lists are defined. */
  ghost predicate Defined(lists: seq<seq<Pair>>, pivots: seq<Pair>)
    requires 2 <= |lists| <= |pivots| && NoneEmpty(lists)
  {
    forall i :: 0 <= i < |lists| ==> RowOf(lists[i], |lists|, pivots).Some?
  }

  /** cuts[l][i] is cut l of list i. */
  ghost predicate CutsOf(lists: seq<seq<Pair>>, pivots: seq<Pair>, cuts: seq<seq<nat>>)
    requires 2 <= |lists| <= |pivots| && NoneEmpty(lists)
  {
    && Defined(lists, pivots)
    && |cuts| == |lists| + 1 && (forall l :: 0 <= l <= |lists| ==> |cuts[l]| == |lists|)
    && forall l, i :: 0 <= l <= |lists| && 0 <= i < |lists| ==> cuts[l][i] == RowOf(lists[i], |lists|, pivots).value[l]
  }

  /** Every CPU divides its list. */
  method DivideAll(lists: seq<seq<Pair>>, pivots: seq<Pair>) returns (cuts: Option<seq<seq<nat>>>)
    requires 2 <= |lists| <= |pivots| && AllSorted(lists) && NoneEmpty(lists)
    ensures cuts.Some? <==> Defined(lists, pivots)
    ensures cuts.Some? ==> CutsOf(lists, pivots, cuts.value)
  {
    hide RowOf, Cut, Sorted;
    var n := |lists|;
    var rows: seq<seq<nat>> := [];
    for lcpu := 0 to n
      invariant |rows| == lcpu
      invariant forall i :: 0 <= i < lcpu ==> RowOf(lists[i], n, pivots) == Some(rows[i]) && |rows[i]| == n + 1
    {
      var row := DivideOne(lists[lcpu], n, pivots);
      if row.None? {
        return None;
      }
      rows := rows + [row.value];
    }
    cuts := Some(Columns(rows, n + 1));
  }

  /** A CPU sets the ends of its row, and `sublists` the rest. */
  method DivideOne(list: seq<Pair>, n: nat, pivots: seq<Pair>) returns (row: Option<seq<nat>>)
    requires Sorted(list) && |list| > 0 && 2 <= n <= |pivots|
    ensures row == RowOf(list, n, pivots)
  {
    hide Cut, Sorted;
    var subsize := new nat[n + 1];
    subsize[0], subsize[n] := 0, |list|;
    var ok := Divide(list, 0, |list|, subsize, pivots, 1, n - 1);
    if !ok {
      return None;
    }
    assert subsize[..] == [0] + subsize[1..n] + [|list|];
    return Some(subsize[..]);
  }

  /** No range of one element is searched in any list. */
  ghost predicate AllRoomy(lists: seq<seq<Pair>>, pivots: seq<Pair>)
    requires 2 <= |lists| <= |pivots| && NoneEmpty(lists)
  {
    forall i :: 0 <= i < |lists| ==> Roomy(lists[i], 0, |lists[i]|, pivots, 1, |lists| - 1)
  }

  /** Every range that is searched in any list has two elements greater than the pivot. */
  ghost predicate AllWide(lists: seq<seq<Pair>>, pivots: seq<Pair>)
    requires 2 <= |lists| <= |pivots| && NoneEmpty(lists)
  {
    forall i :: 0 <= i < |lists| ==> Wide(lists[i], 0, |lists[i]|, pivots, 1, |lists| - 1)
  }

  lemma ThesePivots(pivots: seq<Pair>, n: nat)
    requires 2 <= n == |pivots| && Sorted(pivots[1..])
    ensures SortedPivots(pivots, 1, n - 1)
  {
    forall i, j | 1 <= i < j <= n - 1 ensures pivots[i].key <= pivots[j].key {
      assert pivots[1..][i - 1].key <= pivots[1..][j - 1].key;
    }
  }

  lemma AreTheCuts(lists: seq<seq<Pair>>, pivots: seq<Pair>, cuts: seq<seq<nat>>)
    requires 2 <= |lists| <= |pivots| && NoneEmpty(lists) && CutsOf(lists, pivots, cuts)
    ensures AreCuts(lists, cuts)
  {
    hide RowOf;
    var n := |lists|;
    forall i | 0 <= i < n ensures cuts[0][i] == 0 && cuts[n][i] == |lists[i]| {
      assert RowOf(lists[i], n, pivots).Some?;
    }
    forall l, i | 0 <= l <= n && 0 <= i < n ensures cuts[l][i] <= |lists[i]| {
      RowWithin(lists[i], n, pivots);
    }
  }

  /** The pieces of every list are consecutive if and only if no range of one element is searched. */
  lemma TileIff(lists: seq<seq<Pair>>, pivots: seq<Pair>, cuts: seq<seq<nat>>)
    requires 2 <= |lists| == |pivots| && NoneEmpty(lists) && AllSorted(lists) && Sorted(pivots[1..])
    requires CutsOf(lists, pivots, cuts)
    ensures AllRoomy(lists, pivots) <==> CutsTile(lists, cuts)
  {
    hide RowOf, Roomy, Sorted;
    var n := |lists|;
    ThesePivots(pivots, n);
    AreTheCuts(lists, pivots, cuts);
    forall i | 0 <= i < n
      ensures Roomy(lists[i], 0, |lists[i]|, pivots, 1, n - 1) <==> Row(lists[i], n, RowOf(lists[i], n, pivots).value)
    {
      RowIff(lists[i], n, pivots);
    }
    if AllRoomy(lists, pivots) {
      forall l, m, i | 0 <= l <= m <= n && 0 <= i < n ensures cuts[l][i] <= cuts[m][i] {
        assert Row(lists[i], n, RowOf(lists[i], n, pivots).value);
      }
    }
    if CutsTile(lists, cuts) {
      forall i | 0 <= i < n ensures Row(lists[i], n, RowOf(lists[i], n, pivots).value) {
        RowOfColumns(lists, pivots, cuts, i);
      }
    }
  }

  lemma RowOfColumns(lists: seq<seq<Pair>>, pivots: seq<Pair>, cuts: seq<seq<nat>>, i: nat)
    requires 2 <= |lists| <= |pivots| && NoneEmpty(lists) && CutsOf(lists, pivots, cuts) && CutsTile(lists, cuts)
    requires i < |lists|
    ensures Row(lists[i], |lists|, RowOf(lists[i], |lists|, pivots).value)
  {
    hide RowOf;
    var n, row := |lists|, RowOf(lists[i], |lists|, pivots).value;
    assert forall l :: 0 <= l <= n ==> cuts[l][i] == row[l];
  }

  /** If no range of one element is searched every cut is defined. */
  lemma RoomyDefined(lists: seq<seq<Pair>>, pivots: seq<Pair>)
    requires 2 <= |lists| == |pivots| && NoneEmpty(lists) && AllSorted(lists) && Sorted(pivots[1..])
    requires AllRoomy(lists, pivots)
    ensures Defined(lists, pivots)
  {
    hide RowOf, Roomy, Sorted;
    ThesePivots(pivots, |lists|);
    forall i | 0 <= i < |lists| ensures RowOf(lists[i], |lists|, pivots).Some? {
      RowIff(lists[i], |lists|, pivots);
    }
  }

  /** Cuts in wide ranges are the documented ones. */
  lemma WideUpper(lists: seq<seq<Pair>>, pivots: seq<Pair>, cuts: seq<seq<nat>>)
    requires 2 <= |lists| == |pivots| && NoneEmpty(lists) && AllSorted(lists) && Sorted(pivots[1..])
    requires CutsOf(lists, pivots, cuts) && AllWide(lists, pivots)
    ensures AllRoomy(lists, pivots) && CutsTile(lists, cuts) && CutsUpper(lists, cuts, pivots)
  {
    hide RowOf, Roomy, Sorted, Wide, CutsTile, Upper;
    var n := |lists|;
    ThesePivots(pivots, n);
    forall i | 0 <= i < n ensures Roomy(lists[i], 0, |lists[i]|, pivots, 1, n - 1) {
      WideIsRoomy(lists[i], n, pivots);
    }
    TileIff(lists, pivots, cuts);
    forall i, l, t | 0 <= i < n && 0 < l < n && 0 <= t < |lists[i]|
      ensures t < cuts[l][i] <==> lists[i][t].key <= pivots[l].key
    {
      WideRow(lists[i], n, pivots, l);
      UpperMeans(lists[i], pivots[l].key);
    }
  }

  lemma WideRow(list: seq<Pair>, n: nat, pivots: seq<Pair>, l: nat)
    requires Sorted(list) && |list| > 0 && 2 <= n <= |pivots| && SortedPivots(pivots, 1, n - 1) && 0 < l < n
    requires Wide(list, 0, |list|, pivots, 1, n - 1)
    ensures RowOf(list, n, pivots).Some? && RowOf(list, n, pivots).value[l] == Upper(list, pivots[l].key)
  {
    hide Cut, Sorted, Wide, Upper;
    PromiseKept(list, 0, |list|, pivots, 1, n - 1);
    assert list[0..|list|] == list;
  }

  // ------------------------------------------------------------------------ all of it

  /** Few elements or one CPU leave all work to the main CPU. */
  predicate Alone(all: seq<Pair>, ncpus: nat) { ncpus == 1 || |all| < ncpus * ncpus * ncpus }

  /** What `psrs` may return for more: nothing if a cut is undefined or the size of a partition
      is negative, and otherwise the partitions, merged, one after the other. */
  ghost predicate Outcome(lists: seq<seq<Pair>>, pivots: seq<Pair>, cuts: seq<seq<nat>>, r: Option<seq<Pair>>)
    requires 2 <= |lists| <= |pivots| && NoneEmpty(lists)
  {
    && (r.Some? <==> Defined(lists, pivots) && Forward(cuts))
    && (Defined(lists, pivots) ==> CutsOf(lists, pivots, cuts))
    && (r.Some? ==> Segments(lists, cuts, |lists|, r.value))
  }

  /** `psrs` may return r for the elements `all`, and several CPUs take part. */
  ghost predicate MayReturn(all: seq<Pair>, ncpus: nat, sort: seq<Pair> -> seq<Pair>, cuts: seq<seq<nat>>,
                            r: Option<seq<Pair>>)
    requires ncpus >= 2
  {
    && Sorts(sort) && !Alone(all, ncpus)
    && var lists := ListsOf(all, ncpus, sort);
       NoneEmpty(lists) && Outcome(lists, PivotsOf(lists, sort), cuts, r)
  }

  lemma TileForward(lists: seq<seq<Pair>>, cuts: seq<seq<nat>>)
    requires CutsTile(lists, cuts)
    ensures Forward(cuts)
  {
    forall l | 0 <= l < |cuts| - 1 ensures SumPos(cuts[l]) <= SumPos(cuts[l + 1]) {
      SumPosBelow(cuts[l], cuts[l + 1]);
    }
  }

  lemma SameLists(lists: seq<seq<Pair>>, a: seq<Pair>, b: seq<Pair>)
    requires Holds(lists, Lengths(lists), a) && Holds(lists, Lengths(lists), b)
    ensures multiset(a) == multiset(b)
  {
    SameMultiset(a, b);
  }

  /** If no range of one element is searched the output is a permutation of the input, and sorted
      exactly if every cut separates what is before it from what is behind it. */
  lemma PermutesIfRoomy(lists: seq<seq<Pair>>, pivots: seq<Pair>, cuts: seq<seq<nat>>, all: seq<Pair>,
                        r: Option<seq<Pair>>)
    requires 2 <= |lists| == |pivots| && NoneEmpty(lists) && AllSorted(lists) && Sorted(pivots[1..])
    requires Holds(lists, Lengths(lists), all) && Outcome(lists, pivots, cuts, r) && AllRoomy(lists, pivots)
    ensures r.Some? && multiset(r.value) == multiset(all)
    ensures CutsTile(lists, cuts) && (Sorted(r.value) <==> Separated(lists, cuts))
  {
    hide CutsOf, Defined, Segments, Sorted, AllSorted, AllRoomy, CutsTile, Separated, Holds, Forward, Lengths;
    RoomyDefined(lists, pivots);
    TileIff(lists, pivots, cuts);
    TileForward(lists, cuts);
    AllHeld(lists, cuts, r.value);
    SameLists(lists, r.value, all);
    SortedIff(lists, cuts, r.value);
  }

  /** If every range that is searched has two elements greater than the pivot it is sorted. */
  lemma SortsIfWide(lists: seq<seq<Pair>>, pivots: seq<Pair>, cuts: seq<seq<nat>>, r: Option<seq<Pair>>)
    requires 2 <= |lists| == |pivots| && NoneEmpty(lists) && AllSorted(lists) && Sorted(pivots[1..])
    requires Outcome(lists, pivots, cuts, r) && AllWide(lists, pivots)
    ensures AllRoomy(lists, pivots) && r.Some? && Sorted(r.value)
  {
    hide CutsOf, Defined, Segments, Sorted, AllSorted, AllRoomy, AllWide, CutsTile, Separated, Forward, CutsUpper;
    WideDefined(lists, pivots);
    WideUpper(lists, pivots, cuts);
    TileForward(lists, cuts);
    UpperSeparates(lists, cuts, pivots);
    SortedIff(lists, cuts, r.value);
  }

  lemma WideDefined(lists: seq<seq<Pair>>, pivots: seq<Pair>)
    requires 2 <= |lists| == |pivots| && NoneEmpty(lists) && AllSorted(lists) && Sorted(pivots[1..])
    requires AllWide(lists, pivots)
    ensures Defined(lists, pivots)
  {
    hide RowOf, Wide, Sorted, Upper;
    ThesePivots(pivots, |lists|);
    forall i | 0 <= i < |lists| ensures RowOf(lists[i], |lists|, pivots).Some? {
      WideRow(lists[i], |lists|, pivots, 1);
    }
  }

  lemma TwoOrMore(total: nat, ncpus: nat, lcpu: nat)
    requires 2 <= ncpus <= 3 && total >= ncpus * ncpus * ncpus && lcpu < ncpus
    ensures ChunkStart(total, ncpus, lcpu) + 2 <= ChunkEnd(total, ncpus, lcpu) <= total
  {
    if ncpus == 2 {
      assert lcpu == 0 || lcpu == 1;
    } else {
      assert lcpu == 0 || lcpu == 1 || lcpu == 2;
    }
  }

  /** Two or three CPUs never search a range of one element. */
  lemma FewCpusRoomy(all: seq<Pair>, ncpus: nat, sort: seq<Pair> -> seq<Pair>, pivots: seq<Pair>)
    requires Sorts(sort) && 2 <= ncpus <= 3 && !Alone(all, ncpus) && |pivots| == ncpus
    ensures var lists := ListsOf(all, ncpus, sort); NoneEmpty(lists) && AllRoomy(lists, pivots)
  {
    hide Roomy, Sorted, ChunkStart, ChunkEnd;
    var lists := ListsOf(all, ncpus, sort);
    forall i | 0 <= i < ncpus ensures |lists[i]| > 0 && Roomy(lists[i], 0, |lists[i]|, pivots, 1, ncpus - 1) {
      TwoOrMore(|all|, ncpus, i);
      var chunk := Chunk(all, ncpus, i);
      assert |multiset(sort(chunk))| == |sort(chunk)| && |multiset(chunk)| == |chunk|;
      FewPivots(lists[i], 0, |lists[i]|, pivots, 1, ncpus - 1);
    }
  }

  /** The phases behind the choice of the pivots. */
  method DivideAndMerge(lists: seq<seq<Pair>>, pivots: seq<Pair>, total: nat)
    returns (r: Option<seq<Pair>>, ghost cuts: seq<seq<nat>>)
    requires 2 <= |lists| <= |pivots| && NoneEmpty(lists) && AllSorted(lists) && total == SumPos(Lengths(lists))
    ensures Outcome(lists, pivots, cuts, r)
  {
    hide CutsOf, Defined, AllSorted, Segments, Forward, SumPos;
    var divided := DivideAll(lists, pivots);
    cuts := [];
    if divided.None? {
      return None, cuts;
    }
    cuts := divided.value;
    AreTheCuts(lists, pivots, divided.value);
    var ok, output := MergePartitions(lists, divided.value, total);
    r := if ok then Some(output[..]) else None;
  }

  /** `psrs` without `doreduce`.  Left to the main CPU alone the output is sorted.  Otherwise it is
      a permutation of the input if no list is divided by searching a range of one element, as is
      always so with two or three CPUs, and sorted if every range has two elements greater than
      the pivot searched for. */
  method Run(colls: seq<seq<Pair>>, ncpus: nat, sort: seq<Pair> -> seq<Pair>)
    returns (r: Option<seq<Pair>>, ghost lists: seq<seq<Pair>>, ghost pivots: seq<Pair>, ghost cuts: seq<seq<nat>>)
    requires ncpus > 0 && Sorts(sort)
    ensures Alone(Flat(colls), ncpus) ==> r.Some? && multiset(r.value) == multiset(Flat(colls)) && Sorted(r.value)
    ensures !Alone(Flat(colls), ncpus) ==>
      && |lists| == |pivots| == ncpus >= 2 && NoneEmpty(lists)
      && lists == ListsOf(Flat(colls), ncpus, sort) && pivots == PivotsOf(lists, sort)
      && Outcome(lists, pivots, cuts, r)
      && (AllRoomy(lists, pivots) ==>
        && r.Some? && multiset(r.value) == multiset(Flat(colls))
        && CutsTile(lists, cuts) && (Sorted(r.value) <==> Separated(lists, cuts)))
      && (AllWide(lists, pivots) ==> AllRoomy(lists, pivots) && Sorted(r.value))
    ensures !Alone(Flat(colls), ncpus) ==> ncpus >= 2 && MayReturn(Flat(colls), ncpus, sort, cuts, r)
    ensures ncpus <= 3 ==> r.Some? && multiset(r.value) == multiset(Flat(colls))
  {
    hide ListsOf, PivotsOf, Sorted, AllSorted, AllRoomy, AllWide, Outcome, Holds, Separated, CutsTile, Lengths;
    var all := Flat(colls);
    var total := |all|;
    lists, pivots, cuts := [], [], [];
    if ncpus == 1 || total < ncpus * ncpus * ncpus {
      var localpairs := CopyElems(colls, 0, total - 1);
      assert localpairs == all;
      r := Some(sort(localpairs));
      return;
    }
    var locals := LocalLists(colls, ncpus, sort);
    var chosen := Pivots(locals, sort);
    HoldsSize(locals, Lengths(locals), all);
    r, cuts := DivideAndMerge(locals, chosen, total);
    lists, pivots := locals, chosen;
    if ncpus <= 3 {
      FewCpusRoomy(all, ncpus, sort, pivots);
    }
    if AllRoomy(lists, pivots) {
      PermutesIfRoomy(lists, pivots, cuts, all, r);
    }
    if AllWide(lists, pivots) {
      SortsIfWide(lists, pivots, cuts, r);
    }
  }

  lemma HoldsSize(lists: seq<seq<Pair>>, pos: seq<nat>, out: seq<Pair>)
    requires Holds(lists, pos, out)
    ensures |out| == SumPos(pos)
  {
  }
}
