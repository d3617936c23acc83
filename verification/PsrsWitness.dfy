/** Inputs on which `psrs` does not sort, loses an element, or reads outside a list. */
module PsrsWitness {
  import opened Common
  import opened Psrs
  import opened PsrsRun
  import opened Seqs
  import opened Sublists

  function P(k: Key): Pair { Pair(k, 0, 0) }

  // --------------------------------------------------------------- sorting what is sorted

  /** Equal keys belong to equal pairs. */
  ghost predicate KeysTell(s: seq<Pair>) {
    forall i, j :: 0 <= i < |s| && 0 <= j < |s| && s[i].key == s[j].key ==> s[i] == s[j]
  }

  /** There is then only one way to sort. */
  lemma {:induction false} SortedUnique(a: seq<Pair>, b: seq<Pair>)
    requires Sorted(a) && Sorted(b) && multiset(a) == multiset(b) && KeysTell(a)
    ensures a == b
  {
    hide Sorted, KeysTell;
    assert |multiset(a)| == |a| && |multiset(b)| == |b|;
    if a != [] {
      var n := |a| - 1;
      SameLast(a, b);
      WithoutLast(a);
      WithoutLast(b);
      FrontSorted(a);
      FrontSorted(b);
      SortedUnique(a[..n], b[..n]);
      assert a == a[..n] + [a[n]] && b == b[..n] + [b[n]];
    }
  }

  lemma FrontSorted(s: seq<Pair>)
    requires s != [] && Sorted(s)
    ensures Sorted(s[..|s| - 1]) && (KeysTell(s) ==> KeysTell(s[..|s| - 1]))
  {
  }

  lemma SameLast(a: seq<Pair>, b: seq<Pair>)
    requires |a| == |b| > 0 && Sorted(a) && Sorted(b) && multiset(a) == multiset(b) && KeysTell(a)
    ensures a[|a| - 1] == b[|b| - 1]
  {
    var x, y := a[|a| - 1], b[|b| - 1];
    assert x in multiset(b) && y in multiset(a);
    var i :| 0 <= i < |b| && b[i] == x;
    var j :| 0 <= j < |a| && a[j] == y;
    assert x.key <= y.key <= x.key;
  }

  lemma AlreadySorted(sort: seq<Pair> -> seq<Pair>, s: seq<Pair>)
    requires Sorts(sort) && Sorted(s) && KeysTell(s)
    ensures sort(s) == s
  {
    SortedUnique(s, sort(s));
  }

  // --------------------------------------------------------------- two CPUs do not sort

  ghost predicate Increasing(s: seq<Pair>) {
    forall i, j :: 0 <= i < j < |s| ==> s[i].key < s[j].key
  }

  lemma IncreasingSorted(sort: seq<Pair> -> seq<Pair>, all: seq<Pair>, a: nat, b: nat)
    requires Sorts(sort) && Increasing(all) && a <= b <= |all|
    ensures sort(all[a..b]) == all[a..b] && Sorted(all[a..b])
  {
    AlreadySorted(sort, all[a..b]);
  }

  function Halves(all: seq<Pair>): (r: seq<seq<Pair>>)
    ensures |r| == 2
  {
    [all[..(|all| + 1) / 2], all[(|all| + 1) / 2..]]
  }

  /** The lists of two CPUs are the halves of the input. */
  lemma ListsOfTwo(all: seq<Pair>, sort: seq<Pair> -> seq<Pair>)
    requires Sorts(sort) && |all| >= 8 && Increasing(all)
    ensures ListsOf(all, 2, sort) == Halves(all) && NoneEmpty(Halves(all)) && AllSorted(Halves(all))
    ensures Holds(Halves(all), Lengths(Halves(all)), all)
  {
    hide Sorted, Increasing, Holds;
    var m := (|all| + 1) / 2;
    assert Chunk(all, 2, 0) == all[..m] && Chunk(all, 2, 1) == all[m..];
    assert all[0..m] == all[..m] && all[m..|all|] == all[m..];
    IncreasingSorted(sort, all, 0, m);
    IncreasingSorted(sort, all, m, |all|);
    TwoHeld(all[..m], all[m..]);
    assert all[..m] + all[m..] == all;
  }

  lemma TwoHeld(a: seq<Pair>, b: seq<Pair>)
    ensures Holds([a, b], Lengths([a, b]), a + b)
  {
    hide Holds;
    NoLists();
    HoldsAppend([], a, [], a);
    assert [] + [a] == [a] && [] + a == a;
    HoldsAppend([a], b, a, b);
    assert [a] + [b] == [a, b];
  }

  /** The pivot is an element of the second half. */
  lemma PivotOfTwo(all: seq<Pair>, sort: seq<Pair> -> seq<Pair>) returns (s: nat)
    requires Sorts(sort) && |all| >= 8 && Increasing(all) && NoneEmpty(Halves(all))
    ensures (|all| + 1) / 2 < s < |all|
    ensures var pivots := PivotsOf(Halves(all), sort); |pivots| == 2 && pivots[1] == all[s]
  {
    hide Sorts;
    var m := (|all| + 1) / 2;
    var t := (m + 1) / 2;
    s := m + (|all| - m + 1) / 2;
    SamplesOfTwo(Halves(all), all[t], all[s]);
    assert Sorted([all[t], all[s]]);
    AlreadySorted(sort, [all[t], all[s]]);
  }

  lemma SamplesOfTwo(lists: seq<seq<Pair>>, x: Pair, y: Pair)
    requires |lists| == 2 && |lists[0]| >= 2 && |lists[1]| >= 2
    requires lists[0][(|lists[0]| + 1) / 2] == x && lists[1][(|lists[1]| + 1) / 2] == y
    ensures NoneEmpty(lists) && SamplesOf(lists) == [x, y]
  {
    assert SampleAmong(lists, 0) == x && SampleAmong(lists, 1) == y;
  }

  /** With one pivot, the cut of a list is where the search puts it. */
  lemma OneCut(list: seq<Pair>, pivots: seq<Pair>)
    requires |list| >= 2 && |pivots| == 2
    ensures RowOf(list, 2, pivots) == Some([0, Found(list, 0, |list|, pivots[1]), |list|])
    ensures Roomy(list, 0, |list|, pivots, 1, 1)
  {
    hide Upper;
    var pos := Found(list, 0, |list|, pivots[1]);
    CutIs(list, 0, |list|, pivots, 1, 1, 1);
    assert [] + [pos] + [] == [pos] && [0] + [pos] + [|list|] == [0, pos, |list|];
    FewPivots(list, 0, |list|, pivots, 1, 1);
  }

  /** The first half is cut two elements early, the second not before its first element. */
  lemma CutsOfTwo(all: seq<Pair>, pivots: seq<Pair>, s: nat)
    requires |all| >= 8 && Increasing(all) && (|all| + 1) / 2 < s < |all| && |pivots| == 2 && pivots[1] == all[s]
    ensures var lists := Halves(all);
      && Found(lists[0], 0, |lists[0]|, pivots[1]) == |lists[0]| - 2
      && Found(lists[1], 0, |lists[1]|, pivots[1]) >= 1
  {
    hide Upper;
    var m := (|all| + 1) / 2;
    var low, high := all[..m], all[m..];
    FoundIs(low, 0, m, pivots[1], m - 2);
    UpperMeans(high[0..|high| - 2], pivots[1].key);
    assert high[0..|high| - 2][0].key <= pivots[1].key;
  }

  /** Two CPUs never sort an input of distinct keys that is sorted already: what they return is a
      permutation of it that is not sorted. */
  lemma TwoNeverSort(all: seq<Pair>, sort: seq<Pair> -> seq<Pair>, cuts: seq<seq<nat>>, r: Option<seq<Pair>>)
    requires |all| >= 8 && Increasing(all) && MayReturn(all, 2, sort, cuts, r)
    ensures r.Some? && multiset(r.value) == multiset(all) && !Sorted(r.value)
  {
    hide ListsOf, PivotsOf, Holds, Segments, Roomy, RowOf, Sorts, Found, CutsTile, Halves, Sorted, AllSorted,
         Increasing;
    ListsOfTwo(all, sort);
    var s := PivotOfTwo(all, sort);
    var lists, pivots := Halves(all), PivotsOf(Halves(all), sort);
    CutsOfTwo(all, pivots, s);
    BothCut(all, pivots, cuts, r);
    OnePivot(pivots);
    PermutesIfRoomy(lists, pivots, cuts, all, r);
    TileCuts(lists, cuts);
    CrossedCut(all, lists, cuts);
  }

  lemma OnePivot(pivots: seq<Pair>)
    requires |pivots| == 2
    ensures Sorted(pivots[1..])
  {
  }

  lemma BothCut(all: seq<Pair>, pivots: seq<Pair>, cuts: seq<seq<nat>>, r: Option<seq<Pair>>)
    requires |all| >= 8 && NoneEmpty(Halves(all)) && |pivots| == 2
    requires Outcome(Halves(all), pivots, cuts, r)
    ensures var lists := Halves(all);
      && AllRoomy(lists, pivots) && |cuts| == 3 && |cuts[1]| == 2
      && (forall i :: 0 <= i < 2 ==> cuts[1][i] == Found(lists[i], 0, |lists[i]|, pivots[1]))
  {
    hide Roomy, RowOf, Found, Segments, Forward;
    var lists := Halves(all);
    OneCut(lists[0], pivots);
    OneCut(lists[1], pivots);
  }

  lemma CrossedCut(all: seq<Pair>, lists: seq<seq<Pair>>, cuts: seq<seq<nat>>)
    requires |all| >= 8 && Increasing(all) && lists == Halves(all) && AreCuts(lists, cuts)
    requires cuts[1][0] == |lists[0]| - 2 && cuts[1][1] >= 1
    ensures !Separated(lists, cuts)
  {
    assert lists[0][|lists[0]| - 2].key < lists[1][0].key;
    assert !Below(lists, cuts[1]);
  }

  // -------------------------------------------------------- seven CPUs lose an element

  /** 343 elements: 147 with the key 1, 147 with the key 3, then 0, 1/2, 2 and 46 with the key 5. */
  function KeyAt(i: nat): Key {
    if i < 147 then 1.0 else if i < 294 then 3.0
    else if i == 294 then 0.0 else if i == 295 then 0.5 else if i == 296 then 2.0 else 5.0
  }

  function Stretch(a: nat, n: nat): (r: seq<Pair>)
    ensures |r| == n && forall i :: 0 <= i < n ==> r[i] == P(KeyAt(a + i))
  {
    seq(n, i requires 0 <= i < n => P(KeyAt(a + i)))
  }

  function Mixed(): seq<Pair> { Stretch(0, 343) }

  /** A list of 49 elements: ones, threes, or the rest. */
  function ListAt(i: nat): seq<Pair> { Stretch(49 * i, 49) }

  function SevenLists(): seq<seq<Pair>> { seq(7, i requires 0 <= i < 7 => ListAt(i)) }

  lemma ListAtSorted(i: nat)
    requires i < 7
    ensures Sorted(ListAt(i)) && KeysTell(ListAt(i))
  {
  }

  lemma ListsOfSeven(sort: seq<Pair> -> seq<Pair>)
    requires Sorts(sort)
    ensures ListsOf(Mixed(), 7, sort) == SevenLists() && NoneEmpty(SevenLists()) && AllSorted(SevenLists())
  {
    hide Sorted, KeysTell, Sorts;
    forall i | 0 <= i < 7 ensures sort(Chunk(Mixed(), 7, i)) == ListAt(i) && Sorted(ListAt(i)) {
      assert Chunk(Mixed(), 7, i) == ListAt(i);
      ListAtSorted(i);
      AlreadySorted(sort, ListAt(i));
    }
  }

  function SampleKey(k: nat): Key { if k < 18 then 1.0 else if k < 36 then 3.0 else 5.0 }

  function SevenPivots(): seq<Pair> { [P(1.0), P(1.0), P(1.0), P(1.0), P(3.0), P(3.0), P(5.0)] }

  lemma SampleOfSeven(k: nat)
    requires k < 42 && NoneEmpty(SevenLists())
    ensures SampleAmong(SevenLists(), k) == P(SampleKey(k))
  {
    var lcpu, i := k / 6, k % 6;
    assert SevenLists()[lcpu] == ListAt(lcpu);
    var t := (i + 1) * 7;
    assert Sample(ListAt(lcpu), 7, i) == ListAt(lcpu)[t] == P(KeyAt(49 * lcpu + t));
  }

  lemma PivotsOfSeven(sort: seq<Pair> -> seq<Pair>)
    requires Sorts(sort) && NoneEmpty(SevenLists())
    ensures PivotsOf(SevenLists(), sort) == SevenPivots()
  {
    hide Sorts, SampleAmong, SevenLists;
    var samples := seq(42, k requires 0 <= k < 42 => P(SampleKey(k)));
    assert |SevenLists()| == 7;
    forall k | 0 <= k < 42 ensures SamplesOf(SevenLists())[k] == samples[k] {
      SampleOfSeven(k);
    }
    assert SamplesOf(SevenLists()) == samples;
    AlreadySorted(sort, samples);
  }

  /** One pivot. */
  lemma Leaf(list: seq<Pair>, start: nat, stop: nat, pivots: seq<Pair>, fp: nat, pos: nat)
    requires start < stop <= |list| && InReach(start, stop) && fp < |pivots|
    requires Found(list, start, stop, pivots[fp]) == pos
    ensures Cut(list, start, stop, pivots, fp, fp) == Some([pos])
  {
    hide Found;
    CutIs(list, start, stop, pivots, fp, fp, fp);
    assert [] + [pos] + [] == [pos];
  }

  /** The ones: every pivot is at least as great. */
  lemma RowOfOnes(i: nat)
    requires i < 3
    ensures RowOf(ListAt(i), 7, SevenPivots()) == Some([0, 45, 45, 47, 47, 47, 47, 49])
  {
    hide Cut, Found;
    var list, p := ListAt(i), SevenPivots();
    ListAtSorted(i);
    FoundIs(list, 0, 49, p[3], 47);
    FoundIs(list, 0, 47, p[1], 45);
    FoundIs(list, 45, 47, p[2], 45);
    FoundIs(list, 47, 49, p[5], 47);
    FoundIs(list, 47, 49, p[6], 47);
    Leaf(list, 45, 47, p, 2, 45);
    Leaf(list, 47, 49, p, 6, 47);
    CutIs(list, 0, 47, p, 1, 1, 2);
    assert [] + [45] + [45] == [45, 45];
    CutIs(list, 47, 49, p, 4, 5, 6);
    assert Repeat(47, 1) == [47] && [47] + [47] + [47] == [47, 47, 47];
    CutIs(list, 0, 49, p, 1, 3, 6);
    assert [0] + ([45, 45] + [47] + [47, 47, 47]) + [49] == [0, 45, 45, 47, 47, 47, 47, 49];
  }

  /** The threes: greater than the first three pivots. */
  lemma RowOfThrees(i: nat)
    requires 3 <= i < 6
    ensures RowOf(ListAt(i), 7, SevenPivots()) == Some([0, 0, 0, 0, 45, 47, 47, 49])
  {
    hide Cut, Found;
    var list, p := ListAt(i), SevenPivots();
    ListAtSorted(i);
    FoundIs(list, 0, 49, p[3], 0);
    FoundIs(list, 0, 49, p[5], 47);
    FoundIs(list, 0, 47, p[4], 45);
    FoundIs(list, 47, 49, p[6], 47);
    Leaf(list, 0, 47, p, 4, 45);
    Leaf(list, 47, 49, p, 6, 47);
    CutIs(list, 0, 49, p, 4, 5, 6);
    assert [45] + [47] + [47] == [45, 47, 47] && Repeat(0, 2) == [0, 0];
    CutIs(list, 0, 49, p, 1, 3, 6);
    assert [0] + ([0, 0] + [0] + [45, 47, 47]) + [49] == [0, 0, 0, 0, 45, 47, 47, 49];
  }

  /** The rest: pivot 5 leaves the one element 2 for pivot 4, whose cut goes back before it. */
  lemma RowOfRest()
    ensures RowOf(ListAt(6), 7, SevenPivots()) == Some([0, 0, 0, 2, 1, 3, 47, 49])
  {
    hide Cut;
    var list, p := ListAt(6), SevenPivots();
    ListAtSorted(6);
    FoundIs(list, 0, 49, p[3], 2);
    FoundIs(list, 0, 2, p[1], 0);
    FoundIs(list, 0, 2, p[2], 0);
    FoundIs(list, 2, 49, p[5], 3);
    assert Found(list, 2, 3, p[4]) == 1;
    FoundIs(list, 3, 49, p[6], 47);
    RestJoined(list, p);
  }

  lemma RestJoined(list: seq<Pair>, p: seq<Pair>)
    requires |list| == 49 && |p| == 7
    requires Found(list, 0, 49, p[3]) == 2 && Found(list, 0, 2, p[1]) == 0 && Found(list, 0, 2, p[2]) == 0
    requires Found(list, 2, 49, p[5]) == 3 && Found(list, 2, 3, p[4]) == 1 && Found(list, 3, 49, p[6]) == 47
    ensures RowOf(list, 7, p) == Some([0, 0, 0, 2, 1, 3, 47, 49])
  {
    hide Cut, Found;
    Leaf(list, 0, 2, p, 2, 0);
    Leaf(list, 2, 3, p, 4, 1);
    Leaf(list, 3, 49, p, 6, 47);
    CutIs(list, 0, 2, p, 1, 1, 2);
    assert [] + [0] + [0] == [0, 0];
    CutIs(list, 2, 49, p, 4, 5, 6);
    assert [1] + [3] + [47] == [1, 3, 47];
    CutIs(list, 0, 49, p, 1, 3, 6);
    assert [0] + ([0, 0] + [2] + [1, 3, 47]) + [49] == [0, 0, 0, 2, 1, 3, 47, 49];
  }

  lemma SumTo(a: seq<nat>, k: nat)
    requires k < |a|
    ensures SumPos(a[..k + 1]) == SumPos(a[..k]) + a[k]
  {
    assert a[..k + 1][..k] == a[..k];
  }

  /** The same cut in the three lists of ones and in the three of threes. */
  function Spread(ones: nat, threes: nat, rest: nat): seq<nat> { [ones, ones, ones, threes, threes, threes, rest] }

  lemma SumSpread(a: nat, b: nat, c: nat)
    ensures SumPos(Spread(a, b, c)) == 3 * a + 3 * b + c
  {
    hide SumPos;
    var s := Spread(a, b, c);
    SumTo(s, 0);
    SumTo(s, 1);
    SumTo(s, 2);
    SumTo(s, 3);
    SumTo(s, 4);
    SumTo(s, 5);
    SumTo(s, 6);
    ZeroSum(s[..0]);
    assert s[..7] == s;
  }

  /** The rows of the seven lists. */
  function RowAt(i: nat): seq<nat> {
    if i < 3 then [0, 45, 45, 47, 47, 47, 47, 49]
    else if i < 6 then [0, 0, 0, 0, 45, 47, 47, 49]
    else [0, 0, 0, 2, 1, 3, 47, 49]
  }

  ghost predicate SevenCuts(cuts: seq<seq<nat>>) {
    cuts == [Spread(0, 0, 0), Spread(45, 0, 0), Spread(45, 0, 0), Spread(47, 0, 2),
             Spread(47, 45, 1), Spread(47, 47, 3), Spread(47, 47, 47), Spread(49, 49, 49)]
  }

  lemma RowOfSeven(i: nat)
    requires i < 7
    ensures RowOf(ListAt(i), 7, SevenPivots()) == Some(RowAt(i))
  {
    hide RowOf, ListAt, SevenPivots;
    if i < 3 {
      RowOfOnes(i);
    } else if i < 6 {
      RowOfThrees(i);
    } else {
      RowOfRest();
    }
  }

  lemma CutsOfSeven(cuts: seq<seq<nat>>)
    requires NoneEmpty(SevenLists())
    ensures Defined(SevenLists(), SevenPivots())
    ensures CutsOf(SevenLists(), SevenPivots(), cuts) ==> SevenCuts(cuts)
  {
    hide RowOf, ListAt, RowAt;
    var lists, p := SevenLists(), SevenPivots();
    forall i | 0 <= i < 7 ensures RowOf(lists[i], 7, p) == Some(RowAt(i)) {
      RowOfSeven(i);
    }
    if CutsOf(lists, p, cuts) {
      FromRows(cuts);
    }
  }

  lemma FromRows(cuts: seq<seq<nat>>)
    requires |cuts| == 8 && (forall l :: 0 <= l < 8 ==> |cuts[l]| == 7)
    requires forall l, i :: 0 <= l < 8 && 0 <= i < 7 ==> |RowAt(i)| == 8 && cuts[l][i] == RowAt(i)[l]
    ensures SevenCuts(cuts)
  {
    forall l | 0 <= l < 8 ensures cuts[l] == Spread(RowAt(0)[l], RowAt(3)[l], RowAt(6)[l]) {
      forall i | 0 <= i < 7 ensures cuts[l][i] == Spread(RowAt(0)[l], RowAt(3)[l], RowAt(6)[l])[i] {
        assert cuts[l][i] == RowAt(i)[l];
      }
    }
  }

  lemma SevenForward(cuts: seq<seq<nat>>)
    requires SevenCuts(cuts)
    ensures Forward(cuts)
  {
    hide SumPos, Spread;
    SumSpread(0, 0, 0);
    SumSpread(45, 0, 0);
    SumSpread(47, 0, 2);
    SumSpread(47, 45, 1);
    SumSpread(47, 47, 3);
    SumSpread(47, 47, 47);
    SumSpread(49, 49, 49);
  }

  /** Seven CPUs sorting these elements write one of them twice and so lose another. */
  lemma NotPermuted(sort: seq<Pair> -> seq<Pair>, cuts: seq<seq<nat>>, r: Option<seq<Pair>>)
    requires MayReturn(Mixed(), 7, sort, cuts, r)
    ensures r.Some? && |r.value| == |Mixed()| && multiset(r.value) != multiset(Mixed())
  {
    hide ListsOf, PivotsOf, Segments, Sorts, Forward, CutsOf, Defined, SevenPivots, ListAt, Mixed, RowAt;
    ListsOfSeven(sort);
    PivotsOfSeven(sort);
    CutsOfSeven(cuts);
    SevenForward(cuts);
    SevenTwice(cuts, r.value);
    HalfOnce();
    if multiset(r.value) == multiset(Mixed()) {
      SameCounts(r.value, Mixed(), P(0.5));
    }
  }

  lemma HalfOnce()
    ensures |Mixed()| == 343 && Count(Mixed(), P(0.5)) == 1
  {
    hide Count;
    CountUnique(Mixed(), 295);
  }

  lemma SevenTwice(cuts: seq<seq<nat>>, out: seq<Pair>)
    requires SevenCuts(cuts) && Segments(SevenLists(), cuts, 7, out)
    ensures |out| == 343 && Count(out, P(0.5)) >= 2
  {
    hide Segment, Count, SumPos;
    SumSpread(49, 49, 49);
    assert cuts[2] == Spread(45, 0, 0) && cuts[3] == Spread(47, 0, 2);
    assert cuts[4] == Spread(47, 45, 1) && cuts[5] == Spread(47, 47, 3);
    assert SevenLists()[6][1] == P(0.5);
    WrittenTwice(SevenLists(), cuts, out, 2, 4, 6, 1);
  }

  // ------------------------------------------------------- four CPUs read outside a list

  /** 64 elements: 48 with the key 1, then 0 and 15 with the key 5. */
  function KeyOf(i: nat): Key { if i < 48 then 1.0 else if i == 48 then 0.0 else 5.0 }

  function Span(a: nat, n: nat): (r: seq<Pair>)
    ensures |r| == n && forall i :: 0 <= i < n ==> r[i] == P(KeyOf(a + i))
  {
    seq(n, i requires 0 <= i < n => P(KeyOf(a + i)))
  }

  function FourLists(): seq<seq<Pair>> { seq(4, i requires 0 <= i < 4 => Span(16 * i, 16)) }

  lemma ListsOfFour(sort: seq<Pair> -> seq<Pair>)
    requires Sorts(sort)
    ensures ListsOf(Span(0, 64), 4, sort) == FourLists() && NoneEmpty(FourLists())
  {
    hide Sorts;
    forall i | 0 <= i < 4 ensures sort(Chunk(Span(0, 64), 4, i)) == Span(16 * i, 16) {
      assert Chunk(Span(0, 64), 4, i) == Span(16 * i, 16);
      AlreadySorted(sort, Span(16 * i, 16));
    }
  }

  function FourKey(k: nat): Key { if k < 9 then 1.0 else 5.0 }

  lemma SampleOfFour(k: nat)
    requires k < 12 && NoneEmpty(FourLists())
    ensures SampleAmong(FourLists(), k) == P(FourKey(k))
  {
    var lcpu, i := k / 3, k % 3;
    assert FourLists()[lcpu] == Span(16 * lcpu, 16);
    var t := (i + 1) * 4;
    assert Sample(Span(16 * lcpu, 16), 4, i) == Span(16 * lcpu, 16)[t] == P(KeyOf(16 * lcpu + t));
  }

  lemma PivotsOfFour(sort: seq<Pair> -> seq<Pair>)
    requires Sorts(sort) && NoneEmpty(FourLists())
    ensures PivotsOf(FourLists(), sort) == [P(1.0), P(1.0), P(1.0), P(5.0)]
  {
    hide Sorts, SampleAmong, FourLists;
    var samples := seq(12, k requires 0 <= k < 12 => P(FourKey(k)));
    assert |FourLists()| == 4;
    forall k | 0 <= k < 12 ensures SamplesOf(FourLists())[k] == samples[k] {
      SampleOfFour(k);
    }
    assert SamplesOf(FourLists()) == samples;
    AlreadySorted(sort, samples);
  }

  /** In the last list one element alone is not greater than pivot 2: pivot 1 is searched for in
      the range of this element, which nothing precedes. */
  lemma ReadsOutside(sort: seq<Pair> -> seq<Pair>, cuts: seq<seq<nat>>, r: Option<seq<Pair>>)
    requires MayReturn(Span(0, 64), 4, sort, cuts, r)
    ensures r == None
  {
    hide ListsOf, PivotsOf, Segments, Sorts, Forward;
    ListsOfFour(sort);
    PivotsOfFour(sort);
    LastOfFour();
    assert FourLists()[3] == Span(48, 16);
  }

  lemma LastOfFour()
    ensures RowOf(Span(48, 16), 4, [P(1.0), P(1.0), P(1.0), P(5.0)]) == None
  {
    hide Cut, Found;
    var list, p := Span(48, 16), [P(1.0), P(1.0), P(1.0), P(5.0)];
    FoundIs(list, 0, 16, p[2], 1);
    OutOfReach(list, 0, 1, p, 1, 1);
    CutIs(list, 0, 16, p, 1, 2, 3);
  }
}
