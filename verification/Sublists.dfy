/** How `sublists` divides a sorted list: benchmarks/metis/lib/psrs.c:56-88.

    Its comment promises, for each pivot, the first element greater than it.  The search is
    given two elements too few: `PromiseKept` says exactly when the promise is kept all the same.
    In a range of one element the search is even given the count -1; `RowIff` says exactly when
    this does not happen, and that then, and only then, the pieces of the list are consecutive.
    Ranges are half open here: `stop` is one more than the `end` of the source. */
module Sublists {
  import opened Common
  import opened Psrs
  import BSearch

  function KeyCmp(a: Pair, b: Pair): int {
    if a.key < b.key then -1 else if a.key == b.key then 0 else 1
  }

  ghost predicate SortedPivots(pivots: seq<Pair>, fp: nat, lp: nat) {
    lp < |pivots| && forall i, j :: fp <= i < j <= lp ==> pivots[i].key <= pivots[j].key
  }

  function Repeat(v: nat, n: nat): (r: seq<nat>)
    ensures |r| == n && forall i :: 0 <= i < n ==> r[i] == v
  {
    if n == 0 then [] else [v] + Repeat(v, n - 1)
  }

  function Upper(list: seq<Pair>, k: Key): (r: nat)
    ensures r <= |list|
  {
    if list == [] then 0
    else if list[|list| - 1].key <= k then |list|
    else Upper(list[..|list| - 1], k)
  }

  /** Upper is the first element greater than k. */
  lemma {:induction false} UpperMeans(list: seq<Pair>, k: Key)
    requires Sorted(list)
    ensures forall t :: 0 <= t < |list| ==> (t < Upper(list, k) <==> list[t].key <= k)
  {
    if list != [] && list[|list| - 1].key > k {
      var front := list[..|list| - 1];
      UpperMeans(front, k);
      assert forall t :: 0 <= t < |front| ==> front[t] == list[t];
    }
  }

  lemma UpperMono(list: seq<Pair>, j: Key, k: Key)
    requires Sorted(list) && j <= k
    ensures Upper(list, j) <= Upper(list, k)
  {
    hide Upper;
    UpperMeans(list, j);
    UpperMeans(list, k);
    assert Upper(list, k) < |list| ==> k < list[Upper(list, k)].key;
  }

  /** What the comment promises for pivots fp to lp. */
  ghost predicate Promised(list: seq<Pair>, start: nat, stop: nat, pivots: seq<Pair>, fp: nat, lp: nat, r: seq<nat>)
    requires start <= stop <= |list| && fp <= lp < |pivots|
  {
    |r| == lp + 1 - fp && forall l :: fp <= l <= lp ==> r[l - fp] == start + Upper(list[start..stop], pivots[l].key)
  }

  /** With one element in the range the search compares with the one two places before it. */
  predicate InReach(start: nat, stop: nat) { start + 2 <= stop || 2 <= start }

  /** Where the search puts the cut for a pivot in [start, stop). */
  function Found(list: seq<Pair>, start: nat, stop: nat, pivot: Pair): (pos: nat)
    requires start < stop <= |list| && InReach(start, stop)
    ensures start <= pos + 1 && pos < stop && (start + 2 <= stop ==> start <= pos <= stop - 2)
  {
    if start + 2 <= stop then start + Upper(list[start..stop - 2], pivot.key)
    else if list[start - 2].key <= pivot.key then start - 1
    else start
  }

  /** The cuts for pivots fp to lp.  Of one element with less than two before it the search reads
      outside the list, and nothing is said of what follows. */
  function Cut(list: seq<Pair>, start: nat, stop: nat, pivots: seq<Pair>, fp: nat, lp: nat): (r: Option<seq<nat>>)
    requires start < stop <= |list| && fp <= lp < |pivots|
    ensures r.Some? ==> |r.value| == lp + 1 - fp
    decreases lp - fp, 1
  {
    if !InReach(start, stop) then None else
    var mid := (fp + lp) / 2;
    var pos := Found(list, start, stop, pivots[mid]);
    var left, right := CutLeft(list, start, pos, pivots, fp, mid), CutRight(list, pos, stop, pivots, mid, lp);
    if left.None? || right.None? then None else Some(left.value + [pos] + right.value)
  }

  /** The pivots below the middle one divide what is left of its cut; if that is nothing they
      are cut at the start. */
  function CutLeft(list: seq<Pair>, start: nat, pos: nat, pivots: seq<Pair>, fp: nat, mid: nat): (r: Option<seq<nat>>)
    requires start <= |list| && pos <= |list| && fp <= mid < |pivots|
    ensures r.Some? ==> |r.value| == mid - fp
    decreases mid - fp, 0
  {
    if fp == mid then Some([])
    else if start < pos then Cut(list, start, pos, pivots, fp, mid - 1)
    else Some(Repeat(start, mid - fp))
  }

  /** The pivots above the middle one divide the rest, which is never empty. */
  function CutRight(list: seq<Pair>, pos: nat, stop: nat, pivots: seq<Pair>, mid: nat, lp: nat): (r: Option<seq<nat>>)
    requires pos < stop <= |list| && mid <= lp < |pivots|
    ensures r.Some? ==> |r.value| == lp - mid
    decreases lp - mid, 0
  {
    if mid == lp then Some([]) else Cut(list, pos, stop, pivots, mid + 1, lp)
  }

  /** Every range that is searched holds two elements greater than its middle pivot. */
  ghost predicate Wide(list: seq<Pair>, start: nat, stop: nat, pivots: seq<Pair>, fp: nat, lp: nat)
    requires start < stop <= |list| && fp <= lp < |pivots|
    decreases lp - fp
  {
    var mid := (fp + lp) / 2;
    var pos := start + Upper(list[start..stop], pivots[mid].key);
    && stop - start >= 2
    && pivots[mid].key < list[stop - 2].key
    && (fp < mid && start < pos ==> Wide(list, start, pos, pivots, fp, mid - 1))
    && (mid < lp ==> pos < stop && Wide(list, pos, stop, pivots, mid + 1, lp))
  }

  /** What lies before the range is not greater than any of its pivots. */
  ghost predicate NotAbove(list: seq<Pair>, start: nat, pivots: seq<Pair>, fp: nat)
    requires start <= |list| && fp < |pivots|
  {
    var whole := forall t :: 0 <= t < start ==> list[t].key <= pivots[fp].key;
    whole
  }

  lemma UpperIs(list: seq<Pair>, k: Key, r: nat)
    requires Sorted(list) && r <= |list|
    requires forall t :: 0 <= t < r ==> list[t].key <= k
    requires r < |list| ==> k < list[r].key
    ensures Upper(list, k) == r
  {
    hide Upper;
    UpperMeans(list, k);
    var u := Upper(list, k);
    assert u < |list| ==> k < list[u].key;
    assert r < |list| ==> !(r < u);
  }

  lemma FoundIs(list: seq<Pair>, start: nat, stop: nat, pivot: Pair, pos: nat)
    requires Sorted(list) && start + 2 <= stop <= |list| && start <= pos <= stop - 2
    requires forall t :: start <= t < pos ==> list[t].key <= pivot.key
    requires pos < stop - 2 ==> pivot.key < list[pos].key
    ensures Found(list, start, stop, pivot) == pos
  {
    SortedSlice(list, start, stop - 2);
    UpperIs(list[start..stop - 2], pivot.key, pos - start);
  }

  /** One cut is the promised one if and only if the last but one element is greater. */
  lemma FoundIsUpper(list: seq<Pair>, start: nat, stop: nat, pivot: Pair)
    requires Sorted(list) && start + 2 <= stop <= |list|
    ensures start <= Found(list, start, stop, pivot)
    ensures Found(list, start, stop, pivot) == start + Upper(list[start..stop], pivot.key)
        <==> pivot.key < list[stop - 2].key
  {
    hide Upper;
    var all, few := list[start..stop], list[start..stop - 2];
    var r := Upper(few, pivot.key);
    SortedSlice(list, start, stop);
    SortedSlice(list, start, stop - 2);
    UpperMeans(few, pivot.key);
    UpperMeans(all, pivot.key);
    assert all[..stop - 2 - start] == few;
    assert list[stop - 2] == all[stop - 2 - start];
    if pivot.key < list[stop - 2].key {
      forall t | 0 <= t < r ensures all[t].key <= pivot.key {
        assert all[t] == few[t];
      }
      assert r < |few| ==> all[r] == few[r];
      UpperIs(all, pivot.key, r);
    } else {
      assert Upper(all, pivot.key) > stop - 2 - start;
    }
  }

  /** Below a smaller pivot the elements behind the cut of a greater one do not matter. */
  lemma UpperLeft(list: seq<Pair>, start: nat, stop: nat, j: Key, k: Key)
    requires Sorted(list) && start <= stop <= |list| && j <= k
    ensures var pos := start + Upper(list[start..stop], k); Upper(list[start..pos], j) == Upper(list[start..stop], j)
  {
    hide Upper;
    var all := list[start..stop];
    SortedSlice(list, start, stop);
    var n := Upper(all, k);
    assert list[start..start + n] == all[..n];
    UpperFront(all, j, k);
  }

  lemma UpperFront(all: seq<Pair>, j: Key, k: Key)
    requires Sorted(all) && j <= k
    ensures Upper(all[..Upper(all, k)], j) == Upper(all, j)
  {
    hide Upper;
    UpperMono(all, j, k);
    UpperMeans(all, j);
    SortedSlice(all, 0, Upper(all, k));
    UpperIs(all[..Upper(all, k)], j, Upper(all, j));
  }

  /** Above a greater pivot the elements before the cut of a smaller one do not matter. */
  lemma UpperRight(list: seq<Pair>, start: nat, stop: nat, j: Key, k: Key)
    requires Sorted(list) && start <= stop <= |list| && j <= k
    ensures var pos := start + Upper(list[start..stop], j);
      pos + Upper(list[pos..stop], k) == start + Upper(list[start..stop], k)
  {
    hide Upper;
    var all := list[start..stop];
    SortedSlice(list, start, stop);
    var n := Upper(all, j);
    assert list[start + n..stop] == all[n..];
    UpperBack(all, j, k);
  }

  lemma UpperBack(all: seq<Pair>, j: Key, k: Key)
    requires Sorted(all) && j <= k
    ensures Upper(all, j) + Upper(all[Upper(all, j)..], k) == Upper(all, k)
  {
    hide Upper;
    UpperMono(all, j, k);
    UpperMeans(all, k);
    SortedSlice(all, Upper(all, j), |all|);
    assert all[Upper(all, j)..|all|] == all[Upper(all, j)..];
    UpperIs(all[Upper(all, j)..], k, Upper(all, k) - Upper(all, j));
  }

  lemma LeftSame(list: seq<Pair>, start: nat, stop: nat, pivots: seq<Pair>, fp: nat, mid: nat, lp: nat, r: seq<nat>)
    requires Sorted(list) && start <= stop <= |list| && fp < mid <= lp && SortedPivots(pivots, fp, lp)
    ensures var pos := start + Upper(list[start..stop], pivots[mid].key);
      Promised(list, start, pos, pivots, fp, mid - 1, r) <==> Promised(list, start, stop, pivots, fp, mid - 1, r)
  {
    forall l | fp <= l < mid {
      UpperLeft(list, start, stop, pivots[l].key, pivots[mid].key);
    }
  }

  lemma RightSame(list: seq<Pair>, start: nat, stop: nat, pivots: seq<Pair>, fp: nat, mid: nat, lp: nat, r: seq<nat>)
    requires Sorted(list) && start <= stop <= |list| && fp <= mid < lp && SortedPivots(pivots, fp, lp)
    ensures var pos := start + Upper(list[start..stop], pivots[mid].key);
      Promised(list, pos, stop, pivots, mid + 1, lp, r) <==> Promised(list, start, stop, pivots, mid + 1, lp, r)
  {
    forall l | mid < l <= lp {
      UpperRight(list, start, stop, pivots[mid].key, pivots[l].key);
    }
  }

  /** If nothing is left of the cut the pivots left of it are cut there too. */
  lemma NothingLeft(list: seq<Pair>, start: nat, stop: nat, pivots: seq<Pair>, fp: nat, mid: nat, lp: nat)
    requires Sorted(list) && start <= stop <= |list| && fp < mid <= lp && SortedPivots(pivots, fp, lp)
    requires Upper(list[start..stop], pivots[mid].key) == 0
    ensures Promised(list, start, stop, pivots, fp, mid - 1, Repeat(start, mid - fp))
  {
    SortedSlice(list, start, stop);
    forall l | fp <= l < mid ensures Upper(list[start..stop], pivots[l].key) == 0 {
      UpperMono(list[start..stop], pivots[l].key, pivots[mid].key);
    }
  }

  /** The promise for a row is the promise for its left part, its middle and its right part. */
  lemma Joined(list: seq<Pair>, start: nat, stop: nat, pivots: seq<Pair>, fp: nat, mid: nat, lp: nat, left: seq<nat>,
               pos: nat, right: seq<nat>)
    requires start <= stop <= |list| && fp <= mid <= lp < |pivots| && |left| == mid - fp && |right| == lp - mid
    ensures Promised(list, start, stop, pivots, fp, lp, left + [pos] + right) <==>
      && pos == start + Upper(list[start..stop], pivots[mid].key)
      && (fp < mid ==> Promised(list, start, stop, pivots, fp, mid - 1, left))
      && (mid < lp ==> Promised(list, start, stop, pivots, mid + 1, lp, right))
  {
    hide Upper;
    var r := left + [pos] + right;
    assert r[mid - fp] == pos;
    assert forall i :: 0 <= i < mid - fp ==> r[i] == left[i];
    assert forall i :: mid - fp < i <= lp - fp ==> r[i] == right[i - (mid + 1 - fp)];
  }

  /** The left part keeps its promise if and only if its ranges are wide. */
  lemma LeftKept(list: seq<Pair>, start: nat, stop: nat, pivots: seq<Pair>, fp: nat, mid: nat, lp: nat)
    requires Sorted(list) && start < stop <= |list| && fp <= mid <= lp && SortedPivots(pivots, fp, lp)
    requires NotAbove(list, start, pivots, fp)
    ensures var pos := start + Upper(list[start..stop], pivots[mid].key);
      var r := CutLeft(list, start, pos, pivots, fp, mid);
      (fp < mid && start < pos ==> Wide(list, start, pos, pivots, fp, mid - 1)) <==>
      (r.Some? && (fp < mid ==> Promised(list, start, stop, pivots, fp, mid - 1, r.value)))
    decreases mid - fp, 0
  {
    hide Upper, Found, Sorted, Repeat, Promised, Wide, Cut, NotAbove;
    var pos := start + Upper(list[start..stop], pivots[mid].key);
    if fp == mid {
    } else if start < pos {
      PromiseKept(list, start, pos, pivots, fp, mid - 1);
      var r := Cut(list, start, pos, pivots, fp, mid - 1);
      if r.Some? {
        LeftSame(list, start, stop, pivots, fp, mid, lp, r.value);
      }
    } else {
      NothingLeft(list, start, stop, pivots, fp, mid, lp);
    }
  }

  lemma RightKept(list: seq<Pair>, start: nat, stop: nat, pivots: seq<Pair>, fp: nat, mid: nat, lp: nat)
    requires Sorted(list) && start < stop <= |list| && fp <= mid <= lp && SortedPivots(pivots, fp, lp)
    requires NotAbove(list, start, pivots, fp)
    requires start + Upper(list[start..stop], pivots[mid].key) < stop
    ensures var pos := start + Upper(list[start..stop], pivots[mid].key);
      var r := CutRight(list, pos, stop, pivots, mid, lp);
      (mid < lp ==> Wide(list, pos, stop, pivots, mid + 1, lp)) <==>
      (r.Some? && (mid < lp ==> Promised(list, start, stop, pivots, mid + 1, lp, r.value)))
    decreases lp - mid, 0
  {
    hide Upper, Found, Sorted, Repeat, Promised, Wide, Cut, NotAbove;
    var pos := start + Upper(list[start..stop], pivots[mid].key);
    if mid < lp {
      StillNotAbove(list, start, stop, pos, pivots, fp, mid, lp);
      PromiseKept(list, pos, stop, pivots, mid + 1, lp);
      var r := Cut(list, pos, stop, pivots, mid + 1, lp);
      if r.Some? {
        RightSame(list, start, stop, pivots, fp, mid, lp, r.value);
      }
    }
  }

  /** `sublists` keeps the promise of its comment if and only if every range it searches has
      two elements greater than the pivot searched for. */
  lemma {:induction false} PromiseKept(list: seq<Pair>, start: nat, stop: nat, pivots: seq<Pair>, fp: nat, lp: nat)
    requires Sorted(list) && start < stop <= |list| && fp <= lp && SortedPivots(pivots, fp, lp)
    requires NotAbove(list, start, pivots, fp)
    ensures Wide(list, start, stop, pivots, fp, lp) <==>
      var r := Cut(list, start, stop, pivots, fp, lp); r.Some? && Promised(list, start, stop, pivots, fp, lp, r.value)
    decreases lp - fp, 1
  {
    hide Upper, Found, Sorted, Repeat, Promised, CutLeft, CutRight, Cut, Wide, NotAbove;
    if stop - start < 2 {
      Narrow(list, start, stop, pivots, fp, lp);
      NarrowFails(list, start, stop, pivots, fp, lp);
      return;
    }
    var mid := (fp + lp) / 2;
    CutIs(list, start, stop, pivots, fp, mid, lp);
    WideIs(list, start, stop, pivots, fp, mid, lp);
    FoundIsUpper(list, start, stop, pivots[mid]);
    if pivots[mid].key < list[stop - 2].key {
      LeftKept(list, start, stop, pivots, fp, mid, lp);
      RightKept(list, start, stop, pivots, fp, mid, lp);
    }
    var pos := Found(list, start, stop, pivots[mid]);
    var left, right := CutLeft(list, start, pos, pivots, fp, mid), CutRight(list, pos, stop, pivots, mid, lp);
    if left.Some? && right.Some? {
      Joined(list, start, stop, pivots, fp, mid, lp, left.value, pos, right.value);
    }
  }

  /** The right part starts at a cut for a smaller pivot. */
  lemma StillNotAbove(list: seq<Pair>, start: nat, stop: nat, pos: nat, pivots: seq<Pair>, fp: nat, mid: nat, lp: nat)
    requires Sorted(list) && start < stop <= |list| && fp <= mid < lp < |pivots| && SortedPivots(pivots, fp, lp)
    requires NotAbove(list, start, pivots, fp) && pos <= start + Upper(list[start..stop], pivots[mid].key)
    ensures pos <= stop && NotAbove(list, pos, pivots, mid + 1)
  {
    hide Upper, SortedPivots;
    SortedSlice(list, start, stop);
    UpperMeans(list[start..stop], pivots[mid].key);
    PivotOrder(pivots, fp, lp, fp, mid + 1);
    PivotOrder(pivots, fp, lp, mid, mid + 1);
    forall t | 0 <= t < pos ensures list[t].key <= pivots[mid + 1].key {
      if start <= t {
        assert list[start..stop][t - start].key <= pivots[mid].key;
      }
    }
  }

  lemma PivotOrder(pivots: seq<Pair>, fp: nat, lp: nat, i: nat, j: nat)
    requires SortedPivots(pivots, fp, lp) && fp <= i <= j <= lp
    ensures pivots[i].key <= pivots[j].key
  {
  }

  /** In a range of one element the search goes back one place, to before the range. */
  lemma OneElement(list: seq<Pair>, start: nat, pivots: seq<Pair>, fp: nat, mid: nat, lp: nat)
    requires 2 <= start < |list| && fp <= mid <= lp && SortedPivots(pivots, fp, lp)
    requires NotAbove(list, start, pivots, fp)
    ensures Found(list, start, start + 1, pivots[mid]) == start - 1
  {
    PivotOrder(pivots, fp, lp, fp, mid);
    assert list[start - 2].key <= pivots[fp].key;
  }

  lemma Narrow(list: seq<Pair>, start: nat, stop: nat, pivots: seq<Pair>, fp: nat, lp: nat)
    requires start + 1 == stop <= |list| && fp <= lp < |pivots| && SortedPivots(pivots, fp, lp)
    requires NotAbove(list, start, pivots, fp)
    ensures !Wide(list, start, stop, pivots, fp, lp)
    ensures var r := Cut(list, start, stop, pivots, fp, lp); r.Some? ==> r.value[(fp + lp) / 2 - fp] == start - 1
  {
    hide Upper, SortedPivots, NotAbove;
    if InReach(start, stop) {
      var mid := (fp + lp) / 2;
      OneElement(list, start, pivots, fp, mid, lp);
      CutIs(list, start, stop, pivots, fp, mid, lp);
    }
  }

  lemma NarrowFails(list: seq<Pair>, start: nat, stop: nat, pivots: seq<Pair>, fp: nat, lp: nat)
    requires start < stop <= |list| && fp <= lp < |pivots|
    ensures var r := Cut(list, start, stop, pivots, fp, lp);
      r.Some? && r.value[(fp + lp) / 2 - fp] < start ==> !Promised(list, start, stop, pivots, fp, lp, r.value)
  {
    hide Cut;
    var r, mid := Cut(list, start, stop, pivots, fp, lp), (fp + lp) / 2;
    if r.Some? && Promised(list, start, stop, pivots, fp, lp, r.value) {
      assert r.value[mid - fp] == start + Upper(list[start..stop], pivots[mid].key);
    }
  }

  lemma CutIs(list: seq<Pair>, start: nat, stop: nat, pivots: seq<Pair>, fp: nat, mid: nat, lp: nat)
    requires start < stop <= |list| && InReach(start, stop) && fp <= lp < |pivots| && mid == (fp + lp) / 2
    ensures var pos := Found(list, start, stop, pivots[mid]);
      var left, right := CutLeft(list, start, pos, pivots, fp, mid), CutRight(list, pos, stop, pivots, mid, lp);
      Cut(list, start, stop, pivots, fp, lp) == if left.None? ||
        right.None? then None else Some(left.value + [pos] + right.value)
  {
    hide CutLeft, CutRight, Found;
  }

  lemma WideIs(list: seq<Pair>, start: nat, stop: nat, pivots: seq<Pair>, fp: nat, mid: nat, lp: nat)
    requires start + 2 <= stop <= |list| && fp <= lp < |pivots| && mid == (fp + lp) / 2
    ensures var up := start + Upper(list[start..stop], pivots[mid].key);
      Wide(list, start, stop, pivots, fp, lp) <==>
        && pivots[mid].key < list[stop - 2].key
        && (fp < mid && start < up ==> Wide(list, start, up, pivots, fp, mid - 1))
        && (mid < lp ==> up < stop && Wide(list, up, stop, pivots, mid + 1, lp))
  {
    hide Upper;
  }

  /** For two CPUs there is one pivot: the cut is right unless one of the last two elements of
      the list is not greater than it. */
  lemma TwoCpus(list: seq<Pair>, pivots: seq<Pair>)
    requires Sorted(list) && |list| >= 2 && |pivots| >= 2
    ensures var r := Cut(list, 0, |list|, pivots, 1, 1);
      r.Some? && (Promised(list, 0, |list|, pivots, 1, 1, r.value) <==> pivots[1].key < list[|list| - 2].key)
  {
    PromiseKept(list, 0, |list|, pivots, 1, 1);
  }

  /** The comment does not hold of the code: of two CPUs that sort the keys 1 to 8, the first has
      the list 1, 2, 3, 4, all of it at most the pivot 7, yet cuts it at 2. */
  lemma CommentFails()
    ensures var list, p := [Pair(1.0, 0, 0), Pair(2.0, 0, 0), Pair(3.0, 0, 0), Pair(4.0, 0, 0)], Pair(7.0, 0, 0);
      Sorted(list) && Cut(list, 0, 4, [p, p], 1, 1) == Some([2]) && Upper(list, p.key) == 4
  {
    var list := [Pair(1.0, 0, 0), Pair(2.0, 0, 0), Pair(3.0, 0, 0), Pair(4.0, 0, 0)];
    var pivots := [Pair(7.0, 0, 0), Pair(7.0, 0, 0)];
    assert list[0..2] == [Pair(1.0, 0, 0), Pair(2.0, 0, 0)];
    assert Found(list, 0, 4, pivots[1]) == 2;
    assert CutLeft(list, 0, 2, pivots, 1, 1) == Some([]) && CutRight(list, 2, 4, pivots, 1, 1) == Some([]);
    assert Cut(list, 0, 4, pivots, 1, 1) == Some([] + [2] + []);
    assert [] + [2] + [] == [2];
  }

  // -------------------------------------------------------------- consecutive pieces

  /** Every range that is searched has two elements or more. */
  ghost predicate Roomy(list: seq<Pair>, start: nat, stop: nat, pivots: seq<Pair>, fp: nat, lp: nat)
    requires start < stop <= |list| && fp <= lp < |pivots|
    decreases lp - fp
  {
    && start + 2 <= stop
    && var mid := (fp + lp) / 2;
       var pos := Found(list, start, stop, pivots[mid]);
       && (fp < mid && start < pos ==> Roomy(list, start, pos, pivots, fp, mid - 1))
       && (mid < lp ==> Roomy(list, pos, stop, pivots, mid + 1, lp))
  }

  /** Cuts in order, from lo to hi. */
  ghost predicate InOrder(lo: nat, r: seq<nat>, hi: nat) {
    && (forall i :: 0 <= i < |r| ==> lo <= r[i] <= hi)
    && forall i, j :: 0 <= i < j < |r| ==> r[i] <= r[j]
  }

  lemma OrderJoined(lo: nat, left: seq<nat>, pos: nat, right: seq<nat>, hi: nat)
    ensures InOrder(lo, left + [pos] + right, hi) <==>
      lo <= pos <= hi && InOrder(lo, left, pos) && InOrder(pos, right, hi)
  {
    var r, n := left + [pos] + right, |left|;
    assert forall i :: 0 <= i < n ==> r[i] == left[i];
    assert forall i :: 0 <= i < |right| ==> r[n + 1 + i] == right[i];
    assert r[n] == pos;
    if InOrder(lo, r, hi) {
      forall i | 0 <= i < n ensures left[i] <= pos {
        assert r[i] <= r[n];
      }
      forall i | 0 <= i < |right| ensures pos <= right[i] <= hi {
        assert r[n] <= r[n + 1 + i];
      }
      forall i, j | 0 <= i < j < |right| ensures right[i] <= right[j] {
        assert r[n + 1 + i] <= r[n + 1 + j];
      }
    }
  }

  lemma RoomyIs(list: seq<Pair>, start: nat, stop: nat, pivots: seq<Pair>, fp: nat, mid: nat, lp: nat)
    requires start + 2 <= stop <= |list| && fp <= lp < |pivots| && mid == (fp + lp) / 2
    ensures var pos := Found(list, start, stop, pivots[mid]);
      Roomy(list, start, stop, pivots, fp, lp) <==>
        && (fp < mid && start < pos ==> Roomy(list, start, pos, pivots, fp, mid - 1))
        && (mid < lp ==> Roomy(list, pos, stop, pivots, mid + 1, lp))
  {
    hide Upper;
  }

  lemma LeftInOrder(list: seq<Pair>, start: nat, pos: nat, pivots: seq<Pair>, fp: nat, mid: nat, lp: nat)
    requires Sorted(list) && start <= pos <= |list| && fp <= mid <= lp < |pivots| && SortedPivots(pivots, fp, lp)
    requires NotAbove(list, start, pivots, fp)
    ensures var r := CutLeft(list, start, pos, pivots, fp, mid);
      (fp < mid && start < pos ==> Roomy(list, start, pos, pivots, fp, mid - 1)) <==>
      (r.Some? && InOrder(start, r.value, pos))
    decreases mid - fp, 0
  {
    hide Sorted, Roomy, Cut, NotAbove;
    if fp < mid && start < pos {
      CutsInOrder(list, start, pos, pivots, fp, mid - 1);
    }
  }

  lemma RightInOrder(list: seq<Pair>, start: nat, stop: nat, pos: nat, pivots: seq<Pair>, fp: nat, mid: nat, lp: nat)
    requires Sorted(list) && start < stop <= |list| && fp <= mid <= lp < |pivots| && SortedPivots(pivots, fp, lp)
    requires NotAbove(list, start, pivots, fp) && pos <= start + Upper(list[start..stop], pivots[mid].key) && pos < stop
    ensures var r := CutRight(list, pos, stop, pivots, mid, lp);
      (mid < lp ==> Roomy(list, pos, stop, pivots, mid + 1, lp)) <==> (r.Some? && InOrder(pos, r.value, stop))
    decreases lp - mid, 0
  {
    hide Sorted, Roomy, Cut, NotAbove, Upper;
    if mid < lp {
      StillNotAbove(list, start, stop, pos, pivots, fp, mid, lp);
      CutsInOrder(list, pos, stop, pivots, mid + 1, lp);
    }
  }

  /** The search never goes too far. */
  lemma FoundAtMost(list: seq<Pair>, start: nat, stop: nat, pivot: Pair)
    requires Sorted(list) && start + 2 <= stop <= |list|
    ensures Found(list, start, stop, pivot) <= start + Upper(list[start..stop], pivot.key)
  {
    hide Upper;
    var all, few := list[start..stop], list[start..stop - 2];
    SortedSlice(list, start, stop);
    SortedSlice(list, start, stop - 2);
    UpperMeans(few, pivot.key);
    UpperMeans(all, pivot.key);
    var r := Upper(few, pivot.key);
    if r > 0 {
      assert few[r - 1] == all[r - 1];
      assert all[r - 1].key <= pivot.key;
    }
  }

  /** The cuts of a range come in order if and only if no range of one element is searched. */
  lemma {:induction false} CutsInOrder(list: seq<Pair>, start: nat, stop: nat, pivots: seq<Pair>, fp: nat, lp: nat)
    requires Sorted(list) && start < stop <= |list| && fp <= lp < |pivots| && SortedPivots(pivots, fp, lp)
    requires NotAbove(list, start, pivots, fp)
    ensures Roomy(list, start, stop, pivots, fp, lp) <==>
      var r := Cut(list, start, stop, pivots, fp, lp); r.Some? && InOrder(start, r.value, stop)
    decreases lp - fp, 1
  {
    hide Upper, Found, Sorted, CutLeft, CutRight, Cut, NotAbove, Roomy, InOrder;
    if stop == start + 1 {
      NotRoomy(list, start, stop, pivots, fp, lp);
      return;
    }
    var mid := (fp + lp) / 2;
    CutIs(list, start, stop, pivots, fp, mid, lp);
    RoomyIs(list, start, stop, pivots, fp, mid, lp);
    FoundAtMost(list, start, stop, pivots[mid]);
    var pos := Found(list, start, stop, pivots[mid]);
    LeftInOrder(list, start, pos, pivots, fp, mid, lp);
    RightInOrder(list, start, stop, pos, pivots, fp, mid, lp);
    var left, right := CutLeft(list, start, pos, pivots, fp, mid), CutRight(list, pos, stop, pivots, mid, lp);
    if left.Some? && right.Some? {
      OrderJoined(start, left.value, pos, right.value, stop);
    }
  }

  lemma NotRoomy(list: seq<Pair>, start: nat, stop: nat, pivots: seq<Pair>, fp: nat, lp: nat)
    requires start + 1 == stop <= |list| && fp <= lp < |pivots| && SortedPivots(pivots, fp, lp)
    requires NotAbove(list, start, pivots, fp)
    ensures !Roomy(list, start, stop, pivots, fp, lp)
    ensures var r := Cut(list, start, stop, pivots, fp, lp); r.Some? ==> !InOrder(start, r.value, stop)
  {
    hide Cut, NotAbove;
    Narrow(list, start, stop, pivots, fp, lp);
  }

  ghost predicate AtMost(r: seq<nat>, hi: nat) { forall i :: 0 <= i < |r| ==> r[i] <= hi }

  lemma AtMostJoined(left: seq<nat>, pos: nat, right: seq<nat>, hi: nat)
    requires AtMost(left, hi) && pos <= hi && AtMost(right, hi)
    ensures AtMost(left + [pos] + right, hi)
  {
  }

  lemma LeftWithin(list: seq<Pair>, start: nat, pos: nat, stop: nat, pivots: seq<Pair>, fp: nat, mid: nat)
    requires start < stop <= |list| && pos < stop && fp <= mid < |pivots|
    ensures var r := CutLeft(list, start, pos, pivots, fp, mid); r.Some? ==> AtMost(r.value, stop)
    decreases mid - fp, 0
  {
    hide Cut;
    if fp < mid && start < pos {
      CutsWithin(list, start, pos, pivots, fp, mid - 1);
    }
  }

  lemma RightWithin(list: seq<Pair>, pos: nat, stop: nat, pivots: seq<Pair>, mid: nat, lp: nat)
    requires pos < stop <= |list| && mid <= lp < |pivots|
    ensures var r := CutRight(list, pos, stop, pivots, mid, lp); r.Some? ==> AtMost(r.value, stop)
    decreases lp - mid, 0
  {
    hide Cut;
    if mid < lp {
      CutsWithin(list, pos, stop, pivots, mid + 1, lp);
    }
  }

  /** No cut lies behind the range. */
  lemma {:induction false} CutsWithin(list: seq<Pair>, start: nat, stop: nat, pivots: seq<Pair>, fp: nat, lp: nat)
    requires start < stop <= |list| && fp <= lp < |pivots|
    ensures var r := Cut(list, start, stop, pivots, fp, lp); r.Some? ==> AtMost(r.value, stop)
    decreases lp - fp, 1
  {
    hide Upper, Cut, CutLeft, CutRight, AtMost;
    if !InReach(start, stop) {
      OutOfReach(list, start, stop, pivots, fp, lp);
      return;
    }
    var mid := (fp + lp) / 2;
    var pos := Found(list, start, stop, pivots[mid]);
    CutIs(list, start, stop, pivots, fp, mid, lp);
    LeftWithin(list, start, pos, stop, pivots, fp, mid);
    RightWithin(list, pos, stop, pivots, mid, lp);
    var left, right := CutLeft(list, start, pos, pivots, fp, mid), CutRight(list, pos, stop, pivots, mid, lp);
    if left.Some? && right.Some? {
      AtMostJoined(left.value, pos, right.value, stop);
    }
  }

  // ------------------------------------------------------------------------- whole lists

  /** The row of cuts of a list: between 0 and the length, the cuts for pivots 1 to n - 1. */
  function RowOf(list: seq<Pair>, n: nat, pivots: seq<Pair>): (r: Option<seq<nat>>)
    requires |list| > 0 && 2 <= n <= |pivots|
    ensures r.Some? ==> |r.value| == n + 1 && r.value[0] == 0 && r.value[n] == |list|
  {
    var r := Cut(list, 0, |list|, pivots, 1, n - 1);
    if r.None? then None else Some([0] + r.value + [|list|])
  }

  /** A row of cuts divides a list into n consecutive pieces. */
  ghost predicate Row(list: seq<Pair>, n: nat, row: seq<nat>) {
    && |row| == n + 1 && row[0] == 0 && row[n] == |list|
    && forall l, m :: 0 <= l <= m <= n ==> row[l] <= row[m]
  }

  /** In how many of the first k pieces position t lies. */
  ghost function PiecesWith(row: seq<nat>, k: nat, t: nat): nat
    requires k < |row|
  {
    if k == 0 then 0 else PiecesWith(row, k - 1, t) + (if row[k - 1] <= t < row[k] then 1 else 0)
  }

  /** A position before the end of the first k pieces lies in one of them, and in two if the
      cuts have gone back over it. */
  lemma {:induction false} PiecesPassed(row: seq<nat>, k: nat, t: nat, l: nat)
    requires l <= k < |row| && row[0] == 0
    ensures t < row[k] ==> PiecesWith(row, k, t) >= 1
    ensures t < row[l] && l < k && row[l + 1] <= t < row[k] ==> PiecesWith(row, k, t) >= 2
  {
    if k > 0 {
      PiecesPassed(row, k - 1, t, if l < k then l else k - 1);
      if l == k - 1 {
        PiecesPassed(row, l, t, l);
      } else if l < k - 1 {
        PiecesPassed(row, l, t, l);
        PiecesGrow(row, l, k - 1, t);
      }
    }
  }

  lemma {:induction false} PiecesGrow(row: seq<nat>, k: nat, m: nat, t: nat)
    requires k <= m < |row|
    ensures PiecesWith(row, k, t) <= PiecesWith(row, m, t)
  {
    if k < m {
      PiecesGrow(row, k, m - 1, t);
    }
  }

  lemma {:induction false} InOrderOnce(row: seq<nat>, k: nat, t: nat)
    requires k < |row| && row[0] == 0 && forall l, m :: 0 <= l <= m < |row| ==> row[l] <= row[m]
    ensures PiecesWith(row, k, t) == if t < row[k] then 1 else 0
  {
    if k > 0 {
      InOrderOnce(row, k - 1, t);
    }
  }

  /** Pieces are consecutive exactly if every element lies in exactly one of them. */
  lemma OnceEach(list: seq<Pair>, n: nat, row: seq<nat>)
    requires |row| == n + 1 && row[0] == 0 && row[n] == |list| && forall l :: 0 <= l <= n ==> row[l] <= |list|
    ensures Row(list, n, row) <==> forall t :: 0 <= t < |list| ==> PiecesWith(row, n, t) == 1
  {
    if Row(list, n, row) {
      forall t | 0 <= t < |list| ensures PiecesWith(row, n, t) == 1 {
        InOrderOnce(row, n, t);
      }
    } else {
      var l := StepBack(list, n, row);
      PiecesPassed(row, n, row[l + 1], l);
    }
  }

  /** Cuts that are not in order go back at some place. */
  lemma StepBack(list: seq<Pair>, n: nat, row: seq<nat>) returns (l: nat)
    requires |row| == n + 1 && row[0] == 0 && row[n] == |list| && !Row(list, n, row)
    ensures l < n && row[l + 1] < row[l]
  {
    l := 0;
    while l < n && row[l] <= row[l + 1]
      invariant l <= n && forall i, j :: 0 <= i <= j <= l ==> row[i] <= row[j]
    {
      l := l + 1;
    }
  }

  /** `sublists` divides a list into consecutive pieces if and only if it searches no range of
      one element. */
  lemma RowIff(list: seq<Pair>, n: nat, pivots: seq<Pair>)
    requires Sorted(list) && |list| > 0 && 2 <= n <= |pivots| && SortedPivots(pivots, 1, n - 1)
    ensures Roomy(list, 0, |list|, pivots, 1, n - 1) <==>
      var r := RowOf(list, n, pivots); r.Some? && Row(list, n, r.value)
  {
    hide Cut, Roomy, Sorted, SortedPivots;
    CutsInOrder(list, 0, |list|, pivots, 1, n - 1);
    var r := Cut(list, 0, |list|, pivots, 1, n - 1);
    if r.Some? {
      RowInOrder(list, n, r.value);
    }
  }

  lemma RowInOrder(list: seq<Pair>, n: nat, r: seq<nat>)
    requires |r| == n - 1
    ensures InOrder(0, r, |list|) <==> Row(list, n, [0] + r + [|list|])
  {
    var row := [0] + r + [|list|];
    assert forall i :: 0 <= i < |r| ==> row[i + 1] == r[i];
    if Row(list, n, row) {
      forall i | 0 <= i < |r| ensures r[i] <= |list| {
        assert row[i + 1] <= row[n];
      }
      forall i, j | 0 <= i < j < |r| ensures r[i] <= r[j] {
        assert row[i + 1] <= row[j + 1];
      }
    }
  }

  /** If they are not consecutive, some element is in the pieces of two partitions. */
  lemma TakenTwice(list: seq<Pair>, n: nat, pivots: seq<Pair>) returns (t: nat)
    requires Sorted(list) && |list| > 0 && 2 <= n <= |pivots| && SortedPivots(pivots, 1, n - 1)
    requires !Roomy(list, 0, |list|, pivots, 1, n - 1) && RowOf(list, n, pivots).Some?
    ensures t < |list| && PiecesWith(RowOf(list, n, pivots).value, n, t) >= 2
  {
    hide Cut, Roomy, Sorted, SortedPivots;
    RowIff(list, n, pivots);
    RowWithin(list, n, pivots);
    var row := RowOf(list, n, pivots).value;
    var l := StepBack(list, n, row);
    t := row[l + 1];
    PiecesPassed(row, n, t, l);
  }

  lemma RowWithin(list: seq<Pair>, n: nat, pivots: seq<Pair>)
    requires |list| > 0 && 2 <= n <= |pivots|
    ensures var r := RowOf(list, n, pivots); r.Some? ==> forall l :: 0 <= l <= n ==> r.value[l] <= |list|
  {
    hide Cut;
    CutsWithin(list, 0, |list|, pivots, 1, n - 1);
    var r := Cut(list, 0, |list|, pivots, 1, n - 1);
    if r.Some? {
      var row := [0] + r.value + [|list|];
      forall l | 0 <= l <= n ensures row[l] <= |list| {
        if 0 < l < n {
          assert row[l] == r.value[l - 1];
        }
      }
    }
  }

  /** The promised cuts are in order, so wide ranges are roomy. */
  lemma WideIsRoomy(list: seq<Pair>, n: nat, pivots: seq<Pair>)
    requires Sorted(list) && |list| > 0 && 2 <= n <= |pivots| && SortedPivots(pivots, 1, n - 1)
    requires Wide(list, 0, |list|, pivots, 1, n - 1)
    ensures Roomy(list, 0, |list|, pivots, 1, n - 1)
  {
    hide Cut, Roomy, Sorted, Wide, Upper;
    PromiseKept(list, 0, |list|, pivots, 1, n - 1);
    CutsInOrder(list, 0, |list|, pivots, 1, n - 1);
    var r := Cut(list, 0, |list|, pivots, 1, n - 1).value;
    assert list[0..|list|] == list;
    forall i, j | 0 <= i < j < |r| ensures r[i] <= r[j] {
      UpperMono(list, pivots[i + 1].key, pivots[j + 1].key);
      assert r[i] == Upper(list, pivots[i + 1].key) && r[j] == Upper(list, pivots[j + 1].key);
    }
    forall i | 0 <= i < |r| ensures r[i] <= |list| {
      assert r[i] == Upper(list, pivots[i + 1].key);
    }
  }

  /** With two or three CPUs no range of one element is searched in a list of two or more. */
  lemma FewPivots(list: seq<Pair>, start: nat, stop: nat, pivots: seq<Pair>, fp: nat, lp: nat)
    requires start + 2 <= stop <= |list| && fp <= lp <= fp + 1 && lp < |pivots|
    ensures Roomy(list, start, stop, pivots, fp, lp)
  {
    hide Upper;
  }

  /** With four CPUs there is one exactly if one element alone is not greater than pivot 2. */
  lemma FourCpus(list: seq<Pair>, pivots: seq<Pair>)
    requires Sorted(list) && |list| >= 4 && |pivots| >= 4
    ensures Roomy(list, 0, |list|, pivots, 1, 3) <==> !(list[0].key <= pivots[2].key < list[1].key)
  {
    hide Upper;
    var few := list[0..|list| - 2];
    var pos := Found(list, 0, |list|, pivots[2]);
    SortedSlice(list, 0, |list| - 2);
    UpperMeans(few, pivots[2].key);
    assert few[0] == list[0] && few[1] == list[1];
    assert pos == 1 <==> list[0].key <= pivots[2].key < list[1].key;
    RoomyIs(list, 0, |list|, pivots, 1, 2, 3);
    FewPivots(list, pos, |list|, pivots, 3, 3);
    if 1 < pos {
      FewPivots(list, 0, pos, pivots, 1, 1);
    }
  }

  // ---------------------------------------------------------------------- the program

  /** The in-place recursion: it writes exactly those cuts, or reads outside the list. */
  method Divide(list: seq<Pair>, start: nat, stop: nat, subsize: array<nat>, pivots: seq<Pair>, fp: nat, lp: nat)
    returns (ok: bool)
    requires Sorted(list) && start < stop <= |list| && fp <= lp < |pivots| && lp < subsize.Length
    modifies subsize
    ensures ok <==> Cut(list, start, stop, pivots, fp, lp).Some?
    ensures ok ==> subsize[fp..lp + 1] == Cut(list, start, stop, pivots, fp, lp).value
    ensures forall i :: 0 <= i < subsize.Length && !(fp <= i <= lp) ==> subsize[i] == old(subsize[i])
    decreases lp - fp, 1
  {
    hide Cut, CutLeft, CutRight, Upper, Sorted;
    if !InReach(start, stop) {
      OutOfReach(list, start, stop, pivots, fp, lp);
      return false;
    }
    var mid := (fp + lp) / 2;
    CutIs(list, start, stop, pivots, fp, mid, lp);
    var pos := Search(list, start, stop, pivots[mid]);
    subsize[mid] := pos;
    ok := DivideLeft(list, start, pos, subsize, pivots, fp, mid);
    if !ok {
      return;
    }
    ok := DivideRight(list, pos, stop, subsize, pivots, mid, lp);
    if ok {
      ghost var left, right := CutLeft(list, start, pos, pivots, fp, mid), CutRight(list, pos, stop, pivots, mid, lp);
      ThreeParts(subsize[..], fp, mid, lp, left.value, pos, right.value);
      assert subsize[fp..lp + 1] == subsize[..][fp..lp + 1];
    }
  }

  lemma OutOfReach(list: seq<Pair>, start: nat, stop: nat, pivots: seq<Pair>, fp: nat, lp: nat)
    requires start < stop <= |list| && fp <= lp < |pivots|
    ensures !InReach(start, stop) ==> Cut(list, start, stop, pivots, fp, lp) == None
  {
  }

  method DivideLeft(list: seq<Pair>, start: nat, pos: nat, subsize: array<nat>, pivots: seq<Pair>, fp: nat, mid: nat)
    returns (ok: bool)
    requires Sorted(list) && start <= |list| && pos <= |list| && fp <= mid < |pivots| && mid < subsize.Length
    modifies subsize
    ensures ok <==> CutLeft(list, start, pos, pivots, fp, mid).Some?
    ensures ok ==> subsize[fp..mid] == CutLeft(list, start, pos, pivots, fp, mid).value
    ensures forall i :: 0 <= i < subsize.Length && !(fp <= i < mid) ==> subsize[i] == old(subsize[i])
    decreases mid - fp, 0
  {
    hide Cut, Sorted;
    ok := true;
    if fp < mid {
      if start < pos {
        ok := Divide(list, start, pos, subsize, pivots, fp, mid - 1);
      } else {
        Fill(subsize, fp, mid, start);
      }
    }
  }

  /** The branch for an empty rest is never taken: a cut lies before the end of its range. */
  method DivideRight(list: seq<Pair>, pos: nat, stop: nat, subsize: array<nat>, pivots: seq<Pair>, mid: nat, lp: nat)
    returns (ok: bool)
    requires Sorted(list) && pos < stop <= |list| && mid <= lp < |pivots| && lp < subsize.Length
    modifies subsize
    ensures ok <==> CutRight(list, pos, stop, pivots, mid, lp).Some?
    ensures ok ==> subsize[mid + 1..lp + 1] == CutRight(list, pos, stop, pivots, mid, lp).value
    ensures forall i :: 0 <= i < subsize.Length && !(mid < i <= lp) ==> subsize[i] == old(subsize[i])
    decreases lp - mid, 0
  {
    hide Cut, Sorted;
    ok := true;
    if mid < lp {
      ok := Divide(list, pos, stop, subsize, pivots, mid + 1, lp);
    }
  }

  lemma ThreeParts(s: seq<nat>, fp: nat, mid: nat, lp: nat, left: seq<nat>, pos: nat, right: seq<nat>)
    requires fp <= mid <= lp < |s| && s[fp..mid] == left && s[mid] == pos && s[mid + 1..lp + 1] == right
    ensures s[fp..lp + 1] == left + [pos] + right
  {
  }

  /** The call of `bsearch_lar`, and what it does with the count -1: it compares with the element
      two places before the range, and then at most with the one in it. */
  method Search(list: seq<Pair>, start: nat, stop: nat, pivot: Pair) returns (pos: nat)
    requires Sorted(list) && start < stop <= |list| && InReach(start, stop)
    ensures pos == Found(list, start, stop, pivot)
  {
    if start + 2 <= stop {
      SortedSlice(list, start, stop - 2);
      Searchable(pivot, list[start..stop - 2]);
      pos := BSearch.BsearchLar(pivot, list[start..stop - 2], KeyCmp);
      UpperIs(list[start..stop - 2], pivot.key, pos);
      pos := start + pos;
    } else if KeyCmp(pivot, list[start - 2]) >= 0 {
      pos := start - 1;
    } else {
      var p: int := if KeyCmp(pivot, list[start]) >= 0 then start + 1 else start;
      pos := p;
    }
  }

  method Fill(subsize: array<nat>, fp: nat, mid: nat, start: nat)
    requires fp <= mid <= subsize.Length
    modifies subsize
    ensures subsize[fp..mid] == Repeat(start, mid - fp)
    ensures forall i :: 0 <= i < subsize.Length && !(fp <= i < mid) ==> subsize[i] == old(subsize[i])
  {
    var p := fp;
    while p < mid
      invariant fp <= p <= mid
      invariant forall i :: fp <= i < p ==> subsize[i] == start
      invariant forall i :: 0 <= i < subsize.Length && !(fp <= i < p) ==> subsize[i] == old(subsize[i])
    {
      subsize[p] := start;
      p := p + 1;
    }
    assert subsize[fp..mid] == Repeat(start, mid - fp);
  }

  lemma Searchable(pivot: Pair, s: seq<Pair>)
    requires Sorted(s)
    ensures BSearch.SortedFor(pivot, s, KeyCmp)
  {
  }
}
