/** The two binary searches of benchmarks/metis/lib/bsearch.c. */
module BSearch {

  /** `s` is sorted as seen from `key`: once `key` compares below (at most) an
      element it compares below (at most) every later one. */
  ghost predicate SortedFor<T>(key: T, s: seq<T>, cmp: (T, T) -> int) {
    forall i, j :: 0 <= i < j < |s| ==>
      && (cmp(key, s[i]) < 0 ==> cmp(key, s[j]) < 0)
      && (cmp(key, s[i]) <= 0 ==> cmp(key, s[j]) <= 0)
  }

  /** A comparator in the sense of qsort: signs are antisymmetric and `<= 0` is transitive. */
  ghost predicate Comparator<T(!new)>(cmp: (T, T) -> int) {
    && (forall a, b :: cmp(a, b) < 0 <==> cmp(b, a) > 0)
    && (forall a, b, c :: cmp(a, b) <= 0 && cmp(b, c) <= 0 ==> cmp(a, c) <= 0)
  }

  /** An array sorted under a comparator can be searched for every key. */
  lemma SortedIsSearchable<T(!new)>(key: T, s: seq<T>, cmp: (T, T) -> int)
    requires Comparator(cmp)
    requires forall i, j :: 0 <= i < j < |s| ==> cmp(s[i], s[j]) <= 0
    ensures SortedFor(key, s, cmp)
  {
    forall i, j | 0 <= i < j < |s|
      ensures cmp(key, s[i]) < 0 ==> cmp(key, s[j]) < 0
      ensures cmp(key, s[i]) <= 0 ==> cmp(key, s[j]) <= 0
    {
      assert cmp(s[i], s[j]) <= 0;
      assert cmp(s[j], key) <= 0 ==> cmp(s[i], key) <= 0;
    }
  }

  /** `bsearch_lar`: the index of the first element greater than `key`. */
  method BsearchLar<T>(key: T, s: seq<T>, cmp: (T, T) -> int) returns (r: nat)
    requires SortedFor(key, s, cmp)
    ensures r <= |s|
    ensures forall i :: 0 <= i < r ==> cmp(key, s[i]) >= 0
    ensures forall i :: r <= i < |s| ==> cmp(key, s[i]) < 0
  {
    var nelems := |s|;
    if nelems == 0 {
      return 0;
    }
    var res := cmp(key, s[nelems - 1]);
    if res >= 0 {
      return nelems;
    }
    if nelems == 1 {
      return 0;
    }
    if nelems == 2 {
      if cmp(key, s[0]) < 0 {
        return 0;
      }
      return 1;
    }
    var left := 0;
    var right := nelems - 2;
    while left < right
      invariant 0 <= left <= nelems - 2 && left - 1 <= right <= nelems - 2
      invariant forall i :: 0 <= i < left ==> cmp(key, s[i]) >= 0
      invariant forall i :: right < i < nelems ==> cmp(key, s[i]) < 0
    {
      var mid := (left + right) / 2;
      res := cmp(key, s[mid]);
      if res >= 0 {
        left := mid + 1;
      } else if res < 0 {
        right := mid - 1;
      }
    }
    res := cmp(key, s[left]);
    if res >= 0 {
      return left + 1;
    }
    return left;
  }

  /** `bsearch_eq`: an element equal to `key`, or else where it would go. */
  method BsearchEq<T>(key: T, s: seq<T>, cmp: (T, T) -> int) returns (pos: nat, found: bool)
    requires SortedFor(key, s, cmp)
    ensures pos <= |s|
    ensures found ==> pos < |s| && cmp(key, s[pos]) == 0
    ensures !found ==> forall i :: 0 <= i < pos ==> cmp(key, s[i]) > 0
    ensures !found ==> forall i :: pos <= i < |s| ==> cmp(key, s[i]) < 0
  {
    var nelems := |s|;
    if nelems == 0 {
      return 0, false;
    }
    var res := cmp(key, s[nelems - 1]);
    if res == 0 {
      return nelems - 1, true;
    }
    if res > 0 {
      return nelems, false;
    }
    if nelems == 1 {
      return 0, false;
    }
    if nelems == 2 {
      var res0 := cmp(key, s[0]);
      if res0 == 0 {
        return 0, true;
      }
      if res0 < 0 {
        return 0, false;
      }
      return 1, false;
    }
    var left := 0;
    var right := nelems - 2;
    while left < right
      invariant 0 <= left <= nelems - 2 && left - 1 <= right <= nelems - 2
      invariant forall i :: 0 <= i < left ==> cmp(key, s[i]) > 0
      invariant forall i :: right < i < nelems ==> cmp(key, s[i]) < 0
    {
      var mid := (left + right) / 2;
      res := cmp(key, s[mid]);
      if res == 0 {
        return mid, true;
      } else if res < 0 {
        right := mid - 1;
      } else {
        left := mid + 1;
      }
    }
    res := cmp(key, s[left]);
    if res == 0 {
      return left, true;
    }
    if res > 0 {
      return left + 1, false;
    }
    return left, false;
  }
}
