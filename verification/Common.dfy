/** Types shared by the Metis modules. */
module Common {
  import opened Seqs

  datatype Option<+T> = None | Some(value: T)

  /** Keys, up to what `key_cmp` can tell apart.  Every countable total order
      embeds in the reals, so a real stands for any key type of an application. */
  type Key = real

  /** An emitted value: a machine word as the library sees it. */
  type Val = int

  /** One key with its values (`keyvals_t`, benchmarks/metis/lib/mr-types.h). */
  datatype KeyVals = KeyVals(key: Key, vals: seq<Val>, hash: nat)

  /** A pair as the map function emits it, with the hash of its key. */
  datatype Pair = Pair(key: Key, val: Val, hash: nat)

  /** The values emitted for `k`, in order. */
  function ValuesOf(pairs: seq<Pair>, k: Key): seq<Val> {
    if pairs == [] then []
    else ValuesOf(pairs[..|pairs| - 1], k) +
         (if pairs[|pairs| - 1].key == k then [pairs[|pairs| - 1].val] else [])
  }

  predicate StrictlySorted(s: seq<KeyVals>) {
    forall i, j :: 0 <= i < j < |s| ==> s[i].key < s[j].key
  }

  ghost function KeySet(s: seq<KeyVals>): set<Key> {
    if s == [] then {} else KeySet(s[..|s| - 1]) + {s[|s| - 1].key}
  }

  /** `s` lists the map: every entry once, in key order. */
  ghost predicate IsListing(s: seq<KeyVals>, m: map<Key, KeyVals>) {
    && StrictlySorted(s)
    && KeySet(s) == m.Keys
    && (forall i :: 0 <= i < |s| ==> s[i].key in m && m[s[i].key] == s[i])
  }

  lemma {:induction false} KeySetHas(s: seq<KeyVals>, k: Key)
    ensures k in KeySet(s) <==> exists i :: 0 <= i < |s| && s[i].key == k
  {
    if s != [] {
      var t := s[..|s| - 1];
      KeySetHas(t, k);
      assert forall i :: 0 <= i < |t| ==> t[i] == s[i];
    }
  }

  lemma {:induction false} KeySetSize(s: seq<KeyVals>)
    requires StrictlySorted(s)
    ensures |KeySet(s)| == |s|
  {
    if s != [] {
      var t := s[..|s| - 1];
      KeySetSize(t);
      KeySetHas(t, s[|s| - 1].key);
      assert forall i :: 0 <= i < |t| ==> t[i] == s[i];
    }
  }

  lemma ListingLength(s: seq<KeyVals>, m: map<Key, KeyVals>)
    requires IsListing(s, m)
    ensures |s| == |m|
  {
    KeySetSize(s);
  }

  /** A map has at most one listing. */
  lemma ListingUnique(s: seq<KeyVals>, t: seq<KeyVals>, m: map<Key, KeyVals>)
    requires IsListing(s, m) && IsListing(t, m)
    ensures s == t
  {
    ListingLength(s, m);
    ListingLength(t, m);
    for n := 0 to |s|
      invariant forall i :: 0 <= i < n ==> s[i] == t[i]
    {
      NotAbove(s, t, m, n);
      NotAbove(t, s, m, n);
      assert m[s[n].key] == s[n] && m[t[n].key] == t[n];
    }
  }

  /** After equal prefixes the next key of `t` is not above that of `s`. */
  lemma NotAbove(s: seq<KeyVals>, t: seq<KeyVals>, m: map<Key, KeyVals>, n: nat)
    requires IsListing(s, m) && IsListing(t, m) && n < |s| == |t|
    requires forall i :: 0 <= i < n ==> s[i] == t[i]
    ensures t[n].key <= s[n].key
  {
    KeySetHas(t, s[n].key);
    var i :| 0 <= i < |t| && t[i].key == s[n].key;
  }

  lemma {:induction false} ValuesOfConcat(a: seq<Pair>, b: seq<Pair>, k: Key)
    ensures ValuesOf(a + b, k) == ValuesOf(a, k) + ValuesOf(b, k)
    decreases |b|
  {
    if b == [] {
      assert a + b == a;
    } else {
      assert (a + b)[..|a + b| - 1] == a + b[..|b| - 1];
      ValuesOfConcat(a, b[..|b| - 1], k);
    }
  }

  lemma {:induction false} ValuesOfSome(pairs: seq<Pair>, k: Key)
    ensures ValuesOf(pairs, k) != [] <==> exists i :: 0 <= i < |pairs| && pairs[i].key == k
  {
    if pairs != [] {
      var init := pairs[..|pairs| - 1];
      ValuesOfSome(init, k);
      assert forall i :: 0 <= i < |init| ==> init[i] == pairs[i];
    }
  }

  lemma ValuesOfMoved(l: seq<Pair>, x: Pair, r: seq<Pair>, k: Key)
    ensures multiset(ValuesOf((l + [x]) + r, k)) == multiset(ValuesOf((l + r) + [x], k))
  {
    ValuesOfConcat(l + [x], r, k);
    ValuesOfConcat(l, [x], k);
    ValuesOfConcat(l, r, k);
    ValuesOfConcat(l + r, [x], k);
    hide ValuesOf;
  }

  /** Reordering pairs reorders the values of each key. */
  lemma {:induction false} ValuesOfOrder(a: seq<Pair>, b: seq<Pair>, k: Key)
    requires multiset(a) == multiset(b)
    ensures multiset(ValuesOf(a, k)) == multiset(ValuesOf(b, k))
    decreases |a|
  {
    assert |multiset(a)| == |a| && |multiset(b)| == |b|;
    if a != [] {
      hide ValuesOf;
      var i := FindLast(a, b);
      var front, x, l, r := a[..|a| - 1], b[i], b[..i], b[i + 1..];
      assert a == front + [x];
      ValuesOfOrder(front, l + r, k);
      ValuesOfConcat(front, [x], k);
      ValuesOfConcat(l + r, [x], k);
      ValuesOfMoved(l, x, r, k);
    }
  }
}
