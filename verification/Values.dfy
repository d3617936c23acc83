/** The values of one key: benchmarks/metis/lib/value_helper.c. */
module Values {
  import opened Common
  import opened Seqs

  const COMBINER_THRESHOLD: nat := 8

  /** The callbacks of an application that decide how values are kept.  A combiner rewrites
      the values and says how many are left. */
  datatype App =
    | MapGroup
    | MapReduce(vm: Option<(Val, Val, bool) -> Val>, combiner: Option<seq<Val> -> seq<Val>>)
  {
    predicate UsesVm() { MapReduce? && vm.Some? }
    predicate Combines() { MapReduce? && vm.None? && combiner.Some? }

    /** Grouping applications, and reducing ones with neither callback. */
    predicate KeepsAll() { !UsesVm() && !Combines() }
  }

  /** A combiner leaves at least one value and never more than it was given. */
  ghost predicate WellBehaved(app: App) {
    app.Combines() ==> forall s :: |s| > 0 ==> 1 <= |app.combiner.value(s)| <= |s|
  }

  /** The value part of `keyvals_t`: the values, and the room allocated for them.
      Under a value modifier there is one value and no room. */
  datatype Buffer = Buffer(vals: seq<Val>, alloc: nat)

  /** `values_insert`: what becomes of the values. */
  function InsertVal(app: App, vals: seq<Val>, val: Val): seq<Val> {
    if app.UsesVm() then
      if |vals| == 0 then [app.vm.value(0, val, true)] else [app.vm.value(vals[0], val, false)]
    else
      var more := vals + [val];
      if app.Combines() && |more| >= COMBINER_THRESHOLD then app.combiner.value(more) else more
  }

  /** `values_insert`: with the room they take. */
  function Insert(app: App, b: Buffer, val: Val): Buffer {
    Buffer(InsertVal(app, b.vals, val),
           if app.UsesVm() then b.alloc
           else if b.alloc == 0 then COMBINER_THRESHOLD
           else if b.alloc == |b.vals| then b.alloc * 2 else b.alloc)
  }

  function InsertAll(app: App, b: Buffer, vals: seq<Val>): Buffer {
    if vals == [] then b else Insert(app, InsertAll(app, b, vals[..|vals| - 1]), vals[|vals| - 1])
  }

  /** What is kept of values inserted one after the other. */
  function KeptOf(app: App, vals: seq<Val>): seq<Val> {
    if vals == [] then [] else InsertVal(app, KeptOf(app, vals[..|vals| - 1]), vals[|vals| - 1])
  }

  /** The entry of `key` once (key, val) is emitted into a bucket, seen as a map. */
  function NewEntry(app: App, m: map<Key, KeyVals>, key: Key, val: Val, hash: nat): KeyVals {
    if key in m then m[key].(vals := InsertVal(app, m[key].vals, val))
    else KeyVals(key, InsertVal(app, [], val), hash)
  }

  function PutPair(app: App, m: map<Key, KeyVals>, key: Key, val: Val, hash: nat): map<Key, KeyVals> {
    m[key := NewEntry(app, m, key, val, hash)]
  }

  /** Pairs emitted one after the other into one bucket. */
  function PutPairs(app: App, pairs: seq<Pair>): map<Key, KeyVals> {
    if pairs == [] then map[]
    else var last := pairs[|pairs| - 1];
         PutPair(app, PutPairs(app, pairs[..|pairs| - 1]), last.key, last.val, last.hash)
  }

  /** A bucket holds each key that was emitted into it, with what is kept of its values. */
  lemma {:induction false} PutPairsMeans(app: App, pairs: seq<Pair>, k: Key)
    ensures k in PutPairs(app, pairs) <==> ValuesOf(pairs, k) != []
    ensures k in PutPairs(app, pairs) ==> PutPairs(app, pairs)[k].key == k
    ensures k in PutPairs(app, pairs) ==> PutPairs(app, pairs)[k].vals == KeptOf(app, ValuesOf(pairs, k))
  {
    if pairs != [] {
      var init, last := pairs[..|pairs| - 1], pairs[|pairs| - 1];
      PutPairsMeans(app, init, k);
      if last.key == k {
        assert ValuesOf(pairs, k)[..|ValuesOf(pairs, k)| - 1] == ValuesOf(init, k);
      } else {
        assert ValuesOf(pairs, k) == ValuesOf(init, k);
      }
    }
  }

  /** `values_mv`: the values of `src` join those of `dst`. */
  function Move(app: App, dst: seq<Val>, src: seq<Val>): seq<Val> {
    if app.UsesVm() && |src| > 0 then
      if dst == [] then src else [app.vm.value(dst[0], src[0], false)]
    else dst + src
  }

  /** The values of a key from several rows, joined in row order. */
  function Joined(app: App, rows: seq<seq<Val>>): seq<Val> {
    if rows == [] then [] else Move(app, Joined(app, rows[..|rows| - 1]), rows[|rows| - 1])
  }

  // ----------------------------------------------------- what the values mean

  ghost predicate Commutative(op: (Val, Val) -> Val) {
    && (forall a, b :: op(a, b) == op(b, a))
    && (forall a, b, c :: op(op(a, b), c) == op(a, op(b, c)))
  }

  function Fold(op: (Val, Val) -> Val, s: seq<Val>): Val
    requires |s| > 0
  {
    if |s| == 1 then s[0] else op(Fold(op, s[..|s| - 1]), s[|s| - 1])
  }

  ghost predicate IsVmFor(app: App, op: (Val, Val) -> Val) {
    && app.UsesVm()
    && (forall a, b :: app.vm.value(a, b, true) == b)
    && (forall a, b :: app.vm.value(a, b, false) == op(a, b))
  }

  ghost predicate IsCombinerFor(app: App, op: (Val, Val) -> Val) {
    app.Combines() && forall s :: |s| > 0 ==> app.combiner.value(s) == [Fold(op, s)]
  }

  /** However the application keeps values, it keeps their fold. */
  ghost predicate KeepsFold(app: App, op: (Val, Val) -> Val) {
    IsVmFor(app, op) || IsCombinerFor(app, op) || app.KeepsAll()
  }

  lemma Assoc(op: (Val, Val) -> Val, a: Val, b: Val, c: Val)
    requires Commutative(op)
    ensures op(op(a, b), c) == op(a, op(b, c))
  {
  }

  lemma {:induction false} FoldConcat(op: (Val, Val) -> Val, s: seq<Val>, t: seq<Val>)
    requires Commutative(op) && |s| > 0 && |t| > 0
    ensures Fold(op, s + t) == op(Fold(op, s), Fold(op, t))
    decreases |t|
  {
    var t' := t[..|t| - 1];
    assert (s + t)[..|s + t| - 1] == s + t';
    if |t| == 1 {
      assert s + t' == s;
    } else {
      FoldConcat(op, s, t');
      Assoc(op, Fold(op, s), Fold(op, t'), t[|t| - 1]);
    }
  }

  /** The fold of values does not depend on their order. */
  lemma {:induction false} FoldOrder(op: (Val, Val) -> Val, s: seq<Val>, t: seq<Val>)
    requires Commutative(op) && |s| > 0 && multiset(s) == multiset(t)
    ensures |t| > 0 && Fold(op, s) == Fold(op, t)
    decreases |s|
  {
    assert |multiset(s)| == |s| && |multiset(t)| == |t|;
    var i := FindLast(s, t);
    if |s| > 1 {
      FoldOrder(op, s[..|s| - 1], t[..i] + t[i + 1..]);
      PullOut(op, t, i);
    }
  }

  lemma Around(t: seq<Val>, i: nat)
    requires i < |t|
    ensures t == t[..i] + ([t[i]] + t[i + 1..])
  {
  }

  lemma PullOut(op: (Val, Val) -> Val, t: seq<Val>, i: nat)
    requires Commutative(op) && i < |t| && |t| > 1
    ensures Fold(op, t) == op(Fold(op, t[..i] + t[i + 1..]), t[i])
  {
    var a, b := t[..i], t[i + 1..];
    Around(t, i);
    if a == [] {
      assert t == [t[i]] + b && a + b == b;
      FoldConcat(op, [t[i]], b);
    } else if b == [] {
      assert t == a + [t[i]] && a + b == a;
      FoldConcat(op, a, [t[i]]);
    } else {
      FoldConcat(op, a, [t[i]] + b);
      FoldConcat(op, [t[i]], b);
      FoldConcat(op, a, b);
      assert op(t[i], Fold(op, b)) == op(Fold(op, b), t[i]);
    }
  }

  /** All ways of keeping values keep their fold. */
  lemma {:induction false} KeptFold(app: App, op: (Val, Val) -> Val, vals: seq<Val>)
    requires Commutative(op) && KeepsFold(app, op) && |vals| > 0
    ensures |KeptOf(app, vals)| > 0
    ensures app.UsesVm() ==> |KeptOf(app, vals)| == 1
    ensures Fold(op, KeptOf(app, vals)) == Fold(op, vals)
  {
    hide InsertVal, KeepsFold, Commutative;
    var init, last := vals[..|vals| - 1], vals[|vals| - 1];
    if |vals| > 1 {
      KeptFold(app, op, init);
      InsertFold(app, op, KeptOf(app, init), last);
    } else {
      assert init == [];
      FirstFold(app, op, last);
    }
  }

  lemma FirstFold(app: App, op: (Val, Val) -> Val, val: Val)
    requires KeepsFold(app, op)
    ensures InsertVal(app, [], val) == [val]
  {
    assert [] + [val] == [val];
  }

  /** One more value is one more operand. */
  lemma InsertFold(app: App, op: (Val, Val) -> Val, kept: seq<Val>, val: Val)
    requires Commutative(op) && KeepsFold(app, op) && |kept| > 0 && (app.UsesVm() ==> |kept| == 1)
    ensures var more := InsertVal(app, kept, val);
      |more| > 0 && (app.UsesVm() ==> |more| == 1) && Fold(op, more) == op(Fold(op, kept), val)
  {
    FoldConcat(op, kept, [val]);
  }

  /** With a combiner that folds to one value the buffer never grows past its first size. */
  lemma {:induction false} BufferStaysSmall(app: App, op: (Val, Val) -> Val, vals: seq<Val>)
    requires IsCombinerFor(app, op)
    ensures |InsertAll(app, Buffer([], 0), vals).vals| < COMBINER_THRESHOLD
    ensures InsertAll(app, Buffer([], 0), vals).alloc == (if vals == [] then 0 else COMBINER_THRESHOLD)
  {
    if vals == [] {
      return;
    }
    var last := vals[|vals| - 1];
    BufferStaysSmall(app, op, vals[..|vals| - 1]);
    var b := InsertAll(app, Buffer([], 0), vals[..|vals| - 1]);
    assert InsertAll(app, Buffer([], 0), vals) == Insert(app, b, last);
    hide Fold, InsertAll;
    assert app.combiner.value(b.vals + [last]) == [Fold(op, b.vals + [last])];
  }

  function Doubled(k: nat): nat { if k == 0 then COMBINER_THRESHOLD else 2 * Doubled(k - 1) }

  /** Without callbacks the room is the first size, doubled just as often as the values need. */
  lemma {:induction false} RoomDoubles(app: App, vals: seq<Val>) returns (k: nat)
    requires app.KeepsAll() && vals != []
    ensures var b := InsertAll(app, Buffer([], 0), vals);
      b.vals == vals && b.alloc == Doubled(k) && |vals| <= Doubled(k) && (k > 0 ==> Doubled(k - 1) < |vals|)
  {
    hide InsertAll;
    var front, last := vals[..|vals| - 1], vals[|vals| - 1];
    assert vals == front + [last];
    InsertedLast(app, vals);
    k := 0;
    if front != [] {
      k := RoomDoubles(app, front);
      DoubledPositive(k);
      if Doubled(k) == |front| {
        k := k + 1;
      }
    }
  }

  lemma InsertedLast(app: App, vals: seq<Val>)
    requires vals != []
    ensures var front := InsertAll(app, Buffer([], 0), vals[..|vals| - 1]);
      && InsertAll(app, Buffer([], 0), vals) == Insert(app, front, vals[|vals| - 1])
      && (|vals| == 1 ==> front == Buffer([], 0))
  {
    hide Insert;
  }

  lemma {:induction false} DoubledPositive(k: nat)
    ensures Doubled(k) > 0
  {
    if k > 0 {
      DoubledPositive(k - 1);
    }
  }

  // --------------------------------------------------------- a key over all rows

  /** What each row keeps of the values inserted into it. */
  function Kept(app: App, rows: seq<seq<Val>>): (kept: seq<seq<Val>>)
    ensures |kept| == |rows|
  {
    if rows == [] then []
    else Kept(app, rows[..|rows| - 1]) + [KeptOf(app, rows[|rows| - 1])]
  }

  lemma MoveFold(app: App, op: (Val, Val) -> Val, dst: seq<Val>, src: seq<Val>)
    requires Commutative(op) && KeepsFold(app, op) && |src| > 0
    requires app.UsesVm() ==> |dst| <= 1 && |src| == 1
    ensures |Move(app, dst, src)| > 0 && (app.UsesVm() ==> |Move(app, dst, src)| == 1)
    ensures Fold(op, Move(app, dst, src)) == if dst == [] then Fold(op, src) else op(Fold(op, dst), Fold(op, src))
  {
    if dst == [] {
      assert dst + src == src;
    } else if !app.UsesVm() {
      FoldConcat(op, dst, src);
    }
  }

  /** However the values of a key were spread over rows, and whether they went through a value
      modifier, through a combiner or through neither, the fold of what reaches the reduce step is the fold of
      the values emitted; under a value modifier it is that single value. */
  lemma {:induction false} ReducedValue(app: App, op: (Val, Val) -> Val, rows: seq<seq<Val>>)
    requires Commutative(op) && KeepsFold(app, op) && |Flat(rows)| > 0
    ensures |Joined(app, Kept(app, rows))| > 0
    ensures app.UsesVm() ==> |Joined(app, Kept(app, rows))| == 1
    ensures Fold(op, Joined(app, Kept(app, rows))) == Fold(op, Flat(rows))
  {
    var init, last := rows[..|rows| - 1], rows[|rows| - 1];
    var kept := KeptOf(app, last);
    var before := Joined(app, Kept(app, init));
    assert Kept(app, rows)[..|rows| - 1] == Kept(app, init);
    assert Joined(app, Kept(app, rows)) == Move(app, before, kept);
    if Flat(init) == [] {
      NothingKept(app, init);
      assert Flat(rows) == last;
    } else {
      ReducedValue(app, op, init);
    }
    if |last| > 0 {
      KeptFold(app, op, last);
      MoveFold(app, op, before, kept);
      if Flat(init) != [] {
        FoldConcat(op, Flat(init), last);
      }
    } else {
      assert Flat(rows) == Flat(init);
      assert before + [] == before;
    }
  }

  lemma {:induction false} NothingKept(app: App, rows: seq<seq<Val>>)
    requires Flat(rows) == []
    ensures Joined(app, Kept(app, rows)) == []
  {
    if rows != [] {
      NothingKept(app, rows[..|rows| - 1]);
      assert Kept(app, rows)[..|rows| - 1] == Kept(app, rows[..|rows| - 1]);
    }
  }

  /** The two ways of configuring an application agree on the final value of a key, also when
      the same values are spread differently. */
  lemma SameResult(app: App, app': App, op: (Val, Val) -> Val, rows: seq<seq<Val>>, rows': seq<seq<Val>>)
    requires Commutative(op) && IsVmFor(app, op) && IsCombinerFor(app', op)
    requires |Flat(rows)| > 0 && multiset(Flat(rows)) == multiset(Flat(rows'))
    ensures |Joined(app', Kept(app', rows'))| > 0
    ensures Joined(app, Kept(app, rows)) == [Fold(op, Joined(app', Kept(app', rows')))]
  {
    ReducedValue(app, op, rows);
    FoldOrder(op, Flat(rows), Flat(rows'));
    ReducedValue(app', op, rows');
  }
}
