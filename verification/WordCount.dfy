/** The callbacks of the word count: benchmarks/metis/app/wc.c:153-183. */
module WordCount {
  import opened Common
  import opened Values

  const WORD: nat := 0x1_0000_0000_0000_0000

  /** Addition of 64-bit words. */
  function Add(a: Val, b: Val): Val { (a + b) % WORD }

  /** `wordcount_vm`. */
  function Vm(oldv: Val, newv: Val, isNew: bool): Val { if isNew then newv else Add(oldv, newv) }

  /** `wordcount_combine`, as a rewriting of the values. */
  function Combined(s: seq<Val>): seq<Val> { if s == [] then [] else [Fold(Add, s)] }

  function WithVm(): App { MapReduce(Some(Vm), None) }

  function WithCombiner(): App { MapReduce(None, Some(Combined)) }

  lemma ModTwice(a: int, b: int)
    ensures (a % WORD + b) % WORD == (a + b) % WORD
  {
  }

  lemma AddCommutes()
    ensures Commutative(Add)
  {
    forall a: int, b: int, c: int ensures Add(Add(a, b), c) == Add(a, Add(b, c)) {
      ModTwice(a + b, c);
      ModTwice(b + c, a);
    }
  }

  lemma BothCount()
    ensures IsVmFor(WithVm(), Add) && IsCombinerFor(WithCombiner(), Add)
  {
  }

  /** `wordcount_combine` adds the values up in place. */
  method Combine(vals: array<Val>, len: nat) returns (left: nat)
    requires 0 < len <= vals.Length
    modifies vals
    ensures left == 1 && vals[..left] == Combined(old(vals[..len]))
    ensures forall i :: 0 < i < vals.Length ==> vals[i] == old(vals[i])
  {
    ghost var s := vals[..len];
    for i := 1 to len
      invariant vals[0] == Fold(Add, s[..i])
      invariant forall j :: 0 < j < vals.Length ==> vals[j] == old(vals[j])
    {
      assert s[..i + 1][..i] == s[..i];
      vals[0] := Add(vals[0], vals[i]);
    }
    assert s[..len] == s;
    return 1;
  }

  /** The values added up, as a 64-bit word. */
  function Sum(vals: seq<Val>): Val { if vals == [] then 0 else Fold(Add, vals) % WORD }

  /** `wordcount_reduce` emits the sum. */
  method Reduce(vals: seq<Val>) returns (sum: Val)
    ensures sum == Sum(vals)
  {
    sum := 0;
    for i := 0 to |vals|
      invariant sum == Sum(vals[..i])
    {
      SumStep(vals, i);
      sum := Add(sum, vals[i]);
    }
    assert vals[..|vals|] == vals;
  }

  lemma SumStep(vals: seq<Val>, i: nat)
    requires i < |vals|
    ensures Sum(vals[..i + 1]) == Add(Sum(vals[..i]), vals[i])
  {
    assert vals[..i + 1][..i] == vals[..i];
    if i > 0 {
      ModTwice(Fold(Add, vals[..i]), vals[i]);
      ModTwice(Fold(Add, vals[..i]) + vals[i], 0);
    }
  }

  /** What is emitted for a key: the single value under the value modifier, else what
      `wordcount_reduce` makes of the values. */
  function Emitted(app: App, vals: seq<Val>): Val { if app.UsesVm() && vals != [] then vals[0] else Sum(vals) }

  method Emit(app: App, vals: seq<Val>) returns (v: Val)
    requires app.MapReduce? && (app.UsesVm() ==> |vals| == 1)
    ensures v == Emitted(app, vals)
  {
    if app.vm.Some? {
      v := vals[0];
    } else {
      v := Reduce(vals);
    }
  }

  /** Values whose fold is a word are emitted as that word, on both paths. */
  lemma EmittedIs(app: App, vals: seq<Val>, n: int)
    requires |vals| > 0 && (app.UsesVm() ==> |vals| == 1) && Fold(Add, vals) == n % WORD
    ensures Emitted(app, vals) == n % WORD
  {
  }

  /** Adding up n ones. */
  lemma {:induction false} Ones(s: seq<Val>)
    requires |s| > 0 && forall i :: 0 <= i < |s| ==> s[i] == 1
    ensures Fold(Add, s) == |s| % WORD
  {
    if |s| > 1 {
      Ones(s[..|s| - 1]);
      ModTwice(|s| - 1, 1);
    }
  }
}
