/** The word count as a whole: benchmarks/metis/app/wc.c on top of the scheduler. */
module WordCountJob {
  import opened Common
  import opened Seqs
  import opened Values
  import opened Reduce
  import opened Store
  import Job
  import Presplitter
  import WC = WordCount
  import WS = WordSplit

  /** Words as keys: `code` stands for the order of strings, `h` for the hash function. */
  ghost predicate Injective(code: string -> Key) {
    forall v, w :: code(v) == code(w) ==> v == w
  }

  /** What `wordcount_map` emits for words: each with the value 1. */
  ghost function PairsOf(words: seq<string>, code: string -> Key, h: Key -> nat): (r: seq<Pair>) {
    if words == [] then [] else
    var k := code(words[|words| - 1]);
    PairsOf(words[..|words| - 1], code, h) + [Pair(k, 1, h(k))]
  }

  ghost predicate AllOnes(s: seq<Val>) { forall i :: 0 <= i < |s| ==> s[i] == 1 }

  lemma {:induction false} OnesOf(words: seq<string>, code: string -> Key, h: Key -> nat, w: string)
    requires Injective(code)
    ensures AllOnes(ValuesOf(PairsOf(words, code, h), code(w)))
    ensures |ValuesOf(PairsOf(words, code, h), code(w))| == Count(words, w)
  {
    if words != [] {
      var front, last := words[..|words| - 1], words[|words| - 1];
      OnesOf(front, code, h, w);
      var k := code(last);
      ValuesOfConcat(PairsOf(front, code, h), [Pair(k, 1, h(k))], code(w));
      assert [Pair(k, 1, h(k))][..0] == [];
    }
  }

  ghost function WordsAt(splits: seq<string>, i: nat): seq<string> { if i < |splits| then WS.Words(splits[i]) else [] }

  /** The pairs of the splits that a row maps, one after the other. */
  ghost function RowPairs(splits: seq<string>, taken: seq<nat>, code: string -> Key, h: Key -> nat): seq<Pair> {
    if taken == [] then [] else
    RowPairs(splits, taken[..|taken| - 1], code, h) + PairsOf(WordsAt(splits, taken[|taken| - 1]), code, h)
  }

  /** How often w occurs in the splits taken. */
  ghost function Total(splits: seq<string>, taken: seq<nat>, w: string): nat {
    if taken == [] then 0 else
    Total(splits, taken[..|taken| - 1], w) + Count(WordsAt(splits, taken[|taken| - 1]), w)
  }

  lemma {:induction false} RowOnes(splits: seq<string>, taken: seq<nat>, code: string -> Key, h: Key -> nat, w: string)
    requires Injective(code)
    ensures AllOnes(ValuesOf(RowPairs(splits, taken, code, h), code(w)))
    ensures |ValuesOf(RowPairs(splits, taken, code, h), code(w))| == Total(splits, taken, w)
  {
    if taken != [] {
      var front, words := taken[..|taken| - 1], WordsAt(splits, taken[|taken| - 1]);
      RowOnes(splits, front, code, h, w);
      OnesOf(words, code, h, w);
      ValuesOfConcat(RowPairs(splits, front, code, h), PairsOf(words, code, h), code(w));
    }
  }

  lemma {:induction false} TotalConcat(splits: seq<string>, a: seq<nat>, b: seq<nat>, w: string)
    ensures Total(splits, a + b, w) == Total(splits, a, w) + Total(splits, b, w)
    decreases |b|
  {
    if b == [] {
      assert a + b == a;
    } else {
      assert (a + b)[..|a + b| - 1] == a + b[..|b| - 1];
      TotalConcat(splits, a, b[..|b| - 1], w);
    }
  }

  lemma {:induction false} LogOnes(splits: seq<string>, rows: seq<seq<nat>>, log: seq<seq<Pair>>,
                                   code: string -> Key, h: Key -> nat, w: string)
    requires Injective(code) && |log| == |rows|
    requires forall r :: 0 <= r < |rows| ==> log[r] == RowPairs(splits, rows[r], code, h)
    ensures AllOnes(ValuesOf(Flat(log), code(w)))
    ensures |ValuesOf(Flat(log), code(w))| == Total(splits, Flat(rows), w)
  {
    if rows != [] {
      var n := |rows| - 1;
      LogOnes(splits, rows[..n], log[..n], code, h, w);
      RowOnes(splits, rows[n], code, h, w);
      ValuesOfConcat(Flat(log[..n]), log[n], code(w));
      TotalConcat(splits, Flat(rows[..n]), rows[n], w);
    }
  }

  /** The order in which splits are mapped does not matter. */
  lemma {:induction false} TotalOrder(splits: seq<string>, a: seq<nat>, b: seq<nat>, w: string)
    requires multiset(a) == multiset(b)
    ensures Total(splits, a, w) == Total(splits, b, w)
    decreases |a|
  {
    assert |multiset(a)| == |a| && |multiset(b)| == |b|;
    if a == [] {
      return;
    }
    hide Total;
    var i := FindLast(a, b);
    var front, x, l, r := a[..|a| - 1], b[i], b[..i], b[i + 1..];
    assert a == front + [x];
    TotalOrder(splits, front, l + r, w);
    TotalConcat(splits, front, [x], w);
    TotalMoved(splits, l, x, r, w);
  }

  lemma TotalMoved(splits: seq<string>, l: seq<nat>, x: nat, r: seq<nat>, w: string)
    ensures Total(splits, (l + [x]) + r, w) == Total(splits, l + r, w) + Total(splits, [x], w)
  {
    hide Total;
    TotalConcat(splits, l + [x], r, w);
    TotalConcat(splits, l, [x], w);
    TotalConcat(splits, l, r, w);
  }

  /** 0, 1, ..., n - 1. */
  ghost function Indices(n: nat): (r: seq<nat>)
    ensures |r| == n && forall i :: 0 <= i < n ==> r[i] == i
  {
    if n == 0 then [] else Indices(n - 1) + [n - 1]
  }

  lemma {:induction false} TotalOfAll(splits: seq<string>, n: nat, w: string)
    requires n <= |splits|
    ensures Total(splits, Indices(n), w) == Count(WS.AllWords(splits[..n]), w)
  {
    if n > 0 {
      TotalOfAll(splits, n - 1, w);
      assert Indices(n)[..n - 1] == Indices(n - 1);
      assert splits[..n][..n - 1] == splits[..n - 1];
      CountConcat(WS.AllWords(splits[..n - 1]), WS.Words(splits[n - 1]), w);
    }
  }

  lemma {:induction false} CountIndices(n: nat, i: nat)
    ensures Count(Indices(n), i) == if i < n then 1 else 0
  {
    if n > 0 {
      CountIndices(n - 1, i);
      CountMore<nat>(Indices(n - 1), n - 1, i);
    }
  }

  /** However workers share the splits, each is in one row. */
  lemma SplitsShared(rows: seq<seq<nat>>, n: nat, ncpus: nat)
    requires Presplitter.Spread(rows, n, ncpus)
    ensures |rows| == ncpus && multiset(Flat(rows)) == multiset(Indices(n))
  {
    hide Presplitter.Spread, Count, Flat, Indices;
    Presplitter.SpreadOnce(rows, n, ncpus, 0);
    forall i: nat ensures Count(Flat(rows), i) == Count(Indices(n), i) {
      Presplitter.SpreadOnce(rows, n, ncpus, i);
      CountIndices(n, i);
    }
    SameMultiset(Flat(rows), Indices(n));
  }

  /** A text is split at word borders, workers draw the splits in any interleaving, with sampling
      or without, and emit the words of each: then every word is reduced once, in one column, to
      values for which the number of times it occurs in the text is emitted. */
  lemma TextCounted(data: string, words: seq<string>, splits: seq<string>, rows: seq<seq<nat>>, ncpus: nat,
                    code: string -> Key,
                    h: Key -> nat,
                    sample: Option<seq<Job.Step>>, steps: seq<Job.Step>, app: App, tasks: nat, outs: seq<seq<Group>>,
                    w: string)
    requires Flat(splits) == data && WS.AtBorders(splits) && WS.AreWords(data, words)
    requires Presplitter.Spread(rows, |splits|, ncpus) && |rows| == ncpus
    requires Injective(code) && KeepsFold(app, WC.Add)
    requires forall r :: 0 <= r < ncpus ==> Job.RowLog(sample, steps, h, r) == RowPairs(splits, rows[r], code, h)
    requires tasks > 0 && |outs| == tasks
    requires forall c :: 0 <= c < tasks ==> ColumnOutput(app, Job.RunLog(sample, steps, h, ncpus), c, tasks, outs[c])
    ensures forall c :: 0 <= c < tasks ==>
      (code(w) in OutKeys(outs[c]) <==> h(code(w)) % tasks == c && Count(words, w) > 0)
    ensures forall c, j :: 0 <= c < tasks && 0 <= j < |outs[c]| && outs[c][j].key == code(w) ==>
      && |outs[c][j].vals| > 0 && (app.UsesVm() ==> |outs[c][j].vals| == 1)
      && Fold(WC.Add, outs[c][j].vals) == WC.Emitted(app, outs[c][j].vals) == Count(words, w) % WC.WORD
  {
    hide ColumnOutput, Hashed, RowPairs, Flat, Count, WS.Words, WS.AreWords, WS.AtBorders, ValuesOf, Fold,
         Presplitter.Spread, Job.RowLog, Job.RunLog, Injective, OutKeys, KeepsFold;
    WS.OnlyWords(data, words);
    SplitsShared(rows, |splits|, ncpus);
    var log := Job.RunLog(sample, steps, h, ncpus);
    Job.RunHashed(sample, steps, h, ncpus);
    LogCounted(data, splits, rows, log, code, h, app, tasks, outs, w);
  }

  /** Under the value modifier the one value left for a word is its count. */
  lemma VmCounted(data: string, words: seq<string>, splits: seq<string>, rows: seq<seq<nat>>, ncpus: nat,
                  code: string -> Key,
                  h: Key -> nat,
                  sample: Option<seq<Job.Step>>, steps: seq<Job.Step>, tasks: nat, outs: seq<seq<Group>>, w: string)
    requires Flat(splits) == data && WS.AtBorders(splits) && WS.AreWords(data, words)
    requires Presplitter.Spread(rows, |splits|, ncpus) && |rows| == ncpus && Injective(code)
    requires forall r :: 0 <= r < ncpus ==> Job.RowLog(sample, steps, h, r) == RowPairs(splits, rows[r], code, h)
    requires tasks > 0 && |outs| == tasks
    requires forall c :: 0 <= c < tasks ==>
      ColumnOutput(WC.WithVm(), Job.RunLog(sample, steps, h, ncpus), c, tasks, outs[c])
    ensures forall c, j :: 0 <= c < tasks && 0 <= j < |outs[c]| && outs[c][j].key == code(w) ==>
      outs[c][j].vals == [Count(words, w) % WC.WORD]
  {
    hide ColumnOutput, RowPairs, Flat, Count, WS.Words, WS.AreWords, WS.AtBorders, Presplitter.Spread, Job.RowLog,
         Job.RunLog, Injective, OutKeys;
    WC.BothCount();
    TextCounted(data, words, splits, rows, ncpus, code, h, sample, steps, WC.WithVm(), tasks, outs, w);
  }

  /** The same for any log of the rows. */
  lemma LogCounted(data: string, splits: seq<string>, rows: seq<seq<nat>>, log: seq<seq<Pair>>, code: string -> Key,
                   h: Key -> nat,
                   app: App, cols: nat, outs: seq<seq<Group>>, w: string)
    requires Flat(splits) == data && WS.AtBorders(splits)
    requires multiset(Flat(rows)) == multiset(Indices(|splits|))
    requires Injective(code) && |log| == |rows|
    requires forall r :: 0 <= r < |rows| ==> log[r] == RowPairs(splits, rows[r], code, h)
    requires forall r :: 0 <= r < |log| ==> Hashed(log[r], h)
    requires cols > 0 && |outs| == cols && forall c :: 0 <= c < cols ==> ColumnOutput(app, log, c, cols, outs[c])
    requires KeepsFold(app, WC.Add)
    ensures forall c :: 0 <= c < cols ==>
      (code(w) in OutKeys(outs[c]) <==> h(code(w)) % cols == c && Count(WS.Words(data), w) > 0)
    ensures forall c, j :: 0 <= c < cols && 0 <= j < |outs[c]| && outs[c][j].key == code(w) ==>
      && |outs[c][j].vals| > 0 && (app.UsesVm() ==> |outs[c][j].vals| == 1)
      && Fold(WC.Add, outs[c][j].vals) == WC.Emitted(app, outs[c][j].vals) == Count(WS.Words(data), w) % WC.WORD
  {
    hide ColumnOutput, Hashed, RowPairs, Flat, Indices, Count, WS.Words, WS.AtBorders, ValuesOf, Fold, Injective,
         OutKeys, Commutative, KeepsFold, WC.Add, WC.Emitted;
    CountOf(data, splits, rows, log, code, h, w);
    WC.AddCommutes();
    Job.KeyReduced(app, WC.Add, log, h, cols, outs, code(w));
    if ValuesOf(Flat(log), code(w)) != [] {
      WC.Ones(ValuesOf(Flat(log), code(w)));
    }
    forall c, j | 0 <= c < cols && 0 <= j < |outs[c]| && outs[c][j].key == code(w)
      ensures WC.Emitted(app, outs[c][j].vals) == Count(WS.Words(data), w) % WC.WORD
    {
      WC.EmittedIs(app, outs[c][j].vals, Count(WS.Words(data), w));
    }
  }

  lemma CountOf(data: string, splits: seq<string>, rows: seq<seq<nat>>, log: seq<seq<Pair>>, code: string -> Key,
                h: Key -> nat, w: string)
    requires Flat(splits) == data && WS.AtBorders(splits)
    requires multiset(Flat(rows)) == multiset(Indices(|splits|))
    requires Injective(code) && |log| == |rows| && forall r :: 0 <= r < |rows| ==>
      log[r] == RowPairs(splits, rows[r], code, h)
    ensures AllOnes(ValuesOf(Flat(log), code(w)))
    ensures |ValuesOf(Flat(log), code(w))| == Count(WS.Words(data), w)
  {
    LogOnes(splits, rows, log, code, h, w);
    TotalOrder(splits, Flat(rows), Indices(|splits|), w);
    TotalOfAll(splits, |splits|, w);
    assert splits[..|splits|] == splits;
    WS.SplitsKeepWords(splits);
  }
}
