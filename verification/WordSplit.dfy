/** Splitting a text and finding its words: wordcount_splitter and wordcount_map of
    benchmarks/metis/app/wc.c. */
module WordSplit {
  import opened Common
  import opened Chars
  import opened Seqs

  const MAX_KEY_LEN: nat := 256

  /** Where a split may end. */
  predicate Sep(c: char) { c == ' ' || c == '\t' || c == '\r' || c == '\n' || c == NUL }

  function Upper(c: char): char { if 'a' <= c <= 'z' then (c as int - 32) as char else c }

  predicate Letter(c: char) { 'A' <= Upper(c) <= 'Z' }

  /** Blank, tab, carriage return, newline and NUL. */
  lemma SepCodes(c: char)
    ensures Sep(c) <==> c as int in {32, 9, 13, 10, 0}
  {
  }

  // ---------------------------------------------------------------------- the splitter

  /** The position behind the split that starts at pos: the first separator that is at least
      `size` bytes on, or the end. */
  function NextPos(data: string, size: nat, pos: nat): (r: nat)
    requires pos <= |data|
    ensures pos <= r <= |data| && (r < pos + size ==> r == |data|)
    ensures r < |data| ==> Sep(data[r])
    ensures forall i :: pos + size <= i < r ==> !Sep(data[i])
  {
    SkipWord(data, if pos + size > |data| then |data| else pos + size)
  }

  /** The first separator from pos on, or the end. */
  function SkipWord(data: string, pos: nat): (r: nat)
    requires pos <= |data|
    ensures pos <= r <= |data| && (r < |data| ==> Sep(data[r]))
    ensures forall i :: pos <= i < r ==> !Sep(data[i])
    decreases |data| - pos
  {
    if pos < |data| && !Sep(data[pos]) then SkipWord(data, pos + 1) else pos
  }

  class Splitter {
    const data: string
    const splitSize: nat
    var pos: nat

    constructor (data: string, nsplits: nat)
      requires nsplits > 0
      ensures this.data == data && splitSize == |data| / nsplits && pos == 0
    {
      this.data := data;
      splitSize := |data| / nsplits;
      pos := 0;
    }

    /** `wordcount_splitter`: the next split, None at the end. */
    method Next() returns (split: Option<string>)
      requires pos <= |data|
      modifies this
      ensures pos == (if old(pos) == |data| then old(pos) else NextPos(data, splitSize, old(pos)))
      ensures old(pos) <= pos <= |data|
      ensures split == if old(pos) == |data| then None else Some(data[old(pos)..pos])
    {
      if pos >= |data| {
        return None;
      }
      var start := pos;
      var length := splitSize;
      if pos + length > |data| {
        length := |data| - pos;
      }
      pos := pos + length;
      while pos < |data| && !Sep(data[pos])
        invariant start <= pos <= |data| && start + length == pos
        invariant SkipWord(data, pos) == NextPos(data, splitSize, start)
      {
        pos := pos + 1;
        length := length + 1;
      }
      split := Some(data[start..start + length]);
    }
  }

  /** Every split but the first starts with a separator. */
  ghost predicate AtBorders(splits: seq<string>) {
    forall i :: 0 < i < |splits| ==> splits[i] != "" && Sep(splits[i][0])
  }

  // ------------------------------------------------------------- when splitting ends

  lemma Positive(a: nat, b: nat)
    requires a >= b > 0
    ensures a / b > 0
  {
  }

  /** The position after k calls. */
  ghost function After(data: string, size: nat, k: nat): (r: nat)
    ensures r <= |data|
  {
    if k == 0 then 0 else
    var p := After(data, size, k - 1);
    if p == |data| then p else NextPos(data, size, p)
  }

  lemma {:induction false} MovesOn(data: string, size: nat, k: nat)
    requires size > 0
    ensures After(data, size, k) == |data| || After(data, size, k) >= k
  {
    if k > 0 {
      MovesOn(data, size, k - 1);
    }
  }

  lemma SkipStops(data: string, q: nat, p: nat)
    requires q <= p < |data| && Sep(data[p])
    ensures SkipWord(data, q) <= p
  {
  }

  lemma {:induction false} StaysPut(data: string, p: nat, k: nat)
    requires p < |data| && Sep(data[p]) && forall i :: 0 <= i < p ==> !Sep(data[i])
    ensures After(data, 0, k) <= p
  {
    if k > 0 {
      StaysPut(data, p, k - 1);
      SkipStops(data, After(data, 0, k - 1), p);
    }
  }

  lemma FirstSep(data: string) returns (p: nat)
    requires exists i :: 0 <= i < |data| && Sep(data[i])
    ensures p < |data| && Sep(data[p]) && forall i :: 0 <= i < p ==> !Sep(data[i])
  {
    p := SkipWord(data, 0);
  }

  /** There are at least as many bytes as splits, or no separator to stop at. */
  ghost predicate Ends(data: string, nsplits: nat) {
    |data| >= nsplits || forall i :: 0 <= i < |data| ==> !Sep(data[i])
  }

  lemma OneSplit(data: string)
    requires forall i :: 0 <= i < |data| ==> !Sep(data[i])
    ensures After(data, 0, 1) == |data|
  {
    assert After(data, 0, 0) == 0;
  }

  /** Splitting ends exactly then. */
  lemma SplittingEnds(data: string, nsplits: nat)
    requires nsplits > 0
    ensures (exists k :: After(data, |data| / nsplits, k) == |data|) <==> Ends(data, nsplits)
  {
    hide After;
    var size := |data| / nsplits;
    if |data| >= nsplits {
      Positive(|data|, nsplits);
      MovesOn(data, size, |data|);
    } else {
      assert size == 0;
      if exists i :: 0 <= i < |data| && Sep(data[i]) {
        var p := FirstSep(data);
        forall k ensures After(data, size, k) != |data| {
          StaysPut(data, p, k);
        }
      } else {
        OneSplit(data);
      }
    }
  }

  lemma NextMoves(data: string, nsplits: nat, pos: nat)
    requires nsplits > 0 && Ends(data, nsplits) && pos < |data|
    ensures pos < NextPos(data, |data| / nsplits, pos)
  {
    if |data| >= nsplits {
      Positive(|data|, nsplits);
    }
  }

  /** All splits of a text: they are contiguous, cover it and end at word borders. */
  method AllSplits(data: string, nsplits: nat) returns (splits: seq<string>)
    requires nsplits > 0 && Ends(data, nsplits)
    ensures Flat(splits) == data && AtBorders(splits)
  {
    var s := new Splitter(data, nsplits);
    splits := [];
    var more := true;
    while more
      invariant fresh(s) && s.data == data && s.splitSize == |data| / nsplits && s.pos <= |data|
      invariant Flat(splits) == data[..s.pos] && AtBorders(splits)
      invariant s.pos < |data| ==> splits == [] || Sep(data[s.pos])
      invariant !more ==> s.pos == |data|
      decreases |data| - s.pos, more
    {
      ghost var start := s.pos;
      if start < |data| {
        NextMoves(data, nsplits, start);
      }
      var split := s.Next();
      if split.None? {
        more := false;
      } else {
        assert (splits + [split.value])[..|splits|] == splits;
        assert data[..start] + data[start..s.pos] == data[..s.pos];
        splits := splits + [split.value];
      }
    }
  }

  // -------------------------------------------------------------------------- the words

  /** The words found so far and the one being read. */
  datatype Scan = Scan(words: seq<string>, cur: string)

  function Step(s: Scan, c: char): Scan {
    if s.cur != "" then
      if Letter(c) || c == '\'' then s.(cur := s.cur + [Upper(c)]) else Scan(s.words + [s.cur], "")
    else if Letter(c) then s.(cur := [Upper(c)]) else s
  }

  function ScanOf(data: string): Scan {
    if data == "" then Scan([], "") else Step(ScanOf(data[..|data| - 1]), data[|data| - 1])
  }

  function Finish(s: Scan): seq<string> { if s.cur == "" then s.words else s.words + [s.cur] }

  /** The words of a text, in upper case: a letter, then letters and apostrophes. */
  function Words(data: string): seq<string> { Finish(ScanOf(data)) }

  /** What may stand in a word behind its first letter. */
  predicate WordChar(c: char) { Letter(c) || c == '\'' }

  /** The letters and their upper case, in ASCII. */
  lemma AsciiLetters(c: char)
    ensures Letter(c) <==> 65 <= c as int <= 90 || 97 <= c as int <= 122
    ensures 97 <= c as int <= 122 ==> Upper(c) as int == c as int - 32
    ensures !(97 <= c as int <= 122) ==> Upper(c) == c
  {
  }

  /** `word` is data[a..b] in upper case: a letter, then letters and apostrophes. */
  ghost predicate IsWord(data: string, a: nat, b: nat, word: string) {
    && a < b <= |data| && Letter(data[a]) && (forall k :: a <= k < b ==> WordChar(data[k]))
    && |word| == b - a && forall k :: 0 <= k < |word| ==> word[k] == Upper(data[a + k])
  }

  ghost predicate Each(data: string, words: seq<string>, from: seq<nat>, to: seq<nat>) {
    |from| == |to| == |words| && forall i :: 0 <= i < |words| ==> IsWord(data, from[i], to[i], words[i])
  }

  ghost predicate Apart(from: seq<nat>, to: seq<nat>) {
    |from| == |to| && forall i, j :: 0 <= i < j < |from| ==> to[i] < from[j]
  }

  ghost predicate Covered(data: string, from: seq<nat>, to: seq<nat>) {
    && |from| == |to|
    && forall k :: 0 <= k < |data| && Letter(data[k]) ==> exists i :: 0 <= i < |from| && from[i] <= k < to[i]
  }

  /** Where the words lie: from[i] up to to[i], one behind the other, and no letter is outside. */
  ghost predicate WordsLie(data: string, words: seq<string>, from: seq<nat>, to: seq<nat>) {
    Each(data, words, from, to) && Apart(from, to) && Covered(data, from, to)
  }

  /** No word can be prolonged to the right. */
  ghost predicate WordsEnd(data: string, to: seq<nat>) {
    forall i :: 0 <= i < |to| ==> to[i] <= |data| && (to[i] < |data| ==> !WordChar(data[to[i]]))
  }

  /** The words that lie in a text, each as long as it can be. */
  ghost predicate AreWords(data: string, words: seq<string>) {
    exists from, to :: WordsLie(data, words, from, to) && WordsEnd(data, to)
  }

  /** All words have ended before the end of the text, but perhaps the last, which is `cur`. */
  ghost predicate Open(data: string, cur: string, to: seq<nat>) {
    && (cur == "" ==> forall i :: 0 <= i < |to| ==> to[i] < |data|)
    && (cur != "" ==> |to| > 0 && to[|to| - 1] == |data| && forall i :: 0 <= i < |to| - 1 ==> to[i] < |data|)
  }

  ghost predicate Lie(data: string, words: seq<string>, cur: string, from: seq<nat>, to: seq<nat>) {
    var whole := WordsLie(data, words, from, to) && WordsEnd(data, to) && Open(data, cur, to);
    whole
  }

  lemma WordStays(data: string, c: char, a: nat, b: nat, word: string)
    requires IsWord(data, a, b, word)
    ensures IsWord(data + [c], a, b, word)
  {
    var all := data + [c];
    assert forall k :: 0 <= k < |data| ==> all[k] == data[k];
  }

  lemma EachStays(data: string, c: char, words: seq<string>, from: seq<nat>, to: seq<nat>)
    requires Each(data, words, from, to)
    ensures Each(data + [c], words, from, to)
  {
    hide IsWord;
    forall i | 0 <= i < |words| ensures IsWord(data + [c], from[i], to[i], words[i]) {
      WordStays(data, c, from[i], to[i], words[i]);
    }
  }

  lemma EachMore(data: string, words: seq<string>, from: seq<nat>, to: seq<nat>, a: nat, b: nat, word: string)
    requires Each(data, words, from, to) && IsWord(data, a, b, word)
    ensures Each(data, words + [word], from + [a], to + [b])
  {
    hide IsWord;
  }

  /** Every letter is in a word still, and so is the new one if it is in the last. */
  lemma CoveredStays(data: string, c: char, from: seq<nat>, to: seq<nat>, to': seq<nat>)
    requires Covered(data, from, to) && |to'| == |to| && forall i :: 0 <= i < |to| ==> to[i] <= to'[i]
    requires Letter(c) ==> |from| > 0 && from[|from| - 1] <= |data| < to'[|from| - 1]
    ensures Covered(data + [c], from, to')
  {
    hide Letter;
    var all := data + [c];
    forall k | 0 <= k < |all| && Letter(all[k]) ensures exists i :: 0 <= i < |from| && from[i] <= k < to'[i] {
      if k < |data| {
        assert all[k] == data[k];
        var i :| 0 <= i < |from| && from[i] <= k < to[i];
        assert from[i] <= k < to'[i];
      } else {
        var i := |from| - 1;
        assert from[i] <= k < to'[i];
      }
    }
  }

  lemma CoveredMore(data: string, from: seq<nat>, to: seq<nat>, a: nat, b: nat)
    requires Covered(data, from, to)
    ensures Covered(data, from + [a], to + [b])
  {
    hide Letter;
    forall k | 0 <= k < |data| && Letter(data[k])
      ensures exists i :: 0 <= i < |from + [a]| && (from + [a])[i] <= k < (to + [b])[i]
    {
      var i :| 0 <= i < |from| && from[i] <= k < to[i];
      assert (from + [a])[i] <= k < (to + [b])[i];
    }
  }

  lemma EndStays(data: string, c: char, to: seq<nat>)
    requires WordsEnd(data, to) && forall i :: 0 <= i < |to| ==> to[i] < |data| || !WordChar(c)
    ensures WordsEnd(data + [c], to)
  {
    hide WordChar;
  }

  /** A character that continues no word. */
  lemma LieOther(data: string, words: seq<string>, cur: string, from: seq<nat>, to: seq<nat>, c: char)
    requires Lie(data, words, cur, from, to) && !Letter(c) && (cur != "" ==> !WordChar(c))
    ensures Lie(data + [c], words, "", from, to)
  {
    hide Each, Covered, WordsEnd, WordChar, Letter, Apart;
    EachStays(data, c, words, from, to);
    SameSize(data, words, from, to);
    CoveredStays(data, c, from, to, to);
    EndStays(data, c, to);
  }

  lemma SameSize(data: string, words: seq<string>, from: seq<nat>, to: seq<nat>)
    requires Each(data, words, from, to)
    ensures |from| == |to| == |words|
  {
  }

  /** A letter between words. */
  lemma LieNew(data: string, words: seq<string>, from: seq<nat>, to: seq<nat>, c: char)
    requires Lie(data, words, "", from, to) && Letter(c)
    ensures Lie(data + [c], words + [[Upper(c)]], [Upper(c)], from + [|data|], to + [|data| + 1])
  {
    hide Each, Covered, WordsEnd, WordChar, Letter, Upper;
    var from', to' := from + [|data|], to + [|data| + 1];
    SameSize(data, words, from, to);
    EachStays(data, c, words, from, to);
    OneLetter(data + [c], |data|);
    EachMore(data + [c], words, from, to, |data|, |data| + 1, [Upper(c)]);
    CoveredMore(data, from, to, |data|, |data| + 1);
    CoveredStays(data, c, from', to', to');
    EndStays(data, c, to);
    EndMore(data + [c], to, |data| + 1);
  }

  lemma EndMore(data: string, to: seq<nat>, b: nat)
    requires WordsEnd(data, to) && b == |data|
    ensures WordsEnd(data, to + [b])
  {
  }

  lemma OneLetter(data: string, a: nat)
    requires a < |data| && Letter(data[a])
    ensures IsWord(data, a, a + 1, [Upper(data[a])])
  {
  }

  /** One more character of a word. */
  lemma LieMore(data: string, words: seq<string>, cur: string, from: seq<nat>, to: seq<nat>, c: char)
    requires Lie(data, words + [cur], cur, from, to) && cur != "" && WordChar(c)
    ensures |words| <= |to|
    ensures Lie(data + [c], words + [cur + [Upper(c)]], cur + [Upper(c)], from, to[..|words|] + [|data| + 1])
  {
    hide Each, Covered, WordsEnd, WordChar, Letter, Upper, IsWord;
    var n := |words|;
    SameSize(data, words + [cur], from, to);
    var to' := to[..n] + [|data| + 1];
    LastOfEach(data, words, cur, from, to);
    EachStays(data, c, words, from[..n], to[..n]);
    LongerWord(data, c, from[n], cur);
    EachMore(data + [c], words, from[..n], to[..n], from[n], |data| + 1, cur + [Upper(c)]);
    assert from[..n] + [from[n]] == from;
    CoveredStays(data, c, from, to, to');
    FrontEnds(data, to, n);
    EndStays(data, c, to[..n]);
    EndMore(data + [c], to[..n], |data| + 1);
  }

  lemma LastOfEach(data: string, words: seq<string>, cur: string, from: seq<nat>, to: seq<nat>)
    requires Each(data, words + [cur], from, to)
    ensures var n := |words|; Each(data, words, from[..n], to[..n]) && IsWord(data, from[n], to[n], cur)
    ensures from[|words|] <= |data|
  {
    var all, n := words + [cur], |words|;
    assert IsWord(data, from[n], to[n], all[n]);
    hide IsWord;
    forall i | 0 <= i < n ensures IsWord(data, from[i], to[i], words[i]) {
      assert IsWord(data, from[i], to[i], all[i]);
    }
  }

  lemma FrontEnds(data: string, to: seq<nat>, n: nat)
    requires WordsEnd(data, to) && n <= |to|
    ensures WordsEnd(data, to[..n])
  {
    hide WordChar;
  }

  lemma LongerWord(data: string, c: char, a: nat, word: string)
    requires a <= |data| && IsWord(data, a, |data|, word) && WordChar(c)
    ensures IsWord(data + [c], a, |data| + 1, word + [Upper(c)])
  {
    var all := data + [c];
    assert forall k :: 0 <= k < |data| ==> all[k] == data[k];
  }

  /** Where the words found by the scan lie. */
  lemma {:induction false} ScanLies(data: string) returns (from: seq<nat>, to: seq<nat>)
    ensures Lie(data, Words(data), ScanOf(data).cur, from, to)
  {
    hide Lie, Letter, Upper, WordChar, ScanOf, Step, Words;
    if data == "" {
      NothingLies();
      return [], [];
    }
    var front, c := data[..|data| - 1], data[|data| - 1];
    assert data == front + [c];
    from, to := ScanLies(front);
    var s := ScanOf(front);
    ScanMore(front, c);
    if s.cur != "" && WordChar(c) {
      LieMore(front, s.words, s.cur, from, to, c);
      to := to[..|s.words|] + [|front| + 1];
    } else if s.cur == "" && Letter(c) {
      LieNew(front, s.words, from, to, c);
      from, to := from + [|front|], to + [|front| + 1];
    } else {
      SameWordChar(c);
      LieOther(front, Words(front), s.cur, from, to, c);
    }
  }

  lemma NothingLies()
    ensures Lie("", Words(""), ScanOf("").cur, [], [])
  {
  }

  lemma ScanMore(front: string, c: char)
    ensures var s := ScanOf(front);
      var data := front + [c];
      && (s.cur != "" && WordChar(c) ==>
           ScanOf(data).cur == s.cur + [Upper(c)] && Words(front) == s.words + [s.cur] &&
           Words(data) == s.words + [s.cur + [Upper(c)]])
      && (s.cur == "" && Letter(c) ==>
           ScanOf(data).cur == [Upper(c)] && Words(front) == s.words && Words(data) == s.words + [[Upper(c)]])
      && ((if s.cur != "" then !WordChar(c) else !Letter(c)) ==>
           ScanOf(data).cur == "" && Words(data) == Words(front))
  {
    hide Letter, Upper;
    assert (front + [c])[..|front|] == front;
  }

  lemma SameWordChar(c: char)
    ensures WordChar(c) <==> Letter(c) || c == '\''
  {
  }

  /** The words of a text are the longest stretches of it that start with a letter and go on with
      letters and apostrophes, in order and in upper case, and every letter is in one of them. */
  lemma WordsAre(data: string)
    ensures AreWords(data, Words(data))
  {
    hide WordsLie, WordsEnd;
    var from, to := ScanLies(data);
  }

  /** The next word of one arrangement does not start behind that of another. */
  lemma NotBehind(data: string, v: seq<string>, f: seq<nat>, t: seq<nat>, w: seq<string>, f': seq<nat>, t': seq<nat>,
                  n: nat)
    requires WordsLie(data, v, f, t) && WordsLie(data, w, f', t') && n < |v|
    requires n <= |w| && f[..n] == f'[..n] && t[..n] == t'[..n]
    ensures n < |w| && f'[n] <= f[n]
  {
    hide Each, Covered;
    SameSize(data, v, f, t);
    SameSize(data, w, f', t');
    LetterAt(data, v, f, t, n);
    var i := SpanOf(data, f', t', f[n]);
    if n < i {
      LetterAt(data, w, f', t', n);
    }
  }

  lemma LetterAt(data: string, v: seq<string>, f: seq<nat>, t: seq<nat>, n: nat)
    requires Each(data, v, f, t) && n < |v|
    ensures f[n] < t[n] <= |data| && Letter(data[f[n]])
  {
    assert IsWord(data, f[n], t[n], v[n]);
  }

  lemma SpanOf(data: string, f: seq<nat>, t: seq<nat>, k: nat) returns (i: nat)
    requires Covered(data, f, t) && k < |data| && Letter(data[k])
    ensures i < |f| && f[i] <= k < t[i]
  {
    i :| 0 <= i < |f| && f[i] <= k < t[i];
  }

  /** The words and their places are determined by the text. */
  lemma SamePlaces(data: string, v: seq<string>, f: seq<nat>, t: seq<nat>, w: seq<string>, f': seq<nat>, t': seq<nat>)
    requires WordsLie(data, v, f, t) && WordsEnd(data, t) && WordsLie(data, w, f', t') && WordsEnd(data, t')
    ensures v == w
  {
    hide WordsLie, WordsEnd, IsWord;
    SizesAgree(data, v, f, t);
    SizesAgree(data, w, f', t');
    var n := 0;
    while n < |v|
      invariant n <= |v| && n <= |w| && f[..n] == f'[..n] && t[..n] == t'[..n] && v[..n] == w[..n]
    {
      NotBehind(data, v, f, t, w, f', t', n);
      NotBehind(data, w, f', t', v, f, t, n);
      SameWord(data, v, f, t, w, f', t', n);
      assert f[..n + 1] == f[..n] + [f[n]] && f'[..n + 1] == f'[..n] + [f'[n]];
      assert t[..n + 1] == t[..n] + [t[n]] && t'[..n + 1] == t'[..n] + [t'[n]];
      assert v[..n + 1] == v[..n] + [v[n]] && w[..n + 1] == w[..n] + [w[n]];
      n := n + 1;
    }
    if n < |w| {
      NotBehind(data, w, f', t', v, f, t, n);
    }
    assert v[..n] == v && w[..n] == w;
  }

  lemma SizesAgree(data: string, v: seq<string>, f: seq<nat>, t: seq<nat>)
    requires WordsLie(data, v, f, t)
    ensures |f| == |t| == |v|
  {
  }

  lemma SameWord(data: string, v: seq<string>, f: seq<nat>, t: seq<nat>, w: seq<string>, f': seq<nat>, t': seq<nat>,
                 n: nat)
    requires WordsLie(data, v, f, t) && WordsEnd(data, t) && WordsLie(data, w, f', t') && WordsEnd(data, t')
    requires n < |v| && n < |w| && f[n] == f'[n]
    ensures t[n] == t'[n] && v[n] == w[n]
  {
    assert IsWord(data, f[n], t[n], v[n]) && IsWord(data, f'[n], t'[n], w[n]);
    assert WordChar(data[t[n] - 1]) && WordChar(data[t'[n] - 1]);
  }

  /** The scan finds these words and no others. */
  lemma OnlyWords(data: string, words: seq<string>)
    ensures AreWords(data, words) <==> words == Words(data)
  {
    hide WordsLie, WordsEnd, Words;
    WordsAre(data);
    if AreWords(data, words) {
      var f, t :| WordsLie(data, words, f, t) && WordsEnd(data, t);
      var f', t' :| WordsLie(data, Words(data), f', t') && WordsEnd(data, t');
      SamePlaces(data, words, f, t, Words(data), f', t');
    }
  }

  /** Every word fits the key buffer. */
  ghost predicate Fit(words: seq<string>) {
    forall i :: 0 <= i < |words| ==> |words[i]| < MAX_KEY_LEN
  }

  /** `wordcount_map`: it emits the words of its split; None where a word is too long for the key. */
  method MapSplit(data: string) returns (emitted: Option<seq<string>>)
    ensures emitted.Some? <==> Fit(Words(data))
    ensures emitted.Some? ==> emitted.value == Words(data) && AreWords(data, emitted.value)
  {
    hide AreWords;
    WordsAre(data);
    var words: seq<string> := [];
    var key := "";
    var inWord := false;
    for i := 0 to |data|
      invariant ScanOf(data[..i]) == Scan(words, key) && (inWord <==> key != "") && Fit(words) && |key| < MAX_KEY_LEN
    {
      assert data[..i + 1][..i] == data[..i];
      var c := Upper(data[i]);
      if inWord {
        if (c < 'A' || c > 'Z') && c != '\'' {
          words := words + [key];
          key := "";
          inWord := false;
        } else {
          key := key + [c];
          if |key| >= MAX_KEY_LEN {
            FinishFit(Scan(words, key));
            TooLong(data, i + 1);
            return None;
          }
        }
      } else if 'A' <= c <= 'Z' {
        key := [c];
        inWord := true;
      }
    }
    assert data[..|data|] == data;
    FinishFit(Scan(words, key));
    return Some(if inWord then words + [key] else words);
  }

  lemma FinishFit(s: Scan)
    ensures Fit(Finish(s)) <==> Fit(s.words) && |s.cur| < MAX_KEY_LEN
  {
    var all := s.words + [s.cur];
    assert forall i :: 0 <= i < |s.words| ==> all[i] == s.words[i];
    assert all[|s.words|] == s.cur;
  }

  lemma {:induction false} TooLong(data: string, k: nat)
    requires k <= |data| && !Fit(Words(data[..k]))
    ensures !Fit(Words(data))
    decreases |data| - k
  {
    if k < |data| {
      assert data[..k + 1][..k] == data[..k];
      StillLong(ScanOf(data[..k]), data[k]);
      TooLong(data, k + 1);
    } else {
      assert data[..k] == data;
    }
  }

  lemma StillLong(a: Scan, c: char)
    requires !Fit(Finish(a))
    ensures !Fit(Finish(Step(a, c)))
  {
    var i :| 0 <= i < |Finish(a)| && |Finish(a)[i]| >= MAX_KEY_LEN;
    assert i < |Finish(Step(a, c))| && |Finish(Step(a, c))[i]| >= |Finish(a)[i]|;
  }

  /** A separator ends a word. */
  lemma SepEnds(s: Scan, c: char)
    requires Sep(c)
    ensures Step(s, c) == Scan(Finish(s), "")
  {
  }

  lemma {:induction false} ScanConcat(a: string, b: string)
    requires b != "" && Sep(b[0])
    ensures ScanOf(a + b) == Scan(Words(a) + ScanOf(b).words, ScanOf(b).cur)
    decreases |b|
  {
    var b', c := b[..|b| - 1], b[|b| - 1];
    assert (a + b)[..|a + b| - 1] == a + b';
    if b' == "" {
      assert a + b' == a;
      SepEnds(ScanOf(a), c);
      SepEnds(ScanOf(""), c);
    } else {
      ScanConcat(a, b');
      assert forall w :: (Words(a) + ScanOf(b').words) + [w] == Words(a) + (ScanOf(b').words + [w]);
    }
  }

  /** Words do not cross a separator. */
  lemma WordsConcat(a: string, b: string)
    requires b != "" && Sep(b[0])
    ensures Words(a + b) == Words(a) + Words(b)
  {
    ScanConcat(a, b);
  }

  function AllWords(splits: seq<string>): seq<string> {
    if splits == [] then [] else AllWords(splits[..|splits| - 1]) + Words(splits[|splits| - 1])
  }

  /** The words of the splits are the words of the text. */
  lemma {:induction false} SplitsKeepWords(splits: seq<string>)
    requires AtBorders(splits)
    ensures AllWords(splits) == Words(Flat(splits))
  {
    if |splits| == 1 {
      assert splits[..0] == [];
      assert Flat(splits) == splits[0];
    } else if |splits| > 1 {
      SplitsKeepWords(splits[..|splits| - 1]);
      WordsConcat(Flat(splits[..|splits| - 1]), splits[|splits| - 1]);
    }
  }

  lemma {:induction false} LongSplit(splits: seq<string>, k: nat)
    requires k < |splits| && !Fit(Words(splits[k]))
    ensures !Fit(AllWords(splits))
  {
    var n := |splits| - 1;
    var front, last := AllWords(splits[..n]), Words(splits[n]);
    if k < n {
      LongSplit(splits[..n], k);
      var i :| 0 <= i < |front| && |front[i]| >= MAX_KEY_LEN;
      assert (front + last)[i] == front[i];
    } else {
      var i :| 0 <= i < |last| && |last[i]| >= MAX_KEY_LEN;
      assert (front + last)[|front| + i] == last[i];
    }
  }

  /** Splitting a text and mapping the splits one after the other emits the words of the text. */
  method SplitAndMap(data: string, nsplits: nat) returns (emitted: Option<seq<string>>)
    requires nsplits > 0 && Ends(data, nsplits)
    ensures emitted.Some? <==> Fit(Words(data))
    ensures emitted.Some? ==> emitted.value == Words(data) && AreWords(data, emitted.value)
  {
    hide AreWords, Words;
    WordsAre(data);
    var splits := AllSplits(data, nsplits);
    SplitsKeepWords(splits);
    var all: seq<string> := [];
    for i := 0 to |splits|
      invariant all == AllWords(splits[..i]) && Fit(all)
    {
      assert splits[..i + 1][..i] == splits[..i];
      var words := MapSplit(splits[i]);
      if words.None? {
        LongSplit(splits, i);
        return None;
      }
      all := all + words.value;
    }
    assert splits[..|splits|] == splits;
    return Some(all);
  }
}
