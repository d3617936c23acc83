/** Printing and parsing ranges of CPUs: benchmarks/fxmark/bin/cpuinfo.py. */
module CpuRange {
  import opened Common
  import opened Decimal
  import opened Seqs

  datatype Span = Span(lo: nat, hi: nat)

  // ---------------------------------------------------------------------------- printing

  /** The numbers from a to b. */
  function Range(a: nat, b: nat): (r: seq<nat>)
    ensures |r| == if a <= b then b - a + 1 else 0
    decreases b + 1 - a
  {
    if a > b then [] else [a] + Range(a + 1, b)
  }

  lemma {:induction false} RangeGrows(a: nat, b: nat)
    requires a <= b + 1
    ensures Range(a, b + 1) == Range(a, b) + [b + 1]
    decreases b + 1 - a
  {
    if a <= b {
      RangeGrows(a + 1, b);
    }
  }

  function Expand(spans: seq<Span>): seq<nat> {
    if spans == [] then [] else Expand(spans[..|spans| - 1]) + Range(spans[|spans| - 1].lo, spans[|spans| - 1].hi)
  }

  ghost predicate Ordered(spans: seq<Span>) {
    forall i :: 0 <= i < |spans| ==> spans[i].lo <= spans[i].hi
  }

  function Show(s: Span): (t: string) {
    if s.lo == s.hi then Dec(s.lo)
    else if s.hi == s.lo + 1 then Dec(s.lo) + "," + Dec(s.hi)
    else Dec(s.lo) + "-" + Dec(s.hi)
  }

  function Joined(spans: seq<Span>): (t: string) {
    if spans == [] then "" else if |spans| == 1 then Show(spans[0])
    else Joined(spans[..|spans| - 1]) + "," + Show(spans[|spans| - 1])
  }

  /** One more number: it prolongs the last span or starts a new one. */
  function Extended(spans: seq<Span>, cpu: nat): seq<Span> {
    if spans != [] && cpu == spans[|spans| - 1].hi + 1 then spans[|spans| - 1 := Span(spans[|spans| - 1].lo, cpu)]
    else spans + [Span(cpu, cpu)]
  }

  function Spans(cpus: seq<nat>): seq<Span> {
    if cpus == [] then [] else Extended(Spans(cpus[..|cpus| - 1]), cpus[|cpus| - 1])
  }

  /** `strRange`. */
  method StrRange(cpus: seq<nat>) returns (r: string)
    ensures r == Joined(Spans(cpus)) && Apart(Spans(cpus)) && Count(r, '-') == Long(Spans(cpus))
  {
    hide Count, Joined, Apart, Long;
    var spans: seq<Span> := [];
    for i := 0 to |cpus|
      invariant spans == Spans(cpus[..i])
    {
      assert cpus[..i + 1][..i] == cpus[..i];
      var cpu := cpus[i];
      if spans != [] && cpu == spans[|spans| - 1].hi + 1 {
        spans := spans[|spans| - 1 := Span(spans[|spans| - 1].lo, cpu)];
      } else {
        spans := spans + [Span(cpu, cpu)];
      }
    }
    assert cpus[..|cpus|] == cpus;
    PrintedLooks(cpus);
    r := Joined(spans);
  }

  lemma PrintedLooks(cpus: seq<nat>)
    ensures Apart(Spans(cpus)) && Count(Joined(Spans(cpus)), '-') == Long(Spans(cpus))
  {
    hide Spans, Count, Joined, Apart, Long, Expand;
    SpansExpand(cpus);
    SpansApart(cpus);
    OneDashEach(Spans(cpus));
  }

  /** The spans stand for the numbers, in order. */
  lemma {:induction false} SpansExpand(cpus: seq<nat>)
    ensures Ordered(Spans(cpus)) && Expand(Spans(cpus)) == cpus
  {
    hide Extended, Expand, Ordered;
    if cpus == [] {
      NoSpans();
    } else {
      var front, cpu := cpus[..|cpus| - 1], cpus[|cpus| - 1];
      SpansExpand(front);
      ExpandMore(Spans(front), cpu);
      assert cpus == front + [cpu];
    }
  }

  lemma NoSpans()
    ensures Ordered([]) && Expand([]) == []
  {
  }

  lemma ExpandMore(spans: seq<Span>, cpu: nat)
    requires Ordered(spans)
    ensures Ordered(Extended(spans, cpu)) && Expand(Extended(spans, cpu)) == Expand(spans) + [cpu]
  {
    var n := |spans| - 1;
    if spans != [] && cpu == spans[n].hi + 1 {
      RangeGrows(spans[n].lo, spans[n].hi);
      assert Extended(spans, cpu)[..n] == spans[..n];
      assert Expand(spans[..n]) + (Range(spans[n].lo, spans[n].hi) + [cpu]) ==
        (Expand(spans[..n]) + Range(spans[n].lo, spans[n].hi)) + [cpu];
    } else {
      assert (spans + [Span(cpu, cpu)])[..|spans|] == spans;
      assert Range(cpu, cpu) == [cpu];
    }
  }

  // ----------------------------------------------------------------------------- parsing

  /** Python's `split` with a separator. */
  function Split(s: string, c: char): (r: seq<string>)
    ensures |r| > 0
  {
    if s == "" then [""] else
    var front, last := Split(s[..|s| - 1], c), s[|s| - 1];
    if last == c then front + [""] else front[..|front| - 1] + [front[|front| - 1] + [last]]
  }

  predicate Space(c: char) { c == ' ' || c == '\t' || c == '\n' || c == '\r' || c == '\U{0b}' || c == '\U{0c}' }

  function Strip(s: string): string {
    if s == "" then "" else if Space(s[0]) then Strip(s[1..]) else if Space(s[|s| - 1]) then Strip(s[..|s| - 1]) else s
  }

  function Piece(p: string): Option<seq<nat>> {
    var lr := Split(p, '-');
    if |lr| == 1 && AllDigits(lr[0]) then Some([Number(lr[0])])
    else if |lr| == 2 && AllDigits(lr[0]) && AllDigits(lr[1]) then Some(Range(Number(lr[0]), Number(lr[1])))
    else None
  }

  function Pieces(ps: seq<string>): Option<seq<nat>> {
    if ps == [] then Some([]) else
    var front, last := Pieces(ps[..|ps| - 1]), Piece(ps[|ps| - 1]);
    if front.Some? && last.Some? then Some(front.value + last.value) else None
  }

  /** The meaning of a range; None where the source raises ValueError. */
  function Meaning(s: string): Option<seq<nat>> {
    if Strip(s) == "" then Some([]) else Pieces(Split(Strip(s), ','))
  }

  lemma {:induction false} PiecesFail(ps: seq<string>, k: nat)
    requires k <= |ps| && Pieces(ps[..k]).None?
    ensures Pieces(ps).None?
    decreases |ps| - k
  {
    if k < |ps| {
      assert ps[..k + 1][..k] == ps[..k];
      PiecesFail(ps, k + 1);
    } else {
      assert ps[..k] == ps;
    }
  }

  /** `parseRange`. */
  method ParseRange(s: string) returns (r: Option<seq<nat>>)
    ensures r == Meaning(s)
  {
    if Strip(s) == "" {
      return Some([]);
    }
    var res: seq<nat> := [];
    var pieces := Split(Strip(s), ',');
    for k := 0 to |pieces|
      invariant Pieces(pieces[..k]) == Some(res)
    {
      assert pieces[..k + 1][..k] == pieces[..k];
      var lr := Split(pieces[k], '-');
      if |lr| == 1 && AllDigits(lr[0]) {
        res := res + [Number(lr[0])];
      } else if |lr| == 2 && AllDigits(lr[0]) && AllDigits(lr[1]) {
        res := res + Range(Number(lr[0]), Number(lr[1]));
      } else {
        PiecesFail(pieces, k + 1);
        return None;
      }
    }
    assert pieces[..|pieces|] == pieces;
    return Some(res);
  }

  // -------------------------------------------------------------------------- round trip

  function Extend(front: seq<string>, last: char, c: char): (r: seq<string>)
    requires |front| > 0
  {
    if last == c then front + [""] else front[..|front| - 1] + [front[|front| - 1] + [last]]
  }

  lemma SplitStep(s: string, last: char, c: char)
    ensures Split(s + [last], c) == Extend(Split(s, c), last, c)
  {
    assert (s + [last])[..|s|] == s;
  }

  lemma ExtendConcat(a: seq<string>, b: seq<string>, last: char, c: char)
    requires |b| > 0
    ensures Extend(a + b, last, c) == a + Extend(b, last, c)
  {
    assert (a + b)[..|a + b| - 1] == a + b[..|b| - 1];
  }

  lemma {:induction false} SplitJoined(a: string, b: string, c: char)
    ensures Split(a + [c] + b, c) == Split(a, c) + Split(b, c)
    decreases |b|
  {
    if b == "" {
      SplitStep(a, c, c);
      assert a + [c] + b == a + [c];
      return;
    }
    hide Split, Extend;
    var b', last := b[..|b| - 1], b[|b| - 1];
    assert b == b' + [last] && a + [c] + b == (a + [c] + b') + [last];
    SplitJoined(a, b', c);
    SplitStep(b', last, c);
    SplitStep(a + [c] + b', last, c);
    ExtendConcat(Split(a, c), Split(b', c), last, c);
  }

  lemma {:induction false} SplitNone(s: string, c: char)
    requires c !in s
    ensures Split(s, c) == [s]
  {
    if s != "" {
      SplitNone(s[..|s| - 1], c);
      assert s == s[..|s| - 1] + [s[|s| - 1]];
    }
  }

  lemma {:induction false} PiecesConcat(a: seq<string>, b: seq<string>)
    requires Pieces(a).Some? && Pieces(b).Some?
    ensures Pieces(a + b) == Some(Pieces(a).value + Pieces(b).value)
    decreases |b|
  {
    hide Piece;
    if b == [] {
      assert a + b == a && Pieces(a).value + [] == Pieces(a).value;
    } else {
      var b', last := b[..|b| - 1], Piece(b[|b| - 1]).value;
      assert (a + b)[..|a + b| - 1] == a + b';
      PiecesConcat(a, b');
      assert Pieces(a).value + (Pieces(b').value + last) == (Pieces(a).value + Pieces(b').value) + last;
    }
  }

  lemma NoSign(n: nat)
    ensures ',' !in Dec(n) && '-' !in Dec(n)
  {
  }

  lemma OnePiece(p: string, v: seq<nat>)
    requires Piece(p) == Some(v)
    ensures Pieces([p]) == Some(v)
  {
    assert [p][..0] == [] && [] + v == v;
  }

  lemma NumberPiece(n: nat)
    ensures Piece(Dec(n)) == Some([n])
  {
    NoSign(n);
    SplitNone(Dec(n), '-');
    NumberOfDec(n);
  }

  /** A span is read back as the numbers in it. */
  lemma ShowMeans(s: Span)
    requires s.lo <= s.hi
    ensures Pieces(Split(Show(s), ',')) == Some(Range(s.lo, s.hi))
  {
    hide Split, Pieces, Piece, Dec;
    NoSign(s.lo);
    NoSign(s.hi);
    SplitNone(Dec(s.lo), ',');
    SplitNone(Dec(s.hi), ',');
    NumberPiece(s.lo);
    NumberPiece(s.hi);
    OnePiece(Dec(s.lo), [s.lo]);
    OnePiece(Dec(s.hi), [s.hi]);
    if s.lo == s.hi {
      assert Range(s.lo, s.hi) == [s.lo];
    } else if s.hi == s.lo + 1 {
      SplitJoined(Dec(s.lo), Dec(s.hi), ',');
      PiecesConcat([Dec(s.lo)], [Dec(s.hi)]);
      assert Range(s.lo, s.hi) == [s.lo] + [s.hi];
    } else {
      SpanPiece(s.lo, s.hi);
    }
  }

  lemma SpanPiece(a: nat, b: nat)
    ensures var p := Dec(a) + "-" + Dec(b); Split(p, ',') == [p] && Pieces([p]) == Some(Range(a, b))
  {
    NumberOfDec(a);
    NumberOfDec(b);
    hide Split, Pieces, Dec, Number;
    var p := Dec(a) + "-" + Dec(b);
    NoSign(a);
    NoSign(b);
    SplitNone(p, ',');
    SplitNone(Dec(a), '-');
    SplitNone(Dec(b), '-');
    SplitJoined(Dec(a), Dec(b), '-');
    assert Split(p, '-') == [Dec(a), Dec(b)];
    OnePiece(p, Range(a, b));
  }

  lemma {:induction false} JoinedMeans(spans: seq<Span>)
    requires Ordered(spans) && spans != []
    ensures Pieces(Split(Joined(spans), ',')) == Some(Expand(spans))
  {
    var n := |spans| - 1;
    ShowMeans(spans[n]);
    hide Split, Pieces, Show, Range;
    if n == 0 {
      assert spans[..0] == [] && [] + Range(spans[0].lo, spans[0].hi) == Range(spans[0].lo, spans[0].hi);
    } else {
      JoinedMeans(spans[..n]);
      SplitJoined(Joined(spans[..n]), Show(spans[n]), ',');
      PiecesConcat(Split(Joined(spans[..n]), ','), Split(Show(spans[n]), ','));
    }
  }

  ghost predicate Ends(s: string) { s != "" && !Space(s[0]) && !Space(s[|s| - 1]) }

  lemma {:induction false} JoinedEnds(spans: seq<Span>)
    requires spans != []
    ensures Ends(Joined(spans))
  {
    var n := |spans| - 1;
    assert Ends(Show(spans[n])) by {
      assert AllDigits(Dec(spans[n].lo)) && AllDigits(Dec(spans[n].hi));
    }
    if n > 0 {
      JoinedEnds(spans[..n]);
    }
  }

  /** Parsing what was printed gives back the sequence, whatever it is. */
  lemma RoundTrip(cpus: seq<nat>)
    ensures Meaning(Joined(Spans(cpus))) == Some(cpus)
  {
    SpansExpand(cpus);
    var spans := Spans(cpus);
    if spans != [] {
      JoinedEnds(spans);
      JoinedMeans(spans);
    }
  }

  method PrintThenParse(cpus: seq<nat>) returns (r: Option<seq<nat>>)
    ensures r == Some(cpus)
  {
    var s := StrRange(cpus);
    r := ParseRange(s);
    RoundTrip(cpus);
  }

  // ------------------------------------------------------------ what is printed, as it looks

  /** No span could be joined to the one before it. */
  ghost predicate Apart(spans: seq<Span>) {
    forall i :: 0 <= i < |spans| - 1 ==> spans[i + 1].lo != spans[i].hi + 1
  }

  lemma ApartMore(spans: seq<Span>, cpu: nat)
    requires Apart(spans)
    ensures Apart(Extended(spans, cpu))
  {
    var all := Extended(spans, cpu);
    forall i | 0 <= i < |all| - 1 ensures all[i + 1].lo != all[i].hi + 1 {
      assert i + 1 < |spans| ==> spans[i + 1].lo != spans[i].hi + 1;
    }
  }

  lemma {:induction false} SpansApart(cpus: seq<nat>)
    ensures Apart(Spans(cpus))
  {
    hide Extended;
    if cpus != [] {
      SpansApart(cpus[..|cpus| - 1]);
      ApartMore(Spans(cpus[..|cpus| - 1]), cpus[|cpus| - 1]);
    }
  }

  lemma NoneOf(s: string, c: char)
    requires c !in s
    ensures Count(s, c) == 0
  {
    CountSome(s, c);
  }

  /** Three numbers or more in a row are printed with one dash, two with a comma, one alone. */
  lemma ShowShape(s: Span)
    requires s.lo <= s.hi
    ensures Count(Show(s), '-') == (if s.lo + 2 <= s.hi then 1 else 0)
    ensures Count(Show(s), ',') == (if s.lo + 1 == s.hi then 1 else 0)
  {
    hide Dec, Count;
    NoSign(s.lo);
    NoSign(s.hi);
    NoneOf(Dec(s.lo), '-');
    NoneOf(Dec(s.lo), ',');
    NoneOf(Dec(s.hi), '-');
    NoneOf(Dec(s.hi), ',');
    var sign := if s.lo + 1 == s.hi then ',' else '-';
    assert Show(s) == if s.lo == s.hi then Dec(s.lo) else (Dec(s.lo) + [sign]) + Dec(s.hi);
    CountConcat(Dec(s.lo) + [sign], Dec(s.hi), '-');
    CountConcat(Dec(s.lo) + [sign], Dec(s.hi), ',');
    CountMore(Dec(s.lo), sign, '-');
    CountMore(Dec(s.lo), sign, ',');
  }

  /** How many spans have three numbers or more. */
  ghost function Long(spans: seq<Span>): nat {
    if spans == [] then 0
    else Long(spans[..|spans| - 1]) + (if spans[|spans| - 1].lo + 2 <= spans[|spans| - 1].hi then 1 else 0)
  }

  /** The text has a dash for each of them. */
  lemma {:induction false} OneDashEach(spans: seq<Span>)
    requires Ordered(spans)
    ensures Count(Joined(spans), '-') == Long(spans)
  {
    hide Show, Count;
    if spans == [] {
      NoneOf("", '-');
    } else {
      var n := |spans| - 1;
      ShowShape(spans[n]);
      OneDashEach(spans[..n]);
      if n > 0 {
        CountConcat(Joined(spans[..n]) + ",", Show(spans[n]), '-');
        CountMore(Joined(spans[..n]), ',', '-');
      } else {
        NoneOf("", '-');
      }
    }
  }

  // --------------------------------------------------- what a text means, piece by piece

  /** Blank, tab, newline, carriage return, vertical tab and form feed. */
  lemma SpaceCodes(c: char)
    ensures Space(c) <==> c as int in {32, 9, 10, 13, 11, 12}
  {
  }

  ghost predicate Blank(s: string) { forall i :: 0 <= i < |s| ==> Space(s[i]) }

  lemma {:induction false} StripFront(u: string, s: string)
    requires Blank(u)
    ensures Strip(u + s) == Strip(s)
  {
    if u == "" {
      assert u + s == s;
    } else {
      assert (u + s)[1..] == u[1..] + s;
      StripFront(u[1..], s);
    }
  }

  lemma {:induction false} StripBlank(v: string)
    requires Blank(v)
    ensures Strip(v) == ""
  {
    if v != "" {
      StripBlank(v[1..]);
    }
  }

  lemma {:induction false} StripBack(s: string, v: string)
    requires Blank(v)
    ensures Strip(s + v) == Strip(s)
    decreases |s| + |v|
  {
    if s == "" {
      assert s + v == v;
      StripBlank(v);
    } else if v == "" {
      assert s + v == s;
    } else if Space(s[0]) {
      assert (s + v)[1..] == s[1..] + v;
      StripBack(s[1..], v);
    } else {
      assert (s + v)[..|s + v| - 1] == s + v[..|v| - 1];
      StripBack(s, v[..|v| - 1]);
    }
  }

  /** White space around a text means nothing. */
  lemma Padding(u: string, s: string, v: string)
    requires Blank(u) && Blank(v)
    ensures Meaning(u + s + v) == Meaning(s)
  {
    hide Strip;
    StripBack(u + s, v);
    StripFront(u, s);
  }

  function JoinWith(ps: seq<string>, c: char): string {
    if ps == [] then "" else if |ps| == 1 then ps[0] else JoinWith(ps[..|ps| - 1], c) + [c] + ps[|ps| - 1]
  }

  /** Splitting undoes joining pieces without the separator. */
  lemma {:induction false} SplitJoin(ps: seq<string>, c: char)
    requires ps != [] && forall i :: 0 <= i < |ps| ==> c !in ps[i]
    ensures Split(JoinWith(ps, c), c) == ps
  {
    hide Split;
    var n := |ps| - 1;
    SplitNone(ps[n], c);
    if n > 0 {
      SplitJoin(ps[..n], c);
      SplitJoined(JoinWith(ps[..n], c), ps[n], c);
      assert ps == ps[..n] + [ps[n]];
    }
  }

  /** Joining undoes splitting, and no piece has the separator. */
  lemma {:induction false} JoinSplit(s: string, c: char)
    ensures JoinWith(Split(s, c), c) == s && forall i :: 0 <= i < |Split(s, c)| ==> c !in Split(s, c)[i]
  {
    if s != "" {
      var front, last := s[..|s| - 1], s[|s| - 1];
      JoinSplit(front, c);
      assert s == front + [last];
      JoinExtended(Split(front, c), last, c);
    }
  }

  lemma JoinExtended(ps: seq<string>, last: char, c: char)
    requires ps != [] && forall i :: 0 <= i < |ps| ==> c !in ps[i]
    ensures var r := Extend(ps, last, c);
      JoinWith(r, c) == JoinWith(ps, c) + [last] && forall i :: 0 <= i < |r| ==> c !in r[i]
  {
    var n, r := |ps| - 1, Extend(ps, last, c);
    if last == c {
      assert r[..|ps|] == ps;
      assert JoinWith(ps, c) + [c] + "" == JoinWith(ps, c) + [c];
    } else {
      assert r[..n] == ps[..n];
      if n > 0 {
        assert JoinWith(ps[..n], c) + [c] + (ps[n] + [last]) == (JoinWith(ps[..n], c) + [c] + ps[n]) + [last];
      }
    }
  }

  lemma {:induction false} RangeIs(a: nat, b: nat, i: nat)
    requires i < |Range(a, b)|
    ensures Range(a, b)[i] == a + i
    decreases i
  {
    if i > 0 {
      RangeIs(a + 1, b, i - 1);
    }
  }

  /** v are the numbers from a to b, none if a is greater. */
  ghost predicate FromTo(a: nat, b: nat, v: seq<nat>) {
    |v| == (if a <= b then b - a + 1 else 0) && forall i :: 0 <= i < |v| ==> v[i] == a + i
  }

  ghost predicate TwoNumbers(p: string, l: string, r: string, v: seq<nat>) {
    AllDigits(l) && AllDigits(r) && p == l + "-" + r && FromTo(Number(l), Number(r), v)
  }

  /** A piece is a number, or two numbers with a dash. */
  ghost predicate PieceMeans(p: string, v: seq<nat>) {
    || (AllDigits(p) && v == [Number(p)])
    || exists l, r :: TwoNumbers(p, l, r, v)
  }

  lemma DigitsNoSign(s: string)
    requires AllDigits(s)
    ensures '-' !in s && ',' !in s
  {
  }

  /** And nothing else is a piece. */
  lemma PieceIff(p: string, v: seq<nat>)
    ensures Piece(p) == Some(v) <==> PieceMeans(p, v)
  {
    hide Number;
    if Piece(p) == Some(v) {
      PieceForm(p, v);
    }
    if AllDigits(p) && v == [Number(p)] {
      DigitsNoSign(p);
      SplitNone(p, '-');
    }
    if l, r :| TwoNumbers(p, l, r, v) {
      RangeForm(l, r, v);
    }
  }

  lemma RangeForm(l: string, r: string, v: seq<nat>)
    requires AllDigits(l) && AllDigits(r) && FromTo(Number(l), Number(r), v)
    ensures Piece(l + "-" + r) == Some(v)
  {
    hide Number, Range, Split;
    DigitsNoSign(l);
    DigitsNoSign(r);
    SplitNone(l, '-');
    SplitNone(r, '-');
    SplitJoined(l, r, '-');
    assert Split(l + "-" + r, '-') == [l, r];
    SameRange(Number(l), Number(r), v);
  }

  lemma SameRange(a: nat, b: nat, v: seq<nat>)
    ensures FromTo(a, b, v) <==> v == Range(a, b)
  {
    forall i | 0 <= i < |Range(a, b)| ensures Range(a, b)[i] == a + i {
      RangeIs(a, b, i);
    }
  }

  lemma PieceForm(p: string, v: seq<nat>)
    requires Piece(p) == Some(v)
    ensures PieceMeans(p, v)
  {
    hide Number, Range, Split;
    JoinSplit(p, '-');
    var lr := Split(p, '-');
    if |lr| == 2 && AllDigits(lr[0]) && AllDigits(lr[1]) {
      assert lr[..1] == [lr[0]] && JoinWith([lr[0]], '-') == lr[0];
      SameRange(Number(lr[0]), Number(lr[1]), v);
      assert TwoNumbers(p, lr[0], lr[1], v);
    }
  }

  ghost predicate AllMean(ps: seq<string>, vs: seq<seq<nat>>) {
    |vs| == |ps| && forall i :: 0 <= i < |ps| ==> PieceMeans(ps[i], vs[i])
  }

  lemma AllMeanMore(ps: seq<string>, vs: seq<seq<nat>>)
    requires |ps| == |vs| > 0
    ensures var n := |ps| - 1; AllMean(ps, vs) <==> AllMean(ps[..n], vs[..n]) && PieceMeans(ps[n], vs[n])
  {
    hide PieceMeans;
    var n := |ps| - 1;
    if AllMean(ps[..n], vs[..n]) && PieceMeans(ps[n], vs[n]) {
      forall i | 0 <= i < |ps| ensures PieceMeans(ps[i], vs[i]) {
        assert i < n ==> PieceMeans(ps[..n][i], vs[..n][i]);
      }
    }
  }

  /** Good pieces mean the concatenation of what they mean. */
  lemma {:induction false} PiecesMean(ps: seq<string>, v: seq<nat>) returns (vs: seq<seq<nat>>)
    requires Pieces(ps) == Some(v)
    ensures AllMean(ps, vs) && v == Flat(vs)
  {
    hide Piece, PieceMeans, AllMean;
    if ps == [] {
      NoneMean();
      return [];
    }
    var n := |ps| - 1;
    var front, last := Pieces(ps[..n]).value, Piece(ps[n]).value;
    var init := PiecesMean(ps[..n], front);
    PieceIff(ps[n], last);
    MeanSize(ps[..n], init);
    vs := init + [last];
    assert vs[..n] == init;
    AllMeanMore(ps, vs);
  }

  lemma NoneMean()
    ensures AllMean([], []) && Flat<nat>([]) == []
  {
  }

  lemma MeanSize(ps: seq<string>, vs: seq<seq<nat>>)
    requires AllMean(ps, vs)
    ensures |vs| == |ps|
  {
  }

  lemma {:induction false} MeanPieces(ps: seq<string>, vs: seq<seq<nat>>)
    requires AllMean(ps, vs)
    ensures Pieces(ps) == Some(Flat(vs))
  {
    hide Piece, PieceMeans, AllMean;
    MeanSize(ps, vs);
    if ps != [] {
      var n := |ps| - 1;
      AllMeanMore(ps, vs);
      MeanPieces(ps[..n], vs[..n]);
      PieceIff(ps[n], vs[n]);
    }
  }

  lemma PiecesIff(ps: seq<string>, v: seq<nat>)
    ensures Pieces(ps) == Some(v) <==> exists vs: seq<seq<nat>> :: AllMean(ps, vs) && v == Flat(vs)
  {
    hide Pieces, AllMean, Flat;
    if Pieces(ps) == Some(v) {
      var vs := PiecesMean(ps, v);
    }
    if vs: seq<seq<nat>> :| AllMean(ps, vs) && v == Flat(vs) {
      MeanPieces(ps, vs);
    }
  }

  /** A text is blank, or pieces without commas, joined by commas, in white space. */
  ghost predicate IsText(s: string, u: string, ps: seq<string>, v: string) {
    && Blank(u) && Blank(v) && ps != [] && (forall i :: 0 <= i < |ps| ==> ',' !in ps[i])
    && Ends(JoinWith(ps, ',')) && s == u + JoinWith(ps, ',') + v
  }

  /** The meaning of every text, in terms of its pieces. */
  lemma MeaningIff(s: string, u: string, ps: seq<string>, v: string, r: seq<nat>)
    requires IsText(s, u, ps, v)
    ensures Meaning(s) == Some(r) <==> exists vs: seq<seq<nat>> :: AllMean(ps, vs) && r == Flat(vs)
  {
    hide Split, Pieces, AllMean;
    var t := JoinWith(ps, ',');
    Padding(u, t, v);
    assert Strip(t) == t;
    SplitJoin(ps, ',');
    PiecesIff(ps, r);
  }

  lemma BlankMeans(s: string)
    requires Blank(s)
    ensures Meaning(s) == Some([])
  {
    StripBlank(s);
  }

  lemma {:induction false} Stripped(s: string) returns (u: string, v: string)
    ensures Blank(u) && Blank(v) && s == u + Strip(s) + v && (Strip(s) != "" ==> Ends(Strip(s)))
    decreases |s|
  {
    u, v := "", "";
    if s == "" {
    } else if Space(s[0]) {
      u, v := Stripped(s[1..]);
      u := [s[0]] + u;
      assert s == [s[0]] + s[1..];
    } else if Space(s[|s| - 1]) {
      u, v := Stripped(s[..|s| - 1]);
      v := v + [s[|s| - 1]];
      assert s == s[..|s| - 1] + [s[|s| - 1]];
    }
  }

  /** Every text is of that form. */
  lemma EveryText(s: string) returns (u: string, ps: seq<string>, v: string)
    ensures Blank(s) || IsText(s, u, ps, v)
  {
    hide Strip, Split;
    u, v := Stripped(s);
    ps := Split(Strip(s), ',');
    JoinSplit(Strip(s), ',');
  }
}
