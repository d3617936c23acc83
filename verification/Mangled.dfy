/** Comparing names that gcc has mangled: kpatch_mangled_strcmp of
    src/kpatch/kpatch-build/create-diff-object.c. */
module Mangled {
  import opened Chars
  import opened Decimal

  /** The character at i, which is NUL behind the last one. */
  function At(s: string, i: nat): char { if i < |s| then s[i] else NUL }

  /** How many digits `s` starts with. */
  function Digits(s: string): (n: nat)
    ensures n <= |s|
    ensures forall i :: 0 <= i < n ==> Digit(s[i])
    ensures n < |s| ==> !Digit(s[n])
  {
    if s != "" && Digit(s[0]) then 1 + Digits(s[1..]) else 0
  }

  /** One character, or a dot with the digits behind it. */
  datatype Token = Ch(c: char) | DotDigits

  predicate Numbered(s: string) { |s| > 1 && s[0] == '.' && Digit(s[1]) }

  /** The name with the digits behind each dot erased. */
  function Canon(s: string): (t: seq<Token>) {
    if s == "" then []
    else if Numbered(s) then [DotDigits] + Canon(s[1 + Digits(s[1..])..])
    else [Ch(s[0])] + Canon(s[1..])
  }

  const STR1: string := ".str1."

  /** `strstr(s, ".str1.")` finds something. */
  predicate HasStr1(s: string) {
    STR1 <= s || (s != "" && HasStr1(s[1..]))
  }

  /** What the comparison means. */
  ghost predicate SameName(s1: string, s2: string) {
    if HasStr1(s1) then s1 == s2 else Canon(s1) == Canon(s2)
  }

  method Strstr(s: string) returns (found: bool)
    ensures found == HasStr1(s)
  {
    var i := 0;
    while i < |s|
      invariant i <= |s| && HasStr1(s) == HasStr1(s[i..])
    {
      if |s| - i >= |STR1| && s[i..i + |STR1|] == STR1 {
        assert STR1 <= s[i..];
        return true;
      }
      assert s[i..][1..] == s[i + 1..];
      i := i + 1;
    }
    return false;
  }

  /** `while (isdigit(*++s));` */
  method SkipDigits(s: string, start: nat) returns (i: nat)
    requires start < |s|
    ensures i == start + 1 + Digits(s[start + 1..])
  {
    i := start + 1;
    while Digit(At(s, i))
      invariant start < i <= |s| && start + 1 + Digits(s[start + 1..]) == i + Digits(s[i..])
      decreases |s| - i
    {
      assert s[i..][1..] == s[i + 1..];
      i := i + 1;
    }
  }

  /** One turn of the loop: past a dot with digits in both names, or past one character. */
  method Advance(s1: string, s2: string, i: nat, j: nat) returns (same: bool, i': nat, j': nat)
    requires i < |s1| && j < |s2| && s1[i] == s2[j]
    ensures !same ==> Canon(s1[i..]) != Canon(s2[j..])
    ensures same ==> i < i' <= |s1| && j' <= |s2|
    ensures same ==> (Canon(s1[i..]) == Canon(s2[j..]) <==> Canon(s1[i'..]) == Canon(s2[j'..]))
  {
    hide Canon, Digits;
    ghost var t1, t2 := s1[i..], s2[j..];
    if At(s1, i) == '.' && Digit(At(s1, i + 1)) {
      if !Digit(At(s2, j + 1)) {
        CanonDiffers(t1, t2);
        return false, i, j;
      }
      NextNumbered(s1, i);
      NextNumbered(s2, j);
      CanonStep(t1, t2);
      i' := SkipDigits(s1, i);
      j' := SkipDigits(s2, j);
    } else {
      PlainStep(t1, t2);
      i', j' := i + 1, j + 1;
    }
    same := true;
  }

  /** `kpatch_mangled_strcmp`. */
  method Strcmp(s1: string, s2: string) returns (r: int)
    requires CString(s1) && CString(s2)
    ensures r == 0 <==> SameName(s1, s2)
  {
    var str1 := Strstr(s1);
    if str1 {
      return if s1 == s2 then 0 else 1;
    }
    hide Canon, HasStr1;
    var i: nat, j: nat := 0, 0;
    assert s1[0..] == s1 && s2[0..] == s2;
    while At(s1, i) == At(s2, j)
      invariant i <= |s1| && j <= |s2|
      invariant Canon(s1) == Canon(s2) <==> Canon(s1[i..]) == Canon(s2[j..])
      decreases |s1| - i
    {
      if At(s1, i) == NUL {
        assert s1[i..] == s2[j..];
        return 0;
      }
      var same, i', j' := Advance(s1, s2, i, j);
      if !same {
        return 1;
      }
      i, j := i', j';
    }
    CanonDiffers(s1[i..], s2[j..]);
    return 1;
  }

  lemma NextNumbered(s: string, i: nat)
    requires i < |s|
    ensures s[i..][1 + Digits(s[i..][1..])..] == s[i + 1 + Digits(s[i + 1..])..]
  {
    assert s[i..][1..] == s[i + 1..];
  }

  /** Strings whose first tokens differ. */
  lemma CanonDiffers(a: string, b: string)
    requires At(a, 0) != At(b, 0) || (a != "" && b != "" && Numbered(a) != Numbered(b))
    ensures Canon(a) != Canon(b)
  {
    CanonHead(a);
    CanonHead(b);
  }

  lemma CanonStep(a: string, b: string)
    requires Numbered(a) && Numbered(b)
    ensures Canon(a) == Canon(b) <==> Canon(a[1 + Digits(a[1..])..]) == Canon(b[1 + Digits(b[1..])..])
  {
    assert Canon(a)[1..] == Canon(a[1 + Digits(a[1..])..]);
    assert Canon(b)[1..] == Canon(b[1 + Digits(b[1..])..]);
  }

  /** Behind equal first characters; if only the second string has digits there, the rest
      differs too. */
  lemma PlainStep(a: string, b: string)
    requires a != "" && b != "" && a[0] == b[0] && !Numbered(a)
    ensures Canon(a) == Canon(b) <==> Canon(a[1..]) == Canon(b[1..])
  {
    assert Canon(a)[1..] == Canon(a[1..]);
    if Numbered(b) {
      assert Canon(a)[0] != Canon(b)[0];
      assert Canon(b[1..])[0] == Ch(b[1]);
      assert a[1..] != "" ==> a[1..][0] == a[1];
    } else {
      assert Canon(b)[1..] == Canon(b[1..]);
    }
  }

  // ------------------------------------------------------------- an equivalence relation

  /** ".str1." in canonical form; its last dot may have digits behind it. */
  ghost predicate StartsStr1(t: seq<Token>) {
    |t| >= 6 && t[..5] == [Ch('.'), Ch('s'), Ch('t'), Ch('r'), Ch('1')] && (t[5] == Ch('.') || t[5] == DotDigits)
  }

  ghost predicate CanonStr1(t: seq<Token>) {
    StartsStr1(t) || (t != [] && CanonStr1(t[1..]))
  }

  /** The canonical form of a string that begins with a plain character. */
  lemma CanonPlain(s: string)
    requires s != "" && !Numbered(s)
    ensures Canon(s) == [Ch(s[0])] + Canon(s[1..])
  {
  }

  lemma CanonHead(s: string)
    ensures s == "" <==> Canon(s) == []
    ensures s != "" ==> (Canon(s)[0] == (if Numbered(s) then DotDigits else Ch(s[0])))
  {
  }

  /** Following a text c at the front of both forms. */
  lemma {:induction false} CanonText(s: string, c: string)
    requires forall i :: 0 <= i < |c| ==> c[i] != '.'
    ensures c <= s <==> |Canon(s)| >= |c| && forall i :: 0 <= i < |c| ==> Canon(s)[i] == Ch(c[i])
    ensures c <= s ==> Canon(s)[|c|..] == Canon(s[|c|..])
  {
    if c != "" {
      CanonHead(s);
      if s != "" && s[0] == c[0] {
        CanonPlain(s);
        CanonText(s[1..], c[1..]);
        assert c == [c[0]] + c[1..] && s == [s[0]] + s[1..];
        assert Canon(s)[1..] == Canon(s[1..]);
        assert c[1..] <= s[1..] <==> c <= s;
      }
    } else {
      assert s[0..] == s && Canon(s)[0..] == Canon(s);
    }
  }

  lemma TextStr1(s: string)
    ensures STR1 <= s <==> s != "" && s[0] == '.' && "str1" <= s[1..] && |s| > 5 && s[5] == '.'
  {
    if |s| > 5 {
      assert s[..6] == [s[0]] + s[1..][..4] + [s[5]];
      assert STR1 == ['.'] + "str1" + ['.'];
    }
  }

  lemma TokensStr1(t: seq<Token>)
    ensures StartsStr1(t) <==>
      && |t| >= 6 && t[0] == Ch('.') && (t[5] == Ch('.') || t[5] == DotDigits)
      && forall i :: 0 <= i < 4 ==> t[1..][i] == Ch("str1"[i])
  {
    if |t| >= 6 {
      assert t[..5] == [t[0], t[1..][0], t[1..][1], t[1..][2], t[1..][3]];
    }
  }

  /** Erasing digits neither makes nor breaks a ".str1." at the front. */
  lemma FrontStr1(s: string)
    ensures STR1 <= s <==> StartsStr1(Canon(s))
  {
    var t := Canon(s);
    TextStr1(s);
    TokensStr1(t);
    CanonHead(s);
    if s != "" && s[0] == '.' && !Numbered(s) {
      CanonPlain(s);
      hide Canon;
      var rest := s[1..];
      assert t[1..] == Canon(rest);
      CanonText(rest, "str1");
      if "str1" <= rest {
        CanonHead(rest[4..]);
        assert Canon(rest)[4..] == Canon(rest[4..]);
      }
    }
  }

  lemma {:induction false} DigitsNoStr1(s: string)
    ensures HasStr1(s) <==> HasStr1(s[Digits(s)..])
  {
    if s != "" && Digit(s[0]) {
      DigitsNoStr1(s[1..]);
      assert s[1..][Digits(s[1..])..] == s[Digits(s)..];
    }
  }

  /** So a name holds ".str1." if and only if its canonical form does. */
  lemma {:induction false} Str1Kept(s: string)
    ensures HasStr1(s) <==> CanonStr1(Canon(s))
    decreases |s|
  {
    FrontStr1(s);
    if s == "" {
    } else if Numbered(s) {
      var rest := s[1 + Digits(s[1..])..];
      DigitsNoStr1(s[1..]);
      assert s[1..][Digits(s[1..])..] == rest;
      Str1Kept(rest);
      assert Canon(s)[1..] == Canon(rest);
    } else {
      Str1Kept(s[1..]);
      assert Canon(s)[1..] == Canon(s[1..]);
    }
  }

  lemma Reflexive(a: string)
    ensures SameName(a, a)
  {
  }

  /** Only the first name is searched for ".str1.", and yet the order does not matter. */
  lemma Symmetric(a: string, b: string)
    ensures SameName(a, b) <==> SameName(b, a)
  {
    Str1Kept(a);
    Str1Kept(b);
  }

  lemma Transitive(a: string, b: string, c: string)
    requires SameName(a, b) && SameName(b, c)
    ensures SameName(a, c)
  {
    Str1Kept(a);
    Str1Kept(b);
  }

  // -------------------------------------------------- what a canonical form is, the other way

  /** The names of a form: digits are put behind the dots that ask for them. */
  function Fill(t: seq<Token>, ds: seq<string>): string {
    if t == [] then ""
    else if t[0].Ch? then [t[0].c] + Fill(t[1..], ds)
    else if ds == [] then "." + Fill(t[1..], ds)
    else "." + ds[0] + Fill(t[1..], ds[1..])
  }

  /** There are digits for each such dot. */
  ghost predicate Fits(t: seq<Token>, ds: seq<string>) {
    if t == [] then ds == []
    else if t[0].Ch? then Fits(t[1..], ds)
    else ds != [] && AllDigits(ds[0]) && Fits(t[1..], ds[1..])
  }

  /** No other dot has digits behind it, and all digits behind a dot belong to it. */
  ghost predicate WellFormed(t: seq<Token>) {
    forall i :: 0 <= i < |t| - 1 && (t[i] == Ch('.') || t[i] == DotDigits) ==> !(t[i + 1].Ch? && Digit(t[i + 1].c))
  }

  lemma {:induction false} DigitsOf(d: string, rest: string)
    requires (forall i :: 0 <= i < |d| ==> Digit(d[i])) && (rest == "" || !Digit(rest[0]))
    ensures Digits(d + rest) == |d|
  {
    if d == "" {
      assert d + rest == rest;
    } else {
      assert (d + rest)[1..] == d[1..] + rest;
      DigitsOf(d[1..], rest);
    }
  }

  /** What is filled in starts as its form does. */
  lemma FillHead(t: seq<Token>, ds: seq<string>)
    requires t != []
    ensures Fill(t, ds) != "" && Fill(t, ds)[0] == (if t[0].Ch? then t[0].c else '.')
  {
  }

  lemma NoDigitNext(t: seq<Token>, ds: seq<string>)
    requires WellFormed(t) && t != [] && (t[0] == Ch('.') || t[0] == DotDigits)
    ensures var rest := Fill(t[1..], ds); rest == "" || !Digit(rest[0])
  {
    if t[1..] != [] {
      FillHead(t[1..], ds);
      assert t[1..][0] == t[1];
    }
  }

  lemma WellFormedTail(t: seq<Token>)
    requires WellFormed(t) && t != []
    ensures WellFormed(t[1..])
  {
    forall i | 0 <= i < |t[1..]| - 1 && (t[1..][i] == Ch('.') || t[1..][i] == DotDigits)
      ensures !(t[1..][i + 1].Ch? && Digit(t[1..][i + 1].c))
    {
      assert t[1..][i] == t[i + 1] && t[1..][i + 1] == t[i + 2];
    }
  }

  /** The canonical form of a filled form is that form. */
  lemma {:induction false} CanonOfFill(t: seq<Token>, ds: seq<string>)
    requires WellFormed(t) && Fits(t, ds)
    ensures Canon(Fill(t, ds)) == t
    decreases |t|
  {
    hide WellFormed, Canon;
    if t == [] {
      NothingWellFormed();
      return;
    }
    WellFormedTail(t);
    assert t == [t[0]] + t[1..];
    if t[0].Ch? {
      CanonOfFill(t[1..], ds);
      var rest := Fill(t[1..], ds);
      var s := [t[0].c] + rest;
      assert s[1..] == rest;
      if t[0] == Ch('.') {
        NoDigitNext(t, ds);
      }
      CanonPlain(s);
    } else {
      CanonOfFill(t[1..], ds[1..]);
      var rest := Fill(t[1..], ds[1..]);
      NoDigitNext(t, ds[1..]);
      CanonNumbered(ds[0], rest);
    }
  }

  lemma CanonNumbered(d: string, rest: string)
    requires AllDigits(d) && (rest == "" || !Digit(rest[0]))
    ensures Canon("." + d + rest) == [DotDigits] + Canon(rest)
  {
    hide Digits;
    var s := "." + d + rest;
    assert s[1..] == d + rest && s[1 + |d|..] == rest;
    DigitsOf(d, rest);
  }

  /** Every name fills its canonical form. */
  lemma {:induction false} FillOfCanon(s: string) returns (ds: seq<string>)
    ensures Fits(Canon(s), ds) && s == Fill(Canon(s), ds) && WellFormed(Canon(s))
    decreases |s|
  {
    hide WellFormed;
    if s == "" {
      NothingWellFormed();
      return [];
    }
    var t := Canon(s);
    if Numbered(s) {
      var n := Digits(s[1..]);
      var rest := s[1 + n..];
      var more := FillOfCanon(rest);
      assert s == "." + s[1..1 + n] + rest;
      ds := [s[1..1 + n]] + more;
      assert t[1..] == Canon(rest) && ds[1..] == more;
      FormedMore(DotDigits, rest);
    } else {
      ds := FillOfCanon(s[1..]);
      assert s == [s[0]] + s[1..];
      assert t[1..] == Canon(s[1..]);
      FormedMore(Ch(s[0]), s[1..]);
    }
  }

  lemma NothingWellFormed()
    ensures WellFormed(Canon("")) && Fits(Canon(""), []) && Fill(Canon(""), []) == ""
  {
  }

  lemma FormedMore(x: Token, rest: string)
    requires WellFormed(Canon(rest)) && (x == DotDigits || x == Ch('.') ==> rest == "" || !Digit(rest[0]))
    ensures WellFormed([x] + Canon(rest))
  {
    CanonHead(rest);
    var t, all := Canon(rest), [x] + Canon(rest);
    assert forall i :: 0 < i < |all| ==> all[i] == t[i - 1];
  }

  ghost predicate BothFill(a: string, b: string, t: seq<Token>, ds: seq<string>, es: seq<string>) {
    WellFormed(t) && Fits(t, ds) && Fits(t, es) && a == Fill(t, ds) && b == Fill(t, es)
  }

  /** Two names have the same canonical form if and only if they differ at most in digits behind
      the same dots. */
  lemma SameForm(a: string, b: string)
    ensures Canon(a) == Canon(b) <==> exists t, ds, es :: BothFill(a, b, t, ds, es)
  {
    hide Canon, Fill, Fits, WellFormed;
    if Canon(a) == Canon(b) {
      var ds := FillOfCanon(a);
      var es := FillOfCanon(b);
      assert BothFill(a, b, Canon(a), ds, es);
    }
    if t, ds, es :| BothFill(a, b, t, ds, es) {
      CanonOfFill(t, ds);
      CanonOfFill(t, es);
    }
  }

  /** `strstr` looks at every place. */
  lemma {:induction false} Str1Somewhere(s: string)
    ensures HasStr1(s) <==> exists i :: 0 <= i <= |s| && STR1 <= s[i..]
  {
    assert s[0..] == s;
    if s != "" {
      Str1Somewhere(s[1..]);
      assert forall i :: 0 <= i <= |s[1..]| ==> s[1..][i..] == s[i + 1..];
      if i :| 0 <= i <= |s| && STR1 <= s[i..] {
        if i > 0 {
          assert STR1 <= s[1..][i - 1..];
        }
      }
      if j :| 0 <= j <= |s[1..]| && STR1 <= s[1..][j..] {
        assert STR1 <= s[j + 1..];
      }
    }
  }
}
