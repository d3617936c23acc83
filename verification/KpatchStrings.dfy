/** The string list of a kpatch object and the names made from it: offset_of_string of
    src/kpatch/kpatch-build/kpatch-elf.c, and the names of create-klp-module.c. */
module KpatchStrings {
  import opened Chars
  import opened Decimal

  /** The .kpatch.strings section: every string with its NUL. */
  function Blob(strings: seq<string>): (b: string) {
    if strings == [] then "" else Blob(strings[..|strings| - 1]) + strings[|strings| - 1] + [NUL]
  }

  /** The C string at address a. */
  function CStr(b: string, a: nat): (s: string)
    decreases |b| - a
  {
    if a < |b| && b[a] != NUL then [b[a]] + CStr(b, a + 1) else ""
  }

  /** The string s with its NUL lies at offset a. */
  ghost predicate LiesAt(strings: seq<string>, a: nat, s: string) {
    var b := Blob(strings);
    a + |s| < |b| && b[a..a + |s|] == s && b[a + |s|] == NUL && CString(s)
  }

  lemma BlobAppend(strings: seq<string>, s: string)
    ensures Blob(strings + [s]) == Blob(strings) + s + [NUL]
  {
    assert (strings + [s])[..|strings|] == strings;
  }

  /** Adding strings leaves the others where they are. */
  lemma StillLies(strings: seq<string>, s: string, a: nat, t: string)
    requires LiesAt(strings, a, t)
    ensures LiesAt(strings + [s], a, t)
  {
    BlobAppend(strings, s);
    var b := Blob(strings);
    assert (b + s + [NUL])[a..a + |t|] == b[a..a + |t|];
  }

  lemma {:induction false} CStrIs(b: string, a: nat, s: string)
    requires a + |s| < |b| && b[a..a + |s|] == s && b[a + |s|] == NUL && CString(s)
    ensures CStr(b, a) == s
    decreases |s|
  {
    if s != "" {
      assert b[a] == s[0];
      assert b[a + 1..a + 1 + |s[1..]|] == s[1..];
      CStrIs(b, a + 1, s[1..]);
    }
  }

  /** What is read at the offset of a string is that string. */
  lemma ReadBack(strings: seq<string>, a: nat, s: string)
    requires LiesAt(strings, a, s)
    ensures CStr(Blob(strings), a) == s
  {
    CStrIs(Blob(strings), a, s);
  }

  /** `offset_of_string`: where the string lies, added at the end if it is not there yet. */
  method OffsetOfString(strings: seq<string>, name: string) returns (index: nat, strings': seq<string>)
    requires CString(name)
    ensures strings' == if name in strings then strings else strings + [name]
    ensures LiesAt(strings', index, name)
  {
    index := 0;
    for k := 0 to |strings|
      invariant index == |Blob(strings[..k])| && name !in strings[..k]
    {
      assert strings[..k + 1][..k] == strings[..k];
      if strings[k] == name {
        PrefixLies(strings, k);
        return index, strings;
      }
      index := index + |strings[k]| + 1;
    }
    assert strings[..|strings|] == strings;
    BlobAppend(strings, name);
    strings' := strings + [name];
    var b := Blob(strings) + name + [NUL];
    assert b[index..index + |name|] == name;
  }

  /** String k lies behind the ones before it. */
  lemma {:induction false} PrefixLies(strings: seq<string>, k: nat)
    requires k < |strings| && CString(strings[k])
    ensures LiesAt(strings, |Blob(strings[..k])|, strings[k])
    decreases |strings|
  {
    var n := |strings| - 1;
    if k < n {
      assert strings[..n][..k] == strings[..k];
      PrefixLies(strings[..n], k);
      StillLies(strings[..n], strings[n], |Blob(strings[..k])|, strings[k]);
      assert strings[..n] + [strings[n]] == strings;
    } else {
      var b := Blob(strings[..k]);
      assert Blob(strings)[|b|..|b| + |strings[k]|] == strings[k];
    }
  }

  // ----------------------------------------------------------------------------- klp names

  /** ".klp.sym.object.name,position". */
  function SymName(obj: string, name: string, pos: nat): string {
    ".klp.sym." + obj + "." + name + "," + Dec(pos)
  }

  /** ".klp.rela.object.section". */
  function SecName(obj: string, sec: string): string {
    ".klp.rela." + obj + "." + sec
  }

  /** `s` is the prefix, an object, a dot, a name, a comma and the decimal digits of a position. */
  ghost predicate IsSymName(s: string, obj: string, name: string, pos: nat) {
    var front := ".klp.sym." + obj + "." + name + ",";
    && front <= s && AllDigits(s[|front|..]) && Number(s[|front|..]) == pos
    && (s[|front|] == '0' ==> |s| == |front| + 1)
  }

  /** `s` is the prefix, an object, a dot and a section name. */
  ghost predicate IsSecName(s: string, obj: string, sec: string) {
    && |s| == 10 + |obj| + 1 + |sec| && s[..10] == ".klp.rela."
    && s[10..10 + |obj|] == obj && s[10 + |obj|] == '.' && s[10 + |obj| + 1..] == sec
  }

  /** The names read back. */
  lemma SymNameReads(obj: string, name: string, pos: nat)
    ensures IsSymName(SymName(obj, name, pos), obj, name, pos)
  {
    hide Number, Dec;
    var front := ".klp.sym." + obj + "." + name + ",";
    assert SymName(obj, name, pos)[|front|..] == Dec(pos);
    NumberOfDec(pos);
    NoZeroInFront(pos);
    DecOfZero(pos);
  }

  lemma DecOfZero(pos: nat)
    ensures pos == 0 ==> |Dec(pos)| == 1
  {
  }

  /** There is one such name. */
  lemma OneSymName(s: string, obj: string, name: string, pos: nat)
    requires IsSymName(s, obj, name, pos)
    ensures s == SymName(obj, name, pos)
  {
    hide Number, Dec;
    var front := ".klp.sym." + obj + "." + name + ",";
    DecUnique(s[|front|..]);
    assert s == front + s[|front|..];
  }

  lemma SecNameReads(obj: string, sec: string)
    ensures IsSecName(SecName(obj, sec), obj, sec)
  {
  }

  lemma OneSecName(s: string, obj: string, sec: string)
    requires IsSecName(s, obj, sec)
    ensures s == SecName(obj, sec)
  {
    assert s == s[..10] + s[10..10 + |obj|] + [s[10 + |obj|]] + s[10 + |obj| + 1..];
  }

  lemma SecNameInjective(obj: string, a: string, b: string)
    requires SecName(obj, a) == SecName(obj, b)
    ensures a == b
  {
    var p := ".klp.rela." + obj + ".";
    assert (p + a)[|p|..] == a && (p + b)[|p|..] == b;
  }

  /** What precedes the first c is determined. */
  lemma {:induction false} FirstPart(a: string, x: string, b: string, y: string, c: char)
    requires c !in a && c !in b && a + [c] + x == b + [c] + y
    ensures a == b && x == y
  {
    if a == "" || b == "" {
      assert (a + [c] + x)[0] == (b + [c] + y)[0];
      assert a == "" && b == "";
      assert ([c] + x)[1..] == x && ([c] + y)[1..] == y;
      assert a + [c] + x == [c] + x && b + [c] + y == [c] + y;
    } else {
      assert (a + [c] + x)[1..] == a[1..] + [c] + x;
      assert (b + [c] + y)[1..] == b[1..] + [c] + y;
      FirstPart(a[1..], x, b[1..], y, c);
      assert a == [a[0]] + a[1..] && b == [b[0]] + b[1..];
      assert (a + [c] + x)[0] == (b + [c] + y)[0];
    }
  }

  /** What follows the last c is determined. */
  lemma {:induction false} LastPart(x: string, a: string, y: string, b: string, c: char)
    requires c !in a && c !in b && x + [c] + a == y + [c] + b
    ensures a == b && x == y
    decreases |a|
  {
    var s, t := x + [c] + a, y + [c] + b;
    assert s[|s| - 1] == t[|t| - 1];
    if a == "" || b == "" {
      assert a == "" ==> s[|s| - 1] == c;
      assert b == "" ==> t[|t| - 1] == c;
      assert a == "" && b == "";
      assert s[..|s| - 1] == x && t[..|t| - 1] == y;
    } else {
      var a', b' := a[..|a| - 1], b[..|b| - 1];
      assert s[..|s| - 1] == x + [c] + a' && t[..|t| - 1] == y + [c] + b';
      LastPart(x, a', y, b', c);
      assert a == a' + [a[|a| - 1]] && b == b' + [b[|b| - 1]];
    }
  }

  /** A klp symbol name determines object, name and position, as no object name has a dot. */
  lemma SymNameInjective(o: string, n: string, p: nat, o': string, n': string, p': nat)
    requires '.' !in o && '.' !in o' && SymName(o, n, p) == SymName(o', n', p')
    ensures o == o' && n == n' && p == p'
  {
    var rest, rest' := n + "," + Dec(p), n' + "," + Dec(p');
    assert SymName(o, n, p) == ".klp.sym." + (o + "." + rest);
    assert SymName(o', n', p') == ".klp.sym." + (o' + "." + rest');
    assert SymName(o, n, p)[9..] == o + "." + rest;
    assert SymName(o', n', p')[9..] == o' + "." + rest';
    FirstPart(o, rest, o', rest', '.');
    LastPart(n, Dec(p), n', Dec(p'), ',');
    DecInjective(p, p');
  }
}
