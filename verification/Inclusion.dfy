/** Which sections and symbols a patch includes: kpatch_include_section and
    kpatch_include_symbol of src/kpatch/kpatch-build/create-diff-object.c. */
module Inclusion {
  datatype Status = New | Changed | Same
  datatype SymType = NoType | Object | Func | SectionType | File

  class Section {
    var included: bool
    var secsym: Symbol?
    var rela: Section?
    /** For a rela section, the symbols of its relas. */
    var relas: seq<Symbol>
  }

  class Symbol {
    var included: bool
    var sec: Section?
    var symType: SymType
    var status: Status
  }

  /** The object file: every link stays inside it, a section symbol belongs to its section, and
      a rela section has neither a symbol nor relas of its own. */
  ghost predicate Linked(secs: set<Section>, syms: set<Symbol>)
    reads secs`secsym, secs`rela, secs`relas, syms`sec
  {
    && (forall s :: s in secs && s.secsym != null ==> s.secsym in syms && s.secsym.sec == s)
    && (forall s :: s in secs && s.rela != null ==> s.rela in secs && s.rela.secsym == null && s.rela.rela == null)
    && (forall s, y :: s in secs && y in s.relas ==> y in syms)
    && (forall y :: y in syms && y.sec != null ==> y.sec in secs)
  }

  /** A symbol brings its section if it is a section symbol or has changed. */
  ghost predicate Brings(y: Symbol)
    reads y`sec, y`symType, y`status
  {
    y.sec != null && (y.symType == SectionType || y.status != Same)
  }

  /** What a section calls for. */
  ghost predicate SecMet(s: Section, x: set<Section>, y: set<Symbol>)
    reads s`secsym, s`rela, (if s.rela == null then {} else {s.rela})`relas
  {
    && (s.secsym != null ==> s.secsym in y)
    && (s.rela != null ==> s.rela in x && forall z :: z in s.rela.relas ==> z in y)
  }

  /** What a symbol calls for. */
  ghost predicate SymMet(z: Symbol, x: set<Section>)
    reads z`sec, z`symType, z`status
  {
    Brings(z) ==> z.sec in x
  }

  /** All that the sections a and symbols b call for is in x and y. */
  ghost predicate Met(secs: set<Section>, syms: set<Symbol>, a: set<Section>, b: set<Symbol>, x: set<Section>,
                      y: set<Symbol>)
    requires a <= secs && b <= syms && Linked(secs, syms)
    reads secs`secsym, secs`rela, secs`relas, syms`sec, syms`symType, syms`status
  {
    && (forall s :: s in a ==> SecMet(s, x, y))
    && (forall z :: z in b ==> SymMet(z, x))
  }

  ghost predicate Closed(secs: set<Section>, syms: set<Symbol>, x: set<Section>, y: set<Symbol>)
    requires x <= secs && y <= syms && Linked(secs, syms)
    reads secs`secsym, secs`rela, secs`relas, syms`sec, syms`symType, syms`status
  {
    Met(secs, syms, x, y, x, y)
  }

  ghost function InSecs(secs: set<Section>): (r: set<Section>)
    reads secs`included
  {
    set s | s in secs && s.included
  }

  ghost function InSyms(syms: set<Symbol>): (r: set<Symbol>)
    reads syms`included
  {
    set y | y in syms && y.included
  }

  /** What is new in (i, j) over (i0, j0), apart from `except`, has all it calls for in (i, j) and
      lies in (x, y). */
  ghost predicate Grown(secs: set<Section>, syms: set<Symbol>, i0: set<Section>, j0: set<Symbol>, i: set<Section>,
                        j: set<Symbol>,
                        except: set<Section>, x: set<Section>, y: set<Symbol>)
    requires i <= secs && j <= syms && Linked(secs, syms)
    reads secs`secsym, secs`rela, secs`relas, syms`sec, syms`symType, syms`status
  {
    && i0 <= i && j0 <= j && i - i0 <= x && j - j0 <= y
    && Met(secs, syms, i - i0 - except, j - j0, i, j)
  }

  lemma MoreMet(secs: set<Section>, syms: set<Symbol>, a: set<Section>, b: set<Symbol>,
                i: set<Section>, j: set<Symbol>, i': set<Section>, j': set<Symbol>)
    requires a <= secs && b <= syms && Linked(secs, syms) && Met(secs, syms, a, b, i, j) && i <= i' && j <= j'
    ensures Met(secs, syms, a, b, i', j')
  {
    forall s | s in a ensures SecMet(s, i', j') {
      assert SecMet(s, i, j);
    }
    forall z | z in b ensures SymMet(z, i') {
      assert SymMet(z, i);
    }
  }

  lemma GrownOn(secs: set<Section>, syms: set<Symbol>, i0: set<Section>, j0: set<Symbol>, i: set<Section>,
                j: set<Symbol>,
                i': set<Section>, j': set<Symbol>, except: set<Section>, x: set<Section>, y: set<Symbol>)
    requires i <= secs && j <= syms && i' <= secs && j' <= syms && Linked(secs, syms)
    requires Grown(secs, syms, i0, j0, i, j, except, x, y) && Grown(secs, syms, i, j, i', j', {}, x, y)
    ensures Grown(secs, syms, i0, j0, i', j', except, x, y)
  {
    MoreMet(secs, syms, i - i0 - except, j - j0, i, j, i', j');
    forall s | s in i' - i0 - except ensures SecMet(s, i', j') {
      assert s in i - i0 - except || s in i' - i - {};
    }
    forall z | z in j' - j0 ensures SymMet(z, i') {
      assert z in j - j0 || z in j' - j;
    }
  }

  lemma NoneGrown(secs: set<Section>, syms: set<Symbol>, i: set<Section>, j: set<Symbol>, x: set<Section>,
                  y: set<Symbol>)
    requires i <= secs && j <= syms && Linked(secs, syms)
    ensures Grown(secs, syms, i, j, i, j, {}, x, y)
  {
  }

  lemma FirstGrown(sec: Section, secs: set<Section>, syms: set<Symbol>, i0: set<Section>, j0: set<Symbol>,
                   i: set<Section>, j: set<Symbol>, x: set<Section>, y: set<Symbol>)
    requires sec in secs && Linked(secs, syms) && x <= secs && y <= syms && Closed(secs, syms, x, y) && sec in x
    requires i0 <= secs && j0 <= syms
    requires i == i0 + {sec} + (if sec.rela == null then {} else {sec.rela})
    requires j == j0 + (if sec.secsym == null then {} else {sec.secsym})
    ensures Grown(secs, syms, i0, j0, i, j, {sec}, x, y)
  {
    assert SecMet(sec, x, y);
  }

  lemma LastGrown(sec: Section, secs: set<Section>, syms: set<Symbol>, i0: set<Section>, j0: set<Symbol>,
                  i: set<Section>, j: set<Symbol>, x: set<Section>, y: set<Symbol>)
    requires i <= secs && j <= syms && Linked(secs, syms) && sec in secs && sec in i && sec in x
    requires Grown(secs, syms, i0, j0, i, j, {sec}, x, y) && SecMet(sec, i, j)
    ensures Grown(secs, syms, i0, j0, i, j, {}, x, y)
  {
    forall s | s in i - i0 - {} ensures SecMet(s, i, j) {
      assert s == sec || s in i - i0 - {sec};
    }
  }

  /** `kpatch_include_section`.  Whatever is newly included has all it calls for, and lies in
      every closed pair (x, y) that holds the section. */
  method IncludeSection(sec: Section, ghost secs: set<Section>, ghost syms: set<Symbol>, ghost x: set<Section>,
                        ghost y: set<Symbol>)
    requires sec in secs && Linked(secs, syms) && x <= secs && y <= syms && Closed(secs, syms, x, y) && sec in x
    modifies secs`included, syms`included
    ensures sec.included
    ensures Grown(secs, syms, old(InSecs(secs)), old(InSyms(syms)), InSecs(secs), InSyms(syms), {}, x, y)
    decreases secs - InSecs(secs), syms - InSyms(syms)
  {
    assert SecMet(sec, x, y);
    hide Closed, Met;
    if sec.included {
      NoneGrown(secs, syms, InSecs(secs), InSyms(syms), x, y);
      return;
    }
    ghost var i0, j0 := InSecs(secs), InSyms(syms);
    MarkFirst(sec, secs, syms);
    FirstGrown(sec, secs, syms, i0, j0, InSecs(secs), InSyms(syms), x, y);
    if sec.rela != null {
      ghost var i, j := InSecs(secs), InSyms(syms);
      IncludeRelas(sec.rela.relas, secs, syms, x, y);
      GrownOn(secs, syms, i0, j0, i, j, InSecs(secs), InSyms(syms), {sec}, x, y);
    }
    LastGrown(sec, secs, syms, i0, j0, InSecs(secs), InSyms(syms), x, y);
  }

  /** The loop over the relas. */
  method IncludeRelas(relas: seq<Symbol>, ghost secs: set<Section>, ghost syms: set<Symbol>, ghost x: set<Section>,
                      ghost y: set<Symbol>)
    requires Linked(secs, syms) && x <= secs && y <= syms && Closed(secs, syms, x, y)
    requires forall z :: z in relas ==> z in y
    modifies secs`included, syms`included
    ensures forall z :: z in relas ==> z in InSyms(syms)
    ensures Grown(secs, syms, old(InSecs(secs)), old(InSyms(syms)), InSecs(secs), InSyms(syms), {}, x, y)
    decreases secs - InSecs(secs), syms - InSyms(syms), 1
  {
    hide Met, Closed;
    ghost var i0, j0 := InSecs(secs), InSyms(syms);
    NoneGrown(secs, syms, i0, j0, x, y);
    for k := 0 to |relas|
      invariant Grown(secs, syms, i0, j0, InSecs(secs), InSyms(syms), {}, x, y)
      invariant forall m :: 0 <= m < k ==> relas[m] in InSyms(syms)
    {
      ghost var i, j := InSecs(secs), InSyms(syms);
      assert relas[k] in relas;
      IncludeSymbol(relas[k], secs, syms, x, y);
      GrownOn(secs, syms, i0, j0, i, j, InSecs(secs), InSyms(syms), {}, x, y);
    }
  }

  /** The flags a section sets before the recursion: its own, its symbol's and its rela section's. */
  method MarkFirst(sec: Section, ghost secs: set<Section>, ghost syms: set<Symbol>)
    requires sec in secs && Linked(secs, syms)
    modifies secs`included, syms`included
    ensures InSecs(secs) == old(InSecs(secs)) + {sec} + (if sec.rela == null then {} else {sec.rela})
    ensures InSyms(syms) == old(InSyms(syms)) + (if sec.secsym == null then {} else {sec.secsym})
  {
    sec.included := true;
    if sec.secsym != null {
      sec.secsym.included := true;
    }
    if sec.rela != null {
      sec.rela.included := true;
    }
  }

  /** `kpatch_include_symbol`. */
  method IncludeSymbol(sym: Symbol, ghost secs: set<Section>, ghost syms: set<Symbol>, ghost x: set<Section>,
                       ghost y: set<Symbol>)
    requires sym in syms && Linked(secs, syms) && x <= secs && y <= syms && Closed(secs, syms, x, y) && sym in y
    modifies secs`included, syms`included
    ensures sym.included
    ensures Grown(secs, syms, old(InSecs(secs)), old(InSyms(syms)), InSecs(secs), InSyms(syms), {}, x, y)
    decreases secs - InSecs(secs), syms - InSyms(syms), 0
  {
    ghost var i0, j0 := InSecs(secs), InSyms(syms);
    if sym.included {
      NoneGrown(secs, syms, i0, j0, x, y);
      return;
    }
    assert SymMet(sym, x);
    hide Closed, Met;
    sym.included := true;
    assert InSecs(secs) == i0 && InSyms(syms) == j0 + {sym};
    if sym.sec != null && (sym.symType == SectionType || sym.status != Same) {
      assert syms - InSyms(syms) < syms - j0;
      IncludeSection(sym.sec, secs, syms, x, y);
    }
    SymbolGrown(sym, secs, syms, i0, j0, InSecs(secs), InSyms(syms), x, y);
  }

  lemma SymbolGrown(sym: Symbol, secs: set<Section>, syms: set<Symbol>, i0: set<Section>, j0: set<Symbol>,
                    i: set<Section>, j: set<Symbol>, x: set<Section>, y: set<Symbol>)
    requires i <= secs && j <= syms && Linked(secs, syms) && sym in syms && sym in y
    requires Brings(sym) ==> sym.sec in i
    requires if Brings(sym) then Grown(secs, syms, i0, j0 + {sym}, i, j, {}, x, y) else i == i0 && j == j0 + {sym}
    ensures Grown(secs, syms, i0, j0, i, j, {}, x, y)
  {
    forall z | z in j - j0 ensures SymMet(z, i) {
      assert z == sym || z in j - (j0 + {sym});
    }
  }

  // ------------------------------------------------------------------ the least closed set

  datatype Root = Sec(section: Section) | Sym(symbol: Symbol)

  ghost predicate RootIn(r: Root, x: set<Section>, y: set<Symbol>) {
    match r
    case Sec(s) => s in x
    case Sym(z) => z in y
  }

  ghost predicate Holds(roots: seq<Root>, x: set<Section>, y: set<Symbol>) {
    forall k :: 0 <= k < |roots| ==> RootIn(roots[k], x, y)
  }

  /** (x, y) holds the roots and is closed. */
  ghost predicate Bound(secs: set<Section>, syms: set<Symbol>, roots: seq<Root>, x: set<Section>, y: set<Symbol>)
    requires Linked(secs, syms)
    reads secs`secsym, secs`rela, secs`relas, syms`sec, syms`symType, syms`status
  {
    x <= secs && y <= syms && Holds(roots, x, y) && Closed(secs, syms, x, y)
  }

  /** The sections that every closed pair with the roots holds. */
  ghost function LeastSecs(secs: set<Section>, syms: set<Symbol>, roots: seq<Root>): (r: set<Section>)
    requires Linked(secs, syms)
    reads secs`secsym, secs`rela, secs`relas, syms`sec, syms`symType, syms`status
  {
    set s | s in secs && forall x, y :: x <= secs && y <= syms && Bound(secs, syms, roots, x, y) ==> s in x
  }

  ghost function LeastSyms(secs: set<Section>, syms: set<Symbol>, roots: seq<Root>): (r: set<Symbol>)
    requires Linked(secs, syms)
    reads secs`secsym, secs`rela, secs`relas, syms`sec, syms`symType, syms`status
  {
    set z | z in syms && forall x, y :: x <= secs && y <= syms && Bound(secs, syms, roots, x, y) ==> z in y
  }

  /** The least pair is itself closed and holds the roots. */
  lemma LeastIsBound(secs: set<Section>, syms: set<Symbol>, roots: seq<Root>)
    requires Linked(secs, syms) && Holds(roots, secs, syms)
    ensures Bound(secs, syms, roots, LeastSecs(secs, syms, roots), LeastSyms(secs, syms, roots))
  {
    var a, b := LeastSecs(secs, syms, roots), LeastSyms(secs, syms, roots);
    forall s | s in a ensures SecMet(s, a, b) {
      forall x, y | x <= secs && y <= syms && Bound(secs, syms, roots, x, y) ensures SecMet(s, x, y) {
      }
    }
    forall z | z in b ensures SymMet(z, a) {
      forall x, y | x <= secs && y <= syms && Bound(secs, syms, roots, x, y) ensures SymMet(z, x) {
      }
    }
    forall k | 0 <= k < |roots| ensures RootIn(roots[k], a, b) {
      forall x, y | x <= secs && y <= syms && Bound(secs, syms, roots, x, y) ensures RootIn(roots[k], x, y) {
      }
    }
  }

  /** The inclusion rules, one by one: a section brings its section symbol, its rela section and
      the symbols of all its relas; a symbol brings its section if it is a section symbol or has
      changed. */
  ghost predicate Rules(x: set<Section>, y: set<Symbol>)
    reads x, set s | s in x && s.rela != null :: s.rela
    reads y
  {
    && (forall s :: s in x && s.secsym != null ==> s.secsym in y)
    && (forall s :: s in x && s.rela != null ==> s.rela in x)
    && (forall s, z :: s in x && s.rela != null && z in s.rela.relas ==> z in y)
    && (forall z :: z in y && z.sec != null && z.symType == SectionType ==> z.sec in x)
    && (forall z :: z in y && z.sec != null && z.status in {New, Changed} ==> z.sec in x)
  }

  /** Closed are the sets that keep these rules. */
  lemma ClosedIff(secs: set<Section>, syms: set<Symbol>, x: set<Section>, y: set<Symbol>)
    requires x <= secs && y <= syms && Linked(secs, syms)
    ensures Closed(secs, syms, x, y) <==> Rules(x, y)
  {
    if Closed(secs, syms, x, y) {
      forall s | s in x ensures s.secsym != null ==> s.secsym in y {
        assert SecMet(s, x, y);
      }
      forall s | s in x && s.rela != null ensures s.rela in x && forall z :: z in s.rela.relas ==> z in y {
        assert SecMet(s, x, y);
      }
      forall z | z in y && z.sec != null && (z.symType == SectionType || z.status in {New, Changed})
        ensures z.sec in x
      {
        assert SymMet(z, x);
      }
    }
    if Rules(x, y) {
      forall s | s in x ensures SecMet(s, x, y) {
      }
      forall z | z in y ensures SymMet(z, x) {
        assert z.status == Same || z.status in {New, Changed};
      }
    }
  }

  /** From clear flags, including any roots in any order marks exactly the least closed set
      that holds them. */
  method IncludeRoots(roots: seq<Root>, ghost secs: set<Section>, ghost syms: set<Symbol>)
    requires Linked(secs, syms) && Holds(roots, secs, syms)
    requires InSecs(secs) == {} && InSyms(syms) == {}
    modifies secs`included, syms`included
    ensures InSecs(secs) == LeastSecs(secs, syms, roots) && InSyms(syms) == LeastSyms(secs, syms, roots)
    ensures Rules(InSecs(secs), InSyms(syms))
  {
    hide Rules;
    ghost var x, y := LeastSecs(secs, syms, roots), LeastSyms(secs, syms, roots);
    LeastIsBound(secs, syms, roots);
    NoneGrown(secs, syms, {}, {}, x, y);
    hide Met, Closed, LeastSecs, LeastSyms;
    for k := 0 to |roots|
      invariant x == LeastSecs(secs, syms, roots) && y == LeastSyms(secs, syms, roots)
      invariant Grown(secs, syms, {}, {}, InSecs(secs), InSyms(syms), {}, x, y)
      invariant Holds(roots[..k], InSecs(secs), InSyms(syms))
    {
      ghost var i, j := InSecs(secs), InSyms(syms);
      assert RootIn(roots[k], x, y);
      match roots[k] {
        case Sec(s) => IncludeSection(s, secs, syms, x, y);
        case Sym(z) => IncludeSymbol(z, secs, syms, x, y);
      }
      GrownOn(secs, syms, {}, {}, i, j, InSecs(secs), InSyms(syms), {}, x, y);
      MoreHeld(roots, k, i, j, InSecs(secs), InSyms(syms));
    }
    assert roots[..|roots|] == roots;
    ClosedIsLeast(secs, syms, roots, InSecs(secs), InSyms(syms));
    LeastIsClosed(secs, syms, roots);
    ClosedIff(secs, syms, x, y);
  }

  lemma LeastIsClosed(secs: set<Section>, syms: set<Symbol>, roots: seq<Root>)
    requires Linked(secs, syms) && Holds(roots, secs, syms)
    ensures LeastSecs(secs, syms, roots) <= secs && LeastSyms(secs, syms, roots) <= syms
    ensures Closed(secs, syms, LeastSecs(secs, syms, roots), LeastSyms(secs, syms, roots))
  {
    LeastIsBound(secs, syms, roots);
  }

  lemma MoreHeld(roots: seq<Root>, k: nat, i: set<Section>, j: set<Symbol>, i': set<Section>, j': set<Symbol>)
    requires k < |roots| && Holds(roots[..k], i, j) && i <= i' && j <= j' && RootIn(roots[k], i', j')
    ensures Holds(roots[..k + 1], i', j')
  {
    assert forall m :: 0 <= m < k ==> roots[..k + 1][m] == roots[..k][m];
  }

  lemma ClosedIsLeast(secs: set<Section>, syms: set<Symbol>, roots: seq<Root>, i: set<Section>, j: set<Symbol>)
    requires Linked(secs, syms) && i <= secs && j <= syms && Holds(roots, i, j)
    requires Grown(secs, syms, {}, {}, i, j, {}, LeastSecs(secs, syms, roots), LeastSyms(secs, syms, roots))
    ensures i == LeastSecs(secs, syms, roots) && j == LeastSyms(secs, syms, roots)
  {
    assert i - {} - {} == i && j - {} == j;
    assert Bound(secs, syms, roots, i, j);
  }
}
