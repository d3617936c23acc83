/** Dynamic relocations and the tables they travel in: kpatch_create_intermediate_sections of
    src/kpatch/kpatch-build/create-diff-object.c. */
module Dynrelas {
  import opened Common
  import opened Chars
  import opened KpatchStrings
  import opened Seqs

  // The x86-64 layout of struct kpatch_symbol and struct kpatch_relocation.
  const SYM_SIZE: nat := 40
  const SYM_NAME: nat := 24
  const SYM_OBJNAME: nat := 32
  const RELA_SIZE: nat := 40
  const RELA_DEST: nat := 0
  const RELA_OBJNAME: nat := 24
  const RELA_KSYM: nat := 32

  /** `hasSec`: the symbol is defined in this object. */
  datatype Symbol = Symbol(name: string, symType: nat, bind: nat, hasSec: bool)
  datatype Rela = Rela(sym: Symbol, relaType: nat, addend: int, offset: nat)
  datatype RelaSection = RelaSection(name: string, base: nat, baseName: string, hasSecsym: bool, special: bool,
                                     relas: seq<Rela>)

  /** What the symbol table knows of a name. */
  datatype Found = Found(objname: string, sympos: nat, addr: int, exported: bool)

  /** A relocation of the patched object against (obj, name, sympos), whose address is `src` if
      it is known. */
  datatype Dyn = Dyn(base: nat, baseName: string, offset: nat, relaType: nat, addend: int, obj: string, name: string,
                     sympos: nat, symType: nat, bind: nat, src: int, external: bool)

  datatype KSym = KSym(src: int, sympos: nat, symType: nat, bind: nat)
  datatype KRela = KRela(addend: int, relaType: nat, external: bool)
  datatype Target = Strings | KsymSection | SecSym(base: nat)

  /** A relocation that fills in a pointer of a table. */
  datatype TRela = TRela(target: Target, offset: nat, addend: int)

  /** What the tables hold. */
  datatype Image = Image(ksyms: seq<KSym>, ksymRelas: seq<TRela>, krelas: seq<KRela>, krelaRelas: seq<TRela>,
                         strings: seq<string>)

  /** An address of the string section that holds s. */
  ghost predicate PointsTo(t: TRela, offset: nat, strings: seq<string>, s: string) {
    t.target == Strings && t.offset == offset && t.addend >= 0 && LiesAt(strings, t.addend, s)
  }

  /** Entry i of the tables stands for d. */
  ghost predicate EntryAt(m: Image, i: nat, d: Dyn, objname: string)
    requires i < |m.ksyms| && i < |m.krelas| && 2 * i + 1 < |m.ksymRelas| && 3 * i + 2 < |m.krelaRelas|
  {
    && m.ksyms[i] == KSym(d.src, d.sympos, d.symType, d.bind)
    && m.krelas[i] == KRela(d.addend, d.relaType, d.external)
    && PointsTo(m.ksymRelas[2 * i], SYM_SIZE * i + SYM_NAME, m.strings, d.name)
    && PointsTo(m.ksymRelas[2 * i + 1], SYM_SIZE * i + SYM_OBJNAME, m.strings, d.obj)
    && m.krelaRelas[3 * i] == TRela(SecSym(d.base), RELA_SIZE * i + RELA_DEST, d.offset)
    && PointsTo(m.krelaRelas[3 * i + 1], RELA_SIZE * i + RELA_OBJNAME, m.strings, objname)
    && m.krelaRelas[3 * i + 2] == TRela(KsymSection, RELA_SIZE * i + RELA_KSYM, SYM_SIZE * i)
  }

  ghost predicate Encodes(m: Image, dyns: seq<Dyn>, objname: string) {
    && |m.ksyms| == |m.krelas| == |dyns| && |m.ksymRelas| == 2 * |dyns| && |m.krelaRelas| == 3 * |dyns|
    && forall i :: 0 <= i < |dyns| ==> EntryAt(m, i, dyns[i], objname)
  }

  ghost predicate Grows(strings: seq<string>, strings': seq<string>) {
    forall a: nat, s :: LiesAt(strings, a, s) ==> LiesAt(strings', a, s)
  }

  lemma StringAdded(strings: seq<string>, name: string)
    ensures Grows(strings, strings + [name])
  {
    forall a: nat, s | LiesAt(strings, a, s) ensures LiesAt(strings + [name], a, s) {
      StillLies(strings, name, a, s);
    }
  }

  /** The image with one more entry. */
  ghost function WithEntry(m: Image, d: Dyn, name: nat, obj: nat, own: nat, strings: seq<string>): Image {
    var i := |m.krelas|;
    Image(m.ksyms + [KSym(d.src, d.sympos, d.symType, d.bind)],
          m.ksymRelas + [TRela(Strings, SYM_SIZE * i + SYM_NAME, name),
                         TRela(Strings, SYM_SIZE * i + SYM_OBJNAME, obj)],
          m.krelas + [KRela(d.addend, d.relaType, d.external)],
          m.krelaRelas + [TRela(SecSym(d.base), RELA_SIZE * i + RELA_DEST, d.offset),
                          TRela(Strings, RELA_SIZE * i + RELA_OBJNAME, own),
                          TRela(KsymSection, RELA_SIZE * i + RELA_KSYM, SYM_SIZE * i)],
          strings)
  }

  lemma EntryAdded(m: Image, dyns: seq<Dyn>, d: Dyn, name: nat, obj: nat, own: nat, strings: seq<string>,
                   objname: string)
    requires Encodes(m, dyns, objname) && Grows(m.strings, strings)
    requires LiesAt(strings, name, d.name) && LiesAt(strings, obj, d.obj) && LiesAt(strings, own, objname)
    ensures Encodes(WithEntry(m, d, name, obj, own, strings), dyns + [d], objname)
  {
    hide LiesAt;
    var m' := WithEntry(m, d, name, obj, own, strings);
    forall i | 0 <= i < |dyns + [d]| ensures EntryAt(m', i, (dyns + [d])[i], objname) {
      if i < |dyns| {
        EntryStays(m, m', i, dyns[i], objname);
      }
    }
  }

  lemma EntryStays(m: Image, m': Image, i: nat, d: Dyn, objname: string)
    requires i < |m.ksyms| && i < |m.krelas| && 2 * i + 1 < |m.ksymRelas| && 3 * i + 2 < |m.krelaRelas|
    requires m.ksyms <= m'.ksyms && m.krelas <= m'.krelas
    requires m.ksymRelas <= m'.ksymRelas && m.krelaRelas <= m'.krelaRelas
    requires EntryAt(m, i, d, objname) && Grows(m.strings, m'.strings)
    ensures EntryAt(m', i, d, objname)
  {
    hide LiesAt;
  }

  /** The .kpatch.symbols and .kpatch.relocations sections with their relas. */
  class Tables {
    var ksyms: seq<KSym>
    var ksymRelas: seq<TRela>
    var krelas: seq<KRela>
    var krelaRelas: seq<TRela>
    var strings: seq<string>

    ghost function Held(): Image
      reads this
    {
      Image(ksyms, ksymRelas, krelas, krelaRelas, strings)
    }

    constructor (list: seq<string>)
      ensures Held() == Image([], [], [], [], list)
    {
      ksyms, ksymRelas, krelas, krelaRelas, strings := [], [], [], [], list;
    }

    method Offset(name: string) returns (index: nat)
      requires CString(name)
      modifies this`strings
      ensures Grows(old(strings), strings) && LiesAt(strings, index, name)
    {
      StringAdded(strings, name);
      hide LiesAt;
      var list;
      index, list := OffsetOfString(strings, name);
      strings := list;
    }

    /** Fills in entry `index` of both tables for the relocation d. */
    method Add(d: Dyn, objname: string, ghost dyns: seq<Dyn>)
      requires Encodes(Held(), dyns, objname) && CString(d.name) && CString(d.obj) && CString(objname)
      modifies this
      ensures Encodes(Held(), dyns + [d], objname)
    {
      hide LiesAt, Encodes;
      ghost var m := Held();
      assert |m.ksyms| == |m.krelas| by { Sizes(m, dyns, objname); }
      var index := |krelas|;
      ksyms := ksyms + [KSym(d.src, d.sympos, d.symType, d.bind)];
      var name := Offset(d.name);
      ksymRelas := ksymRelas + [TRela(Strings, SYM_SIZE * index + SYM_NAME, name)];
      var obj := Offset(d.obj);
      ksymRelas := ksymRelas + [TRela(Strings, SYM_SIZE * index + SYM_OBJNAME, obj)];
      krelas := krelas + [KRela(d.addend, d.relaType, d.external)];
      krelaRelas := krelaRelas + [TRela(SecSym(d.base), RELA_SIZE * index + RELA_DEST, d.offset)];
      var own := Offset(objname);
      krelaRelas := krelaRelas + [TRela(Strings, RELA_SIZE * index + RELA_OBJNAME, own)];
      krelaRelas := krelaRelas + [TRela(KsymSection, RELA_SIZE * index + RELA_KSYM, SYM_SIZE * index)];
      EntryAdded(m, dyns, d, name, obj, own, strings, objname);
      assert Held() == WithEntry(m, d, name, obj, own, strings);
    }
  }

  lemma Sizes(m: Image, dyns: seq<Dyn>, objname: string)
    requires Encodes(m, dyns, objname)
    ensures |m.ksyms| == |m.krelas| == |dyns|
  {
  }

  // ---------------------------------------------------------------- converting the relocations

  /** What the conversion is told: which relas have to be dynamic, the symbol table, the name of
      the patched object, and whether special sections of modules may be relocated. */
  datatype Env = Env(need: Rela -> bool, lookup: string -> Option<Found>, objname: string, klpArch: bool)

  ghost predicate Proper(e: Env, secs: seq<RelaSection>) {
    && CString(e.objname)
    && (forall n {:trigger e.lookup(n)} :: e.lookup(n).Some? ==> CString(e.lookup(n).value.objname))
    && forall i :: 0 <= i < |secs| ==> ProperSection(secs[i])
  }

  ghost predicate ProperSection(sec: RelaSection) {
    forall k :: 0 <= k < |sec.relas| ==> CString(sec.relas[k].sym.name)
  }

  /** The conversion stops with an error. */
  ghost predicate Fails(e: Env, sec: RelaSection, r: Rela) {
    || (!e.klpArch && e.objname != "vmlinux" && sec.special)
    || e.lookup(r.sym.name).None?
    || !sec.hasSecsym
  }

  ghost predicate Skipped(sec: RelaSection) {
    sec.name == ".rela.kpatch.funcs" || sec.name == ".rela.kpatch.relocations" || sec.name == ".rela.kpatch.symbols"
  }

  ghost predicate SectionFails(e: Env, sec: RelaSection, relas: seq<Rela>) {
    exists k :: 0 <= k < |relas| && e.need(relas[k]) && Fails(e, sec, relas[k])
  }

  ghost predicate SomeFails(e: Env, secs: seq<RelaSection>) {
    exists i :: 0 <= i < |secs| && !Skipped(secs[i]) && SectionFails(e, secs[i], secs[i].relas)
  }

  /** For modules the address of the symbol is found at run time. */
  function DynOf(e: Env, sec: RelaSection, r: Rela, f: Found): Dyn {
    var vmlinux := e.objname == "vmlinux";
    Dyn(sec.base, sec.baseName, r.offset, r.relaType, r.addend, f.objname, r.sym.name, f.sympos, r.sym.symType,
        r.sym.bind,
        if vmlinux then f.addr else 0, !vmlinux && f.exported)
  }

  /** The dynamic relocations of a section, in order. */
  ghost function DynsIn(e: Env, sec: RelaSection, relas: seq<Rela>): (r: seq<Dyn>)
    ensures |r| <= |relas|
  {
    if relas == [] then [] else
    var front, last := DynsIn(e, sec, relas[..|relas| - 1]), relas[|relas| - 1];
    var found := e.lookup(last.sym.name);
    if e.need(last) && found.Some? then front + [DynOf(e, sec, last, found.value)] else front
  }

  /** The relocations that stay. */
  ghost function Staying(e: Env, relas: seq<Rela>): seq<Rela> {
    if relas == [] then [] else
    var front, last := Staying(e, relas[..|relas| - 1]), relas[|relas| - 1];
    if e.need(last) then front else front + [last]
  }

  /** The symbols marked for removal: those that dynamic relocations refer to and that are not of
      this object. */
  ghost function Stripped(e: Env, relas: seq<Rela>): set<Symbol> {
    if relas == [] then {} else
    var front, last := Stripped(e, relas[..|relas| - 1]), relas[|relas| - 1];
    if e.need(last) && !last.sym.hasSec then front + {last.sym} else front
  }

  ghost function AllStripped(e: Env, secs: seq<RelaSection>): set<Symbol> {
    if secs == [] then {} else
    var front, last := AllStripped(e, secs[..|secs| - 1]), secs[|secs| - 1];
    if Skipped(last) then front else front + Stripped(e, last.relas)
  }

  ghost function AllDyns(e: Env, secs: seq<RelaSection>): seq<Dyn> {
    if secs == [] then [] else
    var front, last := AllDyns(e, secs[..|secs| - 1]), secs[|secs| - 1];
    if Skipped(last) then front else front + DynsIn(e, last, last.relas)
  }

  ghost function Remaining(e: Env, secs: seq<RelaSection>): seq<RelaSection> {
    if secs == [] then [] else
    var front, last := Remaining(e, secs[..|secs| - 1]), secs[|secs| - 1];
    front + [if Skipped(last) then last else last.(relas := Staying(e, last.relas))]
  }

  /** The first pass: an upper bound on the number of dynamic relocations. */
  method CountRelas(e: Env, secs: seq<RelaSection>) returns (nr: nat)
    ensures |AllDyns(e, secs)| <= nr
  {
    nr := 0;
    for i := 0 to |secs|
      invariant |AllDyns(e, secs[..i])| <= nr
    {
      assert secs[..i + 1][..i] == secs[..i];
      if secs[i].name == ".rela.kpatch.funcs" {
        continue;
      }
      nr := nr + |secs[i].relas|;
    }
    assert secs[..|secs|] == secs;
  }

  /** The second pass over one section. */
  method ConvertSection(e: Env, sec: RelaSection, tables: Tables, ghost dyns: seq<Dyn>)
    returns (ok: bool, rest: seq<Rela>, strip: set<Symbol>)
    requires Encodes(tables.Held(), dyns, e.objname) && Proper(e, [sec])
    modifies tables
    ensures ok <==> !SectionFails(e, sec, sec.relas)
    ensures ok ==> Encodes(tables.Held(), dyns + DynsIn(e, sec, sec.relas), e.objname) && rest == Staying(e, sec.relas)
    ensures ok ==> strip == Stripped(e, sec.relas)
  {
    hide Encodes, DynsIn, Staying, Stripped, SectionFails, CString;
    assert ProperSection([sec][0]);
    rest, strip := [], {};
    NoRelas(e, sec, dyns);
    for k := 0 to |sec.relas|
      invariant !SectionFails(e, sec, sec.relas[..k])
      invariant Encodes(tables.Held(), dyns + DynsIn(e, sec, sec.relas[..k]), e.objname)
      invariant rest == Staying(e, sec.relas[..k]) && strip == Stripped(e, sec.relas[..k])
    {
      var rela := sec.relas[k];
      ghost var done := DynsIn(e, sec, sec.relas[..k]);
      RelaStep(e, sec, k);
      if !e.need(rela) {
        rest := rest + [rela];
        continue;
      }
      if !e.klpArch && e.objname != "vmlinux" && sec.special {
        return false, rest, strip;
      }
      var symbol := e.lookup(rela.sym.name);
      if symbol.None? || !sec.hasSecsym {
        return false, rest, strip;
      }
      var d := DynOf(e, sec, rela, symbol.value);
      tables.Add(d, e.objname, dyns + done);
      assert dyns + (done + [d]) == (dyns + done) + [d];
      if !rela.sym.hasSec {
        strip := strip + {rela.sym};
      }
    }
    assert sec.relas[..|sec.relas|] == sec.relas;
    ok := true;
  }

  lemma NoRelas(e: Env, sec: RelaSection, dyns: seq<Dyn>)
    ensures sec.relas[..0] == [] && !SectionFails(e, sec, []) && DynsIn(e, sec, []) == [] && dyns + [] == dyns
    ensures Staying(e, []) == [] && Stripped(e, []) == {}
  {
  }

  lemma RelaStep(e: Env, sec: RelaSection, k: nat)
    requires k < |sec.relas|
    ensures var r := sec.relas[k];
      var dyns, stay := DynsIn(e, sec, sec.relas[..k]), Staying(e, sec.relas[..k]);
      && DynsIn(e, sec, sec.relas[..k + 1]) == (if e.need(r) && e.lookup(r.sym.name).Some?
                                                then dyns + [DynOf(e, sec, r, e.lookup(r.sym.name).value)] else dyns)
      && Staying(e, sec.relas[..k + 1]) == (if e.need(r) then stay else stay + [r])
      && Stripped(e, sec.relas[..k + 1])
         == Stripped(e, sec.relas[..k]) + (if e.need(r) && !r.sym.hasSec then {r.sym} else {})
    ensures SectionFails(e, sec, sec.relas[..k + 1]) <==>
      SectionFails(e, sec, sec.relas[..k]) || (e.need(sec.relas[k]) && Fails(e, sec, sec.relas[k]))
    ensures e.need(sec.relas[k]) && Fails(e, sec, sec.relas[k]) ==> SectionFails(e, sec, sec.relas)
  {
    var a, b := sec.relas[..k], sec.relas[..k + 1];
    assert b[..k] == a && b[k] == sec.relas[k];
    assert forall m :: 0 <= m < k ==> b[m] == a[m];
  }

  /** `kpatch_create_intermediate_sections`: either an error, or tables that stand for exactly the
      dynamic relocations, which are gone from their sections.  There is room for all entries. */
  method CreateIntermediate(e: Env, secs: seq<RelaSection>, strings: seq<string>)
    returns (ok: bool, nr: nat, tables: Tables, rest: seq<RelaSection>, strip: set<Symbol>)
    requires Proper(e, secs)
    ensures fresh(tables) && (ok <==> !SomeFails(e, secs))
    ensures ok ==> Encodes(tables.Held(), AllDyns(e, secs), e.objname) && rest == Remaining(e, secs)
    ensures ok ==> |tables.krelas| == |tables.ksyms| <= nr && strip == AllStripped(e, secs)
    ensures ok ==> Tabled(e, secs, tables.Held())
    ensures ok ==> |rest| == |secs| && forall k :: 0 <= k < |secs| ==> Left(e, secs[k], rest[k])
    ensures ok ==> forall y :: y in strip <==> Strips(e, secs, y)
  {
    hide Tabled, Left, Strips, Encodes, AllDyns, Remaining, AllStripped, SomeFails, SectionFails,
         DynsIn, Staying, Stripped, Skipped, CString;
    nr := CountRelas(e, secs);
    tables := new Tables(strings);
    rest, strip := [], {};
    NoSections(e, secs, tables.Held());
    for i := 0 to |secs|
      invariant fresh(tables) && !SomeFails(e, secs[..i])
      invariant Encodes(tables.Held(), AllDyns(e, secs[..i]), e.objname)
      invariant rest == Remaining(e, secs[..i]) && strip == AllStripped(e, secs[..i])
    {
      SectionStep(e, secs, i);
      var sec := secs[i];
      SkippedAre(sec);
      var name := sec.name;
      if name == ".rela.kpatch.funcs" || name == ".rela.kpatch.relocations" || name == ".rela.kpatch.symbols" {
        rest := rest + [sec];
        continue;
      }
      assert ProperSection(sec);
      var done, relas, more := ConvertSection(e, sec, tables, AllDyns(e, secs[..i]));
      if !done {
        return false, nr, tables, rest, strip;
      }
      rest, strip := rest + [sec.(relas := relas)], strip + more;
    }
    assert secs[..|secs|] == secs;
    Sizes(tables.Held(), AllDyns(e, secs), e.objname);
    EncodedTables(e, secs, tables.Held());
    RemainingAre(e, secs, |secs|);
    forall y ensures y in strip <==> Strips(e, secs, y) {
      AllStrippedAre(e, secs, y);
    }
    ok := true;
  }

  lemma SkippedAre(sec: RelaSection)
    ensures Skipped(sec) <==>
      sec.name in {".rela.kpatch.funcs", ".rela.kpatch.relocations", ".rela.kpatch.symbols"}
  {
  }

  lemma NoSections(e: Env, secs: seq<RelaSection>, m: Image)
    ensures secs[..0] == [] && !SomeFails(e, []) && AllDyns(e, []) == [] && Remaining(e, []) == []
    ensures AllStripped(e, []) == {}
    ensures |m.ksyms| == |m.ksymRelas| == |m.krelas| == |m.krelaRelas| == 0 ==> Encodes(m, [], e.objname)
  {
  }

  lemma SectionStep(e: Env, secs: seq<RelaSection>, i: nat)
    requires i < |secs|
    ensures var s := secs[i];
      var before := secs[..i];
      && AllDyns(e, secs[..i + 1])
         == (if Skipped(s) then AllDyns(e, before) else AllDyns(e, before) + DynsIn(e, s, s.relas))
      && Remaining(e, secs[..i + 1])
         == Remaining(e, before) + [if Skipped(s) then s else s.(relas := Staying(e, s.relas))]
      && AllStripped(e, secs[..i + 1])
         == (if Skipped(s) then AllStripped(e, before) else AllStripped(e, before) + Stripped(e, s.relas))
    ensures SomeFails(e, secs[..i + 1]) <==>
      SomeFails(e, secs[..i]) || (!Skipped(secs[i]) && SectionFails(e, secs[i], secs[i].relas))
    ensures !Skipped(secs[i]) && SectionFails(e, secs[i], secs[i].relas) ==> SomeFails(e, secs)
  {
    hide SectionFails, DynsIn, Staying, Stripped, Skipped, SomeFails;
    var a, b := secs[..i], secs[..i + 1];
    assert b[..i] == a && b[i] == secs[i];
    FailsStep(e, secs, i);
  }

  lemma FailsStep(e: Env, secs: seq<RelaSection>, i: nat)
    requires i < |secs|
    ensures SomeFails(e, secs[..i + 1]) <==>
      SomeFails(e, secs[..i]) || (!Skipped(secs[i]) && SectionFails(e, secs[i], secs[i].relas))
    ensures !Skipped(secs[i]) && SectionFails(e, secs[i], secs[i].relas) ==> SomeFails(e, secs)
  {
    hide SectionFails, Skipped;
    var a, b := secs[..i], secs[..i + 1];
    assert b[i] == secs[i] && forall m :: 0 <= m < i ==> b[m] == a[m];
  }

  // ------------------------------------------- what the tables say of the relocations themselves

  ghost function NeedAt(e: Env, relas: seq<Rela>): nat -> bool { (i: nat) => i < |relas| && e.need(relas[i]) }

  /** d stands for the rela r of a section: place, type and addend are those of r, the symbol is
      the one that the symbol table knows by its name. */
  ghost predicate Says(e: Env, sec: RelaSection, r: Rela, d: Dyn) {
    var f := e.lookup(r.sym.name);
    && f.Some? && d.base == sec.base && d.baseName == sec.baseName
    && d.offset == r.offset && d.relaType == r.relaType && d.addend == r.addend
    && d.obj == f.value.objname && d.name == r.sym.name && d.sympos == f.value.sympos
    && d.symType == r.sym.symType && d.bind == r.sym.bind
    && d.src == (if e.objname == "vmlinux" then f.value.addr else 0)
    && d.external == (e.objname != "vmlinux" && f.value.exported)
  }

  ghost predicate Described(e: Env, sec: RelaSection, at: seq<nat>, dyns: seq<Dyn>) {
    |at| == |dyns| && forall j :: 0 <= j < |at| ==> at[j] < |sec.relas| && Says(e, sec, sec.relas[at[j]], dyns[j])
  }

  /** The dynamic relocations of a section are those of its needed relas, in order. */
  lemma {:induction false} DynsAre(e: Env, sec: RelaSection, k: nat) returns (at: seq<nat>)
    requires k <= |sec.relas| && !SectionFails(e, sec, sec.relas)
    ensures Exactly(at, k, NeedAt(e, sec.relas)) && Described(e, sec, at, DynsIn(e, sec, sec.relas[..k]))
  {
    hide DynsIn, Staying, Stripped, Exactly, SectionFails, Described, DynOf;
    if k == 0 {
      NoRelas(e, sec, []);
      NothingExact(NeedAt(e, sec.relas));
      NoneDescribed(e, sec);
      return [];
    }
    at := DynsAre(e, sec, k - 1);
    RelaStep(e, sec, k - 1);
    ExactlyMore(at, k - 1, NeedAt(e, sec.relas));
    if e.need(sec.relas[k - 1]) {
      OneDescribed(e, sec, at, DynsIn(e, sec, sec.relas[..k - 1]), k - 1);
      at := at + [k - 1];
    }
  }

  lemma NoneDescribed(e: Env, sec: RelaSection)
    ensures Described(e, sec, [], [])
  {
  }

  lemma OneDescribed(e: Env, sec: RelaSection, at: seq<nat>, dyns: seq<Dyn>, k: nat)
    requires k < |sec.relas| && !SectionFails(e, sec, sec.relas) && e.need(sec.relas[k]) && Described(e, sec, at, dyns)
    ensures var f := e.lookup(sec.relas[k].sym.name);
      f.Some? && Described(e, sec, at + [k], dyns + [DynOf(e, sec, sec.relas[k], f.value)])
  {
    assert !Fails(e, sec, sec.relas[k]);
  }

  ghost predicate PicksNeeded(e: Env, secs: seq<RelaSection>, n: nat, ks: seq<nat>, at: seq<nat>)
    requires n <= |secs|
  {
    && |ks| == |at|
    && forall i :: 0 <= i < |ks| ==> ks[i] < n && !Skipped(secs[ks[i]]) && NeedAt(e, secs[ks[i]].relas)(at[i])
  }

  ghost predicate PicksInOrder(ks: seq<nat>, at: seq<nat>) {
    |ks| == |at| && forall i, j :: 0 <= i < j < |ks| ==> ks[i] < ks[j] || (ks[i] == ks[j] && at[i] < at[j])
  }

  ghost predicate Picked(ks: seq<nat>, at: seq<nat>, k: nat, r: nat) {
    |ks| == |at| && exists i :: 0 <= i < |ks| && ks[i] == k && at[i] == r
  }

  ghost predicate PicksAll(e: Env, secs: seq<RelaSection>, n: nat, ks: seq<nat>, at: seq<nat>)
    requires n <= |secs|
  {
    forall k: nat, r: nat :: k < n && !Skipped(secs[k]) && NeedAt(e, secs[k].relas)(r) ==> Picked(ks, at, k, r)
  }

  /** The needed relas of the first n sections, section by section and in order: at[i] of ks[i]. */
  ghost predicate Picks(e: Env, secs: seq<RelaSection>, n: nat, ks: seq<nat>, at: seq<nat>)
    requires n <= |secs|
  {
    PicksNeeded(e, secs, n, ks, at) && PicksInOrder(ks, at) && PicksAll(e, secs, n, ks, at)
  }

  ghost predicate AllDescribed(e: Env, secs: seq<RelaSection>, ks: seq<nat>, at: seq<nat>, dyns: seq<Dyn>) {
    && |ks| == |at| == |dyns|
    && forall i :: 0 <= i < |ks| ==>
         ks[i] < |secs| && at[i] < |secs[ks[i]].relas| && Says(e, secs[ks[i]], secs[ks[i]].relas[at[i]], dyns[i])
  }

  lemma PicksSkip(e: Env, secs: seq<RelaSection>, n: nat, ks: seq<nat>, at: seq<nat>)
    requires n < |secs| && Picks(e, secs, n, ks, at) && Skipped(secs[n])
    ensures Picks(e, secs, n + 1, ks, at)
  {
    hide Skipped, NeedAt, Picked;
  }

  lemma PickedMore(ks: seq<nat>, at: seq<nat>, n: nat, more: seq<nat>, k: nat, r: nat)
    requires |ks| == |at|
    ensures Picked(ks, at, k, r) || (k == n && r in more) ==> Picked(ks + seq(|more|, _ => n), at + more, k, r)
  {
    var ks', at' := ks + seq(|more|, _ => n), at + more;
    if Picked(ks, at, k, r) {
      var i :| 0 <= i < |ks| && ks[i] == k && at[i] == r;
      assert ks'[i] == k && at'[i] == r;
    } else if k == n && r in more {
      var j :| 0 <= j < |more| && more[j] == r;
      assert ks'[|ks| + j] == k && at'[|ks| + j] == r;
    }
  }

  lemma OrderMore(ks: seq<nat>, at: seq<nat>, n: nat, more: seq<nat>)
    requires PicksInOrder(ks, at) && (forall i :: 0 <= i < |ks| ==> ks[i] < n)
    requires forall i, j :: 0 <= i < j < |more| ==> more[i] < more[j]
    ensures PicksInOrder(ks + seq(|more|, _ => n), at + more)
  {
  }

  lemma PicksMore(e: Env, secs: seq<RelaSection>, n: nat, ks: seq<nat>, at: seq<nat>, more: seq<nat>)
    requires n < |secs| && Picks(e, secs, n, ks, at) && !Skipped(secs[n])
    requires Exactly(more, |secs[n].relas|, NeedAt(e, secs[n].relas))
    ensures Picks(e, secs, n + 1, ks + seq(|more|, _ => n), at + more)
  {
    hide Skipped, Picked, PicksInOrder;
    var ks', at' := ks + seq(|more|, _ => n), at + more;
    OrderMore(ks, at, n, more);
    forall k: nat, r: nat | k < n + 1 && !Skipped(secs[k]) && NeedAt(e, secs[k].relas)(r)
      ensures Picked(ks', at', k, r)
    {
      PickedMore(ks, at, n, more, k, r);
    }
  }

  /** The same over all sections. */
  lemma {:induction false} AllDynsAre(e: Env, secs: seq<RelaSection>, n: nat) returns (ks: seq<nat>, at: seq<nat>)
    requires n <= |secs| && !SomeFails(e, secs)
    ensures Picks(e, secs, n, ks, at) && AllDescribed(e, secs, ks, at, AllDyns(e, secs[..n]))
  {
    hide Picks, AllDyns, DynsIn, Remaining, AllStripped, Staying, Stripped, Skipped, Exactly, Says, AllDescribed,
         Described, SomeFails, SectionFails;
    if n == 0 {
      NoPicks(e, secs);
      return [], [];
    }
    ks, at := AllDynsAre(e, secs, n - 1);
    SectionStep(e, secs, n - 1);
    var sec := secs[n - 1];
    if Skipped(sec) {
      PicksSkip(e, secs, n - 1, ks, at);
    } else {
      NotFailing(e, secs, n - 1);
      var more := DynsAre(e, sec, |sec.relas|);
      assert sec.relas[..|sec.relas|] == sec.relas;
      PicksMore(e, secs, n - 1, ks, at, more);
      DescribedMore(e, secs, n - 1, ks, at, AllDyns(e, secs[..n - 1]), more, DynsIn(e, sec, sec.relas));
      ks, at := ks + seq(|more|, _ => n - 1), at + more;
    }
  }

  lemma NotFailing(e: Env, secs: seq<RelaSection>, k: nat)
    requires k < |secs| && !Skipped(secs[k]) && !SomeFails(e, secs)
    ensures !SectionFails(e, secs[k], secs[k].relas)
  {
  }

  lemma DescribedMore(e: Env, secs: seq<RelaSection>, n: nat, ks: seq<nat>, at: seq<nat>, dyns: seq<Dyn>,
                      more: seq<nat>, own: seq<Dyn>)
    requires n < |secs| && AllDescribed(e, secs, ks, at, dyns) && Described(e, secs[n], more, own)
    ensures AllDescribed(e, secs, ks + seq(|more|, _ => n), at + more, dyns + own)
  {
    hide Says;
  }

  lemma NoPicks(e: Env, secs: seq<RelaSection>)
    ensures Picks(e, secs, 0, [], []) && secs[..0] == [] && AllDyns(e, []) == []
    ensures AllDescribed(e, secs, [], [], [])
  {
  }

  /** Entry i of the tables carries a rela: its own type and addend, the section and offset it
      patches, and the name, object, position, type, binding and address of its symbol. */
  ghost predicate Carries(e: Env, m: Image, i: nat, sec: RelaSection, r: Rela) {
    var f := e.lookup(r.sym.name);
    var vmlinux := e.objname == "vmlinux";
    && i < |m.ksyms| && i < |m.krelas| && 2 * i + 1 < |m.ksymRelas| && 3 * i + 2 < |m.krelaRelas| && f.Some?
    && m.ksyms[i].src == (if vmlinux then f.value.addr else 0) && m.ksyms[i].sympos == f.value.sympos
    && m.ksyms[i].symType == r.sym.symType && m.ksyms[i].bind == r.sym.bind
    && m.krelas[i].addend == r.addend && m.krelas[i].relaType == r.relaType
    && m.krelas[i].external == (!vmlinux && f.value.exported)
    && PointsTo(m.ksymRelas[2 * i], SYM_SIZE * i + SYM_NAME, m.strings, r.sym.name)
    && PointsTo(m.ksymRelas[2 * i + 1], SYM_SIZE * i + SYM_OBJNAME, m.strings, f.value.objname)
    && m.krelaRelas[3 * i] == TRela(SecSym(sec.base), RELA_SIZE * i + RELA_DEST, r.offset)
    && PointsTo(m.krelaRelas[3 * i + 1], RELA_SIZE * i + RELA_OBJNAME, m.strings, e.objname)
    && m.krelaRelas[3 * i + 2] == TRela(KsymSection, RELA_SIZE * i + RELA_KSYM, SYM_SIZE * i)
  }

  /** The tables carry the needed relas, each once and in order, and nothing else. */
  ghost predicate Tabled(e: Env, secs: seq<RelaSection>, m: Image) {
    exists ks: seq<nat>, at: seq<nat> :: Picks(e, secs, |secs|, ks, at) && CarriesAll(e, secs, m, ks, at)
  }

  ghost predicate CarriesAll(e: Env, secs: seq<RelaSection>, m: Image, ks: seq<nat>, at: seq<nat>) {
    && |m.ksyms| == |m.krelas| == |ks| == |at| && |m.ksymRelas| == 2 * |ks| && |m.krelaRelas| == 3 * |ks|
    && forall i :: 0 <= i < |ks| ==>
         ks[i] < |secs| && at[i] < |secs[ks[i]].relas| && Carries(e, m, i, secs[ks[i]], secs[ks[i]].relas[at[i]])
  }

  lemma EncodedTables(e: Env, secs: seq<RelaSection>, m: Image)
    requires !SomeFails(e, secs) && Encodes(m, AllDyns(e, secs), e.objname)
    ensures Tabled(e, secs, m)
  {
    hide Picks, AllDyns, PointsTo, SomeFails;
    var ks, at := AllDynsAre(e, secs, |secs|);
    assert secs[..|secs|] == secs;
    assert CarriesAll(e, secs, m, ks, at);
  }

  /** What stays in a section are the other relas, in order. */
  lemma {:induction false} StayingAre(e: Env, sec: RelaSection, k: nat) returns (at: seq<nat>)
    requires k <= |sec.relas|
    ensures Exactly(at, k, (i: nat) => i < |sec.relas| && !e.need(sec.relas[i]))
    ensures var stay := Staying(e, sec.relas[..k]);
      |at| == |stay| && forall j :: 0 <= j < |at| ==> at[j] < |sec.relas| && stay[j] == sec.relas[at[j]]
  {
    hide DynsIn, Staying, Stripped, Exactly;
    if k == 0 {
      NoRelas(e, sec, []);
      NothingExact((i: nat) => i < |sec.relas| && !e.need(sec.relas[i]));
      return [];
    }
    at := StayingAre(e, sec, k - 1);
    RelaStep(e, sec, k - 1);
    ExactlyMore(at, k - 1, (i: nat) => i < |sec.relas| && !e.need(sec.relas[i]));
    if !e.need(sec.relas[k - 1]) {
      at := at + [k - 1];
    }
  }

  /** Removed are the symbols from other objects that needed relas refer to. */
  lemma {:induction false} StrippedAre(e: Env, relas: seq<Rela>, y: Symbol)
    ensures y in Stripped(e, relas) <==> StripsIn(e, relas, y)
  {
    if relas != [] {
      StrippedAre(e, relas[..|relas| - 1], y);
      assert forall i :: 0 <= i < |relas| - 1 ==> relas[..|relas| - 1][i] == relas[i];
    }
  }

  /** What is left of a section: the relas that are not needed, in order. */
  ghost predicate Left(e: Env, sec: RelaSection, rest: RelaSection) {
    if Skipped(sec) then rest == sec
    else rest == sec.(relas := rest.relas) && exists at: seq<nat> :: Spared(e, sec, at, rest.relas)
  }

  ghost predicate Spared(e: Env, sec: RelaSection, at: seq<nat>, some: seq<Rela>) {
    && Exactly(at, |sec.relas|, (i: nat) => i < |sec.relas| && !e.need(sec.relas[i]))
    && Subsequence(at, sec.relas, some)
  }

  ghost predicate Subsequence(at: seq<nat>, relas: seq<Rela>, some: seq<Rela>) {
    |at| == |some| && forall j :: 0 <= j < |at| ==> at[j] < |relas| && some[j] == relas[at[j]]
  }

  lemma {:induction false} RemainingAre(e: Env, secs: seq<RelaSection>, n: nat)
    requires n <= |secs|
    ensures var rest := Remaining(e, secs[..n]); |rest| == n && forall k :: 0 <= k < n ==> Left(e, secs[k], rest[k])
  {
    hide AllDyns, DynsIn, Remaining, AllStripped, Staying, Stripped, Skipped, Exactly, Left;
    if n == 0 {
      NoSections(e, secs, Image([], [], [], [], []));
    } else {
      RemainingAre(e, secs, n - 1);
      SectionStep(e, secs, n - 1);
      LeftIs(e, secs[n - 1]);
    }
  }

  lemma LeftIs(e: Env, sec: RelaSection)
    ensures Left(e, sec, if Skipped(sec) then sec else sec.(relas := Staying(e, sec.relas)))
  {
    hide Skipped, Exactly, Staying;
    var at := StayingAre(e, sec, |sec.relas|);
    assert sec.relas[..|sec.relas|] == sec.relas;
    assert Spared(e, sec, at, Staying(e, sec.relas));
  }

  lemma {:induction false} AllStrippedAre(e: Env, secs: seq<RelaSection>, y: Symbol)
    ensures y in AllStripped(e, secs) <==> Strips(e, secs, y)
  {
    hide Skipped, Stripped;
    if secs != [] {
      var n := |secs| - 1;
      AllStrippedAre(e, secs[..n], y);
      StrippedAre(e, secs[n].relas, y);
      assert forall k :: 0 <= k < n ==> secs[..n][k] == secs[k];
    }
  }

  /** Some needed rela refers to the symbol, which is of another object. */
  ghost predicate Strips(e: Env, secs: seq<RelaSection>, y: Symbol) {
    exists k :: 0 <= k < |secs| && !Skipped(secs[k]) && StripsIn(e, secs[k].relas, y)
  }

  ghost predicate StripsIn(e: Env, relas: seq<Rela>, y: Symbol) {
    exists i :: 0 <= i < |relas| && e.need(relas[i]) && !relas[i].sym.hasSec && relas[i].sym == y
  }
}
