/** Turning the kpatch tables into klp relocation sections and symbols:
    create_klp_relasecs_and_syms of src/kpatch/kpatch-build/create-klp-module.c. */
module KlpModule {
  import opened Common
  import opened Seqs
  import opened KpatchStrings
  import opened Dynrelas

  datatype KlpRela = KlpRela(offset: int, relaType: nat, sym: string, addend: int)
  datatype KlpSection = KlpSection(name: string, base: nat, relas: seq<KlpRela>)
  datatype KlpSymbol = KlpSymbol(name: string, symType: nat, bind: nat)

  // -------------------------------------------------------------------- finding table relas

  /** `find_rela_by_offset`: the first rela at an offset. */
  method FindRela(relas: seq<TRela>, offset: nat, ghost i: nat) returns (r: Option<TRela>)
    ensures r.None? <==> forall j :: 0 <= j < |relas| ==> relas[j].offset != offset
    ensures i < |relas| && IsFirst(relas, i, offset) ==> r == Some(relas[i])
  {
    for k := 0 to |relas|
      invariant forall j :: 0 <= j < k ==> relas[j].offset != offset
    {
      if relas[k].offset == offset {
        assert IsFirst(relas, k, offset);
        return Some(relas[k]);
      }
    }
    return None;
  }

  ghost predicate IsFirst(relas: seq<TRela>, j: nat, offset: nat)
    requires j < |relas|
  {
    relas[j].offset == offset && forall i :: 0 <= i < j ==> relas[i].offset != offset
  }

  /** Where the m-th rela of .kpatch.relocations points. */
  ghost function RelaOffset(m: nat): nat {
    RELA_SIZE * (m / 3) + (if m % 3 == 0 then RELA_DEST else if m % 3 == 1 then RELA_OBJNAME else RELA_KSYM)
  }

  ghost function SymOffset(m: nat): nat {
    SYM_SIZE * (m / 2) + (if m % 2 == 0 then SYM_NAME else SYM_OBJNAME)
  }

  lemma OffsetsDiffer(m: nat, n: nat)
    ensures RelaOffset(m) == RelaOffset(n) ==> m == n
    ensures SymOffset(m) == SymOffset(n) ==> m == n
  {
  }

  lemma OffsetsAre(m: Image, dyns: seq<Dyn>, objname: string)
    requires Encodes(m, dyns, objname)
    ensures forall j :: 0 <= j < |m.krelaRelas| ==> m.krelaRelas[j].offset == RelaOffset(j)
    ensures forall j :: 0 <= j < |m.ksymRelas| ==> m.ksymRelas[j].offset == SymOffset(j)
  {
    hide LiesAt;
    forall j | 0 <= j < |m.krelaRelas| ensures m.krelaRelas[j].offset == RelaOffset(j) {
      var i := j / 3;
      assert EntryAt(m, i, dyns[i], objname);
      assert j == 3 * i || j == 3 * i + 1 || j == 3 * i + 2;
    }
    forall j | 0 <= j < |m.ksymRelas| ensures m.ksymRelas[j].offset == SymOffset(j) {
      var i := j / 2;
      assert EntryAt(m, i, dyns[i], objname);
      assert j == 2 * i || j == 2 * i + 1;
    }
  }

  lemma RelaFirst(relas: seq<TRela>, i: nat)
    requires i < |relas| && forall j :: 0 <= j < |relas| ==> relas[j].offset == RelaOffset(j)
    ensures IsFirst(relas, i, RelaOffset(i))
  {
    forall j | 0 <= j < i ensures relas[j].offset != RelaOffset(i) {
      OffsetsDiffer(i, j);
    }
  }

  lemma SymFirst(relas: seq<TRela>, i: nat)
    requires i < |relas| && forall j :: 0 <= j < |relas| ==> relas[j].offset == SymOffset(j)
    ensures IsFirst(relas, i, SymOffset(i))
  {
    forall j | 0 <= j < i ensures relas[j].offset != SymOffset(i) {
      OffsetsDiffer(i, j);
    }
  }

  // ------------------------------------------------------------------------ reading an entry

  /** The pointer at an offset, as a string. */
  method ReadName(relas: seq<TRela>, offset: nat, blob: string, ghost i: nat) returns (r: Option<string>)
    ensures r.Some? ==> exists j :: 0 <= j < |relas| && relas[j].offset == offset
    ensures i < |relas| && IsFirst(relas, i, offset) && relas[i].addend >= 0 ==> r == Some(CStr(blob, relas[i].addend))
  {
    var found := FindRela(relas, offset, i);
    if found.None? || found.value.addend < 0 {
      return None;
    }
    return Some(CStr(blob, found.value.addend));
  }

  /** What one entry of the tables says. */
  datatype Entry = Entry(base: nat, offset: int, relaType: nat, addend: int, own: string, sym: string, symType: nat,
                         bind: nat)

  ghost function EntryFor(d: Dyn, objname: string): Entry {
    Entry(d.base, d.offset, d.relaType, d.addend, objname, SymName(d.obj, d.name, d.sympos), d.symType, d.bind)
  }

  /** The symbol at an offset of .kpatch.symbols; None where the source stops with an error. */
  method ReadSym(m: Image, blob: string, offset: nat, ghost dyns: seq<Dyn>, ghost objname: string,
                 ghost i: nat) returns (r: Option<KlpSymbol>)
    ensures Encodes(m, dyns, objname) && blob == Blob(m.strings) && i < |dyns| && offset == SYM_SIZE * i ==>
      r == Some(KlpSymbol(SymName(dyns[i].obj, dyns[i].name, dyns[i].sympos), dyns[i].symType, dyns[i].bind))
  {
    if Encodes(m, dyns, objname) && blob == Blob(m.strings) && i < |dyns| && offset == SYM_SIZE * i {
      SymIsThere(m, dyns, objname, i);
    }
    hide Encodes, Blob, CStr, SymName, IsFirst;
    var index := offset / SYM_SIZE;
    var name := ReadName(m.ksymRelas, offset + SYM_NAME, blob, 2 * i);
    var obj := ReadName(m.ksymRelas, offset + SYM_OBJNAME, blob, 2 * i + 1);
    if name.None? || obj.None? || index >= |m.ksyms| {
      return None;
    }
    var k := m.ksyms[index];
    return Some(KlpSymbol(SymName(obj.value, name.value, k.sympos), k.symType, k.bind));
  }

  lemma SymIsThere(m: Image, dyns: seq<Dyn>, objname: string, i: nat)
    requires Encodes(m, dyns, objname) && i < |dyns|
    ensures i < |m.ksyms| && 2 * i + 1 < |m.ksymRelas|
    ensures m.ksymRelas[2 * i].addend >= 0 && m.ksymRelas[2 * i + 1].addend >= 0
    ensures m.ksyms[i].sympos == dyns[i].sympos
    ensures m.ksyms[i].symType == dyns[i].symType && m.ksyms[i].bind == dyns[i].bind
    ensures IsFirst(m.ksymRelas, 2 * i, SYM_SIZE * i + SYM_NAME)
    ensures IsFirst(m.ksymRelas, 2 * i + 1, SYM_SIZE * i + SYM_OBJNAME)
    ensures CStr(Blob(m.strings), m.ksymRelas[2 * i].addend) == dyns[i].name
    ensures CStr(Blob(m.strings), m.ksymRelas[2 * i + 1].addend) == dyns[i].obj
  {
    assert EntryAt(m, i, dyns[i], objname);
    OffsetsAre(m, dyns, objname);
    SymFirst(m.ksymRelas, 2 * i);
    SymFirst(m.ksymRelas, 2 * i + 1);
    ReadBack(m.strings, m.ksymRelas[2 * i].addend, dyns[i].name);
    ReadBack(m.strings, m.ksymRelas[2 * i + 1].addend, dyns[i].obj);
  }

  lemma RelaIsThere(m: Image, dyns: seq<Dyn>, objname: string, i: nat)
    requires Encodes(m, dyns, objname) && i < |dyns|
    ensures i < |m.krelas| && 3 * i + 2 < |m.krelaRelas| && m.krelaRelas[3 * i + 1].addend >= 0
    ensures m.krelas[i].addend == dyns[i].addend && m.krelas[i].relaType == dyns[i].relaType
    ensures m.krelaRelas[3 * i].target == SecSym(dyns[i].base) && m.krelaRelas[3 * i].addend == dyns[i].offset
    ensures m.krelaRelas[3 * i + 2].addend == SYM_SIZE * i
    ensures IsFirst(m.krelaRelas, 3 * i, RELA_SIZE * i + RELA_DEST)
    ensures IsFirst(m.krelaRelas, 3 * i + 1, RELA_SIZE * i + RELA_OBJNAME)
    ensures IsFirst(m.krelaRelas, 3 * i + 2, RELA_SIZE * i + RELA_KSYM)
    ensures CStr(Blob(m.strings), m.krelaRelas[3 * i + 1].addend) == objname
  {
    assert EntryAt(m, i, dyns[i], objname);
    OffsetsAre(m, dyns, objname);
    RelaFirst(m.krelaRelas, 3 * i);
    RelaFirst(m.krelaRelas, 3 * i + 1);
    RelaFirst(m.krelaRelas, 3 * i + 2);
    ReadBack(m.strings, m.krelaRelas[3 * i + 1].addend, objname);
  }

  /** One entry; None where the source stops with an error. */
  method ReadEntry(m: Image, blob: string, i: nat, ghost dyns: seq<Dyn>, ghost objname: string)
    returns (r: Option<Entry>)
    requires i < |m.krelas|
    ensures Encodes(m, dyns, objname) && blob == Blob(m.strings) ==> i < |dyns| && r == Some(EntryFor(dyns[i], objname))
  {
    hide Encodes, Decoded, Tidy, Typed, Named, Blob, HasSym, HasRela, SymName,
         SecName, NamesFit, LocalsFirst, LocalAtFront;
    ghost var good := Encodes(m, dyns, objname) && blob == Blob(m.strings);
    if good {
      Sizes(m, dyns, objname);
      RelaIsThere(m, dyns, objname, i);
    }
    hide Encodes, Blob, CStr, SymName, IsFirst;
    var offset := RELA_SIZE * i;
    var dest := FindRela(m.krelaRelas, offset + RELA_DEST, 3 * i);
    var own := ReadName(m.krelaRelas, offset + RELA_OBJNAME, blob, 3 * i + 1);
    var ksym := FindRela(m.krelaRelas, offset + RELA_KSYM, 3 * i + 2);
    if dest.None? || own.None? || ksym.None? || !dest.value.target.SecSym? || ksym.value.addend < 0 {
      return None;
    }
    var sym := ReadSym(m, blob, ksym.value.addend, dyns, objname, i);
    if sym.None? {
      return None;
    }
    return Some(Entry(dest.value.target.base, dest.value.addend, m.krelas[i].relaType, m.krelas[i].addend, own.value,
                      sym.value.name, sym.value.symType, sym.value.bind));
  }

  // --------------------------------------------------------------------- symbols and sections

  ghost function Names(symbols: seq<KlpSymbol>): seq<string> {
    seq(|symbols|, k requires 0 <= k < |symbols| => symbols[k].name)
  }

  /** How many symbols have a name. */
  ghost function Named(symbols: seq<KlpSymbol>, n: string): nat { Count(Names(symbols), n) }

  lemma NamedNone(symbols: seq<KlpSymbol>, n: string)
    ensures Named(symbols, n) == 0 <==> forall k :: 0 <= k < |symbols| ==> symbols[k].name != n
  {
    CountSome(Names(symbols), n);
    assert forall k :: 0 <= k < |symbols| ==> Names(symbols)[k] == symbols[k].name;
  }

  lemma NamedInsert(symbols: seq<KlpSymbol>, at: nat, y: KlpSymbol, n: string)
    requires at <= |symbols|
    ensures Named(symbols[..at] + [y] + symbols[at..], n) == Named(symbols, n) + (if y.name == n then 1 else 0)
  {
    var a, b := Names(symbols[..at]), Names(symbols[at..]);
    assert Names(symbols[..at] + [y] + symbols[at..]) == a + [y.name] + b;
    assert Names(symbols) == a + b;
    CountConcat(a + [y.name], b, n);
    CountConcat(a, b, n);
    CountMore(a, y.name, n);
  }

  const STB_LOCAL: nat := 0

  /** Local symbols come before all others. */
  ghost predicate LocalsFirst(symbols: seq<KlpSymbol>) {
    forall i, j :: 0 <= i < j < |symbols| && symbols[j].bind == STB_LOCAL ==> symbols[i].bind == STB_LOCAL
  }

  ghost predicate LocalAtFront(symbols: seq<KlpSymbol>) { symbols != [] && symbols[0].bind == STB_LOCAL }

  /** A local symbol goes before the last of the local ones at the front if there are any,
      everything else to the end. */
  ghost predicate PlaceFor(symbols: seq<KlpSymbol>, bind: nat, at: nat) {
    if bind == STB_LOCAL && LocalAtFront(symbols)
    then at < |symbols| && (forall i :: 0 <= i <= at ==> symbols[i].bind == STB_LOCAL) &&
      (at + 1 == |symbols| || symbols[at + 1].bind != STB_LOCAL)
    else at == |symbols|
  }

  ghost predicate Inserted(symbols: seq<KlpSymbol>, y: KlpSymbol, all: seq<KlpSymbol>) {
    exists at: nat :: PlaceFor(symbols, y.bind, at) && all == symbols[..at] + [y] + symbols[at..]
  }

  /** A new symbol keeps local symbols in front, unless it is local and the first one is not. */
  lemma SymbolAdded(symbols: seq<KlpSymbol>, at: nat, y: KlpSymbol)
    requires PlaceFor(symbols, y.bind, at)
    ensures var all := symbols[..at] + [y] + symbols[at..];
      && (LocalsFirst(all) <==>
           LocalsFirst(symbols) && (y.bind == STB_LOCAL ==> symbols == [] || LocalAtFront(symbols)))
      && (LocalAtFront(symbols) ==> LocalAtFront(all))
  {
    var all := symbols[..at] + [y] + symbols[at..];
    assert forall i :: 0 <= i < at ==> all[i] == symbols[i];
    assert forall i :: at <= i < |symbols| ==> all[i + 1] == symbols[i];
    assert all[at] == y;
    if LocalsFirst(all) {
      forall i, j | 0 <= i < j < |symbols| && symbols[j].bind == STB_LOCAL ensures symbols[i].bind == STB_LOCAL {
        var i', j' := if i < at then i else i + 1, if j < at then j else j + 1;
        assert all[i'] == symbols[i] && all[j'] == symbols[j];
      }
    }
  }

  /** The relas of the section with a name. */
  ghost function RelasOf(sections: seq<KlpSection>, n: string): seq<KlpRela> {
    if sections == [] then [] else if sections[0].name == n then sections[0].relas else RelasOf(sections[1..], n)
  }

  ghost function BaseOf(sections: seq<KlpSection>, n: string): Option<nat> {
    if sections == [] then None else if sections[0].name == n then Some(sections[0].base) else BaseOf(sections[1..], n)
  }

  lemma {:induction false} NoSection(sections: seq<KlpSection>, n: string)
    requires forall k :: 0 <= k < |sections| ==> sections[k].name != n
    ensures RelasOf(sections, n) == [] && BaseOf(sections, n) == None
  {
    if sections != [] {
      NoSection(sections[1..], n);
    }
  }

  /** A section added at the end counts only for a name that had none. */
  lemma {:induction false} SectionAdded(sections: seq<KlpSection>, s: KlpSection, n: string)
    requires s.relas == []
    ensures RelasOf(sections + [s], n) == RelasOf(sections, n)
    ensures BaseOf(sections + [s], n)
         == if n == s.name && BaseOf(sections, n).None? then Some(s.base) else BaseOf(sections, n)
  {
    if sections != [] {
      assert (sections + [s])[1..] == sections[1..] + [s];
      SectionAdded(sections[1..], s, n);
    } else {
      assert [s][1..] == [];
      assert sections + [s] == [s];
    }
  }

  lemma {:induction false} RelaAdded(sections: seq<KlpSection>, k: nat, r: KlpRela, n: string)
    requires k < |sections| && forall j :: 0 <= j < k ==> sections[j].name != sections[k].name
    ensures var secs := sections[k := sections[k].(relas := sections[k].relas + [r])];
      && RelasOf(secs, n) == (if n == sections[k].name then RelasOf(sections, n) + [r] else RelasOf(sections, n))
      && BaseOf(secs, n) == BaseOf(sections, n)
  {
    var secs := sections[k := sections[k].(relas := sections[k].relas + [r])];
    if k > 0 {
      assert secs[1..] == sections[1..][k - 1 := sections[k].(relas := sections[k].relas + [r])];
      RelaAdded(sections[1..], k - 1, r, n);
    } else {
      assert secs[1..] == sections[1..];
    }
  }

  /** There is a symbol of that name, a new one only if there was none. */
  ghost predicate HasSym(symbols: seq<KlpSymbol>, symbols': seq<KlpSymbol>, name: string) {
    forall n {:trigger Named(symbols', n)} ::
      Named(symbols', n) == (if n == name && Named(symbols, n) == 0 then 1 else Named(symbols, n))
  }

  /** The section of that name has one more rela, and if it is new the given base. */
  ghost predicate HasRela(sections: seq<KlpSection>, sections': seq<KlpSection>, base: nat, name: string, r: KlpRela) {
    && (forall n {:trigger RelasOf(sections', n)} ::
         RelasOf(sections', n) == (if n == name then RelasOf(sections, n) + [r] else RelasOf(sections, n)))
    && (forall n {:trigger BaseOf(sections', n)} ::
         BaseOf(sections', n)
         == (if n == name && BaseOf(sections, n).None? then Some(base) else BaseOf(sections, n)))
  }

  const SYM_PREFIX: string := ".klp.sym."
  const SEC_PREFIX: string := ".klp.rela."

  /** No two klp sections have the same name. */
  ghost predicate KlpUnique(sections: seq<KlpSection>) {
    forall i, j :: 0 <= i < j < |sections| && SEC_PREFIX <= sections[j].name ==> sections[i].name != sections[j].name
  }

  lemma StillUnique(sections: seq<KlpSection>, s: KlpSection)
    requires forall j :: 0 <= j < |sections| ==> sections[j].name != s.name
    ensures KlpUnique(sections) ==> KlpUnique(sections + [s])
  {
  }

  /** The object the klp sections and symbols are added to. */
  class Kelf {
    var symbols: seq<KlpSymbol>
    var sections: seq<KlpSection>

    /** `find_or_add_ksym_to_symbols`: afterwards there is a symbol of that name.  A new one leaves
        local symbols before all others unless it is local and the first symbol is not. */
    method FindOrAddSym(name: string, symType: nat, bind: nat)
      modifies this`symbols
      ensures HasSym(old(symbols), symbols, name)
      ensures old(Named(symbols, name)) == 0 ==> KlpSymbol(name, symType, bind) in symbols
      ensures old(Named(symbols, name)) > 0 ==> symbols == old(symbols)
      ensures old(Named(symbols, name)) == 0 ==> Inserted(old(symbols), KlpSymbol(name, symType, bind), symbols)
      ensures forall y :: y in old(symbols) ==> y in symbols
      ensures LocalsFirst(symbols) <==>
        && old(LocalsFirst(symbols))
        && (old(Named(symbols, name)) == 0 && bind == STB_LOCAL ==> old(symbols) == [] || old(LocalAtFront(symbols)))
      ensures old(LocalAtFront(symbols)) ==> LocalAtFront(symbols)
    {
      for k := 0 to |symbols|
        invariant forall j :: 0 <= j < k ==> symbols[j].name != name
      {
        if symbols[k].name == name {
          NamedNone(symbols, name);
          return;
        }
      }
      NamedNone(symbols, name);
      var at := Place(bind);
      ghost var before := symbols;
      var y := KlpSymbol(name, symType, bind);
      forall n ensures Named(before[..at] + [y] + before[at..], n) == Named(before, n) + (if name == n then 1 else 0) {
        NamedInsert(before, at, y, n);
      }
      SymbolAdded(before, at, y);
      symbols := symbols[..at] + [y] + symbols[at..];
    }

    /** Where a new symbol goes: before the last of the local symbols at the front if it is
        local, else at the end. */
    method Place(bind: nat) returns (at: nat)
      ensures PlaceFor(symbols, bind, at)
    {
      at := |symbols|;
      if bind == STB_LOCAL {
        for k := 0 to |symbols|
          invariant k > 0 ==> at == k - 1 && forall i :: 0 <= i <= at ==> symbols[i].bind == STB_LOCAL
          invariant k == 0 ==> at == |symbols|
        {
          if symbols[k].bind != STB_LOCAL {
            break;
          }
          at := k;
        }
      }
    }

    /** `find_or_add_klp_relasec`, then the new rela at the end of that section. */
    method AddRela(base: nat, name: string, r: KlpRela)
      modifies this`sections
      ensures HasRela(old(sections), sections, base, name, r)
      ensures old(KlpUnique(sections)) ==> KlpUnique(sections)
    {
      ghost var before := sections;
      var k := 0;
      while k < |sections| && sections[k].name != name
        invariant k <= |sections| && forall j :: 0 <= j < k ==> sections[j].name != name
      {
        k := k + 1;
      }
      hide RelasOf, BaseOf;
      if k < |sections| {
        HasBase(sections, k);
      } else {
        forall n {
          SectionAdded(before, KlpSection(name, base, []), n);
        }
        StillUnique(before, KlpSection(name, base, []));
        sections := sections + [KlpSection(name, base, [])];
      }
      forall n {
        RelaAdded(sections, k, r, n);
      }
      sections := sections[k := sections[k].(relas := sections[k].relas + [r])];
    }
  }

  lemma {:induction false} HasBase(sections: seq<KlpSection>, k: nat)
    requires k < |sections|
    ensures BaseOf(sections, sections[k].name).Some?
  {
    if k > 0 {
      HasBase(sections[1..], k - 1);
    }
  }

  // ------------------------------------------------------------------------- the whole module

  /** A klp section is the one that is found by its name. */
  lemma {:induction false} FoundSection(sections: seq<KlpSection>, m: nat)
    requires m < |sections| && forall i :: 0 <= i < m ==> sections[i].name != sections[m].name
    ensures RelasOf(sections, sections[m].name) == sections[m].relas
    ensures BaseOf(sections, sections[m].name) == Some(sections[m].base)
  {
    if m > 0 {
      FoundSection(sections[1..], m - 1);
    }
  }

  lemma {:induction false} SectionOf(sections: seq<KlpSection>, n: string) returns (m: nat)
    requires BaseOf(sections, n).Some?
    ensures m < |sections| && sections[m].name == n
  {
    if sections[0].name == n {
      m := 0;
    } else {
      var k := SectionOf(sections[1..], n);
      m := k + 1;
    }
  }

  ghost function KlpName(d: Dyn): string { SymName(d.obj, d.name, d.sympos) }

  ghost function Back(d: Dyn): KlpRela { KlpRela(d.offset, d.relaType, KlpName(d), d.addend) }

  /** The klp relas of one base section, as the relocations demand. */
  ghost function Restored(dyns: seq<Dyn>, baseName: string): seq<KlpRela> {
    if dyns == [] then [] else
    var front, d := Restored(dyns[..|dyns| - 1], baseName), dyns[|dyns| - 1];
    if d.baseName == baseName then front + [Back(d)] else front
  }

  /** Base sections have names, and different ones different names. */
  ghost predicate NamesFit(dyns: seq<Dyn>, secName: nat -> string) {
    && (forall i :: 0 <= i < |dyns| ==> dyns[i].baseName == secName(dyns[i].base))
    && (forall i, j :: 0 <= i < |dyns| && 0 <= j < |dyns| && dyns[i].baseName == dyns[j].baseName ==>
      dyns[i].base == dyns[j].base)
  }

  /** The first i relocations are restored. */
  ghost predicate Decoded(symbols: seq<KlpSymbol>, sections: seq<KlpSection>, dyns: seq<Dyn>, objname: string) {
    && (forall b {:trigger SecName(objname, b)} :: RelasOf(sections, SecName(objname, b)) == Restored(dyns, b))
    && (forall i :: 0 <= i < |dyns| ==> BaseOf(sections, SecName(objname, dyns[i].baseName)) == Some(dyns[i].base))
    && (forall i :: 0 <= i < |dyns| ==> Named(symbols, KlpName(dyns[i])) == 1)
  }

  /** No klp section without a relocation, and no klp symbol twice. */
  ghost predicate Tidy(symbols: seq<KlpSymbol>, sections: seq<KlpSection>, dyns: seq<Dyn>, objname: string) {
    && (forall b {:trigger SecName(objname, b)} :: BaseOf(sections, SecName(objname, b)).Some? ==>
      exists i :: 0 <= i < |dyns| && dyns[i].baseName == b)
    && (forall o, n, p {:trigger SymName(o, n, p)} :: Named(symbols, SymName(o, n, p)) <= 1)
  }

  ghost function SymOf(d: Dyn): KlpSymbol { KlpSymbol(KlpName(d), d.symType, d.bind) }

  /** Some relocation is against a symbol of that name. */
  ghost predicate Known(dyns: seq<Dyn>, name: string) {
    exists j :: 0 <= j < |dyns| && KlpName(dyns[j]) == name
  }

  /** The symbol of relocation i has the type and the binding of the first one against it. */
  ghost predicate TypedAt(symbols: seq<KlpSymbol>, dyns: seq<Dyn>, i: nat)
    requires i < |dyns|
  {
    exists j :: 0 <= j <= i && KlpName(dyns[j]) == KlpName(dyns[i]) && SymOf(dyns[j]) in symbols
  }

  /** All symbols are typed, and there is no klp symbol without a relocation. */
  ghost predicate Typed(symbols: seq<KlpSymbol>, dyns: seq<Dyn>) {
    && (forall i :: 0 <= i < |dyns| ==> TypedAt(symbols, dyns, i))
    && (forall o, n, p {:trigger SymName(o, n, p)} :: Named(symbols, SymName(o, n, p)) > 0 ==>
         Known(dyns, SymName(o, n, p)))
  }

  lemma TypedStep(symbols: seq<KlpSymbol>, dyns: seq<Dyn>, d: Dyn, symbols': seq<KlpSymbol>)
    requires Typed(symbols, dyns) && HasSym(symbols, symbols', KlpName(d))
    requires Named(symbols, KlpName(d)) == 0 ==> SymOf(d) in symbols'
    requires forall y :: y in symbols ==> y in symbols'
    ensures Typed(symbols', dyns + [d])
  {
    hide SymName, Named, Known, TypedAt;
    var all := dyns + [d];
    forall i | 0 <= i < |all| ensures TypedAt(symbols', all, i) {
      if i < |dyns| {
        TypedStill(symbols, symbols', dyns, d, i, i);
      } else if Named(symbols, KlpName(d)) == 0 {
        TypedNew(symbols', dyns, d);
      } else {
        var k := SameName(dyns, KlpName(d));
        TypedStill(symbols, symbols', dyns, d, k, i);
      }
    }
    forall o, n, p | Named(symbols', SymName(o, n, p)) > 0 ensures Known(all, SymName(o, n, p)) {
      KnownStill(dyns, d, SymName(o, n, p));
    }
  }

  lemma TypedStill(symbols: seq<KlpSymbol>, symbols': seq<KlpSymbol>, dyns: seq<Dyn>, d: Dyn, k: nat, i: nat)
    requires k < |dyns| && TypedAt(symbols, dyns, k) && forall y :: y in symbols ==> y in symbols'
    requires k <= i <= |dyns| && KlpName((dyns + [d])[i]) == KlpName(dyns[k])
    ensures TypedAt(symbols', dyns + [d], i)
  {
    hide KlpName, SymOf;
    var j :| 0 <= j <= k && KlpName(dyns[j]) == KlpName(dyns[k]) && SymOf(dyns[j]) in symbols;
    assert (dyns + [d])[j] == dyns[j];
  }

  lemma TypedNew(symbols: seq<KlpSymbol>, dyns: seq<Dyn>, d: Dyn)
    requires SymOf(d) in symbols
    ensures TypedAt(symbols, dyns + [d], |dyns|)
  {
    assert (dyns + [d])[|dyns|] == d;
  }

  lemma KnownStill(dyns: seq<Dyn>, d: Dyn, name: string)
    ensures Known(dyns + [d], name) <==> Known(dyns, name) || KlpName(d) == name
  {
    hide KlpName;
    var all := dyns + [d];
    assert all[|dyns|] == d;
    if Known(dyns, name) {
      var j :| 0 <= j < |dyns| && KlpName(dyns[j]) == name;
      assert all[j] == dyns[j];
    }
  }

  lemma SameName(dyns: seq<Dyn>, name: string) returns (k: nat)
    requires Known(dyns, name)
    ensures k < |dyns| && KlpName(dyns[k]) == name
  {
    k :| 0 <= k < |dyns| && KlpName(dyns[k]) == name;
  }

  lemma NamesFitAt(dyns: seq<Dyn>, secName: nat -> string, i: nat)
    requires NamesFit(dyns, secName) && i < |dyns|
    ensures dyns[..i + 1] == dyns[..i] + [dyns[i]] && NamesFit(dyns[..i] + [dyns[i]], secName)
    ensures dyns[i].baseName == secName(dyns[i].base)
  {
  }

  lemma DecodedStart(symbols: seq<KlpSymbol>, sections: seq<KlpSection>, objname: string)
    requires forall k :: 0 <= k < |sections| ==> !(SEC_PREFIX <= sections[k].name)
    requires forall k :: 0 <= k < |symbols| ==> !(SYM_PREFIX <= symbols[k].name)
    ensures Decoded(symbols, sections, [], objname) && Tidy(symbols, sections, [], objname) && Typed(symbols, [])
  {
    forall b ensures RelasOf(sections, SecName(objname, b)) == [] && BaseOf(sections, SecName(objname, b)) == None {
      assert SEC_PREFIX <= SecName(objname, b);
      NoSection(sections, SecName(objname, b));
    }
    forall o, n, p ensures Named(symbols, SymName(o, n, p)) == 0 {
      assert SYM_PREFIX <= SymName(o, n, p);
      NamedNone(symbols, SymName(o, n, p));
    }
  }

  lemma DecodedStep(symbols: seq<KlpSymbol>, sections: seq<KlpSection>, dyns: seq<Dyn>, d: Dyn, objname: string,
                    symbols': seq<KlpSymbol>, sections': seq<KlpSection>, secName: nat -> string)
    requires Decoded(symbols, sections, dyns, objname) && Tidy(symbols, sections, dyns, objname)
    requires NamesFit(dyns + [d], secName)
    requires HasSym(symbols, symbols', KlpName(d))
    requires HasRela(sections, sections', d.base, SecName(objname, d.baseName), Back(d))
    ensures Decoded(symbols', sections', dyns + [d], objname) && Tidy(symbols', sections', dyns + [d], objname)
  {
    hide SecName, SymName, Named, RelasOf, BaseOf;
    var all := dyns + [d];
    assert all[..|dyns|] == dyns;
    forall b ensures RelasOf(sections', SecName(objname, b)) == Restored(all, b) {
      if SecName(objname, b) == SecName(objname, d.baseName) {
        SecNameInjective(objname, b, d.baseName);
      }
    }
    forall i | 0 <= i < |all| ensures BaseOf(sections', SecName(objname, all[i].baseName)) == Some(all[i].base) {
      StepBase(sections, sections', dyns, d, objname, secName, i, Back(d));
    }
    forall i | 0 <= i < |all| ensures Named(symbols', KlpName(all[i])) == 1 {
      assert Named(symbols, KlpName(all[i])) <= 1;
    }
    forall b | BaseOf(sections', SecName(objname, b)).Some? ensures exists i :: 0 <= i < |all| && all[i].baseName == b {
      if BaseOf(sections, SecName(objname, b)).Some? {
        var i :| 0 <= i < |dyns| && dyns[i].baseName == b;
        assert all[i].baseName == b;
      } else {
        SecNameInjective(objname, b, d.baseName);
        assert all[|dyns|].baseName == b;
      }
    }
  }

  lemma StepBase(sections: seq<KlpSection>, sections': seq<KlpSection>, dyns: seq<Dyn>, d: Dyn, objname: string,
                 secName: nat -> string, i: nat, r: KlpRela)
    requires i <= |dyns| && NamesFit(dyns + [d], secName)
    requires forall j :: 0 <= j < |dyns| ==> BaseOf(sections, SecName(objname, dyns[j].baseName)) == Some(dyns[j].base)
    requires forall b {:trigger SecName(objname, b)} :: BaseOf(sections, SecName(objname, b)).Some? ==>
      exists j :: 0 <= j < |dyns| && dyns[j].baseName == b
    requires HasRela(sections, sections', d.base, SecName(objname, d.baseName), r)
    ensures BaseOf(sections', SecName(objname, (dyns + [d])[i].baseName)) == Some((dyns + [d])[i].base)
  {
    hide SecName, BaseOf;
    var all := dyns + [d];
    if i == |dyns| && BaseOf(sections, SecName(objname, d.baseName)).Some? {
      var j :| 0 <= j < |dyns| && dyns[j].baseName == d.baseName;
      assert all[j].baseName == all[i].baseName;
    }
  }

  /** Every relocation has a symbol and a section whose names read back as its own. */
  ghost predicate Readable(symbols: seq<KlpSymbol>, sections: seq<KlpSection>, d: Dyn, objname: string) {
    && (exists m :: 0 <= m < |symbols| && IsSymName(symbols[m].name, d.obj, d.name, d.sympos))
    && (exists n :: 0 <= n < |sections| && IsSecName(sections[n].name, objname, d.baseName) &&
         sections[n].base == d.base)
  }

  lemma NamesRead(symbols: seq<KlpSymbol>, sections: seq<KlpSection>, dyns: seq<Dyn>, objname: string, i: nat)
    requires Decoded(symbols, sections, dyns, objname) && KlpUnique(sections) && i < |dyns|
    ensures Readable(symbols, sections, dyns[i], objname)
  {
    hide Named, SymName, SecName, IsSymName, IsSecName, RelasOf, BaseOf, Restored;
    var d := dyns[i];
    assert Named(symbols, KlpName(d)) == 1;
    NamedNone(symbols, KlpName(d));
    SymNameReads(d.obj, d.name, d.sympos);
    SecNameReads(objname, d.baseName);
    KlpPrefix(objname, d.baseName);
    var n := SectionOf(sections, SecName(objname, d.baseName));
    FoundSection(sections, n);
  }

  /** `create_klp_relasecs_and_syms`: from tables that stand for dyns, every relocation is restored
      exactly once and in order, in the klp section of its base section, with its offset, type,
      addend and symbol.  Other tables may stop it with an error. */
  method CreateKlp(m: Image, blob: string, kelf: Kelf, secName: nat -> string, ghost dyns: seq<Dyn>,
                   ghost objname: string)
    returns (ok: bool)
    requires forall k :: 0 <= k < |kelf.sections| ==> !(SEC_PREFIX <= kelf.sections[k].name)
    requires forall k :: 0 <= k < |kelf.symbols| ==> !(SYM_PREFIX <= kelf.symbols[k].name)
    modifies kelf
    ensures Encodes(m, dyns, objname) && blob == Blob(m.strings) && NamesFit(dyns, secName) ==>
      && ok && Decoded(kelf.symbols, kelf.sections, dyns, objname) && Typed(kelf.symbols, dyns)
      && Tidy(kelf.symbols, kelf.sections, dyns, objname)
    ensures old(LocalAtFront(kelf.symbols)) ==> (LocalsFirst(kelf.symbols) <==> old(LocalsFirst(kelf.symbols)))
    ensures KlpUnique(kelf.sections)
    ensures Encodes(m, dyns, objname) && blob == Blob(m.strings) && NamesFit(dyns, secName) ==>
      forall i :: 0 <= i < |dyns| ==> Readable(kelf.symbols, kelf.sections, dyns[i], objname)
  {
    hide Readable, KlpUnique, Encodes, Decoded, Tidy, Typed, Named, Blob, HasSym, HasRela, SymName, SecName, NamesFit,
         LocalsFirst, LocalAtFront;
    ghost var good := Encodes(m, dyns, objname) && blob == Blob(m.strings) && NamesFit(dyns, secName);
    DecodedStart(kelf.symbols, kelf.sections, objname);
    NoneKlp(kelf.sections);
    if good {
      Sizes(m, dyns, objname);
    }
    for i := 0 to |m.krelas|
      invariant good ==> i <= |dyns| && Decoded(kelf.symbols, kelf.sections, dyns[..i], objname)
      invariant good ==> Tidy(kelf.symbols, kelf.sections, dyns[..i], objname) && Typed(kelf.symbols, dyns[..i])
      invariant KlpUnique(kelf.sections)
      invariant old(LocalAtFront(kelf.symbols)) ==>
        LocalAtFront(kelf.symbols) && (LocalsFirst(kelf.symbols) <==> old(LocalsFirst(kelf.symbols)))
    {
      var entry := ReadEntry(m, blob, i, dyns, objname);
      if entry.None? {
        return false;
      }
      ghost var symbols, sections := kelf.symbols, kelf.sections;
      var e := entry.value;
      kelf.FindOrAddSym(e.sym, e.symType, e.bind);
      kelf.AddRela(e.base, SecName(e.own, secName(e.base)), KlpRela(e.offset, e.relaType, e.sym, e.addend));
      if good {
        NamesFitAt(dyns, secName, i);
        TypedStep(symbols, dyns[..i], dyns[i], kelf.symbols);
        DecodedStep(symbols, sections, dyns[..i], dyns[i], objname, kelf.symbols, kelf.sections, secName);
      }
    }
    assert good ==> dyns[..|m.krelas|] == dyns;
    if good {
      forall i | 0 <= i < |dyns| ensures Readable(kelf.symbols, kelf.sections, dyns[i], objname) {
        NamesRead(kelf.symbols, kelf.sections, dyns, objname, i);
      }
    }
    ok := true;
  }

  lemma NoneKlp(sections: seq<KlpSection>)
    requires forall k :: 0 <= k < |sections| ==> !(SEC_PREFIX <= sections[k].name)
    ensures KlpUnique(sections)
  {
  }

  // -------------------------------------------------------------------------- there and back

  ghost function BackAll(dyns: seq<Dyn>): seq<KlpRela> {
    if dyns == [] then [] else BackAll(dyns[..|dyns| - 1]) + [Back(dyns[|dyns| - 1])]
  }

  /** Every base section has one rela section and a name of its own. */
  ghost predicate Distinct(secs: seq<RelaSection>, secName: nat -> string) {
    && (forall i :: 0 <= i < |secs| ==> secs[i].baseName == secName(secs[i].base))
    && (forall i, j :: 0 <= i < j < |secs| ==> secs[i].baseName != secs[j].baseName)
  }

  lemma {:induction false} RestoredConcat(a: seq<Dyn>, b: seq<Dyn>, n: string)
    ensures Restored(a + b, n) == Restored(a, n) + Restored(b, n)
    decreases |b|
  {
    hide SymName;
    if b == [] {
      assert a + b == a;
    } else {
      assert (a + b)[..|a + b| - 1] == a + b[..|b| - 1];
      RestoredConcat(a, b[..|b| - 1], n);
    }
  }

  lemma {:induction false} RestoredOwn(dyns: seq<Dyn>, n: string, m: string)
    requires forall i :: 0 <= i < |dyns| ==> dyns[i].baseName == m
    ensures Restored(dyns, n) == if n == m then BackAll(dyns) else []
  {
    hide SymName;
    if dyns != [] {
      RestoredOwn(dyns[..|dyns| - 1], n, m);
    }
  }

  lemma {:induction false} DynsFromSection(e: Env, sec: RelaSection, relas: seq<Rela>)
    ensures forall i :: 0 <= i < |DynsIn(e, sec, relas)| ==>
      DynsIn(e, sec, relas)[i].base == sec.base && DynsIn(e, sec, relas)[i].baseName == sec.baseName
  {
    if relas != [] {
      DynsFromSection(e, sec, relas[..|relas| - 1]);
    }
  }

  /** The relocations of a section among all. */
  lemma {:induction false} OwnDyns(e: Env, secs: seq<RelaSection>, k: nat)
    requires k < |secs| && !Skipped(secs[k])
    requires forall i, j :: 0 <= i < j < |secs| ==> secs[i].baseName != secs[j].baseName
    ensures Restored(AllDyns(e, secs), secs[k].baseName) == BackAll(DynsIn(e, secs[k], secs[k].relas))
  {
    hide Skipped, DynsIn, Restored, BackAll;
    var n := |secs| - 1;
    var front, last, name := secs[..n], secs[n], secs[k].baseName;
    var own := DynsIn(e, last, last.relas);
    DynsFromSection(e, last, last.relas);
    RestoredOwn(own, name, last.baseName);
    RestoredConcat(AllDyns(e, front), own, name);
    if k < n {
      OwnDyns(e, front, k);
      assert last.baseName != name;
      assert Restored(AllDyns(e, front), name) + [] == Restored(AllDyns(e, front), name);
    } else {
      NotIn(e, front, name);
      assert [] + BackAll(own) == BackAll(own);
    }
  }

  lemma {:induction false} NotIn(e: Env, secs: seq<RelaSection>, name: string)
    requires forall i :: 0 <= i < |secs| ==> secs[i].baseName != name
    ensures Restored(AllDyns(e, secs), name) == []
  {
    hide Skipped;
    if secs == [] {
      return;
    }
    var n := |secs| - 1;
    var own := DynsIn(e, secs[n], secs[n].relas);
    NotIn(e, secs[..n], name);
    DynsFromSection(e, secs[n], secs[n].relas);
    RestoredOwn(own, name, secs[n].baseName);
    RestoredConcat(AllDyns(e, secs[..n]), own, name);
  }

  lemma {:induction false} DynOrigin(e: Env, secs: seq<RelaSection>, i: nat) returns (k: nat)
    requires i < |AllDyns(e, secs)|
    ensures k < |secs| && AllDyns(e, secs)[i].base == secs[k].base && AllDyns(e, secs)[i].baseName == secs[k].baseName
  {
    var n := |secs| - 1;
    var front := AllDyns(e, secs[..n]);
    DynsFromSection(e, secs[n], secs[n].relas);
    if i < |front| {
      k := DynOrigin(e, secs[..n], i);
    } else {
      k := n;
    }
  }

  lemma AllNamesFit(e: Env, secs: seq<RelaSection>, secName: nat -> string)
    requires Distinct(secs, secName)
    ensures NamesFit(AllDyns(e, secs), secName)
  {
    var dyns := AllDyns(e, secs);
    forall i | 0 <= i < |dyns| ensures dyns[i].baseName == secName(dyns[i].base) {
      var k := DynOrigin(e, secs, i);
    }
    forall i, j | 0 <= i < |dyns| && 0 <= j < |dyns| && dyns[i].baseName == dyns[j].baseName
      ensures dyns[i].base == dyns[j].base
    {
      var k := DynOrigin(e, secs, i);
      var l := DynOrigin(e, secs, j);
      assert k == l || k < l || l < k;
    }
  }

  /** A klp rela brings a rela of the object: to the same offset, with its type and addend, against
      the klp symbol of the symbol that the symbol table knows by its name. */
  ghost predicate Brings(e: Env, r: Rela, k: KlpRela) {
    var f := e.lookup(r.sym.name);
    && f.Some? && k.offset == r.offset && k.relaType == r.relaType && k.addend == r.addend
    && IsSymName(k.sym, f.value.objname, r.sym.name, f.value.sympos)
  }

  ghost predicate BringsAt(e: Env, relas: seq<Rela>, at: seq<nat>, klp: seq<KlpRela>) {
    |klp| == |at| && forall j :: 0 <= j < |at| ==> at[j] < |relas| && Brings(e, relas[at[j]], klp[j])
  }

  /** Exactly the needed relas, in order. */
  ghost predicate BringsAll(e: Env, relas: seq<Rela>, klp: seq<KlpRela>) {
    exists at: seq<nat> :: Exactly(at, |relas|, NeedAt(e, relas)) && BringsAt(e, relas, at, klp)
  }

  ghost predicate IsFor(e: Env, sec: RelaSection, s: KlpSection) { IsSecName(s.name, e.objname, sec.baseName) }

  /** There is a klp section for a section with needed relas, and only for such, it is the only
      one, and it brings them. */
  ghost predicate SectionBrought(e: Env, sec: RelaSection, sections: seq<KlpSection>) {
    && (forall m :: 0 <= m < |sections| && IsFor(e, sec, sections[m]) ==>
         sections[m].base == sec.base && BringsAll(e, sec.relas, sections[m].relas))
    && (forall m, n :: 0 <= m < n < |sections| && IsFor(e, sec, sections[m]) ==> !IsFor(e, sec, sections[n]))
    && ((exists m :: 0 <= m < |sections| && IsFor(e, sec, sections[m])) <==> NeedsSome(e, sec.relas))
  }

  ghost predicate NeedsSome(e: Env, relas: seq<Rela>) {
    exists i :: 0 <= i < |relas| && e.need(relas[i])
  }

  lemma {:induction false} BackAllAt(dyns: seq<Dyn>, j: nat)
    requires j < |dyns|
    ensures |BackAll(dyns)| == |dyns| && BackAll(dyns)[j] == Back(dyns[j])
    decreases |dyns|
  {
    hide Back;
    var n := |dyns| - 1;
    if n > 0 {
      BackAllAt(dyns[..n], if j < n then j else 0);
    }
  }

  lemma RelasBrought(e: Env, sec: RelaSection)
    requires !SectionFails(e, sec, sec.relas)
    ensures BringsAll(e, sec.relas, BackAll(DynsIn(e, sec, sec.relas)))
    ensures DynsIn(e, sec, sec.relas) != [] <==> NeedsSome(e, sec.relas)
  {
    hide DynsIn, BackAll, SectionFails;
    var at := DynsAre(e, sec, |sec.relas|);
    assert sec.relas[..|sec.relas|] == sec.relas;
    var dyns := DynsIn(e, sec, sec.relas);
    var klp := BackAll(dyns);
    NoneBack();
    if at != [] {
      BackAllAt(dyns, 0);
      assert e.need(sec.relas[at[0]]);
    }
    forall j | 0 <= j < |at| ensures |klp| == |at| && at[j] < |sec.relas| && Brings(e, sec.relas[at[j]], klp[j]) {
      BackAllAt(dyns, j);
      SymNameReads(dyns[j].obj, dyns[j].name, dyns[j].sympos);
    }
    assert BringsAt(e, sec.relas, at, klp);
    if i :| 0 <= i < |sec.relas| && e.need(sec.relas[i]) {
      assert NeedAt(e, sec.relas)(i);
    }
  }

  lemma NoneBack()
    ensures BackAll([]) == []
  {
  }

  /** The section of a name holds what Restored says, directly. */
  lemma SectionIs(e: Env, secs: seq<RelaSection>, k: nat, symbols: seq<KlpSymbol>, sections: seq<KlpSection>,
                  secName: nat -> string)
    requires k < |secs| && !Skipped(secs[k]) && Distinct(secs, secName) && !SomeFails(e, secs) && KlpUnique(sections)
    requires Decoded(symbols, sections, AllDyns(e, secs), e.objname)
    requires Tidy(symbols, sections, AllDyns(e, secs), e.objname)
    ensures SectionBrought(e, secs[k], sections)
  {
    hide AllDyns, DynsIn, BackAll, Restored, IsSecName, SectionFails, Named, BringsAll, NeedsSome, SecName, SymName;
    var sec, dyns := secs[k], AllDyns(e, secs);
    var name := SecName(e.objname, sec.baseName);
    NotFailing(e, secs, k);
    RelasBrought(e, sec);
    OwnDyns(e, secs, k);
    KlpPrefix(e.objname, sec.baseName);
    SecNameReads(e.objname, sec.baseName);
    forall m | 0 <= m < |sections| && IsFor(e, sec, sections[m])
      ensures sections[m].name == name && RelasOf(sections, name) == sections[m].relas
      ensures BaseOf(sections, name) == Some(sections[m].base)
    {
      OneSecName(sections[m].name, e.objname, sec.baseName);
      FoundSection(sections, m);
    }
    OwnBase(e, secs, k, symbols, sections, secName);
    if BaseOf(sections, name).Some? {
      var m := SectionOf(sections, name);
      assert IsFor(e, sec, sections[m]);
    }
  }

  lemma KlpPrefix(obj: string, sec: string)
    ensures SEC_PREFIX <= SecName(obj, sec)
  {
  }

  /** Relocations of a base section exist if and only if some are restored in it. */
  lemma {:induction false} RestoredSome(dyns: seq<Dyn>, b: string)
    ensures Restored(dyns, b) != [] <==> exists i :: 0 <= i < |dyns| && dyns[i].baseName == b
  {
    hide Back;
    if dyns != [] {
      RestoredSome(dyns[..|dyns| - 1], b);
      assert forall i :: 0 <= i < |dyns| - 1 ==> dyns[..|dyns| - 1][i] == dyns[i];
    }
  }

  lemma BackSome(dyns: seq<Dyn>)
    ensures BackAll(dyns) != [] <==> dyns != []
  {
  }

  lemma OwnBase(e: Env, secs: seq<RelaSection>, k: nat, symbols: seq<KlpSymbol>, sections: seq<KlpSection>,
                secName: nat -> string)
    requires k < |secs| && !Skipped(secs[k]) && Distinct(secs, secName)
    requires Decoded(symbols, sections, AllDyns(e, secs), e.objname)
    requires Tidy(symbols, sections, AllDyns(e, secs), e.objname)
    ensures BaseOf(sections, SecName(e.objname, secs[k].baseName))
         == if DynsIn(e, secs[k], secs[k].relas) != [] then Some(secs[k].base) else None
  {
    hide AllDyns, DynsIn, BackAll, Restored, Named, SecName, SymName, BaseOf, RelasOf, Skipped;
    var dyns, b := AllDyns(e, secs), secs[k].baseName;
    OwnDyns(e, secs, k);
    RestoredSome(dyns, b);
    BackSome(DynsIn(e, secs[k], secs[k].relas));
    if i :| 0 <= i < |dyns| && dyns[i].baseName == b {
      var l := DynOrigin(e, secs, i);
      assert l == k || l < k || k < l;
    }
  }

  /** y is the klp symbol of the symbol that r refers to. */
  ghost predicate IsSymFor(e: Env, r: Rela, y: KlpSymbol) {
    var f := e.lookup(r.sym.name);
    f.Some? && IsSymName(y.name, f.value.objname, r.sym.name, f.value.sympos)
  }

  ghost predicate IsNeeded(e: Env, secs: seq<RelaSection>, k: nat, i: nat) {
    k < |secs| && !Skipped(secs[k]) && NeedAt(e, secs[k].relas)(i)
  }

  /** Some needed rela is against y and gives it its type and binding. */
  ghost predicate IsTyped(e: Env, secs: seq<RelaSection>, y: KlpSymbol) {
    exists k: nat, i: nat :: IsNeeded(e, secs, k, i) &&
      var r := secs[k].relas[i];
      IsSymFor(e, r, y) && y.symType == r.sym.symType && y.bind == r.sym.bind
  }

  /** There is one klp symbol for r, and it is typed. */
  ghost predicate SymbolBrought(e: Env, secs: seq<RelaSection>, symbols: seq<KlpSymbol>, r: Rela) {
    exists m :: 0 <= m < |symbols| && IsSymFor(e, r, symbols[m]) && IsTyped(e, secs, symbols[m]) &&
      forall n :: 0 <= n < |symbols| && IsSymFor(e, r, symbols[n]) ==> n == m
  }

  /** Every needed rela has its klp symbol, and every klp symbol a needed rela. */
  ghost predicate SymbolsBrought(e: Env, secs: seq<RelaSection>, symbols: seq<KlpSymbol>) {
    && (forall k: nat, i: nat :: IsNeeded(e, secs, k, i) ==> SymbolBrought(e, secs, symbols, secs[k].relas[i]))
    && (forall m, o, n, p :: 0 <= m < |symbols| && IsSymName(symbols[m].name, o, n, p) ==>
         exists k: nat, i: nat :: IsNeeded(e, secs, k, i) && IsSymFor(e, secs[k].relas[i], symbols[m]))
  }

  /** The symbol of a relocation that stands for r is the one for r. */
  lemma SaysSym(e: Env, sec: RelaSection, r: Rela, d: Dyn, y: KlpSymbol)
    requires Says(e, sec, r, d)
    ensures IsSymFor(e, r, y) <==> y.name == KlpName(d)
  {
    hide SymName, IsSymName;
    SymNameReads(d.obj, d.name, d.sympos);
    if IsSymFor(e, r, y) {
      OneSymName(y.name, d.obj, d.name, d.sympos);
    }
  }

  lemma OneOfName(symbols: seq<KlpSymbol>, name: string, m: nat, n: nat)
    requires Named(symbols, name) == 1 && m < |symbols| && n < |symbols|
    requires symbols[m].name == name && symbols[n].name == name
    ensures m == n
  {
    hide Count;
    var names := Names(symbols);
    if m < n {
      OnePlace(names, m, n);
    } else if n < m {
      OnePlace(names, n, m);
    }
  }

  lemma SymbolIs(e: Env, secs: seq<RelaSection>, symbols: seq<KlpSymbol>, dyns: seq<Dyn>, ks: seq<nat>, at: seq<nat>,
                 q: nat)
    requires Picks(e, secs, |secs|, ks, at) && AllDescribed(e, secs, ks, at, dyns) && q < |dyns|
    requires TypedAt(symbols, dyns, q) && Named(symbols, KlpName(dyns[q])) == 1
    ensures SymbolBrought(e, secs, symbols, secs[ks[q]].relas[at[q]])
  {
    var j :| 0 <= j <= q && KlpName(dyns[j]) == KlpName(dyns[q]) && SymOf(dyns[j]) in symbols;
    var m :| 0 <= m < |symbols| && symbols[m] == SymOf(dyns[j]);
    assert IsNeeded(e, secs, ks[j], at[j]);
    var r, r' := secs[ks[q]].relas[at[q]], secs[ks[j]].relas[at[j]];
    hide Named, Skipped, KlpName, IsSymFor, Picks;
    SaysSym(e, secs[ks[q]], r, dyns[q], symbols[m]);
    SaysSym(e, secs[ks[j]], r', dyns[j], symbols[m]);
    forall n | 0 <= n < |symbols| && IsSymFor(e, r, symbols[n]) ensures n == m {
      SaysSym(e, secs[ks[q]], r, dyns[q], symbols[n]);
      OneOfName(symbols, KlpName(dyns[q]), m, n);
    }
  }

  lemma SymbolsAre(e: Env, secs: seq<RelaSection>, symbols: seq<KlpSymbol>, sections: seq<KlpSection>)
    requires !SomeFails(e, secs) && Decoded(symbols, sections, AllDyns(e, secs), e.objname)
    requires Typed(symbols, AllDyns(e, secs))
    ensures SymbolsBrought(e, secs, symbols)
  {
    hide AllDyns, Named, TypedAt, SymbolBrought, Skipped, SomeFails, Restored, RelasOf, BaseOf, IsSymFor, IsSymName;
    var ks, at := AllDynsAre(e, secs, |secs|);
    assert secs[..|secs|] == secs;
    var dyns := AllDyns(e, secs);
    forall k: nat, i: nat | IsNeeded(e, secs, k, i) ensures SymbolBrought(e, secs, symbols, secs[k].relas[i]) {
      assert Picked(ks, at, k, i);
      var q :| 0 <= q < |ks| && ks[q] == k && at[q] == i;
      SymbolIs(e, secs, symbols, dyns, ks, at, q);
    }
    forall m, o, n, p | 0 <= m < |symbols| && IsSymName(symbols[m].name, o, n, p)
      ensures exists k: nat, i: nat :: IsNeeded(e, secs, k, i) && IsSymFor(e, secs[k].relas[i], symbols[m])
    {
      OneSymName(symbols[m].name, o, n, p);
      NamedNone(symbols, SymName(o, n, p));
      var q := SameName(dyns, SymName(o, n, p));
      SaysSym(e, secs[ks[q]], secs[ks[q]].relas[at[q]], dyns[q], symbols[m]);
      assert IsNeeded(e, secs, ks[q], at[q]);
    }
  }

  /** Encoding and decoding: for every section with needed relas there is one klp section, which
      brings exactly these relas in order; every one of them has its klp symbol; the other relas
      stay. */
  method ThereAndBack(e: Env, secs: seq<RelaSection>, strings: seq<string>, kelf: Kelf, secName: nat -> string)
    returns (ok: bool, rest: seq<RelaSection>, strip: set<Symbol>)
    requires Proper(e, secs) && Distinct(secs, secName)
    requires forall k :: 0 <= k < |kelf.sections| ==> !(SEC_PREFIX <= kelf.sections[k].name)
    requires forall k :: 0 <= k < |kelf.symbols| ==> !(SYM_PREFIX <= kelf.symbols[k].name)
    modifies kelf
    ensures ok <==> !SomeFails(e, secs)
    ensures ok ==> rest == Remaining(e, secs) && strip == AllStripped(e, secs)
    ensures ok ==> forall k :: 0 <= k < |secs| && !Skipped(secs[k]) ==>
      RelasOf(kelf.sections, SecName(e.objname, secs[k].baseName)) == BackAll(DynsIn(e, secs[k], secs[k].relas))
    ensures ok ==> Decoded(kelf.symbols, kelf.sections, AllDyns(e, secs), e.objname)
    ensures ok ==> Tidy(kelf.symbols, kelf.sections, AllDyns(e, secs), e.objname)
    ensures ok ==> Typed(kelf.symbols, AllDyns(e, secs))
    ensures ok ==> forall k :: 0 <= k < |secs| && !Skipped(secs[k]) ==> SectionBrought(e, secs[k], kelf.sections)
    ensures ok ==> SymbolsBrought(e, secs, kelf.symbols)
    ensures ok ==> |rest| == |secs| && forall k :: 0 <= k < |secs| ==> Left(e, secs[k], rest[k])
    ensures ok ==> forall y :: y in strip <==> Strips(e, secs, y)
    ensures old(LocalAtFront(kelf.symbols)) ==> (LocalsFirst(kelf.symbols) <==> old(LocalsFirst(kelf.symbols)))
  {
    hide SectionBrought, SymbolsBrought, Decoded, Tabled, Left, Strips, KlpUnique, Encodes, Tidy,
         Typed, NamesFit, Distinct, Proper, SomeFails, Skipped, Blob;
    var nr, tables;
    ok, nr, tables, rest, strip := CreateIntermediate(e, secs, strings);
    if !ok {
      return;
    }
    AllNamesFit(e, secs, secName);
    var m := Image(tables.ksyms, tables.ksymRelas, tables.krelas, tables.krelaRelas, tables.strings);
    ok := CreateKlp(m, Blob(tables.strings), kelf, secName, AllDyns(e, secs), e.objname);
    assert ok;
    OwnSections(e, secs, secName, kelf.symbols, kelf.sections);
    forall k | 0 <= k < |secs| && !Skipped(secs[k]) ensures SectionBrought(e, secs[k], kelf.sections) {
      SectionIs(e, secs, k, kelf.symbols, kelf.sections, secName);
    }
    SymbolsAre(e, secs, kelf.symbols, kelf.sections);
  }

  lemma OwnSections(e: Env, secs: seq<RelaSection>, secName: nat -> string, symbols: seq<KlpSymbol>,
                    sections: seq<KlpSection>)
    requires Distinct(secs, secName) && Decoded(symbols, sections, AllDyns(e, secs), e.objname)
    ensures forall k :: 0 <= k < |secs| && !Skipped(secs[k]) ==>
      RelasOf(sections, SecName(e.objname, secs[k].baseName)) == BackAll(DynsIn(e, secs[k], secs[k].relas))
  {
    hide Skipped, AllDyns, DynsIn, BackAll, Restored;
    forall k | 0 <= k < |secs| && !Skipped(secs[k])
      ensures RelasOf(sections, SecName(e.objname, secs[k].baseName)) == BackAll(DynsIn(e, secs[k], secs[k].relas))
    {
      OwnDyns(e, secs, k);
    }
  }
}
