/** Compacting the special sections: kpatch_regenerate_special_section and
    kpatch_update_ex_table_addend of src/kpatch/kpatch-build/create-diff-object.c. */
module SpecialSections {
  import opened Seqs

  newtype Byte = x: int | 0 <= x < 256

  /** A relocation; `stash` is the r_addend of its ELF record. */
  datatype Rela = Rela(sym: nat, offset: nat, addend: int, stash: int)

  /** One pass over a section: its bytes and relas, which symbols are functions in an included
      section, and the group size at an offset, which may depend on the addends of the exception
      table. */
  datatype Pass = Pass(data: seq<Byte>, relas: seq<Rela>, keep: nat -> bool, groupSize: (seq<int>, nat) -> nat,
                       addends: seq<int>)

  ghost predicate Positive(p: Pass) {
    forall o {:trigger p.groupSize(p.addends, o)} :: 0 <= o < |p.data| ==> p.groupSize(p.addends, o) > 0
  }

  /** The size of the group at o, shrunk at the end of the section. */
  function Fit(p: Pass, o: nat): nat
    requires o < |p.data|
  {
    var g := p.groupSize(p.addends, o);
    if o + g > |p.data| then |p.data| - o else g
  }

  predicate InGroup(r: Rela, o: nat, size: nat) { o <= r.offset < o + size }

  /** Some rela of the group refers to an included function. */
  predicate Keeps(relas: seq<Rela>, keep: nat -> bool, o: nat, size: nat) {
    exists k :: 0 <= k < |relas| && InGroup(relas[k], o, size) && keep(relas[k].sym)
  }

  /** The relas of a group, moved by `d` bytes. */
  function Group(relas: seq<Rela>, o: nat, size: nat, d: nat): (r: seq<Rela>)
    requires d <= o
  {
    if relas == [] then [] else
    var front, last := Group(relas[..|relas| - 1], o, size, d), relas[|relas| - 1];
    if InGroup(last, o, size) then front + [last.(offset := last.offset - (o - d))] else front
  }

  /** The relas outside a group. */
  function Others(relas: seq<Rela>, o: nat, size: nat): (r: seq<Rela>) {
    if relas == [] then [] else
    var front, last := Others(relas[..|relas| - 1], o, size), relas[|relas| - 1];
    if InGroup(last, o, size) then front else front + [last]
  }

  // --------------------------------------------------- which bytes are kept, and where they go

  /** Whether the byte x lies in a kept group, looking from the group boundary o on. */
  ghost predicate KeptFrom(p: Pass, o: nat, x: nat)
    requires Positive(p) && o <= |p.data|
    decreases |p.data| - o
  {
    o < |p.data| &&
    var n := Fit(p, o);
    if x < o + n then o <= x && Keeps(p.relas, p.keep, o, n) else KeptFrom(p, o + n, x)
  }

  ghost predicate IsKept(p: Pass, x: nat)
    requires Positive(p)
  {
    KeptFrom(p, 0, x)
  }

  /** The number of kept bytes below x. */
  ghost function Below(p: Pass, x: nat): (r: nat)
    requires Positive(p)
    ensures r <= x
  {
    if x == 0 then 0 else Below(p, x - 1) + (if IsKept(p, x - 1) then 1 else 0)
  }

  /** The kept bytes among the first n. */
  ghost function KeptBytes(p: Pass, n: nat): (r: seq<Byte>)
    requires Positive(p) && n <= |p.data|
    ensures |r| == Below(p, n)
  {
    if n == 0 then [] else KeptBytes(p, n - 1) + (if IsKept(p, n - 1) then [p.data[n - 1]] else [])
  }

  /** A kept byte is found again at the number of kept bytes before it. */
  lemma {:induction false} SameByte(p: Pass, x: nat, n: nat)
    requires Positive(p) && x < n <= |p.data| && IsKept(p, x)
    ensures Below(p, x) < |KeptBytes(p, n)| && KeptBytes(p, n)[Below(p, x)] == p.data[x]
    decreases n
  {
    if x < n - 1 {
      SameByte(p, x, n - 1);
    }
  }

  /** The relas of kept bytes, following their bytes. */
  ghost function Followed(p: Pass, relas: seq<Rela>): (r: seq<Rela>)
    requires Positive(p)
  {
    if relas == [] then [] else
    var front, last := Followed(p, relas[..|relas| - 1]), relas[|relas| - 1];
    if IsKept(p, last.offset) then front + [last.(offset := Below(p, last.offset))] else front
  }

  // ------------------------------------------------------------------------- group boundaries

  /** o is where a group starts, or the end. */
  ghost predicate Boundary(p: Pass, o: nat)
    requires Positive(p)
  {
    o <= |p.data| && forall x :: o <= x ==> IsKept(p, x) == KeptFrom(p, o, x)
  }

  lemma NextBoundary(p: Pass, o: nat)
    requires Positive(p) && Boundary(p, o) && o < |p.data|
    ensures Fit(p, o) > 0 && o + Fit(p, o) <= |p.data| && Boundary(p, o + Fit(p, o))
    ensures forall x :: o <= x < o + Fit(p, o) ==> IsKept(p, x) == Keeps(p.relas, p.keep, o, Fit(p, o))
  {
    assert p.groupSize(p.addends, o) > 0;
    hide IsKept;
    forall x | o + Fit(p, o) <= x ensures IsKept(p, x) == KeptFrom(p, o + Fit(p, o), x) {
      assert IsKept(p, x) == KeptFrom(p, o, x);
    }
  }

  /** In a kept group the kept bytes go on without gaps. */
  lemma {:induction false} BelowInKept(p: Pass, o: nat, x: nat)
    requires Positive(p) && o <= x && forall y :: o <= y < x ==> IsKept(p, y)
    ensures Below(p, x) == Below(p, o) + (x - o)
    decreases x
  {
    if o < x {
      BelowInKept(p, o, x - 1);
    }
  }

  lemma {:induction false} BytesInKept(p: Pass, o: nat, x: nat)
    requires Positive(p) && o <= x <= |p.data| && forall y :: o <= y < x ==> IsKept(p, y)
    ensures KeptBytes(p, x) == KeptBytes(p, o) + p.data[o..x]
    decreases x
  {
    if o < x {
      BytesInKept(p, o, x - 1);
      assert p.data[o..x] == p.data[o..x - 1] + [p.data[x - 1]];
    }
  }

  lemma {:induction false} BytesInDropped(p: Pass, o: nat, x: nat)
    requires Positive(p) && o <= x <= |p.data| && forall y :: o <= y < x ==> !IsKept(p, y)
    ensures KeptBytes(p, x) == KeptBytes(p, o)
    decreases x
  {
    if o < x {
      BytesInDropped(p, o, x - 1);
    }
  }

  // ----------------------------------------------------------------------- the relas of a pass

  /** The relas of kept bytes below o, following their bytes. */
  ghost function FollowedBelow(p: Pass, relas: seq<Rela>, o: nat): (r: seq<Rela>)
    requires Positive(p)
  {
    if relas == [] then [] else
    var front, last := FollowedBelow(p, relas[..|relas| - 1], o), relas[|relas| - 1];
    if last.offset < o && IsKept(p, last.offset) then front + [last.(offset := Below(p, last.offset))] else front
  }

  /** The relas that are not yet moved when the pass has come to o. */
  ghost function Rest(p: Pass, relas: seq<Rela>, o: nat): (r: seq<Rela>)
    requires Positive(p)
  {
    if relas == [] then [] else
    var front, last := Rest(p, relas[..|relas| - 1], o), relas[|relas| - 1];
    if last.offset < o && IsKept(p, last.offset) then front else front + [last]
  }

  lemma {:induction false} RestAtStart(p: Pass, relas: seq<Rela>)
    requires Positive(p)
    ensures Rest(p, relas, 0) == relas && FollowedBelow(p, relas, 0) == []
  {
    if relas != [] {
      RestAtStart(p, relas[..|relas| - 1]);
    }
  }

  lemma {:induction false} AllFollowed(p: Pass, relas: seq<Rela>)
    requires Positive(p) && forall x :: x >= |p.data| ==> !IsKept(p, x)
    ensures FollowedBelow(p, relas, |p.data|) == Followed(p, relas)
  {
    if relas != [] {
      AllFollowed(p, relas[..|relas| - 1]);
    }
  }

  /** Nothing at o or above has been moved. */
  lemma {:induction false} RestHas(p: Pass, relas: seq<Rela>, o: nat, size: nat, d: nat)
    requires Positive(p) && d <= o
    ensures Group(Rest(p, relas, o), o, size, d) == Group(relas, o, size, d)
    ensures Keeps(Rest(p, relas, o), p.keep, o, size) <==> Keeps(relas, p.keep, o, size)
  {
    if relas == [] {
      return;
    }
    hide IsKept, Keeps;
    var front, last := relas[..|relas| - 1], relas[|relas| - 1];
    RestHas(p, front, o, size, d);
    assert relas == front + [last];
    KeepsAppend(front, p.keep, o, size, last);
    if !(last.offset < o && IsKept(p, last.offset)) {
      KeepsAppend(Rest(p, front, o), p.keep, o, size, last);
      assert (Rest(p, front, o) + [last])[..|Rest(p, front, o)|] == Rest(p, front, o);
    }
  }

  lemma KeepsAppend(relas: seq<Rela>, keep: nat -> bool, o: nat, size: nat, last: Rela)
    ensures Keeps(relas + [last], keep, o, size) <==>
      Keeps(relas, keep, o, size) || (InGroup(last, o, size) && keep(last.sym))
  {
    var all := relas + [last];
    if Keeps(relas, keep, o, size) {
      var k :| 0 <= k < |relas| && InGroup(relas[k], o, size) && keep(relas[k].sym);
      assert InGroup(all[k], o, size) && keep(all[k].sym);
    }
    if InGroup(last, o, size) && keep(last.sym) {
      assert InGroup(all[|relas|], o, size) && keep(all[|relas|].sym);
    }
  }

  /** Moving the relas of a kept group. */
  lemma {:induction false} RestMoved(p: Pass, relas: seq<Rela>, o: nat, size: nat)
    requires Positive(p) && forall y :: o <= y < o + size ==> IsKept(p, y)
    ensures Others(Rest(p, relas, o), o, size) == Rest(p, relas, o + size)
  {
    hide IsKept;
    if relas != [] {
      var front, last := relas[..|relas| - 1], relas[|relas| - 1];
      RestMoved(p, front, o, size);
      if !(last.offset < o && IsKept(p, last.offset)) {
        assert (Rest(p, front, o) + [last])[..|Rest(p, front, o)|] == Rest(p, front, o);
      }
    }
  }

  lemma {:induction false} FollowedMoved(p: Pass, relas: seq<Rela>, o: nat, size: nat, x: Rela)
    requires Positive(p) && forall y :: o <= y < o + size ==> IsKept(p, y)
    ensures Count(FollowedBelow(p, relas, o + size), x)
         == Count(FollowedBelow(p, relas, o), x) + Count(Group(relas, o, size, Below(p, o)), x)
  {
    hide IsKept, Below, Count, FollowedBelow, Group;
    if relas == [] {
      NoneFollowed(p, o, size);
      return;
    }
    var front, last := relas[..|relas| - 1], relas[|relas| - 1];
    FollowedMoved(p, front, o, size, x);
    FollowedStep(p, relas, o);
    FollowedStep(p, relas, o + size);
    GroupLast(relas, o, size, Below(p, o));
    if InGroup(last, o, size) {
      BelowInKept(p, o, last.offset);
    }
    var m := last.(offset := Below(p, last.offset));
    CountMore(FollowedBelow(p, front, o + size), m, x);
    CountMore(FollowedBelow(p, front, o), m, x);
    CountMore(Group(front, o, size, Below(p, o)), m, x);
  }

  lemma NoneFollowed(p: Pass, o: nat, size: nat)
    requires Positive(p)
    ensures FollowedBelow(p, [], o) == FollowedBelow(p, [], o + size) == Group([], o, size, Below(p, o)) == []
    ensures forall x: Rela :: Count([], x) == 0
  {
  }

  lemma FollowedStep(p: Pass, relas: seq<Rela>, o: nat)
    requires Positive(p) && relas != []
    ensures var front, last := relas[..|relas| - 1], relas[|relas| - 1];
      FollowedBelow(p, relas, o) ==
        if last.offset < o && IsKept(p, last.offset)
        then FollowedBelow(p, front, o) + [last.(offset := Below(p, last.offset))]
        else FollowedBelow(p, front, o)
  {
    hide IsKept, Below;
  }

  lemma GroupLast(relas: seq<Rela>, o: nat, size: nat, d: nat)
    requires d <= o && relas != []
    ensures var front, last := relas[..|relas| - 1], relas[|relas| - 1];
      Group(relas, o, size, d) ==
        if InGroup(last, o, size) then Group(front, o, size, d) + [last.(offset := last.offset - (o - d))]
        else Group(front, o, size, d)
  {
  }

  lemma {:induction false} DropGroup(p: Pass, relas: seq<Rela>, o: nat, size: nat)
    requires Positive(p) && forall y :: o <= y < o + size ==> !IsKept(p, y)
    ensures Rest(p, relas, o) == Rest(p, relas, o + size)
    ensures FollowedBelow(p, relas, o + size) == FollowedBelow(p, relas, o)
  {
    if relas != [] {
      DropGroup(p, relas[..|relas| - 1], o, size);
    }
  }

  // ------------------------------------------------------------------ the exception table

  function Addends(relas: seq<Rela>): (r: seq<int>)
    ensures |r| == |relas| && forall k :: 0 <= k < |relas| ==> r[k] == relas[k].addend
  {
    if relas == [] then [] else Addends(relas[..|relas| - 1]) + [relas[|relas| - 1].addend]
  }

  /** `kpatch_update_ex_table_addend` for the .fixup group at o that moves to d: stash the new
      addend of every reference into the group. */
  method UpdateExTable(ex: seq<Rela>, isFixup: nat -> bool, o: nat, d: nat, size: nat) returns (ex': seq<Rela>)
    requires d <= o
    ensures ex' == Stash(ex, isFixup, o, d, size)
  {
    ex' := ex;
    for k := 0 to |ex|
      invariant |ex'| == |ex|
      invariant forall m :: 0 <= m < |ex| ==> ex'[m] == if m < k then Stash1(ex[m], isFixup, o, d, size) else ex[m]
    {
      var rela := ex'[k];
      if isFixup(rela.sym) && rela.addend >= o && rela.addend < o + size {
        ex' := ex'[k := rela.(stash := rela.addend - (o - d))];
      }
    }
  }

  ghost function Stash1(r: Rela, isFixup: nat -> bool, o: nat, d: nat, size: nat): (r': Rela) {
    if isFixup(r.sym) && o <= r.addend < o + size then r.(stash := r.addend - (o - d)) else r
  }

  ghost function Stash(ex: seq<Rela>, isFixup: nat -> bool, o: nat, d: nat, size: nat): (ex': seq<Rela>)
    ensures |ex'| == |ex| && forall k :: 0 <= k < |ex| ==> ex'[k] == Stash1(ex[k], isFixup, o, d, size)
  {
    if ex == [] then [] else Stash(ex[..|ex| - 1], isFixup, o, d, size) + [Stash1(ex[|ex| - 1], isFixup, o, d, size)]
  }

  /** What a .fixup pass has stashed when it has come to o. */
  ghost function Stashed1(p: Pass, r: Rela, isFixup: nat -> bool, o: nat): (r': Rela)
    requires Positive(p)
  {
    if isFixup(r.sym) && 0 <= r.addend < o && IsKept(p, r.addend) then r.(stash := Below(p, r.addend)) else r
  }

  ghost predicate Stashed(p: Pass, ex: seq<Rela>, ex': seq<Rela>, isFixup: nat -> bool, o: nat)
    requires Positive(p)
  {
    |ex'| == |ex| && forall k :: 0 <= k < |ex| ==> ex'[k] == Stashed1(p, ex[k], isFixup, o)
  }

  lemma StashKept(p: Pass, ex: seq<Rela>, ex': seq<Rela>, isFixup: nat -> bool, o: nat, size: nat)
    requires Positive(p) && Stashed(p, ex, ex', isFixup, o) && forall y :: o <= y < o + size ==> IsKept(p, y)
    ensures Stashed(p, ex, Stash(ex', isFixup, o, Below(p, o), size), isFixup, o + size)
  {
    var stashed := Stash(ex', isFixup, o, Below(p, o), size);
    forall k | 0 <= k < |ex| ensures stashed[k] == Stashed1(p, ex[k], isFixup, o + size) {
      if o <= ex[k].addend < o + size {
        BelowInKept(p, o, ex[k].addend);
      }
    }
  }

  lemma StashDropped(p: Pass, ex: seq<Rela>, ex': seq<Rela>, isFixup: nat -> bool, o: nat, size: nat)
    requires Positive(p) && Stashed(p, ex, ex', isFixup, o) && forall y :: o <= y < o + size ==> !IsKept(p, y)
    ensures Stashed(p, ex, ex', isFixup, o + size)
  {
  }

  // ----------------------------------------------------------------------------- one pass

  /** A section with its relas. */
  class Section {
    var data: seq<Byte>
    var relas: seq<Rela>
    var included: bool
  }

  datatype Kind = Plain | Fixup(ex: Section) | ExTable

  /** `should_keep_rela_group`. */
  method ShouldKeep(relas: seq<Rela>, keep: nat -> bool, o: nat, size: nat) returns (found: bool)
    ensures found == Keeps(relas, keep, o, size)
  {
    found := false;
    for k := 0 to |relas|
      invariant found <==> exists m :: 0 <= m < k && InGroup(relas[m], o, size) && keep(relas[m].sym)
    {
      if relas[k].offset >= o && relas[k].offset < o + size && keep(relas[k].sym) {
        assert InGroup(relas[k], o, size);
        found := true;
      }
    }
  }

  /** The symbols of relas. */
  function SymsOf(relas: seq<Rela>): set<nat> { set r <- relas :: r.sym }

  /** What the loop over the relas of a section has done: the relas that stay, those that were
      moved, the exception table and the symbols marked for inclusion. */
  datatype Moving = Moving(relas: seq<Rela>, moved: seq<Rela>, ex: seq<Rela>, marked: set<nat>)

  /** After the relas `done` of all relas. */
  ghost function MovedBy(m: Moving, fixup: bool, isFixup: nat -> bool, done: seq<Rela>, o: nat, d: nat,
                         size: nat): Moving
    requires d <= o
  {
    var group := Group(done, o, size, d);
    Moving(Others(done, o, size), m.moved + group,
           if fixup then StashIf(group, m.ex, isFixup, o, d, size) else m.ex, m.marked + SymsOf(group))
  }

  /** The loop that moves the relas of a kept group to the new list; for a .fixup group every
      moved rela makes the exception table follow. */
  method MoveRelas(m: Moving, fixup: bool, isFixup: nat -> bool, o: nat, d: nat, size: nat) returns (m': Moving)
    requires d <= o
    ensures m' == MovedBy(m, fixup, isFixup, m.relas, o, d, size)
  {
    hide MovedBy;
    var relas, moved, ex, marked := m.relas, m.moved, m.ex, m.marked;
    ghost var k := 0;
    var i := 0;
    MoveStart(m, fixup, isFixup, o, d, size);
    while i < |relas|
      invariant k <= |m.relas|
      invariant var n := MovedBy(m, fixup, isFixup, m.relas[..k], o, d, size);
        i == |n.relas| && relas == n.relas + m.relas[k..] && moved == n.moved && ex == n.ex && marked == n.marked
      decreases |m.relas| - k
    {
      MoveStep(m, fixup, isFixup, k, o, d, size);
      var rela := relas[i];
      if rela.offset >= o && rela.offset < o + size {
        relas := relas[..i] + relas[i + 1..];
        moved := moved + [rela.(offset := rela.offset - (o - d))];
        marked := marked + {rela.sym};
        if fixup {
          ex := UpdateExTable(ex, isFixup, o, d, size);
        }
      } else {
        i := i + 1;
      }
      k := k + 1;
    }
    assert m.relas[..k] == m.relas;
    m' := Moving(relas, moved, ex, marked);
  }

  lemma MoveStart(m: Moving, fixup: bool, isFixup: nat -> bool, o: nat, d: nat, size: nat)
    requires d <= o
    ensures MovedBy(m, fixup, isFixup, m.relas[..0], o, d, size) == m.(relas := [])
  {
    GroupStart(o, size, d);
    assert m.relas[..0] == [] && m.moved + [] == m.moved;
  }

  /** One turn of the loop, on values. */
  lemma MoveStep(m: Moving, fixup: bool, isFixup: nat -> bool, k: nat, o: nat, d: nat, size: nat)
    requires d <= o && k < |m.relas|
    ensures var n := MovedBy(m, fixup, isFixup, m.relas[..k], o, d, size);
      var n' := MovedBy(m, fixup, isFixup, m.relas[..k + 1], o, d, size);
      var r, list := m.relas[k], n.relas + m.relas[k..];
      && list[|n.relas|] == r
      && (InGroup(r, o, size) ==>
        && list[..|n.relas|] + list[|n.relas| + 1..] == n.relas + m.relas[k + 1..]
        && n' == Moving(n.relas, n.moved + [r.(offset := r.offset - (o - d))],
                        if fixup then Stash(n.ex, isFixup, o, d, size) else n.ex, n.marked + {r.sym}))
      && (!InGroup(r, o, size) ==>
        && list == (n.relas + [r]) + m.relas[k + 1..]
        && n' == n.(relas := n.relas + [r]))
  {
    hide Others, Group, Stash, SymsOf;
    var r := m.relas[k];
    GroupStep(m.relas, k, o, size, d);
    ListStep(Others(m.relas[..k], o, size), m.relas, k);
    StashTwice(m.ex, isFixup, o, d, size);
    if InGroup(r, o, size) {
      var group, last := Group(m.relas[..k], o, size, d), r.(offset := r.offset - (o - d));
      SymsConcat(group, [last]);
      SymsOfOne(last);
      assert (m.moved + group) + [last] == m.moved + (group + [last]);
    } else {
      assert Group(m.relas[..k], o, size, d) + [] == Group(m.relas[..k], o, size, d);
    }
  }

  lemma SymsOfOne(r: Rela)
    ensures SymsOf([r]) == {r.sym}
  {
  }

  lemma SymsConcat(a: seq<Rela>, b: seq<Rela>)
    ensures SymsOf(a + b) == SymsOf(a) + SymsOf(b)
  {
    forall x ensures x in SymsOf(a + b) <==> x in SymsOf(a) + SymsOf(b) {
      if x in SymsOf(a) {
        var k :| 0 <= k < |a| && a[k].sym == x;
        assert (a + b)[k].sym == x;
      }
      if x in SymsOf(b) {
        var k :| 0 <= k < |b| && b[k].sym == x;
        assert (a + b)[|a| + k].sym == x;
      }
    }
  }

  /** A group is moved: out of the section, to the new list. */
  method MoveGroup(sec: Section, kind: Kind, isFixup: nat -> bool, newrelas: seq<Rela>, marks: set<nat>, o: nat,
                   d: nat, size: nat)
    returns (moved: seq<Rela>, marked: set<nat>)
    requires d <= o && (kind.Fixup? ==> kind.ex != sec)
    modifies sec`relas, (if kind.Fixup? then {kind.ex} else {})`relas
    ensures sec.relas == Others(old(sec.relas), o, size)
    ensures moved == newrelas + Group(old(sec.relas), o, size, d)
    ensures marked == marks + SymsOf(Group(old(sec.relas), o, size, d))
    ensures kind.Fixup? ==>
      kind.ex.relas == StashIf(Group(old(sec.relas), o, size, d), old(kind.ex.relas), isFixup, o, d, size)
  {
    hide Others, Group, StashIf, SymsOf;
    var m := MoveRelas(Moving(sec.relas, newrelas, if kind.Fixup? then kind.ex.relas else [], marks),
                       kind.Fixup?, isFixup, o, d, size);
    sec.relas := m.relas;
    if kind.Fixup? {
      kind.ex.relas := m.ex;
    }
    moved, marked := m.moved, m.marked;
  }

  /** The exception table follows a group as soon as one of its relas is moved. */
  ghost function StashIf(moved: seq<Rela>, ex: seq<Rela>, isFixup: nat -> bool, o: nat, d: nat, size: nat): seq<Rela> {
    if moved == [] then ex else Stash(ex, isFixup, o, d, size)
  }

  lemma GroupStart(o: nat, size: nat, d: nat)
    requires d <= o
    ensures Others([], o, size) == [] && Group([], o, size, d) == []
  {
  }

  lemma GroupStep(all: seq<Rela>, k: nat, o: nat, size: nat, d: nat)
    requires k < |all| && d <= o
    ensures InGroup(all[k], o, size) ==> all[k].offset >= o
    ensures Others(all[..k + 1], o, size)
         == Others(all[..k], o, size) + (if InGroup(all[k], o, size) then [] else [all[k]])
    ensures Group(all[..k + 1], o, size, d) == Group(all[..k], o, size, d) +
      (if InGroup(all[k], o, size) then [all[k].(offset := all[k].offset - (o - d))] else [])
  {
    assert all[..k + 1][..k] == all[..k];
  }

  lemma ListStep(left: seq<Rela>, all: seq<Rela>, k: nat)
    requires k < |all|
    ensures var s := left + all[k..]; s[|left|] == all[k] && s[..|left|] + s[|left| + 1..] == left + all[k + 1..]
    ensures left + all[k..] == (left + [all[k]]) + all[k + 1..]
  {
  }

  lemma StashTwice(ex: seq<Rela>, isFixup: nat -> bool, o: nat, d: nat, size: nat)
    ensures var once := Stash(ex, isFixup, o, d, size); Stash(once, isFixup, o, d, size) == once
  {
  }

  // ------------------------------------------------------------- the pass over all groups

  /** The relas of the kept groups from the boundary o on, group by group. */
  ghost function Arranged(p: Pass, o: nat): (r: seq<Rela>)
    requires Positive(p) && o <= |p.data|
    decreases |p.data| - o
  {
    if o == |p.data| then [] else
    assert p.groupSize(p.addends, o) > 0;
    var n := Fit(p, o);
    (if Keeps(p.relas, p.keep, o, n) then Group(p.relas, o, n, Below(p, o)) else []) + Arranged(p, o + n)
  }

  lemma ArrangedIs(p: Pass, o: nat)
    requires Positive(p) && o < |p.data| && 0 < Fit(p, o) && o + Fit(p, o) <= |p.data|
    ensures var n := Fit(p, o);
      Arranged(p, o)
      == (if Keeps(p.relas, p.keep, o, n) then Group(p.relas, o, n, Below(p, o)) else []) + Arranged(p, o + n)
  {
    hide Keeps, Group, Below, Fit;
  }

  /** The state of the pass at o: d bytes and the relas that belong to them are done. */
  ghost predicate PassAt(p: Pass, o: nat, dest: seq<Byte>, relas: seq<Rela>, moved: seq<Rela>)
    requires Positive(p)
  {
    && Boundary(p, o) && dest == KeptBytes(p, o) && relas == Rest(p, p.relas, o)
    && moved + Arranged(p, o) == Arranged(p, 0)
    && forall x :: Count(moved, x) == Count(FollowedBelow(p, p.relas, o), x)
  }

  lemma PassStart(p: Pass)
    requires Positive(p)
    ensures PassAt(p, 0, [], p.relas, [])
  {
    RestAtStart(p, p.relas);
  }

  lemma KeepStep(p: Pass, o: nat, dest: seq<Byte>, relas: seq<Rela>, moved: seq<Rela>)
    requires Positive(p) && PassAt(p, o, dest, relas, moved) && o < |p.data| && Keeps(relas, p.keep, o, Fit(p, o))
    ensures |dest| == Below(p, o) <= o && Fit(p, o) > 0
    ensures forall y :: o <= y < o + Fit(p, o) ==> IsKept(p, y)
    ensures PassAt(p, o + Fit(p, o), dest + p.data[o..o + Fit(p, o)], Others(relas, o, Fit(p, o)),
                   moved + Group(relas, o, Fit(p, o), |dest|))
  {
    hide IsKept, Boundary, Fit, Keeps, Rest, Others, Group, FollowedBelow, Arranged, KeptBytes, Below, Count, Positive;
    var n, d := Fit(p, o), Below(p, o);
    NextBoundary(p, o);
    RestHas(p, p.relas, o, n, d);
    BytesInKept(p, o, o + n);
    RestMoved(p, p.relas, o, n);
    ArrangedIs(p, o);
    assert (moved + Group(relas, o, n, d)) + Arranged(p, o + n) == moved + (Group(relas, o, n, d) + Arranged(p, o + n));
    forall x ensures Count(moved + Group(relas, o, n, d), x) == Count(FollowedBelow(p, p.relas, o + n), x) {
      CountConcat(moved, Group(relas, o, n, d), x);
      FollowedMoved(p, p.relas, o, n, x);
    }
  }

  lemma DropStep(p: Pass, o: nat, dest: seq<Byte>, relas: seq<Rela>, moved: seq<Rela>)
    requires Positive(p) && PassAt(p, o, dest, relas, moved) && o < |p.data| && !Keeps(relas, p.keep, o, Fit(p, o))
    ensures Fit(p, o) > 0 && forall y :: o <= y < o + Fit(p, o) ==> !IsKept(p, y)
    ensures PassAt(p, o + Fit(p, o), dest, relas, moved)
  {
    hide IsKept, Boundary, Fit, Keeps, Rest, Group, FollowedBelow, Arranged, KeptBytes, Below, Count, Positive;
    var n := Fit(p, o);
    NextBoundary(p, o);
    RestHas(p, p.relas, o, n, Below(p, o));
    BytesInDropped(p, o, o + n);
    DropGroup(p, p.relas, o, n);
    ArrangedIs(p, o);
    assert [] + Arranged(p, o + n) == Arranged(p, o + n);
  }

  lemma {:induction false} KeepsGroup(relas: seq<Rela>, keep: nat -> bool, o: nat, size: nat, d: nat)
    requires d <= o && Keeps(relas, keep, o, size)
    ensures Group(relas, o, size, d) != []
  {
    var front, last := relas[..|relas| - 1], relas[|relas| - 1];
    assert relas == front + [last];
    KeepsAppend(front, keep, o, size, last);
    if Keeps(front, keep, o, size) {
      KeepsGroup(front, keep, o, size, d);
    }
  }

  lemma StashedAddends(p: Pass, ex: seq<Rela>, ex': seq<Rela>, isFixup: nat -> bool, o: nat)
    requires Positive(p) && Stashed(p, ex, ex', isFixup, o)
    ensures Addends(ex') == Addends(ex)
  {
  }

  /** At the end: if no byte is kept then no rela has moved. */
  lemma PassEnd(p: Pass, dest: seq<Byte>, relas: seq<Rela>, moved: seq<Rela>)
    requires Positive(p) && PassAt(p, |p.data|, dest, relas, moved)
    ensures dest == KeptBytes(p, |p.data|)
    ensures moved == Arranged(p, 0) && multiset(moved) == multiset(Followed(p, p.relas))
    ensures dest == [] ==> relas == p.relas
  {
    assert moved + [] == moved;
    AllFollowed(p, p.relas);
    SameMultiset(moved, Followed(p, p.relas));
    if dest == [] {
      NoneKept(p, |p.data|);
      NoneMoved(p, p.relas);
    }
  }

  lemma {:induction false} NoneKept(p: Pass, n: nat)
    requires Positive(p) && n <= |p.data| && KeptBytes(p, n) == []
    ensures forall x :: 0 <= x < n ==> !IsKept(p, x)
  {
    if n > 0 {
      NoneKept(p, n - 1);
    }
  }

  lemma {:induction false} NoneMoved(p: Pass, relas: seq<Rela>)
    requires Positive(p) && forall x :: 0 <= x < |p.data| ==> !IsKept(p, x)
    ensures Rest(p, relas, |p.data|) == relas
  {
    if relas != [] {
      NoneMoved(p, relas[..|relas| - 1]);
    }
  }

  /** The addends that an earlier .fixup pass has stashed. */
  function Restored(relas: seq<Rela>, isFixup: nat -> bool): (r: seq<Rela>)
    ensures |r| == |relas|
    ensures forall k :: 0 <= k < |relas| ==> r[k] == if isFixup(relas[k].sym)
      then relas[k].(addend := relas[k].stash) else relas[k]
  {
    if relas == [] then [] else
    var last := relas[|relas| - 1];
    Restored(relas[..|relas| - 1], isFixup) + [if isFixup(last.sym) then last.(addend := last.stash) else last]
  }

  method Restore(relas: seq<Rela>, isFixup: nat -> bool) returns (r: seq<Rela>)
    ensures r == Restored(relas, isFixup)
  {
    r := relas;
    for k := 0 to |relas|
      invariant |r| == |relas| && forall m :: k <= m < |relas| ==> r[m] == relas[m]
      invariant forall m :: 0 <= m < k ==> r[m] == if isFixup(relas[m].sym)
        then relas[m].(addend := relas[m].stash) else relas[m]
    {
      if isFixup(r[k].sym) {
        r := r[k := r[k].(addend := r[k].stash)];
      }
    }
  }

  /** What a pass starts from. */
  function PassOf(sec: Section, kind: Kind, keep: nat -> bool, groupSize: (seq<int>, nat) -> nat,
                  isFixup: nat -> bool): Pass
    reads sec, if kind.Fixup? then {kind.ex} else {}
  {
    Pass(sec.data, if kind.ExTable? then Restored(sec.relas, isFixup) else sec.relas, keep, groupSize,
         if kind.Fixup? then Addends(kind.ex.relas) else [])
  }

  /** `kpatch_regenerate_special_section`: the section holds exactly its kept bytes in order,
      the relas of kept bytes follow them and the others are gone; a section without kept bytes
      is left out. */
  method Regenerate(sec: Section, kind: Kind, keep: nat -> bool, groupSize: (seq<int>, nat) -> nat,
                    isFixup: nat -> bool)
    returns (marked: set<nat>, ghost p: Pass, ghost starts: seq<nat>)
    requires (kind.Fixup? ==> kind.ex != sec) && Positive(PassOf(sec, kind, keep, groupSize, isFixup))
    modifies sec, (if kind.Fixup? then {kind.ex} else {})`relas
    ensures p == old(PassOf(sec, kind, keep, groupSize, isFixup)) && Positive(p)
    ensures KeptByGroups(p, starts)
    ensures sec.included <==> KeptBytes(p, |p.data|) != []
    ensures sec.included ==> sec.data == KeptBytes(p, |p.data|) && Compacted(p, sec.data)
    ensures sec.included ==> sec.relas == Arranged(p, 0) && multiset(sec.relas) == multiset(Followed(p, p.relas))
    ensures marked == SymsOf(Arranged(p, 0))
    ensures !sec.included ==> sec.data == p.data && sec.relas == p.relas
    ensures kind.Fixup? ==> Stashed(p, old(kind.ex.relas), kind.ex.relas, isFixup, |p.data|)
  {
    hide PassAt, Stashed, Fit, Positive, Restored, Addends, KeptBytes, Followed, Arranged,
         KeptByGroups, Compacted, Starts;
    marked := {};
    p := PassOf(sec, kind, keep, groupSize, isFixup);
    if kind.ExTable? {
      sec.relas := Restore(sec.relas, isFixup);
    }
    var src := sec.data;
    var dest, moved, srcOffset := [], [], 0;
    PassStart(p);
    starts := SomeStarts(p);
    GroupsDecide(p, starts);
    BytesCompacted(p);
    if kind.Fixup? {
      NothingStashed(p, kind.ex.relas, isFixup);
    }
    ghost var ex := if kind.Fixup? then kind.ex.relas else [];
    while srcOffset < |src|
      invariant srcOffset <= |src| && sec.data == src == p.data
      invariant PassAt(p, srcOffset, dest, sec.relas, moved) && marked == SymsOf(moved)
      invariant kind.Fixup? ==> Stashed(p, ex, kind.ex.relas, isFixup, srcOffset)
      decreases |src| - srcOffset
    {
      var size;
      size, dest, moved, marked := OneGroup(sec, kind, keep, groupSize, isFixup, srcOffset, dest, moved, marked, p, ex);
      srcOffset := srcOffset + size;
    }
    PassEnd(p, dest, sec.relas, moved);
    if |dest| == 0 {
      sec.included := false;
      return;
    }
    sec.relas := moved;
    sec.included := true;
    sec.data := dest;
  }

  lemma NothingStashed(p: Pass, ex: seq<Rela>, isFixup: nat -> bool)
    requires Positive(p)
    ensures Stashed(p, ex, ex, isFixup, 0)
  {
  }

  /** One turn of the loop over the groups. */
  method OneGroup(sec: Section, kind: Kind, keep: nat -> bool, groupSize: (seq<int>, nat) -> nat, isFixup: nat -> bool,
                  o: nat, dest: seq<Byte>, moved: seq<Rela>, marked: set<nat>, ghost p: Pass, ghost ex: seq<Rela>)
    returns (size: nat, dest': seq<Byte>, moved': seq<Rela>, marked': set<nat>)
    requires (kind.Fixup? ==> kind.ex != sec) && Positive(p) && o < |p.data| && sec.data == p.data
    requires p.groupSize == groupSize && p.keep == keep && PassAt(p, o, dest, sec.relas, moved)
    requires marked == SymsOf(moved)
    requires kind.Fixup? ==> p.addends == Addends(ex) && Stashed(p, ex, kind.ex.relas, isFixup, o)
    requires !kind.Fixup? ==> p.addends == []
    modifies sec`relas, (if kind.Fixup? then {kind.ex} else {})`relas
    ensures size == Fit(p, o) > 0 && o + size <= |p.data|
    ensures PassAt(p, o + size, dest', sec.relas, moved') && marked' == SymsOf(moved')
    ensures kind.Fixup? ==> Stashed(p, ex, kind.ex.relas, isFixup, o + size)
  {
    hide PassAt, Stashed, Fit, Stash, Group, Others, Keeps, IsKept, Positive, SymsOf;
    size := GroupAt(sec, kind, groupSize, o, p, ex, isFixup);
    var found := ShouldKeep(sec.relas, keep, o, size);
    if found {
      KeepStep(p, o, dest, sec.relas, moved);
      KeepsGroup(sec.relas, keep, o, size, |dest|);
      if kind.Fixup? {
        StashKept(p, ex, kind.ex.relas, isFixup, o, size);
      }
      SymsConcat(moved, Group(sec.relas, o, size, |dest|));
      moved', marked' := MoveGroup(sec, kind, isFixup, moved, marked, o, |dest|, size);
      dest' := dest + sec.data[o..o + size];
    } else {
      DropStep(p, o, dest, sec.relas, moved);
      if kind.Fixup? {
        StashDropped(p, ex, kind.ex.relas, isFixup, o, size);
      }
      dest', moved', marked' := dest, moved, marked;
    }
  }

  /** The size of a group: stashing has not changed what it is computed from. */
  method GroupAt(sec: Section, kind: Kind, groupSize: (seq<int>, nat) -> nat, o: nat, ghost p: Pass,
                 ghost ex: seq<Rela>, isFixup: nat -> bool)
    returns (size: nat)
    requires Positive(p) && o < |p.data| && sec.data == p.data && p.groupSize == groupSize
    requires kind.Fixup? ==> p.addends == Addends(ex) && Stashed(p, ex, kind.ex.relas, isFixup, o)
    requires !kind.Fixup? ==> p.addends == []
    ensures size == Fit(p, o) && o + size <= |p.data|
  {
    if kind.Fixup? {
      StashedAddends(p, ex, kind.ex.relas, isFixup, o);
    }
    size := groupSize(if kind.Fixup? then Addends(kind.ex.relas) else [], o);
    if o + size > |sec.data| {
      size := |sec.data| - o;
    }
  }

  // --------------------------------------------------------------- .fixup, then __ex_table

  /** Every reference of the exception table to a kept byte of .fixup refers to that byte in the
      compacted section. */
  method FixupThenExTable(fixup: Section, ex: Section, keep: nat -> bool, fixupSize: (seq<int>, nat) -> nat,
                          exSize: (seq<int>, nat) -> nat, isFixup: nat -> bool)
    returns (marked: set<nat>, more: set<nat>, ghost p: Pass, ghost q: Pass, ghost starts: seq<nat>,
             ghost starts': seq<nat>)
    requires fixup != ex
    requires Positive(PassOf(fixup, Fixup(ex), keep, fixupSize, isFixup))
    requires forall o {:trigger exSize([], o)} :: exSize([], o) > 0
    modifies fixup, ex
    ensures p == old(PassOf(fixup, Fixup(ex), keep, fixupSize, isFixup)) && Positive(p) && Positive(q)
    ensures q.data == old(ex.data) && |q.relas| == |old(ex.relas)|
    ensures forall k :: 0 <= k < |q.relas| ==> q.relas[k] == Pointed(p, isFixup, old(ex.relas)[k])
    ensures forall k :: 0 <= k < |q.relas| && PointsToKept(p, isFixup, old(ex.relas)[k]) ==>
      && fixup.included && 0 <= q.relas[k].addend < |fixup.data|
      && fixup.data[q.relas[k].addend] == p.data[old(ex.relas)[k].addend]
    ensures ex.included ==> ex.data == KeptBytes(q, |q.data|) && multiset(ex.relas) == multiset(Followed(q, q.relas))
    ensures marked == SymsOf(Arranged(p, 0)) && more == SymsOf(Arranged(q, 0))
    ensures KeptByGroups(p, starts) && KeptByGroups(q, starts')
  {
    hide KeptByGroups, Compacted, Followed, Arranged, KeptBytes, IsKept, Below;
    ghost var ex0 := ex.relas;
    marked, p, starts := Regenerate(fixup, Fixup(ex), keep, fixupSize, isFixup);
    ghost var ex1 := ex.relas;
    more, q, starts' := Regenerate(ex, ExTable, keep, exSize, isFixup);
    forall k | 0 <= k < |q.relas|
      ensures q.relas[k] == Pointed(p, isFixup, ex0[k])
      ensures PointsToKept(p, isFixup, ex0[k]) ==>
        && fixup.included && 0 <= q.relas[k].addend < |fixup.data|
        && fixup.data[q.relas[k].addend] == p.data[ex0[k].addend]
    {
      assert ex1[k] == Stashed1(p, ex0[k], isFixup, |p.data|);
      if PointsToKept(p, isFixup, ex0[k]) {
        SameByte(p, ex0[k].addend, |p.data|);
      }
    }
  }

  ghost predicate PointsToKept(p: Pass, isFixup: nat -> bool, r: Rela)
    requires Positive(p)
  {
    isFixup(r.sym) && 0 <= r.addend < |p.data| && IsKept(p, r.addend)
  }

  /** A rela of the exception table after the .fixup pass and the restoring of its addend. */
  ghost function Pointed(p: Pass, isFixup: nat -> bool, r: Rela): Rela
    requires Positive(p)
  {
    if PointsToKept(p, isFixup, r) then r.(addend := Below(p, r.addend), stash := Below(p, r.addend))
    else if isFixup(r.sym) then r.(addend := r.stash) else r
  }

  // ---------------------------------------------------- groups, in terms of the group size alone

  /** Where the group at o ends: a group size on, but not behind the section. */
  ghost function EndOf(p: Pass, o: nat): nat {
    var end := o + p.groupSize(p.addends, o);
    if end > |p.data| then |p.data| else end
  }

  /** The groups start at 0, and then one group size behind the start of the group before, as far
      as the section goes. */
  ghost predicate Starts(p: Pass, starts: seq<nat>) {
    && (starts == [] <==> p.data == [])
    && (starts != [] ==> starts[0] == 0 && EndOf(p, starts[|starts| - 1]) == |p.data|)
    && (forall i :: 0 <= i < |starts| ==> starts[i] < |p.data|)
    && (forall i :: 0 <= i < |starts| - 1 ==> starts[i + 1] == starts[i] + p.groupSize(p.addends, starts[i]))
  }

  /** Some rela between a and b refers to an included function. */
  ghost predicate KeepsBetween(p: Pass, a: nat, b: nat) {
    exists k :: 0 <= k < |p.relas| && a <= p.relas[k].offset < b && p.keep(p.relas[k].sym)
  }

  /** A byte is kept if and only if its group has such a rela. */
  ghost predicate KeptByGroups(p: Pass, starts: seq<nat>)
    requires Positive(p)
  {
    && Starts(p, starts)
    && (forall i, x :: 0 <= i < |starts| && starts[i] <= x < EndOf(p, starts[i]) ==>
         (IsKept(p, x) <==> KeepsBetween(p, starts[i], EndOf(p, starts[i]))))
    && forall x :: |p.data| <= x ==> !IsKept(p, x)
  }

  lemma FitIs(p: Pass, o: nat)
    requires Positive(p) && o < |p.data|
    ensures o < EndOf(p, o) <= |p.data| && Fit(p, o) == EndOf(p, o) - o
    ensures Keeps(p.relas, p.keep, o, Fit(p, o)) <==> KeepsBetween(p, o, EndOf(p, o))
  {
    assert p.groupSize(p.addends, o) > 0;
    if Keeps(p.relas, p.keep, o, Fit(p, o)) {
      var k :| 0 <= k < |p.relas| && InGroup(p.relas[k], o, Fit(p, o)) && p.keep(p.relas[k].sym);
    }
    if k :| 0 <= k < |p.relas| && o <= p.relas[k].offset < EndOf(p, o) && p.keep(p.relas[k].sym) {
      assert InGroup(p.relas[k], o, Fit(p, o));
    }
  }

  lemma {:induction false} StartIsBoundary(p: Pass, starts: seq<nat>, i: nat)
    requires Positive(p) && Starts(p, starts) && i < |starts|
    ensures Boundary(p, starts[i])
  {
    hide Boundary, IsKept, Fit, Keeps;
    if i == 0 {
      FirstBoundary(p);
    } else {
      StartIsBoundary(p, starts, i - 1);
      NextBoundary(p, starts[i - 1]);
      FitIs(p, starts[i - 1]);
    }
  }

  lemma FirstBoundary(p: Pass)
    requires Positive(p)
    ensures Boundary(p, 0)
  {
  }

  lemma LastBoundary(p: Pass, x: nat)
    requires Positive(p) && Boundary(p, |p.data|) && |p.data| <= x
    ensures !IsKept(p, x)
  {
    assert IsKept(p, x) == KeptFrom(p, |p.data|, x);
  }

  /** Which bytes are kept, by what the groups are. */
  lemma GroupsDecide(p: Pass, starts: seq<nat>)
    requires Positive(p) && Starts(p, starts)
    ensures KeptByGroups(p, starts)
  {
    hide Boundary, IsKept, Fit, Keeps, KeepsBetween;
    forall i, x | 0 <= i < |starts| && starts[i] <= x < EndOf(p, starts[i])
      ensures IsKept(p, x) <==> KeepsBetween(p, starts[i], EndOf(p, starts[i]))
    {
      StartIsBoundary(p, starts, i);
      NextBoundary(p, starts[i]);
      FitIs(p, starts[i]);
    }
    forall x | |p.data| <= x ensures !IsKept(p, x) {
      if starts == [] {
        FirstBoundary(p);
      } else {
        var last := starts[|starts| - 1];
        StartIsBoundary(p, starts, |starts| - 1);
        NextBoundary(p, last);
        FitIs(p, last);
      }
      LastBoundary(p, x);
    }
  }

  /** Every section has such starts. */
  lemma {:induction false} StartsFrom(p: Pass, starts: seq<nat>) returns (all: seq<nat>)
    requires Positive(p) && starts != [] && starts[0] == 0
    requires forall i :: 0 <= i < |starts| ==> starts[i] < |p.data|
    requires forall i :: 0 <= i < |starts| - 1 ==> starts[i + 1] == starts[i] + p.groupSize(p.addends, starts[i])
    ensures Starts(p, all)
    decreases |p.data| - starts[|starts| - 1]
  {
    var last := starts[|starts| - 1];
    assert p.groupSize(p.addends, last) > 0;
    var next := last + p.groupSize(p.addends, last);
    if next < |p.data| {
      all := StartsFrom(p, starts + [next]);
    } else {
      all := starts;
    }
  }

  lemma SomeStarts(p: Pass) returns (starts: seq<nat>)
    requires Positive(p)
    ensures Starts(p, starts)
  {
    if p.data == [] {
      starts := [];
    } else {
      starts := StartsFrom(p, [0]);
    }
  }

  /** The groups cover the section. */
  lemma {:induction false} GroupOf(p: Pass, starts: seq<nat>, x: nat, n: nat) returns (i: nat)
    requires Positive(p) && Starts(p, starts) && n < |starts| && x < EndOf(p, starts[n])
    ensures i <= n && starts[i] <= x < EndOf(p, starts[i])
  {
    if starts[n] <= x {
      i := n;
    } else {
      i := GroupOf(p, starts, x, n - 1);
    }
  }

  lemma DivIs(x: nat, g: nat, i: nat)
    requires g > 0
    ensures i * g <= x < i * g + g <==> x / g == i
  {
    var q := x / g;
    assert x == q * g + x % g;
    if q < i {
      assert (q + 1) * g <= i * g;
    } else if i < q {
      assert (i + 1) * g <= q * g;
    }
  }

  lemma {:induction false} EvenStarts(p: Pass, starts: seq<nat>, g: nat, i: nat)
    requires g > 0 && Starts(p, starts) && i < |starts|
    requires forall o :: 0 <= o < |p.data| ==> p.groupSize(p.addends, o) == g
    ensures starts[i] == i * g
  {
    if i > 0 {
      EvenStarts(p, starts, g, i - 1);
      assert i * g == (i - 1) * g + g;
    }
  }

  /** Some rela in the same multiple of g refers to an included function. */
  ghost predicate KeepsInSame(p: Pass, g: nat, x: nat)
    requires g > 0
  {
    exists k :: 0 <= k < |p.relas| && p.relas[k].offset < |p.data| && p.relas[k].offset / g == x / g &&
      p.keep(p.relas[k].sym)
  }

  /** With a fixed group size a byte is kept if and only if a rela in its group demands it. */
  lemma FixedGroups(p: Pass, g: nat, x: nat)
    requires Positive(p) && g > 0 && forall o :: 0 <= o < |p.data| ==> p.groupSize(p.addends, o) == g
    ensures IsKept(p, x) <==> x < |p.data| && KeepsInSame(p, g, x)
  {
    hide IsKept, Positive;
    var starts := SomeStarts(p);
    GroupsDecide(p, starts);
    if x < |p.data| {
      var i := GroupOf(p, starts, x, |starts| - 1);
      SameGroup(p, starts, g, i, x);
    }
  }

  lemma SameGroup(p: Pass, starts: seq<nat>, g: nat, i: nat, x: nat)
    requires g > 0 && Starts(p, starts) && i < |starts| && starts[i] <= x < EndOf(p, starts[i])
    requires forall o :: 0 <= o < |p.data| ==> p.groupSize(p.addends, o) == g
    ensures KeepsBetween(p, starts[i], EndOf(p, starts[i])) <==> KeepsInSame(p, g, x)
  {
    EvenStarts(p, starts, g, i);
    DivIs(x, g, i);
    var end := EndOf(p, starts[i]);
    if k :| 0 <= k < |p.relas| && starts[i] <= p.relas[k].offset < end && p.keep(p.relas[k].sym) {
      DivIs(p.relas[k].offset, g, i);
    }
    if KeepsInSame(p, g, x) {
      var k :| 0 <= k < |p.relas| && p.relas[k].offset < |p.data| && p.relas[k].offset / g == x / g &&
        p.keep(p.relas[k].sym);
      DivIs(p.relas[k].offset, g, i);
    }
  }

  // ------------------------------------------------ the bytes and relas that are kept, as lists

  ghost predicate KeptAt(p: Pass, x: nat) { Positive(p) && IsKept(p, x) }

  ghost function KeptBefore(p: Pass, x: nat): set<nat> { set y: nat | y < x && KeptAt(p, y) }

  lemma KeptBeforeMore(p: Pass, x: nat)
    ensures KeptBefore(p, 0) == {} && x !in KeptBefore(p, x)
    ensures KeptBefore(p, x + 1) == if KeptAt(p, x) then KeptBefore(p, x) + {x} else KeptBefore(p, x)
  {
    hide KeptAt;
  }

  /** The number of kept bytes before x, counted. */
  lemma {:induction false} BelowCounts(p: Pass, x: nat)
    requires Positive(p)
    ensures Below(p, x) == |KeptBefore(p, x)|
  {
    hide IsKept, KeptBefore;
    KeptBeforeMore(p, if x == 0 then 0 else x - 1);
    if x > 0 {
      BelowCounts(p, x - 1);
    }
  }

  ghost predicate BytesAt(at: seq<nat>, data: seq<Byte>, some: seq<Byte>) {
    |at| == |some| && forall j :: 0 <= j < |at| ==> at[j] < |data| && some[j] == data[at[j]]
  }

  /** The bytes `some` are the kept bytes, in order. */
  ghost predicate Compacted(p: Pass, some: seq<Byte>) {
    exists at: seq<nat> :: Exactly(at, |p.data|, (x: nat) => KeptAt(p, x)) && BytesAt(at, p.data, some)
  }

  lemma {:induction false} KeptBytesAre(p: Pass, n: nat) returns (at: seq<nat>)
    requires Positive(p) && n <= |p.data|
    ensures Exactly(at, n, (x: nat) => KeptAt(p, x)) && BytesAt(at, p.data, KeptBytes(p, n))
  {
    hide Exactly, IsKept;
    if n == 0 {
      NothingExact((x: nat) => KeptAt(p, x));
      return [];
    }
    at := KeptBytesAre(p, n - 1);
    ExactlyMore(at, n - 1, (x: nat) => KeptAt(p, x));
    if IsKept(p, n - 1) {
      at := at + [n - 1];
    }
  }

  lemma BytesCompacted(p: Pass)
    requires Positive(p)
    ensures Compacted(p, KeptBytes(p, |p.data|))
  {
    hide Exactly, KeptBytes;
    var at := KeptBytesAre(p, |p.data|);
  }

  /** relas[at[j]] has moved to the number of kept bytes before its own. */
  ghost predicate MovedTo(p: Pass, at: seq<nat>, relas: seq<Rela>, some: seq<Rela>)
    requires Positive(p)
  {
    && |at| == |some|
    && forall j :: 0 <= j < |at| ==>
         at[j] < |relas| && some[j] == relas[at[j]].(offset := Below(p, relas[at[j]].offset))
  }

  /** The relas that follow kept bytes are those whose byte is kept, in order. */
  lemma {:induction false} FollowedAre(p: Pass, relas: seq<Rela>, n: nat) returns (at: seq<nat>)
    requires Positive(p) && n <= |relas|
    ensures Exactly(at, n, (i: nat) => i < |relas| && KeptAt(p, relas[i].offset))
    ensures MovedTo(p, at, relas, Followed(p, relas[..n]))
  {
    hide Exactly, IsKept, Below;
    if n == 0 {
      NothingExact((i: nat) => i < |relas| && KeptAt(p, relas[i].offset));
      assert relas[..0] == [];
      return [];
    }
    at := FollowedAre(p, relas, n - 1);
    assert relas[..n][..n - 1] == relas[..n - 1];
    ExactlyMore(at, n - 1, (i: nat) => i < |relas| && KeptAt(p, relas[i].offset));
    if IsKept(p, relas[n - 1].offset) {
      at := at + [n - 1];
    }
  }

  /** The relas of a group, in order, moved by as much. */
  lemma {:induction false} GroupAre(relas: seq<Rela>, o: nat, size: nat, d: nat, n: nat) returns (at: seq<nat>)
    requires d <= o && n <= |relas|
    ensures Exactly(at, n, (i: nat) => i < |relas| && o <= relas[i].offset < o + size)
    ensures var some := Group(relas[..n], o, size, d);
      |at| == |some| && forall j :: 0 <= j < |at| ==>
        at[j] < |relas| && relas[at[j]].offset >= o && some[j] == relas[at[j]].(offset := relas[at[j]].offset - (o - d))
  {
    hide Exactly, Group;
    if n == 0 {
      GroupStart(o, size, d);
      NothingExact((i: nat) => i < |relas| && o <= relas[i].offset < o + size);
      assert relas[..0] == [];
      return [];
    }
    at := GroupAre(relas, o, size, d, n - 1);
    GroupStep(relas, n - 1, o, size, d);
    ExactlyMore(at, n - 1, (i: nat) => i < |relas| && o <= relas[i].offset < o + size);
    if InGroup(relas[n - 1], o, size) {
      at := at + [n - 1];
    }
  }

  /** The relas of the compacted section come group by group: those of a kept group, then those of
      the groups behind it. */
  lemma ArrangedByStarts(p: Pass, starts: seq<nat>, i: nat)
    requires Positive(p) && Starts(p, starts) && i < |starts|
    ensures Arranged(p, starts[i])
         == (if KeepsBetween(p, starts[i], EndOf(p, starts[i]))
             then Group(p.relas, starts[i], EndOf(p, starts[i]) - starts[i], Below(p, starts[i])) else [])
            + (if i + 1 < |starts| then Arranged(p, starts[i + 1]) else [])
  {
    hide Keeps, Group, Below, Fit, KeepsBetween;
    FitIs(p, starts[i]);
    ArrangedIs(p, starts[i]);
    ArrangedEnd(p);
  }

  lemma ArrangedEnd(p: Pass)
    requires Positive(p)
    ensures Arranged(p, |p.data|) == []
  {
  }
}
