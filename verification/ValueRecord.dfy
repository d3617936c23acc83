/** `keyvals_t` as it is updated in place: benchmarks/metis/lib/value_helper.c. */
module ValueRecord {
  import opened Common
  import opened Values

  class Record {
    var len: nat
    var allocLen: nat
    /** Under a value modifier `vals` is not an array but the value itself. */
    var single: Val
    var vals: array<Val>

    ghost predicate Valid(app: App)
      reads this
    {
      if app.UsesVm() then len <= 1 else vals.Length == allocLen && len <= allocLen
    }

    ghost function Held(app: App): (s: seq<Val>)
      requires Valid(app)
      reads this, vals
    {
      if app.UsesVm() then (if len == 0 then [] else [single]) else vals[..len]
    }

    ghost function Contents(app: App): (b: Buffer)
      requires Valid(app)
      reads this, vals
    {
      Buffer(Held(app), allocLen)
    }

    constructor ()
      ensures forall app: App :: Valid(app) && Contents(app) == Buffer([], 0)
      ensures fresh(vals)
    {
      len, allocLen, single := 0, 0, 0;
      vals := new Val[0];
    }

    /** Allocates room for n values and keeps those there are. */
    method Grow(n: nat)
      requires len <= vals.Length && len <= n
      modifies this`vals, this`allocLen
      ensures fresh(vals) && vals.Length == n == allocLen && vals[..len] == old(vals[..len])
    {
      var bigger := new Val[n](_ => 0);
      for i := 0 to len
        modifies bigger
        invariant bigger[..i] == vals[..i]
      {
        bigger[i] := vals[i];
      }
      vals := bigger;
      allocLen := n;
    }

    /** `values_insert`. */
    method Insert(app: App, val: Val)
      requires Valid(app) && WellBehaved(app)
      modifies this, vals
      ensures Valid(app) && Contents(app) == Values.Insert(app, old(Contents(app)), val)
      ensures vals == old(vals) || fresh(vals)
    {
      if app.UsesVm() {
        if len == 0 {
          len := 1;
          single := app.vm.value(0, val, true);
        } else {
          single := app.vm.value(single, val, false);
        }
        return;
      }
      if allocLen == 0 {
        Grow(COMBINER_THRESHOLD);
      } else if allocLen == len {
        Grow(allocLen * 2);
      }
      ghost var before := vals[..len];
      vals[len] := val;
      len := len + 1;
      assert vals[..len] == before + [val];
      if app.Combines() && len >= COMBINER_THRESHOLD {
        Combine(app);
      }
    }

    /** The combiner rewrites the values in place and says how many are left. */
    method Combine(app: App)
      requires Valid(app) && WellBehaved(app) && app.Combines() && len > 0
      modifies this`len, vals
      ensures Valid(app) && vals[..len] == app.combiner.value(old(vals[..len]))
    {
      var left := app.combiner.value(vals[..len]);
      assert |left| <= len;
      for i := 0 to |left|
        modifies vals
        invariant vals[..i] == left[..i]
      {
        vals[i] := left[i];
      }
      len := |left|;
    }

    /** `values_mv`: the values of src are added. */
    method Take(app: App, src: Record)
      requires Valid(app) && src.Valid(app) && src != this && src.vals != vals
      requires app.UsesVm() ==> src.len == 1
      modifies this, vals, src
      ensures Valid(app) && Held(app) == Move(app, old(Held(app)), old(src.Held(app)))
      ensures app.UsesVm() ==> src.len == 0
      ensures !app.UsesVm() ==> src.Valid(app) && src.Held(app) == old(src.Held(app))
    {
      if app.UsesVm() {
        if len == 0 {
          single := src.single;
          allocLen := src.allocLen;
          len := 1;
        } else {
          single := app.vm.value(single, src.single, false);
        }
        src.allocLen := 0;
        src.len := 0;
        return;
      }
      MakeRoom(src.len);
      CopyIn(src.vals, src.len);
      len := len + src.len;
    }

    /** The `memcpy` of n values behind those there are. */
    method CopyIn(src: array<Val>, n: nat)
      requires len + n <= vals.Length && n <= src.Length && src != vals
      modifies vals
      ensures vals[..len + n] == old(vals[..len]) + src[..n]
    {
      ghost var before := vals[..len];
      for i := 0 to n
        invariant vals[..len] == before && forall t :: 0 <= t < i ==> vals[len + t] == src[t]
      {
        vals[len + i] := src[i];
      }
      assert vals[..len + n] == before + src[..n];
    }

    /** Room for n more values: exactly n at first, doubled until it is enough later. */
    method MakeRoom(n: nat)
      requires vals.Length == allocLen && len <= allocLen
      modifies this`vals, this`allocLen
      ensures vals.Length == allocLen && len + n <= allocLen && vals[..len] == old(vals[..len])
      ensures vals == old(vals) || fresh(vals)
    {
      if allocLen == 0 {
        Grow(n);
      } else if allocLen < len + n {
        var room := allocLen;
        while room < len + n
          invariant room >= allocLen > 0
          decreases len + n - room
        {
          room := room * 2;
        }
        Grow(room);
      }
    }
  }

  /** Values inserted one after the other into an empty record. */
  method InsertEach(app: App, vals: seq<Val>) returns (r: Record)
    requires WellBehaved(app)
    ensures r.Valid(app) && r.Contents(app) == InsertAll(app, Buffer([], 0), vals)
    ensures fresh(r) && fresh(r.vals)
  {
    r := new Record();
    for i := 0 to |vals|
      invariant fresh(r) && fresh(r.vals) && r.Valid(app)
      invariant r.Contents(app) == InsertAll(app, Buffer([], 0), vals[..i])
    {
      assert vals[..i + 1][..i] == vals[..i];
      r.Insert(app, vals[i]);
    }
    assert vals[..|vals|] == vals;
  }
}
