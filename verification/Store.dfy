/** The hash table of buckets and its life cycle: benchmarks/metis/lib/btreebktmgr.c and
    benchmarks/metis/lib/kvstore.c.

    A bucket stands for its B+tree: the listing of the tree's map, which is what the tree's
    iterator yields and what its insertions update. */
module Store {
  import opened Common
  import opened Seqs
  import opened Values
  import opened Reduce

  type Bucket = seq<KeyVals>

  // ------------------------------------------------------------- one bucket

  /** The number of entries below `key`. */
  function Place(s: Bucket, key: Key): (i: nat)
    ensures i <= |s|
    ensures StrictlySorted(s) ==> forall j :: 0 <= j < i ==> s[j].key < key
    ensures StrictlySorted(s) ==> forall j :: i <= j < |s| ==> key <= s[j].key
  {
    if s == [] then 0
    else if s[|s| - 1].key < key then |s|
    else Place(s[..|s| - 1], key)
  }

  /** The bucket with the entry of `e.key` set to `e`. */
  function SetEntry(s: Bucket, e: KeyVals): Bucket {
    var i := Place(s, e.key);
    if i < |s| && s[i].key == e.key then s[i := e] else s[..i] + [e] + s[i..]
  }

  /** Each entry of the new bucket is `e` or an entry of the old one with another key. */
  lemma SetEntryAt(s: Bucket, e: KeyVals, j: nat)
    requires StrictlySorted(s) && j < |SetEntry(s, e)|
    ensures SetEntry(s, e)[j] == e || (SetEntry(s, e)[j] in s && SetEntry(s, e)[j].key != e.key)
    ensures j < Place(s, e.key) ==> SetEntry(s, e)[j] == s[j]
    ensures j == Place(s, e.key) ==> SetEntry(s, e)[j] == e
    ensures j > Place(s, e.key) ==> e.key < SetEntry(s, e)[j].key
  {
  }

  lemma SetEntrySorted(s: Bucket, e: KeyVals)
    requires StrictlySorted(s)
    ensures StrictlySorted(SetEntry(s, e))
  {
  }

  lemma SetEntryKeys(s: Bucket, e: KeyVals, k: Key)
    requires StrictlySorted(s)
    ensures k in KeySet(SetEntry(s, e)) <==> k in KeySet(s) || k == e.key
  {
    var i, s' := Place(s, e.key), SetEntry(s, e);
    KeySetHas(s, k);
    KeySetHas(s', k);
    assert s'[i] == e;
    if k in KeySet(s) && k != e.key {
      var j :| 0 <= j < |s| && s[j].key == k;
      assert s'[if |s'| == |s| || j < i then j else j + 1].key == k;
    }
    if k in KeySet(s') {
      var j :| 0 <= j < |s'| && s'[j].key == k;
      SetEntryAt(s, e, j);
    }
  }

  lemma SetEntryListing(s: Bucket, m: map<Key, KeyVals>, e: KeyVals)
    requires IsListing(s, m)
    ensures IsListing(SetEntry(s, e), m[e.key := e])
  {
    var s', m' := SetEntry(s, e), m[e.key := e];
    SetEntrySorted(s, e);
    forall k ensures k in KeySet(s') <==> k in m' {
      SetEntryKeys(s, e, k);
    }
    forall j | 0 <= j < |s'| ensures s'[j].key in m' && m'[s'[j].key] == s'[j] {
      SetEntryAt(s, e, j);
    }
  }

  /** `pch_insert_kv` on a bucket. */
  function PutVal(app: App, s: Bucket, key: Key, val: Val, hash: nat): Bucket {
    var i := Place(s, key);
    SetEntry(s, if i < |s| && s[i].key == key then s[i].(vals := InsertVal(app, s[i].vals, val))
                else KeyVals(key, InsertVal(app, [], val), hash))
  }

  lemma PutValListing(app: App, s: Bucket, m: map<Key, KeyVals>, key: Key, val: Val, hash: nat)
    requires IsListing(s, m)
    ensures IsListing(PutVal(app, s, key, val, hash), PutPair(app, m, key, val, hash))
  {
    KeySetHas(s, key);
    var i := Place(s, key);
    SetEntryListing(s, m, if i < |s| && s[i].key == key then s[i].(vals := InsertVal(app, s[i].vals, val))
                          else KeyVals(key, InsertVal(app, [], val), hash));
  }

  // ---------------------------------------------------------------- one row

  /** The part of a row that belongs in column `c` of `cols`. */
  ghost function ColOf(m: map<Key, KeyVals>, c: nat, cols: nat): map<Key, KeyVals>
    requires cols > 0
  {
    map k | k in m && m[k].hash % cols == c :: m[k]
  }

  /** The columns of a row hold `m`, each key in the column of its hash. */
  ghost predicate RowHolds(row: seq<Bucket>, m: map<Key, KeyVals>) {
    |row| > 0 && forall c: nat :: c < |row| ==> IsListing(row[c], ColOf(m, c, |row|))
  }

  lemma ColOfSet(m: map<Key, KeyVals>, e: KeyVals, c: nat, cols: nat)
    requires cols > 0 && (e.key in m ==> m[e.key].hash == e.hash)
    ensures ColOf(m[e.key := e], c, cols)
         == if e.hash % cols == c then ColOf(m, c, cols)[e.key := e] else ColOf(m, c, cols)
  {
  }

  /** Setting an entry in the column of its hash sets it in the row. */
  lemma RowSet(row: seq<Bucket>, m: map<Key, KeyVals>, e: KeyVals, b: Bucket)
    requires RowHolds(row, m) && (e.key in m ==> m[e.key].hash == e.hash)
    requires IsListing(b, ColOf(m, e.hash % |row|, |row|)[e.key := e])
    ensures RowHolds(row[e.hash % |row| := b], m[e.key := e])
  {
    var row', m' := row[e.hash % |row| := b], m[e.key := e];
    forall c: nat | c < |row'| ensures IsListing(row'[c], ColOf(m', c, |row'|)) {
      ColOfSet(m, e, c, |row|);
    }
  }

  /** Equal keys hash equally. */
  ghost predicate Hashed(pairs: seq<Pair>, h: Key -> nat) {
    forall i :: 0 <= i < |pairs| ==> pairs[i].hash == h(pairs[i].key)
  }

  ghost predicate HashedMap(m: map<Key, KeyVals>, h: Key -> nat) {
    forall k :: k in m ==> m[k].key == k && m[k].hash == h(k)
  }

  lemma {:induction false} PutPairsHashed(app: App, pairs: seq<Pair>, h: Key -> nat)
    requires Hashed(pairs, h)
    ensures HashedMap(PutPairs(app, pairs), h)
  {
    if pairs != [] {
      PutPairsHashed(app, pairs[..|pairs| - 1], h);
    }
  }

  lemma PutInColumn(app: App, m: map<Key, KeyVals>, x: Pair, h: Key -> nat, c: nat, cols: nat)
    requires cols > 0 && HashedMap(m, h) && x.hash == h(x.key)
    ensures ColOf(PutPair(app, m, x.key, x.val, x.hash), c, cols)
         == if x.hash % cols == c then PutPair(app, ColOf(m, c, cols), x.key, x.val, x.hash) else ColOf(m, c, cols)
  {
    hide InsertVal;
    var e := NewEntry(app, m, x.key, x.val, x.hash);
    assert e.key == x.key && e.hash == x.hash;
    ColOfSet(m, e, c, cols);
  }

  /** The columns hold just the pairs emitted into them. */
  lemma {:induction false} ColumnPairs(app: App, pairs: seq<Pair>, h: Key -> nat, c: nat, cols: nat)
    requires Hashed(pairs, h) && cols > 0
    ensures ColOf(PutPairs(app, pairs), c, cols) == PutPairs(app, InColumn(pairs, c, cols))
  {
    hide PutPair, HashedMap;
    if pairs != [] {
      var init, last := pairs[..|pairs| - 1], pairs[|pairs| - 1];
      ColumnPairs(app, init, h, c, cols);
      PutPairsHashed(app, init, h);
      PutInColumn(app, PutPairs(app, init), last, h, c, cols);
      if last.hash % cols == c {
        assert InColumn(pairs, c, cols)[..|InColumn(init, c, cols)|] == InColumn(init, c, cols);
      } else {
        assert InColumn(pairs, c, cols) == InColumn(init, c, cols);
      }
    }
  }

  /** The pairs of a row whose hash selects column `c`. */
  function InColumn(pairs: seq<Pair>, c: nat, cols: nat): seq<Pair>
    requires cols > 0
  {
    if pairs == [] then []
    else InColumn(pairs[..|pairs| - 1], c, cols) +
         (if pairs[|pairs| - 1].hash % cols == c then [pairs[|pairs| - 1]] else [])
  }

  // ------------------------------------------------------------------ rehash

  ghost function MapOf(s: Bucket): map<Key, KeyVals> {
    if s == [] then map[] else MapOf(s[..|s| - 1])[s[|s| - 1].key := s[|s| - 1]]
  }

  lemma {:induction false} MapOfKeys(s: Bucket)
    ensures MapOf(s).Keys == KeySet(s)
  {
    if s != [] {
      MapOfKeys(s[..|s| - 1]);
    }
  }

  lemma {:induction false} MapOfAt(s: Bucket, i: nat)
    requires StrictlySorted(s) && i < |s|
    ensures s[i].key in MapOf(s) && MapOf(s)[s[i].key] == s[i]
  {
    if i < |s| - 1 {
      MapOfAt(s[..|s| - 1], i);
    }
  }

  lemma ListingMap(s: Bucket, m: map<Key, KeyVals>)
    requires IsListing(s, m)
    ensures MapOf(s) == m
  {
    MapOfKeys(s);
    forall k | k in m ensures MapOf(s)[k] == m[k] {
      KeySetHas(s, k);
      var i :| 0 <= i < |s| && s[i].key == k;
      MapOfAt(s, i);
    }
  }

  /** `map_put_kvs`: a whole entry goes to the column of its hash.  The source asserts that its
      key is not there yet. */
  method MapPutKvs(row: seq<Bucket>, kvs: KeyVals, ghost done: map<Key, KeyVals>) returns (row': seq<Bucket>)
    requires RowHolds(row, done) && kvs.key !in done
    ensures RowHolds(row', done[kvs.key := kvs]) && |row'| == |row|
  {
    var col := kvs.hash % |row|;
    KeySetHas(row[col], kvs.key);
    assert !HasKey(row[col], kvs.key);
    SetEntryListing(row[col], ColOf(done, col, |row|), kvs);
    RowSet(row, done, kvs, SetEntry(row[col], kvs));
    row' := row[col := SetEntry(row[col], kvs)];
  }

  /** `bkt_rehash`: every entry of a bucket of the backup moves to the new table. */
  method BktRehash(row: seq<Bucket>, bucket: Bucket, ghost done: map<Key, KeyVals>, ghost part: map<Key, KeyVals>)
    returns (row': seq<Bucket>)
    requires RowHolds(row, done) && IsListing(bucket, part) && done.Keys !! part.Keys
    ensures RowHolds(row', done + part) && |row'| == |row|
  {
    row' := row;
    assert done + map[] == done;
    for t := 0 to |bucket|
      invariant |row'| == |row| && RowHolds(row', done + MapOf(bucket[..t]))
    {
      assert bucket[..t + 1][..t] == bucket[..t];
      MapOfKeys(bucket[..t]);
      KeySetHas(bucket[..t], bucket[t].key);
      row' := MapPutKvs(row', bucket[t], done + MapOf(bucket[..t]));
      assert (done + MapOf(bucket[..t]))[bucket[t].key := bucket[t]] == done + MapOf(bucket[..t + 1]);
    }
    assert bucket[..|bucket|] == bucket;
    ListingMap(bucket, part);
  }

  /** The entries of `m` in the first `i` columns. */
  ghost function FirstCols(m: map<Key, KeyVals>, i: nat, cols: nat): map<Key, KeyVals>
    requires cols > 0
  {
    map k | k in m && m[k].hash % cols < i :: m[k]
  }

  /** The loop of `mbm_rehash_bak`: the row of the backup, with any number of columns, moves to
      the new row, with any other number of columns. */
  method RehashRow(bak: seq<Bucket>, row: seq<Bucket>, ghost m: map<Key, KeyVals>) returns (row': seq<Bucket>)
    requires RowHolds(bak, m) && RowHolds(row, map[])
    ensures RowHolds(row', m) && |row'| == |row|
  {
    row' := row;
    assert FirstCols(m, 0, |bak|) == map[];
    for i := 0 to |bak|
      invariant |row'| == |row| && RowHolds(row', FirstCols(m, i, |bak|))
    {
      ghost var done, part := FirstCols(m, i, |bak|), ColOf(m, i, |bak|);
      row' := BktRehash(row', bak[i], done, part);
      assert done + part == FirstCols(m, i + 1, |bak|);
    }
    assert FirstCols(m, |bak|, |bak|) == m;
  }

  lemma EmptyRow(row: seq<Bucket>)
    requires |row| > 0 && forall c :: 0 <= c < |row| ==> row[c] == []
    ensures RowHolds(row, map[])
  {
    forall c: nat | c < |row| ensures IsListing(row[c], ColOf(map[], c, |row|)) {
      assert ColOf(map[], c, |row|) == map[];
    }
  }

  // --------------------------------------------------------------- the store

  /** `mapper_t`: a bucket for each row and column; no rows when it is not set up. */
  datatype Table = Table(cols: nat, mbks: seq<seq<Bucket>>)

  ghost function Upto(n: nat): (s: set<nat>)
    ensures forall r: nat :: r in s <==> r < n
  {
    if n == 0 then {} else Upto(n - 1) + {n - 1}
  }

  class KvStore {
    const app: App
    var mapper: Table
    var mapperBak: Table
    var hasBackup: bool
    ghost const hash: Key -> nat
    /** The pairs emitted so far, row by row. */
    ghost var log: seq<seq<Pair>>
    /** The rows whose sampled pairs are still in the backup. */
    ghost var pending: set<nat>

    ghost predicate Logged()
      reads this
    {
      forall r :: 0 <= r < |log| ==> Hashed(log[r], hash)
    }

    /** A row with its pairs in the table, or still in the backup. */
    ghost predicate RowOk(r: nat)
      reads this
      requires r < |log| && |mapper.mbks| == |log|
    {
      && |mapper.mbks[r]| == mapper.cols
      && if r in pending then
           hasBackup && |mapperBak.mbks| == |log|
           && RowHolds(mapper.mbks[r], map[]) && RowHolds(mapperBak.mbks[r], PutPairs(app, log[r]))
         else RowHolds(mapper.mbks[r], PutPairs(app, log[r]))
    }

    ghost predicate Valid()
      reads this
    {
      && Logged() && mapper.cols > 0 && |mapper.mbks| == |log|
      && forall r: nat :: r < |log| ==> RowOk(r)
    }

    /** Between the end of sampling and the set-up of the table for the run. */
    ghost predicate BackedUp()
      reads this
    {
      && Logged() && hasBackup && mapper.mbks == [] && |mapperBak.mbks| == |log|
      && forall r: nat :: r < |log| ==> RowHolds(mapperBak.mbks[r], PutPairs(app, log[r]))
    }

    /** Before anything was emitted. */
    ghost predicate Unused()
      reads this
    {
      !hasBackup && forall r :: 0 <= r < |log| ==> log[r] == []
    }

    constructor (app: App, ghost hash: Key -> nat, ghost rows: nat)
      ensures Unused() && |log| == rows && this.app == app && this.hash == hash
    {
      this.app, this.hash := app, hash;
      mapper, mapperBak, hasBackup := Table(0, []), Table(0, []), false;
      log := seq(rows, _ => []);
      pending := {};
    }

    /** `mbm_mbks_init`, called by `kvst_sample_init` and by `kvst_init`. */
    method MbksInit(rows: nat, cols: nat)
      requires (Unused() || BackedUp()) && rows == |log| && cols > 0
      modifies this
      ensures Valid() && log == old(log) && mapper.cols == cols && hasBackup == old(hasBackup)
      ensures pending == if hasBackup then Upto(rows) else {}
    {
      mapper := Table(cols, seq(rows, _ => seq(cols, _ => [])));
      pending := if hasBackup then Upto(rows) else {};
      forall r: nat | r < |log| ensures RowOk(r) {
        EmptyRow(mapper.mbks[r]);
      }
    }

    /** `mbm_map_put`. */
    method MapPut(row: nat, key: Key, val: Val, hashval: nat)
      requires Valid() && row < |log| && row !in pending && hashval == hash(key)
      modifies this
      ensures Valid() && log == old(log)[row := old(log)[row] + [Pair(key, val, hashval)]]
      ensures pending == old(pending) && mapper.cols == old(mapper.cols) && hasBackup == old(hasBackup)
    {
      hide PutPairs, PutPair, PutVal, RowHolds, Hashed;
      var col := hashval % mapper.cols;
      ghost var pairs := log[row] + [Pair(key, val, hashval)];
      assert RowOk(row);
      PutLogged(app, mapper.mbks[row], log[row], key, val, hash);
      var bucket := PutVal(app, mapper.mbks[row][col], key, val, hashval);
      mapper := mapper.(mbks := mapper.mbks[row := mapper.mbks[row][col := bucket]]);
      log := log[row := pairs];
      forall r: nat | r < |log| ensures RowOk(r) {
        assert old(RowOk(r));
      }
    }

    /** `mbm_mbks_bak` and the flag set with it in `kvst_sample_finished`. */
    method MbksBak()
      requires Valid() && pending == {}
      modifies this
      ensures BackedUp() && log == old(log)
    {
      mapperBak := mapper;
      mapper := Table(0, []);
      hasBackup := true;
      forall r: nat | r < |log| ensures RowHolds(mapperBak.mbks[r], PutPairs(app, log[r])) {
        assert old(RowOk(r));
      }
    }

    /** `kvst_map_worker_init`: a worker moves the sampled pairs of its row to the new table. */
    method MapWorkerInit(row: nat)
      requires Valid() && row < |log| && (row in pending <==> hasBackup)
      modifies this
      ensures Valid() && log == old(log) && pending == old(pending) - {row}
      ensures mapper.cols == old(mapper.cols) && hasBackup == old(hasBackup)
    {
      assert RowOk(row);
      if hasBackup {
        var row' := RehashRow(mapperBak.mbks[row], mapper.mbks[row], PutPairs(app, log[row]));
        mapper := mapper.(mbks := mapper.mbks[row := row']);
        mapperBak := mapperBak.(mbks := mapperBak.mbks[row := []]);
        pending := pending - {row};
        forall r: nat | r < |log| ensures RowOk(r) {
          assert old(RowOk(r));
        }
      }
    }

    /** `mbm_do_reduce_task`: reduce one column of the table. */
    method DoReduceTask(col: nat) returns (out: seq<Group>)
      requires Valid() && pending == {} && col < mapper.cols
      ensures ColumnOutput(app, log, col, mapper.cols, out)
    {
      var nodes: seq<Bucket> := [];
      ghost var rows := RowsInColumn(log, col, mapper.cols);
      for i := 0 to |mapper.mbks|
        invariant |nodes| == i
        invariant forall r :: 0 <= r < i ==> IsListing(nodes[r], PutPairs(app, rows[r]))
      {
        assert RowOk(i);
        ColumnPairs(app, log[i], hash, col, mapper.cols);
        nodes := nodes + [mapper.mbks[i][col]];
      }
      out := GroupKvs(app, nodes);
      assert Lists(app, rows, nodes);
    }
  }

  /** Putting a pair in the column of its hash puts it in the row. */
  lemma PutRow(app: App, row: seq<Bucket>, m: map<Key, KeyVals>, key: Key, val: Val, hash: nat)
    requires RowHolds(row, m) && (key in m ==> m[key].key == key && m[key].hash == hash)
    ensures RowHolds(row[hash % |row| := PutVal(app, row[hash % |row|], key, val, hash)],
                     PutPair(app, m, key, val, hash))
  {
    var col := hash % |row|;
    PutValListing(app, row[col], ColOf(m, col, |row|), key, val, hash);
    RowSet(row, m, NewEntry(app, m, key, val, hash), PutVal(app, row[col], key, val, hash));
  }

  /** A row that holds its pairs holds them with one more. */
  lemma PutLogged(app: App, row: seq<Bucket>, pairs: seq<Pair>, key: Key, val: Val, h: Key -> nat)
    requires RowHolds(row, PutPairs(app, pairs)) && Hashed(pairs, h)
    ensures var pairs' := pairs + [Pair(key, val, h(key))];
      && Hashed(pairs', h)
      && RowHolds(row[h(key) % |row| := PutVal(app, row[h(key) % |row|], key, val, h(key))], PutPairs(app, pairs'))
  {
    PutPairsHashed(app, pairs, h);
    PutPairsMeans(app, pairs, key);
    PutRow(app, row, PutPairs(app, pairs), key, val, h(key));
    var pairs' := pairs + [Pair(key, val, h(key))];
    assert pairs'[..|pairs|] == pairs;
  }

  ghost function RowsInColumn(log: seq<seq<Pair>>, col: nat, cols: nat): (rows: seq<seq<Pair>>)
    requires cols > 0
    ensures |rows| == |log| && forall i :: 0 <= i < |log| ==> rows[i] == InColumn(log[i], col, cols)
  {
    if log == [] then [] else RowsInColumn(log[..|log| - 1], col, cols) + [InColumn(log[|log| - 1], col, cols)]
  }

  /** `out` is the merge of the buckets of one column. */
  ghost predicate ColumnOutput(app: App, log: seq<seq<Pair>>, col: nat, cols: nat, out: seq<Group>)
    requires cols > 0
  {
    exists nodes :: Lists(app, RowsInColumn(log, col, cols), nodes) && Grouped(app, nodes, out)
  }

  // ------------------------------------------------------- what a run computes

  lemma {:induction false} InColumnValues(pairs: seq<Pair>, h: Key -> nat, c: nat, cols: nat, k: Key)
    requires Hashed(pairs, h) && cols > 0
    ensures ValuesOf(InColumn(pairs, c, cols), k) == if h(k) % cols == c then ValuesOf(pairs, k) else []
  {
    if pairs != [] {
      var init, last := pairs[..|pairs| - 1], pairs[|pairs| - 1];
      InColumnValues(init, h, c, cols, k);
      if last.hash % cols == c {
        ValuesOfConcat(InColumn(init, c, cols), [last], k);
        assert [last][..0] == [];
      } else {
        assert InColumn(pairs, c, cols) == InColumn(init, c, cols);
      }
    }
  }

  lemma {:induction false} ColumnValues(log: seq<seq<Pair>>, h: Key -> nat, c: nat, cols: nat, k: Key)
    requires cols > 0 && forall r :: 0 <= r < |log| ==> Hashed(log[r], h)
    ensures ValuesOf(Flat(RowsInColumn(log, c, cols)), k)
         == if h(k) % cols == c then ValuesOf(Flat(log), k) else []
  {
    if log != [] {
      var init, last := log[..|log| - 1], log[|log| - 1];
      ColumnValues(init, h, c, cols, k);
      InColumnValues(last, h, c, cols, k);
      ValuesOfConcat(Flat(init), last, k);
      ValuesOfConcat(Flat(RowsInColumn(init, c, cols)), InColumn(last, c, cols), k);
      assert RowsInColumn(log, c, cols)[..|log| - 1] == RowsInColumn(init, c, cols);
    }
  }

  /** Every key that was emitted is reduced in one column, that of its hash, and no other key is. */
  lemma ReducedOnce(app: App, log: seq<seq<Pair>>, h: Key -> nat, c: nat, cols: nat, out: seq<Group>, k: Key)
    requires cols > 0 && (forall r :: 0 <= r < |log| ==> Hashed(log[r], h))
    requires ColumnOutput(app, log, c, cols, out)
    ensures k in OutKeys(out) <==> h(k) % cols == c && ValuesOf(Flat(log), k) != []
  {
    var rows := RowsInColumn(log, c, cols);
    var nodes :| Lists(app, rows, nodes) && Grouped(app, nodes, out);
    GroupedKeys(app, rows, nodes, out, k);
    ColumnValues(log, h, c, cols, k);
  }

  /** A run that keeps all values outputs for each key all values emitted for it, none lost or duplicated,
      whether it sampled and rehashed or not. */
  lemma GroupRun(app: App, log: seq<seq<Pair>>, h: Key -> nat, c: nat, cols: nat, out: seq<Group>, j: nat)
    requires cols > 0 && (forall r :: 0 <= r < |log| ==> Hashed(log[r], h))
    requires app.KeepsAll() && ColumnOutput(app, log, c, cols, out) && j < |out|
    ensures out[j].vals == ValuesOf(Flat(log), out[j].key)
  {
    var rows := RowsInColumn(log, c, cols);
    var nodes :| Lists(app, rows, nodes) && Grouped(app, nodes, out);
    assert out[j].key in OutKeys(out);
    ReducedOnce(app, log, h, c, cols, out, out[j].key);
    GroupMeaning(app, rows, nodes, out, j);
    ColumnValues(log, h, c, cols, out[j].key);
  }

  /** A reducing run hands on for each key values that fold to the fold of all values emitted. */
  lemma ReduceRun(app: App, op: (Val, Val) -> Val, log: seq<seq<Pair>>, h: Key -> nat, c: nat, cols: nat,
                  out: seq<Group>, j: nat)
    requires cols > 0 && (forall r :: 0 <= r < |log| ==> Hashed(log[r], h))
    requires Commutative(op) && KeepsFold(app, op)
    requires ColumnOutput(app, log, c, cols, out) && j < |out|
    ensures |out[j].vals| > 0 && |ValuesOf(Flat(log), out[j].key)| > 0
    ensures app.UsesVm() ==> |out[j].vals| == 1
    ensures Fold(op, out[j].vals) == Fold(op, ValuesOf(Flat(log), out[j].key))
  {
    var rows := RowsInColumn(log, c, cols);
    var nodes :| Lists(app, rows, nodes) && Grouped(app, nodes, out);
    assert out[j].key in OutKeys(out);
    ReducedOnce(app, log, h, c, cols, out, out[j].key);
    ReduceMeaning(app, op, rows, nodes, out, j);
    ColumnValues(log, h, c, cols, out[j].key);
  }
}
