/** Replay of the attempt journal: one record per attempt, the last one, in a stable order. */
module Journal {
  import opened Wrappers
  import opened Sequences
  import opened TextOrder

  /** What records are ordered by; an attempt id is part of it, and blank for records without one. */
  datatype Key = Key(started: string, job: string, number: int, id: string)

  datatype Record = Record(key: Key, body: string)

  predicate KeyLess(a: Key, b: Key) {
    || TextLess(a.started, b.started)
    || (a.started == b.started
        && (TextLess(a.job, b.job)
            || (a.job == b.job && (a.number < b.number || (a.number == b.number && TextLess(a.id, b.id))))))
  }

  lemma KeyOrder(a: Key, b: Key, c: Key)
    ensures !KeyLess(a, a)
    ensures KeyLess(a, b) ==> !KeyLess(b, a)
    ensures a != b ==> KeyLess(a, b) || KeyLess(b, a)
    ensures KeyLess(a, b) && KeyLess(b, c) ==> KeyLess(a, c)
  {
    TextsCompare(a.started, b.started);
    TextsCompare(a.job, b.job);
    TextsCompare(a.id, b.id);
    TextsCompare(a.started, a.started);
    TextsCompare(a.job, a.job);
    TextsCompare(a.id, a.id);
    if KeyLess(a, b) && KeyLess(b, c) {
      if TextLess(a.started, b.started) && TextLess(b.started, c.started) {
        TextTransitive(a.started, b.started, c.started);
      }
      if TextLess(a.job, b.job) && TextLess(b.job, c.job) {
        TextTransitive(a.job, b.job, c.job);
      }
      if TextLess(a.id, b.id) && TextLess(b.id, c.id) {
        TextTransitive(a.id, b.id, c.id);
      }
    }
  }

  // ----- Stable sorting -----

  predicate IsSorted(s: seq<Record>) {
    forall i, j | 0 <= i < j < |s| :: !KeyLess(s[j].key, s[i].key)
  }

  /** The records of one key, in their order. */
  function WithKey(k: Key, s: seq<Record>): seq<Record> {
    Filter((r: Record) => r.key == k, s)
  }

  function Insert(r: Record, s: seq<Record>): seq<Record> {
    if s == [] || !KeyLess(s[0].key, r.key) then [r] + s else [s[0]] + Insert(r, s[1..])
  }

  function StableSort(s: seq<Record>): seq<Record> {
    if s == [] then [] else Insert(s[0], StableSort(s[1..]))
  }

  lemma WithKeyCons(k: Key, r: Record, s: seq<Record>)
    ensures WithKey(k, [r] + s) == if r.key == k then [r] + WithKey(k, s) else WithKey(k, s)
  {
    var all := [r] + s;
    assert all[0] == r && all[1..] == s;
  }

  lemma {:induction false} InsertIsStable(r: Record, s: seq<Record>, k: Key)
    requires IsSorted(s)
    ensures WithKey(k, Insert(r, s)) == if r.key == k then [r] + WithKey(k, s) else WithKey(k, s)
  {
    hide KeyLess, WithKey;
    if s == [] || !KeyLess(s[0].key, r.key) {
      WithKeyCons(k, r, s);
    } else {
      assert s == [s[0]] + s[1..];
      InsertIsStable(r, s[1..], k);
      WithKeyCons(k, s[0], Insert(r, s[1..]));
      WithKeyCons(k, s[0], s[1..]);
      KeyOrder(r.key, r.key, r.key);
    }
  }

  lemma {:induction false} InsertKeeps(r: Record, s: seq<Record>, x: Record)
    ensures x in Insert(r, s) <==> x == r || x in s
  {
    hide KeyLess;
    if s != [] && KeyLess(s[0].key, r.key) {
      InsertKeeps(r, s[1..], x);
      assert s == [s[0]] + s[1..];
    }
  }

  lemma {:induction false} InsertSorts(r: Record, s: seq<Record>)
    requires IsSorted(s)
    ensures IsSorted(Insert(r, s))
  {
    hide KeyLess;
    if s == [] {
    } else if !KeyLess(s[0].key, r.key) {
      forall j | 0 <= j < |s| ensures !KeyLess(s[j].key, r.key) {
        KeyOrder(s[0].key, s[j].key, r.key);
        KeyOrder(s[j].key, r.key, s[0].key);
      }
    } else {
      InsertSorts(r, s[1..]);
      var rest := Insert(r, s[1..]);
      forall j | 0 <= j < |rest| ensures !KeyLess(rest[j].key, s[0].key) {
        InsertKeeps(r, s[1..], rest[j]);
        if rest[j] == r {
          KeyOrder(s[0].key, r.key, r.key);
        } else {
          var i :| 0 <= i < |s[1..]| && s[1..][i] == rest[j];
          assert s[i + 1] == rest[j];
        }
      }
    }
  }

  lemma {:induction false} SortIsStable(s: seq<Record>)
    ensures IsSorted(StableSort(s))
    ensures forall k :: WithKey(k, StableSort(s)) == WithKey(k, s)
  {
    hide KeyLess, WithKey, Insert;
    if s != [] {
      SortIsStable(s[1..]);
      InsertSorts(s[0], StableSort(s[1..]));
      assert s == [s[0]] + s[1..];
      forall k ensures WithKey(k, StableSort(s)) == WithKey(k, s) {
        InsertIsStable(s[0], StableSort(s[1..]), k);
        WithKeyCons(k, s[0], s[1..]);
      }
    } else {
      assert IsSorted(StableSort(s));
    }
  }

  /** A sorted list is determined by the records of each key. */
  lemma {:induction false} SortedIsUnique(a: seq<Record>, b: seq<Record>)
    requires IsSorted(a) && IsSorted(b) && forall k :: WithKey(k, a) == WithKey(k, b)
    ensures a == b
  {
    hide KeyLess;
    if a == [] {
      if b != [] {
        NothingWithKey(b[0].key);
        FirstHasKey(b);
      }
    } else {
      FirstHasKey(a);
      assert b != [] by {
        assert WithKey(a[0].key, a) != [];
      }
      FirstHasKey(b);
      SmallestFirst(a, b);
      SmallestFirst(b, a);
      KeyOrder(a[0].key, b[0].key, a[0].key);
      assert a == [a[0]] + a[1..] && b == [b[0]] + b[1..];
      forall k ensures WithKey(k, a[1..]) == WithKey(k, b[1..]) {
        WithKeyCons(k, a[0], a[1..]);
        WithKeyCons(k, b[0], b[1..]);
        assert WithKey(k, a) == WithKey(k, b);
        assert a[0].key == k ==> WithKey(k, a)[1..] == WithKey(k, a[1..]) && WithKey(k, b)[1..] == WithKey(k, b[1..]);
      }
      SortedIsUnique(a[1..], b[1..]);
    }
  }

  lemma FirstHasKey(s: seq<Record>)
    requires s != []
    ensures |WithKey(s[0].key, s)| > 0 && WithKey(s[0].key, s)[0] == s[0]
  {
    assert s == [s[0]] + s[1..];
    WithKeyCons(s[0].key, s[0], s[1..]);
  }

  lemma SmallestFirst(a: seq<Record>, b: seq<Record>)
    requires a != [] && b != [] && IsSorted(a) && forall k :: WithKey(k, a) == WithKey(k, b)
    ensures !KeyLess(b[0].key, a[0].key)
  {
    hide KeyLess;
    FirstHasKey(b);
    assert b[0] in WithKey(b[0].key, a);
    assert b[0] in a;
    var i :| 0 <= i < |a| && a[i] == b[0];
    KeyOrder(a[0].key, a[0].key, a[0].key);
  }

  // ----- Replay -----

  function Latest(records: seq<Record>, id: string): Option<Record> {
    if records == [] then None
    else
      var n := |records| - 1;
      if records[n].key.id == id then Some(records[n]) else Latest(records[..n], id)
  }

  /**
   * `out` replays `records`: it is sorted, holds exactly the last record of every attempt, and every
   * record without an attempt, those of equal keys in their original order.
   */
  ghost predicate Replays(out: seq<Record>, records: seq<Record>) {
    && IsSorted(out)
    && forall k :: WithKey(k, out) == Kept(k, records)
  }

  /** What a replay keeps under one key. */
  function Kept(k: Key, records: seq<Record>): seq<Record> {
    if k.id == "" then WithKey(k, records)
    else
      var r := Latest(records, k.id);
      if r.Some? && r.value.key == k then [r.value] else []
  }

  lemma {:induction false} LatestHasId(records: seq<Record>, id: string)
    ensures Latest(records, id).Some? ==> Latest(records, id).value.key.id == id && Latest(records, id).value in records
    ensures Latest(records, id).None? <==> forall i | 0 <= i < |records| :: records[i].key.id != id
  {
    if records != [] {
      var n := |records| - 1;
      LatestHasId(records[..n], id);
      assert forall i | 0 <= i < n :: records[..n][i] == records[i];
    }
  }

  function Values(order: seq<string>, table: map<string, Record>): seq<Record>
    requires forall i | 0 <= i < |order| :: order[i] in table
  {
    seq(|order|, i requires 0 <= i < |order| => table[order[i]])
  }

  lemma {:induction false} ValuesWithKey(order: seq<string>, table: map<string, Record>, k: Key)
    requires Distinct(order) && (forall i | 0 <= i < |order| :: order[i] in table)
    requires forall id | id in table :: table[id].key.id == id
    ensures WithKey(k, Values(order, table)) == if k.id in order && table[k.id].key == k then [table[k.id]] else []
  {
    hide WithKey;
    if order != [] {
      var rest := order[1..];
      assert order == [order[0]] + rest;
      assert Values(order, table) == [table[order[0]]] + Values(rest, table);
      ValuesWithKey(rest, table, k);
      WithKeyCons(k, table[order[0]], Values(rest, table));
      assert order[0] !in rest;
    } else {
      assert Values(order, table) == [];
      NothingWithKey(k);
    }
  }

  lemma NothingWithKey(k: Key)
    ensures WithKey(k, []) == []
  {
  }

  lemma WithKeySnoc(k: Key, s: seq<Record>, r: Record)
    ensures WithKey(k, s + [r]) == if r.key == k then WithKey(k, s) + [r] else WithKey(k, s)
  {
    FilterAppend((r: Record) => r.key == k, s, [r]);
    if r.key == k {
      FilterAll((r: Record) => r.key == k, [r]);
    } else {
      FilterNone((r: Record) => r.key == k, [r]);
    }
  }

  /** What the loop knows after a prefix of the journal. */
  ghost predicate Gathered(table: map<string, Record>, order: seq<string>, unkeyed: seq<Record>, records: seq<Record>) {
    && Elements(order) == table.Keys && Distinct(order)
    && "" !in table && (forall id | id in table :: table[id].key.id == id)
    && (forall id :: id != "" ==> Latest(records, id) == if id in table then Some(table[id]) else None)
    && forall k :: WithKey(k, unkeyed) == if k.id == "" then WithKey(k, records) else []
  }

  lemma NothingGathered()
    ensures Gathered(map[], [], [], [])
  {
    forall k ensures WithKey(k, []) == [] {
      NothingWithKey(k);
    }
  }

  lemma LatestSnoc(records: seq<Record>, r: Record, id: string)
    ensures Latest(records + [r], id) == if r.key.id == id then Some(r) else Latest(records, id)
  {
    assert (records + [r])[..|records|] == records;
  }

  lemma GatherKeyed(table: map<string, Record>, order: seq<string>, unkeyed: seq<Record>, records: seq<Record>, r: Record)
    requires Gathered(table, order, unkeyed, records) && r.key.id != ""
    ensures Gathered(table[r.key.id := r], if r.key.id in table then order else order + [r.key.id], unkeyed, records + [r])
  {
    hide WithKey, Latest;
    forall id ensures Latest(records + [r], id) == if r.key.id == id then Some(r) else Latest(records, id) {
      LatestSnoc(records, r, id);
    }
    forall k: Key | k.id == "" ensures WithKey(k, records + [r]) == WithKey(k, records) {
      WithKeySnoc(k, records, r);
    }
    assert forall i | 0 <= i < |order| :: order[i] in Elements(order);
  }

  lemma GatherUnkeyed(table: map<string, Record>, order: seq<string>, unkeyed: seq<Record>, records: seq<Record>, r: Record)
    requires Gathered(table, order, unkeyed, records) && r.key.id == ""
    ensures Gathered(table, order, unkeyed + [r], records + [r])
  {
    hide WithKey, Latest;
    forall id | id != "" ensures Latest(records + [r], id) == Latest(records, id) {
      LatestSnoc(records, r, id);
    }
    forall k ensures WithKey(k, unkeyed + [r]) == if k.id == "" then WithKey(k, records + [r]) else [] {
      WithKeySnoc(k, records, r);
      WithKeySnoc(k, unkeyed, r);
    }
  }

  lemma GatheredReplays(table: map<string, Record>, order: seq<string>, unkeyed: seq<Record>, records: seq<Record>)
    requires Gathered(table, order, unkeyed, records)
    ensures forall i | 0 <= i < |order| :: order[i] in table
    ensures Replays(StableSort(Values(order, table) + unkeyed), records)
  {
    hide KeyLess, WithKey, StableSort, IsSorted;
    assert forall i | 0 <= i < |order| :: order[i] in Elements(order);
    var unique := Values(order, table) + unkeyed;
    SortIsStable(unique);
    forall k ensures WithKey(k, StableSort(unique)) == Kept(k, records) {
      ValuesWithKey(order, table, k);
      WithKeyAppend(k, Values(order, table), unkeyed);
      assert k.id in Elements(order) <==> k.id in table;
    }
  }

  /** The replay: a table of attempts that later records overwrite, a list of the others, one stable sort. */
  method JournalRecords(records: seq<Record>) returns (out: seq<Record>)
    ensures Replays(out, records)
  {
    hide Gathered, Replays, StableSort;
    var table: map<string, Record> := map[];
    var order: seq<string> := [];
    var unkeyed: seq<Record> := [];
    NothingGathered();
    assert records[..0] == [];
    for i := 0 to |records|
      invariant Gathered(table, order, unkeyed, records[..i])
    {
      var r := records[i];
      assert records[..i + 1] == records[..i] + [r];
      if r.key.id != "" {
        GatherKeyed(table, order, unkeyed, records[..i], r);
        if r.key.id !in table {
          order := order + [r.key.id];
        }
        table := table[r.key.id := r];
      } else {
        GatherUnkeyed(table, order, unkeyed, records[..i], r);
        unkeyed := unkeyed + [r];
      }
    }
    assert records[..|records|] == records;
    GatheredReplays(table, order, unkeyed, records);
    out := StableSort(Values(order, table) + unkeyed);
  }

  lemma WithKeyAppend(k: Key, a: seq<Record>, b: seq<Record>)
    ensures WithKey(k, a + b) == WithKey(k, a) + WithKey(k, b)
  {
    FilterAppend((r: Record) => r.key == k, a, b);
  }

  // ----- Results -----

  lemma ReplayIsUnique(a: seq<Record>, b: seq<Record>, records: seq<Record>)
    requires Replays(a, records) && Replays(b, records)
    ensures a == b
  {
    hide WithKey, IsSorted;
    SortedIsUnique(a, b);
  }

  lemma {:induction false} LatestAppend(a: seq<Record>, b: seq<Record>, id: string)
    ensures Latest(a + b, id) == if Latest(b, id).Some? then Latest(b, id) else Latest(a, id)
  {
    if b == [] {
      assert a + b == a;
    } else {
      var n := |b| - 1;
      assert (a + b)[..|a + b| - 1] == a + b[..n];
      LatestAppend(a, b[..n], id);
    }
  }

  /** A replay has one record per attempt at most, and it is the latest. */
  lemma ReplayHasLatest(out: seq<Record>, records: seq<Record>, id: string)
    requires Replays(out, records) && id != ""
    ensures Latest(out, id) == Latest(records, id)
    ensures forall i, j | 0 <= i < j < |out| && out[i].key.id == id :: out[j].key.id != id
  {
    hide WithKey, IsSorted;
    LatestHasId(out, id);
    LatestHasId(records, id);
    forall r | r in out && r.key.id == id ensures Latest(records, id) == Some(r) {
      InWithKey(r, out);
      assert r in Kept(r.key, records);
    }
    if Latest(records, id).Some? {
      var r := Latest(records, id).value;
      assert WithKey(r.key, out) == [r];
      WithKeyIn(r.key, out);
      assert r in WithKey(r.key, out) && r in out;
    }
    forall i, j | 0 <= i < j < |out| && out[i].key.id == id ensures out[j].key.id != id {
      assert out[i] in out && out[j] in out;
      assert WithKey(out[i].key, out) == Kept(out[i].key, records);
      if out[j].key == out[i].key {
        TwiceInWithKey(out, i, j);
      }
    }
  }

  lemma InWithKey(r: Record, s: seq<Record>)
    requires r in s
    ensures r in WithKey(r.key, s)
  {
  }

  lemma WithKeyIn(k: Key, s: seq<Record>)
    ensures forall r | r in WithKey(k, s) :: r in s && r.key == k
  {
  }

  lemma TwiceInWithKey(s: seq<Record>, i: nat, j: nat)
    requires i < j < |s| && s[i].key == s[j].key
    ensures |WithKey(s[i].key, s)| >= 2
  {
    var k := s[i].key;
    assert s == s[..j] + s[j..];
    WithKeyAppend(k, s[..j], s[j..]);
    assert s[..j][i] in s[..j] && s[j] in s[j..];
    InWithKey(s[i], s[..j]);
    InWithKey(s[j], s[j..]);
  }

  /**
   * Replacing any prefix of the journal by a snapshot of its replay leaves the replay of the whole
   * journal unchanged.
   */
  lemma CompactionIsTransparent(
    prefix: seq<Record>, suffix: seq<Record>, snapshot: seq<Record>, compacted: seq<Record>, full: seq<Record>)
    requires Replays(snapshot, prefix)
    requires Replays(compacted, snapshot + suffix) && Replays(full, prefix + suffix)
    ensures compacted == full
  {
    hide WithKey, IsSorted, Latest;
    forall k ensures Kept(k, snapshot + suffix) == Kept(k, prefix + suffix) {
      if k.id == "" {
        WithKeyAppend(k, snapshot, suffix);
        WithKeyAppend(k, prefix, suffix);
        assert WithKey(k, snapshot) == Kept(k, prefix);
      } else {
        LatestAppend(snapshot, suffix, k.id);
        LatestAppend(prefix, suffix, k.id);
        ReplayHasLatest(snapshot, prefix, k.id);
      }
    }
    SortedIsUnique(compacted, full);
  }
}
