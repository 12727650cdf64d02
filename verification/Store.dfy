/**
 The key-value store shared by the inbox tracker and the streamer, at the level of its tables, and
 the ordered write batches that change it. `SledStore` shows how keys and values become bytes.
 */
module Store {
  import opened Basics
  import opened Message

  datatype BatchMetadata = BatchMetadata(
    accumulator: Hash32,
    messageCount: nat,
    delayedMessageCount: u64,
    parentChainBlock: nat)

  datatype Table =
    | MessageTable
    | BlockHashTable
    | ResultTable
    | LegacyDelayedTable
    | DelayedTable
    | ParentChainBlockTable
    | BatchMetaTable
    | DelayedSequencedTable

  datatype Key =
    | Row(table: Table, index: nat)
    | MessageCountKey
    | DelayedCountKey
    | BatchCountKey

  datatype Value =
    | StoredMessage(message: MessageWithMetadata)
    | StoredBlockHash(hash: Option<Hash32>)
    | StoredResult(result: MessageResult)
    | StoredDelayed(prev: Hash32, bytes: Bytes)
    | StoredMeta(meta: BatchMetadata)
    | StoredNumber(number: nat)

  type KeyValues = map<Key, Value>

  // ----- keys of the tables the pipeline uses

  function DelayedKey(i: nat): Key {
    Row(DelayedTable, i)
  }

  function LegacyDelayedKey(i: nat): Key {
    Row(LegacyDelayedTable, i)
  }

  function MetaKey(i: nat): Key {
    Row(BatchMetaTable, i)
  }

  function SequencedKey(i: nat): Key {
    Row(DelayedSequencedTable, i)
  }

  function MessageKey(i: nat): Key {
    Row(MessageTable, i)
  }

  function BlockHashKey(i: nat): Key {
    Row(BlockHashTable, i)
  }

  function ResultKey(i: nat): Key {
    Row(ResultTable, i)
  }

  /** The keys of `table` at or above `start`. */
  ghost function KeysFrom(kv: KeyValues, table: Table, start: nat): set<Key> {
    set k | k in kv && k.Row? && k.table == table && k.index >= start
  }

  ghost function DropFrom(kv: KeyValues, table: Table, start: nat): KeyValues {
    kv - KeysFrom(kv, table, start)
  }

  /** The number under `k`, or nothing when it is missing or something else. */
  function NumberAt(kv: KeyValues, k: Key): Option<nat> {
    if k in kv && kv[k].StoredNumber? then Some(kv[k].number) else None
  }

  // ----- write batches

  datatype Op = Put(key: Key, value: Value) | Del(key: Key)

  function ApplyOp(kv: KeyValues, op: Op): KeyValues {
    match op
    case Put(k, v) => kv[k := v]
    case Del(k) => kv - {k}
  }

  /** Operations take effect in the order they were added. */
  function Apply(kv: KeyValues, ops: seq<Op>): KeyValues {
    if ops == [] then kv else ApplyOp(Apply(kv, ops[..|ops| - 1]), ops[|ops| - 1])
  }

  lemma ApplyLast(kv: KeyValues, ops: seq<Op>, op: Op)
    ensures Apply(kv, ops + [op]) == ApplyOp(Apply(kv, ops), op)
  {
    assert (ops + [op])[..|ops|] == ops;
  }

  class Batch {
    var ops: seq<Op>

    constructor ()
      ensures ops == []
    {
      ops := [];
    }

    method Put(k: Key, v: Value, ghost base: KeyValues)
      modifies this
      ensures ops == old(ops) + [Op.Put(k, v)]
      ensures Apply(base, ops) == Apply(base, old(ops))[k := v]
    {
      ApplyLast(base, ops, Op.Put(k, v));
      ops := ops + [Op.Put(k, v)];
    }

    method Delete(k: Key, ghost base: KeyValues)
      modifies this
      ensures ops == old(ops) + [Del(k)]
      ensures Apply(base, ops) == Apply(base, old(ops)) - {k}
    {
      ApplyLast(base, ops, Del(k));
      ops := ops + [Del(k)];
    }
  }

  predicate Ascending(rows: seq<nat>) {
    forall i, j | 0 <= i < j < |rows| :: rows[i] < rows[j]
  }

  /** `rows` are, in order, the stored rows of `table` from `start` on. */
  ghost predicate Lists(kv: KeyValues, table: Table, start: nat, rows: seq<nat>) {
    && Ascending(rows)
    && (forall i: nat :: i in rows <==> Row(table, i) in kv && i >= start)
  }

  /** An ordered scan over the rows of one table. */
  class Iterator {
    const rows: seq<nat>
    var visited: nat

    constructor (rows: seq<nat>)
      ensures this.rows == rows && visited == 0
    {
      this.rows := rows;
      visited := 0;
    }

    method Next() returns (found: bool)
      modifies this
      ensures found <==> old(visited) < |rows|
      ensures visited == if found then old(visited) + 1 else old(visited)
    {
      found := visited < |rows|;
      if found {
        visited := visited + 1;
      }
    }

    function Current(): nat
      requires 0 < visited <= |rows|
      reads this
    {
      rows[visited - 1]
    }
  }

  method Least(s: set<nat>) returns (least: nat)
    requires s != {}
    ensures least in s && forall i | i in s :: least <= i
  {
    least :| least in s;
    var rest := s - {least};
    while rest != {}
      invariant rest <= s && least in s
      invariant forall i | i in s && i !in rest :: least <= i
      decreases |rest|
    {
      var i :| i in rest;
      rest := rest - {i};
      if i < least {
        least := i;
      }
    }
  }

  method Sorted(s: set<nat>) returns (rows: seq<nat>)
    ensures Ascending(rows)
    ensures forall i :: i in rows <==> i in s
  {
    rows := [];
    var rest := s;
    while rest != {}
      invariant Ascending(rows)
      invariant forall i :: i in s <==> i in rows || i in rest
      invariant forall i, j | i in rows && j in rest :: i < j
      decreases |rest|
    {
      var least := Least(rest);
      forall i | 0 <= i < |rows|
        ensures rows[i] < least
      {
        assert rows[i] in rows && least in rest;
      }
      rows := rows + [least];
      rest := rest - {least};
    }
  }

  class Database {
    var kv: KeyValues
    /** Every content the store has held since it was opened: a crash leaves one of these. */
    ghost var commits: seq<KeyValues>

    constructor (kv: KeyValues)
      ensures this.kv == kv && commits == []
    {
      this.kv := kv;
      commits := [];
    }

    method NewIterator(table: Table, start: nat) returns (it: Iterator)
      ensures fresh(it) && it.visited == 0
      ensures Lists(kv, table, start, it.rows)
    {
      var indexes := set k | k in kv.Keys && k.Row? && k.table == table && k.index >= start :: k.index;
      var rows := Sorted(indexes);
      forall i: nat
        ensures i in indexes <==> Row(table, i) in kv && i >= start
      {
        if Row(table, i) in kv && i >= start {
          assert Row(table, i).index == i;
        }
      }
      it := new Iterator(rows);
    }

    /** A batch is committed as a whole. */
    method Write(batch: Batch)
      modifies this
      ensures kv == Apply(old(kv), batch.ops)
      ensures commits == old(commits) + [kv]
    {
      kv := ApplyAll(kv, batch.ops);
      commits := commits + [kv];
    }
  }

  method ApplyAll(kv: KeyValues, ops: seq<Op>) returns (r: KeyValues)
    ensures r == Apply(kv, ops)
  {
    r := kv;
    for i := 0 to |ops|
      invariant r == Apply(kv, ops[..i])
    {
      ApplyLast(kv, ops[..i], ops[i]);
      assert ops[..i + 1] == ops[..i] + [ops[i]];
      match ops[i]
      case Put(k, v) => r := r[k := v];
      case Del(k) => r := r - {k};
    }
    assert ops[..|ops|] == ops;
  }

  ghost function Rows(table: Table, rows: seq<nat>): set<Key> {
    set i | i in rows :: Row(table, i)
  }

  lemma ListedRows(kv: KeyValues, table: Table, start: nat, rows: seq<nat>)
    requires Lists(kv, table, start, rows)
    ensures Rows(table, rows) == KeysFrom(kv, table, start)
  {
    forall k | k in KeysFrom(kv, table, start)
      ensures k in Rows(table, rows)
    {
      assert k == Row(table, k.index) && k.index in rows;
    }
  }

  lemma NoRows(table: Table)
    ensures Rows(table, []) == {}
  {
  }

  lemma OneMoreRow(kv: KeyValues, table: Table, rows: seq<nat>, n: nat)
    requires n < |rows|
    ensures (kv - Rows(table, rows[..n])) - {Row(table, rows[n])} == kv - Rows(table, rows[..n + 1])
  {
    assert rows[..n + 1] == rows[..n] + [rows[n]];
    assert Rows(table, rows[..n + 1]) == Rows(table, rows[..n]) + {Row(table, rows[n])};
  }

  /** Adds a delete for every stored row of `table` from `start` on; the batch may hold other operations already. */
  method DeleteStartingAt(db: Database, batch: Batch, table: Table, start: nat, ghost base: KeyValues)
    modifies batch
    ensures Apply(base, batch.ops) == Apply(base, old(batch.ops)) - KeysFrom(db.kv, table, start)
  {
    hide Apply, KeysFrom, Rows, Lists;
    var it := db.NewIterator(table, start);
    ghost var staged := Apply(base, batch.ops);
    NoRows(table);
    assert it.rows[..0] == [];
    var found := it.Next();
    while found
      invariant fresh(it) && it.visited <= |it.rows|
      invariant found ==> it.visited > 0
      invariant !found ==> it.visited == |it.rows|
      invariant Apply(base, batch.ops) == staged - Rows(table, it.rows[..it.visited - if found then 1 else 0])
      decreases |it.rows| - it.visited, found
    {
      batch.Delete(Row(table, it.Current()), base);
      OneMoreRow(staged, table, it.rows, it.visited - 1);
      found := it.Next();
    }
    assert it.rows[..|it.rows|] == it.rows;
    ListedRows(db.kv, table, start, it.rows);
  }
}
