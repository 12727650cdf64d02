/**
 The store as bytes: one-byte table prefixes followed by big-endian indexes, values in their stored encodings,
 a sorted byte-keyed tree, and a scan bounded by a prefix. Everything `Store` says about tables is true of it.
 */
module SledStore {
  import opened Basics
  import opened BigEndian
  import opened Rlp
  import opened L1Message
  import opened Message
  import opened Store

  // ----- keys

  function PrefixByte(t: Table): byte {
    match t
    case MessageTable => 'm' as int
    case BlockHashTable => 'b' as int
    case ResultTable => 'r' as int
    case LegacyDelayedTable => 'd' as int
    case DelayedTable => 'e' as int
    case ParentChainBlockTable => 'p' as int
    case BatchMetaTable => 's' as int
    case DelayedSequencedTable => 'a' as int
  }

  function Ascii(s: string): (b: Bytes)
    ensures |b| == |s|
    ensures forall i | 0 <= i < |s| :: b[i] == s[i] as int % 256
  {
    if s == "" then [] else [s[0] as int % 256] + Ascii(s[1..])
  }

  /** Indexes fit a machine word. */
  predicate Fits(k: Key) {
    k.Row? ==> k.index < U64_LIMIT
  }

  function KeyBytes(k: Key): Bytes {
    match k
    case Row(t, i) => [PrefixByte(t)] + ToBytes(i, 8)
    case MessageCountKey => Ascii("_messageCount")
    case DelayedCountKey => Ascii("_delayedMessageCount")
    case BatchCountKey => Ascii("_sequencerBatchCount")
  }

  lemma PrefixesDiffer(t: Table, u: Table)
    ensures PrefixByte(t) == PrefixByte(u) ==> t == u
    ensures PrefixByte(t) != '_' as int
  {
  }

  lemma CountKeys(k: Key)
    requires !k.Row?
    ensures |KeyBytes(k)| > 9 && KeyBytes(k)[0] == '_' as int
    ensures KeyBytes(k)[1] == (if k.MessageCountKey? then 'm' else if k.DelayedCountKey? then 'd' else 's') as int
  {
    hide Ascii;
    match k
    case MessageCountKey => assert KeyBytes(k) == Ascii("_messageCount");
    case DelayedCountKey => assert KeyBytes(k) == Ascii("_delayedMessageCount");
    case BatchCountKey => assert KeyBytes(k) == Ascii("_sequencerBatchCount");
  }

  lemma RowKeys(t: Table, i: nat)
    requires i < U64_LIMIT
    ensures var b := KeyBytes(Row(t, i));
            |b| == 9 && b[0] == PrefixByte(t) && b[1..] == ToBytes(i, 8) && FromBytes(b[1..]) == i
  {
    FromTo64(i);
  }

  /** Different keys have different bytes, and none of them is a prefix of another table's keys. */
  lemma KeysDiffer(k: Key, l: Key)
    requires Fits(k) && Fits(l)
    ensures KeyBytes(k) == KeyBytes(l) <==> k == l
  {
    hide ToBytes, FromBytes, Ascii, KeyBytes, PrefixByte;
    if k.Row? {
      RowKeys(k.table, k.index);
    } else {
      CountKeys(k);
    }
    if l.Row? {
      RowKeys(l.table, l.index);
    } else {
      CountKeys(l);
    }
    if k.Row? && l.Row? {
      PrefixesDiffer(k.table, l.table);
    }
  }

  /** Scanning the keys of one table in byte order scans its indexes in numeric order. */
  lemma KeyOrder(t: Table, i: nat, j: nat)
    requires i < U64_LIMIT && j < U64_LIMIT
    ensures LexLess(KeyBytes(Row(t, i)), KeyBytes(Row(t, j))) <==> i < j
  {
    hide ToBytes, FromBytes;
    FromTo64(i);
    FromTo64(j);
    LexCommonPrefix([PrefixByte(t)], ToBytes(i, 8), ToBytes(j, 8));
    LexIsNumeric(ToBytes(i, 8), ToBytes(j, 8));
  }

  // ----- values

  function EncodeMeta(m: BatchMetadata): Bytes
    requires m.messageCount < U64_LIMIT && m.parentChainBlock < U64_LIMIT
  {
    EncodeString(m.accumulator)
    + (EncodeU64(m.messageCount) + (EncodeU64(m.delayedMessageCount) + EncodeU64(m.parentChainBlock)))
  }

  function DecodeMeta(b: Bytes): Option<BatchMetadata> {
    var (acc, p1) :- DecodeHash(b);
    var (messages, p2) :- DecodeU64(p1);
    var (delayed, p3) :- DecodeU64(p2);
    var (block, _) :- DecodeU64(p3);
    Some(BatchMetadata(acc, messages, delayed, block))
  }

  lemma MetaRoundTrip(m: BatchMetadata)
    requires m.messageCount < U64_LIMIT && m.parentChainBlock < U64_LIMIT
    ensures DecodeMeta(EncodeMeta(m)) == Some(m)
  {
    hide EncodeU64, DecodeU64, EncodeString, DecodeHash;
    var block := EncodeU64(m.parentChainBlock);
    var e2 := EncodeU64(m.delayedMessageCount) + block;
    var e1 := EncodeU64(m.messageCount) + e2;
    HashRoundTrip(m.accumulator, e1);
    U64RoundTrip(m.messageCount, e2);
    U64RoundTrip(m.delayedMessageCount, block);
    assert block + [] == block;
    U64RoundTrip(m.parentChainBlock, []);
  }

  /** The value is of the kind kept under `k`, and its numbers fit machine words. */
  predicate Proper(form: VecForm, k: Key, v: Value) {
    match k
    case Row(MessageTable, _) => v.StoredMessage? && MetadataLength(form, v.message) < U64_LIMIT
    case Row(BlockHashTable, _) => v.StoredBlockHash?
    case Row(ResultTable, _) => v.StoredResult?
    case Row(LegacyDelayedTable, _) => v.StoredDelayed?
    case Row(DelayedTable, _) => v.StoredDelayed?
    case Row(BatchMetaTable, _) =>
      v.StoredMeta? && v.meta.messageCount < U64_LIMIT && v.meta.parentChainBlock < U64_LIMIT
    case _ => v.StoredNumber? && v.number < U64_LIMIT
  }

  function ValueBytes(form: VecForm, k: Key, v: Value): Bytes
    requires Proper(form, k, v)
  {
    match v
    case StoredMessage(m) => EncodeMetadata(form, m)
    case StoredBlockHash(h) => EncodeBlockHash(h)
    case StoredResult(r) => EncodeResult(r)
    case StoredDelayed(prev, bytes) => prev + bytes
    case StoredMeta(m) => EncodeMeta(m)
    case StoredNumber(n) => if k.Row? && k.table.ParentChainBlockTable? then ToBytes(n, 8) else EncodeU64(n)
  }

  /** How the value under `k` is read. */
  function ReadValue(form: VecForm, k: Key, b: Bytes): Option<Value> {
    match k
    case Row(MessageTable, _) =>
      var (m, _) :- DecodeMetadata(form, b);
      Some(StoredMessage(m))
    case Row(BlockHashTable, _) =>
      var (h, _) :- DecodeBlockHash(b);
      Some(StoredBlockHash(h))
    case Row(ResultTable, _) =>
      var (r, _) :- DecodeResult(b);
      Some(StoredResult(r))
    case Row(LegacyDelayedTable, _) => if |b| < 32 then None else Some(StoredDelayed(b[..32], b[32..]))
    case Row(DelayedTable, _) => if |b| < 32 then None else Some(StoredDelayed(b[..32], b[32..]))
    case Row(ParentChainBlockTable, _) => if |b| != 8 then None else Some(StoredNumber(Read64(b)))
    case Row(BatchMetaTable, _) =>
      var m :- DecodeMeta(b);
      Some(StoredMeta(m))
    case _ =>
      var (n, _) :- DecodeU64(b);
      Some(StoredNumber(n))
  }

  /** Every stored value is read back as it was written. */
  lemma ValueRoundTrip(form: VecForm, k: Key, v: Value)
    requires Proper(form, k, v)
    ensures ReadValue(form, k, ValueBytes(form, k, v)) == Some(v)
  {
    hide EncodeMetadata, DecodeMetadata, EncodeBlockHash, DecodeBlockHash, EncodeResult, DecodeResult, EncodeMeta,
      DecodeMeta, EncodeU64, DecodeU64, ToBytes, FromBytes, MetadataLength;
    var b := ValueBytes(form, k, v);
    assert b + [] == b;
    match v
    case StoredMessage(m) => MetadataRoundTrip(form, m, []);
    case StoredBlockHash(h) => BlockHashRoundTrip(h, []);
    case StoredResult(r) => ResultRoundTrip(r, []);
    case StoredDelayed(prev, bytes) => assert b[..32] == prev && b[32..] == bytes;
    case StoredMeta(m) => MetaRoundTrip(m);
    case StoredNumber(n) =>
      FromTo64(n);
      U64RoundTrip(n, []);
  }

  // ----- the tree and its write batches

  type Tree = map<Bytes, Bytes>

  datatype RawOp = RawPut(key: Bytes, value: Bytes) | RawDel(key: Bytes)

  function RawApplyOp(tree: Tree, op: RawOp): Tree {
    match op
    case RawPut(k, v) => tree[k := v]
    case RawDel(k) => tree - {k}
  }

  function RawApply(tree: Tree, ops: seq<RawOp>): Tree {
    if ops == [] then tree else RawApplyOp(RawApply(tree, ops[..|ops| - 1]), ops[|ops| - 1])
  }

  /** The contents after each of the operations. */
  ghost function Trail(tree: Tree, ops: seq<RawOp>): seq<Tree> {
    if ops == [] then [] else Trail(tree, ops[..|ops| - 1]) + [RawApply(tree, ops)]
  }

  lemma OneMoreOp(tree: Tree, ops: seq<RawOp>, n: nat)
    requires n < |ops|
    ensures RawApply(tree, ops[..n + 1]) == RawApplyOp(RawApply(tree, ops[..n]), ops[n])
    ensures Trail(tree, ops[..n + 1]) == Trail(tree, ops[..n]) + [RawApply(tree, ops[..n + 1])]
  {
    assert ops[..n + 1][..n] == ops[..n];
  }

  class SledDb {
    var tree: Tree
    /** The contents after each operation: writing a batch can stop at any of them. */
    ghost var trail: seq<Tree>

    constructor (tree: Tree)
      ensures this.tree == tree && trail == []
    {
      this.tree := tree;
      trail := [];
    }
  }

  class SledBatch {
    var ops: seq<RawOp>

    constructor ()
      ensures ops == []
    {
      ops := [];
    }

    method Put(key: Bytes, value: Bytes)
      modifies this
      ensures ops == old(ops) + [RawPut(key, value)]
    {
      ops := ops + [RawPut(key, value)];
    }

    method Delete(key: Bytes)
      modifies this
      ensures ops == old(ops) + [RawDel(key)]
    {
      ops := ops + [RawDel(key)];
    }

    /** Operations are applied one at a time, in order; every content in between is visible. */
    method Write(db: SledDb)
      modifies db
      ensures db.tree == RawApply(old(db.tree), ops)
      ensures db.trail == old(db.trail) + Trail(old(db.tree), ops)
    {
      assert ops[..0] == [];
      for i := 0 to |ops|
        invariant db.tree == RawApply(old(db.tree), ops[..i])
        invariant db.trail == old(db.trail) + Trail(old(db.tree), ops[..i])
      {
        hide RawApply, Trail;
        OneMoreOp(old(db.tree), ops, i);
        match ops[i] {
          case RawPut(k, v) => db.tree := db.tree[k := v];
          case RawDel(k) => db.tree := db.tree - {k};
        }
        db.trail := db.trail + [db.tree];
      }
      assert ops[..|ops|] == ops;
    }
  }

  // ----- ordered scans

  predicate StartsWith(b: Bytes, prefix: Bytes) {
    |prefix| <= |b| && b[..|prefix|] == prefix
  }

  predicate LexSorted(keys: seq<Bytes>) {
    forall i, j | 0 <= i < j < |keys| :: LexLess(keys[i], keys[j])
  }

  /** `keys` are, in order, the keys of the tree from `bound` on. */
  ghost predicate IsRange(tree: Tree, bound: Bytes, keys: seq<Bytes>) {
    && LexSorted(keys)
    && (forall b :: b in keys <==> b in tree && LexLeq(bound, b))
  }

  method LexLeast(s: set<Bytes>) returns (least: Bytes)
    requires s != {}
    ensures least in s && forall b | b in s :: LexLeq(least, b)
  {
    least :| least in s;
    var rest := s - {least};
    while rest != {}
      invariant rest <= s && least in s
      invariant forall b | b in s && b !in rest :: LexLeq(least, b)
      decreases |rest|
    {
      var b :| b in rest;
      rest := rest - {b};
      LexTotal(least, b);
      if LexLess(b, least) {
        forall c | c in s && LexLess(least, c)
          ensures LexLess(b, c)
        {
          LexTransitive(b, least, c);
        }
        least := b;
      }
    }
  }

  method Range(tree: Tree, bound: Bytes) returns (keys: seq<Bytes>)
    ensures IsRange(tree, bound, keys)
  {
    hide LexLess;
    keys := [];
    ghost var all := set b | b in tree.Keys && LexLeq(bound, b);
    var rest := set b | b in tree.Keys && LexLeq(bound, b);
    while rest != {}
      invariant LexSorted(keys)
      invariant forall b :: b in all <==> b in keys || b in rest
      invariant forall a, b | a in keys && b in rest :: LexLess(a, b)
      decreases |rest|
    {
      var least := LexLeast(rest);
      forall i | 0 <= i < |keys|
        ensures LexLess(keys[i], least)
      {
        assert keys[i] in keys && least in rest;
      }
      keys := keys + [least];
      rest := rest - {least};
    }
  }

  class SledIter {
    const keys: seq<Bytes>
    const prefix: Bytes
    var taken: nat
    var current: Option<Bytes>

    constructor (keys: seq<Bytes>, prefix: Bytes)
      ensures this.keys == keys && this.prefix == prefix && taken == 0 && current == None
    {
      this.keys := keys;
      this.prefix := prefix;
      taken := 0;
      current := None;
    }

    /** Stops at the first key without the prefix. */
    method Next() returns (found: bool)
      requires taken <= |keys|
      modifies this
      ensures taken == Min(old(taken) + 1, |keys|)
      ensures found <==> old(taken) < |keys| && StartsWith(keys[old(taken)], prefix)
      ensures current == if found then Some(keys[old(taken)]) else None
    {
      if taken == |keys| {
        current := None;
        return false;
      }
      taken := taken + 1;
      if !StartsWith(keys[taken - 1], prefix) {
        current := None;
        return false;
      }
      current := Some(keys[taken - 1]);
      return true;
    }
  }

  method NewIterator(db: SledDb, prefix: Bytes, start: Bytes) returns (it: SledIter)
    ensures fresh(it) && it.prefix == prefix && it.taken == 0
    ensures IsRange(db.tree, prefix + start, it.keys)
  {
    var keys := Range(db.tree, prefix + start);
    it := new SledIter(keys, prefix);
  }

  /** The keys with the prefix, from `prefix + start` on. */
  ghost function Scanned(tree: Tree, prefix: Bytes, start: Bytes): set<Bytes> {
    set b | b in tree && StartsWith(b, prefix) && LexLeq(prefix + start, b)
  }

  /** Keys with a common prefix lie together: nothing without it comes between the bound and a key with it. */
  lemma {:induction false} PrefixConvex(prefix: Bytes, start: Bytes, a: Bytes, b: Bytes)
    requires LexLeq(prefix + start, a) && LexLess(a, b) && StartsWith(b, prefix)
    ensures StartsWith(a, prefix)
  {
    if prefix != [] {
      var p := prefix + start;
      assert p[0] == prefix[0] && p[1..] == prefix[1..] + start;
      assert b[0] == prefix[0];
      assert a[0] == prefix[0];
      assert b[1..][..|prefix| - 1] == b[..|prefix|][1..];
      PrefixConvex(prefix[1..], start, a[1..], b[1..]);
      assert a[..|prefix|] == [a[0]] + a[1..][..|prefix| - 1];
    }
  }

  ghost function Members(keys: seq<Bytes>): set<Bytes> {
    set k | k in keys
  }

  /** The first `done` keys carry the prefix and the next one, if any, does not. */
  ghost predicate Stops(keys: seq<Bytes>, prefix: Bytes, done: nat) {
    && done <= |keys|
    && (forall i | 0 <= i < done :: StartsWith(keys[i], prefix))
    && (done < |keys| ==> !StartsWith(keys[done], prefix))
  }

  /** Stopping at the first key without the prefix loses nothing. */
  lemma ScanIsComplete(tree: Tree, prefix: Bytes, start: Bytes, keys: seq<Bytes>, done: nat)
    requires IsRange(tree, prefix + start, keys) && Stops(keys, prefix, done)
    ensures Members(keys[..done]) == Scanned(tree, prefix, start)
  {
    hide LexLess, LexLeq, StartsWith;
    forall b
      ensures b in keys[..done] <==> b in keys && StartsWith(b, prefix)
    {
      if b in keys && StartsWith(b, prefix) {
        var i :| 0 <= i < |keys| && keys[i] == b;
        if done < i {
          assert keys[done] in keys;
          PrefixConvex(prefix, start, keys[done], b);
        }
      }
    }
  }

  lemma OneMoreKey(tree: Tree, keys: seq<Bytes>, n: nat)
    requires n < |keys|
    ensures (tree - Members(keys[..n])) - {keys[n]} == tree - Members(keys[..n + 1])
  {
    assert keys[..n + 1] == keys[..n] + [keys[n]];
    assert Members(keys[..n + 1]) == Members(keys[..n]) + {keys[n]};
  }

  lemma RawApplyDel(base: Tree, ops: seq<RawOp>, k: Bytes)
    ensures RawApply(base, ops + [RawDel(k)]) == RawApply(base, ops) - {k}
  {
    assert (ops + [RawDel(k)])[..|ops|] == ops;
  }

  /** Adds a delete for every key of the scan; the batch may hold other operations already. */
  method DeleteStartingAt(db: SledDb, batch: SledBatch, prefix: Bytes, start: Bytes, ghost base: Tree)
    modifies batch
    ensures RawApply(base, batch.ops) == RawApply(base, old(batch.ops)) - Scanned(db.tree, prefix, start)
  {
    hide RawApply, IsRange, Members, StartsWith, Scanned;
    var it := NewIterator(db, prefix, start);
    ghost var staged := RawApply(base, batch.ops);
    ghost var done: nat := 0;
    NoMembers(staged, it.keys);
    var found := it.Next();
    while found
      invariant fresh(it) && it.taken <= |it.keys| && it.prefix == prefix
      invariant found ==> it.taken == done + 1 && it.current == Some(it.keys[done]) && StartsWith(it.keys[done], prefix)
      invariant !found ==> Stops(it.keys, prefix, done)
      invariant done <= |it.keys| && forall i | 0 <= i < done :: StartsWith(it.keys[i], prefix)
      invariant RawApply(base, batch.ops) == staged - Members(it.keys[..done])
      decreases |it.keys| - done, found
    {
      RawApplyDel(base, batch.ops, it.current.value);
      batch.Delete(it.current.value);
      OneMoreKey(staged, it.keys, done);
      done := done + 1;
      found := it.Next();
    }
    ScanIsComplete(db.tree, prefix, start, it.keys, done);
  }

  lemma NoMembers(tree: Tree, keys: seq<Bytes>)
    ensures tree - Members(keys[..0]) == tree
  {
  }

  // ----- the tree as tables

  /** Every key that begins with a table's prefix is a key of that table. */
  ghost predicate Keyed(tree: Tree) {
    forall b, t: Table | b in tree && b != [] && b[0] == PrefixByte(t) :: |b| == 9
  }

  /** The tree and the tables agree on `k`. */
  predicate Agrees(form: VecForm, tree: Tree, kv: KeyValues, k: Key) {
    && (KeyBytes(k) in tree <==> k in kv)
    && (k in kv ==> Proper(form, k, kv[k]) && tree[KeyBytes(k)] == ValueBytes(form, k, kv[k]))
  }

  /** The tree holds exactly the tables' rows, besides keys that belong to no table. */
  ghost predicate Represents(form: VecForm, tree: Tree, kv: KeyValues) {
    && Keyed(tree)
    && (forall k | k in kv :: Fits(k))
    && (forall k | Fits(k) :: Agrees(form, tree, kv, k))
  }

  /** Looking a key up in the tree and decoding what is found gives what the tables hold. */
  lemma ReadsAgree(form: VecForm, tree: Tree, kv: KeyValues, k: Key)
    requires Represents(form, tree, kv) && Fits(k)
    ensures KeyBytes(k) in tree <==> k in kv
    ensures k in kv ==> ReadValue(form, k, tree[KeyBytes(k)]) == Some(kv[k])
  {
    hide ReadValue, ValueBytes, Proper, KeyBytes;
    assert Agrees(form, tree, kv, k);
    if k in kv {
      ValueRoundTrip(form, k, kv[k]);
    }
  }

  predicate OpFits(form: VecForm, op: Op) {
    Fits(op.key) && (op.Put? ==> Proper(form, op.key, op.value))
  }

  function RawOf(form: VecForm, op: Op): RawOp
    requires OpFits(form, op)
  {
    match op
    case Put(k, v) => RawPut(KeyBytes(k), ValueBytes(form, k, v))
    case Del(k) => RawDel(KeyBytes(k))
  }

  function RawOps(form: VecForm, ops: seq<Op>): (raw: seq<RawOp>)
    requires forall i | 0 <= i < |ops| :: OpFits(form, ops[i])
    ensures |raw| == |ops|
    ensures forall i | 0 <= i < |ops| :: raw[i] == RawOf(form, ops[i])
  {
    seq(|ops|, i requires 0 <= i < |ops| => RawOf(form, ops[i]))
  }

  lemma KeyedStays(tree: Tree, k: Key, v: Bytes)
    requires Keyed(tree) && Fits(k)
    ensures Keyed(tree[KeyBytes(k) := v]) && Keyed(tree - {KeyBytes(k)})
  {
    hide ToBytes, FromBytes, Ascii, KeyBytes, PrefixByte;
    var b := KeyBytes(k);
    forall t: Table | b != [] && b[0] == PrefixByte(t)
      ensures |b| == 9
    {
      PrefixesDiffer(t, t);
      if k.Row? {
        RowKeys(k.table, k.index);
      } else {
        CountKeys(k);
      }
    }
  }

  lemma RawApplyOne(tree: Tree, raw: RawOp)
    ensures RawApply(tree, [raw]) == RawApplyOp(tree, raw)
  {
    assert [raw][..0] == [];
  }

  lemma OneOp(form: VecForm, tree: Tree, kv: KeyValues, op: Op)
    requires Represents(form, tree, kv) && OpFits(form, op)
    ensures Represents(form, RawApply(tree, [RawOf(form, op)]), ApplyOp(kv, op))
  {
    hide KeyBytes, Proper, ValueBytes, Keyed, RawApply;
    var raw := RawOf(form, op);
    var tree' := RawApply(tree, [raw]);
    RawApplyOne(tree, raw);
    KeyedStays(tree, op.key, if raw.RawPut? then raw.value else []);
    forall k | Fits(k)
      ensures Agrees(form, tree', ApplyOp(kv, op), k)
    {
      KeysDiffer(k, op.key);
      assert Agrees(form, tree, kv, k);
    }
  }

  /** Replaying a write batch on the tree has the effect that `Store` describes on the tables. */
  lemma {:induction false} BatchRefines(form: VecForm, tree: Tree, kv: KeyValues, ops: seq<Op>)
    requires Represents(form, tree, kv)
    requires forall i | 0 <= i < |ops| :: OpFits(form, ops[i])
    ensures Represents(form, RawApply(tree, RawOps(form, ops)), Apply(kv, ops))
    decreases |ops|
  {
    hide Represents, OpFits, RawOf, ApplyOp;
    if ops != [] {
      var last := |ops| - 1;
      var front := RawOps(form, ops[..last]);
      BatchRefines(form, tree, kv, ops[..last]);
      assert RawOps(form, ops)[..last] == front;
      OneOp(form, RawApply(tree, front), Apply(kv, ops[..last]), ops[last]);
      assert [RawOf(form, ops[last])][..0] == [];
    }
  }

  /** A stored key lies in the scan of table `t` from `n` exactly when it is a row of `t` at or above `n`. */
  lemma ScannedRow(tree: Tree, t: Table, n: nat, b: Bytes)
    requires Keyed(tree) && b in tree && n < U64_LIMIT
    ensures b in Scanned(tree, [PrefixByte(t)], ToBytes(n, 8))
            <==> |b| == 9 && b[0] == PrefixByte(t) && Read64(b[1..]) >= n
    ensures |b| == 9 && b[0] == PrefixByte(t) ==> b == KeyBytes(Row(t, Read64(b[1..])))
  {
    hide ToBytes, FromBytes, LexLess, PrefixByte;
    if b != [] && b[0] == PrefixByte(t) {
      var i := Read64(b[1..]);
      ToFrom(b[1..]);
      assert b == [PrefixByte(t)] + b[1..];
      KeyOrder(t, n, i);
      KeyOrder(t, i, n);
      LexTotal(KeyBytes(Row(t, n)), b);
      KeysDiffer(Row(t, n), Row(t, i));
    }
  }

  /** Deleting by prefix removes exactly the table's rows at or above `n`, and nothing else. */
  lemma DeletionRefines(form: VecForm, tree: Tree, kv: KeyValues, t: Table, n: nat)
    requires Represents(form, tree, kv) && n < U64_LIMIT
    ensures Represents(form, tree - Scanned(tree, [PrefixByte(t)], ToBytes(n, 8)), DropFrom(kv, t, n))
  {
    hide ToBytes, FromBytes, KeyBytes, Proper, ValueBytes, Scanned, PrefixByte, Ascii;
    var gone := Scanned(tree, [PrefixByte(t)], ToBytes(n, 8));
    forall k | Fits(k)
      ensures Agrees(form, tree - gone, DropFrom(kv, t, n), k)
    {
      assert Agrees(form, tree, kv, k);
      if k in kv {
        ScannedRow(tree, t, n, KeyBytes(k));
        if k.Row? {
          RowKeys(k.table, k.index);
          PrefixesDiffer(k.table, t);
        } else {
          CountKeys(k);
          PrefixesDiffer(t, t);
        }
      }
    }
  }

  /** The rows that a finished scan has visited. */
  ghost function Visited(keys: seq<Bytes>): (rows: seq<nat>)
    requires forall i | 0 <= i < |keys| :: |keys[i]| == 9
    ensures |rows| == |keys|
  {
    seq(|keys|, i requires 0 <= i < |keys| => Read64(keys[i][1..]))
  }

  /** The keys a finished scan has visited are rows of the table at or above `n`. */
  lemma VisitedKeys(tree: Tree, t: Table, n: nat, keys: seq<Bytes>, done: nat)
    requires Keyed(tree) && n < U64_LIMIT
    requires IsRange(tree, [PrefixByte(t)] + ToBytes(n, 8), keys) && Stops(keys, [PrefixByte(t)], done)
    ensures forall i | 0 <= i < done ::
              && |keys[i]| == 9 && keys[i] in tree && Read64(keys[i][1..]) >= n
              && keys[i] == KeyBytes(Row(t, Read64(keys[i][1..])))
  {
    hide ToBytes, FromBytes, KeyBytes, PrefixByte, LexLess, IsRange, Keyed;
    ScanIsComplete(tree, [PrefixByte(t)], ToBytes(n, 8), keys, done);
    forall i | 0 <= i < done
      ensures |keys[i]| == 9 && keys[i] == KeyBytes(Row(t, Read64(keys[i][1..])))
      ensures keys[i] in tree && Read64(keys[i][1..]) >= n
    {
      assert keys[..done][i] == keys[i];
      assert keys[i] in Members(keys[..done]);
      ScannedRow(tree, t, n, keys[i]);
    }
  }

  lemma VisitedAscend(tree: Tree, t: Table, n: nat, keys: seq<Bytes>, done: nat)
    requires Keyed(tree) && n < U64_LIMIT
    requires IsRange(tree, [PrefixByte(t)] + ToBytes(n, 8), keys) && Stops(keys, [PrefixByte(t)], done)
    ensures forall i | 0 <= i < done :: |keys[i]| == 9
    ensures Ascending(Visited(keys[..done]))
  {
    hide ToBytes, FromBytes, KeyBytes, PrefixByte, LexLess, Keyed;
    VisitedKeys(tree, t, n, keys, done);
    var rows := Visited(keys[..done]);
    forall i, j | 0 <= i < j < |rows|
      ensures rows[i] < rows[j]
    {
      assert LexLess(keys[i], keys[j]);
      KeyOrder(t, rows[i], rows[j]);
    }
  }

  /** A byte-ordered scan of a table's prefix lists the table's rows in ascending order, as `Store` assumes. */
  lemma ScanRefines(form: VecForm, tree: Tree, kv: KeyValues, t: Table, n: nat, keys: seq<Bytes>, done: nat)
    requires Represents(form, tree, kv) && n < U64_LIMIT
    requires IsRange(tree, [PrefixByte(t)] + ToBytes(n, 8), keys) && Stops(keys, [PrefixByte(t)], done)
    ensures forall i | 0 <= i < done :: |keys[i]| == 9
    ensures Lists(kv, t, n, Visited(keys[..done]))
  {
    hide ToBytes, FromBytes, KeyBytes, Proper, ValueBytes, PrefixByte, LexLess, IsRange, Keyed, Ascending;
    VisitedKeys(tree, t, n, keys, done);
    VisitedAscend(tree, t, n, keys, done);
    ScanIsComplete(tree, [PrefixByte(t)], ToBytes(n, 8), keys, done);
    var rows := Visited(keys[..done]);
    forall i: nat
      ensures i in rows <==> Row(t, i) in kv && i >= n
    {
      if i in rows {
        var j :| 0 <= j < |rows| && rows[j] == i;
        assert Agrees(form, tree, kv, Row(t, i));
      }
      if Row(t, i) in kv && i >= n {
        var b := KeyBytes(Row(t, i));
        assert Agrees(form, tree, kv, Row(t, i));
        RowKeys(t, i);
        ScannedRow(tree, t, n, b);
        assert b in Members(keys[..done]);
        var j :| 0 <= j < done && keys[j] == b;
        assert rows[j] == i;
      }
    }
  }

  /** A deletion by prefix followed by the write: the database then represents the tables without those rows. */
  method DeleteRows(db: SledDb, form: VecForm, ghost kv: KeyValues, t: Table, n: nat)
    requires Represents(form, db.tree, kv) && n < U64_LIMIT
    modifies db
    ensures Represents(form, db.tree, DropFrom(kv, t, n))
  {
    hide Represents, DropFrom, Scanned, RawApply, ToBytes, PrefixByte;
    DeletionRefines(form, db.tree, kv, t, n);
    var batch := new SledBatch();
    NothingApplied(db.tree);
    DeleteStartingAt(db, batch, [PrefixByte(t)], ToBytes(n, 8), db.tree);
    batch.Write(db);
  }

  lemma NothingApplied(tree: Tree)
    ensures RawApply(tree, []) == tree
  {
  }
}
