/**
 The inbox tracker: keeps delayed messages and batch metadata in the store, with a cache in front of
 the metadata, and feeds the messages of new batches to the streamer.
 */
module Tracker {
  import opened Basics
  import opened L1Message
  import opened SequencerMessages
  import opened DrainSpec
  import opened Store
  import opened TrackerSpec
  import opened DelayedOps
  import opened BatchOps
  import opened Streamer

  const CACHE_SIZE := 1000

  /** What adding `batches` stores, or nothing when some check fails. */
  function AddOutcome(keccak: Keccak, codec: Codec, kv: KeyValues, batches: seq<SequencerInboxBatch>)
    : Option<seq<BatchMetadata>>
    requires batches != []
  {
    var pos := batches[0].sequenceNumber;
    if pos > 0 && ReadMeta(kv, pos - 1).Err? then None
    else if !BatchesCheckOut(keccak, kv, MetaAfter(kv, pos).accumulator, pos, batches) then None
    else
      match MetasFor(codec, MetaAfter(kv, pos), batches)
      case Err => None
      case Ok(metas) => Some(metas)
  }

  /** The message count after the first `i` batches. */
  function MessagesAfter(kv: KeyValues, i: nat): nat {
    MetaAfter(kv, i).messageCount
  }

  /** Each of the first `c` batches has metadata and at least one message of its own. */
  ghost predicate StrictCounts(kv: KeyValues, c: nat) {
    && (forall i: nat | i < c :: ReadMeta(kv, i).Ok?)
    && (forall i: nat, j: nat | i < j <= c :: MessagesAfter(kv, i) < MessagesAfter(kv, j))
  }

  /** The answer to which batch holds message `pos`. */
  ghost predicate Owns(kv: KeyValues, c: nat, pos: nat, r: (nat, bool)) {
    if pos >= MessagesAfter(kv, c) then r == (0, false)
    else r.1 && r.0 < c && MessagesAfter(kv, r.0) <= pos < MessagesAfter(kv, r.0 + 1)
  }

  /** The store once a count that is too high has been corrected. */
  function WithRepairedCount(kv: KeyValues): KeyValues {
    var stored := NumberAt(kv, BatchCountKey);
    if stored.None? || Repaired(kv, stored.value) == stored.value then kv
    else kv[BatchCountKey := StoredNumber(Repaired(kv, stored.value))]
  }

  predicate IsCount(k: Key) {
    !k.Row?
  }

  function OrZero(kv: KeyValues, k: Key): KeyValues {
    if k in kv then kv else kv[k := StoredNumber(0)]
  }

  lemma Initialized(kv: KeyValues)
    ensures var f := OrZero(OrZero(OrZero(kv, DelayedCountKey), BatchCountKey), MessageCountKey);
            && SameMetas(kv, f)
            && (forall k: Key :: if IsCount(k) && k !in kv then NumberAt(f, k) == Some(0) else SameRows(kv, f, k))
            && (kv == map[] ==> f == EMPTY_STORE)
  {
    var f := OrZero(OrZero(OrZero(kv, DelayedCountKey), BatchCountKey), MessageCountKey);
    forall k: Key
      ensures if IsCount(k) && k !in kv then NumberAt(f, k) == Some(0) else SameRows(kv, f, k)
    {
    }
  }

  class InboxTracker {
    const db: Database
    const streamer: TransactionStreamer
    const keccak: Keccak
    const codec: Codec
    var cache: map<nat, BatchMetadata>

    constructor (db: Database, streamer: TransactionStreamer, keccak: Keccak, codec: Codec)
      requires streamer.db == db
      ensures this.db == db && this.streamer == streamer && this.keccak == keccak && this.codec == codec
      ensures Coherent()
    {
      this.db := db;
      this.streamer := streamer;
      this.keccak := keccak;
      this.codec := codec;
      cache := map[];
    }

    /** Whatever is cached is what the store says. */
    ghost predicate Coherent()
      reads this, db
    {
      forall i: nat | i in cache :: ReadMeta(db.kv, i) == Ok(cache[i])
    }

    /** Gives each count that is missing the value zero, and touches nothing else. */
    method Initialize()
      requires Coherent()
      modifies db
      ensures Coherent()
      ensures forall k: Key :: if IsCount(k) && k !in old(db.kv) then NumberAt(db.kv, k) == Some(0)
                               else SameRows(old(db.kv), db.kv, k)
      ensures old(db.kv) == map[] ==> db.kv == EMPTY_STORE
    {
      hide Apply;
      ghost var kv := db.kv;
      var batch := new Batch();
      AppliedNothing(kv);
      if DelayedCountKey !in db.kv {
        batch.Put(DelayedCountKey, StoredNumber(0), kv);
      }
      if BatchCountKey !in db.kv {
        batch.Put(BatchCountKey, StoredNumber(0), kv);
      }
      if MessageCountKey !in db.kv {
        batch.Put(MessageCountKey, StoredNumber(0), kv);
      }
      db.Write(batch);
      Initialized(kv);
      CoherentAfter(kv, db.kv, cache);
    }

    /** Caches an entry; a full cache gives up some other one. */
    method CachePut(i: nat, meta: BatchMetadata)
      modifies `cache
      ensures i in cache && (|old(cache)| <= 1000 ==> |cache| <= 1000)
      ensures |old(cache)| < 1000 ==> cache == old(cache)[i := meta]
      ensures forall k: nat | k in cache ::
                if k == i then cache[k] == meta else k in old(cache) && cache[k] == old(cache)[k]
    {
      cache := cache[i := meta];
      if |cache| > CACHE_SIZE {
        OtherKey(cache, i);
        var victim :| victim in cache && victim != i;
        cache := cache - {victim};
      }
    }

    /** A read through the cache returns what an uncached read would. */
    method GetBatchMetadata(i: nat) returns (r: Result<BatchMetadata>)
      requires Coherent()
      modifies `cache
      ensures Coherent()
      ensures r == ReadMeta(db.kv, i)
    {
      if i in cache {
        return Ok(cache[i]);
      }
      if MetaKey(i) !in db.kv {
        return Err;
      }
      if !db.kv[MetaKey(i)].StoredMeta? {
        return Err;
      }
      var meta := db.kv[MetaKey(i)].meta;
      CachePut(i, meta);
      r := Ok(meta);
    }

    /** Counts down from the stored count to the last batch with metadata, and writes the count back if it was wrong. */
    method GetBatchCount() returns (r: Result<nat>)
      modifies db
      ensures var stored := NumberAt(old(db.kv), BatchCountKey);
              if stored.None? then r.Err? else r == Ok(Repaired(old(db.kv), stored.value))
      ensures db.kv == WithRepairedCount(old(db.kv))
      ensures db.commits == old(db.commits) + (if db.kv == old(db.kv) then [] else [db.kv])
      ensures old(Coherent()) ==> Coherent()
    {
      hide Apply;
      var stored := NumberAt(db.kv, BatchCountKey);
      if stored.None? {
        return Err;
      }
      var count: nat := stored.value;
      if count == 0 {
        return Ok(0);
      }
      var repaired := false;
      while count > 0
        invariant count <= stored.value
        invariant Repaired(db.kv, count) == Repaired(db.kv, stored.value)
        invariant repaired <==> count < stored.value
      {
        if MetaKey(count - 1) in db.kv {
          break;
        }
        count := count - 1;
        repaired := true;
      }
      assert Repaired(db.kv, count) == count;
      if repaired {
        var batch := new Batch();
        AppliedNothing(db.kv);
        batch.Put(BatchCountKey, StoredNumber(count), db.kv);
        db.Write(batch);
      }
      r := Ok(count);
    }

    /** Commits on its own, and forgets the cached entries it deletes. */
    method DeleteBatchMetadataStartingAt(start: nat)
      modifies db, `cache
      ensures db.kv == DropFrom(old(db.kv), BatchMetaTable, start)
      ensures db.commits == old(db.commits) + [db.kv]
      ensures old(Coherent()) ==> Coherent()
    {
      hide Apply, KeysFrom, Rows, Lists;
      var it := db.NewIterator(BatchMetaTable, start);
      ghost var kv := db.kv;
      var batch := new Batch();
      AppliedNothing(kv);
      NoRows(BatchMetaTable);
      assert it.rows[..0] == [];
      var found := it.Next();
      while found
        invariant fresh(it) && fresh(batch) && db.kv == kv && db.commits == old(db.commits)
        invariant it.visited <= |it.rows| && (found ==> it.visited > 0) && (!found ==> it.visited == |it.rows|)
        invariant Apply(kv, batch.ops) == kv - Rows(BatchMetaTable, it.rows[..it.visited - if found then 1 else 0])
        invariant forall k: nat | k in cache :: k in old(cache) && cache[k] == old(cache)[k]
        invariant forall k: nat | k in cache :: k !in it.rows[..it.visited - if found then 1 else 0]
        decreases |it.rows| - it.visited, found
      {
        var i := it.Current();
        batch.Delete(MetaKey(i), kv);
        OneMoreRow(kv, BatchMetaTable, it.rows, it.visited - 1);
        cache := cache - {i};
        assert it.rows[..it.visited] == it.rows[..it.visited - 1] + [i];
        found := it.Next();
      }
      assert it.rows[..|it.rows|] == it.rows;
      ListedRows(kv, BatchMetaTable, start, it.rows);
      db.Write(batch);
      if old(Coherent()) {
        StillCoherent(kv, start, it.rows, old(cache), cache);
      }
    }

    /**
     Stages the deletes and counts of a change at `p` to `n` delayed messages. If an index row lies
     above `p`, the metadata of the batches it leads to is deleted at once.
     */
    method SetDelayedCountReorg(batch: Batch, p: nat, n: nat, canReorgBatches: bool, ghost base: KeyValues)
      returns (ok: bool)
      requires base == Eager(db.kv, p)
      modifies batch, db, `cache
      ensures ok <==> p <= n && SequencedReadable(old(db.kv), p) && (canReorgBatches || FirstAbove(old(db.kv), p).None?)
      ensures !ok ==> db.kv == old(db.kv) && db.commits == old(db.commits)
      ensures ok ==> Apply(base, batch.ops) == CutDelayed(old(db.kv), Apply(base, old(batch.ops)), p, n)
      ensures ok ==> db.kv == base && db.commits == old(db.commits) + EagerCommits(old(db.kv), p)
      ensures old(Coherent()) ==> Coherent()
    {
      hide Apply, Eager, CutDelayed, KeysFrom, RollbackTo, FirstAbove;
      if p > n {
        return false;
      }
      ghost var kv, staged := db.kv, Apply(base, batch.ops);
      DeleteStartingAt(db, batch, DelayedTable, n, base);
      DeleteStartingAt(db, batch, ParentChainBlockTable, n, base);
      DeleteStartingAt(db, batch, LegacyDelayedTable, n, base);
      batch.Put(DelayedCountKey, StoredNumber(n), base);
      var swept, target := SweepSequenced(batch, p, canReorgBatches, base);
      if !swept {
        return false;
      }
      if target.Some? {
        batch.Put(BatchCountKey, StoredNumber(target.value), base);
        DeleteBatchMetadataStartingAt(target.value);
      }
      CutIs(kv, staged, p, n);
      ok := true;
    }

    /** Deletes the index rows above `p` in order, remembering the batch that the first one names. */
    method SweepSequenced(batch: Batch, p: nat, canReorgBatches: bool, ghost base: KeyValues)
      returns (ok: bool, target: Option<nat>)
      modifies batch
      ensures ok <==> SequencedReadable(db.kv, p) && (canReorgBatches || FirstAbove(db.kv, p).None?)
      ensures ok ==> target == RollbackTo(db.kv, p)
      ensures ok ==>
                Apply(base, batch.ops) == Apply(base, old(batch.ops)) - KeysFrom(db.kv, DelayedSequencedTable, p + 1)
    {
      hide Apply, KeysFrom, Rows, Lists, FirstAbove, RollbackTo, SequencedReadable, NumberAt;
      var it := db.NewIterator(DelayedSequencedTable, p + 1);
      ghost var kv, staged := db.kv, Apply(base, batch.ops);
      target := None;
      ScanTells(kv, p, it.rows);
      NoRows(DelayedSequencedTable);
      assert it.rows[..0] == [];
      var found := it.Next();
      while found
        invariant fresh(it) && db.kv == kv
        invariant it.visited <= |it.rows| && (found ==> it.visited > 0) && (!found ==> it.visited == |it.rows|)
        invariant target ==
                  if it.visited > (if found then 1 else 0) then NumberAt(kv, SequencedKey(it.rows[0])) else None
        invariant it.visited > (if found then 1 else 0) ==> canReorgBatches && target.Some?
        invariant forall j | 0 <= j < it.visited - (if found then 1 else 0) ::
                    NumberAt(kv, SequencedKey(it.rows[j])).Some?
        invariant Apply(base, batch.ops)
                  == staged - Rows(DelayedSequencedTable, it.rows[..it.visited - if found then 1 else 0])
        decreases |it.rows| - it.visited, found
      {
        var i := it.Current();
        var named := NumberAt(db.kv, SequencedKey(i));
        if named.None? || !canReorgBatches {
          return false, None;
        }
        batch.Delete(SequencedKey(i), base);
        OneMoreRow(staged, DelayedSequencedTable, it.rows, it.visited - 1);
        if target.None? {
          target := named;
        }
        found := it.Next();
      }
      assert it.rows[..|it.rows|] == it.rows;
      ListedRows(kv, DelayedSequencedTable, p + 1, it.rows);
      return true, target;
    }

    /** Rolls the delayed messages back to `n`: the metadata commit, if any, comes before the rest. */
    method ReorgDelayedTo(n: nat) returns (ok: bool)
      requires Coherent()
      modifies db, `cache
      ensures Coherent()
      ensures ok <==> SequencedReadable(old(db.kv), n)
      ensures !ok ==> db.kv == old(db.kv) && db.commits == old(db.commits)
      ensures ok ==> db.kv == ReorgDelayed(old(db.kv), n)
                     && db.commits == old(db.commits) + EagerCommits(old(db.kv), n) + [db.kv]
    {
      hide Apply, Eager, CutDelayed, RollbackTo;
      var batch := new Batch();
      ghost var kv, base := db.kv, Eager(db.kv, n);
      AppliedNothing(base);
      ok := SetDelayedCountReorg(batch, n, n, true, base);
      if !ok {
        return;
      }
      db.Write(batch);
      CutKeepsMetas(kv, base, n, n);
      CoherentAfter(base, db.kv, cache);
    }

    /** Checks each message against the chain and stages it. */
    method StageDelayed(batch: Batch, start: Hash32, msgs: seq<DelayedInput>, ghost base: KeyValues) returns (ok: bool)
      requires msgs != []
      modifies batch
      ensures ok <==> ChecksOut(keccak, start, msgs[0].seqNum, msgs)
      ensures ok ==> Apply(base, batch.ops) == PutDelayed(Apply(base, old(batch.ops)), msgs)
    {
      hide Apply, PutDelayed, AccumulatorAfter;
      ghost var staged := Apply(base, batch.ops);
      var nextAcc, pos := start, msgs[0].seqNum;
      StagedNothing(staged, msgs);
      for i := 0 to |msgs|
        invariant ChecksOut(keccak, start, msgs[0].seqNum, msgs) <==> ChecksOut(keccak, nextAcc, pos, msgs[i..])
        invariant Apply(base, batch.ops) == PutDelayed(staged, msgs[..i])
      {
        var msg := msgs[i];
        assert msgs[i..][0] == msg && msgs[i..][1..] == msgs[i + 1..];
        if msg.seqNum != pos {
          return false;
        }
        var after := AccumulatorAfter(keccak, nextAcc, msg.bytes);
        if after.Err? {
          return false;
        }
        if nextAcc != msg.beforeAcc {
          return false;
        }
        batch.Put(DelayedKey(msg.seqNum), StoredDelayed(nextAcc, msg.bytes), base);
        StagedOneMore(staged, msgs, i);
        nextAcc := after.value;
        pos := pos + 1;
      }
      assert msgs[..|msgs|] == msgs;
      ok := true;
    }

    /** Either some check fails and nothing changes, or all messages are stored and later state is cut back. */
    method AddDelayedMessages(msgs: seq<DelayedInput>) returns (ok: bool)
      requires Coherent()
      modifies db, `cache
      ensures Coherent()
      ensures ok <==> msgs == [] || Accepts(keccak, old(db.kv), msgs)
      ensures !ok || msgs == [] ==> db.kv == old(db.kv) && db.commits == old(db.commits)
      ensures ok && msgs != [] ==>
                && db.kv == AddDelayed(old(db.kv), msgs)
                && db.commits == old(db.commits) + EagerCommits(old(db.kv), msgs[0].seqNum) + [db.kv]
    {
      hide Apply, Eager, CutDelayed, RollbackTo, PutDelayed, ChecksOut, AccAt, SequencedReadable;
      if msgs == [] {
        return true;
      }
      var pos := msgs[0].seqNum;
      var start := StartAcc(keccak, db.kv, pos);
      if start.Err? {
        return false;
      }
      var batch := new Batch();
      ghost var kv, base := db.kv, Eager(db.kv, pos);
      AppliedNothing(base);
      ok := StageDelayed(batch, start.value, msgs, base);
      if !ok {
        return;
      }
      ghost var staged := Apply(base, batch.ops);
      ok := SetDelayedCountReorg(batch, pos, pos + |msgs|, true, base);
      if !ok {
        return;
      }
      db.Write(batch);
      PutKeepsMetas(base, msgs);
      CutKeepsMetas(kv, staged, pos, pos + |msgs|);
      MetasOfBoth(base, staged, db.kv);
      CoherentAfter(base, db.kv, cache);
    }

    // ----- batches

    /** The checks every batch has to pass before anything is staged. */
    method CheckBatches(start: Hash32, first: nat, batches: seq<SequencerInboxBatch>) returns (ok: bool)
      ensures ok <==> BatchesCheckOut(keccak, db.kv, start, first, batches)
    {
      hide AccAt;
      var nextAcc, pos := start, first;
      for i := 0 to |batches|
        invariant BatchesCheckOut(keccak, db.kv, start, first, batches)
             <==> BatchesCheckOut(keccak, db.kv, nextAcc, pos, batches[i..])
      {
        var b := batches[i];
        assert batches[i..][0] == b && batches[i..][1..] == batches[i + 1..];
        if b.sequenceNumber != pos {
          return false;
        }
        if nextAcc != b.beforeInboxAcc {
          return false;
        }
        if b.afterDelayedCount > 0 {
          var have := AccAt(keccak, db.kv, b.afterDelayedCount - 1);
          if have != Ok(b.afterDelayedAcc) {
            return false;
          }
        }
        nextAcc := b.afterInboxAcc;
        pos := pos + 1;
      }
      ok := true;
    }

    method StageMeta(batch: Batch, i: nat, before: nat, meta: BatchMetadata, ghost base: KeyValues)
      modifies batch
      ensures Apply(base, batch.ops) == PutMeta(Apply(base, old(batch.ops)), i, before, meta)
    {
      hide Apply;
      batch.Put(MetaKey(i), StoredMeta(meta), base);
      if meta.delayedMessageCount > before {
        batch.Put(SequencedKey(meta.delayedMessageCount), StoredNumber(i), base);
      }
    }

    /** Computes and stages the metadata and index rows of the batches. */
    method StageMetas(batch: Batch, prev: BatchMetadata, first: nat, batches: seq<SequencerInboxBatch>,
                      ghost base: KeyValues)
      returns (r: Result<seq<BatchMetadata>>)
      requires forall i | 0 <= i < |batches| :: batches[i].sequenceNumber == first + i
      modifies batch
      ensures r == MetasFor(codec, prev, batches)
      ensures r.Ok? ==> |r.value| == |batches|
                        && Apply(base, batch.ops)
                           == PutMetas(Apply(base, old(batch.ops)), first, prev.delayedMessageCount, r.value)
    {
      hide Apply, PutMetas, PutMeta, Parse, L2Count, MetasFor, SaturatingSub, MetasSoFar;
      ghost var staged := Apply(base, batch.ops);
      var last := prev;
      var metas: seq<BatchMetadata> := [];
      StagedNoMetas(staged, first, prev.delayedMessageCount);
      MetasAtFirst(codec, prev, batches);
      for i := 0 to |batches|
        invariant |metas| == i
        invariant last.delayedMessageCount == Before(prev.delayedMessageCount, metas, i)
        invariant MetasSoFar(codec, prev, batches, metas, last)
        invariant Apply(base, batch.ops) == PutMetas(staged, first, prev.delayedMessageCount, metas)
      {
        var b := batches[i];
        assert batches[i..][0] == b && batches[i..][1..] == batches[i + 1..];
        MetasNext(codec, prev, batches, metas, last);
        var parsed := ParseSequencerMessage(codec, b.serialized);
        if parsed.Err? {
          return Err;
        }
        var delayedInc := SaturatingSub(b.afterDelayedCount, last.delayedMessageCount);
        var meta := BatchMetadata(b.afterInboxAcc, last.messageCount + L2Count(parsed.value.segments) + delayedInc,
                                  b.afterDelayedCount, b.parentChainBlockNumber);
        StageMeta(batch, b.sequenceNumber, last.delayedMessageCount, meta, base);
        StagedOneMoreMeta(staged, first, prev.delayedMessageCount, metas, meta);
        metas := metas + [meta];
        last := meta;
      }
      MetasAtLast(codec, prev, batches, metas, last);
      r := Ok(metas);
    }

    /** Either some check fails and nothing changes, or the batches replace everything from the first one on. */
    method AddSequencerBatches(batches: seq<SequencerInboxBatch>) returns (ok: bool)
      requires Coherent()
      modifies db, `cache
      ensures Coherent()
      ensures ok <==> batches == [] || AddOutcome(keccak, codec, old(db.kv), batches).Some?
      ensures !ok || batches == [] ==> db.kv == old(db.kv) && db.commits == old(db.commits)
      ensures ok && batches != [] ==>
                var first, metas := batches[0].sequenceNumber, AddOutcome(keccak, codec, old(db.kv), batches).value;
                && db.kv == AddBatches(old(db.kv), first, metas)
                && db.commits == old(db.commits) + [DropFrom(old(db.kv), BatchMetaTable, first + |batches|), db.kv]
    {
      hide Apply, PutMetas, MetasFor, BatchesCheckOut, KeysFrom, ReadMeta;
      if batches == [] {
        return true;
      }
      var first := batches[0].sequenceNumber;
      var prev := NO_META;
      if first > 0 {
        var meta := GetBatchMetadata(first - 1);
        if meta.Err? {
          return false;
        }
        prev := meta.value;
      }
      var pos := first + |batches|;
      ghost var kv, base := db.kv, DropFrom(db.kv, BatchMetaTable, pos);
      var batch := new Batch();
      AppliedNothing(base);
      DeleteStartingAt(db, batch, DelayedSequencedTable, prev.delayedMessageCount + 1, base);
      var checksOut := CheckBatches(prev.accumulator, first, batches);
      if !checksOut {
        return false;
      }
      NumberedFrom(keccak, kv, prev.accumulator, first, batches);
      var metas := StageMetas(batch, prev, first, batches, base);
      if metas.Err? {
        return false;
      }
      DeleteBatchMetadataStartingAt(pos);
      batch.Put(BatchCountKey, StoredNumber(pos), base);
      db.Write(batch);
      assert db.kv == AddBatches(kv, first, metas.value);
      RefreshCache(kv, base, first, metas.value);
      ok := true;
    }

    /** Puts the new entries in the cache; older entries under the same numbers are stale until then. */
    method RefreshCache(ghost kv: KeyValues, ghost base: KeyValues, first: nat, metas: seq<BatchMetadata>)
      requires db.kv == AddBatches(kv, first, metas) && base == DropFrom(kv, BatchMetaTable, first + |metas|)
      requires forall i: nat | i in cache :: ReadMeta(base, i) == Ok(cache[i])
      modifies `cache
      ensures Coherent()
    {
      hide AddBatches, ReadMeta, DropFrom;
      AddedMetas(kv, first, metas);
      for j := 0 to |metas|
        invariant forall i: nat | i in cache && !(first + j <= i < first + |metas|) ::
                    ReadMeta(db.kv, i) == Ok(cache[i])
        invariant forall i: nat | i in cache && first + j <= i < first + |metas| ::
                    ReadMeta(base, i) == Ok(cache[i])
      {
        CachePut(first + j, metas[j]);
      }
      NothingBeyond(kv, first + |metas|);
    }

    /** Fails only when there are not that many batches; otherwise keeps exactly the first `count`. */
    method ReorgBatchesToDb(count: nat) returns (r: Result<nat>)
      requires Coherent()
      modifies db, `cache
      ensures Coherent()
      ensures r.Ok? <==> count == 0 || ReadMeta(old(db.kv), count - 1).Ok?
      ensures r.Err? ==> db.kv == old(db.kv) && db.commits == old(db.commits)
      ensures r.Ok? ==>
                && r.value == MessagesAfter(old(db.kv), count)
                && db.kv == ReorgBatches(old(db.kv), count)
                && db.commits == old(db.commits) + [DropFrom(old(db.kv), BatchMetaTable, count), db.kv]
    {
      hide Apply, KeysFrom;
      var prev := NO_META;
      if count > 0 {
        var meta := GetBatchMetadata(count - 1);
        if meta.Err? {
          return Err;
        }
        prev := meta.value;
      }
      ghost var kv, base := db.kv, DropFrom(db.kv, BatchMetaTable, count);
      var batch := new Batch();
      AppliedNothing(base);
      DeleteStartingAt(db, batch, DelayedSequencedTable, prev.delayedMessageCount + 1, base);
      DeleteBatchMetadataStartingAt(count);
      batch.Put(BatchCountKey, StoredNumber(count), base);
      db.Write(batch);
      ReorgSameMetas(kv, count);
      CoherentAfter(base, db.kv, cache);
      r := Ok(prev.messageCount);
    }

    /**
     Finds the batch that holds message `pos` by bisection. It terminates on every store; on one where
     each batch has messages of its own, the answer is the owner.
     */
    method FindInboxBatchContainingMessage(pos: nat) returns (r: Result<(nat, bool)>)
      requires Coherent()
      modifies db, `cache
      ensures Coherent()
      ensures db.kv == WithRepairedCount(old(db.kv))
      ensures NumberAt(old(db.kv), BatchCountKey).None? ==> r.Err?
      ensures NumberAt(old(db.kv), BatchCountKey).Some? ==>
                var c := Repaired(old(db.kv), NumberAt(old(db.kv), BatchCountKey).value);
                StrictCounts(old(db.kv), c) ==> r.Ok? && Owns(old(db.kv), c, pos, r.value)
    {
      hide Repaired;
      ghost var kv := db.kv;
      var count := GetBatchCount();
      if count.Err? {
        return Err;
      }
      var c: nat := count.value;
      CountIsNotMeta(kv, db.kv);
      if c == 0 {
        return Ok((0, false));
      }
      ghost var strict, now := StrictCounts(kv, c), db.kv;
      var low: nat, high: nat := 0, c - 1;
      var last := GetBatchMetadata(high);
      if last.Err? {
        return Err;
      }
      if last.value.messageCount <= pos {
        return Ok((0, false));
      }
      while true
        invariant Coherent() && db.kv == now && low <= high < c
        invariant ReadMeta(kv, high).Ok? && ReadMeta(kv, high).value.messageCount > pos
        invariant strict ==> MessagesAfter(kv, low) <= pos
        decreases high - low
      {
        var mid := (low + high) / 2;
        var meta := GetBatchMetadata(mid);
        if meta.Err? {
          return Err;
        }
        var count := meta.value.messageCount;
        assert count == MessagesAfter(kv, mid + 1);
        if count < pos {
          low := mid + 1;
        } else if count == pos {
          return Ok((mid + 1, true));
        } else if count == pos + 1 || mid == low {
          return Ok((mid, true));
        } else {
          high := mid;
        }
        if high == low {
          return Ok((high, true));
        }
      }
    }
  }

  /** `metas` are those of the first batches and `last` is the newest of them; what is to come follows from that. */
  predicate MetasSoFar(codec: Codec, prev: BatchMetadata, batches: seq<SequencerInboxBatch>, metas: seq<BatchMetadata>,
                       last: BatchMetadata) {
    && |metas| <= |batches|
    && var all, rest := MetasFor(codec, prev, batches), MetasFor(codec, last, batches[|metas|..]);
       (all.Ok? <==> rest.Ok?) && (rest.Ok? ==> all.value == metas + rest.value)
  }

  lemma MetasAtFirst(codec: Codec, prev: BatchMetadata, batches: seq<SequencerInboxBatch>)
    ensures MetasSoFar(codec, prev, batches, [], prev)
  {
    hide MetasFor;
    assert batches[0..] == batches;
  }

  lemma MetasNext(codec: Codec, prev: BatchMetadata, batches: seq<SequencerInboxBatch>, metas: seq<BatchMetadata>,
                  last: BatchMetadata)
    requires |metas| < |batches| && MetasSoFar(codec, prev, batches, metas, last)
    ensures var b := batches[|metas|];
            var parsed := Parse(codec, b.serialized);
            && (parsed.Err? ==> MetasFor(codec, prev, batches).Err?)
            && (parsed.Ok? ==>
                  var meta := MetaFor(parsed.value, b, last);
                  MetasSoFar(codec, prev, batches, metas + [meta], meta))
  {
    hide MetasFor, Parse, MetaFor;
    var rest := batches[|metas|..];
    assert rest[0] == batches[|metas|] && rest[1..] == batches[|metas| + 1..];
    MetasForNext(codec, last, rest);
    if Parse(codec, rest[0].serialized).Ok? {
      var meta := MetaFor(Parse(codec, rest[0].serialized).value, rest[0], last);
      if MetasFor(codec, meta, rest[1..]).Ok? {
        assert metas + ([meta] + MetasFor(codec, meta, rest[1..]).value)
               == metas + [meta] + MetasFor(codec, meta, rest[1..]).value;
      }
    }
  }

  lemma MetasForNext(codec: Codec, last: BatchMetadata, batches: seq<SequencerInboxBatch>)
    requires batches != []
    ensures var parsed, all := Parse(codec, batches[0].serialized), MetasFor(codec, last, batches);
            && (parsed.Err? ==> all.Err?)
            && (parsed.Ok? ==>
                  var meta := MetaFor(parsed.value, batches[0], last);
                  var rest := MetasFor(codec, meta, batches[1..]);
                  (all.Ok? <==> rest.Ok?) && (rest.Ok? ==> all.value == [meta] + rest.value))
  {
    hide Parse, MetaFor;
  }

  lemma MetasAtLast(codec: Codec, prev: BatchMetadata, batches: seq<SequencerInboxBatch>, metas: seq<BatchMetadata>,
                    last: BatchMetadata)
    requires |metas| == |batches| && MetasSoFar(codec, prev, batches, metas, last)
    ensures MetasFor(codec, prev, batches) == Ok(metas)
  {
    assert batches[|batches|..] == [];
    assert metas + [] == metas;
  }

  lemma CountIsNotMeta(kv: KeyValues, kv': KeyValues)
    requires kv' == kv || exists n :: kv' == kv[BatchCountKey := StoredNumber(n)]
    ensures forall i: nat :: ReadMeta(kv', i) == ReadMeta(kv, i)
  {
  }

  lemma OtherKey<V>(m: map<nat, V>, i: nat)
    requires |m| > 1
    ensures exists v :: v in m && v != i
  {
    assert |m| == |m.Keys|;
    var rest := m.Keys - {i};
    assert |rest| >= |m.Keys| - 1;
    var v :| v in rest;
  }

  /** What an ordered scan of the index above `p` shows. */
  lemma ScanTells(kv: KeyValues, p: nat, rows: seq<nat>)
    requires Lists(kv, DelayedSequencedTable, p + 1, rows)
    ensures SequencedReadable(kv, p) <==> forall j | 0 <= j < |rows| :: NumberAt(kv, SequencedKey(rows[j])).Some?
    ensures FirstAbove(kv, p).Some? <==> rows != []
    ensures RollbackTo(kv, p) == if rows == [] then None else NumberAt(kv, SequencedKey(rows[0]))
  {
    hide FirstAbove;
    FirstAboveIs(kv, p);
    forall d: nat
      ensures d in rows <==> SequencedKey(d) in kv && d > p
    {
    }
    if rows != [] {
      assert rows[0] in rows;
      assert SequencedKey(rows[0]) in kv;
      var f := FirstAbove(kv, p).value;
      assert f in rows;
    }
    if SequencedReadable(kv, p) {
      forall j | 0 <= j < |rows|
        ensures NumberAt(kv, SequencedKey(rows[j])).Some?
      {
        assert rows[j] in rows;
      }
    }
    if forall j | 0 <= j < |rows| :: NumberAt(kv, SequencedKey(rows[j])).Some? {
      forall d: nat | d > p && SequencedKey(d) in kv
        ensures kv[SequencedKey(d)].StoredNumber?
      {
        assert d in rows;
        var j :| 0 <= j < |rows| && rows[j] == d;
        assert NumberAt(kv, SequencedKey(rows[j])).Some?;
      }
    }
  }

  lemma StillCoherent(kv: KeyValues, start: nat, gone: seq<nat>, before: map<nat, BatchMetadata>,
                      after: map<nat, BatchMetadata>)
    requires forall i: nat | i in before :: ReadMeta(kv, i) == Ok(before[i])
    requires forall i: nat | i in after :: i in before && after[i] == before[i] && i !in gone
    requires Lists(kv, BatchMetaTable, start, gone)
    ensures forall i: nat | i in after :: ReadMeta(DropFrom(kv, BatchMetaTable, start), i) == Ok(after[i])
  {
    forall i: nat | i in after
      ensures ReadMeta(DropFrom(kv, BatchMetaTable, start), i) == Ok(after[i])
    {
      assert ReadMeta(kv, i) == Ok(before[i]);
      assert i in gone <==> MetaKey(i) in kv && i >= start;
    }
  }

  lemma CutIs(kv: KeyValues, staged: KeyValues, p: nat, n: nat)
    ensures var counted := (staged - KeysFrom(kv, DelayedTable, n) - KeysFrom(kv, ParentChainBlockTable, n)
                            - KeysFrom(kv, LegacyDelayedTable, n))[DelayedCountKey := StoredNumber(n)]
                           - KeysFrom(kv, DelayedSequencedTable, p + 1);
            && (RollbackTo(kv, p).None? ==> CutDelayed(kv, staged, p, n) == counted && Eager(kv, p) == kv)
            && (RollbackTo(kv, p).Some? ==>
                  && CutDelayed(kv, staged, p, n) == counted[BatchCountKey := StoredNumber(RollbackTo(kv, p).value)]
                  && Eager(kv, p) == DropFrom(kv, BatchMetaTable, RollbackTo(kv, p).value))
  {
    hide KeysFrom, RollbackTo;
  }

  // ----- staging, one step at a time

  lemma StagedNothing(kv: KeyValues, msgs: seq<DelayedInput>)
    ensures PutDelayed(kv, msgs[..0]) == kv
  {
  }

  lemma StagedOneMore(kv: KeyValues, msgs: seq<DelayedInput>, i: nat)
    requires i < |msgs|
    ensures PutDelayed(kv, msgs[..i + 1])
         == PutDelayed(kv, msgs[..i])[DelayedKey(msgs[i].seqNum) := StoredDelayed(msgs[i].beforeAcc, msgs[i].bytes)]
  {
    assert msgs[..i + 1][..i] == msgs[..i];
  }

  lemma StagedNoMetas(kv: KeyValues, pos: nat, prev: nat)
    ensures PutMetas(kv, pos, prev, []) == kv
  {
  }

  lemma StagedOneMoreMeta(kv: KeyValues, pos: nat, prev: nat, metas: seq<BatchMetadata>, meta: BatchMetadata)
    ensures PutMetas(kv, pos, prev, metas + [meta])
         == PutMeta(PutMetas(kv, pos, prev, metas), pos + |metas|, Before(prev, metas, |metas|), meta)
  {
    assert (metas + [meta])[..|metas|] == metas;
  }

  lemma {:induction false} NumberedFrom(keccak: Keccak, kv: KeyValues, acc: Hash32, pos: nat,
                                        batches: seq<SequencerInboxBatch>)
    requires BatchesCheckOut(keccak, kv, acc, pos, batches)
    ensures forall i | 0 <= i < |batches| :: batches[i].sequenceNumber == pos + i
    decreases |batches|
  {
    hide AccAt;
    if batches != [] {
      NumberedFrom(keccak, kv, batches[0].afterInboxAcc, pos + 1, batches[1..]);
      forall i | 0 <= i < |batches|
        ensures batches[i].sequenceNumber == pos + i
      {
        if i > 0 {
          assert batches[i] == batches[1..][i - 1];
        }
      }
    }
  }

  // ----- the cache

  ghost predicate SameMetas(kv: KeyValues, kv': KeyValues) {
    forall i: nat :: ReadMeta(kv', i) == ReadMeta(kv, i)
  }

  lemma CoherentAfter(kv: KeyValues, kv': KeyValues, cache: map<nat, BatchMetadata>)
    requires SameMetas(kv, kv') && forall i: nat | i in cache :: ReadMeta(kv, i) == Ok(cache[i])
    ensures forall i: nat | i in cache :: ReadMeta(kv', i) == Ok(cache[i])
  {
  }

  lemma MetasOfBoth(kv: KeyValues, g: KeyValues, f: KeyValues)
    requires SameMetas(kv, g) && SameMetas(g, f)
    ensures SameMetas(kv, f)
  {
  }

  lemma CutKeepsMetas(kv: KeyValues, staged: KeyValues, p: nat, n: nat)
    ensures SameMetas(staged, CutDelayed(kv, staged, p, n))
  {
    hide CutDelayed;
    forall i: nat
      ensures ReadMeta(CutDelayed(kv, staged, p, n), i) == ReadMeta(staged, i)
    {
      CutRow(kv, staged, p, n, MetaKey(i));
    }
  }

  lemma PutKeepsMetas(kv: KeyValues, msgs: seq<DelayedInput>)
    ensures SameMetas(kv, PutDelayed(kv, msgs))
  {
  }

  lemma ReorgSameMetas(kv: KeyValues, count: nat)
    ensures SameMetas(DropFrom(kv, BatchMetaTable, count), ReorgBatches(kv, count))
  {
    hide DelayedAfter;
  }

  /** The metadata after an add: the new entries, and otherwise what the eager commit left. */
  lemma AddedMetas(kv: KeyValues, first: nat, metas: seq<BatchMetadata>)
    ensures var f, base := AddBatches(kv, first, metas), DropFrom(kv, BatchMetaTable, first + |metas|);
            && (forall j: nat | j < |metas| :: ReadMeta(f, first + j) == Ok(metas[j]))
            && (forall i: nat | !(first <= i < first + |metas|) :: ReadMeta(f, i) == ReadMeta(base, i))
  {
    hide PutMetas, KeysFrom, DelayedAfter;
    var f, n, prev := AddBatches(kv, first, metas), first + |metas|, DelayedAfter(kv, first);
    var staged := DropFrom(kv, BatchMetaTable, n) - KeysFrom(kv, DelayedSequencedTable, prev + 1);
    assert SameMetas(DropFrom(kv, BatchMetaTable, n), staged) by { IndexIsNotMeta(kv, n, prev + 1); }
    forall i: nat
      ensures ReadMeta(f, i) == if first <= i < n then Ok(metas[i - first]) else ReadMeta(staged, i)
    {
      PutMetasMeta(staged, first, prev, metas, i);
      assert ReadMeta(f, i) == ReadMeta(PutMetas(staged, first, prev, metas), i);
    }
    forall j: nat | j < |metas|
      ensures ReadMeta(f, first + j) == Ok(metas[j])
    {
    }
  }

  lemma IndexIsNotMeta(kv: KeyValues, n: nat, d: nat)
    ensures SameMetas(DropFrom(kv, BatchMetaTable, n),
                      DropFrom(kv, BatchMetaTable, n) - KeysFrom(kv, DelayedSequencedTable, d))
  {
  }

  lemma {:induction false} PutMetasMeta(kv: KeyValues, first: nat, prev: nat, metas: seq<BatchMetadata>, i: nat)
    ensures ReadMeta(PutMetas(kv, first, prev, metas), i)
         == if first <= i < first + |metas| then Ok(metas[i - first]) else ReadMeta(kv, i)
    decreases |metas|
  {
    hide Before;
    if metas != [] {
      PutMetasMeta(kv, first, prev, metas[..|metas| - 1], i);
    }
  }

  lemma NothingBeyond(kv: KeyValues, n: nat)
    ensures forall i: nat | i >= n :: ReadMeta(DropFrom(kv, BatchMetaTable, n), i).Err?
  {
  }
}
