/**
 How far the log is ahead of the batches, and what an ingest does to that: it never puts a log back in line, except by
 draining a first batch that has lost messages to a cold start.
 */
module LogSurplus {
  import opened Basics
  import opened SequencerMessages
  import opened DrainSpec
  import opened DrainProperties
  import opened Multiplexer
  import opened Store
  import opened TrackerSpec
  import opened BatchOps
  import opened StreamerSpec
  import opened Tracker
  import opened Ingest
  import opened Pipeline
  import opened EndToEnd

  /** The messages in the log beyond those that the first `i` batches explain; negative if some are missing. */
  function Surplus(kv: KeyValues, i: nat): int {
    MessageCount(kv) - MessagesAfter(kv, i)
  }

  /**
   The length of a well-formed drain from any delayed position: the first batch as it drains from there, the others as
   recorded.
   */
  lemma DrainedLength(env: Env, prev: BatchMetadata, batches: seq<SequencerInboxBatch>, metas: seq<BatchMetadata>,
                      read: u64)
    requires batches != [] && AllWellFormed(env, batches, prev.delayedMessageCount)
    requires Recounts(env.codec, prev, batches, metas) && |metas| == |batches|
    requires !Drain(env, batches, read).outcome.Failed?
    ensures Parse(env.codec, batches[0].serialized).Ok?
    ensures var m := Parse(env.codec, batches[0].serialized).value;
            && Drain(env, batches, read).outcome.Done? && Drain(env, batches, read).msgs != []
            && prev.messageCount + |Drain(env, batches, read).msgs|
               == metas[|metas| - 1].messageCount
                 + Max(1, WalkSize(m, 0, read)) - Increment(m, prev.delayedMessageCount)
  {
    hide Parse, Walk, KindsKnown, L2Readable, CountDelayed, CountL2, WalkSize, Increment, SliceAt, Recounts,
         AllWellFormed;
    FirstWellFormed(env, batches, prev.delayedMessageCount);
    var m, hash := Parse(env.codec, batches[0].serialized).value, Some(batches[0].blockHash);
    var walk, rest := WalkBatch(env, m, hash, read), DrainFrom(env, batches, 1, m.afterDelayedMessages);
    WalkEnds(env, m, hash, 0, 0, 0, read, false);
    WellFormedDrains(env, batches, 1, prev.delayedMessageCount);
    BatchLength(env, m, hash, read);
    FirstRecounts(env.codec, prev, batches, metas);
    var front := seq(Offset(prev, metas, 1), _ => Invalid(m, None));
    DrainSlices(env, prev, batches, metas, 1, front);
    assert |front + rest.msgs| == |front| + |rest.msgs|;
  }

  lemma FirstWellFormed(env: Env, batches: seq<SequencerInboxBatch>, read: u64)
    requires batches != [] && AllWellFormed(env, batches, read)
    ensures Parse(env.codec, batches[0].serialized).Ok?
    ensures var m := Parse(env.codec, batches[0].serialized).value;
            && m.afterDelayedMessages == batches[0].afterDelayedCount >= read
            && KindsKnown(m.segments, 0) && L2Readable(env, m, 0)
            && CountDelayed(m.segments, 0) <= m.afterDelayedMessages - read && Increment(m, read) >= 1
  {
    hide Parse, KindsKnown, L2Readable, CountDelayed, Increment;
    assert WellFormed(env, batches[0], ReadBefore(batches, 0, read));
  }

  lemma FirstRecounts(codec: Codec, prev: BatchMetadata, batches: seq<SequencerInboxBatch>, metas: seq<BatchMetadata>)
    requires batches != [] && Recounts(codec, prev, batches, metas) && |metas| == |batches|
    requires Announces(codec, batches[0])
    ensures metas[0].messageCount
         == prev.messageCount + Increment(Parse(codec, batches[0].serialized).value, prev.delayedMessageCount)
  {
    hide Parse, L2Count, CountL2;
    var m := Parse(codec, batches[0].serialized).value;
    CountersAgree(m.segments);
    assert metas[0] == MetaFor(m, batches[0], LastMeta(prev, metas, 0));
  }

  lemma LastStored(kv: KeyValues, pos: nat, metas: seq<BatchMetadata>)
    requires metas != []
    ensures MetaAfter(AddBatches(kv, pos, metas), pos + |metas|) == metas[|metas| - 1]
  {
    hide DelayedAfter;
    var n, prev := |metas| - 1, DelayedAfter(kv, pos);
    var g := DropFrom(kv, BatchMetaTable, pos + |metas|) - KeysFrom(kv, DelayedSequencedTable, prev + 1);
    var front := PutMetas(g, pos, prev, metas[..n]);
    assert PutMetas(g, pos, prev, metas) == PutMeta(front, pos + n, Before(prev, metas, n), metas[n]);
  }

  lemma OutsideMeta(kv: KeyValues, a: KeyValues, i: nat)
    requires SameOutsideLog(kv, a)
    ensures MetaAfter(a, i) == MetaAfter(kv, i)
  {
    hide ReadMeta;
    OutsideIsSame(kv, a);
    if i > 0 {
      assert SameRows(kv, a, MetaKey(i - 1));
      SameRead(kv, a, i - 1);
    }
  }

  lemma SameRead(kv: KeyValues, a: KeyValues, i: nat)
    requires SameRows(kv, a, MetaKey(i))
    ensures ReadMeta(a, i) == ReadMeta(kv, i)
  {
  }

  lemma AddedSurplus(a: KeyValues, pos: nat, metas: seq<BatchMetadata>)
    requires LogInv(a) && metas != []
    ensures Surplus(AddBatches(a, pos, metas), pos + |metas|) == MessageCount(a) - metas[|metas| - 1].messageCount
  {
    hide AddBatches, LogInv, MetaAfter, Log, LastStoredRead;
    AddBatchesLog(a, pos, metas);
    SameLogSame(a, AddBatches(a, pos, metas));
    LastStored(a, pos, metas);
  }

  /**
   The surplus after a successful ingest of well-formed batches, on any whole log and from any delayed position: changed
   by the difference between what the first batch drains to from there and what is recorded for it.
   */
  lemma IngestSurplus(keccak: Keccak, codec: Codec, t: KeyValues, batches: seq<SequencerInboxBatch>, read: u64,
                      f: KeyValues)
    requires LogInv(t) && batches != [] && IngestedFrom(keccak, codec, t, batches, read, Finished, f)
    requires AllWellFormed(EnvOf(codec, t), batches, MetaAfter(t, batches[0].sequenceNumber).delayedMessageCount)
    ensures Parse(codec, batches[0].serialized).Ok?
    ensures var m, first := Parse(codec, batches[0].serialized).value, batches[0].sequenceNumber;
            Surplus(f, first + |batches|)
            == Surplus(t, first) + Max(1, WalkSize(m, 0, read)) - Increment(m, MetaAfter(t, first).delayedMessageCount)
  {
    hide LogInv, Drain, DrainFrom, JumpFree, AddBatches, AppendAt, MetaAfter, Parse, WalkSize, Increment, AllWellFormed,
         EnvOf, MetasFor, BatchesCheckOut, ReadMeta, Recounts, LastStoredRead, Surplus, MessageCount, SameOutsideLog,
         Log;
    var env, first := EnvOf(codec, t), batches[0].sequenceNumber;
    var prev, d := MetaAfter(t, first), Drain(env, batches, read);
    var a := AppendAt(t, MessageCount(t), d.msgs);
    EnvCodec(codec, t);
    FirstWellFormed(env, batches, prev.delayedMessageCount);
    AppendOutside(t, MessageCount(t), d.msgs);
    OutsideMeta(t, a, first);
    ParsedAll(env, prev, batches);
    MetasForRecounts(codec, prev, batches);
    var metas := MetasFor(codec, prev, batches).value;
    RecountsLength(codec, prev, batches, metas);
    DrainedLength(env, prev, batches, metas, read);
    assert AddOutcome(keccak, codec, a, batches) == Some(metas);
    AppendExtends(t, d.msgs);
    LogLengths(t, a);
    AddedSurplus(a, first, metas);
    assert Surplus(t, first) == MessageCount(t) - prev.messageCount by { SurplusIs(t, first); }
  }

  lemma SurplusIs(kv: KeyValues, i: nat)
    ensures Surplus(kv, i) == MessageCount(kv) - MetaAfter(kv, i).messageCount
  {
  }

  lemma LogLengths(t: KeyValues, a: KeyValues)
    requires LogInv(t) && LogInv(a)
    ensures |Log(t)| == MessageCount(t) && |Log(a)| == MessageCount(a)
  {
  }

  lemma ParsedAll(env: Env, prev: BatchMetadata, batches: seq<SequencerInboxBatch>)
    requires AllWellFormed(env, batches, prev.delayedMessageCount)
    ensures MetasFor(env.codec, prev, batches).Ok?
  {
    hide Parse, AllWellFormed, MetasFor;
    forall j: nat | j < |batches|
      ensures Parse(env.codec, batches[j].serialized).Ok?
    {
      AllAnnounce(env, batches, prev.delayedMessageCount, j);
    }
    ParsedHaveMetas(env.codec, prev, batches);
  }

  /**
   An ingest that drains from the delayed count before its window, wherever the log ends, leaves the surplus as it was:
   the log is in line with the batches afterwards if and only if it was before.
   */
  lemma SurplusStays(keccak: Keccak, codec: Codec, t: KeyValues, batches: seq<SequencerInboxBatch>, f: KeyValues)
    requires LogInv(t) && batches != []
    requires IngestedFrom(keccak, codec, t, batches, MetaAfter(t, batches[0].sequenceNumber).delayedMessageCount,
                          Finished, f)
    requires AllWellFormed(EnvOf(codec, t), batches, MetaAfter(t, batches[0].sequenceNumber).delayedMessageCount)
    ensures var first := batches[0].sequenceNumber;
            Surplus(f, first + |batches|) == Surplus(t, first)
  {
    hide LogInv, IngestedFrom, MetaAfter, Parse, CountL2, CountDelayed, AllWellFormed, EnvOf, Surplus, KindsKnown,
         L2Readable;
    var read := MetaAfter(t, batches[0].sequenceNumber).delayedMessageCount;
    IngestSurplus(keccak, codec, t, batches, read, f);
    EnvCodec(codec, t);
    FirstWellFormed(EnvOf(codec, t), batches, read);
  }

  /**
   The messages that the first batch falls short of its record by when it is drained from beyond its delayed count.
   */
  function Shortfall(m: SequencerMessage): int {
    Increment(m, 0) - Max(1, CountL2(m.segments, 0) + CountDelayed(m.segments, 0))
  }

  /**
   Without a delayed message read before the window, a log out of line is drained from the number of delayed messages
   stored instead. The first batch then places no delayed message, and the log is in line afterwards if and only if it
   was ahead by exactly as many messages as that batch falls short.
   */
  lemma ColdStartSurplus(keccak: Keccak, codec: Codec, t: KeyValues, batches: seq<SequencerInboxBatch>, f: KeyValues)
    requires LogInv(t) && DelayedInv(keccak, t) && NumberAt(t, DelayedCountKey).value < U64_LIMIT && batches != []
    requires MetaAfter(t, batches[0].sequenceNumber).delayedMessageCount == 0
    requires IngestedFrom(keccak, codec, t, batches, ColdRead(t, MetaAfter(t, batches[0].sequenceNumber)), Finished, f)
    requires AllWellFormed(EnvOf(codec, t), batches, 0)
    ensures Parse(codec, batches[0].serialized).Ok?
    ensures var m, first := Parse(codec, batches[0].serialized).value, batches[0].sequenceNumber;
            && Surplus(f, first + |batches|) == Surplus(t, first) - Shortfall(m)
            && ColdRead(t, MetaAfter(t, first)) == NumberAt(t, DelayedCountKey).value >= m.afterDelayedMessages
  {
    hide LogInv, IngestedFrom, MetaAfter, Parse, CountL2, CountDelayed, AllWellFormed, EnvOf, Surplus, KindsKnown,
         L2Readable, DelayedInv;
    var read := ColdRead(t, MetaAfter(t, batches[0].sequenceNumber));
    IngestSurplus(keccak, codec, t, batches, read, f);
    EnvCodec(codec, t);
    FirstWellFormed(EnvOf(codec, t), batches, 0);
    HasCount(keccak, t);
    FirstIsStored(keccak, codec, t, batches, read, f);
  }

  /** Batches that were added have their delayed messages stored. */
  lemma FirstIsStored(keccak: Keccak, codec: Codec, t: KeyValues, batches: seq<SequencerInboxBatch>, read: u64,
                      f: KeyValues)
    requires LogInv(t) && DelayedInv(keccak, t) && batches != []
    requires IngestedFrom(keccak, codec, t, batches, read, Finished, f)
    requires AllWellFormed(EnvOf(codec, t), batches, MetaAfter(t, batches[0].sequenceNumber).delayedMessageCount)
    ensures batches[0].afterDelayedCount <= NumberAt(t, DelayedCountKey).value
  {
    hide LogInv, Drain, DrainFrom, JumpFree, AddBatches, AppendAt, MetaAfter, AllWellFormed, EnvOf, MetasFor,
         BatchesCheckOut, ReadMeta, LastStoredRead, MessageCount, SameOutsideLog, AccAt, DelayedInv, SameDelayed,
         Recounts;
    var env := EnvOf(codec, t);
    var prev, d := MetaAfter(t, batches[0].sequenceNumber), Drain(env, batches, read);
    var a := AppendAt(t, MessageCount(t), d.msgs);
    EnvCodec(codec, t);
    ParsedAll(env, prev, batches);
    MetasForRecounts(codec, prev, batches);
    RecountsLength(codec, prev, batches, MetasFor(codec, prev, batches).value);
    DrainedLength(env, prev, batches, MetasFor(codec, prev, batches).value, read);
    AppendOutside(t, MessageCount(t), d.msgs);
    OutsideIsSame(t, a);
    DelayedInvFrame(keccak, t, a);
    assert AddOutcome(keccak, codec, a, batches).Some?;
    CheckedAt(keccak, a, MetaAfter(a, batches[0].sequenceNumber).accumulator, batches[0].sequenceNumber, batches, 0);
    HasCount(keccak, t);
    if batches[0].afterDelayedCount > 0 {
      StoredBelow(keccak, t, batches[0].afterDelayedCount - 1);
    }
  }
}
