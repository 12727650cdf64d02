/**
 The pipeline end to end: whatever sequence of ingests and delayed-message arrivals happens, the log
 is the drain of the ingested batches, cut into the pieces that the batch metadata describes.
 */
module Pipeline {
  import opened Basics
  import opened Message
  import opened SequencerMessages
  import opened DrainSpec
  import opened DrainProperties
  import opened Store
  import opened BatchOps

  // ----- a drain reads no delayed message at or above its batch's count

  /** The same delayed messages below `n`, as far as there are any. */
  ghost predicate AgreesBelow(env: Env, env': Env, n: nat) {
    env'.codec == env.codec && forall d: nat | d < n && env.delayed(d).Some? :: env'.delayed(d) == env.delayed(d)
  }

  lemma {:induction false} UnreadAgrees(env: Env, env': Env, read: u64, after: u64)
    requires AgreesBelow(env, env', after) && Unread(env, read, after).outcome.Done?
    ensures Unread(env', read, after) == Unread(env, read, after)
    decreases after - read
  {
    if read < after {
      assert env.delayed(read).Some?;
      UnreadAgrees(env, env', read + 1, after);
    }
  }

  lemma {:induction false} WalkAgrees(env: Env, env': Env, m: SequencerMessage, hash: Option<Hash32>, i: nat, ts: u64,
                                      blk: u64, read: u64, emitted: bool)
    requires i <= |m.segments| && AgreesBelow(env, env', m.afterDelayedMessages)
    requires Walk(env, m, hash, i, ts, blk, read, emitted).outcome.Done?
    ensures Walk(env', m, hash, i, ts, blk, read, emitted) == Walk(env, m, hash, i, ts, blk, read, emitted)
    decreases |m.segments| - i
  {
    hide EmitsFrom, Clamp, Unread, FromBatch, FromDelayed, Invalid;
    if i == |m.segments| {
      if Unread(env, read, m.afterDelayedMessages).outcome.Done? {
        UnreadAgrees(env, env', read, m.afterDelayedMessages);
      }
    } else {
      match Classify(m.segments[i])
      case Empty => WalkAgrees(env, env', m, hash, i + 1, ts, blk, read, emitted);
      case AdvanceTimestamp(v) => WalkAgrees(env, env', m, hash, i + 1, SaturatingAdd(ts, v), blk, read, emitted);
      case AdvanceL1BlockNumber(v) => WalkAgrees(env, env', m, hash, i + 1, ts, SaturatingAdd(blk, v), read, emitted);
      case DelayedMessages =>
        var next := if read < m.afterDelayedMessages then read + 1 else read;
        WalkAgrees(env, env', m, hash, i + 1, ts, blk, next, true);
      case Unknown =>
      case L2Message(_) => WalkAgrees(env, env', m, hash, i + 1, ts, blk, read, true);
      case L2MessageBrotli(_) => WalkAgrees(env, env', m, hash, i + 1, ts, blk, read, true);
    }
  }

  /** With known kinds and readable L2 segments, only a missing delayed message can stop a walk. */
  lemma {:induction false} WalkEnds(env: Env, m: SequencerMessage, hash: Option<Hash32>, i: nat, ts: u64, blk: u64,
                                    read: u64, emitted: bool)
    requires i <= |m.segments| && KindsKnown(m.segments, i) && L2Readable(env, m, i)
    ensures var o := Walk(env, m, hash, i, ts, blk, read, emitted).outcome; o.Done? || o.Failed?
    decreases |m.segments| - i
  {
    hide EmitsFrom, Clamp, Unread, FromBatch, FromDelayed, Invalid;
    UnreadEnds(env, read, m.afterDelayedMessages);
    if i < |m.segments| {
      match Classify(m.segments[i])
      case Empty => WalkEnds(env, m, hash, i + 1, ts, blk, read, emitted);
      case AdvanceTimestamp(v) => WalkEnds(env, m, hash, i + 1, SaturatingAdd(ts, v), blk, read, emitted);
      case AdvanceL1BlockNumber(v) => WalkEnds(env, m, hash, i + 1, ts, SaturatingAdd(blk, v), read, emitted);
      case DelayedMessages =>
        var next := if read < m.afterDelayedMessages then read + 1 else read;
        WalkEnds(env, m, hash, i + 1, ts, blk, next, true);
      case Unknown =>
      case L2Message(_) => WalkEnds(env, m, hash, i + 1, ts, blk, read, true);
      case L2MessageBrotli(_) => WalkEnds(env, m, hash, i + 1, ts, blk, read, true);
    }
  }

  lemma {:induction false} UnreadEnds(env: Env, read: u64, after: u64)
    ensures var o := Unread(env, read, after).outcome; o.Done? || o.Failed?
    decreases after - read
  {
    if read < after {
      UnreadEnds(env, read + 1, after);
    }
  }

  // ----- well-formed batches

  /** The header announces the delayed count that the parent chain gives the batch. */
  predicate Announces(codec: Codec, b: SequencerInboxBatch) {
    var p := Parse(codec, b.serialized);
    p.Ok? && p.value.afterDelayedMessages == b.afterDelayedCount
  }

  /** What the parent chain and an honest poster guarantee of a batch that follows delayed count `read`. */
  ghost predicate WellFormed(env: Env, b: SequencerInboxBatch, read: nat) {
    var p := Parse(env.codec, b.serialized);
    && Announces(env.codec, b)
    && read <= b.afterDelayedCount
    && KindsKnown(p.value.segments, 0)
    && L2Readable(env, p.value, 0)
    && CountDelayed(p.value.segments, 0) <= b.afterDelayedCount - read
    && Increment(p.value, read) >= 1
  }

  function ReadBefore(batches: seq<SequencerInboxBatch>, k: nat, read: u64): u64
    requires k <= |batches|
  {
    if k == 0 then read else batches[k - 1].afterDelayedCount
  }

  ghost predicate AllWellFormed(env: Env, batches: seq<SequencerInboxBatch>, read: u64) {
    forall k: nat | k < |batches| :: WellFormed(env, batches[k], ReadBefore(batches, k, read))
  }

  /** The drain of one batch on its own. */
  function WalkOf(env: Env, b: SequencerInboxBatch, read: u64): Drained {
    match Parse(env.codec, b.serialized)
    case Err => Drained([], Failed)
    case Ok(m) => WalkBatch(env, m, Some(b.blockHash), read)
  }

  /** Well-formed batches drain fully once their delayed messages are there, and never to nothing. */
  lemma {:induction false} WellFormedDrains(env: Env, batches: seq<SequencerInboxBatch>, k: nat, read: u64)
    requires k <= |batches| && AllWellFormed(env, batches, read)
    ensures var d := DrainFrom(env, batches, k, ReadBefore(batches, k, read));
            && (d.outcome.Done? || d.outcome.Failed?)
            && (d.outcome.Done? && k < |batches| ==>
                  var w := WalkOf(env, batches[k], ReadBefore(batches, k, read));
                  && w.outcome.Done? && w.msgs != []
                  && DrainFrom(env, batches, k + 1, ReadBefore(batches, k + 1, read)).outcome.Done?
                  && d.msgs == w.msgs + DrainFrom(env, batches, k + 1, ReadBefore(batches, k + 1, read)).msgs)
    ensures CountsNonDecreasing(env, batches, k, ReadBefore(batches, k, read))
    decreases |batches| - k
  {
    hide Parse, Walk, KindsKnown, L2Readable, CountDelayed, Increment, CountL2, WalkSize;
    if k < |batches| {
      assert WellFormed(env, batches[k], ReadBefore(batches, k, read));
      var m := Parse(env.codec, batches[k].serialized).value;
      WalkEnds(env, m, Some(batches[k].blockHash), 0, 0, 0, ReadBefore(batches, k, read), false);
      WellFormedDrains(env, batches, k + 1, read);
      if WalkOf(env, batches[k], ReadBefore(batches, k, read)).outcome.Done? {
        BatchLength(env, m, Some(batches[k].blockHash), ReadBefore(batches, k, read));
      }
    }
  }

  lemma AvailableSplits(env: Env, lo: nat, mid: nat, hi: nat)
    requires lo <= mid <= hi
    ensures DelayedAvailable(env, lo, hi) <==> DelayedAvailable(env, lo, mid) && DelayedAvailable(env, mid, hi)
  {
  }

  /** Well-formed batches drain fully if and only if the delayed messages up to the last count are there. */
  lemma {:induction false} DrainsIffAvailable(env: Env, batches: seq<SequencerInboxBatch>, k: nat, read: u64)
    requires k <= |batches| && AllWellFormed(env, batches, read)
    ensures ReadBefore(batches, k, read) <= ReadBefore(batches, |batches|, read)
    ensures DrainFrom(env, batches, k, ReadBefore(batches, k, read)).outcome.Done?
       <==> DelayedAvailable(env, ReadBefore(batches, k, read), ReadBefore(batches, |batches|, read))
    decreases |batches| - k
  {
    hide Parse, Walk, KindsKnown, L2Readable, CountDelayed, Increment, CountL2, WalkSize, DelayedAvailable;
    if k == |batches| {
      NoneNeeded(env, ReadBefore(batches, k, read));
    } else {
      var start, next := ReadBefore(batches, k, read), ReadBefore(batches, k + 1, read);
      var last := ReadBefore(batches, |batches|, read);
      assert WellFormed(env, batches[k], start);
      var m := Parse(env.codec, batches[k].serialized).value;
      WalkDone(env, m, Some(batches[k].blockHash), 0, 0, 0, start, false);
      DrainsIffAvailable(env, batches, k + 1, read);
      AvailableSplits(env, start, next, last);
    }
  }

  lemma NoneNeeded(env: Env, n: nat)
    ensures DelayedAvailable(env, n, n)
  {
  }

  // ----- metadata counts what was drained

  lemma {:induction false} SameCount(segments: seq<Bytes>, i: nat)
    requires i <= |segments|
    ensures L2Count(segments) == L2Count(segments[..i]) + CountL2(segments, i)
    decreases |segments| - i
  {
    if i == |segments| {
      assert segments[..i] == segments;
    } else {
      SameCount(segments, i + 1);
      assert segments[..i + 1][..i] == segments[..i];
    }
  }

  /** The tracker's own way of counting L2 segments agrees with the walk's. */
  lemma CountersAgree(segments: seq<Bytes>)
    ensures L2Count(segments) == CountL2(segments, 0)
  {
    SameCount(segments, 0);
    assert segments[..0] == [];
  }

  function LastMeta(prev: BatchMetadata, metas: seq<BatchMetadata>, j: nat): BatchMetadata
    requires j <= |metas|
  {
    if j == 0 then prev else metas[j - 1]
  }

  /** The counts recorded for each batch. */
  ghost predicate Recounts(codec: Codec, prev: BatchMetadata, batches: seq<SequencerInboxBatch>,
                           metas: seq<BatchMetadata>) {
    && |metas| == |batches|
    && forall j: nat | j < |batches| ::
         && Parse(codec, batches[j].serialized).Ok?
         && metas[j].delayedMessageCount == batches[j].afterDelayedCount
         && metas[j] == MetaFor(Parse(codec, batches[j].serialized).value, batches[j], LastMeta(prev, metas, j))
  }

  lemma {:induction false} MetasForRecounts(codec: Codec, prev: BatchMetadata, batches: seq<SequencerInboxBatch>)
    requires MetasFor(codec, prev, batches).Ok?
    ensures Recounts(codec, prev, batches, MetasFor(codec, prev, batches).value)
    decreases |batches|
  {
    hide Parse, L2Count;
    if batches != [] {
      var m := Parse(codec, batches[0].serialized).value;
      var meta := MetaFor(m, batches[0], prev);
      MetasForRecounts(codec, meta, batches[1..]);
      var metas, rest := MetasFor(codec, prev, batches).value, MetasFor(codec, meta, batches[1..]).value;
      forall j: nat | j < |batches|
        ensures Parse(codec, batches[j].serialized).Ok?
        ensures metas[j].delayedMessageCount == batches[j].afterDelayedCount
        ensures metas[j] == MetaFor(Parse(codec, batches[j].serialized).value, batches[j], LastMeta(prev, metas, j))
      {
        if j > 0 {
          assert batches[j] == batches[1..][j - 1] && metas[j] == rest[j - 1];
          assert j > 1 ==> metas[j - 1] == rest[j - 2];
        }
      }
    }
  }

  /** Each well-formed batch's recorded increase is the number of messages it drains to. */
  lemma RecordedIsDrained(env: Env, prev: BatchMetadata, batches: seq<SequencerInboxBatch>, metas: seq<BatchMetadata>,
                          j: nat)
    requires Recounts(env.codec, prev, batches, metas) && j < |batches|
    requires AllWellFormed(env, batches, prev.delayedMessageCount)
    requires WalkOf(env, batches[j], ReadBefore(batches, j, prev.delayedMessageCount)).outcome.Done?
    ensures metas[j].messageCount
         == LastMeta(prev, metas, j).messageCount
            + |WalkOf(env, batches[j], ReadBefore(batches, j, prev.delayedMessageCount)).msgs|
  {
    hide Parse, Walk, KindsKnown, L2Readable, CountDelayed, L2Count, WalkBatch;
    var read := ReadBefore(batches, j, prev.delayedMessageCount);
    assert WellFormed(env, batches[j], read);
    var m := Parse(env.codec, batches[j].serialized).value;
    IncrementIsLength(env, m, Some(batches[j].blockHash), read);
    CountersAgree(m.segments);
    if j > 0 {
      assert Parse(env.codec, batches[j - 1].serialized).Ok?;
      assert metas[j - 1].delayedMessageCount == batches[j - 1].afterDelayedCount;
    }
    var last := LastMeta(prev, metas, j);
    assert last.delayedMessageCount == read;
    assert metas[j] == MetaFor(m, batches[j], last);
    assert metas[j].messageCount == last.messageCount + Increment(m, read);
  }

  function Offset(prev: BatchMetadata, metas: seq<BatchMetadata>, j: nat): nat
    requires j <= |metas|
  {
    LastMeta(prev, metas, j).messageCount
  }

  /** Batch `j` drains fully, and its messages stand in `all` between its recorded counts. */
  ghost predicate SliceAt(env: Env, prev: BatchMetadata, batches: seq<SequencerInboxBatch>, metas: seq<BatchMetadata>,
                          all: seq<MessageWithBlockInfo>, j: nat)
    requires |metas| == |batches| && j < |batches|
  {
    var w := WalkOf(env, batches[j], ReadBefore(batches, j, prev.delayedMessageCount));
    var lo, hi := Offset(prev, metas, j), Offset(prev, metas, j + 1);
    w.outcome.Done? && lo < hi <= |all| && all[lo..hi] == w.msgs
  }

  /** The drain of all batches, laid out at the recorded counts, is each batch's own drain in turn. */
  lemma {:induction false} DrainSlices(env: Env, prev: BatchMetadata, batches: seq<SequencerInboxBatch>,
                                       metas: seq<BatchMetadata>, k: nat, front: seq<MessageWithBlockInfo>)
    requires k <= |batches| == |metas| && Recounts(env.codec, prev, batches, metas)
    requires AllWellFormed(env, batches, prev.delayedMessageCount)
    requires DrainFrom(env, batches, k, ReadBefore(batches, k, prev.delayedMessageCount)).outcome.Done?
    requires |front| == Offset(prev, metas, k)
    ensures var all := front + DrainFrom(env, batches, k, ReadBefore(batches, k, prev.delayedMessageCount)).msgs;
            && |all| == Offset(prev, metas, |metas|)
            && forall j: nat | k <= j < |batches| :: SliceAt(env, prev, batches, metas, all, j)
    decreases |batches| - k
  {
    hide AllWellFormed, Recounts, WalkOf, ReadBefore, DrainFrom;
    var read0 := prev.delayedMessageCount;
    if k == |batches| {
      DrainNothing(env, batches, ReadBefore(batches, k, read0));
      assert front + [] == front;
    } else {
      WellFormedDrains(env, batches, k, read0);
      var w := WalkOf(env, batches[k], ReadBefore(batches, k, read0));
      RecordedIsDrained(env, prev, batches, metas, k);
      var rest := DrainFrom(env, batches, k + 1, ReadBefore(batches, k + 1, read0)).msgs;
      DrainSlices(env, prev, batches, metas, k + 1, front + w.msgs);
      var all := front + DrainFrom(env, batches, k, ReadBefore(batches, k, read0)).msgs;
      assert all == front + w.msgs + rest;
      assert SliceAt(env, prev, batches, metas, all, k);
    }
  }

  lemma DrainNothing(env: Env, batches: seq<SequencerInboxBatch>, read: u64)
    ensures DrainFrom(env, batches, |batches|, read) == Drained([], Done)
  {
  }
}
