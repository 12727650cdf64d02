/**
 What a list of sequencer batches means: one pass over each batch, in order, with no cursor and no
 caching. The resumable multiplexer is proved equal to this.
 */
module DrainSpec {
  import opened Basics
  import opened L1Message
  import opened Message
  import opened SequencerMessages

  datatype SequencerInboxBatch = SequencerInboxBatch(
    sequenceNumber: nat,
    beforeInboxAcc: Hash32,
    afterInboxAcc: Hash32,
    afterDelayedCount: u64,
    afterDelayedAcc: Hash32,
    parentChainBlockNumber: nat,
    blockHash: Hash32,
    serialized: Bytes)

  /** What the multiplexer reads besides the batches: the parsing libraries and the delayed inbox. */
  datatype Env = Env(codec: Codec, delayed: nat -> Option<L1IncomingMessage>)

  // ----- segments

  datatype Segment =
    | Empty
    | L2Message(payload: Bytes)
    | L2MessageBrotli(compressed: Bytes)
    | DelayedMessages
    | AdvanceTimestamp(amount: u64)
    | AdvanceL1BlockNumber(amount: u64)
    | Unknown

  /** An amount that does not decode advances by nothing. */
  function Amount(b: Bytes): u64 {
    var decoded := DecodeU64(b);
    if decoded.Some? then decoded.value.0 else 0
  }

  function Classify(seg: Bytes): Segment {
    if seg == [] then Empty
    else if seg[0] == 0 then L2Message(seg[1..])
    else if seg[0] == 1 then L2MessageBrotli(seg[1..])
    else if seg[0] == 2 then DelayedMessages
    else if seg[0] == 3 then AdvanceTimestamp(Amount(seg[1..]))
    else if seg[0] == 4 then AdvanceL1BlockNumber(Amount(seg[1..]))
    else Unknown
  }

  predicate IsL2(s: Segment) {
    s.L2Message? || s.L2MessageBrotli?
  }

  /** Segments that stand for one message; the others only move the clock or say nothing. */
  predicate Emits(s: Segment) {
    IsL2(s) || s.DelayedMessages?
  }

  /** Segments the cursor stops at. */
  predicate Stops(s: Segment) {
    Emits(s) || s.Unknown?
  }

  predicate EmitsFrom(segments: seq<Bytes>, i: nat) {
    exists j | i <= j < |segments| :: Emits(Classify(segments[j]))
  }

  // ----- emitted messages

  function Clamp(x: u64, lo: u64, hi: u64): u64 {
    if x < lo then lo else if hi < x then hi else x
  }

  /** The standard library's clamp panics on an empty interval. */
  predicate ProperBounds(m: SequencerMessage) {
    m.minTimestamp <= m.maxTimestamp && m.minL1Block <= m.maxL1Block
  }

  function BatchHeaderAt(kind: byte, blockNumber: u64, timestamp: u64): L1IncomingMessageHeader {
    L1IncomingMessageHeader(kind, ZERO_ADDRESS, blockNumber, timestamp, None, 0)
  }

  function FromBatch(header: L1IncomingMessageHeader, payload: Bytes, read: u64, hash: Option<Hash32>)
    : MessageWithBlockInfo
  {
    MessageWithBlockInfo(MessageWithMetadata(L1IncomingMessage(header, payload, None), read), hash, None)
  }

  function FromDelayed(d: L1IncomingMessage, read: u64): MessageWithBlockInfo {
    MessageWithBlockInfo(MessageWithMetadata(d, read), None, None)
  }

  function Invalid(m: SequencerMessage, hash: Option<Hash32>): MessageWithBlockInfo {
    FromBatch(BatchHeaderAt(0xff, m.maxL1Block, m.maxTimestamp), [], m.afterDelayedMessages, hash)
  }

  // ----- the walk

  /** How a drain ends: normally, at a segment of unknown kind, with an error, or with a panic. */
  datatype Outcome = Done | Stopped | Failed | Panicked

  datatype Drained = Drained(msgs: seq<MessageWithBlockInfo>, outcome: Outcome)

  function Then(msg: MessageWithBlockInfo, d: Drained): Drained {
    Drained([msg] + d.msgs, d.outcome)
  }

  /** `e` follows only if `d` ended normally. */
  function Append(d: Drained, e: Drained): Drained {
    if d.outcome.Done? then Drained(d.msgs + e.msgs, e.outcome) else d
  }

  /** The delayed messages a batch has a claim to but did not place. */
  function Unread(env: Env, read: u64, after: u64): Drained
    decreases after - read
  {
    if read >= after then Drained([], Done)
    else match env.delayed(read)
      case None => Drained([], Failed)
      case Some(d) => Then(FromDelayed(d, read + 1), Unread(env, read + 1, after))
  }

  /**
   Walks the segments of one batch from the `i`th on. `ts` and `blk` are the running clocks, `read`
   counts delayed messages placed so far, and `emitted` says whether this batch placed anything yet.
   */
  function Walk(env: Env, m: SequencerMessage, hash: Option<Hash32>, i: nat, ts: u64, blk: u64, read: u64,
                emitted: bool)
    : Drained
    requires i <= |m.segments|
    decreases |m.segments| - i
  {
    if i == |m.segments| then
      if read >= m.afterDelayedMessages && !emitted then Drained([Invalid(m, hash)], Done)
      else Unread(env, read, m.afterDelayedMessages)
    else
      match Classify(m.segments[i])
      case Empty => Walk(env, m, hash, i + 1, ts, blk, read, emitted)
      case AdvanceTimestamp(v) => Walk(env, m, hash, i + 1, SaturatingAdd(ts, v), blk, read, emitted)
      case AdvanceL1BlockNumber(v) => Walk(env, m, hash, i + 1, ts, SaturatingAdd(blk, v), read, emitted)
      case L2Message(payload) =>
        if !ProperBounds(m) then Drained([], Panicked)
        else Then(FromBatch(BatchHeaderAt(3, Clamp(blk, m.minL1Block, m.maxL1Block),
                                          Clamp(ts, m.minTimestamp, m.maxTimestamp)), payload, read, hash),
                  Walk(env, m, hash, i + 1, ts, blk, read, true))
      case L2MessageBrotli(compressed) =>
        (match env.codec.decompress(compressed)
         case None => Drained([], Failed)
         case Some(payload) =>
           if !ProperBounds(m) then Drained([], Panicked)
           else Then(FromBatch(BatchHeaderAt(3, Clamp(blk, m.minL1Block, m.maxL1Block),
                                             Clamp(ts, m.minTimestamp, m.maxTimestamp)), payload, read, hash),
                     Walk(env, m, hash, i + 1, ts, blk, read, true)))
      case DelayedMessages =>
        if read >= m.afterDelayedMessages then
          Then(Invalid(m, hash), Walk(env, m, hash, i + 1, ts, blk, read, true))
        else (match env.delayed(read)
          case None => Drained([], Failed)
          case Some(d) => Then(FromDelayed(d, read + 1), Walk(env, m, hash, i + 1, ts, blk, read + 1, true)))
      case Unknown =>
        // A trailing unknown segment is never reached: the batch is over once everything is placed.
        if emitted && read >= m.afterDelayedMessages && !EmitsFrom(m.segments, i + 1) then Drained([], Done)
        else Drained([], Stopped)
  }

  function WalkBatch(env: Env, m: SequencerMessage, hash: Option<Hash32>, read: u64): Drained {
    Walk(env, m, hash, 0, 0, 0, read, false)
  }

  /** Every batch starts from the delayed count that the previous one announced. */
  function DrainFrom(env: Env, batches: seq<SequencerInboxBatch>, k: nat, read: u64): Drained
    requires k <= |batches|
    decreases |batches| - k
  {
    if k == |batches| then Drained([], Done) else
      match Parse(env.codec, batches[k].serialized)
      case Err => Drained([], Failed)
      case Ok(m) =>
        Append(WalkBatch(env, m, Some(batches[k].blockHash), read),
               DrainFrom(env, batches, k + 1, m.afterDelayedMessages))
  }

  function Drain(env: Env, batches: seq<SequencerInboxBatch>, read: u64): Drained {
    DrainFrom(env, batches, 0, read)
  }

  lemma ThenAppend(msg: MessageWithBlockInfo, d: Drained, e: Drained)
    ensures Append(Then(msg, d), e) == Then(msg, Append(d, e))
  {
    if d.outcome.Done? {
      assert [msg] + d.msgs + e.msgs == [msg] + (d.msgs + e.msgs);
    }
  }
}
