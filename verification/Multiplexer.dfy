/**
 The inbox multiplexer: a cursor that is resumed on every `Pop`, over batches and the delayed inbox.
 Its state always stands for a suffix of the one-pass walk in `DrainSpec`.
 */
module Multiplexer {
  import opened Basics
  import opened L1Message
  import opened Message
  import opened SequencerMessages
  import opened DrainSpec
  import opened DrainMeaning

  /** A position inside one batch: segment, clocks, and segments already stood for by earlier pops. */
  datatype Cursor = Cursor(segment: nat, timestamp: u64, blockNumber: u64, submessage: nat)

  const START := Cursor(0, 0, 0, 0)

  /** Moves to the segment that pop number `target` of the batch emits. */
  function Seek(segments: seq<Bytes>, c: Cursor, target: nat): (r: Cursor)
    ensures c.segment <= |segments| ==> r.segment <= |segments|
    decreases |segments| - c.segment
  {
    if c.segment >= |segments| then c else
      match Classify(segments[c.segment])
      case Empty => Seek(segments, c.(segment := c.segment + 1), target)
      case AdvanceTimestamp(v) =>
        Seek(segments, c.(segment := c.segment + 1, timestamp := SaturatingAdd(c.timestamp, v)), target)
      case AdvanceL1BlockNumber(v) =>
        Seek(segments, c.(segment := c.segment + 1, blockNumber := SaturatingAdd(c.blockNumber, v)), target)
      case _ =>
        if c.submessage < target then
          Seek(segments, c.(segment := c.segment + 1, submessage := c.submessage + 1), target)
        else c
  }

  /** Where a seek ends: past the segments, or at one that stands for the wanted submessage. */
  lemma {:induction false} SeekEnds(segments: seq<Bytes>, c: Cursor, target: nat)
    requires c.segment <= |segments|
    ensures var r := Seek(segments, c, target);
            && c.segment <= r.segment <= |segments|
            && (r.segment < |segments| ==> Stops(Classify(segments[r.segment])))
            && (r.segment < |segments| && c.submessage <= target ==> r.submessage == target)
    decreases |segments| - c.segment
  {
    if c.segment < |segments| {
      match Classify(segments[c.segment])
      case Empty => SeekEnds(segments, c.(segment := c.segment + 1), target);
      case AdvanceTimestamp(v) =>
        SeekEnds(segments, c.(segment := c.segment + 1, timestamp := SaturatingAdd(c.timestamp, v)), target);
      case AdvanceL1BlockNumber(v) =>
        SeekEnds(segments, c.(segment := c.segment + 1, blockNumber := SaturatingAdd(c.blockNumber, v)), target);
      case _ =>
        if c.submessage < target {
          SeekEnds(segments, c.(segment := c.segment + 1, submessage := c.submessage + 1), target);
        }
    }
  }

  /** Resuming from an earlier cursor gives what rescanning from that cursor's own start gives. */
  lemma {:induction false} SeekResumes(segments: seq<Bytes>, c: Cursor, target: nat, later: nat)
    requires c.segment <= |segments| && target <= later
    ensures Seek(segments, Seek(segments, c, target), later) == Seek(segments, c, later)
    decreases |segments| - c.segment
  {
    if c.segment < |segments| {
      match Classify(segments[c.segment])
      case Empty => SeekResumes(segments, c.(segment := c.segment + 1), target, later);
      case AdvanceTimestamp(v) =>
        SeekResumes(segments, c.(segment := c.segment + 1, timestamp := SaturatingAdd(c.timestamp, v)), target, later);
      case AdvanceL1BlockNumber(v) =>
        SeekResumes(segments, c.(segment := c.segment + 1, blockNumber := SaturatingAdd(c.blockNumber, v)), target,
                    later);
      case _ =>
        if c.submessage < target {
          SeekResumes(segments, c.(segment := c.segment + 1, submessage := c.submessage + 1), target, later);
        }
    }
  }

  /** Skipping clock and empty segments does not change what the walk still emits. */
  lemma {:induction false} WalkSeeks(env: Env, m: SequencerMessage, hash: Option<Hash32>, c: Cursor, target: nat,
                                     read: u64, emitted: bool)
    requires c.segment <= |m.segments| && c.submessage >= target
    ensures var r := Seek(m.segments, c, target);
            && c.segment <= r.segment <= |m.segments|
            && Walk(env, m, hash, c.segment, c.timestamp, c.blockNumber, read, emitted)
               == Walk(env, m, hash, r.segment, r.timestamp, r.blockNumber, read, emitted)
    decreases |m.segments| - c.segment
  {
    hide Unread, EmitsFrom, Then, FromBatch, Invalid, FromDelayed;
    if c.segment < |m.segments| {
      match Classify(m.segments[c.segment])
      case Empty => WalkSeeks(env, m, hash, c.(segment := c.segment + 1), target, read, emitted);
      case AdvanceTimestamp(v) =>
        WalkSeeks(env, m, hash, c.(segment := c.segment + 1, timestamp := SaturatingAdd(c.timestamp, v)), target, read,
                  emitted);
      case AdvanceL1BlockNumber(v) =>
        WalkSeeks(env, m, hash, c.(segment := c.segment + 1, blockNumber := SaturatingAdd(c.blockNumber, v)), target,
                  read, emitted);
      case _ =>
    }
  }

  /** Nothing is left to place after segment `s`. */
  predicate IsLast(m: SequencerMessage, s: nat, read: u64) {
    read >= m.afterDelayedMessages && !EmitsFrom(m.segments, s + 1)
  }

  /** Once a batch has placed something and nothing is left, the rest of its walk is empty. */
  lemma {:induction false} WalkIsOver(env: Env, m: SequencerMessage, hash: Option<Hash32>, i: nat, ts: u64, blk: u64,
                                      read: u64)
    requires i <= |m.segments| && read >= m.afterDelayedMessages && !EmitsFrom(m.segments, i)
    ensures Walk(env, m, hash, i, ts, blk, read, true) == Drained([], Done)
    decreases |m.segments| - i
  {
    if i < |m.segments| {
      match Classify(m.segments[i])
      case Empty => WalkIsOver(env, m, hash, i + 1, ts, blk, read);
      case AdvanceTimestamp(v) => WalkIsOver(env, m, hash, i + 1, SaturatingAdd(ts, v), blk, read);
      case AdvanceL1BlockNumber(v) => WalkIsOver(env, m, hash, i + 1, ts, SaturatingAdd(blk, v), read);
      case _ =>
    }
  }

  /** A seek that is not waiting for a later submessage passes nothing that emits. */
  lemma {:induction false} SeekPasses(segments: seq<Bytes>, c: Cursor, target: nat)
    requires c.segment <= |segments| && c.submessage >= target
    ensures forall j | c.segment <= j < Seek(segments, c, target).segment && j < |segments| ::
              !Emits(Classify(segments[j]))
    decreases |segments| - c.segment
  {
    if c.segment < |segments| {
      match Classify(segments[c.segment])
      case Empty => SeekPasses(segments, c.(segment := c.segment + 1), target);
      case AdvanceTimestamp(v) =>
        SeekPasses(segments, c.(segment := c.segment + 1, timestamp := SaturatingAdd(c.timestamp, v)), target);
      case AdvanceL1BlockNumber(v) =>
        SeekPasses(segments, c.(segment := c.segment + 1, blockNumber := SaturatingAdd(c.blockNumber, v)), target);
      case _ =>
    }
  }

  /** The cursor a pop starts from: the very start, or the last emission of an unfinished batch. */
  ghost predicate Resumable(m: SequencerMessage, c: Cursor, target: nat, read: u64, emitted: bool) {
    if emitted then target > 0 && c == Seek(m.segments, START, target - 1) && !IsLast(m, c.segment, read)
    else target == 0 && c == START
  }

  function ResumeAt(m: SequencerMessage, c: Cursor, emitted: bool): nat {
    if emitted then Min(c.segment + 1, |m.segments|) else 0
  }

  /** Leaving the segment emitted last counts as one submessage. */
  lemma SeekLeaves(m: SequencerMessage, c: Cursor, target: nat, read: u64)
    requires Resumable(m, c, target, read, true)
    ensures c.segment <= |m.segments|
    ensures c.segment < |m.segments| ==>
              && c.submessage + 1 == target
              && Seek(m.segments, c, target)
                 == Seek(m.segments, c.(segment := c.segment + 1, submessage := target), target)
  {
    SeekEnds(m.segments, START, target - 1);
  }

  /** The segment at `s` emits, or one after it does. */
  predicate SomethingLeft(segments: seq<Bytes>, s: nat) {
    && s < |segments|
    && (Emits(Classify(segments[s])) || EmitsFrom(segments, s + 1))
  }

  /** What seeking from a resumable cursor establishes. */
  lemma SeekStep(env: Env, m: SequencerMessage, hash: Option<Hash32>, c: Cursor, target: nat, read: u64, emitted: bool)
    requires Resumable(m, c, target, read, emitted)
    ensures var r := Seek(m.segments, c, target);
            && r.segment <= |m.segments|
            && r == Seek(m.segments, START, target)
            && (r.segment < |m.segments| ==> Stops(Classify(m.segments[r.segment])))
            && Walk(env, m, hash, ResumeAt(m, c, emitted), c.timestamp, c.blockNumber, read, emitted)
               == Walk(env, m, hash, r.segment, r.timestamp, r.blockNumber, read, emitted)
            && (emitted && read >= m.afterDelayedMessages ==> SomethingLeft(m.segments, r.segment))
  {
    hide Walk, Classify;
    SeekEnds(m.segments, START, if emitted then target - 1 else 0);
    SeekResumes(m.segments, START, if emitted then target - 1 else 0, target);
    SeekEnds(m.segments, START, target);
    if !emitted {
      WalkSeeks(env, m, hash, c, target, read, emitted);
    } else {
      SeekLeaves(m, c, target, read);
      if c.segment < |m.segments| {
        var next := c.(segment := c.segment + 1, submessage := target);
        WalkSeeks(env, m, hash, next, target, read, emitted);
        SeekPasses(m.segments, next, target);
      }
    }
  }

  // ----- the backend and the multiplexer

  class TrackerBackend {
    const batches: seq<SequencerInboxBatch>
    var batchIdx: nat
    var posWithin: nat

    constructor (batches: seq<SequencerInboxBatch>)
      ensures this.batches == batches && batchIdx == 0 && posWithin == 0
    {
      this.batches := batches;
      batchIdx := 0;
      posWithin := 0;
    }

    method AdvanceSequencerInbox()
      modifies `batchIdx
      ensures batchIdx == if old(batchIdx) < |batches| then old(batchIdx) + 1 else old(batchIdx)
    {
      if batchIdx < |batches| {
        batchIdx := batchIdx + 1;
      }
    }

    method SetPositionWithinMessage(pos: nat)
      modifies `posWithin
      ensures posWithin == pos
    {
      posWithin := pos;
    }
  }

  datatype Popped = Message(msg: MessageWithBlockInfo) | NoMessage | Error | Panic

  /** How the result of a pop relates what was left before to what is left after. */
  predicate Explains(before: Drained, r: Popped, after: Drained) {
    match r
    case Message(msg) => before == Then(msg, after)
    case NoMessage => before.msgs == [] && (before.outcome.Done? || before.outcome.Stopped?)
    case Error => before == Drained([], Failed)
    case Panic => before == Drained([], Panicked)
  }

  class InboxMultiplexer {
    const env: Env
    const backend: TrackerBackend
    var delayedMessagesRead: u64
    var cachedMsg: Option<SequencerMessage>
    var cachedBatchHash: Option<Hash32>
    var cachedSegmentNum: nat
    var cachedSegmentTimestamp: u64
    var cachedSegmentBlockNumber: u64
    var cachedSubmessageNumber: nat

    ghost function CachedCursor(): Cursor
      reads this
    {
      Cursor(cachedSegmentNum, cachedSegmentTimestamp, cachedSegmentBlockNumber, cachedSubmessageNumber)
    }

    /** Between pops the cursor stands on the segment emitted last, and equals a scan from the start. */
    ghost predicate Valid()
      reads this, backend
    {
      && backend.batchIdx <= |backend.batches|
      && (cachedMsg.None? ==> CachedCursor() == START && backend.posWithin == 0)
      && (cachedMsg.Some? ==>
            && backend.batchIdx < |backend.batches|
            && backend.posWithin > 0
            && CachedCursor() == Seek(cachedMsg.value.segments, START, backend.posWithin - 1)
            && cachedSegmentNum <= |cachedMsg.value.segments|
            && cachedBatchHash == Some(backend.batches[backend.batchIdx].blockHash)
            && !IsLast(cachedMsg.value, cachedSegmentNum, delayedMessagesRead))
    }

    /** What the pops to come will return, and how they will end. */
    ghost function Remaining(): Drained
      requires Valid()
      reads this, backend
    {
      if cachedMsg.None? then DrainFrom(env, backend.batches, backend.batchIdx, delayedMessagesRead)
      else
        var m := cachedMsg.value;
        Append(Walk(env, m, cachedBatchHash, Min(cachedSegmentNum + 1, |m.segments|), cachedSegmentTimestamp,
                    cachedSegmentBlockNumber, delayedMessagesRead, true),
               DrainFrom(env, backend.batches, backend.batchIdx + 1, m.afterDelayedMessages))
    }

    constructor (env: Env, backend: TrackerBackend, delayedMessagesRead: u64)
      requires backend.batchIdx == 0 && backend.posWithin == 0
      ensures Valid() && this.env == env && this.backend == backend
      ensures Remaining() == Drain(env, backend.batches, delayedMessagesRead)
    {
      this.env := env;
      this.backend := backend;
      this.delayedMessagesRead := delayedMessagesRead;
      cachedMsg := None;
      cachedBatchHash := None;
      cachedSegmentNum := 0;
      cachedSegmentTimestamp := 0;
      cachedSegmentBlockNumber := 0;
      cachedSubmessageNumber := 0;
    }

    method AdvanceSeqMsg()
      modifies this, backend
      ensures cachedMsg == None && cachedBatchHash == None && CachedCursor() == START && backend.posWithin == 0
      ensures backend.batchIdx
           == if old(backend.batchIdx) < |backend.batches| then old(backend.batchIdx) + 1 else old(backend.batchIdx)
      ensures delayedMessagesRead
           == if old(cachedMsg).Some? then old(cachedMsg).value.afterDelayedMessages else old(delayedMessagesRead)
    {
      if cachedMsg.Some? {
        delayedMessagesRead := cachedMsg.value.afterDelayedMessages;
      }
      backend.SetPositionWithinMessage(0);
      backend.AdvanceSequencerInbox();
      cachedMsg := None;
      cachedBatchHash := None;
      cachedSegmentNum := 0;
      cachedSegmentTimestamp := 0;
      cachedSegmentBlockNumber := 0;
      cachedSubmessageNumber := 0;
    }

    method AdvanceSubmsg()
      modifies backend`posWithin
      ensures backend.posWithin == old(backend.posWithin) + 1
    {
      var prev := backend.posWithin;
      backend.SetPositionWithinMessage(prev + 1);
    }

    method IsCachedSegmentLast() returns (last: bool)
      ensures cachedMsg.Some? ==> last == IsLast(cachedMsg.value, cachedSegmentNum, delayedMessagesRead)
      ensures cachedMsg.None? ==> last
    {
      hide Classify;
      if cachedMsg.Some? {
        var m := cachedMsg.value;
        if delayedMessagesRead < m.afterDelayedMessages {
          return false;
        }
        var i := cachedSegmentNum + 1;
        while i < |m.segments|
          invariant cachedSegmentNum + 1 <= i
          invariant forall j | cachedSegmentNum + 1 <= j < i && j < |m.segments| :: !Emits(Classify(m.segments[j]))
        {
          var seg := Classify(m.segments[i]);
          if IsL2(seg) {
            return false;
          }
          if seg.DelayedMessages? {
            return false;
          }
          i := i + 1;
        }
      }
      last := true;
    }

    /** Moves the cached cursor to the segment that the position asks for. */
    method SeekSegment(m: SequencerMessage)
      requires cachedSegmentNum <= |m.segments|
      modifies `cachedSegmentNum, `cachedSegmentTimestamp, `cachedSegmentBlockNumber, `cachedSubmessageNumber
      ensures CachedCursor() == Seek(m.segments, old(CachedCursor()), backend.posWithin)
      ensures cachedSegmentNum <= |m.segments|
    {
      hide Classify;
      var target := backend.posWithin;
      var segmentNum, timestamp := cachedSegmentNum, cachedSegmentTimestamp;
      var blockNumber, submessageNumber := cachedSegmentBlockNumber, cachedSubmessageNumber;
      while segmentNum < |m.segments|
        invariant segmentNum <= |m.segments|
        invariant Seek(m.segments, Cursor(segmentNum, timestamp, blockNumber, submessageNumber), target)
               == Seek(m.segments, old(CachedCursor()), target)
        decreases |m.segments| - segmentNum
      {
        match Classify(m.segments[segmentNum])
        case Empty =>
          segmentNum := segmentNum + 1;
        case AdvanceTimestamp(v) =>
          timestamp := SaturatingAdd(timestamp, v);
          segmentNum := segmentNum + 1;
        case AdvanceL1BlockNumber(v) =>
          blockNumber := SaturatingAdd(blockNumber, v);
          segmentNum := segmentNum + 1;
        case _ =>
          if submessageNumber < target {
            segmentNum := segmentNum + 1;
            submessageNumber := submessageNumber + 1;
          } else {
            break;
          }
      }
      cachedSegmentNum := segmentNum;
      cachedSegmentTimestamp := timestamp;
      cachedSegmentBlockNumber := blockNumber;
      cachedSubmessageNumber := submessageNumber;
    }

    /** Emits the segment under the cursor, or a delayed message once the segments are used up. */
    method EmitCurrent(m: SequencerMessage, ghost emitted: bool) returns (r: Popped)
      requires cachedSegmentNum <= |m.segments|
      requires emitted && cachedSegmentNum == |m.segments| ==> delayedMessagesRead < m.afterDelayedMessages
      requires cachedSegmentNum < |m.segments| ==> Stops(Classify(m.segments[cachedSegmentNum]))
      modifies `delayedMessagesRead
      ensures Emitted(env, m, cachedBatchHash, CachedCursor(), old(delayedMessagesRead), emitted, r,
                      delayedMessagesRead)
    {
      hide Classify, Clamp, Walk, Emitted;
      ghost var c, read := CachedCursor(), delayedMessagesRead;
      var seg := if cachedSegmentNum < |m.segments| then Classify(m.segments[cachedSegmentNum]) else DelayedMessages;
      if IsL2(seg) {
        var payload: Bytes;
        if seg.L2MessageBrotli? {
          var decompressed := env.codec.decompress(seg.compressed);
          if decompressed.None? {
            L2Fails(env, m, cachedBatchHash, c, read, emitted);
            return Error;
          }
          payload := decompressed.value;
        } else {
          payload := seg.payload;
        }
        if m.minL1Block > m.maxL1Block || m.minTimestamp > m.maxTimestamp {
          L2Fails(env, m, cachedBatchHash, c, read, emitted);
          return Panic;
        }
        L2IsEmitted(env, m, cachedBatchHash, c, read, emitted, payload);
        var header := L1IncomingMessageHeader(3, ZERO_ADDRESS,
                                              Clamp(cachedSegmentBlockNumber, m.minL1Block, m.maxL1Block),
                                              Clamp(cachedSegmentTimestamp, m.minTimestamp, m.maxTimestamp), None, 0);
        var msg := L1IncomingMessage(header, payload, None);
        return Message(MessageWithBlockInfo(MessageWithMetadata(msg, delayedMessagesRead), cachedBatchHash, None));
      } else if seg.DelayedMessages? {
        DelayedIsEmitted(env, m, cachedBatchHash, c, read, emitted);
        if delayedMessagesRead >= m.afterDelayedMessages {
          var header := L1IncomingMessageHeader(0xff, ZERO_ADDRESS, m.maxL1Block, m.maxTimestamp, None, 0);
          var msg := L1IncomingMessage(header, [], None);
          return Message(MessageWithBlockInfo(MessageWithMetadata(msg, m.afterDelayedMessages), cachedBatchHash, None));
        }
        var delayed := env.delayed(delayedMessagesRead);
        if delayed.None? {
          return Error;
        }
        delayedMessagesRead := delayedMessagesRead + 1;
        return Message(MessageWithBlockInfo(MessageWithMetadata(delayed.value, delayedMessagesRead), None, None));
      }
      UnknownIsSilent(env, m, cachedBatchHash, c, read, emitted);
      r := NoMessage;
    }

    /** Fetches and parses the next batch, if there is one. */
    method LoadBatch() returns (r: Option<Popped>)
      requires Valid() && cachedMsg.None?
      modifies `cachedMsg, `cachedBatchHash
      ensures r.Some? ==> Explains(old(Remaining()), r.value, Drained([], Done)) && !r.value.Message?
      ensures r.None? ==>
                && backend.batchIdx < |backend.batches|
                && cachedBatchHash == Some(backend.batches[backend.batchIdx].blockHash)
                && cachedMsg.Some?
                && Parse(env.codec, backend.batches[backend.batchIdx].serialized) == Ok(cachedMsg.value)
    {
      hide Parse, WalkBatch;
      if backend.batchIdx >= |backend.batches| {
        return Some(NoMessage);
      }
      var batch := backend.batches[backend.batchIdx];
      var parsed := ParseSequencerMessage(env.codec, batch.serialized);
      if parsed.Err? {
        return Some(Error);
      }
      cachedBatchHash := Some(batch.blockHash);
      cachedMsg := Some(parsed.value);
      r := None;
    }

    /** One pop takes exactly the first of the remaining messages, or reports how the drain ended. */
    method Pop() returns (r: Popped)
      requires Valid()
      modifies this, backend
      ensures r.Message? ==> Valid() && Explains(old(Remaining()), r, Remaining())
      ensures !r.Message? ==> Explains(old(Remaining()), r, Drained([], Done))
    {
      hide Parse, Walk, Seek, EmitsFrom, Classify;
      ghost var emitted := cachedMsg.Some?;
      if cachedMsg.None? {
        var ended := LoadBatch();
        if ended.Some? {
          return ended.value;
        }
      }
      var m := cachedMsg.value;
      ghost var c, target, read := CachedCursor(), backend.posWithin, delayedMessagesRead;
      ghost var rest := DrainFrom(env, backend.batches, backend.batchIdx + 1, m.afterDelayedMessages);
      SeekStep(env, m, cachedBatchHash, c, target, read, emitted);
      SeekSegment(m);
      ghost var at := CachedCursor();
      ghost var walk := Walk(env, m, cachedBatchHash, at.segment, at.timestamp, at.blockNumber, read, emitted);
      assert old(Remaining()) == Append(walk, rest);
      r := EmitCurrent(m, emitted);
      if r.Panic? {
        return;
      }
      var last := IsCachedSegmentLast();
      if r.Message? {
        ghost var next := Walk(env, m, cachedBatchHash, Min(at.segment + 1, |m.segments|), at.timestamp, at.blockNumber,
                               delayedMessagesRead, true);
        ThenAppend(r.msg, next, rest);
        if last {
          LastWalkIsOver(env, m, cachedBatchHash, at, delayedMessagesRead);
        }
      } else if r.NoMessage? {
        UnknownStops(env, m, cachedBatchHash, at, read, emitted);
      }
      if last {
        AdvanceSeqMsg();
      } else {
        AdvanceSubmsg();
      }
    }
  }

  lemma LastWalkIsOver(env: Env, m: SequencerMessage, hash: Option<Hash32>, c: Cursor, read: u64)
    requires c.segment <= |m.segments| && IsLast(m, c.segment, read)
    ensures Walk(env, m, hash, Min(c.segment + 1, |m.segments|), c.timestamp, c.blockNumber, read, true)
            == Drained([], Done)
  {
    WalkIsOver(env, m, hash, Min(c.segment + 1, |m.segments|), c.timestamp, c.blockNumber, read);
  }

  lemma UnknownStops(env: Env, m: SequencerMessage, hash: Option<Hash32>, c: Cursor, read: u64, emitted: bool)
    requires c.segment < |m.segments| && Classify(m.segments[c.segment]).Unknown?
    requires emitted && read >= m.afterDelayedMessages ==> EmitsFrom(m.segments, c.segment + 1)
    ensures Walk(env, m, hash, c.segment, c.timestamp, c.blockNumber, read, emitted) == Drained([], Stopped)
  {
  }

  // ----- draining

  datatype Status = Finished | Errored | Crashed

  /**
   Pops until nothing is returned: terminates, and collects exactly the one-pass walk, which is what the bytes of the
   batches say.
   */
  method DrainBatches(env: Env, batches: seq<SequencerInboxBatch>, delayedRead: u64)
    returns (out: seq<MessageWithBlockInfo>, status: Status)
    ensures var d := Drain(env, batches, delayedRead);
            && out == d.msgs
            && (status.Finished? <==> d.outcome.Done? || d.outcome.Stopped?)
            && (status.Errored? <==> d.outcome.Failed?)
            && (status.Crashed? <==> d.outcome.Panicked?)
            && BatchesSay(env, batches, 0, delayedRead, d)
  {
    hide DrainFrom, Walk, Seek, BatchesSay;
    DrainMeans(env, batches, 0, delayedRead);
    var backend := new TrackerBackend(batches);
    var mux := new InboxMultiplexer(env, backend, delayedRead);
    ghost var d := mux.Remaining();
    out := [];
    while true
      invariant mux.Valid() && fresh(mux) && fresh(mux.backend)
      invariant d.msgs == out + mux.Remaining().msgs && d.outcome == mux.Remaining().outcome
      decreases |mux.Remaining().msgs|
    {
      var popped := mux.Pop();
      match popped
      case Message(msg) => out := out + [msg];
      case NoMessage => return out, Finished;
      case Error => return out, Errored;
      case Panic => return out, Crashed;
    }
  }

  /** One emission, told as the first step of the walk from cursor `c` and what is left of it. */
  ghost predicate Emitted(env: Env, m: SequencerMessage, hash: Option<Hash32>, c: Cursor, read: u64, emitted: bool,
                          r: Popped, read': u64)
    requires c.segment <= |m.segments|
  {
    var walk := Walk(env, m, hash, c.segment, c.timestamp, c.blockNumber, read, emitted);
    var next := Min(c.segment + 1, |m.segments|);
    match r
    case Message(msg) => walk == Then(msg, Walk(env, m, hash, next, c.timestamp, c.blockNumber, read', true))
    case NoMessage => c.segment < |m.segments| && Classify(m.segments[c.segment]).Unknown?
    case Error => walk == Drained([], Failed)
    case Panic => walk == Drained([], Panicked)
  }

  lemma L2IsEmitted(env: Env, m: SequencerMessage, hash: Option<Hash32>, c: Cursor, read: u64, emitted: bool,
                    payload: Bytes)
    requires c.segment < |m.segments| && ProperBounds(m)
    requires var seg := Classify(m.segments[c.segment]);
             || seg == L2Message(payload)
             || (seg.L2MessageBrotli? && env.codec.decompress(seg.compressed) == Some(payload))
    ensures var header := BatchHeaderAt(3, Clamp(c.blockNumber, m.minL1Block, m.maxL1Block),
                                        Clamp(c.timestamp, m.minTimestamp, m.maxTimestamp));
            Emitted(env, m, hash, c, read, emitted, Message(FromBatch(header, payload, read, hash)), read)
  {
    hide Classify, Clamp;
  }

  lemma L2Fails(env: Env, m: SequencerMessage, hash: Option<Hash32>, c: Cursor, read: u64, emitted: bool)
    requires c.segment < |m.segments| && IsL2(Classify(m.segments[c.segment]))
    ensures var seg := Classify(m.segments[c.segment]);
            var fails := seg.L2MessageBrotli? && env.codec.decompress(seg.compressed).None?;
            && (fails ==> Emitted(env, m, hash, c, read, emitted, Error, read))
            && (!fails && !ProperBounds(m) ==> Emitted(env, m, hash, c, read, emitted, Panic, read))
  {
    hide Classify, Clamp;
  }

  lemma DelayedIsEmitted(env: Env, m: SequencerMessage, hash: Option<Hash32>, c: Cursor, read: u64, emitted: bool)
    requires c.segment <= |m.segments|
    requires c.segment < |m.segments| ==> Classify(m.segments[c.segment]).DelayedMessages?
    requires c.segment == |m.segments| && emitted ==> read < m.afterDelayedMessages
    ensures read >= m.afterDelayedMessages ==>
              Emitted(env, m, hash, c, read, emitted, Message(Invalid(m, hash)), read)
    ensures read < m.afterDelayedMessages ==>
              if env.delayed(read).None? then Emitted(env, m, hash, c, read, emitted, Error, read)
              else Emitted(env, m, hash, c, read, emitted, Message(FromDelayed(env.delayed(read).value, read + 1)),
                           read + 1)
  {
    hide Classify, Clamp;
  }

  lemma UnknownIsSilent(env: Env, m: SequencerMessage, hash: Option<Hash32>, c: Cursor, read: u64, emitted: bool)
    requires c.segment < |m.segments| && Classify(m.segments[c.segment]).Unknown?
    ensures Emitted(env, m, hash, c, read, emitted, NoMessage, read)
  {
    hide Classify;
  }
}
