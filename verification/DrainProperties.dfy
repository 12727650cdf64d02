/** What every drain of sequencer batches guarantees, whatever the batches are. */
module DrainProperties {
  import opened Basics
  import opened L1Message
  import opened Message
  import opened SequencerMessages
  import opened DrainSpec

  // ----- when a batch drains without trouble

  function CountL2(segments: seq<Bytes>, i: nat): nat
    requires i <= |segments|
    decreases |segments| - i
  {
    if i == |segments| then 0
    else (if IsL2(Classify(segments[i])) then 1 else 0) + CountL2(segments, i + 1)
  }

  function CountDelayed(segments: seq<Bytes>, i: nat): nat
    requires i <= |segments|
    decreases |segments| - i
  {
    if i == |segments| then 0
    else (if Classify(segments[i]).DelayedMessages? then 1 else 0) + CountDelayed(segments, i + 1)
  }

  predicate KindsKnown(segments: seq<Bytes>, i: nat)
    requires i <= |segments|
  {
    forall j | i <= j < |segments| :: !Classify(segments[j]).Unknown?
  }

  /** Every L2 segment from `i` on decompresses and has a proper interval to clamp its clocks to. */
  predicate L2Readable(env: Env, m: SequencerMessage, i: nat)
    requires i <= |m.segments|
  {
    forall j | i <= j < |m.segments| ::
      && (IsL2(Classify(m.segments[j])) ==> ProperBounds(m))
      && (Classify(m.segments[j]).L2MessageBrotli? ==>
            env.codec.decompress(Classify(m.segments[j]).compressed).Some?)
  }

  predicate DelayedAvailable(env: Env, lo: nat, hi: nat) {
    forall d: nat | lo <= d < hi :: env.delayed(d).Some?
  }

  lemma {:induction false} UnreadDone(env: Env, read: u64, after: u64)
    ensures Unread(env, read, after).outcome.Done? <==> DelayedAvailable(env, read, after)
    ensures Unread(env, read, after).outcome.Done? ==> |Unread(env, read, after).msgs| == SaturatingSub(after, read)
    decreases after - read
  {
    if read < after {
      UnreadDone(env, read + 1, after);
    }
  }

  predicate SegmentReadable(env: Env, m: SequencerMessage, seg: Segment) {
    && (IsL2(seg) ==> ProperBounds(m))
    && (seg.L2MessageBrotli? ==> env.codec.decompress(seg.compressed).Some?)
  }

  lemma ReadableNext(env: Env, m: SequencerMessage, i: nat)
    requires i < |m.segments|
    ensures L2Readable(env, m, i) <==> SegmentReadable(env, m, Classify(m.segments[i])) && L2Readable(env, m, i + 1)
    ensures KindsKnown(m.segments, i) <==> !Classify(m.segments[i]).Unknown? && KindsKnown(m.segments, i + 1)
  {
    hide Classify;
  }

  lemma AllReadable(env: Env, m: SequencerMessage)
    ensures L2Readable(env, m, |m.segments|)
  {
  }

  /** With known segment kinds, a walk ends normally exactly when all it needs can be read. */
  lemma {:induction false} WalkDone(env: Env, m: SequencerMessage, hash: Option<Hash32>, i: nat, ts: u64, blk: u64,
                                    read: u64, emitted: bool)
    requires i <= |m.segments| && KindsKnown(m.segments, i)
    ensures Walk(env, m, hash, i, ts, blk, read, emitted).outcome.Done?
       <==> L2Readable(env, m, i) && DelayedAvailable(env, read, m.afterDelayedMessages)
    decreases |m.segments| - i
  {
    hide Unread, EmitsFrom, FromBatch, FromDelayed, Invalid, L2Readable, KindsKnown;
    UnreadDone(env, read, m.afterDelayedMessages);
    if i == |m.segments| {
      AllReadable(env, m);
    } else {
      ReadableNext(env, m, i);
      match Classify(m.segments[i])
      case Empty => WalkDone(env, m, hash, i + 1, ts, blk, read, emitted);
      case AdvanceTimestamp(v) => WalkDone(env, m, hash, i + 1, SaturatingAdd(ts, v), blk, read, emitted);
      case AdvanceL1BlockNumber(v) => WalkDone(env, m, hash, i + 1, ts, SaturatingAdd(blk, v), read, emitted);
      case DelayedMessages =>
        var next := if read < m.afterDelayedMessages then read + 1 else read;
        WalkDone(env, m, hash, i + 1, ts, blk, next, true);
      case L2Message(_) => WalkDone(env, m, hash, i + 1, ts, blk, read, true);
      case L2MessageBrotli(_) => WalkDone(env, m, hash, i + 1, ts, blk, read, true);
      case Unknown =>
    }
  }

  // ----- conservation: how many messages a batch becomes

  lemma {:induction false} NothingCounted(segments: seq<Bytes>, i: nat)
    requires i <= |segments| && !EmitsFrom(segments, i)
    ensures CountL2(segments, i) == CountDelayed(segments, i) == 0
    decreases |segments| - i
  {
    if i < |segments| {
      NothingCounted(segments, i + 1);
    }
  }

  function WalkSize(m: SequencerMessage, i: nat, read: u64): nat
    requires i <= |m.segments|
  {
    CountL2(m.segments, i) + Max(CountDelayed(m.segments, i), SaturatingSub(m.afterDelayedMessages, read))
  }

  lemma {:induction false} WalkLength(env: Env, m: SequencerMessage, hash: Option<Hash32>, i: nat, ts: u64, blk: u64,
                                      read: u64, emitted: bool)
    requires i <= |m.segments| && Walk(env, m, hash, i, ts, blk, read, emitted).outcome.Done?
    ensures |Walk(env, m, hash, i, ts, blk, read, emitted).msgs|
         == if emitted then WalkSize(m, i, read) else Max(1, WalkSize(m, i, read))
    decreases |m.segments| - i
  {
    hide FromBatch, FromDelayed, Invalid, EmitsFrom, Clamp, BatchHeaderAt, ProperBounds, Unread, DelayedAvailable;
    UnreadDone(env, read, m.afterDelayedMessages);
    if i < |m.segments| {
      match Classify(m.segments[i])
      case Empty => WalkLength(env, m, hash, i + 1, ts, blk, read, emitted);
      case AdvanceTimestamp(v) => WalkLength(env, m, hash, i + 1, SaturatingAdd(ts, v), blk, read, emitted);
      case AdvanceL1BlockNumber(v) => WalkLength(env, m, hash, i + 1, ts, SaturatingAdd(blk, v), read, emitted);
      case DelayedMessages =>
        var next := if read < m.afterDelayedMessages then read + 1 else read;
        WalkLength(env, m, hash, i + 1, ts, blk, next, true);
      case Unknown => NothingCounted(m.segments, i + 1);
      case _ => WalkLength(env, m, hash, i + 1, ts, blk, read, true);
    }
  }

  /** A batch becomes one message per L2 segment and per delayed message or claim, and never none. */
  lemma BatchLength(env: Env, m: SequencerMessage, hash: Option<Hash32>, read: u64)
    requires WalkBatch(env, m, hash, read).outcome.Done?
    ensures |WalkBatch(env, m, hash, read).msgs| == Max(1, WalkSize(m, 0, read))
  {
    WalkLength(env, m, hash, 0, 0, 0, read, false);
  }

  /** The increase in message count that the tracker records for a batch. */
  function Increment(m: SequencerMessage, lastDelayed: nat): nat {
    CountL2(m.segments, 0) + SaturatingSub(m.afterDelayedMessages, lastDelayed)
  }

  /**
   The recorded increase is the drained length exactly for batches that claim no more than is due and are not empty.
   */
  lemma IncrementIsLength(env: Env, m: SequencerMessage, hash: Option<Hash32>, read: u64)
    requires WalkBatch(env, m, hash, read).outcome.Done?
    ensures |WalkBatch(env, m, hash, read).msgs| == Increment(m, read)
       <==> CountDelayed(m.segments, 0) <= SaturatingSub(m.afterDelayedMessages, read) && Increment(m, read) >= 1
  {
    BatchLength(env, m, hash, read);
  }

  /** The length of a whole drain, batch by batch. */
  function DrainSize(env: Env, batches: seq<SequencerInboxBatch>, k: nat, read: u64): nat
    requires k <= |batches|
    decreases |batches| - k
  {
    if k == |batches| then 0 else
      match Parse(env.codec, batches[k].serialized)
      case Err => 0
      case Ok(m) => Max(1, WalkSize(m, 0, read)) + DrainSize(env, batches, k + 1, m.afterDelayedMessages)
  }

  lemma {:induction false} DrainLength(env: Env, batches: seq<SequencerInboxBatch>, k: nat, read: u64)
    requires k <= |batches| && DrainFrom(env, batches, k, read).outcome.Done?
    ensures |DrainFrom(env, batches, k, read).msgs| == DrainSize(env, batches, k, read)
    decreases |batches| - k
  {
    hide Parse, WalkBatch, WalkSize;
    if k < |batches| {
      var m := Parse(env.codec, batches[k].serialized).value;
      BatchLength(env, m, Some(batches[k].blockHash), read);
      DrainLength(env, batches, k + 1, m.afterDelayedMessages);
    }
  }

  // ----- the delayed-read counter

  function ReadAt(msg: MessageWithBlockInfo): u64 {
    msg.messageWithMeta.delayedMessagesRead
  }

  /** The check the streamer makes: no message raises the delayed-read counter by more than one. */
  predicate JumpFree(last: nat, msgs: seq<MessageWithBlockInfo>)
    decreases |msgs|
  {
    msgs == [] || (SaturatingSub(ReadAt(msgs[0]), last) <= 1 && JumpFree(ReadAt(msgs[0]), msgs[1..]))
  }

  /** Each message leaves the counter as it is or raises it by one. */
  predicate Climbs(last: nat, msgs: seq<MessageWithBlockInfo>)
    decreases |msgs|
  {
    msgs == [] || (last <= ReadAt(msgs[0]) <= last + 1 && Climbs(ReadAt(msgs[0]), msgs[1..]))
  }

  function LastRead(last: nat, msgs: seq<MessageWithBlockInfo>): nat {
    if msgs == [] then last else ReadAt(msgs[|msgs| - 1])
  }

  lemma {:induction false} ClimbingIsJumpFree(last: nat, msgs: seq<MessageWithBlockInfo>)
    requires Climbs(last, msgs)
    ensures JumpFree(last, msgs)
    decreases |msgs|
  {
    if msgs != [] {
      ClimbingIsJumpFree(ReadAt(msgs[0]), msgs[1..]);
    }
  }

  lemma {:induction false} Chained(last: nat, a: seq<MessageWithBlockInfo>, b: seq<MessageWithBlockInfo>)
    ensures Climbs(last, a + b) <==> Climbs(last, a) && Climbs(LastRead(last, a), b)
    ensures LastRead(last, a + b) == LastRead(LastRead(last, a), b)
    decreases |a|
  {
    assert b == [] ==> a + b == a;
    if a == [] {
      assert a + b == b;
    } else {
      Chained(ReadAt(a[0]), a[1..], b);
      assert (a + b)[1..] == a[1..] + b;
    }
  }

  /** A drain that starts with the counter at `read` climbs, and if it ends normally, ends at `after`. */
  ghost predicate ClimbsTo(d: Drained, read: nat, after: nat) {
    Climbs(read, d.msgs) && (d.outcome.Done? ==> LastRead(read, d.msgs) == after)
  }

  lemma ThenClimbs(msg: MessageWithBlockInfo, d: Drained, read: nat, after: nat)
    requires ClimbsTo(d, ReadAt(msg), after) && read <= ReadAt(msg) <= read + 1
    ensures ClimbsTo(Then(msg, d), read, after)
  {
    Chained(read, [msg], d.msgs);
    assert Climbs(read, [msg]);
  }

  lemma {:induction false} UnreadClimbs(env: Env, read: u64, after: u64)
    requires read <= after
    ensures ClimbsTo(Unread(env, read, after), read, after)
    decreases after - read
  {
    if read < after && env.delayed(read).Some? {
      UnreadClimbs(env, read + 1, after);
      ThenClimbs(FromDelayed(env.delayed(read).value, read + 1), Unread(env, read + 1, after), read, after);
    }
  }

  lemma {:induction false} WalkClimbs(env: Env, m: SequencerMessage, hash: Option<Hash32>, i: nat, ts: u64, blk: u64,
                                      read: u64, emitted: bool)
    requires i <= |m.segments| && read <= m.afterDelayedMessages
    ensures ClimbsTo(Walk(env, m, hash, i, ts, blk, read, emitted), read, m.afterDelayedMessages)
    decreases |m.segments| - i
  {
    hide EmitsFrom, Clamp;
    var after := m.afterDelayedMessages;
    var rest := Drained([], Done);
    if i == |m.segments| {
      UnreadClimbs(env, read, after);
      InvalidAlone(m, hash);
      ThenClimbs(Invalid(m, hash), rest, after, after);
    } else {
      match Classify(m.segments[i])
      case Empty => WalkClimbs(env, m, hash, i + 1, ts, blk, read, emitted);
      case AdvanceTimestamp(v) => WalkClimbs(env, m, hash, i + 1, SaturatingAdd(ts, v), blk, read, emitted);
      case AdvanceL1BlockNumber(v) => WalkClimbs(env, m, hash, i + 1, ts, SaturatingAdd(blk, v), read, emitted);
      case DelayedMessages =>
        var next := if read < after then read + 1 else read;
        rest := Walk(env, m, hash, i + 1, ts, blk, next, true);
        WalkClimbs(env, m, hash, i + 1, ts, blk, next, true);
        if read >= after {
          ThenClimbs(Invalid(m, hash), rest, read, after);
        } else if env.delayed(read).Some? {
          ThenClimbs(FromDelayed(env.delayed(read).value, read + 1), rest, read, after);
        }
      case Unknown =>
      case _ =>
        rest := Walk(env, m, hash, i + 1, ts, blk, read, true);
        WalkClimbs(env, m, hash, i + 1, ts, blk, read, true);
        var walk := Walk(env, m, hash, i, ts, blk, read, emitted);
        if walk.msgs != [] {
          var msg := walk.msgs[0];
          assert walk == Then(msg, rest);
          ThenClimbs(msg, rest, read, after);
        }
    }
  }

  /** Each batch announces at least the delayed count of the one before it. */
  predicate CountsNonDecreasing(env: Env, batches: seq<SequencerInboxBatch>, k: nat, read: nat)
    requires k <= |batches|
    decreases |batches| - k
  {
    if k == |batches| then true else
      match Parse(env.codec, batches[k].serialized)
      case Err => true
      case Ok(m) => read <= m.afterDelayedMessages && CountsNonDecreasing(env, batches, k + 1, m.afterDelayedMessages)
  }

  /** The delayed count that the batches announce last. */
  function FinalCount(env: Env, batches: seq<SequencerInboxBatch>, k: nat, read: nat): nat
    requires k <= |batches|
    decreases |batches| - k
  {
    if k == |batches| then read else
      match Parse(env.codec, batches[k].serialized)
      case Err => read
      case Ok(m) => FinalCount(env, batches, k + 1, m.afterDelayedMessages)
  }

  /** A drain of batches with non-decreasing counts passes the streamer's check and ends at the last count. */
  lemma {:induction false} DrainClimbs(env: Env, batches: seq<SequencerInboxBatch>, k: nat, read: u64)
    requires k <= |batches| && CountsNonDecreasing(env, batches, k, read)
    ensures var d := DrainFrom(env, batches, k, read);
            && Climbs(read, d.msgs)
            && (d.outcome.Done? ==> LastRead(read, d.msgs) == FinalCount(env, batches, k, read))
    decreases |batches| - k
  {
    hide Parse, Walk, Climbs;
    assert Climbs(read, []) by { ClimbsNothing(read); }
    if k < |batches| && Parse(env.codec, batches[k].serialized).Ok? {
      var m := Parse(env.codec, batches[k].serialized).value;
      var hash := Some(batches[k].blockHash);
      WalkClimbs(env, m, hash, 0, 0, 0, read, false);
      DrainClimbs(env, batches, k + 1, m.afterDelayedMessages);
      Chained(read, WalkBatch(env, m, hash, read).msgs, DrainFrom(env, batches, k + 1, m.afterDelayedMessages).msgs);
    }
  }

  lemma ClimbsNothing(read: nat)
    ensures Climbs(read, [])
  {
  }

  // ----- exactly when the check passes

  predicate HasL2(segments: seq<Bytes>, i: nat) {
    exists k | i <= k < |segments| :: IsL2(Classify(segments[k]))
  }

  /** A delayed segment has an L2 segment somewhere after it. */
  predicate L2AfterDelayed(segments: seq<Bytes>, i: nat) {
    exists j, k | i <= j < k < |segments| :: Classify(segments[j]).DelayedMessages? && IsL2(Classify(segments[k]))
  }

  /**
   What the check amounts to for one batch: its count falls by at most one, or no L2 message follows a delayed segment.
   */
  predicate Passes(m: SequencerMessage, read: nat) {
    read <= m.afterDelayedMessages + 1 || !L2AfterDelayed(m.segments, 0)
  }

  lemma NextSegment(segments: seq<Bytes>, i: nat)
    requires i < |segments|
    ensures HasL2(segments, i) <==> IsL2(Classify(segments[i])) || HasL2(segments, i + 1)
    ensures L2AfterDelayed(segments, i)
       <==> if Classify(segments[i]).DelayedMessages? then HasL2(segments, i + 1) else L2AfterDelayed(segments, i + 1)
  {
    hide Classify;
    if HasL2(segments, i + 1) {
      var k :| i + 1 <= k < |segments| && IsL2(Classify(segments[k]));
      assert Classify(segments[i]).DelayedMessages? ==> i < k;
    }
    if L2AfterDelayed(segments, i + 1) {
      var j, k :| i + 1 <= j < k < |segments| && Classify(segments[j]).DelayedMessages? && IsL2(Classify(segments[k]));
      assert HasL2(segments, i + 1);
    }
    if L2AfterDelayed(segments, i) {
      var j, k :| i <= j < k < |segments| && Classify(segments[j]).DelayedMessages? && IsL2(Classify(segments[k]));
      assert j == i ==> HasL2(segments, i + 1);
    }
  }

  lemma NoSegments(segments: seq<Bytes>, i: nat)
    requires i <= |segments| && !EmitsFrom(segments, i)
    ensures !HasL2(segments, i) && !L2AfterDelayed(segments, i)
  {
    hide Classify;
  }

  lemma ThenJumps(last: nat, msg: MessageWithBlockInfo, d: Drained)
    ensures JumpFree(last, Then(msg, d).msgs)
            <==> SaturatingSub(ReadAt(msg), last) <= 1 && JumpFree(ReadAt(msg), d.msgs)
  {
    assert Then(msg, d).msgs[1..] == d.msgs;
  }

  lemma NoJumps(last: nat)
    ensures JumpFree(last, [])
  {
  }

  lemma {:induction false} JumpsConcat(last: nat, a: seq<MessageWithBlockInfo>, b: seq<MessageWithBlockInfo>)
    ensures JumpFree(last, a + b) <==> JumpFree(last, a) && JumpFree(LastRead(last, a), b)
    decreases |a|
  {
    if a == [] {
      assert a + b == b;
    } else {
      JumpsConcat(ReadAt(a[0]), a[1..], b);
      assert (a + b)[1..] == a[1..] + b;
    }
  }

  /**
   A batch whose count fell: its L2 messages carry the old count, its delayed segments the new one. Going from the
   old count, the check fails on an L2 message after a delayed segment; going from the new one, on any L2 message.
   */
  predicate Fallen(m: SequencerMessage, d: Drained, i: nat, read: nat) {
    && (!L2AfterDelayed(m.segments, i) ==> JumpFree(read, d.msgs))
    && (!HasL2(m.segments, i) ==> JumpFree(m.afterDelayedMessages, d.msgs))
    && (d.outcome.Done? && JumpFree(read, d.msgs) ==> !L2AfterDelayed(m.segments, i))
    && (d.outcome.Done? && JumpFree(m.afterDelayedMessages, d.msgs) ==> !HasL2(m.segments, i))
  }

  lemma FallenSilent(m: SequencerMessage, d: Drained, i: nat, read: nat)
    requires i < |m.segments| && !Emits(Classify(m.segments[i])) && Fallen(m, d, i + 1, read)
    ensures Fallen(m, d, i, read)
  {
    hide L2AfterDelayed, HasL2, JumpFree;
    NextSegment(m.segments, i);
  }

  lemma FallenEmits(m: SequencerMessage, msg: MessageWithBlockInfo, d: Drained, i: nat, read: nat)
    requires i < |m.segments| && read > m.afterDelayedMessages + 1 && Fallen(m, d, i + 1, read)
    requires Emits(Classify(m.segments[i]))
    requires ReadAt(msg) == if Classify(m.segments[i]).DelayedMessages? then m.afterDelayedMessages else read
    ensures Fallen(m, Then(msg, d), i, read)
  {
    hide L2AfterDelayed, HasL2, JumpFree, Classify;
    NextSegment(m.segments, i);
    ThenJumps(read, msg, d);
    ThenJumps(m.afterDelayedMessages, msg, d);
  }

  lemma FallenNothing(m: SequencerMessage, o: Outcome, i: nat, read: nat)
    requires i <= |m.segments| && (o.Done? ==> !EmitsFrom(m.segments, i))
    ensures Fallen(m, Drained([], o), i, read)
  {
    hide L2AfterDelayed, HasL2, EmitsFrom;
    if o.Done? {
      NoSegments(m.segments, i);
    }
  }

  lemma FallenEnd(env: Env, m: SequencerMessage, hash: Option<Hash32>, ts: u64, blk: u64, read: u64, emitted: bool)
    requires read > m.afterDelayedMessages
    ensures Fallen(m, Walk(env, m, hash, |m.segments|, ts, blk, read, emitted), |m.segments|, read)
  {
    NothingLeft(env, m, hash, |m.segments|, read);
    NothingEmits(m.segments);
    NoSegments(m.segments, |m.segments|);
  }

  lemma {:induction false} FallenWalk(env: Env, m: SequencerMessage, hash: Option<Hash32>, i: nat, ts: u64, blk: u64,
                                      read: u64, emitted: bool)
    requires i <= |m.segments| && read > m.afterDelayedMessages + 1
    ensures Fallen(m, Walk(env, m, hash, i, ts, blk, read, emitted), i, read)
    decreases |m.segments| - i
  {
    hide EmitsFrom, Clamp, Fallen, Unread;
    var walk := Walk(env, m, hash, i, ts, blk, read, emitted);
    if i == |m.segments| {
      FallenEnd(env, m, hash, ts, blk, read, emitted);
    } else {
      var next := Walk(env, m, hash, i + 1, ts, blk, read, true);
      match Classify(m.segments[i])
      case Empty =>
        FallenWalk(env, m, hash, i + 1, ts, blk, read, emitted);
        FallenSilent(m, walk, i, read);
      case AdvanceTimestamp(v) =>
        FallenWalk(env, m, hash, i + 1, SaturatingAdd(ts, v), blk, read, emitted);
        FallenSilent(m, walk, i, read);
      case AdvanceL1BlockNumber(v) =>
        FallenWalk(env, m, hash, i + 1, ts, SaturatingAdd(blk, v), read, emitted);
        FallenSilent(m, walk, i, read);
      case DelayedMessages =>
        FallenWalk(env, m, hash, i + 1, ts, blk, read, true);
        FallenEmits(m, Invalid(m, hash), next, i, read);
      case Unknown =>
        FallenNothing(m, walk.outcome, i + 1, read);
        FallenSilent(m, walk, i, read);
      case _ =>
        FallenWalk(env, m, hash, i + 1, ts, blk, read, true);
        if walk.msgs != [] {
          assert walk == Then(walk.msgs[0], next) && ReadAt(walk.msgs[0]) == read;
          FallenEmits(m, walk.msgs[0], next, i, read);
        } else {
          FallenNothing(m, walk.outcome, i, read);
        }
    }
  }

  lemma NothingEmits(segments: seq<Bytes>)
    ensures !EmitsFrom(segments, |segments|)
  {
  }

  /** A batch with no segments left and no delayed messages due says at most that it is invalid. */
  lemma NothingLeft(env: Env, m: SequencerMessage, hash: Option<Hash32>, i: nat, read: u64)
    requires i == |m.segments| && read >= m.afterDelayedMessages
    ensures forall ts: u64, blk: u64, emitted: bool, last: nat | last >= m.afterDelayedMessages ::
              JumpFree(last, Walk(env, m, hash, i, ts, blk, read, emitted).msgs)
  {
  }

  /** A count that falls by one is within the check's tolerance. */
  lemma {:induction false} SlippedWalk(env: Env, m: SequencerMessage, hash: Option<Hash32>, i: nat, ts: u64, blk: u64,
                                       read: u64, emitted: bool)
    requires i <= |m.segments| && read == m.afterDelayedMessages + 1
    ensures var d := Walk(env, m, hash, i, ts, blk, read, emitted);
            JumpFree(read, d.msgs) && JumpFree(m.afterDelayedMessages, d.msgs)
    decreases |m.segments| - i
  {
    hide EmitsFrom, Clamp, JumpFree, Unread;
    var after := m.afterDelayedMessages;
    NoJumps(read);
    NoJumps(after);
    if i == |m.segments| {
      NothingLeft(env, m, hash, i, read);
    } else {
      var next := Walk(env, m, hash, i + 1, ts, blk, read, true);
      match Classify(m.segments[i])
      case Empty => SlippedWalk(env, m, hash, i + 1, ts, blk, read, emitted);
      case AdvanceTimestamp(v) => SlippedWalk(env, m, hash, i + 1, SaturatingAdd(ts, v), blk, read, emitted);
      case AdvanceL1BlockNumber(v) => SlippedWalk(env, m, hash, i + 1, ts, SaturatingAdd(blk, v), read, emitted);
      case DelayedMessages =>
        SlippedWalk(env, m, hash, i + 1, ts, blk, read, true);
        ThenJumps(read, Invalid(m, hash), next);
        ThenJumps(after, Invalid(m, hash), next);
      case Unknown =>
      case _ =>
        SlippedWalk(env, m, hash, i + 1, ts, blk, read, true);
        var walk := Walk(env, m, hash, i, ts, blk, read, emitted);
        if walk.msgs != [] {
          var msg := walk.msgs[0];
          assert walk == Then(msg, next) && ReadAt(msg) == read;
          ThenJumps(read, msg, next);
          ThenJumps(after, msg, next);
        }
    }
  }

  /**
   A drained batch passes the streamer's check if and only if `Passes` holds, which its segments and counts decide.
   */
  lemma BatchJumps(env: Env, m: SequencerMessage, hash: Option<Hash32>, read: u64)
    ensures var d := WalkBatch(env, m, hash, read);
            && (Passes(m, read) ==> JumpFree(read, d.msgs))
            && (d.outcome.Done? ==> (JumpFree(read, d.msgs) <==> Passes(m, read)))
  {
    hide Walk, JumpFree, L2AfterDelayed, HasL2, Climbs;
    if read <= m.afterDelayedMessages {
      WalkClimbs(env, m, hash, 0, 0, 0, read, false);
      ClimbingIsJumpFree(read, WalkBatch(env, m, hash, read).msgs);
    } else if read == m.afterDelayedMessages + 1 {
      SlippedWalk(env, m, hash, 0, 0, 0, read, false);
    } else {
      FallenWalk(env, m, hash, 0, 0, 0, read, false);
    }
  }

  /** The first message starts at most one above `read`, and a normal end leaves the counter at `after` or above. */
  predicate Edges(d: Drained, read: nat, after: nat) {
    && (d.msgs != [] ==> ReadAt(d.msgs[0]) <= read + 1)
    && (d.outcome.Done? && d.msgs != [] ==> LastRead(read, d.msgs) >= after)
  }

  lemma ThenEdges(msg: MessageWithBlockInfo, d: Drained, read: nat, read': nat, after: nat)
    requires Edges(d, read', after) && ReadAt(msg) <= read + 1
    requires d.outcome.Done? && d.msgs == [] ==> ReadAt(msg) >= after
    ensures Edges(Then(msg, d), read, after)
  {
    assert d.msgs != [] ==> Then(msg, d).msgs[|d.msgs|] == d.msgs[|d.msgs| - 1];
  }

  lemma ClimbsHasEdges(d: Drained, read: nat, after: nat)
    requires ClimbsTo(d, read, after)
    ensures Edges(d, read, after)
  {
  }

  lemma {:induction false} WalkEdges(env: Env, m: SequencerMessage, hash: Option<Hash32>, i: nat, ts: u64, blk: u64,
                                     read: u64, emitted: bool)
    requires i <= |m.segments|
    ensures Edges(Walk(env, m, hash, i, ts, blk, read, emitted), read, m.afterDelayedMessages)
    decreases |m.segments| - i
  {
    hide EmitsFrom, Clamp, Edges, ClimbsTo;
    var after := m.afterDelayedMessages;
    NoEdges(read, after);
    if i == |m.segments| {
      InvalidAlone(m, hash);
      if read <= after {
        UnreadClimbs(env, read, after);
        ClimbsHasEdges(Unread(env, read, after), read, after);
      } else {
        NothingDue(env, read, after);
      }
      InvalidEdges(m, hash, read);
    } else {
      match Classify(m.segments[i])
      case Empty => WalkEdges(env, m, hash, i + 1, ts, blk, read, emitted);
      case AdvanceTimestamp(v) => WalkEdges(env, m, hash, i + 1, SaturatingAdd(ts, v), blk, read, emitted);
      case AdvanceL1BlockNumber(v) => WalkEdges(env, m, hash, i + 1, ts, SaturatingAdd(blk, v), read, emitted);
      case Unknown =>
      case DelayedMessages =>
        var next := if read < after then read + 1 else read;
        var rest := Walk(env, m, hash, i + 1, ts, blk, next, true);
        WalkEdges(env, m, hash, i + 1, ts, blk, next, true);
        DueIsPlaced(env, m, hash, i + 1, ts, blk, next);
        if read >= after {
          ThenEdges(Invalid(m, hash), rest, read, next, after);
        } else if env.delayed(read).Some? {
          ThenEdges(FromDelayed(env.delayed(read).value, read + 1), rest, read, next, after);
        }
      case _ =>
        var rest := Walk(env, m, hash, i + 1, ts, blk, read, true);
        WalkEdges(env, m, hash, i + 1, ts, blk, read, true);
        DueIsPlaced(env, m, hash, i + 1, ts, blk, read);
        var walk := Walk(env, m, hash, i, ts, blk, read, emitted);
        if walk.msgs != [] {
          assert walk == Then(walk.msgs[0], rest);
          ThenEdges(walk.msgs[0], rest, read, read, after);
        }
    }
  }

  lemma NoEdges(read: nat, after: nat)
    ensures forall o: Outcome :: Edges(Drained([], o), read, after)
  {
  }

  lemma NothingDue(env: Env, read: u64, after: u64)
    requires read >= after
    ensures Unread(env, read, after) == Drained([], Done)
  {
  }

  lemma InvalidEdges(m: SequencerMessage, hash: Option<Hash32>, read: u64)
    ensures read >= m.afterDelayedMessages ==> Edges(Drained([Invalid(m, hash)], Done), read, m.afterDelayedMessages)
  {
  }

  /** While delayed messages are due, a walk that ends normally has more to say. */
  lemma DueIsPlaced(env: Env, m: SequencerMessage, hash: Option<Hash32>, i: nat, ts: u64, blk: u64, read: u64)
    requires i <= |m.segments|
    ensures var d := Walk(env, m, hash, i, ts, blk, read, true);
            d.outcome.Done? && read < m.afterDelayedMessages ==> d.msgs != []
  {
    hide Walk;
    if Walk(env, m, hash, i, ts, blk, read, true).outcome.Done? {
      WalkLength(env, m, hash, i, ts, blk, read, true);
    }
  }

  /** Every batch passes, each judged from the count that the one before it announced. */
  predicate AllPass(env: Env, batches: seq<SequencerInboxBatch>, k: nat, read: nat)
    requires k <= |batches|
    decreases |batches| - k
  {
    if k == |batches| then true else
      match Parse(env.codec, batches[k].serialized)
      case Err => true
      case Ok(m) => Passes(m, read) && AllPass(env, batches, k + 1, m.afterDelayedMessages)
  }

  lemma SameStart(last: nat, read: nat, msgs: seq<MessageWithBlockInfo>)
    requires last >= read && (msgs != [] ==> ReadAt(msgs[0]) <= read + 1)
    ensures JumpFree(last, msgs) <==> JumpFree(read, msgs)
  {
  }

  /**
   The drain of a list of batches passes the check if and only if every batch does: nothing fails between two batches.
   */
  lemma {:induction false} DrainJumps(env: Env, batches: seq<SequencerInboxBatch>, k: nat, read: u64)
    requires k <= |batches| && DrainFrom(env, batches, k, read).outcome.Done?
    ensures var d := DrainFrom(env, batches, k, read);
            && (JumpFree(read, d.msgs) <==> AllPass(env, batches, k, read))
            && (d.msgs != [] ==> ReadAt(d.msgs[0]) <= read + 1)
    decreases |batches| - k
  {
    hide Parse, Walk, JumpFree, Passes, WalkSize;
    NoJumps(read);
    if k < |batches| {
      var m := Parse(env.codec, batches[k].serialized).value;
      var hash := Some(batches[k].blockHash);
      var walk, rest := WalkBatch(env, m, hash, read), DrainFrom(env, batches, k + 1, m.afterDelayedMessages);
      BatchLength(env, m, hash, read);
      BatchJumps(env, m, hash, read);
      WalkEdges(env, m, hash, 0, 0, 0, read, false);
      DrainJumps(env, batches, k + 1, m.afterDelayedMessages);
      JumpsConcat(read, walk.msgs, rest.msgs);
      SameStart(LastRead(read, walk.msgs), m.afterDelayedMessages, rest.msgs);
    }
  }

  /** The shortest batch that a falling count makes fail: one delayed segment and one L2 segment. */
  lemma FallingCountJumps(env: Env, hash: Hash32, read: u64, after: u64)
    ensures var m := SequencerMessage(0, 0, 0, 0, after, [[2], [0]]);
            var d := WalkBatch(env, m, Some(hash), read);
            read >= after ==> d.outcome.Done? && (JumpFree(read, d.msgs) <==> read <= after + 1)
  {
    hide Walk, JumpFree, L2AfterDelayed;
    var m := SequencerMessage(0, 0, 0, 0, after, [[2], [0]]);
    assert Classify(m.segments[0]) == DelayedMessages;
    assert Classify(m.segments[1]) == L2Message([]);
    WalkDone(env, m, Some(hash), 0, 0, 0, read, false);
    BatchJumps(env, m, Some(hash), read);
    NextSegment(m.segments, 0);
    NextSegment(m.segments, 1);
  }

  // ----- what is emitted, and in which order

  /** Delayed messages carry no batch hash; everything a batch itself says carries one. */
  function Placed(msgs: seq<MessageWithBlockInfo>): seq<L1IncomingMessage> {
    if msgs == [] then []
    else (if msgs[0].blockHash.None? then [msgs[0].messageWithMeta.message] else []) + Placed(msgs[1..])
  }

  lemma {:induction false} PlacedConcat(a: seq<MessageWithBlockInfo>, b: seq<MessageWithBlockInfo>)
    ensures Placed(a + b) == Placed(a) + Placed(b)
  {
    if a == [] {
      assert a + b == b;
    } else {
      PlacedConcat(a[1..], b);
      var head := if a[0].blockHash.None? then [a[0].messageWithMeta.message] else [];
      assert (a + b)[0] == a[0] && (a + b)[1..] == a[1..] + b;
      assert Placed(a + b) == head + (Placed(a[1..]) + Placed(b));
      assert Placed(a) == head + Placed(a[1..]);
    }
  }

  /** The delayed messages numbered `lo` up to but not including `hi`. */
  function Range(env: Env, lo: nat, hi: nat): seq<L1IncomingMessage>
    requires lo <= hi && DelayedAvailable(env, lo, hi)
    decreases hi - lo
  {
    if lo == hi then [] else [env.delayed(lo).value] + Range(env, lo + 1, hi)
  }

  lemma PlacedThen(msg: MessageWithBlockInfo, d: Drained)
    ensures Placed(Then(msg, d).msgs)
         == (if msg.blockHash.None? then [msg.messageWithMeta.message] else []) + Placed(d.msgs)
  {
    assert Then(msg, d).msgs[1..] == d.msgs;
  }

  lemma {:induction false} UnreadPlaces(env: Env, read: u64, after: u64)
    requires read <= after && Unread(env, read, after).outcome.Done?
    ensures DelayedAvailable(env, read, after) && Placed(Unread(env, read, after).msgs) == Range(env, read, after)
    decreases after - read
  {
    UnreadDone(env, read, after);
    if read < after {
      UnreadPlaces(env, read + 1, after);
      PlacedThen(FromDelayed(env.delayed(read).value, read + 1), Unread(env, read + 1, after));
    }
  }

  /** The delayed messages due from `lo` to `hi`: none when there is nothing left to read. */
  function DueRange(env: Env, lo: nat, hi: nat): seq<L1IncomingMessage>
    requires DelayedAvailable(env, lo, hi)
  {
    if hi <= lo then [] else Range(env, lo, hi)
  }

  lemma OneMoreDue(env: Env, lo: nat, hi: nat)
    requires lo < hi && env.delayed(lo).Some? && DelayedAvailable(env, lo + 1, hi)
    ensures DelayedAvailable(env, lo, hi)
    ensures DueRange(env, lo, hi) == [env.delayed(lo).value] + DueRange(env, lo + 1, hi)
  {
  }

  /**
   However a batch arranges its segments, it places exactly the delayed messages due, in order; none if its count fell.
   */
  lemma {:induction false} WalkPlaces(env: Env, m: SequencerMessage, hash: Hash32, i: nat, ts: u64, blk: u64, read: u64,
                                      emitted: bool)
    requires i <= |m.segments|
    requires Walk(env, m, Some(hash), i, ts, blk, read, emitted).outcome.Done?
    ensures DelayedAvailable(env, read, m.afterDelayedMessages)
    ensures Placed(Walk(env, m, Some(hash), i, ts, blk, read, emitted).msgs)
         == DueRange(env, read, m.afterDelayedMessages)
    decreases |m.segments| - i
  {
    hide EmitsFrom, Clamp, Placed, Then;
    var after, h := m.afterDelayedMessages, Some(hash);
    var rest := Drained([], Done);
    PlacedNothing();
    if i == |m.segments| {
      UnreadPlacesIfDone(env, read, after);
      PlacedThen(Invalid(m, h), rest);
      InvalidAlone(m, h);
    } else {
      match Classify(m.segments[i])
      case Empty => WalkPlaces(env, m, hash, i + 1, ts, blk, read, emitted);
      case AdvanceTimestamp(v) => WalkPlaces(env, m, hash, i + 1, SaturatingAdd(ts, v), blk, read, emitted);
      case AdvanceL1BlockNumber(v) => WalkPlaces(env, m, hash, i + 1, ts, SaturatingAdd(blk, v), read, emitted);
      case DelayedMessages =>
        if read < after && env.delayed(read).Some? {
          rest := Walk(env, m, h, i + 1, ts, blk, read + 1, true);
          ThenOutcomes(rest);
          WalkPlaces(env, m, hash, i + 1, ts, blk, read + 1, true);
          PlacedThen(FromDelayed(env.delayed(read).value, read + 1), rest);
          OneMoreDue(env, read, after);
        } else if read >= after {
          rest := Walk(env, m, h, i + 1, ts, blk, read, true);
          ThenOutcomes(rest);
          WalkPlaces(env, m, hash, i + 1, ts, blk, read, true);
          PlacedThen(Invalid(m, h), rest);
        }
      case Unknown =>
      case _ =>
        rest := Walk(env, m, h, i + 1, ts, blk, read, true);
        ThenOutcomes(rest);
        WalkPlaces(env, m, hash, i + 1, ts, blk, read, true);
        PlacedThenBatch(rest);
    }
  }

  lemma PlacedNothing()
    ensures Placed([]) == []
  {
  }

  lemma InvalidAlone(m: SequencerMessage, hash: Option<Hash32>)
    ensures Drained([Invalid(m, hash)], Done) == Then(Invalid(m, hash), Drained([], Done))
  {
  }

  lemma ThenOutcomes(d: Drained)
    ensures forall msg :: Then(msg, d).outcome == d.outcome
  {
  }

  lemma PlacedThenBatch(d: Drained)
    ensures forall msg: MessageWithBlockInfo :: msg.blockHash.Some? ==> Placed(Then(msg, d).msgs) == Placed(d.msgs)
  {
    forall msg: MessageWithBlockInfo | msg.blockHash.Some?
      ensures Placed(Then(msg, d).msgs) == Placed(d.msgs)
    {
      PlacedThen(msg, d);
    }
  }

  lemma UnreadPlacesIfDone(env: Env, read: u64, after: u64)
    ensures Unread(env, read, after).outcome.Done? ==>
              DelayedAvailable(env, read, after) && Placed(Unread(env, read, after).msgs) == DueRange(env, read, after)
  {
    if read < after && Unread(env, read, after).outcome.Done? {
      UnreadPlaces(env, read, after);
    }
  }

  lemma {:induction false} RangeSplits(env: Env, lo: nat, mid: nat, hi: nat)
    requires lo <= mid <= hi && DelayedAvailable(env, lo, mid) && DelayedAvailable(env, mid, hi)
    ensures DelayedAvailable(env, lo, hi) && Range(env, lo, hi) == Range(env, lo, mid) + Range(env, mid, hi)
    decreases mid - lo
  {
    if lo < mid {
      RangeSplits(env, lo + 1, mid, hi);
    }
  }

  /** The delayed messages that each batch has due, from the count that the one before it announced, are all there. */
  predicate DueAvailable(env: Env, batches: seq<SequencerInboxBatch>, k: nat, read: nat)
    requires k <= |batches|
    decreases |batches| - k
  {
    if k == |batches| then true else
      match Parse(env.codec, batches[k].serialized)
      case Err => true
      case Ok(m) =>
        DelayedAvailable(env, read, m.afterDelayedMessages) && DueAvailable(env, batches, k + 1, m.afterDelayedMessages)
  }

  /** Those messages, batch by batch. A count that fell makes the next batches place some of them again. */
  function AllDue(env: Env, batches: seq<SequencerInboxBatch>, k: nat, read: nat): seq<L1IncomingMessage>
    requires k <= |batches| && DueAvailable(env, batches, k, read)
    decreases |batches| - k
  {
    if k == |batches| then [] else
      match Parse(env.codec, batches[k].serialized)
      case Err => []
      case Ok(m) =>
        DueRange(env, read, m.afterDelayedMessages) + AllDue(env, batches, k + 1, m.afterDelayedMessages)
  }

  /** A drain places the delayed messages due, batch by batch, whatever the counts. */
  lemma {:induction false} DrainPlacesDue(env: Env, batches: seq<SequencerInboxBatch>, k: nat, read: u64)
    requires k <= |batches| && DrainFrom(env, batches, k, read).outcome.Done?
    ensures DueAvailable(env, batches, k, read)
    ensures Placed(DrainFrom(env, batches, k, read).msgs) == AllDue(env, batches, k, read)
    decreases |batches| - k
  {
    hide Parse, Walk, Placed, Range, DelayedAvailable, DueRange;
    if k == |batches| {
      PlacedNothing();
    } else {
      var m := Parse(env.codec, batches[k].serialized).value;
      var after, hash := m.afterDelayedMessages, Some(batches[k].blockHash);
      WalkPlaces(env, m, batches[k].blockHash, 0, 0, 0, read, false);
      DrainPlacesDue(env, batches, k + 1, after);
      PlacedConcat(WalkBatch(env, m, hash, read).msgs, DrainFrom(env, batches, k + 1, after).msgs);
    }
  }

  /**
   With counts that do not fall, those are every delayed message up to the last announced count, once each, in order.
   */
  lemma {:induction false} DrainPlaces(env: Env, batches: seq<SequencerInboxBatch>, k: nat, read: u64)
    requires k <= |batches| && CountsNonDecreasing(env, batches, k, read)
    requires DrainFrom(env, batches, k, read).outcome.Done?
    ensures var final := FinalCount(env, batches, k, read);
            && read <= final
            && DelayedAvailable(env, read, final)
            && Placed(DrainFrom(env, batches, k, read).msgs) == Range(env, read, final)
    decreases |batches| - k
  {
    hide Parse, Walk, Placed, Range, DelayedAvailable;
    if k == |batches| {
      assert DelayedAvailable(env, read, read) && Range(env, read, read) == [] by {
        NoRange(env, read);
      }
      PlacedNothing();
    } else {
      var m := Parse(env.codec, batches[k].serialized).value;
      var after, hash := m.afterDelayedMessages, Some(batches[k].blockHash);
      NoRange(env, read);
      WalkPlaces(env, m, batches[k].blockHash, 0, 0, 0, read, false);
      DrainPlaces(env, batches, k + 1, after);
      PlacedConcat(WalkBatch(env, m, hash, read).msgs, DrainFrom(env, batches, k + 1, after).msgs);
      RangeSplits(env, read, after, FinalCount(env, batches, k + 1, after));
    }
  }

  lemma NoRange(env: Env, lo: nat)
    ensures DelayedAvailable(env, lo, lo) && Range(env, lo, lo) == []
  {
  }

  // ----- clocks

  /**
   From the given clocks on, L2 messages of a batch stay inside the batch's bounds and never go back.
   Invalid messages are left out: they carry the upper bounds wherever they stand.
   */
  predicate ClocksHold(m: SequencerMessage, ts: u64, blk: u64, msgs: seq<MessageWithBlockInfo>)
    decreases |msgs|
  {
    msgs == [] ||
    var header := msgs[0].messageWithMeta.message.header;
    if msgs[0].blockHash.None? || header.kind != 3 then ClocksHold(m, ts, blk, msgs[1..])
    else
      && ts <= header.timestamp <= m.maxTimestamp
      && blk <= header.blockNumber <= m.maxL1Block
      && ClocksHold(m, header.timestamp, header.blockNumber, msgs[1..])
  }

  lemma {:induction false} ClocksWeaken(m: SequencerMessage, ts: u64, blk: u64, ts': u64, blk': u64,
                                        msgs: seq<MessageWithBlockInfo>)
    requires ClocksHold(m, ts, blk, msgs) && ts' <= ts && blk' <= blk
    ensures ClocksHold(m, ts', blk', msgs)
    decreases |msgs|
  {
    if msgs != [] {
      var header := msgs[0].messageWithMeta.message.header;
      if msgs[0].blockHash.None? || header.kind != 3 {
        ClocksWeaken(m, ts, blk, ts', blk', msgs[1..]);
      }
    }
  }

  lemma ClocksSkip(m: SequencerMessage, ts: u64, blk: u64, msg: MessageWithBlockInfo, d: Drained)
    requires msg.blockHash.None? || msg.messageWithMeta.message.header.kind != 3
    requires ClocksHold(m, ts, blk, d.msgs)
    ensures ClocksHold(m, ts, blk, Then(msg, d).msgs)
  {
    assert Then(msg, d).msgs[1..] == d.msgs;
  }

  lemma {:induction false} UnreadClocks(env: Env, m: SequencerMessage, ts: u64, blk: u64, read: u64, after: u64)
    ensures ClocksHold(m, ts, blk, Unread(env, read, after).msgs)
    decreases after - read
  {
    if read < after && env.delayed(read).Some? {
      UnreadClocks(env, m, ts, blk, read + 1, after);
      ClocksSkip(m, ts, blk, FromDelayed(env.delayed(read).value, read + 1), Unread(env, read + 1, after));
    }
  }

  /** The running clocks, clamped, are where the L2 messages of the rest of the walk start. */
  lemma {:induction false} WalkClocks(env: Env, m: SequencerMessage, hash: Hash32, i: nat, ts: u64, blk: u64, read: u64,
                                      emitted: bool)
    requires i <= |m.segments| && ProperBounds(m)
    ensures ClocksHold(m, Clamp(ts, m.minTimestamp, m.maxTimestamp), Clamp(blk, m.minL1Block, m.maxL1Block),
                       Walk(env, m, Some(hash), i, ts, blk, read, emitted).msgs)
    decreases |m.segments| - i
  {
    hide EmitsFrom, ClocksHold, Unread;
    var after, h := m.afterDelayedMessages, Some(hash);
    var clock, block := Clamp(ts, m.minTimestamp, m.maxTimestamp), Clamp(blk, m.minL1Block, m.maxL1Block);
    assert ClocksHold(m, clock, block, []) by { NoClocks(m, clock, block); }
    if i == |m.segments| {
      UnreadClocks(env, m, clock, block, read, after);
      InvalidAlone(m, h);
      ClocksSkip(m, clock, block, Invalid(m, h), Drained([], Done));
    } else {
      match Classify(m.segments[i])
      case Empty => WalkClocks(env, m, hash, i + 1, ts, blk, read, emitted);
      case AdvanceTimestamp(v) =>
        var next := SaturatingAdd(ts, v);
        WalkClocks(env, m, hash, i + 1, next, blk, read, emitted);
        ClocksWeaken(m, Clamp(next, m.minTimestamp, m.maxTimestamp), block, clock, block,
                     Walk(env, m, h, i + 1, next, blk, read, emitted).msgs);
      case AdvanceL1BlockNumber(v) =>
        var next := SaturatingAdd(blk, v);
        WalkClocks(env, m, hash, i + 1, ts, next, read, emitted);
        ClocksWeaken(m, clock, Clamp(next, m.minL1Block, m.maxL1Block), clock, block,
                     Walk(env, m, h, i + 1, ts, next, read, emitted).msgs);
      case DelayedMessages =>
        var next := if read < after then read + 1 else read;
        var rest := Walk(env, m, h, i + 1, ts, blk, next, true);
        WalkClocks(env, m, hash, i + 1, ts, blk, next, true);
        ClocksSkip(m, clock, block, Invalid(m, h), rest);
        if read < after && env.delayed(read).Some? {
          ClocksSkip(m, clock, block, FromDelayed(env.delayed(read).value, read + 1), rest);
        }
      case Unknown =>
      case L2Message(_) =>
        WalkClocks(env, m, hash, i + 1, ts, blk, read, true);
        ClocksTick(env, m, hash, i, ts, blk, read, emitted);
      case L2MessageBrotli(_) =>
        WalkClocks(env, m, hash, i + 1, ts, blk, read, true);
        ClocksTick(env, m, hash, i, ts, blk, read, emitted);
    }
  }

  lemma NoClocks(m: SequencerMessage, ts: u64, blk: u64)
    ensures ClocksHold(m, ts, blk, [])
  {
  }

  lemma ClocksTick(env: Env, m: SequencerMessage, hash: Hash32, i: nat, ts: u64, blk: u64, read: u64, emitted: bool)
    requires i < |m.segments| && ProperBounds(m) && IsL2(Classify(m.segments[i]))
    requires ClocksHold(m, Clamp(ts, m.minTimestamp, m.maxTimestamp), Clamp(blk, m.minL1Block, m.maxL1Block),
                        Walk(env, m, Some(hash), i + 1, ts, blk, read, true).msgs)
    ensures ClocksHold(m, Clamp(ts, m.minTimestamp, m.maxTimestamp), Clamp(blk, m.minL1Block, m.maxL1Block),
                       Walk(env, m, Some(hash), i, ts, blk, read, emitted).msgs)
  {
    hide EmitsFrom, Unread;
    var rest := Walk(env, m, Some(hash), i + 1, ts, blk, read, true);
    var walk := Walk(env, m, Some(hash), i, ts, blk, read, emitted);
    if walk.msgs != [] {
      assert walk.msgs[1..] == rest.msgs;
    }
  }
}
