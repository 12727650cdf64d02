/**
 What a drained batch says, read off the bytes of its segments: which message each segment stands for, and what is in
 it. Nothing here goes through the classification or the clocks of the walk.
 */
module DrainMeaning {
  import opened Basics
  import opened L1Message
  import opened Message
  import opened SequencerMessages
  import opened DrainSpec

  // ----- positions

  /** The segments from `i` on that stand for a message: an L2 message, plain or compressed, or a delayed one. */
  function Speakers(segments: seq<Bytes>, i: nat): (at: seq<nat>)
    requires i <= |segments|
    ensures forall j | 0 <= j < |at| :: i <= at[j] < |segments| && segments[at[j]] != []
    decreases |segments| - i
  {
    if i == |segments| then []
    else (if segments[i] != [] && segments[i][0] <= 2 then [i] else []) + Speakers(segments, i + 1)
  }

  /** All of them, and in order. */
  lemma {:induction false} SpeakersAre(segments: seq<Bytes>, i: nat)
    requires i <= |segments|
    ensures var at := Speakers(segments, i);
            && (forall j, k | 0 <= j < k < |at| :: at[j] < at[k])
            && (forall p: nat | i <= p < |segments| :: p in at <==> segments[p] != [] && segments[p][0] <= 2)
    decreases |segments| - i
  {
    if i < |segments| {
      SpeakersAre(segments, i + 1);
    }
  }

  /** How many of the segments before `i` claim a delayed message. */
  function Claims(segments: seq<Bytes>, i: nat): nat
    requires i <= |segments|
  {
    if i == 0 then 0 else Claims(segments, i - 1) + if segments[i - 1] != [] && segments[i - 1][0] == 2 then 1 else 0
  }

  /**
   The sum of the integers in those segments before `i` whose first byte is `kind`; one that does not decode adds 0.
   */
  function Total(segments: seq<Bytes>, kind: byte, i: nat): nat
    requires i <= |segments|
  {
    if i == 0 then 0
    else
      var seg := segments[i - 1];
      Total(segments, kind, i - 1)
      + if seg != [] && seg[0] == kind && DecodeU64(seg[1..]).Some? then DecodeU64(seg[1..]).value.0 else 0
  }

  // ----- contents

  /** A clock that shows `total` within its bounds, and the bound itself outside. */
  predicate Shows(x: nat, total: nat, lo: nat, hi: nat) {
    && lo <= hi
    && (total < lo ==> x == lo)
    && (lo <= total <= hi ==> x == total)
    && (hi < total ==> x == hi)
  }

  /** A message that comes from the batch: no poster, no request id, no fee and no gas cost. */
  predicate IsOwn(hash: Option<Hash32>, msg: MessageWithBlockInfo) {
    var said := msg.messageWithMeta.message;
    && (forall b | b in said.header.poster :: b == 0)
    && said.header.requestId.None? && said.header.l1BaseFee == 0 && said.batchGasCost.None?
    && msg.blockHash == hash && msg.blockMetadata.None?
  }

  /** The L2 message in segment `p`, when `read` delayed messages have been read. */
  predicate SaysL2(env: Env, m: SequencerMessage, hash: Option<Hash32>, read: nat, p: nat, msg: MessageWithBlockInfo)
    requires p < |m.segments| && m.segments[p] != []
  {
    var seg, said := m.segments[p], msg.messageWithMeta.message;
    && IsOwn(hash, msg) && said.header.kind == 3 && msg.messageWithMeta.delayedMessagesRead == read
    && Shows(said.header.timestamp, Total(m.segments, 3, p), m.minTimestamp, m.maxTimestamp)
    && Shows(said.header.blockNumber, Total(m.segments, 4, p), m.minL1Block, m.maxL1Block)
    && (seg[0] == 0 ==> said.l2msg == seg[1..])
    && (seg[0] == 1 ==> env.codec.decompress(seg[1..]) == Some(said.l2msg))
  }

  /** Delayed message `n` as it is stored, or an empty invalid one when the batch has no claim to it. */
  predicate SaysDelayed(env: Env, m: SequencerMessage, hash: Option<Hash32>, n: nat, msg: MessageWithBlockInfo) {
    if n < m.afterDelayedMessages then
      && env.delayed(n) == Some(msg.messageWithMeta.message) && msg.messageWithMeta.delayedMessagesRead == n + 1
      && msg.blockHash.None? && msg.blockMetadata.None?
    else
      var said := msg.messageWithMeta.message;
      && IsOwn(hash, msg) && said.header.kind == 255 && said.l2msg == []
      && said.header.timestamp == m.maxTimestamp && said.header.blockNumber == m.maxL1Block
      && msg.messageWithMeta.delayedMessagesRead == m.afterDelayedMessages
  }

  /** What segment `p` says, when the walk has come to segment `i` with `read` delayed messages read. */
  predicate Says(env: Env, m: SequencerMessage, hash: Option<Hash32>, i: nat, read: nat, p: nat,
                 msg: MessageWithBlockInfo)
    requires i <= p < |m.segments| && m.segments[p] != []
  {
    var n := read + Claims(m.segments, p) - Claims(m.segments, i);
    n >= 0 &&
    if m.segments[p][0] == 2 then SaysDelayed(env, m, hash, n, msg)
    else SaysL2(env, m, hash, if m.afterDelayedMessages <= read then read
                              else if m.afterDelayedMessages < n then m.afterDelayedMessages else n, p, msg)
  }

  /**
   What follows the last segment: the delayed messages not claimed, or an invalid message if there is nothing at all.
   */
  function Owed(m: SequencerMessage, i: nat, read: nat, emitted: bool): nat
    requires i <= |m.segments|
  {
    var n := read + Claims(m.segments, |m.segments|) - Claims(m.segments, i);
    if n < m.afterDelayedMessages then m.afterDelayedMessages - n
    else if Speakers(m.segments, i) == [] && !emitted then 1
    else 0
  }

  /** A walk from segment `i` on that stops after `said` messages says what stands before a segment of unknown kind. */
  predicate StopsAt(segments: seq<Bytes>, i: nat, said: nat, q: nat)
    requires i <= |segments|
  {
    var at := Speakers(segments, i);
    && i <= q < |segments| && segments[q] != [] && segments[q][0] > 4
    && said <= |at| && (forall j | 0 <= j < said :: at[j] < q) && (said < |at| ==> q < at[said])
  }

  /** What message number `j` of such a walk says: its own segment, or one of those owed after the last. */
  predicate SaysAt(env: Env, m: SequencerMessage, hash: Option<Hash32>, i: nat, read: nat, j: nat,
                   msg: MessageWithBlockInfo)
    requires i <= |m.segments|
  {
    var at := Speakers(m.segments, i);
    if j < |at| then Says(env, m, hash, i, read, at[j], msg)
    else
      var n := read + Claims(m.segments, |m.segments|) - Claims(m.segments, i) + j - |at|;
      n >= 0 && SaysDelayed(env, m, hash, n, msg)
  }

  /**
   What the walk of a batch from segment `i` on comes to. Message by message it says what the segments that stand for
   messages say, in order, and then the delayed messages still owed. A walk that ends normally says all of it, and one
   that stops says all of it before a segment of unknown kind.
   */
  ghost predicate Means(env: Env, m: SequencerMessage, hash: Option<Hash32>, i: nat, read: nat, emitted: bool,
                        d: Drained)
    requires i <= |m.segments|
  {
    var at := Speakers(m.segments, i);
    && (forall j | 0 <= j < |d.msgs| :: SaysAt(env, m, hash, i, read, j, d.msgs[j]))
    && (d.outcome.Done? ==> |d.msgs| == |at| + Owed(m, i, read, emitted))
    && (d.outcome.Stopped? ==> exists q: nat :: StopsAt(m.segments, i, |d.msgs|, q))
  }

  // ----- why the walk means that

  /** A running clock is the total so far, stopped at the largest 64-bit value. */
  predicate Runs(clock: u64, total: nat) {
    clock == if total < U64_LIMIT then total else U64_MAX
  }

  predicate OnTime(m: SequencerMessage, i: nat, ts: u64, blk: u64)
    requires i <= |m.segments|
  {
    Runs(ts, Total(m.segments, 3, i)) && Runs(blk, Total(m.segments, 4, i))
  }

  /** Timestamps and block numbers are moved by the segments of their own kind, and by no other. */
  lemma StaysOnTime(m: SequencerMessage, i: nat, ts: u64, blk: u64)
    requires i < |m.segments| && OnTime(m, i, ts, blk)
    ensures var seg := Classify(m.segments[i]);
            OnTime(m, i + 1, if seg.AdvanceTimestamp? then SaturatingAdd(ts, seg.amount) else ts,
                   if seg.AdvanceL1BlockNumber? then SaturatingAdd(blk, seg.amount) else blk)
  {
    hide DecodeU64;
  }

  lemma {:induction false} ClaimsGrow(segments: seq<Bytes>, i: nat, j: nat)
    requires i <= j <= |segments|
    ensures Claims(segments, i) <= Claims(segments, j)
    ensures Speakers(segments, i) == [] && j == |segments| ==> Claims(segments, i) == Claims(segments, j)
    decreases j - i
  {
    if i < j {
      ClaimsGrow(segments, i + 1, j);
    }
  }

  /** One claim less to come and one delayed message more read come to the same. */
  predicate Steps(m: SequencerMessage, i: nat, read: nat, next: nat)
    requires i < |m.segments|
  {
    var claims := m.segments[i] != [] && m.segments[i][0] == 2;
    next == if claims && read < m.afterDelayedMessages then read + 1 else read
  }

  lemma SaysLater(env: Env, m: SequencerMessage, hash: Option<Hash32>, i: nat, read: nat, next: nat, p: nat,
                  msg: MessageWithBlockInfo)
    requires i < p < |m.segments| && m.segments[p] != [] && Steps(m, i, read, next)
    requires Says(env, m, hash, i + 1, next, p, msg)
    ensures Says(env, m, hash, i, read, p, msg)
  {
    hide SaysL2, IsOwn;
    ClaimsGrow(m.segments, i + 1, p);
  }

  lemma OwesLater(env: Env, m: SequencerMessage, hash: Option<Hash32>, i: nat, read: nat, next: nat, k: nat,
                  msg: MessageWithBlockInfo)
    requires i < |m.segments| && Steps(m, i, read, next)
    requires next + Claims(m.segments, |m.segments|) - Claims(m.segments, i + 1) + k >= 0
    requires SaysDelayed(env, m, hash, next + Claims(m.segments, |m.segments|) - Claims(m.segments, i + 1) + k, msg)
    ensures read + Claims(m.segments, |m.segments|) - Claims(m.segments, i) + k >= 0
    ensures SaysDelayed(env, m, hash, read + Claims(m.segments, |m.segments|) - Claims(m.segments, i) + k, msg)
  {
    hide IsOwn;
    ClaimsGrow(m.segments, i + 1, |m.segments|);
  }

  lemma SpeakersFrom(segments: seq<Bytes>, i: nat)
    requires i < |segments|
    ensures var speaks := segments[i] != [] && segments[i][0] <= 2;
            Speakers(segments, i) == (if speaks then [i] else []) + Speakers(segments, i + 1)
  {
  }

  lemma SpeakersEnd(segments: seq<Bytes>)
    ensures Speakers(segments, |segments|) == []
  {
  }

  lemma SaysAtSkip(env: Env, m: SequencerMessage, hash: Option<Hash32>, i: nat, read: nat, j: nat,
                   msg: MessageWithBlockInfo)
    requires i < |m.segments| && (m.segments[i] == [] || m.segments[i][0] > 2)
    requires SaysAt(env, m, hash, i + 1, read, j, msg)
    ensures SaysAt(env, m, hash, i, read, j, msg)
  {
    hide Says, SaysDelayed, Claims, Speakers, Steps;
    SpeakersFrom(m.segments, i);
    var at := Speakers(m.segments, i);
    assert at == Speakers(m.segments, i + 1);
    NoStep(m, i, read);
    if j < |at| {
      SaysLater(env, m, hash, i, read, read, at[j], msg);
    } else {
      OwesLater(env, m, hash, i, read, read, j - |at|, msg);
    }
  }

  lemma NoStep(m: SequencerMessage, i: nat, read: nat)
    requires i < |m.segments| && (m.segments[i] == [] || m.segments[i][0] > 2)
    ensures Steps(m, i, read, read)
  {
  }

  lemma SaysAtThen(env: Env, m: SequencerMessage, hash: Option<Hash32>, i: nat, read: nat, next: nat, j: nat,
                   msg: MessageWithBlockInfo)
    requires i < |m.segments| && m.segments[i] != [] && m.segments[i][0] <= 2 && Steps(m, i, read, next)
    requires SaysAt(env, m, hash, i + 1, next, j, msg)
    ensures SaysAt(env, m, hash, i, read, j + 1, msg)
  {
    hide Says, SaysDelayed, Claims, Steps, Speakers;
    var at, rest := Speakers(m.segments, i), Speakers(m.segments, i + 1);
    SpeakersFrom(m.segments, i);
    assert |at| == |rest| + 1 && (j < |rest| ==> at[j + 1] == rest[j]);
    if j < |rest| {
      SaysLater(env, m, hash, i, read, next, rest[j], msg);
    } else {
      OwesLater(env, m, hash, i, read, next, j - |rest|, msg);
    }
  }

  /** A segment that stands for nothing changes nothing. */
  lemma MeansSkip(env: Env, m: SequencerMessage, hash: Option<Hash32>, i: nat, read: nat, emitted: bool, d: Drained)
    requires i < |m.segments| && (m.segments[i] == [] || m.segments[i][0] > 2)
    requires Means(env, m, hash, i + 1, read, emitted, d)
    ensures Means(env, m, hash, i, read, emitted, d)
  {
    hide SaysAt, Speakers, StopsAt;
    SpeakersFrom(m.segments, i);
    assert Speakers(m.segments, i) == Speakers(m.segments, i + 1);
    if d.outcome.Stopped? {
      var q: nat :| StopsAt(m.segments, i + 1, |d.msgs|, q);
      StopsSkip(m.segments, i, |d.msgs|, q);
    }
    forall j | 0 <= j < |d.msgs|
      ensures SaysAt(env, m, hash, i, read, j, d.msgs[j])
    {
      SaysAtSkip(env, m, hash, i, read, j, d.msgs[j]);
    }
  }

  /** A segment that says `msg`, and then what the rest says. */
  lemma MeansThen(env: Env, m: SequencerMessage, hash: Option<Hash32>, i: nat, read: nat, next: nat, emitted: bool,
                  msg: MessageWithBlockInfo, d: Drained)
    requires i < |m.segments| && m.segments[i] != [] && m.segments[i][0] <= 2 && Steps(m, i, read, next)
    requires Says(env, m, hash, i, read, i, msg) && Means(env, m, hash, i + 1, next, true, d)
    ensures Means(env, m, hash, i, read, emitted, Then(msg, d))
  {
    hide Says, SaysAt, Claims, Steps, Speakers, Owed, StopsAt;
    var all := Then(msg, d);
    SpeakersFrom(m.segments, i);
    SaysFirst(env, m, hash, i, read, msg);
    forall j | 0 <= j < |all.msgs|
      ensures SaysAt(env, m, hash, i, read, j, all.msgs[j])
    {
      if j > 0 {
        assert all.msgs[j] == d.msgs[j - 1];
        SaysAtThen(env, m, hash, i, read, next, j - 1, d.msgs[j - 1]);
      }
    }
    OwedLater(m, i, read, next, emitted);
    if d.outcome.Stopped? {
      var q: nat :| StopsAt(m.segments, i + 1, |d.msgs|, q);
      StopsLater(m.segments, i, |d.msgs|, q);
    }
  }

  lemma SaysFirst(env: Env, m: SequencerMessage, hash: Option<Hash32>, i: nat, read: nat, msg: MessageWithBlockInfo)
    requires i < |m.segments| && m.segments[i] != [] && m.segments[i][0] <= 2
    requires Says(env, m, hash, i, read, i, msg)
    ensures SaysAt(env, m, hash, i, read, 0, msg)
  {
    hide Says, SaysDelayed, Speakers;
    SpeakersFrom(m.segments, i);
  }

  lemma StopsSkip(segments: seq<Bytes>, i: nat, said: nat, q: nat)
    requires i < |segments| && (segments[i] == [] || segments[i][0] > 2)
    requires StopsAt(segments, i + 1, said, q)
    ensures StopsAt(segments, i, said, q)
  {
    hide Speakers;
    SpeakersFrom(segments, i);
  }

  lemma StopsLater(segments: seq<Bytes>, i: nat, said: nat, q: nat)
    requires i < |segments| && segments[i] != [] && segments[i][0] <= 2
    requires StopsAt(segments, i + 1, said, q)
    ensures StopsAt(segments, i, said + 1, q)
  {
    hide Speakers;
    var at, rest := Speakers(segments, i), Speakers(segments, i + 1);
    SpeakersFrom(segments, i);
    assert forall j | 0 < j < |at| :: at[j] == rest[j - 1];
  }

  lemma OwedLater(m: SequencerMessage, i: nat, read: nat, next: nat, emitted: bool)
    requires i < |m.segments| && m.segments[i] != [] && m.segments[i][0] <= 2 && Steps(m, i, read, next)
    ensures Owed(m, i + 1, next, true) == Owed(m, i, read, emitted)
  {
    ClaimsGrow(m.segments, i + 1, |m.segments|);
  }

  /** Message `j` of those still owed once `read` have been read. */
  predicate StillOwed(env: Env, m: SequencerMessage, hash: Option<Hash32>, read: nat, j: nat,
                      msg: MessageWithBlockInfo) {
    read + j < m.afterDelayedMessages && SaysDelayed(env, m, hash, read + j, msg)
  }

  lemma {:induction false} UnreadMeans(env: Env, m: SequencerMessage, hash: Option<Hash32>, read: u64)
    ensures var d := Unread(env, read, m.afterDelayedMessages);
            && (forall j | 0 <= j < |d.msgs| :: StillOwed(env, m, hash, read, j, d.msgs[j]))
            && (d.outcome.Done? ==>
                  |d.msgs| == if read < m.afterDelayedMessages then m.afterDelayedMessages - read else 0)
            && !d.outcome.Stopped?
    decreases m.afterDelayedMessages - read
  {
    var d := Unread(env, read, m.afterDelayedMessages);
    if read < m.afterDelayedMessages && env.delayed(read).Some? {
      UnreadMeans(env, m, hash, read + 1);
      var rest := Unread(env, read + 1, m.afterDelayedMessages);
      forall j | 0 <= j < |d.msgs|
        ensures StillOwed(env, m, hash, read, j, d.msgs[j])
      {
        if j > 0 {
          assert d.msgs[j] == rest.msgs[j - 1];
          assert StillOwed(env, m, hash, read + 1, j - 1, rest.msgs[j - 1]);
        }
      }
    }
  }

  lemma EndSays(env: Env, m: SequencerMessage, hash: Option<Hash32>, read: nat, j: nat, msg: MessageWithBlockInfo)
    requires SaysDelayed(env, m, hash, read + j, msg)
    ensures SaysAt(env, m, hash, |m.segments|, read, j, msg)
  {
    hide SaysDelayed;
  }

  lemma EndMeans(env: Env, m: SequencerMessage, hash: Option<Hash32>, ts: u64, blk: u64, read: u64, emitted: bool)
    ensures Means(env, m, hash, |m.segments|, read, emitted,
                  Walk(env, m, hash, |m.segments|, ts, blk, read, emitted))
  {
    hide Unread, SaysAt, SaysDelayed, IsOwn;
    UnreadMeans(env, m, hash, read);
    var d := Walk(env, m, hash, |m.segments|, ts, blk, read, emitted);
    if read >= m.afterDelayedMessages && !emitted {
      InvalidSays(env, m, hash, read);
      EndSays(env, m, hash, read, 0, d.msgs[0]);
    } else {
      forall j | 0 <= j < |d.msgs|
        ensures SaysAt(env, m, hash, |m.segments|, read, j, d.msgs[j])
      {
        assert StillOwed(env, m, hash, read, j, d.msgs[j]);
        EndSays(env, m, hash, read, j, d.msgs[j]);
      }
    }
  }

  lemma InvalidSays(env: Env, m: SequencerMessage, hash: Option<Hash32>, n: nat)
    requires n >= m.afterDelayedMessages
    ensures SaysDelayed(env, m, hash, n, Invalid(m, hash))
  {
  }

  lemma {:induction false} NoSpeakers(segments: seq<Bytes>, i: nat)
    requires i <= |segments| && !EmitsFrom(segments, i)
    ensures Speakers(segments, i) == []
    decreases |segments| - i
  {
    hide Speakers, DecodeU64;
    if i < |segments| {
      assert !Emits(Classify(segments[i]));
      SpeakersFrom(segments, i);
      NoSpeakers(segments, i + 1);
    } else {
      SpeakersEnd(segments);
    }
  }

  /** The batch has a claim to nothing more and has said something: a segment of unknown kind is not reached. */
  lemma OverMeans(env: Env, m: SequencerMessage, hash: Option<Hash32>, i: nat, read: u64)
    requires i <= |m.segments| && !EmitsFrom(m.segments, i) && read >= m.afterDelayedMessages
    ensures Means(env, m, hash, i, read, true, Drained([], Done))
  {
    hide EmitsFrom, Speakers, SaysAt, Claims;
    NoSpeakers(m.segments, i);
    ClaimsGrow(m.segments, i, |m.segments|);
  }

  lemma StopMeans(env: Env, m: SequencerMessage, hash: Option<Hash32>, i: nat, read: nat, emitted: bool)
    requires i < |m.segments| && m.segments[i] != [] && m.segments[i][0] > 4
    ensures Means(env, m, hash, i, read, emitted, Drained([], Stopped))
  {
    assert StopsAt(m.segments, i, 0, i);
  }

  /** The L2 message that the walk makes of segment `i` is what the segment says. */
  lemma L2Says(env: Env, m: SequencerMessage, hash: Option<Hash32>, i: nat, ts: u64, blk: u64, read: u64,
               payload: Bytes)
    requires i < |m.segments| && OnTime(m, i, ts, blk)
    requires ProperBounds(m) && m.segments[i] != []
    requires || (m.segments[i][0] == 0 && payload == m.segments[i][1..])
             || (m.segments[i][0] == 1 && env.codec.decompress(m.segments[i][1..]) == Some(payload))
    ensures Says(env, m, hash, i, read, i,
                 FromBatch(BatchHeaderAt(3, Clamp(blk, m.minL1Block, m.maxL1Block),
                                         Clamp(ts, m.minTimestamp, m.maxTimestamp)), payload, read, hash))
  {
    hide Total;
  }

  lemma {:induction false} WalkMeans(env: Env, m: SequencerMessage, hash: Option<Hash32>, i: nat, ts: u64, blk: u64,
                                     read: u64, emitted: bool)
    requires i <= |m.segments| && OnTime(m, i, ts, blk)
    ensures Means(env, m, hash, i, read, emitted, Walk(env, m, hash, i, ts, blk, read, emitted))
    decreases |m.segments| - i
  {
    hide Means, Says, Unread, Clamp, EmitsFrom, ProperBounds, OnTime, SaturatingAdd, Amount;
    if i == |m.segments| {
      EndMeans(env, m, hash, ts, blk, read, emitted);
    } else {
      StaysOnTime(m, i, ts, blk);
      match Classify(m.segments[i])
      case Empty =>
        WalkMeans(env, m, hash, i + 1, ts, blk, read, emitted);
        MeansSkip(env, m, hash, i, read, emitted, Walk(env, m, hash, i + 1, ts, blk, read, emitted));
      case AdvanceTimestamp(v) =>
        WalkMeans(env, m, hash, i + 1, SaturatingAdd(ts, v), blk, read, emitted);
        MeansSkip(env, m, hash, i, read, emitted, Walk(env, m, hash, i + 1, SaturatingAdd(ts, v), blk, read, emitted));
      case AdvanceL1BlockNumber(v) =>
        WalkMeans(env, m, hash, i + 1, ts, SaturatingAdd(blk, v), read, emitted);
        MeansSkip(env, m, hash, i, read, emitted, Walk(env, m, hash, i + 1, ts, SaturatingAdd(blk, v), read, emitted));
      case L2Message(payload) => WalkMeansL2(env, m, hash, i, ts, blk, read, emitted, payload);
      case L2MessageBrotli(compressed) =>
        if env.codec.decompress(compressed).Some? {
          WalkMeansL2(env, m, hash, i, ts, blk, read, emitted, env.codec.decompress(compressed).value);
        } else {
          NothingMeans(env, m, hash, i, read, emitted, Failed);
        }
      case DelayedMessages => WalkMeansDelayed(env, m, hash, i, ts, blk, read, emitted);
      case Unknown =>
        StopMeans(env, m, hash, i, read, emitted);
        if emitted && read >= m.afterDelayedMessages && !EmitsFrom(m.segments, i + 1) {
          OverMeans(env, m, hash, i + 1, read);
          MeansSkip(env, m, hash, i, read, emitted, Drained([], Done));
        }
    }
  }

  lemma NothingMeans(env: Env, m: SequencerMessage, hash: Option<Hash32>, i: nat, read: nat, emitted: bool,
                     outcome: Outcome)
    requires i <= |m.segments| && (outcome.Failed? || outcome.Panicked?)
    ensures Means(env, m, hash, i, read, emitted, Drained([], outcome))
  {
  }

  lemma {:induction false} WalkMeansL2(env: Env, m: SequencerMessage, hash: Option<Hash32>, i: nat, ts: u64, blk: u64,
                                       read: u64, emitted: bool, payload: Bytes)
    requires i < |m.segments| && OnTime(m, i, ts, blk)
    requires m.segments[i] != []
    requires || (m.segments[i][0] == 0 && payload == m.segments[i][1..])
             || (m.segments[i][0] == 1 && env.codec.decompress(m.segments[i][1..]) == Some(payload))
    ensures Means(env, m, hash, i, read, emitted, Walk(env, m, hash, i, ts, blk, read, emitted))
    decreases |m.segments| - i, 0
  {
    hide Means, Says, Unread, Clamp, EmitsFrom, OnTime, SaturatingAdd, Amount, ProperBounds;
    StaysOnTime(m, i, ts, blk);
    if !ProperBounds(m) {
      NothingMeans(env, m, hash, i, read, emitted, Panicked);
    } else {
      var msg := FromBatch(BatchHeaderAt(3, Clamp(blk, m.minL1Block, m.maxL1Block),
                                         Clamp(ts, m.minTimestamp, m.maxTimestamp)), payload, read, hash);
      L2Says(env, m, hash, i, ts, blk, read, payload);
      WalkMeans(env, m, hash, i + 1, ts, blk, read, true);
      MeansThen(env, m, hash, i, read, read, emitted, msg, Walk(env, m, hash, i + 1, ts, blk, read, true));
    }
  }

  lemma DelayedSays(env: Env, m: SequencerMessage, hash: Option<Hash32>, i: nat, read: u64)
    requires i < |m.segments| && m.segments[i] != [] && m.segments[i][0] == 2
    ensures read >= m.afterDelayedMessages ==> Says(env, m, hash, i, read, i, Invalid(m, hash))
    ensures read < m.afterDelayedMessages && env.delayed(read).Some? ==>
              Says(env, m, hash, i, read, i, FromDelayed(env.delayed(read).value, read + 1))
  {
  }

  lemma {:induction false} WalkMeansDelayed(env: Env, m: SequencerMessage, hash: Option<Hash32>, i: nat, ts: u64,
                                            blk: u64, read: u64, emitted: bool)
    requires i < |m.segments| && OnTime(m, i, ts, blk)
    requires m.segments[i] != [] && m.segments[i][0] == 2
    ensures Means(env, m, hash, i, read, emitted, Walk(env, m, hash, i, ts, blk, read, emitted))
    decreases |m.segments| - i, 0
  {
    hide Means, Says, Unread, EmitsFrom, OnTime, SaturatingAdd, Amount, IsOwn, Claims, ProperBounds, Clamp;
    StaysOnTime(m, i, ts, blk);
    DelayedSays(env, m, hash, i, read);
    if read >= m.afterDelayedMessages {
      WalkMeans(env, m, hash, i + 1, ts, blk, read, true);
      MeansThen(env, m, hash, i, read, read, emitted, Invalid(m, hash), Walk(env, m, hash, i + 1, ts, blk, read, true));
    } else if env.delayed(read).Some? {
      WalkMeans(env, m, hash, i + 1, ts, blk, read + 1, true);
      MeansThen(env, m, hash, i, read, read + 1, emitted, FromDelayed(env.delayed(read).value, read + 1),
                Walk(env, m, hash, i + 1, ts, blk, read + 1, true));
    } else {
      NothingMeans(env, m, hash, i, read, emitted, Failed);
    }
  }

  /** What one batch says, from its first segment on. */
  lemma BatchMeans(env: Env, m: SequencerMessage, hash: Option<Hash32>, read: u64)
    ensures Means(env, m, hash, 0, read, false, WalkBatch(env, m, hash, read))
  {
    hide Means, Walk;
    WalkMeans(env, m, hash, 0, 0, 0, read, false);
  }

  // ----- a whole drain

  /** The first `n` messages are all that batch `k` says, and the others what the batches after it say. */
  ghost predicate SaysUpTo(env: Env, batches: seq<SequencerInboxBatch>, k: nat, read: nat, d: Drained, n: nat)
    requires k < |batches| && Parse(env.codec, batches[k].serialized).Ok?
    decreases |batches| - k, 0
  {
    var m := Parse(env.codec, batches[k].serialized).value;
    && n <= |d.msgs|
    && Means(env, m, Some(batches[k].blockHash), 0, read, false, Drained(d.msgs[..n], Done))
    && BatchesSay(env, batches, k + 1, m.afterDelayedMessages, Drained(d.msgs[n..], d.outcome))
  }

  /**
   Batch by batch, from the `k`th on: each starts from the delayed count that the one before it announced, and the first
   that does not end normally is the last.
   */
  ghost predicate BatchesSay(env: Env, batches: seq<SequencerInboxBatch>, k: nat, read: nat, d: Drained)
    requires k <= |batches|
    decreases |batches| - k, 1
  {
    if k == |batches| then d == Drained([], Done)
    else if Parse(env.codec, batches[k].serialized).Err? then d == Drained([], Failed)
    else
      var m := Parse(env.codec, batches[k].serialized).value;
      || (exists n: nat :: SaysUpTo(env, batches, k, read, d, n))
      || (!d.outcome.Done? && Means(env, m, Some(batches[k].blockHash), 0, read, false, d))
  }

  /** A drain is made of what its batches say, in order, however it ends. */
  lemma {:induction false} DrainMeans(env: Env, batches: seq<SequencerInboxBatch>, k: nat, read: u64)
    requires k <= |batches|
    ensures BatchesSay(env, batches, k, read, DrainFrom(env, batches, k, read))
    decreases |batches| - k
  {
    hide Means, Walk, Parse;
    if k < |batches| && Parse(env.codec, batches[k].serialized).Ok? {
      var m := Parse(env.codec, batches[k].serialized).value;
      var d, all := WalkBatch(env, m, Some(batches[k].blockHash), read), DrainFrom(env, batches, k, read);
      BatchMeans(env, m, Some(batches[k].blockHash), read);
      if d.outcome.Done? {
        DrainMeans(env, batches, k + 1, m.afterDelayedMessages);
        var rest := DrainFrom(env, batches, k + 1, m.afterDelayedMessages);
        assert d == Drained(all.msgs[..|d.msgs|], Done) && rest == Drained(all.msgs[|d.msgs|..], all.outcome);
        assert SaysUpTo(env, batches, k, read, all, |d.msgs|);
      }
    }
  }
}
