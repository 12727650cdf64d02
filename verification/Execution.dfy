/**
 Executing the log: each message is digested on top of the block of the message before it, and the
 result is stored under its index. The engine behind a digest is an uninterpreted function.
 */
module Execution {
  import opened Basics
  import opened Message
  import opened Store
  import opened StreamerSpec
  import opened Streamer

  /** What the engine makes of a message: a result, and the timestamp of the block it built. */
  datatype Built = Built(result: MessageResult, blockTime: u64)

  /** The engine: message `index` digested on a parent block at a timestamp, or a failure. */
  type Digest = (nat, MessageWithMetadata, Hash32, u64) -> Option<Built>

  // ----- what is executed

  /** Exactly the first `r` messages have results. */
  ghost predicate ResultsInv(kv: KeyValues, r: nat) {
    && r <= MessageCount(kv)
    && (forall i: nat :: ResultKey(i) in kv <==> i < r)
    && (forall i: nat | i < r :: kv[ResultKey(i)].StoredResult?)
  }

  /** The block a message is built on. */
  function ParentOf(genesis: Hash32, kv: KeyValues, i: nat): Hash32
    requires i > 0 ==> ResultKey(i - 1) in kv && kv[ResultKey(i - 1)].StoredResult?
  {
    if i == 0 then genesis else kv[ResultKey(i - 1)].result.blockHash
  }

  /** The timestamp offered to the engine: the message's own, unless time would stand still. */
  function Stamp(clock: u64, timestamp: u64): u64 {
    if timestamp <= clock then SaturatingAdd(clock, 1) else timestamp
  }

  /** The last index below `n` that has a result. */
  function LastResult(kv: KeyValues, n: nat): Option<nat> {
    if n == 0 then None else if ResultKey(n - 1) in kv then Some(n - 1) else LastResult(kv, n - 1)
  }

  lemma {:induction false} LastResultIs(kv: KeyValues, r: nat, n: nat)
    requires ResultsInv(kv, r) && r <= n
    ensures LastResult(kv, n) == if r == 0 then None else Some(r - 1)
    decreases n
  {
    if n > 0 {
      assert ResultKey(n - 1) in kv <==> n - 1 < r;
      if r <= n - 1 {
        LastResultIs(kv, r, n - 1);
      }
    }
  }

  // ----- the engine adapter and one execution

  class RethExecEngine {
    const db: Database
    const genesisHash: Hash32
    const digest: Digest
    var lastTimestamp: u64

    constructor (db: Database, genesisHash: Hash32, genesisTimestamp: u64, digest: Digest)
      ensures this.db == db && this.genesisHash == genesisHash && this.digest == digest
      ensures lastTimestamp == genesisTimestamp
    {
      this.db := db;
      this.genesisHash := genesisHash;
      this.digest := digest;
      lastTimestamp := genesisTimestamp;
    }

    /** Scans down from the newest message for one that has a result. */
    method HeadMessageIndex() returns (r: Result<Option<nat>>)
      ensures NumberAt(db.kv, MessageCountKey).None? <==> r.Err?
      ensures r.Ok? ==> r.value == LastResult(db.kv, MessageCount(db.kv))
    {
      var count := NumberAt(db.kv, MessageCountKey);
      if count.None? {
        return Err;
      }
      if count.value == 0 {
        return Ok(None);
      }
      var i: nat := count.value - 1;
      while true
        invariant LastResult(db.kv, count.value) == LastResult(db.kv, i + 1)
        decreases i
      {
        if ResultKey(i) in db.kv {
          return Ok(Some(i));
        }
        if i == 0 {
          break;
        }
        i := i - 1;
      }
      r := Ok(None);
    }

    /** The clock moves on even when the engine then fails, and never goes back. */
    method DigestMessage(idx: nat, msg: MessageWithMetadata) returns (r: Result<MessageResult>)
      modifies `lastTimestamp
      ensures idx > 0 && !(ResultKey(idx - 1) in db.kv && db.kv[ResultKey(idx - 1)].StoredResult?) ==>
                r.Err? && lastTimestamp == old(lastTimestamp)
      ensures (idx > 0 ==> ResultKey(idx - 1) in db.kv && db.kv[ResultKey(idx - 1)].StoredResult?) ==>
                var ts := msg.message.header.timestamp;
                var ts := if ts > old(lastTimestamp) then ts
                          else if old(lastTimestamp) == U64_MAX then U64_MAX else old(lastTimestamp) + 1;
                var parent := if idx == 0 then genesisHash else db.kv[ResultKey(idx - 1)].result.blockHash;
                var digested := digest(idx, msg, parent, ts);
                if digested.None? then r.Err? && lastTimestamp == ts
                else r == Ok(digested.value.result) && lastTimestamp == Max(ts, digested.value.blockTime)
    {
      var parent := genesisHash;
      if idx != 0 {
        var key := ResultKey(idx - 1);
        if key !in db.kv || !db.kv[key].StoredResult? {
          return Err;
        }
        parent := db.kv[key].result.blockHash;
      }
      var ts := msg.message.header.timestamp;
      var prev := lastTimestamp;
      if ts <= prev {
        ts := SaturatingAdd(prev, 1);
      }
      lastTimestamp := ts;
      var digested := digest(idx, msg, parent, ts);
      if digested.None? {
        return Err;
      }
      if lastTimestamp < digested.value.blockTime {
        lastTimestamp := digested.value.blockTime;
      }
      r := Ok(digested.value.result);
    }
  }

  /** The next message after `r` results, digested on the last of them. */
  function DigestNext(digest: Digest, genesis: Hash32, kv: KeyValues, r: nat, clock: u64): Option<Built>
    requires MessageKey(r) in kv && kv[MessageKey(r)].StoredMessage?
    requires r > 0 ==> ResultKey(r - 1) in kv && kv[ResultKey(r - 1)].StoredResult?
  {
    var msg := kv[MessageKey(r)].message;
    digest(r, msg, ParentOf(genesis, kv, r), Stamp(clock, msg.message.header.timestamp))
  }

  lemma ReadyToExecute(kv: KeyValues, r: nat)
    requires LogInv(kv) && ResultsInv(kv, r)
    ensures NumberAt(kv, MessageCountKey) == Some(MessageCount(kv)) && r <= MessageCount(kv)
    ensures LastResult(kv, MessageCount(kv)) == if r == 0 then None else Some(r - 1)
    ensures r < MessageCount(kv) ==>
              && MessageKey(r) in kv && kv[MessageKey(r)].StoredMessage?
              && BlockHashKey(r) in kv && kv[BlockHashKey(r)].StoredBlockHash?
              && (r > 0 ==> ResultKey(r - 1) in kv && kv[ResultKey(r - 1)].StoredResult?)
    ensures r + 1 < MessageCount(kv) ==> MessageKey(r + 1) in kv && kv[MessageKey(r + 1)].StoredMessage?
  {
    LastResultIs(kv, r, MessageCount(kv));
  }

  /**
   Executes at most one message: the first without a result, on top of the one before it. The ghost
   argument `r` names how many are done.
   */
  method ExecuteNextMsg(engine: RethExecEngine, ghost r: nat) returns (more: Result<bool>)
    modifies engine.db, engine`lastTimestamp
    ensures LogInv(old(engine.db.kv)) && ResultsInv(old(engine.db.kv), r) ==>
              var kv, count := old(engine.db.kv), MessageCount(old(engine.db.kv));
              if r == count then
                more == Ok(false) && engine.db.kv == kv && engine.lastTimestamp == old(engine.lastTimestamp)
              else
                var msg, clock := kv[MessageKey(r)].message, old(engine.lastTimestamp);
                var ts := if msg.message.header.timestamp > clock then msg.message.header.timestamp
                          else if clock == U64_MAX then U64_MAX else clock + 1;
                var parent := if r == 0 then engine.genesisHash else kv[ResultKey(r - 1)].result.blockHash;
                match engine.digest(r, msg, parent, ts)
                case None => more == Err && engine.db.kv == kv && engine.lastTimestamp == ts
                case Some(built) =>
                  && more == Ok(r + 1 < count)
                  && engine.db.kv == kv[ResultKey(r) := StoredResult(built.result)]
                  && engine.lastTimestamp == Max(ts, built.blockTime)
  {
    hide Apply, LogInv, ResultsInv, LastResult, ParentOf, Stamp, Max;
    var db := engine.db;
    ghost var kv := db.kv;
    var count := NumberAt(db.kv, MessageCountKey);
    if LogInv(kv) && ResultsInv(kv, r) {
      ReadyToExecute(kv, r);
    }
    if count.None? {
      return Err;
    }
    var execHead := engine.HeadMessageIndex();
    if execHead.Err? {
      return Err;
    }
    var idx := if execHead.value.None? then 0 else execHead.value.value + 1;
    assert LogInv(kv) && ResultsInv(kv, r) ==> idx == r;
    if idx >= count.value {
      return Ok(false);
    }
    if MessageKey(idx) !in db.kv || !db.kv[MessageKey(idx)].StoredMessage? {
      return Err;
    }
    if BlockHashKey(idx) in db.kv && !db.kv[BlockHashKey(idx)].StoredBlockHash? {
      return Err;
    }
    if idx + 1 < count.value && (MessageKey(idx + 1) !in db.kv || !db.kv[MessageKey(idx + 1)].StoredMessage?) {
      return Err;
    }
    var result := engine.DigestMessage(idx, db.kv[MessageKey(idx)].message);
    if result.Err? {
      return Err;
    }
    StoreResult(db, idx, result.value);
    more := Ok(idx + 1 <= count.value - 1);
  }

  method StoreResult(db: Database, idx: nat, result: MessageResult)
    modifies db
    ensures db.kv == old(db.kv)[ResultKey(idx) := StoredResult(result)] && db.commits == old(db.commits) + [db.kv]
  {
    hide Apply;
    var batch := new Batch();
    AppliedNothing(db.kv);
    batch.Put(ResultKey(idx), StoredResult(result), db.kv);
    db.Write(batch);
  }

  // ----- interleavings

  /** A digest whose result is not stored yet. */
  datatype Pending = Pending(idx: nat, result: MessageResult, began: u64, stamp: u64)

  /**
   `stamps` are the timestamps the stored results were digested at, and `began` what the clock showed before; they are
   not part of the store.
   */
  datatype ExecState = ExecState(kv: KeyValues, clock: u64, began: seq<u64>, stamps: seq<u64>, pending: Option<Pending>)

  /** Appends and truncations of the log, the two halves of an execution, and anything that leaves the log alone. */
  datatype Step =
    | Append(msgs: seq<MessageWithBlockInfo>)
    | Truncate(n: nat)
    | BeginExecution
    | FinishExecution
    | Elsewhere(kv: KeyValues)

  ghost predicate Unchanged(kv: KeyValues, kv': KeyValues) {
    forall k: Key | IsLogKey(k) :: (k in kv' <==> k in kv) && (k in kv ==> kv'[k] == kv[k])
  }

  /** No truncation happens while a result is pending. */
  ghost predicate Enabled(s: ExecState, step: Step) {
    match step
    case Append(_) => true
    case Truncate(n) => s.pending.None? && 0 < n <= MessageCount(s.kv)
    case BeginExecution =>
      s.pending.None? && |s.stamps| < MessageCount(s.kv) && LogInv(s.kv) && ResultsInv(s.kv, |s.stamps|)
    case FinishExecution => s.pending.Some?
    case Elsewhere(kv) => Unchanged(s.kv, kv)
  }

  ghost function Take(digest: Digest, genesis: Hash32, s: ExecState, step: Step): ExecState
    requires Enabled(s, step)
  {
    match step
    case Append(msgs) => s.(kv := AppendAt(s.kv, MessageCount(s.kv), msgs))
    case Truncate(n) =>
      s.(kv := TruncateAt(s.kv, n), began := s.began[..Min(n, |s.began|)], stamps := s.stamps[..Min(n, |s.stamps|)])
    case BeginExecution =>
      var r := |s.stamps|;
      var ts := Stamp(s.clock, s.kv[MessageKey(r)].message.message.header.timestamp);
      (match DigestNext(digest, genesis, s.kv, r, s.clock)
       case None => s.(clock := ts)
       case Some(built) =>
         s.(clock := if ts < built.blockTime then built.blockTime else ts,
            pending := Some(Pending(r, built.result, s.clock, ts))))
    case FinishExecution =>
      var p := s.pending.value;
      s.(kv := s.kv[ResultKey(p.idx) := StoredResult(p.result)], began := s.began + [p.began],
         stamps := s.stamps + [p.stamp], pending := None)
    case Elsewhere(kv) => s.(kv := kv)
  }

  /** Result `i` is what the engine made of message `i` on the block of result `i - 1`. */
  ghost predicate DigestedAt(digest: Digest, genesis: Hash32, kv: KeyValues, i: nat, stamp: u64,
                             result: MessageResult) {
    && MessageKey(i) in kv && kv[MessageKey(i)].StoredMessage?
    && (i > 0 ==> ResultKey(i - 1) in kv && kv[ResultKey(i - 1)].StoredResult?)
    && var d := digest(i, kv[MessageKey(i)].message, ParentOf(genesis, kv, i), stamp);
       d.Some? && d.value.result == result
  }

  /** Timestamps along the chain rise, until they reach the largest 64-bit value. */
  predicate Rising(stamps: seq<u64>) {
    forall i, j | 0 <= i < j < |stamps| :: stamps[i] < stamps[j] || stamps[j] == U64_MAX
  }

  predicate After(stamps: seq<u64>, t: u64) {
    forall i | 0 <= i < |stamps| :: stamps[i] <= t
  }

  /** The timestamp offered for message `i` when the clock showed `began`. */
  predicate Offers(kv: KeyValues, i: nat, began: u64, stamp: u64) {
    && MessageKey(i) in kv && kv[MessageKey(i)].StoredMessage?
    && var ts := kv[MessageKey(i)].message.message.header.timestamp;
       stamp == if ts > began then ts else if began == U64_MAX then U64_MAX else began + 1
  }

  /** Every result was digested at the timestamp that its message and the clock gave, after those before it. */
  ghost predicate ClockInv(s: ExecState) {
    && |s.began| == |s.stamps|
    && (forall i: nat | i < |s.began| :: Offers(s.kv, i, s.began[i], s.stamps[i]) && After(s.stamps[..i], s.began[i]))
    && (s.pending.Some? ==>
          var p := s.pending.value;
          p.idx == |s.stamps| && Offers(s.kv, p.idx, p.began, p.stamp) && After(s.stamps, p.began))
  }

  /** The execution log is an in-order chain without gaps. */
  ghost predicate ExecInv(digest: Digest, genesis: Hash32, s: ExecState) {
    && LogInv(s.kv) && ResultsInv(s.kv, |s.stamps|)
    && (forall i: nat | i < |s.stamps| :: DigestedAt(digest, genesis, s.kv, i, s.stamps[i], s.kv[ResultKey(i)].result))
    && Rising(s.stamps) && After(s.stamps, s.clock) && ClockInv(s)
    && (s.pending.Some? ==>
          var p := s.pending.value;
          && p.idx == |s.stamps| < MessageCount(s.kv)
          && DigestedAt(digest, genesis, s.kv, p.idx, p.stamp, p.result)
          && Rising(s.stamps + [p.stamp]) && p.stamp <= s.clock)
  }

  lemma DigestedFrame(digest: Digest, genesis: Hash32, kv: KeyValues, kv': KeyValues, i: nat, stamp: u64,
                      result: MessageResult)
    requires DigestedAt(digest, genesis, kv, i, stamp, result)
    requires MessageKey(i) in kv' && kv'[MessageKey(i)] == kv[MessageKey(i)]
    requires i > 0 ==> ResultKey(i - 1) in kv' && kv'[ResultKey(i - 1)] == kv[ResultKey(i - 1)]
    ensures DigestedAt(digest, genesis, kv', i, stamp, result)
  {
  }

  /** The log and results of `kv'` begin with those of `kv` up to `n`. */
  ghost predicate SameUpTo(kv: KeyValues, kv': KeyValues, n: nat) {
    && (forall i: nat | i < n && MessageKey(i) in kv :: MessageKey(i) in kv' && kv'[MessageKey(i)] == kv[MessageKey(i)])
    && (forall i: nat | i < n && ResultKey(i) in kv :: ResultKey(i) in kv' && kv'[ResultKey(i)] == kv[ResultKey(i)])
  }

  lemma ChainStays(digest: Digest, genesis: Hash32, s: ExecState, kv': KeyValues, r: nat)
    requires ExecInv(digest, genesis, s) && r <= |s.stamps|
    requires LogInv(kv') && ResultsInv(kv', r) && SameUpTo(s.kv, kv', r)
    ensures forall i: nat | i < r :: DigestedAt(digest, genesis, kv', i, s.stamps[i], kv'[ResultKey(i)].result)
  {
    hide LogInv, Rising, After, DigestedAt;
    forall i: nat | i < r
      ensures DigestedAt(digest, genesis, kv', i, s.stamps[i], kv'[ResultKey(i)].result)
    {
      assert DigestedAt(digest, genesis, s.kv, i, s.stamps[i], s.kv[ResultKey(i)].result);
      assert ResultKey(i) in s.kv && (i > 0 ==> ResultKey(i - 1) in s.kv);
      assert MessageKey(i) in s.kv by {
        DigestedHasMessage(digest, genesis, s.kv, i, s.stamps[i], s.kv[ResultKey(i)].result);
      }
      DigestedFrame(digest, genesis, s.kv, kv', i, s.stamps[i], s.kv[ResultKey(i)].result);
    }
  }

  lemma DigestedHasMessage(digest: Digest, genesis: Hash32, kv: KeyValues, i: nat, stamp: u64, result: MessageResult)
    requires DigestedAt(digest, genesis, kv, i, stamp, result)
    ensures MessageKey(i) in kv
  {
  }

  // ----- every step keeps the chain

  lemma AppendKeeps(digest: Digest, genesis: Hash32, s: ExecState, msgs: seq<MessageWithBlockInfo>)
    requires ExecInv(digest, genesis, s)
    ensures ExecInv(digest, genesis, s.(kv := AppendAt(s.kv, MessageCount(s.kv), msgs)))
  {
    hide DigestedAt, Rising, After, LogInv, Log, AppendAt;
    var f := AppendAt(s.kv, MessageCount(s.kv), msgs);
    AppendExtends(s.kv, msgs);
    AppendedRows(s.kv, msgs);
    ChainStays(digest, genesis, s, f, |s.stamps|);
    if s.pending.Some? {
      var p := s.pending.value;
      DigestedHasMessage(digest, genesis, s.kv, p.idx, p.stamp, p.result);
      DigestedFrame(digest, genesis, s.kv, f, p.idx, p.stamp, p.result);
    }
  }

  lemma AppendedRows(kv: KeyValues, msgs: seq<MessageWithBlockInfo>)
    requires LogInv(kv)
    ensures var f := AppendAt(kv, MessageCount(kv), msgs);
            && MessageCount(f) == MessageCount(kv) + |msgs|
            && (forall i: nat :: MessageKey(i) in kv ==> MessageKey(i) in f && f[MessageKey(i)] == kv[MessageKey(i)])
            && (forall i: nat :: ResultKey(i) in f <==> ResultKey(i) in kv)
            && (forall i: nat | ResultKey(i) in kv :: f[ResultKey(i)] == kv[ResultKey(i)])
  {
    hide PutMessages;
    var f := AppendAt(kv, MessageCount(kv), msgs);
    forall i: nat
      ensures MessageKey(i) in kv ==> MessageKey(i) in f && f[MessageKey(i)] == kv[MessageKey(i)]
      ensures ResultKey(i) in f <==> ResultKey(i) in kv
      ensures ResultKey(i) in kv ==> f[ResultKey(i)] == kv[ResultKey(i)]
    {
      PutMessagesRow(kv, MessageCount(kv), msgs, MessageKey(i));
      PutMessagesRow(kv, MessageCount(kv), msgs, ResultKey(i));
    }
  }

  lemma TruncatedRows(kv: KeyValues, n: nat)
    ensures var f := TruncateAt(kv, n);
            && MessageCount(f) == n
            && (forall i: nat :: MessageKey(i) in f <==> MessageKey(i) in kv && i < n)
            && (forall i: nat :: ResultKey(i) in f <==> ResultKey(i) in kv && i < n)
            && (forall i: nat | MessageKey(i) in f :: f[MessageKey(i)] == kv[MessageKey(i)])
            && (forall i: nat | ResultKey(i) in f :: f[ResultKey(i)] == kv[ResultKey(i)])
  {
  }

  /** Truncation cuts messages and results together. */
  lemma TruncateKeeps(digest: Digest, genesis: Hash32, s: ExecState, n: nat)
    requires ExecInv(digest, genesis, s) && Enabled(s, Truncate(n))
    ensures ExecInv(digest, genesis, Take(digest, genesis, s, Truncate(n)))
  {
    hide DigestedAt, LogInv, Log, TruncateAt;
    var f, r := TruncateAt(s.kv, n), Min(n, |s.stamps|);
    TruncateCuts(s.kv, n);
    TruncatedRows(s.kv, n);
    assert ResultsInv(f, r);
    assert forall i: nat | i < r :: MessageKey(i) in s.kv ==> MessageKey(i) in f;
    ChainStays(digest, genesis, s, f, r);
  }

  lemma NextDigested(digest: Digest, genesis: Hash32, s: ExecState)
    requires ExecInv(digest, genesis, s) && |s.stamps| < MessageCount(s.kv)
    ensures var r := |s.stamps|;
            && MessageKey(r) in s.kv && s.kv[MessageKey(r)].StoredMessage?
            && (r > 0 ==> ResultKey(r - 1) in s.kv && s.kv[ResultKey(r - 1)].StoredResult?)
            && var ts := Stamp(s.clock, s.kv[MessageKey(r)].message.message.header.timestamp);
               var d := DigestNext(digest, genesis, s.kv, r, s.clock);
               && s.clock <= ts && Rising(s.stamps + [ts]) && Offers(s.kv, r, s.clock, ts)
               && (d.Some? ==> DigestedAt(digest, genesis, s.kv, r, ts, d.value.result))
  {
    hide DigestedAt;
    var r := |s.stamps|;
    var ts := Stamp(s.clock, s.kv[MessageKey(r)].message.message.header.timestamp);
    NextIsDigested(digest, genesis, s.kv, r, s.clock);
  }

  lemma NextIsDigested(digest: Digest, genesis: Hash32, kv: KeyValues, r: nat, clock: u64)
    requires MessageKey(r) in kv && kv[MessageKey(r)].StoredMessage?
    requires r > 0 ==> ResultKey(r - 1) in kv && kv[ResultKey(r - 1)].StoredResult?
    ensures var d := DigestNext(digest, genesis, kv, r, clock);
            var ts := kv[MessageKey(r)].message.message.header.timestamp;
            d.Some? ==> DigestedAt(digest, genesis, kv, r, Stamp(clock, ts), d.value.result)
  {
  }

  lemma BeginKeeps(digest: Digest, genesis: Hash32, s: ExecState)
    requires ExecInv(digest, genesis, s) && Enabled(s, BeginExecution)
    ensures ExecInv(digest, genesis, Take(digest, genesis, s, BeginExecution))
  {
    hide DigestedAt, Rising, LogInv, Stamp;
    NextDigested(digest, genesis, s);
  }

  lemma FinishKeeps(digest: Digest, genesis: Hash32, s: ExecState)
    requires ExecInv(digest, genesis, s) && s.pending.Some?
    ensures ExecInv(digest, genesis, Take(digest, genesis, s, FinishExecution))
  {
    hide DigestedAt, Rising, LogInv;
    var p, r := s.pending.value, |s.stamps|;
    var f := s.kv[ResultKey(r) := StoredResult(p.result)];
    ResultIsNotLog(s.kv, r, p.result);
    var stamps := s.stamps + [p.stamp];
    forall i: nat | i < r + 1
      ensures DigestedAt(digest, genesis, f, i, stamps[i], f[ResultKey(i)].result)
    {
      if i < r {
        assert DigestedAt(digest, genesis, s.kv, i, s.stamps[i], s.kv[ResultKey(i)].result);
      }
      DigestedHasMessage(digest, genesis, s.kv, i, stamps[i], f[ResultKey(i)].result);
      DigestedFrame(digest, genesis, s.kv, f, i, stamps[i], f[ResultKey(i)].result);
    }
  }

  lemma ResultIsNotLog(kv: KeyValues, i: nat, result: MessageResult)
    requires LogInv(kv)
    ensures LogInv(kv[ResultKey(i) := StoredResult(result)])
    ensures MessageCount(kv[ResultKey(i) := StoredResult(result)]) == MessageCount(kv)
  {
  }

  lemma ElsewhereKeeps(digest: Digest, genesis: Hash32, s: ExecState, kv': KeyValues)
    requires ExecInv(digest, genesis, s) && Unchanged(s.kv, kv')
    ensures ExecInv(digest, genesis, s.(kv := kv'))
  {
    hide DigestedAt, Rising, LogInv;
    UnchangedRows(s.kv, kv');
    ChainStays(digest, genesis, s, kv', |s.stamps|);
    if s.pending.Some? {
      var p := s.pending.value;
      DigestedHasMessage(digest, genesis, s.kv, p.idx, p.stamp, p.result);
      DigestedFrame(digest, genesis, s.kv, kv', p.idx, p.stamp, p.result);
    }
  }

  lemma UnchangedRows(kv: KeyValues, kv': KeyValues)
    requires Unchanged(kv, kv')
    ensures MessageCount(kv') == MessageCount(kv) && (LogInv(kv) ==> LogInv(kv'))
    ensures forall i: nat :: MessageKey(i) in kv ==> MessageKey(i) in kv' && kv'[MessageKey(i)] == kv[MessageKey(i)]
    ensures forall i: nat :: ResultKey(i) in kv' <==> ResultKey(i) in kv
    ensures forall i: nat | ResultKey(i) in kv :: kv'[ResultKey(i)] == kv[ResultKey(i)]
  {
    assert IsLogKey(MessageCountKey);
    assert forall i: nat :: IsLogKey(MessageKey(i)) && IsLogKey(BlockHashKey(i)) && IsLogKey(ResultKey(i));
  }

  /** Every enabled step, in any interleaving, keeps the execution log an in-order chain without gaps. */
  lemma StepKeeps(digest: Digest, genesis: Hash32, s: ExecState, step: Step)
    requires ExecInv(digest, genesis, s) && Enabled(s, step)
    ensures ExecInv(digest, genesis, Take(digest, genesis, s, step))
  {
    hide ExecInv, Unchanged, TruncateAt, AppendAt;
    match step
    case Append(msgs) => AppendKeeps(digest, genesis, s, msgs);
    case Truncate(n) => TruncateKeeps(digest, genesis, s, n);
    case BeginExecution => BeginKeeps(digest, genesis, s);
    case FinishExecution => PendingThere(s); FinishKeeps(digest, genesis, s);
    case Elsewhere(kv) => ElsewhereKeeps(digest, genesis, s, kv);
  }

  lemma PendingThere(s: ExecState)
    requires Enabled(s, FinishExecution)
    ensures s.pending.Some?
  {
  }

  /** Executing a message undisturbed is beginning and then finishing it. */
  lemma ExecuteIsBeginThenFinish(digest: Digest, genesis: Hash32, s: ExecState)
    requires ExecInv(digest, genesis, s) && Enabled(s, BeginExecution)
    requires DigestNext(digest, genesis, s.kv, |s.stamps|, s.clock).Some?
    ensures var r, built := |s.stamps|, DigestNext(digest, genesis, s.kv, |s.stamps|, s.clock).value;
            var begun := Take(digest, genesis, s, BeginExecution);
            && Enabled(begun, FinishExecution)
            && var done := Take(digest, genesis, begun, FinishExecution);
               && done.kv == s.kv[ResultKey(r) := StoredResult(built.result)]
               && done.clock
                 == Max(Stamp(s.clock, s.kv[MessageKey(r)].message.message.header.timestamp), built.blockTime)
               && ExecInv(digest, genesis, done)
  {
    hide ExecInv, LogInv, ResultsInv, Stamp;
    BeginKeeps(digest, genesis, s);
    FinishKeeps(digest, genesis, Take(digest, genesis, s, BeginExecution));
  }

  ghost predicate ExecStep(digest: Digest, genesis: Hash32, s: ExecState, s': ExecState) {
    exists step :: Enabled(s, step) && s' == Take(digest, genesis, s, step)
  }

  ghost predicate ExecRun(digest: Digest, genesis: Hash32, run: seq<ExecState>) {
    && run != [] && ExecInv(digest, genesis, run[0])
    && forall i: nat | i + 1 < |run| :: ExecStep(digest, genesis, run[i], run[i + 1])
  }

  /** In every state of every interleaving the results are a chain over a prefix of the messages. */
  lemma {:induction false} ExecRunsKeep(digest: Digest, genesis: Hash32, run: seq<ExecState>, n: nat)
    requires ExecRun(digest, genesis, run) && n < |run|
    ensures ExecInv(digest, genesis, run[n])
  {
    hide ExecInv, Enabled, Take;
    if n > 0 {
      ExecRunsKeep(digest, genesis, run, n - 1);
      var i := n - 1;
      assert ExecStep(digest, genesis, run[i], run[i + 1]);
      var step :| Enabled(run[i], step) && run[i + 1] == Take(digest, genesis, run[i], step);
      StepKeeps(digest, genesis, run[i], step);
    }
  }

  /**
   Each result in each state of each interleaving, in full. It is what the engine made of the message under the same
   index, on the genesis block or else on the block that the result before it names. The timestamp offered was the
   message's own if that was ahead of the clock, and otherwise the next tick, as long as there is one; and by then the
   clock had reached the timestamps of all results before it.
   */
  lemma ResultsAre(digest: Digest, genesis: Hash32, run: seq<ExecState>, n: nat, i: nat)
    requires ExecRun(digest, genesis, run) && n < |run| && ResultKey(i) in run[n].kv
    ensures var kv := run[n].kv;
            && i < MessageCount(kv) && kv[ResultKey(i)].StoredResult? && i < |run[n].began| == |run[n].stamps|
            && (forall j: nat | j < i :: ResultKey(j) in kv && kv[ResultKey(j)].StoredResult?)
            && MessageKey(i) in kv && kv[MessageKey(i)].StoredMessage?
            && var parent := if i == 0 then genesis else kv[ResultKey(i - 1)].result.blockHash;
               var d := digest(i, kv[MessageKey(i)].message, parent, run[n].stamps[i]);
               d.Some? && d.value.result == kv[ResultKey(i)].result
    ensures var ts, clock := run[n].kv[MessageKey(i)].message.message.header.timestamp, run[n].began[i];
            && (ts > clock ==> run[n].stamps[i] == ts)
            && (ts <= clock && clock < 0xFFFF_FFFF_FFFF_FFFF ==> run[n].stamps[i] == clock + 1)
            && (ts <= clock == 0xFFFF_FFFF_FFFF_FFFF ==> run[n].stamps[i] == clock)
            && forall j: nat | j < i :: run[n].stamps[j] <= clock
  {
    hide LogInv, Rising;
    ExecRunsKeep(digest, genesis, run, n);
    var s := run[n];
    assert DigestedAt(digest, genesis, s.kv, i, s.stamps[i], s.kv[ResultKey(i)].result);
    assert Offers(s.kv, i, s.began[i], s.stamps[i]);
    forall j: nat | j < i
      ensures ResultKey(j) in s.kv && s.kv[ResultKey(j)].StoredResult? && s.stamps[j] <= s.began[i]
    {
      assert s.stamps[..i][j] == s.stamps[j];
    }
  }

  ghost predicate HasPrefixOfResults(kv: KeyValues) {
    exists q: nat :: ResultsInv(kv, q)
  }

  /**
   Why no truncation may fall between an execution's read and its store: storing the result of message
   `r` after a truncation at `n` leaves an unbroken prefix of results exactly when `n` is above `r`.
   */
  lemma LateResult(kv: KeyValues, r: nat, n: nat, result: MessageResult)
    requires LogInv(kv) && ResultsInv(kv, r) && r < MessageCount(kv) && n <= MessageCount(kv)
    ensures HasPrefixOfResults(TruncateAt(kv, n)[ResultKey(r) := StoredResult(result)]) <==> n > r
  {
    hide TruncateAt, LogInv;
    var cut := TruncateAt(kv, n);
    var f := cut[ResultKey(r) := StoredResult(result)];
    TruncatedRows(kv, n);
    assert MessageCount(f) == MessageCount(cut) == n;
    if n > r {
      assert forall i: nat :: ResultKey(i) in f <==> i < r + 1;
      assert ResultsInv(f, r + 1);
    } else {
      forall q: nat
        ensures !ResultsInv(f, q)
      {
        assert ResultKey(r) in f;
      }
    }
  }

  predicate DigestsTo(digest: Digest, i: nat, msg: MessageWithMetadata, parent: Hash32, stamp: u64,
                      result: MessageResult) {
    var d := digest(i, msg, parent, stamp);
    d.Some? && d.value.result == result
  }

  /** The log cut at `n` with `msgs` appended there, and then the late result of message `r`. */
  ghost function Overtaken(kv: KeyValues, r: nat, n: nat, msgs: seq<MessageWithBlockInfo>,
                           result: MessageResult): KeyValues {
    AppendAt(TruncateAt(kv, n), n, msgs)[ResultKey(r) := StoredResult(result)]
  }

  lemma OvertakenRows(kv: KeyValues, r: nat, n: nat, msgs: seq<MessageWithBlockInfo>, result: MessageResult)
    requires LogInv(kv) && ResultsInv(kv, r) && n <= MessageCount(kv)
    ensures var f := Overtaken(kv, r, n, msgs, result);
            && MessageCount(f) == n + |msgs|
            && (forall i: nat :: ResultKey(i) in f <==> i < Min(n, r) || i == r)
            && (forall i: nat | i < Min(n, r) :: f[ResultKey(i)] == kv[ResultKey(i)])
            && f[ResultKey(r)] == StoredResult(result)
            && (forall i: nat | i < n :: MessageKey(i) in f && f[MessageKey(i)] == kv[MessageKey(i)])
            && (msgs != [] ==> MessageKey(n) in f && f[MessageKey(n)] == StoredMessage(msgs[0].messageWithMeta))
  {
    hide TruncateAt, PutMessages;
    var cut := TruncateAt(kv, n);
    TruncateCuts(kv, n);
    TruncatedRows(kv, n);
    AppendedRows(cut, msgs);
    PutMessagesRow(cut, n, msgs, MessageKey(n));
  }

  /**
   An append in between hides the loss of order but not the mix-up: a truncation at `r` itself, with new messages
   appended, restores an unbroken prefix, and the result under `r` is then right if and only if the new message there
   happens to digest to it as well.
   */
  lemma LateResultAfterAppend(digest: Digest, genesis: Hash32, kv: KeyValues, r: nat, n: nat,
                              msgs: seq<MessageWithBlockInfo>, stamp: u64, result: MessageResult)
    requires LogInv(kv) && ResultsInv(kv, r) && r < MessageCount(kv) && n <= MessageCount(kv)
    requires DigestedAt(digest, genesis, kv, r, stamp, result)
    ensures var f := Overtaken(kv, r, n, msgs, result);
            && (HasPrefixOfResults(f) <==> n > r || (n == r && msgs != []))
            && (HasPrefixOfResults(f) && DigestedAt(digest, genesis, f, r, stamp, result)
                <==>
                n > r
                || (n == r && msgs != []
                    && DigestsTo(digest, r, msgs[0].messageWithMeta, ParentOf(genesis, kv, r), stamp, result)))
  {
    hide LogInv, Overtaken;
    var f := Overtaken(kv, r, n, msgs, result);
    OvertakenRows(kv, r, n, msgs, result);
    if n > r || (n == r && msgs != []) {
      assert ResultsInv(f, r + 1);
      assert r > 0 ==> f[ResultKey(r - 1)] == kv[ResultKey(r - 1)];
      assert ParentOf(genesis, f, r) == ParentOf(genesis, kv, r);
    } else {
      forall q: nat
        ensures !ResultsInv(f, q)
      {
        assert ResultKey(r) in f;
        assert n < r ==> ResultKey(n) !in f;
      }
    }
  }
}
