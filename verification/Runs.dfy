/**
 Whole runs of the pipeline: from an empty store, in any order, successful ingests of well-formed batches, delayed
 messages that arrive, arrive again or go away, and rewinds of batches together with the log.
 */
module Runs {
  import opened Basics
  import opened SequencerMessages
  import opened DrainSpec
  import opened DrainProperties
  import opened Multiplexer
  import opened Store
  import opened TrackerSpec
  import opened DelayedOps
  import opened BatchOps
  import opened StreamerSpec
  import opened Tracker
  import opened Ingest
  import opened Pipeline
  import opened EndToEnd
  import opened Rewinds

  datatype State = State(kv: KeyValues, checked: map<nat, Hash32>, hist: seq<SequencerInboxBatch>)

  /** An ingest of well-formed batches that succeeded, with the status and store it reported. */
  ghost predicate IngestStep(keccak: Keccak, codec: Codec, s: State, batches: seq<SequencerInboxBatch>, s': State) {
    && batches != [] && batches[0].sequenceNumber == |s.hist|
    && AllWellFormed(EnvOf(codec, s.kv), batches, MetaAfter(s.kv, |s.hist|).delayedMessageCount)
    && Ingested(keccak, codec, s.kv, batches, Finished, s'.kv)
    && s'.hist == s.hist + batches && s'.checked == Record(s.checked, |s.hist|, batches)
  }

  /** Delayed messages accepted above what the last batch has read: new ones, or some that were there before. */
  ghost predicate ArrivalStep(keccak: Keccak, s: State, msgs: seq<DelayedInput>, s': State) {
    && msgs != [] && Accepts(keccak, s.kv, msgs) && DelayedAfter(s.kv, |s.hist|) <= msgs[0].seqNum
    && s'.kv == AddDelayed(s.kv, msgs) && s'.hist == s.hist && s'.checked == s.checked
  }

  /** A rollback of the delayed messages that stops above what the last batch has read. */
  ghost predicate RollbackStep(s: State, n: nat, s': State) {
    && NumberAt(s.kv, DelayedCountKey).Some?
    && DelayedAfter(s.kv, |s.hist|) <= n <= NumberAt(s.kv, DelayedCountKey).value
    && s'.kv == ReorgDelayed(s.kv, n) && s'.hist == s.hist && s'.checked == s.checked
  }

  /**
   A rollback of batches, then of the log to the count it returns. At least one batch stays: the streamer refuses to
   truncate the log to nothing.
   */
  ghost predicate BatchRewindStep(s: State, count: nat, s': State) {
    && 0 < count <= |s.hist|
    && s' == State(TruncateAt(ReorgBatches(s.kv, count), MessagesAfter(s.kv, count)), s.checked, s.hist[..count])
  }

  /** A change of the delayed messages that drops batches, then a rollback of the log to the batches left. */
  ghost predicate DelayedRewindStep(s: State, m: nat, s': State) {
    var c := Kept(s.kv, |s.hist|, m);
    && NumberAt(s.kv, DelayedCountKey).Some? && m <= NumberAt(s.kv, DelayedCountKey).value && 0 < c <= |s.hist|
    && s' == State(TruncateAt(ReorgDelayed(s.kv, m), MessagesAfter(s.kv, c)), s.checked, s.hist[..c])
  }

  ghost predicate ArrivalRewindStep(keccak: Keccak, s: State, msgs: seq<DelayedInput>, s': State) {
    && msgs != [] && Accepts(keccak, s.kv, msgs)
    && var c := Kept(s.kv, |s.hist|, msgs[0].seqNum);
       && 0 < c <= |s.hist|
       && s' == State(TruncateAt(AddDelayed(s.kv, msgs), MessagesAfter(s.kv, c)), s.checked, s.hist[..c])
  }

  ghost predicate RewindStep(keccak: Keccak, s: State, s': State) {
    || (exists count :: BatchRewindStep(s, count, s'))
    || (exists m :: DelayedRewindStep(s, m, s'))
    || (exists msgs :: ArrivalRewindStep(keccak, s, msgs, s'))
  }

  /** The last case stands for skipped windows and for operations that fail their checks before they write. */
  ghost predicate Next(keccak: Keccak, codec: Codec, s: State, s': State) {
    || (exists batches :: IngestStep(keccak, codec, s, batches, s'))
    || (exists msgs :: ArrivalStep(keccak, s, msgs, s'))
    || (exists n :: RollbackStep(s, n, s'))
    || RewindStep(keccak, s, s')
    || s' == s
  }

  ghost predicate IsRun(keccak: Keccak, codec: Codec, run: seq<State>) {
    && run != [] && run[0] == State(EMPTY_STORE, map[], [])
    && forall i: nat | i + 1 < |run| :: Next(keccak, codec, run[i], run[i + 1])
  }

  lemma RewindKeeps(keccak: Keccak, codec: Codec, s: State, s': State)
    requires PipelineInv(keccak, codec, s.kv, s.checked, s.hist) && RewindStep(keccak, s, s')
    ensures PipelineInv(keccak, codec, s'.kv, s'.checked, s'.hist)
  {
    hide PipelineInv, Accepts, AddDelayed, ReorgDelayed, ReorgBatches, TruncateAt, Kept, MetaAfter;
    if count :| BatchRewindStep(s, count, s') {
      LogReads(keccak, codec, s.kv, s.checked, s.hist, count);
      BatchRewindIff(keccak, codec, s.kv, s.checked, s.hist, count, MessagesAfter(s.kv, count));
    } else if m :| DelayedRewindStep(s, m, s') {
      var c := Kept(s.kv, |s.hist|, m);
      LogReads(keccak, codec, s.kv, s.checked, s.hist, c);
      DelayedRewindIff(keccak, codec, s.kv, s.checked, s.hist, m, MessagesAfter(s.kv, c));
    } else if msgs: seq<DelayedInput> :| ArrivalRewindStep(keccak, s, msgs, s') {
      var c := Kept(s.kv, |s.hist|, msgs[0].seqNum);
      LogReads(keccak, codec, s.kv, s.checked, s.hist, c);
      ArrivalRewindIff(keccak, codec, s.kv, s.checked, s.hist, msgs, MessagesAfter(s.kv, c));
    }
  }

  lemma NextKeeps(keccak: Keccak, codec: Codec, s: State, s': State)
    requires PipelineInv(keccak, codec, s.kv, s.checked, s.hist) && Next(keccak, codec, s, s')
    ensures PipelineInv(keccak, codec, s'.kv, s'.checked, s'.hist)
  {
    hide PipelineInv, Ingested, AllWellFormed, Accepts, AddDelayed, ReorgDelayed, IngestResult, Record, BatchesCheckOut,
         DelayedAvailable, DelayedAfter, EnvOf, RewindStep;
    if batches :| IngestStep(keccak, codec, s, batches, s') {
      WellFormedIngest(keccak, codec, s.kv, s.checked, s.hist, batches, Finished, s'.kv);
      IngestKeeps(keccak, codec, s.kv, s.checked, s.hist, batches, s'.kv);
    } else if msgs :| ArrivalStep(keccak, s, msgs, s') {
      ArrivalKeepsIff(keccak, codec, s.kv, s.checked, s.hist, msgs);
    } else if n :| RollbackStep(s, n, s') {
      RollbackKeepsIff(keccak, codec, s.kv, s.checked, s.hist, n);
    } else if RewindStep(keccak, s, s') {
      RewindKeeps(keccak, codec, s, s');
    }
  }

  /** In every state of every run, the log is explained by the batches ingested so far. */
  lemma {:induction false} RunsKeep(keccak: Keccak, codec: Codec, run: seq<State>, n: nat)
    requires IsRun(keccak, codec, run) && n < |run|
    ensures PipelineInv(keccak, codec, run[n].kv, run[n].checked, run[n].hist)
  {
    hide PipelineInv, Next;
    if n == 0 {
      StartHolds(keccak, codec);
    } else {
      RunsKeep(keccak, codec, run, n - 1);
      assert Next(keccak, codec, run[n - 1], run[n - 1 + 1]);
      NextKeeps(keccak, codec, run[n - 1], run[n]);
    }
  }

  /** In every state of every run, a search that answers names the batch that drained the message. */
  lemma RunsOwn(keccak: Keccak, codec: Codec, run: seq<State>, n: nat, i: nat, r: (nat, bool))
    requires IsRun(keccak, codec, run) && n < |run| && i < MessageCount(run[n].kv)
             && Owns(run[n].kv, |run[n].hist|, i, r)
    ensures r.1 && r.0 < |run[n].hist|
    ensures var kv := run[n].kv;
            var w := WalkOf(EnvOf(codec, kv), run[n].hist[r.0], MetaAfter(kv, r.0).delayedMessageCount);
            var lo := MessagesAfter(kv, r.0);
            LogInv(kv) && lo <= i < lo + |w.msgs| && Log(kv)[i] == Stripped(w.msgs[i - lo])
  {
    hide IsRun, Owns, WalkOf, EnvOf, Log, LogInv, MetaAfter, Inv, Clean, LastStoredRead, Produced;
    RunsKeep(keccak, codec, run, n);
    OwnerDrainedIt(keccak, codec, run[n].kv, run[n].checked, run[n].hist, i, r);
  }

  /**
   In every state of every run, the log holds the delayed messages up to the last batch's count, once each, in order.
   */
  lemma RunsPlace(keccak: Keccak, codec: Codec, run: seq<State>, n: nat)
    requires IsRun(keccak, codec, run) && n < |run|
    ensures var kv, last := run[n].kv, DelayedAfter(run[n].kv, |run[n].hist|);
            && LogInv(kv) && DelayedAvailable(EnvOf(codec, kv), 0, last)
            && Placed(Log(kv)) == Range(EnvOf(codec, kv), 0, last)
  {
    hide IsRun, PipelineInv, Log, LogInv, MetaAfter, EnvOf, Placed, Range, DelayedAvailable;
    var kv, hist := run[n].kv, run[n].hist;
    RunsKeep(keccak, codec, run, n);
    PipelineParts(keccak, codec, kv, run[n].checked, hist);
    LogPlaces(keccak, codec, kv, run[n].checked, hist, |hist|);
    WholeLog(keccak, codec, kv, run[n].checked, hist);
  }

  lemma WholeLog(keccak: Keccak, codec: Codec, kv: KeyValues, checked: map<nat, Hash32>, hist: seq<SequencerInboxBatch>)
    requires PipelineInv(keccak, codec, kv, checked, hist)
    ensures MessagesAfter(kv, |hist|) == |Log(kv)| && Log(kv)[..MessagesAfter(kv, |hist|)] == Log(kv)
  {
    hide Inv, Clean, LogInv, Produced, MetaAfter;
  }
}
