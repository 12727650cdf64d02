/**
 Logs that have run ahead of the batches. A refused add, a crash before it, or a rollback of batches leaves messages in
 the log that no stored batch explains; this says what every later ingest then does, how long it stays so, and which
 truncation ends it.
 */
module StrandedLogs {
  import opened Basics
  import opened Message
  import opened SequencerMessages
  import opened DrainSpec
  import opened DrainProperties
  import opened Multiplexer
  import opened Store
  import opened TrackerSpec
  import opened DelayedOps
  import opened BatchOps
  import opened StreamerSpec
  import opened Tracker
  import opened Ingest
  import opened EndToEnd
  import opened Rewinds

  /**
   The plan for every window up to the next batch, over `s` stored batches: nothing is left to skip to when no batch is
   stored, so the first window is drained once more, from the current delayed count; otherwise every window is skipped.
   */
  ghost predicate Stranded(kv: KeyValues, s: nat) {
    && LogInv(kv) && Searchable(kv)
    && forall first: nat | first <= s ::
         Looked(kv, first) == kv && PlanFor(kv, first) == if s == 0 then From(ColdRead(kv, NO_META)) else Skip
  }

  /**
   The first `s` batches are in order and each has messages of its own, but the log is longer than they explain. Being
   stranded is what this means for ingests.
   */
  ghost predicate LongLog(keccak: Keccak, kv: KeyValues, s: nat, checked: map<nat, Hash32>) {
    && Inv(keccak, kv, s, checked) && Clean(kv, s) && LogInv(kv) && StrictCounts(kv, s)
    && MessagesAfter(kv, s) < MessageCount(kv)
  }

  /** The delayed position of a second drain is the number of delayed messages stored. */
  lemma LongLogIsStranded(keccak: Keccak, kv: KeyValues, s: nat, checked: map<nat, Hash32>)
    requires LongLog(keccak, kv, s, checked)
    ensures Stranded(kv, s)
    ensures NumberAt(kv, DelayedCountKey).Some?
    ensures s == 0 && NumberAt(kv, DelayedCountKey).value < U64_LIMIT ==>
              PlanFor(kv, 0) == From(NumberAt(kv, DelayedCountKey).value)
  {
    hide DelayedInv, SequencedInv, CheckedInv, LogInv, MetaAfter, ReadMeta, BatchInv, PlanFor, Looked, Searchable,
         DelayedAfter;
    forall first: nat | first <= s
      ensures Searchable(kv) && Looked(kv, first) == kv
      ensures PlanFor(kv, first) == if s == 0 then From(ColdRead(kv, NO_META)) else Skip
    {
      Rising(kv, s, first);
      LongLogPlan(kv, s, first);
    }
    assert Looked(kv, 0) == kv;
    HasCount(keccak, kv);
    if NumberAt(kv, DelayedCountKey).value < U64_LIMIT {
      ColdReadIsCount(keccak, kv);
    }
  }

  lemma ColdReadIsCount(keccak: Keccak, kv: KeyValues)
    requires DelayedInv(keccak, kv) && NumberAt(kv, DelayedCountKey).value < U64_LIMIT
    ensures ColdRead(kv, NO_META) == NumberAt(kv, DelayedCountKey).value
  {
  }

  lemma Rising(kv: KeyValues, s: nat, first: nat)
    requires StrictCounts(kv, s) && first <= s
    ensures MessagesAfter(kv, first) <= MessagesAfter(kv, s)
  {
    hide MetaAfter, ReadMeta;
  }

  // ----- what strands a log

  lemma Strict(kv: KeyValues, c: nat, f: KeyValues, s: nat)
    requires StrictCounts(kv, c) && s <= c && SameBatches(kv, f, s)
    ensures StrictCounts(f, s) && MessagesAfter(f, s) == MessagesAfter(kv, s)
    ensures s < c ==> MessagesAfter(kv, s) < MessagesAfter(kv, c)
  {
    hide MetaAfter, ReadMeta;
    assert MetaAfter(f, s) == MetaAfter(kv, s);
    forall i: nat | i < s
      ensures ReadMeta(f, i).Ok?
    {
      assert ReadMeta(f, i) == ReadMeta(kv, i);
    }
    forall i: nat, j: nat | i < j <= s
      ensures MessagesAfter(f, i) < MessagesAfter(f, j)
    {
      assert MetaAfter(f, i) == MetaAfter(kv, i) && MetaAfter(f, j) == MetaAfter(kv, j);
      assert MessagesAfter(kv, i) < MessagesAfter(kv, j);
    }
  }

  /** A change that leaves some batches strands the log if it drops one, or if the log was or has become too long. */
  lemma LeftLogIsLong(keccak: Keccak, kv: KeyValues, c: nat, checked: map<nat, Hash32>, f: KeyValues, s: nat)
    requires LogInv(kv) && StrictCounts(kv, c) && MessagesAfter(kv, c) <= MessageCount(kv)
    requires Leaves(keccak, kv, c, checked, f, s) && (s < c || MessagesAfter(kv, c) < MessageCount(f))
    ensures LongLog(keccak, f, s, checked)
  {
    hide Inv, Clean, LogInv, Log, EntryAt, StrictCounts, SameBatches, MetaAfter, DelayedAfter, MessageCount;
    Strict(kv, c, f, s);
  }

  lemma Explained(keccak: Keccak, codec: Codec, kv: KeyValues, checked: map<nat, Hash32>,
                  hist: seq<SequencerInboxBatch>)
    requires PipelineInv(keccak, codec, kv, checked, hist)
    ensures Inv(keccak, kv, |hist|, checked) && Clean(kv, |hist|) && LogInv(kv) && StrictCounts(kv, |hist|)
    ensures MessagesAfter(kv, |hist|) == MessageCount(kv)
  {
    hide Inv, Clean, LogInv, Produced, MetaAfter, BatchInv, LastStoredRead;
    InvIsCaughtUp(keccak, codec, kv, checked, hist);
  }

  // ----- how a log is stranded

  /**
   After an append whose batches were refused, that a crash cut off from its add, or that came from no ingest at all.
   */
  lemma RefusedBatchesStrand(keccak: Keccak, codec: Codec, kv: KeyValues, checked: map<nat, Hash32>,
                             hist: seq<SequencerInboxBatch>, msgs: seq<MessageWithBlockInfo>)
    requires PipelineInv(keccak, codec, kv, checked, hist) && msgs != []
    ensures LongLog(keccak, AppendAt(kv, MessageCount(kv), msgs), |hist|, checked)
    ensures Stranded(AppendAt(kv, MessageCount(kv), msgs), |hist|)
  {
    hide PipelineInv, Inv, Clean, LogInv, StrictCounts, AppendAt, LongLog, Stranded, MetaAfter, MessageCount, Leaves;
    Explained(keccak, codec, kv, checked, hist);
    AppendLeaves(keccak, kv, |hist|, checked, msgs);
    LeftLogIsLong(keccak, kv, |hist|, checked, AppendAt(kv, MessageCount(kv), msgs), |hist|);
    LongLogIsStranded(keccak, AppendAt(kv, MessageCount(kv), msgs), |hist|, checked);
  }

  /** After a rollback to fewer batches: the log keeps their messages. */
  lemma BatchRollbackStrands(keccak: Keccak, codec: Codec, kv: KeyValues, checked: map<nat, Hash32>,
                             hist: seq<SequencerInboxBatch>, count: nat)
    requires PipelineInv(keccak, codec, kv, checked, hist) && count < |hist|
    ensures LongLog(keccak, ReorgBatches(kv, count), count, checked) && Stranded(ReorgBatches(kv, count), count)
  {
    hide PipelineInv, Inv, Clean, LogInv, StrictCounts, ReorgBatches, LongLog, Stranded, MetaAfter, Leaves;
    Explained(keccak, codec, kv, checked, hist);
    BatchRollbackLeaves(keccak, kv, |hist|, checked, count);
    LeftLogIsLong(keccak, kv, |hist|, checked, ReorgBatches(kv, count), count);
    LongLogIsStranded(keccak, ReorgBatches(kv, count), count, checked);
  }

  /** After a rollback of the delayed messages below what the last batch has read. */
  lemma DelayedRollbackStrands(keccak: Keccak, codec: Codec, kv: KeyValues, checked: map<nat, Hash32>,
                               hist: seq<SequencerInboxBatch>, n: nat)
    requires PipelineInv(keccak, codec, kv, checked, hist)
    requires NumberAt(kv, DelayedCountKey).Some? && n <= NumberAt(kv, DelayedCountKey).value
    ensures var f, s := ReorgDelayed(kv, n), Kept(kv, |hist|, n);
            n < DelayedAfter(kv, |hist|) ==> s < |hist| && LongLog(keccak, f, s, checked) && Stranded(f, s)
  {
    hide PipelineInv, Inv, Clean, LogInv, StrictCounts, ReorgDelayed, LongLog, Stranded, MetaAfter, DelayedAfter,
         Leaves, Kept;
    if n < DelayedAfter(kv, |hist|) {
      var f, s := ReorgDelayed(kv, n), Kept(kv, |hist|, n);
      Explained(keccak, codec, kv, checked, hist);
      InvFacts(keccak, codec, kv, checked, hist, n);
      DelayedRollbackLeaves(keccak, kv, |hist|, checked, n);
      LeftLogIsLong(keccak, kv, |hist|, checked, f, s);
      LongLogIsStranded(keccak, f, s, checked);
    }
  }

  /**
   After delayed messages are added again over some that a batch has read, as when the reader starts at the block of the
   last delayed message and fetches it with new ones: the batches that read them are dropped, their messages stay.
   */
  lemma ReAddStrands(keccak: Keccak, codec: Codec, kv: KeyValues, checked: map<nat, Hash32>,
                     hist: seq<SequencerInboxBatch>, msgs: seq<DelayedInput>)
    requires PipelineInv(keccak, codec, kv, checked, hist) && msgs != [] && Accepts(keccak, kv, msgs)
    ensures var f, s := AddDelayed(kv, msgs), Kept(kv, |hist|, msgs[0].seqNum);
            msgs[0].seqNum < DelayedAfter(kv, |hist|) ==> s < |hist| && LongLog(keccak, f, s, checked) && Stranded(f, s)
  {
    hide PipelineInv, Inv, Clean, LogInv, StrictCounts, AddDelayed, LongLog, Stranded, MetaAfter, DelayedAfter,
         Leaves, Kept, Accepts;
    if msgs[0].seqNum < DelayedAfter(kv, |hist|) {
      var f, s := AddDelayed(kv, msgs), Kept(kv, |hist|, msgs[0].seqNum);
      Explained(keccak, codec, kv, checked, hist);
      InvFacts(keccak, codec, kv, checked, hist, msgs[0].seqNum);
      ArrivalLeaves(keccak, kv, |hist|, checked, msgs);
      LeftLogIsLong(keccak, kv, |hist|, checked, f, s);
      LongLogIsStranded(keccak, f, s, checked);
    }
  }

  /**
   Which windows are taken up when the log alone has been changed, by truncations, appends or both: one that begins
   where the log now ends, one whose first batch the log now ends in, and the first one if no batch is stored.
   */
  lemma ChangedLogPlan(keccak: Keccak, codec: Codec, kv: KeyValues, checked: map<nat, Hash32>,
                       hist: seq<SequencerInboxBatch>, g: KeyValues, first: nat)
    requires PipelineInv(keccak, codec, kv, checked, hist) && first <= |hist|
    requires SameOutsideLog(kv, g) && LogInv(g)
    ensures Searchable(g) && Looked(g, first) == g
    ensures var n, prev := MessageCount(g), MetaAfter(kv, first);
            PlanFor(g, first) ==
            if n == prev.messageCount then From(prev.delayedMessageCount)
            else if hist == [] || (first < |hist| && prev.messageCount < n < MessagesAfter(kv, first + 1))
            then From(ColdRead(g, prev)) else Skip
    ensures var count, read := NumberAt(g, DelayedCountKey), MetaAfter(kv, first).delayedMessageCount;
            && count.Some?
            && (read > 0 || count.value >= U64_LIMIT ==> ColdRead(g, MetaAfter(kv, first)) == read)
            && (read == 0 && count.value < U64_LIMIT ==> ColdRead(g, MetaAfter(kv, first)) == count.value)
  {
    hide PipelineInv, LogInv, MetaAfter, ReadMeta, DelayedInv, SequencedInv, CheckedInv, SameOutsideLog, SameDelayed,
         Clean, DelayedAfter, BatchInv;
    var c := |hist|;
    Explained(keccak, codec, kv, checked, hist);
    OutsideKeepsInv(keccak, kv, g, c, checked);
    HasCount(keccak, g);
    Strict(kv, c, g, c);
    OutsideIsSame(kv, g);
    assert SameRows(kv, g, BatchCountKey);
    CleanCount(kv, c);
    RepairedIsCount(g, c, c);
    SamePrevs(kv, c, g, first);
    if first < c {
      SamePrevs(kv, c, g, first + 1);
    }
  }

  /** In particular, after a truncation below the end of the batches the window that comes next is skipped. */
  lemma TruncationPlan(keccak: Keccak, codec: Codec, kv: KeyValues, checked: map<nat, Hash32>,
                       hist: seq<SequencerInboxBatch>, n: nat)
    requires PipelineInv(keccak, codec, kv, checked, hist) && n < MessageCount(kv)
    ensures var g := TruncateAt(kv, n);
            LogInv(g) && Searchable(g) && Looked(g, |hist|) == g && PlanFor(g, |hist|) == Skip
  {
    hide PipelineInv, LogInv, MetaAfter, TruncateAt, SameOutsideLog, PlanFor, Looked, Searchable;
    Explained(keccak, codec, kv, checked, hist);
    TruncateCuts(kv, n);
    TruncateOutside(kv, n);
    TruncatedCount(kv, n);
    FirstIsNothing(kv);
    ChangedLogPlan(keccak, codec, kv, checked, hist, TruncateAt(kv, n), |hist|);
  }

  lemma SamePrevs(kv: KeyValues, c: nat, g: KeyValues, i: nat)
    requires StrictCounts(g, c) && SameBatches(kv, g, c) && i <= c
    ensures MetaAfter(g, i) == MetaAfter(kv, i) && (i > 0 ==> ReadMeta(g, i - 1).Ok?)
  {
    hide MetaAfter, ReadMeta;
  }

  lemma CleanCount(kv: KeyValues, c: nat)
    requires Clean(kv, c)
    ensures NumberAt(kv, BatchCountKey) == Some(c)
  {
  }

  /** Windows inside what is already ingested are skipped too, and rightly so: nothing changes. */
  lemma OverlapIsSkipped(keccak: Keccak, codec: Codec, kv: KeyValues, checked: map<nat, Hash32>,
                         hist: seq<SequencerInboxBatch>, batches: seq<SequencerInboxBatch>, status: Status,
                         kv': KeyValues)
    requires PipelineInv(keccak, codec, kv, checked, hist)
    requires batches != [] && batches[0].sequenceNumber < |hist| && Followed(keccak, codec, kv, batches, status, kv')
    ensures status.Finished? && kv' == kv
  {
    hide PipelineInv, CaughtUp, IngestedFrom, PlanFor, Looked, Searchable;
    InvIsCaughtUp(keccak, codec, kv, checked, hist);
    CaughtUpSkips(kv, batches[0].sequenceNumber);
  }

  // ----- how long it stays so, and the way out

  datatype LongState = LongState(kv: KeyValues, s: nat)

  /** More delayed messages, fewer, fewer batches, or more messages in the log. */
  ghost predicate Change(keccak: Keccak, a: LongState, b: LongState) {
    || (exists msgs: seq<DelayedInput> :: msgs != [] && Accepts(keccak, a.kv, msgs)
                                          && b == LongState(AddDelayed(a.kv, msgs), Kept(a.kv, a.s, msgs[0].seqNum)))
    || (exists n: nat :: RollsDelayedBack(a, n, b))
    || (exists count: nat :: count <= a.s && b == LongState(ReorgBatches(a.kv, count), count))
    || (exists msgs: seq<MessageWithBlockInfo> :: b == LongState(AppendAt(a.kv, MessageCount(a.kv), msgs), a.s))
  }

  ghost predicate RollsDelayedBack(a: LongState, n: nat, b: LongState) {
    && NumberAt(a.kv, DelayedCountKey).Some? && n <= NumberAt(a.kv, DelayedCountKey).value
    && b == LongState(ReorgDelayed(a.kv, n), Kept(a.kv, a.s, n))
  }

  /** What happens to a stranded log: such changes, and ingests over stored batches. */
  ghost predicate LongStep(keccak: Keccak, codec: Codec, a: LongState, b: LongState) {
    || Change(keccak, a, b)
    || (exists batches: seq<SequencerInboxBatch>, status ::
          a.s > 0 && batches != [] && batches[0].sequenceNumber <= a.s && b.s == a.s
          && Followed(keccak, codec, a.kv, batches, status, b.kv))
  }

  lemma ChangeLeaves(keccak: Keccak, a: LongState, b: LongState, checked: map<nat, Hash32>)
    requires Inv(keccak, a.kv, a.s, checked) && Clean(a.kv, a.s) && LogInv(a.kv) && Change(keccak, a, b)
    ensures Leaves(keccak, a.kv, a.s, checked, b.kv, b.s)
  {
    hide Inv, Clean, LogInv, AddDelayed, ReorgDelayed, ReorgBatches, AppendAt, MetaAfter, Kept, Accepts, Leaves;
    var kv, s := a.kv, a.s;
    if msgs: seq<DelayedInput> :| msgs != [] && Accepts(keccak, kv, msgs)
                                  && b == LongState(AddDelayed(kv, msgs), Kept(kv, s, msgs[0].seqNum)) {
      ArrivalLeaves(keccak, kv, s, checked, msgs);
    } else if n: nat :| RollsDelayedBack(a, n, b) {
      DelayedRollbackLeaves(keccak, kv, s, checked, n);
    } else if count: nat :| count <= s && b == LongState(ReorgBatches(kv, count), count) {
      BatchRollbackLeaves(keccak, kv, s, checked, count);
    } else {
      var msgs: seq<MessageWithBlockInfo> :| b == LongState(AppendAt(kv, MessageCount(kv), msgs), s);
      AppendLeaves(keccak, kv, s, checked, msgs);
    }
  }

  lemma LongStepStays(keccak: Keccak, codec: Codec, a: LongState, b: LongState, checked: map<nat, Hash32>)
    requires LongLog(keccak, a.kv, a.s, checked) && LongStep(keccak, codec, a, b)
    ensures LogInv(a.kv) && Leaves(keccak, a.kv, a.s, checked, b.kv, b.s) && LongLog(keccak, b.kv, b.s, checked)
  {
    hide Inv, Clean, LogInv, Log, StrictCounts, Change, Followed, MetaAfter, Leaves, Stranded, MessageCount;
    if Change(keccak, a, b) {
      ChangeLeaves(keccak, a, b, checked);
      LeavesMore(keccak, a.kv, a.s, checked, b.kv, b.s);
      LeftLogIsLong(keccak, a.kv, a.s, checked, b.kv, b.s);
    } else {
      var batches: seq<SequencerInboxBatch>, status :|
        a.s > 0 && batches != [] && batches[0].sequenceNumber <= a.s && b.s == a.s
        && Followed(keccak, codec, a.kv, batches, status, b.kv);
      LongLogIsStranded(keccak, a.kv, a.s, checked);
      StrandedIngest(keccak, codec, a.kv, a.s, batches, status, b.kv);
      LeavesSame(keccak, a.kv, a.s, checked);
    }
  }

  lemma LeavesMore(keccak: Keccak, kv: KeyValues, c: nat, checked: map<nat, Hash32>, f: KeyValues, s: nat)
    requires LogInv(kv) && Leaves(keccak, kv, c, checked, f, s)
    ensures s <= c && MessageCount(kv) <= MessageCount(f) && MessagesAfter(f, s) == MessagesAfter(kv, s)
  {
    hide MetaAfter, Inv, Clean, Log, LogInv, EntryAt, DelayedAfter, ReadMeta;
    assert MetaAfter(f, s) == MetaAfter(kv, s);
  }

  /** Through a run of such steps, nothing is lost but the batches that are dropped. */
  lemma {:induction false} LongRunLeaves(keccak: Keccak, codec: Codec, run: seq<LongState>, checked: map<nat, Hash32>,
                                         n: nat)
    requires n < |run| && LongLog(keccak, run[0].kv, run[0].s, checked)
    requires forall i: nat | i + 1 < |run| :: LongStep(keccak, codec, run[i], run[i + 1])
    ensures LogInv(run[0].kv) && Leaves(keccak, run[0].kv, run[0].s, checked, run[n].kv, run[n].s)
    ensures LongLog(keccak, run[n].kv, run[n].s, checked)
  {
    hide Inv, Clean, LogInv, StrictCounts, MetaAfter, LongStep, Leaves;
    if n > 0 {
      LongRunLeaves(keccak, codec, run, checked, n - 1);
      assert LongStep(keccak, codec, run[n - 1], run[n - 1 + 1]);
      LongStepStays(keccak, codec, run[n - 1], run[n], checked);
      LeavesTwice(keccak, run[0].kv, run[0].s, checked, run[n - 1].kv, run[n - 1].s, run[n].kv, run[n].s);
    } else {
      LeavesSame(keccak, run[0].kv, run[0].s, checked);
    }
  }

  /**
   Once stranded, a log stays stranded for the batches still stored, through every run of arrivals and rollbacks of
   delayed messages, rollbacks of batches, appends, and ingests over stored batches.
   */
  lemma StaysStranded(keccak: Keccak, codec: Codec, run: seq<LongState>, checked: map<nat, Hash32>, n: nat)
    requires n < |run| && LongLog(keccak, run[0].kv, run[0].s, checked)
    requires forall i: nat | i + 1 < |run| :: LongStep(keccak, codec, run[i], run[i + 1])
    ensures LongLog(keccak, run[n].kv, run[n].s, checked) && Stranded(run[n].kv, run[n].s)
  {
    hide LongLog, LongStep, Stranded, Leaves, LogInv;
    LongRunLeaves(keccak, codec, run, checked, n);
    LongLogIsStranded(keccak, run[n].kv, run[n].s, checked);
  }

  /**
   The way out. However a log that the batches explained was stranded, and whatever has happened since: truncating it
   explains it again, by the batches still stored, if and only if it is cut at their message count.
   */
  lemma WayOut(keccak: Keccak, codec: Codec, kv: KeyValues, checked: map<nat, Hash32>, hist: seq<SequencerInboxBatch>,
               run: seq<LongState>, n: nat, cut: nat)
    requires PipelineInv(keccak, codec, kv, checked, hist) && n < |run|
    requires Change(keccak, LongState(kv, |hist|), run[0]) && LongLog(keccak, run[0].kv, run[0].s, checked)
    requires forall i: nat | i + 1 < |run| :: LongStep(keccak, codec, run[i], run[i + 1])
    requires cut <= MessageCount(run[n].kv)
    ensures var f, s := run[n].kv, run[n].s;
            s <= |hist|
            && (PipelineInv(keccak, codec, TruncateAt(f, cut), checked, hist[..s]) <==> cut == MessagesAfter(f, s))
  {
    hide PipelineInv, Inv, Clean, LogInv, LongLog, LongStep, Change, Leaves, TruncateAt, MetaAfter, MessageCount;
    var f, s := run[n].kv, run[n].s;
    Explained(keccak, codec, kv, checked, hist);
    ChangeLeaves(keccak, LongState(kv, |hist|), run[0], checked);
    LongRunLeaves(keccak, codec, run, checked, n);
    LeavesTwice(keccak, kv, |hist|, checked, run[0].kv, run[0].s, f, s);
    LeavesMore(keccak, kv, |hist|, checked, f, s);
    RewindIff(keccak, codec, kv, checked, hist, f, s, cut);
  }

  /**
   An ingest on a stranded log reports success: over stored batches without any change, over none after appending the
   drain of its window a second time, now from the current delayed count.
   */
  lemma StrandedIngest(keccak: Keccak, codec: Codec, kv: KeyValues, s: nat, batches: seq<SequencerInboxBatch>,
                       status: Status, kv': KeyValues)
    requires Stranded(kv, s) && batches != [] && batches[0].sequenceNumber <= s
    requires Followed(keccak, codec, kv, batches, status, kv')
    ensures s > 0 ==> status.Finished? && kv' == kv
    ensures s == 0 && status.Finished? && Drain(EnvOf(codec, kv), batches, ColdRead(kv, NO_META)).msgs != [] ==>
              && LogInv(kv')
              && Log(kv') == Log(kv) + StrippedAll(Drain(EnvOf(codec, kv), batches, ColdRead(kv, NO_META)).msgs)
  {
    hide LogInv, Log, Drain, JumpFree, AddOutcome, AddBatches, AppendAt, PlanFor, Looked, Searchable, ColdRead, EnvOf,
         LastStoredRead;
    var first := batches[0].sequenceNumber;
    assert Looked(kv, first) == kv;
    if s == 0 {
      var msgs := Drain(EnvOf(codec, kv), batches, ColdRead(kv, NO_META)).msgs;
      AppendExtends(kv, msgs);
      var a := AppendAt(kv, MessageCount(kv), msgs);
      var outcome := AddOutcome(keccak, codec, a, batches);
      if outcome.Some? {
        AddBatchesLog(a, first, outcome.value);
        SameLogSame(a, AddBatches(a, first, outcome.value));
      }
    }
  }
}
