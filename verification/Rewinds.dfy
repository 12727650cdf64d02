/**
 Rewinding. Nothing in the tracker rolls the log back when batches go; this says how far a caller has to truncate it,
 and what the log holds up to each batch.
 */
module Rewinds {
  import opened Basics
  import opened Message
  import opened SequencerMessages
  import opened DrainSpec
  import opened DrainProperties
  import opened Store
  import opened TrackerSpec
  import opened DelayedOps
  import opened BatchOps
  import opened StreamerSpec
  import opened Tracker
  import opened Ingest
  import opened Pipeline
  import opened EndToEnd

  // ----- what the log holds up to each batch

  /** The walk behind batch `k`, which announces the delayed count stored for it. */
  lemma ProducedWalk(codec: Codec, kv: KeyValues, hist: seq<SequencerInboxBatch>, k: nat)
    requires LogInv(kv) && k < |hist| && Produced(codec, kv, hist, k)
    ensures Parse(codec, hist[k].serialized).Ok?
    ensures var m, read := Parse(codec, hist[k].serialized).value, MetaAfter(kv, k).delayedMessageCount;
            var w := WalkBatch(EnvOf(codec, kv), m, Some(hist[k].blockHash), read);
            var lo, hi := MessagesAfter(kv, k), MessagesAfter(kv, k + 1);
            && m.afterDelayedMessages == DelayedAfter(kv, k + 1) && w.outcome.Done?
            && lo < hi <= MessageCount(kv) && Log(kv)[lo..hi] == StrippedAll(w.msgs)
  {
    hide Walk, Log, LogInv, MetaAfter, Parse;
  }

  lemma {:induction false} PlacedStripped(msgs: seq<MessageWithBlockInfo>)
    ensures Placed(StrippedAll(msgs)) == Placed(msgs)
  {
    if msgs != [] {
      PlacedStripped(msgs[1..]);
      assert StrippedAll(msgs)[1..] == StrippedAll(msgs[1..]);
    }
  }

  /** Up to batch `k` the log holds the delayed messages up to that batch's count, once each, in order. */
  lemma {:induction false} LogPlaces(keccak: Keccak, codec: Codec, kv: KeyValues, checked: map<nat, Hash32>,
                                     hist: seq<SequencerInboxBatch>, k: nat)
    requires PipelineInv(keccak, codec, kv, checked, hist) && k <= |hist|
    ensures MessagesAfter(kv, k) <= MessageCount(kv)
    ensures DelayedAvailable(EnvOf(codec, kv), 0, DelayedAfter(kv, k))
    ensures Placed(Log(kv)[..MessagesAfter(kv, k)]) == Range(EnvOf(codec, kv), 0, DelayedAfter(kv, k))
    decreases k
  {
    hide Inv, Clean, Produced, LogInv, Log, MetaAfter, Walk, Parse, Placed, Range, DelayedAvailable, EnvOf,
         LastStoredRead;
    var env := EnvOf(codec, kv);
    FirstIsNothing(kv);
    if k == 0 {
      NoRange(env, 0);
      PlacedNothing();
      assert Log(kv)[..0] == [];
    } else {
      LogPlaces(keccak, codec, kv, checked, hist, k - 1);
      assert Produced(codec, kv, hist, k - 1);
      ProducedWalk(codec, kv, hist, k - 1);
      EnvCodec(codec, kv);
      var m, read := Parse(codec, hist[k - 1].serialized).value, MetaAfter(kv, k - 1).delayedMessageCount;
      var w := WalkBatch(env, m, Some(hist[k - 1].blockHash), read);
      InvMonotone(keccak, kv, |hist|, checked, k - 1, k);
      NoRange(env, read);
      WalkPlaces(env, m, hist[k - 1].blockHash, 0, 0, 0, read, false);
      RangeSplits(env, 0, read, DelayedAfter(kv, k));
      PlacedStripped(w.msgs);
      Shown(kv, MessagesAfter(kv, k - 1), MessagesAfter(kv, k));
    }
  }

  lemma Shown(kv: KeyValues, lo: nat, hi: nat)
    requires LogInv(kv) && lo <= hi <= MessageCount(kv)
    ensures Placed(Log(kv)[..hi]) == Placed(Log(kv)[..lo]) + Placed(Log(kv)[lo..hi])
  {
    hide LogInv, Log;
    assert |Log(kv)| == MessageCount(kv);
    PlacedConcat(Log(kv)[..lo], Log(kv)[lo..hi]);
    assert Log(kv)[..hi] == Log(kv)[..lo] + Log(kv)[lo..hi];
  }

  lemma FirstIsNothing(kv: KeyValues)
    ensures MessagesAfter(kv, 0) == 0 && DelayedAfter(kv, 0) == 0
  {
  }

  lemma InvMonotone(keccak: Keccak, kv: KeyValues, c: nat, checked: map<nat, Hash32>, i: nat, j: nat)
    requires Inv(keccak, kv, c, checked) && i <= j <= c
    ensures DelayedAfter(kv, i) <= DelayedAfter(kv, j)
  {
    hide DelayedInv, SequencedInv, CheckedInv, DelayedAfter;
  }

  /** And its last message there carries that count. */
  lemma LogReads(keccak: Keccak, codec: Codec, kv: KeyValues, checked: map<nat, Hash32>, hist: seq<SequencerInboxBatch>,
                 k: nat)
    requires PipelineInv(keccak, codec, kv, checked, hist) && k <= |hist|
    ensures MessagesAfter(kv, k) <= MessageCount(kv)
    ensures LastRead(0, Log(kv)[..MessagesAfter(kv, k)]) == DelayedAfter(kv, k)
  {
    hide Inv, Clean, Produced, LogInv, Log, MetaAfter, Walk, Parse, EnvOf, LastStoredRead, Climbs;
    FirstIsNothing(kv);
    if k > 0 {
      assert Produced(codec, kv, hist, k - 1);
      ProducedWalk(codec, kv, hist, k - 1);
      var m, read := Parse(codec, hist[k - 1].serialized).value, MetaAfter(kv, k - 1).delayedMessageCount;
      var w := WalkBatch(EnvOf(codec, kv), m, Some(hist[k - 1].blockHash), read);
      InvMonotone(keccak, kv, |hist|, checked, k - 1, k);
      WalkClimbs(EnvOf(codec, kv), m, Some(hist[k - 1].blockHash), 0, 0, 0, read, false);
      var lo, hi := MessagesAfter(kv, k - 1), MessagesAfter(kv, k);
      assert |Log(kv)| == MessageCount(kv);
      assert Log(kv)[..hi][hi - 1] == Log(kv)[lo..hi][hi - 1 - lo] == Stripped(w.msgs[|w.msgs| - 1]);
    }
  }

  // ----- truncating the log to fewer batches

  lemma CleanOutside(kv: KeyValues, g: KeyValues, s: nat)
    requires Clean(kv, s) && SameOutsideLog(kv, g) && DelayedAfter(g, s) == DelayedAfter(kv, s)
    ensures Clean(g, s)
  {
    hide DelayedAfter, SameOutsideLog;
    OutsideIsSame(kv, g);
    assert SameRows(kv, g, BatchCountKey);
    forall d: nat | SequencedKey(d) in g
      ensures d <= DelayedAfter(g, s)
    {
      assert SameRows(kv, g, SequencedKey(d));
    }
  }

  /** A batch kept is still produced by the shorter log. */
  lemma KeptIsProduced(keccak: Keccak, codec: Codec, kv: KeyValues, checked: map<nat, Hash32>,
                       hist: seq<SequencerInboxBatch>, g: KeyValues, s: nat, k: nat)
    requires PipelineInv(keccak, codec, kv, checked, hist) && k < s <= |hist|
    requires LogInv(g) && Inv(keccak, g, s, checked) && SameBatches(kv, g, s)
    requires MessagesAfter(kv, s) <= MessageCount(kv) && Log(g) == Log(kv)[..MessagesAfter(kv, s)]
    requires forall i: nat | i < DelayedAfter(kv, s) :: EntryAt(g, i) == EntryAt(kv, i)
    ensures Produced(codec, g, hist[..s], k)
  {
    hide Inv, Clean, Produced, LogInv, Log, MetaAfter, EnvOf, EntryAt, LastStoredRead, StrictCounts;
    assert Produced(codec, kv, hist, k);
    InvIsCaughtUp(keccak, codec, kv, checked, hist);
    Rises(kv, |hist|, k + 1, s);
    CountOfBatch(codec, kv, hist, k);
    InvMonotone(keccak, kv, |hist|, checked, k + 1, s);
    InvDelayed(keccak, kv, |hist|, checked);
    InvDelayed(keccak, g, s, checked);
    InvReaches(keccak, g, s, checked);
    EnvAgrees(keccak, codec, kv, g, hist[k].afterDelayedCount);
    assert MetaAfter(g, k) == MetaAfter(kv, k) && MetaAfter(g, k + 1) == MetaAfter(kv, k + 1);
    assert |Log(kv)| == MessageCount(kv) && |Log(g)| == MessageCount(g);
    assert Log(g)[..MessagesAfter(kv, k + 1)] == Log(kv)[..MessagesAfter(kv, k + 1)];
    ProducedStays(codec, kv, g, hist, hist[..s], k);
  }

  lemma CountOfBatch(codec: Codec, kv: KeyValues, hist: seq<SequencerInboxBatch>, k: nat)
    requires LogInv(kv) && k < |hist| && Produced(codec, kv, hist, k)
    ensures hist[k].afterDelayedCount == DelayedAfter(kv, k + 1)
  {
    hide WalkOf, Log, LogInv, MetaAfter, Announces;
  }

  lemma Rises(kv: KeyValues, c: nat, i: nat, j: nat)
    requires CaughtUp(kv) && StoredBatches(kv) == c && i <= j <= c
    ensures MessagesAfter(kv, i) <= MessagesAfter(kv, j)
  {
    hide MetaAfter, LogInv, BatchInv;
  }

  lemma InvReaches(keccak: Keccak, kv: KeyValues, c: nat, checked: map<nat, Hash32>)
    requires Inv(keccak, kv, c, checked)
    ensures NumberAt(kv, DelayedCountKey).Some? && DelayedAfter(kv, c) <= NumberAt(kv, DelayedCountKey).value
  {
    hide BatchInv, SequencedInv, CheckedInv, DelayedAfter;
  }

  /** `f` is left of `kv` and its `c` batches: the first `s` of them, what they have read, and the log, maybe longer. */
  ghost predicate Leaves(keccak: Keccak, kv: KeyValues, c: nat, checked: map<nat, Hash32>, f: KeyValues, s: nat)
    requires LogInv(kv)
  {
    && s <= c && Inv(keccak, f, s, checked) && Clean(f, s) && SameBatches(kv, f, s)
    && (forall i: nat | i < DelayedAfter(kv, s) :: EntryAt(f, i) == EntryAt(kv, i))
    && LogInv(f) && MessageCount(kv) <= MessageCount(f) && Log(f)[..MessageCount(kv)] == Log(kv)
  }

  /**
   After any change that leaves the first `s` batches: truncating the log explains it by those batches if and only if it
   is cut at their message count.
   */
  lemma RewindIff(keccak: Keccak, codec: Codec, kv: KeyValues, checked: map<nat, Hash32>,
                  hist: seq<SequencerInboxBatch>, f: KeyValues, s: nat, n: nat)
    requires PipelineInv(keccak, codec, kv, checked, hist) && LogInv(kv)
    requires Leaves(keccak, kv, |hist|, checked, f, s) && n <= MessageCount(f)
    ensures PipelineInv(keccak, codec, TruncateAt(f, n), checked, hist[..s]) <==> n == MessagesAfter(kv, s)
  {
    hide Inv, Clean, Produced, LogInv, Log, MetaAfter, DelayedAfter, EntryAt, LastStoredRead, TruncateAt, SameLog,
         SameOutsideLog, SameDelayed;
    var g := TruncateAt(f, n);
    TruncateCuts(f, n);
    TruncateOutside(f, n);
    TruncatedCount(f, n);
    OutsideKeepsInv(keccak, f, g, s, checked);
    assert MetaAfter(g, s) == MetaAfter(f, s) == MetaAfter(kv, s);
    assert DelayedAfter(g, s) == DelayedAfter(f, s) == DelayedAfter(kv, s);
    CleanOutside(f, g, s);
    LogReads(keccak, codec, kv, checked, hist, s);
    if n == MessagesAfter(kv, s) {
      assert Log(f)[..n] == Log(f)[..MessageCount(kv)][..n] == Log(kv)[..n];
      LastOfLog(g);
      SameTwiceOver(kv, f, g, s);
      SameEntries(keccak, f, g, s, checked);
      forall k: nat | k < s
        ensures Produced(codec, g, hist[..s], k)
      {
        KeptIsProduced(keccak, codec, kv, checked, hist, g, s, k);
      }
      assert |hist[..s]| == s;
    }
  }

  lemma TruncatedCount(kv: KeyValues, n: nat)
    ensures MessageCount(TruncateAt(kv, n)) == n
  {
  }

  lemma SameTwiceOver(kv: KeyValues, f: KeyValues, g: KeyValues, s: nat)
    requires SameBatches(kv, f, s) && SameBatches(f, g, s)
    ensures SameBatches(kv, g, s)
  {
    hide MetaAfter, DelayedAfter, ReadMeta;
  }

  lemma SameEntries(keccak: Keccak, f: KeyValues, g: KeyValues, s: nat, checked: map<nat, Hash32>)
    requires Inv(keccak, f, s, checked) && SameDelayed(f, g)
    ensures forall i: nat :: EntryAt(g, i) == EntryAt(f, i)
  {
    hide EntryAt, AccAt, Inv;
    forall i: nat
      ensures EntryAt(g, i) == EntryAt(f, i)
    {
      assert SameRows(f, g, DelayedKey(i)) && SameRows(f, g, LegacyDelayedKey(i));
      SameEntry(keccak, f, g, i);
    }
  }

  // ----- the changes it applies to

  lemma ArrivalLeaves(keccak: Keccak, kv: KeyValues, c: nat, checked: map<nat, Hash32>, msgs: seq<DelayedInput>)
    requires Inv(keccak, kv, c, checked) && Clean(kv, c) && LogInv(kv) && msgs != [] && Accepts(keccak, kv, msgs)
    ensures Leaves(keccak, kv, c, checked, AddDelayed(kv, msgs), Kept(kv, c, msgs[0].seqNum))
  {
    hide Inv, Clean, MetaAfter, DelayedAfter, EntryAt, SameLog, Eager, CutDelayed, RollbackTo, Staged, Accepts,
         PutDelayed, LogInv, Log, MessageCount;
    var p := msgs[0].seqNum;
    var f, s, staged := AddDelayed(kv, msgs), Kept(kv, c, p), PutDelayed(Eager(kv, p), msgs);
    AddDelayedKeeps(keccak, kv, c, checked, msgs);
    AddedEntries(keccak, kv, msgs);
    assert DelayedAfter(f, s) == DelayedAfter(kv, s);
    KeptIsClean(keccak, kv, staged, c, checked, p, p + |msgs|);
    CutDelayedLog(kv, staged, p, p + |msgs|);
    SameLogSame(kv, f);
    WholeLogIs(kv);
  }

  lemma DelayedRollbackLeaves(keccak: Keccak, kv: KeyValues, c: nat, checked: map<nat, Hash32>, n: nat)
    requires Inv(keccak, kv, c, checked) && Clean(kv, c) && LogInv(kv)
    requires NumberAt(kv, DelayedCountKey).Some? && n <= NumberAt(kv, DelayedCountKey).value
    ensures Leaves(keccak, kv, c, checked, ReorgDelayed(kv, n), Kept(kv, c, n))
  {
    hide Inv, Clean, MetaAfter, DelayedAfter, EntryAt, SameLog, Eager, CutDelayed, RollbackTo, Staged, LogInv, Log,
         MessageCount;
    var f, s := ReorgDelayed(kv, n), Kept(kv, c, n);
    ReorgDelayedKeeps(keccak, kv, c, checked, n);
    StagedSame(Eager(kv, n), n);
    assert DelayedAfter(f, s) == DelayedAfter(kv, s);
    KeptIsClean(keccak, kv, Eager(kv, n), c, checked, n, n);
    CutDelayedLog(kv, Eager(kv, n), n, n);
    SameLogSame(kv, f);
    WholeLogIs(kv);
  }

  lemma BatchRollbackLeaves(keccak: Keccak, kv: KeyValues, c: nat, checked: map<nat, Hash32>, count: nat)
    requires Inv(keccak, kv, c, checked) && LogInv(kv) && count <= c
    ensures Leaves(keccak, kv, c, checked, ReorgBatches(kv, count), count)
  {
    hide Inv, Clean, ReorgBatches, MetaAfter, DelayedAfter, EntryAt, SameLog, Tidy, LogInv, Log, MessageCount,
         SameDelayed;
    var f := ReorgBatches(kv, count);
    ReorgBatchesRows(kv, count);
    ReorgBatchesKeeps(keccak, kv, c, checked, count, count);
    assert f[BatchCountKey := StoredNumber(count)] == f;
    TidyIsClean(f, count);
    SameEntries(keccak, kv, f, c, checked);
    SameLogSame(kv, f);
    WholeLogIs(kv);
  }

  lemma AppendLeaves(keccak: Keccak, kv: KeyValues, c: nat, checked: map<nat, Hash32>, msgs: seq<MessageWithBlockInfo>)
    requires Inv(keccak, kv, c, checked) && Clean(kv, c) && LogInv(kv)
    ensures Leaves(keccak, kv, c, checked, AppendAt(kv, MessageCount(kv), msgs), c)
    ensures MessageCount(AppendAt(kv, MessageCount(kv), msgs)) == MessageCount(kv) + |msgs|
  {
    hide Inv, Clean, MetaAfter, DelayedAfter, EntryAt, LogInv, Log, AppendAt, SameOutsideLog, SameDelayed;
    var f := AppendAt(kv, MessageCount(kv), msgs);
    AppendExtends(kv, msgs);
    AppendOutside(kv, MessageCount(kv), msgs);
    OutsideKeepsInv(keccak, kv, f, c, checked);
    assert DelayedAfter(f, c) == DelayedAfter(kv, c);
    CleanOutside(kv, f, c);
    SameEntries(keccak, kv, f, c, checked);
    WholeLogIs(kv);
    WholeLogIs(f);
  }

  lemma WholeLogIs(kv: KeyValues)
    requires LogInv(kv)
    ensures |Log(kv)| == MessageCount(kv) && Log(kv)[..MessageCount(kv)] == Log(kv)
  {
  }

  lemma LeavesSame(keccak: Keccak, kv: KeyValues, c: nat, checked: map<nat, Hash32>)
    requires Inv(keccak, kv, c, checked) && Clean(kv, c) && LogInv(kv)
    ensures Leaves(keccak, kv, c, checked, kv, c)
  {
    hide Inv, Clean, MetaAfter, DelayedAfter, EntryAt, LogInv, Log, ReadMeta;
    WholeLogIs(kv);
  }

  /** What is left of what is left. */
  lemma LeavesTwice(keccak: Keccak, kv: KeyValues, c: nat, checked: map<nat, Hash32>, f: KeyValues, s: nat,
                    g: KeyValues, t: nat)
    requires LogInv(kv) && Leaves(keccak, kv, c, checked, f, s) && Leaves(keccak, f, s, checked, g, t)
    ensures Leaves(keccak, kv, c, checked, g, t)
  {
    hide Inv, Clean, MetaAfter, DelayedAfter, EntryAt, LogInv, Log, ReadMeta;
    InvMonotone(keccak, f, s, checked, t, s);
    assert DelayedAfter(f, t) == DelayedAfter(kv, t) && DelayedAfter(f, s) == DelayedAfter(kv, s);
    assert Log(g)[..MessageCount(kv)] == Log(g)[..MessageCount(f)][..MessageCount(kv)];
  }

  lemma ReorgBatchesRows(kv: KeyValues, count: nat)
    ensures var f := ReorgBatches(kv, count);
            SameLog(kv, f) && NumberAt(f, BatchCountKey) == Some(count) && f[BatchCountKey := StoredNumber(count)] == f
  {
    hide DelayedAfter;
  }

  lemma TidyIsClean(f: KeyValues, c: nat)
    requires Tidy(f, c) && NumberAt(f, BatchCountKey) == Some(c)
    ensures Clean(f, c)
  {
    hide DelayedAfter;
  }

  /** A change of the delayed messages at `p` leaves no index row above the batches it keeps, and counts just those. */
  lemma KeptIsClean(keccak: Keccak, kv: KeyValues, staged: KeyValues, c: nat, checked: map<nat, Hash32>, p: nat, n: nat)
    requires Inv(keccak, kv, c, checked) && Clean(kv, c) && Staged(Eager(kv, p), staged, p, n)
    requires DelayedAfter(CutDelayed(kv, staged, p, n), Kept(kv, c, p)) == DelayedAfter(kv, Kept(kv, c, p))
    ensures Clean(CutDelayed(kv, staged, p, n), Kept(kv, c, p)) && DelayedAfter(kv, Kept(kv, c, p)) <= p
  {
    hide DelayedInv, CheckedInv, MetaAfter, DelayedAfter, CutDelayed, Eager, Staged, FirstAbove;
    var f, s := CutDelayed(kv, staged, p, n), Kept(kv, c, p);
    RollbackIsExact(kv, c, p);
    FirstAboveIs(kv, p);
    CutBatchRows(kv, staged, p, n);
    EagerIndex(kv, p);
    if FirstAbove(kv, p).Some? {
      assert RowNames(kv, c, FirstAbove(kv, p).value);
    }
    forall d: nat | SequencedKey(d) in f
      ensures d <= DelayedAfter(f, s)
    {
      assert SequencedKey(d) in kv && d <= p;
      assert RowNames(kv, c, d);
      var v := NumberAt(kv, SequencedKey(d)).value;
      Monotone(kv, s + 1, v + 1, c);
      Monotone(kv, v + 1, s, c);
    }
  }

  lemma EagerIndex(kv: KeyValues, p: nat)
    ensures forall d: nat :: SequencedKey(d) in Eager(kv, p) <==> SequencedKey(d) in kv
  {
    hide RollbackTo;
  }

  lemma StagedSame(kv: KeyValues, n: nat)
    ensures Staged(kv, kv, n, n)
  {
  }

  /** What `ReorgBatchesToDb` returns is exactly where the log has to be cut. */
  lemma BatchRewindIff(keccak: Keccak, codec: Codec, kv: KeyValues, checked: map<nat, Hash32>,
                       hist: seq<SequencerInboxBatch>, count: nat, n: nat)
    requires PipelineInv(keccak, codec, kv, checked, hist) && count <= |hist| && n <= MessageCount(kv)
    ensures PipelineInv(keccak, codec, TruncateAt(ReorgBatches(kv, count), n), checked, hist[..count])
       <==> n == MessagesAfter(kv, count)
  {
    hide Inv, Clean, PipelineInv, ReorgBatches, MetaAfter, TruncateAt;
    PipelineParts(keccak, codec, kv, checked, hist);
    BatchRollbackLeaves(keccak, kv, |hist|, checked, count);
    RewindIff(keccak, codec, kv, checked, hist, ReorgBatches(kv, count), count, n);
  }

  /** A delayed rollback with the log cut at the message count of the batches it keeps. */
  lemma DelayedRewindIff(keccak: Keccak, codec: Codec, kv: KeyValues, checked: map<nat, Hash32>,
                         hist: seq<SequencerInboxBatch>, m: nat, n: nat)
    requires PipelineInv(keccak, codec, kv, checked, hist) && n <= MessageCount(kv)
    requires NumberAt(kv, DelayedCountKey).Some? && m <= NumberAt(kv, DelayedCountKey).value
    ensures var s := Kept(kv, |hist|, m);
            s <= |hist|
            && (PipelineInv(keccak, codec, TruncateAt(ReorgDelayed(kv, m), n), checked, hist[..s])
                <==> n == MessagesAfter(kv, s))
  {
    hide Inv, Clean, PipelineInv, ReorgDelayed, MetaAfter, TruncateAt;
    PipelineParts(keccak, codec, kv, checked, hist);
    DelayedRollbackLeaves(keccak, kv, |hist|, checked, m);
    RewindIff(keccak, codec, kv, checked, hist, ReorgDelayed(kv, m), Kept(kv, |hist|, m), n);
  }

  /** An addition of delayed messages, likewise. */
  lemma ArrivalRewindIff(keccak: Keccak, codec: Codec, kv: KeyValues, checked: map<nat, Hash32>,
                         hist: seq<SequencerInboxBatch>, msgs: seq<DelayedInput>, n: nat)
    requires PipelineInv(keccak, codec, kv, checked, hist) && n <= MessageCount(kv)
    requires msgs != [] && Accepts(keccak, kv, msgs)
    ensures var s := Kept(kv, |hist|, msgs[0].seqNum);
            s <= |hist|
            && (PipelineInv(keccak, codec, TruncateAt(AddDelayed(kv, msgs), n), checked, hist[..s])
                <==> n == MessagesAfter(kv, s))
  {
    hide Inv, Clean, PipelineInv, AddDelayed, Accepts, MetaAfter, TruncateAt;
    PipelineParts(keccak, codec, kv, checked, hist);
    ArrivalLeaves(keccak, kv, |hist|, checked, msgs);
    RewindIff(keccak, codec, kv, checked, hist, AddDelayed(kv, msgs), Kept(kv, |hist|, msgs[0].seqNum), n);
  }
}
