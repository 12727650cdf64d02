/**
 Crashes. An operation of the tracker commits once or twice, and a crash keeps some of its commits;
 every store this can ever leave is sound, and counting and adding put it right.
 */
module Recovery {
  import opened Basics
  import opened L1Message
  import opened SequencerMessages
  import opened DrainSpec
  import opened Store
  import opened TrackerSpec
  import opened DelayedOps
  import opened BatchOps
  import opened Tracker

  datatype Operation =
    | AddDelayedOp(msgs: seq<DelayedInput>)
    | ReorgDelayedOp(delayedCount: nat)
    | AddBatchesOp(batches: seq<SequencerInboxBatch>)
    | ReorgBatchesOp(batchCount: nat)
    | CountOp

  /** The stores that an operation commits in turn; one that fails its checks commits nothing. */
  ghost function Commits(keccak: Keccak, codec: Codec, kv: KeyValues, op: Operation): seq<KeyValues> {
    match op
    case AddDelayedOp(msgs) =>
      if msgs == [] || !Accepts(keccak, kv, msgs) then [] else
        EagerCommits(kv, msgs[0].seqNum) + [AddDelayed(kv, msgs)]
    case ReorgDelayedOp(n) =>
      if !SequencedReadable(kv, n) then [] else EagerCommits(kv, n) + [ReorgDelayed(kv, n)]
    case AddBatchesOp(batches) =>
      if batches == [] || AddOutcome(keccak, codec, kv, batches).None? then [] else
        var first := batches[0].sequenceNumber;
        [DropFrom(kv, BatchMetaTable, first + |batches|),
         AddBatches(kv, first, AddOutcome(keccak, codec, kv, batches).value)]
    case ReorgBatchesOp(count) =>
      if count > 0 && ReadMeta(kv, count - 1).Err? then [] else
        [DropFrom(kv, BatchMetaTable, count), ReorgBatches(kv, count)]
    case CountOp =>
      if WithRepairedCount(kv) == kv then [] else [WithRepairedCount(kv)]
  }

  /** The tracker's methods commit exactly these stores, in this order, and end with the last of them. */
  method Perform(tracker: InboxTracker, op: Operation)
    requires tracker.Coherent()
    modifies tracker.db, tracker`cache
    ensures tracker.Coherent()
    ensures var commits := Commits(tracker.keccak, tracker.codec, old(tracker.db.kv), op);
            && tracker.db.commits == old(tracker.db.commits) + commits
            && tracker.db.kv == (if commits == [] then old(tracker.db.kv) else commits[|commits| - 1])
  {
    hide Accepts, AddDelayed, ReorgDelayed, EagerCommits, AddOutcome, AddBatches, ReorgBatches, WithRepairedCount,
         DropFrom, SequencedReadable, ReadMeta;
    match op
    case AddDelayedOp(msgs) => var _ := tracker.AddDelayedMessages(msgs);
    case ReorgDelayedOp(n) => var _ := tracker.ReorgDelayedTo(n);
    case AddBatchesOp(batches) => var _ := tracker.AddSequencerBatches(batches);
    case ReorgBatchesOp(count) => var _ := tracker.ReorgBatchesToDb(count);
    case CountOp => var _ := tracker.GetBatchCount();
  }

  /** What callers owe: no rollback above the current count, and delayed counts that do not fall. */
  ghost predicate Allowed(keccak: Keccak, codec: Codec, kv: KeyValues, op: Operation) {
    match op
    case ReorgDelayedOp(n) => NumberAt(kv, DelayedCountKey).Some? && n <= NumberAt(kv, DelayedCountKey).value
    case AddBatchesOp(batches) =>
      batches != [] && AddOutcome(keccak, codec, kv, batches).Some? ==>
        NonDecreasing(DelayedAfter(kv, batches[0].sequenceNumber), AddOutcome(keccak, codec, kv, batches).value)
    case _ => true
  }

  /** A store with the number of batches it holds and the delayed accumulators those were checked against. */
  datatype Checkpoint = Checkpoint(kv: KeyValues, c: nat, checked: map<nat, Hash32>)

  ghost predicate Sound(keccak: Keccak, s: Checkpoint) {
    Inv(keccak, s.kv, s.c, s.checked)
  }

  /**
   The first commit of a change of the delayed messages at `p` removes batches, and keeps what the others were checked
   against.
   */
  ghost function EagerPoints(s: Checkpoint, p: nat): seq<Checkpoint> {
    if RollbackTo(s.kv, p).Some? then [Checkpoint(Eager(s.kv, p), Kept(s.kv, s.c, p), s.checked)] else []
  }

  /**
   The same commits with what becomes of the batches and their accumulators: removed batches leave the count, and only
   the commit that completes an add records new accumulators, namely those its batches were checked against.
   */
  ghost function Points(keccak: Keccak, codec: Codec, s: Checkpoint, op: Operation): seq<Checkpoint> {
    match op
    case AddDelayedOp(msgs) =>
      if msgs == [] || !Accepts(keccak, s.kv, msgs) then [] else
        EagerPoints(s, msgs[0].seqNum)
        + [Checkpoint(AddDelayed(s.kv, msgs), Kept(s.kv, s.c, msgs[0].seqNum), s.checked)]
    case ReorgDelayedOp(n) =>
      if !SequencedReadable(s.kv, n) then [] else
        EagerPoints(s, n) + [Checkpoint(ReorgDelayed(s.kv, n), Kept(s.kv, s.c, n), s.checked)]
    case AddBatchesOp(batches) =>
      if batches == [] || AddOutcome(keccak, codec, s.kv, batches).None? then [] else
        var first, n := batches[0].sequenceNumber, batches[0].sequenceNumber + |batches|;
        [Checkpoint(DropFrom(s.kv, BatchMetaTable, n), Min(n, s.c), s.checked),
         Checkpoint(AddBatches(s.kv, first, AddOutcome(keccak, codec, s.kv, batches).value), n,
                    Record(s.checked, first, batches))]
    case ReorgBatchesOp(count) =>
      if count > 0 && ReadMeta(s.kv, count - 1).Err? then [] else
        [Checkpoint(DropFrom(s.kv, BatchMetaTable, count), Min(count, s.c), s.checked),
         Checkpoint(ReorgBatches(s.kv, count), Min(count, s.c), s.checked)]
    case CountOp =>
      if WithRepairedCount(s.kv) == s.kv then [] else [Checkpoint(WithRepairedCount(s.kv), s.c, s.checked)]
  }

  /** Their stores are the ones the tracker commits, in order. */
  lemma PointsAreCommits(keccak: Keccak, codec: Codec, s: Checkpoint, op: Operation)
    ensures var points, commits := Points(keccak, codec, s, op), Commits(keccak, codec, s.kv, op);
            |points| == |commits| && forall i | 0 <= i < |points| :: points[i].kv == commits[i]
  {
    hide Accepts, AddDelayed, ReorgDelayed, Eager, RollbackTo, Kept, AddOutcome, AddBatches, ReorgBatches,
         WithRepairedCount, DropFrom, SequencedReadable, ReadMeta, Record;
  }

  // ----- each commit of each operation

  lemma EagerSound(keccak: Keccak, s: Checkpoint, p: nat)
    requires Sound(keccak, s)
    ensures forall e | e in EagerPoints(s, p) :: Sound(keccak, e)
  {
    hide Inv, Eager, RollbackTo, Kept, SameBatches, SameDelayed;
    EagerKeeps(keccak, s.kv, s.c, s.checked, p);
  }

  lemma AddDelayedSound(keccak: Keccak, s: Checkpoint, msgs: seq<DelayedInput>)
    requires Sound(keccak, s) && msgs != [] && Accepts(keccak, s.kv, msgs)
    ensures Inv(keccak, AddDelayed(s.kv, msgs), Kept(s.kv, s.c, msgs[0].seqNum), s.checked)
  {
    hide Inv, Accepts, AddDelayed, Kept, SameBatches, EntryAt;
    AddDelayedKeeps(keccak, s.kv, s.c, s.checked, msgs);
  }

  lemma ReorgDelayedSound(keccak: Keccak, s: Checkpoint, n: nat)
    requires Sound(keccak, s) && n <= NumberAt(s.kv, DelayedCountKey).value
    ensures Inv(keccak, ReorgDelayed(s.kv, n), Kept(s.kv, s.c, n), s.checked)
  {
    hide Inv, ReorgDelayed, Kept, SameBatches, EntryAt;
    ReorgDelayedKeeps(keccak, s.kv, s.c, s.checked, n);
  }

  lemma DropSound(keccak: Keccak, s: Checkpoint, b: nat)
    requires Sound(keccak, s)
    ensures Inv(keccak, DropFrom(s.kv, BatchMetaTable, b), Min(b, s.c), s.checked)
  {
    hide Inv, SameBatches, SameDelayed;
    DropMetasKeeps(keccak, s.kv, s.c, s.checked, b);
  }

  lemma ReorgBatchesSound(keccak: Keccak, s: Checkpoint, count: nat)
    requires Sound(keccak, s) && (count == 0 || ReadMeta(s.kv, count - 1).Ok?)
    ensures count <= s.c && Inv(keccak, ReorgBatches(s.kv, count), count, s.checked)
  {
    hide Inv, SameBatches, SameDelayed, DelayedAfter, Tidy;
    MetaIsCounted(keccak, s.kv, s.c, s.checked, count);
    ReorgBatchesKeeps(keccak, s.kv, s.c, s.checked, count, count);
    assert ReorgBatches(s.kv, count)[BatchCountKey := StoredNumber(count)] == ReorgBatches(s.kv, count);
  }

  lemma MetaIsCounted(keccak: Keccak, kv: KeyValues, c: nat, checked: map<nat, Hash32>, count: nat)
    requires Inv(keccak, kv, c, checked) && (count == 0 || ReadMeta(kv, count - 1).Ok?)
    ensures count <= c
  {
    hide DelayedInv, SequencedInv, CheckedInv, DelayedAfter;
    if count > 0 {
      assert MetaKey(count - 1) in kv;
    }
  }

  /** A successful add, on any sound store, ends with nothing to repair and nothing left over. */
  lemma AddBatchesSound(keccak: Keccak, codec: Codec, kv: KeyValues, c: nat, checked: map<nat, Hash32>,
                        batches: seq<SequencerInboxBatch>)
    requires Inv(keccak, kv, c, checked) && batches != [] && AddOutcome(keccak, codec, kv, batches).Some?
    requires Allowed(keccak, codec, kv, AddBatchesOp(batches))
    ensures var pos, metas := batches[0].sequenceNumber, AddOutcome(keccak, codec, kv, batches).value;
            var f, n := AddBatches(kv, pos, metas), pos + |batches|;
            && pos <= c && Inv(keccak, f, n, Record(checked, pos, batches)) && Clean(f, n)
            && SameBatches(kv, f, pos) && |metas| == |batches|
  {
    hide Inv, SameBatches, SameDelayed, DelayedAfter, Clean, AddBatches, BatchesCheckOut, MetasFor, NonDecreasing,
         AccAt, Holds, MetaAfter, ReadMeta, Recorded, Record;
    var pos, metas := batches[0].sequenceNumber, AddOutcome(keccak, codec, kv, batches).value;
    MetaIsCounted(keccak, kv, c, checked, pos);
    RecordIsRecorded(keccak, codec, kv, checked, MetaAfter(kv, pos).accumulator, pos, MetaAfter(kv, pos), batches);
    AddBatchesKeeps(keccak, kv, c, checked, Record(checked, pos, batches), pos, metas);
  }

  lemma CountSound(keccak: Keccak, kv: KeyValues, c: nat, checked: map<nat, Hash32>)
    requires Inv(keccak, kv, c, checked)
    ensures Inv(keccak, WithRepairedCount(kv), c, checked)
    ensures NumberAt(WithRepairedCount(kv), BatchCountKey) == Some(c)
  {
    hide DelayedInv, SequencedInv, CheckedInv, DelayedAfter, SameBatches, Repaired;
    RepairedIsCount(kv, c, NumberAt(kv, BatchCountKey).value);
    RepairKeeps(keccak, kv, c, checked);
  }

  /**
   Every commit of every allowed operation on a sound store leaves a sound store, its batches as they were checked.
   */
  lemma CommitsAreSound(keccak: Keccak, codec: Codec, s: Checkpoint, op: Operation)
    requires Sound(keccak, s) && Allowed(keccak, codec, s.kv, op)
    ensures forall f | f in Points(keccak, codec, s, op) :: Sound(keccak, f)
  {
    hide Inv, Accepts, AddDelayed, ReorgDelayed, EagerPoints, AddOutcome, AddBatches, ReorgBatches, WithRepairedCount,
         DropFrom, SequencedReadable, ReadMeta, NonDecreasing, DelayedAfter, SameBatches, Clean, Record, Kept;
    match op
    case AddDelayedOp(msgs) =>
      if msgs != [] && Accepts(keccak, s.kv, msgs) {
        EagerSound(keccak, s, msgs[0].seqNum);
        AddDelayedSound(keccak, s, msgs);
      }
    case ReorgDelayedOp(n) =>
      EagerSound(keccak, s, n);
      ReorgDelayedSound(keccak, s, n);
    case AddBatchesOp(batches) =>
      if batches != [] && AddOutcome(keccak, codec, s.kv, batches).Some? {
        DropSound(keccak, s, batches[0].sequenceNumber + |batches|);
        AddBatchesSound(keccak, codec, s.kv, s.c, s.checked, batches);
      }
    case ReorgBatchesOp(count) =>
      DropSound(keccak, s, count);
      if count == 0 || ReadMeta(s.kv, count - 1).Ok? {
        ReorgBatchesSound(keccak, s, count);
      }
    case CountOp => CountSound(keccak, s.kv, s.c, s.checked);
  }

  // ----- runs with crashes anywhere

  /** One operation begun in `s`; a crash, or its end, leaves `s'`. */
  ghost predicate CrashStep(keccak: Keccak, codec: Codec, s: Checkpoint, s': Checkpoint) {
    exists op :: Allowed(keccak, codec, s.kv, op) && (s' == s || s' in Points(keccak, codec, s, op))
  }

  ghost predicate CrashRun(keccak: Keccak, codec: Codec, run: seq<Checkpoint>) {
    && run != [] && Sound(keccak, run[0])
    && forall i: nat | i + 1 < |run| :: CrashStep(keccak, codec, run[i], run[i + 1])
  }

  /**
   However often and wherever a run is interrupted, what it leaves is sound: in particular every batch left still
   matches the delayed accumulator it was checked against when it was added.
   */
  lemma {:induction false} CrashRunsAreSound(keccak: Keccak, codec: Codec, run: seq<Checkpoint>, n: nat)
    requires CrashRun(keccak, codec, run) && n < |run|
    ensures Inv(keccak, run[n].kv, run[n].c, run[n].checked)
  {
    hide Inv, Points, Allowed;
    if n > 0 {
      CrashRunsAreSound(keccak, codec, run, n - 1);
      assert CrashStep(keccak, codec, run[n - 1], run[n - 1 + 1]);
      var op :| Allowed(keccak, codec, run[n - 1].kv, op)
                && (run[n] == run[n - 1] || run[n] in Points(keccak, codec, run[n - 1], op));
      CommitsAreSound(keccak, codec, run[n - 1], op);
    }
  }

  /**
   Restarting on a sound store: the count comes out as the number of batches with metadata, and every
   index row left over lies above the last batch's delayed count, where it cannot mislead.
   */
  lemma RestartRecovers(keccak: Keccak, kv: KeyValues, c: nat, checked: map<nat, Hash32>)
    requires Inv(keccak, kv, c, checked)
    ensures Repaired(kv, NumberAt(kv, BatchCountKey).value) == c
    ensures forall i: nat :: MetaKey(i) in kv <==> i < c
    ensures forall d: nat | SequencedKey(d) in kv && NumberAt(kv, SequencedKey(d)).value >= c :: d > DelayedAfter(kv, c)
    ensures forall d: nat | SequencedKey(d) in kv && d <= DelayedAfter(kv, c) :: NumberAt(kv, SequencedKey(d)).value < c
  {
    hide DelayedInv, CheckedInv, DelayedAfter;
    RepairedIsCount(kv, c, NumberAt(kv, BatchCountKey).value);
    forall d: nat | SequencedKey(d) in kv
      ensures NumberAt(kv, SequencedKey(d)).value >= c ==> d > DelayedAfter(kv, c)
      ensures d <= DelayedAfter(kv, c) ==> NumberAt(kv, SequencedKey(d)).value < c
    {
      assert RowNames(kv, c, d);
    }
  }

  /** A crash between the two commits leaves a prefix of the batches that were there, and nothing else changed. */
  lemma CrashBetweenKeepsPrefix(keccak: Keccak, codec: Codec, kv: KeyValues, c: nat, checked: map<nat, Hash32>,
                                op: Operation)
    requires Inv(keccak, kv, c, checked) && |Commits(keccak, codec, kv, op)| == 2
    ensures exists b: nat | b <= c ::
              && Inv(keccak, Commits(keccak, codec, kv, op)[0], b, checked)
              && SameBatches(kv, Commits(keccak, codec, kv, op)[0], b)
              && SameDelayed(kv, Commits(keccak, codec, kv, op)[0])
  {
    hide Inv, Accepts, AddDelayed, ReorgDelayed, AddOutcome, AddBatches, ReorgBatches, WithRepairedCount, DropFrom,
         SequencedReadable, ReadMeta, SameBatches, SameDelayed, Eager, RollbackTo, Kept;
    var first := Commits(keccak, codec, kv, op)[0];
    match op
    case AddDelayedOp(msgs) =>
      EagerIsPrefix(keccak, kv, c, checked, msgs[0].seqNum);
      assert first == Eager(kv, msgs[0].seqNum);
    case ReorgDelayedOp(n) =>
      EagerIsPrefix(keccak, kv, c, checked, n);
      assert first == Eager(kv, n);
    case AddBatchesOp(batches) =>
      DropIsPrefix(keccak, kv, c, checked, batches[0].sequenceNumber + |batches|);
      assert first == DropFrom(kv, BatchMetaTable, batches[0].sequenceNumber + |batches|);
    case ReorgBatchesOp(count) =>
      DropIsPrefix(keccak, kv, c, checked, count);
      assert first == DropFrom(kv, BatchMetaTable, count);
    case CountOp =>
  }

  lemma DropIsPrefix(keccak: Keccak, kv: KeyValues, c: nat, checked: map<nat, Hash32>, n: nat)
    requires Inv(keccak, kv, c, checked)
    ensures exists b: nat | b <= c ::
              && Inv(keccak, DropFrom(kv, BatchMetaTable, n), b, checked)
              && SameBatches(kv, DropFrom(kv, BatchMetaTable, n), b) && SameDelayed(kv, DropFrom(kv, BatchMetaTable, n))
  {
    hide Inv, SameBatches, SameDelayed, DropFrom;
    DropMetasKeeps(keccak, kv, c, checked, n);
    var b := Min(n, c);
    assert b <= c;
  }

  lemma EagerIsPrefix(keccak: Keccak, kv: KeyValues, c: nat, checked: map<nat, Hash32>, p: nat)
    requires Inv(keccak, kv, c, checked)
    ensures exists b: nat | b <= c ::
              Inv(keccak, Eager(kv, p), b, checked) && SameBatches(kv, Eager(kv, p), b) && SameDelayed(kv, Eager(kv, p))
  {
    hide Inv, SameBatches, SameDelayed, Eager, RollbackTo;
    EagerKeeps(keccak, kv, c, checked, p);
    var b := Kept(kv, c, p);
    assert b <= c;
  }

  // ----- what the argument rests on

  /** The store after the first operation only of an append's write batch. */
  function FirstPut(kv: KeyValues, msg: DelayedInput): KeyValues {
    Apply(kv, [Op.Put(DelayedKey(msg.seqNum), StoredDelayed(msg.beforeAcc, msg.bytes))])
  }

  lemma FirstPutIs(kv: KeyValues, msg: DelayedInput)
    ensures FirstPut(kv, msg) == kv[DelayedKey(msg.seqNum) := StoredDelayed(msg.beforeAcc, msg.bytes)]
  {
    var op := Op.Put(DelayedKey(msg.seqNum), StoredDelayed(msg.beforeAcc, msg.bytes));
    ApplyLast(kv, [], op);
    assert [] + [op] == [op];
  }

  /** The append stages its messages in order, so that is one of the stores a write that stops half-way leaves. */
  lemma FirstPutIsStaged(kv: KeyValues, msgs: seq<DelayedInput>)
    requires msgs != []
    ensures FirstPut(kv, msgs[0]) == PutDelayed(kv, msgs[..1])
  {
    FirstPutIs(kv, msgs[0]);
    assert msgs[..1][..0] == [];
  }

  ghost predicate Broken(keccak: Keccak, kv: KeyValues, c: nat) {
    forall checked: map<nat, Hash32> :: !Inv(keccak, kv, c, checked)
  }

  /** The batch that counts a stray message at position `n` in. */
  function StrayBatch(keccak: Keccak, part: KeyValues, c: nat, n: u64): seq<SequencerInboxBatch> {
    PlainBatches(keccak, part, c, MetaAfter(part, c).accumulator, [n])
  }

  /** The batch is accepted, and the result counts one delayed message more than there are. */
  ghost predicate BreaksWhenAdded(keccak: Keccak, codec: Codec, kv: KeyValues, c: nat,
                                  batches: seq<SequencerInboxBatch>, n: nat)
    requires batches != []
  {
    var outcome := AddOutcome(keccak, codec, kv, batches);
    && outcome.Some?
    && var f := AddBatches(kv, c, outcome.value);
       DelayedAfter(f, c + 1) == n + 1 && NumberAt(f, DelayedCountKey) == Some(n) && Broken(keccak, f, c + 1)
  }

  /**
   Every operation relies on its write batch being atomic. After the first put alone of an append at the end, the
   tracker accepts a batch that counts the stray message in, and stores it with a delayed count above the number of
   delayed messages: no invariant holds any more. Before that put the same batch was refused.
   */
  lemma PartOfABatchBreaks(keccak: Keccak, codec: Codec, kv: KeyValues, c: nat, checked: map<nat, Hash32>,
                           msgs: seq<DelayedInput>)
    requires Inv(keccak, kv, c, checked) && msgs != [] && Accepts(keccak, kv, msgs)
    requires Some(msgs[0].seqNum) == NumberAt(kv, DelayedCountKey) && msgs[0].seqNum + 1 < U64_LIMIT
    ensures var part, n := FirstPut(kv, msgs[0]), msgs[0].seqNum;
            var batches := StrayBatch(keccak, part, c, n + 1);
            && part == PutDelayed(kv, msgs[..1])
            && |batches| == 1 && batches[0].sequenceNumber == c && batches[0].afterDelayedCount == n + 1
            && AddOutcome(keccak, codec, kv, batches).None?
            && BreaksWhenAdded(keccak, codec, part, c, batches, n)
  {
    hide Inv, ChecksOut, AccumulatorAfter, SequencedReadable, AccAt, BatchesCheckOut, MetasFor, PlainBatches, MetaAfter,
         DelayedInv, ReadMeta, FirstPut, PutDelayed, Accepts, AddBatches, Broken, DelayedAfter;
    var n, part := msgs[0].seqNum, FirstPut(kv, msgs[0]);
    var prev := MetaAfter(part, c);
    var batches := StrayBatch(keccak, part, c, n + 1);
    FirstPutIsStaged(kv, msgs);
    InvDelayed(keccak, kv, c, checked);
    StrayEntry(keccak, kv, msgs);
    PlainBatchesCheckOut(keccak, codec, part, c, prev, [n + 1]);
    CheckedChain(keccak, part, prev.accumulator, c, batches, 0);
    StrayMetas(keccak, kv, c, checked, msgs[0]);
    if BatchesCheckOut(keccak, kv, prev.accumulator, c, batches) {
      CheckedAt(keccak, kv, prev.accumulator, c, batches, 0);
    }
    MetasForLength(codec, prev, batches);
    MetasForDelayed(codec, prev, batches, 0);
    AddedCounts(keccak, part, c, AddOutcome(keccak, codec, part, batches).value, n);
  }

  /** The stray entry has an accumulator, though the count does not reach it. */
  lemma StrayEntry(keccak: Keccak, kv: KeyValues, msgs: seq<DelayedInput>)
    requires DelayedInv(keccak, kv) && msgs != [] && Accepts(keccak, kv, msgs)
    requires Some(msgs[0].seqNum) == NumberAt(kv, DelayedCountKey)
    ensures AccAt(keccak, kv, msgs[0].seqNum).Err? && AccAt(keccak, FirstPut(kv, msgs[0]), msgs[0].seqNum).Ok?
    ensures NumberAt(FirstPut(kv, msgs[0]), DelayedCountKey) == Some(msgs[0].seqNum)
  {
    hide AccumulatorAfter, ChecksOut, SequencedReadable, FirstPut;
    var n := msgs[0].seqNum;
    FirstPutIs(kv, msgs[0]);
    assert !HasEntry(kv, n);
    ChecksOutAt(keccak, StartAcc(keccak, kv, n).value, n, msgs, 0);
  }

  /** The batches are as they were. */
  lemma StrayMetas(keccak: Keccak, kv: KeyValues, c: nat, checked: map<nat, Hash32>, msg: DelayedInput)
    requires Inv(keccak, kv, c, checked)
    ensures var part := FirstPut(kv, msg);
            MetaAfter(part, c) == MetaAfter(kv, c)
            && (c > 0 ==> ReadMeta(part, c - 1).Ok? && ReadMeta(kv, c - 1).Ok?)
  {
    hide DelayedInv, SequencedInv, CheckedInv, FirstPut;
    FirstPutIs(kv, msg);
    assert c > 0 ==> ReadMeta(kv, c - 1).Ok?;
  }

  lemma AddedCounts(keccak: Keccak, kv: KeyValues, c: nat, metas: seq<BatchMetadata>, n: nat)
    requires |metas| == 1 && metas[0].delayedMessageCount == n + 1 && NumberAt(kv, DelayedCountKey) == Some(n)
    ensures var f := AddBatches(kv, c, metas);
            DelayedAfter(f, c + 1) == n + 1 && NumberAt(f, DelayedCountKey) == Some(n) && Broken(keccak, f, c + 1)
  {
    hide AccAt, DelayedInv, SequencedInv, CheckedInv, PutMetas;
    var f := AddBatches(kv, c, metas);
    OneMeta(DropFrom(kv, BatchMetaTable, c + 1) - KeysFrom(kv, DelayedSequencedTable, DelayedAfter(kv, c) + 1), c,
            DelayedAfter(kv, c), metas);
    NeverSound(keccak, f, c + 1);
  }

  lemma OneMeta(g: KeyValues, c: nat, prev: nat, metas: seq<BatchMetadata>)
    requires |metas| == 1
    ensures var f := PutMetas(g, c, prev, metas);
            ReadMeta(f, c) == Ok(metas[0]) && NumberAt(f, DelayedCountKey) == NumberAt(g, DelayedCountKey)
  {
    assert metas[..0] == [];
    assert PutMetas(g, c, prev, []) == g;
    assert PutMetas(g, c, prev, metas) == PutMeta(g, c, prev, metas[0]);
  }

  lemma NeverSound(keccak: Keccak, kv: KeyValues, c: nat)
    requires NumberAt(kv, DelayedCountKey).Some? && DelayedAfter(kv, c) > NumberAt(kv, DelayedCountKey).value
    ensures Broken(keccak, kv, c)
  {
    hide DelayedInv, SequencedInv, CheckedInv, BatchInv, DelayedAfter;
  }
}
