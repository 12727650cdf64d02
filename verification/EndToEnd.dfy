/**
 The state of the pipeline: a log that is explained by the ingested batches, message by message, and which ingests and
 which changes of the delayed messages keep it so.
 */
module EndToEnd {
  import opened Basics
  import opened L1Message
  import opened Message
  import opened SequencerMessages
  import opened DrainSpec
  import opened DrainProperties
  import opened Multiplexer
  import opened Store
  import opened TrackerSpec
  import opened DelayedOps
  import opened BatchOps
  import opened StreamerSpec
  import opened Tracker
  import opened Ingest
  import opened Pipeline

  /**
   Batch `k` has number `k`, follows on from the accumulator before it, and its metadata is what the parent chain said.
   */
  predicate Described(kv: KeyValues, hist: seq<SequencerInboxBatch>, k: nat)
    requires k < |hist|
  {
    var meta := MetaAfter(kv, k + 1);
    && hist[k].sequenceNumber == k
    && hist[k].beforeInboxAcc == MetaAfter(kv, k).accumulator
    && hist[k].afterInboxAcc == meta.accumulator
    && hist[k].afterDelayedCount == meta.delayedMessageCount
    && hist[k].parentChainBlockNumber == meta.parentChainBlock
  }

  /** Batch `k` drained fully, and its messages are the log between the counts stored for it. */
  ghost predicate Produced(codec: Codec, kv: KeyValues, hist: seq<SequencerInboxBatch>, k: nat)
    requires k < |hist| && LogInv(kv)
  {
    var w := WalkOf(EnvOf(codec, kv), hist[k], MetaAfter(kv, k).delayedMessageCount);
    var lo, hi := MessagesAfter(kv, k), MessagesAfter(kv, k + 1);
    && Described(kv, hist, k) && Announces(codec, hist[k])
    && w.outcome.Done? && lo < hi <= MessageCount(kv) && Log(kv)[lo..hi] == StrippedAll(w.msgs)
  }

  /** The state after ingesting exactly the batches of `hist`. */
  ghost predicate PipelineInv(keccak: Keccak, codec: Codec, kv: KeyValues, checked: map<nat, Hash32>,
                              hist: seq<SequencerInboxBatch>)
  {
    && Inv(keccak, kv, |hist|, checked) && Clean(kv, |hist|) && LogInv(kv)
    && MessageCount(kv) == MessagesAfter(kv, |hist|)
    && LastStoredRead(kv) == DelayedAfter(kv, |hist|)
    && forall k: nat | k < |hist| :: Produced(codec, kv, hist, k)
  }

  // ----- the start

  /** What `InboxTracker.Initialize` makes of a store without any keys satisfies the invariant with no batches. */
  lemma StartHolds(keccak: Keccak, codec: Codec)
    ensures PipelineInv(keccak, codec, EMPTY_STORE, map[], [])
  {
    hide AccumulatorAfter, Parse, WalkOf;
  }

  // ----- what the log side and the batch side leave alone

  lemma OutsideIsSame(kv: KeyValues, kv': KeyValues)
    requires SameOutsideLog(kv, kv')
    ensures SameDelayed(kv, kv') && SameRows(kv, kv', BatchCountKey)
    ensures forall i: nat :: SameRows(kv, kv', MetaKey(i)) && SameRows(kv, kv', SequencedKey(i))
  {
    assert !IsLogKey(DelayedCountKey) && !IsLogKey(BatchCountKey);
    forall i: nat
      ensures SameRows(kv, kv', MetaKey(i)) && SameRows(kv, kv', SequencedKey(i))
      ensures SameRows(kv, kv', DelayedKey(i)) && SameRows(kv, kv', LegacyDelayedKey(i))
      ensures SameRows(kv, kv', Row(ParentChainBlockTable, i))
    {
      assert !IsLogKey(MetaKey(i)) && !IsLogKey(SequencedKey(i)) && !IsLogKey(DelayedKey(i));
      assert !IsLogKey(LegacyDelayedKey(i)) && !IsLogKey(Row(ParentChainBlockTable, i));
    }
  }

  lemma OutsideKeepsInv(keccak: Keccak, kv: KeyValues, kv': KeyValues, c: nat, checked: map<nat, Hash32>)
    requires Inv(keccak, kv, c, checked) && SameOutsideLog(kv, kv')
    ensures Inv(keccak, kv', c, checked) && SameBatches(kv, kv', c) && SameDelayed(kv, kv')
  {
    hide AccAt, DelayedInv, DelayedAfter, MetaAfter, SequencedInv, Shrinks, SameOutsideLog, RowNames;
    OutsideIsSame(kv, kv');
    assert Shrinks(kv, kv', c) by { SameShrinks(kv, kv', c); }
    ShrinkKeeps(kv, kv', c, c);
    DelayedInvFrame(keccak, kv, kv');
  }

  lemma SameShrinks(kv: KeyValues, kv': KeyValues, c: nat)
    requires BatchInv(kv, c) && SameRows(kv, kv', BatchCountKey)
    requires forall i: nat :: SameRows(kv, kv', MetaKey(i)) && SameRows(kv, kv', SequencedKey(i))
    ensures Shrinks(kv, kv', c)
  {
    hide DelayedAfter, MetaAfter, ReadMeta;
    assert forall i: nat :: MetaKey(i) in kv' <==> SameRows(kv, kv', MetaKey(i)) && MetaKey(i) in kv;
    assert forall d: nat :: SequencedKey(d) in kv' <==> SameRows(kv, kv', SequencedKey(d)) && SequencedKey(d) in kv;
  }

  /** Log keys hold the same values. */
  ghost predicate SameLog(kv: KeyValues, kv': KeyValues) {
    forall k: Key | IsLogKey(k) :: SameRows(kv, kv', k)
  }

  lemma SameLogSame(kv: KeyValues, kv': KeyValues)
    requires LogInv(kv) && SameLog(kv, kv')
    ensures LogInv(kv') && Log(kv') == Log(kv) && MessageCount(kv') == MessageCount(kv)
    ensures LastStoredRead(kv') == LastStoredRead(kv)
  {
    assert SameRows(kv, kv', MessageCountKey);
    forall i: nat
      ensures SameRows(kv, kv', MessageKey(i)) && SameRows(kv, kv', BlockHashKey(i))
    {
    }
    assert forall i: nat :: MessageKey(i) in kv' <==> SameRows(kv, kv', MessageKey(i)) && MessageKey(i) in kv;
    assert forall i: nat :: BlockHashKey(i) in kv' <==> SameRows(kv, kv', BlockHashKey(i)) && BlockHashKey(i) in kv;
    assert LogInv(kv');
    forall i: nat | i < MessageCount(kv)
      ensures Log(kv')[i] == Log(kv)[i]
    {
      assert MessageKey(i) in kv && BlockHashKey(i) in kv;
    }
    assert Log(kv') == Log(kv);
  }

  lemma {:induction false} PutMetasLog(kv: KeyValues, pos: nat, prev: nat, metas: seq<BatchMetadata>)
    ensures SameLog(kv, PutMetas(kv, pos, prev, metas))
    decreases |metas|
  {
    hide Before;
    if metas != [] {
      PutMetasLog(kv, pos, prev, metas[..|metas| - 1]);
    }
  }

  lemma AddBatchesLog(kv: KeyValues, pos: nat, metas: seq<BatchMetadata>)
    ensures SameLog(kv, AddBatches(kv, pos, metas))
  {
    hide PutMetas, DelayedAfter;
    var n, prev := pos + |metas|, DelayedAfter(kv, pos);
    PutMetasLog(DropFrom(kv, BatchMetaTable, n) - KeysFrom(kv, DelayedSequencedTable, prev + 1), pos, prev, metas);
  }

  /**
   What any ingest does to the log, on every whole log and from any delayed position. The drain's messages are added if
   there are any, no error or panic ended the drain, and none of them jumps; otherwise nothing changes at all. Once they
   are added, either all batches are stored as well or nothing else changes.
   */
  lemma IngestedLog(keccak: Keccak, codec: Codec, kv: KeyValues, batches: seq<SequencerInboxBatch>, read: u64,
                    status: Status, kv': KeyValues)
    requires LogInv(kv) && batches != [] && IngestedFrom(keccak, codec, kv, batches, read, status, kv')
    ensures LogInv(kv')
    ensures var d := Drain(EnvOf(codec, kv), batches, read);
            var ends := d.outcome.Done? || d.outcome.Stopped?;
            var grows := ends && d.msgs != [] && forall i | 0 <= i < |d.msgs| :: RisesByOne(kv, d.msgs, i);
            var n, end := batches[0].sequenceNumber, batches[0].sequenceNumber + |batches|;
            && (grows ==> Log(kv') == Log(kv) + StrippedAll(d.msgs))
            && (!grows ==> kv' == kv && (status.Finished? <==> ends && d.msgs == [])
                           && (status.Crashed? <==> d.outcome.Panicked?))
            && (grows && status.Finished? ==>
                  NumberAt(kv', BatchCountKey) == Some(end) && forall i: nat | n <= i < end :: MetaKey(i) in kv')
            && (grows && !status.Finished? ==> status.Errored? && SameOutsideLog(kv, kv'))
  {
    hide LogInv, Log, Drain, JumpFree, AddBatches, AppendAt, LastStoredRead, SameOutsideLog, BatchesCheckOut, MetasFor,
         RisesByOne;
    var d, n := Drain(EnvOf(codec, kv), batches, read), batches[0].sequenceNumber;
    AppendableIs(kv, MessageCount(kv), d.msgs);
    var a := AppendAt(kv, MessageCount(kv), d.msgs);
    AppendExtends(kv, d.msgs);
    AppendOutside(kv, MessageCount(kv), d.msgs);
    if AddOutcome(keccak, codec, a, batches).Some? {
      var metas := AddOutcome(keccak, codec, a, batches).value;
      MetasForLength(codec, MetaAfter(a, n), batches);
      AddBatchesLog(a, n, metas);
      SameLogSame(a, AddBatches(a, n, metas));
      StoredMetasOf(a, n, metas);
    }
  }

  lemma StoredMetasOf(kv: KeyValues, n: nat, metas: seq<BatchMetadata>)
    ensures var f, end := AddBatches(kv, n, metas), n + |metas|;
            NumberAt(f, BatchCountKey) == Some(end) && forall i: nat | n <= i < end :: MetaKey(i) in f
  {
    hide PutMetas;
    AddedMetas(kv, n, metas);
    var f, end := AddBatches(kv, n, metas), n + |metas|;
    forall i: nat | n <= i < end
      ensures MetaKey(i) in f
    {
      assert ReadMeta(f, n + (i - n)) == Ok(metas[i - n]);
    }
  }

  lemma CutDelayedLog(kv: KeyValues, staged: KeyValues, p: nat, n: nat)
    requires Staged(Eager(kv, p), staged, p, n)
    ensures SameLog(kv, CutDelayed(kv, staged, p, n))
  {
    hide RollbackTo, CutDelayed;
    var f := CutDelayed(kv, staged, p, n);
    forall k: Key | IsLogKey(k)
      ensures SameRows(kv, f, k)
    {
      assert SameRows(Eager(kv, p), staged, k);
      if k.Row? {
        CutRow(kv, staged, p, n, k);
      } else {
        CutMessageCount(kv, staged, p, n);
      }
    }
  }

  lemma CutMessageCount(kv: KeyValues, staged: KeyValues, p: nat, n: nat)
    ensures SameRows(staged, CutDelayed(kv, staged, p, n), MessageCountKey)
  {
    hide RollbackTo;
  }

  // ----- reading delayed messages

  /** In a whole chain every message below the count can be read, and only its entry matters. */
  lemma DelayedReadable(keccak: Keccak, kv: KeyValues, i: nat)
    requires DelayedInv(keccak, kv)
    ensures i < NumberAt(kv, DelayedCountKey).value ==>
              EntryAt(kv, i).Some? && ParseLegacy(EntryAt(kv, i).value.1).Ok?
              && DelayedMessageAt(kv, i) == Some(ParseLegacy(EntryAt(kv, i).value.1).value)
    ensures i >= NumberAt(kv, DelayedCountKey).value ==> DelayedMessageAt(kv, i) == None
  {
    hide ParseLegacy, AccAt;
    assert HasEntry(kv, i) <==> i < NumberAt(kv, DelayedCountKey).value;
    if i < NumberAt(kv, DelayedCountKey).value {
      assert Linked(keccak, kv, i);
    }
  }

  /** Stores whose entries below `n` agree serve the same drains up to `n`. */
  lemma EnvAgrees(keccak: Keccak, codec: Codec, kv: KeyValues, kv': KeyValues, n: nat)
    requires DelayedInv(keccak, kv) && DelayedInv(keccak, kv')
    requires forall i: nat | i < n && i < NumberAt(kv, DelayedCountKey).value ::
               i < NumberAt(kv', DelayedCountKey).value && EntryAt(kv', i) == EntryAt(kv, i)
    ensures AgreesBelow(EnvOf(codec, kv), EnvOf(codec, kv'), n)
  {
    hide DelayedInv, EntryAt, DelayedMessageAt, ParseLegacy;
    forall i: nat | i < n && EnvOf(codec, kv).delayed(i).Some?
      ensures EnvOf(codec, kv').delayed(i) == EnvOf(codec, kv).delayed(i)
    {
      DelayedReadable(keccak, kv, i);
      DelayedReadable(keccak, kv', i);
    }
  }

  lemma SameEnv(keccak: Keccak, codec: Codec, kv: KeyValues, kv': KeyValues, n: nat)
    requires DelayedInv(keccak, kv) && SameDelayed(kv, kv')
    ensures DelayedInv(keccak, kv') && AgreesBelow(EnvOf(codec, kv), EnvOf(codec, kv'), n)
  {
    hide DelayedInv, EntryAt, AccAt;
    DelayedInvFrame(keccak, kv, kv');
    assert SameRows(kv, kv', DelayedCountKey);
    assert NumberAt(kv', DelayedCountKey) == NumberAt(kv, DelayedCountKey);
    assert NumberAt(kv, DelayedCountKey).Some? by { HasCount(keccak, kv); }
    forall i: nat | i < n && i < NumberAt(kv, DelayedCountKey).value
      ensures EntryAt(kv', i) == EntryAt(kv, i)
    {
      assert SameRows(kv, kv', DelayedKey(i)) && SameRows(kv, kv', LegacyDelayedKey(i));
      SameEntry(keccak, kv, kv', i);
    }
    EnvAgrees(keccak, codec, kv, kv', n);
  }

  lemma HasCount(keccak: Keccak, kv: KeyValues)
    requires DelayedInv(keccak, kv)
    ensures NumberAt(kv, DelayedCountKey).Some?
  {
  }

  lemma WalkOfAgrees(env: Env, env': Env, b: SequencerInboxBatch, read: u64)
    requires AgreesBelow(env, env', b.afterDelayedCount) && Announces(env.codec, b)
             && WalkOf(env, b, read).outcome.Done?
    ensures WalkOf(env', b, read) == WalkOf(env, b, read)
  {
    hide Parse, Walk;
    WalkAgrees(env, env', Parse(env.codec, b.serialized).value, Some(b.blockHash), 0, 0, 0, read, false);
  }

  /** A batch already explained stays explained while its part of the log and the delayed messages it read stay. */
  lemma ProducedStays(codec: Codec, kv: KeyValues, kv': KeyValues, hist: seq<SequencerInboxBatch>,
                      hist': seq<SequencerInboxBatch>, k: nat)
    requires LogInv(kv) && LogInv(kv') && k < |hist| && k < |hist'| && hist'[k] == hist[k]
    requires Produced(codec, kv, hist, k)
    requires MetaAfter(kv', k) == MetaAfter(kv, k) && MetaAfter(kv', k + 1) == MetaAfter(kv, k + 1)
    requires MessagesAfter(kv, k + 1) <= MessageCount(kv')
    requires Log(kv')[..MessagesAfter(kv, k + 1)] == Log(kv)[..MessagesAfter(kv, k + 1)]
    requires AgreesBelow(EnvOf(codec, kv), EnvOf(codec, kv'), hist[k].afterDelayedCount)
    ensures Produced(codec, kv', hist', k)
  {
    hide WalkOf, EnvOf, AgreesBelow, LogInv, Log, Announces;
    EnvCodec(codec, kv);
    WalkOfAgrees(EnvOf(codec, kv), EnvOf(codec, kv'), hist[k], MetaAfter(kv, k).delayedMessageCount);
    var lo, hi := MessagesAfter(kv, k), MessagesAfter(kv, k + 1);
    assert |Log(kv)| == MessageCount(kv) && |Log(kv')| == MessageCount(kv');
    assert Log(kv')[lo..hi] == Log(kv')[..hi][lo..] == Log(kv)[..hi][lo..] == Log(kv)[lo..hi];
  }

  // ----- delayed messages arriving, and going away, above what the batches have read

  /** A change of the delayed messages at `p`, above what the batches have read, is clean and leaves the log alone. */
  lemma CutCleans(kv: KeyValues, staged: KeyValues, c: nat, p: nat, n: nat)
    requires Clean(kv, c) && DelayedAfter(kv, c) <= p && Staged(kv, staged, p, n)
    requires DelayedAfter(CutDelayed(kv, staged, p, n), c) == DelayedAfter(kv, c)
    ensures Clean(CutDelayed(kv, staged, p, n), c) && SameLog(kv, CutDelayed(kv, staged, p, n))
  {
    hide RollbackTo, Eager, CutDelayed, DelayedAfter, Staged, SameLog;
    TidyMeansNoRollback(kv, c, p);
    CutBatchRows(kv, staged, p, n);
    CutDelayedLog(kv, staged, p, n);
    var f := CutDelayed(kv, staged, p, n);
    forall d: nat | SequencedKey(d) in f
      ensures d <= DelayedAfter(f, c)
    {
      assert SequencedKey(d) in kv;
    }
  }

  /** No explained batch has read past the last one's count. */
  lemma ReadBelow(keccak: Keccak, codec: Codec, kv: KeyValues, checked: map<nat, Hash32>,
                  hist: seq<SequencerInboxBatch>, k: nat)
    requires PipelineInv(keccak, codec, kv, checked, hist) && k < |hist|
    ensures hist[k].afterDelayedCount <= DelayedAfter(kv, |hist|)
  {
    hide Log, LogInv, WalkOf, DelayedInv, SequencedInv, CheckedInv, Clean, LastStoredRead, ReadMeta, MetaAfter;
    assert Produced(codec, kv, hist, k);
    Monotone(kv, k + 1, |hist|, |hist|);
  }

  /** What every change of the delayed messages above the batches' reads has in common. */
  lemma DelayedChangeKeeps(keccak: Keccak, codec: Codec, kv: KeyValues, checked: map<nat, Hash32>,
                           hist: seq<SequencerInboxBatch>, f: KeyValues)
    requires PipelineInv(keccak, codec, kv, checked, hist)
    requires Inv(keccak, f, |hist|, checked) && Clean(f, |hist|) && SameBatches(kv, f, |hist|) && SameLog(kv, f)
    requires forall i: nat | i < DelayedAfter(kv, |hist|) :: EntryAt(f, i) == EntryAt(kv, i)
    ensures PipelineInv(keccak, codec, f, checked, hist)
  {
    hide LogInv, Log, Produced, DelayedInv, BatchInv, SequencedInv, CheckedInv, Clean, DelayedAfter, MetaAfter, SameLog,
         LastStoredRead, MessageCount, EnvOf, EntryAt;
    var c := |hist|;
    SameLogSame(kv, f);
    assert DelayedAfter(f, c) == DelayedAfter(kv, c) && MetaAfter(f, c) == MetaAfter(kv, c);
    forall k: nat | k < c
      ensures Produced(codec, f, hist, k)
    {
      assert Produced(codec, kv, hist, k);
      ReadBelow(keccak, codec, kv, checked, hist, k);
      EnvAgrees(keccak, codec, kv, f, hist[k].afterDelayedCount);
      assert MetaAfter(f, k) == MetaAfter(kv, k) && MetaAfter(f, k + 1) == MetaAfter(kv, k + 1);
      LogPrefix(codec, kv, f, hist, k);
      ProducedStays(codec, kv, f, hist, hist, k);
    }
  }

  /** A store that has lost one of the batches does not explain them any more. */
  lemma LostBatch(keccak: Keccak, codec: Codec, f: KeyValues, s: nat, checked: map<nat, Hash32>,
                  hist: seq<SequencerInboxBatch>)
    requires Inv(keccak, f, s, checked) && s < |hist|
    ensures forall checked': map<nat, Hash32> :: !PipelineInv(keccak, codec, f, checked', hist)
  {
    hide DelayedInv, SequencedInv, CheckedInv, Clean, LogInv, Produced, MetaAfter;
    assert MetaKey(s) !in f;
  }

  lemma InvFacts(keccak: Keccak, codec: Codec, kv: KeyValues, checked: map<nat, Hash32>, hist: seq<SequencerInboxBatch>,
                 p: nat)
    requires PipelineInv(keccak, codec, kv, checked, hist)
    ensures DelayedAfter(kv, |hist|) > p ==> Kept(kv, |hist|, p) < |hist|
  {
    hide DelayedInv, CheckedInv, Clean, LogInv, Produced, MetaAfter, DelayedAfter, RollbackTo;
    RollbackIsExact(kv, |hist|, p);
  }

  /**
   Delayed messages added at any position disturb neither the batches nor the log if and only if the position is not
   below what the last batch has read: at the end, or again over messages that no batch has read yet.
   */
  lemma ArrivalKeepsIff(keccak: Keccak, codec: Codec, kv: KeyValues, checked: map<nat, Hash32>,
                        hist: seq<SequencerInboxBatch>, msgs: seq<DelayedInput>)
    requires PipelineInv(keccak, codec, kv, checked, hist) && msgs != [] && Accepts(keccak, kv, msgs)
    ensures PipelineInv(keccak, codec, AddDelayed(kv, msgs), checked, hist)
            <==> DelayedAfter(kv, |hist|) <= msgs[0].seqNum
  {
    hide Accepts, CutDelayed, PutDelayed, Eager, EntryAt, Staged, Inv, DelayedAfter, MetaAfter, RollbackTo, Kept,
         PipelineInv, SameLog, Clean;
    var f, c, p := AddDelayed(kv, msgs), |hist|, msgs[0].seqNum;
    PipelineParts(keccak, codec, kv, checked, hist);
    AddDelayedKeeps(keccak, kv, c, checked, msgs);
    InvFacts(keccak, codec, kv, checked, hist, p);
    if DelayedAfter(kv, c) <= p {
      TidyMeansNoRollback(kv, c, p);
      AddedEntries(keccak, kv, msgs);
      assert DelayedAfter(f, c) == DelayedAfter(kv, c);
      CutCleans(kv, PutDelayed(kv, msgs), c, p, p + |msgs|);
      DelayedChangeKeeps(keccak, codec, kv, checked, hist, f);
    } else {
      LostBatch(keccak, codec, f, Kept(kv, c, p), checked, hist);
    }
  }

  /**
   A rollback of the delayed messages disturbs neither if and only if it stops at or above what the last batch has read.
   */
  lemma RollbackKeepsIff(keccak: Keccak, codec: Codec, kv: KeyValues, checked: map<nat, Hash32>,
                         hist: seq<SequencerInboxBatch>, n: nat)
    requires PipelineInv(keccak, codec, kv, checked, hist)
    requires NumberAt(kv, DelayedCountKey).Some? && n <= NumberAt(kv, DelayedCountKey).value
    ensures PipelineInv(keccak, codec, ReorgDelayed(kv, n), checked, hist) <==> DelayedAfter(kv, |hist|) <= n
  {
    hide CutDelayed, Eager, EntryAt, Inv, DelayedAfter, MetaAfter, RollbackTo, Kept, PipelineInv, SameLog, Clean;
    var f, c := ReorgDelayed(kv, n), |hist|;
    PipelineParts(keccak, codec, kv, checked, hist);
    ReorgDelayedKeeps(keccak, kv, c, checked, n);
    InvFacts(keccak, codec, kv, checked, hist, n);
    if DelayedAfter(kv, c) <= n {
      TidyMeansNoRollback(kv, c, n);
      assert DelayedAfter(f, c) == DelayedAfter(kv, c);
      assert Staged(kv, kv, n, n);
      CutCleans(kv, kv, c, n, n);
      DelayedChangeKeeps(keccak, codec, kv, checked, hist, f);
    } else {
      LostBatch(keccak, codec, f, Kept(kv, c, n), checked, hist);
    }
  }

  lemma PipelineParts(keccak: Keccak, codec: Codec, kv: KeyValues, checked: map<nat, Hash32>,
                      hist: seq<SequencerInboxBatch>)
    requires PipelineInv(keccak, codec, kv, checked, hist)
    ensures Inv(keccak, kv, |hist|, checked) && Clean(kv, |hist|) && LogInv(kv)
  {
  }

  // ----- ingesting batches

  lemma RecountsAt(codec: Codec, prev: BatchMetadata, batches: seq<SequencerInboxBatch>, metas: seq<BatchMetadata>,
                   j: nat)
    requires Recounts(codec, prev, batches, metas) && j < |metas|
    ensures |metas| == |batches| && metas[j].delayedMessageCount == batches[j].afterDelayedCount
    ensures metas[j].accumulator == batches[j].afterInboxAcc
            && metas[j].parentChainBlock == batches[j].parentChainBlockNumber
  {
    hide Parse, LastMeta, L2Count;
    assert Parse(codec, batches[j].serialized).Ok?;
  }

  lemma MetasDoNotFall(env: Env, prev: BatchMetadata, batches: seq<SequencerInboxBatch>, metas: seq<BatchMetadata>)
    requires AllWellFormed(env, batches, prev.delayedMessageCount) && Recounts(env.codec, prev, batches, metas)
    ensures NonDecreasing(prev.delayedMessageCount, metas)
  {
    hide Parse, KindsKnown, L2Readable, CountDelayed, Increment, Recounts;
    forall i: nat | i < |metas|
      ensures Before(prev.delayedMessageCount, metas, i) <= metas[i].delayedMessageCount
    {
      RecountsAt(env.codec, prev, batches, metas, i);
      assert WellFormed(env, batches[i], ReadBefore(batches, i, prev.delayedMessageCount));
      if i > 0 {
        RecountsAt(env.codec, prev, batches, metas, i - 1);
      }
    }
  }

  /**
   What a successful ingest of well-formed batches stores: the drain at the end of the log, then the batches' metadata.
   */
  ghost function IngestResult(keccak: Keccak, codec: Codec, kv: KeyValues,
                              batches: seq<SequencerInboxBatch>): Option<KeyValues>
    requires batches != []
  {
    var first := batches[0].sequenceNumber;
    var d := Drain(EnvOf(codec, kv), batches, MetaAfter(kv, first).delayedMessageCount);
    var appended := AppendAt(kv, MessageCount(kv), d.msgs);
    match AddOutcome(keccak, codec, appended, batches)
    case None => None
    case Some(metas) => Some(AddBatches(appended, first, metas))
  }

  lemma {:induction false} CheckOutAgrees(keccak: Keccak, kv: KeyValues, a: KeyValues, acc: Hash32, pos: nat,
                                          batches: seq<SequencerInboxBatch>)
    requires forall i: nat :: AccAt(keccak, a, i) == AccAt(keccak, kv, i)
    ensures BatchesCheckOut(keccak, a, acc, pos, batches) <==> BatchesCheckOut(keccak, kv, acc, pos, batches)
    decreases |batches|
  {
    hide AccAt;
    if batches != [] {
      CheckOutAgrees(keccak, kv, a, batches[0].afterInboxAcc, pos + 1, batches[1..]);
    }
  }

  lemma {:induction false} ParsedHaveMetas(codec: Codec, prev: BatchMetadata, batches: seq<SequencerInboxBatch>)
    requires forall j: nat | j < |batches| :: Parse(codec, batches[j].serialized).Ok?
    ensures MetasFor(codec, prev, batches).Ok?
    decreases |batches|
  {
    hide Parse, L2Count;
    if batches != [] {
      assert Parse(codec, batches[0].serialized).Ok?;
      forall j: nat | j < |batches[1..]|
        ensures Parse(codec, batches[1..][j].serialized).Ok?
      {
        assert batches[1..][j] == batches[j + 1];
      }
      ParsedHaveMetas(codec, MetaFor(Parse(codec, batches[0].serialized).value, batches[0], prev), batches[1..]);
    }
  }

  /**
   On well-formed batches the tracker's add depends on the chain checks alone, and those only on the store before the
   append.
   */
  lemma ChecksDecide(keccak: Keccak, codec: Codec, kv: KeyValues, a: KeyValues, checked: map<nat, Hash32>, c: nat,
                     batches: seq<SequencerInboxBatch>)
    requires Inv(keccak, kv, c, checked) && SameOutsideLog(kv, a) && batches != [] && batches[0].sequenceNumber == c
    requires AllWellFormed(EnvOf(codec, kv), batches, MetaAfter(kv, c).delayedMessageCount)
    ensures AddOutcome(keccak, codec, a, batches).Some?
       <==> BatchesCheckOut(keccak, kv, MetaAfter(kv, c).accumulator, c, batches)
  {
    hide Inv, SameOutsideLog, AllWellFormed, EnvOf, MetaAfter, BatchesCheckOut, MetasFor, SameDelayed, SameBatches,
         ReadMeta, AccAt;
    OutsideKeepsInv(keccak, kv, a, c, checked);
    OldMetasAgree(kv, kv, a, c, c) by { SameIsSame(kv, c); }
    AccSame(keccak, kv, c, checked, a);
    CheckOutAgrees(keccak, kv, a, MetaAfter(kv, c).accumulator, c, batches);
    forall j: nat | j < |batches|
      ensures Parse(codec, batches[j].serialized).Ok?
    {
      EnvCodec(codec, kv);
      AllAnnounce(EnvOf(codec, kv), batches, MetaAfter(kv, c).delayedMessageCount, j);
    }
    ParsedHaveMetas(codec, MetaAfter(kv, c), batches);
    LastMetaReads(keccak, a, c, checked);
  }

  lemma LastMetaReads(keccak: Keccak, kv: KeyValues, c: nat, checked: map<nat, Hash32>)
    requires Inv(keccak, kv, c, checked)
    ensures c > 0 ==> ReadMeta(kv, c - 1).Ok?
  {
    hide DelayedInv, SequencedInv, CheckedInv, DelayedAfter, ReadMeta;
  }

  /** Batches that pass the chain checks have all their delayed messages stored. */
  lemma CheckedAreAvailable(keccak: Keccak, codec: Codec, kv: KeyValues, acc: Hash32, pos: nat,
                            batches: seq<SequencerInboxBatch>, read: nat)
    requires DelayedInv(keccak, kv) && batches != [] && BatchesCheckOut(keccak, kv, acc, pos, batches)
    ensures DelayedAvailable(EnvOf(codec, kv), read, batches[|batches| - 1].afterDelayedCount)
  {
    hide BatchesCheckOut, DelayedInv, AccAt, DelayedMessageAt, ParseLegacy, EntryAt;
    var last := batches[|batches| - 1].afterDelayedCount;
    CheckedAt(keccak, kv, acc, pos, batches, |batches| - 1);
    if last > 0 {
      StoredBelow(keccak, kv, last - 1);
    }
    forall d: nat | read <= d < last
      ensures EnvOf(codec, kv).delayed(d).Some?
    {
      DelayedReadable(keccak, kv, d);
    }
  }

  lemma StoredBelow(keccak: Keccak, kv: KeyValues, i: nat)
    requires DelayedInv(keccak, kv) && AccAt(keccak, kv, i).Ok?
    ensures i < NumberAt(kv, DelayedCountKey).value
  {
    hide AccumulatorAfter;
    assert HasEntry(kv, i);
  }

  /** Well-formed batches whose delayed messages are there never fail before the chain checks. */
  lemma WellFormedReachesChecks(keccak: Keccak, codec: Codec, kv: KeyValues, checked: map<nat, Hash32>,
                                hist: seq<SequencerInboxBatch>, batches: seq<SequencerInboxBatch>, status: Status,
                                kv': KeyValues)
    requires PipelineInv(keccak, codec, kv, checked, hist)
    requires batches != [] && batches[0].sequenceNumber == |hist|
    requires AllWellFormed(EnvOf(codec, kv), batches, MetaAfter(kv, |hist|).delayedMessageCount)
    requires Ingested(keccak, codec, kv, batches, status, kv')
    ensures var d := Drain(EnvOf(codec, kv), batches, MetaAfter(kv, |hist|).delayedMessageCount);
            var a := AppendAt(kv, MessageCount(kv), d.msgs);
            && (!d.outcome.Done? ==> status.Errored? && kv' == kv)
            && (d.outcome.Done? && AddOutcome(keccak, codec, a, batches).None? ==> status.Errored? && kv' == a)
            && (d.outcome.Done? && AddOutcome(keccak, codec, a, batches).Some? ==>
                  status.Finished? && IngestResult(keccak, codec, kv, batches) == Some(kv'))
  {
    hide Inv, Clean, Produced, AllWellFormed, EnvOf, MetaAfter, DrainFrom, AddOutcome, AddBatches, AppendAt, JumpFree,
         Climbs, WalkOf, LogInv, MessageCount, LastStoredRead;
    var env, read := EnvOf(codec, kv), MetaAfter(kv, |hist|).delayedMessageCount;
    WellFormedDrains(env, batches, 0, read);
    DrainClimbs(env, batches, 0, read);
    ClimbingIsJumpFree(read, Drain(env, batches, read).msgs);
  }

  /**
   An ingest of well-formed batches succeeds if and only if the chain checks pass. If they do not, the store is
   unchanged when a delayed message they need is missing, and otherwise keeps the messages already appended.
   */
  lemma WellFormedIngest(keccak: Keccak, codec: Codec, kv: KeyValues, checked: map<nat, Hash32>,
                         hist: seq<SequencerInboxBatch>, batches: seq<SequencerInboxBatch>, status: Status,
                         kv': KeyValues)
    requires PipelineInv(keccak, codec, kv, checked, hist)
    requires batches != [] && batches[0].sequenceNumber == |hist|
    requires AllWellFormed(EnvOf(codec, kv), batches, MetaAfter(kv, |hist|).delayedMessageCount)
    requires Ingested(keccak, codec, kv, batches, status, kv')
    ensures var env, read := EnvOf(codec, kv), MetaAfter(kv, |hist|).delayedMessageCount;
            var passes := BatchesCheckOut(keccak, kv, MetaAfter(kv, |hist|).accumulator, |hist|, batches);
            var available := DelayedAvailable(env, read, batches[|batches| - 1].afterDelayedCount);
            && (Drain(env, batches, read).outcome.Done? <==> available)
            && (status.Finished? <==> passes)
            && (passes ==> available && IngestResult(keccak, codec, kv, batches) == Some(kv'))
            && (!passes ==> status.Errored?
                            && kv' == if available then AppendAt(kv, MessageCount(kv), Drain(env, batches, read).msgs)
                                      else kv)
  {
    hide PipelineInv, Ingested, IngestResult, AllWellFormed, EnvOf, MetaAfter, DrainFrom, AddOutcome, AppendAt,
         MessageCount, BatchesCheckOut, DelayedAvailable, SameOutsideLog, Inv, LogInv, Clean, DelayedInv;
    var env, c, read := EnvOf(codec, kv), |hist|, MetaAfter(kv, |hist|).delayedMessageCount;
    PipelineParts(keccak, codec, kv, checked, hist);
    WellFormedReachesChecks(keccak, codec, kv, checked, hist, batches, status, kv');
    DrainsIffAvailable(env, batches, 0, read);
    var a := AppendAt(kv, MessageCount(kv), Drain(env, batches, read).msgs);
    AppendOutside(kv, MessageCount(kv), Drain(env, batches, read).msgs);
    ChecksDecide(keccak, codec, kv, a, checked, c, batches);
    InvDelayed(keccak, kv, c, checked);
    if BatchesCheckOut(keccak, kv, MetaAfter(kv, c).accumulator, c, batches) {
      CheckedAreAvailable(keccak, codec, kv, MetaAfter(kv, c).accumulator, c, batches, read);
    }
  }

  lemma OldMetasAgree(kv: KeyValues, a: KeyValues, f: KeyValues, c: nat, k: nat)
    requires SameBatches(kv, a, c) && SameBatches(a, f, c) && k <= c
    ensures MetaAfter(f, k) == MetaAfter(kv, k)
  {
    hide MetaAfter, DelayedAfter, ReadMeta;
    assert MetaAfter(a, k) == MetaAfter(kv, k);
  }

  lemma NewMetasAgree(f: KeyValues, c: nat, prev: BatchMetadata, metas: seq<BatchMetadata>, j: nat)
    requires Holds(f, c, metas) && MetaAfter(f, c) == prev && j <= |metas|
    ensures MetaAfter(f, c + j) == LastMeta(prev, metas, j)
  {
    if j > 0 {
      assert ReadMeta(f, c + (j - 1)) == Ok(metas[j - 1]);
    }
  }

  lemma StrippedConcat(a: seq<MessageWithBlockInfo>, lo: nat, hi: nat)
    requires lo <= hi <= |a|
    ensures StrippedAll(a)[lo..hi] == StrippedAll(a[lo..hi])
  {
  }

  /** New batch `j` continues the accumulators, and `metas` are what the parent chain said of the new batches. */
  predicate Chains(prev: BatchMetadata, batches: seq<SequencerInboxBatch>, metas: seq<BatchMetadata>, pos: nat, j: nat)
    requires j < |batches| == |metas|
  {
    batches[j].sequenceNumber == pos + j && batches[j].beforeInboxAcc == LastMeta(prev, metas, j).accumulator
  }

  lemma NewChains(keccak: Keccak, codec: Codec, kv: KeyValues, prev: BatchMetadata, pos: nat,
                  batches: seq<SequencerInboxBatch>, metas: seq<BatchMetadata>)
    requires BatchesCheckOut(keccak, kv, prev.accumulator, pos, batches) && Recounts(codec, prev, batches, metas)
    ensures |metas| == |batches| && forall j: nat | j < |batches| :: Chains(prev, batches, metas, pos, j)
  {
    hide BatchesCheckOut, Recounts;
    RecountsLength(codec, prev, batches, metas);
    forall j: nat | j < |batches|
      ensures Chains(prev, batches, metas, pos, j)
    {
      CheckedChain(keccak, kv, prev.accumulator, pos, batches, j);
      if j > 0 {
        RecountsAt(codec, prev, batches, metas, j - 1);
      }
    }
  }

  lemma NewDescribed(codec: Codec, prev: BatchMetadata, hist: seq<SequencerInboxBatch>,
                     batches: seq<SequencerInboxBatch>, metas: seq<BatchMetadata>, f: KeyValues, j: nat)
    requires Recounts(codec, prev, batches, metas) && j < |batches| == |metas|
             && Chains(prev, batches, metas, |hist|, j)
    requires MetaAfter(f, |hist| + j) == LastMeta(prev, metas, j)
             && MetaAfter(f, |hist| + j + 1) == LastMeta(prev, metas, j + 1)
    ensures Described(f, hist + batches, |hist| + j)
  {
    hide Recounts, MetaAfter;
    RecountsAt(codec, prev, batches, metas, j);
    assert (hist + batches)[|hist| + j] == batches[j];
  }

  /** A new batch's messages stand in the grown log where its metadata says. */
  lemma ProducedNew(keccak: Keccak, codec: Codec, kv: KeyValues, f: KeyValues, hist: seq<SequencerInboxBatch>,
                    batches: seq<SequencerInboxBatch>, prev: BatchMetadata, metas: seq<BatchMetadata>,
                    front: seq<MessageWithBlockInfo>, msgs: seq<MessageWithBlockInfo>, j: nat)
    requires LogInv(f) && j < |batches| == |metas|
    requires Log(f) == StrippedAll(front + msgs)
    requires SliceAt(EnvOf(codec, kv), prev, batches, metas, front + msgs, j)
    requires AgreesBelow(EnvOf(codec, kv), EnvOf(codec, f), batches[j].afterDelayedCount)
             && Announces(codec, batches[j])
    requires MetaAfter(f, |hist| + j) == LastMeta(prev, metas, j)
             && MetaAfter(f, |hist| + j + 1) == LastMeta(prev, metas, j + 1)
    requires ReadBefore(batches, j, prev.delayedMessageCount) == LastMeta(prev, metas, j).delayedMessageCount
    requires Described(f, hist + batches, |hist| + j)
    ensures Produced(codec, f, hist + batches, |hist| + j)
  {
    hide WalkOf, EnvOf, AgreesBelow, LogInv, Log, MetaAfter, ReadBefore, StrippedAll, Announces;
    EnvCodec(codec, kv);
    var lo, hi := Offset(prev, metas, j), Offset(prev, metas, j + 1);
    WalkOfAgrees(EnvOf(codec, kv), EnvOf(codec, f), batches[j], LastMeta(prev, metas, j).delayedMessageCount);
    assert |Log(f)| == MessageCount(f);
    StrippedConcat(front + msgs, lo, hi);
    assert (hist + batches)[|hist| + j] == batches[j];
  }

  lemma LogIsStripped(kv: KeyValues, msgs: seq<MessageWithBlockInfo>)
    requires LogInv(kv)
    ensures Log(kv) + StrippedAll(msgs) == StrippedAll(Log(kv) + msgs)
  {
    hide LogInv;
    assert forall i | 0 <= i < |Log(kv)| :: Stripped(Log(kv)[i]) == Log(kv)[i] by { LogStripped(kv); }
  }

  lemma LogStripped(kv: KeyValues)
    requires LogInv(kv)
    ensures forall i | 0 <= i < |Log(kv)| :: Stripped(Log(kv)[i]) == Log(kv)[i]
  {
    forall i | 0 <= i < |Log(kv)|
      ensures Stripped(Log(kv)[i]) == Log(kv)[i]
    {
      assert MessageKey(i) in kv && BlockHashKey(i) in kv;
    }
  }

  lemma LastOfLog(kv: KeyValues)
    requires LogInv(kv)
    ensures LastStoredRead(kv) == LastRead(0, Log(kv))
  {
    if MessageCount(kv) > 0 {
      assert MessageKey(MessageCount(kv) - 1) in kv;
    }
  }

  lemma {:induction false} FinalIsLast(env: Env, batches: seq<SequencerInboxBatch>, k: nat, read: u64)
    requires k <= |batches| && AllWellFormed(env, batches, read)
    ensures FinalCount(env, batches, k, ReadBefore(batches, k, read)) == ReadBefore(batches, |batches|, read)
    decreases |batches| - k
  {
    hide Parse, KindsKnown, L2Readable, CountDelayed, Increment;
    if k < |batches| {
      assert WellFormed(env, batches[k], ReadBefore(batches, k, read));
      FinalIsLast(env, batches, k + 1, read);
    }
  }

  /** The log after the append, seen from the state before it. */
  lemma AppendedLog(codec: Codec, kv: KeyValues, a: KeyValues, batches: seq<SequencerInboxBatch>, read: u64)
    requires LogInv(kv) && AllWellFormed(EnvOf(codec, kv), batches, read) && batches != []
    requires Drain(EnvOf(codec, kv), batches, read).outcome.Done?
    requires a == AppendAt(kv, MessageCount(kv), Drain(EnvOf(codec, kv), batches, read).msgs)
    ensures LogInv(a) && SameOutsideLog(kv, a)
    ensures Log(a) == StrippedAll(Log(kv) + Drain(EnvOf(codec, kv), batches, read).msgs)
    ensures Log(kv) <= Log(a)
    ensures LastStoredRead(a) == batches[|batches| - 1].afterDelayedCount
  {
    hide LogInv, Log, AppendAt, AllWellFormed, EnvOf, DrainFrom, Climbs, WalkOf, LastStoredRead, MessageCount,
         SameOutsideLog;
    var env := EnvOf(codec, kv);
    var msgs := Drain(env, batches, read).msgs;
    AppendExtends(kv, msgs);
    AppendOutside(kv, MessageCount(kv), msgs);
    LogIsStripped(kv, msgs);
    WellFormedDrains(env, batches, 0, read);
    DrainClimbs(env, batches, 0, read);
    FinalIsLast(env, batches, 0, read);
    LastOfLog(a);
    var last := |msgs| - 1;
    assert Log(a)[|Log(a)| - 1] == Stripped(msgs[last]);
  }

  /** The batch side after the append and the add. */
  lemma AddedBatches(keccak: Keccak, codec: Codec, kv: KeyValues, a: KeyValues, checked: map<nat, Hash32>, c: nat,
                     batches: seq<SequencerInboxBatch>)
    returns (metas: seq<BatchMetadata>)
    requires Inv(keccak, kv, c, checked) && SameOutsideLog(kv, a)
    requires batches != [] && batches[0].sequenceNumber == c
    requires AllWellFormed(EnvOf(codec, kv), batches, MetaAfter(kv, c).delayedMessageCount)
    requires AddOutcome(keccak, codec, a, batches).Some?
    ensures AddOutcome(keccak, codec, a, batches) == Some(metas)
    ensures Recounts(codec, MetaAfter(kv, c), batches, metas)
    ensures |metas| == |batches| && forall j: nat | j < |batches| :: Chains(MetaAfter(kv, c), batches, metas, c, j)
    ensures var f := AddBatches(a, c, metas);
            && Inv(keccak, f, c + |batches|, Record(checked, c, batches)) && Clean(f, c + |batches|)
            && SameDelayed(kv, a) && SameDelayed(a, f)
            && (forall k: nat | k <= c :: MetaAfter(f, k) == MetaAfter(kv, k))
            && (forall j: nat | j <= |metas| :: MetaAfter(f, c + j) == LastMeta(MetaAfter(kv, c), metas, j))
  {
    hide Inv, Clean, SameOutsideLog, AllWellFormed, EnvOf, MetaAfter, BatchesCheckOut, MetasFor, Recounts, AddBatches,
         Recorded, NonDecreasing, Record, SameDelayed, SameBatches, Holds, ReadMeta, LastMeta;
    OutsideKeepsInv(keccak, kv, a, c, checked);
    var prev := MetaAfter(kv, c);
    OldMetasAgree(kv, kv, a, c, c) by { SameIsSame(kv, c); }
    metas := AddOutcome(keccak, codec, a, batches).value;
    MetasForRecounts(codec, prev, batches);
    NewChains(keccak, codec, a, prev, c, batches, metas);
    RecordIsRecorded(keccak, codec, a, checked, prev.accumulator, c, prev, batches);
    EnvCodec(codec, kv);
    MetasDoNotFall(EnvOf(codec, kv), prev, batches, metas);
    AddBatchesKeeps(keccak, a, c, checked, Record(checked, c, batches), c, metas);
    var f := AddBatches(a, c, metas);
    RecountsLength(codec, prev, batches, metas);
    forall k: nat | k <= c
      ensures MetaAfter(f, k) == MetaAfter(kv, k)
    {
      OldMetasAgree(kv, a, f, c, k);
    }
    forall j: nat | j <= |metas|
      ensures MetaAfter(f, c + j) == LastMeta(prev, metas, j)
    {
      NewMetasAgree(f, c, prev, metas, j);
    }
  }

  lemma EnvCodec(codec: Codec, kv: KeyValues)
    ensures EnvOf(codec, kv).codec == codec
  {
  }

  lemma RecountsLength(codec: Codec, prev: BatchMetadata, batches: seq<SequencerInboxBatch>, metas: seq<BatchMetadata>)
    requires Recounts(codec, prev, batches, metas)
    ensures |metas| == |batches|
  {
  }

  /** A successful ingest of well-formed batches extends the explained history by exactly those batches. */
  lemma IngestKeeps(keccak: Keccak, codec: Codec, kv: KeyValues, checked: map<nat, Hash32>,
                    hist: seq<SequencerInboxBatch>, batches: seq<SequencerInboxBatch>, kv': KeyValues)
    requires PipelineInv(keccak, codec, kv, checked, hist)
    requires batches != [] && batches[0].sequenceNumber == |hist|
    requires AllWellFormed(EnvOf(codec, kv), batches, MetaAfter(kv, |hist|).delayedMessageCount)
    requires Drain(EnvOf(codec, kv), batches, MetaAfter(kv, |hist|).delayedMessageCount).outcome.Done?
    requires IngestResult(keccak, codec, kv, batches) == Some(kv')
    ensures PipelineInv(keccak, codec, kv', Record(checked, |hist|, batches), hist + batches)
  {
    hide Inv, Clean, Produced, AllWellFormed, EnvOf, MetaAfter, DrainFrom, AddOutcome, AddBatches, AppendAt, LogInv,
         Log, MessageCount, LastStoredRead, Recounts, SliceAt, SameDelayed, AgreesBelow, Record, ReadBefore, Announces,
         SameOutsideLog, StrippedAll, LastMeta, Offset, DelayedAfter;
    var c, env, prev := |hist|, EnvOf(codec, kv), MetaAfter(kv, |hist|);
    var d := Drain(env, batches, prev.delayedMessageCount);
    var a := AppendAt(kv, MessageCount(kv), d.msgs);
    AppendedLog(codec, kv, a, batches, prev.delayedMessageCount);
    var metas := AddedBatches(keccak, codec, kv, a, checked, c, batches);
    AddBatchesLog(a, c, metas);
    SameLogSame(a, kv');
    RecountsLength(codec, prev, batches, metas);
    EnvCodec(codec, kv);
    StartOffset(prev, metas, batches);
    DrainSlices(env, prev, batches, metas, 0, Log(kv));
    LastTotals(codec, prev, metas, batches, kv', c);
    assert |hist + batches| == c + |batches|;
    assert |Log(kv')| == MessageCount(kv');
    forall k: nat | k < |hist + batches|
      ensures Produced(codec, kv', hist + batches, k)
    {
      GrownEnv(keccak, codec, kv, a, kv', c, checked, (hist + batches)[k].afterDelayedCount);
      if k < c {
        assert Produced(codec, kv, hist, k);
        LogPrefix(codec, kv, kv', hist, k);
        ProducedStays(codec, kv, kv', hist, hist + batches, k);
      } else {
        var j := k - c;
        ReadIsLast(codec, prev, batches, metas, j);
        assert Chains(prev, batches, metas, c, j);
        AllAnnounce(env, batches, prev.delayedMessageCount, j);
        NewDescribed(codec, prev, hist, batches, metas, kv', j);
        assert SliceAt(env, prev, batches, metas, Log(kv) + d.msgs, j);
        ProducedNew(keccak, codec, kv, kv', hist, batches, prev, metas, Log(kv), d.msgs, j);
      }
    }
  }

  lemma LogPrefix(codec: Codec, kv: KeyValues, kv': KeyValues, hist: seq<SequencerInboxBatch>, k: nat)
    requires LogInv(kv) && LogInv(kv') && k < |hist| && Produced(codec, kv, hist, k) && Log(kv) <= Log(kv')
    ensures MessagesAfter(kv, k + 1) <= MessageCount(kv) <= MessageCount(kv')
    ensures Log(kv')[..MessagesAfter(kv, k + 1)] == Log(kv)[..MessagesAfter(kv, k + 1)]
  {
    hide WalkOf, EnvOf, LogInv, Log, MetaAfter, Announces, Described;
    assert |Log(kv)| == MessageCount(kv) && |Log(kv')| == MessageCount(kv');
  }

  lemma GrownEnv(keccak: Keccak, codec: Codec, kv: KeyValues, a: KeyValues, f: KeyValues, c: nat,
                 checked: map<nat, Hash32>, n: nat)
    requires Inv(keccak, kv, c, checked) && SameDelayed(kv, a) && SameDelayed(a, f)
    ensures AgreesBelow(EnvOf(codec, kv), EnvOf(codec, f), n)
  {
    hide DelayedInv, BatchInv, SequencedInv, CheckedInv, EnvOf, SameDelayed;
    SameEnv(keccak, codec, kv, a, n);
    SameEnv(keccak, codec, a, f, n);
  }

  lemma AllAnnounce(env: Env, batches: seq<SequencerInboxBatch>, read: u64, j: nat)
    requires AllWellFormed(env, batches, read) && j < |batches|
    ensures Announces(env.codec, batches[j])
  {
    hide Announces, KindsKnown, L2Readable, CountDelayed, Increment, Parse;
    assert WellFormed(env, batches[j], ReadBefore(batches, j, read));
  }

  lemma StartOffset(prev: BatchMetadata, metas: seq<BatchMetadata>, batches: seq<SequencerInboxBatch>)
    ensures Offset(prev, metas, 0) == prev.messageCount
    ensures ReadBefore(batches, 0, prev.delayedMessageCount) == prev.delayedMessageCount
  {
  }

  lemma ReadIsLast(codec: Codec, prev: BatchMetadata, batches: seq<SequencerInboxBatch>, metas: seq<BatchMetadata>,
                   j: nat)
    requires Recounts(codec, prev, batches, metas) && j <= |metas| == |batches|
    ensures ReadBefore(batches, j, prev.delayedMessageCount) == LastMeta(prev, metas, j).delayedMessageCount
  {
    hide Recounts;
    if j > 0 {
      RecountsAt(codec, prev, batches, metas, j - 1);
    }
  }

  lemma LastTotals(codec: Codec, prev: BatchMetadata, metas: seq<BatchMetadata>, batches: seq<SequencerInboxBatch>,
                   f: KeyValues, c: nat)
    requires Recounts(codec, prev, batches, metas) && |metas| == |batches| > 0
    requires MetaAfter(f, c + |metas|) == LastMeta(prev, metas, |metas|)
    ensures MessagesAfter(f, c + |batches|) == Offset(prev, metas, |metas|)
    ensures DelayedAfter(f, c + |batches|) == batches[|batches| - 1].afterDelayedCount
  {
    hide Recounts, MetaAfter;
    RecountsAt(codec, prev, batches, metas, |metas| - 1);
  }

  // ----- who owns a message

  lemma {:induction false} CountsRise(codec: Codec, kv: KeyValues, hist: seq<SequencerInboxBatch>, i: nat, j: nat)
    requires LogInv(kv) && i < j <= |hist| && forall k: nat | k < |hist| :: Produced(codec, kv, hist, k)
    ensures MessagesAfter(kv, i) < MessagesAfter(kv, j)
    decreases j - i
  {
    hide WalkOf, EnvOf, Log, LogInv, MetaAfter;
    assert Produced(codec, kv, hist, j - 1);
    if i < j - 1 {
      CountsRise(codec, kv, hist, i, j - 1);
    }
  }

  lemma InvIsCaughtUp(keccak: Keccak, codec: Codec, kv: KeyValues, checked: map<nat, Hash32>,
                      hist: seq<SequencerInboxBatch>)
    requires PipelineInv(keccak, codec, kv, checked, hist)
    ensures CaughtUp(kv) && StoredBatches(kv) == |hist| && AlignedAt(kv, |hist|)
  {
    hide Produced, LogInv, MetaAfter, DelayedInv, SequencedInv, CheckedInv, ReadMeta;
    forall i: nat, j: nat | i < j <= |hist|
      ensures MessagesAfter(kv, i) < MessagesAfter(kv, j)
    {
      CountsRise(codec, kv, hist, i, j);
    }
  }

  /** The batch that a search names for a stored message is the one whose drain put it there. */
  lemma OwnerDrainedIt(keccak: Keccak, codec: Codec, kv: KeyValues, checked: map<nat, Hash32>,
                       hist: seq<SequencerInboxBatch>, i: nat, r: (nat, bool))
    requires PipelineInv(keccak, codec, kv, checked, hist) && i < MessageCount(kv)
    requires Owns(kv, |hist|, i, r)
    ensures r.1 && r.0 < |hist|
    ensures var w := WalkOf(EnvOf(codec, kv), hist[r.0], MetaAfter(kv, r.0).delayedMessageCount);
            var lo := MessagesAfter(kv, r.0);
            lo <= i < lo + |w.msgs| && Log(kv)[i] == Stripped(w.msgs[i - lo])
  {
    hide WalkOf, EnvOf, Log, LogInv, MetaAfter, Inv, Clean, LastStoredRead;
    assert Produced(codec, kv, hist, r.0);
    var lo, hi := MessagesAfter(kv, r.0), MessagesAfter(kv, r.0 + 1);
    assert |Log(kv)| == MessageCount(kv);
    assert Log(kv)[i] == Log(kv)[lo..hi][i - lo];
  }

  /** The search itself, on a state the pipeline can reach. */
  method FindOwner(tracker: InboxTracker, ghost hist: seq<SequencerInboxBatch>, ghost checked: map<nat, Hash32>, i: nat)
    returns (r: Result<(nat, bool)>)
    requires tracker.Coherent() && PipelineInv(tracker.keccak, tracker.codec, tracker.db.kv, checked, hist)
    modifies tracker.db, tracker`cache
    ensures tracker.db.kv == old(tracker.db.kv)
    ensures r.Ok? && Owns(tracker.db.kv, |hist|, i, r.value)
  {
    hide PipelineInv, StrictCounts, Repaired, Owns, LogInv, BatchInv;
    ghost var kv := tracker.db.kv;
    InvIsCaughtUp(tracker.keccak, tracker.codec, kv, checked, hist);
    CaughtUpFacts(kv);
    r := tracker.FindInboxBatchContainingMessage(i);
  }
}
