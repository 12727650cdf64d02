/**
 Delayed counts that fall. Nothing checks that the delayed counts of batches do not fall, and the index that decides how
 far a delayed change rolls back has one row per count. This says exactly when it still rolls back far enough.
 */
module FallingCounts {
  import opened Basics
  import opened L1Message
  import opened SequencerMessages
  import opened Store
  import opened TrackerSpec
  import opened BatchOps
  import opened Tracker

  // ----- what the index holds, whatever the counts

  /** Batch `b` reaches delayed count `d` from below. */
  predicate RisesTo(kv: KeyValues, b: nat, d: nat) {
    DelayedAfter(kv, b) < d == DelayedAfter(kv, b + 1)
  }

  /** The row under `d` exists if some batch rises to `d`, and then names the last one that does. */
  ghost predicate RowIs(kv: KeyValues, n: nat, d: nat) {
    && (forall b: nat | b < n && RisesTo(kv, b, d) :: SequencedKey(d) in kv)
    && (SequencedKey(d) in kv ==>
          var v := NumberAt(kv, SequencedKey(d));
          && v.Some? && v.value < n && RisesTo(kv, v.value, d)
          && forall b: nat | v.value < b < n :: !RisesTo(kv, b, d))
  }

  ghost predicate RowsAre(kv: KeyValues, n: nat) {
    forall d: nat | d > 0 :: RowIs(kv, n, d)
  }

  /** Each batch whose count exceeds the one before it exceeds all earlier ones. */
  ghost predicate RisesAreHighs(kv: KeyValues, n: nat) {
    forall b: nat, i: nat | i <= b < n && DelayedAfter(kv, b) < DelayedAfter(kv, b + 1) ::
      DelayedAfter(kv, i) < DelayedAfter(kv, b + 1)
  }

  ghost predicate AlwaysExact(kv: KeyValues, n: nat) {
    forall p: nat :: RollsBackExactly(kv, n, p)
  }

  lemma {:induction false} FirstOver(kv: KeyValues, n: nat, p: nat) returns (b: nat)
    requires DelayedAfter(kv, n) > p
    ensures b < n && DelayedAfter(kv, b) <= p < DelayedAfter(kv, b + 1)
    ensures forall i: nat | i <= b :: DelayedAfter(kv, i) <= p
  {
    hide ReadMeta;
    assert DelayedAfter(kv, 0) == 0;
    b := 0;
    while DelayedAfter(kv, b + 1) <= p
      invariant b < n && forall i: nat | i <= b :: DelayedAfter(kv, i) <= p
      decreases n - b
    {
      b := b + 1;
    }
  }

  lemma HighsRollBack(kv: KeyValues, n: nat, p: nat)
    requires RowsAre(kv, n) && RisesAreHighs(kv, n)
    ensures RollsBackExactly(kv, n, p)
  {
    hide DelayedAfter, MetaAfter, FirstAbove;
    FirstAboveIs(kv, p);
    var f := FirstAbove(kv, p);
    if f.Some? {
      assert RowIs(kv, n, f.value);
    }
    if i: nat :| i <= n && DelayedAfter(kv, i) > p {
      var b := FirstOver(kv, i, p);
      var d := DelayedAfter(kv, b + 1);
      assert RowIs(kv, n, d);
      assert RisesTo(kv, b, d);
      LaterRise(kv, n, b, NumberAt(kv, SequencedKey(f.value)).value);
    }
  }

  lemma LaterRise(kv: KeyValues, n: nat, b: nat, v: nat)
    requires RisesAreHighs(kv, n) && v < n && DelayedAfter(kv, v) < DelayedAfter(kv, v + 1)
    ensures b < v ==> DelayedAfter(kv, b + 1) < DelayedAfter(kv, v + 1)
  {
    hide DelayedAfter;
  }

  lemma LowRiseMisleads(kv: KeyValues, n: nat, b: nat, i: nat)
    requires RowsAre(kv, n) && i <= b < n
    requires DelayedAfter(kv, b) < DelayedAfter(kv, b + 1) <= DelayedAfter(kv, i)
    ensures !RollsBackExactly(kv, n, DelayedAfter(kv, b + 1) - 1)
  {
    hide DelayedAfter, MetaAfter, FirstAbove;
    var d := DelayedAfter(kv, b + 1);
    assert RowIs(kv, n, d);
    assert RisesTo(kv, b, d);
    FirstAboveIs(kv, d - 1);
    assert FirstAbove(kv, d - 1) == Some(d);
    assert NumberAt(kv, SequencedKey(d)).value >= b;
  }

  /** The index rolls back exactly at every position if and only if every rise is a new high. */
  lemma ExactIffHighs(kv: KeyValues, n: nat)
    requires RowsAre(kv, n)
    ensures AlwaysExact(kv, n) <==> RisesAreHighs(kv, n)
  {
    hide DelayedAfter, RollsBackExactly, RowsAre;
    if RisesAreHighs(kv, n) {
      forall p: nat
        ensures RollsBackExactly(kv, n, p)
      {
        HighsRollBack(kv, n, p);
      }
    } else {
      var b: nat, i: nat :| i <= b < n && DelayedAfter(kv, b) < DelayedAfter(kv, b + 1)
                            && DelayedAfter(kv, i) >= DelayedAfter(kv, b + 1);
      LowRiseMisleads(kv, n, b, i);
    }
  }

  // ----- one add

  /** The first `pos` batches are indexed, every rise among them is a new high, and the last count is the highest. */
  ghost predicate Ready(kv: KeyValues, pos: nat) {
    && RisesAreHighs(kv, pos)
    && (forall i: nat | i <= pos :: DelayedAfter(kv, i) <= DelayedAfter(kv, pos))
    && (forall d: nat | 0 < d <= DelayedAfter(kv, pos) :: RowIs(kv, pos, d))
  }

  /** Starting over at batch 0, any store will do. */
  lemma StartIsReady(kv: KeyValues)
    ensures Ready(kv, 0)
  {
    assert DelayedAfter(kv, 0) == 0;
  }

  /** So will every store that satisfies the tracker's invariant, at any batch. */
  lemma InvIsReady(kv: KeyValues, c: nat, pos: nat)
    requires BatchInv(kv, c) && SequencedInv(kv, c) && pos <= c
    ensures Ready(kv, pos)
  {
    hide DelayedAfter, MetaAfter;
    forall d: nat | 0 < d <= DelayedAfter(kv, pos)
      ensures RowIs(kv, pos, d)
    {
      if SequencedKey(d) in kv {
        assert RowNames(kv, c, d);
        var v := NumberAt(kv, SequencedKey(d)).value;
        Monotone(kv, pos, v, c);
        Monotone(kv, pos, c, c);
        forall b: nat | v < b < pos
          ensures !RisesTo(kv, b, d)
        {
          Monotone(kv, v + 1, b, c);
        }
      }
      forall b: nat | b < pos && RisesTo(kv, b, d)
        ensures SequencedKey(d) in kv
      {
        assert NumberAt(kv, SequencedKey(DelayedAfter(kv, b + 1))) == Some(b);
      }
    }
  }

  lemma SameRowIs(kv: KeyValues, g: KeyValues, n: nat, d: nat)
    requires RowIs(kv, n, d) && SameRows(kv, g, SequencedKey(d))
    requires forall i: nat | i <= n :: DelayedAfter(g, i) == DelayedAfter(kv, i)
    ensures RowIs(g, n, d)
  {
    hide DelayedAfter;
    assert forall b: nat | b < n :: RisesTo(g, b, d) <==> RisesTo(kv, b, d);
  }

  /** One more batch: a row for it if it rises, the other rows as they were. */
  lemma PutRow(g: KeyValues, n: nat, meta: BatchMetadata, d: nat)
    requires RowIs(g, n, d) && d > 0
    requires forall i: nat | i <= n :: DelayedAfter(PutMeta(g, n, DelayedAfter(g, n), meta), i) == DelayedAfter(g, i)
    requires DelayedAfter(PutMeta(g, n, DelayedAfter(g, n), meta), n + 1) == meta.delayedMessageCount
    ensures RowIs(PutMeta(g, n, DelayedAfter(g, n), meta), n + 1, d)
  {
    hide DelayedAfter, PutMeta;
    var f := PutMeta(g, n, DelayedAfter(g, n), meta);
    PutMetaRows(g, n, meta);
    assert forall b: nat | b < n :: RisesTo(f, b, d) <==> RisesTo(g, b, d);
    assert RisesTo(f, n, d) <==> DelayedAfter(g, n) < d == meta.delayedMessageCount;
    if !RisesTo(f, n, d) {
      assert SameRows(g, f, SequencedKey(d));
    }
  }

  lemma PutRows(g: KeyValues, n: nat, meta: BatchMetadata)
    requires RowsAre(g, n)
    ensures var f := PutMeta(g, n, DelayedAfter(g, n), meta);
            && RowsAre(f, n + 1)
            && (forall i: nat | i <= n :: DelayedAfter(f, i) == DelayedAfter(g, i))
            && DelayedAfter(f, n + 1) == meta.delayedMessageCount
  {
    hide PutMeta, RowIs;
    var f, next := PutMeta(g, n, DelayedAfter(g, n), meta), n + 1;
    PutMetaRows(g, n, meta);
    forall i: nat | i <= n
      ensures DelayedAfter(f, i) == DelayedAfter(g, i)
    {
      assert i > 0 ==> SameRows(g, f, MetaKey(i - 1));
    }
    forall d: nat | d > 0
      ensures RowIs(f, next, d)
    {
      assert RowIs(g, n, d);
      PutRow(g, n, meta, d);
    }
  }

  /** Counts of the new batches, in front of which come those of `g`. */
  ghost predicate CountsAre(g: KeyValues, f: KeyValues, pos: nat, metas: seq<BatchMetadata>) {
    && (forall i: nat | i <= pos :: DelayedAfter(f, i) == DelayedAfter(g, i))
    && (forall j: nat | j < |metas| :: DelayedAfter(f, pos + j + 1) == metas[j].delayedMessageCount)
  }

  lemma {:induction false} PutMetasRows(g: KeyValues, pos: nat, metas: seq<BatchMetadata>)
    requires RowsAre(g, pos)
    ensures var f := PutMetas(g, pos, DelayedAfter(g, pos), metas);
            RowsAre(f, pos + |metas|) && CountsAre(g, f, pos, metas)
    decreases |metas|
  {
    hide PutMeta, RowsAre, DelayedAfter;
    if metas != [] {
      var n := |metas| - 1;
      PutMetasRows(g, pos, metas[..n]);
      var front := PutMetas(g, pos, DelayedAfter(g, pos), metas[..n]);
      assert DelayedAfter(front, pos + n) == Before(DelayedAfter(g, pos), metas, n) by {
        assert n > 0 ==> DelayedAfter(front, pos + (n - 1) + 1) == metas[..n][n - 1].delayedMessageCount;
      }
      PutRows(front, pos + n, metas[n]);
      var f := PutMeta(front, pos + n, DelayedAfter(front, pos + n), metas[n]);
      forall j: nat | j < |metas|
        ensures DelayedAfter(f, pos + j + 1) == metas[j].delayedMessageCount
      {
        if j < n {
          assert DelayedAfter(front, pos + j + 1) == metas[..n][j].delayedMessageCount;
        }
      }
    }
  }

  /** What an add leaves below its own puts: the rows up to the count it starts from. */
  lemma CutRows(kv: KeyValues, pos: nat, n: nat)
    requires pos <= n && Ready(kv, pos)
    ensures var g := DropFrom(kv, BatchMetaTable, n) - KeysFrom(kv, DelayedSequencedTable, DelayedAfter(kv, pos) + 1);
            RowsAre(g, pos) && forall i: nat | i <= pos :: DelayedAfter(g, i) == DelayedAfter(kv, i)
  {
    hide RowIs;
    var prev := DelayedAfter(kv, pos);
    var g := DropFrom(kv, BatchMetaTable, n) - KeysFrom(kv, DelayedSequencedTable, prev + 1);
    forall i: nat | i <= pos
      ensures DelayedAfter(g, i) == DelayedAfter(kv, i)
    {
      assert i > 0 ==> SameRows(kv, g, MetaKey(i - 1));
    }
    forall d: nat | d > 0
      ensures RowIs(g, pos, d)
    {
      if d <= prev {
        SameRowIs(kv, g, pos, d);
      } else {
        NoRiseAbove(g, pos, prev, d);
      }
    }
  }

  lemma NoRiseAbove(g: KeyValues, pos: nat, prev: nat, d: nat)
    requires SequencedKey(d) !in g && d > prev && forall i: nat | i <= pos :: DelayedAfter(g, i) <= prev
    ensures RowIs(g, pos, d)
  {
    hide DelayedAfter;
  }

  lemma AddedRows(kv: KeyValues, pos: nat, metas: seq<BatchMetadata>)
    requires Ready(kv, pos)
    ensures var f := AddBatches(kv, pos, metas);
            RowsAre(f, pos + |metas|) && CountsAre(kv, f, pos, metas)
  {
    hide DelayedAfter, RowsAre, PutMetas, Ready;
    var n, prev := pos + |metas|, DelayedAfter(kv, pos);
    var g := DropFrom(kv, BatchMetaTable, n) - KeysFrom(kv, DelayedSequencedTable, prev + 1);
    CutRows(kv, pos, n);
    PutMetasRows(g, pos, metas);
    CountChanges(PutMetas(g, pos, prev, metas), n);
  }

  lemma CountChanges(kv: KeyValues, n: nat)
    ensures var f := kv[BatchCountKey := StoredNumber(n)];
            && (forall i: nat :: DelayedAfter(f, i) == DelayedAfter(kv, i))
            && (RowsAre(kv, n) ==> RowsAre(f, n))
  {
    hide RowIs;
    var f := kv[BatchCountKey := StoredNumber(n)];
    if RowsAre(kv, n) {
      forall d: nat | d > 0
        ensures RowIs(f, n, d)
      {
        SameRowIs(kv, f, n, d);
      }
    }
  }

  /** On the counts alone: each new count above the one before it is above all the others before it, `prev` included. */
  ghost predicate FreshHighs(prev: nat, metas: seq<BatchMetadata>) {
    forall j: nat | j < |metas| && Before(prev, metas, j) < metas[j].delayedMessageCount :: IsHigh(prev, metas, j)
  }

  ghost predicate IsHigh(prev: nat, metas: seq<BatchMetadata>, j: nat)
    requires j < |metas|
  {
    prev < metas[j].delayedMessageCount
    && forall i: nat | i < j :: metas[i].delayedMessageCount < metas[j].delayedMessageCount
  }

  lemma CountsAreBefore(kv: KeyValues, f: KeyValues, pos: nat, metas: seq<BatchMetadata>, j: nat)
    requires CountsAre(kv, f, pos, metas) && j <= |metas|
    ensures DelayedAfter(f, pos + j) == Before(DelayedAfter(kv, pos), metas, j)
  {
    hide DelayedAfter;
    if j > 0 {
      assert DelayedAfter(f, pos + (j - 1) + 1) == metas[j - 1].delayedMessageCount;
    }
  }

  lemma FreshGivesHigh(kv: KeyValues, f: KeyValues, pos: nat, metas: seq<BatchMetadata>, i: nat, b: nat)
    requires Ready(kv, pos) && CountsAre(kv, f, pos, metas) && FreshHighs(DelayedAfter(kv, pos), metas)
    requires i <= b < pos + |metas| && DelayedAfter(f, b) < DelayedAfter(f, b + 1)
    ensures DelayedAfter(f, i) < DelayedAfter(f, b + 1)
  {
    hide DelayedAfter, RowIs, Before;
    if b >= pos {
      var prev, j := DelayedAfter(kv, pos), b - pos;
      CountsAreBefore(kv, f, pos, metas, j);
      assert DelayedAfter(f, pos + j + 1) == metas[j].delayedMessageCount;
      assert IsHigh(prev, metas, j);
      if i > pos {
        var k := i - pos - 1;
        assert DelayedAfter(f, pos + k + 1) == metas[k].delayedMessageCount;
      }
    }
  }

  lemma HighGivesFresh(kv: KeyValues, f: KeyValues, pos: nat, metas: seq<BatchMetadata>, j: nat)
    requires CountsAre(kv, f, pos, metas) && RisesAreHighs(f, pos + |metas|)
    requires j < |metas| && Before(DelayedAfter(kv, pos), metas, j) < metas[j].delayedMessageCount
    ensures IsHigh(DelayedAfter(kv, pos), metas, j)
  {
    hide DelayedAfter, Before;
    var b := pos + j;
    CountsAreBefore(kv, f, pos, metas, j);
    assert DelayedAfter(f, pos + j + 1) == metas[j].delayedMessageCount;
    assert DelayedAfter(f, b) < DelayedAfter(f, b + 1);
    assert DelayedAfter(f, pos) < DelayedAfter(f, b + 1);
    forall i: nat | i < j
      ensures metas[i].delayedMessageCount < metas[j].delayedMessageCount
    {
      var k := pos + i + 1;
      assert DelayedAfter(f, k) == metas[i].delayedMessageCount;
      assert DelayedAfter(f, k) < DelayedAfter(f, b + 1);
    }
  }

  lemma HighsOnCounts(kv: KeyValues, f: KeyValues, pos: nat, metas: seq<BatchMetadata>)
    requires Ready(kv, pos) && CountsAre(kv, f, pos, metas)
    ensures RisesAreHighs(f, pos + |metas|) <==> FreshHighs(DelayedAfter(kv, pos), metas)
  {
    hide DelayedAfter, Ready, CountsAre, IsHigh, Before;
    var n, prev := pos + |metas|, DelayedAfter(kv, pos);
    if FreshHighs(prev, metas) {
      forall b: nat, i: nat | i <= b < n && DelayedAfter(f, b) < DelayedAfter(f, b + 1)
        ensures DelayedAfter(f, i) < DelayedAfter(f, b + 1)
      {
        FreshGivesHigh(kv, f, pos, metas, i, b);
      }
    }
    if RisesAreHighs(f, n) {
      forall j: nat | j < |metas| && Before(prev, metas, j) < metas[j].delayedMessageCount
        ensures IsHigh(prev, metas, j)
      {
        HighGivesFresh(kv, f, pos, metas, j);
      }
    }
  }

  /**
   After an add, delayed changes roll back exactly enough at every position if and only if each new count above the
   one before it is a new high.
   */
  lemma AddIsExactIff(kv: KeyValues, pos: nat, metas: seq<BatchMetadata>)
    requires Ready(kv, pos)
    ensures AlwaysExact(AddBatches(kv, pos, metas), pos + |metas|) <==> FreshHighs(DelayedAfter(kv, pos), metas)
  {
    hide DelayedAfter, AddBatches, RowsAre, RisesAreHighs, AlwaysExact, FreshHighs, CountsAre, Ready;
    AddedRows(kv, pos, metas);
    ExactIffHighs(AddBatches(kv, pos, metas), pos + |metas|);
    HighsOnCounts(kv, AddBatches(kv, pos, metas), pos, metas);
  }

  /** In particular after an add at any batch of a store that satisfies the tracker's invariant. */
  lemma AddToInvIsExactIff(keccak: Keccak, kv: KeyValues, c: nat, checked: map<nat, Hash32>, pos: nat,
                           metas: seq<BatchMetadata>)
    requires Inv(keccak, kv, c, checked) && pos <= c
    ensures AlwaysExact(AddBatches(kv, pos, metas), pos + |metas|) <==> FreshHighs(DelayedAfter(kv, pos), metas)
  {
    hide DelayedInv, BatchInv, SequencedInv, CheckedInv, DelayedAfter, AddBatches, AlwaysExact, FreshHighs, Ready;
    InvIsReady(kv, c, pos);
    AddIsExactIff(kv, pos, metas);
  }

  // ----- further adds

  /** As long as the last count is also the highest, the next add starts from a ready store again. */
  lemma StaysReady(kv: KeyValues, pos: nat, metas: seq<BatchMetadata>)
    requires Ready(kv, pos) && FreshHighs(DelayedAfter(kv, pos), metas)
    ensures var f, n := AddBatches(kv, pos, metas), pos + |metas|;
            Ready(f, n) <==> forall i: nat | i <= n :: DelayedAfter(f, i) <= DelayedAfter(f, n)
  {
    hide DelayedAfter, AddBatches, FreshHighs, CountsAre, RowIs;
    AddedRows(kv, pos, metas);
    HighsOnCounts(kv, AddBatches(kv, pos, metas), pos, metas);
  }

  /**
   Once the last count has fallen below an earlier one, whatever is added next, the index no longer rolls back far
   enough.
   */
  lemma AddAfterFallMisleads(kv: KeyValues, pos: nat, metas: seq<BatchMetadata>, i: nat)
    requires i <= pos && DelayedAfter(kv, i) > DelayedAfter(kv, pos)
    ensures !RollsBackExactly(AddBatches(kv, pos, metas), pos + |metas|, DelayedAfter(kv, i) - 1)
  {
    hide DelayedAfter, AddBatches, FirstAbove;
    var f, p := AddBatches(kv, pos, metas), DelayedAfter(kv, i) - 1;
    NewRowsOnly(kv, pos, metas, p + 1, i);
    FirstAboveIs(f, p);
    var first := FirstAbove(f, p);
    if first.Some? {
      NewRowsOnly(kv, pos, metas, first.value, i);
    }
  }

  /** Rows above the count an add starts from name new batches; the counts before them are as they were. */
  lemma NewRowsOnly(kv: KeyValues, pos: nat, metas: seq<BatchMetadata>, d: nat, i: nat)
    requires d > DelayedAfter(kv, pos) && i <= pos
    ensures var f := AddBatches(kv, pos, metas);
            && (SequencedKey(d) in f
              ==> NumberAt(f, SequencedKey(d)).Some? && NumberAt(f, SequencedKey(d)).value >= pos)
            && DelayedAfter(f, i) == DelayedAfter(kv, i)
  {
    hide PutMetas;
    var n, prev := pos + |metas|, DelayedAfter(kv, pos);
    var g := DropFrom(kv, BatchMetaTable, n) - KeysFrom(kv, DelayedSequencedTable, prev + 1);
    PutsNameNew(g, pos, prev, metas, d);
    if i > 0 {
      PutsKeepOld(g, pos, prev, metas, i - 1);
      assert SameRows(kv, g, MetaKey(i - 1));
    }
  }

  lemma {:induction false} PutsNameNew(g: KeyValues, pos: nat, prev: nat, metas: seq<BatchMetadata>, d: nat)
    ensures var f := PutMetas(g, pos, prev, metas);
            SequencedKey(d) in f && SequencedKey(d) !in g ==>
              NumberAt(f, SequencedKey(d)).Some? && NumberAt(f, SequencedKey(d)).value >= pos
    decreases |metas|
  {
    hide Before;
    if metas != [] {
      PutsNameNew(g, pos, prev, metas[..|metas| - 1], d);
    }
  }

  lemma {:induction false} PutsKeepOld(g: KeyValues, pos: nat, prev: nat, metas: seq<BatchMetadata>, i: nat)
    requires i < pos
    ensures SameRows(g, PutMetas(g, pos, prev, metas), MetaKey(i))
    decreases |metas|
  {
    hide Before;
    if metas != [] {
      PutsKeepOld(g, pos, prev, metas[..|metas| - 1], i);
    }
  }

  // ----- it happens

  /** Whatever their order, counts that the stored delayed messages reach are those of batches the tracker accepts. */
  lemma AnyCountsAreAccepted(keccak: Keccak, codec: Codec, kv: KeyValues, counts: seq<u64>)
    requires DelayedInv(keccak, kv) && counts != []
    requires forall j | 0 <= j < |counts| :: counts[j] <= NumberAt(kv, DelayedCountKey).value
    ensures var batches := PlainBatches(keccak, kv, 0, ZERO_HASH, counts);
            && batches != [] && batches[0].sequenceNumber == 0
            && AddOutcome(keccak, codec, kv, batches).Some?
            && var metas := AddOutcome(keccak, codec, kv, batches).value;
               |metas| == |counts| && forall j | 0 <= j < |counts| :: metas[j].delayedMessageCount == counts[j]
  {
    hide BatchesCheckOut, MetasFor, AccAt;
    var batches := PlainBatches(keccak, kv, 0, ZERO_HASH, counts);
    forall j | 0 <= j < |counts| && counts[j] > 0
      ensures AccAt(keccak, kv, counts[j] - 1).Ok?
    {
      ChainHasAccs(keccak, kv, counts[j] - 1);
    }
    PlainBatchesCheckOut(keccak, codec, kv, 0, NO_META, counts);
    CheckedChain(keccak, kv, ZERO_HASH, 0, batches, 0);
    MetasForLength(codec, NO_META, batches);
    forall j | 0 <= j < |counts|
      ensures MetasFor(codec, NO_META, batches).value[j].delayedMessageCount == counts[j]
    {
      MetasForDelayed(codec, NO_META, batches, j);
    }
  }

  lemma ChainHasAccs(keccak: Keccak, kv: KeyValues, i: nat)
    requires DelayedInv(keccak, kv) && i < NumberAt(kv, DelayedCountKey).value
    ensures AccAt(keccak, kv, i).Ok?
  {
    hide AccumulatorAfter;
    assert Linked(keccak, kv, i);
  }

  /**
   On every store that holds at least `x` delayed messages: batches with counts `x`, `y` and `z` in which the third
   rises without reaching above the first are accepted, and a change of delayed message `z - 1` keeps the first, which
   read it.
   */
  lemma FallingCountsMislead(keccak: Keccak, codec: Codec, kv: KeyValues, x: u64, y: u64, z: u64)
    requires DelayedInv(keccak, kv) && y < z <= x <= NumberAt(kv, DelayedCountKey).value
    ensures var batches := PlainBatches(keccak, kv, 0, ZERO_HASH, [x, y, z]);
            && batches != [] && AddOutcome(keccak, codec, kv, batches).Some?
            && var f := AddBatches(kv, 0, AddOutcome(keccak, codec, kv, batches).value);
               && RollbackTo(f, z - 1) == Some(2) && DelayedAfter(f, 1) == x
               && !RollsBackExactly(f, 3, z - 1)
  {
    hide AddBatches, AddOutcome, DelayedAfter, RowsAre, FirstAbove, DelayedInv, PlainBatches;
    AnyCountsAreAccepted(keccak, codec, kv, [x, y, z]);
    var metas := AddOutcome(keccak, codec, kv, PlainBatches(keccak, kv, 0, ZERO_HASH, [x, y, z])).value;
    StartIsReady(kv);
    AddedRows(kv, 0, metas);
    var f := AddBatches(kv, 0, metas);
    NewCount(kv, f, 0, metas, 0);
    NewCount(kv, f, 0, metas, 1);
    NewCount(kv, f, 0, metas, 2);
    LowRiseMisleads(f, 3, 2, 1);
    LastRowNames(f, 3);
  }

  lemma NewCount(kv: KeyValues, f: KeyValues, pos: nat, metas: seq<BatchMetadata>, j: nat)
    requires CountsAre(kv, f, pos, metas) && j < |metas|
    ensures DelayedAfter(f, pos + j + 1) == metas[j].delayedMessageCount
  {
    hide DelayedAfter;
  }

  /** A rise of the last batch is what its row names. */
  lemma LastRowNames(kv: KeyValues, n: nat)
    requires RowsAre(kv, n) && n > 0 && DelayedAfter(kv, n - 1) < DelayedAfter(kv, n)
    ensures RollbackTo(kv, DelayedAfter(kv, n) - 1) == Some(n - 1)
  {
    hide DelayedAfter, FirstAbove;
    var d, last := DelayedAfter(kv, n), n - 1;
    assert d == DelayedAfter(kv, last + 1);
    assert RowIs(kv, n, d);
    assert RisesTo(kv, last, d);
    FirstAboveIs(kv, d - 1);
  }
}
