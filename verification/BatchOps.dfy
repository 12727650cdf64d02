/** Adding, rolling back and counting sequencer batches, as functions on the store, and what they keep. */
module BatchOps {
  import opened Basics
  import opened BigEndian
  import opened L1Message
  import opened SequencerMessages
  import opened DrainSpec
  import opened Store
  import opened TrackerSpec

  // ----- the metadata of new batches

  /** Segments that hold an L2 message, plain or compressed. */
  function L2Count(segments: seq<Bytes>): nat {
    if segments == [] then 0 else
      var last := segments[|segments| - 1];
      L2Count(segments[..|segments| - 1]) + (if last != [] && (last[0] == 0 || last[0] == 1) then 1 else 0)
  }

  function MetaFor(m: SequencerMessage, b: SequencerInboxBatch, last: BatchMetadata): BatchMetadata {
    BatchMetadata(b.afterInboxAcc,
                  last.messageCount + L2Count(m.segments)
                    + SaturatingSub(b.afterDelayedCount, last.delayedMessageCount),
                  b.afterDelayedCount, b.parentChainBlockNumber)
  }

  function MetasFor(codec: Codec, last: BatchMetadata, batches: seq<SequencerInboxBatch>): Result<seq<BatchMetadata>>
    decreases |batches|
  {
    if batches == [] then Ok([]) else
      match Parse(codec, batches[0].serialized)
      case Err => Err
      case Ok(m) =>
        var meta := MetaFor(m, batches[0], last);
        match MetasFor(codec, meta, batches[1..])
        case Err => Err
        case Ok(rest) => Ok([meta] + rest)
  }

  /** Numbers are consecutive, inbox accumulators chain, and delayed accumulators match the stored messages. */
  predicate BatchesCheckOut(keccak: Keccak, kv: KeyValues, acc: Hash32, pos: nat, batches: seq<SequencerInboxBatch>)
    decreases |batches|
  {
    batches == [] ||
    var b := batches[0];
    && b.sequenceNumber == pos
    && acc == b.beforeInboxAcc
    && (b.afterDelayedCount > 0 ==> AccAt(keccak, kv, b.afterDelayedCount - 1) == Ok(b.afterDelayedAcc))
    && BatchesCheckOut(keccak, kv, b.afterInboxAcc, pos + 1, batches[1..])
  }

  /** The delayed count before the `i`th of `metas`. */
  function Before(prev: nat, metas: seq<BatchMetadata>, i: nat): nat
    requires i <= |metas|
  {
    if i == 0 then prev else metas[i - 1].delayedMessageCount
  }

  function PutMetas(kv: KeyValues, pos: nat, prev: nat, metas: seq<BatchMetadata>): KeyValues {
    if metas == [] then kv else
      var n := |metas| - 1;
      PutMeta(PutMetas(kv, pos, prev, metas[..n]), pos + n, Before(prev, metas, n), metas[n])
  }

  /** Stores one batch's metadata, and an index row if the batch is the first to reach its delayed count. */
  function PutMeta(kv: KeyValues, i: nat, before: nat, meta: BatchMetadata): KeyValues {
    var stored := kv[MetaKey(i) := StoredMeta(meta)];
    if meta.delayedMessageCount > before then stored[SequencedKey(meta.delayedMessageCount) := StoredNumber(i)]
    else stored
  }

  // ----- rolling back to `count` batches

  /** The outcome of a rollback, once both of its commits are done. */
  ghost function ReorgBatches(kv: KeyValues, count: nat): KeyValues {
    (DropFrom(kv, BatchMetaTable, count) - KeysFrom(kv, DelayedSequencedTable, DelayedAfter(kv, count) + 1))
    [BatchCountKey := StoredNumber(count)]
  }

  /** No index row lies above the last batch's delayed count. */
  ghost predicate Tidy(kv: KeyValues, c: nat) {
    forall d: nat | SequencedKey(d) in kv :: d <= DelayedAfter(kv, c)
  }

  lemma ReorgBatchesShrinks(kv: KeyValues, c: nat, count: nat, n: nat)
    requires BatchInv(kv, c) && count <= c && count <= n
    ensures var f := ReorgBatches(kv, count)[BatchCountKey := StoredNumber(n)];
            Shrinks(kv, f, count) && SameDelayed(kv, f)
            && forall d: nat | SequencedKey(d) in f :: d <= DelayedAfter(kv, count)
  {
    hide DelayedAfter;
    var f := ReorgBatches(kv, count)[BatchCountKey := StoredNumber(n)];
    assert forall i: nat :: MetaKey(i) in f <==> MetaKey(i) in kv && i < count;
  }

  /** A rollback keeps the first `count` batches and leaves nothing to repair or clear. */
  lemma ReorgBatchesKeeps(keccak: Keccak, kv: KeyValues, c: nat, checked: map<nat, Hash32>, count: nat, n: nat)
    requires Inv(keccak, kv, c, checked) && count <= c && count <= n
    ensures var f := ReorgBatches(kv, count)[BatchCountKey := StoredNumber(n)];
            && Inv(keccak, f, count, checked) && Tidy(f, count)
            && SameBatches(kv, f, count) && SameDelayed(kv, f)
  {
    hide AccAt, DelayedInv, DelayedAfter, MetaAfter, BatchInv, SequencedInv, Shrinks, ReorgBatches;
    var f := ReorgBatches(kv, count)[BatchCountKey := StoredNumber(n)];
    ReorgBatchesShrinks(kv, c, count, n);
    ShrinkKeeps(kv, f, c, count);
    DelayedInvFrame(keccak, kv, f);
    Monotone(kv, count, c, c);
  }

  // ----- adding one batch

  lemma PutMetaRows(kv: KeyValues, c: nat, meta: BatchMetadata)
    ensures var f := PutMeta(kv, c, DelayedAfter(kv, c), meta);
            && (forall k: Key | k != MetaKey(c) && k != SequencedKey(meta.delayedMessageCount) :: SameRows(kv, f, k))
            && ReadMeta(f, c) == Ok(meta) && MetaKey(c) in f
            && (meta.delayedMessageCount > DelayedAfter(kv, c) ==>
                  NumberAt(f, SequencedKey(meta.delayedMessageCount)) == Some(c))
            && (meta.delayedMessageCount <= DelayedAfter(kv, c) ==>
                  SameRows(kv, f, SequencedKey(meta.delayedMessageCount)))
  {
    hide DelayedAfter;
  }

  lemma PutMetaBatches(kv: KeyValues, c: nat, meta: BatchMetadata)
    requires BatchInv(kv, c) && DelayedAfter(kv, c) <= meta.delayedMessageCount
    requires c < NumberAt(kv, BatchCountKey).value
    ensures var f := PutMeta(kv, c, DelayedAfter(kv, c), meta);
            BatchInv(f, c + 1) && SameBatches(kv, f, c) && MetaAfter(f, c + 1) == meta
  {
    hide PutMeta;
    var f := PutMeta(kv, c, DelayedAfter(kv, c), meta);
    PutMetaRows(kv, c, meta);
    assert forall i: nat | i != c :: SameRows(kv, f, MetaKey(i));
    SameMetasSameBatches(kv, f, c);
    assert SameRows(kv, f, BatchCountKey);
    hide MetaAfter;
    forall i: nat, j: nat | i <= j <= c + 1
      ensures DelayedAfter(f, i) <= DelayedAfter(f, j)
    {
      assert i <= c ==> DelayedAfter(f, i) == DelayedAfter(kv, i) <= DelayedAfter(kv, c);
      assert j <= c ==> DelayedAfter(f, j) == DelayedAfter(kv, j);
    }
  }

  lemma PutMetaSequenced(kv: KeyValues, c: nat, meta: BatchMetadata)
    requires BatchInv(kv, c) && SequencedInv(kv, c) && Tidy(kv, c)
    requires DelayedAfter(kv, c) <= meta.delayedMessageCount && c < NumberAt(kv, BatchCountKey).value
    ensures var f := PutMeta(kv, c, DelayedAfter(kv, c), meta);
            SequencedInv(f, c + 1) && Tidy(f, c + 1)
  {
    hide PutMeta, MetaAfter, ReadMeta;
    var f := PutMeta(kv, c, DelayedAfter(kv, c), meta);
    PutMetaRows(kv, c, meta);
    PutMetaBatches(kv, c, meta);
    assert DelayedAfter(f, c + 1) == meta.delayedMessageCount;
    hide DelayedAfter;
    var top := meta.delayedMessageCount;
    forall d: nat | SequencedKey(d) in f
      ensures RowNames(f, c + 1, d) && d <= top
    {
      if d != top || top <= DelayedAfter(kv, c) {
        assert SameRows(kv, f, SequencedKey(d));
        assert RowNames(kv, c, d) && d <= DelayedAfter(kv, c);
        var v := NumberAt(kv, SequencedKey(d)).value;
        assert v < c && DelayedAfter(f, v) == DelayedAfter(kv, v) && DelayedAfter(f, v + 1) == DelayedAfter(kv, v + 1);
      }
    }
    forall b: nat | b < c + 1 && DelayedAfter(f, b) < DelayedAfter(f, b + 1)
      ensures NumberAt(f, SequencedKey(DelayedAfter(f, b + 1))) == Some(b)
    {
      if b < c {
        var d := DelayedAfter(kv, b + 1);
        assert NumberAt(kv, SequencedKey(d)) == Some(b);
        assert d <= DelayedAfter(kv, c);
        assert SameRows(kv, f, SequencedKey(d));
      }
    }
  }

  lemma PutMetaDelayed(kv: KeyValues, c: nat, before: nat, meta: BatchMetadata)
    ensures SameDelayed(kv, PutMeta(kv, c, before, meta)) && SameRows(kv, PutMeta(kv, c, before, meta), BatchCountKey)
  {
  }

  lemma PutMetaKeeps(keccak: Keccak, kv: KeyValues, c: nat, checked: map<nat, Hash32>, meta: BatchMetadata)
    requires Inv(keccak, kv, c, checked) && Tidy(kv, c) && c < NumberAt(kv, BatchCountKey).value
    requires DelayedAfter(kv, c) <= meta.delayedMessageCount
    requires meta.delayedMessageCount > 0 ==>
               c in checked && AccAt(keccak, kv, meta.delayedMessageCount - 1) == Ok(checked[c])
    ensures var f := PutMeta(kv, c, DelayedAfter(kv, c), meta);
            && Inv(keccak, f, c + 1, checked) && Tidy(f, c + 1) && SameDelayed(kv, f)
            && SameBatches(kv, f, c) && MetaAfter(f, c + 1) == meta && ReadMeta(f, c) == Ok(meta)
  {
    hide PutMeta, MetaAfter, ReadMeta, AccAt, DelayedInv, BatchInv, SequencedInv;
    var f := PutMeta(kv, c, DelayedAfter(kv, c), meta);
    PutMetaDelayed(kv, c, DelayedAfter(kv, c), meta);
    DelayedInvFrame(keccak, kv, f);
    PutMetaRows(kv, c, meta);
    PutMetaBatches(kv, c, meta);
    PutMetaSequenced(kv, c, meta);
    assert DelayedAfter(f, c + 1) == meta.delayedMessageCount;
    InsideCount(keccak, kv, meta.delayedMessageCount);
  }

  /** A delayed count whose last message has an accumulator is within the stored count. */
  lemma InsideCount(keccak: Keccak, kv: KeyValues, d: nat)
    requires DelayedInv(keccak, kv)
    ensures d > 0 && AccAt(keccak, kv, d - 1).Ok? ==> d <= NumberAt(kv, DelayedCountKey).value
  {
    hide AccumulatorAfter;
    if d > 0 && AccAt(keccak, kv, d - 1).Ok? {
      assert HasEntry(kv, d - 1);
    }
  }

  // ----- adding several batches

  /** Delayed counts never fall from one batch to the next, as the parent chain guarantees. */
  ghost predicate NonDecreasing(prev: nat, metas: seq<BatchMetadata>) {
    forall i: nat | i < |metas| :: Before(prev, metas, i) <= metas[i].delayedMessageCount
  }

  /** The accumulator recorded for each new batch is the one its delayed count leads to. */
  ghost predicate Recorded(keccak: Keccak, kv: KeyValues, checked: map<nat, Hash32>, pos: nat,
                           metas: seq<BatchMetadata>) {
    forall i: nat | i < |metas| && metas[i].delayedMessageCount > 0 ::
      pos + i in checked && AccAt(keccak, kv, metas[i].delayedMessageCount - 1) == Ok(checked[pos + i])
  }

  ghost predicate Holds(kv: KeyValues, pos: nat, metas: seq<BatchMetadata>) {
    && (forall i: nat | i < |metas| :: ReadMeta(kv, pos + i) == Ok(metas[i]))
    && DelayedAfter(kv, pos + |metas|) == Before(DelayedAfter(kv, pos), metas, |metas|)
  }

  lemma {:induction false} PutMetasKeeps(keccak: Keccak, kv: KeyValues, pos: nat, checked: map<nat, Hash32>,
                                         metas: seq<BatchMetadata>)
    requires Inv(keccak, kv, pos, checked) && Tidy(kv, pos) && pos + |metas| <= NumberAt(kv, BatchCountKey).value
    requires NonDecreasing(DelayedAfter(kv, pos), metas) && Recorded(keccak, kv, checked, pos, metas)
    ensures var f := PutMetas(kv, pos, DelayedAfter(kv, pos), metas);
            && Inv(keccak, f, pos + |metas|, checked) && Tidy(f, pos + |metas|)
            && SameDelayed(kv, f) && SameRows(kv, f, BatchCountKey)
            && SameBatches(kv, f, pos) && Holds(f, pos, metas)
    decreases |metas|
  {
    hide Inv, PutMeta, MetaAfter, AccAt, Tidy, DelayedAfter, Holds, NonDecreasing, Recorded, SameDelayed, SameBatches;
    if metas == [] {
      SameNothing(kv, pos);
      HoldsNothing(kv, pos);
    } else {
      var n, prev := |metas| - 1, DelayedAfter(kv, pos);
      FrontIsFine(keccak, kv, checked, pos, metas);
      PutMetasKeeps(keccak, kv, pos, checked, metas[..n]);
      var g := PutMetas(kv, pos, prev, metas[..n]);
      LastIsFine(keccak, kv, g, checked, pos, metas);
      PutMetaKeeps(keccak, g, pos + n, checked, metas[n]);
      PutMetaDelayed(g, pos + n, Before(prev, metas, n), metas[n]);
      var f := PutMeta(g, pos + n, Before(prev, metas, n), metas[n]);
      SameTwice(kv, g, f, pos, pos + n);
      HoldsMore(kv, g, f, pos, metas);
    }
  }

  lemma FrontIsFine(keccak: Keccak, kv: KeyValues, checked: map<nat, Hash32>, pos: nat, metas: seq<BatchMetadata>)
    requires metas != []
    requires NonDecreasing(DelayedAfter(kv, pos), metas) && Recorded(keccak, kv, checked, pos, metas)
    ensures NonDecreasing(DelayedAfter(kv, pos), metas[..|metas| - 1])
    ensures Recorded(keccak, kv, checked, pos, metas[..|metas| - 1])
  {
    hide AccAt, DelayedAfter;
    var front := metas[..|metas| - 1];
    forall i: nat | i < |front|
      ensures Before(DelayedAfter(kv, pos), front, i) <= front[i].delayedMessageCount
    {
      assert Before(DelayedAfter(kv, pos), metas, i) <= metas[i].delayedMessageCount;
    }
  }

  lemma LastIsFine(keccak: Keccak, kv: KeyValues, g: KeyValues, checked: map<nat, Hash32>, pos: nat,
                   metas: seq<BatchMetadata>)
    requires metas != [] && Inv(keccak, kv, pos, checked) && SameDelayed(kv, g) && SameBatches(kv, g, pos)
    requires NonDecreasing(DelayedAfter(kv, pos), metas) && Recorded(keccak, kv, checked, pos, metas)
    requires Holds(g, pos, metas[..|metas| - 1])
    ensures var n := |metas| - 1;
            && DelayedAfter(g, pos + n) == Before(DelayedAfter(kv, pos), metas, n) <= metas[n].delayedMessageCount
            && (metas[n].delayedMessageCount > 0 ==>
                  pos + n in checked && AccAt(keccak, g, metas[n].delayedMessageCount - 1) == Ok(checked[pos + n]))
  {
    hide AccAt, DelayedAfter, MetaAfter, ReadMeta, Inv, SameDelayed;
    AccSame(keccak, kv, pos, checked, g);
    var n := |metas| - 1;
    assert DelayedAfter(g, pos) == DelayedAfter(kv, pos);
    assert Before(DelayedAfter(kv, pos), metas, n) == Before(DelayedAfter(kv, pos), metas[..n], n);
  }

  lemma HoldsNothing(kv: KeyValues, pos: nat)
    ensures Holds(kv, pos, [])
  {
  }

  lemma HoldsMore(kv: KeyValues, g: KeyValues, f: KeyValues, pos: nat, metas: seq<BatchMetadata>)
    requires metas != [] && Holds(g, pos, metas[..|metas| - 1]) && SameBatches(g, f, pos + |metas| - 1)
    requires MetaAfter(f, pos + |metas|) == metas[|metas| - 1]
    requires ReadMeta(f, pos + |metas| - 1) == Ok(metas[|metas| - 1])
    ensures Holds(f, pos, metas)
  {
    hide MetaAfter, ReadMeta;
    var n := |metas| - 1;
    forall i: nat | i < |metas|
      ensures ReadMeta(f, pos + i) == Ok(metas[i])
    {
      if i < n {
        assert ReadMeta(g, pos + i) == Ok(metas[..n][i]);
      }
    }
  }

  lemma SameNothing(kv: KeyValues, pos: nat)
    ensures SameDelayed(kv, kv) && SameBatches(kv, kv, pos)
  {
  }

  lemma AccSame(keccak: Keccak, kv: KeyValues, c: nat, checked: map<nat, Hash32>, g: KeyValues)
    requires Inv(keccak, kv, c, checked) && SameDelayed(kv, g)
    ensures forall i: nat :: AccAt(keccak, g, i) == AccAt(keccak, kv, i)
  {
    DelayedInvFrame(keccak, kv, g);
  }

  lemma SameTwice(kv: KeyValues, g: KeyValues, f: KeyValues, c: nat, c': nat)
    requires SameBatches(kv, g, c) && SameBatches(g, f, c') && c <= c' && SameDelayed(kv, g) && SameDelayed(g, f)
    ensures SameBatches(kv, f, c) && SameDelayed(kv, f)
  {
    hide MetaAfter, DelayedAfter, ReadMeta;
    assert forall i: nat ::
        SameRows(kv, g, DelayedKey(i)) && SameRows(kv, g, LegacyDelayedKey(i))
          && SameRows(kv, g, Row(ParentChainBlockTable, i));
  }

  /** The store once new batches `pos`, `pos + 1`, ... have replaced everything from `pos` on. */
  ghost function AddBatches(kv: KeyValues, pos: nat, metas: seq<BatchMetadata>): KeyValues {
    var n, prev := pos + |metas|, DelayedAfter(kv, pos);
    PutMetas(DropFrom(kv, BatchMetaTable, n) - KeysFrom(kv, DelayedSequencedTable, prev + 1), pos, prev, metas)
    [BatchCountKey := StoredNumber(n)]
  }

  /** Stores that differ only in rows about to be overwritten agree afterwards. */
  lemma {:induction false} PutMetasAgree(kv: KeyValues, kv': KeyValues, pos: nat, prev: nat, metas: seq<BatchMetadata>,
                                         k: Key)
    requires SameRows(kv, kv', k) || (k.Row? && k.table.BatchMetaTable? && pos <= k.index < pos + |metas|)
    ensures SameRows(PutMetas(kv, pos, prev, metas), PutMetas(kv', pos, prev, metas), k)
    ensures k == BatchCountKey ==> SameRows(kv, PutMetas(kv, pos, prev, metas), k)
    decreases |metas|
  {
    hide Before;
    if metas != [] {
      var n := |metas| - 1;
      if k != MetaKey(pos + n) {
        PutMetasAgree(kv, kv', pos, prev, metas[..n], k);
      }
    }
  }

  /** Replacing the tail is rolling it back and then appending. */
  lemma AddIsReorgThenPut(kv: KeyValues, pos: nat, metas: seq<BatchMetadata>)
    ensures var n, prev := pos + |metas|, DelayedAfter(kv, pos);
            AddBatches(kv, pos, metas)
            == PutMetas(ReorgBatches(kv, pos)[BatchCountKey := StoredNumber(n)], pos, prev, metas)
  {
    hide PutMetas, DelayedAfter;
    var n, prev := pos + |metas|, DelayedAfter(kv, pos);
    var x := DropFrom(kv, BatchMetaTable, n) - KeysFrom(kv, DelayedSequencedTable, prev + 1);
    var y := ReorgBatches(kv, pos)[BatchCountKey := StoredNumber(n)];
    var left, right := AddBatches(kv, pos, metas), PutMetas(y, pos, prev, metas);
    PutMetasAgree(y, y, pos, prev, metas, BatchCountKey);
    forall k: Key
      ensures SameRows(left, right, k)
    {
      if k != BatchCountKey {
        ReplacedRows(kv, pos, metas, k);
        PutMetasAgree(x, y, pos, prev, metas, k);
      }
    }
    assert left.Keys == right.Keys by {
      forall k: Key
        ensures k in left <==> k in right
      {
        assert SameRows(left, right, k);
      }
    }
    forall k | k in left
      ensures left[k] == right[k]
    {
      assert SameRows(left, right, k);
    }
  }

  lemma ReplacedRows(kv: KeyValues, pos: nat, metas: seq<BatchMetadata>, k: Key)
    requires k != BatchCountKey
    ensures var n, prev := pos + |metas|, DelayedAfter(kv, pos);
            var x := DropFrom(kv, BatchMetaTable, n) - KeysFrom(kv, DelayedSequencedTable, prev + 1);
            var y := ReorgBatches(kv, pos)[BatchCountKey := StoredNumber(n)];
            SameRows(x, y, k) || (k.Row? && k.table.BatchMetaTable? && pos <= k.index < n)
  {
    hide DelayedAfter;
  }

  /**
   Adding batches at `pos` keeps the earlier ones, stores the new ones, leaves nothing to repair or
   clear, and records the accumulator each new batch was checked against.
   */
  lemma AddBatchesKeeps(keccak: Keccak, kv: KeyValues, c: nat, checked: map<nat, Hash32>, checked': map<nat, Hash32>,
                        pos: nat, metas: seq<BatchMetadata>)
    requires Inv(keccak, kv, c, checked) && pos <= c
    requires NonDecreasing(DelayedAfter(kv, pos), metas) && Recorded(keccak, kv, checked', pos, metas)
    requires forall b: nat | b < pos && b in checked :: b in checked' && checked'[b] == checked[b]
    ensures var f := AddBatches(kv, pos, metas);
            && Inv(keccak, f, pos + |metas|, checked') && Clean(f, pos + |metas|)
            && SameBatches(kv, f, pos) && SameDelayed(kv, f) && Holds(f, pos, metas)
  {
    hide Inv, MetaAfter, ReadMeta, AccAt, DelayedAfter, ReorgBatches, AddBatches, PutMetas, Holds;
    var n, prev := pos + |metas|, DelayedAfter(kv, pos);
    var y := ReorgBatches(kv, pos)[BatchCountKey := StoredNumber(n)];
    ReorgBatchesKeeps(keccak, kv, c, checked, pos, n);
    Rechecked(keccak, y, pos, checked, checked');
    AccSame(keccak, kv, c, checked, y);
    assert DelayedAfter(y, pos) == prev;
    PutMetasKeeps(keccak, y, pos, checked', metas);
    AddIsReorgThenPut(kv, pos, metas);
    SameTwice(kv, y, AddBatches(kv, pos, metas), pos, pos);
  }

  lemma Rechecked(keccak: Keccak, kv: KeyValues, c: nat, checked: map<nat, Hash32>, checked': map<nat, Hash32>)
    requires Inv(keccak, kv, c, checked)
    requires forall b: nat | b < c && b in checked :: b in checked' && checked'[b] == checked[b]
    ensures Inv(keccak, kv, c, checked')
  {
    hide DelayedInv, BatchInv, SequencedInv, AccAt, DelayedAfter;
  }

  // ----- what the checks on new batches establish

  /** The accumulators that batches are checked against, under their batch numbers. */
  function Record(checked: map<nat, Hash32>, pos: nat, batches: seq<SequencerInboxBatch>): map<nat, Hash32> {
    map b: nat | b < pos + |batches| && (b >= pos || b in checked) ::
      if b >= pos then batches[b - pos].afterDelayedAcc else checked[b]
  }

  lemma {:induction false} CheckedAt(keccak: Keccak, kv: KeyValues, acc: Hash32, pos: nat,
                                     batches: seq<SequencerInboxBatch>, j: nat)
    requires BatchesCheckOut(keccak, kv, acc, pos, batches) && j < |batches|
    ensures batches[j].afterDelayedCount > 0 ==>
              AccAt(keccak, kv, batches[j].afterDelayedCount - 1) == Ok(batches[j].afterDelayedAcc)
    decreases |batches|
  {
    hide AccAt;
    if j > 0 {
      CheckedAt(keccak, kv, batches[0].afterInboxAcc, pos + 1, batches[1..], j - 1);
      assert batches[1..][j - 1] == batches[j];
    }
  }

  /**
   Batches that pass the checks are numbered consecutively, and each starts from the accumulator the last one ended
   with.
   */
  lemma {:induction false} CheckedChain(keccak: Keccak, kv: KeyValues, acc: Hash32, pos: nat,
                                        batches: seq<SequencerInboxBatch>, j: nat)
    requires BatchesCheckOut(keccak, kv, acc, pos, batches) && j < |batches|
    ensures batches[j].sequenceNumber == pos + j
    ensures batches[j].beforeInboxAcc == if j == 0 then acc else batches[j - 1].afterInboxAcc
    decreases |batches|
  {
    hide AccAt;
    if j > 0 {
      CheckedChain(keccak, kv, batches[0].afterInboxAcc, pos + 1, batches[1..], j - 1);
      assert batches[1..][j - 1] == batches[j];
      assert j > 1 ==> batches[1..][j - 2] == batches[j - 1];
    }
  }

  lemma {:induction false} MetasForLength(codec: Codec, prev: BatchMetadata, batches: seq<SequencerInboxBatch>)
    requires MetasFor(codec, prev, batches).Ok?
    ensures |MetasFor(codec, prev, batches).value| == |batches|
    decreases |batches|
  {
    hide Parse, L2Count;
    if batches != [] {
      MetasForLength(codec, MetaFor(Parse(codec, batches[0].serialized).value, batches[0], prev), batches[1..]);
    }
  }

  lemma {:induction false} MetasForDelayed(codec: Codec, prev: BatchMetadata, batches: seq<SequencerInboxBatch>, i: nat)
    requires MetasFor(codec, prev, batches).Ok? && i < |batches| == |MetasFor(codec, prev, batches).value|
    ensures MetasFor(codec, prev, batches).value[i].delayedMessageCount == batches[i].afterDelayedCount
    decreases |batches|
  {
    hide Parse, L2Count;
    if i > 0 {
      MetasForDelayed(codec, MetaFor(Parse(codec, batches[0].serialized).value, batches[0], prev), batches[1..], i - 1);
    }
  }

  /** Batches that pass the checks match the accumulators recorded for them. */
  lemma RecordIsRecorded(keccak: Keccak, codec: Codec, kv: KeyValues, checked: map<nat, Hash32>, acc: Hash32, pos: nat,
                         prev: BatchMetadata, batches: seq<SequencerInboxBatch>)
    requires BatchesCheckOut(keccak, kv, acc, pos, batches) && MetasFor(codec, prev, batches).Ok?
    ensures |MetasFor(codec, prev, batches).value| == |batches|
    ensures Recorded(keccak, kv, Record(checked, pos, batches), pos, MetasFor(codec, prev, batches).value)
    ensures forall b: nat | b < pos && b in checked ::
              b in Record(checked, pos, batches) && Record(checked, pos, batches)[b] == checked[b]
  {
    hide AccAt, BatchesCheckOut, MetasFor;
    var metas := MetasFor(codec, prev, batches).value;
    MetasForLength(codec, prev, batches);
    forall i: nat | i < |metas| && metas[i].delayedMessageCount > 0
      ensures pos + i in Record(checked, pos, batches)
      ensures AccAt(keccak, kv, metas[i].delayedMessageCount - 1) == Ok(Record(checked, pos, batches)[pos + i])
    {
      MetasForDelayed(codec, prev, batches, i);
      CheckedAt(keccak, kv, acc, pos, batches, i);
    }
  }

  // ----- the self-repairing count

  /** The largest count not above `n` whose last batch has metadata. */
  function Repaired(kv: KeyValues, n: nat): nat {
    if n == 0 || MetaKey(n - 1) in kv then n else Repaired(kv, n - 1)
  }

  /** Whatever stored count a crash leaves, counting finds the number of batches that have metadata. */
  lemma {:induction false} RepairedIsCount(kv: KeyValues, c: nat, n: nat)
    requires BatchInv(kv, c) && c <= n
    ensures Repaired(kv, n) == c
    decreases n
  {
    if n > 0 {
      assert MetaKey(n - 1) in kv <==> n - 1 < c;
      if n - 1 >= c {
        RepairedIsCount(kv, c, n - 1);
      }
    }
  }

  /** Writing the repaired count changes nothing else, and leaves a count that needs no more repair. */
  lemma RepairKeeps(keccak: Keccak, kv: KeyValues, c: nat, checked: map<nat, Hash32>)
    requires Inv(keccak, kv, c, checked)
    ensures var f := kv[BatchCountKey := StoredNumber(c)];
            Inv(keccak, f, c, checked) && NumberAt(f, BatchCountKey) == Some(c) && SameBatches(kv, f, c)
  {
    hide AccAt, DelayedInv, DelayedAfter, MetaAfter, BatchInv, SequencedInv, Shrinks;
    var f := kv[BatchCountKey := StoredNumber(c)];
    CountShrinks(kv, c);
    ShrinkKeeps(kv, f, c, c);
    DelayedInvFrame(keccak, kv, f);
  }

  lemma CountShrinks(kv: KeyValues, c: nat)
    requires BatchInv(kv, c)
    ensures Shrinks(kv, kv[BatchCountKey := StoredNumber(c)], c)
  {
    hide DelayedAfter;
  }

  // ----- batches that always parse

  /** A batch that is nothing but its header. */
  function PlainBatch(pos: nat, acc: Hash32, count: u64, delayedAcc: Hash32): SequencerInboxBatch {
    SequencerInboxBatch(pos, acc, acc, count, delayedAcc, 0, ZERO_HASH, BatchHeader(L1Bounds(0, 0, 0, 0), count))
  }

  lemma PlainParses(codec: Codec, count: u64)
    ensures Parse(codec, BatchHeader(L1Bounds(0, 0, 0, 0), count)) == Ok(SequencerMessage(0, 0, 0, 0, count, []))
  {
    hide BatchHeader, Read64;
    var d := BatchHeader(L1Bounds(0, 0, 0, 0), count);
    HeaderFields(L1Bounds(0, 0, 0, 0), count, []);
    assert d + [] == d;
  }

  /** The accumulator that a batch with delayed count `n` has to name. */
  function AccFor(keccak: Keccak, kv: KeyValues, n: nat): Hash32 {
    if n == 0 then ZERO_HASH else
      match AccAt(keccak, kv, n - 1)
      case Err => ZERO_HASH
      case Ok(acc) => acc
  }

  function PlainBatches(keccak: Keccak, kv: KeyValues, pos: nat, acc: Hash32,
                        counts: seq<u64>): seq<SequencerInboxBatch>
    decreases |counts|
  {
    if counts == [] then []
    else
      [PlainBatch(pos, acc, counts[0], AccFor(keccak, kv, counts[0]))]
      + PlainBatches(keccak, kv, pos + 1, acc, counts[1..])
  }

  ghost predicate HaveAccs(keccak: Keccak, kv: KeyValues, counts: seq<u64>) {
    forall j | 0 <= j < |counts| && counts[j] > 0 :: AccAt(keccak, kv, counts[j] - 1).Ok?
  }

  /** For any counts that the delayed messages reach, in any order, there are batches that pass every check. */
  lemma {:induction false} PlainBatchesCheckOut(keccak: Keccak, codec: Codec, kv: KeyValues, pos: nat,
                                                last: BatchMetadata, counts: seq<u64>)
    requires HaveAccs(keccak, kv, counts)
    ensures var batches := PlainBatches(keccak, kv, pos, last.accumulator, counts);
            && |batches| == |counts|
            && (forall j | 0 <= j < |counts| :: batches[j].afterDelayedCount == counts[j])
            && BatchesCheckOut(keccak, kv, last.accumulator, pos, batches) && MetasFor(codec, last, batches).Ok?
    decreases |counts|
  {
    hide AccAt, Parse, L2Count;
    if counts != [] {
      var b := PlainBatch(pos, last.accumulator, counts[0], AccFor(keccak, kv, counts[0]));
      PlainParses(codec, counts[0]);
      var m := SequencerMessage(0, 0, 0, 0, counts[0], []);
      assert HaveAccs(keccak, kv, counts[1..]);
      PlainBatchesCheckOut(keccak, codec, kv, pos + 1, MetaFor(m, b, last), counts[1..]);
      assert PlainBatches(keccak, kv, pos, last.accumulator, counts)[1..]
          == PlainBatches(keccak, kv, pos + 1, last.accumulator, counts[1..]);
    }
  }
}
