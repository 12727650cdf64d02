/** Adding and rolling back delayed messages, as functions on the store, and what they keep. */
module DelayedOps {
  import opened Basics
  import opened L1Message
  import opened Store
  import opened TrackerSpec

  /** A delayed message as the reader hands it over: its number, its prefix accumulator and its bytes. */
  datatype DelayedInput = DelayedInput(seqNum: nat, beforeAcc: Hash32, bytes: Bytes)

  // ----- the batches kept, and the commit that comes first

  ghost function Kept(kv: KeyValues, c: nat, p: nat): nat {
    match RollbackTo(kv, p)
    case None => c
    case Some(v) => Min(v, c)
  }

  /** What the eager metadata commit leaves; nothing is committed when no index row lies above `p`. */
  ghost function Eager(kv: KeyValues, p: nat): KeyValues {
    match RollbackTo(kv, p)
    case None => kv
    case Some(v) => DropFrom(kv, BatchMetaTable, v)
  }

  ghost function EagerCommits(kv: KeyValues, p: nat): seq<KeyValues> {
    if RollbackTo(kv, p).Some? then [Eager(kv, p)] else []
  }

  ghost predicate SequencedReadable(kv: KeyValues, p: nat) {
    forall d: nat | d > p && SequencedKey(d) in kv :: kv[SequencedKey(d)].StoredNumber?
  }

  /** Deletes and counts of a change at `p` to `n` delayed messages, on top of the staged store. */
  ghost function CutDelayed(kv: KeyValues, staged: KeyValues, p: nat, n: nat): KeyValues {
    var trimmed := staged - KeysFrom(kv, DelayedTable, n) - KeysFrom(kv, ParentChainBlockTable, n)
                   - KeysFrom(kv, LegacyDelayedTable, n);
    var counted := trimmed[DelayedCountKey := StoredNumber(n)] - KeysFrom(kv, DelayedSequencedTable, p + 1);
    match RollbackTo(kv, p)
    case None => counted
    case Some(v) => counted[BatchCountKey := StoredNumber(v)]
  }

  function PutDelayed(kv: KeyValues, msgs: seq<DelayedInput>): KeyValues {
    if msgs == [] then kv else
      var last := msgs[|msgs| - 1];
      PutDelayed(kv, msgs[..|msgs| - 1])[DelayedKey(last.seqNum) := StoredDelayed(last.beforeAcc, last.bytes)]
  }

  // ----- the batch side

  /** Only rows of the newer delayed table may differ, and only from `p` up to `n`. */
  ghost predicate Staged(base: KeyValues, staged: KeyValues, p: nat, n: nat) {
    forall k: Key | !(k.Row? && k.table.DelayedTable? && p <= k.index < n) :: SameRows(base, staged, k)
  }

  lemma EagerKeeps(keccak: Keccak, kv: KeyValues, c: nat, checked: map<nat, Hash32>, p: nat)
    requires Inv(keccak, kv, c, checked)
    ensures Inv(keccak, Eager(kv, p), Kept(kv, c, p), checked)
    ensures SameBatches(kv, Eager(kv, p), Kept(kv, c, p)) && SameDelayed(kv, Eager(kv, p))
  {
    hide Inv, SameBatches, SameDelayed, KeysFrom, RollbackTo;
    match RollbackTo(kv, p)
    case None => SameIsSame(kv, c);
    case Some(v) => DropMetasKeeps(keccak, kv, c, checked, v);
  }

  lemma SameIsSame(kv: KeyValues, c: nat)
    ensures SameBatches(kv, kv, c) && SameDelayed(kv, kv)
  {
  }

  /** The rows of the result that have to do with batches. */
  lemma CutBatchRows(kv: KeyValues, staged: KeyValues, p: nat, n: nat)
    requires Staged(Eager(kv, p), staged, p, n)
    ensures var e, f := Eager(kv, p), CutDelayed(kv, staged, p, n);
            && (forall i: nat :: SameRows(e, f, MetaKey(i)))
            && (forall d: nat :: SequencedKey(d) in f <==> SequencedKey(d) in e && d <= p)
            && (forall d: nat | SequencedKey(d) in f :: SameRows(e, f, SequencedKey(d)))
            && NumberAt(f, BatchCountKey) == (if RollbackTo(kv, p).Some? then RollbackTo(kv, p)
                                              else NumberAt(kv, BatchCountKey))
  {
    hide RollbackTo;
    var e, f := Eager(kv, p), CutDelayed(kv, staged, p, n);
    assert forall i: nat :: SameRows(e, staged, MetaKey(i));
    assert forall d: nat :: SameRows(e, staged, SequencedKey(d));
    assert SameRows(e, staged, BatchCountKey);
    forall d: nat
      ensures SequencedKey(d) in f <==> SequencedKey(d) in e && d <= p
    {
      assert SequencedKey(d) in e <==> SequencedKey(d) in kv;
    }
  }

  lemma CutShrinks(kv: KeyValues, staged: KeyValues, c: nat, p: nat, n: nat)
    requires BatchInv(kv, c) && SequencedInv(kv, c) && Staged(Eager(kv, p), staged, p, n)
    requires BatchInv(Eager(kv, p), Kept(kv, c, p)) && SameBatches(kv, Eager(kv, p), Kept(kv, c, p))
    ensures Shrinks(Eager(kv, p), CutDelayed(kv, staged, p, n), Kept(kv, c, p))
  {
    hide Eager, CutDelayed, RollbackTo, MetaAfter, DelayedAfter, SequencedInv, Staged;
    CutBatchRows(kv, staged, p, n);
    RollbackIsExact(kv, c, p);
    var e, f, s := Eager(kv, p), CutDelayed(kv, staged, p, n), Kept(kv, c, p);
    assert DelayedAfter(e, s) == DelayedAfter(kv, s) <= p;
    assert forall i: nat :: MetaKey(i) in f <==> SameRows(e, f, MetaKey(i)) && MetaKey(i) in e;
  }

  // ----- the delayed side

  /** The rows a cut removes if they were stored before it. */
  predicate Trims(k: Key, p: nat, n: nat) {
    k.Row? &&
    match k.table
    case DelayedTable => k.index >= n
    case ParentChainBlockTable => k.index >= n
    case LegacyDelayedTable => k.index >= n
    case DelayedSequencedTable => k.index > p
    case _ => false
  }

  lemma CutRow(kv: KeyValues, staged: KeyValues, p: nat, n: nat, k: Key)
    requires k.Row?
    ensures var f := CutDelayed(kv, staged, p, n);
            && (k in f <==> k in staged && !(k in kv && Trims(k, p, n)))
            && (k in f ==> f[k] == staged[k])
  {
    hide RollbackTo;
  }

  /** Block rows from `n` on are gone, and those below are as they were. */
  predicate BlockRowKept(kv: KeyValues, f: KeyValues, n: nat, i: nat) {
    var row := Row(ParentChainBlockTable, i);
    if i < n then SameRows(kv, f, row) else row !in f
  }

  lemma CutDelayedRows(kv: KeyValues, staged: KeyValues, p: nat, n: nat)
    requires Staged(Eager(kv, p), staged, p, n) && p <= n
    ensures var f := CutDelayed(kv, staged, p, n);
            && NumberAt(f, DelayedCountKey) == Some(n)
            && (forall i: nat | i < p :: SameRows(kv, f, DelayedKey(i)))
            && (forall i: nat | p <= i < n :: SameRows(staged, f, DelayedKey(i)))
            && (forall i: nat | i < n :: SameRows(kv, f, LegacyDelayedKey(i)))
            && (forall i: nat | i >= n :: !HasEntry(f, i))
            && (forall i: nat :: BlockRowKept(kv, f, n, i))
  {
    hide RollbackTo, CutDelayed, Eager;
    var e, f := Eager(kv, p), CutDelayed(kv, staged, p, n);
    CutCount(kv, staged, p, n);
    forall i: nat
      ensures i < p ==> SameRows(kv, f, DelayedKey(i))
      ensures p <= i < n ==> SameRows(staged, f, DelayedKey(i))
      ensures i < n ==> SameRows(kv, f, LegacyDelayedKey(i))
      ensures i >= n ==> !HasEntry(f, i)
      ensures BlockRowKept(kv, f, n, i)
    {
      EagerRow(kv, p, i);
      CutRow(kv, staged, p, n, DelayedKey(i));
      CutRow(kv, staged, p, n, LegacyDelayedKey(i));
      CutRow(kv, staged, p, n, Row(ParentChainBlockTable, i));
      assert i < p || i >= n ==> SameRows(e, staged, DelayedKey(i));
      assert SameRows(e, staged, LegacyDelayedKey(i));
      assert SameRows(e, staged, Row(ParentChainBlockTable, i));
    }
  }

  lemma CutCount(kv: KeyValues, staged: KeyValues, p: nat, n: nat)
    ensures NumberAt(CutDelayed(kv, staged, p, n), DelayedCountKey) == Some(n)
  {
    hide RollbackTo;
  }

  lemma EagerRow(kv: KeyValues, p: nat, i: nat)
    ensures SameRows(kv, Eager(kv, p), DelayedKey(i)) && SameRows(kv, Eager(kv, p), LegacyDelayedKey(i))
    ensures SameRows(kv, Eager(kv, p), Row(ParentChainBlockTable, i))
  {
    hide RollbackTo;
  }

  /** Entries below `p` are as before. */
  lemma CutEntriesBelow(keccak: Keccak, kv: KeyValues, staged: KeyValues, p: nat, n: nat)
    requires Staged(Eager(kv, p), staged, p, n) && p <= n
    ensures forall i: nat | i < p ::
              EntryAt(CutDelayed(kv, staged, p, n), i) == EntryAt(kv, i)
              && AccAt(keccak, CutDelayed(kv, staged, p, n), i) == AccAt(keccak, kv, i)
  {
    hide EntryAt, AccAt, CutDelayed, Eager, Staged;
    CutDelayedRows(kv, staged, p, n);
    var f := CutDelayed(kv, staged, p, n);
    forall i: nat | i < p
      ensures EntryAt(f, i) == EntryAt(kv, i) && AccAt(keccak, f, i) == AccAt(keccak, kv, i)
    {
      assert SameRows(kv, f, DelayedKey(i)) && SameRows(kv, f, LegacyDelayedKey(i));
      SameEntry(keccak, kv, f, i);
    }
  }

  /** With the chain intact, the rest of the invariant follows for the batches kept. */
  lemma CutKeeps(keccak: Keccak, kv: KeyValues, staged: KeyValues, c: nat, checked: map<nat, Hash32>, p: nat, n: nat)
    requires Inv(keccak, kv, c, checked) && Staged(Eager(kv, p), staged, p, n) && p <= n
    requires DelayedInv(keccak, CutDelayed(kv, staged, p, n))
    ensures var f, s := CutDelayed(kv, staged, p, n), Kept(kv, c, p);
            Inv(keccak, f, s, checked) && SameBatches(kv, f, s)
  {
    hide Eager, CutDelayed, RollbackTo, MetaAfter, DelayedAfter, AccAt, DelayedInv, BatchInv, SequencedInv, Staged,
         Shrinks;
    var e, f, s := Eager(kv, p), CutDelayed(kv, staged, p, n), Kept(kv, c, p);
    EagerKeeps(keccak, kv, c, checked, p);
    CutShrinks(kv, staged, c, p, n);
    ShrinkKeeps(e, f, s, s);
    RollbackIsExact(kv, c, p);
    CutEntriesBelow(keccak, kv, staged, p, n);
    CutDelayedRows(kv, staged, p, n);
    forall b: nat | b < s && DelayedAfter(f, b + 1) > 0
      ensures b in checked && AccAt(keccak, f, DelayedAfter(f, b + 1) - 1) == Ok(checked[b])
    {
      assert DelayedAfter(f, b + 1) == DelayedAfter(e, b + 1) == DelayedAfter(kv, b + 1) <= p;
    }
    assert DelayedAfter(f, s) == DelayedAfter(e, s) == DelayedAfter(kv, s) <= p;
  }

  // ----- rolling back to `n` delayed messages

  /** The result of a rollback to `n` delayed messages. */
  ghost function ReorgDelayed(kv: KeyValues, n: nat): KeyValues {
    CutDelayed(kv, Eager(kv, n), n, n)
  }

  /** The chain survives exactly the rollbacks to a count that is not above the current one. */
  lemma ReorgKeepsChain(keccak: Keccak, kv: KeyValues, n: nat)
    requires DelayedInv(keccak, kv)
    ensures DelayedInv(keccak, ReorgDelayed(kv, n)) <==> n <= NumberAt(kv, DelayedCountKey).value
  {
    hide EntryAt, AccAt, CutDelayed, Eager;
    var e, f := Eager(kv, n), ReorgDelayed(kv, n);
    var count := NumberAt(kv, DelayedCountKey).value;
    assert Staged(e, e, n, n);
    CutDelayedRows(kv, e, n, n);
    CutEntriesBelow(keccak, kv, e, n, n);
    forall i: nat | i < n
      ensures HasEntry(f, i) == HasEntry(kv, i)
    {
      assert SameRows(kv, f, DelayedKey(i)) && SameRows(kv, f, LegacyDelayedKey(i));
    }
    if n > count {
      assert !HasEntry(kv, count);
      assert !HasEntry(f, count);
    } else {
      forall i: nat | i < n
        ensures Linked(keccak, f, i)
      {
        assert Linked(keccak, kv, i);
      }
      assert forall i: nat :: HasEntry(f, i) <==> i < n;
      forall i: nat
        ensures Row(ParentChainBlockTable, i) in f ==> SameRows(kv, f, Row(ParentChainBlockTable, i))
      {
        assert BlockRowKept(kv, f, n, i);
      }
    }
  }

  /** A rollback removes exactly the batches that read past it, and keeps everything else in order. */
  lemma ReorgDelayedKeeps(keccak: Keccak, kv: KeyValues, c: nat, checked: map<nat, Hash32>, n: nat)
    requires Inv(keccak, kv, c, checked) && n <= NumberAt(kv, DelayedCountKey).value
    ensures var f, s := ReorgDelayed(kv, n), Kept(kv, c, n);
            && Inv(keccak, f, s, checked) && SameBatches(kv, f, s)
            && NumberAt(f, DelayedCountKey) == Some(n)
            && (forall i: nat | i < n :: EntryAt(f, i) == EntryAt(kv, i))
            && (forall i: nat :: BlockRowKept(kv, f, n, i))
  {
    hide EntryAt, AccAt, CutDelayed, Eager, Inv, DelayedInv, SameBatches, BlockRowKept;
    var e := Eager(kv, n);
    assert DelayedInv(keccak, kv) by { InvDelayed(keccak, kv, c, checked); }
    assert Staged(e, e, n, n);
    ReorgKeepsChain(keccak, kv, n);
    CutKeeps(keccak, kv, e, c, checked, n, n);
    CutDelayedRows(kv, e, n, n);
    CutEntriesBelow(keccak, kv, e, n, n);
  }

  lemma InvDelayed(keccak: Keccak, kv: KeyValues, c: nat, checked: map<nat, Hash32>)
    requires Inv(keccak, kv, c, checked)
    ensures DelayedInv(keccak, kv)
  {
  }

  // ----- adding delayed messages

  /** Numbers are consecutive, bytes parse, and each prefix accumulator continues the chain from `acc`. */
  predicate ChecksOut(keccak: Keccak, acc: Hash32, pos: nat, msgs: seq<DelayedInput>)
    decreases |msgs|
  {
    msgs == [] ||
    (&& msgs[0].seqNum == pos
     && |msgs[0].bytes| >= LEGACY_HEADER
     && msgs[0].beforeAcc == acc
     && ChecksOut(keccak, AccumulatorAfter(keccak, acc, msgs[0].bytes).value, pos + 1, msgs[1..]))
  }

  /** The accumulator that the first new message has to continue. */
  function StartAcc(keccak: Keccak, kv: KeyValues, pos: nat): Result<Hash32> {
    if pos == 0 then Ok(ZERO_HASH) else AccAt(keccak, kv, pos - 1)
  }

  ghost predicate Accepts(keccak: Keccak, kv: KeyValues, msgs: seq<DelayedInput>)
    requires msgs != []
  {
    var pos := msgs[0].seqNum;
    && StartAcc(keccak, kv, pos).Ok?
    && ChecksOut(keccak, StartAcc(keccak, kv, pos).value, pos, msgs)
    && SequencedReadable(kv, pos)
  }

  ghost function AddDelayed(kv: KeyValues, msgs: seq<DelayedInput>): KeyValues
    requires msgs != []
  {
    var p := msgs[0].seqNum;
    CutDelayed(kv, PutDelayed(Eager(kv, p), msgs), p, p + |msgs|)
  }

  lemma {:induction false} ChecksOutAt(keccak: Keccak, acc: Hash32, pos: nat, msgs: seq<DelayedInput>, j: nat)
    requires ChecksOut(keccak, acc, pos, msgs) && j < |msgs|
    ensures msgs[j].seqNum == pos + j && |msgs[j].bytes| >= LEGACY_HEADER
    ensures j == 0 ==> msgs[j].beforeAcc == acc
    ensures j > 0 ==> AccumulatorAfter(keccak, msgs[j - 1].beforeAcc, msgs[j - 1].bytes) == Ok(msgs[j].beforeAcc)
    decreases |msgs|
  {
    hide AccumulatorAfter;
    if j > 0 {
      ChecksOutAt(keccak, AccumulatorAfter(keccak, acc, msgs[0].bytes).value, pos + 1, msgs[1..], j - 1);
      if j > 1 {
        ChecksOutAt(keccak, AccumulatorAfter(keccak, acc, msgs[0].bytes).value, pos + 1, msgs[1..], j - 2);
      } else {
        var next := msgs[1..];
        assert next[0] == msgs[1];
      }
    }
  }

  /** What is under a key after the puts. */
  lemma {:induction false} PutDelayedRow(kv: KeyValues, p: nat, msgs: seq<DelayedInput>, k: Key)
    requires forall j: nat | j < |msgs| :: msgs[j].seqNum == p + j
    ensures if k.Row? && k.table.DelayedTable? && p <= k.index < p + |msgs|
            then k in PutDelayed(kv, msgs)
                 && PutDelayed(kv, msgs)[k] == StoredDelayed(msgs[k.index - p].beforeAcc, msgs[k.index - p].bytes)
            else SameRows(kv, PutDelayed(kv, msgs), k)
    decreases |msgs|
  {
    if msgs != [] {
      PutDelayedRow(kv, p, msgs[..|msgs| - 1], k);
    }
  }

  predicate PutAt(kv: KeyValues, p: nat, msgs: seq<DelayedInput>, j: nat)
    requires j < |msgs|
  {
    && DelayedKey(p + j) in kv
    && kv[DelayedKey(p + j)] == StoredDelayed(msgs[j].beforeAcc, msgs[j].bytes)
  }

  lemma PutDelayedStages(base: KeyValues, msgs: seq<DelayedInput>, p: nat)
    requires forall j: nat | j < |msgs| :: msgs[j].seqNum == p + j
    ensures Staged(base, PutDelayed(base, msgs), p, p + |msgs|)
    ensures forall j: nat | j < |msgs| :: PutAt(PutDelayed(base, msgs), p, msgs, j)
  {
    hide PutDelayed, SameRows;
    forall k: Key | !(k.Row? && k.table.DelayedTable? && p <= k.index < p + |msgs|)
      ensures SameRows(base, PutDelayed(base, msgs), k)
    {
      PutDelayedRow(base, p, msgs, k);
    }
    forall j: nat | j < |msgs|
      ensures PutAt(PutDelayed(base, msgs), p, msgs, j)
    {
      PutDelayedRow(base, p, msgs, DelayedKey(p + j));
    }
  }

  lemma ChecksOutNumbers(keccak: Keccak, acc: Hash32, pos: nat, msgs: seq<DelayedInput>)
    requires ChecksOut(keccak, acc, pos, msgs)
    ensures forall j: nat | j < |msgs| :: msgs[j].seqNum == pos + j
  {
    hide ChecksOut, AccumulatorAfter;
    forall j: nat | j < |msgs|
      ensures msgs[j].seqNum == pos + j
    {
      ChecksOutAt(keccak, acc, pos, msgs, j);
    }
  }

  lemma AddedStages(keccak: Keccak, kv: KeyValues, base: KeyValues, msgs: seq<DelayedInput>)
    requires msgs != [] && Accepts(keccak, kv, msgs)
    ensures var p := msgs[0].seqNum;
            && Staged(base, PutDelayed(base, msgs), p, p + |msgs|)
            && (forall j: nat | j < |msgs| :: PutAt(PutDelayed(base, msgs), p, msgs, j))
  {
    hide ChecksOut, AccumulatorAfter, PutDelayed, Staged, PutAt, SequencedReadable, AccAt;
    var p := msgs[0].seqNum;
    ChecksOutNumbers(keccak, StartAcc(keccak, kv, p).value, p, msgs);
    PutDelayedStages(base, msgs, p);
  }

  lemma AddedEntryAt(kv: KeyValues, staged: KeyValues, p: nat, msgs: seq<DelayedInput>, j: nat)
    requires j < |msgs| && PutAt(staged, p, msgs, j)
    ensures EntryAt(CutDelayed(kv, staged, p, p + |msgs|), p + j) == Some((msgs[j].beforeAcc, msgs[j].bytes))
  {
    hide CutDelayed;
    CutRow(kv, staged, p, p + |msgs|, DelayedKey(p + j));
  }

  /** Entry `p + j` of the result is the `j`th message added. */
  lemma AddedEntries(keccak: Keccak, kv: KeyValues, msgs: seq<DelayedInput>)
    requires msgs != [] && Accepts(keccak, kv, msgs)
    ensures var p := msgs[0].seqNum;
            && Staged(Eager(kv, p), PutDelayed(Eager(kv, p), msgs), p, p + |msgs|)
            && (forall j: nat | j < |msgs| ::
                  EntryAt(AddDelayed(kv, msgs), p + j) == Some((msgs[j].beforeAcc, msgs[j].bytes)))
  {
    hide Accepts, CutDelayed, PutDelayed, Eager, EntryAt, Staged, PutAt;
    var p := msgs[0].seqNum;
    var staged := PutDelayed(Eager(kv, p), msgs);
    AddedStages(keccak, kv, Eager(kv, p), msgs);
    forall j: nat | j < |msgs|
      ensures EntryAt(AddDelayed(kv, msgs), p + j) == Some((msgs[j].beforeAcc, msgs[j].bytes))
    {
      AddedEntryAt(kv, staged, p, msgs, j);
    }
  }

  lemma AddedLinked(keccak: Keccak, kv: KeyValues, msgs: seq<DelayedInput>, j: nat)
    requires msgs != [] && Accepts(keccak, kv, msgs) && j < |msgs|
    requires forall i: nat | i < msgs[0].seqNum :: AccAt(keccak, AddDelayed(kv, msgs), i) == AccAt(keccak, kv, i)
    ensures Linked(keccak, AddDelayed(kv, msgs), msgs[0].seqNum + j)
  {
    hide ChecksOut, AccumulatorAfter, CutDelayed, PutDelayed, Eager, EntryAt, AddDelayed;
    var p, f := msgs[0].seqNum, AddDelayed(kv, msgs);
    AddedEntries(keccak, kv, msgs);
    ChecksOutAt(keccak, StartAcc(keccak, kv, p).value, p, msgs, j);
    assert EntryAt(f, p + j) == Some((msgs[j].beforeAcc, msgs[j].bytes));
    if j > 0 {
      assert EntryAt(f, p + (j - 1)) == Some((msgs[j - 1].beforeAcc, msgs[j - 1].bytes));
    }
  }

  /** Accepted messages extend or replace the chain without breaking it. */
  lemma AddKeepsChain(keccak: Keccak, kv: KeyValues, msgs: seq<DelayedInput>)
    requires msgs != [] && Accepts(keccak, kv, msgs) && DelayedInv(keccak, kv)
    ensures DelayedInv(keccak, AddDelayed(kv, msgs))
    ensures msgs[0].seqNum <= NumberAt(kv, DelayedCountKey).value
  {
    hide ChecksOut, AccumulatorAfter, CutDelayed, PutDelayed, Eager, EntryAt, Accepts;
    var p, n := msgs[0].seqNum, msgs[0].seqNum + |msgs|;
    var staged, f := PutDelayed(Eager(kv, p), msgs), AddDelayed(kv, msgs);
    StartInside(keccak, kv, msgs);
    AddedEntries(keccak, kv, msgs);
    CutEntriesBelow(keccak, kv, staged, p, n);
    CutDelayedRows(kv, staged, p, n);
    forall i: nat
      ensures HasEntry(f, i) <==> i < n
      ensures i < n ==> Linked(keccak, f, i)
    {
      if i < p {
        assert SameRows(kv, f, DelayedKey(i)) && SameRows(kv, f, LegacyDelayedKey(i));
        assert HasEntry(kv, i) && Linked(keccak, kv, i);
      } else if i < n {
        AddedLinked(keccak, kv, msgs, i - p);
        LinkedHasEntry(keccak, f, i);
      }
    }
    forall i: nat
      ensures Row(ParentChainBlockTable, i) in f ==> SameRows(kv, f, Row(ParentChainBlockTable, i))
    {
      assert BlockRowKept(kv, f, n, i);
    }
  }

  lemma LinkedHasEntry(keccak: Keccak, kv: KeyValues, i: nat)
    requires Linked(keccak, kv, i)
    ensures HasEntry(kv, i)
  {
  }

  lemma StartInside(keccak: Keccak, kv: KeyValues, msgs: seq<DelayedInput>)
    requires msgs != [] && Accepts(keccak, kv, msgs) && DelayedInv(keccak, kv)
    ensures msgs[0].seqNum <= NumberAt(kv, DelayedCountKey).value
  {
    hide ChecksOut, AccumulatorAfter;
    var p := msgs[0].seqNum;
    if p > 0 {
      assert HasEntry(kv, p - 1);
    }
  }

  /**
   Adding messages at `p` removes exactly the batches that read past `p`, keeps the others and their
   checked accumulators, leaves the messages below `p` alone, and stores the new ones as given.
   */
  lemma AddDelayedKeeps(keccak: Keccak, kv: KeyValues, c: nat, checked: map<nat, Hash32>, msgs: seq<DelayedInput>)
    requires Inv(keccak, kv, c, checked) && msgs != [] && Accepts(keccak, kv, msgs)
    ensures var p, n, f := msgs[0].seqNum, msgs[0].seqNum + |msgs|, AddDelayed(kv, msgs);
            var s := Kept(kv, c, p);
            && Inv(keccak, f, s, checked) && SameBatches(kv, f, s)
            && NumberAt(f, DelayedCountKey) == Some(n)
            && (forall i: nat | i < p :: EntryAt(f, i) == EntryAt(kv, i))
            && (forall j: nat | j < |msgs| :: EntryAt(f, p + j) == Some((msgs[j].beforeAcc, msgs[j].bytes)))
            && (forall i: nat :: BlockRowKept(kv, f, n, i))
  {
    hide BlockRowKept, ChecksOut, AccumulatorAfter, CutDelayed, PutDelayed, Eager, EntryAt, AccAt, Inv, DelayedInv,
         SameBatches, Accepts;
    var p, n := msgs[0].seqNum, msgs[0].seqNum + |msgs|;
    var staged := PutDelayed(Eager(kv, p), msgs);
    InvDelayed(keccak, kv, c, checked);
    AddKeepsChain(keccak, kv, msgs);
    AddedEntries(keccak, kv, msgs);
    CutKeeps(keccak, kv, staged, c, checked, p, n);
    CutDelayedRows(kv, staged, p, n);
    CutEntriesBelow(keccak, kv, staged, p, n);
  }

  // ----- adding again what is there

  lemma TidyMeansNoRollback(kv: KeyValues, c: nat, p: nat)
    requires Clean(kv, c) && DelayedAfter(kv, c) <= p
    ensures RollbackTo(kv, p) == None && Eager(kv, p) == kv && Kept(kv, c, p) == c
  {
    hide FirstAbove, DelayedAfter;
    FirstAboveIs(kv, p);
  }

  /** The messages stand in the newer table as given, and no block row lies beyond them. */
  ghost predicate AlreadyThere(kv: KeyValues, msgs: seq<DelayedInput>)
    requires msgs != []
  {
    && (forall j: nat | j < |msgs| :: PutAt(kv, msgs[0].seqNum, msgs, j))
    && (forall i: nat | i >= msgs[0].seqNum + |msgs| :: Row(ParentChainBlockTable, i) !in kv)
  }

  lemma {:induction false} PutsChangeNothing(kv: KeyValues, p: nat, msgs: seq<DelayedInput>)
    requires forall j: nat | j < |msgs| :: msgs[j].seqNum == p + j && PutAt(kv, p, msgs, j)
    ensures PutDelayed(kv, msgs) == kv
    decreases |msgs|
  {
    if msgs != [] {
      var n := |msgs| - 1;
      forall j: nat | j < n
        ensures msgs[..n][j].seqNum == p + j && PutAt(kv, p, msgs[..n], j)
      {
        assert PutAt(kv, p, msgs, j);
      }
      PutsChangeNothing(kv, p, msgs[..n]);
      assert PutAt(kv, p, msgs, n);
    }
  }

  lemma NothingToCut(keccak: Keccak, kv: KeyValues, c: nat, p: nat, n: nat)
    requires DelayedInv(keccak, kv) && Clean(kv, c) && DelayedAfter(kv, c) <= p
             && NumberAt(kv, DelayedCountKey) == Some(n)
    requires forall i: nat | i >= n :: Row(ParentChainBlockTable, i) !in kv
    ensures CutDelayed(kv, kv, p, n) == kv
  {
    hide DelayedAfter, Linked, RollbackTo, Eager, Kept;
    TidyMeansNoRollback(kv, c, p);
    forall i: nat | i >= n
      ensures Row(DelayedTable, i) !in kv && Row(LegacyDelayedTable, i) !in kv
    {
      assert !HasEntry(kv, i);
    }
    forall d: nat | d >= p + 1
      ensures Row(DelayedSequencedTable, d) !in kv
    {
      assert SequencedKey(d) == Row(DelayedSequencedTable, d);
    }
    EmptyFrom(kv, DelayedTable, n);
    EmptyFrom(kv, LegacyDelayedTable, n);
    EmptyFrom(kv, ParentChainBlockTable, n);
    EmptyFrom(kv, DelayedSequencedTable, p + 1);
    assert kv[DelayedCountKey := StoredNumber(n)] == kv;
  }

  lemma EmptyFrom(kv: KeyValues, table: Table, n: nat)
    requires forall i: nat | i >= n :: Row(table, i) !in kv
    ensures KeysFrom(kv, table, n) == {}
  {
    assert forall k | k in kv && k.Row? && k.table == table :: k == Row(table, k.index);
  }

  /**
   Adding messages that are already there changes nothing if and only if they are the last ones and no batch has read
   past their start. Otherwise the messages behind them, or the batches that read them, are dropped.
   */
  lemma ReAddIsNoOpIff(keccak: Keccak, kv: KeyValues, c: nat, checked: map<nat, Hash32>, msgs: seq<DelayedInput>)
    requires Inv(keccak, kv, c, checked) && Clean(kv, c)
    requires msgs != [] && Accepts(keccak, kv, msgs) && AlreadyThere(kv, msgs)
    ensures AddDelayed(kv, msgs) == kv
       <==> NumberAt(kv, DelayedCountKey) == Some(msgs[0].seqNum + |msgs|) && DelayedAfter(kv, c) <= msgs[0].seqNum
  {
    hide Inv, ChecksOut, AccumulatorAfter, CutDelayed, PutDelayed, Eager, AccAt, DelayedInv, DelayedAfter, RollbackTo,
         PutAt, SequencedReadable, SameBatches, EntryAt;
    var p, n := msgs[0].seqNum, msgs[0].seqNum + |msgs|;
    InvDelayed(keccak, kv, c, checked);
    ChecksOutNumbers(keccak, StartAcc(keccak, kv, p).value, p, msgs);
    AddDelayedKeeps(keccak, kv, c, checked, msgs);
    if DelayedAfter(kv, c) <= p {
      TidyMeansNoRollback(kv, c, p);
      PutsChangeNothing(kv, p, msgs);
      if NumberAt(kv, DelayedCountKey) == Some(n) {
        NothingToCut(keccak, kv, c, p, n);
      }
    } else {
      LosesABatch(keccak, kv, c, checked, p);
      NotTheSame(keccak, AddDelayed(kv, msgs), kv, Kept(kv, c, p), c, checked);
    }
  }

  lemma LosesABatch(keccak: Keccak, kv: KeyValues, c: nat, checked: map<nat, Hash32>, p: nat)
    requires Inv(keccak, kv, c, checked) && DelayedAfter(kv, c) > p
    ensures Kept(kv, c, p) < c
  {
    hide DelayedInv, CheckedInv, DelayedAfter, MetaAfter, RollbackTo;
    RollbackIsExact(kv, c, p);
  }

  lemma NotTheSame(keccak: Keccak, f: KeyValues, kv: KeyValues, s: nat, c: nat, checked: map<nat, Hash32>)
    requires Inv(keccak, f, s, checked) && Inv(keccak, kv, c, checked) && s < c
    ensures f != kv
  {
    hide DelayedInv, SequencedInv, CheckedInv, DelayedAfter;
    assert MetaKey(s) in kv && MetaKey(s) !in f;
  }
}
