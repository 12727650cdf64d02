/**
 The inbox tracker's tables: what each operation reads and writes, and the invariant that ties the
 delayed-message chain, the batch metadata and the delayed-count index together.
 */
module TrackerSpec {
  import opened Basics
  import opened L1Message
  import opened Store

  type Keccak = Bytes -> Hash32

  /** A freshly initialized store. */
  const EMPTY_STORE: KeyValues :=
    map[DelayedCountKey := StoredNumber(0), BatchCountKey := StoredNumber(0), MessageCountKey := StoredNumber(0)]

  // ----- reading the tables

  /** The stored delayed message `i`: the newer table wins over the legacy one. */
  function EntryAt(kv: KeyValues, i: nat): Option<(Hash32, Bytes)> {
    if DelayedKey(i) in kv then
      if kv[DelayedKey(i)].StoredDelayed? then Some((kv[DelayedKey(i)].prev, kv[DelayedKey(i)].bytes)) else None
    else if LegacyDelayedKey(i) in kv then
      if kv[LegacyDelayedKey(i)].StoredDelayed? then Some((kv[LegacyDelayedKey(i)].prev, kv[LegacyDelayedKey(i)].bytes))
      else None
    else None
  }

  predicate HasEntry(kv: KeyValues, i: nat) {
    DelayedKey(i) in kv || LegacyDelayedKey(i) in kv
  }

  /** The accumulator after delayed message `i`, computed from its stored entry. */
  function AccAt(keccak: Keccak, kv: KeyValues, i: nat): Result<Hash32> {
    match EntryAt(kv, i)
    case None => Err
    case Some((prev, bytes)) => AccumulatorAfter(keccak, prev, bytes)
  }

  /** A delayed message, its stored prefix accumulator and its parent-chain block. */
  function DelayedRecord(kv: KeyValues, i: nat): Result<(L1IncomingMessage, Hash32, nat)> {
    match EntryAt(kv, i)
    case None => Err
    case Some((prev, bytes)) =>
      match ParseLegacy(bytes)
      case Err => Err
      case Ok(m) =>
        var parent := Row(ParentChainBlockTable, i);
        if DelayedKey(i) !in kv then Ok((m, prev, 0))
        else if parent !in kv then Ok((m, prev, m.header.blockNumber))
        else if kv[parent].StoredNumber? then Ok((m, prev, kv[parent].number))
        else Err
  }

  function DelayedMessageAt(kv: KeyValues, i: nat): Option<L1IncomingMessage> {
    match DelayedRecord(kv, i)
    case Err => None
    case Ok((m, _, _)) => Some(m)
  }

  function ReadMeta(kv: KeyValues, i: nat): Result<BatchMetadata> {
    if MetaKey(i) in kv && kv[MetaKey(i)].StoredMeta? then Ok(kv[MetaKey(i)].meta) else Err
  }

  const NO_META := BatchMetadata(ZERO_HASH, 0, 0, 0)

  /** The metadata after the first `i` batches. */
  function MetaAfter(kv: KeyValues, i: nat): BatchMetadata {
    if i == 0 then NO_META else
      match ReadMeta(kv, i - 1)
      case Err => NO_META
      case Ok(m) => m
  }

  /** The delayed count after the first `i` batches. */
  function DelayedAfter(kv: KeyValues, i: nat): nat {
    MetaAfter(kv, i).delayedMessageCount
  }

  // ----- the invariant

  /** Entry `i` parses, and its stored prefix is the accumulator of the entry before it. */
  predicate Linked(keccak: Keccak, kv: KeyValues, i: nat) {
    && EntryAt(kv, i).Some?
    && |EntryAt(kv, i).value.1| >= LEGACY_HEADER
    && (i == 0 ==> EntryAt(kv, i).value.0 == ZERO_HASH)
    && (i > 0 ==> AccAt(keccak, kv, i - 1) == Ok(EntryAt(kv, i).value.0))
  }

  /** The delayed messages are an unbroken hash chain from zero up to the stored count. */
  ghost predicate DelayedInv(keccak: Keccak, kv: KeyValues) {
    && NumberAt(kv, DelayedCountKey).Some?
    && (forall i: nat :: HasEntry(kv, i) <==> i < NumberAt(kv, DelayedCountKey).value)
    && (forall i: nat | i < NumberAt(kv, DelayedCountKey).value :: Linked(keccak, kv, i))
    && (forall i: nat :: Row(ParentChainBlockTable, i) in kv ==> kv[Row(ParentChainBlockTable, i)].StoredNumber?)
  }

  /** Metadata exists for exactly the first `c` batches, and the stored count is not below `c`. */
  ghost predicate BatchInv(kv: KeyValues, c: nat) {
    && NumberAt(kv, BatchCountKey).Some? && c <= NumberAt(kv, BatchCountKey).value
    && (forall i: nat :: MetaKey(i) in kv <==> i < c)
    && (forall i: nat | i < c :: ReadMeta(kv, i).Ok?)
    && (forall i: nat, j: nat | i <= j <= c :: DelayedAfter(kv, i) <= DelayedAfter(kv, j))
  }

  /** The row under delayed count `d` names the batch that first reached `d`, or is left over from later batches. */
  predicate RowNames(kv: KeyValues, c: nat, d: nat) {
    var v := NumberAt(kv, SequencedKey(d));
    && v.Some?
    && (|| (v.value < c && DelayedAfter(kv, v.value) < d == DelayedAfter(kv, v.value + 1))
        || (v.value >= c && d > DelayedAfter(kv, c)))
  }

  ghost predicate SequencedInv(kv: KeyValues, c: nat) {
    && (forall d: nat | SequencedKey(d) in kv :: RowNames(kv, c, d))
    && (forall b: nat | b < c && DelayedAfter(kv, b) < DelayedAfter(kv, b + 1) ::
          NumberAt(kv, SequencedKey(DelayedAfter(kv, b + 1))) == Some(b))
  }

  /** Each batch still matches the delayed accumulator it was checked against. */
  ghost predicate CheckedInv(keccak: Keccak, kv: KeyValues, c: nat, checked: map<nat, Hash32>) {
    forall b: nat | b < c && DelayedAfter(kv, b + 1) > 0 ::
      b in checked && AccAt(keccak, kv, DelayedAfter(kv, b + 1) - 1) == Ok(checked[b])
  }

  /**
   The invariant kept by every commit, including those a crash can leave behind: the stored batch
   count may be too high and index rows of removed batches may remain, but never the other way round.
   */
  ghost predicate Inv(keccak: Keccak, kv: KeyValues, c: nat, checked: map<nat, Hash32>) {
    && DelayedInv(keccak, kv)
    && BatchInv(kv, c)
    && SequencedInv(kv, c)
    && CheckedInv(keccak, kv, c, checked)
    && DelayedAfter(kv, c) <= NumberAt(kv, DelayedCountKey).value
  }

  /** Nothing is left to repair or clear. */
  ghost predicate Clean(kv: KeyValues, c: nat) {
    && NumberAt(kv, BatchCountKey) == Some(c)
    && (forall d: nat | SequencedKey(d) in kv :: d <= DelayedAfter(kv, c))
  }

  // ----- frames

  predicate SameRows(kv: KeyValues, kv': KeyValues, k: Key) {
    (k in kv <==> k in kv') && (k in kv ==> kv[k] == kv'[k])
  }

  lemma SameEntry(keccak: Keccak, kv: KeyValues, kv': KeyValues, i: nat)
    requires SameRows(kv, kv', DelayedKey(i)) && SameRows(kv, kv', LegacyDelayedKey(i))
    ensures EntryAt(kv', i) == EntryAt(kv, i) && AccAt(keccak, kv', i) == AccAt(keccak, kv, i)
  {
    hide AccumulatorAfter;
  }

  /** The delayed tables are untouched. */
  ghost predicate SameDelayed(kv: KeyValues, kv': KeyValues) {
    && SameRows(kv, kv', DelayedCountKey)
    && (forall i: nat :: SameRows(kv, kv', DelayedKey(i)) && SameRows(kv, kv', LegacyDelayedKey(i)))
    && (forall i: nat :: SameRows(kv, kv', Row(ParentChainBlockTable, i)))
  }

  lemma DelayedInvFrame(keccak: Keccak, kv: KeyValues, kv': KeyValues)
    requires DelayedInv(keccak, kv) && SameDelayed(kv, kv')
    ensures DelayedInv(keccak, kv')
    ensures forall i: nat :: AccAt(keccak, kv', i) == AccAt(keccak, kv, i)
  {
    hide AccumulatorAfter, AccAt, EntryAt;
    forall i: nat
      ensures AccAt(keccak, kv', i) == AccAt(keccak, kv, i) && EntryAt(kv', i) == EntryAt(kv, i)
      ensures HasEntry(kv', i) == HasEntry(kv, i)
    {
      assert SameRows(kv, kv', DelayedKey(i)) && SameRows(kv, kv', LegacyDelayedKey(i));
      SameEntry(keccak, kv, kv', i);
    }
    assert forall i: nat :: HasEntry(kv', i) <==> i < NumberAt(kv', DelayedCountKey).value;
    assert forall i: nat :: Row(ParentChainBlockTable, i) in kv' ==> SameRows(kv, kv', Row(ParentChainBlockTable, i));
    forall i: nat | i < NumberAt(kv', DelayedCountKey).value
      ensures Linked(keccak, kv', i)
    {
      assert Linked(keccak, kv, i);
    }
  }

  /** Two batches tables agree on the first `c` batches. */
  ghost predicate SameBatches(kv: KeyValues, kv': KeyValues, c: nat) {
    && (forall i: nat | i <= c :: MetaAfter(kv', i) == MetaAfter(kv, i))
    && (forall i: nat | i <= c :: DelayedAfter(kv', i) == DelayedAfter(kv, i))
    && (forall i: nat | i < c :: ReadMeta(kv', i) == ReadMeta(kv, i))
  }

  lemma SameMetasSameBatches(kv: KeyValues, kv': KeyValues, c: nat)
    requires forall i: nat | i < c :: SameRows(kv, kv', MetaKey(i))
    ensures SameBatches(kv, kv', c)
  {
    forall i: nat | i <= c
      ensures MetaAfter(kv', i) == MetaAfter(kv, i)
    {
      if i > 0 {
        assert SameRows(kv, kv', MetaKey(i - 1));
      }
    }
    assert forall i: nat | i < c :: SameRows(kv, kv', MetaKey(i));
  }

  /** Fewer batches and fewer index rows, with none of the rows still needed missing. */
  ghost predicate Shrinks(kv: KeyValues, kv': KeyValues, c': nat) {
    && NumberAt(kv', BatchCountKey).Some? && c' <= NumberAt(kv', BatchCountKey).value
    && (forall i: nat :: MetaKey(i) in kv' <==> i < c')
    && (forall i: nat | i < c' :: SameRows(kv, kv', MetaKey(i)))
    && (forall d: nat | SequencedKey(d) in kv' :: SameRows(kv, kv', SequencedKey(d)))
    && (forall d: nat | SequencedKey(d) in kv && d <= DelayedAfter(kv, c') :: SequencedKey(d) in kv')
  }

  lemma ShrinkKeeps(kv: KeyValues, kv': KeyValues, c: nat, c': nat)
    requires BatchInv(kv, c) && SequencedInv(kv, c) && c' <= c && Shrinks(kv, kv', c')
    ensures BatchInv(kv', c') && SequencedInv(kv', c') && SameBatches(kv, kv', c')
  {
    hide MetaAfter, DelayedAfter, ReadMeta, RowNames;
    SameMetasSameBatches(kv, kv', c');
    forall d: nat | SequencedKey(d) in kv'
      ensures RowNames(kv', c', d)
    {
      assert SameRows(kv, kv', SequencedKey(d));
      assert RowNames(kv, c, d);
      RowNamesFewer(kv, kv', c, c', d);
    }
    forall b: nat | b < c' && DelayedAfter(kv', b) < DelayedAfter(kv', b + 1)
      ensures NumberAt(kv', SequencedKey(DelayedAfter(kv', b + 1))) == Some(b)
    {
      var d := DelayedAfter(kv, b + 1);
      assert DelayedAfter(kv, b) < d <= DelayedAfter(kv, c');
      assert NumberAt(kv, SequencedKey(d)) == Some(b);
      assert SequencedKey(d) in kv';
      assert SameRows(kv, kv', SequencedKey(d));
    }
  }

  lemma RowNamesFewer(kv: KeyValues, kv': KeyValues, c: nat, c': nat, d: nat)
    requires BatchInv(kv, c) && RowNames(kv, c, d) && c' <= c && SameBatches(kv, kv', c')
    requires NumberAt(kv', SequencedKey(d)) == NumberAt(kv, SequencedKey(d))
    ensures RowNames(kv', c', d)
  {
    hide MetaAfter, DelayedAfter, ReadMeta;
    var v := NumberAt(kv, SequencedKey(d)).value;
    assert DelayedAfter(kv, c') <= DelayedAfter(kv, c);
    if c' <= v < c {
      assert DelayedAfter(kv, c') <= DelayedAfter(kv, v);
    }
  }

  // ----- removing the newest batches

  lemma DropMetasShrinks(kv: KeyValues, c: nat, b: nat)
    requires BatchInv(kv, c)
    ensures Shrinks(kv, DropFrom(kv, BatchMetaTable, b), Min(b, c))
  {
    hide DelayedAfter;
    var kv' := DropFrom(kv, BatchMetaTable, b);
    assert forall i: nat :: MetaKey(i) in kv' <==> MetaKey(i) in kv && i < b;
  }

  /** Dropping metadata from batch `b` on, as every rollback first does, keeps the invariant. */
  lemma DropMetasKeeps(keccak: Keccak, kv: KeyValues, c: nat, checked: map<nat, Hash32>, b: nat)
    requires Inv(keccak, kv, c, checked)
    ensures var kv' := DropFrom(kv, BatchMetaTable, b);
            Inv(keccak, kv', Min(b, c), checked) && SameBatches(kv, kv', Min(b, c)) && SameDelayed(kv, kv')
  {
    hide AccAt, DelayedInv, DelayedAfter, MetaAfter, BatchInv, SequencedInv, Shrinks;
    var kv' := DropFrom(kv, BatchMetaTable, b);
    DelayedInvFrame(keccak, kv, kv');
    DropMetasShrinks(kv, c, b);
    ShrinkKeeps(kv, kv', c, Min(b, c));
    Monotone(kv, Min(b, c), c, c);
  }

  lemma Monotone(kv: KeyValues, i: nat, j: nat, c: nat)
    requires BatchInv(kv, c)
    ensures i <= j <= c ==> DelayedAfter(kv, i) <= DelayedAfter(kv, j)
  {
  }

  // ----- how far a change of the delayed messages rolls the batches back

  ghost function Indexes(kv: KeyValues, table: Table, start: nat): set<nat> {
    set k | k in KeysFrom(kv, table, start) :: k.index
  }

  lemma IndexIn(kv: KeyValues, table: Table, start: nat, i: nat)
    ensures i in Indexes(kv, table, start) <==> Row(table, i) in kv && i >= start
  {
    if i in Indexes(kv, table, start) {
      var k :| k in KeysFrom(kv, table, start) && k.index == i;
      assert k == Row(table, i);
    }
    if Row(table, i) in kv && i >= start {
      assert Row(table, i) in KeysFrom(kv, table, start) && Row(table, i).index == i;
    }
  }

  lemma {:induction false} LeastExists(s: set<nat>, x: nat)
    requires x in s
    ensures exists m :: m in s && forall i | i in s :: m <= i
    decreases x
  {
    if y :| y in s && y < x {
      LeastExists(s, y);
    }
  }

  ghost function LeastOf(s: set<nat>): (m: nat)
    requires s != {}
    ensures m in s && forall i | i in s :: m <= i
  {
    var x :| x in s;
    LeastExists(s, x);
    var m :| m in s && forall i | i in s :: m <= i;
    m
  }

  /** The first index row above delayed count `p`. */
  ghost function FirstAbove(kv: KeyValues, p: nat): Option<nat> {
    var rows := Indexes(kv, DelayedSequencedTable, p + 1);
    if rows == {} then None else Some(LeastOf(rows))
  }

  /** The batch count that a change of the delayed messages at `p` rolls back to. */
  ghost function RollbackTo(kv: KeyValues, p: nat): Option<nat> {
    match FirstAbove(kv, p)
    case None => None
    case Some(d) => NumberAt(kv, SequencedKey(d))
  }

  lemma FirstAboveIs(kv: KeyValues, p: nat)
    ensures FirstAbove(kv, p).None? ==> forall d: nat | d > p :: SequencedKey(d) !in kv
    ensures var f := FirstAbove(kv, p);
            f.Some? ==> f.value > p && SequencedKey(f.value) in kv
                        && forall d: nat | d > p && SequencedKey(d) in kv :: f.value <= d
  {
    hide Indexes, KeysFrom;
    forall d: nat
      ensures d in Indexes(kv, DelayedSequencedTable, p + 1) <==> SequencedKey(d) in kv && d > p
    {
      IndexIn(kv, DelayedSequencedTable, p + 1, d);
    }
    var rows := Indexes(kv, DelayedSequencedTable, p + 1);
    assert forall d: nat | d > p && SequencedKey(d) in kv :: d in rows;
    if rows != {} {
      var d := LeastOf(rows);
      assert d in rows;
      IndexIn(kv, DelayedSequencedTable, p + 1, d);
      assert FirstAbove(kv, p) == Some(d);
    }
  }

  lemma {:induction false} FirstExceeding(kv: KeyValues, c: nat, p: nat) returns (b: nat)
    requires BatchInv(kv, c) && DelayedAfter(kv, c) > p
    ensures b < c && DelayedAfter(kv, b) <= p < DelayedAfter(kv, b + 1)
  {
    hide ReadMeta;
    assert DelayedAfter(kv, 0) == 0;
    b := 0;
    while DelayedAfter(kv, b + 1) <= p
      invariant b < c && DelayedAfter(kv, b) <= p
      decreases c - b
    {
      b := b + 1;
    }
  }

  /**
   A change of the delayed messages at `p` rolls back exactly enough: the batches kept are the leading ones whose
   delayed count does not exceed `p`.
   */
  ghost predicate RollsBackExactly(kv: KeyValues, c: nat, p: nat) {
    var t := RollbackTo(kv, p);
    var kept := if t.Some? then Min(t.value, c) else c;
    && (forall b: nat | b <= kept :: DelayedAfter(kv, b) <= p)
    && (kept < c ==> DelayedAfter(kv, kept + 1) > p)
    && (FirstAbove(kv, p).Some? <==> t.Some?)
  }

  /** The rollback is safe and minimal at every position. */
  lemma RollbackIsExact(kv: KeyValues, c: nat, p: nat)
    requires BatchInv(kv, c) && SequencedInv(kv, c)
    ensures RollsBackExactly(kv, c, p)
  {
    hide MetaAfter, DelayedAfter, ReadMeta, FirstAbove;
    FirstAboveIs(kv, p);
    var f := FirstAbove(kv, p);
    if f.Some? {
      assert RowNames(kv, c, f.value);
    }
    assert forall b: nat | b <= c :: DelayedAfter(kv, b) <= DelayedAfter(kv, c);
    if DelayedAfter(kv, c) > p {
      var b := FirstExceeding(kv, c, p);
      var d := DelayedAfter(kv, b + 1);
      assert NumberAt(kv, SequencedKey(d)) == Some(b);
      assert f.Some? && f.value <= d;
      var v := NumberAt(kv, SequencedKey(f.value)).value;
      assert v < c && DelayedAfter(kv, v) < f.value == DelayedAfter(kv, v + 1);
      Monotone(kv, v + 1, b, c);
      Monotone(kv, b + 1, v, c);
    }
  }
}
