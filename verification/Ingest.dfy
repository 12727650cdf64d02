/** Ingesting sequencer batches: drain them, append the messages to the log, then store the batches. */
module Ingest {
  import opened Basics
  import opened SequencerMessages
  import opened DrainSpec
  import opened DrainProperties
  import opened Multiplexer
  import opened Store
  import opened TrackerSpec
  import opened BatchOps
  import opened StreamerSpec
  import opened Tracker

  /** What the multiplexer reads while the store holds `kv`. */
  function EnvOf(codec: Codec, kv: KeyValues): Env {
    Env(codec, (i: nat) => DelayedMessageAt(kv, i))
  }

  /** The log is whole, and its length is the message count after the first `first` batches. */
  ghost predicate AlignedAt(kv: KeyValues, first: nat) {
    LogInv(kv) && (first == 0 || ReadMeta(kv, first - 1).Ok?) && MessageCount(kv) == MessagesAfter(kv, first)
  }

  /** Every way a drain from delayed position `read`, its append and the add can end on a whole log. */
  ghost predicate IngestedFrom(keccak: Keccak, codec: Codec, kv: KeyValues, batches: seq<SequencerInboxBatch>,
                               read: u64, status: Status, kv': KeyValues)
    requires batches != []
  {
    var d := Drain(EnvOf(codec, kv), batches, read);
    if d.outcome.Panicked? then status.Crashed? && kv' == kv
    else if d.outcome.Failed? then status.Errored? && kv' == kv
    else if d.msgs == [] then status.Finished? && kv' == kv
    else if !JumpFree(LastStoredRead(kv), d.msgs) then status.Errored? && kv' == kv
    else
      var appended := AppendAt(kv, MessageCount(kv), d.msgs);
      match AddOutcome(keccak, codec, appended, batches)
      case None => status.Errored? && kv' == appended
      case Some(metas) => status.Finished? && kv' == AddBatches(appended, batches[0].sequenceNumber, metas)
  }

  /** Every way an ingest can end when the log is aligned with the first batch. */
  ghost predicate Ingested(keccak: Keccak, codec: Codec, kv: KeyValues, batches: seq<SequencerInboxBatch>,
                           status: Status, kv': KeyValues)
    requires batches != []
  {
    IngestedFrom(keccak, codec, kv, batches, MetaAfter(kv, batches[0].sequenceNumber).delayedMessageCount, status, kv')
  }

  function StoredBatches(kv: KeyValues): nat {
    var n := NumberAt(kv, BatchCountKey);
    if n.Some? then n.value else 0
  }

  /** Every stored batch has messages of its own, and together they account for the whole log. */
  ghost predicate CaughtUp(kv: KeyValues) {
    && LogInv(kv) && NumberAt(kv, BatchCountKey).Some?
    && BatchInv(kv, StoredBatches(kv)) && StrictCounts(kv, StoredBatches(kv))
    && MessageCount(kv) == MessagesAfter(kv, StoredBatches(kv))
  }

  lemma CaughtUpFacts(kv: KeyValues)
    requires CaughtUp(kv)
    ensures NumberAt(kv, BatchCountKey) == Some(StoredBatches(kv))
            && Repaired(kv, StoredBatches(kv)) == StoredBatches(kv)
    ensures StrictCounts(kv, StoredBatches(kv))
  {
    hide MetaAfter, ReadMeta;
    RepairedIsCount(kv, StoredBatches(kv), StoredBatches(kv));
  }

  // ----- where an ingest takes up the log

  /**
   What is decided before anything is drained: an error, skipping the window, or the delayed position to drain from.
   */
  datatype Plan = Refuse | Skip | From(read: u64)

  /** Without delayed messages before the window, draining starts from the current delayed count. */
  function ColdRead(kv: KeyValues, prev: BatchMetadata): u64 {
    var current := NumberAt(kv, DelayedCountKey);
    if prev.delayedMessageCount == 0 && current.Some? && current.value < U64_LIMIT then current.value
    else prev.delayedMessageCount
  }

  /** The stored count once it has been repaired, zero when there is none. */
  function CountedBatches(kv: KeyValues): nat {
    var n := NumberAt(kv, BatchCountKey);
    if n.Some? then Repaired(kv, n.value) else 0
  }

  /**
   A log that ends where the batches before the window end is taken up there. One that does not is taken up only over
   a store without batches, or when it ends inside the window's first batch; and then that batch is drained from its
   start, or from the current delayed count if no delayed message was read before it.
   */
  function PlanFor(kv: KeyValues, first: nat): Plan {
    var prev, count, c := MetaAfter(kv, first), MessageCount(kv), CountedBatches(kv);
    if first > 0 && ReadMeta(kv, first - 1).Err? then Refuse
    else if count == prev.messageCount then From(prev.delayedMessageCount)
    else if c == 0 && first == 0 then From(ColdRead(kv, prev))
    else if first < c && MessagesAfter(kv, first) < count < MessagesAfter(kv, first + 1) then From(ColdRead(kv, prev))
    else Skip
  }

  /** The counts the search relies on. */
  ghost predicate Searchable(kv: KeyValues) {
    StrictCounts(kv, CountedBatches(kv))
  }

  /** The store the drain starts from: a log out of line has the batch count repaired first. */
  function Looked(kv: KeyValues, first: nat): KeyValues {
    if MessageCount(kv) == MetaAfter(kv, first).messageCount then kv else WithRepairedCount(kv)
  }

  lemma RepairedStore(kv: KeyValues)
    ensures SameMetas(kv, WithRepairedCount(kv)) && MessageCount(WithRepairedCount(kv)) == MessageCount(kv)
    ensures LogInv(kv) ==> LogInv(WithRepairedCount(kv))
    ensures NumberAt(WithRepairedCount(kv), DelayedCountKey) == NumberAt(kv, DelayedCountKey)
    ensures NumberAt(WithRepairedCount(kv), MessageCountKey) == NumberAt(kv, MessageCountKey)
    ensures WithRepairedCount(WithRepairedCount(kv)) == WithRepairedCount(kv)
    ensures NumberAt(kv, BatchCountKey).Some?
            ==> NumberAt(WithRepairedCount(kv), BatchCountKey) == Some(CountedBatches(kv))
    ensures NumberAt(kv, BatchCountKey).None? ==> WithRepairedCount(kv) == kv
    ensures CountedBatches(WithRepairedCount(kv)) == CountedBatches(kv)
  {
    var f := WithRepairedCount(kv);
    var stored := NumberAt(kv, BatchCountKey);
    if stored.Some? {
      RepairedTwice(kv, stored.value);
      RepairedSame(kv, f, Repaired(kv, stored.value));
    }
    assert forall i: nat :: MessageKey(i) in f <==> MessageKey(i) in kv;
    assert forall i: nat :: BlockHashKey(i) in f <==> BlockHashKey(i) in kv;
  }

  lemma {:induction false} RepairedTwice(kv: KeyValues, n: nat)
    ensures Repaired(kv, Repaired(kv, n)) == Repaired(kv, n)
    decreases n
  {
    if n > 0 && MetaKey(n - 1) !in kv {
      RepairedTwice(kv, n - 1);
    }
  }

  lemma {:induction false} RepairedSame(kv: KeyValues, f: KeyValues, n: nat)
    requires forall i: nat :: MetaKey(i) in f <==> MetaKey(i) in kv
    ensures Repaired(f, n) == Repaired(kv, n)
    decreases n
  {
    if n > 0 && MetaKey(n - 1) !in kv {
      RepairedSame(kv, f, n - 1);
    }
  }

  /**
   When the log count is not what the batches before `first` explain: either where to take up the log,
   with the delayed position to drain from, or nothing, and the window is skipped.
   */
  method Realign(tracker: InboxTracker, first: nat, prev: BatchMetadata, dbCount: nat) returns (r: Option<u64>)
    requires tracker.Coherent() && prev == MetaAfter(tracker.db.kv, first)
    requires dbCount == MessageCount(tracker.db.kv) && dbCount != prev.messageCount
    requires first == 0 || ReadMeta(tracker.db.kv, first - 1).Ok?
    modifies tracker.db, tracker`cache
    ensures tracker.Coherent()
    ensures tracker.db.kv == WithRepairedCount(old(tracker.db.kv))
    ensures Searchable(old(tracker.db.kv)) ==>
              PlanFor(old(tracker.db.kv), first) == if r.Some? then From(r.value) else Skip
  {
    hide Repaired, MetaAfter, ReadMeta, StrictCounts, WithRepairedCount;
    ghost var kv := tracker.db.kv;
    RepairedStore(kv);
    FirstMeta(kv);
    var counted := tracker.GetBatchCount();
    var batchCount := if counted.Ok? then counted.value else 0;
    if batchCount == 0 && first == 0 && dbCount > 0 {
      var read := ColdStartDelayed(tracker, prev);
      return Some(read);
    }
    var found := tracker.FindInboxBatchContainingMessage(dbCount);
    if Searchable(kv) {
      SearchableStays(kv);
      if found.Ok? {
        OwnerPlan(kv, first, found.value);
      } else {
        NothingCounted(kv, first);
      }
    }
    if found.Err? || !found.value.1 || found.value.0 != first {
      return None;
    }
    var read := ColdStartDelayed(tracker, prev);
    r := Some(read);
  }

  lemma SearchableStays(kv: KeyValues)
    requires Searchable(kv)
    ensures Searchable(WithRepairedCount(kv))
    ensures forall i: nat :: MessagesAfter(WithRepairedCount(kv), i) == MessagesAfter(kv, i)
  {
    hide WithRepairedCount, CountedBatches, ReadMeta;
    RepairedStore(kv);
    var f := WithRepairedCount(kv);
    forall i: nat
      ensures MetaAfter(f, i) == MetaAfter(kv, i)
    {
      assert i > 0 ==> ReadMeta(f, i - 1) == ReadMeta(kv, i - 1);
    }
    assert forall i: nat :: MessagesAfter(f, i) == MessagesAfter(kv, i);
  }

  /** What the search answers, read as a plan. */
  lemma OwnerPlan(kv: KeyValues, first: nat, r: (nat, bool))
    requires Searchable(kv) && Owns(kv, CountedBatches(kv), MessageCount(kv), r)
    requires MessageCount(kv) != MetaAfter(kv, first).messageCount && (first == 0 || ReadMeta(kv, first - 1).Ok?)
    requires !(CountedBatches(kv) == 0 && first == 0)
    ensures PlanFor(kv, first) == if r.1 && r.0 == first then From(ColdRead(kv, MetaAfter(kv, first))) else Skip
  {
    hide MetaAfter, ReadMeta, CountedBatches;
    var c, count := CountedBatches(kv), MessageCount(kv);
    if first < c && MessagesAfter(kv, first) < count < MessagesAfter(kv, first + 1) {
      NotPastEnd(kv, c, first);
      OneOwner(kv, c, count, r.0, first);
    }
  }

  lemma NotPastEnd(kv: KeyValues, c: nat, first: nat)
    requires StrictCounts(kv, c) && first < c
    ensures MessagesAfter(kv, first + 1) <= MessagesAfter(kv, c)
  {
    hide MetaAfter;
  }

  lemma OneOwner(kv: KeyValues, c: nat, pos: nat, a: nat, b: nat)
    requires StrictCounts(kv, c) && b < c && MessagesAfter(kv, b) <= pos < MessagesAfter(kv, b + 1)
    ensures a < c && MessagesAfter(kv, a) <= pos < MessagesAfter(kv, a + 1) ==> a == b
  {
    hide MetaAfter, ReadMeta;
  }

  lemma NothingCounted(kv: KeyValues, first: nat)
    requires MessageCount(kv) != MetaAfter(kv, first).messageCount && (first == 0 || ReadMeta(kv, first - 1).Ok?)
    requires NumberAt(kv, BatchCountKey).None? && first > 0
    ensures PlanFor(kv, first) == Skip
  {
  }

  method ColdStartDelayed(tracker: InboxTracker, prev: BatchMetadata) returns (read: u64)
    ensures read == ColdRead(tracker.db.kv, prev)
  {
    read := prev.delayedMessageCount;
    if prev.delayedMessageCount == 0 {
      var current := NumberAt(tracker.db.kv, DelayedCountKey);
      if current.Some? && current.value < U64_LIMIT {
        read := current.value;
      }
    }
  }

  /** What the plan for a window comes to. */
  ghost predicate Followed(keccak: Keccak, codec: Codec, kv: KeyValues, batches: seq<SequencerInboxBatch>,
                           status: Status, kv': KeyValues)
    requires batches != []
  {
    var first := batches[0].sequenceNumber;
    match PlanFor(kv, first)
    case Refuse => status.Errored? && kv' == kv
    case Skip => status.Finished? && kv' == Looked(kv, first)
    case From(read) => IngestedFrom(keccak, codec, Looked(kv, first), batches, read, status, kv')
  }

  /** On every whole log whose counts can be searched, or that ends where the window begins, the plan is followed. */
  method AddSequencerBatchesAndStream(tracker: InboxTracker, batches: seq<SequencerInboxBatch>) returns (status: Status)
    requires tracker.Coherent() && tracker.streamer.db == tracker.db
    modifies tracker.db, tracker`cache
    ensures tracker.Coherent()
    ensures batches == [] ==> status.Finished? && tracker.db.kv == old(tracker.db.kv)
    ensures batches != [] && LogInv(old(tracker.db.kv))
            && (Searchable(old(tracker.db.kv)) || AlignedAt(old(tracker.db.kv), batches[0].sequenceNumber)) ==>
              Followed(tracker.keccak, tracker.codec, old(tracker.db.kv), batches, status, tracker.db.kv)
  {
    hide LogInv, Drain, JumpFree, AddOutcome, AddBatches, AppendAt, ReadMeta, LastStoredRead, Searchable, DropFrom,
         CountedBatches, IngestedFrom, WithRepairedCount, ColdRead;
    if batches == [] {
      return Finished;
    }
    var first := batches[0].sequenceNumber;
    ghost var kv := tracker.db.kv;
    RepairedStore(kv);
    var prev := NO_META;
    if first > 0 {
      var meta := tracker.GetBatchMetadata(first - 1);
      if meta.Err? {
        NotAligned(kv, first);
        return Errored;
      }
      prev := meta.value;
    }
    PrevIsMeta(kv, first, prev);
    var read := prev.delayedMessageCount;
    var expected := prev.messageCount;
    CountStored(kv);
    var stored := NumberAt(tracker.db.kv, MessageCountKey);
    if stored.None? {
      return Errored;
    }
    var dbCount: nat := stored.value;
    if dbCount != expected {
      StoredIsCount(kv, dbCount);
      var taken := Realign(tracker, first, prev, dbCount);
      if taken.None? {
        return Finished;
      }
      expected, read := dbCount, taken.value;
    }
    StoredIsCount(kv, dbCount);
    status := StreamAndAdd(tracker, batches, expected, read);
  }

  lemma CountStored(kv: KeyValues)
    ensures LogInv(kv) ==> NumberAt(kv, MessageCountKey) == Some(MessageCount(kv))
  {
  }

  lemma StoredIsCount(kv: KeyValues, n: nat)
    requires NumberAt(kv, MessageCountKey) == Some(n)
    ensures MessageCount(kv) == n
  {
  }

  lemma NotAligned(kv: KeyValues, first: nat)
    requires first > 0 && ReadMeta(kv, first - 1).Err?
    ensures PlanFor(kv, first) == Refuse && !AlignedAt(kv, first)
  {
  }

  lemma PrevIsMeta(kv: KeyValues, first: nat, prev: BatchMetadata)
    requires if first == 0 then prev == NO_META else ReadMeta(kv, first - 1) == Ok(prev)
    ensures prev == MetaAfter(kv, first)
    ensures MessageCount(kv) == prev.messageCount ==>
              PlanFor(kv, first) == From(prev.delayedMessageCount) && Looked(kv, first) == kv
  {
  }

  /** Drains from position `read`; a failure after the append leaves the appended messages in the log. */
  method StreamAndAdd(tracker: InboxTracker, batches: seq<SequencerInboxBatch>, expected: nat, read: u64)
    returns (status: Status)
    requires tracker.Coherent() && tracker.streamer.db == tracker.db && batches != []
    modifies tracker.db, tracker`cache
    ensures tracker.Coherent()
    ensures LogInv(old(tracker.db.kv)) && expected == MessageCount(old(tracker.db.kv)) ==>
              IngestedFrom(tracker.keccak, tracker.codec, old(tracker.db.kv), batches, read, status, tracker.db.kv)
  {
    hide LogInv, Drain, JumpFree, AddOutcome, AddBatches, AppendAt, ReadMeta, LastStoredRead, DropFrom, SameOutsideLog,
         MetaAfter;
    ghost var kv := tracker.db.kv;
    CountStored(kv);
    var out, drained := DrainBatches(EnvOf(tracker.codec, tracker.db.kv), batches, read);
    if !drained.Finished? {
      return drained;
    }
    if out == [] {
      return Finished;
    }
    var current := NumberAt(tracker.db.kv, MessageCountKey);
    if current.None? || current.value != expected {
      return Errored;
    }
    var appended := tracker.streamer.AddMessagesAndEndBatch(expected, true, out);
    if !appended {
      return Errored;
    }
    OutsideKeepsMetas(kv, tracker.db.kv);
    CoherentAfter(kv, tracker.db.kv, tracker.cache);
    var added := tracker.AddSequencerBatches(batches);
    status := if added then Finished else Errored;
  }

  // ----- logs that are longer than the batches explain

  /**
   A log longer than the batches before the window explain, over `c` stored batches: with no batch stored, the window
   is drained again onto the end of the log, from the current delayed count; otherwise it is skipped.
   */
  lemma LongLogPlan(kv: KeyValues, c: nat, first: nat)
    requires LogInv(kv) && NumberAt(kv, BatchCountKey) == Some(c) && BatchInv(kv, c) && StrictCounts(kv, c)
             && first <= c
    requires MessagesAfter(kv, first) < MessageCount(kv) && MessagesAfter(kv, c) <= MessageCount(kv)
    ensures Searchable(kv) && Looked(kv, first) == kv
    ensures PlanFor(kv, first) == if c == 0 then From(ColdRead(kv, NO_META)) else Skip
  {
    hide MetaAfter, ReadMeta;
    RepairedIsCount(kv, c, c);
    assert first + 1 < c ==> MessagesAfter(kv, first + 1) < MessagesAfter(kv, c);
    assert first > 0 ==> ReadMeta(kv, first - 1).Ok?;
    FirstMeta(kv);
  }

  lemma FirstMeta(kv: KeyValues)
    ensures MetaAfter(kv, 0) == NO_META
  {
  }

  /** A window inside what is already stored is skipped and changes nothing. */
  lemma CaughtUpSkips(kv: KeyValues, first: nat)
    requires CaughtUp(kv) && first < StoredBatches(kv)
    ensures Searchable(kv) && PlanFor(kv, first) == Skip && Looked(kv, first) == kv
  {
    hide MetaAfter, ReadMeta;
    LongLogPlan(kv, StoredBatches(kv), first);
  }

  lemma OutsideKeepsMetas(kv: KeyValues, kv': KeyValues)
    requires SameOutsideLog(kv, kv')
    ensures SameMetas(kv, kv')
  {
    forall i: nat
      ensures ReadMeta(kv', i) == ReadMeta(kv, i)
    {
      assert !IsLogKey(MetaKey(i));
    }
  }
}
