/** The message log: what appending and truncating do to its tables, and what they keep. */
module StreamerSpec {
  import opened Basics
  import opened Message
  import opened DrainProperties
  import opened Store

  // ----- reading the log

  /** A missing or unreadable count reads as zero. */
  function MessageCount(kv: KeyValues): nat {
    var n := NumberAt(kv, MessageCountKey);
    if n.Some? then n.value else 0
  }

  /** Message keys and block-hash keys are exactly those below the count. */
  ghost predicate LogInv(kv: KeyValues) {
    && NumberAt(kv, MessageCountKey).Some?
    && (forall i: nat :: MessageKey(i) in kv <==> i < MessageCount(kv))
    && (forall i: nat :: BlockHashKey(i) in kv <==> i < MessageCount(kv))
    && (forall i: nat | i < MessageCount(kv) ::
          kv[MessageKey(i)].StoredMessage? && kv[BlockHashKey(i)].StoredBlockHash?)
  }

  /** The `i`th entry of the log as it was appended; block metadata is not stored. */
  function LogEntry(kv: KeyValues, i: nat): (m: MessageWithBlockInfo)
    requires MessageKey(i) in kv && kv[MessageKey(i)].StoredMessage?
    requires BlockHashKey(i) in kv && kv[BlockHashKey(i)].StoredBlockHash?
  {
    MessageWithBlockInfo(kv[MessageKey(i)].message, kv[BlockHashKey(i)].hash, None)
  }

  ghost function Log(kv: KeyValues): (l: seq<MessageWithBlockInfo>)
    requires LogInv(kv)
    ensures |l| == MessageCount(kv)
  {
    seq(MessageCount(kv), i requires 0 <= i < MessageCount(kv) => LogEntry(kv, i))
  }

  function Stripped(m: MessageWithBlockInfo): MessageWithBlockInfo {
    m.(blockMetadata := None)
  }

  function StrippedAll(msgs: seq<MessageWithBlockInfo>): (r: seq<MessageWithBlockInfo>)
    ensures |r| == |msgs| && forall i | 0 <= i < |msgs| :: r[i] == Stripped(msgs[i])
  {
    seq(|msgs|, i requires 0 <= i < |msgs| => Stripped(msgs[i]))
  }

  /** The delayed-read counter of the last message, zero for an empty log. */
  function LastStoredRead(kv: KeyValues): nat {
    var n := MessageCount(kv);
    if n > 0 && MessageKey(n - 1) in kv && kv[MessageKey(n - 1)].StoredMessage?
    then kv[MessageKey(n - 1)].message.delayedMessagesRead
    else 0
  }

  // ----- appending

  function PutMessages(kv: KeyValues, first: nat, msgs: seq<MessageWithBlockInfo>): KeyValues {
    if msgs == [] then kv else
      var n := |msgs| - 1;
      PutMessages(kv, first, msgs[..n])
      [MessageKey(first + n) := StoredMessage(msgs[n].messageWithMeta)]
      [BlockHashKey(first + n) := StoredBlockHash(msgs[n].blockHash)]
  }

  function AppendAt(kv: KeyValues, first: nat, msgs: seq<MessageWithBlockInfo>): KeyValues {
    PutMessages(kv, first, msgs)[MessageCountKey := StoredNumber(first + |msgs|)]
  }

  lemma {:induction false} PutMessagesRow(kv: KeyValues, first: nat, msgs: seq<MessageWithBlockInfo>, k: Key)
    ensures var f := PutMessages(kv, first, msgs);
            if k.Row? && k.table.MessageTable? && first <= k.index < first + |msgs| then
              k in f && f[k] == StoredMessage(msgs[k.index - first].messageWithMeta)
            else if k.Row? && k.table.BlockHashTable? && first <= k.index < first + |msgs| then
              k in f && f[k] == StoredBlockHash(msgs[k.index - first].blockHash)
            else (k in f <==> k in kv) && (k in kv ==> f[k] == kv[k])
    decreases |msgs|
  {
    if msgs != [] {
      PutMessagesRow(kv, first, msgs[..|msgs| - 1], k);
    }
  }

  /** Everything outside the log is left alone by an append. */
  ghost predicate OnlyLogDiffers(kv: KeyValues, kv': KeyValues) {
    forall k: Key | !(k.MessageCountKey? || (k.Row? && (k.table.MessageTable? || k.table.BlockHashTable?))) ::
      (k in kv' <==> k in kv) && (k in kv ==> kv'[k] == kv[k])
  }

  /** The keys that appends and truncations may touch. */
  predicate IsLogKey(k: Key) {
    k.MessageCountKey? || (k.Row? && (k.table.MessageTable? || k.table.BlockHashTable? || k.table.ResultTable?))
  }

  ghost predicate SameOutsideLog(kv: KeyValues, kv': KeyValues) {
    forall k: Key | !IsLogKey(k) :: (k in kv' <==> k in kv) && (k in kv ==> kv'[k] == kv[k])
  }

  lemma AppendOutside(kv: KeyValues, first: nat, msgs: seq<MessageWithBlockInfo>)
    ensures SameOutsideLog(kv, AppendAt(kv, first, msgs))
  {
    hide PutMessages;
    forall k: Key | !IsLogKey(k)
      ensures k in AppendAt(kv, first, msgs) <==> k in kv
      ensures k in kv ==> AppendAt(kv, first, msgs)[k] == kv[k]
    {
      PutMessagesRow(kv, first, msgs, k);
    }
  }

  lemma TruncateOutside(kv: KeyValues, n: nat)
    ensures SameOutsideLog(kv, TruncateAt(kv, n))
  {
  }

  /** Appending at the end extends the log by exactly the given messages. */
  lemma AppendExtends(kv: KeyValues, msgs: seq<MessageWithBlockInfo>)
    requires LogInv(kv)
    ensures var f := AppendAt(kv, MessageCount(kv), msgs);
            LogInv(f) && Log(f) == Log(kv) + StrippedAll(msgs) && OnlyLogDiffers(kv, f)
  {
    hide PutMessages;
    var first := MessageCount(kv);
    var f := AppendAt(kv, first, msgs);
    forall k: Key
      ensures k.Row? && k.table.MessageTable? ==>
                (k in f <==> k.index < first + |msgs|)
                && (k.index < first ==> k in kv && k in f && f[k] == kv[k])
                && (first <= k.index < first + |msgs|
                  ==> k in f && f[k] == StoredMessage(msgs[k.index - first].messageWithMeta))
      ensures k.Row? && k.table.BlockHashTable? ==>
                (k in f <==> k.index < first + |msgs|)
                && (k.index < first ==> k in kv && k in f && f[k] == kv[k])
                && (first <= k.index < first + |msgs|
                  ==> k in f && f[k] == StoredBlockHash(msgs[k.index - first].blockHash))
      ensures !(k.MessageCountKey? || (k.Row? && (k.table.MessageTable? || k.table.BlockHashTable?))) ==>
                (k in f <==> k in kv) && (k in kv ==> f[k] == kv[k])
    {
      PutMessagesRow(kv, first, msgs, k);
      if k.Row? {
        assert k.table.MessageTable? ==> k == MessageKey(k.index);
        assert k.table.BlockHashTable? ==> k == BlockHashKey(k.index);
      }
    }
    assert LogInv(f);
    forall i: nat | i < first + |msgs|
      ensures Log(f)[i] == (Log(kv) + StrippedAll(msgs))[i]
    {
      assert MessageKey(i) in f && BlockHashKey(i) in f;
    }
  }

  // ----- truncating

  /** The log and the results cut off at `n`. */
  ghost function TruncateAt(kv: KeyValues, n: nat): KeyValues {
    (kv - KeysFrom(kv, ResultTable, n) - KeysFrom(kv, BlockHashTable, n) - KeysFrom(kv, MessageTable, n))
    [MessageCountKey := StoredNumber(n)]
  }

  /** A truncation keeps the log whole exactly when it does not reach past its end. */
  lemma TruncateCuts(kv: KeyValues, n: nat)
    requires LogInv(kv)
    ensures LogInv(TruncateAt(kv, n)) <==> n <= MessageCount(kv)
    ensures n <= MessageCount(kv) ==> LogInv(TruncateAt(kv, n)) && Log(TruncateAt(kv, n)) == Log(kv)[..n]
  {
    var f := TruncateAt(kv, n);
    assert forall i: nat :: MessageKey(i) in f <==> MessageKey(i) in kv && i < n;
    assert forall i: nat :: BlockHashKey(i) in f <==> BlockHashKey(i) in kv && i < n;
    if n > MessageCount(kv) {
      assert MessageKey(n - 1) !in f;
    }
  }

  // ----- duplicates

  /** Two messages are the same but for a gas cost that at least one of them lacks. */
  predicate SameButGas(a: MessageWithMetadata, b: MessageWithMetadata) {
    && (a.message.batchGasCost.None? || b.message.batchGasCost.None?)
    && a.(message := a.message.(batchGasCost := None)) == b.(message := b.message.(batchGasCost := None))
  }

  /** How many leading messages are stored already, and whether the next one contradicts what is stored. */
  datatype Duplicates = Duplicates(count: nat, reorg: bool, stored: Option<MessageWithMetadata>)

  function FindDuplicates(kv: KeyValues, idx: nat, msgs: seq<MessageWithBlockInfo>): (d: Duplicates)
    ensures d.count <= |msgs|
    decreases |msgs|
  {
    if msgs == [] || MessageKey(idx) !in kv then Duplicates(0, false, None)
    else if !kv[MessageKey(idx)].StoredMessage? then Duplicates(0, true, None)
    else
      var have := kv[MessageKey(idx)].message;
      if have != msgs[0].messageWithMeta && !SameButGas(have, msgs[0].messageWithMeta) then
        Duplicates(0, true, Some(have))
      else
        var rest := FindDuplicates(kv, idx + 1, msgs[1..]);
        rest.(count := rest.count + 1)
  }

  /** Message `i` is stored as `msg`, up to a gas cost that one side lacks. */
  predicate StoredAs(kv: KeyValues, i: nat, msg: MessageWithBlockInfo) {
    && MessageKey(i) in kv && kv[MessageKey(i)].StoredMessage?
    && var a, b := kv[MessageKey(i)].message, msg.messageWithMeta;
       && a.delayedMessagesRead == b.delayedMessagesRead
       && a.message.header == b.message.header && a.message.l2msg == b.message.l2msg
       && (|| a.message.batchGasCost == b.message.batchGasCost
           || a.message.batchGasCost.None? || b.message.batchGasCost.None?)
  }

  /**
   What the duplicate search finds: the length of the longest prefix that is stored already, and a reorg if and only if
   that is not everything and something is stored where the next message would go; then what that is, if it can be read.
   */
  lemma {:induction false} DuplicatesAre(kv: KeyValues, idx: nat, msgs: seq<MessageWithBlockInfo>)
    ensures var d := FindDuplicates(kv, idx, msgs);
            && (forall j: nat | j < d.count :: StoredAs(kv, idx + j, msgs[j]))
            && (d.count < |msgs| ==> !StoredAs(kv, idx + d.count, msgs[d.count]))
            && (d.reorg <==> d.count < |msgs| && MessageKey(idx + d.count) in kv)
            && d.stored == if d.reorg && kv[MessageKey(idx + d.count)].StoredMessage?
                           then Some(kv[MessageKey(idx + d.count)].message) else None
    decreases |msgs|
  {
    if msgs != [] && StoredAs(kv, idx, msgs[0]) {
      DuplicatesAre(kv, idx + 1, msgs[1..]);
      var d := FindDuplicates(kv, idx, msgs);
      forall j: nat | j < d.count
        ensures StoredAs(kv, idx + j, msgs[j])
      {
        if j > 0 {
          assert StoredAs(kv, idx + 1 + (j - 1), msgs[1..][j - 1]);
        }
      }
    }
  }

  /**
   Message `i` reports at most one delayed message more than the one before it; the first is compared with the log.
   */
  ghost predicate RisesByOne(kv: KeyValues, msgs: seq<MessageWithBlockInfo>, i: nat)
    requires LogInv(kv) && i < |msgs|
  {
    var n := MessageCount(kv);
    var before := if i > 0 then msgs[i - 1].messageWithMeta.delayedMessagesRead
                  else if n > 0 then kv[MessageKey(n - 1)].message.delayedMessagesRead else 0;
    msgs[i].messageWithMeta.delayedMessagesRead <= before + 1
  }

  predicate MayFollow(last: nat, msgs: seq<MessageWithBlockInfo>, i: nat)
    requires i < |msgs|
  {
    ReadAt(msgs[i]) <= (if i > 0 then ReadAt(msgs[i - 1]) else last) + 1
  }

  lemma {:induction false} JumpFreeIs(last: nat, msgs: seq<MessageWithBlockInfo>)
    ensures JumpFree(last, msgs) <==> forall i | 0 <= i < |msgs| :: MayFollow(last, msgs, i)
    decreases |msgs|
  {
    if msgs != [] {
      var first, rest := ReadAt(msgs[0]), msgs[1..];
      JumpFreeIs(first, rest);
      assert MayFollow(last, msgs, 0) <==> SaturatingSub(first, last) <= 1;
      if forall i | 0 <= i < |rest| :: MayFollow(first, rest, i) {
        forall i | 0 < i < |msgs|
          ensures MayFollow(last, msgs, i)
        {
          assert MayFollow(first, rest, i - 1);
        }
      }
      if forall i | 0 <= i < |msgs| :: MayFollow(last, msgs, i) {
        forall i | 0 <= i < |rest|
          ensures MayFollow(first, rest, i)
        {
          assert MayFollow(last, msgs, i + 1);
        }
      }
    }
  }

  /** What the streamer lets through, on a whole log. */
  lemma AppendableIs(kv: KeyValues, first: nat, msgs: seq<MessageWithBlockInfo>)
    requires LogInv(kv)
    ensures Appendable(kv, first, msgs)
       <==> first == MessageCount(kv) && forall i | 0 <= i < |msgs| :: RisesByOne(kv, msgs, i)
  {
    hide JumpFree;
    var last := LastStoredRead(kv);
    JumpFreeIs(last, msgs);
    forall i | 0 <= i < |msgs|
      ensures RisesByOne(kv, msgs, i) <==> MayFollow(last, msgs, i)
    {
    }
  }

  /** Whether an append at `first` goes through. */
  predicate Appendable(kv: KeyValues, first: nat, msgs: seq<MessageWithBlockInfo>) {
    first == MessageCount(kv) && JumpFree(LastStoredRead(kv), msgs)
  }
}
