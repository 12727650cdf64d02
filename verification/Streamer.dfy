/** The transaction streamer: appends messages to the log, and truncates it on a reorg. */
module Streamer {
  import opened Basics
  import opened Message
  import opened DrainProperties
  import opened Store
  import opened StreamerSpec

  class TransactionStreamer {
    const db: Database

    constructor (db: Database)
      ensures this.db == db
    {
      this.db := db;
    }

    method WriteMessages(first: nat, msgs: seq<MessageWithBlockInfo>)
      modifies db
      ensures db.kv == AppendAt(old(db.kv), first, msgs)
      ensures db.commits == old(db.commits) + [db.kv]
    {
      hide Apply, PutMessages;
      var batch := new Batch();
      ghost var kv := db.kv;
      assert Apply(kv, batch.ops) == PutMessages(kv, first, []) by { NothingPut(kv, first); }
      assert msgs[..0] == [];
      for i := 0 to |msgs|
        invariant fresh(batch) && db.kv == kv && db.commits == old(db.commits)
        invariant Apply(kv, batch.ops) == PutMessages(kv, first, msgs[..i])
      {
        batch.Put(MessageKey(first + i), StoredMessage(msgs[i].messageWithMeta), kv);
        batch.Put(BlockHashKey(first + i), StoredBlockHash(msgs[i].blockHash), kv);
        OneMorePut(kv, first, msgs, i);
      }
      assert msgs[..|msgs|] == msgs;
      batch.Put(MessageCountKey, StoredNumber(first + |msgs|), kv);
      db.Write(batch);
    }

    /** Deletes from `first` on and then appends, in two commits; the first message cannot be replaced. */
    method AddMessagesAndReorg(first: nat, msgs: seq<MessageWithBlockInfo>) returns (ok: bool)
      modifies db
      ensures ok <==> first != 0
      ensures !ok ==> db.kv == old(db.kv) && db.commits == old(db.commits)
      ensures ok ==> var cut := TruncateAt(old(db.kv), first);
                     && db.kv == (if msgs == [] then cut else AppendAt(cut, first, msgs))
                     && db.commits == old(db.commits) + [cut] + (if msgs == [] then [] else [db.kv])
    {
      hide Apply, AppendAt;
      if first == 0 {
        return false;
      }
      var batch := new Batch();
      ghost var kv := db.kv;
      assert Apply(kv, []) == kv by { AppliedNothing(kv); }
      DeleteStartingAt(db, batch, ResultTable, first, kv);
      DeleteStartingAt(db, batch, BlockHashTable, first, kv);
      DeleteStartingAt(db, batch, MessageTable, first, kv);
      batch.Put(MessageCountKey, StoredNumber(first), kv);
      db.Write(batch);
      if msgs != [] {
        WriteMessages(first, msgs);
      }
      ok := true;
    }

    method ReorgAt(first: nat) returns (ok: bool)
      modifies db
      ensures ok <==> first != 0
      ensures db.kv == if ok then TruncateAt(old(db.kv), first) else old(db.kv)
      ensures db.commits == if ok then old(db.commits) + [db.kv] else old(db.commits)
    {
      ok := AddMessagesAndReorg(first, []);
    }

    method CountDuplicateMessages(idx: nat, msgs: seq<MessageWithBlockInfo>) returns (d: Duplicates)
      ensures d == FindDuplicates(db.kv, idx, msgs)
    {
      var cur := 0;
      while cur < |msgs|
        invariant cur <= |msgs|
        invariant var rest := FindDuplicates(db.kv, idx + cur, msgs[cur..]);
                  FindDuplicates(db.kv, idx, msgs) == rest.(count := rest.count + cur)
      {
        var key := MessageKey(idx + cur);
        if key !in db.kv {
          return Duplicates(cur, false, None);
        }
        if !db.kv[key].StoredMessage? {
          return Duplicates(cur, true, None);
        }
        var have, next := db.kv[key].message, msgs[cur].messageWithMeta;
        if have != next && !SameButGas(have, next) {
          return Duplicates(cur, true, Some(have));
        }
        assert msgs[cur..][1..] == msgs[cur + 1..];
        cur := cur + 1;
      }
      d := Duplicates(cur, false, None);
    }

    /** The counter of the message before `idx`; a missing message counts as zero, an unreadable one is an error. */
    method PrevDelayedRead(idx: nat) returns (r: Result<nat>)
      ensures idx == 0 || MessageKey(idx - 1) !in db.kv ==> r == Ok(0)
      ensures idx > 0 && MessageKey(idx - 1) in db.kv ==>
                && (r.Ok? <==> db.kv[MessageKey(idx - 1)].StoredMessage?)
                && (r.Ok? ==> r.value == db.kv[MessageKey(idx - 1)].message.delayedMessagesRead)
    {
      if idx == 0 {
        return Ok(0);
      }
      var key := MessageKey(idx - 1);
      if key !in db.kv {
        return Ok(0);
      }
      if !db.kv[key].StoredMessage? {
        return Err;
      }
      var read: nat := db.kv[key].message.delayedMessagesRead;
      r := Ok(read);
    }

    method CheckJumps(last: nat, msgs: seq<MessageWithBlockInfo>) returns (ok: bool)
      ensures ok <==> JumpFree(last, msgs)
    {
      var lastRead: nat := last;
      for i := 0 to |msgs|
        invariant JumpFree(last, msgs) <==> JumpFree(lastRead, msgs[i..])
      {
        var read := ReadAt(msgs[i]);
        assert msgs[i..][0] == msgs[i] && msgs[i..][1..] == msgs[i + 1..];
        if SaturatingSub(read, lastRead) > 1 {
          return false;
        }
        lastRead := read;
      }
      ok := true;
    }

    /**
     On a whole log the duplicate search finds nothing and no reorg happens: an add either fails and
     changes nothing, or appends every message as given, whether or not the messages are confirmed.
     */
    method AddMessagesAndEndBatch(firstIdx: nat, confirmed: bool, newMessages: seq<MessageWithBlockInfo>)
      returns (ok: bool)
      modifies db
      ensures !ok ==> db.kv == old(db.kv) && db.commits == old(db.commits)
      ensures SameOutsideLog(old(db.kv), db.kv)
      ensures LogInv(old(db.kv)) ==>
                && (ok <==> Appendable(old(db.kv), firstIdx, newMessages))
                && (ok <==> firstIdx == MessageCount(old(db.kv))
                            && forall i | 0 <= i < |newMessages| :: RisesByOne(old(db.kv), newMessages, i))
                && (ok ==> db.kv == AppendAt(old(db.kv), firstIdx, newMessages))
                && (ok ==> db.commits == old(db.commits) + (if newMessages == [] then [] else [db.kv]))
    {
      hide JumpFree, PutMessages, RisesByOne;
      ghost var kv := db.kv;
      var count := NumberAt(db.kv, MessageCountKey);
      var dbCount := if count.Some? then count.value else 0;
      if dbCount != firstIdx {
        return false;
      }
      var dups := CountDuplicateMessages(firstIdx, newMessages);
      if LogInv(kv) {
        NoDuplicates(kv, newMessages);
        AppendableIs(kv, firstIdx, newMessages);
      }
      if !confirmed && dups.reorg {
        return true;
      }
      var lastRead: nat := 0;
      if dups.count > 0 {
        lastRead := ReadAt(newMessages[dups.count - 1]);
      }
      var messages := newMessages[dups.count..];
      var first := firstIdx + dups.count;
      if lastRead == 0 {
        var prev := PrevDelayedRead(first);
        if prev.Err? {
          return false;
        }
        lastRead := prev.value;
      }
      if messages != [] && dbCount < first && lastRead == 0 {
        lastRead := ReadAt(messages[0]);
      }
      var jumpFree := CheckJumps(lastRead, messages);
      if !jumpFree {
        return false;
      }
      if confirmed && dups.reorg {
        TruncateOutside(kv, first);
        AppendOutside(TruncateAt(kv, first), first, messages);
        ok := AddMessagesAndReorg(first, messages);
        return;
      }
      if messages == [] {
        if LogInv(kv) {
          AppendNothing(kv);
        }
        return true;
      }
      AppendOutside(kv, first, messages);
      WriteMessages(first, messages);
      ok := true;
    }
  }

  lemma NothingPut(kv: KeyValues, first: nat)
    ensures PutMessages(kv, first, []) == kv == Apply(kv, [])
  {
  }

  lemma AppliedNothing(kv: KeyValues)
    ensures Apply(kv, []) == kv
  {
  }

  lemma OneMorePut(kv: KeyValues, first: nat, msgs: seq<MessageWithBlockInfo>, i: nat)
    requires i < |msgs|
    ensures PutMessages(kv, first, msgs[..i + 1])
         == PutMessages(kv, first, msgs[..i])
            [MessageKey(first + i) := StoredMessage(msgs[i].messageWithMeta)]
            [BlockHashKey(first + i) := StoredBlockHash(msgs[i].blockHash)]
  {
    assert msgs[..i + 1][..i] == msgs[..i];
  }

  /** On a whole log nothing is stored at the next index, so nothing counts as a duplicate or a reorg. */
  lemma NoDuplicates(kv: KeyValues, msgs: seq<MessageWithBlockInfo>)
    requires LogInv(kv)
    ensures FindDuplicates(kv, MessageCount(kv), msgs) == Duplicates(0, false, None)
  {
    assert MessageKey(MessageCount(kv)) !in kv;
  }

  lemma AppendNothing(kv: KeyValues)
    requires LogInv(kv)
    ensures AppendAt(kv, MessageCount(kv), []) == kv
  {
  }
}
