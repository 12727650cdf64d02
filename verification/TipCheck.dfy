/**
 Why the reader may compare one accumulator instead of every delayed message: on a chain of hashes, equal tips
 mean equal histories, as long as the hash does not collide on the byte strings that were actually hashed.
 */
module TipCheck {
  import opened Basics
  import opened BigEndian
  import opened L1Message
  import opened Store
  import opened TrackerSpec
  import opened DelayedOps

  /** The parent chain's accumulator after a list of delayed messages. */
  function ChainAcc(keccak: Keccak, chain: seq<L1IncomingMessage>): Hash32 {
    if chain == [] then ZERO_HASH
    else HashAfter(keccak, ChainAcc(keccak, chain[..|chain| - 1]), BodyHash(keccak, chain[|chain| - 1]))
  }

  /** Every byte string hashed while computing that accumulator. */
  function Preimages(keccak: Keccak, chain: seq<L1IncomingMessage>): set<Bytes> {
    if chain == [] then {}
    else
      var rest, m := chain[..|chain| - 1], chain[|chain| - 1];
      Preimages(keccak, rest) + {m.l2msg, BodyBytes(keccak, m), ChainAcc(keccak, rest) + BodyHash(keccak, m)}
  }

  predicate CollisionFree(keccak: Keccak, s: set<Bytes>) {
    forall a, b | a in s && b in s :: keccak(a) == keccak(b) ==> a == b
  }

  /** Everything but the batch gas cost, which is not hashed. */
  predicate SameContent(a: L1IncomingMessage, b: L1IncomingMessage) {
    a.header == b.header && a.l2msg == b.l2msg
  }

  ghost predicate SameChain(a: seq<L1IncomingMessage>, b: seq<L1IncomingMessage>) {
    |a| == |b| && forall i | 0 <= i < |a| :: SameContent(a[i], b[i])
  }

  /** The hashed bytes determine every header field, including whether there is a request id. */
  lemma BodyBytesInjective(keccak: Keccak, a: L1IncomingMessage, b: L1IncomingMessage)
    ensures BodyBytes(keccak, a) == BodyBytes(keccak, b) <==> a.header == b.header && keccak(a.l2msg) == keccak(b.l2msg)
  {
    hide ToBytes, FromBytes, Pow256;
    var x, y := BodyBytes(keccak, a), BodyBytes(keccak, b);
    if x == y {
      BodyBytesFields(keccak, a);
      BodyBytesFields(keccak, b);
      FromTo64(a.header.blockNumber);
      FromTo64(b.header.blockNumber);
      FromTo64(a.header.timestamp);
      FromTo64(b.header.timestamp);
      FromTo(a.header.l1BaseFee, 32);
      FromTo(b.header.l1BaseFee, 32);
      assert a.header.requestId.Some? <==> b.header.requestId.Some?;
    }
  }

  lemma BodyBytesFields(keccak: Keccak, m: L1IncomingMessage)
    ensures var b, h := BodyBytes(keccak, m), m.header;
            var r := if h.requestId.Some? then 69 else 37;
            && b[0] == h.kind && b[1..21] == h.poster
            && b[21..29] == ToBytes(h.blockNumber, 8) && b[29..37] == ToBytes(h.timestamp, 8)
            && (h.requestId.Some? ==> b[37..69] == h.requestId.value)
            && b[r..r + 32] == ToBytes(h.l1BaseFee, 32) && b[r + 32..] == keccak(m.l2msg)
  {
    hide ToBytes;
  }

  /** One link: the new accumulators agree exactly when the old ones and the two messages do. */
  lemma LinkDecides(keccak: Keccak, pa: Hash32, a: L1IncomingMessage, pb: Hash32, b: L1IncomingMessage, s: set<Bytes>)
    requires CollisionFree(keccak, s)
    requires {a.l2msg, BodyBytes(keccak, a), pa + BodyHash(keccak, a)} <= s
    requires {b.l2msg, BodyBytes(keccak, b), pb + BodyHash(keccak, b)} <= s
    ensures HashAfter(keccak, pa, BodyHash(keccak, a)) == HashAfter(keccak, pb, BodyHash(keccak, b))
            <==> pa == pb && SameContent(a, b)
  {
    hide BodyBytes;
    BodyBytesInjective(keccak, a, b);
    var ba, bb := BodyHash(keccak, a), BodyHash(keccak, b);
    if pa + ba == pb + bb {
      assert (pa + ba)[..32] == pa && (pb + bb)[..32] == pb;
      assert (pa + ba)[32..] == ba && (pb + bb)[32..] == bb;
    }
  }

  /**
   Two chains of the same length have the same tip exactly when all their messages agree in every header
   field and in the payload.
   */
  lemma {:induction false} TipDecides(keccak: Keccak, a: seq<L1IncomingMessage>, b: seq<L1IncomingMessage>)
    requires |a| == |b|
    requires CollisionFree(keccak, Preimages(keccak, a) + Preimages(keccak, b))
    ensures ChainAcc(keccak, a) == ChainAcc(keccak, b) <==> SameChain(a, b)
    decreases |a|
  {
    hide BodyBytes, BodyHash, HashAfter, SameChain, SameContent, CollisionFree;
    if a != [] {
      var last, s := |a| - 1, Preimages(keccak, a) + Preimages(keccak, b);
      FewerPreimages(keccak, s, Preimages(keccak, a[..last]) + Preimages(keccak, b[..last]));
      TipDecides(keccak, a[..last], b[..last]);
      LinkDecides(keccak, ChainAcc(keccak, a[..last]), a[last], ChainAcc(keccak, b[..last]), b[last], s);
      SameChainSplits(a, b);
    } else {
      EmptyChains(a, b);
    }
  }

  lemma EmptyChains(a: seq<L1IncomingMessage>, b: seq<L1IncomingMessage>)
    requires a == b == []
    ensures SameChain(a, b)
  {
  }

  lemma FewerPreimages(keccak: Keccak, s: set<Bytes>, t: set<Bytes>)
    requires CollisionFree(keccak, s) && t <= s
    ensures CollisionFree(keccak, t)
  {
  }

  lemma SameChainSplits(a: seq<L1IncomingMessage>, b: seq<L1IncomingMessage>)
    requires |a| == |b| > 0
    ensures var last := |a| - 1;
            SameChain(a, b) <==> SameChain(a[..last], b[..last]) && SameContent(a[last], b[last])
  {
    var last := |a| - 1;
    assert forall i | 0 <= i < last :: a[..last][i] == a[i] && b[..last][i] == b[i];
  }

  // ----- the stored chain

  function MessageAt(kv: KeyValues, i: nat): L1IncomingMessage
    requires EntryAt(kv, i).Some? && |EntryAt(kv, i).value.1| >= LEGACY_HEADER
  {
    ParseLegacy(EntryAt(kv, i).value.1).value
  }

  /** The first `n` stored delayed messages. */
  ghost function StoredChain(keccak: Keccak, kv: KeyValues, n: nat): (chain: seq<L1IncomingMessage>)
    requires DelayedInv(keccak, kv) && n <= NumberAt(kv, DelayedCountKey).value
    ensures |chain| == n
  {
    if n == 0 then []
    else
      assert Linked(keccak, kv, n - 1);
      StoredChain(keccak, kv, n - 1) + [MessageAt(kv, n - 1)]
  }

  lemma {:induction false} StoredChainAt(keccak: Keccak, kv: KeyValues, n: nat, i: nat)
    requires DelayedInv(keccak, kv) && i < n <= NumberAt(kv, DelayedCountKey).value
    ensures EntryAt(kv, i).Some? && |EntryAt(kv, i).value.1| >= LEGACY_HEADER
    ensures StoredChain(keccak, kv, n)[i] == MessageAt(kv, i)
  {
    hide ParseLegacy, EntryAt, AccAt;
    assert Linked(keccak, kv, i);
    if i < n - 1 {
      StoredChainAt(keccak, kv, n - 1, i);
    }
  }

  /** The accumulator computed from one stored entry is that of the whole chain up to it. */
  lemma {:induction false} StoredAccIsChainAcc(keccak: Keccak, kv: KeyValues, i: nat)
    requires DelayedInv(keccak, kv) && i < NumberAt(kv, DelayedCountKey).value
    ensures AccAt(keccak, kv, i) == Ok(ChainAcc(keccak, StoredChain(keccak, kv, i + 1)))
  {
    hide EntryAt, ParseLegacy, BodyHash, HashAfter;
    assert Linked(keccak, kv, i);
    var chain := StoredChain(keccak, kv, i + 1);
    assert chain[..i] == StoredChain(keccak, kv, i);
    if i > 0 {
      StoredAccIsChainAcc(keccak, kv, i - 1);
    }
  }

  /**
   The reader's check at delayed count `n`: the stored accumulator equals the parent chain's exactly when
   the first `n` stored messages are the parent chain's.
   */
  lemma TipCheckSound(keccak: Keccak, kv: KeyValues, l1: seq<L1IncomingMessage>, n: nat)
    requires DelayedInv(keccak, kv)
    requires 0 < n <= |l1| && n <= NumberAt(kv, DelayedCountKey).value
    requires CollisionFree(keccak, Preimages(keccak, StoredChain(keccak, kv, n)) + Preimages(keccak, l1[..n]))
    ensures AccAt(keccak, kv, n - 1) == Ok(ChainAcc(keccak, l1[..n]))
            <==> SameChain(StoredChain(keccak, kv, n), l1[..n])
  {
    hide DelayedInv, AccAt, Preimages, CollisionFree, SameChain, ChainAcc;
    StoredAccIsChainAcc(keccak, kv, n - 1);
    TipDecides(keccak, StoredChain(keccak, kv, n), l1[..n]);
  }

  // ----- what is read back

  /** Reading a stored delayed message back returns the very bytes put in exactly when their address padding is zero. */
  lemma ReadsBackBytes(keccak: Keccak, kv: KeyValues, i: nat)
    requires DelayedInv(keccak, kv) && i < NumberAt(kv, DelayedCountKey).value
    ensures var m := DelayedMessageAt(kv, i);
            && m.Some?
            && (SerializeLegacy(m.value) == Ok(EntryAt(kv, i).value.1) <==> Padded(EntryAt(kv, i).value.1))
  {
    hide ParseLegacy, SerializeLegacy, Padded, EntryAt;
    assert Linked(keccak, kv, i);
    assert Row(ParentChainBlockTable, i) in kv ==> kv[Row(ParentChainBlockTable, i)].StoredNumber?;
    LegacyBytesRoundTrip(EntryAt(kv, i).value.1);
  }

  /** A message with a request id, serialized by the reader and added, is what the tracker then reads. */
  lemma AddedReadsBack(keccak: Keccak, kv: KeyValues, msgs: seq<DelayedInput>, j: nat, m: L1IncomingMessage)
    requires DelayedInv(keccak, kv) && msgs != [] && Accepts(keccak, kv, msgs) && j < |msgs|
    requires SerializeLegacy(m) == Ok(msgs[j].bytes)
    ensures DelayedMessageAt(AddDelayed(kv, msgs), msgs[0].seqNum + j) == Some(m.(batchGasCost := None))
  {
    hide ParseLegacy, SerializeLegacy, EntryAt, Accepts, AddDelayed;
    var p, f := msgs[0].seqNum, AddDelayed(kv, msgs);
    AddKeepsChain(keccak, kv, msgs);
    AddedEntries(keccak, kv, msgs);
    AddedCount(kv, msgs);
    ReadsBackBytes(keccak, f, p + j);
    LegacyRoundTrip(m);
    assert EntryAt(f, p + j) == Some((msgs[j].beforeAcc, msgs[j].bytes));
  }

  lemma AddedCount(kv: KeyValues, msgs: seq<DelayedInput>)
    requires msgs != []
    ensures NumberAt(AddDelayed(kv, msgs), DelayedCountKey) == Some(msgs[0].seqNum + |msgs|)
  {
    CutCount(kv, PutDelayed(Eager(kv, msgs[0].seqNum), msgs), msgs[0].seqNum, msgs[0].seqNum + |msgs|);
  }
}
