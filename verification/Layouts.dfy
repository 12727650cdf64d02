/**
 The byte layouts of everything that is stored or hashed, number by number: RLP as Appendix B of the Ethereum Yellow
 Paper has it, the records made of it, the fixed layouts, and the keys. The codecs are proved against these.
 */
module Layouts {
  import opened Basics
  import opened BigEndian
  import opened Rlp
  import opened L1Message
  import opened Message
  import opened SequencerMessages
  import opened DrainSpec
  import opened Store
  import opened TrackerSpec
  import opened SledStore
  import opened TipCheck
  import opened Tracker

  // ----- Recursive Length Prefix

  /** The number `n` in as few big-endian bytes as it takes. */
  predicate IsMinimal(n: nat, b: Bytes) {
    FromBytes(b) == n && (b != [] ==> b[0] != 0)
  }

  ghost predicate IsString(s: Bytes, b: Bytes) {
    if |s| == 1 && s[0] < 128 then b == s
    else if |s| <= 55 then b == [128 + |s|] + s
    else exists size :: IsMinimal(|s|, size) && 0 < |size| <= 8 && b == [183 + |size|] + size + s
  }

  /** A list whose items together are `items`. */
  ghost predicate IsList(items: Bytes, b: Bytes) {
    if |items| <= 55 then b == [192 + |items|] + items
    else exists size :: IsMinimal(|items|, size) && 0 < |size| <= 8 && b == [247 + |size|] + size + items
  }

  ghost predicate IsInteger(n: nat, b: Bytes) {
    exists digits :: IsMinimal(n, digits) && IsString(digits, b)
  }

  lemma LengthBytesAre(n: u64)
    requires n > 55
    ensures IsMinimal(n, MinimalBytes(n)) && 0 < |MinimalBytes(n)| <= 8
  {
    MinimalLength64(n);
  }

  lemma StringLayout(s: Bytes)
    requires |s| < U64_LIMIT
    ensures IsString(s, EncodeString(s))
  {
    hide MinimalBytes, FromBytes;
    if |s| > 55 {
      LengthBytesAre(|s|);
    }
  }

  lemma ListLayout(items: Bytes)
    requires |items| < U64_LIMIT
    ensures IsList(items, EncodeHeader(Header(true, |items|)) + items)
  {
    hide MinimalBytes, FromBytes;
    if |items| > 55 {
      LengthBytesAre(|items|);
    }
  }

  lemma IntegerLayout(n: nat, width: nat)
    requires n < Pow256(width) && width <= 32
    ensures IsInteger(n, EncodeUint(n, width))
  {
    hide FromBytes, IsString, EncodeString;
    MinimalLength(n, width);
    MinimalIs(n);
    StringLayout(MinimalBytes(n));
  }

  lemma MinimalIs(n: nat)
    ensures IsMinimal(n, MinimalBytes(n))
  {
  }

  lemma WordLayout(n: u64)
    ensures IsInteger(n, EncodeU64(n))
  {
    hide IsInteger, EncodeUint;
    Pow256Values();
    IntegerLayout(n, 8);
  }

  // ----- records

  function Joined(parts: seq<Bytes>): Bytes {
    if parts == [] then [] else parts[0] + Joined(parts[1..])
  }

  ghost predicate HeaderParts(h: L1IncomingMessageHeader, parts: seq<Bytes>) {
    && |parts| == 6
    && IsInteger(h.kind, parts[0]) && IsString(h.poster, parts[1])
    && IsInteger(h.blockNumber, parts[2]) && IsInteger(h.timestamp, parts[3])
    && (h.requestId.Some? ==> IsString(h.requestId.value, parts[4])) && (h.requestId.None? ==> parts[4] == [192])
    && IsInteger(h.l1BaseFee, parts[5])
  }

  /** Kind, poster, block number, timestamp, request id or an empty list, and base fee, as one list. */
  ghost predicate IsL1Header(h: L1IncomingMessageHeader, b: Bytes) {
    exists parts :: HeaderParts(h, parts) && IsList(Joined(parts), b)
  }

  lemma L1HeaderLayout(h: L1IncomingMessageHeader)
    ensures IsL1Header(h, EncodeL1Header(h))
  {
    hide IsInteger, IsString, IsList, EncodeUint, EncodeU64, EncodeString;
    HeaderIsSmall(h);
    var parts := [EncodeByte(h.kind), EncodeString(h.poster), EncodeU64(h.blockNumber), EncodeU64(h.timestamp),
                  EncodeRequest(h.requestId), EncodeUint(h.l1BaseFee, 32)];
    Pow256Values();
    IntegerLayout(h.kind, 1);
    StringLayout(h.poster);
    WordLayout(h.blockNumber);
    WordLayout(h.timestamp);
    if h.requestId.Some? {
      StringLayout(h.requestId.value);
    }
    IntegerLayout(h.l1BaseFee, 32);
    assert HeaderParts(h, parts);
    JoinedSix(parts);
    ListLayout(HeaderPayload(h));
  }

  lemma JoinedSix(parts: seq<Bytes>)
    requires |parts| == 6
    ensures Joined(parts) == parts[0] + (parts[1] + (parts[2] + (parts[3] + (parts[4] + parts[5]))))
  {
    JoinedThree(parts[3..]);
    assert parts[1..][1..] == parts[2..] && parts[2..][1..] == parts[3..];
    assert Joined(parts[2..]) == parts[2] + Joined(parts[3..]);
    assert Joined(parts[1..]) == parts[1] + Joined(parts[2..]);
  }

  lemma JoinedThree(parts: seq<Bytes>)
    requires |parts| == 3
    ensures Joined(parts) == parts[0] + (parts[1] + parts[2])
  {
    assert parts[1..][1..] == parts[2..] && parts[2..] == [parts[2]];
    assert Joined(parts[2..]) == parts[2];
  }

  /** A byte vector as one string, or as a list of its bytes as integers. */
  ghost predicate IsVec(form: VecForm, s: Bytes, b: Bytes) {
    if form.ByteString? then IsString(s, b)
    else exists parts :: ItemParts(s, parts) && IsList(Joined(parts), b)
  }

  ghost predicate ItemParts(s: Bytes, parts: seq<Bytes>) {
    |parts| == |s| && forall i | 0 <= i < |s| :: IsInteger(s[i], parts[i])
  }

  lemma {:induction false} ItemsLayout(s: Bytes) returns (parts: seq<Bytes>)
    ensures ItemParts(s, parts) && Joined(parts) == EncodeItems(s)
  {
    hide IsInteger, EncodeUint;
    if s == [] {
      parts := [];
    } else {
      var rest := ItemsLayout(s[1..]);
      parts := [ByteItem(s[0])] + rest;
      Pow256Values();
      IntegerLayout(s[0], 1);
      assert parts[1..] == rest;
      forall i | 0 <= i < |s|
        ensures IsInteger(s[i], parts[i])
      {
        assert i > 0 ==> s[i] == s[1..][i - 1];
      }
    }
  }

  lemma VecLayout(form: VecForm, s: Bytes)
    requires |VecPayload(form, s)| < U64_LIMIT
    ensures IsVec(form, s, EncodeVec(form, s))
  {
    hide IsString, IsList, IsInteger, ItemParts;
    if form.ByteString? {
      StringLayout(s);
    } else {
      var parts := ItemsLayout(s);
      ListLayout(EncodeItems(s));
    }
  }

  ghost predicate MessageParts(form: VecForm, m: L1IncomingMessage, parts: seq<Bytes>) {
    && |parts| == 3
    && IsL1Header(m.header, parts[0]) && IsVec(form, m.l2msg, parts[1])
    && (m.batchGasCost.Some? ==> IsInteger(m.batchGasCost.value, parts[2]))
    && (m.batchGasCost.None? ==> parts[2] == [])
  }

  /** Header, payload and gas cost, if there is one, as one list. */
  ghost predicate IsMessage(form: VecForm, m: L1IncomingMessage, b: Bytes) {
    exists parts :: MessageParts(form, m, parts) && IsList(Joined(parts), b)
  }

  lemma MessageLayout(form: VecForm, m: L1IncomingMessage)
    requires L1MessageLength(form, m) < U64_LIMIT
    ensures IsMessage(form, m, EncodeL1Message(form, m))
  {
    hide IsL1Header, IsVec, IsInteger, IsList, EncodeL1Header, EncodeVec, EncodeU64;
    var parts := [EncodeL1Header(m.header), EncodeVec(form, m.l2msg), EncodeGas(m.batchGasCost)];
    L1HeaderLayout(m.header);
    VecLayout(form, m.l2msg);
    if m.batchGasCost.Some? {
      WordLayout(m.batchGasCost.value);
    }
    assert MessageParts(form, m, parts);
    JoinedThree(parts);
    ListLayout(MessagePayload(form, m));
  }

  ghost predicate RecordParts(form: VecForm, m: MessageWithMetadata, message: Bytes, read: Bytes) {
    IsMessage(form, m.message, message) && IsInteger(m.delayedMessagesRead, read)
  }

  /** A message and the delayed count after it, as one list. */
  ghost predicate IsRecord(form: VecForm, m: MessageWithMetadata, b: Bytes) {
    exists message, read :: RecordParts(form, m, message, read) && IsList(message + read, b)
  }

  lemma RecordLayout(form: VecForm, m: MessageWithMetadata)
    requires MetadataLength(form, m) < U64_LIMIT
    ensures IsRecord(form, m, EncodeMetadata(form, m))
  {
    hide IsMessage, IsInteger, IsList, EncodeL1Message, EncodeU64;
    MessageLayout(form, m.message);
    WordLayout(m.delayedMessagesRead);
    assert RecordParts(form, m, EncodeL1Message(form, m.message), EncodeU64(m.delayedMessagesRead));
    ListLayout(MetadataPayload(form, m));
  }

  ghost predicate ResultParts(r: MessageResult, blockHash: Bytes, sendRoot: Bytes) {
    IsString(r.blockHash, blockHash) && IsString(r.sendRoot, sendRoot)
  }

  /** Block hash and send root, as one list. */
  ghost predicate IsResult(r: MessageResult, b: Bytes) {
    exists blockHash, sendRoot :: ResultParts(r, blockHash, sendRoot) && IsList(blockHash + sendRoot, b)
  }

  lemma ResultLayout(r: MessageResult)
    ensures IsResult(r, EncodeResult(r))
  {
    hide IsString, IsList;
    StringLayout(r.blockHash);
    StringLayout(r.sendRoot);
    assert ResultParts(r, EncodeString(r.blockHash), EncodeString(r.sendRoot));
    ListLayout(EncodeString(r.blockHash) + EncodeString(r.sendRoot));
  }

  ghost predicate MetaParts(m: BatchMetadata, parts: seq<Bytes>) {
    && |parts| == 4
    && IsString(m.accumulator, parts[0]) && IsInteger(m.messageCount, parts[1])
    && IsInteger(m.delayedMessageCount, parts[2]) && IsInteger(m.parentChainBlock, parts[3])
  }

  /** Accumulator, message count, delayed count and parent-chain block, one after the other and not as a list. */
  ghost predicate IsMeta(m: BatchMetadata, b: Bytes) {
    exists parts :: MetaParts(m, parts) && b == parts[0] + (parts[1] + (parts[2] + parts[3]))
  }

  lemma MetaLayout(m: BatchMetadata)
    requires m.messageCount < U64_LIMIT && m.parentChainBlock < U64_LIMIT
    ensures IsMeta(m, EncodeMeta(m))
  {
    hide IsString, IsInteger, EncodeString, EncodeU64;
    StringLayout(m.accumulator);
    WordLayout(m.messageCount);
    WordLayout(m.delayedMessageCount);
    WordLayout(m.parentChainBlock);
    assert MetaParts(m, [EncodeString(m.accumulator), EncodeU64(m.messageCount), EncodeU64(m.delayedMessageCount),
                         EncodeU64(m.parentChainBlock)]);
  }

  // ----- values and keys of the store

  /** The bytes of a stored value; parent-chain blocks are the only numbers of fixed width. */
  ghost predicate IsValue(form: VecForm, k: Key, v: Value, b: Bytes) {
    && (v.StoredMessage? ==> IsRecord(form, v.message, b))
    && (v.StoredBlockHash? ==> if v.hash.Some? then IsString(v.hash.value, b) else b == [128])
    && (v.StoredResult? ==> IsResult(v.result, b))
    && (v.StoredDelayed? ==> b == v.prev + v.bytes)
    && (v.StoredMeta? ==> IsMeta(v.meta, b))
    && (v.StoredNumber? ==> if k.Row? && k.table.ParentChainBlockTable? then |b| == 8 && FromBytes(b) == v.number
                            else IsInteger(v.number, b))
  }

  lemma ValueLayout(form: VecForm, k: Key, v: Value)
    requires Proper(form, k, v)
    ensures IsValue(form, k, v, ValueBytes(form, k, v))
  {
    hide IsRecord, IsString, IsResult, IsMeta, IsInteger, EncodeMetadata, EncodeString, EncodeResult, EncodeMeta,
         EncodeU64, ToBytes, FromBytes, MetadataLength;
    match v
    case StoredMessage(m) => RecordLayout(form, m);
    case StoredBlockHash(h) =>
      if h.Some? {
        StringLayout(h.value);
      }
    case StoredResult(r) => ResultLayout(r);
    case StoredDelayed(_, _) =>
    case StoredMeta(m) => MetaLayout(m);
    case StoredNumber(n) =>
      FromTo64(n);
      WordLayout(n);
  }

  /** The letter of a table and the eight bytes of an index, most significant first; the counts have names. */
  predicate IsKey(k: Key, b: Bytes) {
    match k
    case Row(table, i) =>
      && |b| == 9 && FromBytes(b[1..]) == i
      && b[0] == (match table
                  case MessageTable => 109
                  case BlockHashTable => 98
                  case ResultTable => 114
                  case LegacyDelayedTable => 100
                  case DelayedTable => 101
                  case ParentChainBlockTable => 112
                  case BatchMetaTable => 115
                  case DelayedSequencedTable => 97)
    case MessageCountKey => Spells(b, "_messageCount")
    case DelayedCountKey => Spells(b, "_delayedMessageCount")
    case BatchCountKey => Spells(b, "_sequencerBatchCount")
  }

  predicate Spells(b: Bytes, s: string) {
    |b| == |s| && forall i | 0 <= i < |s| :: b[i] == s[i] as int
  }

  lemma KeyLayout(k: Key)
    requires Fits(k)
    ensures IsKey(k, KeyBytes(k))
  {
    hide ToBytes, FromBytes, Ascii;
    if k.Row? {
      FromTo64(k.index);
    }
  }

  // ----- the fixed layout of delayed messages, and what is hashed

  /** The 113 bytes before the payload: kind, padding, poster, block number, timestamp, request id and base fee. */
  predicate IsDelayed(h: L1IncomingMessageHeader, payload: Bytes, b: Bytes) {
    && |b| == 113 + |payload| && b[0] == h.kind && b[13..33] == h.poster
    && FromBytes(b[33..41]) == h.blockNumber && FromBytes(b[41..49]) == h.timestamp
    && h.requestId == Some(b[49..81]) && FromBytes(b[81..113]) == h.l1BaseFee && b[113..] == payload
  }

  /**
   Any bytes that are long enough parse as the message laid out in them, and a message is serialized as one of these.
   */
  lemma DelayedLayout(b: Bytes, m: L1IncomingMessage)
    ensures ParseLegacy(b).Ok? <==> |b| >= 113
    ensures ParseLegacy(b).Ok? ==>
              IsDelayed(ParseLegacy(b).value.header, ParseLegacy(b).value.l2msg, b)
              && ParseLegacy(b).value.batchGasCost.None?
    ensures SerializeLegacy(m).Ok? <==> m.header.requestId.Some?
    ensures SerializeLegacy(m).Ok? ==>
              IsDelayed(m.header, m.l2msg, SerializeLegacy(m).value)
              && forall i | 1 <= i < 13 :: SerializeLegacy(m).value[i] == 0
  {
    hide FromBytes, ToBytes;
    if m.header.requestId.Some? {
      LegacyRoundTrip(m);
    }
  }

  /** What is hashed for a message: its header in fixed widths, and the hash of its payload. */
  predicate IsBody(keccak: Keccak, m: L1IncomingMessage, b: Bytes) {
    var h := m.header;
    var n := if h.requestId.Some? then 69 else 37;
    && |b| == n + 64 && b[0] == h.kind && b[1..21] == h.poster
    && FromBytes(b[21..29]) == h.blockNumber && FromBytes(b[29..37]) == h.timestamp
    && (h.requestId.Some? ==> b[37..69] == h.requestId.value)
    && FromBytes(b[n..n + 32]) == h.l1BaseFee && b[n + 32..] == keccak(m.l2msg)
  }

  /** One link of the chain: the hash of the accumulator before it followed by the hash of the message's body. */
  lemma LinkLayout(keccak: Keccak, prev: Hash32, bytes: Bytes)
    requires |bytes| >= 113
    ensures exists body :: IsBody(keccak, ParseLegacy(bytes).value, body)
                           && AccumulatorAfter(keccak, prev, bytes) == Ok(keccak(prev + keccak(body)))
  {
    hide ToBytes, FromBytes;
    var m := ParseLegacy(bytes).value;
    var body := BodyBytes(keccak, m);
    BodyBytesFields(keccak, m);
    FromTo64(m.header.blockNumber);
    FromTo64(m.header.timestamp);
    FromTo(m.header.l1BaseFee, 32);
    assert IsBody(keccak, m, body);
  }

  /** Batches that are accepted from number zero on begin at an inbox accumulator of thirty-two zero bytes. */
  lemma BatchChainStarts(keccak: Keccak, codec: Codec, kv: KeyValues, batches: seq<SequencerInboxBatch>)
    requires batches != [] && batches[0].sequenceNumber == 0 && AddOutcome(keccak, codec, kv, batches).Some?
    ensures forall b | b in batches[0].beforeInboxAcc :: b == 0
  {
  }

  /** The chain of delayed messages begins with thirty-two zero bytes as well. */
  lemma ChainStarts(keccak: Keccak, kv: KeyValues)
    requires DelayedInv(keccak, kv) && NumberAt(kv, DelayedCountKey).value > 0
    ensures EntryAt(kv, 0).Some? && forall b | b in EntryAt(kv, 0).value.0 :: b == 0
  {
    assert Linked(keccak, kv, 0);
  }
}
