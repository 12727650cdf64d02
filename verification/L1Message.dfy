/** Messages arriving from the parent chain: their nested RLP form, their fixed layout and their hash. */
module L1Message {
  import opened Basics
  import opened BigEndian
  import opened Rlp

  type u256 = x: int | 0 <= x < Pow256(32) witness 0

  datatype L1IncomingMessageHeader = L1IncomingMessageHeader(
    kind: byte,
    poster: Address,
    blockNumber: u64,
    timestamp: u64,
    requestId: Option<Hash32>,
    l1BaseFee: u256)

  datatype L1IncomingMessage = L1IncomingMessage(
    header: L1IncomingMessageHeader,
    l2msg: Bytes,
    batchGasCost: Option<u64>)

  // ----- field codecs

  function EncodeByte(x: byte): (b: Bytes)
    ensures |b| == UintLength(x) > 0
  {
    ByteItem(x)
  }

  function EncodeU64(x: u64): (b: Bytes)
    ensures |b| == UintLength(x) > 0
  {
    Pow256Values();
    EncodeUint(x, 8)
  }

  function DecodeU64(b: Bytes): (r: Option<(u64, Bytes)>)
    ensures r.Some? ==> |r.value.1| < |b|
  {
    Pow256Values();
    var (x, rest) :- DecodeUint(b, 8);
    Some((x, rest))
  }

  lemma U64RoundTrip(x: u64, rest: Bytes)
    ensures DecodeU64(EncodeU64(x) + rest) == Some((x, rest))
  {
    Pow256Values();
    UintRoundTrip(x, 8, rest);
  }

  function DecodeHash(b: Bytes): (r: Option<(Hash32, Bytes)>)
    ensures r.Some? ==> |r.value.1| < |b|
  {
    var (s, rest) :- DecodeFixed(b, 32);
    Some((s, rest))
  }

  lemma HashRoundTrip(h: Hash32, rest: Bytes)
    ensures DecodeHash(EncodeString(h) + rest) == Some((h, rest))
    ensures EncodeString(h)[0] == 0xa0
  {
    FixedRoundTrip(h, rest);
  }

  /** An absent request id is written as the empty list. */
  function RequestLength(r: Option<Hash32>): nat {
    if r.Some? then StringLength(r.value) else 1
  }

  function EncodeRequest(r: Option<Hash32>): (b: Bytes)
    ensures |b| == RequestLength(r)
  {
    if r.Some? then EncodeString(r.value) else [0xc0]
  }

  function DecodeRequest(b: Bytes): Option<(Option<Hash32>, Bytes)> {
    if b == [] then None
    else if b[0] == 0xc0 then Some((None, b[1..]))
    else
      var (h, rest) :- DecodeHash(b);
      Some((Some(h), rest))
  }

  lemma RequestRoundTrip(r: Option<Hash32>, rest: Bytes)
    ensures DecodeRequest(EncodeRequest(r) + rest) == Some((r, rest))
  {
    if r.Some? {
      HashRoundTrip(r.value, rest);
    } else {
      assert ([0xc0] + rest)[1..] == rest;
    }
  }

  // ----- the header

  function HeaderPayloadLength(h: L1IncomingMessageHeader): nat {
    UintLength(h.kind) + StringLength(h.poster) + UintLength(h.blockNumber) + UintLength(h.timestamp)
    + RequestLength(h.requestId) + UintLength(h.l1BaseFee)
  }

  function L1HeaderLength(h: L1IncomingMessageHeader): nat {
    HeaderLength(HeaderPayloadLength(h)) + HeaderPayloadLength(h)
  }

  lemma UintIsSmall(x: nat, width: nat)
    requires x < Pow256(width) && width <= 32
    ensures UintLength(x) <= 33
  {
    MinimalLength(x, width);
  }

  lemma HeaderIsSmall(h: L1IncomingMessageHeader)
    ensures HeaderPayloadLength(h) < 200
  {
    hide UintLength;
    Pow256Values();
    UintIsSmall(h.kind, 1);
    UintIsSmall(h.blockNumber, 8);
    UintIsSmall(h.timestamp, 8);
    UintIsSmall(h.l1BaseFee, 32);
  }

  function HeaderPayload(h: L1IncomingMessageHeader): (b: Bytes)
    ensures |b| == HeaderPayloadLength(h)
  {
    EncodeByte(h.kind) + (EncodeString(h.poster) + (EncodeU64(h.blockNumber) + (EncodeU64(h.timestamp)
    + (EncodeRequest(h.requestId) + EncodeUint(h.l1BaseFee, 32)))))
  }

  function EncodeL1Header(h: L1IncomingMessageHeader): (b: Bytes)
    ensures |b| == L1HeaderLength(h)
  {
    HeaderIsSmall(h);
    EncodeHeader(Header(true, HeaderPayloadLength(h))) + HeaderPayload(h)
  }

  function DecodeHeaderPayload(p: Bytes): Option<L1IncomingMessageHeader> {
    Pow256Values();
    var (kind, p1) :- DecodeUint(p, 1);
    var (poster, p2) :- DecodeFixed(p1, 20);
    var (blockNumber, p3) :- DecodeU64(p2);
    var (timestamp, p4) :- DecodeU64(p3);
    var (requestId, p5) :- DecodeRequest(p4);
    var (l1BaseFee, _) :- DecodeUint(p5, 32);
    Some(L1IncomingMessageHeader(kind, poster, blockNumber, timestamp, requestId, l1BaseFee))
  }

  function DecodeL1Header(b: Bytes): Option<(L1IncomingMessageHeader, Bytes)> {
    var (h, rest) :- DecodeHeader(b);
    if !h.list then None
    else
      var header :- DecodeHeaderPayload(rest[..h.length]);
      Some((header, rest[h.length..]))
  }

  lemma HeaderPayloadRoundTrip(h: L1IncomingMessageHeader)
    ensures DecodeHeaderPayload(HeaderPayload(h)) == Some(h)
  {
    hide EncodeUint, DecodeUint, EncodeString, DecodeFixed, EncodeU64, DecodeU64, EncodeRequest, DecodeRequest;
    Pow256Values();
    assert EncodeByte(h.kind) == EncodeUint(h.kind, 1);
    var fee := EncodeUint(h.l1BaseFee, 32);
    var e5 := EncodeRequest(h.requestId) + fee;
    var e4 := EncodeU64(h.timestamp) + e5;
    var e3 := EncodeU64(h.blockNumber) + e4;
    var e2 := EncodeString(h.poster) + e3;
    UintRoundTrip(h.kind, 1, e2);
    FixedRoundTrip(h.poster, e3);
    U64RoundTrip(h.blockNumber, e4);
    U64RoundTrip(h.timestamp, e5);
    RequestRoundTrip(h.requestId, fee);
    assert fee + [] == fee;
    UintRoundTrip(h.l1BaseFee, 32, []);
  }

  /** Strips a list header whose payload is followed by `rest`. */
  lemma ListRoundTrip(payload: Bytes, rest: Bytes)
    requires |payload| < U64_LIMIT
    ensures var b := EncodeHeader(Header(true, |payload|)) + payload + rest;
            && DecodeHeader(b) == Some((Header(true, |payload|), payload + rest))
            && (payload + rest)[..|payload|] == payload
            && (payload + rest)[|payload|..] == rest
  {
    HeaderRoundTrip(Header(true, |payload|), payload + rest);
    var e := EncodeHeader(Header(true, |payload|));
    assert e + payload + rest == e + (payload + rest);
  }

  /** Decoding an encoded header followed by anything returns it and leaves what followed. */
  lemma L1HeaderRoundTrip(h: L1IncomingMessageHeader, rest: Bytes)
    ensures DecodeL1Header(EncodeL1Header(h) + rest) == Some((h, rest))
  {
    HeaderIsSmall(h);
    ListRoundTrip(HeaderPayload(h), rest);
    HeaderPayloadRoundTrip(h);
  }

  // ----- the message

  function GasLength(g: Option<u64>): nat {
    if g.Some? then UintLength(g.value) else 0
  }

  function EncodeGas(g: Option<u64>): (b: Bytes)
    ensures |b| == GasLength(g)
  {
    if g.Some? then EncodeU64(g.value) else []
  }

  function MessagePayloadLength(form: VecForm, m: L1IncomingMessage): nat {
    L1HeaderLength(m.header) + VecLength(form, m.l2msg) + GasLength(m.batchGasCost)
  }

  function L1MessageLength(form: VecForm, m: L1IncomingMessage): nat {
    HeaderLength(MessagePayloadLength(form, m)) + MessagePayloadLength(form, m)
  }

  function MessagePayload(form: VecForm, m: L1IncomingMessage): (b: Bytes)
    requires MessagePayloadLength(form, m) < U64_LIMIT
    ensures |b| == MessagePayloadLength(form, m)
  {
    EncodeL1Header(m.header) + (EncodeVec(form, m.l2msg) + EncodeGas(m.batchGasCost))
  }

  /** The precondition says that the length computed beforehand fits a machine word. */
  function EncodeL1Message(form: VecForm, m: L1IncomingMessage): (b: Bytes)
    requires L1MessageLength(form, m) < U64_LIMIT
    ensures |b| == L1MessageLength(form, m)
  {
    EncodeHeader(Header(true, MessagePayloadLength(form, m))) + MessagePayload(form, m)
  }

  function DecodeMessagePayload(form: VecForm, p: Bytes): Option<L1IncomingMessage> {
    var (header, p1) :- DecodeL1Header(p);
    var (l2msg, p2) :- DecodeVec(form, p1);
    if p2 == [] then Some(L1IncomingMessage(header, l2msg, None))
    else
      var (gas, _) :- DecodeU64(p2);
      Some(L1IncomingMessage(header, l2msg, Some(gas)))
  }

  function DecodeL1Message(form: VecForm, b: Bytes): Option<(L1IncomingMessage, Bytes)> {
    var (h, rest) :- DecodeHeader(b);
    if !h.list then None
    else
      var m :- DecodeMessagePayload(form, rest[..h.length]);
      Some((m, rest[h.length..]))
  }

  lemma MessagePayloadRoundTrip(form: VecForm, m: L1IncomingMessage)
    requires MessagePayloadLength(form, m) < U64_LIMIT
    ensures DecodeMessagePayload(form, MessagePayload(form, m)) == Some(m)
  {
    var gas := EncodeGas(m.batchGasCost);
    L1HeaderRoundTrip(m.header, EncodeVec(form, m.l2msg) + gas);
    VecRoundTrip(form, m.l2msg, gas);
    if m.batchGasCost.Some? {
      assert gas + [] == gas;
      U64RoundTrip(m.batchGasCost.value, []);
    }
  }

  lemma L1MessageRoundTrip(form: VecForm, m: L1IncomingMessage, rest: Bytes)
    requires L1MessageLength(form, m) < U64_LIMIT
    ensures DecodeL1Message(form, EncodeL1Message(form, m) + rest) == Some((m, rest))
  {
    ListRoundTrip(MessagePayload(form, m), rest);
    MessagePayloadRoundTrip(form, m);
  }

  // ----- the fixed layout used for delayed messages

  const LEGACY_HEADER := 113

  function SerializeLegacy(m: L1IncomingMessage): (r: Result<Bytes>)
    ensures r.Ok? <==> m.header.requestId.Some?
    ensures r.Ok? ==> |r.value| == LEGACY_HEADER + |m.l2msg|
  {
    if m.header.requestId.None? then Err
    else
      Ok([m.header.kind] + seq(12, _ => 0) + m.header.poster + ToBytes(m.header.blockNumber, 8)
         + ToBytes(m.header.timestamp, 8) + m.header.requestId.value + ToBytes(m.header.l1BaseFee, 32) + m.l2msg)
  }

  function ParseLegacy(b: Bytes): (r: Result<L1IncomingMessage>)
    ensures r.Ok? <==> |b| >= LEGACY_HEADER
  {
    if |b| < LEGACY_HEADER then Err
    else
      Ok(L1IncomingMessage(
           L1IncomingMessageHeader(b[0], b[13..33], Read64(b[33..41]), Read64(b[41..49]), Some(b[49..81]),
                                   FromBytes(b[81..113])),
           b[113..], None))
  }

  /** Serializing and parsing restores every message that has a request id and no gas cost. */
  lemma LegacyRoundTrip(m: L1IncomingMessage)
    requires m.header.requestId.Some?
    ensures ParseLegacy(SerializeLegacy(m).value) == Ok(m.(batchGasCost := None))
  {
    hide ToBytes, FromBytes, Pow256;
    var b := SerializeLegacy(m).value;
    FromTo64(m.header.blockNumber);
    FromTo64(m.header.timestamp);
    FromTo(m.header.l1BaseFee, 32);
    assert b[13..33] == m.header.poster;
    assert b[33..41] == ToBytes(m.header.blockNumber, 8);
    assert b[41..49] == ToBytes(m.header.timestamp, 8);
    assert b[49..81] == m.header.requestId.value;
    assert b[81..113] == ToBytes(m.header.l1BaseFee, 32);
    assert b[113..] == m.l2msg;
  }

  /** Whether the twelve bytes in front of the poster address, which parsing drops, are zero. */
  predicate Padded(b: Bytes) {
    |b| >= LEGACY_HEADER && b[1..13] == seq(12, _ => 0)
  }

  /** Reading back stored bytes returns them unchanged exactly when the address padding is zero. */
  lemma LegacyBytesRoundTrip(b: Bytes)
    requires |b| >= LEGACY_HEADER
    ensures SerializeLegacy(ParseLegacy(b).value) == Ok(b) <==> Padded(b)
  {
    hide ToBytes, FromBytes, Pow256;
    var r := SerializeLegacy(ParseLegacy(b).value).value;
    ToFrom(b[33..41]);
    ToFrom(b[41..49]);
    ToFrom(b[81..113]);
    assert r[1..13] == seq(12, _ => 0);
    if Padded(b) {
      assert b[..13] == [b[0]] + b[1..13];
      assert b[..33] == b[..13] + b[13..33];
      assert b[..41] == b[..33] + b[33..41];
      assert b[..49] == b[..41] + b[41..49];
      assert b[..81] == b[..49] + b[49..81];
      assert b[..113] == b[..81] + b[81..113];
      assert b == b[..113] + b[113..];
    }
  }

  // ----- hashing

  /** The bytes whose hash stands for a delayed message in the accumulator chain. */
  function BodyBytes(keccak: Bytes -> Hash32, m: L1IncomingMessage): (b: Bytes)
    ensures |b| == if m.header.requestId.Some? then 133 else 101
  {
    [m.header.kind] + m.header.poster + ToBytes(m.header.blockNumber, 8) + ToBytes(m.header.timestamp, 8)
    + (if m.header.requestId.Some? then m.header.requestId.value else [])
    + ToBytes(m.header.l1BaseFee, 32) + keccak(m.l2msg)
  }

  function BodyHash(keccak: Bytes -> Hash32, m: L1IncomingMessage): Hash32 {
    keccak(BodyBytes(keccak, m))
  }

  function HashAfter(keccak: Bytes -> Hash32, prev: Hash32, body: Hash32): Hash32 {
    keccak(prev + body)
  }

  /** One link of the delayed-message chain, from the previous accumulator and the serialized message. */
  function AccumulatorAfter(keccak: Bytes -> Hash32, prev: Hash32, message: Bytes): (r: Result<Hash32>)
    ensures r.Ok? <==> |message| >= LEGACY_HEADER
  {
    match ParseLegacy(message)
    case Err => Err
    case Ok(m) => Ok(HashAfter(keccak, prev, BodyHash(keccak, m)))
  }
}
