/** Stored message records and their RLP forms. */
module Message {
  import opened Basics
  import opened Rlp
  import opened L1Message

  datatype MessageWithMetadata = MessageWithMetadata(message: L1IncomingMessage, delayedMessagesRead: u64)

  datatype MessageWithBlockInfo = MessageWithBlockInfo(
    messageWithMeta: MessageWithMetadata,
    blockHash: Option<Hash32>,
    blockMetadata: Option<Bytes>)

  datatype MessageResult = MessageResult(blockHash: Hash32, sendRoot: Hash32)

  // ----- a message with the delayed-message count read so far

  function MetadataPayloadLength(form: VecForm, m: MessageWithMetadata): nat {
    L1MessageLength(form, m.message) + UintLength(m.delayedMessagesRead)
  }

  function MetadataLength(form: VecForm, m: MessageWithMetadata): nat {
    HeaderLength(MetadataPayloadLength(form, m)) + MetadataPayloadLength(form, m)
  }

  function MetadataPayload(form: VecForm, m: MessageWithMetadata): (b: Bytes)
    requires MetadataPayloadLength(form, m) < U64_LIMIT
    ensures |b| == MetadataPayloadLength(form, m)
  {
    EncodeL1Message(form, m.message) + EncodeU64(m.delayedMessagesRead)
  }

  function EncodeMetadata(form: VecForm, m: MessageWithMetadata): (b: Bytes)
    requires MetadataLength(form, m) < U64_LIMIT
    ensures |b| == MetadataLength(form, m)
  {
    EncodeHeader(Header(true, MetadataPayloadLength(form, m))) + MetadataPayload(form, m)
  }

  function DecodeMetadata(form: VecForm, b: Bytes): Option<(MessageWithMetadata, Bytes)> {
    var (h, rest) :- DecodeHeader(b);
    if !h.list then None
    else
      var (message, p1) :- DecodeL1Message(form, rest[..h.length]);
      var (read, _) :- DecodeU64(p1);
      Some((MessageWithMetadata(message, read), rest[h.length..]))
  }

  /** Decoding an encoded record followed by anything returns it and leaves what followed. */
  lemma MetadataRoundTrip(form: VecForm, m: MessageWithMetadata, rest: Bytes)
    requires MetadataLength(form, m) < U64_LIMIT
    ensures DecodeMetadata(form, EncodeMetadata(form, m) + rest) == Some((m, rest))
  {
    ListRoundTrip(MetadataPayload(form, m), rest);
    var read := EncodeU64(m.delayedMessagesRead);
    L1MessageRoundTrip(form, m.message, read);
    assert read + [] == read;
    U64RoundTrip(m.delayedMessagesRead, []);
  }

  /** Two records with the same encoding are the same record, so comparing bytes compares messages. */
  lemma MetadataInjective(form: VecForm, m: MessageWithMetadata, n: MessageWithMetadata)
    requires MetadataLength(form, m) < U64_LIMIT && MetadataLength(form, n) < U64_LIMIT
    ensures EncodeMetadata(form, m) == EncodeMetadata(form, n) <==> m == n
  {
    MetadataRoundTrip(form, m, []);
    MetadataRoundTrip(form, n, []);
  }

  // ----- the optional block hash stored beside a message

  function BlockHashLength(h: Option<Hash32>): nat {
    if h.Some? then StringLength(h.value) else 1
  }

  function EncodeBlockHash(h: Option<Hash32>): (b: Bytes)
    ensures |b| == BlockHashLength(h)
  {
    if h.Some? then EncodeString(h.value) else [0x80]
  }

  function DecodeBlockHash(b: Bytes): Option<(Option<Hash32>, Bytes)> {
    if b != [] && b[0] == 0x80 then Some((None, b[1..]))
    else
      var (h, rest) :- DecodeHash(b);
      Some((Some(h), rest))
  }

  lemma BlockHashRoundTrip(h: Option<Hash32>, rest: Bytes)
    ensures DecodeBlockHash(EncodeBlockHash(h) + rest) == Some((h, rest))
  {
    if h.Some? {
      HashRoundTrip(h.value, rest);
    } else {
      assert ([0x80] + rest)[1..] == rest;
    }
  }

  // ----- execution results

  function EncodeResult(r: MessageResult): (b: Bytes)
    ensures |b| == HeaderLength(66) + 66
  {
    EncodeHeader(Header(true, 66)) + (EncodeString(r.blockHash) + EncodeString(r.sendRoot))
  }

  function DecodeResult(b: Bytes): Option<(MessageResult, Bytes)> {
    var (h, rest) :- DecodeHeader(b);
    if !h.list then None
    else
      var (blockHash, p1) :- DecodeHash(rest[..h.length]);
      var (sendRoot, _) :- DecodeHash(p1);
      Some((MessageResult(blockHash, sendRoot), rest[h.length..]))
  }

  lemma ResultRoundTrip(r: MessageResult, rest: Bytes)
    ensures DecodeResult(EncodeResult(r) + rest) == Some((r, rest))
  {
    var root := EncodeString(r.sendRoot);
    ListRoundTrip(EncodeString(r.blockHash) + root, rest);
    HashRoundTrip(r.blockHash, root);
    assert root + [] == root;
    HashRoundTrip(r.sendRoot, []);
  }
}
