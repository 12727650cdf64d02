/** The byte framing of sequencer batches: what the batch poster writes and the multiplexer parses. */
module SequencerMessages {
  import opened Basics
  import opened BigEndian
  import opened Rlp

  datatype SequencerMessage = SequencerMessage(
    minTimestamp: u64,
    maxTimestamp: u64,
    minL1Block: u64,
    maxL1Block: u64,
    afterDelayedMessages: u64,
    segments: seq<Bytes>)

  /** The library behaviour parsing depends on: Brotli (RFC 7932) and the RLP form of byte vectors. */
  datatype Codec = Codec(decompress: Bytes -> Option<Bytes>, form: VecForm)

  const HEADER_SIZE := 40
  const SEGMENT_CAP: nat := 100 * 1024 + 1
  const BROTLI_MARK: byte := 1

  /** The segments decoded from the front of `cur`, at most `room` of them, up to the first that fails. */
  function Segments(form: VecForm, cur: Bytes, room: nat): (s: seq<Bytes>)
    ensures |s| <= room
    decreases |cur|
  {
    if cur == [] || room == 0 then [] else
      match DecodeVec(form, cur)
      case None => []
      case Some((segment, rest)) => [segment] + Segments(form, rest, room - 1)
  }

  function SegmentBytes(codec: Codec, payload: Bytes): Result<Bytes> {
    if payload != [] && payload[0] == BROTLI_MARK then
      match codec.decompress(payload[1..])
      case None => Err
      case Some(plain) => Ok(plain)
    else Ok(payload)
  }

  function Parse(codec: Codec, data: Bytes): Result<SequencerMessage> {
    if |data| < HEADER_SIZE then Err
    else
      match SegmentBytes(codec, data[HEADER_SIZE..])
      case Err => Err
      case Ok(plain) =>
        Ok(SequencerMessage(Read64(data[0..8]), Read64(data[8..16]), Read64(data[16..24]), Read64(data[24..32]),
                            Read64(data[32..40]), Segments(codec.form, plain, SEGMENT_CAP)))
  }

  /** One more segment off the front, or none when what is left does not decode or there is no room. */
  lemma SegmentsNext(form: VecForm, cur: Bytes, room: nat)
    ensures cur == [] || room == 0 || DecodeVec(form, cur).None? ==> Segments(form, cur, room) == []
    ensures cur != [] && room > 0 && DecodeVec(form, cur).Some? ==>
              var next := DecodeVec(form, cur).value;
              Segments(form, cur, room) == [next.0] + Segments(form, next.1, room - 1)
  {
    hide DecodeVec;
  }

  method DecodeSegments(form: VecForm, plain: Bytes) returns (segments: seq<Bytes>)
    ensures segments == Segments(form, plain, SEGMENT_CAP)
  {
    hide DecodeVec, Segments;
    segments := [];
    var cur := plain;
    while cur != []
      invariant |segments| < SEGMENT_CAP
      invariant segments + Segments(form, cur, SEGMENT_CAP - |segments|) == Segments(form, plain, SEGMENT_CAP)
      decreases |cur|
    {
      SegmentsNext(form, cur, SEGMENT_CAP - |segments|);
      var decoded := DecodeVec(form, cur);
      if decoded.None? {
        break;
      }
      segments := segments + [decoded.value.0];
      cur := decoded.value.1;
      if |segments| > 100 * 1024 {
        break;
      }
    }
    SegmentsNext(form, cur, SEGMENT_CAP - |segments|);
  }

  /** `segments` are decoded one after another from the front of `plain`, each leaving the next of `rests`. */
  predicate RunOver(form: VecForm, plain: Bytes, segments: seq<Bytes>, rests: seq<Bytes>, cap: nat) {
    && |rests| == |segments| + 1 && rests[0] == plain && |segments| <= cap
    && (forall k | 0 <= k < |segments| ::
          rests[k] != [] && DecodeVec(form, rests[k]) == Some((segments[k], rests[k + 1])))
    && (|segments| < cap ==> rests[|segments|] == [] || DecodeVec(form, rests[|segments|]).None?)
  }

  /** `segments` are all that can be decoded from the front of `plain`, up to `cap` of them. */
  ghost predicate DecodableRun(form: VecForm, plain: Bytes, segments: seq<Bytes>, cap: nat) {
    exists rests :: RunOver(form, plain, segments, rests, cap)
  }

  lemma {:induction false} SegmentsRun(form: VecForm, cur: Bytes, room: nat) returns (rests: seq<Bytes>)
    ensures RunOver(form, cur, Segments(form, cur, room), rests, room)
    decreases |cur|
  {
    hide DecodeVec, Segments;
    SegmentsNext(form, cur, room);
    var segments := Segments(form, cur, room);
    if cur == [] || room == 0 || DecodeVec(form, cur).None? {
      rests := [cur];
    } else {
      var next := DecodeVec(form, cur).value;
      var more := SegmentsRun(form, next.1, room - 1);
      rests := [cur] + more;
      forall k | 0 <= k < |segments|
        ensures rests[k] != [] && DecodeVec(form, rests[k]) == Some((segments[k], rests[k + 1]))
      {
        assert k > 0 ==> segments[k] == Segments(form, next.1, room - 1)[k - 1];
      }
    }
  }

  /**
   Five big-endian numbers, and then a payload: compressed if it begins with a one, and plain otherwise. Parsing fails
   exactly on data that are too short or do not decompress; what does not decode as a segment is dropped.
   */
  method ParseSequencerMessage(codec: Codec, data: Bytes) returns (r: Result<SequencerMessage>)
    ensures r == Parse(codec, data)
    ensures r.Ok? <==> |data| >= 40 && (|data| > 40 && data[40] == 1 ==> codec.decompress(data[41..]).Some?)
    ensures r.Ok? ==> && r.value.minTimestamp == FromBytes(data[0..8]) && r.value.maxTimestamp == FromBytes(data[8..16])
                      && r.value.minL1Block == FromBytes(data[16..24]) && r.value.maxL1Block == FromBytes(data[24..32])
                      && r.value.afterDelayedMessages == FromBytes(data[32..40])
    ensures r.Ok? ==>
              var plain := if |data| > 40 && data[40] == 1 then codec.decompress(data[41..]).value else data[40..];
              DecodableRun(codec.form, plain, r.value.segments, 102401)
  {
    hide FromBytes, DecodeVec, Segments;
    assert |data| > 40 ==> data[40..][1..] == data[41..];
    if |data| < HEADER_SIZE {
      return Err;
    }
    var plain := SegmentBytes(codec, data[HEADER_SIZE..]);
    if plain.Err? {
      return Err;
    }
    var segments := DecodeSegments(codec.form, plain.value);
    ghost var rests := SegmentsRun(codec.form, plain.value, SEGMENT_CAP);
    r := Ok(SequencerMessage(Read64(data[0..8]), Read64(data[8..16]), Read64(data[16..24]), Read64(data[24..32]),
                             Read64(data[32..40]), segments));
  }

  // ----- what the poster writes

  datatype L1Bounds = L1Bounds(minTimestamp: u64, maxTimestamp: u64, minBlock: u64, maxBlock: u64)

  /** Every segment is short enough for its encoded length to fit a machine word. */
  predicate Encodable(form: VecForm, segments: seq<Bytes>) {
    forall i | 0 <= i < |segments| :: |VecPayload(form, segments[i])| < U64_LIMIT
  }

  function Concatenated(form: VecForm, segments: seq<Bytes>): Bytes
    requires Encodable(form, segments)
  {
    if segments == [] then [] else
      EncodeVec(form, segments[0]) + Concatenated(form, segments[1..])
  }

  function BatchHeader(bounds: L1Bounds, afterDelayed: u64): (b: Bytes)
    ensures |b| == HEADER_SIZE
  {
    ToBytes(bounds.minTimestamp, 8) + ToBytes(bounds.maxTimestamp, 8) + ToBytes(bounds.minBlock, 8)
    + ToBytes(bounds.maxBlock, 8) + ToBytes(afterDelayed, 8)
  }

  /** The bytes of a batch, its segments already compressed. */
  function Framed(bounds: L1Bounds, afterDelayed: u64, compressed: Bytes): Bytes {
    BatchHeader(bounds, afterDelayed) + ([BROTLI_MARK] + compressed)
  }

  /** The bytes one by one: five big-endian numbers, a one, and what was compressed. */
  predicate IsFrame(bounds: L1Bounds, afterDelayed: u64, compressed: Bytes, b: Bytes) {
    && |b| == 41 + |compressed|
    && FromBytes(b[0..8]) == bounds.minTimestamp && FromBytes(b[8..16]) == bounds.maxTimestamp
    && FromBytes(b[16..24]) == bounds.minBlock && FromBytes(b[24..32]) == bounds.maxBlock
    && FromBytes(b[32..40]) == afterDelayed && b[40] == 1 && b[41..] == compressed
  }

  lemma FramedIsFrame(bounds: L1Bounds, afterDelayed: u64, compressed: Bytes)
    ensures IsFrame(bounds, afterDelayed, compressed, Framed(bounds, afterDelayed, compressed))
  {
    hide FromBytes, BatchHeader;
    HeaderFields(bounds, afterDelayed, [BROTLI_MARK] + compressed);
    assert Framed(bounds, afterDelayed, compressed)[40..][1..] == compressed;
  }

  class BatchPoster {
    const compress: Bytes -> Option<Bytes>
    const form: VecForm
    var lastAfterDelayed: Option<u64>

    constructor (compress: Bytes -> Option<Bytes>, form: VecForm)
      ensures this.compress == compress && this.form == form && lastAfterDelayed == None
    {
      this.compress := compress;
      this.form := form;
      lastAfterDelayed := None;
    }

    /**
     Builds nothing when the delayed count has not moved since the last call. The count is noted before the bounds are
     looked up and the segments compressed, so when one of these fails the next call at the same count builds nothing.
     */
    method BuildBatchBytes(afterDelayed: u64, bounds: Option<L1Bounds>, segments: seq<Bytes>)
      returns (r: Result<Option<Bytes>>)
      requires Encodable(form, segments)
      modifies this
      ensures lastAfterDelayed == Some(afterDelayed)
      ensures r == Ok(None) <==> old(lastAfterDelayed) == Some(afterDelayed)
      ensures old(lastAfterDelayed) != Some(afterDelayed) ==>
                var compressed := compress(Concatenated(form, segments));
                && (r.Err? <==> bounds.None? || compressed.None?)
                && (r.Ok? ==> r.value == Some(Framed(bounds.value, afterDelayed, compressed.value))
                              && IsFrame(bounds.value, afterDelayed, compressed.value, r.value.value))
    {
      hide EncodeVec, IsFrame;
      if lastAfterDelayed == Some(afterDelayed) {
        return Ok(None);
      }
      lastAfterDelayed := Some(afterDelayed);
      if bounds.None? {
        return Err;
      }
      var concatenated: Bytes := [];
      for i := 0 to |segments|
        invariant concatenated + Concatenated(form, segments[i..]) == Concatenated(form, segments)
      {
        assert segments[i..][1..] == segments[i + 1..];
        concatenated := concatenated + EncodeVec(form, segments[i]);
      }
      assert Concatenated(form, segments[|segments|..]) == [];
      assert concatenated == Concatenated(form, segments);
      var compressed := compress(concatenated);
      if compressed.None? {
        return Err;
      }
      FramedIsFrame(bounds.value, afterDelayed, compressed.value);
      r := Ok(Some(Framed(bounds.value, afterDelayed, compressed.value)));
    }
  }

  /** Decoding one encoded segment off the front. */
  lemma SegmentsStep(form: VecForm, segment: Bytes, rest: Bytes, room: nat)
    requires |VecPayload(form, segment)| < U64_LIMIT && room > 0
    ensures Segments(form, EncodeVec(form, segment) + rest, room) == [segment] + Segments(form, rest, room - 1)
  {
    VecRoundTrip(form, segment, rest);
  }

  /** Decoding the concatenation gives back the segments, cut off at the cap. */
  lemma {:induction false} SegmentsRoundTrip(form: VecForm, segments: seq<Bytes>, room: nat)
    requires Encodable(form, segments)
    ensures Segments(form, Concatenated(form, segments), room) == segments[..Min(|segments|, room)]
    decreases |segments|
  {
    hide EncodeVec, DecodeVec;
    if segments != [] && room > 0 {
      var tail := segments[1..];
      SegmentsStep(form, segments[0], Concatenated(form, tail), room);
      SegmentsRoundTrip(form, tail, room - 1);
      assert segments[..Min(|segments|, room)] == [segments[0]] + tail[..Min(|tail|, room - 1)];
    }
  }

  lemma EightEach(a: Bytes, b: Bytes, c: Bytes, d: Bytes, e: Bytes, rest: Bytes)
    requires |a| == |b| == |c| == |d| == |e| == 8
    ensures var s := a + b + c + d + e + rest;
            && s[0..8] == a && s[8..16] == b && s[16..24] == c && s[24..32] == d && s[32..40] == e
            && s[40..] == rest
  {
  }

  lemma HeaderFields(bounds: L1Bounds, afterDelayed: u64, rest: Bytes)
    ensures var d := BatchHeader(bounds, afterDelayed) + rest;
            && Read64(d[0..8]) == bounds.minTimestamp && Read64(d[8..16]) == bounds.maxTimestamp
            && Read64(d[16..24]) == bounds.minBlock && Read64(d[24..32]) == bounds.maxBlock
            && Read64(d[32..40]) == afterDelayed && d[HEADER_SIZE..] == rest
  {
    hide ToBytes, FromBytes;
    FromTo64(bounds.minTimestamp);
    FromTo64(bounds.maxTimestamp);
    FromTo64(bounds.minBlock);
    FromTo64(bounds.maxBlock);
    FromTo64(afterDelayed);
    EightEach(ToBytes(bounds.minTimestamp, 8), ToBytes(bounds.maxTimestamp, 8), ToBytes(bounds.minBlock, 8),
              ToBytes(bounds.maxBlock, 8), ToBytes(afterDelayed, 8), rest);
  }

  /** Parsing what the poster built returns the bounds, the count and the segments up to the cap. */
  lemma FramingRoundTrip(codec: Codec, compress: Bytes -> Option<Bytes>, bounds: L1Bounds, afterDelayed: u64,
                         segments: seq<Bytes>)
    requires Encodable(codec.form, segments) && compress(Concatenated(codec.form, segments)).Some?
    requires forall x | compress(x).Some? :: codec.decompress(compress(x).value) == Some(x)
    ensures Parse(codec, Framed(bounds, afterDelayed, compress(Concatenated(codec.form, segments)).value))
         == Ok(SequencerMessage(bounds.minTimestamp, bounds.maxTimestamp, bounds.minBlock, bounds.maxBlock,
                                afterDelayed, segments[..Min(|segments|, SEGMENT_CAP)]))
  {
    hide Segments, Concatenated, BatchHeader, Read64;
    hide Encodable, VecPayload, Min, ToBytes, FromBytes, EncodeVec, DecodeVec;
    var compressed := compress(Concatenated(codec.form, segments)).value;
    HeaderFields(bounds, afterDelayed, [BROTLI_MARK] + compressed);
    assert ([BROTLI_MARK] + compressed)[1..] == compressed;
    SegmentsRoundTrip(codec.form, segments, SEGMENT_CAP);
  }
}
