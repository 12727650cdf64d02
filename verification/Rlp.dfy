/**
 Recursive Length Prefix coding, Appendix B of the Ethereum Yellow Paper, with the canonical-form
 checks of the decoder the node uses. Decoding returns the value and the bytes left over.
 */
module Rlp {
  import opened Basics
  import opened BigEndian

  /** What precedes a payload: whether it is a list, and how many bytes follow. */
  datatype Header = Header(list: bool, length: nat)

  /** How a byte vector is written: as one string, or as a list of single-byte integers. */
  datatype VecForm = ByteString | ItemList

  // ----- integers without leading zeros

  function MinimalBytes(x: nat): (b: Bytes)
    ensures FromBytes(b) == x
    ensures b != [] ==> b[0] != 0
  {
    if x == 0 then [] else
      var front := MinimalBytes(x / 256);
      var b := front + [x % 256];
      assert b[..|b| - 1] == front;
      b
  }

  lemma {:induction false} MinimalLength(x: nat, n: nat)
    requires x < Pow256(n)
    ensures |MinimalBytes(x)| <= n
  {
    if x > 0 {
      MinimalLength(x / 256, n - 1);
    }
  }

  lemma MinimalLength64(x: u64)
    ensures |MinimalBytes(x)| <= 8
  {
    Pow256Values();
    MinimalLength(x, 8);
  }

  // ----- headers

  function HeaderLength(payloadLength: nat): nat {
    if payloadLength < 56 then 1 else 1 + |MinimalBytes(payloadLength)|
  }

  function EncodeHeader(h: Header): (b: Bytes)
    requires h.length < U64_LIMIT
    ensures |b| == HeaderLength(h.length)
  {
    var base := if h.list then 0xc0 else 0x80;
    if h.length < 56 then [base + h.length] else
      MinimalLength64(h.length);
      var size := MinimalBytes(h.length);
      [base + 55 + |size|] + size
  }

  function WithPayload(h: Header, rest: Bytes): (r: Option<(Header, Bytes)>)
    ensures r.Some? ==> r.value == (h, rest) && h.length <= |rest|
  {
    if |rest| < h.length then None else Some((h, rest))
  }

  function DecodeHeader(b: Bytes): (r: Option<(Header, Bytes)>)
    ensures r.Some? ==> r.value.0.length <= |r.value.1| <= |b|
    ensures r.Some? ==> |r.value.1| - r.value.0.length < |b|
  {
    if b == [] then None
    else if b[0] < 0x80 then Some((Header(false, 1), b))
    else if b[0] < 0xb8 then
      if b[0] == 0x81 && (|b| < 2 || b[1] < 0x80) then None
      else WithPayload(Header(false, b[0] - 0x80), b[1..])
    else if b[0] < 0xc0 || 0xf8 <= b[0] then
      var list := 0xf8 <= b[0];
      var width := b[0] - (if list then 0xf7 else 0xb7);
      if |b| < 1 + width || b[1] == 0 then None
      else
        var length := FromBytes(b[1..1 + width]);
        if length < 56 then None else WithPayload(Header(list, length), b[1 + width..])
    else WithPayload(Header(true, b[0] - 0xc0), b[1..])
  }

  /** A header is read back whatever follows the payload, unless the payload is a lone small byte. */
  lemma HeaderRoundTrip(h: Header, rest: Bytes)
    requires h.length < U64_LIMIT && h.length <= |rest|
    requires !h.list && h.length == 1 ==> rest[0] >= 0x80
    ensures DecodeHeader(EncodeHeader(h) + rest) == Some((h, rest))
  {
    var b := EncodeHeader(h) + rest;
    if h.length < 56 {
      assert b[1..] == rest;
    } else {
      var size := MinimalBytes(h.length);
      MinimalLength64(h.length);
      assert b[1..1 + |size|] == size;
      assert b[1 + |size|..] == rest;
    }
  }

  // ----- strings

  function StringLength(s: Bytes): nat {
    if |s| == 1 && s[0] < 0x80 then 1 else HeaderLength(|s|) + |s|
  }

  function EncodeString(s: Bytes): (b: Bytes)
    requires |s| < U64_LIMIT
    ensures |b| == StringLength(s) > 0
  {
    if |s| == 1 && s[0] < 0x80 then s else EncodeHeader(Header(false, |s|)) + s
  }

  function DecodeString(b: Bytes): (r: Option<(Bytes, Bytes)>)
    ensures r.Some? ==> |r.value.1| < |b|
  {
    var (h, rest) :- DecodeHeader(b);
    if h.list then None else Some((rest[..h.length], rest[h.length..]))
  }

  lemma SmallByteRoundTrip(x: byte, rest: Bytes)
    requires x < 0x80
    ensures DecodeHeader([x] + rest) == Some((Header(false, 1), [x] + rest))
  {
  }

  lemma StringRoundTrip(s: Bytes, rest: Bytes)
    requires |s| < U64_LIMIT
    ensures DecodeString(EncodeString(s) + rest) == Some((s, rest))
  {
    hide DecodeHeader, EncodeHeader;
    if |s| == 1 && s[0] < 0x80 {
      SmallByteRoundTrip(s[0], rest);
      assert s == [s[0]];
      assert (s + rest)[..1] == s && (s + rest)[1..] == rest;
    } else {
      HeaderRoundTrip(Header(false, |s|), s + rest);
      assert EncodeString(s) + rest == EncodeHeader(Header(false, |s|)) + (s + rest);
      assert (s + rest)[..|s|] == s && (s + rest)[|s|..] == rest;
    }
  }

  // ----- unsigned integers of a given byte width, and fixed-length byte strings

  function UintLength(x: nat): nat {
    StringLength(MinimalBytes(x))
  }

  function EncodeUint(x: nat, ghost width: nat): (b: Bytes)
    requires x < Pow256(width) && width <= 32
    ensures |b| == UintLength(x) > 0
  {
    MinimalLength(x, width);
    EncodeString(MinimalBytes(x))
  }

  function DecodeUint(b: Bytes, width: nat): (r: Option<(nat, Bytes)>)
    ensures r.Some? ==> r.value.0 < Pow256(width)
    ensures r.Some? ==> |r.value.1| < |b|
  {
    var (s, rest) :- DecodeString(b);
    if |s| > width || (s != [] && s[0] == 0) then None
    else
      Pow256Monotone(|s|, width);
      Some((FromBytes(s), rest))
  }

  lemma {:induction false} Pow256Monotone(m: nat, n: nat)
    requires m <= n
    ensures Pow256(m) <= Pow256(n)
  {
    if m < n {
      Pow256Monotone(m, n - 1);
    }
  }

  lemma UintRoundTrip(x: nat, width: nat, rest: Bytes)
    requires x < Pow256(width) && width <= 32
    ensures DecodeUint(EncodeUint(x, width) + rest, width) == Some((x, rest))
  {
    MinimalLength(x, width);
    StringRoundTrip(MinimalBytes(x), rest);
  }

  function DecodeFixed(b: Bytes, n: nat): (r: Option<(Bytes, Bytes)>)
    ensures r.Some? ==> |r.value.0| == n && |r.value.1| < |b|
  {
    var (s, rest) :- DecodeString(b);
    if |s| != n then None else Some((s, rest))
  }

  lemma FixedRoundTrip(s: Bytes, rest: Bytes)
    requires |s| < U64_LIMIT
    ensures DecodeFixed(EncodeString(s) + rest, |s|) == Some((s, rest))
  {
    StringRoundTrip(s, rest);
  }

  // ----- byte vectors in either form

  function ByteItem(x: byte): (b: Bytes)
    ensures |b| == UintLength(x) > 0
  {
    Pow256Values();
    EncodeUint(x, 1)
  }

  function EncodeItems(s: Bytes): Bytes {
    if s == [] then [] else ByteItem(s[0]) + EncodeItems(s[1..])
  }

  function DecodeItems(b: Bytes): Option<Bytes>
    decreases |b|
  {
    if b == [] then Some([]) else
      var (x, rest) :- DecodeUint(b, 1);
      var tail :- DecodeItems(rest);
      Pow256Values();
      Some([x] + tail)
  }

  lemma {:induction false} ItemsRoundTrip(s: Bytes)
    ensures DecodeItems(EncodeItems(s)) == Some(s)
  {
    if s != [] {
      Pow256Values();
      UintRoundTrip(s[0], 1, EncodeItems(s[1..]));
      ItemsRoundTrip(s[1..]);
      assert s == [s[0]] + s[1..];
    }
  }

  function VecPayload(form: VecForm, s: Bytes): Bytes {
    if form.ByteString? then s else EncodeItems(s)
  }

  function VecLength(form: VecForm, s: Bytes): nat {
    if form.ByteString? then StringLength(s) else HeaderLength(|EncodeItems(s)|) + |EncodeItems(s)|
  }

  function EncodeVec(form: VecForm, s: Bytes): (b: Bytes)
    requires |VecPayload(form, s)| < U64_LIMIT
    ensures |b| == VecLength(form, s) > 0
  {
    if form.ByteString? then EncodeString(s)
    else EncodeHeader(Header(true, |EncodeItems(s)|)) + EncodeItems(s)
  }

  function DecodeVec(form: VecForm, b: Bytes): (r: Option<(Bytes, Bytes)>)
    ensures r.Some? ==> |r.value.1| < |b|
  {
    if form.ByteString? then DecodeString(b)
    else
      var (h, rest) :- DecodeHeader(b);
      if !h.list then None
      else
        var s :- DecodeItems(rest[..h.length]);
        Some((s, rest[h.length..]))
  }

  lemma VecRoundTrip(form: VecForm, s: Bytes, rest: Bytes)
    requires |VecPayload(form, s)| < U64_LIMIT
    ensures DecodeVec(form, EncodeVec(form, s) + rest) == Some((s, rest))
  {
    if form.ByteString? {
      StringRoundTrip(s, rest);
    } else {
      var items := EncodeItems(s);
      ItemsRoundTrip(s);
      HeaderRoundTrip(Header(true, |items|), items + rest);
      assert EncodeVec(form, s) + rest == EncodeHeader(Header(true, |items|)) + (items + rest);
      assert (items + rest)[..|items|] == items && (items + rest)[|items|..] == rest;
    }
  }

  // ----- decoding accepts nothing but what encoding gives

  /** A number has one form without leading zeros. */
  lemma {:induction false} MinimalIsUnique(b: Bytes)
    requires b != [] ==> b[0] != 0
    ensures MinimalBytes(FromBytes(b)) == b
  {
    hide MinimalBytes;
    if b == [] {
      NoDigits();
    } else {
      var front, last := b[..|b| - 1], b[|b| - 1];
      MinimalIsUnique(front);
      if front != [] {
        LeadingByte(front);
      }
      assert FromBytes(b) == FromBytes(front) * 256 + last;
      LastDigit(FromBytes(front), last);
      assert b == front + [last];
    }
  }

  lemma NoDigits()
    ensures MinimalBytes(0) == []
  {
  }

  lemma LastDigit(x: nat, digit: byte)
    requires x > 0 || digit > 0
    ensures MinimalBytes(x * 256 + digit) == MinimalBytes(x) + [digit]
  {
    assert (x * 256 + digit) / 256 == x && (x * 256 + digit) % 256 == digit;
  }

  lemma {:induction false} LeadingByte(b: Bytes)
    requires b != [] && b[0] != 0
    ensures FromBytes(b) > 0
  {
    if |b| > 1 {
      LeadingByte(b[..|b| - 1]);
    }
  }

  lemma HeaderIsCanonical(b: Bytes)
    requires DecodeHeader(b).Some?
    ensures var (h, rest) := DecodeHeader(b).value;
            && h.length < U64_LIMIT
            && (if b[0] < 0x80 then h == Header(false, 1) && rest == b else b == EncodeHeader(h) + rest)
            && (!h.list && h.length == 1 && b[0] >= 0x80 ==> rest[0] >= 0x80)
  {
    hide FromBytes, MinimalBytes;
    var (h, rest) := DecodeHeader(b).value;
    if 0x80 <= b[0] < 0xb8 || 0xc0 <= b[0] < 0xf8 {
      assert b == [b[0]] + rest;
    } else if b[0] >= 0x80 {
      var width := b[0] - if h.list then 0xf7 else 0xb7;
      var size := b[1..1 + width];
      MinimalIsUnique(size);
      SizeFits(size);
      assert b == [b[0]] + size + rest;
    }
  }

  lemma SizeFits(size: Bytes)
    requires |size| <= 8
    ensures FromBytes(size) < U64_LIMIT
  {
    Pow256Values();
    Pow256Monotone(|size|, 8);
  }

  /** What decodes as a string is the encoding of that string, followed by what is left. */
  lemma StringIsCanonical(b: Bytes)
    requires DecodeString(b).Some?
    ensures var (s, rest) := DecodeString(b).value;
            |s| < U64_LIMIT && b == EncodeString(s) + rest
  {
    hide DecodeHeader, EncodeHeader;
    HeaderIsCanonical(b);
    var (h, more) := DecodeHeader(b).value;
    var s, rest := more[..h.length], more[h.length..];
    assert more == s + rest;
    if b[0] >= 0x80 {
      assert !(|s| == 1 && s[0] < 0x80);
      assert b == EncodeHeader(h) + s + rest;
    }
  }

  lemma UintIsCanonical(b: Bytes, width: nat)
    requires width <= 32 && DecodeUint(b, width).Some?
    ensures var (x, rest) := DecodeUint(b, width).value;
            b == EncodeUint(x, width) + rest
  {
    hide DecodeString, EncodeString;
    StringIsCanonical(b);
    MinimalIsUnique(DecodeString(b).value.0);
  }

  lemma {:induction false} ItemsAreCanonical(b: Bytes)
    requires DecodeItems(b).Some?
    ensures b == EncodeItems(DecodeItems(b).value)
    decreases |b|
  {
    hide DecodeUint, EncodeUint;
    if b != [] {
      var (x, rest) := DecodeUint(b, 1).value;
      Pow256Values();
      UintIsCanonical(b, 1);
      ItemsAreCanonical(rest);
      var s := DecodeItems(b).value;
      assert s == [x] + DecodeItems(rest).value;
      assert s[1..] == DecodeItems(rest).value;
    }
  }

  /** And so for byte vectors, in either form. */
  lemma VecIsCanonical(form: VecForm, b: Bytes)
    requires DecodeVec(form, b).Some?
    ensures var (s, rest) := DecodeVec(form, b).value;
            |VecPayload(form, s)| < U64_LIMIT && b == EncodeVec(form, s) + rest
  {
    hide DecodeHeader, EncodeHeader, DecodeItems, EncodeItems, DecodeString, EncodeString;
    if form.ByteString? {
      StringIsCanonical(b);
    } else {
      HeaderIsCanonical(b);
      var (h, more) := DecodeHeader(b).value;
      var items, rest := more[..h.length], more[h.length..];
      ItemsAreCanonical(items);
      assert more == items + rest;
      assert b == EncodeHeader(h) + items + rest;
    }
  }
}
