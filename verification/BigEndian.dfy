/** Fixed-width big-endian integers, and why their byte order is the numeric order. */
module BigEndian {
  import opened Basics

  function Pow256(n: nat): (p: nat)
    ensures p > 0
  {
    if n == 0 then 1 else 256 * Pow256(n - 1)
  }

  /** The low `n` bytes of `x`, most significant first. */
  function ToBytes(x: nat, n: nat): (b: Bytes)
    ensures |b| == n
  {
    if n == 0 then [] else ToBytes(x / 256, n - 1) + [x % 256]
  }

  function FromBytes(b: Bytes): (x: nat)
    ensures x < Pow256(|b|)
  {
    if b == [] then 0 else FromBytes(b[..|b| - 1]) * 256 + b[|b| - 1]
  }

  lemma {:induction false} FromTo(x: nat, n: nat)
    requires x < Pow256(n)
    ensures FromBytes(ToBytes(x, n)) == x
  {
    if n > 0 {
      FromTo(x / 256, n - 1);
      var b := ToBytes(x, n);
      assert b[..|b| - 1] == ToBytes(x / 256, n - 1);
    }
  }

  lemma {:induction false} ToFrom(b: Bytes)
    ensures ToBytes(FromBytes(b), |b|) == b
  {
    if b != [] {
      var front := b[..|b| - 1];
      ToFrom(front);
      assert FromBytes(b) / 256 == FromBytes(front);
      assert b == front + [b[|b| - 1]];
    }
  }

  lemma Pow256Values()
    ensures Pow256(1) == 256
    ensures Pow256(8) == U64_LIMIT
  {
    assert Pow256(2) == 256 * 256;
    assert Pow256(4) == 256 * Pow256(3) == 0x1_0000_0000;
    assert Pow256(6) == 256 * Pow256(5) == 0x1_0000_0000_0000;
  }

  /** Eight big-endian bytes hold exactly the 64-bit values. */
  lemma FromTo64(x: u64)
    ensures FromBytes(ToBytes(x, 8)) == x
  {
    Pow256Values();
    FromTo(x, 8);
  }

  function Read64(b: Bytes): (x: u64)
    requires |b| == 8
  {
    Pow256Values();
    FromBytes(b)
  }

  // ----- lexicographic order

  /** Strict byte-wise dictionary order, the order a sorted key-value store scans in. */
  predicate LexLess(a: Bytes, b: Bytes) {
    b != [] && (a == [] || a[0] < b[0] || (a[0] == b[0] && LexLess(a[1..], b[1..])))
  }

  predicate LexLeq(a: Bytes, b: Bytes) {
    a == b || LexLess(a, b)
  }

  lemma {:induction false} HeadFirst(b: Bytes)
    requires b != []
    ensures FromBytes(b) == b[0] * Pow256(|b| - 1) + FromBytes(b[1..])
  {
    if |b| > 1 {
      var front, last := b[..|b| - 1], b[|b| - 1];
      HeadFirst(front);
      assert front[1..] == b[1..][..|b| - 2];
      assert FromBytes(b[1..]) == FromBytes(front[1..]) * 256 + last;
      var p := Pow256(|b| - 2);
      assert Pow256(|b| - 1) == 256 * p;
      assert (front[0] * p) * 256 == front[0] * (256 * p);
    } else {
      assert b[1..] == [];
      assert b[..0] == [];
    }
  }

  lemma {:induction false} HeadDominates(x: nat, y: nat, p: nat, u: nat, v: nat)
    requires x < y && u < p
    ensures x * p + u < y * p + v
    decreases y
  {
    if x + 1 < y {
      HeadDominates(x, y - 1, p, u, v);
    }
    assert y * p == (y - 1) * p + p;
  }

  /** For keys of equal width, dictionary order is numeric order. */
  lemma {:induction false} LexIsNumeric(a: Bytes, b: Bytes)
    requires |a| == |b|
    ensures LexLess(a, b) <==> FromBytes(a) < FromBytes(b)
  {
    if a != [] {
      HeadFirst(a);
      HeadFirst(b);
      LexIsNumeric(a[1..], b[1..]);
      if a[0] < b[0] {
        HeadDominates(a[0], b[0], Pow256(|a| - 1), FromBytes(a[1..]), FromBytes(b[1..]));
      } else if b[0] < a[0] {
        HeadDominates(b[0], a[0], Pow256(|a| - 1), FromBytes(b[1..]), FromBytes(a[1..]));
      }
    }
  }

  /** A common prefix does not affect the order. */
  lemma {:induction false} LexCommonPrefix(p: Bytes, a: Bytes, b: Bytes)
    ensures LexLess(p + a, p + b) <==> LexLess(a, b)
  {
    if p == [] {
      assert p + a == a && p + b == b;
    } else {
      LexCommonPrefix(p[1..], a, b);
      assert (p + a)[1..] == p[1..] + a && (p + b)[1..] == p[1..] + b;
    }
  }

  lemma {:induction false} LexTransitive(a: Bytes, b: Bytes, c: Bytes)
    requires LexLess(a, b) && LexLess(b, c)
    ensures LexLess(a, c)
  {
    if a != [] && a[0] == b[0] == c[0] {
      LexTransitive(a[1..], b[1..], c[1..]);
    }
  }

  lemma {:induction false} LexTotal(a: Bytes, b: Bytes)
    ensures a == b || LexLess(a, b) || LexLess(b, a)
    ensures !(LexLess(a, b) && LexLess(b, a))
    ensures !LexLess(a, a)
  {
    if a != [] {
      LexTotal(a[1..], a[1..]);
      if b != [] {
        LexTotal(a[1..], b[1..]);
        if a[0] == b[0] && a[1..] == b[1..] {
          assert a == [a[0]] + a[1..] && b == [b[0]] + b[1..];
        }
      }
    }
  }
}
