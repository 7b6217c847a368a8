/** Bytes, little-endian integers, and copying into a buffer. */
module Bytes {
  type byte = x: nat | x < 256 witness 0

  function LE(n: nat, x: nat): (r: seq<byte>)
    ensures |r| == n
  {
    if n == 0 then [] else [x % 256] + LE(n - 1, x / 256)
  }

  function FromLE(s: seq<byte>): (x: nat) {
    if s == [] then 0 else s[0] + 256 * FromLE(s[1..])
  }

  function Pow256(n: nat): (p: nat)
    ensures p > 0
  {
    if n == 0 then 1 else 256 * Pow256(n - 1)
  }

  lemma {:induction false} FromLEBound(s: seq<byte>)
    ensures FromLE(s) < Pow256(|s|)
  {
    if s != [] {
      FromLEBound(s[1..]);
    }
  }

  lemma {:induction false} ReadWritten(n: nat, x: nat)
    requires x < Pow256(n)
    ensures FromLE(LE(n, x)) == x
  {
    if n > 0 {
      ReadWritten(n - 1, x / 256);
    }
  }

  lemma Pow256s()
    ensures Pow256(1) == 0x100 && Pow256(2) == 0x1_0000 && Pow256(4) == 0x1_0000_0000
    ensures Pow256(8) == 0x1_0000_0000_0000_0000
  {
    assert Pow256(1) == 256 * Pow256(0);
    assert Pow256(2) == 256 * Pow256(1);
    assert Pow256(3) == 256 * Pow256(2);
    assert Pow256(4) == 256 * Pow256(3);
    assert Pow256(5) == 256 * Pow256(4);
    assert Pow256(6) == 256 * Pow256(5);
    assert Pow256(7) == 256 * Pow256(6);
    assert Pow256(8) == 256 * Pow256(7);
  }

  /** The values of two, four and eight bytes, the least significant one first. */
  function Value2(d: seq<byte>): nat
    requires |d| == 2
  {
    var a: nat, b: nat := d[0], d[1];
    a + 0x100 * b
  }

  function Value4(d: seq<byte>): nat
    requires |d| == 4
  {
    var a: nat, b: nat, c: nat, e: nat := d[0], d[1], d[2], d[3];
    a + 0x100 * b + 0x1_0000 * c + 0x100_0000 * e
  }

  function Value8(d: seq<byte>): nat
    requires |d| == 8
  {
    Value4(d[..4]) + 0x1_0000_0000 * Value4(d[4..])
  }

  lemma Value2Is(d: seq<byte>)
    requires |d| == 2
    ensures FromLE(d) == Value2(d)
  {
    assert FromLE(d) == d[0] + 256 * FromLE(d[1..]);
    assert FromLE(d[1..]) == d[1] + 256 * FromLE([]);
  }

  lemma Value4Is(d: seq<byte>)
    requires |d| == 4
    ensures FromLE(d) == Value4(d)
  {
    Value2Is(d[2..]);
    assert FromLE(d) == d[0] + 256 * FromLE(d[1..]);
    assert FromLE(d[1..]) == d[1] + 256 * FromLE(d[1..][1..]);
    assert d[1..][1..] == d[2..];
  }

  lemma Value8Is(d: seq<byte>)
    requires |d| == 8
    ensures FromLE(d) == Value8(d)
  {
    Value4Is(d[..4]);
    Value4Is(d[4..]);
    FromLEFrom4(d);
  }

  lemma FromLEFrom4(d: seq<byte>)
    requires |d| >= 4
    ensures FromLE(d) == Value4(d[..4]) + 0x1_0000_0000 * FromLE(d[4..])
  {
    assert FromLE(d) == d[0] + 256 * FromLE(d[1..]);
    assert FromLE(d[1..]) == d[1] + 256 * FromLE(d[1..][1..]) && d[1..][1..] == d[2..];
    assert FromLE(d[2..]) == d[2] + 256 * FromLE(d[2..][1..]) && d[2..][1..] == d[3..];
    assert FromLE(d[3..]) == d[3] + 256 * FromLE(d[3..][1..]) && d[3..][1..] == d[4..];
  }

  lemma DigitsOne(a: nat, b: nat, x: nat, y: nat)
    requires a < 0x100 && b < 0x100 && a + 0x100 * x == b + 0x100 * y
    ensures a == b && x == y
  {
  }

  lemma HalvesOne(a: nat, b: nat, x: nat, y: nat)
    requires a < 0x1_0000_0000 && b < 0x1_0000_0000 && a + 0x1_0000_0000 * x == b + 0x1_0000_0000 * y
    ensures a == b && x == y
  {
  }

  lemma Value4Bound(d: seq<byte>)
    requires |d| == 4
    ensures Value4(d) < 0x1_0000_0000
  {
  }

  lemma Value4One(a: seq<byte>, b: seq<byte>)
    requires |a| == 4 && |b| == 4 && Value4(a) == Value4(b)
    ensures a == b
  {
    var a1: nat, a2: nat, a3: nat, b1: nat, b2: nat, b3: nat := a[1], a[2], a[3], b[1], b[2], b[3];
    var x, y := a2 + 0x100 * a3, b2 + 0x100 * b3;
    DigitsOne(a[0], b[0], a1 + 0x100 * x, b1 + 0x100 * y);
    DigitsOne(a1, b1, x, y);
    DigitsOne(a2, b2, a3, b3);
  }

  /** Different bytes have different values. */
  lemma Value8One(a: seq<byte>, b: seq<byte>)
    requires |a| == 8 && |b| == 8 && Value8(a) == Value8(b)
    ensures a == b
  {
    Value4Bound(a[..4]);
    Value4Bound(b[..4]);
    HalvesOne(Value4(a[..4]), Value4(b[..4]), Value4(a[4..]), Value4(b[4..]));
    Value4One(a[..4], b[..4]);
    Value4One(a[4..], b[4..]);
    assert a == a[..4] + a[4..] && b == b[..4] + b[4..];
  }

  lemma WrittenIs(n: nat, x: nat)
    requires x < Pow256(n) && (n == 2 || n == 4 || n == 8)
    ensures x == if n == 2 then Value2(LE(n, x)) else if n == 4 then Value4(LE(n, x)) else Value8(LE(n, x))
  {
    ReadWritten(n, x);
    if n == 2 {
      Value2Is(LE(n, x));
    } else if n == 4 {
      Value4Is(LE(n, x));
    } else {
      Value8Is(LE(n, x));
    }
  }

  /** `memcpy` into the middle of a buffer. */
  function Overwrite(s: seq<byte>, at: nat, d: seq<byte>): (r: seq<byte>)
    requires at + |d| <= |s|
    ensures |r| == |s|
  {
    s[..at] + d + s[at + |d|..]
  }
}
