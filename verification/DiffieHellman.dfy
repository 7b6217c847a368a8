/** Diffie-Hellman key exchange over the largest 64-bit prime, on wrapping 64-bit arithmetic. */
module DiffieHellman {
  import opened Bytes

  const WORD: nat := 0x1_0000_0000_0000_0000
  const P: nat := 0xffff_ffff_ffff_ffc5
  const G: nat := 5

  type uint64 = x: nat | x < 0x1_0000_0000_0000_0000 witness 0

  // ----- machine arithmetic

  function Plus(x: uint64, y: uint64): uint64 {
    if x + y < WORD then x + y else x + y - WORD
  }

  function Minus(x: uint64, y: uint64): uint64 {
    if x >= y then x - y else x - y + WORD
  }

  // ----- powers and remainders

  function Power(a: nat, b: nat): nat {
    if b == 0 then 1 else a * Power(a, b - 1)
  }

  lemma {:induction false} PowerSum(a: nat, b: nat, c: nat)
    ensures Power(a, b + c) == Power(a, b) * Power(a, c)
  {
    if b > 0 {
      PowerSum(a, b - 1, c);
      var x, y := Power(a, b - 1), Power(a, c);
      assert a * (x * y) == (a * x) * y;
    } else {
      assert 1 * Power(a, c) == Power(a, c);
    }
  }

  lemma {:induction false} PowerPower(a: nat, b: nat, c: nat)
    ensures Power(Power(a, b), c) == Power(a, b * c)
  {
    if c > 0 {
      PowerPower(a, b, c - 1);
      assert b * c == b + b * (c - 1);
      PowerSum(a, b, b * (c - 1));
    } else {
      assert b * 0 == 0;
    }
  }

  lemma {:induction false} PowerProduct(a: nat, b: nat, c: nat)
    ensures Power(a * b, c) == Power(a, c) * Power(b, c)
  {
    if c > 0 {
      PowerProduct(a, b, c - 1);
      var x, y := Power(a, c - 1), Power(b, c - 1);
      Shuffle(a, b, x, y);
    }
  }

  lemma Shuffle(a: nat, b: nat, x: nat, y: nat)
    ensures (a * b) * (x * y) == (a * x) * (b * y)
  {
    var k := b * y;
    assert b * (x * y) == x * k;
    assert (a * b) * (x * y) == a * (b * (x * y));
    assert a * (x * k) == (a * x) * k;
  }

  /** `x` and `y` leave the same remainder: they differ by `q` times the modulus. */
  lemma SameRemainder(x: int, y: int, q: int, n: nat)
    requires n > 0 && x == y + q * n
    ensures x % n == y % n
  {
    var d := x / n - y / n - q;
    assert n * d == y % n - x % n;
    assert d > 0 ==> n * d >= n;
    assert d < 0 ==> n * d <= 0 - n;
  }

  lemma ProductRemainder(x: nat, y: nat, n: nat)
    requires n > 0
    ensures (x * y) % n == ((x % n) * y) % n == ((x % n) * (y % n)) % n
  {
    var q, r := x / n, y / n;
    assert x == x % n + q * n && y == y % n + r * n;
    assert x * y == (x % n) * y + (q * y) * n;
    SameRemainder(x * y, (x % n) * y, q * y, n);
    assert (x % n) * y == (x % n) * (y % n) + ((x % n) * r) * n;
    SameRemainder((x % n) * y, (x % n) * (y % n), (x % n) * r, n);
  }

  lemma {:induction false} PowerRemainder(a: nat, b: nat, n: nat)
    requires n > 0
    ensures Power(a % n, b) % n == Power(a, b) % n
  {
    if b > 0 {
      PowerRemainder(a, b - 1, n);
      var x, y := Power(a % n, b - 1), Power(a, b - 1);
      ProductRemainder(a % n, x, n);
      ProductRemainder(a, y, n);
      ProductRemainder(y, a % n, n);
      ProductRemainder(x, a % n, n);
      assert (a % n) * x == x * (a % n) && a * y == y * a && (a % n) * y == y * (a % n);
    }
  }

  // ----- multiplication

  lemma Round(a: nat, b: nat)
    ensures a * b == a * (b % 2) + (2 * a) * (b / 2)
  {
    assert b == b % 2 + 2 * (b / 2);
    assert a * (2 * (b / 2)) == (2 * a) * (b / 2);
  }

  /** `mul_mod_p`: doubling and adding without ever leaving 64 bits. */
  method MulModP(x: uint64, y: uint64) returns (m: uint64)
    requires x <= P
    ensures m < P && m == (x * y) % P
  {
    var a: uint64, b: uint64 := x, y;
    m := 0;
    ghost var q: int := 0;
    while b != 0
      invariant a <= P && m < P
      invariant x * y == m + a * b + q * P
      decreases b
    {
      Round(a, b);
      var h := b / 2;
      if b % 2 == 1 {
        var t := Minus(P, a);
        if m >= t {
          m := Minus(m, t);
          q := q + 1;
        } else {
          m := Plus(m, a);
        }
      }
      assert x * y == m + (2 * a) * h + q * P;
      if a >= Minus(P, a) {
        assert (2 * a) * h == (2 * a - P) * h + h * P;
        a := Minus(Plus(a, a), P);
        q := q + h;
      } else {
        a := Plus(a, a);
      }
      b := h;
    }
    SameRemainder(x * y, m, q, P);
  }

  lemma Halves(a: nat, b: nat)
    requires b > 0
    ensures Power(a, b) == Power(a, b / 2) * Power(a, b / 2) * (if b % 2 == 1 then a else 1)
  {
    var h := b / 2;
    PowerSum(a, h, h);
    if b % 2 == 1 {
      assert b == 2 * h + 1;
      assert Power(a, b) == a * Power(a, 2 * h);
    } else {
      assert b == 2 * h;
    }
  }

  /** The remainders that squaring, and multiplying once more, start from. */
  lemma SquareRemainder(a: nat, x: nat, n: nat)
    requires n > 0
    ensures ((x % n) * (x % n)) % n == (x * x) % n
    ensures (((x * x) % n) * a) % n == (x * x * a) % n
  {
    ProductRemainder(x, x, n);
    ProductRemainder(x * x, a, n);
  }

  /** `pow_mod_p`: squaring and multiplying. The modulus itself, as a base, comes back from an exponent of 1. */
  method PowModP(a: uint64, b: uint64) returns (t: uint64)
    requires a <= P && b >= 1
    ensures t == if a == P && b == 1 then P else Power(a, b) % P
    decreases b
  {
    if b == 1 {
      assert Power(a, 1) == a * Power(a, 0);
      return a;
    }
    t := PowModP(a, b / 2);
    ghost var x := Power(a, b / 2);
    Halves(a, b);
    SquareRemainder(a, x, P);
    Remainders(a, b / 2, t);
    t := MulModP(t, t);
    if b % 2 == 1 {
      t := MulModP(t, a);
    }
  }

  /** Whichever of the two answers `t` is, its square leaves the same remainder. */
  lemma Remainders(a: nat, h: nat, t: nat)
    requires h > 0 && t == if a == P && h == 1 then P else Power(a, h) % P
    ensures t <= P && (t * t) % P == (Power(a, h) % P) * (Power(a, h) % P) % P
  {
    if a == P && h == 1 {
      assert Power(P, 1) == P * Power(P, 0) == P;
      SameRemainder(P * P, 0, P, P);
    }
  }

  /** `powmodp` yields the power modulo P, except of P itself to the exponent 1. */
  method PowerModP(a: uint64, b: uint64) returns (r: uint64)
    requires b >= 1
    ensures r == Power(a, b) % P <==> !(a == P && b == 1)
    ensures a == P && b == 1 ==> r == P
  {
    var x: uint64 := if a > P then a % P else a;
    PowerRemainder(a, b, P);
    r := PowModP(x, b);
    if a == P && b == 1 {
      assert Power(P, 1) == P * Power(P, 0) == P;
    }
  }

  // ----- the exchange

  datatype Answer = Bytes8(value: seq<byte>) | Refused

  /** Eight bytes, not all of them zero. */
  predicate Accepted(key: seq<byte>) {
    |key| == 8 && Value8(key) != 0
  }

  /** The eight bytes of a value below the modulus, the least significant one first. */
  predicate Shows(r: Answer, v: nat) {
    r.Bytes8? && |r.value| == 8 && Value8(r.value) == v
  }

  /** `ldhexchange`: the public value of a private key. */
  method Exchange(key: seq<byte>) returns (r: Answer)
    ensures if Accepted(key) then Shows(r, Power(5, Value8(key)) % 0xFFFF_FFFF_FFFF_FFC5) else r == Refused
  {
    if |key| != 8 {
      return Refused;
    }
    FromLEBound(key);
    Pow256s();
    Value8Is(key);
    var x64: uint64 := FromLE(key);
    if x64 == 0 {
      return Refused;
    }
    var v := PowerModP(G, x64);
    WrittenIs(8, v);
    r := Bytes8(LE(8, v));
  }

  /** `ldhsecret`: the secret from the other side's public value and the own private key. */
  method Secret(x: seq<byte>, y: seq<byte>) returns (r: Answer)
    ensures !Accepted(x) || !Accepted(y) ==> r == Refused
    ensures Accepted(x) && Accepted(y) && !(Value8(x) == P && Value8(y) == 1)
            ==> Shows(r, Power(Value8(x), Value8(y)) % 0xFFFF_FFFF_FFFF_FFC5)
    ensures Accepted(x) && Accepted(y) && Value8(x) == P && Value8(y) == 1 ==> Shows(r, P)
  {
    if |x| != 8 || |y| != 8 {
      return Refused;
    }
    FromLEBound(x);
    FromLEBound(y);
    Pow256s();
    Value8Is(x);
    Value8Is(y);
    var xx: uint64, yy: uint64 := FromLE(x), FromLE(y);
    if xx == 0 || yy == 0 {
      return Refused;
    }
    var v := PowerModP(xx, yy);
    WrittenIs(8, v);
    r := Bytes8(LE(8, v));
  }

  /** 5 times this is 1 modulo P. */
  const INVERSE: nat := 7378697629483820623

  lemma {:induction false} OnePower(n: nat)
    ensures Power(1, n) == 1
  {
    if n > 0 {
      OnePower(n - 1);
    }
  }

  /** The public value is never 0, since 5 has an inverse modulo P. */
  lemma ExchangeNotZero(x: nat)
    ensures Power(G, x) % P != 0
  {
    var g, h := Power(G, x), Power(INVERSE, x);
    PowerProduct(G, INVERSE, x);
    PowerRemainder(G * INVERSE, x, P);
    assert G * INVERSE == 2 * P + 1;
    SameRemainder(2 * P + 1, 1, 2, P);
    OnePower(x);
    assert (g * h) % P == 1;
    ProductRemainder(g, h, P);
    var z := g % P;
    assert z == 0 ==> z * h == 0;
  }

  /** Both sides reach the same power. */
  lemma Commutes(x: nat, y: nat)
    ensures Power(Power(G, y) % P, x) % P == Power(Power(G, x) % P, y) % P
  {
    PowerRemainder(Power(G, y), x, P);
    PowerRemainder(Power(G, x), y, P);
    PowerPower(G, y, x);
    PowerPower(G, x, y);
    assert x * y == y * x;
  }

  lemma PublicAccepted(x: nat, r: Answer)
    requires Shows(r, Power(5, x) % 0xFFFF_FFFF_FFFF_FFC5)
    ensures Accepted(r.value) && Value8(r.value) == Power(G, x) % P && Value8(r.value) != P
  {
    ExchangeNotZero(x);
  }

  lemma ShowsOne(r: Answer, s: Answer, v: nat)
    requires Shows(r, v) && Shows(s, v)
    ensures r == s
  {
    Value8One(r.value, s.value);
  }

  /** For all private keys that are accepted, both exchanges succeed and both sides get the same secret. */
  method Agreement(a: seq<byte>, b: seq<byte>) returns (mine: Answer, yours: Answer)
    requires Accepted(a) && Accepted(b)
    ensures mine.Bytes8? && mine == yours && |mine.value| == 8
  {
    var pa := Exchange(a);
    var pb := Exchange(b);
    PublicAccepted(Value8(a), pa);
    PublicAccepted(Value8(b), pb);
    mine := Secret(pb.value, a);
    yours := Secret(pa.value, b);
    Commutes(Value8(a), Value8(b));
    ShowsOne(mine, yours, Power(Value8(pb.value), Value8(a)) % P);
  }
}
