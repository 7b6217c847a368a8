/** SHA-1 of one block: the rounds in place, on a ring of sixteen words, against section 6.1.2 of FIPS 180-4. */
module Sha1Block {
  import opened Bytes
  import S = Sha1

  datatype Regs<T> = Regs(a: T, b: T, c: T, d: T, e: T)

  /** What a round does to words, whatever they are: `load` is word `t` of the block, `next` makes a word of the
      schedule from four earlier ones, `top` makes the first register from all five, the round's word and its
      number, `turn` is applied to the second register. */
  datatype Ops<!T> = Ops(
    load: nat -> T, next: (T, T, T, T) -> T, top: (nat, Regs<T>, T) -> T, turn: T -> T)

  // ----- the standard

  /** The message schedule. */
  function W<T>(o: Ops<T>, t: nat): T {
    if t < 16 then o.load(t) else o.next(W(o, t - 3), W(o, t - 8), W(o, t - 14), W(o, t - 16))
  }

  function Step<T>(o: Ops<T>, r: Regs<T>, t: nat, w: T): Regs<T> {
    Regs(o.top(t, r, w), r.a, o.turn(r.b), r.c, r.d)
  }

  function Steps<T>(o: Ops<T>, r: Regs<T>, t: nat): Regs<T> {
    if t == 0 then r else Step(o, Steps(o, r, t - 1), t - 1, W(o, t - 1))
  }

  ghost predicate WordRow<T>(o: Ops<T>, w: seq<T>, t: nat)
    requires t < |w|
  {
    w[t] == if t < 16 then o.load(t) else o.next(w[t - 3], w[t - 8], w[t - 14], w[t - 16])
  }

  ghost predicate RegsRow<T>(o: Ops<T>, w: seq<T>, r: seq<Regs<T>>, t: nat)
    requires t < |w| && t + 1 < |r|
  {
    r[t + 1] == Regs(o.top(t, r[t], w[t]), r[t].a, o.turn(r[t].b), r[t].c, r[t].d)
  }

  /** All words of the schedule and all registers from `r0` on, one row for each round. */
  ghost predicate Rows<T>(o: Ops<T>, r0: Regs<T>, w: seq<T>, r: seq<Regs<T>>) {
    && |w| == 80 && |r| == 81 && r[0] == r0
    && forall t: nat | t < 80 :: WordRow(o, w, t) && RegsRow(o, w, r, t)
  }

  lemma StepsNext<T>(o: Ops<T>, r: Regs<T>, t: nat)
    ensures Steps(o, r, t + 1) == Step(o, Steps(o, r, t), t, W(o, t))
  {
  }

  lemma WNext<T>(o: Ops<T>, t: nat)
    requires t >= 16
    ensures W(o, t) == o.next(W(o, t - 3), W(o, t - 8), W(o, t - 14), W(o, t - 16))
  {
  }

  lemma Schedule<T>(o: Ops<T>) returns (w: seq<T>)
    ensures |w| == 80 && forall t: nat | t < 80 :: w[t] == W(o, t)
  {
    w := seq(80, t requires 0 <= t < 80 => W(o, t));
  }

  lemma Registers<T>(o: Ops<T>, r0: Regs<T>) returns (r: seq<Regs<T>>)
    ensures |r| == 81 && forall t: nat | t <= 80 :: r[t] == Steps(o, r0, t)
  {
    r := seq(81, t requires 0 <= t <= 80 => Steps(o, r0, t));
  }

  lemma StepsRows<T>(o: Ops<T>, r0: Regs<T>) returns (w: seq<T>, r: seq<Regs<T>>)
    ensures Rows(o, r0, w, r) && r[80] == Steps(o, r0, 80)
  {
    w := Schedule(o);
    r := Registers(o, r0);
    forall t: nat | t < 80 ensures WordRow(o, w, t) && RegsRow(o, w, r, t) {
      RowAt(o, r0, w, r, t);
    }
  }

  lemma RowAt<T>(o: Ops<T>, r0: Regs<T>, w: seq<T>, r: seq<Regs<T>>, t: nat)
    requires |w| == 80 && |r| == 81 && t < 80
    requires forall k: nat | k < 80 :: w[k] == W(o, k)
    requires forall k: nat | k <= 80 :: r[k] == Steps(o, r0, k)
    ensures WordRow(o, w, t) && RegsRow(o, w, r, t)
  {
    StepsNext(o, r0, t);
    if t >= 16 {
      WNext(o, t);
    }
  }

  // ----- the code, for any words

  /** The words of the block are the loaded ones, swapped. */
  ghost predicate Loads<T>(o: Ops<T>, swap: T -> T, raw: seq<T>) {
    |raw| == 16 && forall k: nat | k < 16 :: swap(raw[k]) == o.load(k)
  }

  /** `SHA1_Transform`: the rounds change their five words in turn instead of moving them on, and keep only the last
      sixteen words of the schedule. */
  class Rounds<T(0)> {
    const o: Ops<T>
    const swap: T -> T
    const raw: seq<T>
    var l: seq<T>
    var v: seq<T>

    /** The words of the schedule from `t - 16`, or from 0, to `t - 1`, and behind them those not yet used. */
    ghost predicate Ring(t: nat)
      reads `l
    {
      && |l| == 16 && Loads(o, swap, raw)
      && (forall k: nat | k < t <= k + 16 :: l[k % 16] == W(o, k))
      && (forall k: nat | t <= k < 16 :: l[k] == raw[k])
    }

    /** The five words, in the order of round `t`. */
    ghost predicate Turned(r: Regs<T>, t: nat)
      reads `v
    {
      && t <= 80 && |v| == 5
      && v[(80 - t) % 5] == r.a && v[(81 - t) % 5] == r.b && v[(82 - t) % 5] == r.c
      && v[(83 - t) % 5] == r.d && v[(84 - t) % 5] == r.e
    }

    constructor (o: Ops<T>, swap: T -> T, raw: seq<T>, r: Regs<T>)
      requires Loads(o, swap, raw)
      ensures this.o == o && Ring(0) && Turned(r, 0)
    {
      this.o, this.swap, this.raw := o, swap, raw;
      l := raw;
      v := [r.a, r.b, r.c, r.d, r.e];
    }

    /** `blk0` and `blk`. */
    method Blk(t: nat) returns (w: T)
      requires Ring(t) && t < 80
      modifies `l
      ensures Ring(t + 1) && w == W(o, t)
    {
      if t < 16 {
        l := l[t := swap(l[t])];
      } else {
        RingPlaces(t);
        l := l[t % 16 := o.next(l[(t + 13) % 16], l[(t + 8) % 16], l[(t + 2) % 16], l[t % 16])];
      }
      w := l[t % 16];
      RingNext(t);
    }

    static lemma RingPlaces(t: nat)
      requires t >= 16
      ensures (t + 13) % 16 == (t - 3) % 16 && (t + 8) % 16 == (t - 8) % 16 && (t + 2) % 16 == (t - 14) % 16
      ensures t % 16 == (t - 16) % 16
    {
    }

    static lemma RingNext(t: nat)
      ensures forall k: nat | k < t < k + 16 :: k % 16 != t % 16
    {
    }

    /** One of the macros `R0` to `R4`. */
    method Round(t: nat, ghost r: Regs<T>)
      requires Ring(t) && Turned(r, t) && t < 80
      modifies this
      ensures Ring(t + 1) && Turned(Step(o, r, t, W(o, t)), t + 1)
    {
      var w := Blk(t);
      var p, q, x, y, z := (80 - t) % 5, (81 - t) % 5, (82 - t) % 5, (83 - t) % 5, (84 - t) % 5;
      Places(t);
      v := v[z := o.top(t, Regs(v[p], v[q], v[x], v[y], v[z]), w)];
      v := v[q := o.turn(v[q])];
    }

    /** After the last round the words are back in their places. */
    method Result(ghost r: Regs<T>) returns (s: Regs<T>)
      requires Turned(r, 80)
      ensures s == r
    {
      s := Regs(v[0], v[1], v[2], v[3], v[4]);
    }

    static lemma Mod5(a: nat, i: nat)
      ensures (a + i) % 5 == (a % 5 + i) % 5
    {
    }

    static lemma Places(t: nat)
      requires t < 80
      ensures (80 - (t + 1)) % 5 == (84 - t) % 5 && (81 - (t + 1)) % 5 == (80 - t) % 5
      ensures (82 - (t + 1)) % 5 == (81 - t) % 5 && (83 - (t + 1)) % 5 == (82 - t) % 5
      ensures (84 - (t + 1)) % 5 == (83 - t) % 5
      ensures (80 - t) % 5 != (81 - t) % 5 && (80 - t) % 5 != (82 - t) % 5 && (80 - t) % 5 != (83 - t) % 5
      ensures (80 - t) % 5 != (84 - t) % 5 && (81 - t) % 5 != (82 - t) % 5 && (81 - t) % 5 != (83 - t) % 5
      ensures (81 - t) % 5 != (84 - t) % 5 && (82 - t) % 5 != (84 - t) % 5 && (83 - t) % 5 != (84 - t) % 5
    {
      Mod5(80 - t, 1);
      Mod5(80 - t, 2);
      Mod5(80 - t, 3);
      Mod5(80 - t, 4);
      Mod5(79 - t, 5);
      PlaceCases((80 - t) % 5);
    }

    static lemma PlaceCases(p: nat)
      requires p < 5
      ensures p != (p + 1) % 5 && p != (p + 2) % 5 && p != (p + 3) % 5 && p != (p + 4) % 5
      ensures (p + 1) % 5 != (p + 2) % 5 && (p + 1) % 5 != (p + 3) % 5 && (p + 1) % 5 != (p + 4) % 5
      ensures (p + 2) % 5 != (p + 4) % 5 && (p + 3) % 5 != (p + 4) % 5
    {
    }
  }

  /** The eighty rounds. */
  method Eighty<T(0)>(o: Ops<T>, swap: T -> T, raw: seq<T>, r: Regs<T>) returns (s: Regs<T>)
    requires Loads(o, swap, raw)
    ensures s == Steps(o, r, 80)
  {
    var c := new Rounds(o, swap, raw, r);
    var t := 0;
    while t < 80
      invariant t <= 80 && c.o == o && c.Ring(t) && c.Turned(Steps(o, r, t), t)
    {
      StepsNext(o, r, t);
      c.Round(t, Steps(o, r, t));
      t := t + 1;
    }
    s := c.Result(Steps(o, r, 80));
  }

  /** Operations that agree give the same registers. */
  ghost predicate Agree<T(!new)>(o: Ops<T>, p: Ops<T>) {
    && (forall t: nat | t < 16 :: o.load(t) == p.load(t))
    && (forall x, y, z, u :: o.next(x, y, z, u) == p.next(x, y, z, u))
    && (forall t: nat, r, w :: o.top(t, r, w) == p.top(t, r, w))
    && (forall x :: o.turn(x) == p.turn(x))
  }

  lemma {:induction false} AgreeW<T(!new)>(o: Ops<T>, p: Ops<T>, t: nat)
    requires Agree(o, p)
    ensures W(o, t) == W(p, t)
  {
    if t >= 16 {
      AgreeW(o, p, t - 3);
      AgreeW(o, p, t - 8);
      AgreeW(o, p, t - 14);
      AgreeW(o, p, t - 16);
    }
  }

  lemma {:induction false} AgreeSteps<T(!new)>(o: Ops<T>, p: Ops<T>, r: Regs<T>, t: nat)
    requires Agree(o, p)
    ensures Steps(o, r, t) == Steps(p, r, t)
  {
    if t > 0 {
      AgreeSteps(o, p, r, t - 1);
      AgreeW(o, p, t - 1);
    }
  }

  // ----- the words of the standard

  type word = bv32

  function Rol1(x: word): word {
    (x << 1) | (x >> 31)
  }

  function Rol5(x: word): word {
    (x << 5) | (x >> 27)
  }

  function Rol8(x: word): word {
    (x << 8) | (x >> 24)
  }

  function Rol24(x: word): word {
    (x << 24) | (x >> 8)
  }

  function Rol30(x: word): word {
    (x << 30) | (x >> 2)
  }

  function Ch(x: word, y: word, z: word): word {
    (x & y) ^ ((!x) & z)
  }

  function Maj(x: word, y: word, z: word): word {
    (x & y) ^ (x & z) ^ (y & z)
  }

  function F(t: nat, x: word, y: word, z: word): word {
    if t < 20 then Ch(x, y, z) else if t < 40 then x ^ y ^ z else if t < 60 then Maj(x, y, z) else x ^ y ^ z
  }

  function K(t: nat): word {
    if t < 20 then 0x5a827999 else if t < 40 then 0x6ed9eba1 else if t < 60 then 0x8f1bbcdc else 0xca62c1d6
  }

  /** Four bytes as a word, the first one on top. */
  function BigWord(a: bv8, b: bv8, c: bv8, d: bv8): word {
    ((a as word) << 24) | ((b as word) << 16) | ((c as word) << 8) | (d as word)
  }

  function ByteAt(m: S.Block, i: nat): bv8 {
    if i < 64 then m[i] as bv8 else 0
  }

  function FipsSum(r: word, f: word, e: word, k: word, w: word): word {
    r + f + e + k + w
  }

  function FipsTop(t: nat, r: Regs<word>, w: word): word {
    FipsSum(Rol5(r.a), F(t, r.b, r.c, r.d), r.e, K(t), w)
  }

  /** Section 6.1.2 of FIPS 180-4. */
  function Fips(m: S.Block): Ops<word> {
    Ops(t => BigWord(ByteAt(m, 4 * t), ByteAt(m, 4 * t + 1), ByteAt(m, 4 * t + 2), ByteAt(m, 4 * t + 3)),
        (x, y, z, u) => Rol1(x ^ y ^ z ^ u),
        (t, r, w) => FipsTop(t, r, w), x => Rol30(x))
  }

  // ----- the words of the code

  /** Four bytes as the machine loads them, the first one at the bottom. */
  function LittleWord(a: bv8, b: bv8, c: bv8, d: bv8): word {
    (a as word) | ((b as word) << 8) | ((c as word) << 16) | ((d as word) << 24)
  }

  /** What `blk0` makes of a loaded word. */
  function Swapped(x: word): word {
    (Rol24(x) & 0xFF00FF00) | (Rol8(x) & 0x00FF00FF)
  }

  lemma SwapBytes(a: bv8, b: bv8, c: bv8, d: bv8)
    ensures Swapped(LittleWord(a, b, c, d)) == BigWord(a, b, c, d)
  {
  }

  /** What the macros `R0` to `R4` make of three words in round `t`. */
  function Mix(t: nat, w: word, x: word, y: word): word {
    if t < 20 then (w & (x ^ y)) ^ y else if t < 40 then w ^ x ^ y
    else if t < 60 then ((w | x) & y) | (w & x) else w ^ x ^ y
  }

  lemma MixIs(t: nat, w: word, x: word, y: word)
    ensures Mix(t, w, x, y) == F(t, w, x, y)
  {
    assert (w & (x ^ y)) ^ y == Ch(w, x, y);
    assert ((w | x) & y) | (w & x) == Maj(w, x, y);
  }

  /** `z += f + w + k + r`. */
  function CodeSum(z: word, f: word, w: word, k: word, r: word): (s: word)
    ensures s == FipsSum(r, f, z, k, w)
  {
    z + (f + w + k + r)
  }

  function CodeTop(t: nat, r: Regs<word>, w: word): word {
    CodeSum(r.e, Mix(t, r.b, r.c, r.d), w, K(t), Rol5(r.a))
  }

  function Code(m: S.Block): Ops<word> {
    Ops(t => Swapped(LittleWord(ByteAt(m, 4 * t), ByteAt(m, 4 * t + 1), ByteAt(m, 4 * t + 2), ByteAt(m, 4 * t + 3))),
        (x, y, z, u) => Rol1(x ^ y ^ z ^ u),
        (t, r, w) => CodeTop(t, r, w), x => Rol30(x))
  }

  lemma CodeAgrees(m: S.Block)
    ensures Agree(Code(m), Fips(m))
  {
    var o, p := Code(m), Fips(m);
    forall t: nat | t < 16 ensures o.load(t) == p.load(t) {
      LoadAgrees(m, t);
    }
    forall t: nat, r: Regs<word>, w ensures o.top(t, r, w) == p.top(t, r, w) {
      TopAgrees(m, t, r, w);
    }
  }

  lemma LoadAgrees(m: S.Block, t: nat)
    ensures Code(m).load(t) == Fips(m).load(t)
  {
    SwapBytes(ByteAt(m, 4 * t), ByteAt(m, 4 * t + 1), ByteAt(m, 4 * t + 2), ByteAt(m, 4 * t + 3));
  }

  lemma TopAgrees(m: S.Block, t: nat, r: Regs<word>, w: word)
    ensures Code(m).top(t, r, w) == Fips(m).top(t, r, w)
  {
    TopIs(t, r, w);
  }

  lemma SameSum(z: word, f: word, g: word, w: word, k: word, r: word)
    requires f == g
    ensures CodeSum(z, f, w, k, r) == FipsSum(r, g, z, k, w)
  {
  }

  lemma TopIs(t: nat, r: Regs<word>, w: word)
    ensures CodeTop(t, r, w) == FipsTop(t, r, w)
  {
    MixIs(t, r.b, r.c, r.d);
    SameSum(r.e, Mix(t, r.b, r.c, r.d), F(t, r.b, r.c, r.d), w, K(t), Rol5(r.a));
  }

  function Plus(r: Regs<word>, s: Regs<word>): Regs<word> {
    Regs(r.a + s.a, r.b + s.b, r.c + s.c, r.d + s.d, r.e + s.e)
  }

  /** The eighty rounds of the standard lead from `r` to what is added to it. */
  ghost predicate Hashed(m: S.Block, r: Regs<word>, s: Regs<word>) {
    exists w, rows :: Rows(Fips(m), r, w, rows) && s == Plus(r, rows[80])
  }

  lemma StepsHashed(m: S.Block, r: Regs<word>)
    ensures Hashed(m, r, Plus(r, Steps(Fips(m), r, 80)))
  {
    var w, rows := StepsRows(Fips(m), r);
  }

  /** `SHA1_Transform` computes the next hash value of the standard. */
  method Transform(r: Regs<word>, m: S.Block) returns (s: Regs<word>)
    ensures s == Plus(r, Steps(Fips(m), r, 80)) && Hashed(m, r, s)
  {
    var raw := seq(16, k requires 0 <= k < 16 =>
      LittleWord(ByteAt(m, 4 * k), ByteAt(m, 4 * k + 1), ByteAt(m, 4 * k + 2), ByteAt(m, 4 * k + 3)));
    var t := Eighty(Code(m), x => Swapped(x), raw, r);
    CodeAgrees(m);
    AgreeSteps(Code(m), Fips(m), r, 80);
    s := Plus(r, t);
    StepsHashed(m, r);
  }

  // ----- the whole digest

  function ToRegs(w: S.Words): Regs<word> {
    Regs(w[0] as word, w[1] as word, w[2] as word, w[3] as word, w[4] as word)
  }

  function ToNat(x: word): S.uint32 {
    x as nat
  }

  function ToWords(r: Regs<word>): S.Words {
    [ToNat(r.a), ToNat(r.b), ToNat(r.c), ToNat(r.d), ToNat(r.e)]
  }

  /** The next hash value of FIPS 180-4. */
  function NextHash(w: S.Words, m: S.Block): S.Words {
    ToWords(Plus(ToRegs(w), Steps(Fips(m), ToRegs(w), 80)))
  }

  method TransformState(w: S.Words, m: S.Block) returns (h: S.Words)
    ensures h == NextHash(w, m)
  {
    var r := Transform(ToRegs(w), m);
    h := ToWords(r);
  }

  /** `lsha1`: the digest of FIPS 180-4, of the text padded as the standard says if it is shorter than 2 to the 29
      bytes. */
  method Digest(text: seq<byte>) returns (digest: seq<byte>)
    requires |text| < 0x2000_0000_0000_0000
    ensures S.Hashes(NextHash, S.PaddedAsCounted(text), digest)
    ensures S.IsPadded(text, 8 * |text|, S.PaddedAsCounted(text)) <==> |text| < 0x2000_0000
  {
    digest := S.Sha1(NextHash, text);
    S.PaddedRightIff(text);
  }
}
