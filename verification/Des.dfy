/** DES encryption of texts: the block cipher on two 32-bit words, padding, and the block loops.
  The substitution tables and the key schedule are arbitrary. */
module Des {
  type word = bv32

  /** Two words, in the order in which the block's bytes give them. */
  datatype Pair = Pair(x: word, y: word) {
    function Swap(): Pair {
      Pair(y, x)
    }
  }

  // ----- permutations

  /** Exchanges the bits of `mask` in `y` with those `k` places higher in `x`. */
  function Exchange4(p: Pair): Pair {
    var t := ((p.x >> 4) ^ p.y) & 0x0F0F0F0F;
    Pair(p.x ^ (t << 4), p.y ^ t)
  }

  function Exchange16(p: Pair): Pair {
    var t := ((p.x >> 16) ^ p.y) & 0x0000FFFF;
    Pair(p.x ^ (t << 16), p.y ^ t)
  }

  function Exchange2(p: Pair): Pair {
    var t := ((p.y >> 2) ^ p.x) & 0x33333333;
    Pair(p.x ^ t, p.y ^ (t << 2))
  }

  function Exchange8(p: Pair): Pair {
    var t := ((p.y >> 8) ^ p.x) & 0x00FF00FF;
    Pair(p.x ^ t, p.y ^ (t << 8))
  }

  function Exchange0(p: Pair): Pair {
    var t := (p.x ^ p.y) & 0xAAAAAAAA;
    Pair(p.x ^ t, p.y ^ t)
  }

  function RotateLeft(w: word): word {
    (w << 1) | (w >> 31)
  }

  function RotateRight(w: word): word {
    (w << 31) | (w >> 1)
  }

  /** `DES_IP`. */
  function Initial(p: Pair): Pair {
    var q := Exchange8(Exchange2(Exchange16(Exchange4(p))));
    var r := Exchange0(q.(y := RotateLeft(q.y)));
    r.(x := RotateLeft(r.x))
  }

  /** `DES_FP`. */
  function Final(p: Pair): Pair {
    var q := Exchange0(p.(x := RotateRight(p.x)));
    Exchange4(Exchange16(Exchange2(Exchange8(q.(y := RotateRight(q.y))))))
  }

  lemma Exchange4Twice(p: Pair)
    ensures Exchange4(Exchange4(p)) == p
  {
  }

  lemma Exchange16Twice(p: Pair)
    ensures Exchange16(Exchange16(p)) == p
  {
  }

  lemma Exchange2Twice(p: Pair)
    ensures Exchange2(Exchange2(p)) == p
  {
  }

  lemma Exchange8Twice(p: Pair)
    ensures Exchange8(Exchange8(p)) == p
  {
  }

  lemma Exchange0Twice(p: Pair)
    ensures Exchange0(Exchange0(p)) == p
  {
  }

  lemma RotateBack(w: word)
    ensures RotateRight(RotateLeft(w)) == w && RotateLeft(RotateRight(w)) == w
  {
  }

  lemma FinalUndoes(p: Pair)
    ensures Final(Initial(p)) == p
  {
    var a := Exchange4(p);
    var b := Exchange16(a);
    var c := Exchange2(b);
    var q := Exchange8(c);
    Exchange4Twice(p);
    Exchange16Twice(a);
    Exchange2Twice(b);
    Exchange8Twice(c);
    var s := q.(y := RotateLeft(q.y));
    var r := Exchange0(s);
    Exchange0Twice(s);
    RotateBack(q.y);
    RotateBack(r.x);
  }

  lemma InitialUndoes(p: Pair)
    ensures Initial(Final(p)) == p
  {
    var s := p.(x := RotateRight(p.x));
    var q := Exchange0(s);
    var r := q.(y := RotateRight(q.y));
    var a := Exchange8(r);
    var b := Exchange2(a);
    var c := Exchange16(b);
    Exchange8Twice(r);
    Exchange2Twice(a);
    Exchange16Twice(b);
    Exchange4Twice(c);
    RotateBack(q.y);
    Exchange0Twice(s);
    RotateBack(p.x);
  }

  // ----- bytes and words

  function GetWord(a: bv8, b: bv8, c: bv8, d: bv8): word {
    ((a as word) << 24) | ((b as word) << 16) | ((c as word) << 8) | (d as word)
  }

  function ByteOf(w: word): bv8 {
    (w & 0xFF) as bv8
  }

  lemma WordBytes(a: bv8, b: bv8, c: bv8, d: bv8)
    ensures var w := GetWord(a, b, c, d);
            ByteOf(w >> 24) == a && ByteOf(w >> 16) == b && ByteOf(w >> 8) == c && ByteOf(w) == d
  {
  }

  lemma BytesWord(w: word)
    ensures GetWord(ByteOf(w >> 24), ByteOf(w >> 16), ByteOf(w >> 8), ByteOf(w)) == w
  {
  }

  // ----- rounds

  /** The eight tables, each indexed by six bits. */
  datatype Tables = Tables(
    sb1: word -> word, sb2: word -> word, sb3: word -> word, sb4: word -> word,
    sb5: word -> word, sb6: word -> word, sb7: word -> word, sb8: word -> word)

  /** What a round makes of two words of the schedule and one of the text. */
  type RoundFunction = (word, word, word) -> word

  /** What one of the two statements of `DES_ROUND` takes from its four tables. */
  function Four(f: word -> word, g: word -> word, h: word -> word, k: word -> word, t: word): word {
    f(t & 0x3F) ^ g((t >> 8) & 0x3F) ^ h((t >> 16) & 0x3F) ^ k((t >> 24) & 0x3F)
  }

  /** What `DES_ROUND` adds to the other word. */
  function Scramble(b: Tables, k1: word, k2: word, x: word): word {
    Four(b.sb8, b.sb6, b.sb4, b.sb2, k1 ^ x) ^ Four(b.sb7, b.sb5, b.sb3, b.sb1, k2 ^ ((x << 28) | (x >> 4)))
  }

  /** The round function of DES. The rest holds for any other as well. */
  function DesRound(b: Tables): RoundFunction {
    (k1, k2, x) => Scramble(b, k1, k2, x)
  }

  /** 32 words, two for each round. */
  type Schedule = s: seq<word> | |s| == 32 witness seq(32, i => 0)

  /** `DES_ROUND`. The macro is used with its two words in turn; here the pair is turned instead. */
  function Round(f: RoundFunction, k1: word, k2: word, p: Pair): Pair {
    Pair(p.y, p.x ^ f(k1, k2, p.y))
  }

  function Rounds(f: RoundFunction, sk: Schedule, n: nat, p: Pair): Pair
    requires n <= 16
  {
    if n == 0 then p else Round(f, sk[2 * n - 2], sk[2 * n - 1], Rounds(f, sk, n - 1, p))
  }

  /** The schedule of the decoder: the pairs of words from the last round to the first. */
  function Reversed(sk: Schedule): Schedule {
    seq(32, i requires 0 <= i < 32 => if i % 2 == 0 then sk[30 - i] else sk[32 - i])
  }

  lemma XorTwice(x: word, y: word)
    ensures (x ^ y) ^ y == x
  {
  }

  lemma ReversedAt(sk: Schedule, n: nat)
    requires 0 < n <= 16
    ensures Reversed(sk)[2 * n - 2] == sk[32 - 2 * n] && Reversed(sk)[2 * n - 1] == sk[33 - 2 * n]
  {
  }

  /** A round is undone by the same round on swapped words. */
  lemma RoundBack(f: RoundFunction, k1: word, k2: word, p: Pair)
    ensures Round(f, k1, k2, Round(f, k1, k2, p).Swap()) == p.Swap()
  {
    XorTwice(p.x, f(k1, k2, p.y));
  }

  /** The first `n` rounds of the reversed schedule undo the last `n` rounds. */
  lemma {:induction false} RoundsBack(f: RoundFunction, sk: Schedule, n: nat, p: Pair)
    requires n <= 16
    ensures Rounds(f, Reversed(sk), n, Rounds(f, sk, 16, p).Swap()) == Rounds(f, sk, 16 - n, p).Swap()
  {
    if n > 0 {
      RoundsBack(f, sk, n - 1, p);
      ReversedAt(sk, n);
      var q := Rounds(f, sk, 16 - n, p);
      assert Rounds(f, sk, 17 - n, p) == Round(f, sk[32 - 2 * n], sk[33 - 2 * n], q);
      RoundBack(f, sk[32 - 2 * n], sk[33 - 2 * n], q);
    }
  }

  type Block = s: seq<bv8> | |s| == 8 witness seq(8, i => 0)

  function GetPair(s: Block): Pair {
    Pair(GetWord(s[0], s[1], s[2], s[3]), GetWord(s[4], s[5], s[6], s[7]))
  }

  function PutPair(p: Pair): Block {
    [ByteOf(p.x >> 24), ByteOf(p.x >> 16), ByteOf(p.x >> 8), ByteOf(p.x),
     ByteOf(p.y >> 24), ByteOf(p.y >> 16), ByteOf(p.y >> 8), ByteOf(p.y)]
  }

  /** `des_crypt`. */
  function Crypt(f: RoundFunction, sk: Schedule, s: Block): Block {
    PutPair(Final(Rounds(f, sk, 16, Initial(GetPair(s))).Swap()))
  }

  lemma PutGet(s: Block)
    ensures PutPair(GetPair(s)) == s
  {
    WordBytes(s[0], s[1], s[2], s[3]);
    WordBytes(s[4], s[5], s[6], s[7]);
  }

  lemma GetPut(p: Pair)
    ensures GetPair(PutPair(p)) == p
  {
    BytesWord(p.x);
    BytesWord(p.y);
  }

  /** Decrypting a block undoes encrypting it, whatever the round function and the schedule. */
  lemma CryptBack(f: RoundFunction, sk: Schedule, s: Block)
    ensures Crypt(f, Reversed(sk), Crypt(f, sk, s)) == s
  {
    var p := Initial(GetPair(s));
    var q := Rounds(f, sk, 16, p).Swap();
    GetPut(Final(q));
    InitialUndoes(q);
    RoundsBack(f, sk, 16, p);
    FinalUndoes(GetPair(s));
    PutGet(s);
  }

  // ----- the block cipher, bit by bit

  /** Bit `n` of a block, numbered from 1 at the most significant bit of the first byte. */
  function BlockBit(s: Block, n: nat): word
    requires 1 <= n <= 64
  {
    ((s[(n - 1) / 8] >> (7 - (n - 1) % 8)) & 1) as word
  }

  /** Bit `n` of two words. */
  function PairBit(p: Pair, n: nat): word
    requires 1 <= n <= 64
  {
    if n <= 32 then (p.x >> (32 - n)) & 1 else (p.y >> (64 - n)) & 1
  }

  /** Bit `n` of one of the words that the rounds work on: they are kept turned to the left by one place. */
  function HalfBit(w: word, n: nat): word
    requires 1 <= n <= 32
  {
    if n == 1 then w & 1 else (w >> (33 - n)) & 1
  }

  function TurnedBit(p: Pair, n: nat): word
    requires 1 <= n <= 64
  {
    if n <= 32 then HalfBit(p.x, n) else HalfBit(p.y, n - 32)
  }

  predicate ByteBits(s: Block, p: Pair, n: nat)
    requires 1 <= n <= 57
  {
    && PairBit(p, n) == BlockBit(s, n) && PairBit(p, n + 1) == BlockBit(s, n + 1)
    && PairBit(p, n + 2) == BlockBit(s, n + 2) && PairBit(p, n + 3) == BlockBit(s, n + 3)
    && PairBit(p, n + 4) == BlockBit(s, n + 4) && PairBit(p, n + 5) == BlockBit(s, n + 5)
    && PairBit(p, n + 6) == BlockBit(s, n + 6) && PairBit(p, n + 7) == BlockBit(s, n + 7)
  }

  /** The two words have the 64 bits of the block. */
  predicate SameBits(s: Block, p: Pair) {
    && ByteBits(s, p, 1) && ByteBits(s, p, 9) && ByteBits(s, p, 17) && ByteBits(s, p, 25)
    && ByteBits(s, p, 33) && ByteBits(s, p, 41) && ByteBits(s, p, 49) && ByteBits(s, p, 57)
  }

  /** Bits `n` to `n + 7` of the words of the rounds are bits `a` to `h` of the block. */
  predicate Row(p: Pair, q: Pair, n: nat, a: nat, b: nat, c: nat, d: nat, e: nat, f: nat, g: nat, h: nat)
    requires 1 <= n <= 57 && 1 <= a <= 64 && 1 <= b <= 64 && 1 <= c <= 64 && 1 <= d <= 64
    requires 1 <= e <= 64 && 1 <= f <= 64 && 1 <= g <= 64 && 1 <= h <= 64
  {
    && TurnedBit(q, n) == PairBit(p, a) && TurnedBit(q, n + 1) == PairBit(p, b)
    && TurnedBit(q, n + 2) == PairBit(p, c) && TurnedBit(q, n + 3) == PairBit(p, d)
    && TurnedBit(q, n + 4) == PairBit(p, e) && TurnedBit(q, n + 5) == PairBit(p, f)
    && TurnedBit(q, n + 6) == PairBit(p, g) && TurnedBit(q, n + 7) == PairBit(p, h)
  }

  predicate LeftIP(p: Pair, q: Pair) {
    && Row(p, q, 1, 58, 50, 42, 34, 26, 18, 10, 2)
    && Row(p, q, 9, 60, 52, 44, 36, 28, 20, 12, 4)
    && Row(p, q, 17, 62, 54, 46, 38, 30, 22, 14, 6)
    && Row(p, q, 25, 64, 56, 48, 40, 32, 24, 16, 8)
  }

  predicate RightIP(p: Pair, q: Pair) {
    && Row(p, q, 33, 57, 49, 41, 33, 25, 17, 9, 1)
    && Row(p, q, 41, 59, 51, 43, 35, 27, 19, 11, 3)
    && Row(p, q, 49, 61, 53, 45, 37, 29, 21, 13, 5)
    && Row(p, q, 57, 63, 55, 47, 39, 31, 23, 15, 7)
  }

  /** The table IP of FIPS 46-3: `q` is the permuted input `p`. */
  predicate TableIP(p: Pair, q: Pair) {
    LeftIP(p, q) && RightIP(p, q)
  }

  lemma InitialRow0(p: Pair)
    ensures Row(p, Initial(p), 1, 58, 50, 42, 34, 26, 18, 10, 2)
  {
  }

  lemma InitialRow1(p: Pair)
    ensures Row(p, Initial(p), 9, 60, 52, 44, 36, 28, 20, 12, 4)
  {
  }

  lemma InitialRow2(p: Pair)
    ensures Row(p, Initial(p), 17, 62, 54, 46, 38, 30, 22, 14, 6)
  {
  }

  lemma InitialRow3(p: Pair)
    ensures Row(p, Initial(p), 25, 64, 56, 48, 40, 32, 24, 16, 8)
  {
  }

  lemma InitialRow4(p: Pair)
    ensures Row(p, Initial(p), 33, 57, 49, 41, 33, 25, 17, 9, 1)
  {
  }

  lemma InitialRow5(p: Pair)
    ensures Row(p, Initial(p), 41, 59, 51, 43, 35, 27, 19, 11, 3)
  {
  }

  lemma InitialRow6(p: Pair)
    ensures Row(p, Initial(p), 49, 61, 53, 45, 37, 29, 21, 13, 5)
  {
  }

  lemma InitialRow7(p: Pair)
    ensures Row(p, Initial(p), 57, 63, 55, 47, 39, 31, 23, 15, 7)
  {
  }

  lemma InitialTable(p: Pair)
    ensures TableIP(p, Initial(p))
  {
    InitialRow0(p);
    InitialRow1(p);
    InitialRow2(p);
    InitialRow3(p);
    InitialRow4(p);
    InitialRow5(p);
    InitialRow6(p);
    InitialRow7(p);
  }

  lemma ByteBits0(s: Block)
    ensures ByteBits(s, GetPair(s), 1)
  {
  }

  lemma ByteBits1(s: Block)
    ensures ByteBits(s, GetPair(s), 9)
  {
  }

  lemma ByteBits2(s: Block)
    ensures ByteBits(s, GetPair(s), 17)
  {
  }

  lemma ByteBits3(s: Block)
    ensures ByteBits(s, GetPair(s), 25)
  {
  }

  lemma ByteBits4(s: Block)
    ensures ByteBits(s, GetPair(s), 33)
  {
  }

  lemma ByteBits5(s: Block)
    ensures ByteBits(s, GetPair(s), 41)
  {
  }

  lemma ByteBits6(s: Block)
    ensures ByteBits(s, GetPair(s), 49)
  {
  }

  lemma ByteBits7(s: Block)
    ensures ByteBits(s, GetPair(s), 57)
  {
  }

  lemma GetPairBits(s: Block)
    ensures SameBits(s, GetPair(s))
  {
    ByteBits0(s);
    ByteBits1(s);
    ByteBits2(s);
    ByteBits3(s);
    ByteBits4(s);
    ByteBits5(s);
    ByteBits6(s);
    ByteBits7(s);
  }

  /** The sixteen rounds of FIPS 46-3 on the halves `l` and `r`. */
  ghost predicate Sixteen(f: RoundFunction, sk: Schedule, l: seq<word>, r: seq<word>) {
    && |l| == 17 && |r| == 17
    && forall i | 0 <= i < 16 :: l[i + 1] == r[i] && r[i + 1] == l[i] ^ f(sk[2 * i], sk[2 * i + 1], r[i])
  }

  /** `q` is the permutation of the block `s`. */
  ghost predicate Permuted(s: Block, q: Pair) {
    exists p :: SameBits(s, p) && TableIP(p, q)
  }

  /** The rounds lead from the permuted input to the halves that, exchanged, are the permutation of the output. */
  ghost predicate EnciphersBy(f: RoundFunction, sk: Schedule, s: Block, t: Block, l: seq<word>, r: seq<word>) {
    Sixteen(f, sk, l, r) && Permuted(s, Pair(l[0], r[0])) && Permuted(t, Pair(r[16], l[16]))
  }

  ghost predicate Enciphers(f: RoundFunction, sk: Schedule, s: Block, t: Block) {
    exists l, r :: EnciphersBy(f, sk, s, t, l, r)
  }

  lemma InitialPermutes(s: Block)
    ensures Permuted(s, Initial(GetPair(s)))
  {
    GetPairBits(s);
    InitialTable(GetPair(s));
  }

  lemma FinalPermutes(q: Pair)
    ensures Permuted(PutPair(Final(q)), q)
  {
    GetPut(Final(q));
    InitialUndoes(q);
    InitialPermutes(PutPair(Final(q)));
  }

  lemma RoundAt(f: RoundFunction, sk: Schedule, p: Pair, i: nat)
    requires i < 16
    ensures Rounds(f, sk, i + 1, p).x == Rounds(f, sk, i, p).y
    ensures Rounds(f, sk, i + 1, p).y == Rounds(f, sk, i, p).x ^ f(sk[2 * i], sk[2 * i + 1], Rounds(f, sk, i, p).y)
  {
  }

  lemma RoundsSixteen(f: RoundFunction, sk: Schedule, p: Pair) returns (l: seq<word>, r: seq<word>)
    ensures Sixteen(f, sk, l, r) && Pair(l[0], r[0]) == p && Pair(l[16], r[16]) == Rounds(f, sk, 16, p)
  {
    l := seq(17, k requires 0 <= k < 17 => Rounds(f, sk, k, p).x);
    r := seq(17, k requires 0 <= k < 17 => Rounds(f, sk, k, p).y);
    forall i: nat | i < 16 ensures l[i + 1] == r[i] && r[i + 1] == l[i] ^ f(sk[2 * i], sk[2 * i + 1], r[i]) {
      RoundAt(f, sk, p, i);
    }
  }

  /** `des_crypt` is the cipher of FIPS 46-3, over its round function. */
  lemma CryptEnciphers(f: RoundFunction, sk: Schedule, s: Block)
    ensures Enciphers(f, sk, s, Crypt(f, sk, s))
  {
    var l, r := RoundsSixteen(f, sk, Initial(GetPair(s)));
    InitialPermutes(s);
    FinalPermutes(Pair(r[16], l[16]));
    assert EnciphersBy(f, sk, s, Crypt(f, sk, s), l, r);
  }

  /** The six bits of a half that table E of FIPS 46-3 gives to one of the tables. */
  function SixBits(w: word, a: nat, b: nat, c: nat, d: nat, e: nat, f: nat): word
    requires 1 <= a <= 32 && 1 <= b <= 32 && 1 <= c <= 32 && 1 <= d <= 32 && 1 <= e <= 32 && 1 <= f <= 32
  {
    (HalfBit(w, a) << 5) | (HalfBit(w, b) << 4) | (HalfBit(w, c) << 3) | (HalfBit(w, d) << 2)
    | (HalfBit(w, e) << 1) | HalfBit(w, f)
  }

  /** The numbers with which the eight tables are entered: six bits of the expanded half, added to six of the key. */
  predicate Entries(k1: word, k2: word, x: word, i1: word, i2: word, i3: word, i4: word,
                    i5: word, i6: word, i7: word, i8: word) {
    && i1 == ((k2 >> 24) & 0x3F) ^ SixBits(x, 32, 1, 2, 3, 4, 5)
    && i2 == ((k1 >> 24) & 0x3F) ^ SixBits(x, 4, 5, 6, 7, 8, 9)
    && i3 == ((k2 >> 16) & 0x3F) ^ SixBits(x, 8, 9, 10, 11, 12, 13)
    && i4 == ((k1 >> 16) & 0x3F) ^ SixBits(x, 12, 13, 14, 15, 16, 17)
    && i5 == ((k2 >> 8) & 0x3F) ^ SixBits(x, 16, 17, 18, 19, 20, 21)
    && i6 == ((k1 >> 8) & 0x3F) ^ SixBits(x, 20, 21, 22, 23, 24, 25)
    && i7 == (k2 & 0x3F) ^ SixBits(x, 24, 25, 26, 27, 28, 29)
    && i8 == (k1 & 0x3F) ^ SixBits(x, 28, 29, 30, 31, 32, 1)
  }

  /** What the round function of DES takes from its tables. */
  lemma RoundTables(b: Tables, k1: word, k2: word, x: word)
      returns (i1: word, i2: word, i3: word, i4: word, i5: word, i6: word, i7: word, i8: word, even: word, odd: word)
    ensures Entries(k1, k2, x, i1, i2, i3, i4, i5, i6, i7, i8) && DesRound(b)(k1, k2, x) == even ^ odd
    ensures even == b.sb8(i8) ^ b.sb6(i6) ^ b.sb4(i4) ^ b.sb2(i2)
    ensures odd == b.sb7(i7) ^ b.sb5(i5) ^ b.sb3(i3) ^ b.sb1(i1)
  {
    i1, i2, i3, i4, i5, i6, i7, i8, even, odd := RoundEntries(b, k1, k2, x);
    FirstTables(k1, x);
    SecondTables(k2, x);
  }

  lemma RoundEntries(b: Tables, k1: word, k2: word, x: word)
      returns (i1: word, i2: word, i3: word, i4: word, i5: word, i6: word, i7: word, i8: word, even: word, odd: word)
    ensures i8 == (k1 ^ x) & 0x3F && i6 == ((k1 ^ x) >> 8) & 0x3F
    ensures i4 == ((k1 ^ x) >> 16) & 0x3F && i2 == ((k1 ^ x) >> 24) & 0x3F
    ensures var u := k2 ^ ((x << 28) | (x >> 4));
      i7 == u & 0x3F && i5 == (u >> 8) & 0x3F && i3 == (u >> 16) & 0x3F && i1 == (u >> 24) & 0x3F
    ensures DesRound(b)(k1, k2, x) == even ^ odd
    ensures even == b.sb8(i8) ^ b.sb6(i6) ^ b.sb4(i4) ^ b.sb2(i2)
    ensures odd == b.sb7(i7) ^ b.sb5(i5) ^ b.sb3(i3) ^ b.sb1(i1)
  {
    i8, i6, i4, i2, even := FourTables(b.sb8, b.sb6, b.sb4, b.sb2, k1 ^ x);
    i7, i5, i3, i1, odd := FourTables(b.sb7, b.sb5, b.sb3, b.sb1, k2 ^ ((x << 28) | (x >> 4)));
    RoundSum(b, k1, k2, x, even, odd);
  }

  lemma RoundSum(b: Tables, k1: word, k2: word, x: word, even: word, odd: word)
    requires even == Four(b.sb8, b.sb6, b.sb4, b.sb2, k1 ^ x)
    requires odd == Four(b.sb7, b.sb5, b.sb3, b.sb1, k2 ^ ((x << 28) | (x >> 4)))
    ensures DesRound(b)(k1, k2, x) == even ^ odd
  {
  }

  lemma FourTables(f: word -> word, g: word -> word, h: word -> word, k: word -> word, t: word)
      returns (a: word, b: word, c: word, d: word, all: word)
    ensures a == t & 0x3F && b == (t >> 8) & 0x3F && c == (t >> 16) & 0x3F && d == (t >> 24) & 0x3F
    ensures all == Four(f, g, h, k, t) == f(a) ^ g(b) ^ h(c) ^ k(d)
  {
    a, b, c, d := t & 0x3F, (t >> 8) & 0x3F, (t >> 16) & 0x3F, (t >> 24) & 0x3F;
    all := f(a) ^ g(b) ^ h(c) ^ k(d);
  }

  lemma FirstTables(k: word, x: word)
    ensures (k ^ x) & 0x3F == (k & 0x3F) ^ SixBits(x, 28, 29, 30, 31, 32, 1)
    ensures ((k ^ x) >> 8) & 0x3F == ((k >> 8) & 0x3F) ^ SixBits(x, 20, 21, 22, 23, 24, 25)
    ensures ((k ^ x) >> 16) & 0x3F == ((k >> 16) & 0x3F) ^ SixBits(x, 12, 13, 14, 15, 16, 17)
    ensures ((k ^ x) >> 24) & 0x3F == ((k >> 24) & 0x3F) ^ SixBits(x, 4, 5, 6, 7, 8, 9)
  {
  }

  lemma SecondTables(k: word, x: word)
    ensures var u := k ^ ((x << 28) | (x >> 4));
      && u & 0x3F == (k & 0x3F) ^ SixBits(x, 24, 25, 26, 27, 28, 29)
      && (u >> 8) & 0x3F == ((k >> 8) & 0x3F) ^ SixBits(x, 16, 17, 18, 19, 20, 21)
      && (u >> 16) & 0x3F == ((k >> 16) & 0x3F) ^ SixBits(x, 8, 9, 10, 11, 12, 13)
      && (u >> 24) & 0x3F == ((k >> 24) & 0x3F) ^ SixBits(x, 32, 1, 2, 3, 4, 5)
  {
  }

  // ----- padding

  datatype Mode = Iso7816 | Pkcs7

  /** 8 - offset, as the byte that the PKCS#7 padding repeats. */
  function CountByte(n: nat): bv8
    requires 1 <= n <= 8
  {
    if n == 1 then 1 else if n == 2 then 2 else if n == 3 then 3 else if n == 4 then 4
    else if n == 5 then 5 else if n == 6 then 6 else if n == 7 then 7 else 8
  }

  lemma CountByteValue(n: nat)
    requires 1 <= n <= 8
    ensures CountByte(n) as nat == n
  {
  }

  /** The `n` bytes of padding. */
  function Padding(mode: Mode, n: nat): seq<bv8>
    requires 1 <= n <= 8
  {
    match mode
    case Iso7816 => [0x80] + seq(n - 1, i => 0)
    case Pkcs7 => seq(n, i => CountByte(n))
  }

  /** The two paddings, byte by byte. */
  lemma PaddingBytes(mode: Mode, n: nat, k: nat)
    requires k < n <= 8
    ensures Padding(mode, n)[k] as nat == if mode.Pkcs7? then n else if k == 0 then 128 else 0
  {
    CountByteValue(n);
    assert 0x80 as bv8 as nat == 128 && 0 as bv8 as nat == 0;
  }

  /** The last `n` bytes are padding. */
  predicate EndsPadded(s: seq<bv8>, mode: Mode, n: nat) {
    1 <= n <= 8 && n <= |s| && s[|s| - n..] == Padding(mode, n)
  }

  /** `padding_remove_iso7816_4`: how many bytes at the end are a 0x80 and zeros, or 0. */
  method RemoveIso7816(s: seq<bv8>) returns (padding: nat)
    requires |s| >= 8
    ensures padding == 0 || EndsPadded(s, Iso7816, padding)
    ensures forall n | EndsPadded(s, Iso7816, n) :: padding == n
  {
    padding := 1;
    var i := 0;
    while i < 8
      invariant 0 <= i <= 8 && padding == i + 1
      invariant forall k | |s| - i <= k < |s| :: s[k] == 0
    {
      var c := s[|s| - 1 - i];
      if c == 0 {
        padding := padding + 1;
      } else if c == 0x80 {
        forall n | EndsPadded(s, Iso7816, n) ensures n == padding {
          IsoAt(s, n);
        }
        return;
      } else {
        break;
      }
      i := i + 1;
    }
    forall n | EndsPadded(s, Iso7816, n) ensures false {
      IsoAt(s, n);
    }
    padding := 0;
  }

  lemma IsoAt(s: seq<bv8>, n: nat)
    requires EndsPadded(s, Iso7816, n)
    ensures s[|s| - n] == 0x80 && forall k | |s| - n < k < |s| :: s[k] == 0
  {
    var tail := s[|s| - n..];
    assert tail[0] == 0x80;
    forall k | |s| - n < k < |s| ensures s[k] == 0 {
      assert tail[k - (|s| - n)] == 0;
    }
  }

  /** The comparison of `padding_remove_pkcs7` goes on to before the first byte: all bytes are the same, and
      they ask for more of them than there are. */
  predicate Overruns(s: seq<bv8>)
    requires s != []
  {
    var last := s[|s| - 1];
    last as nat > |s| && forall k | 0 <= k < |s| :: s[k] == last
  }

  /** What removing a padding comes to, if it does not read from before the text. */
  datatype Removal = Removed(padding: nat) | Outside

  /** `padding_remove_pkcs7`: the number that the last byte stands for, if it is repeated that often at the
      end, or 0. */
  method RemovePkcs7(s: seq<bv8>) returns (r: Removal)
    requires |s| >= 8
    ensures r.Outside? <==> Overruns(s)
    ensures r.Removed? ==> r.padding == 0 || r.padding > 8 || EndsPadded(s, Pkcs7, r.padding)
    ensures r.Removed? ==> r.padding == 0 || r.padding == s[|s| - 1] as nat
    ensures forall n | EndsPadded(s, Pkcs7, n) :: r == Removed(n)
  {
    var last := s[|s| - 1];
    var padding := last as nat;
    forall n: nat | EndsPadded(s, Pkcs7, n) ensures n == padding && forall k | |s| - n <= k < |s| :: s[k] == last {
      PkcsAt(s, n);
    }
    var i := 1;
    while i < padding
      invariant 1 <= i <= |s| && (i <= padding || padding == 0)
      invariant forall k | |s| - i <= k < |s| :: s[k] == last
    {
      if i == |s| {
        return Outside;
      }
      if s[|s| - 1 - i] != last {
        return Removed(0);
      }
      i := i + 1;
    }
    if 0 < padding <= 8 {
      PkcsFound(s, padding);
    }
    r := Removed(padding);
  }

  lemma PkcsAt(s: seq<bv8>, n: nat)
    requires EndsPadded(s, Pkcs7, n)
    ensures s[|s| - 1] as nat == n && forall k | |s| - n <= k < |s| :: s[k] == s[|s| - 1]
  {
    var tail := s[|s| - n..];
    CountByteValue(n);
    forall k | |s| - n <= k < |s| ensures s[k] == CountByte(n) {
      assert tail[k - (|s| - n)] == CountByte(n);
    }
  }

  lemma SameByte(a: bv8, b: bv8)
    ensures a as nat == b as nat ==> a == b
  {
    if a as nat == b as nat {
      assert a == (a as nat) as bv8 && b == (b as nat) as bv8;
    }
  }

  lemma PkcsFound(s: seq<bv8>, n: nat)
    requires 1 <= n <= 8 <= |s| && s[|s| - 1] as nat == n
    requires forall k | |s| - n <= k < |s| :: s[k] == s[|s| - 1]
    ensures EndsPadded(s, Pkcs7, n)
  {
    CountByteValue(n);
    SameByte(s[|s| - 1], CountByte(n));
    assert s[|s| - n..] == Padding(Pkcs7, n);
  }

  /** `remove_padding`. */
  method RemovePadding(s: seq<bv8>, mode: Mode) returns (r: Removal)
    requires |s| >= 8
    ensures r.Outside? <==> mode.Pkcs7? && Overruns(s)
    ensures r.Removed? ==> r.padding == 0 || r.padding > 8 || EndsPadded(s, mode, r.padding)
    ensures forall n | EndsPadded(s, mode, n) :: r == Removed(n)
  {
    match mode {
      case Iso7816 =>
        var padding := RemoveIso7816(s);
        r := Removed(padding);
      case Pkcs7 => r := RemovePkcs7(s);
    }
  }

  // ----- texts

  /** `des_crypt` with a schedule. */
  function With(f: RoundFunction, sk: Schedule): Block -> Block {
    s => Crypt(f, sk, s)
  }

  /** The `n` blocks of `s`, each through `g`. */
  function Blocks(g: Block -> Block, s: seq<bv8>, n: nat): (r: seq<bv8>)
    requires |s| == 8 * n
    ensures |r| == |s|
  {
    if n == 0 then [] else Blocks(g, s[..8 * n - 8], n - 1) + g(s[8 * n - 8..])
  }

  lemma {:induction false} BlocksBack(g: Block -> Block, h: Block -> Block, s: seq<bv8>, n: nat)
    requires |s| == 8 * n && forall b :: h(g(b)) == b
    ensures Blocks(h, Blocks(g, s, n), n) == s
  {
    if n > 0 {
      var a, b := s[..8 * n - 8], s[8 * n - 8..];
      var r := Blocks(g, s, n);
      assert r[..8 * n - 8] == Blocks(g, a, n - 1) && r[8 * n - 8..] == g(b);
      BlocksBack(g, h, a, n - 1);
      assert s == a + b;
    }
  }

  lemma BlocksNext(g: Block -> Block, s: seq<bv8>, n: nat)
    requires 8 * n + 8 <= |s|
    ensures Blocks(g, s[..8 * n + 8], n + 1) == Blocks(g, s[..8 * n], n) + g(s[8 * n..8 * n + 8])
  {
    var t := s[..8 * n + 8];
    assert t[..8 * n] == s[..8 * n] && t[8 * n..] == s[8 * n..8 * n + 8];
  }

  lemma CryptedBack(f: RoundFunction, sk: Schedule, s: seq<bv8>, n: nat)
    requires |s| == 8 * n
    ensures Blocks(With(f, Reversed(sk)), Blocks(With(f, sk), s, n), n) == s
  {
    forall b: Block ensures With(f, Reversed(sk))(With(f, sk)(b)) == b {
      CryptBack(f, sk, b);
    }
    BlocksBack(With(f, sk), With(f, Reversed(sk)), s, n);
  }

  /** How many blocks a text of `n` bytes has with its padding. */
  function PaddedBlocks(n: nat): (b: nat)
    ensures 8 * b - 8 <= n < 8 * b
  {
    n / 8 + 1
  }

  function Padded(text: seq<bv8>, mode: Mode): (r: seq<bv8>)
    ensures |r| == 8 * PaddedBlocks(|text|)
  {
    text + Padding(mode, 8 * PaddedBlocks(|text|) - |text|)
  }

  lemma BlocksJoin(g: Block -> Block, a: seq<bv8>, n: nat, b: seq<bv8>, s: seq<bv8>)
    requires |a| == 8 * n && |b| == 8 && s == a + b
    ensures |s| == 8 * (n + 1) && Blocks(g, s, n + 1) == Blocks(g, a, n) + g(b)
  {
    assert s[..8 * n] == a && s[8 * n..] == b;
  }

  lemma Resplit(s: seq<bv8>, t: seq<bv8>, k: nat)
    requires k <= |s|
    ensures s + t == s[..k] + (s[k..] + t)
  {
  }

  lemma OneMore(t: nat, n: nat)
    requires 8 * n <= t < 8 * n + 8
    ensures PaddedBlocks(t) == n + 1
  {
  }

  lemma LastBlock(g: Block -> Block, text: seq<bv8>, mode: Mode, n: nat)
    requires 8 * n <= |text| < 8 * n + 8
    ensures PaddedBlocks(|text|) == n + 1
    ensures Blocks(g, Padded(text, mode), n + 1)
            == Blocks(g, text[..8 * n], n) + g(text[8 * n..] + Padding(mode, 8 - (|text| - 8 * n)))
  {
    OneMore(|text|, n);
    var pad := Padding(mode, 8 - (|text| - 8 * n));
    Resplit(text, pad, 8 * n);
    BlocksJoin(g, text[..8 * n], n, text[8 * n..] + pad, text + pad);
  }

  /** `OutOfBounds`: the answer depends on what is in memory before the decrypted text. */
  datatype Answer = Text(value: seq<bv8>) | Invalid | OutOfBounds

  /** The loop over whole blocks that encoding and decoding share. */
  method EachBlock(desCrypt: Block -> Block, text: seq<bv8>) returns (buffer: seq<bv8>, i: nat, ghost n: nat)
    ensures i == 8 * n && i <= |text| < i + 8 && buffer == Blocks(desCrypt, text[..i], n)
  {
    buffer, i, n := [], 0, 0;
    while i + 7 < |text|
      invariant i == 8 * n && i <= |text| && buffer == Blocks(desCrypt, text[..i], n)
    {
      BlocksNext(desCrypt, text, n);
      buffer := buffer + desCrypt(text[i..i + 8]);
      i := i + 8;
      n := n + 1;
    }
  }

  /** Block by block, `buffer` is what the cipher of FIPS 46-3 makes of `text`. */
  ghost predicate Enciphered(f: RoundFunction, sk: Schedule, text: seq<bv8>, buffer: seq<bv8>) {
    |text| == |buffer| &&
    forall i: nat | 8 * i + 8 <= |text| :: Enciphers(f, sk, text[8 * i..8 * i + 8], buffer[8 * i..8 * i + 8])
  }

  lemma Within(s: seq<bv8>, a: seq<bv8>, b: seq<bv8>, i: nat)
    requires s == a + b && 8 * i + 8 <= |a|
    ensures s[8 * i..8 * i + 8] == a[8 * i..8 * i + 8]
  {
  }

  lemma AtEnd(s: seq<bv8>, a: seq<bv8>, b: seq<bv8>)
    requires s == a + b && |b| == 8
    ensures s[|a|..|a| + 8] == b
  {
  }

  lemma {:induction false} BlockOf(g: Block -> Block, s: seq<bv8>, n: nat, i: nat)
    requires |s| == 8 * n && i < n
    ensures Blocks(g, s, n)[8 * i..8 * i + 8] == g(s[8 * i..8 * i + 8])
  {
    var a, b := s[..8 * n - 8], s[8 * n - 8..];
    if i < n - 1 {
      BlockOf(g, a, n - 1, i);
      Within(Blocks(g, s, n), Blocks(g, a, n - 1), g(b), i);
      Within(s, a, b, i);
    } else {
      AtEnd(Blocks(g, s, n), Blocks(g, a, n - 1), g(b));
      AtEnd(s, a, b);
    }
  }

  lemma CryptIs(f: RoundFunction, sk: Schedule, s: Block, t: Block)
    requires t == With(f, sk)(s)
    ensures Enciphers(f, sk, s, t)
  {
    CryptEnciphers(f, sk, s);
  }

  lemma BlocksEnciphered(f: RoundFunction, sk: Schedule, s: seq<bv8>, n: nat)
    requires |s| == 8 * n
    ensures Enciphered(f, sk, s, Blocks(With(f, sk), s, n))
  {
    forall i: nat | i < n
      ensures Enciphers(f, sk, s[8 * i..8 * i + 8], Blocks(With(f, sk), s, n)[8 * i..8 * i + 8])
    {
      BlockOf(With(f, sk), s, n, i);
      CryptIs(f, sk, s[8 * i..8 * i + 8], Blocks(With(f, sk), s, n)[8 * i..8 * i + 8]);
    }
  }

  /** `ldesencode` with the schedule of the key. */
  method Encode(f: RoundFunction, sk: Schedule, text: seq<bv8>, mode: Mode) returns (buffer: seq<bv8>)
    ensures Enciphered(f, sk, Padded(text, mode), buffer)
    ensures buffer == Blocks(With(f, sk), Padded(text, mode), PaddedBlocks(|text|))
  {
    buffer := EncodeWith(With(f, sk), text, mode);
    BlocksEnciphered(f, sk, Padded(text, mode), PaddedBlocks(|text|));
  }

  /** The rest of it, for any way to encrypt a block. */
  method EncodeWith(desCrypt: Block -> Block, text: seq<bv8>, mode: Mode) returns (buffer: seq<bv8>)
    ensures buffer == Blocks(desCrypt, Padded(text, mode), PaddedBlocks(|text|))
  {
    var i: nat;
    ghost var n;
    buffer, i, n := EachBlock(desCrypt, text);
    LastBlock(desCrypt, text, mode, n);
    buffer := buffer + desCrypt(text[i..] + Padding(mode, 8 - (|text| - i)));
  }

  /** The loop that turns the schedule round. */
  method ReverseSchedule(esk: Schedule) returns (sk: seq<word>)
    ensures sk == Reversed(esk)
  {
    sk := seq(32, i => 0);
    var i := 0;
    while i < 32
      invariant i <= 32 && i % 2 == 0 && |sk| == 32
      invariant forall k | 0 <= k < i :: sk[k] == Reversed(esk)[k]
    {
      sk := sk[i := esk[30 - i]][i + 1 := esk[31 - i]];
      i := i + 2;
    }
  }

  /** What decoding a text to `s` comes to: the text before the padding, if there is one. */
  ghost predicate Unpads(s: seq<bv8>, mode: Mode, r: Answer)
    requires s != []
  {
    && (forall n | EndsPadded(s, mode, n) :: r == Text(s[..|s| - n]))
    && ((forall n :: !EndsPadded(s, mode, n)) ==>
          r == if mode.Pkcs7? && Overruns(s) then OutOfBounds else Invalid)
  }

  /** What decoding `text` is to answer, block by block through `g`. */
  ghost predicate Decodes(g: Block -> Block, text: seq<bv8>, mode: Mode, r: Answer) {
    if |text| % 8 != 0 || text == [] then r == Invalid
    else Unpads(Blocks(g, text, |text| / 8), mode, r)
  }

  /** `ldesdecode`: the text before the padding, if the length and the padding are right. */
  method Decode(f: RoundFunction, esk: Schedule, text: seq<bv8>, mode: Mode) returns (r: Answer)
    ensures Decodes(With(f, Reversed(esk)), text, mode, r)
  {
    var sk := ReverseSchedule(esk);
    r := DecodeText(With(f, sk), text, mode);
  }

  method DecodeText(desCrypt: Block -> Block, text: seq<bv8>, mode: Mode) returns (r: Answer)
    ensures Decodes(desCrypt, text, mode, r)
  {
    if |text| % 8 != 0 || |text| == 0 {
      return Invalid;
    }
    r := DecodeWith(desCrypt, text, mode, |text| / 8);
  }

  lemma NoPaddingInside(s: seq<bv8>)
    requires |s| >= 8 && Overruns(s)
    ensures forall n :: !EndsPadded(s, Pkcs7, n)
  {
    forall n ensures !EndsPadded(s, Pkcs7, n) {
      if EndsPadded(s, Pkcs7, n) {
        PkcsAt(s, n);
      }
    }
  }

  /** The end of the decoder, on the decrypted text. */
  method Unpad(buffer: seq<bv8>, mode: Mode) returns (r: Answer)
    requires |buffer| >= 8
    ensures Unpads(buffer, mode, r)
  {
    var removal := RemovePadding(buffer, mode);
    if removal.Outside? {
      NoPaddingInside(buffer);
      return OutOfBounds;
    }
    if removal.padding <= 0 || removal.padding > 8 {
      return Invalid;
    }
    r := Text(buffer[..|buffer| - removal.padding]);
  }

  method WholeBlocks(desCrypt: Block -> Block, text: seq<bv8>, ghost n: nat) returns (buffer: seq<bv8>)
    requires |text| == 8 * n
    ensures buffer == Blocks(desCrypt, text, n)
  {
    var i;
    ghost var k;
    buffer, i, k := EachBlock(desCrypt, text);
    assert text[..i] == text;
  }

  /** The rest of it, for any way to decrypt a block. */
  method DecodeWith(desCrypt: Block -> Block, text: seq<bv8>, mode: Mode, ghost n: nat) returns (r: Answer)
    requires |text| == 8 * n && n > 0
    ensures Unpads(Blocks(desCrypt, text, n), mode, r)
  {
    var buffer := WholeBlocks(desCrypt, text, n);
    r := Unpad(buffer, mode);
  }

  /** Decoding an encoded text gives it back, for every text, schedule, padding and round function. */
  method RoundTrip(f: RoundFunction, sk: Schedule, text: seq<bv8>, mode: Mode) returns (r: Answer)
    ensures r == Text(text)
  {
    var coded := Encode(f, sk, text, mode);
    r := Decode(f, sk, coded, mode);
    CryptedBack(f, sk, Padded(text, mode), PaddedBlocks(|text|));
    PaddedBack(With(f, Reversed(sk)), coded, text, mode, r);
  }

  /** So for DES itself, whatever is in its eight tables. */
  method DesRoundTrip(b: Tables, sk: Schedule, text: seq<bv8>, mode: Mode) returns (r: Answer)
    ensures r == Text(text)
  {
    r := RoundTrip(DesRound(b), sk, text, mode);
  }

  /** For every key there is a text of one block whose decoding reads from before the decrypted text. */
  method DecodeOutside(f: RoundFunction, sk: Schedule) returns (r: Answer)
    ensures r == OutOfBounds
  {
    var s: Block := seq(8, i => 0xFF);
    var coded := Crypt(f, sk, s);
    r := Decode(f, sk, coded, Pkcs7);
    CryptBack(f, sk, s);
    OneBlock(With(f, Reversed(sk)), coded);
    FullBlock(s);
  }

  lemma OneBlock(g: Block -> Block, s: Block)
    ensures Blocks(g, s, 1) == g(s)
  {
    assert s[..0] == [] && s[0..] == s;
    assert Blocks(g, s[..0], 0) == [];
  }

  lemma FullBlock(s: Block)
    requires s == seq(8, i => 0xFF)
    ensures Overruns(s) && forall n :: !EndsPadded(s, Pkcs7, n)
  {
    assert 0xFF as bv8 as nat == 255;
    NoPaddingInside(s);
  }

  lemma Eighth(n: nat)
    ensures 8 * n / 8 == n && 8 * n % 8 == 0
  {
  }

  lemma PaddedBack(g: Block -> Block, coded: seq<bv8>, text: seq<bv8>, mode: Mode, r: Answer)
    requires Decodes(g, coded, mode, r) && |coded| == 8 * PaddedBlocks(|text|)
    requires Blocks(g, coded, PaddedBlocks(|text|)) == Padded(text, mode)
    ensures r == Text(text)
  {
    var s, n := Padded(text, mode), 8 * PaddedBlocks(|text|) - |text|;
    Eighth(PaddedBlocks(|text|));
    assert s[|text|..] == Padding(mode, n) && s[..|text|] == text;
    assert EndsPadded(s, mode, n);
  }
}
