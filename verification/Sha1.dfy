/** The streaming side of SHA-1: splitting a message into blocks, counting its bits and padding it.
  The transformation of one block is arbitrary. */
module Sha1 {
  import opened Bytes
  import opened Seqs

  const LOW: nat := 0x1_0000_0000

  type uint32 = x: nat | x < 0x1_0000_0000 witness 0
  type Words = s: seq<uint32> | |s| == 5 witness [0, 0, 0, 0, 0]
  type Block = s: seq<byte> | |s| == 64 witness seq(64, i => 0)
  type Transform = (Words, Block) -> Words

  const INIT: Words := [0x67452301, 0xEFCDAB89, 0x98BADCFE, 0x10325476, 0xC3D2E1F0]

  // ----- the reference: the whole message, block by block

  /** The state after the `n` blocks of `m`. */
  function Chain(f: Transform, m: seq<byte>, n: nat): Words
    requires |m| == 64 * n
  {
    if n == 0 then INIT else f(Chain(f, m[..64 * n - 64], n - 1), m[64 * n - 64..])
  }

  lemma ChainNext(f: Transform, m: seq<byte>, n: nat, b: seq<byte>)
    requires |m| == 64 * n && |b| == 64
    ensures Chain(f, m + b, n + 1) == f(Chain(f, m, n), b)
  {
    assert (m + b)[..|m|] == m && (m + b)[|m|..] == b;
  }

  lemma BlockNext(f: Transform, fed: seq<byte>, data: seq<byte>, i: nat, n: nat)
    requires i + 64 <= |data| && |fed| + i == 64 * n
    ensures Chain(f, fed + data[..i + 64], n + 1) == f(Chain(f, fed + data[..i], n), data[i..i + 64])
  {
    ChainNext(f, fed + data[..i], n, data[i..i + 64]);
    assert fed + data[..i] + data[i..i + 64] == fed + data[..i + 64];
  }

  lemma ChainJoin(f: Transform, m: seq<byte>, n: nat, b: seq<byte>, whole: seq<byte>)
    requires |m| == 64 * n && |b| == 64 && whole == m + b
    ensures |whole| == 64 * (n + 1) && Chain(f, whole, n + 1) == f(Chain(f, m, n), b)
  {
    ChainNext(f, m, n, b);
  }

  lemma Rejoin(fed: seq<byte>, part: seq<byte>, k: nat)
    requires k <= |fed|
    ensures fed + part == fed[..k] + (fed[k..] + part)
  {
  }

  function BigEndian(n: nat, x: nat): (r: seq<byte>)
    ensures |r| == n
  {
    if n == 0 then [] else BigEndian(n - 1, x / 256) + [x % 256]
  }

  /** How many blocks a message of `n` bytes has with its padding: 9 more bytes have to fit. */
  function Blocks(n: nat): (b: nat)
    ensures n + 9 <= 64 * b < n + 73
  {
    if n % 64 < 56 then n / 64 + 1 else n / 64 + 2
  }

  /** How many zeros follow the 0x80, to 8 bytes short of a whole block. */
  function Zeros(n: nat): nat {
    64 * Blocks(n) - n - 9
  }

  /** What follows a message of `n` bytes whose length is said to be `bits`. */
  function Tail(n: nat, bits: nat): (r: seq<byte>)
    ensures n + |r| == 64 * Blocks(n)
  {
    [0x80] + seq(Zeros(n), i => 0) + BigEndian(8, bits)
  }

  /** The padded message of section 5.1.1 of FIPS 180-4. */
  function Padded(m: seq<byte>): seq<byte> {
    m + Tail(|m|, 8 * |m|)
  }

  function DigestOf(w: Words): seq<byte> {
    BigEndian(4, w[0]) + BigEndian(4, w[1]) + BigEndian(4, w[2]) + BigEndian(4, w[3]) + BigEndian(4, w[4])
  }

  /** The low word of the bit count of `n` bytes. */
  function LowBits(n: nat): uint32 {
    (8 * n) % LOW
  }

  /** A count cut to 64 bits. */
  function Wrap(x: nat): nat {
    x % (LOW * LOW)
  }

  /** What the carry between the words of the count adds too much: one, for a length that does not fit 29
      bits, unless the low word overflows anyway. */
  function Excess(low: uint32, len: nat): nat {
    if len < 0x2000_0000 || low + (8 * len) % LOW >= LOW then 0 else LOW
  }

  /** The count of bits is right if and only if nothing was added too much. */
  lemma CountRightIff(total: nat, low: uint32, len: nat)
    ensures Wrap(total + 8 * len + Excess(low, len)) == Wrap(total + 8 * len)
            <==> len < 0x2000_0000 || low + (8 * len) % LOW >= LOW
  {
    var x := total + 8 * len;
    var q, m := x / (LOW * LOW), x % (LOW * LOW);
    if m + LOW < LOW * LOW {
      DivideWide(x + LOW, q, m + LOW);
    } else {
      DivideWide(x + LOW, q + 1, m + LOW - LOW * LOW);
    }
  }

  /** `SHA1_CTX`. `fed` is all that was fed in since it was set up. */
  class Context {
    const transform: Transform
    const buffer: array<byte>
    var state: Words
    var low: uint32
    var high: uint32
    ghost var fed: seq<byte>
    /** How many blocks were transformed. */
    ghost var blocks: nat

    ghost predicate Valid()
      reads this, buffer
    {
      && buffer.Length == 64 && Held() && low == LowBits(|fed|)
    }

    /** The whole blocks of `fed` are in the state, the rest is in the buffer. */
    ghost predicate Held()
      requires buffer.Length == 64
      reads `fed, `blocks, `state, buffer
    {
      && 64 * blocks <= |fed| < 64 * blocks + 64
      && state == Chain(transform, fed[..64 * blocks], blocks)
      && buffer[..|fed| - 64 * blocks] == fed[64 * blocks..]
    }

    /** The bit count, in 64 bits. */
    function Total(): nat
      reads this
    {
      high * LOW + low
    }

    constructor (transform: Transform)
      ensures Valid() && fed == [] && Total() == 0 && low == 0 && this.transform == transform && fresh(buffer)
    {
      this.transform := transform;
      buffer := new byte[64];
      state := INIT;
      low, high := 0, 0;
      fed, blocks := [], 0;
    }

    /** Copies `data[i..]` into the buffer from place `j`. */
    method Store(j: nat, data: seq<byte>, i: nat)
      requires buffer.Length == 64 && i <= |data| && j + (|data| - i) <= 64
      modifies buffer
      ensures buffer[..] == old(buffer[..j]) + data[i..] + old(buffer[j + (|data| - i)..])
    {
      forall k | 0 <= k < |data| - i {
        buffer[j + k] := data[i + k];
      }
    }

    /** Counts the bits of `len` bytes. */
    method CountBits(len: nat)
      requires len < 0x2000_0000_0000_0000
      modifies `low, `high
      ensures low == (old(low) + 8 * len) % LOW
      ensures Total() == Wrap(old(Total()) + 8 * len + Excess(old(low), len))
    {
      var bits := 8 * len;
      ghost var h, r := len / 0x2000_0000, len % 0x2000_0000;
      ghost var low0, high0 := low, high;
      Divide(bits, h, 8 * r);
      ghost var c := if low + 8 * r >= LOW then 1 else 0;
      Divide(low + bits, h + c, low + 8 * r - c * LOW);
      low := (low + bits) % LOW;
      if low < bits {
        high := (high + 1) % LOW;
      }
      high := (high + len / 0x2000_0000) % LOW;
      ghost var carry := if low < bits then 1 else 0;
      HighWord(high0, carry, h, high);
      TotalWrapped(high0, low0, h, r, c, carry, low, high);
    }

    /** Where the next byte goes in the buffer. */
    method Place() returns (j: nat)
      requires low == LowBits(|fed|) && 64 * blocks <= |fed| < 64 * blocks + 64
      ensures j == |fed| - 64 * blocks
    {
      Offset(|fed|, blocks);
      j := low / 8 % 64;
    }

    method Count(len: nat)
      requires low == LowBits(|fed|) && len < 0x2000_0000_0000_0000
      modifies `low, `high
      ensures low == LowBits(|fed| + len)
      ensures Total() == Wrap(old(Total()) + 8 * len + Excess(old(low), len))
    {
      LowCount(|fed|, len);
      CountBits(len);
    }

    /** Transforms the blocks that `data` completes; the bytes from `i` on are to go to place `to`. */
    method Absorb(j: nat, data: seq<byte>) returns (to: nat, i: nat)
      requires buffer.Length == 64 && Held() && j == |fed| - 64 * blocks
      modifies `state, `blocks, buffer
      ensures i <= |data| && to + (|data| - i) < 64 && 64 * blocks + to + (|data| - i) == |fed| + |data|
      ensures state == Chain(transform, (fed + data)[..64 * blocks], blocks)
      ensures buffer[..to] + data[i..] == (fed + data)[64 * blocks..]
    {
      if j + |data| > 63 {
        i := 64 - j;
        Fill(j, data[..i]);
        state := transform(state, buffer[..]);
        blocks := blocks + 1;
        i := EachBlock(data, i);
        to := 0;
        NewBlocks(fed, data, i);
      } else {
        to, i := j, 0;
        NoNewBlock(fed, data, blocks);
      }
    }

    /** The loop over the whole blocks in `data`. */
    method EachBlock(data: seq<byte>, from: nat) returns (i: nat)
      requires from <= |data| && |fed| + from == 64 * blocks && state == Chain(transform, fed + data[..from], blocks)
      modifies `state, `blocks
      ensures i <= |data| < i + 64 && |fed| + i == 64 * blocks && state == Chain(transform, fed + data[..i], blocks)
    {
      i := from;
      while i + 63 < |data|
        invariant i <= |data| && |fed| + i == 64 * blocks && state == Chain(transform, fed + data[..i], blocks)
      {
        BlockNext(transform, fed, data, i, blocks);
        state := transform(state, data[i..i + 64]);
        i := i + 64;
        blocks := blocks + 1;
      }
    }

    /** Completes the block in the buffer. */
    method Fill(j: nat, part: seq<byte>)
      requires buffer.Length == 64 && Held() && j == |fed| - 64 * blocks && |part| == 64 - j
      modifies buffer
      ensures transform(state, buffer[..]) == Chain(transform, fed + part, blocks + 1)
    {
      Store(j, part, 0);
      assert buffer[..] == fed[64 * blocks..] + part;
      Rejoin(fed, part, 64 * blocks);
      ChainJoin(transform, fed[..64 * blocks], blocks, buffer[..], fed + part);
    }

    /** The blocks that `data` completes are transformed, the rest goes to the buffer. */
    method TakeIn(j0: nat, data: seq<byte>)
      requires buffer.Length == 64 && Held() && j0 == |fed| - 64 * blocks
      modifies `state, `blocks, `fed, buffer
      ensures Held() && fed == old(fed) + data
    {
      var j, i := Absorb(j0, data);
      Store(j, data, i);
      fed := fed + data;
    }

    /** `sat_SHA1_Update`. State and buffer are right for every length, the bit count up to `Excess`. */
    method Update(data: seq<byte>)
      requires Valid() && |data| < 0x2000_0000_0000_0000
      modifies this, buffer
      ensures Valid() && fed == old(fed) + data
      ensures Total() == Wrap(old(Total()) + 8 * |data| + Excess(old(low), |data|))
    {
      var j := Place();
      Count(|data|);
      TakeIn(j, data);
    }

    /** The byte of a word that is shifted out `3 - k` bytes. */
    static function ByteAt(w: uint32, k: nat): byte
      requires k < 4
    {
      (if k == 0 then w / 0x100_0000 else if k == 1 then w / 0x1_0000 else if k == 2 then w / 0x100 else w) % 256
    }

    static lemma CountByteAt(high: uint32, low: uint32, i: nat)
      requires i < 8
      ensures var all, w := BigEndian(4, high) + BigEndian(4, low), if i >= 4 then low else high;
        all[..i] + [ByteAt(w, i % 4)] == all[..i + 1]
    {
      ByteInWord(if i >= 4 then low else high, i % 4);
      NextOfBoth(BigEndian(4, high), BigEndian(4, low), i);
    }

    static lemma ByteInWord(w: uint32, k: nat)
      requires k < 4
      ensures BigEndian(4, w)[k] == ByteAt(w, k)
    {
      FourBytes(w);
    }

    static lemma NextOfBoth(a: seq<byte>, b: seq<byte>, i: nat)
      requires |a| == |b| == 4 && i < 8
      ensures (a + b)[..i] + [(if i >= 4 then b else a)[i % 4]] == (a + b)[..i + 1]
    {
      assert (a + b)[i] == (if i >= 4 then b else a)[i % 4];
    }

    method CountInBytes() returns (finalCount: seq<byte>)
      ensures finalCount == BigEndian(8, Total())
    {
      finalCount := [];
      for i := 0 to 8
        invariant finalCount == (BigEndian(4, high) + BigEndian(4, low))[..i]
      {
        CountByteAt(high, low, i);
        finalCount := finalCount + [ByteAt(if i >= 4 then low else high, i % 4)];
      }
      CountBytes(high, low);
    }

    /** Feeds one byte. */
    method Feed(x: byte)
      requires Valid()
      modifies this, buffer
      ensures Valid() && fed == old(fed) + [x] && low / 8 % 64 == |fed| - 64 * blocks
    {
      Update([x]);
      Offset(|fed|, blocks);
    }

    /** The 0x80 and the zeros. */
    method Pad()
      requires Valid()
      modifies this, buffer
      ensures Valid() && fed == old(fed) + ([0x80] + seq(Zeros(|old(fed)|), i => 0))
    {
      ghost var n, message, k := |fed|, fed, 0;
      Feed(0x80);
      assert [0x80] + seq(0, i => 0) == [0x80];
      while low / 8 % 64 != 56
        invariant Valid() && k <= Zeros(n) && fed == message + ([0x80] + seq(k, i => 0))
        invariant low / 8 % 64 == |fed| - 64 * blocks && |fed| == n + 1 + k
        decreases Zeros(n) - k
      {
        MoreToCome(n, k, blocks);
        MoreZeros(message, k);
        Feed(0);
        k := k + 1;
      }
      FewZeros(n, k, blocks);
    }

    /** `sat_SHA1_Final`: what is digested is the message, followed by the padding with the counted bits. */
    method Final() returns (digest: seq<byte>)
      requires Valid()
      modifies this, buffer
      ensures digest == DigestOf(Chain(transform, old(fed) + Tail(|old(fed)|, old(Total())), Blocks(|old(fed)|)))
    {
      ghost var message, total := fed, Total();
      var finalCount := CountInBytes();
      Pad();
      Update(finalCount);
      TailParts(message, total, blocks);
      digest := WriteDigest();
    }

    method WriteDigest() returns (digest: seq<byte>)
      ensures digest == DigestOf(state)
    {
      digest := [];
      for i := 0 to 20
        invariant digest == DigestOf(state)[..i]
      {
        FourBytes(state[i / 4]);
        digest := digest + [ByteAt(state[i / 4], i % 4)];
      }
    }
  }

  /** Quotient and remainder by 2 to the 32, from the parts. */
  lemma Divide(x: nat, q: nat, m: nat)
    requires x == q * LOW + m && m < LOW
    ensures x / LOW == q && x % LOW == m
  {
    var d := x / LOW - q;
    assert LOW * d == m - x % LOW;
  }

  /** Adding in two steps, each cut to 32 bits, is adding at once. */
  lemma HighWord(high0: uint32, carry: nat, h: nat, high: nat)
    requires carry <= 1 && h < LOW
    requires high == ((if carry == 1 then (high0 + 1) % LOW else high0) + h) % LOW
    ensures high == (high0 + carry + h) % LOW
  {
    if carry == 1 && high0 == LOW - 1 {
      Divide(LOW, 1, 0);
      Divide(high0 + carry + h, 1, h);
      Divide(h, 0, h);
    } else if carry == 1 {
      Divide(high0 + 1, 0, high0 + 1);
    }
  }

  lemma TotalWrapped(high0: uint32, low0: uint32, h: nat, r: nat, c: nat, carry: nat, low: uint32, high: uint32)
    requires r < 0x2000_0000 && h < LOW && carry <= 1
    requires c == if low0 + 8 * r >= LOW then 1 else 0
    requires low == low0 + 8 * r - c * LOW && high == (high0 + carry + h) % LOW
    requires carry == if low < 8 * (h * 0x2000_0000 + r) then 1 else 0
    ensures var excess := if h == 0 || c == 1 then 0 else LOW;
            high * LOW + low == Wrap(high0 * LOW + low0 + 8 * (h * 0x2000_0000 + r) + excess)
  {
    var sum := high0 + h + carry;
    var q := if sum < LOW then 0 else if sum < 2 * LOW then 1 else 2;
    Divide(sum, q, sum - q * LOW);
    var excess := if h == 0 || c == 1 then 0 else LOW;
    DivideWide(high0 * LOW + low0 + 8 * (h * 0x2000_0000 + r) + excess, q, (sum - q * LOW) * LOW + low);
  }

  lemma DivideWide(x: nat, q: nat, m: nat)
    requires x == q * (LOW * LOW) + m && m < LOW * LOW
    ensures Wrap(x) == m
  {
    var d := x / (LOW * LOW) - q;
    assert (LOW * LOW) * d == m - x % (LOW * LOW);
  }

  /** The place in the buffer is the number of bytes beyond the last whole block, though the count wraps. */
  lemma Offset(n: nat, blocks: nat)
    requires 64 * blocks <= n < 64 * blocks + 64
    ensures LowBits(n) / 8 % 64 == n - 64 * blocks
  {
    var q := (8 * n) / LOW;
    assert (8 * n) % LOW == 8 * (n - q * 0x2000_0000);
    var m := n - q * 0x2000_0000;
    Rest64(m, blocks - q * 0x80_0000, n - 64 * blocks);
  }

  lemma Rest64(m: nat, q: int, r: nat)
    requires m == 64 * q + r && r < 64
    ensures m % 64 == r
  {
  }

  lemma LowCount(n: nat, len: nat)
    ensures (LowBits(n) + 8 * len) % LOW == LowBits(n + len)
  {
    var q, r := (8 * n) / LOW, (8 * n) % LOW;
    var s, m := (r + 8 * len) / LOW, (r + 8 * len) % LOW;
    Divide(8 * (n + len), q + s, m);
  }

  lemma NewBlocks(fed: seq<byte>, data: seq<byte>, i: nat)
    requires i <= |data|
    ensures (fed + data)[..|fed| + i] == fed + data[..i] && (fed + data)[|fed| + i..] == data[i..]
  {
  }

  lemma NoNewBlock(fed: seq<byte>, data: seq<byte>, blocks: nat)
    requires 64 * blocks <= |fed|
    ensures (fed + data)[..64 * blocks] == fed[..64 * blocks]
    ensures (fed + data)[64 * blocks..] == fed[64 * blocks..] + data
  {
  }

  lemma FourBytes(w: uint32)
    ensures BigEndian(4, w) == [Context.ByteAt(w, 0), Context.ByteAt(w, 1), Context.ByteAt(w, 2), Context.ByteAt(w, 3)]
  {
    var a := w / 256;
    var b := a / 256;
    var c := b / 256;
    assert b == w / 0x1_0000 && c == w / 0x100_0000;
    assert BigEndian(1, c) == [c % 256];
    assert BigEndian(2, b) == [c % 256, b % 256];
    assert BigEndian(3, a) == [c % 256, b % 256, a % 256];
  }

  lemma CountBytes(high: uint32, low: uint32)
    ensures BigEndian(4, high) + BigEndian(4, low) == BigEndian(8, high * LOW + low)
  {
    Pow256s();
    BigEndianSplit(high, low, 4);
  }

  lemma Shifted(high: nat, p: nat)
    ensures high * (256 * p) == 256 * (high * p)
  {
  }

  lemma LastByte(p: nat, low: nat)
    ensures (256 * p + low) / 256 == p + low / 256 && (256 * p + low) % 256 == low % 256
  {
  }

  lemma {:induction false} BigEndianSplit(high: nat, low: nat, n: nat)
    requires low < Pow256(n)
    ensures BigEndian(4 + n, high * Pow256(n) + low) == BigEndian(4, high) + BigEndian(n, low)
  {
    if n > 0 {
      BigEndianSplit(high, low / 256, n - 1);
      var p := high * Pow256(n - 1);
      Shifted(high, Pow256(n - 1));
      LastByte(p, low);
      assert BigEndian(4 + n, 256 * p + low) == BigEndian(3 + n, p + low / 256) + [low % 256];
    } else {
      assert high * 1 == high;
    }
  }

  lemma MoreZeros(message: seq<byte>, k: nat)
    ensures message + ([0x80] + seq(k, i => 0)) + [0] == message + ([0x80] + seq(k + 1, i => 0))
  {
  }

  lemma TailParts(m: seq<byte>, bits: nat, blocks: nat)
    requires var all := m + ([0x80] + seq(Zeros(|m|), i => 0)) + BigEndian(8, bits);
             64 * blocks <= |all| < 64 * blocks + 64
    ensures var all := m + ([0x80] + seq(Zeros(|m|), i => 0)) + BigEndian(8, bits);
            all == m + Tail(|m|, bits) && blocks == Blocks(|m|) && all[..64 * blocks] == all
  {
  }

  lemma MoreToCome(n: nat, k: nat, blocks: nat)
    requires k <= Zeros(n) && 64 * blocks <= n + 1 + k < 64 * blocks + 64 && n + 1 + k != 64 * blocks + 56
    ensures k < Zeros(n)
  {
  }

  /** The loop ends at the first place where 8 bytes are missing to a whole block. */
  lemma FewZeros(n: nat, k: nat, blocks: nat)
    requires k <= Zeros(n) && n + 1 + k == 64 * blocks + 56
    ensures k == Zeros(n)
  {
  }

  /** Feeding two parts one after the other does what feeding both at once is to do: the whole state is
      fixed by what was fed and by the total. */
  method TwoUpdates(c: Context, a: seq<byte>, b: seq<byte>)
    requires c.Valid() && |a| < 0x2000_0000 && |b| < 0x2000_0000
    modifies c, c.buffer
    ensures c.Valid() && c.fed == old(c.fed) + (a + b)
    ensures c.Total() == Wrap(old(c.Total()) + 8 * |a + b|)
  {
    ghost var total, fed := c.Total(), c.fed;
    NoExcess(c.low, |a|);
    c.Update(a);
    NoExcess(c.low, |b|);
    c.Update(b);
    Assoc(fed, a, b);
    CountTwice(total, |a|, |b|);
  }

  lemma NoExcess(low: uint32, len: nat)
    requires len < 0x2000_0000
    ensures Excess(low, len) == 0
  {
  }

  lemma CountTwice(t: nat, m: nat, n: nat)
    ensures Wrap(Wrap(t + 8 * m) + 8 * n) == Wrap(t + 8 * (m + n))
  {
    var x := t + 8 * m;
    var y := x % (LOW * LOW) + 8 * n;
    DivideWide(t + 8 * (m + n), x / (LOW * LOW) + y / (LOW * LOW), y % (LOW * LOW));
  }

  /** Two contexts that were fed the same agree on everything but the dead part of their buffers. */
  lemma SameFed(c: Context, d: Context)
    requires c.Valid() && d.Valid() && c.transform == d.transform && c.fed == d.fed && c.Total() == d.Total()
    ensures c.state == d.state && c.low == d.low && c.high == d.high && c.blocks == d.blocks
    ensures c.buffer[..|c.fed| - 64 * c.blocks] == d.buffer[..|d.fed| - 64 * d.blocks]
  {
    SameWords(c.high, c.low, d.high, d.low);
    assert c.blocks == d.blocks;
  }

  lemma SameWords(high: uint32, low: uint32, high': uint32, low': uint32)
    requires high * LOW + low == high' * LOW + low'
    ensures high == high' && low == low'
  {
  }

  /** The count of bits after one update of a new context. */
  function CountedBits(n: nat): nat {
    Wrap(8 * n + Excess(0, n))
  }

  /** The text as `lsha1` pads it: the length is the count of its bits. */
  function PaddedAsCounted(text: seq<byte>): seq<byte> {
    text + Tail(|text|, CountedBits(|text|))
  }

  // ----- the same in bytes and numbers

  /** The value of bytes, the most significant one first. */
  function BigValue(d: seq<byte>): nat {
    if d == [] then 0 else BigValue(d[..|d| - 1]) * 0x100 + d[|d| - 1]
  }

  /** `m` is the text, a byte 128, as few zeros as make whole blocks, and a count of 64 bits. */
  ghost predicate IsPadded(text: seq<byte>, bits: nat, m: seq<byte>) {
    var n := |text|;
    && |m| % 64 == 0 && n + 9 <= |m| < n + 9 + 64
    && m[..n] == text && m[n] == 128 && (forall k | n < k < |m| - 8 :: m[k] == 0)
    && BigValue(m[|m| - 8..]) == bits
  }

  ghost predicate ShowsWords(w: Words, digest: seq<byte>) {
    |digest| == 20 && forall i: nat | i < 5 :: BigValue(digest[4 * i..4 * i + 4]) == w[i]
  }

  /** The hash values of section 6.1.2 of FIPS 180-4: from the five words of section 5.3.1 on, block by block; the
      digest is the last ones, each as four bytes. */
  ghost predicate HashedBy(f: Transform, m: seq<byte>, h: seq<Words>, digest: seq<byte>) {
    && h != [] && |m| == 64 * (|h| - 1)
    && h[0] == [0x67452301, 0xefcdab89, 0x98badcfe, 0x10325476, 0xc3d2e1f0]
    && (forall i: nat | i + 1 < |h| :: h[i + 1] == f(h[i], m[64 * i..64 * i + 64]))
    && ShowsWords(h[|h| - 1], digest)
  }

  ghost predicate Hashes(f: Transform, m: seq<byte>, digest: seq<byte>) {
    exists h :: HashedBy(f, m, h, digest)
  }

  lemma {:induction false} BigWritten(n: nat, x: nat)
    requires x < Pow256(n)
    ensures BigValue(BigEndian(n, x)) == x
  {
    if n > 0 {
      BigWritten(n - 1, x / 256);
      assert BigEndian(n, x)[..n - 1] == BigEndian(n - 1, x / 256);
    }
  }

  lemma TailPadded(text: seq<byte>, bits: nat)
    requires bits < LOW * LOW
    ensures IsPadded(text, bits, text + Tail(|text|, bits))
  {
    var n, m := |text|, text + Tail(|text|, bits);
    Pow256s();
    BigWritten(8, bits);
    assert m[|m| - 8..] == BigEndian(8, bits);
    assert m[n] == Tail(n, bits)[0];
    forall k | n < k < |m| - 8 ensures m[k] == 0 {
      assert m[k] == Tail(n, bits)[k - n];
    }
  }

  lemma ChainAt(f: Transform, m: seq<byte>, i: nat)
    requires 64 * i + 64 <= |m|
    ensures Chain(f, m[..64 * (i + 1)], i + 1) == f(Chain(f, m[..64 * i], i), m[64 * i..64 * i + 64])
  {
    var p := m[..64 * (i + 1)];
    assert p[..64 * i] == m[..64 * i] && p[64 * i..] == m[64 * i..64 * i + 64];
  }

  lemma DigestWords(w: Words, i: nat)
    requires i < 5
    ensures BigValue(DigestOf(w)[4 * i..4 * i + 4]) == w[i]
  {
    Pow256s();
    BigWritten(4, w[i]);
    assert DigestOf(w)[4 * i..4 * i + 4] == BigEndian(4, w[i]);
  }

  lemma DigestShows(w: Words)
    ensures ShowsWords(w, DigestOf(w))
  {
    forall i: nat | i < 5 ensures BigValue(DigestOf(w)[4 * i..4 * i + 4]) == w[i] {
      DigestWords(w, i);
    }
  }

  lemma ChainValues(f: Transform, m: seq<byte>, n: nat) returns (h: seq<Words>)
    requires |m| == 64 * n
    ensures |h| == n + 1 && h[0] == INIT && h[n] == Chain(f, m, n)
    ensures forall i: nat | i + 1 < |h| :: h[i + 1] == f(h[i], m[64 * i..64 * i + 64])
  {
    h := seq(n + 1, i requires 0 <= i <= n => Chain(f, m[..64 * i], i));
    assert m[..64 * n] == m;
    forall i: nat | i + 1 < |h| ensures h[i + 1] == f(h[i], m[64 * i..64 * i + 64]) {
      ChainAt(f, m, i);
    }
  }

  lemma ChainHashes(f: Transform, m: seq<byte>, n: nat)
    requires |m| == 64 * n
    ensures Hashes(f, m, DigestOf(Chain(f, m, n)))
  {
    var h := ChainValues(f, m, n);
    DigestShows(h[n]);
    assert HashedBy(f, m, h, DigestOf(Chain(f, m, n)));
  }

  /** `lsha1`. */
  method Sha1(transform: Transform, text: seq<byte>) returns (digest: seq<byte>)
    requires |text| < 0x2000_0000_0000_0000
    ensures digest == DigestOf(Chain(transform, PaddedAsCounted(text), Blocks(|text|)))
    ensures IsPadded(text, CountedBits(|text|), PaddedAsCounted(text))
    ensures Hashes(transform, PaddedAsCounted(text), digest)
  {
    var c := Fed(transform, text);
    digest := c.Final();
    TailPadded(text, CountedBits(|text|));
    ChainHashes(transform, PaddedAsCounted(text), Blocks(|text|));
  }

  method Fed(transform: Transform, text: seq<byte>) returns (c: Context)
    requires |text| < 0x2000_0000_0000_0000
    ensures c.Valid() && c.fed == text && c.Total() == CountedBits(|text|) && c.transform == transform
    ensures fresh(c) && fresh(c.buffer)
  {
    c := new Context(transform);
    c.Update(text);
    assert [] + text == text;
  }

  lemma {:induction false} BigEndianOne(n: nat, x: nat, y: nat)
    requires x < Pow256(n) && y < Pow256(n) && BigEndian(n, x) == BigEndian(n, y)
    ensures x == y
  {
    if n > 0 {
      var a, b := BigEndian(n, x), BigEndian(n, y);
      assert a[..n - 1] == BigEndian(n - 1, x / 256) && b[..n - 1] == BigEndian(n - 1, y / 256);
      assert a[n - 1] == x % 256 && b[n - 1] == y % 256;
      BigEndianOne(n - 1, x / 256, y / 256);
    }
  }

  /** The text is padded as FIPS 180-4 says if and only if it has less than 2 to the 29 bytes. */
  lemma PaddedRightIff(text: seq<byte>)
    requires |text| < 0x2000_0000_0000_0000
    ensures PaddedAsCounted(text) == Padded(text) <==> |text| < 0x2000_0000
    ensures IsPadded(text, 8 * |text|, PaddedAsCounted(text)) <==> |text| < 0x2000_0000
  {
    var n := |text|;
    BitsRightIff(n);
    TailPadded(text, CountedBits(n));
    TailEnds(text, CountedBits(n));
    TailEnds(text, 8 * n);
    if PaddedAsCounted(text) == Padded(text) {
      BigEndianOne(8, CountedBits(n), 8 * n);
    }
  }

  lemma TailEnds(m: seq<byte>, bits: nat)
    ensures var p := m + Tail(|m|, bits); p[|p| - 8..] == BigEndian(8, bits)
  {
  }

  lemma BitsRightIff(n: nat)
    requires n < 0x2000_0000_0000_0000
    ensures CountedBits(n) == 8 * n <==> n < 0x2000_0000
    ensures CountedBits(n) < Pow256(8) && 8 * n < Pow256(8)
  {
    DivideWide(8 * n, 0, 8 * n);
    CountRightIff(0, 0, n);
    Divide(8 * n, 8 * n / LOW, 8 * n % LOW);
    Pow256s();
  }
}
