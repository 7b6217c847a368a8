/** Base64 as `lua-crypt.c` writes and reads it (section 4 of RFC 4648). */
module Base64 {
  import opened Bytes

  const EQUALS: byte := 61

  /** The alphabet, as ASCII codes. */
  function Symbol(v: nat): byte
    requires v < 64
  {
    if v < 26 then 65 + v
    else if v < 52 then 97 + v - 26
    else if v < 62 then 48 + v - 52
    else if v == 62 then 43
    else 47
  }

  /** `b64index`: the value of a symbol, -2 for the equals sign, -1 for any other byte. */
  function Index(c: byte): int {
    if 65 <= c <= 90 then c - 65
    else if 97 <= c <= 122 then c - 97 + 26
    else if 48 <= c <= 57 then c - 48 + 52
    else if c == 43 then 62
    else if c == 47 then 63
    else if c == EQUALS then -2
    else -1
  }

  const UPPER := "ABCDEFGHIJKLMNOPQRSTUVWXYZ"
  const LOWER := "abcdefghijklmnopqrstuvwxyz"
  const OTHER := "0123456789+/"
  const ALPHABET := UPPER + LOWER + OTHER

  lemma SymbolIs(v: nat)
    requires v < 64
    ensures Symbol(v) == ALPHABET[v] as int
  {
    if v < 26 {
      assert UPPER[v] as int == 65 + v;
    } else if v < 52 {
      assert LOWER[v - 26] as int == 97 + (v - 26);
    } else {
      OtherIs(v - 52);
    }
  }

  lemma OtherIs(v: nat)
    requires v < 12
    ensures OTHER[v] as int == if v < 10 then 48 + v else if v == 10 then 43 else 47
  {
  }

  // ----- encoding

  /** Three bytes, as four symbols. */
  function Group3(a: byte, b: byte, c: byte): seq<byte> {
    [Symbol(a / 4), Symbol(a % 4 * 16 + b / 16), Symbol(b % 16 * 4 + c / 64), Symbol(c % 64)]
  }

  function Group2(a: byte, b: byte): seq<byte> {
    [Symbol(a / 4), Symbol(a % 4 * 16 + b / 16), Symbol(b % 16 * 4), EQUALS]
  }

  function Group1(a: byte): seq<byte> {
    [Symbol(a / 4), Symbol(a % 4 * 16), EQUALS, EQUALS]
  }

  function Encoded(s: seq<byte>): seq<byte> {
    if |s| == 0 then []
    else if |s| == 1 then Group1(s[0])
    else if |s| == 2 then Group2(s[0], s[1])
    else Group3(s[0], s[1], s[2]) + Encoded(s[3..])
  }

  lemma {:induction false} EncodedLength(s: seq<byte>)
    ensures |Encoded(s)| == (|s| + 2) / 3 * 4
  {
    if |s| > 2 {
      EncodedLength(s[3..]);
    }
  }

  /** The quotient and the remainder are the only ones there are. */
  lemma Divided(x: nat, w: nat, q: nat, r: nat)
    requires w > 0 && x == q * w + r && r < w
    ensures x / w == q && x % w == r
  {
    SameQuotient(x / w, x % w, q, r, w);
  }

  lemma SameQuotient(a: nat, s: nat, b: nat, r: nat, w: nat)
    requires a * w + s == b * w + r && s < w && r < w
    ensures a == b
  {
    Above(a, b, w);
    Above(b, a, w);
  }

  lemma Above(a: nat, b: nat, w: nat)
    ensures a < b ==> a * w + w <= b * w
  {
    if a < b {
      assert (a + 1) * w <= b * w;
    }
  }

  function Word2(a: nat, b: nat): nat {
    a * 0x100 + b
  }

  function Word3(a: nat, b: nat, c: nat): nat {
    a * 0x1_0000 + b * 0x100 + c
  }

  /** The word that three bytes make, cut into four groups of six bits. */
  lemma SixBits(a: byte, b: byte, c: byte)
    ensures var v := Word3(a, b, c);
            && v / 0x4_0000 == a / 4 && v / 0x1000 % 64 == a % 4 * 16 + b / 16
            && v / 64 % 64 == b % 16 * 4 + c / 64 && v % 64 == c % 64
  {
    var v := Word3(a, b, c);
    Divided(v, 0x4_0000, a / 4, a % 4 * 0x1_0000 + b * 0x100 + c);
    Divided(v, 0x1000, a * 16 + b / 16, b % 16 * 0x100 + c);
    Divided(a * 16 + b / 16, 64, a / 4, a % 4 * 16 + b / 16);
    Divided(v, 64, a * 0x400 + b * 4 + c / 64, c % 64);
    Divided(a * 0x400 + b * 4 + c / 64, 64, a * 16 + b / 16, b % 16 * 4 + c / 64);
  }

  /** Four symbols for a word of 24 bits. */
  function Symbols(v: nat): seq<byte>
    requires v < 0x100_0000
  {
    [Symbol(v / 0x4_0000), Symbol(v / 0x1000 % 64), Symbol(v / 64 % 64), Symbol(v % 64)]
  }

  lemma ThreeBytes(a: byte, b: byte, c: byte)
    ensures Word3(a, b, c) < 0x100_0000 && Symbols(Word3(a, b, c)) == Group3(a, b, c)
  {
    SixBits(a, b, c);
  }

  lemma TenBits(a: byte, b: byte)
    ensures var v := Word2(a, b);
            v / 0x400 == a / 4 && v / 16 % 64 == a % 4 * 16 + b / 16 && v % 16 * 4 == b % 16 * 4
  {
    var v := Word2(a, b);
    Divided(v, 0x400, a / 4, a % 4 * 0x100 + b);
    Divided(v, 16, a * 16 + b / 16, b % 16);
    Divided(a * 16 + b / 16, 64, a / 4, a % 4 * 16 + b / 16);
  }

  lemma EncodedNext(s: seq<byte>, i: nat)
    requires i + 2 < |s|
    ensures Encoded(s[i..]) == Group3(s[i], s[i + 1], s[i + 2]) + Encoded(s[i + 3..])
  {
    assert s[i..][3..] == s[i + 3..];
  }

  /** Byte `i` of a text that zeros follow. */
  function ByteOr0(text: seq<byte>, i: nat): nat {
    if i < |text| then text[i] else 0
  }

  /** Bytes `i` to `i + 2`. */
  function WordAt(text: seq<byte>, i: nat): nat {
    Word3(ByteOr0(text, i), ByteOr0(text, i + 1), ByteOr0(text, i + 2))
  }

  /** The six bits of a text that make symbol `k`. */
  function BitsAt(text: seq<byte>, k: nat): (v: nat)
    ensures v < 64
  {
    var v := WordAt(text, k / 4 * 3);
    (if k % 4 == 0 then v / 0x4_0000 else if k % 4 == 1 then v / 0x1000 else if k % 4 == 2 then v / 64 else v) % 64
  }

  /** Symbol by symbol, `s` is the encoding of the text: six bits each, then equals signs. */
  ghost predicate Spells(text: seq<byte>, s: seq<byte>) {
    |s| == (|text| + 2) / 3 * 4 &&
    forall k: nat | k < |s| :: SpellsAt(text, s, k)
  }

  ghost predicate SpellsAt(text: seq<byte>, s: seq<byte>, k: nat)
    requires k < |s|
  {
    s[k] == if 6 * k < 8 * |text| then ALPHABET[BitsAt(text, k)] as int else '=' as int
  }

  /** The six bits of three bytes, one after the other. */
  lemma WordBits(text: seq<byte>, a: byte, b: byte, c: byte)
    requires a == ByteOr0(text, 0) && b == ByteOr0(text, 1) && c == ByteOr0(text, 2)
    ensures BitsAt(text, 0) == a / 4 && BitsAt(text, 1) == a % 4 * 16 + b / 16
    ensures BitsAt(text, 2) == b % 16 * 4 + c / 64 && BitsAt(text, 3) == c % 64
  {
    SixBits(a, b, c);
  }

  lemma FirstThree(text: seq<byte>, k: nat)
    requires |text| >= 3 && k < 4
    ensures |Encoded(text)| >= 4 && SpellsAt(text, Encoded(text), k)
  {
    WordBits(text, text[0], text[1], text[2]);
    SymbolIs(BitsAt(text, k));
    assert Encoded(text)[k] == Group3(text[0], text[1], text[2])[k];
  }

  lemma FirstTwo(text: seq<byte>, k: nat)
    requires |text| == 2 && k < 4
    ensures |Encoded(text)| >= 4 && SpellsAt(text, Encoded(text), k)
  {
    WordBits(text, text[0], text[1], 0);
    SymbolIs(BitsAt(text, k));
  }

  lemma FirstOne(text: seq<byte>, k: nat)
    requires |text| == 1 && k < 4
    ensures |Encoded(text)| >= 4 && SpellsAt(text, Encoded(text), k)
  {
    WordBits(text, text[0], 0, 0);
    SymbolIs(BitsAt(text, k));
  }

  lemma FirstGroup(text: seq<byte>, k: nat)
    requires text != [] && k < 4
    ensures |Encoded(text)| >= 4 && SpellsAt(text, Encoded(text), k)
  {
    if |text| == 1 {
      FirstOne(text, k);
    } else if |text| == 2 {
      FirstTwo(text, k);
    } else {
      FirstThree(text, k);
    }
  }

  lemma GroupOn(k: nat)
    ensures (k + 4) / 4 * 3 == k / 4 * 3 + 3 && (k + 4) % 4 == k % 4
  {
  }

  lemma BitsOn(text: seq<byte>, k: nat)
    requires |text| >= 3
    ensures BitsAt(text, k + 4) == BitsAt(text[3..], k)
  {
    GroupOn(k);
    WordOn(text, k / 4 * 3);
  }

  lemma WordOn(text: seq<byte>, i: nat)
    requires |text| >= 3
    ensures WordAt(text, i + 3) == WordAt(text[3..], i)
  {
  }

  lemma LaterGroup(text: seq<byte>, k: nat)
    requires |text| >= 3 && k < |Encoded(text[3..])| && SpellsAt(text[3..], Encoded(text[3..]), k)
    ensures k + 4 < |Encoded(text)| && SpellsAt(text, Encoded(text), k + 4)
  {
    assert Encoded(text)[k + 4] == Encoded(text[3..])[k];
    BitsOn(text, k);
  }

  lemma {:induction false} EncodedSpells(text: seq<byte>)
    ensures Spells(text, Encoded(text))
  {
    EncodedLength(text);
    if text != [] {
      if |text| >= 3 {
        EncodedSpells(text[3..]);
      }
      forall k: nat | k < |Encoded(text)| ensures SpellsAt(text, Encoded(text), k) {
        if k < 4 {
          FirstGroup(text, k);
        } else {
          LaterGroup(text, k - 4);
        }
      }
    }
  }

  /** `lb64encode`. */
  method Encode(text: seq<byte>) returns (buffer: seq<byte>)
    ensures buffer == Encoded(text) && Spells(text, buffer)
  {
    EncodedSpells(text);
    buffer := [];
    var i := 0;
    while i + 2 < |text|
      invariant i <= |text| && buffer + Encoded(text[i..]) == Encoded(text)
    {
      var v := Word3(text[i], text[i + 1], text[i + 2]);
      ThreeBytes(text[i], text[i + 1], text[i + 2]);
      EncodedNext(text, i);
      buffer := buffer + Symbols(v);
      i := i + 3;
    }
    var last := EncodeLast(text, i);
    buffer := buffer + last;
  }

  /** The switch on the bytes that are left. */
  method EncodeLast(text: seq<byte>, i: nat) returns (r: seq<byte>)
    requires i <= |text| <= i + 2
    ensures r == Encoded(text[i..])
  {
    var padding := |text| - i;
    if padding == 1 {
      var v := text[i];
      r := [Symbol(v / 4), Symbol(v % 4 * 16), EQUALS, EQUALS];
    } else if padding == 2 {
      var v := Word2(text[i], text[i + 1]);
      TenBits(text[i], text[i + 1]);
      r := [Symbol(v / 0x400), Symbol(v / 16 % 64), Symbol(v % 16 * 4), EQUALS];
    } else {
      r := [];
    }
  }

  // ----- decoding

  datatype Answer = Decoded(value: seq<byte>) | Invalid {
    function After(first: seq<byte>): Answer {
      if Decoded? then Decoded(first + value) else Invalid
    }
  }

  predicate IsJunk(c: byte) {
    Index(c) == -1
  }

  /** The values of the bytes that count. */
  function Codes(s: seq<byte>): (r: seq<int>)
    ensures |r| <= |s|
  {
    if s == [] then [] else (if IsJunk(s[0]) then [] else [Index(s[0])]) + Codes(s[1..])
  }

  lemma {:induction false} CodesConcat(a: seq<byte>, b: seq<byte>)
    ensures Codes(a + b) == Codes(a) + Codes(b)
  {
    if a == [] {
      assert a + b == b;
    } else {
      assert (a + b)[1..] == a[1..] + b;
      CodesConcat(a[1..], b);
    }
  }

  function Missing(c: int): nat {
    if c == -2 then 1 else 0
  }

  /** What four values stand for; -2 is an equals sign or the end of the text. */
  function Four(c: seq<int>): Answer
    requires |c| == 4 && forall k | 0 <= k < 4 :: c[k] == -2 || 0 <= c[k] < 64
  {
    var padding := Missing(c[0]) + Missing(c[1]) + Missing(c[2]) + Missing(c[3]);
    if padding == 0 then
      Decoded([c[0] * 4 + c[1] / 16, c[1] % 16 * 16 + c[2] / 4, c[2] % 4 * 64 + c[3]])
    else if padding == 1 && c[3] == -2 && c[2] % 4 == 0 then
      Decoded([c[0] * 4 + c[1] / 16, c[1] % 16 * 16 + c[2] / 4])
    else if padding == 2 && c[3] == -2 && c[2] == -2 && c[1] % 16 == 0 then
      Decoded([c[0] * 4 + c[1] / 16])
    else
      Invalid
  }

  /** How many of the values are -2. */
  function Count(c: seq<int>): (n: nat)
    ensures n <= |c|
  {
    if c == [] then 0 else Count(c[..|c| - 1]) + Missing(c[|c| - 1])
  }

  predicate Values(c: seq<int>) {
    forall k | 0 <= k < |c| :: c[k] == -2 || 0 <= c[k] < 64
  }

  lemma {:induction false} CodesValues(s: seq<byte>)
    ensures Values(Codes(s))
  {
    if s != [] {
      CodesValues(s[1..]);
    }
  }

  /** Values decoded four by four; missing ones at the end are -2. */
  function DecodeCodes(c: seq<int>): Answer
    requires Values(c)
  {
    if c == [] then Decoded([])
    else if |c| < 4 then Four(c + seq(4 - |c|, i => -2))
    else
      var first := Four(c[..4]);
      if first.Invalid? then Invalid else DecodeCodes(c[4..]).After(first.value)
  }

  /** What the decoder makes of a text: other bytes are skipped, but not after the last group of four. */
  function DecodeText(s: seq<byte>): Answer {
    CodesValues(s);
    if s != [] && IsJunk(s[|s| - 1]) && |Codes(s)| % 4 == 0 then Invalid else DecodeCodes(Codes(s))
  }

  lemma CountFour(c: seq<int>)
    requires |c| == 4
    ensures Count(c) == Missing(c[0]) + Missing(c[1]) + Missing(c[2]) + Missing(c[3])
  {
    assert c[..3][..2] == c[..2] && c[..2][..1] == c[..1] && c[..1][..0] == [];
    assert Count(c[..1]) == Missing(c[0]);
    assert Count(c[..2]) == Count(c[..1]) + Missing(c[1]);
    assert Count(c[..3]) == Count(c[..2]) + Missing(c[2]);
  }

  /** The word that four values make, cut into bytes. */
  lemma EightBits(c: seq<int>)
    requires |c| == 4 && forall k | 0 <= k < 4 :: 0 <= c[k] < 64
    ensures var v := c[0] * 0x4_0000 + c[1] * 0x1000 + c[2] * 64 + c[3];
            && v / 0x1_0000 == c[0] * 4 + c[1] / 16 && v / 0x100 % 256 == c[1] % 16 * 16 + c[2] / 4
            && v % 256 == c[2] % 4 * 64 + c[3]
  {
    var v := c[0] * 0x4_0000 + c[1] * 0x1000 + c[2] * 64 + c[3];
    Divided(v, 0x1_0000, c[0] * 4 + c[1] / 16, c[1] % 16 * 0x1000 + c[2] * 64 + c[3]);
    Divided(v, 0x100, c[0] * 0x400 + c[1] * 16 + c[2] / 4, c[2] % 4 * 64 + c[3]);
    Divided(c[0] * 0x400 + c[1] * 16 + c[2] / 4, 256, c[0] * 4 + c[1] / 16, c[1] % 16 * 16 + c[2] / 4);
  }

  /** The first four values, with -2 for those that are missing. */
  function FirstFour(c: seq<int>): (r: seq<int>)
    requires Values(c)
    ensures |r| == 4 && Values(r)
  {
    if |c| >= 4 then c[..4] else c + seq(4 - |c|, i => -2)
  }

  lemma CodesAt(s: seq<byte>, i: nat)
    requires i < |s|
    ensures Codes(s[i..]) == (if IsJunk(s[i]) then [] else [Index(s[i])]) + Codes(s[i + 1..])
  {
    assert s[i..][1..] == s[i + 1..];
  }

  ghost predicate Reading(s: seq<byte>, from: nat, codes: seq<int>, c: seq<int>, i: nat) {
    && from <= i && |c| <= 4
    && (i <= |s| ==> c + Codes(s[i..]) == codes && (|c| == 4 ==> i > from && !IsJunk(s[i - 1])))
    && (i > |s| ==> |codes| < |c| && c == codes + seq(|c| - |codes|, k => -2))
  }

  lemma CountNext(c: seq<int>, v: int)
    ensures Count(c + [v]) == Count(c) + Missing(v)
  {
    assert (c + [v])[..|c|] == c;
  }

  lemma ReadPast(s: seq<byte>, from: nat, codes: seq<int>, c: seq<int>, i: nat)
    requires Reading(s, from, codes, c, i) && i >= |s| && |c| < 4
    ensures Reading(s, from, codes, c + [-2], i + 1)
  {
    if i == |s| {
      assert c == codes;
    }
    assert c + [-2] == codes + seq(|c| + 1 - |codes|, k => -2);
  }

  lemma ReadOne(s: seq<byte>, from: nat, codes: seq<int>, c: seq<int>, i: nat)
    requires Reading(s, from, codes, c, i) && i < |s| && |c| < 4
    ensures Reading(s, from, codes, if IsJunk(s[i]) then c else c + [Index(s[i])], i + 1)
  {
    CodesAt(s, i);
    assert c + ([Index(s[i])] + Codes(s[i + 1..])) == c + [Index(s[i])] + Codes(s[i + 1..]);
    assert c + ([] + Codes(s[i + 1..])) == c + Codes(s[i + 1..]);
  }

  /** The inner loop: four values from `from` on. */
  method ReadFour(text: seq<byte>, from: nat) returns (c: seq<int>, padding: nat, i: nat)
    requires from < |text|
    ensures Values(Codes(text[from..])) && c == FirstFour(Codes(text[from..])) && padding == Count(c)
    ensures Reading(text, from, Codes(text[from..]), c, i)
  {
    ghost var codes := Codes(text[from..]);
    CodesValues(text[from..]);
    c, padding, i := [], 0, from;
    assert [] + codes == codes;
    while |c| < 4
      invariant Reading(text, from, codes, c, i) && padding == Count(c)
      decreases 4 - |c| + if i < |text| then |text| - i else 0
    {
      if i >= |text| {
        ReadPast(text, from, codes, c, i);
        CountNext(c, -2);
        c, padding, i := c + [-2], padding + 1, i + 1;
      } else {
        ReadOne(text, from, codes, c, i);
        var v := Index(text[i]);
        i := i + 1;
        if v != -1 {
          CountNext(c, v);
          if v == -2 {
            padding := padding + 1;
          }
          c := c + [v];
        }
      }
    }
    ReadDone(text, from, codes, c, i);
  }

  lemma ReadDone(s: seq<byte>, from: nat, codes: seq<int>, c: seq<int>, i: nat)
    requires Reading(s, from, codes, c, i) && |c| == 4 && Values(codes)
    ensures c == FirstFour(codes)
  {
    if i <= |s| {
      assert codes[..4] == c;
    }
  }

  /** One round of the decoder on `s`: the first four values, then what follows them. */
  lemma DecodeRound(s: seq<byte>, from: nat, c: seq<int>, i: nat)
    requires from < |s| && |c| == 4 && Reading(s, from, Codes(s[from..]), c, i) && Values(c)
    ensures DecodeText(s[from..])
            == match Four(c)
               case Decoded(first) => DecodeText(if i < |s| then s[i..] else []).After(first)
               case Invalid => Invalid
  {
    var t := s[from..];
    CodesValues(t);
    assert t[|t| - 1] == s[|s| - 1];
    if i <= |s| {
      var rest := s[i..];
      assert rest != [] ==> rest[|rest| - 1] == s[|s| - 1];
      FullRound(t, rest, c);
      assert (if i < |s| then s[i..] else []) == rest;
    } else {
      Short(t, Codes(t));
    }
  }

  lemma FullRound(t: seq<byte>, rest: seq<byte>, c: seq<int>)
    requires |c| == 4 && Values(c) && Codes(t) == c + Codes(rest) && t != []
    requires if rest == [] then !IsJunk(t[|t| - 1]) else rest[|rest| - 1] == t[|t| - 1]
    ensures DecodeText(t)
            == match Four(c)
               case Decoded(first) => DecodeText(rest).After(first)
               case Invalid => Invalid
  {
    CodesValues(t);
    CodesValues(rest);
    FourOff(c, Codes(rest));
    Fours(|Codes(rest)|);
  }

  lemma Fours(n: nat)
    ensures (4 + n) % 4 == n % 4
  {
  }

  lemma FourOff(c: seq<int>, more: seq<int>)
    requires |c| == 4 && Values(c) && Values(c + more) && Values(more)
    ensures DecodeCodes(c + more)
            == match Four(c)
               case Decoded(first) => DecodeCodes(more).After(first)
               case Invalid => Invalid
  {
    var codes := c + more;
    assert codes[..4] == c && codes[4..] == more;
  }

  /** A text with fewer than four values. */
  lemma Short(t: seq<byte>, codes: seq<int>)
    requires t != [] && codes == Codes(t) && |codes| < 4 && Values(codes)
    ensures DecodeText(t) == Four(codes + seq(4 - |codes|, k => -2))
  {
    if codes == [] {
      AllJunk(t);
    }
  }

  lemma {:induction false} AllJunk(t: seq<byte>)
    requires t != [] && Codes(t) == []
    ensures IsJunk(t[|t| - 1])
  {
    if |t| > 1 {
      AllJunk(t[1..]);
    }
  }

  /** The bytes of one group, or an error: the switch on the padding. */
  method DecodeFour(c: seq<int>, padding: nat) returns (r: Answer)
    requires |c| == 4 && Values(c) && padding == Count(c)
    ensures r == Four(c)
  {
    CountFour(c);
    if padding == 0 {
      var v := c[0] * 0x4_0000 + c[1] * 0x1000 + c[2] * 64 + c[3];
      EightBits(c);
      r := Decoded([v / 0x1_0000, v / 0x100 % 256, v % 256]);
    } else if padding == 1 {
      if c[3] != -2 || c[2] % 4 != 0 {
        return Invalid;
      }
      var v := c[0] * 0x400 + c[1] * 16 + c[2] / 4;
      Divided(v, 256, c[0] * 4 + c[1] / 16, c[1] % 16 * 16 + c[2] / 4);
      r := Decoded([v / 256, v % 256]);
    } else if padding == 2 {
      if c[3] != -2 || c[2] != -2 || c[1] % 16 != 0 {
        return Invalid;
      }
      r := Decoded([c[0] * 4 + c[1] / 16]);
    } else {
      r := Invalid;
    }
  }

  /** `lb64decode`. */
  method Decode(text: seq<byte>) returns (r: Answer)
    ensures r == DecodeText(text)
  {
    var buffer: seq<byte> := [];
    var i: nat := 0;
    assert text[0..] == text;
    while i < |text|
      invariant DecodeText(if i < |text| then text[i..] else []).After(buffer) == DecodeText(text)
      decreases |text| - i
    {
      var c, padding, next := ReadFour(text, i);
      DecodeRound(text, i, c, next);
      var group := DecodeFour(c, padding);
      if group.Invalid? {
        return Invalid;
      }
      AfterTwice(DecodeText(if next < |text| then text[next..] else []), buffer, group.value);
      buffer := buffer + group.value;
      i := next;
    }
    assert buffer + [] == buffer;
    r := Decoded(buffer);
  }

  lemma AfterTwice(r: Answer, a: seq<byte>, b: seq<byte>)
    ensures r.After(b).After(a) == r.After(a + b)
  {
    if r.Decoded? {
      assert a + (b + r.value) == a + b + r.value;
    }
  }

  // ----- the round trip

  lemma IndexOfSymbol(v: nat)
    requires v < 64
    ensures Index(Symbol(v)) == v && !IsJunk(Symbol(v))
  {
  }

  lemma {:induction false} CodesPlain(s: seq<byte>)
    requires forall k | 0 <= k < |s| :: !IsJunk(s[k])
    ensures |Codes(s)| == |s| && forall k | 0 <= k < |s| :: Codes(s)[k] == Index(s[k])
  {
    if s != [] {
      CodesPlain(s[1..]);
    }
  }

  /** How many equals signs end the encoding of `n` bytes. */
  function Signs(n: nat): nat {
    if n % 3 == 0 then 0 else 3 - n % 3
  }

  lemma Group3Back(a: byte, b: byte, c: byte)
    ensures var codes := Codes(Group3(a, b, c));
            |codes| == 4 && Values(codes) && Four(codes) == Decoded([a, b, c])
  {
    var w, x, y, z := a / 4, a % 4 * 16 + b / 16, b % 16 * 4 + c / 64, c % 64;
    IndexOfSymbol(w);
    IndexOfSymbol(x);
    IndexOfSymbol(y);
    IndexOfSymbol(z);
    CodesPlain(Group3(a, b, c));
    assert Codes(Group3(a, b, c)) == [w, x, y, z];
    Four3(a, b, c);
  }

  lemma Four3(a: byte, b: byte, c: byte)
    ensures Four([a / 4, a % 4 * 16 + b / 16, b % 16 * 4 + c / 64, c % 64]) == Decoded([a, b, c])
  {
  }

  lemma Group2Back(a: byte, b: byte, k: nat)
    requires k <= 1
    ensures var codes := Codes(Group2(a, b)[..4 - k]);
            |codes| == 4 - k && Values(codes) && Four(FirstFour(codes)) == Decoded([a, b])
  {
    var x, y, z := a / 4, a % 4 * 16 + b / 16, b % 16 * 4;
    IndexOfSymbol(x);
    IndexOfSymbol(y);
    IndexOfSymbol(z);
    CodesPlain(Group2(a, b)[..4 - k]);
    var codes := Codes(Group2(a, b)[..4 - k]);
    assert FirstFour(codes) == [x, y, z, -2];
    Four2(a, b);
  }

  lemma Four2(a: byte, b: byte)
    ensures Four([a / 4, a % 4 * 16 + b / 16, b % 16 * 4, -2]) == Decoded([a, b])
  {
  }

  lemma Group1Back(a: byte, k: nat)
    requires k <= 2
    ensures var codes := Codes(Group1(a)[..4 - k]);
            |codes| == 4 - k && Values(codes) && Four(FirstFour(codes)) == Decoded([a])
  {
    var x, y := a / 4, a % 4 * 16;
    IndexOfSymbol(x);
    IndexOfSymbol(y);
    CodesPlain(Group1(a)[..4 - k]);
    var codes := Codes(Group1(a)[..4 - k]);
    assert FirstFour(codes) == [x, y, -2, -2];
    Four1(a);
  }

  lemma Four1(a: byte)
    ensures Four([a / 4, a % 4 * 16, -2, -2]) == Decoded([a])
  {
  }

  /** A single group, complete or not. */
  lemma LastGroup(codes: seq<int>)
    requires Values(codes) && 0 < |codes| <= 4
    ensures DecodeCodes(codes) == Four(FirstFour(codes))
  {
    if |codes| == 4 {
      FourOff(codes, []);
      assert codes + [] == codes;
      if Four(codes).Decoded? {
        assert Four(codes).value + [] == Four(codes).value;
      }
    }
  }

  /** The encoding without its last `k` bytes. */
  function Trimmed(s: seq<byte>, k: nat): seq<byte>
    requires k <= |Encoded(s)|
  {
    Encoded(s)[..|Encoded(s)| - k]
  }

  ghost predicate DecodesTo(codes: seq<int>, s: seq<byte>) {
    Values(codes) && DecodeCodes(codes) == Decoded(s)
  }

  lemma Decodes2(a: byte, b: byte, k: nat)
    requires k <= 1
    ensures DecodesTo(Codes(Group2(a, b)[..4 - k]), [a, b])
  {
    Group2Back(a, b, k);
    LastGroup(Codes(Group2(a, b)[..4 - k]));
  }

  lemma Decodes1(a: byte, k: nat)
    requires k <= 2
    ensures DecodesTo(Codes(Group1(a)[..4 - k]), [a])
  {
    Group1Back(a, k);
    LastGroup(Codes(Group1(a)[..4 - k]));
  }

  /** The encoding, with up to all of its equals signs cut off, decodes to the text. */
  lemma {:induction false} EncodedBack(s: seq<byte>, k: nat)
    requires k <= Signs(|s|) && k <= |Encoded(s)|
    ensures DecodesTo(Codes(Trimmed(s, k)), s)
  {
    if |s| == 0 {
    } else if |s| == 1 {
      Decodes1(s[0], k);
      assert Trimmed(s, k) == Group1(s[0])[..4 - k] && s == [s[0]];
    } else if |s| == 2 {
      Decodes2(s[0], s[1], k);
      assert Trimmed(s, k) == Group2(s[0], s[1])[..4 - k] && s == [s[0], s[1]];
    } else {
      MoreSigns(s, k);
      EncodedBack(s[3..], k);
      LongBack(s, k);
    }
  }

  lemma LongBack(s: seq<byte>, k: nat)
    requires |s| >= 3 && k <= |Encoded(s[3..])| && DecodesTo(Codes(Trimmed(s[3..], k)), s[3..])
    ensures k <= |Encoded(s)| && DecodesTo(Codes(Trimmed(s, k)), s)
  {
    LongCodes(s, k);
    assert s == [s[0], s[1], s[2]] + s[3..];
    Decodes3(s[0], s[1], s[2], Codes(Trimmed(s[3..], k)), s[3..], Codes(Trimmed(s, k)), s);
  }

  lemma Decodes3(a: byte, b: byte, c: byte, more: seq<int>, rest: seq<byte>, codes: seq<int>, s: seq<byte>)
    requires DecodesTo(more, rest) && codes == Codes(Group3(a, b, c)) + more && s == [a, b, c] + rest
    ensures DecodesTo(codes, s)
  {
    Group3Back(a, b, c);
    GroupThenMore(Codes(Group3(a, b, c)), more, [a, b, c], rest);
  }

  lemma GroupThenMore(c: seq<int>, more: seq<int>, first: seq<byte>, rest: seq<byte>)
    requires |c| == 4 && Values(c) && Four(c) == Decoded(first)
    requires Values(more) && DecodeCodes(more) == Decoded(rest)
    ensures Values(c + more) && DecodeCodes(c + more) == Decoded(first + rest)
  {
    FourOff(c, more);
  }

  lemma LongCodes(s: seq<byte>, k: nat)
    requires |s| >= 3 && k <= |Encoded(s[3..])|
    ensures k <= |Encoded(s)|
    ensures Codes(Trimmed(s, k)) == Codes(Group3(s[0], s[1], s[2])) + Codes(Trimmed(s[3..], k))
  {
    var first, more := Group3(s[0], s[1], s[2]), Encoded(s[3..]);
    CutBehind(first, more, k);
    CodesConcat(first, more[..|more| - k]);
  }

  lemma CutBehind(first: seq<byte>, more: seq<byte>, k: nat)
    requires k <= |more|
    ensures (first + more)[..|first + more| - k] == first + more[..|more| - k]
  {
  }

  lemma MoreSigns(s: seq<byte>, k: nat)
    requires |s| >= 3 && k <= Signs(|s|)
    ensures k <= Signs(|s[3..]|) && k <= |Encoded(s[3..])|
  {
  }

  /** The bytes that the decoder does not skip. */
  function Useful(s: seq<byte>): seq<byte> {
    if s == [] then [] else (if IsJunk(s[0]) then [] else [s[0]]) + Useful(s[1..])
  }

  lemma {:induction false} CodesUseful(s: seq<byte>)
    ensures Codes(Useful(s)) == Codes(s)
  {
    if s != [] {
      CodesUseful(s[1..]);
      CodesConcat(if IsJunk(s[0]) then [] else [s[0]], Useful(s[1..]));
      assert [s[0]][1..] == [];
    }
  }

  /** Decoding gives the text back from its encoding, also with equals signs cut off the end, and with
      other bytes put in anywhere before the last symbol. */
  lemma RoundTrip(text: seq<byte>, s: seq<byte>, k: nat)
    requires k <= Signs(|text|) && k <= |Encoded(text)|
    requires Useful(s) == Trimmed(text, k)
    requires s == [] || !IsJunk(s[|s| - 1])
    ensures DecodeText(s) == Decoded(text)
  {
    CodesUseful(s);
    EncodedBack(text, k);
  }

  /** With bytes put in behind the last symbol too, the text comes back if and only if the last group of
      four is not complete. */
  lemma TrailingIff(text: seq<byte>, s: seq<byte>, k: nat)
    requires k <= Signs(|text|) && k <= |Encoded(text)|
    requires Useful(s) == Trimmed(text, k)
    requires s != [] && IsJunk(s[|s| - 1])
    ensures DecodeText(s) == Decoded(text) <==> k > 0
    ensures k == 0 ==> DecodeText(s) == Invalid
  {
    CodesUseful(s);
    EncodedBack(text, k);
    TrimmedCodes(text, k);
    FewSigns(|text|);
    WholeGroups((|text| + 2) / 3, k);
  }

  lemma FewSigns(n: nat)
    ensures Signs(n) <= 2
  {
  }

  lemma TrimmedCodes(text: seq<byte>, k: nat)
    requires k <= |Encoded(text)|
    ensures |Codes(Trimmed(text, k))| == (|text| + 2) / 3 * 4 - k
  {
    EncodedLength(text);
    EncodedPlain(text);
    CodesPlain(Trimmed(text, k));
  }

  lemma WholeGroups(n: nat, k: nat)
    requires k <= 2 && k <= n * 4
    ensures (n * 4 - k) % 4 == 0 <==> k == 0
  {
  }

  lemma {:induction false} EncodedPlain(s: seq<byte>)
    ensures forall j | 0 <= j < |Encoded(s)| :: !IsJunk(Encoded(s)[j])
  {
    if |s| >= 3 {
      EncodedPlain(s[3..]);
    }
  }

  /** What the encoder writes, the decoder reads. */
  method EncodeDecode(text: seq<byte>) returns (r: Answer)
    ensures r == Decoded(text)
  {
    var s := Encode(text);
    r := Decode(s);
    EncodedPlain(text);
    PlainUseful(s);
    assert s[..|s| - 0] == s;
    RoundTrip(text, s, 0);
  }

  lemma {:induction false} PlainUseful(s: seq<byte>)
    requires forall j | 0 <= j < |s| :: !IsJunk(s[j])
    ensures Useful(s) == s
  {
    if s != [] {
      PlainUseful(s[1..]);
    }
  }

  // ----- which texts the decoder accepts

  /** A group of one to three bytes. */
  type Chunk = s: seq<byte> | 1 <= |s| <= 3 witness [0]

  function Joined(chunks: seq<Chunk>): seq<byte> {
    if chunks == [] then [] else chunks[0] + Joined(chunks[1..])
  }

  /** The encodings of the groups, one behind the other. */
  function Written(chunks: seq<Chunk>): (r: seq<byte>) {
    if chunks == [] then [] else Encoded(chunks[0]) + Written(chunks[1..])
  }

  function CodesOf(x: Chunk): (c: seq<int>)
    ensures |c| == 4 && Values(c)
  {
    var a: int := x[0];
    var b: int := if |x| > 1 then x[1] else 0;
    var d: int := if |x| > 2 then x[2] else 0;
    [a / 4, a % 4 * 16 + b / 16, if |x| > 1 then b % 16 * 4 + d / 64 else -2, if |x| > 2 then d % 64 else -2]
  }

  lemma CodesOfIs(x: Chunk)
    ensures Codes(Encoded(x)) == CodesOf(x) && |Encoded(x)| == 4
  {
    var c := CodesOf(x);
    EncodedPlain(x);
    EncodedLength(x);
    CodesPlain(Encoded(x));
    forall k: nat | k < 4 ensures Index(Encoded(x)[k]) == c[k] {
      if c[k] != -2 {
        IndexOfSymbol(c[k]);
      }
      assert |x| == 3 ==> Encoded(x) == Group3(x[0], x[1], x[2]) + [];
    }
  }

  /** Four values stand for a group if and only if they are those of its encoding. */
  lemma FourExact(c: seq<int>, x: seq<byte>)
    requires |c| == 4 && Values(c)
    ensures Four(c) == Decoded(x) <==> 1 <= |x| <= 3 && c == CodesOf(x)
  {
    if Four(c) == Decoded(x) {
      FourSound(c, x);
    }
    if 1 <= |x| <= 3 && c == CodesOf(x) {
      FourComplete(x);
    }
  }

  lemma FourComplete(x: Chunk)
    ensures Four(CodesOf(x)) == Decoded(x)
  {
    if |x| == 3 {
      Four3(x[0], x[1], x[2]);
    } else if |x| == 2 {
      Four2(x[0], x[1]);
    } else {
      Four1(x[0]);
    }
  }

  /** Bits put together can be taken apart. */
  lemma TakenApart(p: nat, q: nat, w: nat)
    requires q < 64 && (w == 4 || w == 16)
    ensures (p * 4 + q / 16) / 4 == p && (p * 4 + q / 16) % 4 * 16 == q / 16 * 16
    ensures (p * 16 + q / 4) / 16 == p && (p * 16 + q / 4) % 16 * 4 == q / 4 * 4
  {
  }

  lemma Sound3(c: seq<int>, x: Chunk)
    requires |c| == 4 && forall k | 0 <= k < 4 :: 0 <= c[k] < 64
    requires x == [c[0] * 4 + c[1] / 16, c[1] % 16 * 16 + c[2] / 4, c[2] % 4 * 64 + c[3]]
    ensures c == CodesOf(x)
  {
    TakenApart(c[0], c[1], 4);
    TakenApart(c[1] % 16, c[2], 4);
    Divided(c[2] % 4 * 64 + c[3], 64, c[2] % 4, c[3]);
  }

  lemma Sound2(c: seq<int>, x: Chunk)
    requires |c| == 4 && (forall k | 0 <= k < 3 :: 0 <= c[k] < 64) && c[3] == -2 && c[2] % 4 == 0
    requires x == [c[0] * 4 + c[1] / 16, c[1] % 16 * 16 + c[2] / 4]
    ensures c == CodesOf(x)
  {
    TakenApart(c[0], c[1], 4);
    TakenApart(c[1] % 16, c[2], 4);
  }

  lemma Sound1(c: seq<int>, x: Chunk)
    requires |c| == 4 && 0 <= c[0] < 64 && 0 <= c[1] < 64 && c[2] == c[3] == -2 && c[1] % 16 == 0
    requires x == [c[0] * 4 + c[1] / 16]
    ensures c == CodesOf(x)
  {
    TakenApart(c[0], c[1], 4);
  }

  lemma FourSound(c: seq<int>, x: seq<byte>)
    requires |c| == 4 && Values(c) && Four(c) == Decoded(x)
    ensures 1 <= |x| <= 3 && c == CodesOf(x)
  {
    var padding := Missing(c[0]) + Missing(c[1]) + Missing(c[2]) + Missing(c[3]);
    if padding == 0 {
      Sound3(c, x);
    } else if padding == 1 {
      Sound2(c, x);
    } else {
      Sound1(c, x);
    }
  }

  function CodesAll(chunks: seq<Chunk>): (c: seq<int>)
    ensures |c| == 4 * |chunks| && Values(c)
  {
    if chunks == [] then [] else CodesOf(chunks[0]) + CodesAll(chunks[1..])
  }

  /** All but the last `k` values, where only equals signs are left out. */
  ghost predicate CutOk(chunks: seq<Chunk>, k: nat) {
    k == 0 || (chunks != [] && k <= 3 - |chunks[|chunks| - 1]|)
  }

  /** The values, four by four, stand for `v`: group by group, those of its encoding, perhaps without the last
      equals signs. */
  ghost predicate CodesStand(c: seq<int>, v: seq<byte>, chunks: seq<Chunk>, k: nat) {
    CutOk(chunks, k) && Joined(chunks) == v && c == CodesAll(chunks)[..4 * |chunks| - k]
  }

  lemma PaddedOff(c: seq<int>, x: Chunk)
    requires 0 < |c| <= 4 && c + seq(4 - |c|, i => -2) == CodesOf(x)
    ensures 4 - |c| <= 3 - |x| && c == CodesOf(x)[..|c|]
  {
    assert forall i | |c| <= i < 4 :: CodesOf(x)[i] == -2;
    assert |c| < 4 ==> CodesOf(x)[|c|] == -2;
    assert CodesOf(x)[0] != -2 && CodesOf(x)[1] != -2;
    assert |x| > 1 ==> CodesOf(x)[2] != -2;
    assert |x| > 2 ==> CodesOf(x)[3] != -2;
  }

  lemma OneChunk(x: Chunk)
    ensures Joined([x]) == x && CodesAll([x]) == CodesOf(x) && Written([x]) == Encoded(x)
  {
    assert [x][1..] == [];
    assert Joined([x][1..]) == [] && CodesAll([x][1..]) == [] && Written([x][1..]) == [];
  }

  lemma MoreChunks(x: Chunk, chunks: seq<Chunk>)
    ensures Joined([x] + chunks) == x + Joined(chunks) && CodesAll([x] + chunks) == CodesOf(x) + CodesAll(chunks)
    ensures Written([x] + chunks) == Encoded(x) + Written(chunks)
  {
    assert ([x] + chunks)[1..] == chunks;
  }

  lemma ShortStand(c: seq<int>) returns (x: Chunk)
    requires Values(c) && 0 < |c| < 4 && DecodeCodes(c).Decoded?
    ensures CodesStand(c, DecodeCodes(c).value, [x], 4 - |c|)
  {
    x := DecodeCodes(c).value;
    FourExact(c + seq(4 - |c|, i => -2), x);
    PaddedOff(c, x);
    OneChunk(x);
  }

  lemma {:induction false} CodesSound(c: seq<int>) returns (chunks: seq<Chunk>, k: nat)
    requires Values(c) && DecodeCodes(c).Decoded?
    ensures CodesStand(c, DecodeCodes(c).value, chunks, k)
  {
    if c == [] {
      chunks, k := [], 0;
    } else if |c| < 4 {
      var x := ShortStand(c);
      chunks, k := [x], 4 - |c|;
    } else {
      var x := Four(c[..4]).value;
      FourExact(c[..4], x);
      var rest;
      rest, k := CodesSound(c[4..]);
      chunks := [x] + rest;
      StandsBehind(c, x, rest, k);
    }
  }

  lemma StandsBehind(c: seq<int>, x: Chunk, rest: seq<Chunk>, k: nat)
    requires |c| >= 4 && Values(c) && c[..4] == CodesOf(x) && Four(c[..4]) == Decoded(x)
    requires DecodeCodes(c[4..]).Decoded? && CodesStand(c[4..], DecodeCodes(c[4..]).value, rest, k)
    ensures DecodeCodes(c).Decoded? && CodesStand(c, DecodeCodes(c).value, [x] + rest, k)
  {
    MoreChunks(x, rest);
    CutAll(c, CodesOf(x), CodesAll(rest), k);
    CutMore(x, rest, k);
  }

  lemma CutAll(c: seq<int>, first: seq<int>, more: seq<int>, k: nat)
    requires |c| >= |first| && c[..|first|] == first && k <= |more| && c[|first|..] == more[..|more| - k]
    ensures c == (first + more)[..|first| + |more| - k]
  {
  }

  lemma CutMore(x: Chunk, rest: seq<Chunk>, k: nat)
    requires CutOk(rest, k)
    ensures CutOk([x] + rest, k)
  {
  }

  lemma LastComplete(c: seq<int>, x: Chunk, k: nat)
    requires k <= 3 - |x| && c == CodesOf(x)[..4 - k]
    ensures Values(c) && DecodeCodes(c) == Decoded(x)
  {
    FourComplete(x);
    assert FirstFour(c) == CodesOf(x);
    LastGroup(c);
  }

  lemma {:induction false} CodesComplete(c: seq<int>, v: seq<byte>, chunks: seq<Chunk>, k: nat)
    requires CodesStand(c, v, chunks, k)
    ensures Values(c) && DecodeCodes(c) == Decoded(v)
    decreases chunks
  {
    if |chunks| == 1 {
      assert chunks == [chunks[0]];
      OneChunk(chunks[0]);
      LastComplete(c, chunks[0], k);
    } else if chunks != [] {
      var x, rest := chunks[0], chunks[1..];
      assert chunks == [x] + rest;
      MoreChunks(x, rest);
      assert c == CodesOf(x) + CodesAll(rest)[..4 * |rest| - k];
      CodesComplete(CodesAll(rest)[..4 * |rest| - k], Joined(rest), rest, k);
      FourComplete(x);
      FourOff(CodesOf(x), CodesAll(rest)[..4 * |rest| - k]);
    }
  }

  // ----- in bytes

  lemma {:induction false} WrittenCodes(chunks: seq<Chunk>)
    ensures Codes(Written(chunks)) == CodesAll(chunks) && |Written(chunks)| == 4 * |chunks|
    ensures forall j | 0 <= j < |Written(chunks)| :: !IsJunk(Written(chunks)[j])
  {
    if chunks != [] {
      WrittenCodes(chunks[1..]);
      CodesOfIs(chunks[0]);
      EncodedPlain(chunks[0]);
      CodesConcat(Encoded(chunks[0]), Written(chunks[1..]));
    }
  }

  lemma {:induction false} UsefulPlain(s: seq<byte>)
    ensures forall j | 0 <= j < |Useful(s)| :: !IsJunk(Useful(s)[j])
  {
    if s != [] {
      UsefulPlain(s[1..]);
    }
  }

  lemma IndexOne(a: byte, b: byte)
    requires !IsJunk(a) && Index(a) == Index(b)
    ensures a == b
  {
  }

  /** Bytes that count are the same if their values are. */
  lemma CodesOne(a: seq<byte>, b: seq<byte>)
    requires (forall j | 0 <= j < |a| :: !IsJunk(a[j])) && (forall j | 0 <= j < |b| :: !IsJunk(b[j]))
    ensures Codes(a) == Codes(b) <==> a == b
  {
    CodesPlain(a);
    CodesPlain(b);
    if Codes(a) == Codes(b) {
      forall j | 0 <= j < |a| ensures a[j] == b[j] {
        assert Codes(a)[j] == Index(a[j]) && Codes(b)[j] == Index(b[j]);
        IndexOne(a[j], b[j]);
      }
    }
  }

  /** The bytes of `s` that count are the encodings of groups of one to three bytes, perhaps without the last `k`
      equals signs; other bytes are behind them only if such signs are missing. */
  ghost predicate Legible(s: seq<byte>, v: seq<byte>, chunks: seq<Chunk>, k: nat) {
    && CutOk(chunks, k) && Joined(chunks) == v && k <= |Written(chunks)|
    && Useful(s) == Written(chunks)[..|Written(chunks)| - k]
    && (s != [] && IsJunk(s[|s| - 1]) ==> k > 0)
  }

  lemma LegibleCodes(s: seq<byte>, chunks: seq<Chunk>, k: nat)
    requires k <= 4 * |chunks|
    ensures |Written(chunks)| == 4 * |chunks|
    ensures Useful(s) == Written(chunks)[..4 * |chunks| - k] <==> Codes(s) == CodesAll(chunks)[..4 * |chunks| - k]
  {
    var w := Written(chunks);
    WrittenCodes(chunks);
    CodesPlain(w);
    CodesPlain(w[..|w| - k]);
    assert Codes(w[..|w| - k]) == CodesAll(chunks)[..|w| - k];
    UsefulPlain(s);
    CodesUseful(s);
    CodesOne(Useful(s), w[..|w| - k]);
  }

  lemma WholeIff(chunks: seq<Chunk>, k: nat)
    requires CutOk(chunks, k)
    ensures k <= 4 * |chunks| && ((4 * |chunks| - k) % 4 == 0 <==> k == 0)
  {
    WholeGroups(|chunks|, k);
  }

  /** The decoder accepts exactly the legible texts, and answers the bytes that they stand for. */
  lemma DecodesIff(s: seq<byte>, v: seq<byte>)
    ensures DecodeText(s) == Decoded(v) <==> exists chunks, k: nat :: Legible(s, v, chunks, k)
  {
    CodesValues(s);
    if DecodeText(s) == Decoded(v) {
      var chunks, k := CodesSound(Codes(s));
      WholeIff(chunks, k);
      LegibleCodes(s, chunks, k);
      assert Legible(s, v, chunks, k);
    }
    if exists chunks, k: nat :: Legible(s, v, chunks, k) {
      var chunks, k: nat :| Legible(s, v, chunks, k);
      LegibleDecodes(s, v, chunks, k);
    }
  }

  lemma LegibleDecodes(s: seq<byte>, v: seq<byte>, chunks: seq<Chunk>, k: nat)
    requires Legible(s, v, chunks, k)
    ensures DecodeText(s) == Decoded(v)
  {
    WholeIff(chunks, k);
    LegibleCodes(s, chunks, k);
    CodesComplete(Codes(s), v, chunks, k);
  }
}
