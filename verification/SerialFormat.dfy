/** The bytes of the encoding, spelled out: what the printer writes, and what the parser accepts. */
module SerialFormat {
  import opened Bytes
  import opened Seqs
  import opened SerialCodec

  // ----- what the printer writes

  /** An integer: the shortest of five widths that holds it, behind its type byte. */
  predicate IntBytes(v: int64, d: seq<byte>) {
    if v == 0 then d == [2]
    else if 0 < v < 0x100 then d == [10, v]
    else if 0 < v < 0x1_0000 then |d| == 3 && d[0] == 18 && Value2(d[1..]) == v
    else if -0x8000_0000 <= v < 0x8000_0000 then
      |d| == 5 && d[0] == 34 && Value4(d[1..]) == if v < 0 then v + 0x1_0000_0000 else v
    else |d| == 9 && d[0] == 50 && Value8(d[1..]) == if v < 0 then v + 0x1_0000_0000_0000_0000 else v
  }

  /** A string: the length in the type byte, in two bytes or in four. */
  predicate StrBytes(s: seq<byte>, d: seq<byte>) {
    if |s| < 32 then d == [4 + 8 * |s|] + s
    else if |s| < 0x1_0000 then |d| == 3 + |s| && d[0] == 21 && Value2(d[1..3]) == |s| && d[3..] == s
    else |d| == 5 + |s| && d[0] == 37 && Value4(d[1..5]) == |s| && d[5..] == s
  }

  predicate ScalarBytes(s: Scalar, d: seq<byte>) {
    match s
    case Bool(b) => d == [if b then 9 else 1]
    case Int(i) => IntBytes(i, d)
    case Real(bits) => d == [66] + bits
    case Pointer(bits) => d == [3] + bits
    case Str(b) => StrBytes(b, d)
  }

  /** The head of a table: its array size, in the type byte or as an integer behind it. */
  predicate HeaderBytes(n: nat, d: seq<byte>)
    requires n <= INT_MAX
  {
    if n < 31 then d == [6 + 8 * n] else d != [] && d[0] == 254 && IntBytes(n, d[1..])
  }

  /** A value. A table is its head, its array part, its other entries and a zero. */
  ghost predicate ValueBytes(v: View, d: seq<byte>)
    requires Good(v)
    decreases v, 0
  {
    match v
    case VNil => d == [0]
    case VPlain(s) => ScalarBytes(s, d)
    case VOther => false
    case VTable(arr, hash) =>
      exists h, a, e :: d == h + a + e + [0] && HeaderBytes(|arr|, h) && ItemsBytes(arr, a) && EntriesBytes(hash, e)
  }

  ghost predicate ItemsBytes(vs: seq<View>, d: seq<byte>)
    requires forall i | 0 <= i < |vs| :: Good(vs[i])
    decreases vs, 1
  {
    if vs == [] then d == []
    else exists a, b :: d == a + b && ValueBytes(vs[0], a) && ItemsBytes(vs[1..], b)
  }

  /** The other entries: each key, then its value. */
  ghost predicate EntriesBytes(es: seq<Entry>, d: seq<byte>)
    requires forall i | 0 <= i < |es| :: GoodScalar(es[i].key) && Good(es[i].val)
    decreases es, 1
  {
    if es == [] then d == []
    else exists k, a, b ::
      d == k + a + b && ScalarBytes(es[0].key, k) && EntryBytes(es[0], a) && EntriesBytes(es[1..], b)
  }

  ghost predicate EntryBytes(e: Entry, d: seq<byte>)
    requires Good(e.val)
    decreases e, 1
  {
    ValueBytes(e.val, d)
  }

  lemma IntFormat(v: int64)
    ensures IntBytes(v, PackInt(v))
  {
    Pow256s();
    var d := PackInt(v);
    if !(-0x8000_0000 <= v < 0x8000_0000) {
      WrittenIs(8, Unsigned(8, v));
      assert d[1..] == LE(8, Unsigned(8, v));
    } else if v < 0 || v >= 0x1_0000 {
      WrittenIs(4, Unsigned(4, v));
      assert d[1..] == LE(4, Unsigned(4, v));
    } else if v >= 0x100 {
      WrittenIs(2, v);
      assert d[1..] == LE(2, v);
    } else if v > 0 {
      assert LE(1, v) == [v % 256] + LE(0, v / 256);
    }
  }

  lemma StrFormat(s: seq<byte>)
    requires |s| <= INT_MAX
    ensures StrBytes(s, PackStr(s))
  {
    Pow256s();
    var d := PackStr(s);
    if |s| >= 0x1_0000 {
      WrittenIs(4, |s|);
      assert d[1..5] == LE(4, |s|) && d[5..] == s;
    } else if |s| >= 32 {
      WrittenIs(2, |s|);
      assert d[1..3] == LE(2, |s|) && d[3..] == s;
    }
  }

  lemma ScalarFormat(s: Scalar)
    requires s.Str? ==> |s.s| <= INT_MAX
    ensures ScalarBytes(s, PackScalar(s))
  {
    match s
    case Int(i) => IntFormat(i);
    case Str(b) => StrFormat(b);
    case _ =>
  }

  lemma HeaderFormat(n: nat)
    requires n <= INT_MAX
    ensures HeaderBytes(n, TableHeader(n))
  {
    IntFormat(n);
    if n >= 31 {
      assert TableHeader(n)[1..] == PackInt(n);
    }
  }

  /** Whatever is packed has this format. */
  lemma {:induction false} PackFormat(v: View, depth: nat)
    requires Good(v) && Pack(v, depth).Ok?
    ensures ValueBytes(v, Pack(v, depth).value)
    decreases v, 0
  {
    match v
    case VPlain(s) => ScalarFormat(s);
    case VTable(arr, hash) =>
      HeaderFormat(|arr|);
      ItemsFormat(arr, depth + 1);
      EntriesFormat(hash, depth + 1);
      TableFormat(v, TableHeader(|arr|), PackArray(arr, depth + 1).value, PackHash(hash, depth + 1).value,
                  Pack(v, depth).value);
    case _ =>
  }

  lemma TableFormat(v: View, h: seq<byte>, a: seq<byte>, e: seq<byte>, d: seq<byte>)
    requires Good(v) && v.VTable? && d == h + a + e + [0]
    requires HeaderBytes(|v.arr|, h) && ItemsBytes(v.arr, a) && EntriesBytes(v.hash, e)
    ensures ValueBytes(v, d)
  {
  }

  lemma {:induction false} ItemsFormat(vs: seq<View>, depth: nat)
    requires (forall i | 0 <= i < |vs| :: Good(vs[i])) && PackArray(vs, depth).Ok?
    ensures ItemsBytes(vs, PackArray(vs, depth).value)
    decreases vs, 1
  {
    if vs != [] {
      PackFormat(vs[0], depth);
      ItemsFormat(vs[1..], depth);
    }
  }

  lemma {:induction false} EntriesFormat(es: seq<Entry>, depth: nat)
    requires (forall i | 0 <= i < |es| :: GoodScalar(es[i].key) && Good(es[i].val)) && PackHash(es, depth).Ok?
    ensures EntriesBytes(es, PackHash(es, depth).value)
    decreases es, 1
  {
    if es != [] {
      ScalarFormat(es[0].key);
      EntryFormat(es[0], depth);
      EntriesFormat(es[1..], depth);
    }
  }

  lemma {:induction false} EntryFormat(e: Entry, depth: nat)
    requires GoodScalar(e.key) && Good(e.val) && PackEntry(e, depth).Ok?
    ensures Pack(e.val, depth).Ok? && EntryBytes(e, Pack(e.val, depth).value)
    decreases e, 1
  {
    PackFormat(e.val, depth);
  }

  // ----- what the parser accepts

  function Int32(u: nat): int {
    if u < 0x8000_0000 then u else u - 0x1_0000_0000
  }

  function Int64(u: nat): int {
    if u < 0x8000_0000_0000_0000 then u else u - 0x1_0000_0000_0000_0000
  }

  /** An integer in any of the five widths, be it the shortest or not. */
  predicate ReadsInt(i: int64, d: seq<byte>) {
    || (d == [2] && i == 0)
    || (|d| == 2 && d[0] == 10 && i == d[1])
    || (|d| == 3 && d[0] == 18 && i == Value2(d[1..]))
    || (|d| == 5 && d[0] == 34 && i == Int32(Value4(d[1..])))
    || (|d| == 9 && d[0] == 50 && i == Int64(Value8(d[1..])))
  }

  predicate ReadsStr(s: seq<byte>, d: seq<byte>) {
    || (d != [] && d[0] % 8 == 4 && |s| == d[0] / 8 && d[1..] == s)
    || (|d| >= 3 && d[0] == 21 && |s| == Value2(d[1..3]) && d[3..] == s)
    || (|d| >= 5 && d[0] == 37 && |s| == Value4(d[1..5]) <= INT_MAX && d[5..] == s)
  }

  /** A value other than nil and tables. */
  predicate ReadsScalar(s: Scalar, d: seq<byte>) {
    match s
    case Bool(b) => |d| == 1 && d[0] % 8 == 1 && (b <==> d[0] >= 8)
    case Int(i) => ReadsInt(i, d)
    case Real(bits) => |d| == 9 && d[0] == 66 && d[1..] == bits
    case Pointer(bits) => |d| == 9 && d[0] % 8 == 3 && d[1..] == bits
    case Str(b) => ReadsStr(b, d)
  }

  predicate ReadsNil(d: seq<byte>) {
    |d| == 1 && d[0] % 8 == 0
  }

  /** The head of a table; an integer of its own is cut to 32 bits. */
  ghost predicate ReadsSize(n: int, d: seq<byte>) {
    || (|d| == 1 && d[0] % 8 == 6 && d[0] / 8 == n != 31)
    || (d != [] && d[0] == 254 && exists i: int64 :: ReadsInt(i, d[1..]) && n == Int32(i % 0x1_0000_0000))
  }

  ghost predicate ReadsValue(x: Value, d: seq<byte>)
    decreases |d|, 0
  {
    match x
    case Nil => ReadsNil(d)
    case Plain(s) => ReadsScalar(s, d)
    case Table(m) =>
      exists n, m1, h, a, e ::
        && d == h + a + e && h != [] && ReadsSize(n, h) && n < 0x8000_0000
        && ReadsItems(1, n, map[], m1, a) && ReadsEntries(m1, m, e)
  }

  /** Values for the keys `i` to `n`. */
  ghost predicate ReadsItems(i: nat, n: int, m: map<Scalar, Value>, m': map<Scalar, Value>, d: seq<byte>)
    requires n < 0x8000_0000
    decreases |d|, 1
  {
    if i > n then d == [] && m' == m
    else exists x, a, b ::
      d == a + b && a != [] && ReadsValue(x, a) && ReadsItems(i + 1, n, RawSet(m, Int(i), x), m', b)
  }

  /** Pairs of keys and values, then a nil. */
  ghost predicate ReadsEntries(m: map<Scalar, Value>, m': map<Scalar, Value>, d: seq<byte>)
    decreases |d|, 1
  {
    || (ReadsNil(d) && m' == m)
    || exists k, x, a, b, c ::
         && d == a + b + c && a != [] && b != []
         && ReadsScalar(k, a) && ReadsValue(x, b) && ReadsEntries(RawSet(m, k, x), m', c)
  }

  // ----- the parser accepts nothing else

  lemma TakeSplit(s: seq<byte>, n: nat)
    requires n <= |s|
    ensures s == s[..n] + s[n..]
  {
  }

  lemma SignedIs(u: nat)
    ensures u < 0x1_0000_0000 ==> Signed(4, u) == Int32(u) == ToInt32(u)
    ensures Signed(8, u) == Int64(u)
  {
    Pow256s();
  }

  lemma FirstByte(d: seq<byte>)
    requires |d| == 1
    ensures FromLE(d) == d[0]
  {
    assert FromLE(d[1..]) == 0;
  }

  lemma IntSound(cookie: nat, s: seq<byte>) returns (d: seq<byte>)
    requires cookie < 32 && GetInt(cookie, s).Ok?
    ensures s == d + GetInt(cookie, s).value.rest && ReadsInt(GetInt(cookie, s).value.value, [2 + 8 * cookie] + d)
  {
    var n := if cookie == 0 then 0 else if cookie == 1 then 1 else if cookie == 2 then 2
             else if cookie == 4 then 4 else 8;
    d := s[..n];
    TakeSplit(s, n);
    var all := [2 + 8 * cookie] + d;
    assert all[1..] == d;
    Pow256s();
    FromLEBound(d);
    if n == 1 {
      FirstByte(d);
    } else if n == 2 {
      Value2Is(d);
    } else if n == 4 {
      Value4Is(d);
      SignedIs(Value4(d));
    } else if n == 8 {
      Value8Is(d);
      SignedIs(Value8(d));
    }
  }

  lemma StrSound(cookie: nat, s: seq<byte>) returns (d: seq<byte>)
    requires cookie < 32 && GetStr(cookie, s).Ok?
    ensures s == d + GetStr(cookie, s).value.rest
    ensures GetStr(cookie, s).value.value.Plain? && ReadsScalar(GetStr(cookie, s).value.value.s, [4 + 8 * cookie] + d)
  {
    d := s[..cookie];
    TakeSplit(s, cookie);
    assert ([4 + 8 * cookie] + d)[1..] == d;
  }

  lemma LongStrSound(cookie: nat, s: seq<byte>) returns (d: seq<byte>)
    requires cookie < 32 && GetLongStr(cookie, s).Ok?
    ensures s == d + GetLongStr(cookie, s).value.rest
    ensures GetLongStr(cookie, s).value.value.Plain?
    ensures ReadsScalar(GetLongStr(cookie, s).value.value.s, [5 + 8 * cookie] + d)
  {
    var h, rest := s[..cookie], s[cookie..];
    FromLEBound(h);
    Pow256s();
    if cookie == 2 {
      Value2Is(h);
    } else {
      Value4Is(h);
    }
    SignedIs(FromLE(h));
    var n: nat := FromLE(h);
    var b := rest[..n];
    d := h + b;
    TakeSplit(s, cookie);
    TakeSplit(rest, n);
    LongStrParts(cookie, h, b);
    assert s == d + rest[n..];
  }

  lemma LongStrParts(cookie: nat, h: seq<byte>, b: seq<byte>)
    requires |h| == cookie && cookie < 32
    ensures var all := [5 + 8 * cookie] + (h + b); all[1..1 + cookie] == h && all[1 + cookie..] == b
  {
  }

  lemma SizeSound(cookie: nat, s: seq<byte>) returns (d: seq<byte>)
    requires cookie < 32 && GetSize(cookie, s).Ok?
    ensures s == d + GetSize(cookie, s).value.rest && ReadsSize(GetSize(cookie, s).value.value, [6 + 8 * cookie] + d)
  {
    if cookie != 31 {
      d := [];
    } else {
      var c, rest := s[0] / 8, s[1..];
      TagOf(s[0]);
      var e := IntSound(c, rest);
      d := [2 + 8 * c] + e;
      LargeSize(GetInt(c, rest).value.value, d);
      Regrouped(s, [s[0]], rest, e, GetInt(c, rest).value.rest);
    }
  }

  lemma LargeSize(i: int64, d: seq<byte>)
    requires ReadsInt(i, d)
    ensures ReadsSize(ToInt32(i), [254] + d)
  {
    assert ([254] + d)[1..] == d;
  }

  lemma {:induction false} Sound(s: seq<byte>) returns (d: seq<byte>)
    requires Unpack(s).Ok?
    ensures d != [] && s == d + Unpack(s).value.rest && ReadsValue(Unpack(s).value.value, d)
    decreases |s|, 0
  {
    var t, cookie := s[0] % 8, s[0] / 8;
    var e := PushSound(t, cookie, s[1..]);
    TagOf(s[0]);
    d := [t + 8 * cookie] + e;
    Regrouped(s, [s[0]], s[1..], e, Unpack(s).value.rest);
  }

  lemma TagOf(b: byte)
    ensures b == b % 8 + 8 * (b / 8) && b % 8 < 8 && b / 8 < 32
  {
  }

  lemma {:induction false} PushSound(t: nat, cookie: nat, s: seq<byte>) returns (d: seq<byte>)
    requires t < 8 && cookie < 32 && Push(t, cookie, s).Ok?
    ensures s == d + Push(t, cookie, s).value.rest && ReadsValue(Push(t, cookie, s).value.value, [t + 8 * cookie] + d)
    decreases |s|, 3
  {
    if t == TYPE_NIL || t == TYPE_BOOLEAN {
      d := [];
    } else if t == TYPE_USERDATA || (t == TYPE_NUMBER && cookie == NUMBER_REAL) {
      d := s[..8];
      TakeSplit(s, 8);
      assert ([t + 8 * cookie] + d)[1..] == d;
    } else if t == TYPE_NUMBER {
      d := IntSound(cookie, s);
    } else if t == TYPE_SHORT_STRING {
      d := StrSound(cookie, s);
    } else if t == TYPE_LONG_STRING {
      d := LongStrSound(cookie, s);
    } else {
      d := TableSound(cookie, s);
    }
  }

  lemma {:induction false} TableSound(cookie: nat, s: seq<byte>) returns (d: seq<byte>)
    requires cookie < 32 && UnpackTable(cookie, s).Ok?
    ensures s == d + UnpackTable(cookie, s).value.rest
    ensures ReadsValue(UnpackTable(cookie, s).value.value, [6 + 8 * cookie] + d)
    decreases |s|, 2
  {
    var h := SizeSound(cookie, s);
    var n := GetSize(cookie, s).value;
    var m := UnpackArray(1, n.value, map[], n.rest).value;
    var a := ItemsSound(1, n.value, map[], n.rest);
    var e := EntriesSound(m.value, m.rest);
    var x := UnpackHash(m.value, m.rest).value;
    d := h + a + e;
    HeadOff([6 + 8 * cookie], h, a, e, x.rest);
    assert ReadsSize(n.value, [6 + 8 * cookie] + h);
  }

  lemma HeadOff(t: seq<byte>, h: seq<byte>, a: seq<byte>, e: seq<byte>, rest: seq<byte>)
    ensures t + (h + a + e) == (t + h) + a + e && h + (a + (e + rest)) == h + a + e + rest
  {
  }

  lemma {:induction false} ItemsSound(i: nat, n: int, m: map<Scalar, Value>, s: seq<byte>) returns (d: seq<byte>)
    requires n < 0x8000_0000 && UnpackArray(i, n, m, s).Ok?
    ensures s == d + UnpackArray(i, n, m, s).value.rest
    ensures ReadsItems(i, n, m, UnpackArray(i, n, m, s).value.value, d)
    decreases |s|, 1
  {
    if i > n {
      d := [];
    } else {
      ArrayStep(i, n, m, s);
      var p := Unpack(s).value;
      var a := Sound(s);
      var b := ItemsSound(i + 1, n, RawSet(m, Int(i), p.value), p.rest);
      d := a + b;
      var r := UnpackArray(i, n, m, s).value;
      Regrouped(s, a, p.rest, b, r.rest);
      MoreItems(i, n, m, p.value, a, b, r.value, d);
    }
  }

  lemma ArrayStep(i: nat, n: int, m: map<Scalar, Value>, s: seq<byte>)
    requires i <= n < 0x8000_0000 && UnpackArray(i, n, m, s).Ok?
    ensures Unpack(s).Ok?
    ensures var p := Unpack(s).value;
      UnpackArray(i, n, m, s) == UnpackArray(i + 1, n, RawSet(m, Int(i), p.value), p.rest)
  {
  }

  lemma Regrouped(s: seq<byte>, a: seq<byte>, t: seq<byte>, b: seq<byte>, rest: seq<byte>)
    requires s == a + t && t == b + rest
    ensures s == a + b + rest
  {
  }

  lemma MoreItems(i: nat, n: int, m: map<Scalar, Value>, x: Value, a: seq<byte>, b: seq<byte>,
                  m': map<Scalar, Value>, d: seq<byte>)
    requires i <= n < 0x8000_0000 && d == a + b && a != []
    requires ReadsValue(x, a) && ReadsItems(i + 1, n, RawSet(m, Int(i), x), m', b)
    ensures ReadsItems(i, n, m, m', d)
  {
  }

  lemma {:induction false} EntriesSound(m: map<Scalar, Value>, s: seq<byte>) returns (d: seq<byte>)
    requires UnpackHash(m, s).Ok?
    ensures s == d + UnpackHash(m, s).value.rest && UnpackHash(m, s).value.value.Table?
    ensures ReadsEntries(m, UnpackHash(m, s).value.value.m, d)
    decreases |s|, 1
  {
    var k := Unpack(s).value;
    var a := Sound(s);
    if k.value == Nil {
      d := a;
    } else {
      var v := Unpack(k.rest).value;
      var b := Sound(k.rest);
      var c := EntriesSound(RawSet(m, k.value.s, v.value), v.rest);
      d := a + b + c;
      assert s == a + (b + (c + UnpackHash(m, s).value.rest));
    }
  }

  // ----- the parser accepts all of it

  lemma IntComplete(i: int64, d: seq<byte>, rest: seq<byte>)
    requires ReadsInt(i, d)
    ensures d != [] && d[0] % 8 == 2 && d[0] / 8 != NUMBER_REAL
    ensures GetInt(d[0] / 8, d[1..] + rest) == Ok(Parsed(i, rest))
  {
    var e := d[1..];
    TakeFront(e, rest);
    Pow256s();
    FromLEBound(e);
    if |d| == 1 {
      assert e + rest == rest;
    } else if |d| == 2 {
      FirstByte(e);
    } else if |d| == 3 {
      Value2Is(e);
    } else if |d| == 5 {
      Value4Is(e);
      SignedIs(Value4(e));
    } else {
      Value8Is(e);
      SignedIs(Value8(e));
    }
  }

  lemma StrComplete(b: seq<byte>, d: seq<byte>, rest: seq<byte>)
    requires ReadsStr(b, d)
    ensures Unpack(d + rest) == Ok(Parsed(Plain(Str(b)), rest))
  {
    assert (d + rest)[1..] == d[1..] + rest;
    if d[0] % 8 == 4 {
      TakeFront(b, rest);
    } else {
      var n := if d[0] == 21 then 2 else 4;
      var h := d[1..1 + n];
      LongStrTaken(d, n, b, rest);
      FromLEBound(h);
      Pow256s();
      if n == 2 {
        Value2Is(h);
      } else {
        Value4Is(h);
      }
      SignedIs(FromLE(h));
    }
  }

  lemma LongStrTaken(d: seq<byte>, n: nat, b: seq<byte>, rest: seq<byte>)
    requires |d| >= 1 + n && d[1 + n..] == b
    ensures Take(d[1..] + rest, n) == Ok(Parsed(d[1..1 + n], b + rest))
    ensures Take(b + rest, |b|) == Ok(Parsed(b, rest))
  {
    assert d[1..] + rest == d[1..1 + n] + (b + rest);
    TakeFront(d[1..1 + n], b + rest);
    TakeFront(b, rest);
  }

  lemma ScalarComplete(s: Scalar, d: seq<byte>, rest: seq<byte>)
    requires ReadsScalar(s, d)
    ensures Unpack(d + rest) == Ok(Parsed(Plain(s), rest))
  {
    assert (d + rest)[1..] == d[1..] + rest;
    match s
    case Bool(b) => assert d[1..] + rest == rest;
    case Int(i) => IntComplete(i, d, rest);
    case Str(b) => StrComplete(b, d, rest);
    case Real(bits) => TakeFront(bits, rest);
    case Pointer(bits) => TakeFront(bits, rest);
  }

  lemma SizeComplete(n: int, h: seq<byte>, rest: seq<byte>)
    requires h != [] && ReadsSize(n, h) && n < 0x8000_0000
    ensures h[0] % 8 == 6 && GetSize(h[0] / 8, h[1..] + rest) == Ok(Parsed(n, rest))
  {
    if |h| == 1 && h[0] != 254 {
      assert h[1..] + rest == rest;
    } else {
      var i: int64 :| ReadsInt(i, h[1..]) && n == Int32(i % 0x1_0000_0000);
      IntComplete(i, h[1..], rest);
      SizeTaken(h, rest);
    }
  }

  lemma SizeTaken(h: seq<byte>, rest: seq<byte>)
    requires |h| >= 2
    ensures Take(h[1..] + rest, 1) == Ok(Parsed([h[1]], h[1..][1..] + rest))
  {
    assert h[1..] + rest == [h[1]] + (h[1..][1..] + rest);
    TakeFront([h[1]], h[1..][1..] + rest);
  }

  lemma {:induction false} Complete(x: Value, d: seq<byte>, rest: seq<byte>)
    requires ReadsValue(x, d)
    ensures Unpack(d + rest) == Ok(Parsed(x, rest))
    decreases |d|, 0
  {
    match x
    case Nil => NilComplete(d, rest);
    case Plain(s) => ScalarComplete(s, d, rest);
    case Table(m) =>
      var n, m1, h, a, e :|
        && d == h + a + e && h != [] && ReadsSize(n, h) && n < 0x8000_0000
        && ReadsItems(1, n, map[], m1, a) && ReadsEntries(m1, m, e);
      SizeComplete(n, h, a + (e + rest));
      ItemsComplete(1, n, map[], m1, a, e + rest);
      EntriesComplete(m1, m, e, rest);
      HeadOn(d, h, a, e, rest);
      TableStep(d + rest, h[0] / 8, h[1..] + (a + (e + rest)), n, a + (e + rest), m1, e + rest, m, rest);
  }

  lemma TableStep(s: seq<byte>, cookie: nat, s1: seq<byte>, n: int, s2: seq<byte>, m1: map<Scalar, Value>,
                  s3: seq<byte>, m: map<Scalar, Value>, rest: seq<byte>)
    requires s != [] && s[0] % 8 == 6 && s[0] / 8 == cookie && s[1..] == s1 && n < 0x8000_0000
    requires GetSize(cookie, s1) == Ok(Parsed(n, s2)) && UnpackArray(1, n, map[], s2) == Ok(Parsed(m1, s3))
    requires UnpackHash(m1, s3) == Ok(Parsed(Table(m), rest))
    ensures Unpack(s) == Ok(Parsed(Table(m), rest))
  {
    assert Push(6, cookie, s1) == UnpackTable(cookie, s1);
  }

  lemma HeadOn(d: seq<byte>, h: seq<byte>, a: seq<byte>, e: seq<byte>, rest: seq<byte>)
    requires d == h + a + e && h != []
    ensures (d + rest)[0] == h[0] && (d + rest)[1..] == h[1..] + (a + (e + rest))
  {
  }

  lemma NilComplete(d: seq<byte>, rest: seq<byte>)
    requires ReadsNil(d)
    ensures Unpack(d + rest) == Ok(Parsed(Nil, rest))
  {
    assert (d + rest)[1..] == rest;
  }

  lemma {:induction false} ItemsComplete(i: nat, n: int, m: map<Scalar, Value>, m': map<Scalar, Value>,
                                         d: seq<byte>, rest: seq<byte>)
    requires n < 0x8000_0000 && ReadsItems(i, n, m, m', d)
    ensures UnpackArray(i, n, m, d + rest) == Ok(Parsed(m', rest))
    decreases |d|, 1
  {
    if i > n {
      assert d + rest == rest;
    } else {
      var x, a, b :|
        d == a + b && a != [] && ReadsValue(x, a) && ReadsItems(i + 1, n, RawSet(m, Int(i), x), m', b);
      Complete(x, a, b + rest);
      ItemsComplete(i + 1, n, RawSet(m, Int(i), x), m', b, rest);
      Assoc(a, b, rest);
      ArrayOn(i, n, m, x, d + rest, b + rest);
    }
  }

  lemma ArrayOn(i: nat, n: int, m: map<Scalar, Value>, x: Value, s: seq<byte>, rest: seq<byte>)
    requires i <= n < 0x8000_0000 && Unpack(s) == Ok(Parsed(x, rest))
    ensures UnpackArray(i, n, m, s) == UnpackArray(i + 1, n, RawSet(m, Int(i), x), rest)
  {
  }

  lemma {:induction false} EntriesComplete(m: map<Scalar, Value>, m': map<Scalar, Value>, d: seq<byte>, rest: seq<byte>)
    requires ReadsEntries(m, m', d)
    ensures UnpackHash(m, d + rest) == Ok(Parsed(Table(m'), rest))
    decreases |d|, 1
  {
    if ReadsNil(d) && m' == m {
      NilComplete(d, rest);
      HashEnd(m, d + rest, rest);
    } else {
      var k, x, a, b, c :|
        && d == a + b + c && a != [] && b != []
        && ReadsScalar(k, a) && ReadsValue(x, b) && ReadsEntries(RawSet(m, k, x), m', c);
      PairComplete(k, x, a, b, c + rest);
      EntriesComplete(RawSet(m, k, x), m', c, rest);
      PairOn(d, a, b, c, rest);
      HashStep(m, k, x, d + rest, b + (c + rest), c + rest);
    }
  }

  lemma {:induction false} PairComplete(k: Scalar, x: Value, a: seq<byte>, b: seq<byte>, rest: seq<byte>)
    requires ReadsScalar(k, a) && ReadsValue(x, b)
    ensures Unpack(a + (b + rest)) == Ok(Parsed(Plain(k), b + rest)) && Unpack(b + rest) == Ok(Parsed(x, rest))
    decreases |b|, 2
  {
    ScalarComplete(k, a, b + rest);
    Complete(x, b, rest);
  }

  lemma PairOn(d: seq<byte>, a: seq<byte>, b: seq<byte>, c: seq<byte>, rest: seq<byte>)
    requires d == a + b + c
    ensures d + rest == a + (b + (c + rest))
  {
  }

  lemma HashEnd(m: map<Scalar, Value>, s: seq<byte>, rest: seq<byte>)
    requires Unpack(s) == Ok(Parsed(Nil, rest))
    ensures UnpackHash(m, s) == Ok(Parsed(Table(m), rest))
  {
  }

  lemma HashStep(m: map<Scalar, Value>, k: Scalar, x: Value, s0: seq<byte>, s1: seq<byte>, s2: seq<byte>)
    requires Unpack(s0) == Ok(Parsed(Plain(k), s1)) && Unpack(s1) == Ok(Parsed(x, s2))
    ensures UnpackHash(m, s0) == UnpackHash(RawSet(m, k, x), s2)
  {
  }

  /** The parser accepts exactly the format, and reads from it what it says, in every stream. */
  lemma ParserExact(s: seq<byte>, x: Value, rest: seq<byte>)
    ensures Unpack(s) == Ok(Parsed(x, rest)) <==> exists d :: s == d + rest && ReadsValue(x, d)
  {
    if Unpack(s) == Ok(Parsed(x, rest)) {
      var d := Sound(s);
    }
    if exists d :: s == d + rest && ReadsValue(x, d) {
      var d :| s == d + rest && ReadsValue(x, d);
      Complete(x, d, rest);
    }
  }

  ghost predicate ReadsList(xs: seq<Value>, s: seq<byte>)
    decreases xs
  {
    if xs == [] then s == []
    else exists a, b :: s == a + b && ReadsValue(xs[0], a) && ReadsList(xs[1..], b)
  }

  lemma AllStep(s: seq<byte>)
    requires s != [] && UnpackAll(s).Ok?
    ensures Unpack(s).Ok? && UnpackAll(Unpack(s).value.rest).Ok?
    ensures UnpackAll(s).value == [Unpack(s).value.value] + UnpackAll(Unpack(s).value.rest).value
  {
  }

  lemma {:induction false} AllSound(s: seq<byte>)
    requires UnpackAll(s).Ok?
    ensures ReadsList(UnpackAll(s).value, s)
    decreases |s|
  {
    if s != [] {
      AllStep(s);
      var p := Unpack(s).value;
      var a := Sound(s);
      AllSound(p.rest);
      assert UnpackAll(s).value[1..] == UnpackAll(p.rest).value;
    }
  }

  lemma {:induction false} AllComplete(xs: seq<Value>, s: seq<byte>)
    requires ReadsList(xs, s)
    ensures UnpackAll(s) == Ok(xs)
  {
    if xs != [] {
      var a, b :| s == a + b && ReadsValue(xs[0], a) && ReadsList(xs[1..], b);
      Complete(xs[0], a, b);
      AllComplete(xs[1..], b);
      AllOn(s, xs[0], b);
      assert xs == [xs[0]] + xs[1..];
    }
  }

  lemma AllOn(s: seq<byte>, x: Value, rest: seq<byte>)
    requires Unpack(s) == Ok(Parsed(x, rest)) && UnpackAll(rest).Ok?
    ensures UnpackAll(s) == Ok([x] + UnpackAll(rest).value)
  {
  }

  /** A stream is read to its end if and only if it is a list of values in this format. */
  lemma ListExact(s: seq<byte>, xs: seq<Value>)
    ensures UnpackAll(s) == Ok(xs) <==> ReadsList(xs, s)
  {
    if UnpackAll(s) == Ok(xs) {
      AllSound(s);
    }
    if ReadsList(xs, s) {
      AllComplete(xs, s);
    }
  }
}
