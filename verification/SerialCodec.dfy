/** The tagged encoding of Lua values, as functions on byte strings, and why the printer and
  the parser undo each other. */
module SerialCodec {
  import opened Bytes
  import opened Seqs

  type int64 = x: int | -0x8000_0000_0000_0000 <= x < 0x8000_0000_0000_0000 witness 0

  datatype Result<T> = Ok(value: T) | Err(error: Error) {
    predicate IsFailure() { Err? }

    function PropagateFailure<U>(): Result<U>
      requires Err?
    {
      Err(error)
    }

    function Extract(): T
      requires Ok?
    {
      value
    }
  }

  datatype Error = TooDeep | Unsupported | InvalidStream

  // ----- integers

  /** Two's complement in `n` bytes. */
  function Unsigned(n: nat, x: int): nat
    requires -(Pow256(n) as int) <= 2 * x < Pow256(n)
  {
    if x < 0 then x + Pow256(n) else x
  }

  function Signed(n: nat, u: nat): int {
    if 2 * u < Pow256(n) then u else u - Pow256(n)
  }

  lemma SignedRoundTrip(n: nat, x: int)
    requires -(Pow256(n) as int) <= 2 * x < Pow256(n)
    ensures Unsigned(n, x) < Pow256(n) && Signed(n, Unsigned(n, x)) == x
    ensures FromLE(LE(n, Unsigned(n, x))) == Unsigned(n, x)
  {
    ReadWritten(n, Unsigned(n, x));
  }

  // ----- values

  const TYPE_NIL := 0
  const TYPE_BOOLEAN := 1
  const TYPE_NUMBER := 2
  const NUMBER_ZERO := 0
  const NUMBER_BYTE := 1
  const NUMBER_WORD := 2
  const NUMBER_DWORD := 4
  const NUMBER_QWORD := 6
  const NUMBER_REAL := 8
  const TYPE_USERDATA := 3
  const TYPE_SHORT_STRING := 4
  const TYPE_LONG_STRING := 5
  const TYPE_TABLE := 6
  const MAX_COOKIE := 32
  const MAX_DEPTH := 32
  const INT_MAX := 0x7fff_ffff

  /** Values other than nil and tables; a float or a pointer is its eight bytes. */
  datatype Scalar = Bool(b: bool) | Int(i: int64) | Real(bits: seq<byte>) | Pointer(bits: seq<byte>) | Str(s: seq<byte>)

  /** A Lua value as far as it can be packed. A table maps scalar keys to values other than nil. */
  datatype Value = Nil | Plain(s: Scalar) | Table(m: map<Scalar, Value>)

  /** A Lua value as the packer walks through it: the length `lua_rawlen` answers and the order
      in which `lua_next` lists the remaining entries are the table's own choice. */
  datatype View =
    | VNil
    | VPlain(s: Scalar)
    | VTable(arr: seq<View>, hash: seq<Entry>)
    | VOther
  datatype Entry = Entry(key: Scalar, val: View)

  predicate GoodScalar(s: Scalar) {
    match s
    case Real(bits) => |bits| == 8
    case Pointer(bits) => |bits| == 8
    case Str(b) => |b| <= INT_MAX
    case _ => true
  }

  /** Lengths fit the C types they are kept in. */
  predicate Good(v: View) {
    match v
    case VPlain(s) => GoodScalar(s)
    case VTable(arr, hash) =>
      && |arr| <= INT_MAX
      && (forall i | 0 <= i < |arr| :: Good(arr[i]))
      && (forall i | 0 <= i < |hash| :: GoodScalar(hash[i].key) && Good(hash[i].val))
    case _ => true
  }

  // ----- the printer

  /** A type byte: type in the low three bits, cookie in the high five. */
  function Tag(t: nat, cookie: nat): byte
    requires t < 8 && cookie < 32
  {
    t + 8 * cookie
  }

  function PackInt(v: int64): (r: seq<byte>)
    ensures |r| >= 1
  {
    Pow256s();
    if v == 0 then [Tag(TYPE_NUMBER, NUMBER_ZERO)]
    else if !(-0x8000_0000 <= v < 0x8000_0000) then [Tag(TYPE_NUMBER, NUMBER_QWORD)] + LE(8, Unsigned(8, v))
    else if v < 0 then [Tag(TYPE_NUMBER, NUMBER_DWORD)] + LE(4, Unsigned(4, v))
    else if v < 0x100 then [Tag(TYPE_NUMBER, NUMBER_BYTE)] + LE(1, v)
    else if v < 0x10000 then [Tag(TYPE_NUMBER, NUMBER_WORD)] + LE(2, v)
    else [Tag(TYPE_NUMBER, NUMBER_DWORD)] + LE(4, v)
  }

  function PackStr(s: seq<byte>): (r: seq<byte>)
    ensures |r| >= 1
  {
    if |s| < MAX_COOKIE then [Tag(TYPE_SHORT_STRING, |s|)] + s
    else if |s| < 0x10000 then [Tag(TYPE_LONG_STRING, 2)] + LE(2, |s|) + s
    else [Tag(TYPE_LONG_STRING, 4)] + LE(4, |s|) + s
  }

  function PackScalar(s: Scalar): (r: seq<byte>)
    ensures |r| >= 1
  {
    match s
    case Bool(b) => [Tag(TYPE_BOOLEAN, if b then 1 else 0)]
    case Int(i) => PackInt(i)
    case Real(bits) => [Tag(TYPE_NUMBER, NUMBER_REAL)] + bits
    case Pointer(bits) => [Tag(TYPE_USERDATA, 0)] + bits
    case Str(b) => PackStr(b)
  }

  function TableHeader(n: nat): (r: seq<byte>)
    requires n <= INT_MAX
    ensures |r| >= 1
  {
    if n >= MAX_COOKIE - 1 then [Tag(TYPE_TABLE, MAX_COOKIE - 1)] + PackInt(n) else [Tag(TYPE_TABLE, n)]
  }

  function Pack(v: View, depth: nat): Result<seq<byte>>
    requires Good(v)
    decreases v, 0
  {
    if depth > MAX_DEPTH then Err(TooDeep)
    else match v
      case VNil => Ok([Tag(TYPE_NIL, 0)])
      case VPlain(s) => Ok(PackScalar(s))
      case VOther => Err(Unsupported)
      case VTable(arr, hash) =>
        var a :- PackArray(arr, depth + 1);
        var h :- PackHash(hash, depth + 1);
        Ok(TableHeader(|arr|) + a + h + [Tag(TYPE_NIL, 0)])
  }

  function PackArray(vs: seq<View>, depth: nat): Result<seq<byte>>
    requires forall i | 0 <= i < |vs| :: Good(vs[i])
    decreases vs, 1
  {
    if vs == [] then Ok([])
    else
      var a :- Pack(vs[0], depth);
      var b :- PackArray(vs[1..], depth);
      Ok(a + b)
  }

  function PackHash(es: seq<Entry>, depth: nat): Result<seq<byte>>
    requires forall i | 0 <= i < |es| :: GoodScalar(es[i].key) && Good(es[i].val)
    decreases es, 1
  {
    if es == [] then Ok([])
    else
      var a :- PackEntry(es[0], depth);
      var b :- PackHash(es[1..], depth);
      Ok(a + b)
  }

  function PackEntry(e: Entry, depth: nat): Result<seq<byte>>
    requires GoodScalar(e.key) && Good(e.val)
    decreases e, 1
  {
    if depth > MAX_DEPTH then Err(TooDeep)
    else
      var a :- Pack(e.val, depth);
      Ok(PackScalar(e.key) + a)
  }

  // ----- the parser

  /** A parsed result and what is left of the stream. */
  datatype Parsed<T> = Parsed(value: T, rest: seq<byte>)

  /** `rb_read`. */
  function Take(s: seq<byte>, n: nat): (r: Result<Parsed<seq<byte>>>)
    ensures r.Ok? <==> n <= |s|
    ensures r.Ok? ==> r.value.value == s[..n] && r.value.rest == s[n..]
  {
    if n > |s| then Err(InvalidStream) else Ok(Parsed(s[..n], s[n..]))
  }

  function GetInt(cookie: nat, s: seq<byte>): (r: Result<Parsed<int64>>)
    ensures r.Ok? ==> |r.value.rest| <= |s|
  {
    Pow256s();
    if cookie == NUMBER_ZERO then Ok(Parsed(0, s))
    else if cookie == NUMBER_BYTE || cookie == NUMBER_WORD || cookie == NUMBER_DWORD || cookie == NUMBER_QWORD then
      var n :=
        if cookie == NUMBER_BYTE then 1
        else if cookie == NUMBER_WORD then 2
        else if cookie == NUMBER_DWORD then 4
        else 8;
      var p :- Take(s, n);
      FromLEBound(p.value);
      Ok(Parsed(if n <= 2 then FromLE(p.value) else Signed(n, FromLE(p.value)), p.rest))
    else Err(InvalidStream)
  }

  /** A 64-bit count kept in a C `int`. */
  function ToInt32(x: int): int {
    var u := x % 0x1_0000_0000;
    if u < 0x8000_0000 then u else u - 0x1_0000_0000
  }

  /** `lua_rawset`: storing nil removes the entry. */
  function RawSet(m: map<Scalar, Value>, k: Scalar, v: Value): map<Scalar, Value> {
    if v == Nil then m - {k} else m[k := v]
  }

  function GetStr(n: int, s: seq<byte>): (r: Result<Parsed<Value>>)
    ensures r.Ok? ==> |r.value.rest| <= |s|
  {
    if n < 0 then Err(InvalidStream)
    else
      var p :- Take(s, n);
      Ok(Parsed(Plain(Str(p.value)), p.rest))
  }

  function GetLongStr(cookie: nat, s: seq<byte>): (r: Result<Parsed<Value>>)
    ensures r.Ok? ==> |r.value.rest| <= |s|
  {
    if cookie == 2 || cookie == 4 then
      var p :- Take(s, cookie);
      GetStr(ToInt32(FromLE(p.value)), p.rest)
    else Err(InvalidStream)
  }

  /** `unpack_one`. */
  function Unpack(s: seq<byte>): (r: Result<Parsed<Value>>)
    ensures r.Ok? ==> |r.value.rest| < |s|
    decreases |s|, 0
  {
    if s == [] then Err(InvalidStream) else Push(s[0] % 8, s[0] / 8, s[1..])
  }

  /** `push_value`. */
  function Push(t: nat, cookie: nat, s: seq<byte>): (r: Result<Parsed<Value>>)
    requires cookie < 32
    ensures r.Ok? ==> |r.value.rest| <= |s|
    decreases |s|, 3
  {
    if t == TYPE_NIL then Ok(Parsed(Nil, s))
    else if t == TYPE_BOOLEAN then Ok(Parsed(Plain(Bool(cookie != 0)), s))
    else if t == TYPE_NUMBER && cookie == NUMBER_REAL then
      var p :- Take(s, 8);
      Ok(Parsed(Plain(Real(p.value)), p.rest))
    else if t == TYPE_NUMBER then
      var p :- GetInt(cookie, s);
      Ok(Parsed(Plain(Int(p.value)), p.rest))
    else if t == TYPE_USERDATA then
      var p :- Take(s, 8);
      Ok(Parsed(Plain(Pointer(p.value)), p.rest))
    else if t == TYPE_SHORT_STRING then GetStr(cookie, s)
    else if t == TYPE_LONG_STRING then GetLongStr(cookie, s)
    else if t == TYPE_TABLE then UnpackTable(cookie, s)
    else Err(InvalidStream)
  }

  /** The array size of a table: the cookie, or an integer of its own. */
  function GetSize(cookie: nat, s: seq<byte>): (r: Result<Parsed<int>>)
    requires cookie < 32
    ensures r.Ok? ==> |r.value.rest| <= |s| && r.value.value < 0x8000_0000
  {
    if cookie != MAX_COOKIE - 1 then Ok(Parsed(cookie, s))
    else
      var p :- Take(s, 1);
      if p.value[0] % 8 != TYPE_NUMBER || p.value[0] / 8 == NUMBER_REAL then Err(InvalidStream)
      else
        var q :- GetInt(p.value[0] / 8, p.rest);
        Ok(Parsed(ToInt32(q.value), q.rest))
  }

  function UnpackTable(cookie: nat, s: seq<byte>): (r: Result<Parsed<Value>>)
    requires cookie < 32
    ensures r.Ok? ==> |r.value.rest| <= |s|
    decreases |s|, 2
  {
    var n :- GetSize(cookie, s);
    var a :- UnpackArray(1, n.value, map[], n.rest);
    UnpackHash(a.value, a.rest)
  }

  /** Entries `i` to `n` of the array part. */
  function UnpackArray(i: nat, n: int, m: map<Scalar, Value>, s: seq<byte>): (r: Result<Parsed<map<Scalar, Value>>>)
    requires n < 0x8000_0000
    ensures r.Ok? ==> |r.value.rest| <= |s|
    decreases |s|, 1
  {
    if i > n then Ok(Parsed(m, s))
    else
      var p :- Unpack(s);
      UnpackArray(i + 1, n, RawSet(m, Int(i), p.value), p.rest)
  }

  /** Key and value pairs up to a nil key. */
  function UnpackHash(m: map<Scalar, Value>, s: seq<byte>): (r: Result<Parsed<Value>>)
    ensures r.Ok? ==> |r.value.rest| <= |s|
    decreases |s|, 1
  {
    var k :- Unpack(s);
    match k.value
    case Nil => Ok(Parsed(Table(m), k.rest))
    case Table(_) => Err(Unsupported)
    case Plain(key) =>
      var v :- Unpack(k.rest);
      UnpackHash(RawSet(m, key, v.value), v.rest)
  }

  // ----- what a walk denotes

  function Denote(v: View): Value
    requires Good(v)
    decreases v, 0
  {
    match v
    case VPlain(s) => Plain(s)
    case VTable(arr, hash) => Table(DenoteHash(DenoteArray(arr, 1, map[]), hash))
    case _ => Nil
  }

  function DenoteArray(vs: seq<View>, i: nat, m: map<Scalar, Value>): map<Scalar, Value>
    requires i + |vs| <= INT_MAX + 1 && forall j | 0 <= j < |vs| :: Good(vs[j])
    decreases vs, 1
  {
    if vs == [] then m else DenoteArray(vs[1..], i + 1, RawSet(m, Int(i), Denote(vs[0])))
  }

  function DenoteHash(m: map<Scalar, Value>, es: seq<Entry>): map<Scalar, Value>
    requires forall j | 0 <= j < |es| :: GoodScalar(es[j].key) && Good(es[j].val)
    decreases es, 1
  {
    if es == [] then m else DenoteHash(RawSet(m, es[0].key, DenoteEntry(es[0])), es[1..])
  }

  function DenoteEntry(e: Entry): Value
    requires Good(e.val)
    decreases e, 1
  {
    Denote(e.val)
  }

  // ----- the parser undoes the printer

  lemma TakeFront(a: seq<byte>, b: seq<byte>)
    ensures Take(a + b, |a|) == Ok(Parsed(a, b))
  {
    assert (a + b)[..|a|] == a && (a + b)[|a|..] == b;
  }

  lemma TagParts(t: nat, cookie: nat)
    requires t < 8 && cookie < 32
    ensures Tag(t, cookie) % 8 == t && Tag(t, cookie) / 8 == cookie
  {
  }

  /** Reading `tag`, then `body`, then stopping in front of `tail`. */
  lemma UnpackTagged(t: nat, cookie: nat, body: seq<byte>, tail: seq<byte>)
    requires t < 8 && cookie < 32
    ensures Unpack([Tag(t, cookie)] + body + tail) == Push(t, cookie, body + tail)
  {
    TagParts(t, cookie);
    var s := [Tag(t, cookie)] + body + tail;
    assert s[1..] == body + tail;
  }

  ghost function IntCookie(v: int64): (c: nat)
    ensures c < 32 && c != NUMBER_REAL
  {
    if v == 0 then NUMBER_ZERO
    else if !(-0x8000_0000 <= v < 0x8000_0000) then NUMBER_QWORD
    else if v < 0 then NUMBER_DWORD
    else if v < 0x100 then NUMBER_BYTE
    else if v < 0x10000 then NUMBER_WORD
    else NUMBER_DWORD
  }

  ghost function IntBody(v: int64): seq<byte> {
    Pow256s();
    if v == 0 then []
    else if !(-0x8000_0000 <= v < 0x8000_0000) then LE(8, Unsigned(8, v))
    else if v < 0 then LE(4, Unsigned(4, v))
    else if v < 0x100 then LE(1, v)
    else if v < 0x10000 then LE(2, v)
    else LE(4, v)
  }

  /** Every 64-bit integer is read back from its shortest form. */
  lemma IntRoundTrip(v: int64, tail: seq<byte>)
    ensures PackInt(v) == [Tag(TYPE_NUMBER, IntCookie(v))] + IntBody(v)
    ensures GetInt(IntCookie(v), IntBody(v) + tail) == Ok(Parsed(v, tail))
  {
    Pow256s();
    TakeFront(IntBody(v), tail);
    if v == 0 {
      assert [] + tail == tail;
    } else if !(-0x8000_0000 <= v < 0x8000_0000) {
      SignedRoundTrip(8, v);
    } else if v < 0 || v >= 0x10000 {
      SignedRoundTrip(4, v);
    } else if v < 0x100 {
      ReadWritten(1, v);
    } else {
      ReadWritten(2, v);
    }
  }

  lemma SmallInt32(x: int)
    requires 0 <= x <= INT_MAX
    ensures ToInt32(x) == x
  {
  }

  lemma LongStrRead(n: nat, b: seq<byte>, tail: seq<byte>)
    requires (n == 2 || n == 4) && |b| < Pow256(n) && |b| <= INT_MAX
    ensures GetLongStr(n, LE(n, |b|) + b + tail) == Ok(Parsed(Plain(Str(b)), tail))
  {
    var h, s := LE(n, |b|), LE(n, |b|) + b + tail;
    ReadWritten(n, |b|);
    SmallInt32(|b|);
    assert s == h + (b + tail);
    TakeFront(h, b + tail);
    TakeFront(b, tail);
    assert GetLongStr(n, s) == GetStr(ToInt32(FromLE(h)), b + tail);
  }

  lemma LongStrRoundTrip(n: nat, b: seq<byte>, tail: seq<byte>)
    requires (n == 2 || n == 4) && |b| < Pow256(n) && |b| <= INT_MAX
    ensures Unpack([Tag(TYPE_LONG_STRING, n)] + LE(n, |b|) + b + tail) == Ok(Parsed(Plain(Str(b)), tail))
  {
    LongStrRead(n, b, tail);
    UnpackTagged(TYPE_LONG_STRING, n, LE(n, |b|) + b, tail);
    assert [Tag(TYPE_LONG_STRING, n)] + (LE(n, |b|) + b) + tail == [Tag(TYPE_LONG_STRING, n)] + LE(n, |b|) + b + tail;
  }

  lemma StrRoundTrip(b: seq<byte>, tail: seq<byte>)
    requires |b| <= INT_MAX
    ensures Unpack(PackStr(b) + tail) == Ok(Parsed(Plain(Str(b)), tail))
  {
    Pow256s();
    if |b| < MAX_COOKIE {
      TakeFront(b, tail);
      UnpackTagged(TYPE_SHORT_STRING, |b|, b, tail);
    } else {
      LongStrRoundTrip(if |b| < 0x10000 then 2 else 4, b, tail);
    }
  }

  lemma ScalarRoundTrip(s: Scalar, tail: seq<byte>)
    requires GoodScalar(s)
    ensures Unpack(PackScalar(s) + tail) == Ok(Parsed(Plain(s), tail))
  {
    match s
    case Bool(b) =>
      UnpackTagged(TYPE_BOOLEAN, if b then 1 else 0, [], tail);
      assert [Tag(TYPE_BOOLEAN, if b then 1 else 0)] + [] + tail == PackScalar(s) + tail;
      assert [] + tail == tail;
    case Int(i) =>
      IntRoundTrip(i, tail);
      UnpackTagged(TYPE_NUMBER, IntCookie(i), IntBody(i), tail);
    case Real(bits) =>
      TakeFront(bits, tail);
      UnpackTagged(TYPE_NUMBER, NUMBER_REAL, bits, tail);
    case Pointer(bits) =>
      TakeFront(bits, tail);
      UnpackTagged(TYPE_USERDATA, 0, bits, tail);
    case Str(b) => StrRoundTrip(b, tail);
  }

  /** The table header announces the array size, be it small or large. */
  lemma SizeRoundTrip(n: nat, tail: seq<byte>)
    requires n <= INT_MAX
    ensures Unpack(TableHeader(n) + tail) == UnpackSized(n, tail)
  {
    if n < MAX_COOKIE - 1 {
      UnpackTagged(TYPE_TABLE, n, [], tail);
      assert [Tag(TYPE_TABLE, n)] + [] + tail == TableHeader(n) + tail;
      assert [] + tail == tail;
    } else {
      LargeSizeRead(n, tail);
      UnpackTagged(TYPE_TABLE, MAX_COOKIE - 1, PackInt(n), tail);
    }
  }

  lemma LargeSizeRead(n: nat, tail: seq<byte>)
    requires n <= INT_MAX
    ensures GetSize(MAX_COOKIE - 1, PackInt(n) + tail) == Ok(Parsed(n, tail))
  {
    IntRoundTrip(n, tail);
    SmallInt32(n);
    TagParts(TYPE_NUMBER, IntCookie(n));
    TagFirst(Tag(TYPE_NUMBER, IntCookie(n)), IntBody(n), tail);
  }

  lemma TagFirst(tag: byte, body: seq<byte>, tail: seq<byte>)
    ensures Take([tag] + body + tail, 1) == Ok(Parsed([tag], body + tail))
  {
    assert [tag] + body + tail == [tag] + (body + tail);
    TakeFront([tag], body + tail);
  }

  ghost function UnpackSized(n: nat, s: seq<byte>): Result<Parsed<Value>>
    requires n <= INT_MAX
  {
    var a :- UnpackArray(1, n, map[], s);
    UnpackHash(a.value, a.rest)
  }

  /** Unpacking undoes packing for one value, whatever follows it in the stream. */
  lemma {:induction false} RoundTrip(v: View, depth: nat, tail: seq<byte>)
    requires Good(v) && Pack(v, depth).Ok?
    ensures Unpack(Pack(v, depth).value + tail) == Ok(Parsed(Denote(v), tail))
    decreases v, 0
  {
    match v
    case VNil => NilRoundTrip(tail);
    case VPlain(s) => ScalarRoundTrip(s, tail);
    case VTable(arr, hash) =>
      var a, b := PackArray(arr, depth + 1).value, PackHash(hash, depth + 1).value;
      ArrayRoundTrip(arr, depth + 1, 1, map[], b + [Tag(TYPE_NIL, 0)] + tail);
      HashRoundTrip(hash, depth + 1, DenoteArray(arr, 1, map[]), tail);
      TableBack(|arr|, a, b, tail, DenoteArray(arr, 1, map[]), Denote(v));
  }

  lemma NilRoundTrip(tail: seq<byte>)
    ensures Unpack([Tag(TYPE_NIL, 0)] + tail) == Ok(Parsed(Nil, tail))
  {
    UnpackTagged(TYPE_NIL, 0, [], tail);
    assert [Tag(TYPE_NIL, 0)] + [] + tail == [Tag(TYPE_NIL, 0)] + tail;
    assert [] + tail == tail;
  }

  /** A table is read back when its array part and its hash part are. */
  lemma TableBack(n: nat, a: seq<byte>, b: seq<byte>, tail: seq<byte>, m: map<Scalar, Value>, v: Value)
    requires n <= INT_MAX
    requires UnpackArray(1, n, map[], a + (b + [Tag(TYPE_NIL, 0)] + tail))
          == Ok(Parsed(m, b + [Tag(TYPE_NIL, 0)] + tail))
    requires UnpackHash(m, b + [Tag(TYPE_NIL, 0)] + tail) == Ok(Parsed(v, tail))
    ensures Unpack(TableHeader(n) + a + b + [Tag(TYPE_NIL, 0)] + tail) == Ok(Parsed(v, tail))
  {
    TableRead(n, a, b + [Tag(TYPE_NIL, 0)], tail);
    AssocFour(TableHeader(n), a, b, [Tag(TYPE_NIL, 0)]);
  }

  lemma TableRead(n: nat, a: seq<byte>, b: seq<byte>, tail: seq<byte>)
    requires n <= INT_MAX
    ensures Unpack(TableHeader(n) + a + b + tail) == UnpackSized(n, a + (b + tail))
  {
    SizeRoundTrip(n, a + (b + tail));
    AssocFour(TableHeader(n), a, b, tail);
  }

  lemma {:induction false} ArrayRoundTrip(vs: seq<View>, depth: nat, i: nat, m: map<Scalar, Value>, tail: seq<byte>)
    requires i + |vs| <= INT_MAX + 1 && forall j | 0 <= j < |vs| :: Good(vs[j])
    requires PackArray(vs, depth).Ok?
    ensures UnpackArray(i, i + |vs| - 1, m, PackArray(vs, depth).value + tail)
         == Ok(Parsed(DenoteArray(vs, i, m), tail))
    decreases vs, 1
  {
    if vs == [] {
      assert [] + tail == tail;
    } else {
      var a, b := Pack(vs[0], depth).value, PackArray(vs[1..], depth).value;
      assert a + b + tail == a + (b + tail);
      RoundTrip(vs[0], depth, b + tail);
      ArrayRoundTrip(vs[1..], depth, i + 1, RawSet(m, Int(i), Denote(vs[0])), tail);
    }
  }

  lemma {:induction false} HashRoundTrip(es: seq<Entry>, depth: nat, m: map<Scalar, Value>, tail: seq<byte>)
    requires forall j | 0 <= j < |es| :: GoodScalar(es[j].key) && Good(es[j].val)
    requires PackHash(es, depth).Ok?
    ensures UnpackHash(m, PackHash(es, depth).value + [Tag(TYPE_NIL, 0)] + tail)
         == Ok(Parsed(Table(DenoteHash(m, es)), tail))
    decreases es, 1
  {
    var nil := [Tag(TYPE_NIL, 0)];
    if es == [] {
      NilRoundTrip(tail);
      assert [] + nil == nil;
    } else {
      var k, a, b := PackScalar(es[0].key), Pack(es[0].val, depth).value, PackHash(es[1..], depth).value;
      AssocEntry(k, a, b, nil, tail);
      ScalarRoundTrip(es[0].key, a + (b + nil + tail));
      EntryRoundTrip(es[0], depth, b + nil + tail);
      HashRoundTrip(es[1..], depth, RawSet(m, es[0].key, DenoteEntry(es[0])), tail);
    }
  }

  lemma AssocEntry(k: seq<byte>, a: seq<byte>, b: seq<byte>, e: seq<byte>, tail: seq<byte>)
    ensures k + a + b + e + tail == k + (a + (b + e + tail)) && k + (a + b) == k + a + b
  {
  }

  lemma {:induction false} EntryRoundTrip(e: Entry, depth: nat, tail: seq<byte>)
    requires GoodScalar(e.key) && Good(e.val) && PackEntry(e, depth).Ok?
    ensures Unpack(Pack(e.val, depth).value + tail) == Ok(Parsed(DenoteEntry(e), tail))
    decreases e, 1
  {
    RoundTrip(e.val, depth, tail);
  }

  // ----- every walk through a value denotes it

  function Look(m: map<Scalar, Value>, k: Scalar): Value {
    if k in m then m[k] else Nil
  }

  ghost predicate NoNil(m: map<Scalar, Value>) {
    forall k | k in m :: m[k] != Nil
  }

  ghost predicate InArray(k: Scalar, from: int, to: int) {
    k.Int? && from <= k.i < to
  }

  /** `v` is a way to walk through `x`: any array length, any order of the other entries. */
  ghost predicate Presents(v: View, x: Value)
    requires Good(v)
    decreases v, 0
  {
    match v
    case VNil => x == Nil
    case VPlain(s) => x == Plain(s)
    case VOther => false
    case VTable(arr, hash) =>
      && x.Table? && NoNil(x.m)
      && PresentsArray(arr, 1, x.m)
      && PresentsHash(hash, x.m)
      && (forall j | 0 <= j < |hash| :: !InArray(hash[j].key, 1, 1 + |arr|))
      && (forall i, j | 0 <= i < j < |hash| :: hash[i].key != hash[j].key)
      && (forall k | k in x.m && !InArray(k, 1, 1 + |arr|) :: exists j :: 0 <= j < |hash| && hash[j].key == k)
  }

  ghost predicate PresentsArray(vs: seq<View>, i: nat, m: map<Scalar, Value>)
    requires i + |vs| <= INT_MAX + 1 && forall j | 0 <= j < |vs| :: Good(vs[j])
    decreases vs, 1
  {
    vs != [] ==> Presents(vs[0], Look(m, Int(i))) && PresentsArray(vs[1..], i + 1, m)
  }

  ghost predicate PresentsHash(es: seq<Entry>, m: map<Scalar, Value>)
    requires forall j | 0 <= j < |es| :: GoodScalar(es[j].key) && Good(es[j].val)
    decreases es, 1
  {
    es != [] ==> es[0].key in m && PresentsEntry(es[0], m[es[0].key]) && PresentsHash(es[1..], m)
  }

  ghost predicate PresentsEntry(e: Entry, x: Value)
    requires Good(e.val)
    decreases e, 1
  {
    Presents(e.val, x)
  }

  lemma {:induction false} WalkDenotes(v: View, x: Value)
    requires Good(v) && Presents(v, x)
    ensures Denote(v) == x
    decreases v, 0
  {
    match v
    case VTable(arr, hash) =>
      var a := DenoteArray(arr, 1, map[]);
      ArrayDenotes(arr, 1, map[], x.m);
      var h := DenoteHash(a, hash);
      HashDenotes(hash, a, x.m);
      forall k
        ensures Look(h, k) == Look(x.m, k)
      {
        if k !in x.m {
          if exists j :: 0 <= j < |hash| && hash[j].key == k {
            HashKeys(hash, x.m, k);
          }
        }
      }
      SameMap(h, x.m);
    case _ =>
  }

  lemma {:induction false} HashKeys(es: seq<Entry>, m: map<Scalar, Value>, k: Scalar)
    requires forall j | 0 <= j < |es| :: GoodScalar(es[j].key) && Good(es[j].val)
    requires PresentsHash(es, m) && exists j :: 0 <= j < |es| && es[j].key == k
    ensures k in m
  {
    if es[0].key != k {
      var j :| 0 <= j < |es| && es[j].key == k;
      assert es[1..][j - 1].key == k;
      HashKeys(es[1..], m, k);
    }
  }

  lemma SameMap(a: map<Scalar, Value>, b: map<Scalar, Value>)
    requires NoNil(a) && NoNil(b) && forall k :: Look(a, k) == Look(b, k)
    ensures a == b
  {
    forall k
      ensures k in a <==> k in b
      ensures k in a ==> a[k] == b[k]
    {
      assert Look(a, k) == Look(b, k);
    }
  }

  lemma {:induction false} ArrayDenotes(vs: seq<View>, i: nat, m: map<Scalar, Value>, x: map<Scalar, Value>)
    requires i + |vs| <= INT_MAX + 1 && forall j | 0 <= j < |vs| :: Good(vs[j])
    requires PresentsArray(vs, i, x) && NoNil(m)
    ensures NoNil(DenoteArray(vs, i, m))
    ensures forall k :: Look(DenoteArray(vs, i, m), k) == Look(if InArray(k, i, i + |vs|) then x else m, k)
    decreases vs, 1
  {
    if vs != [] {
      WalkDenotes(vs[0], Look(x, Int(i)));
      ArrayDenotes(vs[1..], i + 1, RawSet(m, Int(i), Denote(vs[0])), x);
    }
  }

  lemma {:induction false} HashDenotes(es: seq<Entry>, m: map<Scalar, Value>, x: map<Scalar, Value>)
    requires forall j | 0 <= j < |es| :: GoodScalar(es[j].key) && Good(es[j].val)
    requires PresentsHash(es, x) && NoNil(m)
    requires forall i, j | 0 <= i < j < |es| :: es[i].key != es[j].key
    ensures NoNil(DenoteHash(m, es))
    ensures forall k ::
      Look(DenoteHash(m, es), k) == Look(if exists j :: 0 <= j < |es| && es[j].key == k then x else m, k)
    decreases es, 1
  {
    if es != [] {
      EntryDenotes(es[0], x[es[0].key]);
      var m' := RawSet(m, es[0].key, DenoteEntry(es[0]));
      HashDenotes(es[1..], m', x);
      forall k
        ensures Look(DenoteHash(m, es), k) == Look(if exists j :: 0 <= j < |es| && es[j].key == k then x else m, k)
      {
        if exists j :: 0 <= j < |es| && es[j].key == k {
          var j :| 0 <= j < |es| && es[j].key == k;
          assert j > 0 ==> es[1..][j - 1].key == k;
        }
      }
    }
  }

  lemma {:induction false} EntryDenotes(e: Entry, x: Value)
    requires Good(e.val) && PresentsEntry(e, x)
    ensures DenoteEntry(e) == x
    decreases e, 1
  {
    WalkDenotes(e.val, x);
  }

  // ----- which values can be packed

  predicate Packable(v: View) {
    match v
    case VOther => false
    case VTable(arr, hash) =>
      && (forall i | 0 <= i < |arr| :: Packable(arr[i]))
      && (forall i | 0 <= i < |hash| :: Packable(hash[i].val))
    case _ => true
  }

  function Max(a: nat, b: nat): nat {
    if a < b then b else a
  }

  /** Levels of nesting below `v`; an empty table has none. */
  function Height(v: View): nat
    decreases v, 0
  {
    match v
    case VTable(arr, hash) => Max(HeightArray(arr), HeightHash(hash))
    case _ => 0
  }

  function HeightArray(vs: seq<View>): nat
    decreases vs, 1
  {
    if vs == [] then 0 else Max(1 + Height(vs[0]), HeightArray(vs[1..]))
  }

  function HeightHash(es: seq<Entry>): nat
    decreases es, 1
  {
    if es == [] then 0 else Max(1 + HeightEntry(es[0]), HeightHash(es[1..]))
  }

  function HeightEntry(e: Entry): nat
    decreases e, 1
  {
    Height(e.val)
  }

  /** Packing succeeds exactly for supported values that are not nested too deeply. */
  lemma {:induction false} PackSucceeds(v: View, depth: nat)
    requires Good(v) && depth <= MAX_DEPTH
    ensures Pack(v, depth).Ok? <==> Packable(v) && depth + Height(v) <= 32
    decreases v, 0
  {
    match v
    case VTable(arr, hash) =>
      PackArraySucceeds(arr, depth);
      PackHashSucceeds(hash, depth);
    case _ =>
  }

  lemma ArrayRest(vs: seq<View>)
    requires vs != []
    ensures (forall i | 0 <= i < |vs| :: Packable(vs[i]))
            <==> Packable(vs[0]) && forall i | 0 <= i < |vs[1..]| :: Packable(vs[1..][i])
  {
    assert forall i | 1 <= i < |vs| :: vs[i] == vs[1..][i - 1];
  }

  lemma HashRest(es: seq<Entry>)
    requires es != []
    ensures (forall i | 0 <= i < |es| :: Packable(es[i].val))
            <==> Packable(es[0].val) && forall i | 0 <= i < |es[1..]| :: Packable(es[1..][i].val)
  {
    assert forall i | 1 <= i < |es| :: es[i] == es[1..][i - 1];
  }

  lemma {:induction false} PackArraySucceeds(vs: seq<View>, depth: nat)
    requires depth <= MAX_DEPTH && forall j | 0 <= j < |vs| :: Good(vs[j])
    ensures PackArray(vs, depth + 1).Ok? <==>
      (forall i | 0 <= i < |vs| :: Packable(vs[i])) && depth + HeightArray(vs) <= MAX_DEPTH
    decreases vs, 1
  {
    if vs != [] {
      if depth + 1 <= MAX_DEPTH {
        PackSucceeds(vs[0], depth + 1);
      }
      PackArraySucceeds(vs[1..], depth);
      ArrayRest(vs);
    }
  }

  lemma {:induction false} PackHashSucceeds(es: seq<Entry>, depth: nat)
    requires depth <= MAX_DEPTH && forall j | 0 <= j < |es| :: GoodScalar(es[j].key) && Good(es[j].val)
    ensures PackHash(es, depth + 1).Ok? <==>
      (forall i | 0 <= i < |es| :: Packable(es[i].val)) && depth + HeightHash(es) <= MAX_DEPTH
    decreases es, 1
  {
    if es != [] {
      PackEntrySucceeds(es[0], depth);
      PackHashSucceeds(es[1..], depth);
      HashRest(es);
    }
  }

  lemma {:induction false} PackEntrySucceeds(e: Entry, depth: nat)
    requires depth <= MAX_DEPTH && GoodScalar(e.key) && Good(e.val)
    ensures PackEntry(e, depth + 1).Ok? <==> Packable(e.val) && depth + 1 + HeightEntry(e) <= MAX_DEPTH
    decreases e, 1
  {
    if depth + 1 <= MAX_DEPTH {
      PackSucceeds(e.val, depth + 1);
    }
  }

  // ----- lists of values

  /** `pack_from`. */
  function PackAll(vs: seq<View>): Result<seq<byte>>
    requires forall i | 0 <= i < |vs| :: Good(vs[i])
  {
    PackArray(vs, 0)
  }

  /** The loop of `lunpack` and of `deserialize_buffer`: values up to the end of the stream. */
  function UnpackAll(s: seq<byte>): Result<seq<Value>>
    decreases |s|
  {
    if s == [] then Ok([])
    else
      var p :- Unpack(s);
      var r :- UnpackAll(p.rest);
      Ok([p.value] + r)
  }

  /** Unpacking a packed list of values gives back the list: for every nesting that packs,
      every array size, every order of the hash part, every integer and every string. */
  lemma {:induction false} ListRoundTrip(vs: seq<View>, xs: seq<Value>)
    requires |vs| == |xs| && forall i | 0 <= i < |vs| :: Good(vs[i]) && Presents(vs[i], xs[i])
    requires PackAll(vs).Ok?
    ensures UnpackAll(PackAll(vs).value) == Ok(xs)
  {
    if vs != [] {
      var a, b := Pack(vs[0], 0).value, PackAll(vs[1..]).value;
      RoundTrip(vs[0], 0, b);
      WalkDenotes(vs[0], xs[0]);
      ListRoundTrip(vs[1..], xs[1..]);
      assert PackAll(vs).value == a + b;
      assert xs == [xs[0]] + xs[1..];
    }
  }

  // ----- lengths

  /** The bytes that packing `v` may push, whether it succeeds or not. */
  function Weight(v: View): nat
    requires Good(v)
    decreases v, 0
  {
    match v
    case VPlain(s) => |PackScalar(s)|
    case VTable(arr, hash) => |TableHeader(|arr|)| + WeightArray(arr) + WeightHash(hash) + 1
    case _ => 1
  }

  function WeightArray(vs: seq<View>): nat
    requires forall i | 0 <= i < |vs| :: Good(vs[i])
    decreases vs, 1
  {
    if vs == [] then 0 else Weight(vs[0]) + WeightArray(vs[1..])
  }

  function WeightHash(es: seq<Entry>): nat
    requires forall i | 0 <= i < |es| :: GoodScalar(es[i].key) && Good(es[i].val)
    decreases es, 1
  {
    if es == [] then 0 else WeightEntry(es[0]) + WeightHash(es[1..])
  }

  function WeightEntry(e: Entry): nat
    requires GoodScalar(e.key) && Good(e.val)
    decreases e, 1
  {
    |PackScalar(e.key)| + Weight(e.val)
  }

  lemma {:induction false} PackedLength(v: View, depth: nat)
    requires Good(v) && Pack(v, depth).Ok?
    ensures |Pack(v, depth).value| == Weight(v)
    decreases v, 0
  {
    match v
    case VTable(arr, hash) =>
      PackedArrayLength(arr, depth + 1);
      PackedHashLength(hash, depth + 1);
    case _ =>
  }

  lemma {:induction false} PackedArrayLength(vs: seq<View>, depth: nat)
    requires (forall i | 0 <= i < |vs| :: Good(vs[i])) && PackArray(vs, depth).Ok?
    ensures |PackArray(vs, depth).value| == WeightArray(vs)
    decreases vs, 1
  {
    if vs != [] {
      PackedLength(vs[0], depth);
      PackedArrayLength(vs[1..], depth);
    }
  }

  lemma {:induction false} PackedHashLength(es: seq<Entry>, depth: nat)
    requires (forall i | 0 <= i < |es| :: GoodScalar(es[i].key) && Good(es[i].val)) && PackHash(es, depth).Ok?
    ensures |PackHash(es, depth).value| == WeightHash(es)
    decreases es, 1
  {
    if es != [] {
      PackedEntryLength(es[0], depth);
      PackedHashLength(es[1..], depth);
    }
  }

  lemma {:induction false} PackedEntryLength(e: Entry, depth: nat)
    requires GoodScalar(e.key) && Good(e.val) && PackEntry(e, depth).Ok?
    ensures |PackEntry(e, depth).value| == WeightEntry(e)
    decreases e, 1
  {
    PackedLength(e.val, depth);
  }

  /** `r` behind the bytes `a`. */
  function Behind(a: seq<byte>, r: Result<seq<byte>>): Result<seq<byte>> {
    match r
    case Ok(b) => Ok(a + b)
    case Err(e) => Err(e)
  }

  lemma BehindNothing(r: Result<seq<byte>>)
    ensures Behind([], r) == r
  {
    assert forall b: seq<byte> :: [] + b == b;
  }

  lemma BehindBoth(a: seq<byte>, b: seq<byte>, r: Result<seq<byte>>)
    ensures Behind(a, Behind(b, r)) == Behind(a + b, r)
  {
    if r.Ok? {
      assert a + (b + r.value) == a + b + r.value;
    }
  }

  /** One turn of the array loop, with the bytes `acc` pushed so far. */
  lemma ArrayTurn(vs: seq<View>, i: nat, depth: nat, acc: seq<byte>)
    requires i < |vs| && forall j | 0 <= j < |vs| :: Good(vs[j])
    requires PackArray(vs, depth) == Behind(acc, PackArray(vs[i..], depth))
    ensures WeightArray(vs[i..]) == Weight(vs[i]) + WeightArray(vs[i + 1..])
    ensures Pack(vs[i], depth).Err? ==> PackArray(vs, depth) == Err(Pack(vs[i], depth).error)
    ensures Pack(vs[i], depth).Ok? ==>
      && |Pack(vs[i], depth).value| == Weight(vs[i])
      && PackArray(vs, depth) == Behind(acc + Pack(vs[i], depth).value, PackArray(vs[i + 1..], depth))
  {
    assert vs[i..][1..] == vs[i + 1..];
    if Pack(vs[i], depth).Ok? {
      PackedLength(vs[i], depth);
      BehindBoth(acc, Pack(vs[i], depth).value, PackArray(vs[i + 1..], depth));
    }
  }

  /** One turn of the hash loop. */
  lemma HashTurn(es: seq<Entry>, i: nat, depth: nat, acc: seq<byte>)
    requires i < |es| && forall j | 0 <= j < |es| :: GoodScalar(es[j].key) && Good(es[j].val)
    requires PackHash(es, depth) == Behind(acc, PackHash(es[i..], depth))
    ensures WeightHash(es[i..]) == WeightEntry(es[i]) + WeightHash(es[i + 1..])
    ensures PackEntry(es[i], depth).Err? ==> PackHash(es, depth) == Err(PackEntry(es[i], depth).error)
    ensures PackEntry(es[i], depth).Ok? ==>
      && |PackEntry(es[i], depth).value| == WeightEntry(es[i])
      && PackHash(es, depth) == Behind(acc + PackEntry(es[i], depth).value, PackHash(es[i + 1..], depth))
  {
    assert es[i..][1..] == es[i + 1..];
    if PackEntry(es[i], depth).Ok? {
      PackedEntryLength(es[i], depth);
      BehindBoth(acc, PackEntry(es[i], depth).value, PackHash(es[i + 1..], depth));
    }
  }

  /** Packing one list behind another is packing both at once. */
  lemma {:induction false} PackConcat(vs: seq<View>, ws: seq<View>, depth: nat)
    requires (forall i | 0 <= i < |vs| :: Good(vs[i])) && (forall i | 0 <= i < |ws| :: Good(ws[i]))
    requires PackArray(vs, depth).Ok?
    ensures forall i | 0 <= i < |vs + ws| :: Good((vs + ws)[i])
    ensures PackArray(vs + ws, depth) == Behind(PackArray(vs, depth).value, PackArray(ws, depth))
  {
    if vs == [] {
      assert vs + ws == ws;
      BehindNothing(PackArray(ws, depth));
    } else {
      assert (vs + ws)[1..] == vs[1..] + ws;
      PackConcat(vs[1..], ws, depth);
      BehindBoth(Pack(vs[0], depth).value, PackArray(vs[1..], depth).value, PackArray(ws, depth));
    }
  }
}
