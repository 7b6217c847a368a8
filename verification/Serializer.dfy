/** The serializer as it runs: it walks a value and pushes bytes to a write cursor, and rebuilds
  values from a read cursor. Each method is proved against the codec's functions. */
module Serializer {
  import opened Bytes
  import opened Pointers
  import opened Seqs
  import opened SerialCodec
  import opened SerialBlocks
  import opened SerialFormat

  // ----- packing

  /** A type byte, then what belongs to it. */
  method PushTagged(wb: WriteBlock, tag: byte, body: seq<byte>)
    requires wb.Valid() && wb.len + 1 + |body| <= INT_MAX
    modifies wb
    ensures wb.Valid() && wb.bytes == old(wb.bytes) + ([tag] + body)
  {
    wb.Push([tag]);
    if body != [] {
      wb.Push(body);
    }
    assert old(wb.bytes) + [tag] + body == old(wb.bytes) + ([tag] + body);
  }

  /** The branches of `wb_integer`. */
  method PutInt(wb: WriteBlock, v: int64)
    requires wb.Valid() && wb.len + |PackInt(v)| <= INT_MAX
    modifies wb
    ensures wb.Valid() && wb.bytes == old(wb.bytes) + PackInt(v)
  {
    Pow256s();
    var cookie: nat, body: seq<byte> := NUMBER_ZERO, [];
    if v == 0 {
    } else if !(-0x8000_0000 <= v < 0x8000_0000) {
      cookie, body := NUMBER_QWORD, LE(8, Unsigned(8, v));
    } else if v < 0 {
      cookie, body := NUMBER_DWORD, LE(4, Unsigned(4, v));
    } else if v < 0x100 {
      cookie, body := NUMBER_BYTE, LE(1, v);
    } else if v < 0x10000 {
      cookie, body := NUMBER_WORD, LE(2, v);
    } else {
      cookie, body := NUMBER_DWORD, LE(4, v);
    }
    PushTagged(wb, Tag(TYPE_NUMBER, cookie), body);
  }

  /** `wb_integer`. */
  method PushInt(wb: WriteBlock, v: int64)
    requires wb.Valid() && wb.len + |PackInt(v)| <= INT_MAX
    modifies wb
    ensures wb.Valid() && wb.bytes == old(wb.bytes) + PackInt(v)
    ensures IntBytes(v, wb.bytes[|old(wb.bytes)|..])
  {
    PutInt(wb, v);
    IntFormat(v);
    assert wb.bytes[|old(wb.bytes)|..] == PackInt(v);
  }

  /** `wb_string`. */
  method PushStr(wb: WriteBlock, s: seq<byte>)
    requires wb.Valid() && wb.len + |PackStr(s)| <= INT_MAX
    modifies wb
    ensures wb.Valid() && wb.bytes == old(wb.bytes) + PackStr(s)
    ensures StrBytes(s, wb.bytes[|old(wb.bytes)|..])
  {
    assert |s| <= |PackStr(s)|;
    StrFormat(s);
    if |s| < MAX_COOKIE {
      PushTagged(wb, Tag(TYPE_SHORT_STRING, |s|), s);
    } else {
      var n := if |s| < 0x10000 then 2 else 4;
      PushTagged(wb, Tag(TYPE_LONG_STRING, n), LE(n, |s|));
      wb.Push(s);
      Assoc(old(wb.bytes), [Tag(TYPE_LONG_STRING, n)] + LE(n, |s|), s);
    }
  }

  /** `wb_boolean`, `wb_real`, `wb_pointer`, and the two above. */
  method PushScalar(wb: WriteBlock, s: Scalar)
    requires wb.Valid() && wb.len + |PackScalar(s)| <= INT_MAX
    modifies wb
    ensures wb.Valid() && wb.bytes == old(wb.bytes) + PackScalar(s)
    ensures ScalarBytes(s, wb.bytes[|old(wb.bytes)|..])
  {
    assert s.Str? ==> |s.s| <= |PackScalar(s)|;
    ScalarFormat(s);
    match s
    case Bool(b) => PushTagged(wb, Tag(TYPE_BOOLEAN, if b then 1 else 0), []);
    case Int(i) => PushInt(wb, i);
    case Real(bits) => PushTagged(wb, Tag(TYPE_NUMBER, NUMBER_REAL), bits);
    case Pointer(bits) => PushTagged(wb, Tag(TYPE_USERDATA, 0), bits);
    case Str(b) => PushStr(wb, b);
  }

  /** `pack_one`. */
  method PackOne(wb: WriteBlock, v: View, depth: nat) returns (r: Result<()>)
    requires wb.Valid() && Good(v) && wb.len + Weight(v) <= INT_MAX
    modifies wb
    ensures Outcome(r, Pack(v, depth))
    ensures r.Ok? ==> wb.Valid() && wb.bytes == old(wb.bytes) + Pack(v, depth).value
    decreases v, 1
  {
    if depth > MAX_DEPTH {
      return Err(TooDeep);
    }
    match v
    case VNil =>
      PushTagged(wb, Tag(TYPE_NIL, 0), []);
      return Ok(());
    case VPlain(s) =>
      PushScalar(wb, s);
      return Ok(());
    case VOther =>
      return Err(Unsupported);
    case VTable(arr, hash) =>
      r := PackTable(wb, v, depth + 1);
  }

  /** The method ends as the function says. */
  ghost predicate Outcome(r: Result<()>, f: Result<seq<byte>>) {
    match f
    case Ok(_) => r == Ok(())
    case Err(e) => r == Err(e)
  }

  /** A table with a large array part: the size follows as an integer. */
  method PushLargeHeader(wb: WriteBlock, n: nat)
    requires MAX_COOKIE - 1 <= n <= INT_MAX && wb.Valid() && wb.len + 1 + |PackInt(n)| <= INT_MAX
    modifies wb
    ensures wb.Valid() && wb.bytes == old(wb.bytes) + ([Tag(TYPE_TABLE, MAX_COOKIE - 1)] + PackInt(n))
  {
    wb.Push([Tag(TYPE_TABLE, MAX_COOKIE - 1)]);
    PushInt(wb, n);
    Assoc(old(wb.bytes), [Tag(TYPE_TABLE, MAX_COOKIE - 1)], PackInt(n));
  }

  /** The type byte of a table, and its array size if that does not fit. */
  method PushHeader(wb: WriteBlock, n: nat)
    requires n <= INT_MAX && wb.Valid() && wb.len + |TableHeader(n)| <= INT_MAX
    modifies wb
    ensures wb.Valid() && wb.bytes == old(wb.bytes) + TableHeader(n)
    ensures HeaderBytes(n, wb.bytes[|old(wb.bytes)|..])
  {
    HeaderFormat(n);
    if n >= MAX_COOKIE - 1 {
      PushLargeHeader(wb, n);
    } else {
      wb.Push([Tag(TYPE_TABLE, n)]);
    }
  }

  /** `wb_table`. */
  method PackTable(wb: WriteBlock, v: View, depth: nat) returns (r: Result<()>)
    requires wb.Valid() && Good(v) && v.VTable? && wb.len + Weight(v) <= INT_MAX && 0 < depth <= MAX_DEPTH + 1
    modifies wb
    ensures Outcome(r, Pack(v, depth - 1))
    ensures r.Ok? ==> wb.Valid() && wb.bytes == old(wb.bytes) + Pack(v, depth - 1).value
    decreases v, 0
  {
    PushHeader(wb, |v.arr|);
    r := PackItems(wb, v.arr, depth);
    if r.Err? {
      return;
    }
    PackedArrayLength(v.arr, depth);
    r := PackEntries(wb, v.hash, depth);
    if r.Err? {
      return;
    }
    PackedHashLength(v.hash, depth);
    PushTagged(wb, Tag(TYPE_NIL, 0), []);
    Glue(old(wb.bytes), TableHeader(|v.arr|), PackArray(v.arr, depth).value, PackHash(v.hash, depth).value,
         [Tag(TYPE_NIL, 0)]);
  }

  lemma Glue(a: seq<byte>, b: seq<byte>, c: seq<byte>, d: seq<byte>, e: seq<byte>)
    ensures a + b + c + d + (e + []) == a + (b + c + d + e)
  {
  }

  /** The loop of `wb_table_array`. */
  method PackItems(wb: WriteBlock, vs: seq<View>, depth: nat) returns (r: Result<()>)
    requires wb.Valid() && (forall j | 0 <= j < |vs| :: Good(vs[j])) && wb.len + WeightArray(vs) <= INT_MAX
    modifies wb
    ensures Outcome(r, PackArray(vs, depth))
    ensures r.Ok? ==> wb.Valid() && wb.bytes == old(wb.bytes) + PackArray(vs, depth).value
    decreases vs, 1
  {
    ghost var acc := [];
    assert vs[0..] == vs;
    BehindNothing(PackArray(vs, depth));
    for i := 0 to |vs|
      invariant wb.Valid() && wb.bytes == old(wb.bytes) + acc
      invariant wb.len + WeightArray(vs[i..]) <= INT_MAX
      invariant PackArray(vs, depth) == Behind(acc, PackArray(vs[i..], depth))
    {
      ArrayTurn(vs, i, depth, acc);
      r := PackOne(wb, vs[i], depth);
      if r.Err? {
        return;
      }
      Assoc(old(wb.bytes), acc, Pack(vs[i], depth).value);
      acc := acc + Pack(vs[i], depth).value;
    }
    r := Ok(());
  }

  /** The loop of `wb_table_hash`; entries of the array part are not in `es`. */
  method PackEntries(wb: WriteBlock, es: seq<Entry>, depth: nat) returns (r: Result<()>)
    requires wb.Valid() && (forall j | 0 <= j < |es| :: GoodScalar(es[j].key) && Good(es[j].val))
    requires wb.len + WeightHash(es) <= INT_MAX
    modifies wb
    ensures Outcome(r, PackHash(es, depth))
    ensures r.Ok? ==> wb.Valid() && wb.bytes == old(wb.bytes) + PackHash(es, depth).value
    decreases es, 1
  {
    ghost var acc := [];
    assert es[0..] == es;
    BehindNothing(PackHash(es, depth));
    for i := 0 to |es|
      invariant wb.Valid() && wb.bytes == old(wb.bytes) + acc
      invariant wb.len + WeightHash(es[i..]) <= INT_MAX
      invariant PackHash(es, depth) == Behind(acc, PackHash(es[i..], depth))
    {
      r, acc := NextEntry(wb, es, i, depth, acc, old(wb.bytes));
      if r.Err? {
        return;
      }
    }
    r := Ok(());
  }

  /** One turn of it. `acc`: what the loop has written behind `was`. */
  method NextEntry(wb: WriteBlock, es: seq<Entry>, i: nat, depth: nat, ghost acc: seq<byte>, ghost was: seq<byte>)
      returns (r: Result<()>, ghost more: seq<byte>)
    requires wb.Valid() && (forall j | 0 <= j < |es| :: GoodScalar(es[j].key) && Good(es[j].val)) && i < |es|
    requires wb.len + WeightHash(es[i..]) <= INT_MAX && wb.bytes == was + acc
    requires PackHash(es, depth) == Behind(acc, PackHash(es[i..], depth))
    modifies wb
    ensures r.Err? ==> PackHash(es, depth) == Err(r.error)
    ensures r.Ok? ==> wb.Valid() && wb.bytes == was + more && wb.len + WeightHash(es[i + 1..]) <= INT_MAX
    ensures r.Ok? ==> PackHash(es, depth) == Behind(more, PackHash(es[i + 1..], depth))
    decreases es, 0
  {
    HashTurn(es, i, depth, acc);
    more := acc;
    r := PackKeyVal(wb, es[i], depth);
    if r.Err? {
      return;
    }
    Assoc(was, acc, PackEntry(es[i], depth).value);
    more := acc + PackEntry(es[i], depth).value;
  }

  method PackKeyVal(wb: WriteBlock, e: Entry, depth: nat) returns (r: Result<()>)
    requires wb.Valid() && GoodScalar(e.key) && Good(e.val) && wb.len + WeightEntry(e) <= INT_MAX
    modifies wb
    ensures Outcome(r, PackEntry(e, depth))
    ensures r.Ok? ==> wb.Valid() && wb.bytes == old(wb.bytes) + PackEntry(e, depth).value
    decreases e, 1
  {
    if depth > MAX_DEPTH {
      return Err(TooDeep);
    }
    PushScalar(wb, e.key);
    r := PackOne(wb, e.val, depth);
    if r.Ok? {
      assert old(wb.bytes) + PackScalar(e.key) + Pack(e.val, depth).value
          == old(wb.bytes) + (PackScalar(e.key) + Pack(e.val, depth).value);
    }
  }

  // ----- unpacking

  /** A method that read from `rb` answers as the parser does. */
  ghost predicate Answers<T>(r: Result<T>, f: Result<Parsed<T>>, rb: ReadBlock)
    reads rb
  {
    match f
    case Ok(p) => r == Ok(p.value) && rb.Valid() && rb.rest == p.rest
    case Err(e) => r == Err(e)
  }

  /** `rb_read` as the parser sees it. */
  method ReadBytes(rb: ReadBlock, n: nat) returns (r: Result<seq<byte>>)
    requires rb.Valid()
    modifies rb
    ensures rb.Valid() && Answers(r, Take(old(rb.rest), n), rb)
  {
    r := rb.Read(n);
    if r.Ok? {
      TakeFront(r.value, rb.rest);
    }
  }

  /** `get_integer`. */
  method ReadInt(rb: ReadBlock, cookie: nat) returns (r: Result<int64>)
    requires rb.Valid()
    modifies rb
    ensures Answers(r, GetInt(cookie, old(rb.rest)), rb)
  {
    if cookie == NUMBER_ZERO {
      return Ok(0);
    }
    var n := if cookie == NUMBER_BYTE then 1 else if cookie == NUMBER_WORD then 2
             else if cookie == NUMBER_DWORD then 4 else if cookie == NUMBER_QWORD then 8 else 0;
    if n == 0 {
      return Err(InvalidStream);
    }
    var d :- ReadBytes(rb, n);
    FromLEBound(d);
    Pow256s();
    return Ok(if n <= 2 then FromLE(d) else Signed(n, FromLE(d)));
  }

  /** `get_buffer`. */
  method ReadStr(rb: ReadBlock, n: int) returns (r: Result<Value>)
    requires rb.Valid()
    modifies rb
    ensures Answers(r, GetStr(n, old(rb.rest)), rb)
  {
    if n < 0 {
      return Err(InvalidStream);
    }
    var d :- ReadBytes(rb, n);
    return Ok(Plain(Str(d)));
  }

  method ReadLongStr(rb: ReadBlock, cookie: nat) returns (r: Result<Value>)
    requires rb.Valid()
    modifies rb
    ensures Answers(r, GetLongStr(cookie, old(rb.rest)), rb)
  {
    if cookie != 2 && cookie != 4 {
      return Err(InvalidStream);
    }
    var d :- ReadBytes(rb, cookie);
    r := ReadStr(rb, ToInt32(FromLE(d)));
  }

  method ReadSize(rb: ReadBlock, cookie: nat) returns (r: Result<int>)
    requires rb.Valid() && cookie < 32
    modifies rb
    ensures Answers(r, GetSize(cookie, old(rb.rest)), rb)
  {
    if cookie != MAX_COOKIE - 1 {
      return Ok(cookie);
    }
    var d :- ReadBytes(rb, 1);
    if d[0] % 8 != TYPE_NUMBER || d[0] / 8 == NUMBER_REAL {
      return Err(InvalidStream);
    }
    var n :- ReadInt(rb, d[0] / 8);
    return Ok(ToInt32(n));
  }

  /** `unpack_one`. */
  method UnpackOne(rb: ReadBlock) returns (r: Result<Value>)
    requires rb.Valid()
    modifies rb
    ensures Answers(r, Unpack(old(rb.rest)), rb)
    decreases |rb.rest|, 0
  {
    ghost var s := rb.rest;
    var d := rb.Read(1);
    if d.Err? {
      return Err(InvalidStream);
    }
    assert rb.rest == s[1..] && d.value == [s[0]];
    r := PushValue(rb, d.value[0] % 8, d.value[0] / 8);
  }

  /** `push_value`. */
  method PushValue(rb: ReadBlock, t: nat, cookie: nat) returns (r: Result<Value>)
    requires rb.Valid() && cookie < 32
    modifies rb
    ensures Answers(r, Push(t, cookie, old(rb.rest)), rb)
    decreases |rb.rest|, 3
  {
    if t == TYPE_NIL {
      return Ok(Nil);
    } else if t == TYPE_BOOLEAN {
      return Ok(Plain(Bool(cookie != 0)));
    } else if t == TYPE_NUMBER && cookie == NUMBER_REAL {
      var d :- ReadBytes(rb, 8);
      return Ok(Plain(Real(d)));
    } else if t == TYPE_NUMBER {
      var i :- ReadInt(rb, cookie);
      return Ok(Plain(Int(i)));
    } else if t == TYPE_USERDATA {
      var d :- ReadBytes(rb, 8);
      return Ok(Plain(Pointer(d)));
    } else if t == TYPE_SHORT_STRING {
      r := ReadStr(rb, cookie);
    } else if t == TYPE_LONG_STRING {
      r := ReadLongStr(rb, cookie);
    } else if t == TYPE_TABLE {
      r := ReadTable(rb, cookie);
    } else {
      return Err(InvalidStream);
    }
  }

  /** `unpack_table`. */
  method ReadTable(rb: ReadBlock, cookie: nat) returns (r: Result<Value>)
    requires rb.Valid() && cookie < 32
    modifies rb
    ensures Answers(r, UnpackTable(cookie, old(rb.rest)), rb)
    decreases |rb.rest|, 2
  {
    var n :- ReadSize(rb, cookie);
    var m :- ReadItems(rb, n);
    r := ReadEntries(rb, m);
  }

  method ReadItems(rb: ReadBlock, n: int) returns (r: Result<map<Scalar, Value>>)
    requires rb.Valid() && n < 0x8000_0000
    modifies rb
    ensures Answers(r, UnpackArray(1, n, map[], old(rb.rest)), rb)
    decreases |rb.rest|, 1
  {
    var i, m := 1, map[];
    while i <= n
      invariant 1 <= i && rb.Valid() && |rb.rest| <= |old(rb.rest)|
      invariant UnpackArray(1, n, map[], old(rb.rest)) == UnpackArray(i, n, m, rb.rest)
    {
      var v :- UnpackOne(rb);
      m := RawSet(m, Int(i), v);
      i := i + 1;
    }
    return Ok(m);
  }

  method ReadEntries(rb: ReadBlock, m0: map<Scalar, Value>) returns (r: Result<Value>)
    requires rb.Valid()
    modifies rb
    ensures Answers(r, UnpackHash(m0, old(rb.rest)), rb)
    decreases |rb.rest|, 1
  {
    var m := m0;
    while true
      invariant rb.Valid() && |rb.rest| <= |old(rb.rest)|
      invariant UnpackHash(m0, old(rb.rest)) == UnpackHash(m, rb.rest)
      decreases |rb.rest|
    {
      var k :- UnpackOne(rb);
      match k
      case Nil => return Ok(Table(m));
      case Table(_) => return Err(Unsupported);
      case Plain(key) =>
        var v :- UnpackOne(rb);
        m := RawSet(m, key, v);
    }
  }

  /** The loop of `lunpack` and of `deserialize_buffer`. */
  method UnpackRest(rb: ReadBlock) returns (r: Result<seq<Value>>)
    requires rb.Valid()
    modifies rb
    ensures r == UnpackAll(old(rb.rest))
  {
    var vs := [];
    BeforeNothing(UnpackAll(rb.rest));
    while true
      invariant rb.Valid() && Before(vs, UnpackAll(rb.rest)) == UnpackAll(old(rb.rest))
      decreases |rb.rest|
    {
      ghost var s := rb.rest;
      var d := rb.Read(1);
      if d.Err? {
        assert s == [] && vs + [] == vs;
        return Ok(vs);
      }
      assert rb.rest == s[1..] && d.value == [s[0]];
      var v :- PushValue(rb, d.value[0] % 8, d.value[0] / 8);
      BeforeMore(vs, v, UnpackAll(rb.rest));
      vs := vs + [v];
    }
  }

  ghost function Before(vs: seq<Value>, r: Result<seq<Value>>): Result<seq<Value>> {
    match r
    case Ok(ws) => Ok(vs + ws)
    case Err(e) => Err(e)
  }

  lemma BeforeNothing(r: Result<seq<Value>>)
    ensures Before([], r) == r
  {
    assert forall ws: seq<Value> :: [] + ws == ws;
  }

  lemma BeforeMore(vs: seq<Value>, v: Value, r: Result<seq<Value>>)
    ensures Before(vs, Before([v], r)) == Before(vs + [v], r)
  {
    if r.Ok? {
      assert vs + ([v] + r.value) == vs + [v] + r.value;
    }
  }

  // ----- streams

  lemma AfterHeader(header: seq<byte>, a: seq<byte>, b: seq<byte>)
    requires |header| == 4
    ensures (header + a + b)[4..] == a + b && (header + b)[4..] == b
  {
  }

  /** `lpack`: a new stream. */
  method PackStream(vs: seq<View>) returns (r: Result<WriteBlock>, b: Ptr, ghost chain: seq<Ptr>, ghost total: nat)
    requires (forall j | 0 <= j < |vs| :: Good(vs[j])) && 4 + WeightArray(vs) <= INT_MAX
    ensures r.Ok? <==> PackAll(vs).Ok?
    ensures r.Ok? ==> fresh(r.value) && Closed(r.value.mem, b, chain, total)
    ensures r.Ok? ==> Payload(r.value.mem, chain, total) == PackAll(vs).value
    ensures r.Ok? ==> ItemsBytes(vs, Payload(r.value.mem, chain, total))
    ensures r.Ok? ==> r.value.brk > NULL && forall p | p in r.value.mem :: p < r.value.brk
    ensures r.Err? ==> r.error == PackAll(vs).error
  {
    var wb := new WriteBlock();
    var res := PackItems(wb, vs, 0);
    if res.Err? {
      return Err(res.error), NULL, [], 0;
    }
    chain, total := wb.chain, wb.len;
    b := wb.Close();
    r := Ok(wb);
    AfterHeader(LE(4, 0), [], PackAll(vs).value);
    ItemsFormat(vs, 0);
  }

  /** `lunpack`: read a finished stream, block by block. */
  method UnpackStream(m: Memory, b: Ptr, ghost chain: seq<Ptr>, ghost total: nat) returns (r: Result<seq<Value>>)
    requires Closed(m, b, chain, total)
    ensures r == UnpackAll(Payload(m, chain, total))
  {
    var rb := new ReadBlock(m, b, chain, total);
    r := UnpackRest(rb);
  }

  /** `ldeserialize`: read a stream that is one buffer. */
  method Deserialize(buffer: seq<byte>, ghost total: nat) returns (r: Result<seq<Value>>)
    requires 4 <= total <= |buffer| && total <= INT_MAX && buffer[..4] == LE(4, total)
    ensures r == UnpackAll(buffer[4..total])
  {
    var rb := new ReadBlock.Whole(buffer, total);
    r := UnpackRest(rb);
  }

  /** `lappend`: more values at the end of a finished stream. */
  method AppendStream(m: Memory, b0: Ptr, addr: Ptr, vs: seq<View>, ghost chain0: seq<Ptr>, ghost total0: nat)
      returns (r: Result<WriteBlock>, b: Ptr, ghost chain: seq<Ptr>, ghost total: nat)
    requires Closed(m, b0, chain0, total0) && addr > NULL && forall p | p in m :: p < addr
    requires (forall j | 0 <= j < |vs| :: Good(vs[j])) && total0 + WeightArray(vs) <= INT_MAX
    ensures r.Ok? <==> PackAll(vs).Ok?
    ensures r.Ok? ==> fresh(r.value) && Closed(r.value.mem, b, chain, total)
    ensures r.Ok? ==> Payload(r.value.mem, chain, total) == Payload(m, chain0, total0) + PackAll(vs).value
    ensures r.Err? ==> r.error == PackAll(vs).error
  {
    var wb := new WriteBlock.Resume(m, b0, addr, chain0, total0);
    ghost var was := Payload(m, chain0, total0);
    var res := PackItems(wb, vs, 0);
    if res.Err? {
      return Err(res.error), NULL, [], 0;
    }
    chain, total := wb.chain, wb.len;
    b := wb.Close();
    r := Ok(wb);
    AfterHeader(LE(4, total0), was, PackAll(vs).value);
  }

  /** A list of values that can be packed arrives unchanged, through blocks and as one buffer. */
  method Transfer(vs: seq<View>, ghost xs: seq<Value>) returns (blocks: Result<seq<Value>>, flat: Result<seq<Value>>)
    requires |vs| == |xs| && forall i | 0 <= i < |vs| :: Good(vs[i]) && Presents(vs[i], xs[i])
    requires 4 + WeightArray(vs) <= INT_MAX
    ensures PackAll(vs).Ok? ==> blocks == Ok(xs) && flat == Ok(xs)
    ensures PackAll(vs).Err? ==> blocks == flat == Err(PackAll(vs).error)
  {
    var wb, b;
    ghost var chain, total;
    wb, b, chain, total := PackStream(vs);
    if wb.Err? {
      return Err(wb.error), Err(wb.error);
    }
    ListRoundTrip(vs, xs);
    blocks := UnpackStream(wb.value.mem, b, chain, total);
    var buffer := Serialize(wb.value.mem, b, chain, total);
    assert buffer[4..total] == buffer[4..];
    flat := Deserialize(buffer, total);
  }

  /** A stream that `lappend` has lengthened is that of both lists together. */
  lemma PackedBoth(vs: seq<View>, xs: seq<Value>, ws: seq<View>, ys: seq<Value>)
    requires |vs| == |xs| && forall i | 0 <= i < |vs| :: Good(vs[i]) && Presents(vs[i], xs[i])
    requires |ws| == |ys| && forall i | 0 <= i < |ws| :: Good(ws[i]) && Presents(ws[i], ys[i])
    requires PackAll(vs).Ok? && PackAll(ws).Ok?
    ensures UnpackAll(PackAll(vs).value + PackAll(ws).value) == Ok(xs + ys)
  {
    PackConcat(vs, ws, 0);
    BothPresent(vs, xs, ws, ys);
    ListRoundTrip(vs + ws, xs + ys);
  }

  lemma BothPresent(vs: seq<View>, xs: seq<Value>, ws: seq<View>, ys: seq<Value>)
    requires |vs| == |xs| && forall i | 0 <= i < |vs| :: Good(vs[i]) && Presents(vs[i], xs[i])
    requires |ws| == |ys| && forall i | 0 <= i < |ws| :: Good(ws[i]) && Presents(ws[i], ys[i])
    ensures |vs + ws| == |xs + ys|
    ensures forall i | 0 <= i < |vs + ws| :: Good((vs + ws)[i]) && Presents((vs + ws)[i], (xs + ys)[i])
  {
    forall i | 0 <= i < |vs + ws| ensures Good((vs + ws)[i]) && Presents((vs + ws)[i], (xs + ys)[i]) {
      if i < |vs| {
        assert (vs + ws)[i] == vs[i] && (xs + ys)[i] == xs[i];
      } else {
        assert (vs + ws)[i] == ws[i - |vs|] && (xs + ys)[i] == ys[i - |vs|];
      }
    }
  }

  /** Pack a list, append another, unpack: both lists arrive, one behind the other; if one of them cannot be
      packed, that is the error. */
  method TransferBoth(vs: seq<View>, ghost xs: seq<Value>, ws: seq<View>, ghost ys: seq<Value>)
      returns (r: Result<seq<Value>>)
    requires |vs| == |xs| && forall i | 0 <= i < |vs| :: Good(vs[i]) && Presents(vs[i], xs[i])
    requires |ws| == |ys| && forall i | 0 <= i < |ws| :: Good(ws[i]) && Presents(ws[i], ys[i])
    requires 4 + WeightArray(vs) + WeightArray(ws) <= INT_MAX
    ensures PackAll(vs).Err? ==> r == Err(PackAll(vs).error)
    ensures PackAll(vs).Ok? && PackAll(ws).Err? ==> r == Err(PackAll(ws).error)
    ensures PackAll(vs).Ok? && PackAll(ws).Ok? ==> r == Ok(xs + ys)
  {
    var wb, b;
    ghost var chain, total;
    wb, b, chain, total := PackStream(vs);
    if wb.Err? {
      return Err(wb.error);
    }
    PackedArrayLength(vs, 0);
    wb, b, chain, total := AppendStream(wb.value.mem, b, wb.value.brk, ws, chain, total);
    if wb.Err? {
      return Err(wb.error);
    }
    PackedBoth(vs, xs, ws, ys);
    r := UnpackStream(wb.value.mem, b, chain, total);
  }
}
