/** The byte stream of the serializer, kept in linked blocks of 128 bytes: a write cursor that
  appends, and a read cursor that consumes and frees. Both are proved against flat strings. */
module SerialBlocks {
  import opened Bytes
  import opened Pointers
  import opened SerialCodec

  const BLOCK_SIZE := 128

  datatype Block = Block(next: Ptr, buffer: seq<byte>)
  type Memory = map<Ptr, Block>

  /** The blocks of `chain` are linked in that order and end in null. */
  ghost predicate LinkOk(m: Memory, chain: seq<Ptr>, i: nat)
    requires i < |chain|
  {
    && chain[i] != NULL && chain[i] in m && |m[chain[i]].buffer| == BLOCK_SIZE
    && m[chain[i]].next == (if i + 1 < |chain| then chain[i + 1] else NULL)
  }

  ghost predicate Linked(m: Memory, chain: seq<Ptr>) {
    && (forall i, j | 0 <= i < j < |chain| :: chain[i] != chain[j])
    && (forall i: nat | i < |chain| :: LinkOk(m, chain, i))
  }

  ghost function First(chain: seq<Ptr>): Ptr {
    if chain == [] then NULL else chain[0]
  }

  ghost function Flat(m: Memory, chain: seq<Ptr>): (r: seq<byte>)
    requires Linked(m, chain)
    ensures |r| == BLOCK_SIZE * |chain|
  {
    if chain == [] then []
    else
      assert LinkOk(m, chain, 0);
      Tail(m, chain);
      m[chain[0]].buffer + Flat(m, chain[1..])
  }

  lemma Tail(m: Memory, chain: seq<Ptr>)
    requires Linked(m, chain) && chain != []
    ensures Linked(m, chain[1..]) && Linked(m - {chain[0]}, chain[1..])
    ensures chain[0] in m && chain[0] != NULL && m[chain[0]].next == First(chain[1..])
    ensures |m[chain[0]].buffer| == BLOCK_SIZE
  {
    assert LinkOk(m, chain, 0);
    forall i: nat | i < |chain| - 1
      ensures LinkOk(m, chain[1..], i) && LinkOk(m - {chain[0]}, chain[1..], i)
    {
      assert LinkOk(m, chain, i + 1);
    }
  }

  lemma {:induction false} FlatFrame(m: Memory, m': Memory, chain: seq<Ptr>)
    requires Linked(m, chain) && Linked(m', chain)
    requires forall c | c in chain && c in m && c in m' :: m[c].buffer == m'[c].buffer
    ensures Flat(m, chain) == Flat(m', chain)
  {
    if chain != [] {
      Tail(m, chain);
      Tail(m', chain);
      FlatFrame(m, m', chain[1..]);
    }
  }

  /** Freeing the first block leaves the rest of the stream. */
  lemma FlatTail(m: Memory, chain: seq<Ptr>)
    requires Linked(m, chain) && chain != []
    ensures Linked(m - {chain[0]}, chain[1..]) && chain[0] in m && chain[0] != NULL
    ensures m[chain[0]].next == First(chain[1..]) && |m[chain[0]].buffer| == BLOCK_SIZE
    ensures Flat(m, chain) == m[chain[0]].buffer + Flat(m - {chain[0]}, chain[1..])
  {
    Tail(m, chain);
    FlatFrame(m, m - {chain[0]}, chain[1..]);
  }

  lemma RewriteLinked(m: Memory, chain: seq<Ptr>, k: nat, b: Block)
    requires Linked(m, chain) && k < |chain| && |b.buffer| == BLOCK_SIZE
    requires chain[k] in m && b.next == m[chain[k]].next
    ensures Linked(m[chain[k] := b], chain)
  {
    var m' := m[chain[k] := b];
    forall i: nat | i < |chain|
      ensures LinkOk(m', chain, i)
    {
      assert LinkOk(m, chain, i);
    }
  }

  /** Overwriting part of block `k` overwrites that stretch of the stream. */
  lemma {:induction false} FlatOverwrite(m: Memory, chain: seq<Ptr>, k: nat, at: nat, d: seq<byte>)
    requires Linked(m, chain) && k < |chain| && at + |d| <= BLOCK_SIZE
    ensures chain[k] in m && |m[chain[k]].buffer| == BLOCK_SIZE
    ensures var m' := m[chain[k] := m[chain[k]].(buffer := Overwrite(m[chain[k]].buffer, at, d))];
      Linked(m', chain) && Flat(m', chain) == Overwrite(Flat(m, chain), BLOCK_SIZE * k + at, d)
  {
    assert LinkOk(m, chain, k);
    var b := m[chain[k]].(buffer := Overwrite(m[chain[k]].buffer, at, d));
    var m' := m[chain[k] := b];
    RewriteLinked(m, chain, k, b);
    Tail(m, chain);
    Tail(m', chain);
    if k == 0 {
      FlatFrame(m, m', chain[1..]);
      OverwriteFirst(m[chain[0]].buffer, Flat(m, chain[1..]), at, d);
    } else {
      FlatOverwrite(m, chain[1..], k - 1, at, d);
      assert chain[1..][k - 1] == chain[k];
      OverwriteLater(m[chain[0]].buffer, Flat(m, chain[1..]), BLOCK_SIZE * (k - 1) + at, d);
    }
  }

  lemma OverwriteFirst(a: seq<byte>, b: seq<byte>, at: nat, d: seq<byte>)
    requires at + |d| <= |a|
    ensures Overwrite(a + b, at, d) == Overwrite(a, at, d) + b
  {
  }

  lemma OverwriteLater(a: seq<byte>, b: seq<byte>, at: nat, d: seq<byte>)
    requires at + |d| <= |b|
    ensures Overwrite(a + b, |a| + at, d) == a + Overwrite(b, at, d)
  {
  }

  /** Linking a new block behind the last one. */
  lemma {:induction false} FlatGrow(m: Memory, chain: seq<Ptr>, p: Ptr, b: Block)
    requires Linked(m, chain) && chain != [] && p !in m && p != NULL && b.next == NULL && |b.buffer| == BLOCK_SIZE
    ensures var last := chain[|chain| - 1];
      last in m && var m' := m[last := m[last].(next := p)][p := b];
      Linked(m', chain + [p]) && Flat(m', chain + [p]) == Flat(m, chain) + b.buffer
  {
    var last := chain[|chain| - 1];
    assert LinkOk(m, chain, |chain| - 1);
    var m' := m[last := m[last].(next := p)][p := b];
    forall i: nat | i < |chain|
      ensures LinkOk(m', chain + [p], i) && chain[i] != p
    {
      assert LinkOk(m, chain, i);
    }
    FlatSame(m, m', chain, p);
  }

  lemma {:induction false} FlatSame(m: Memory, m': Memory, chain: seq<Ptr>, p: Ptr)
    requires Linked(m, chain) && Linked(m', chain + [p])
    requires forall c | c in chain && c in m && c in m' :: m[c].buffer == m'[c].buffer
    ensures p in m' && Flat(m', chain + [p]) == Flat(m, chain) + m'[p].buffer
  {
    Tail(m', chain + [p]);
    if chain == [] {
      assert (chain + [p])[1..] == [];
    } else {
      Tail(m, chain);
      assert (chain + [p])[1..] == chain[1..] + [p];
      FlatSame(m, m', chain[1..], p);
    }
  }

  /** A finished stream of `total` bytes, which starts with that number. */
  ghost predicate Closed(m: Memory, head: Ptr, chain: seq<Ptr>, total: nat) {
    && Linked(m, chain) && chain != [] && head == chain[0]
    && 4 <= total <= INT_MAX && BLOCK_SIZE * (|chain| - 1) <= total <= BLOCK_SIZE * |chain|
    && Flat(m, chain)[..4] == LE(4, total)
  }

  /** What a finished stream carries. */
  ghost function Payload(m: Memory, chain: seq<Ptr>, total: nat): seq<byte>
    requires Linked(m, chain) && 4 <= total <= BLOCK_SIZE * |chain|
  {
    Flat(m, chain)[4..total]
  }

  /** The header of a stream is in its first block. */
  lemma HeaderInFirst(m: Memory, chain: seq<Ptr>)
    requires Linked(m, chain) && chain != []
    ensures chain[0] in m && |m[chain[0]].buffer| == BLOCK_SIZE && m[chain[0]].buffer[..4] == Flat(m, chain)[..4]
  {
    Tail(m, chain);
  }

  lemma HeaderThenPayload(m: Memory, head: Ptr, chain: seq<Ptr>, total: nat)
    requires Closed(m, head, chain, total)
    ensures |Flat(m, chain)| == BLOCK_SIZE * |chain|
    ensures Flat(m, chain)[..total] == LE(4, total) + Payload(m, chain, total)
  {
    assert Flat(m, chain)[..total] == Flat(m, chain)[..4] + Flat(m, chain)[4..total];
  }

  lemma OverwriteFront(s: seq<byte>, d: seq<byte>)
    requires |d| <= |s|
    ensures Overwrite(s, 0, d)[..|d|] == d
  {
  }

  lemma HeaderIs(total: nat)
    requires total <= INT_MAX
    ensures Value4(LE(4, total)) == total
  {
    Pow256s();
    WrittenIs(4, total);
  }

  lemma HeaderRead(total: nat)
    requires total <= INT_MAX
    ensures FromLE(LE(4, total)) == total
  {
    Pow256s();
    ReadWritten(4, total);
  }

  /** The length goes to the header of the block at `p`. */
  function Headed(m: Memory, p: Ptr, len: nat): Memory
    requires p in m && |m[p].buffer| == BLOCK_SIZE
  {
    m[p := m[p].(buffer := Overwrite(m[p].buffer, 0, LE(4, len)))]
  }

  lemma Closing(m: Memory, chain: seq<Ptr>, len: nat)
    requires Linked(m, chain) && chain != [] && 4 <= len <= INT_MAX
    requires BLOCK_SIZE * (|chain| - 1) <= len <= BLOCK_SIZE * |chain|
    ensures var p := chain[0]; p in m && |m[p].buffer| == BLOCK_SIZE
    ensures var m' := Headed(m, chain[0], len);
      && Closed(m', chain[0], chain, len) && Payload(m', chain, len) == Flat(m, chain)[..len][4..]
      && chain[0] in m' && |m'[chain[0]].buffer| == BLOCK_SIZE && Value4(m'[chain[0]].buffer[..4]) == len
  {
    HeaderInFirst(m, chain);
    OverwriteFront(m[chain[0]].buffer, LE(4, len));
    HeaderIs(len);
    ClosedFlat(m, chain, len);
  }

  lemma ClosedFlat(m: Memory, chain: seq<Ptr>, len: nat)
    requires Linked(m, chain) && chain != [] && 4 <= len <= INT_MAX
    requires BLOCK_SIZE * (|chain| - 1) <= len <= BLOCK_SIZE * |chain|
    requires chain[0] in m && |m[chain[0]].buffer| == BLOCK_SIZE
    ensures var m' := Headed(m, chain[0], len);
      Closed(m', chain[0], chain, len) && Payload(m', chain, len) == Flat(m, chain)[..len][4..]
  {
    var f, m' := Flat(m, chain), Headed(m, chain[0], len);
    FlatOverwrite(m, chain, 0, 0, LE(4, len));
    assert Flat(m', chain) == f[..0] + LE(4, len) + f[4..];
    assert f[4..][..len - 4] == f[..len][4..];
  }

  lemma EndsHere(m: Memory, chain: seq<Ptr>, k: nat)
    requires Linked(m, chain) && k < |chain| && chain[k] in m && m[chain[k]].next == NULL
    ensures k == |chain| - 1
  {
    assert LinkOk(m, chain, k) && (k + 1 < |chain| ==> LinkOk(m, chain, k + 1));
  }

  // ----- writing

  class WriteBlock {
    var mem: Memory
    var head: Ptr
    var len: nat
    var current: Ptr
    var ptr: nat
    /** The next address `malloc` hands out. */
    var brk: Ptr
    ghost var chain: seq<Ptr>
    /** The bytes written so far, header included. */
    ghost var bytes: seq<byte>

    ghost predicate Valid()
      reads this
    {
      && Linked(mem, chain) && chain != [] && head == chain[0] && current == chain[|chain| - 1]
      && ptr <= BLOCK_SIZE && len == BLOCK_SIZE * (|chain| - 1) + ptr && len <= INT_MAX
      && brk > NULL && (forall p | p in mem :: p < brk)
      && bytes == Flat(mem, chain)[..len]
    }

    /** `wb_init` without a block: the header is a placeholder for now. */
    constructor ()
      ensures Valid() && bytes == LE(4, 0) && fresh(this)
    {
      var b := Block(NULL, LE(4, 0) + seq(BLOCK_SIZE - 4, i => 0));
      mem, head, len, current, ptr, brk, chain, bytes := map[1 := b], 1, 4, 1, 4, 2, [1], LE(4, 0);
      new;
      assert LinkOk(mem, chain, 0);
      assert Flat(mem, chain) == b.buffer + Flat(mem, chain[1..]);
    }

    /** `wb_init` on a finished stream: the walk to the last block finds where it ends. */
    constructor Resume(m: Memory, b: Ptr, addr: Ptr, ghost chain0: seq<Ptr>, ghost total: nat)
      requires Closed(m, b, chain0, total) && addr > NULL && forall p | p in m :: p < addr
      ensures Valid() && bytes == LE(4, total) + Payload(m, chain0, total) && fresh(this)
    {
      HeaderInFirst(m, chain0);
      HeaderRead(total);
      mem, head, brk, chain := m, b, addr, chain0;
      var sz: int := FromLE(m[b].buffer[..4]);
      len := sz;
      var c := b;
      ghost var k := 0;
      assert LinkOk(m, chain0, 0);
      while m[c].next != NULL
        invariant k < |chain0| && c == chain0[k] && c in m && LinkOk(m, chain0, k)
        invariant sz == total - BLOCK_SIZE * k
        decreases |chain0| - k
      {
        assert LinkOk(m, chain0, k + 1);
        c, sz, k := m[c].next, sz - BLOCK_SIZE, k + 1;
      }
      current, ptr, bytes := c, sz, Flat(m, chain0)[..total];
      EndsHere(m, chain0, k);
      new;
      HeaderThenPayload(m, b, chain0, total);
    }

    /** `wb_close`: the final length goes to the header. */
    method Close() returns (b: Ptr)
      requires Valid() && len >= 4
      modifies this
      ensures mem.Keys == old(mem).Keys && chain == old(chain) && brk == old(brk)
      ensures Closed(mem, b, chain, old(len)) && Payload(mem, chain, old(len)) == old(bytes)[4..]
      ensures b in mem && |mem[b].buffer| == BLOCK_SIZE && Value4(mem[b].buffer[..4]) == old(len)
    {
      Closing(mem, chain, len);
      mem := Headed(mem, head, len);
      len := len + 4;
      current := NULL;
      b := head;
    }

    /** `blk_alloc` and the move to the new block. */
    method NewBlock()
      requires Valid() && ptr == BLOCK_SIZE
      modifies this
      ensures Valid() && bytes == old(bytes) && ptr == 0
    {
      var b := Block(NULL, seq(BLOCK_SIZE, i => 0));
      assert LinkOk(mem, chain, |chain| - 1);
      FlatGrow(mem, chain, brk, b);
      assert Flat(mem, chain)[..len] == (Flat(mem, chain) + b.buffer)[..len];
      mem := mem[current := mem[current].(next := brk)][brk := b];
      chain := chain + [brk];
      current, ptr, brk := brk, 0, brk + 1;
    }

    /** `memcpy` to the current block. */
    method Put(d: seq<byte>)
      requires Valid() && ptr + |d| <= BLOCK_SIZE && len + |d| <= INT_MAX
      modifies this
      ensures Valid() && bytes == old(bytes) + d && ptr == old(ptr) + |d|
    {
      FlatOverwrite(mem, chain, |chain| - 1, ptr, d);
      PutBytes(Flat(mem, chain), len, d);
      mem := mem[current := mem[current].(buffer := Overwrite(mem[current].buffer, ptr, d))];
      ptr, len, bytes := ptr + |d|, len + |d|, bytes + d;
    }

    lemma PutBytes(f: seq<byte>, at: nat, d: seq<byte>)
      requires at + |d| <= |f|
      ensures Overwrite(f, at, d)[..at + |d|] == f[..at] + d
    {
    }

    /** `wb_push`: append, over as many blocks as it takes. */
    method Push(buf: seq<byte>)
      requires Valid() && len + |buf| <= INT_MAX
      modifies this
      ensures Valid() && bytes == old(bytes) + buf
    {
      var rest := buf;
      if ptr == BLOCK_SIZE {
        NewBlock();
      }
      while ptr > BLOCK_SIZE - |rest|
        invariant Valid() && ptr < BLOCK_SIZE && len + |rest| <= INT_MAX
        invariant bytes + rest == old(bytes) + buf
        decreases |rest|
      {
        var copy := BLOCK_SIZE - ptr;
        assert rest == rest[..copy] + rest[copy..];
        Put(rest[..copy]);
        rest := rest[copy..];
        NewBlock();
      }
      Put(rest);
    }
  }

  // ----- reading

  lemma CutRest(s: seq<byte>, at: nat, len: nat, n: nat)
    requires n <= len && at + len <= |s|
    ensures s[at..at + len][n..] == s[at + n..at + len] && s[at..at + n] + s[at + n..at + len] == s[at..at + len]
  {
  }

  /** Bytes of the first block are bytes of the stream. */
  lemma InFirst(m: Memory, chain: seq<Ptr>, at: nat, n: nat)
    requires Linked(m, chain) && chain != [] && at + n <= BLOCK_SIZE
    ensures First(chain) in m && |m[First(chain)].buffer| == BLOCK_SIZE <= |Flat(m, chain)|
    ensures m[First(chain)].buffer[at..at + n] == Flat(m, chain)[at..at + n]
  {
    Tail(m, chain);
  }

  class ReadBlock {
    /** The whole stream at once, or the blocks from `current` on. */
    var flat: seq<byte>
    var whole: bool
    var mem: Memory
    var current: Ptr
    var len: nat
    var ptr: nat
    ghost var chain: seq<Ptr>
    /** What is still to be read. */
    ghost var rest: seq<byte>

    ghost predicate Valid()
      reads this
    {
      if whole then ptr + len <= |flat| && rest == flat[ptr..ptr + len]
      else
        && Linked(mem, chain) && current == First(chain)
        && ptr <= BLOCK_SIZE && (if chain == [] then ptr == len == 0 else ptr + len <= BLOCK_SIZE * |chain|)
        && rest == Flat(mem, chain)[ptr..ptr + len]
    }

    /** `rb_init`. */
    constructor (m: Memory, b: Ptr, ghost chain0: seq<Ptr>, ghost total: nat)
      requires Closed(m, b, chain0, total)
      ensures Valid() && rest == Payload(m, chain0, total) && fresh(this)
    {
      HeaderInFirst(m, chain0);
      HeaderRead(total);
      flat, whole, mem, current, chain := [], false, m, b, chain0;
      ptr, len, rest := 4, FromLE(m[b].buffer[..4]) - 4, Payload(m, chain0, total);
    }

    /** `rball_init`. */
    constructor Whole(buffer: seq<byte>, ghost total: nat)
      requires 4 <= total <= |buffer| && total <= INT_MAX && buffer[..4] == LE(4, total)
      ensures Valid() && rest == buffer[4..total] && fresh(this)
    {
      HeaderRead(total);
      flat, whole, mem, current, chain := buffer, true, map[], NULL, [];
      ptr, len, rest := 4, FromLE(buffer[..4]) - 4, buffer[4..total];
    }

    /** The move to the next block, which frees the one that is used up. */
    method NextBlock()
      requires Valid() && !whole && ptr == BLOCK_SIZE && chain != []
      modifies this
      ensures Valid() && !whole && rest == old(rest) && ptr == 0
    {
      FlatTail(mem, chain);
      ghost var f := Flat(mem - {current}, chain[1..]);
      assert (mem[current].buffer + f)[BLOCK_SIZE..BLOCK_SIZE + len] == f[..len];
      var next := mem[current].next;
      mem := mem - {current};
      current, ptr, chain := next, 0, chain[1..];
    }

    /** `sz` bytes of the current block. */
    method Get(sz: nat) returns (d: seq<byte>)
      requires Valid() && !whole && sz <= len && ptr + sz <= BLOCK_SIZE
      modifies this
      ensures Valid() && !whole && d + rest == old(rest) && |d| == sz && ptr == old(ptr) + sz
    {
      d := [];
      CutRest(Flat(mem, chain), ptr, len, sz);
      if sz > 0 {
        InFirst(mem, chain, ptr, sz);
        d := mem[current].buffer[ptr..ptr + sz];
      } else {
        assert Flat(mem, chain)[ptr..ptr] == [];
      }
      ptr, len, rest := ptr + sz, len - sz, rest[sz..];
    }

    /** On to the next block, for all of it or for the `left` bytes still wanted. */
    method NextPart(left: nat) returns (d: seq<byte>)
      requires Valid() && !whole && left <= len && ptr == BLOCK_SIZE && chain != []
      modifies this
      ensures Valid() && !whole && d + rest == old(rest) && |d| == (if left < BLOCK_SIZE then left else BLOCK_SIZE)
      ensures |d| == BLOCK_SIZE ==> ptr == BLOCK_SIZE && chain != []
    {
      NextBlock();
      d := Get(if left < BLOCK_SIZE then left else BLOCK_SIZE);
    }

    /** A read that leaves the current block. */
    method ReadAcross(sz: nat) returns (data: seq<byte>)
      requires Valid() && !whole && ptr < BLOCK_SIZE && BLOCK_SIZE - ptr < sz <= len
      modifies this
      ensures Valid() && !whole && data + rest == old(rest) && |data| == sz
    {
      data := Get(BLOCK_SIZE - ptr);
      var left: nat := sz - |data|;
      while true
        invariant Valid() && !whole && left <= len && ptr == BLOCK_SIZE && chain != []
        invariant |data| + left == sz && data + rest == old(rest)
        decreases left
      {
        var d := NextPart(left);
        data, left := data + d, left - |d|;
        if |d| < BLOCK_SIZE {
          return;
        }
      }
    }

    /** `rb_read`: the next `sz` bytes, or nothing if fewer are left. */
    method Read(sz: nat) returns (r: Result<seq<byte>>)
      requires Valid()
      modifies this
      ensures Valid()
      ensures r.Ok? <==> sz <= |old(rest)|
      ensures r.Ok? ==> r.value + rest == old(rest) && |r.value| == sz
      ensures r.Err? ==> r.error == InvalidStream && rest == old(rest)
    {
      if len < sz {
        return Err(InvalidStream);
      }
      if whole {
        r := Ok(flat[ptr..ptr + sz]);
        ptr, len, rest := ptr + sz, len - sz, rest[sz..];
        return;
      }
      if ptr == BLOCK_SIZE {
        NextBlock();
      }
      var d;
      if sz <= BLOCK_SIZE - ptr {
        d := Get(sz);
      } else {
        d := ReadAcross(sz);
      }
      return Ok(d);
    }
  }

  // ----- one flat buffer

  /** The first `len` bytes of a stream, block by block: the loop of `lserialize`. */
  method CopyBlocks(m: Memory, b: Ptr, n: nat, ghost chain: seq<Ptr>) returns (buffer: seq<byte>)
    requires Linked(m, chain) && b == First(chain) && n <= BLOCK_SIZE * |chain|
    ensures buffer == Flat(m, chain)[..n]
  {
    buffer := [];
    var c := b;
    var left: nat := n;
    ghost var rest := chain;
    while left > 0
      invariant left <= n && Linked(m, rest) && c == First(rest) && left <= BLOCK_SIZE * |rest|
      invariant buffer + Flat(m, rest)[..left] == Flat(m, chain)[..n]
      decreases left
    {
      Tail(m, rest);
      if left >= BLOCK_SIZE {
        assert Flat(m, rest)[..left] == m[c].buffer + Flat(m, rest[1..])[..left - BLOCK_SIZE];
        buffer := buffer + m[c].buffer;
        left := left - BLOCK_SIZE;
      } else {
        assert Flat(m, rest)[..left] == m[c].buffer[..left];
        buffer := buffer + m[c].buffer[..left];
        return;
      }
      c, rest := m[c].next, rest[1..];
    }
  }

  /** `lserialize`: the finished stream as one buffer, with its length in front. */
  method Serialize(m: Memory, b: Ptr, ghost chain: seq<Ptr>, ghost total: nat) returns (buffer: seq<byte>)
    requires Closed(m, b, chain, total)
    ensures |buffer| == total && buffer[..4] == LE(4, total) && buffer[4..] == Payload(m, chain, total)
    ensures Value4(buffer[..4]) == |buffer|
  {
    HeaderInFirst(m, chain);
    HeaderRead(total);
    var len := FromLE(m[b].buffer[..4]);
    buffer := CopyBlocks(m, b, len, chain);
    ghost var was := buffer;
    buffer := Overwrite(buffer, 0, LE(4, len));
    assert was[..4] == LE(4, total);
    assert buffer == was;
    HeaderIs(total);
  }
}
