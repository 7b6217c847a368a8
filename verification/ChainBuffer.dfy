/** A byte buffer kept as a linked chain of chunks, proved to behave as one flat byte string.

  Chunks live in a memory from addresses to records; `free` removes the address, so every
  access below is also proved to hit a live chunk. */
module ChainBuffer {
  import opened Bytes
  import opened Pointers
  import opened Seqs

  const MIN_BUFFER_SIZE := 1024
  const MAX_AUTO_SIZE := 4096
  const MAX_TO_REALIGN := 2048
  const CHAIN_MAX := 16 * 1024 * 1024
  /** The size of a chunk header, which precedes the chunk's bytes. */
  const HEADER := 32

  datatype Chunk = Chunk(next: Ptr, bufferLen: nat, misalign: nat, off: nat, buffer: seq<byte>) {
    /** Lengths fit; a chunk may be empty only if it is alone. */
    predicate Valid(alone: bool) {
      && |buffer| == bufferLen && misalign + off <= bufferLen && 0 < bufferLen <= CHAIN_MAX - HEADER
      && (off == 0 ==> alone && misalign == 0)
    }

    predicate Fits() {
      misalign + off <= |buffer|
    }

    /** The bytes in use. */
    function Data(): (r: seq<byte>)
      requires Fits()
      ensures |r| == off
    {
      buffer[misalign..misalign + off]
    }

    function Room(): int {
      bufferLen - misalign - off
    }

    /** `memcpy` of `bytes` behind the last byte. */
    function Append(bytes: seq<byte>): (c: Chunk)
      requires |buffer| == bufferLen && misalign + off + |bytes| <= bufferLen
      ensures c.Fits() && c.Data() == Data() + bytes
    {
      var at := misalign + off;
      this.(buffer := buffer[..at] + bytes + buffer[at + |bytes|..], off := off + |bytes|)
    }

    /** `buf_chain_should_realign`. */
    predicate ShouldRealign(datlen: nat) {
      bufferLen - off >= datlen && off < bufferLen / 2 && off <= MAX_TO_REALIGN
    }

    /** `buf_chain_align`: the bytes move to the start of the chunk. */
    function Align(): (c: Chunk)
      requires Fits()
      ensures c.Fits() && c.Data() == Data()
    {
      this.(buffer := Data() + buffer[off..], misalign := 0)
    }

    /** The first `n` bytes in use are dropped. */
    function Skip(n: nat): (c: Chunk)
      requires Fits() && n <= off
      ensures c.Fits() && c.Data() == Data()[n..]
    {
      this.(misalign := misalign + n, off := off - n)
    }
  }

  type Memory = map<Ptr, Chunk>

  /** What a call answers, unless it follows a null pointer. */
  datatype Reply<T> = Returns(value: T) | NullAccess

  lemma OverwriteMore(s: seq<byte>, from: nat, at: nat, d: seq<byte>)
    requires from <= at && at + |d| <= |s|
    ensures Overwrite(s, at, d)[from..at + |d|] == s[from..at] + d
  {
  }

  // ----- the flat string of a chain

  ghost predicate Live(m: Memory, chain: seq<Ptr>) {
    forall c | c in chain :: c in m && m[c].Fits()
  }

  ghost function Flat(m: Memory, chain: seq<Ptr>): seq<byte>
    requires Live(m, chain)
  {
    if chain == [] then [] else m[chain[0]].Data() + Flat(m, chain[1..])
  }

  lemma {:induction false} FlatConcat(m: Memory, a: seq<Ptr>, b: seq<Ptr>)
    requires Live(m, a) && Live(m, b)
    ensures Live(m, a + b) && Flat(m, a + b) == Flat(m, a) + Flat(m, b)
  {
    if a == [] {
      assert a + b == b;
    } else {
      assert (a + b)[1..] == a[1..] + b;
      FlatConcat(m, a[1..], b);
    }
  }

  lemma {:induction false} FlatFrame(m: Memory, m': Memory, chain: seq<Ptr>)
    requires Live(m, chain)
    requires forall c | c in chain :: c in m' && m'[c].Fits() && m'[c].Data() == m[c].Data()
    ensures Flat(m', chain) == Flat(m, chain)
  {
    if chain != [] {
      FlatFrame(m, m', chain[1..]);
    }
  }

  ghost predicate Distinct(chain: seq<Ptr>) {
    forall i, j | 0 <= i < j < |chain| :: chain[i] != chain[j]
  }

  /** Rewriting one chunk rewrites its stretch of the flat string. */
  lemma FlatUpdate(m: Memory, chain: seq<Ptr>, k: nat, c: Chunk)
    requires Live(m, chain) && Distinct(chain) && k < |chain| && c.Fits()
    ensures var m' := m[chain[k] := c];
      Live(m', chain) && Flat(m', chain) == Flat(m, chain[..k]) + c.Data() + Flat(m, chain[k + 1..])
  {
    var m' := m[chain[k] := c];
    FlatFrame(m, m', chain[..k]);
    FlatFrame(m, m', chain[k + 1..]);
    FlatConcat(m', chain[..k], chain[k..]);
    assert chain == chain[..k] + chain[k..];
    assert chain[k..][1..] == chain[k + 1..];
  }

  lemma FlatSplit(m: Memory, chain: seq<Ptr>, k: nat)
    requires Live(m, chain) && k < |chain|
    ensures Flat(m, chain) == Flat(m, chain[..k]) + m[chain[k]].Data() + Flat(m, chain[k + 1..])
    ensures Flat(m, chain[k..]) == m[chain[k]].Data() + Flat(m, chain[k + 1..])
  {
    FlatConcat(m, chain[..k], chain[k..]);
    assert chain == chain[..k] + chain[k..];
    assert chain[k..][1..] == chain[k + 1..];
  }

  /** Bytes added to the last chunk are added at the end. */
  lemma FlatExtend(m: Memory, chain: seq<Ptr>, c: Chunk, bytes: seq<byte>)
    requires Live(m, chain) && Distinct(chain) && chain != []
    requires var k := |chain| - 1; c.Fits() && c.Data() == m[chain[k]].Data() + bytes
    ensures var m' := m[chain[|chain| - 1] := c];
      Live(m', chain) && Flat(m', chain) == Flat(m, chain) + bytes
  {
    var k := |chain| - 1;
    FlatUpdate(m, chain, k, c);
    FlatSplit(m, chain, k);
  }

  // ----- separators

  ghost predicate MatchAt(s: seq<byte>, i: nat, sep: seq<byte>) {
    i + |sep| <= |s| && s[i..i + |sep|] == sep
  }

  ghost predicate NoneBefore(s: seq<byte>, sep: seq<byte>, n: nat) {
    forall i: nat | i < n :: !MatchAt(s, i, sep)
  }

  ghost predicate NoneIn(s: seq<byte>, sep: seq<byte>, from: nat, n: nat) {
    forall i: nat | from <= i < n :: !MatchAt(s, i, sep)
  }

  ghost predicate NoneFrom(s: seq<byte>, sep: seq<byte>, from: nat) {
    forall i: nat | from <= i :: !MatchAt(s, i, sep)
  }

  lemma NoneInNext(s: seq<byte>, sep: seq<byte>, from: nat, i: nat)
    requires NoneIn(s, sep, from, i) && !MatchAt(s, i, sep)
    ensures NoneIn(s, sep, from, i + 1)
  {
  }

  lemma NoneLeft(s: seq<byte>, sep: seq<byte>, from: nat, n: nat)
    requires NoneIn(s, sep, from, n) && n + |sep| > |s|
    ensures NoneFrom(s, sep, from)
  {
  }

  /** What a search from position `pos` answers: the end of the first occurrence there, or 0. */
  ghost predicate Finds(s: seq<byte>, sep: seq<byte>, pos: nat, r: nat) {
    if r == 0 then NoneFrom(s, sep, pos)
    else r >= |sep| && r - |sep| >= pos && MatchAt(s, r - |sep|, sep) && NoneIn(s, sep, pos, r - |sep|)
  }

  /** What `buffer_search` answers; it takes an empty separator to start at the remembered position. */
  ghost predicate Answers(s: seq<byte>, sep: seq<byte>, pos: nat, r: nat) {
    if sep == [] then r == (if pos < |s| then pos else 0) else Finds(s, sep, pos, r)
  }

  /** Where a search for `n` bytes that finds nothing in `total` bytes leaves the remembered position. */
  function ScanEnd(total: nat, n: nat, pos: nat): nat {
    if n == 0 || pos >= total || (n <= total && pos + n > total) then pos
    else if n == 1 || n > total then total - 1
    else total - n + 1
  }

  /** The bytes there are tell whether `sep` starts at `i`. */
  ghost predicate Decided(s: seq<byte>, i: nat, sep: seq<byte>) {
    i <= |s| && (i + |sep| <= |s| || !(s[i..] <= sep))
  }

  /** What comparing `sep` with the bytes from `i` on comes to; it follows the null link behind the last
      chunk if the bytes do not tell. */
  ghost function Compared(s: seq<byte>, i: nat, sep: seq<byte>): Reply<bool> {
    if Decided(s, i, sep) then Returns(MatchAt(s, i, sep)) else NullAccess
  }

  /** A search from `pos` stays inside the chain. Its loop bound `total_len - seplen` wraps around when the
      separator is longer than the bytes, so each comparison must then find a difference in time. */
  predicate Safe(s: seq<byte>, sep: seq<byte>, pos: nat) {
    |sep| <= |s| || forall i: nat | pos <= i < |s| :: !(s[i..] <= sep)
  }

  /** What `buffer_search` comes to. */
  ghost predicate Outcome(s: seq<byte>, sep: seq<byte>, pos: nat, r: Reply<nat>) {
    match r
    case Returns(n) => Safe(s, sep, pos) && Answers(s, sep, pos, n)
    case NullAccess => !Safe(s, sep, pos)
  }

  /** A search from a remembered position answers what a search from the start would if and only if no
      occurrence starts before that position. */
  lemma FreshIff(s: seq<byte>, sep: seq<byte>, pos: nat, r: nat)
    requires Finds(s, sep, pos, r)
    ensures Finds(s, sep, 0, r) <==> NoneBefore(s, sep, pos)
  {
    if NoneBefore(s, sep, pos) {
      forall i: nat | !(pos <= i) ensures !MatchAt(s, i, sep) {}
    } else {
      var i: nat :| i < pos && MatchAt(s, i, sep);
    }
  }

  lemma PrefixTail(a: seq<byte>, rest: seq<byte>, sep: seq<byte>)
    requires |a| <= |sep| && a == sep[..|a|]
    ensures a + rest <= sep <==> rest <= sep[|a|..]
  {
    if a + rest <= sep {
      assert sep[|a|..][..|rest|] == sep[..|a + rest|][|a|..];
    }
  }

  /** A separator that leaves the chunk `d` is compared piece by piece. */
  lemma ComparedSplit(d: seq<byte>, rest: seq<byte>, from: nat, sep: seq<byte>)
    requires from <= |d| && |d| - from < |sep|
    ensures var sz := |d| - from;
      Compared(d + rest, from, sep) == if d[from..] == sep[..sz] then Compared(rest, 0, sep[sz..]) else Returns(false)
  {
    var sz := |d| - from;
    var tail := sep[sz..];
    assert sep == sep[..sz] + tail;
    assert (d + rest)[from..] == d[from..] + rest;
    assert rest[0..] == rest;
    if from + |sep| <= |d + rest| {
      assert (d + rest)[from..from + |sep|] == d[from..] + rest[..|tail|];
    } else if d[from..] == sep[..sz] {
      PrefixTail(d[from..], rest, sep);
    } else {
      assert (d[from..] + rest)[..sz] == d[from..];
    }
  }

  /** Behind the last chunk there is nothing to compare with. */
  lemma ComparedNothing(sep: seq<byte>)
    requires sep != []
    ensures Compared([], 0, sep) == NullAccess
  {
  }

  /** The bytes from `from` to `n` on decide whether `sep` starts there. */
  ghost predicate DecidedIn(s: seq<byte>, sep: seq<byte>, from: nat, n: nat) {
    forall i: nat | from <= i < n :: Decided(s, i, sep)
  }

  lemma AllDecided(s: seq<byte>, sep: seq<byte>, from: nat)
    requires DecidedIn(s, sep, from, |s|)
    ensures Safe(s, sep, from)
  {
    forall i: nat | from <= i < |s| && |sep| > |s|
      ensures !(s[i..] <= sep)
    {
      assert Decided(s, i, sep);
    }
  }

  /** Comparing looks only at the bytes that are left. */
  lemma SameRest(s: seq<byte>, i: nat, t: seq<byte>, j: nat, sep: seq<byte>)
    requires i <= |s| && j <= |t| && s[i..] == t[j..]
    ensures Compared(s, i, sep) == Compared(t, j, sep)
  {
    assert |s| - i == |s[i..]| && |t| - j == |t[j..]|;
    if i + |sep| <= |s| {
      assert s[i..i + |sep|] == s[i..][..|sep|] && t[j..j + |sep|] == t[j..][..|sep|];
    }
  }

  // ----- links

  /** A `buf_chain**`: the address of `first` or of some chunk's `next` field. */
  datatype Ref = FirstField | NextField(chunk: Ptr)

  ghost predicate LinkOk(m: Memory, chain: seq<Ptr>, i: nat)
    requires i < |chain|
  {
    && chain[i] != NULL && chain[i] in m
    && m[chain[i]].next == (if i + 1 < |chain| then chain[i + 1] else NULL)
    && m[chain[i]].Valid(|chain| == 1)
  }

  /** `m` consists of the chunks of `chain`, linked in that order. */
  ghost predicate Linked(m: Memory, chain: seq<Ptr>) {
    && Distinct(chain)
    && m.Keys == (set c | c in chain)
    && forall i: nat | i < |chain| :: LinkOk(m, chain, i)
  }

  lemma LinkedLive(m: Memory, chain: seq<Ptr>)
    requires Linked(m, chain)
    ensures Live(m, chain)
  {
    forall c | c in chain
      ensures c in m && m[c].Fits()
    {
      var i :| 0 <= i < |chain| && chain[i] == c;
      assert LinkOk(m, chain, i);
    }
  }

  ghost function TailRef(chain: seq<Ptr>): Ref {
    if |chain| <= 1 then FirstField else NextField(chain[|chain| - 2])
  }

  ghost function First(chain: seq<Ptr>): Ptr {
    if chain == [] then NULL else chain[0]
  }

  ghost function Last(chain: seq<Ptr>): Ptr {
    if chain == [] then NULL else chain[|chain| - 1]
  }

  lemma LastOfRest(chain: seq<Ptr>)
    requires chain != []
    ensures Last(chain) == if chain[1..] == [] then First(chain) else Last(chain[1..])
  {
  }

  /** Rewriting the last chunk in place keeps the links. */
  lemma RewriteLast(m: Memory, chain: seq<Ptr>, c: Chunk)
    requires Linked(m, chain) && chain != [] && c.Valid(|chain| == 1) && c.next == NULL
    ensures Linked(m[Last(chain) := c], chain)
  {
    var m' := m[Last(chain) := c];
    forall i: nat | i < |chain|
      ensures LinkOk(m', chain, i)
    {
      assert LinkOk(m, chain, i);
    }
  }

  /** Linking a fresh chunk behind a last chunk that is in use. */
  ghost function LinkBehind(m: Memory, chain: seq<Ptr>, p: Ptr, c: Chunk): Memory
    requires Last(chain) in m
  {
    m[Last(chain) := m[Last(chain)].(next := p)][p := c]
  }

  lemma InsertBehind(m: Memory, chain: seq<Ptr>, p: Ptr, c: Chunk)
    requires Linked(m, chain) && Live(m, chain) && chain != [] && m[Last(chain)].off > 0
    requires p !in m && p != NULL && c.Valid(false) && c.next == NULL
    ensures var m' := LinkBehind(m, chain, p, c);
      && Linked(m', chain + [p]) && Live(m', chain + [p])
      && Flat(m', chain + [p]) == Flat(m, chain) + c.Data()
  {
    InsertLinked(m, chain, p, c);
    InsertFlat(m, chain, p, c);
  }

  lemma InsertLinked(m: Memory, chain: seq<Ptr>, p: Ptr, c: Chunk)
    requires Linked(m, chain) && Live(m, chain) && chain != [] && m[Last(chain)].off > 0
    requires p !in m && p != NULL && c.Valid(false) && c.next == NULL
    ensures var m' := LinkBehind(m, chain, p, c); Linked(m', chain + [p]) && Live(m', chain + [p])
  {
    var m' := LinkBehind(m, chain, p, c);
    forall i: nat | i < |chain| + 1
      ensures LinkOk(m', chain + [p], i)
    {
      if i < |chain| {
        assert LinkOk(m, chain, i);
      }
    }
    LinkedLive(m', chain + [p]);
  }

  lemma InsertFlat(m: Memory, chain: seq<Ptr>, p: Ptr, c: Chunk)
    requires Live(m, chain) && chain != [] && p !in m && c.Fits() && Live(LinkBehind(m, chain, p, c), chain + [p])
    ensures Flat(LinkBehind(m, chain, p, c), chain + [p]) == Flat(m, chain) + c.Data()
  {
    var m' := LinkBehind(m, chain, p, c);
    FlatFrame(m, m', chain);
    FlatConcat(m', chain, [p]);
    assert Flat(m', [p]) == c.Data() + Flat(m', []);
  }

  lemma Longer(m: Memory, chain: seq<Ptr>, p: Ptr, c: Chunk)
    requires chain != [] && Last(chain) in m && forall q | q in m :: q < p
    ensures First(chain + [p]) == First(chain) && Last(chain + [p]) == p
    ensures TailRef(chain + [p]) == NextField(Last(chain))
    ensures forall q | q in LinkBehind(m, chain, p, c) :: q < p + 1
  {
  }

  /** Freeing the first chunk leaves the rest of the chain intact. */
  lemma UnlinkFirst(m: Memory, chain: seq<Ptr>)
    requires Linked(m, chain) && chain != []
    ensures chain[0] in m && m[chain[0]].next == First(chain[1..]) && m[chain[0]].Valid(|chain| == 1)
    ensures Linked(m - {chain[0]}, chain[1..]) && Live(m - {chain[0]}, chain[1..])
    ensures Live(m, chain) && Flat(m, chain) == m[chain[0]].Data() + Flat(m - {chain[0]}, chain[1..])
  {
    assert LinkOk(m, chain, 0);
    var m' := m - {chain[0]};
    forall i: nat | i < |chain| - 1
      ensures LinkOk(m', chain[1..], i)
    {
      assert LinkOk(m, chain, i + 1);
      assert chain[i + 1] != chain[0];
    }
    LinkedLive(m, chain);
    LinkedLive(m', chain[1..]);
    FlatFrame(m', m, chain[1..]);
  }

  lemma FreedAll(m: Memory, chain: seq<Ptr>)
    requires Linked(m, chain) && First(chain) == NULL
    ensures m == map[]
  {
    assert chain != [] ==> LinkOk(m, chain, 0);
  }

  lemma AllGathered(m: Memory, chain: seq<Ptr>, c: Ptr, size: nat)
    requires Linked(m, chain) && Live(m, chain) && c == First(chain) && size == |Flat(m, chain)|
    requires c == NULL || (c in m && size < m[c].off)
    ensures chain == [] && m == map[]
  {
    if chain != [] {
      FirstInUse(m, chain);
    }
  }

  lemma OnlyKey(m: Memory, p: Ptr)
    requires p in m && m - {p} == map[]
    ensures m.Keys == {p}
  {
    assert forall q | q in m :: q != p ==> q in m - {p};
  }

  lemma FirstInUse(m: Memory, chain: seq<Ptr>)
    requires Linked(m, chain) && Live(m, chain) && chain != []
    ensures chain[0] != NULL && |Flat(m, chain)| >= m[chain[0]].off
  {
    assert LinkOk(m, chain, 0);
  }

  /** A first chunk that is used up by fewer bytes than there are is not the last. */
  lemma RestHasMore(m: Memory, chain: seq<Ptr>, n: nat)
    requires Live(m, chain) && n < |Flat(m, chain)|
    ensures chain != [] && (n >= m[chain[0]].off ==> |chain| >= 2)
  {
    if |chain| == 1 {
      assert chain[1..] == [];
      assert Flat(m, chain) == m[chain[0]].Data();
    }
  }

  lemma SkipLinked(m: Memory, chain: seq<Ptr>, n: nat)
    requires Linked(m, chain) && Live(m, chain) && chain != [] && n < m[chain[0]].off
    ensures Linked(m[chain[0] := m[chain[0]].Skip(n)], chain)
  {
    var m' := m[chain[0] := m[chain[0]].Skip(n)];
    forall i: nat | i < |chain|
      ensures LinkOk(m', chain, i)
    {
      assert LinkOk(m, chain, i);
    }
  }

  /** Dropping bytes of the first chunk drops them from the whole. */
  lemma ShortenLinked(m: Memory, chain: seq<Ptr>, n: nat)
    requires Linked(m, chain) && Live(m, chain) && chain != [] && n < m[chain[0]].off
    ensures var m' := m[chain[0] := m[chain[0]].Skip(n)];
      Linked(m', chain) && Live(m', chain) && Flat(m', chain) == Flat(m, chain)[n..]
  {
    var c := m[chain[0]].Skip(n);
    SkipLinked(m, chain, n);
    FlatUpdate(m, chain, 0, c);
    FlatSplit(m, chain, 0);
    assert chain[..0] == [];
    DropFront(m[chain[0]].Data(), Flat(m, chain[1..]), n);
  }

  lemma DropFront(d: seq<byte>, rest: seq<byte>, n: nat)
    requires n <= |d|
    ensures [] + d[n..] + rest == ([] + d + rest)[n..]
  {
  }

  /** The first bytes of a string in parts. */
  lemma FrontOf(a: seq<byte>, b: seq<byte>, c: seq<byte>, n: nat)
    requires n <= |b|
    ensures (a + (b + c))[..|a| + n] == a + b[..n]
    ensures (a + c)[..|a|] == a
  {
  }

  lemma DropTwice(s: seq<byte>, m: nat, n: nat)
    requires m + n <= |s|
    ensures s[m..][n..] == s[m + n..]
  {
  }

  /** Dropping `n` bytes, of which the first ones are `d`. */
  lemma DropMore(s: seq<byte>, k: nat, d: seq<byte>, n: nat)
    requires k <= n <= |s| && |d| == k
    ensures forall rest | s == d + rest :: rest[n - k..] == s[n..] && |rest| == |s| - k
  {
  }

  // ----- allocation

  /** 1024, doubled some times. */
  predicate Doubled(r: nat) {
    r == 1024 || (r > 1024 && r % 2 == 0 && Doubled(r / 2))
  }

  function DoubledUp(from: nat, size: nat): (r: nat)
    requires from > 0
    ensures r >= from && r >= size && (r == from || r < 2 * size)
    ensures Doubled(from) ==> Doubled(r)
    decreases size - from
  {
    if from >= size then from else DoubledUp(2 * from, size)
  }

  /** Bytes allocated for a chunk of `size` bytes: header included, doubled up from 1024
      unless the request is large. */
  function AllocSize(size: nat): (r: nat)
    requires size + HEADER <= CHAIN_MAX
    ensures size + HEADER <= r <= CHAIN_MAX && r > HEADER
  {
    if size + HEADER < CHAIN_MAX / 2 then DoubledUp(MIN_BUFFER_SIZE, size + HEADER) else size + HEADER
  }

  /** For a request of `size` bytes, header included, `total` are allocated: the least doubling of 1024 that holds
      it, or just that much from half the cap on. */
  predicate Allocates(size: nat, total: nat) {
    && size <= total <= 0x100_0000
    && if size < 0x80_0000 then Doubled(total) && (total == 1024 || total < 2 * size) else total == size
  }

  class ChainBuffer {
    var mem: Memory
    var first: Ptr
    var last: Ptr
    var lastWithDatap: Ref
    var totalLen: nat
    var lastReadPos: nat
    /** The next address `malloc` hands out. */
    var brk: Ptr
    ghost var chain: seq<Ptr>

    ghost predicate Valid()
      reads `mem, `first, `last, `lastWithDatap, `totalLen, `brk, `chain
    {
      && Linked(mem, chain) && Live(mem, chain)
      && first == First(chain) && last == Last(chain) && lastWithDatap == TailRef(chain)
      && totalLen == |Flat(mem, chain)| <= CHAIN_MAX
      && brk > NULL && forall c | c in mem :: c < brk
    }

    /** The flat byte string this buffer stands for. */
    ghost function Contents(): seq<byte>
      requires Live(mem, chain)
      reads `mem, `chain
    {
      Flat(mem, chain)
    }

    constructor ()
      ensures Valid() && Contents() == [] && lastReadPos == 0
    {
      mem, first, last, lastWithDatap, totalLen, lastReadPos := map[], NULL, NULL, FirstField, 0, 0;
      brk, chain := 1, [];
    }

    /** `*p` for a `buf_chain**`. */
    function Deref(p: Ref): Ptr
      requires p.NextField? ==> p.chunk in mem
      reads this
    {
      match p
      case FirstField => first
      case NextField(c) => mem[c].next
    }

    /** `buf_chain_new`, not yet linked: a chunk record, or none if the request is too large. */
    method NewChunk(size: nat) returns (ok: bool, c: Chunk)
      ensures ok <==> size <= CHAIN_MAX - HEADER
      ensures ok ==> c.Valid(true) && c.off == 0 && c.next == NULL && c.bufferLen == AllocSize(size) - HEADER
      ensures ok ==> Allocates(size + 32, c.bufferLen + 32)
    {
      if size > CHAIN_MAX - HEADER {
        return false, Chunk(NULL, 0, 0, 0, []);
      }
      var total := size + HEADER;
      var toAlloc;
      if total < CHAIN_MAX / 2 {
        toAlloc := MIN_BUFFER_SIZE;
        while toAlloc < total
          invariant toAlloc > 0 && DoubledUp(toAlloc, total) == DoubledUp(MIN_BUFFER_SIZE, total)
        {
          toAlloc := toAlloc * 2;
        }
      } else {
        toAlloc := total;
      }
      var len := toAlloc - HEADER;
      return true, Chunk(NULL, len, 0, 0, seq(len, i => 0));
    }

    /** The chunk that takes the next byte: the last one. */
    lemma TailDesignatesLast()
      requires Valid()
      ensures lastWithDatap.NextField? ==> lastWithDatap.chunk in mem
      ensures Deref(lastWithDatap) == last
      ensures chain != [] ==> last in mem && mem[last].Valid(|chain| == 1) && mem[last].next == NULL
      ensures chain == [] <==> last == NULL
    {
      if chain != [] {
        assert LinkOk(mem, chain, |chain| - 1);
        if |chain| > 1 {
          assert LinkOk(mem, chain, |chain| - 2);
        }
      }
    }

    /** The last chunk is overwritten by `c`, which holds `bytes` more. */
    method StoreLast(c: Chunk, ghost bytes: seq<byte>)
      requires Valid() && chain != [] && totalLen + |bytes| <= CHAIN_MAX
      requires c.Valid(|chain| == 1) && c.next == NULL && c.Data() == mem[Last(chain)].Data() + bytes
      modifies this`mem, this`totalLen
      ensures Valid() && Contents() == old(Contents()) + bytes && mem[last] == c
    {
      RewriteLast(mem, chain, c);
      FlatExtend(mem, chain, c, bytes);
      mem, totalLen := mem[last := c], totalLen + (c.off - mem[last].off);
    }

    /** `free_empty_chains` on a chain whose last chunk is in use: the walk from the cached tail
        pointer ends at the null `next` field of the last chunk, and there is nothing to free. */
    method FindEnd() returns (ch: Ref)
      requires Valid() && chain != [] && mem[Last(chain)].off > 0
      ensures ch == NextField(last)
    {
      TailDesignatesLast();
      ch := lastWithDatap;
      while Deref(ch) != NULL && mem[Deref(ch)].off != 0
        invariant ch == lastWithDatap || ch == NextField(last)
        decreases ch != NextField(last)
      {
        ch := NextField(Deref(ch));
      }
    }

    /** `buf_chain_insert` into the empty buffer. */
    method InsertFirst(c: Chunk)
      requires Valid() && chain == [] && c.Valid(true) && c.off == 0 && c.next == NULL
      modifies this`mem, this`brk, this`first, this`last, this`chain
      ensures Valid() && Contents() == [] && chain == [first] && mem[first] == c
    {
      mem, brk, first, last, chain := mem[brk := c], brk + 1, brk, brk, [brk];
      assert LinkOk(mem, chain, 0);
      LinkedLive(mem, chain);
    }

    /** `buf_chain_insert` behind a chunk in use. */
    method InsertLast(c: Chunk)
      requires Valid() && chain != [] && mem[Last(chain)].off > 0
      requires c.Valid(false) && c.off > 0 && c.next == NULL && totalLen + c.off <= CHAIN_MAX
      modifies this`mem, this`brk, this`lastWithDatap, this`last, this`totalLen, this`chain
      ensures Valid() && Contents() == old(Contents()) + c.Data() && chain != []
    {
      TailDesignatesLast();
      var ch := FindEnd();
      var p := brk;
      InsertBehind(mem, chain, p, c);
      Longer(mem, chain, p, c);
      assert |Flat(mem, chain) + c.Data()| == totalLen + c.off;
      assert last == Last(chain);
      mem, brk := mem[ch.chunk := mem[ch.chunk].(next := p)][p := c], brk + 1;
      lastWithDatap, last, totalLen, chain := ch, p, totalLen + c.off, chain + [p];
    }

    /** `buffer_add`: 0 if `bytes` were appended, -1 if they do not fit. */
    method Add(bytes: seq<byte>) returns (result: int)
      requires Valid()
      modifies this
      ensures Valid() && lastReadPos == old(lastReadPos)
      ensures result == 0 || result == -1
      ensures result == 0 <==> |bytes| <= CHAIN_MAX - old(totalLen) && |bytes| <= CHAIN_MAX - HEADER
      ensures result == 0 ==> Contents() == old(Contents()) + bytes && chain != []
      ensures result == -1 ==>
        && mem == old(mem) && first == old(first) && last == old(last) && lastWithDatap == old(lastWithDatap)
        && totalLen == old(totalLen) && chain == old(chain)
    {
      if |bytes| > CHAIN_MAX - totalLen {
        return -1;
      }
      TailDesignatesLast();
      if (if Deref(lastWithDatap) == NULL then last else Deref(lastWithDatap)) == NULL {
        var ok, chunk := NewChunk(|bytes|);
        if !ok {
          return -1;
        }
        InsertFirst(chunk);
        StoreFirst(bytes);
        return 0;
      }
      result := AddToLast(bytes);
    }

    /** `bytes` go to the new chunk of a buffer that was empty, which has room for them. */
    method StoreFirst(bytes: seq<byte>)
      requires Valid() && chain == [first] && Contents() == [] && |bytes| <= CHAIN_MAX
      requires mem[first].off == 0 && mem[first].next == NULL && mem[first].Room() >= |bytes|
      modifies this`mem, this`totalLen
      ensures Valid() && Contents() == bytes
    {
      TailDesignatesLast();
      StoreLast(mem[last].Append(bytes), bytes);
      assert [] + bytes == bytes;
    }

    /** `bytes` go to the last chunk, or spill into a new one. */
    method AddToLast(bytes: seq<byte>) returns (result: int)
      requires Valid() && chain != [] && |bytes| <= CHAIN_MAX - totalLen
      modifies this
      ensures Valid() && lastReadPos == old(lastReadPos)
      ensures if |bytes| <= CHAIN_MAX - HEADER then result == 0 else result == -1
      ensures result == 0 ==> Contents() == old(Contents()) + bytes && chain != []
      ensures result == -1 ==>
        && mem == old(mem) && first == old(first) && last == old(last) && lastWithDatap == old(lastWithDatap)
        && totalLen == old(totalLen) && chain == old(chain)
    {
      TailDesignatesLast();
      if mem[last].Room() >= |bytes| || mem[last].ShouldRealign(|bytes|) {
        StoreInLast(bytes);
        return 0;
      }
      result := Extend(bytes);
    }

    /** The last chunk has room for `bytes`, if need be at the cost of moving its bytes to the front. */
    method StoreInLast(bytes: seq<byte>)
      requires Valid() && chain != [] && totalLen + |bytes| <= CHAIN_MAX && last in mem
      requires mem[last].Room() >= |bytes| || mem[last].ShouldRealign(|bytes|)
      modifies this`mem, this`totalLen
      ensures Valid() && Contents() == old(Contents()) + bytes
    {
      TailDesignatesLast();
      if mem[last].Room() >= |bytes| {
        StoreLast(mem[last].Append(bytes), bytes);
      } else {
        StoreLast(mem[last].Align().Append(bytes), bytes);
      }
    }

    /** The size `buffer_add` asks for when it starts a new chunk. */
    function NextSize(bufferLen: nat, datlen: nat): (r: nat)
      ensures r >= datlen && r >= bufferLen
      ensures bufferLen <= CHAIN_MAX - HEADER ==> (r <= CHAIN_MAX - HEADER <==> datlen <= CHAIN_MAX - HEADER)
    {
      var size := if bufferLen <= MAX_AUTO_SIZE / 2 then 2 * bufferLen else bufferLen;
      if datlen > size then datlen else size
    }

    /** The last case of `buffer_add`: fill up the last chunk and start a new one. */
    method Extend(bytes: seq<byte>) returns (result: int)
      requires Valid() && chain != [] && totalLen + |bytes| <= CHAIN_MAX && mem[Last(chain)].Room() < |bytes|
      modifies this
      ensures Valid() && lastReadPos == old(lastReadPos)
      ensures if |bytes| <= CHAIN_MAX - HEADER then result == 0 else result == -1
      ensures result == 0 ==> Contents() == old(Contents()) + bytes && chain != []
      ensures result == -1 ==>
        && mem == old(mem) && first == old(first) && last == old(last) && lastWithDatap == old(lastWithDatap)
        && totalLen == old(totalLen) && chain == old(chain)
    {
      TailDesignatesLast();
      var ok, tmp := NewChunk(NextSize(mem[last].bufferLen, |bytes|));
      if !ok {
        return -1;
      }
      Spill(tmp, bytes);
      return 0;
    }

    /** `bytes` go to the room left in the last chunk, then to the new chunk `tmp`. */
    method Spill(tmp: Chunk, bytes: seq<byte>)
      requires Valid() && chain != [] && totalLen + |bytes| <= CHAIN_MAX && mem[Last(chain)].Room() < |bytes|
      requires tmp.Valid(true) && tmp.off == 0 && tmp.next == NULL && |bytes| <= tmp.bufferLen
      modifies this
      ensures Valid() && lastReadPos == old(lastReadPos) && Contents() == old(Contents()) + bytes && chain != []
    {
      TailDesignatesLast();
      var room := mem[last].Room();
      FillUp(bytes[..room]);
      InsertLast(NewWith(tmp, bytes[room..]));
      Rejoin(old(Contents()), bytes, room);
    }

    lemma Rejoin(s: seq<byte>, bytes: seq<byte>, n: nat)
      requires n <= |bytes|
      ensures s + bytes[..n] + bytes[n..] == s + bytes
    {
      assert bytes == bytes[..n] + bytes[n..];
    }

    /** A new chunk filled with `bytes`. */
    function NewWith(tmp: Chunk, bytes: seq<byte>): (c: Chunk)
      requires tmp.Valid(true) && tmp.off == 0 && tmp.next == NULL && 0 < |bytes| <= tmp.bufferLen
      ensures c.Valid(false) && c.off == |bytes| && c.next == NULL && c.Data() == bytes
    {
      tmp.Append(bytes)
    }

    /** Use up the room of the last chunk. */
    method FillUp(bytes: seq<byte>)
      requires Valid() && chain != [] && totalLen + |bytes| <= CHAIN_MAX && |bytes| == mem[Last(chain)].Room()
      modifies this`mem, this`totalLen
      ensures Valid() && Contents() == old(Contents()) + bytes && totalLen == old(totalLen) + |bytes|
      ensures mem[Last(chain)].off > 0
    {
      TailDesignatesLast();
      if bytes != [] {
        StoreLast(mem[last].Append(bytes), bytes);
      }
    }

    /** `buffer_drain`: drop the first `len` bytes, or all there are; tells how many. */
    method Drain(len: nat) returns (n: nat)
      requires Valid()
      modifies this
      ensures Valid() && lastReadPos == old(lastReadPos)
      ensures n == (if len < old(totalLen) then len else old(totalLen))
      ensures Contents() == old(Contents())[n..]
      ensures chain == [] <==> old(chain) == [] || len >= old(totalLen) > 0
    {
      if totalLen == 0 {
        return 0;
      }
      if len >= totalLen {
        n := totalLen;
        FreeAll();
      } else {
        n := len;
        DrainPart(len);
      }
    }

    /** The whole chain is freed, then `zero_chain`. */
    method FreeAll()
      requires Valid()
      modifies this
      ensures Valid() && lastReadPos == old(lastReadPos) && Contents() == [] && chain == [] && mem == map[]
    {
      var c := first;
      ghost var rest := chain;
      while c != NULL
        invariant c == First(rest) && Linked(mem, rest)
        invariant lastReadPos == old(lastReadPos) && brk == old(brk)
        decreases |rest|
      {
        UnlinkFirst(mem, rest);
        c, mem, rest := mem[c].next, mem - {c}, rest[1..];
      }
      FreedAll(mem, rest);
      first, last, lastWithDatap, totalLen, chain := NULL, NULL, FirstField, 0, [];
    }

    /** One turn of the loop of `buffer_drain`: a used-up chunk that is not the last is freed,
        and the cached tail pointer never points into it afterwards. */
    method FreeFirst(c: Ptr, ghost rest: seq<Ptr>) returns (next: Ptr)
      requires Linked(mem, rest) && Live(mem, rest) && |rest| >= 2 && c == rest[0] && lastWithDatap == TailRef(rest)
      modifies this`mem, this`lastWithDatap
      ensures Linked(mem, rest[1..]) && Live(mem, rest[1..]) && mem.Keys <= old(mem).Keys
      ensures next == rest[1] && lastWithDatap == TailRef(rest[1..])
      ensures old(mem[c].Data()) + Flat(mem, rest[1..]) == old(Flat(mem, rest))
    {
      UnlinkFirst(mem, rest);
      assert LinkOk(mem, rest, |rest| - 2);
      next := mem[c].next;
      lastWithDatap := if c == Deref(lastWithDatap) then FirstField else lastWithDatap;
      lastWithDatap := if lastWithDatap == NextField(c) then FirstField else lastWithDatap;
      mem := mem - {c};
    }

    /** The state of the loop of `buffer_drain`: `rest` is what is left, `remaining` bytes of it go. */
    ghost predicate Drained(rest: seq<Ptr>, remaining: nat, flat: seq<byte>)
      reads this
    {
      && rest != [] && Last(rest) == last && lastWithDatap == TailRef(rest)
      && Linked(mem, rest) && Live(mem, rest) && remaining < |Flat(mem, rest)|
      && Flat(mem, rest)[remaining..] == flat && |Flat(mem, rest)| - remaining == |flat|
      && forall c | c in mem :: c < brk
    }

    /** The loop of `buffer_drain` frees the chunks that are used up, then the first chunk left
        is shortened. */
    method DrainPart(len: nat)
      requires Valid() && len < totalLen
      modifies this
      ensures Valid() && lastReadPos == old(lastReadPos) && Contents() == old(Contents())[len..]
    {
      ghost var flat := Flat(mem, chain)[len..];
      RestHasMore(mem, chain, len);
      var c, remaining;
      ghost var rest;
      c, remaining, rest := FreeUsed(len, flat);
      totalLen := totalLen - len;
      first, chain := c, rest;
      ShortenFirst(remaining);
    }

    /** One turn of the loop, with what is left to be dropped. */
    method FreeTurn(c: Ptr, remaining0: nat, ghost rest: seq<Ptr>, ghost flat: seq<byte>)
        returns (next: Ptr, remaining: nat)
      requires Drained(rest, remaining0, flat) && c == rest[0] && c in mem && remaining0 >= mem[c].off
      modifies this`mem, this`lastWithDatap
      ensures Drained(rest[1..], remaining, flat) && next == rest[1..][0] && next in mem
    {
      RestHasMore(mem, rest, remaining0);
      DropMore(Flat(mem, rest), mem[c].off, mem[c].Data(), remaining0);
      remaining := remaining0 - mem[c].off;
      next := FreeFirst(c, rest);
    }

    method FreeUsed(len: nat, ghost flat: seq<byte>) returns (c: Ptr, remaining: nat, ghost rest: seq<Ptr>)
      requires Drained(chain, len, flat) && first == First(chain)
      modifies this`mem, this`lastWithDatap
      ensures Drained(rest, remaining, flat) && c == rest[0] && c in mem && remaining < mem[c].off
    {
      c, remaining, rest := first, len, chain;
      while remaining >= mem[c].off
        invariant Drained(rest, remaining, flat) && c == rest[0] && c in mem
        decreases |rest|
      {
        c, remaining := FreeTurn(c, remaining, rest, flat);
        rest := rest[1..];
      }
    }

    /** `chain->misalign += remaining; chain->off -= remaining`. */
    method ShortenFirst(n: nat)
      requires Linked(mem, chain) && Live(mem, chain) && chain != [] && n < mem[chain[0]].off
      requires first == First(chain) && last == Last(chain) && lastWithDatap == TailRef(chain)
      requires totalLen == |Flat(mem, chain)| - n <= CHAIN_MAX && brk > NULL && forall c | c in mem :: c < brk
      modifies this`mem
      ensures Valid() && Contents() == old(Flat(mem, chain))[n..]
    {
      ShortenLinked(mem, chain, n);
      mem := mem[first := mem[first].Skip(n)];
    }

    /** Following `next` moves to the next stretch of the flat string. */
    lemma Advance(k: nat)
      requires Valid() && k < |chain|
      ensures chain[k] != NULL && chain[k] in mem && mem[chain[k]].Fits()
      ensures Flat(mem, chain[k..]) == mem[chain[k]].Data() + Flat(mem, chain[k + 1..])
      ensures mem[chain[k]].next == (if k + 1 < |chain| then chain[k + 1] else NULL)
      ensures Flat(mem, chain[|chain|..]) == []
    {
      assert LinkOk(mem, chain, k);
      FlatSplit(mem, chain, k);
    }

    /** `data` has been copied out, `n` bytes more are wanted, from chunk `k` on. */
    ghost predicate Copied(data: seq<byte>, n: nat, c: Ptr, k: nat)
      requires Live(mem, chain)
      reads `mem, `chain
    {
      && k <= |chain| && n <= |Flat(mem, chain[k..])| && data + Flat(mem, chain[k..]) == Contents()
      && (n != 0 ==> k < |chain| && c == chain[k] && c in mem && mem[c].Fits())
    }

    lemma CopyOne(data: seq<byte>, n: nat, c: Ptr, k: nat)
      requires Valid() && Copied(data, n, c, k) && n != 0 && n >= mem[c].off
      ensures Copied(data + mem[c].Data(), n - mem[c].off, mem[c].next, k + 1)
    {
      Advance(k);
      Assoc(data, mem[c].Data(), Flat(mem, chain[k + 1..]));
      if n > mem[c].off {
        assert k + 1 < |chain|;
        Advance(k + 1);
      }
    }

    lemma CopyLast(data: seq<byte>, n: nat, c: Ptr, k: nat)
      requires Valid() && Copied(data, n, c, k) && (n != 0 ==> n < mem[c].off)
      ensures Contents()[..|data| + n] == data + if n != 0 then mem[c].Data()[..n] else []
    {
      if n != 0 {
        Advance(k);
        FrontOf(data, mem[c].Data(), Flat(mem, chain[k + 1..]), n);
      } else {
        FrontOf(data, [], Flat(mem, chain[k..]), 0);
      }
    }

    /** `buf_copy_out`: the first `datlen` bytes, or all there are. */
    method CopyOut(datlen: nat) returns (data: seq<byte>)
      requires Valid()
      ensures |data| == (if datlen < totalLen then datlen else totalLen)
      ensures data == Contents()[..|data|]
    {
      var n: nat := if datlen > totalLen then totalLen else datlen;
      data := [];
      if n == 0 {
        return;
      }
      var c := first;
      ghost var k := 0;
      FirstNull();
      while n != 0 && n >= mem[c].off
        invariant Copied(data, n, c, k)
        invariant |data| + n == (if datlen < totalLen then datlen else totalLen)
        decreases |chain| - k
      {
        CopyOne(data, n, c, k);
        data, n, c, k := data + mem[c].Data(), n - mem[c].off, mem[c].next, k + 1;
      }
      CopyLast(data, n, c, k);
      if n != 0 {
        data := data + mem[c].Data()[..n];
      }
    }

    /** `buffer_remove`: copy out, then drain what was copied. */
    method Remove(datlen: nat) returns (data: seq<byte>)
      requires Valid()
      modifies this
      ensures Valid() && lastReadPos == old(lastReadPos)
      ensures |data| == (if datlen < old(totalLen) then datlen else old(totalLen))
      ensures data + Contents() == old(Contents())
      ensures chain == [] <==> old(chain) == [] || datlen >= old(totalLen) > 0
    {
      data := CopyOut(datlen);
      if |data| > 0 {
        var n := Drain(|data|);
      }
    }

    /** `buffer_write_atmost`: make the whole contents contiguous and point at them; null if that needs a
        chunk that is too large. Without any chunk it follows the null pointer `first`. */
    method WriteAtMost() returns (r: Reply<Ptr>)
      requires Valid()
      modifies this
      ensures Valid() && lastReadPos == old(lastReadPos) && totalLen == old(totalLen)
      ensures Contents() == old(Contents()) && (chain == [] <==> old(chain) == [])
      ensures r.NullAccess? <==> old(chain) == []
      ensures r.Returns? && r.value != NULL ==> chain == [r.value] && mem[r.value].Data() == Contents()
      ensures r == Returns(NULL) ==> mem == old(mem) && chain == old(chain)
      ensures r == Returns(NULL) <==> old(chain) != [] && totalLen > CHAIN_MAX - HEADER
    {
      FirstNull();
      if first == NULL {
        return NullAccess;
      }
      var p := PullUp();
      r := Returns(p);
      if p != NULL {
        OneChunkFits(p);
      }
    }

    lemma OneChunkFits(p: Ptr)
      requires Valid() && chain == [p] && p in mem && mem[p].Fits() && mem[p].Data() == Contents()
      ensures totalLen <= CHAIN_MAX - HEADER
    {
      assert LinkOk(mem, chain, 0);
    }

    method PullUp() returns (p: Ptr)
      requires Valid() && chain != []
      modifies this
      ensures Valid() && lastReadPos == old(lastReadPos) && totalLen == old(totalLen)
      ensures Contents() == old(Contents()) && chain != []
      ensures p != NULL ==> chain == [p] && mem[p].Data() == Contents()
      ensures p == NULL ==> mem == old(mem) && chain == old(chain) && totalLen > CHAIN_MAX - HEADER
    {
      FirstInUse(mem, chain);
      var size := totalLen;
      var c := mem[first];
      WholeInFirst();
      if c.off >= size {
        p := first;
      } else if c.bufferLen - c.misalign >= size {
        p := PullInPlace();
      } else {
        p := PullIntoNew();
      }
    }

    /** The first chunk has room for everything. */
    method PullInPlace() returns (p: Ptr)
      requires Valid() && |chain| > 1 && 0 < totalLen
      requires first in mem && mem[first].misalign + totalLen <= mem[first].bufferLen
      modifies this`mem, this`last, this`lastWithDatap, this`chain
      ensures Valid() && Contents() == old(Contents())
      ensures p != NULL && chain == [p] && mem[p].Data() == Contents()
    {
      var c := mem[first];
      FirstInUse(mem, chain);
      UnlinkFirst(mem, chain);
      TailDesignatesLast();
      assert LinkOk(mem, chain, 0);
      p := first;
      assert mem - {p} == mem[p := c.(off := totalLen)] - {p};
      mem := mem[p := c.(off := totalLen)];
      p := Gather(p, c.(off := totalLen), c.off, c.next, chain[1..]);
    }

    /** Everything moves to a new chunk. */
    method PullIntoNew() returns (p: Ptr)
      requires Valid() && |chain| > 1 && 0 < totalLen
      modifies this`mem, this`first, this`last, this`lastWithDatap, this`chain, this`brk
      ensures Valid() && Contents() == old(Contents())
      ensures p != NULL ==> chain == [p] && mem[p].Data() == Contents()
      ensures p == NULL ==> mem == old(mem) && chain == old(chain) && totalLen > CHAIN_MAX - HEADER
    {
      var ok, tmp := NewChunk(totalLen);
      if !ok {
        return NULL;
      }
      TailDesignatesLast();
      p := brk;
      var c0 := first;
      assert mem == mem[p := tmp.(off := totalLen)] - {p};
      first, mem, brk := p, mem[p := tmp.(off := totalLen)], brk + 1;
      p := Gather(p, tmp.(off := totalLen), 0, c0, chain);
    }

    lemma FirstNull()
      requires Valid()
      ensures first == NULL <==> chain == []
      ensures first == NULL ==> Contents() == []
    {
      if chain != [] {
        Advance(0);
      }
    }

    lemma WholeInFirst()
      requires Valid() && chain != []
      ensures first in mem && mem[first].Fits()
      ensures if mem[first].off >= totalLen then chain == [first] && mem[first].Data() == Contents() else |chain| > 1
    {
      Advance(0);
      assert |chain| == 1 ==> chain[1..] == [];
      if |chain| > 1 {
        SecondInUse();
      }
    }

    lemma SecondInUse()
      requires Valid() && |chain| > 1
      ensures |Flat(mem, chain[1..])| > 0
    {
      Advance(1);
      assert LinkOk(mem, chain, 1);
    }

    /** The state of the copying loop: the chunk `t` at `p` has received the bytes in front of
        position `at`; `size` bytes are still in the chunks `rest`. All together are `goal`. */
    ghost predicate Gathering(p: Ptr, t: Chunk, at: nat, size: int, rest: seq<Ptr>, goal: seq<byte>)
      reads this
    {
      && p in mem && mem[p] == t.(buffer := mem[p].buffer) && |mem[p].buffer| == t.bufferLen && p !in rest
      && Linked(mem - {p}, rest) && Live(mem - {p}, rest) && size == |Flat(mem - {p}, rest)|
      && t.misalign <= at && at + size == t.misalign + t.off <= t.bufferLen
      && mem[p].buffer[t.misalign..at] + Flat(mem - {p}, rest) == goal
      && forall q | q in mem :: q < brk
    }

    ghost predicate Copying(p: Ptr, t: Chunk, c: Ptr, at: nat, size: int, rest: seq<Ptr>, goal: seq<byte>)
      reads this
    {
      && Gathering(p, t, at, size, rest, goal) && c == First(rest)
      && (c == NULL <==> rest == []) && (c != NULL ==> c in mem)
    }

    /** The flag tells whether the last chunk was copied. */
    ghost predicate Flagged(rest: seq<Ptr>, lastWithData: Ptr, removed: bool) {
      if rest == [] then removed else Last(rest) == lastWithData
    }

    /** The cached tail link leads to the last of the chunks that are to be copied. */
    ghost predicate TailInRest(rest: seq<Ptr>)
      reads this
    {
      && rest != [] && (lastWithDatap.NextField? ==> lastWithDatap.chunk in mem)
      && Deref(lastWithDatap) == Last(rest)
    }

    /** The copying loop of `buffer_write_atmost`: the bytes of the chunks `rest0`, which start at
        `c0`, are appended to chunk `t` at address `p` behind its first `have` bytes, and the
        chunks are freed. */
    method Gather(p: Ptr, t: Chunk, have: nat, c0: Ptr, ghost rest0: seq<Ptr>) returns (r: Ptr)
      requires p != NULL && p < brk && totalLen <= CHAIN_MAX && forall q | q in mem :: q < brk
      requires p in mem && mem[p] == t && first == p && TailInRest(rest0)
      requires |t.buffer| == t.bufferLen && t.misalign + t.off <= t.bufferLen && 0 < t.bufferLen <= CHAIN_MAX - HEADER
      requires t.off == totalLen > 0 && have <= t.off
      requires Linked(mem - {p}, rest0) && Live(mem - {p}, rest0) && c0 == First(rest0) && p !in rest0
      requires |Flat(mem - {p}, rest0)| == t.off - have
      modifies this`mem, this`last, this`lastWithDatap, this`chain
      ensures Valid() && chain == [p] && r == p
      ensures Contents() == mem[p].Data() == t.buffer[t.misalign..t.misalign + have] + old(Flat(mem - {p}, rest0))
    {
      // What the cached link leads to is always among the chunks freed, so the case of the source in which
      // only the chunk that holds the link is freed does not occur.
      var lastWithData := Deref(lastWithDatap);
      var removedLastWithData := CopyChunks(p, t, have, c0, lastWithData, rest0);
      r := p;
      OnlyChunk(p);
      if removedLastWithData {
        lastWithDatap := FirstField;
      } else {
        assert false;
      }
    }

    /** The loop itself; it frees the chunk `lastWithData`, the last one, and says so. */
    method CopyChunks(p: Ptr, t: Chunk, have: nat, c0: Ptr, lastWithData: Ptr, ghost rest0: seq<Ptr>)
        returns (removedLastWithData: bool)
      requires p in mem && mem[p] == t && forall q | q in mem :: q < brk
      requires |t.buffer| == t.bufferLen && t.misalign + t.off <= t.bufferLen && have <= t.off
      requires Linked(mem - {p}, rest0) && Live(mem - {p}, rest0) && c0 == First(rest0) && p !in rest0
      requires |Flat(mem - {p}, rest0)| == t.off - have
      requires rest0 != [] && lastWithData == Last(rest0)
      modifies this`mem
      ensures removedLastWithData && mem.Keys == {p}
      ensures mem[p] == t.(buffer := mem[p].buffer) && |mem[p].buffer| == t.bufferLen
      ensures mem[p].Data() == t.buffer[t.misalign..t.misalign + have] + old(Flat(mem - {p}, rest0))
    {
      ghost var goal := t.buffer[t.misalign..t.misalign + have] + Flat(mem - {p}, rest0);
      var c, size := c0, t.off - have;
      var at: nat := t.misalign + have;
      removedLastWithData := false;
      ghost var rest := rest0;
      GatherFirst(p, t, at, size, rest, goal);
      while c != NULL && size >= mem[c].off
        invariant Copying(p, t, c, at, size, rest, goal) && Flagged(rest, lastWithData, removedLastWithData)
        decreases |rest|
      {
        LastOfRest(rest);
        removedLastWithData := removedLastWithData || c == lastWithData;
        c, at, size := GatherOne(p, t, c, at, size, rest, goal);
        rest := rest[1..];
        GatherFirst(p, t, at, size, rest, goal);
      }
      GatherDone(p, t, at, size, rest, goal, c);
    }

    lemma GatherDone(p: Ptr, t: Chunk, at: nat, size: int, rest: seq<Ptr>, goal: seq<byte>, c: Ptr)
      requires Gathering(p, t, at, size, rest, goal) && c == First(rest)
      requires c == NULL || (c in mem && size < mem[c].off)
      ensures rest == [] && mem.Keys == {p} && mem[p] == t.(buffer := mem[p].buffer)
      ensures |mem[p].buffer| == t.bufferLen && mem[p].Data() == goal
    {
      AllGathered(mem - {p}, rest, c, size);
      OnlyKey(mem, p);
      assert mem[p].buffer[t.misalign..at] + [] == mem[p].buffer[t.misalign..at];
    }

    lemma GatherFirst(p: Ptr, t: Chunk, at: nat, size: int, rest: seq<Ptr>, goal: seq<byte>)
      requires Gathering(p, t, at, size, rest, goal)
      ensures First(rest) == NULL <==> rest == []
      ensures rest != [] ==> First(rest) in mem
    {
      if rest != [] {
        assert LinkOk(mem - {p}, rest, 0);
      }
    }

    /** One turn of that loop: copy one chunk behind the bytes gathered so far, and free it. */
    method GatherOne(p: Ptr, t: Chunk, c: Ptr, at: nat, size: int, ghost rest: seq<Ptr>, ghost goal: seq<byte>)
        returns (next: Ptr, at': nat, size': int)
      requires Gathering(p, t, at, size, rest, goal) && rest != [] && c == rest[0]
      modifies this`mem
      ensures Gathering(p, t, at', size', rest[1..], goal) && next == First(rest[1..])
    {
      UnlinkFirst(mem - {p}, rest);
      var d := mem[c].Data();
      OverwriteMore(mem[p].buffer, t.misalign, at, d);
      var b := mem[p].(buffer := Overwrite(mem[p].buffer, at, d));
      next, at', size' := mem[c].next, at + |d|, size - |d|;
      assert mem - {p} - {c} == mem[p := b] - {c} - {p};
      mem := mem[p := b] - {c};
    }

    /** The chunk at `p` is all that is left; the cached tail link is to be the field `first`. */
    method OnlyChunk(p: Ptr)
      requires mem.Keys == {p} && p != NULL && mem[p].Valid(true) && mem[p].off == totalLen <= CHAIN_MAX && p < brk
      requires first == p
      modifies this`mem, this`last, this`chain
      ensures chain == [p] && Linked(mem, chain) && Live(mem, chain) && last == Last(chain) && first == First(chain)
      ensures mem.Keys == {p} && Contents() == mem[p].Data() == old(mem[p].Data())
    {
      last := p;
      mem := mem[p := mem[p].(next := NULL)];
      chain := [p];
      assert LinkOk(mem, chain, 0);
      assert chain[1..] == [] && Flat(mem, chain) == mem[p].Data() + Flat(mem, []);
      assert mem[p].Data() + [] == mem[p].Data();
    }

    /** What comparing `sep` from byte `from` of chunk `k` on comes to. */
    ghost function ComparedAt(k: nat, from: nat, sep: seq<byte>): Reply<bool>
      requires Live(mem, chain) && k <= |chain|
      reads `mem, `chain
    {
      Compared(Flat(mem, chain[k..]), from, sep)
    }

    /** The comparison stands at byte `from` of chunk `k`. */
    ghost predicate Comparing(c: Ptr, from: nat, k: nat)
      requires Live(mem, chain)
      reads `mem, `chain
    {
      k < |chain| && c == chain[k] && c in mem && mem[c].Fits() && from <= mem[c].off
    }

    lemma ComparedHere(c: Ptr, from: nat, k: nat, sep: seq<byte>)
      requires Valid() && Comparing(c, from, k) && from + |sep| <= mem[c].off
      ensures ComparedAt(k, from, sep) == Returns(mem[c].Data()[from..from + |sep|] == sep)
    {
      Advance(k);
    }

    lemma ComparedAcross(c: Ptr, from: nat, k: nat, sep: seq<byte>)
      requires Valid() && Comparing(c, from, k) && mem[c].off < from + |sep|
      ensures var sz, next := mem[c].off - from, mem[c].next;
        if mem[c].Data()[from..] != sep[..sz] then ComparedAt(k, from, sep) == Returns(false)
        else if next == NULL then ComparedAt(k, from, sep) == NullAccess
        else Comparing(next, 0, k + 1) && ComparedAt(k, from, sep) == ComparedAt(k + 1, 0, sep[sz..])
    {
      var sz := mem[c].off - from;
      Advance(k);
      ComparedSplit(mem[c].Data(), Flat(mem, chain[k + 1..]), from, sep);
      if k + 1 < |chain| {
        assert LinkOk(mem, chain, k + 1);
      } else {
        ComparedNothing(sep[sz..]);
      }
    }

    /** `check_sep`: does `sep` start at byte `from` of chunk `c`? It may run over many chunks, and it runs off
        the last one if and only if the bytes do not tell. */
    method CheckSep(c0: Ptr, from0: nat, sep0: seq<byte>, ghost k0: nat) returns (r: Reply<bool>)
      requires Valid() && Comparing(c0, from0, k0)
      ensures r == ComparedAt(k0, from0, sep0)
    {
      var c, sep := c0, sep0;
      var from: nat := from0;
      ghost var k := k0;
      while true
        invariant Comparing(c, from, k)
        invariant ComparedAt(k0, from0, sep0) == ComparedAt(k, from, sep)
        decreases |chain| - k
      {
        var sz := mem[c].off - from;
        if sz >= |sep| {
          ComparedHere(c, from, k, sep);
          return Returns(mem[c].Data()[from..from + |sep|] == sep);
        }
        ComparedAcross(c, from, k, sep);
        if sz > 0 && mem[c].Data()[from..] != sep[..sz] {
          return Returns(false);
        }
        if mem[c].next == NULL {
          return NullAccess;
        }
        c, sep, from, k := mem[c].next, sep[sz..], 0, k + 1;
      }
    }

    /** Chunk `k` is at address `c`; its byte `from` is byte `i` of the contents. */
    ghost predicate Cursor(c: Ptr, from: nat, k: nat, i: nat)
      requires Live(mem, chain)
      reads `mem, `chain
    {
      && k < |chain| && c == chain[k] && c in mem && from < mem[c].off && i <= |Contents()|
      && Live(mem, chain[k..]) && Flat(mem, chain[k..])[from..] == Contents()[i..]
    }

    /** Chunk `k` is at address `c` and ends at byte `bytes` of the contents. */
    ghost predicate AtChunk(c: Ptr, k: nat, bytes: nat)
      requires Live(mem, chain)
      reads `mem, `chain
    {
      && k < |chain| && c == chain[k] && c in mem && mem[c].Fits() && mem[c].off <= bytes <= |Contents()|
      && Flat(mem, chain[k..]) == Contents()[bytes - mem[c].off..]
    }

    lemma SkipChunk(c: Ptr, k: nat, bytes: nat)
      requires Valid() && AtChunk(c, k, bytes)
      ensures if mem[c].next == NULL then bytes == |Contents()|
        else mem[c].next in mem && AtChunk(mem[c].next, k + 1, bytes + mem[mem[c].next].off)
    {
      Advance(k);
      DropTwice(Contents(), bytes - mem[c].off, mem[c].off);
      assert Flat(mem, chain[k + 1..]) == Contents()[bytes..];
      if k + 1 < |chain| {
        Advance(k + 1);
      }
    }

    /** The byte at position `i`, in the chunk that ends at byte `bytes`. */
    lemma AtCursor(c: Ptr, k: nat, bytes: nat, i: nat)
      requires Valid() && AtChunk(c, k, bytes) && bytes - mem[c].off <= i < bytes
      ensures Cursor(c, i + mem[c].off - bytes, k, i)
    {
      DropTwice(Contents(), bytes - mem[c].off, i + mem[c].off - bytes);
    }

    /** The first loop of `buffer_search`: find the byte at the remembered position. */
    method Seek() returns (c: Ptr, from: nat, ghost k: nat)
      requires Valid()
      ensures c == NULL <==> totalLen <= lastReadPos
      ensures c != NULL ==> Cursor(c, from, k, lastReadPos)
    {
      c, from, k := first, 0, 0;
      if c == NULL {
        FirstNull();
        return;
      }
      FirstAtChunk();
      var bytes;
      c, bytes, k := Walk();
      if c != NULL {
        AtCursor(c, k, bytes, lastReadPos);
        from := mem[c].off - (bytes - lastReadPos);
      }
    }

    lemma FirstAtChunk()
      requires Valid() && first != NULL
      ensures first in mem && AtChunk(first, 0, mem[first].off)
    {
      FirstNull();
      Advance(0);
    }

    /** Along the chunks, to the one that holds the remembered position. */
    method Walk() returns (c: Ptr, bytes: nat, ghost k: nat)
      requires Valid() && first in mem && AtChunk(first, 0, mem[first].off)
      ensures if c == NULL then |Contents()| <= lastReadPos
              else AtChunk(c, k, bytes) && bytes - mem[c].off <= lastReadPos < bytes && lastReadPos < |Contents()|
    {
      c, bytes, k := first, mem[first].off, 0;
      while bytes <= lastReadPos
        invariant AtChunk(c, k, bytes) && bytes - mem[c].off <= lastReadPos
        decreases |chain| - k
      {
        SkipChunk(c, k, bytes);
        c := mem[c].next;
        if c == NULL {
          return;
        }
        bytes, k := bytes + mem[c].off, k + 1;
      }
      AtNotNull(c, k, bytes);
    }

    lemma AtNotNull(c: Ptr, k: nat, bytes: nat)
      requires Valid() && AtChunk(c, k, bytes)
      ensures c != NULL
    {
      assert LinkOk(mem, chain, k);
    }

    /** `++from; --bytes;` and on to the next chunk when this one is used up. */
    method Step(c0: Ptr, from0: nat, ghost k0: nat, ghost i: nat) returns (c: Ptr, from: nat, ghost k: nat)
      requires Valid() && Cursor(c0, from0, k0, i)
      ensures c == NULL <==> i + 1 == |Contents()|
      ensures c != NULL ==> Cursor(c, from, k, i + 1)
    {
      Advance(k0);
      assert Contents()[i..][1..] == Contents()[i + 1..];
      assert |Contents()| - i == |Flat(mem, chain[k0..])| - from0;
      c, from, k := c0, from0 + 1, k0;
      if from == mem[c].off {
        c, from, k := mem[c].next, 0, k + 1;
        if k < |chain| {
          Advance(k);
          SecondInUseAt(k);
        }
      }
    }

    lemma SecondInUseAt(k: nat)
      requires Valid() && 0 < k < |chain|
      ensures chain[k] in mem && mem[chain[k]].off > 0 && chain[k] != NULL
    {
      assert LinkOk(mem, chain, k);
    }

    lemma CursorInside(c: Ptr, from: nat, k: nat, i: nat)
      requires Valid() && Cursor(c, from, k, i)
      ensures i < totalLen
    {
      Advance(k);
      assert |Flat(mem, chain[k..])[from..]| > 0;
    }

    lemma CursorCompared(c: Ptr, from: nat, k: nat, i: nat, sep: seq<byte>)
      requires Valid() && Cursor(c, from, k, i)
      ensures Comparing(c, from, k) && ComparedAt(k, from, sep) == Compared(Contents(), i, sep)
    {
      Advance(k);
      SameRest(Flat(mem, chain[k..]), from, Contents(), i, sep);
    }

    /** `i <= total_len - seplen` of the search loop, which wraps around for a longer separator. */
    predicate More(i: nat, sep: seq<byte>)
      reads `totalLen
    {
      |sep| > totalLen || i <= totalLen - |sep|
    }

    /** The state of that loop: nothing found from `start` up to `i`, and all of it was decided. */
    ghost predicate Scanning(sep: seq<byte>, start: nat, i: nat)
      requires Live(mem, chain)
      reads `mem, `chain, `totalLen
    {
      && start <= i < totalLen && NoneIn(Contents(), sep, start, i) && (i > start ==> More(i - 1, sep))
      && (sep == [] ==> i == start) && DecidedIn(Contents(), sep, start, i)
    }

    lemma OffAt(sep: seq<byte>, start: nat, i: nat)
      requires Valid() && Scanning(sep, start, i) && More(i, sep) && !Decided(Contents(), i, sep)
      ensures !Safe(Contents(), sep, start)
    {
    }

    lemma HitAt(sep: seq<byte>, start: nat, i: nat)
      requires Valid() && Scanning(sep, start, i) && MatchAt(Contents(), i, sep)
      ensures Safe(Contents(), sep, start)
    {
    }

    lemma PassedAt(sep: seq<byte>, start: nat, i: nat)
      requires Valid() && Scanning(sep, start, i) && More(i, sep)
      requires Decided(Contents(), i, sep) && !MatchAt(Contents(), i, sep)
      ensures if i + 1 < totalLen then Scanning(sep, start, i + 1) else Missed(sep, start, i)
    {
      NoneInNext(Contents(), sep, start, i);
      if i + 1 == totalLen {
        NoneLeft(Contents(), sep, start, i + 1);
        AllDecided(Contents(), sep, start);
      }
    }

    /** The search has found nothing and stops at `i`. */
    ghost predicate Missed(sep: seq<byte>, start: nat, i: nat)
      requires Live(mem, chain)
      reads `mem, `chain, `totalLen
    {
      NoneFrom(Contents(), sep, start) && i == ScanEnd(totalLen, |sep|, start) && Safe(Contents(), sep, start)
    }

    lemma NoMore(sep: seq<byte>, start: nat, i: nat)
      requires Valid() && Scanning(sep, start, i) && !More(i, sep)
      ensures Missed(sep, start, i)
    {
      NoneLeft(Contents(), sep, start, i);
    }

    /** What the loop has come to at byte `i`. */
    ghost predicate Scanned(sep: seq<byte>, start: nat, i: nat, hit: Reply<bool>)
      requires Live(mem, chain)
      reads `mem, `chain, `totalLen
    {
      match hit
      case NullAccess => !Safe(Contents(), sep, start)
      case Returns(true) =>
        && start <= i && MatchAt(Contents(), i, sep) && NoneIn(Contents(), sep, start, i)
        && Safe(Contents(), sep, start)
      case Returns(false) => Missed(sep, start, i)
    }

    /** One turn of the loop: the comparison, and the step to the next byte if it is not there. */
    method ScanTurn(c0: Ptr, from0: nat, ghost k0: nat, ghost start: nat, i: nat, sep: seq<byte>)
        returns (hit: Reply<bool>, c: Ptr, from: nat, ghost k: nat)
      requires Valid() && Scanning(sep, start, i) && Cursor(c0, from0, k0, i) && More(i, sep)
      ensures hit != Returns(false) ==> Scanned(sep, start, i, hit)
      ensures hit == Returns(false) && c == NULL ==> Missed(sep, start, i)
      ensures hit == Returns(false) && c != NULL ==> Scanning(sep, start, i + 1) && Cursor(c, from, k, i + 1)
    {
      c, from, k := c0, from0, k0;
      CursorCompared(c, from, k, i, sep);
      hit := CheckSep(c, from, sep, k);
      if hit.NullAccess? {
        OffAt(sep, start, i);
      } else if hit.value {
        HitAt(sep, start, i);
      } else {
        PassedAt(sep, start, i);
        c, from, k := Step(c, from, k, i);
      }
    }

    /** The loop of `buffer_search`, from a cursor at byte `start`: the first occurrence and, if there is
        none, the position the next search can resume from. */
    method Scan(c0: Ptr, from0: nat, ghost k0: nat, start: nat, sep: seq<byte>) returns (hit: Reply<bool>, i: nat)
      requires Valid() && Cursor(c0, from0, k0, start)
      ensures Scanned(sep, start, i, hit)
    {
      var c, from;
      ghost var k;
      c, from, k, i := c0, from0, k0, start;
      CursorInside(c, from, k, i);
      while More(i, sep)
        invariant Scanning(sep, start, i) && Cursor(c, from, k, i)
        decreases totalLen - i
      {
        hit, c, from, k := ScanTurn(c, from, k, start, i, sep);
        if hit != Returns(false) || c == NULL {
          return;
        }
        i := i + 1;
      }
      NoMore(sep, start, i);
      return Returns(false), i;
    }

    /** `buffer_search`: the end of the first occurrence of `sep` at or behind the remembered position,
        or 0; it runs off the chain if and only if it is not `Safe`. Resuming is right if and only if no
        occurrence starts before that position. */
    method Search(sep: seq<byte>) returns (r: Reply<nat>)
      requires Valid()
      modifies this`lastReadPos
      ensures Valid() && Contents() == old(Contents()) && Outcome(Contents(), sep, old(lastReadPos), r)
      ensures r.Returns? ==>
        lastReadPos == if r.value > 0 then 0 else ScanEnd(totalLen, |sep|, old(lastReadPos))
      ensures r.NullAccess? ==> lastReadPos == old(lastReadPos)
      ensures r.Returns? && sep != [] ==>
        (Finds(Contents(), sep, 0, r.value) <==> NoneBefore(Contents(), sep, old(lastReadPos)))
    {
      var c, from;
      ghost var k;
      c, from, k := Seek();
      if c == NULL {
        if sep != [] {
          NoneLeft(Contents(), sep, lastReadPos, lastReadPos);
          FreshIff(Contents(), sep, lastReadPos, 0);
        }
        return Returns(0);
      }
      var hit, i := Scan(c, from, k, lastReadPos, sep);
      if hit.NullAccess? {
        return NullAccess;
      }
      Answered(lastReadPos, sep, hit.value, i);
      r := Returns(if hit.value then i + |sep| else 0);
      lastReadPos := if hit.value then 0 else i;
    }

    lemma Answered(pos: nat, sep: seq<byte>, hit: bool, i: nat)
      requires Valid() && pos < totalLen && Scanned(sep, pos, i, Returns(hit))
      ensures var r := if hit then i + |sep| else 0;
        && Answers(Contents(), sep, pos, r)
        && (sep != [] ==> (Finds(Contents(), sep, 0, r) <==> NoneBefore(Contents(), sep, pos)))
        && (sep == [] ==> hit)
    {
      var r := if hit then i + |sep| else 0;
      if sep == [] {
        assert MatchAt(Contents(), pos, []);
      } else {
        FreshIff(Contents(), sep, pos, r);
      }
    }
  }

  // ----- whole runs

  /** The bytes, the position that searches remember, and whether there is no chunk at all. */
  datatype Text = Text(s: seq<byte>, pos: nat, bare: bool)

  datatype Op = Add(bytes: seq<byte>) | Remove(n: nat) | Drain(n: nat) | WriteAtMost | Search(sep: seq<byte>)

  datatype Out = Code(code: int) | Count(n: nat) | Bytes(bytes: seq<byte>) | Nothing | Fault

  function Min(a: nat, b: nat): nat {
    if a < b then a else b
  }

  /** The first bytes go, and the last chunk with the last byte. */
  ghost predicate Dropped(f: Text, n: nat, f': Text) {
    f' == Text(f.s[Min(n, |f.s|)..], f.pos, f.bare || n >= |f.s| > 0)
  }

  /** What `op` may do to one flat byte string: the new string and the answer. `Fault` is a null pointer
      followed: by a search that is not `Safe`, and by making a buffer without chunks contiguous. */
  ghost predicate FlatStep(f: Text, op: Op, f': Text, out: Out) {
    match op
    case Add(bytes) =>
      if |bytes| <= 0x100_0000 - |f.s| && |bytes| <= 0x100_0000 - 32
      then f' == Text(f.s + bytes, f.pos, false) && out == Code(0)
      else f' == f && out == Code(-1)
    case Remove(n) => Dropped(f, n, f') && out == Bytes(f.s[..Min(n, |f.s|)])
    case Drain(n) => Dropped(f, n, f') && out == Count(Min(n, |f.s|))
    case WriteAtMost =>
      f' == f &&
      out == if f.bare then Fault else if |f.s| > 0x100_0000 - 32 then Nothing else Bytes(f.s)
    case Search(sep) =>
      if !Safe(f.s, sep, f.pos) then f' == f && out == Fault
      else
        && out.Count? && Answers(f.s, sep, f.pos, out.n)
        && f' == f.(pos := if out.n > 0 then 0 else ScanEnd(|f.s|, |sep|, f.pos))
  }

  /** A run over one flat byte string: `texts` are its values before and after each step. */
  ghost predicate FlatRun(texts: seq<Text>, ops: seq<Op>, outs: seq<Out>) {
    && |texts| == |ops| + 1 && |outs| == |ops|
    && forall i | 0 <= i < |ops| :: FlatStep(texts[i], ops[i], texts[i + 1], outs[i])
  }

  ghost function TextOf(b: ChainBuffer): Text
    requires b.Valid()
    reads b
  {
    Text(b.Contents(), b.lastReadPos, b.chain == [])
  }

  method Do(b: ChainBuffer, op: Op) returns (out: Out)
    requires b.Valid()
    modifies b
    ensures b.Valid() && FlatStep(old(TextOf(b)), op, TextOf(b), out)
  {
    match op
    case Add(bytes) =>
      var r := b.Add(bytes);
      out := Code(r);
    case Remove(n) =>
      var d := b.Remove(n);
      DroppedBy(old(b.Contents()), d, b.Contents(), n);
      out := Bytes(d);
    case Drain(n) =>
      var k := b.Drain(n);
      out := Count(k);
    case WriteAtMost =>
      var p := b.WriteAtMost();
      out := match p
        case NullAccess => Fault
        case Returns(q) => if q == NULL then Nothing else Bytes(b.mem[q].Data());
    case Search(sep) =>
      var r := b.Search(sep);
      out := match r case NullAccess => Fault case Returns(n) => Count(n);
  }

  lemma DroppedBy(s: seq<byte>, d: seq<byte>, rest: seq<byte>, n: nat)
    requires d + rest == s && |d| == Min(n, |s|)
    ensures d == s[..|d|] && rest == s[|d|..]
  {
  }

  /** Every sequence of operations behaves as on one flat byte string. */
  method Replay(b: ChainBuffer, ops: seq<Op>) returns (outs: seq<Out>, ghost texts: seq<Text>)
    requires b.Valid()
    modifies b
    ensures b.Valid() && FlatRun(texts, ops, outs)
    ensures texts[0] == old(TextOf(b)) && texts[|ops|] == TextOf(b)
  {
    outs, texts := [], [TextOf(b)];
    for i := 0 to |ops|
      invariant b.Valid() && FlatRun(texts, ops[..i], outs)
      invariant texts[0] == old(TextOf(b)) && texts[i] == TextOf(b)
    {
      var out := Do(b, ops[i]);
      outs, texts := outs + [out], texts + [TextOf(b)];
    }
    assert ops[..|ops|] == ops;
  }

  /** One byte in the buffer, and a search for it with another one behind it: the comparison runs off the
      only chunk. */
  method RunsOff() returns (r: Reply<nat>)
    ensures r == NullAccess
  {
    var b := new ChainBuffer();
    var added := b.Add([1]);
    assert b.Contents() == [1];
    assert [1][0..] == [1] <= [1, 2];
    assert !Safe([1], [1, 2], 0);
    r := b.Search([1, 2]);
  }

  // ----- searching while bytes arrive

  /** As far as the bytes tell, `sep` may start at `i`, once more bytes have come. */
  ghost predicate MayStart(s: seq<byte>, i: nat, sep: seq<byte>) {
    if i + |sep| <= |s| then MatchAt(s, i, sep) else i >= |s| || s[i..] <= sep
  }

  /** No occurrence can start before the remembered position, whatever bytes come later. */
  ghost predicate Ready(f: Text, sep: seq<byte>) {
    forall i: nat | i < f.pos :: !MayStart(f.s, i, sep)
  }

  lemma MayStartBefore(s: seq<byte>, t: seq<byte>, i: nat, sep: seq<byte>)
    requires MayStart(s + t, i, sep)
    ensures MayStart(s, i, sep)
  {
    if i + |sep| <= |s| {
      assert (s + t)[i..i + |sep|] == s[i..i + |sep|];
    } else if i < |s| {
      assert (s + t)[i..] == s[i..] + t;
      if i + |sep| <= |s + t| {
        assert (s + t)[i..i + |sep|] == s[i..] + t[..i + |sep| - |s|];
      }
    }
  }

  /** The operation searches for nothing else, and it removes bytes only when no position is remembered, as
      after a hit. */
  predicate Keeps(f: Text, op: Op, sep: seq<byte>) {
    match op
    case Search(other) => other == sep
    case Remove(_) => f.pos == 0
    case Drain(_) => f.pos == 0
    case _ => true
  }

  lemma ReadyStep(f: Text, op: Op, f': Text, out: Out, sep: seq<byte>)
    requires Ready(f, sep) && Keeps(f, op, sep) && FlatStep(f, op, f', out)
    ensures Ready(f', sep)
  {
    forall i: nat | i < f'.pos
      ensures !MayStart(f'.s, i, sep)
    {
      assert i < f.pos ==> !MayStart(f.s, i, sep);
      match op
      case Add(bytes) =>
        if MayStart(f.s + bytes, i, sep) {
          MayStartBefore(f.s, bytes, i, sep);
        }
      case Search(_) =>
        assert i >= f.pos && out.Count? ==> !MatchAt(f.s, i, sep);
      case _ =>
    }
  }

  lemma {:induction false} ReadyRun(texts: seq<Text>, ops: seq<Op>, outs: seq<Out>, sep: seq<byte>, i: nat)
    requires FlatRun(texts, ops, outs) && i <= |ops| && texts[0].pos == 0
    requires forall j | 0 <= j < |ops| :: Keeps(texts[j], ops[j], sep)
    ensures Ready(texts[i], sep)
  {
    if i > 0 {
      ReadyRun(texts, ops, outs, sep, i - 1);
      ReadyStep(texts[i - 1], ops[i - 1], texts[i], outs[i - 1], sep);
    }
  }

  /** A search that resumes comes to what a search from the start would come to. */
  lemma ReadyFresh(f: Text, sep: seq<byte>, r: Reply<nat>)
    requires Ready(f, sep) && Outcome(f.s, sep, f.pos, r)
    ensures Outcome(f.s, sep, 0, r)
  {
    if sep == [] {
      ReadyForNothing(f);
    } else {
      forall j: nat | j < f.pos
        ensures !MatchAt(f.s, j, sep) && (j < |f.s| && |sep| > |f.s| ==> !(f.s[j..] <= sep))
      {
        assert !MayStart(f.s, j, sep);
      }
      if r.Returns? {
        FreshIff(f.s, sep, f.pos, r.value);
      }
    }
  }

  lemma ReadyForNothing(f: Text)
    requires Ready(f, [])
    ensures f.pos == 0
  {
    assert MayStart(f.s, 0, []);
  }

  ghost function Reached(out: Out): Reply<nat> {
    if out.Count? then Returns(out.n) else NullAccess
  }

  /** In every run of additions, pull-ups, searches for one separator, and removals after a hit, each search
      comes to what a search from the start would, though it resumes where the last one gave up. */
  lemma SearchesFresh(texts: seq<Text>, ops: seq<Op>, outs: seq<Out>, sep: seq<byte>, i: nat)
    requires FlatRun(texts, ops, outs) && i < |ops| && texts[0].pos == 0
    requires forall j | 0 <= j < |ops| :: Keeps(texts[j], ops[j], sep)
    requires ops[i] == Search(sep)
    ensures Outcome(texts[i].s, sep, 0, Reached(outs[i]))
  {
    ReadyRun(texts, ops, outs, sep, i);
    assert FlatStep(texts[i], ops[i], texts[i + 1], outs[i]);
    ReadyFresh(texts[i], sep, Reached(outs[i]));
  }
}
