# Proofs about the onbnet server

A Dafny model of the algorithms inside the onbnet actor server, with proofs of what they are for.

- **Timing wheel** (`WheelSlots`, `WheelSpec`, `WheelRun`, `WheelTurns`, `WheelOrder`, `TimingWheel`,
  `WheelUpdate`): slot arithmetic on a wrapping 32-bit clock, the slots as a filing of a plain list, the timer
  thread as a state machine over all runs, the order of equal expiries, the linked lists, and the update loop on
  them, which follows those runs.
- **Chained byte buffer** (`ChainBuffer`): a linked chain of chunks that refines one flat byte string, with
  the resumable separator search.
- **Serializer** (`SerialCodec`, `SerialFormat`, `SerialBlocks`, `Serializer`): the tagged encoding as functions, its
  format byte by byte, the 128-byte block stream as a flat byte string, and the recursive printer and parser over it.
- **Timer stores** (`RbShape`, `RbTree`, `SkipList`, `MinHeap`): red-black insertion, skip list, indexed heap.
- **Crypto and codecs** (`DiffieHellman`, `Des`, `Sha1`, `Sha1Block`, `Base64`).
- **Protocols** (`ActorRun`, `SessionRun`): the run token of services among senders and workers, and the
  sessions of coroutines, as steps with an invariant over all runs.

`Seqs`, `Bytes` and `Pointers` hold what several modules share.

Linked structures live in a field `mem`, a map from addresses to records. Following a link needs the address in
the map, and freeing takes it out, so a proof that goes through shows that no freed or foreign memory is touched.
Where the source can follow a null pointer or leave a buffer, that is an outcome of the method, and its contract
says exactly when it comes to that.
A locked region is one step. What the source leaves to the environment (the clock, random levels, tables of the
block ciphers, thread interleavings) is a parameter or an arbitrary sequence of steps.

What the proofs found out about the code:

- A timer is fired at its expiry if and only if `OnTime` holds: the delay stays within 63 top-level slots of the
  clock, or no digit between the slot's ring and ring 2 is zero. All delays up to 2^32 - 2^26 qualify; longer
  ones can be early or never fire (`LongDelayMisses`, `ExpiryMissed`).
- Timers with one expiry are handed over in the order they were added, except that a timer with a longer delay
  can be overtaken while it sits in a slot that its expiry no longer leads to (`InOrderIff`, `OrderLost`).
- A message can be left in the queue of a service that nobody runs until another one is pushed, because emptiness
  is tested before the flag is lowered, or because a weak compare-exchange fails spuriously. Nothing else leaves
  one behind (`LeftBehindIff`, `MessageLeftBehind`, `SpuriouslyLeftBehind`).
- `suspend_sleep` hands the session over before it checks the token, so every `sleep` on a taken token lets a later
  timer reply resume a coroutine that waits for something else, and nothing else does (`ClashMisleads`,
  `RunOrderlyIff`). The session of a `wait` is not answered by anybody (core/src/service/lua_onbnet.cc:140-149 only
  counts), so a `wait` on a taken token just leaves an entry in the table for good (`WaitClash`, `OrphansIff`).
- A wakeup by a coroutine that then fails stays undelivered until some coroutine yields or finishes
  (`QueuesDrained`, `UndeliveredUntilYield`, `WakeupPending`).
- `buffer_search` compares with `total_len - seplen` in unsigned arithmetic, so a separator longer than the buffer
  is compared, too, and the comparison follows the null pointer behind the last chunk if and only if a rest of the
  bytes is the beginning of that separator (`Safe`, `Search`, `RunsOff`). `buffer_write_atmost` follows the null
  first pointer of a buffer without chunks.
- `padding_remove_pkcs7` compares backwards past the first byte if and only if all bytes equal the last one, which
  is greater than their number (`RemovePkcs7`, `DecodeOutside`).
- `powmodp` returns the modulus, not 0, for the modulus to the power 1.
- The bit count of SHA-1 gets a carry too much for updates of 2^29 bytes and more (`CountRightIff`,
  `PaddedRightIff`).
- The base64 decoder refuses bytes outside the alphabet behind a complete last group (`TrailingIff`).
- The skip list's deletion by node removes the first node of the same score (`DeletesGivenIff`, `DeletesOther`).
- The skip list draws a level for the tower of a node and another one for its links, which leave the tower if and
  only if the second is higher (`Insert`).
- The comment at core/include/timer/rbtree.h:8 has the colours reversed; 1 is red in the code.

## Model

| member | source | states |
|---|---|---|
| `WheelRun.ExactFiring` | core/src/timer/timer.cc:220-250 | In every interleaving of additions with the timer thread, a timer of any 32-bit delay is handed to a callback exactly once, with the clock showing its expiry, and before the update that let the clock show it is over, if and only if `OnTime` held when it was added; the others are never handed over at their expiry |
| `WheelRun.ReleasedFired` | core/src/timer/timer.cc:244-250 | When a run comes from the second drain to the release of the lock, every timer that is met on time and due by then has been handed over, whenever it was added |
| `WheelRun.ReachBound` | core/src/timer/timewheel.cc:60-79 | Every delay up to 2^32 - 2^26 satisfies `OnTime`, at every clock, also across the wrap |
| `WheelRun.LongDelayMisses` | core/src/timer/timewheel.cc:60-79 | A concrete longer delay that does not |
| `WheelRun.SameExpiryInOrder` | core/src/timer/timewheel.cc:53-109 | In every run, timers in reach with one expiry are handed over in the order they were added, whatever slots they passed through; once the clock is past the expiry, all of them have been |
| `WheelRun.SlotsFilePending` | core/src/timer/timewheel.cc:60-131 | In every reachable state the timers in reach (added at most 63 top-level slots before their expiry) that a slot holds are exactly the pending ones that `add_node` would file there now, in insertion order; none of them is in slot 0 of the finer rings; all slots together hold each pending timer, in reach or not, once |
| `WheelOrder.InOrderIff` | core/src/timer/timewheel.cc:53-131 | In every run and for every two timers that are met on time, in reach or not: when one is added while an earlier one with the same expiry is pending, the earlier one is handed over first if and only if it is in the slot that the later one is filed in |
| `WheelOrder.OrderLost` | core/src/timer/timewheel.cc:60-109 | A run in which a timer is handed over after one that was added later for the same expiry, both on time |
| `WheelOrder.Stale` | core/src/timer/timewheel.cc:101-131 | While a timer sits in a slot that `add_node` would no longer choose, the slot it would choose stays the same and is not visited |
| `WheelTurns.ClockReaches` | core/src/timer/timer.cc:220-250 | From every reachable state between two updates the timer thread can go on to every later time |
| `WheelTurns.ExpiryMissed` | core/src/timer/timewheel.cc:60-79 | A run in which such a timer is not handed over at its expiry, which the clock has passed |
| `WheelRun.RunInv` | core/src/timer/timer.cc:220-250 | All of this is kept by every step of add, lock, take, call, relock, shift and unlock |
| `WheelSpec.ShiftFiles` | core/src/timer/timewheel.cc:101-131 | For the timers in reach a shift does not touch the plain list of pending ones: it re-files it for the next time |
| `WheelSpec.AddFiles` | core/src/timer/timewheel.cc:94-99 | For the timers in reach an addition appends to the plain list |
| `WheelSpec.TakeDue` | core/src/timer/timer.cc:221-242 | The timers in reach that a drain takes out are the pending ones of them that are due now, in order |
| `WheelSpec.ShiftHolds` | core/src/timer/timewheel.cc:111-131 | A shift neither loses nor doubles a timer |
| `WheelSlots.AddedEitherWay` | core/src/timer/timewheel.cc:60-79 | A timer just filed will be met on time, or certainly missed, according to `OnTime` |
| `WheelSlots.FateMoves` | core/src/timer/timewheel.cc:101-131 | Cascading a timer keeps its fate |
| `WheelSlots.FateStays` | core/src/timer/timewheel.cc:111-131 | A tick that does not visit the slot keeps the fate of what is in it |
| `WheelSlots.FateDecided` | core/src/timer/timer.cc:221-242 | A timer in the drained slot is due now if and only if its fate was to be met |
| `WheelSlots.NotInSlotZero` | core/src/timer/timewheel.cc:60-79 | No timer in reach is filed in slot 0 of rings 0 to 2 |
| `WheelSlots.OrMaskQuotient` | core/src/timer/timewheel.cc:70-75 | The comparison after setting the low bits is a comparison of the high digits |
| `TimingWheel.FindRing` | core/src/timer/timewheel.cc:65-76 | The mask loop of `add_node` stops at the ring that `Home` names, at index 3 at the latest |
| `TimingWheel.TimerWheel.Link` | core/src/timer/timewheel.cc:53-58 | Appends a node to a slot list in constant time |
| `TimingWheel.TimerWheel.LinkClear` | core/src/timer/timewheel.cc:44-51 | Detaches a whole slot list |
| `TimingWheel.TimerWheel.AddNode` | core/src/timer/timewheel.cc:60-79 | Links the node into the slot that the specification names |
| `TimingWheel.TimerWheel.Add` | core/src/timer/timewheel.cc:94-99 | Sets the wrapped expiry and files the node |
| `TimingWheel.TimerWheel.MoveList` | core/src/timer/timewheel.cc:101-109 | Re-files the detached nodes in their order |
| `TimingWheel.TimerWheel.Shift` | core/src/timer/timewheel.cc:111-131 | The linked wheel after a shift holds `ShiftSlots` of what it held; the loop ends within the four rings |
| `TimingWheel.TimerWheel.Take` | core/src/timer/timer.cc:224-228 | Takes the due slot out of the linked wheel |
| `TimingWheel.TimerWheel.constructor` | core/src/timer/timewheel.cc:180-208 | A new wheel holds nothing |
| `WheelUpdate.Update` | core/src/timer/timer.cc:220-250 | Drain, shift and drain on the linked wheel, while callbacks and other threads add timers: it follows a run of `WheelRun`, so that slots, clock and the callbacks run, in order, are those of a reachable state one tick later, and every timer that is met on time and due by then has been handed over at its expiry |
| `WheelUpdate.Start` | core/src/timer/timewheel.cc:180-208 | A new linked wheel is that of the empty run |
| `WheelUpdate.RunCallbacks` | core/src/timer/timer.cc:230-240 | The loop over a detached list runs each callback once, in order, while timers are added |
| `WheelUpdate.AddTimer` | core/src/timer/timer.cc:160-164 | An addition to the linked wheel is the addition of the run; the node is not linked yet |
| `ChainBuffer.Replay` | core/src/buffer/chain_buffer.cc:52-309 | Every sequence of add, remove, drain, write_atmost and search behaves, step by step and in every answer, as on one flat byte string with a remembered position; that includes the calls that follow a null pointer |
| `ChainBuffer.ChainBuffer.Add` | core/src/buffer/chain_buffer.cc:52-117 | Appends, or answers -1 exactly when the size caps are exceeded and then changes nothing |
| `ChainBuffer.ChainBuffer.Remove` | core/src/buffer/chain_buffer.cc:119-129 | Answers the first bytes and drops them |
| `ChainBuffer.ChainBuffer.Drain` | core/src/buffer/chain_buffer.cc:131-173 | Drops the first bytes, answers how many |
| `ChainBuffer.ChainBuffer.CopyOut` | core/src/buffer/chain_buffer.cc:386-410 | Copies the first bytes across chunks |
| `ChainBuffer.ChainBuffer.WriteAtMost` | core/src/buffer/chain_buffer.cc:230-309 | Makes one chunk of all bytes and keeps the contents, with the tail link set from the flag that its chunk was freed, or answers null if and only if they exceed the cap; it follows the null first pointer if and only if there is no chunk |
| `ChainBuffer.ChainBuffer.FreeAll` | core/src/buffer/chain_buffer.cc:367-373 | Frees every chunk: none is left in memory |
| `ChainBuffer.ChainBuffer.TailDesignatesLast` | core/src/buffer/chain_buffer.cc:356-365 | The cached tail link designates the last chunk, so no empty chunk is ever found behind it |
| `ChainBuffer.ChainBuffer.InsertLast` | core/src/buffer/chain_buffer.cc:342-354 | A chunk goes behind the last one, and the tail link is right again |
| `ChainBuffer.ChainBuffer.NewChunk` | core/src/buffer/chain_buffer.cc:319-340 | Succeeds if and only if the request is under the cap; what is allocated is the least doubling of 1024 that holds it, or just that much for large requests |
| `ChainBuffer.ChainBuffer.CheckSep` | core/src/buffer/chain_buffer.cc:419-435 | Whether the separator starts at a byte, also across chunks; it runs off the last chunk if and only if the bytes left are a beginning of a longer separator |
| `ChainBuffer.ChainBuffer.Search` | core/src/buffer/chain_buffer.cc:187-228 | For every separator and from any remembered position: the end of the first occurrence at or behind the position, or 0 if there is none there, and the exact new position; it runs off the chain if and only if the separator is longer than the bytes and some rest of them is a beginning of it |
| `ChainBuffer.FreshIff` | core/src/buffer/chain_buffer.cc:187-228 | A search from a position answers what a search from the start would if and only if no occurrence starts before that position |
| `ChainBuffer.SearchesFresh` | core/src/buffer/chain_buffer.cc:187-228 | In every run of additions, pull-ups, searches for one separator, and removals after a hit, each search comes to what a search from the start would, also when that runs off the chain |
| `ChainBuffer.RunsOff` | core/src/buffer/chain_buffer.cc:187-228 | A buffer of one byte and a separator of two for which the search runs off the chain |
| `Serializer.Transfer` | core/src/base/serialize.c:417-728 | A list of values that can be packed arrives as the same list, both through the blocks and through the flat buffer; one that cannot is refused with the same error |
| `Serializer.TransferBoth` | core/src/base/serialize.c:408-646 | Packing a list, appending another and unpacking gives both lists, one behind the other; otherwise the error of the first one that cannot be packed |
| `SerialCodec.RoundTrip` | core/src/base/serialize.c:362-619 | Unpacking what was packed for a value gives the value and leaves the rest of the stream, for every nesting |
| `SerialCodec.ListRoundTrip` | core/src/base/serialize.c:408-435 | The same for lists, for any value that the packed view presents |
| `SerialCodec.WalkDenotes` | core/src/base/serialize.c:299-350 | Whatever order the hash part is walked in, and however long the array part is, the walk denotes the table |
| `SerialCodec.PackSucceeds` | core/src/base/serialize.c:362-406 | Packing succeeds if and only if all kinds are supported and the nesting is at most 32 levels |
| `SerialCodec.IntRoundTrip` | core/src/base/serialize.c:224-256 | Every 64-bit integer survives, in whichever of the five widths it was written |
| `SerialCodec.StrRoundTrip` | core/src/base/serialize.c:272-295 | Every string survives, at each of the three lengths of its header |
| `SerialCodec.ScalarRoundTrip` | core/src/base/serialize.c:212-295 | Every scalar survives |
| `SerialCodec.ArrayRoundTrip` | core/src/base/serialize.c:299-319 | The array part survives |
| `SerialCodec.HashRoundTrip` | core/src/base/serialize.c:321-339 | The hash part survives up to its closing nil |
| `SerialCodec.PackConcat` | core/src/base/serialize.c:427-435 | Packing two lists one after the other is packing them together |
| `SerialCodec.PackedLength` | core/src/base/serialize.c:362-406 | How many bytes a packed value has |
| `SerialFormat.PackFormat` | core/src/base/serialize.c:212-406 | What is packed, byte by byte: type bytes, the width of every integer and of every string length, byte order, the head of a table, its array part, its other entries, the closing nil |
| `SerialFormat.ParserExact` | core/src/base/serialize.c:445-619 | For every stream, a value is read from its front if and only if the bytes read are in the format of that value, in any of the widths; so nothing else is accepted |
| `SerialFormat.ListExact` | core/src/base/serialize.c:621-646 | A stream is read to its end if and only if it is a list of values in this format |
| `SerialBlocks.WriteBlock.constructor` | core/src/base/serialize.c:81-92 | An empty stream with room for its length |
| `SerialBlocks.WriteBlock.Resume` | core/src/base/serialize.c:92-101 | Resuming a finished stream continues at its true end |
| `SerialBlocks.WriteBlock.Push` | core/src/base/serialize.c:59-79 | Appends bytes across 128-byte blocks: what was written is the concatenation |
| `SerialBlocks.WriteBlock.Close` | core/src/base/serialize.c:103-110 | The first four bytes become the total length, itself included, least byte first; the payload stays |
| `SerialBlocks.ReadBlock.constructor` | core/src/base/serialize.c:137-145 | A reader on blocks has the payload before it |
| `SerialBlocks.ReadBlock.Whole` | core/src/base/serialize.c:126-135 | A reader on a flat buffer has the payload before it |
| `SerialBlocks.ReadBlock.Read` | core/src/base/serialize.c:147-199 | The next bytes, wherever block boundaries fall, or an error when there are not enough |
| `SerialBlocks.Serialize` | core/src/base/serialize.c:676-710 | The flat buffer is its length in four bytes and the payload of the blocks |
| `Serializer.PackOne` | core/src/base/serialize.c:362-406 | Writes what `Pack` says, or fails with its error |
| `Serializer.PackTable` | core/src/base/serialize.c:341-350 | Writes the header, the array part, the hash part and the nil |
| `Serializer.PushInt` | core/src/base/serialize.c:224-256 | Writes the type byte 2, 10, 18, 34 or 50 and the bytes of the shortest width that holds the integer, as `PackInt` says |
| `Serializer.PushStr` | core/src/base/serialize.c:272-295 | Writes one byte 4 + 8 n and the string, or 21 and two or 37 and four bytes of length and the string, as `PackStr` says |
| `Serializer.PushScalar` | core/src/base/serialize.c:218-295 | Writes the bytes of a boolean, a number, a pointer or a string |
| `Serializer.PushHeader` | core/src/base/serialize.c:299-312 | Writes one byte 6 + 8 n, or 254 and the array size as an integer |
| `Serializer.UnpackOne` | core/src/base/serialize.c:610-619 | Reads what `Unpack` says, or fails with its error |
| `Serializer.PushValue` | core/src/base/serialize.c:553-608 | Reads the value that a type byte announces |
| `Serializer.ReadInt` | core/src/base/serialize.c:445-486 | Reads an integer of the announced width |
| `Serializer.ReadStr` | core/src/base/serialize.c:508-516 | Reads a string |
| `Serializer.ReadTable` | core/src/base/serialize.c:520-551 | Reads array part and hash part |
| `Serializer.PackStream` | core/src/base/serialize.c:408-425 | A finished stream whose payload is what `PackAll` says, in the format of the list |
| `Serializer.AppendStream` | core/src/base/serialize.c:427-435 | Appending to a finished stream gives the stream of both lists |
| `Serializer.UnpackStream` | core/src/base/serialize.c:621-646 | All values of a block stream |
| `Serializer.Deserialize` | core/src/base/serialize.c:712-728 | All values of a flat buffer |
| `RbTree.Timers.constructor` | core/src/timer/rbtree.cc:97-101 | An empty tree |
| `RbTree.Timers.Allocate` | core/src/timer/timer.cc:145-150 | A new node is outside the tree and leaves it alone |
| `RbTree.Timers.Hang` | core/src/timer/rbtree.cc:5-23 | The descent hangs the node red behind all keys that are not greater and before all greater ones |
| `RbTree.Timers.RotateLeft` | core/src/timer/rbtree.cc:25-45 | Rewrites exactly the four nodes concerned and the root pointer |
| `RbTree.Timers.RotateRight` | core/src/timer/rbtree.cc:47-71 | The mirror image |
| `RbTree.RotatedLeftZip` | core/src/timer/rbtree.cc:25-45 | After a left rotation memory shows the rotated subtree at the same place, parent links included |
| `RbTree.RotatedRightZip` | core/src/timer/rbtree.cc:47-71 | The mirror image |
| `RbTree.Timers.Repair` | core/src/timer/rbtree.cc:119-163 | The loop terminates and leaves red-black balance, with the order unchanged |
| `RbTree.Timers.RoundLeft` | core/src/timer/rbtree.cc:122-140 | One round below a left parent shortens the way to the root and keeps the order |
| `RbTree.Timers.RoundRight` | core/src/timer/rbtree.cc:141-160 | The mirror image |
| `RbTree.Timers.Insert` | core/src/timer/rbtree.cc:103-164 | Memory shows a sorted red-black tree again, with exactly the new node added, after all equal keys |
| `RbTree.Timers.Min` | core/src/timer/rbtree.cc:73-83 | The first node in key order |
| `RbTree.Timers.Max` | core/src/timer/rbtree.cc:85-95 | The last node in key order |
| `RbTree.Timers.Next` | core/src/timer/rbtree.cc:320-347 | The successor in key order, or null from the last |
| `RbTree.Timers.Walk` | core/src/timer/rbtree.cc:304-347 | Going from the minimum by successors lists every node once, in key order |
| `RbShape.RecolouredOk` | core/src/timer/rbtree.cc:124-129 | Recolouring keeps equal black heights and leaves at most one clash, two levels higher |
| `RbShape.SwungOk` | core/src/timer/rbtree.cc:132-135 | Swinging an inner child out keeps the state of the repair and the order |
| `RbShape.LiftedOk` | core/src/timer/rbtree.cc:137-139 | The last rotation removes the clash |
| `RbShape.Repaired` | core/src/timer/rbtree.cc:163 | With no clash left, blackening the root gives a red-black tree |
| `RbShape.NewNode` | core/src/timer/rbtree.cc:5-23 | Hanging a red leaf starts the repair |
| `RbShape.Shallow` | core/src/timer/rbtree.cc:103-164 | A red-black tree of n nodes is at most 2 log2(n + 1) high |
| `SkipList.SkipList.constructor` | core/src/timer/zkiplist.cc:33-45 | An empty list with null header links |
| `SkipList.SkipList.CreateNode` | core/src/timer/zkiplist.cc:26-31 | A new node is outside the list and leaves it alone |
| `SkipList.SkipList.Search` | core/src/timer/zkiplist.cc:63-71 | On each level the last node with a smaller score |
| `SkipList.SkipList.LinkAll` | core/src/timer/zkiplist.cc:81-85 | Links the node into each level below its height, and no other |
| `SkipList.SkipList.Insert` | core/src/timer/zkiplist.cc:59-89 | The writes stay inside the node if and only if the level drawn fits its tower; then every level is again the sorted subsequence of the higher nodes, and exactly the node was added, before its equals |
| `SkipList.SkipList.Min` | core/src/timer/zkiplist.cc:91-95 | The node of least score |
| `SkipList.SkipList.UnlinkDown` | core/src/timer/zkiplist.cc:101-105 | Unlinks the first node from every level |
| `SkipList.SkipList.UnlinkUp` | core/src/timer/zkiplist.cc:14-20 | Unlinks a node from every level |
| `SkipList.SkipList.Shrink` | core/src/timer/zkiplist.cc:21-22 | The level is that of the highest node, at least 1 |
| `SkipList.SkipList.DeleteHead` | core/src/timer/zkiplist.cc:97-109 | Removes exactly the first node |
| `SkipList.SkipList.Delete` | core/src/timer/zkiplist.cc:111-128 | Removes exactly the first node with the score, if there is one |
| `SkipList.DeletesGivenIff` | core/src/timer/zkiplist.cc:111-128 | That is the node that was given if and only if no node before it has its score |
| `SkipList.DeletesOther` | core/src/timer/zkiplist.cc:111-128 | A list of two nodes where deleting one takes out the other |
| `SkipList.LaneOfLane` | core/src/timer/zkiplist.cc:59-89 | Every level is a subsequence of each level below |
| `SkipList.HeaderNull` | core/src/timer/zkiplist.cc:21-22 | The header links are null at and above the level |
| `MinHeap.MinHeap.constructor` | core/src/timer/minheap.cc:61-76 | An empty heap |
| `MinHeap.MinHeap.NewEntry` | core/src/timer/timer.cc:138-143 | A new entry is in no heap |
| `MinHeap.MinHeap.ShiftUp` | core/src/timer/minheap.cc:9-20 | Restores heap order and every remembered place, keeps the entries |
| `MinHeap.MinHeap.ShiftDown` | core/src/timer/minheap.cc:22-41 | Restores heap order and every remembered place, keeps the entries |
| `MinHeap.MinHeap.Reserve` | core/src/timer/minheap.cc:44-59 | Growing keeps the entries where they are |
| `MinHeap.MinHeap.Push` | core/src/timer/minheap.cc:91-98 | Adds exactly the entry |
| `MinHeap.MinHeap.Top` | core/src/timer/minheap.cc:112-120 | An earliest entry |
| `MinHeap.MinHeap.Pop` | core/src/timer/minheap.cc:100-110 | Takes out exactly one earliest entry and marks it as out |
| `MinHeap.MinHeap.Drain` | core/src/timer/minheap.cc:100-110 | Popping until empty yields all entries in nondecreasing time |
| `MinHeap.UpTimes` | core/src/timer/minheap.cc:13-18 | One round upwards keeps heap order but for the hole |
| `MinHeap.DownTimes` | core/src/timer/minheap.cc:27-39 | One round downwards keeps heap order but for the hole |
| `DiffieHellman.MulModP` | core/src/base/lua-crypt.c:794-814 | The product modulo 2^64 - 59, on wrapping 64-bit arithmetic, for every first factor up to the modulus |
| `DiffieHellman.PowModP` | core/src/base/lua-crypt.c:816-827 | Terminates for exponents from 1 and yields the power, except that the modulus to the power 1 is itself |
| `DiffieHellman.PowerModP` | core/src/base/lua-crypt.c:829-835 | The power modulo P if and only if not (base P and exponent 1) |
| `DiffieHellman.Exchange` | core/src/base/lua-crypt.c:869-887 | For a key of eight bytes that are not all 0, the eight bytes, least first, of 5 to the key modulo 2^64 - 59, or a refusal |
| `DiffieHellman.Secret` | core/src/base/lua-crypt.c:852-865 | The eight bytes, least first, of the power of the other public value, or a refusal; for the modulus as public value and the key 1 the modulus itself |
| `DiffieHellman.ExchangeNotZero` | core/src/base/lua-crypt.c:867-887 | The public value is never 0 |
| `DiffieHellman.Commutes` | core/src/base/lua-crypt.c:852-887 | Both sides compute the same power |
| `DiffieHellman.Agreement` | core/src/base/lua-crypt.c:852-887 | For all accepted keys both exchanges succeed and both sides derive the same secret |
| `Des.InitialUndoes` | core/src/base/lua-crypt.c:207-229 | The initial permutation undoes the final one |
| `Des.FinalUndoes` | core/src/base/lua-crypt.c:207-229 | The final permutation undoes the initial one |
| `Des.RoundsBack` | core/src/base/lua-crypt.c:326-335 | Rounds of the reversed schedule on swapped words undo the rounds, for any round function |
| `Des.CryptBack` | core/src/base/lua-crypt.c:319-341 | Decrypting a block undoes encrypting it |
| `Des.CryptEnciphers` | core/src/base/lua-crypt.c:319-341 | For every round function, key schedule and block the halves of the sixteen rounds are as FIPS 46-3 says; the first and the last ones are tied to the bits of input and output through the table IP |
| `Des.RoundTables` | core/src/base/lua-crypt.c:233-246 | Each of the eight tables is entered with six bits of the key, added to the six bits of the half that table E names |
| `Des.PaddingBytes` | core/src/base/lua-crypt.c:374-405 | The bytes of the two paddings |
| `Des.RemoveIso7816` | core/src/base/lua-crypt.c:384-399 | Finds the ISO 7816-4 padding if there is one, and only then |
| `Des.RemovePkcs7` | core/src/base/lua-crypt.c:407-417 | Finds the PKCS#7 padding of 1 to 8 bytes if there is one; goes on to before the text if and only if all its bytes equal the last one, which is greater than the length |
| `Des.RemovePadding` | core/src/base/lua-crypt.c:444-448 | The same by mode |
| `Des.Encode` | core/src/base/lua-crypt.c:460-484 | Block by block, the padded text goes through the cipher of FIPS 46-3 |
| `Des.ReverseSchedule` | core/src/base/lua-crypt.c:490-495 | The schedule of the decoder |
| `Des.Decode` | core/src/base/lua-crypt.c:486-516 | The text before the padding, or a refusal exactly when the length or the padding is wrong, or a comparison that leaves the text |
| `Des.DecodeOutside` | core/src/base/lua-crypt.c:486-516 | For every key a text for which that comparison leaves the text |
| `Des.RoundTrip` | core/src/base/lua-crypt.c:460-516 | Decoding an encoded text gives it back, for every text, schedule, padding mode and round function |
| `Des.DesRoundTrip` | core/src/base/lua-crypt.c:233-516 | The same for the round function of DES, whatever is in its eight tables |
| `Sha1.Context.constructor` | core/src/base/lsha1.c:177-186 | The initial state |
| `Sha1.Context.CountBits` | core/src/base/lsha1.c:199-200 | The two-word count grows by the bits, plus `Excess` |
| `Sha1.CountRightIff` | core/src/base/lsha1.c:199-200 | The count is right if and only if the length is below 2^29 bytes or the low word overflows anyway |
| `Sha1.Context.Update` | core/src/base/lsha1.c:190-215 | State and live buffer depend only on all bytes fed so far, for every split |
| `Sha1.TwoUpdates` | core/src/base/lsha1.c:190-215 | Two updates do what one update with both parts does, count included |
| `Sha1.SameFed` | core/src/base/lsha1.c:190-215 | Contexts that were fed the same agree on all but the dead part of the buffer |
| `Sha1.Context.Pad` | core/src/base/lsha1.c:228-231 | The padding loop stops at the first place that leaves 8 bytes of a block |
| `Sha1.Context.Final` | core/src/base/lsha1.c:219-235 | Digests the message followed by its padding |
| `Sha1.Sha1` | core/src/base/lsha1.c:249-260 | The digest of the text as counted: the five initial words, the chain of hash values over the blocks, and the last words byte by byte, as FIPS 180-4 says |
| `Sha1.PaddedRightIff` | core/src/base/lsha1.c:249-260 | The padding is that of FIPS 180-4, section 5.1.1, if and only if the text is below 2^29 bytes |
| `Sha1Block.Rounds.Blk` | core/src/base/lsha1.c:107-113 | The ring of sixteen words yields word after word of the message schedule |
| `Sha1Block.Rounds.Round` | core/src/base/lsha1.c:116-120 | A macro on five words that change in turn is a round of the standard on words that move on |
| `Sha1Block.CodeAgrees` | core/src/base/lsha1.c:101-120 | The swapped words, the short forms of the logical functions and the order of the sums agree with the standard |
| `Sha1Block.Transform` | core/src/base/lsha1.c:124-174 | The eighty rounds on a ring of sixteen words compute the next hash value of FIPS 180-4, section 6.1.2 |
| `Sha1Block.TransformState` | core/src/base/lsha1.c:124-174 | The same on the five words of a context |
| `Sha1Block.Digest` | core/src/base/lsha1.c:249-260 | So `lsha1` is SHA-1 for every text below 2^29 bytes, and for longer ones it digests the text padded as counted |
| `Base64.Encode` | core/src/base/lua-crypt.c:891-932 | Symbol by symbol: six bits of the text each, looked up in the alphabet, then equals signs |
| `Base64.ReadFour` | core/src/base/lua-crypt.c:959-978 | The next four values, other bytes skipped, -2 behind the end |
| `Base64.DecodeFour` | core/src/base/lua-crypt.c:979-1007 | The bytes of a group, or a refusal |
| `Base64.Decode` | core/src/base/lua-crypt.c:947-1011 | What `DecodeText` says |
| `Base64.DecodesIff` | core/src/base/lua-crypt.c:947-1011 | A text is accepted, and stands for these bytes, if and only if its symbols are the encodings of groups of one to three of them, perhaps without the last equals signs, and no other byte follows a complete last group |
| `Base64.RoundTrip` | core/src/base/lua-crypt.c:891-1011 | Decoding an encoding gives the text back, also with equals signs cut off and other bytes put in before the last symbol |
| `Base64.TrailingIff` | core/src/base/lua-crypt.c:957-972 | With other bytes behind the last symbol it comes back if and only if the last group of four is incomplete |
| `Base64.EncodeDecode` | core/src/base/lua-crypt.c:891-1011 | What the encoder writes, the decoder reads |
| `ActorRun.TokenIffInvoke` | core/src/service/service_manager.cc:133-146 | In every interleaving, also with spurious compare-exchange failures, a service has exactly one run token if its flag is up and none otherwise |
| `ActorRun.MutualExclusion` | core/src/service/service.cc:31-52 | No two workers run one service at once |
| `ActorRun.HandledInOrder` | core/include/producer_consumer_queue.h:33-78 | What was handled, followed by what still waits, is what was pushed, in order |
| `ActorRun.NoNullPop` | core/src/service/service.cc:31-43 | The branch for a null message is never taken |
| `ActorRun.TakenInOrder` | core/include/producer_consumer_queue.h:80-98 | In every run the workers take the services in the order in which they were put on the global queue |
| `ActorRun.TurnHandles` | core/src/service/service.cc:31-52 | In every run a turn handles exactly the messages that were counted when it began, in order; what is in the queue when the flag is to be lowered was pushed since the emptiness test, and a service is put back only with messages |
| `ActorRun.NobodyStuck` | core/src/message_worker.cc:12-20 | In every reachable state a sender with a message can go on, and a waiting worker can if and only if a service is queued |
| `ActorRun.HolderNotStuck` | core/src/service/service.cc:31-52 | A worker with a service can go on, or the push that holds the lock of its queue can |
| `ActorRun.StrandedIff` | core/src/service/service.cc:45-51 | A step takes the last attention from queued messages if and only if it lowers the flag over a queue filled since it was found empty, or is a compare-exchange that fails spuriously on a lowered flag, with no other sender on its way |
| `ActorRun.StaysStranded` | core/src/service/service.cc:45-51 | From then on every step but a push to the service keeps its queue and keeps it unattended |
| `ActorRun.LeftBehindIff` | core/src/service/service_manager.cc:133-146 | In every run messages are queued with nobody to attend to them if and only if such a step took place and no push to the service after it |
| `ActorRun.MessageLeftBehind` | core/src/service/service.cc:45-51 | A run in which a message pushed between the emptiness test and the lowering of the flag is left behind |
| `ActorRun.SpuriouslyLeftBehind` | core/src/service/service_manager.cc:133-146 | A run in which a spurious failure leaves a message behind |
| `ActorRun.StepInv` | core/src/message_worker.cc:12-20 | Every step of senders and workers keeps the invariant |
| `SessionRun.AtMostOnce` | lualib/onbnet.lua:140-181 | In every run with distinct tokens no session resumes a coroutine twice, by reply, timeout or wakeup |
| `SessionRun.ResumesOwner` | lualib/onbnet.lua:98-181 | In every run with distinct tokens each step resumes a waiting coroutine only for its own session: the one that is answered, or the one whose token is woken |
| `SessionRun.AnswerResumes` | lualib/onbnet.lua:98-181 | Conversely, in every run with distinct tokens a reply to the session that a coroutine waits for, or a wakeup of its token at the front of the queue, resumes it |
| `SessionRun.WaiterReachable` | lualib/onbnet.lua:140-181 | Who waits can be answered: its reply is still to come, or a wakeup of its token is queued |
| `SessionRun.EachTurns` | lualib/onbnet.lua:98-206 | In every run with distinct tokens each step does to every coroutine what it is for (begin, go on, wait for a new session, end), and to the others nothing |
| `SessionRun.WakeupsInOrder` | lualib/onbnet.lua:98-113 | In every run the wakeup queue holds the accepted wakeups, in order, but the first ones, which were looked at |
| `SessionRun.ForksInOrder` | lualib/onbnet.lua:183-206 | In every run the forked functions are begun in the order they were forked; the others are in the queue |
| `SessionRun.RunOrderlyIff` | lualib/onbnet.lua:98-181 | Replies resume only their owners at every point of a run, whatever may follow there, if and only if no `sleep` of the run uses a taken token |
| `SessionRun.OrderlyIff` | lualib/onbnet.lua:316-321 | The same for one step from any consistent state |
| `SessionRun.ClashMisleads` | lualib/onbnet.lua:316-321 | After every sleep on a taken token, whatever is in the queues, a run goes on in which the timer reply resumes the coroutine while it waits for another session |
| `SessionRun.WaitClash` | lualib/onbnet.lua:347-353 | A `wait` on a taken token leaves an entry for a session that nobody was asked to answer; the run stays orderly |
| `SessionRun.OrphansIff` | lualib/onbnet.lua:347-353 | In every run without a clash of `sleep` the table keeps an entry that nobody will answer if and only if some `wait` used a taken token |
| `SessionRun.NoUnknownReply` | lualib/onbnet.lua:153-160 | In every run without a clash of `sleep` each reply finds its session in the table |
| `SessionRun.SleepersSuspended` | lualib/onbnet.lua:98-113 | What sleeps on a token is a suspended coroutine that owns the session |
| `SessionRun.LateReplySwallowed` | lualib/onbnet.lua:154-157 | After a wakeup, however the run goes on, the timer reply removes the mark and resumes nobody |
| `SessionRun.QueuesDrained` | lualib/onbnet.lua:183-206 | Between messages the fork queue is empty, and the wakeup queue holds something if and only if the last coroutine that ended its turn failed while wakeups were queued |
| `SessionRun.UndeliveredUntilYield` | lualib/onbnet.lua:115-135 | Wakeups stay in the queue, in order, until some coroutine yields or finishes |
| `SessionRun.StepInvIff` | lualib/onbnet.lua:316-321 | A step keeps the tables consistent if and only if it does not sleep on a taken token |
| `SessionRun.TokenClash` | lualib/onbnet.lua:316-321 | A concrete run in which a taken token makes a timer reply answer somebody else's call |
| `SessionRun.WakeupPending` | lualib/onbnet.lua:115-135 | A concrete run in which a failing coroutine leaves its wakeup undelivered |

## Left out

- Timing wheel: `dispatch_list`, `timer_execute`, `timer_update` and the clock reading; the live timer does not use the first three. Node memory is not reclaimed in the model.
- WheelRun.SameExpiryInOrder: speaks of timers in reach only; for the others the order can be reversed, exactly as `WheelOrder.InOrderIff` says.
- WheelRun.SlotsFilePending: names the slot only of timers in reach; one that is out of reach can sit in a slot that `add_node` would not choose now.
- WheelSpec.ShiftFiles: speaks of timers in reach only; the others are conserved (`WheelSpec.ShiftHolds`) and keep their fate (`WheelSlots.FateMoves`), but can sit in a slot that `add_node` would not choose now.
- WheelSpec.AddFiles: speaks of timers in reach only, for the same reason.
- WheelSpec.TakeDue: speaks of timers in reach only; which of the others are due in the drained slot is in `WheelSlots.FateDecided`.
- Chain buffer: `buffer_free`, which leaves the object unusable; failing allocation; two threads inside one `buffer_remove`, which takes the lock twice.
- ChainBuffer.ChainBuffer.Search: not for separators of 2^31 bytes and more, whose length does not fit its type.
- Serializer: floats and light userdata are opaque eight-byte values; tables and functions as table keys; allocation failure; streams longer than 2^31 - 1 bytes. A zero-length read yields the empty string. A negative length in a malformed stream is an invalid stream.
- Red-black tree: `rbtree_delete`, whose fix-up departs from the standard algorithm, so that balance is not kept.
- SkipList.SkipList.Insert: the random level is a parameter; what memory holds after writes beyond the tower is not said.
- Skip list: `zsl_free`.
- Heap: `min_heap_free`, failing reallocation, and index arithmetic on heaps of 2^31 entries and more.
- DES: the key schedule and the contents of the eight tables are arbitrary, which nothing proved depends on; wrong key sizes and padding modes; texts longer than 2^31 - 1 bytes.
- SHA-1: wiping the context afterwards; buffers of 2^61 bytes and more. The unrolled rounds are a loop.
- Actors: liveness, which does not hold; cancelling a queue at shutdown; the one-argument `send`, which pushes to the global queue without the flag. The protocol is modelled on values, step by step, not as objects shared by threads.
- Sessions: coroutines that are resumed by user code, the pool's weak references, `response` and `ret`, the contents of messages, and `error_queue`, to which nothing is ever added. The dispatcher's tables are modelled on values. Resuming a coroutine that does not wait is an error in Lua; that case arises only outside the invariant. Replies that nobody asked for are not modelled.
- MD5-based hashing, hex coding, sockets, epoll, logging, configuration and hot reload: input and output or code with no property beyond its definition.
