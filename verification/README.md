# Verification of 56vfs

A Dafny 4.11 model of the parts of the 56.com video file system whose correctness rests on an
array, pointer or protocol invariant, and proofs about it.  `dafny verify dfyconfig.toml` checks
everything.

| file | models | what is proved |
|---|---|---|
| `ShmBuffer.dfy` | the shared-memory hash table `3rdlib/TShmBuffer.h` | chain invariant, contents as a multiset of entries under every operation, exactly when the mutually recursive `Add` and `Realloc` return and with which shape, each live entry delivered once by a scan |
| `NmShm.dfy` | the double-buffered counters `3rdlib/TNmShm.cpp` | a table used find-before-add is a finite map and `Find` its lookup; conservation of counts over every run of increments interleaved with reading cycles |
| `Md5Core.dfy` | `MD5Transform` | the 64 unrolled steps are the indexed rounds of section 3.4 of RFC 1321 |
| `Md5.dfy`, `Md5Suite.dfy`, `Md5Users.dfy` | streaming MD5, file digest, HMAC | every split of a message gives the digest of sections 3.1 to 3.5 of RFC 1321, which for a two-block message of its test suite is the one printed there; HMAC is that of section 2 of RFC 2104 |
| `Rings.dfy` | `lib/list.h` | each operation on heap rings is a sequence operation, on one ring or across two, also for an entry that stands alone |
| `DelayTask.dfy`, `TimerRuns.dfy` | the timer pool `network/vfs_timer.c` | the removal-safe scan, and what becomes of every timer over every run |
| `MyBuff.dfy`, `SlotModel.dfy`, `VfsSo.dfy` | a connection slot, `network/mybuff.c` and `network/vfs_so.c` | over every run of accepts, events, plugin writes and closes: what was handed over is on the wire or pending, nothing lost or repeated but regions that were replaced; in order when every act was in turn, and not any more once one strayed; after every event exactly when write interest goes with pending output; each opening closed at most once; each local descriptor held or closed once |
| `StrExplode.dfy` | `lib/util_str.c` | in-place cutting gives the fields of a tokenizer on values; where the fields lie in the line; written fields, quoted or not, are recovered, the last with what there is no more room for |
| `Base64.dfy` | `base64_encode` | section 4 of RFC 4648, and decoding recovers the input |
| `IpText.dfy` | `lib/util_ip.c` | text and address round trip, equivalent spellings, which texts are no address and exactly which numbers are refused |
| `Watchdog.dfy` | `network/watchdog.c` | no tick lost between read and subtraction; a thread is killed exactly when it was still long enough, and so is every thread of the table |
| `TimeStamp.dfy` | `network/vfs_time_stamp.c` | slots of the byte file do not overlap and hold the latest time set |

Methods keep the source's state in fields and arrays and carry ghost state for what the source
only implies: the chain each table node lies on, the nodes of a ring in order, the bytes fed to a
hash, the bytes on the wire.  I/O results, plugin callbacks and clock readings are parameters.

## Findings

* `Realloc` grows both parts of a table by 12/10 rounded down, which can come to nothing.  A table
  of fewer than five nodes is rehashed into one of the same shape (`ShmBuffer.TinyTableIsStuck`),
  and `Add` of an entry that it has no room for finds it crowded again after any number of
  rehashes (`RehashTiny`, `StuckTable`).  With five or more buckets room comes exactly when the
  overflow area comes to hold every entry that repeats a key (`RoomComesForRepeats`): always when
  it has at least four nodes, never for a repeated key when it has none, so that the rehashing
  then goes on until no larger segment can be had and the table is lost (`RoomComesWhen`,
  `RepeatedKey`).  For an overflow area of one to three nodes behind five or more buckets that
  condition is all that is shown: whether each of them comes to have four nodes is open.
* `getfilemd5` takes a read that is cut short by an error for the end of the file: it reports
  success and the digest of the part it got unless the error falls on a multiple of its buffer
  size (`Md5Users.GetFileMd5`, `CutShort`).
* `str2ip` does not check the third of four numbers, which runs over into the fourth
  (`IpText.NumbersRefused`, `ThirdNumberUnchecked`).
* A connection slot is all zero until it is first used, so its descriptor is 0 and the test
  `fd < 0` does not tell it from an open one: `do_close` on it tells the plugin of the end of a
  connection there never was and closes the descriptor.  The life of a slot is orderly if and
  only if it is opened before it is closed (`VfsSo.Conn.DoClose`, `Drive`, `StrayClose`).
* Write interest does not always go with pending output after an event.  `do_recv` takes it away
  when a read finds nothing, and when the plugin answers that it wants read events only, whatever
  is still pending; and `do_send` sets it before the callbacks, which may hand more over.  Exactly
  when the two agree on a slot that stays open is said for every event (`VfsSo.Conn.DoSend`,
  `DoRecv`, `DoProcess`, `Drive`; `Stalled` and `StalledByAnswer` are slots where they do not).
* `do_send` tells the plugin that bytes went out by the count of its last call alone: when all of
  the queue goes out and the sendfile behind it would block, `svc_send_once` is not called
  (`VfsSo.Conn.DoSend` says exactly when it is, `NotToldBeforeFile` is such a case).
* Bytes that a plugin queues while a file region is pending overtake the rest of the region, and
  a second file drops the rest of the first (`SlotModel.InTurnExactly`, `VfsSo.Overtaken`,
  `VfsSo.Replaced`).

## Model

| member | source | states |
|---|---|---|
| ShmBuffer.ChainsPartition | 3rdlib/TShmBuffer.h:33-39 | every handed-out node lies on exactly one chain, and following `next` visits a chain in strictly increasing index order |
| ShmBuffer.ChainedAppend | 3rdlib/TShmBuffer.h:185-187 | linking the first unused node behind the last node of a chain keeps the chain invariant |
| ShmBuffer.LiveUpdate | 3rdlib/TShmBuffer.h:195-196 | overwriting a node exchanges its entry in the table's contents and leaves all others |
| ShmBuffer.OverflowGrows | 3rdlib/TShmBuffer.h:333-337 | the overflow area grows at every rehash for every bucket count if and only if it has at least five nodes |
| ShmBuffer.TinyTableIsStuck | 3rdlib/TShmBuffer.h:333-337 | a rehash keeps the shape of a table if and only if it has fewer than five nodes |
| ShmBuffer.RoomInUse | 3rdlib/TShmBuffer.h:185-191 | a table has room, counted by buckets and overflow nodes, for what it holds; built without gaps it has used exactly the nodes that takes |
| ShmBuffer.RoomComesForRepeats | 3rdlib/TShmBuffer.h:328-376 | with five or more buckets, rehashing makes room for entries if and only if the overflow area comes to hold those that repeat a key |
| ShmBuffer.RoomComesWhen | 3rdlib/TShmBuffer.h:328-376 | room comes: for fewer than five nodes if and only if it is there; always with four overflow nodes, or with fewer than five buckets and five nodes in all; without overflow nodes if and only if no key is repeated |
| ShmBuffer.FourGrow | 3rdlib/TShmBuffer.h:333-337 | four overflow nodes behind five or more buckets have become five or more after one rehash more than there are factors of five in the number of buckets |
| ShmBuffer.TShmBuffer.CrowdedLacksRoom | 3rdlib/TShmBuffer.h:178-183 | a table without gaps is rehashed for a further entry if and only if the entry does not fit in with the others, counted by buckets and overflow nodes |
| ShmBuffer.TShmBuffer.LacksRoomIsCrowded | 3rdlib/TShmBuffer.h:178-183 | with gaps, too, an entry that does not fit in makes a rehash necessary |
| ShmBuffer.TShmBuffer.FullIsCrowded | 3rdlib/TShmBuffer.h:178-183 | a table whose nodes are all live is rehashed whatever is added |
| ShmBuffer.TShmBuffer.RehashTiny | 3rdlib/TShmBuffer.h:178-183 | a table of fewer than five nodes without room for an entry is crowded again, with the same shape and entries, after any number of rehashes |
| ShmBuffer.StuckTable | 3rdlib/TShmBuffer.h:178-183 | a table for which this happens, made by the table's own operations |
| ShmBuffer.RepeatedKey | 3rdlib/TShmBuffer.h:178-183 | a table without overflow nodes is lost when a key is added again, however much memory there is |
| ShmBuffer.TShmBuffer.Alloc | 3rdlib/TShmBuffer.h:127-151 | an empty table of the asked shape, or a failure exactly when no segment of that size can be had |
| ShmBuffer.TShmBuffer.Find | 3rdlib/TShmBuffer.h:204-228 | finds the first node of the whole array that holds the key, and fails exactly when no entry has it |
| ShmBuffer.TShmBuffer.Store | 3rdlib/TNmShm.cpp:110-115 | writing through the pointer Find gave replaces that entry's value only |
| ShmBuffer.TShmBuffer.Erase | 3rdlib/TShmBuffer.h:231-251 | takes one entry of the key out of the contents and nothing else, or fails when there is none; the recorded size stays |
| ShmBuffer.TShmBuffer.Add | 3rdlib/TShmBuffer.h:154-201 | returns; succeeds if and only if no rehash is needed or some shape on the growth path has room within the memory; then the shape is the first that has, and the contents gain exactly the new entry, also through nested rehashes; what becomes of the recorded size; without a rehash an unused node is taken if and only if no node of the key's chain is empty |
| ShmBuffer.TShmBuffer.Realloc | 3rdlib/TShmBuffer.h:328-376 | returns; the same entries in a table without gaps, of the first shape on the growth path that has room for them, the recorded size again their number; fails exactly when that shape is larger than the memory |
| ShmBuffer.TShmBuffer.Clear | 3rdlib/TShmBuffer.h:254-258 | an empty table of the same shape |
| ShmBuffer.TShmBuffer.Next | 3rdlib/TShmBuffer.h:283-302 | delivers one of the entries still to come and leaves the others, or reports that none is left |
| NmShm.TableIsMap | 3rdlib/TNmShm.cpp:105-122 | after any find-then-add writes, increments and erasures a table holds exactly the entries of the finite map they describe, each once |
| NmShm.FindIsLookup | 3rdlib/TShmBuffer.h:204-228 | on a table that holds a map, Find succeeds exactly for the keys of the map, with the value last written |
| NmShm.IncrementedVal | 3rdlib/TNmShm.cpp:179-187 | an increment adds to its own counter modulo 2^32, keeps all others and keeps keys unique |
| NmShm.Conservation | 3rdlib/TNmShm.cpp:74-103 | over every run of increments interleaved with whole reading cycles, what was there plus what was added is what was read plus what is there, for each key modulo 2^32 |
| NmShm.WholeTableRead | 3rdlib/TNmShm.cpp:90-103 | a reader told of the end has received every entry of the table it drains exactly once |
| NmShm.NMSHM.BeginReadShm | 3rdlib/TNmShm.cpp:74-81 | is the begin step of the state machine: hands the current table to the reader and writers to the other |
| NmShm.NMSHM.ReadShm | 3rdlib/TNmShm.cpp:90-103 | is the read or the end-of-table step |
| NmShm.NMSHM.EndReadShm | 3rdlib/TNmShm.cpp:83-88 | is the end step: empties the drained table and leaves the other alone |
| NmShm.NMSHM.IncShm | 3rdlib/TNmShm.cpp:174-190 | is the increment step, on the current table only; fails only for a new key for which the table has no room within the memory |
| NmShm.NMSHM.SetShm | 3rdlib/TNmShm.cpp:105-122 | sets one counter of the current table and leaves the other table; fails likewise |
| Md5Bits.OptimisedSelections | lib/md5.c:158-160 | the rewritten F1 and F2 are the RFC's F and G on all words |
| Md5Core.QuadIsRounds | lib/md5.c:165-166 | four steps with the registers where four source lines have them are four operations of the RFC |
| Md5Core.RoundOne | lib/md5.c:182-197 | the first sixteen lines are operations 1 to 16 of section 3.4 |
| Md5Core.RoundTwo | lib/md5.c:199-214 | operations 17 to 32 |
| Md5Core.RoundThree | lib/md5.c:216-231 | operations 33 to 48 |
| Md5Core.RoundFour | lib/md5.c:233-248 | operations 49 to 64 |
| Md5Core.MD5Transform | lib/md5.c:173-254 | one call folds a block into the chaining value as section 3.4 says |
| Md5.CountBits | lib/md5.c:73-76 | the two-word bit count with the source's carry test is the 64-bit count of all bytes |
| Md5.LowByteFirst | lib/md5.c:91-92 | byte 4i of a block is the lowest byte of word i and byte 4i + 3 its highest |
| Md5.DigestBytes | lib/md5.c:151-152 | byte 4k of the digest is the lowest byte of register k and byte 4k + 3 its highest |
| Md5.PaddedShape | lib/md5.c:115-148 | behind the message 0x80, the fewest zeros that fill up a block, and the length in bits modulo 2^64 in eight bytes, lowest first |
| Md5.MD5Context.MD5Update | lib/md5.c:67-109 | the context stands for the concatenation of everything passed to it, whatever the split |
| Md5.MD5Context.MD5Final | lib/md5.c:115-152 | both padding cases give the digest of the padded message that section 3 of RFC 1321 defines, whose words, padding and bytes the rows around this one fix |
| Md5Suite.LettersDigest | lib/md5.c:52-254 | the digest of the message of 62 letters and digits in appendix A.5 of RFC 1321 is the one printed there, which depends on every constant, shift, word index and register of both blocks |
| Md5Suite.Op | lib/md5.c:165-166 | one of its 128 operations: the registers before and after, given the sum before the rotation |
| Md5Users.DigestOfParts | lib/md5.c:52-152 | the digest does not depend on how a message is cut into updates |
| Md5Users.GetMd5 | lib/util_misc.c:28-33 | the digest of a buffer |
| Md5Users.GetFileMd5 | lib/util_misc.c:34-64 | the digest of a file read in chunks, and exactly when a read error is reported |
| Md5Users.CutShort | lib/util_misc.c:48-53 | a file that cannot be read to its end, for which success is reported |
| Md5Users.Pads | lib/md5.c:303-311 | the inner and outer pad of a password of any length |
| Md5Users.HmacOfShortKey | lib/md5.c:281-319 | a password of at most 64 bytes: the nested digests over any two pads that hold its bytes combined with 0x36 and 0x5c, and these bytes alone behind them |
| Md5Users.HmacOfLongKey | lib/md5.c:293-299 | a longer password counts as its digest |
| Md5Users.XorByteLaws | lib/md5.c:306-309 | combining with a byte twice gives the byte back, and zero changes nothing |
| Md5Users.MD5HMAC | lib/md5.c:281-319 | HMAC of section 2 of RFC 2104 |
| Md5Users.MD5HMAC2 | lib/md5.c:321-361 | HMAC of the two challenges put together |
| Rings.RingMirrors | lib/list.h:20-22 | every node of a ring is its neighbours' neighbour |
| Rings.RingRotate | lib/list.h:20-22 | a ring is a ring from whichever node it is listed |
| Rings.ListAddHead | lib/list.h:58-61 | prepends |
| Rings.ListAddTail | lib/list.h:71-74 | appends |
| Rings.ListDel | lib/list.h:94-99 | removes the entry from its ring, or one that stands alone; it keeps no pointers |
| Rings.ListDelInit | lib/list.h:105-109 | removes the entry, which becomes a ring of its own, or stays one |
| Rings.ListMove | lib/list.h:116-120 | moves an entry, also one that stands alone, to the front of another list, which loses nothing, or of its own |
| Rings.ListMoveTail | lib/list.h:127-132 | moves an entry, also one that stands alone, to the end of another list or of its own |
| Rings.ListEmpty | lib/list.h:138-141 | true exactly for a list without entries |
| Rings.Splice | lib/list.h:143-155 | puts all entries of a list, in order, in front of another's |
| Rings.ListSpliceInit | lib/list.h:175-182 | the same, and leaves the source empty |
| DelayTask.DelayTasks.constructor | network/vfs_timer.c:22-42 | no active timer and 1024 free nodes on two well-formed rings |
| DelayTask.DelayTasks.AddToDelayTask | network/vfs_timer.c:44-84 | takes a free node before it allocates one and puts the timer in front of the active ones |
| DelayTask.DelayTasks.ScanDelayTask | network/vfs_timer.c:86-122 | fires the due timers once each in list order; the active list loses the due one-shots, which are put, reversed, in front of the free nodes; loops are re-armed; both rings stay well formed and apart |
| DelayTask.DelayTasks.VisitNext | network/vfs_timer.c:104-118 | one step of the walk, which may take the visited node off the ring it walks |
| TimerRuns.NodesAllocated | network/vfs_timer.c:55-65 | in every run no node is lost, and the nodes allocated are the larger of 1024 and the peak of active timers |
| TimerRuns.EachTimerAlone | network/vfs_timer.c:44-122 | in every run each timer is called, and stays active, exactly as if it were the only one |
| TimerRuns.OneShot | network/vfs_timer.c:107-117 | a one-shot timer is called by the first scan later than its time, once, and then leaves |
| TimerRuns.LoopGaps | network/vfs_timer.c:110-114 | calls of a looping timer are more than its span apart, and it never leaves |
| TimerRuns.LoopCalls | network/vfs_timer.c:107-114 | a looping timer is called by every scan later than its time, or than its last call by more than its span, and by no other |
| TimerRuns.ScanInOrder | network/vfs_timer.c:104-118 | the calls of a scan are made, and the timers that stay are left, in list order |
| MyBuff.Buff.SetData | network/mybuff.c:23-47 | appends, whatever has to be reallocated |
| MyBuff.Buff.SkipData | network/mybuff.c:57-68 | drops from the front, moving the rest down in place |
| MyBuff.Buff.SetFile | network/mybuff.c:69-77 | takes over a descriptor and closes the one held |
| MyBuff.Buff.SkipFile | network/mybuff.c:87-99 | drops from the file region, closing a used-up one |
| MyBuff.Buff.Reinit | network/mybuff.c:101-115 | empties the buffer and closes what it held |
| MyBuff.ClosedOnce | network/mybuff.c:69-115 | in every reachable buffer a descriptor was closed as often as it was given, but for the one held; given once, it is either held or closed once |
| SlotModel.ClosedOncePerOpening | network/vfs_so.c:136-155 | in an orderly life every opening is finalised and closed at most once |
| SlotModel.OrderlyUnlessStray | network/vfs_so.c:136-155 | a life that the code can lead to is orderly if and only if it does not begin with the close of a slot that was never opened |
| SlotModel.InTurnExactly | network/vfs_so.c:95-107 | an act of the plugin adds what it hands over behind all that is pending, whatever bytes the pending file region has, if and only if it is in turn: it queues nothing or no region is pending, and it replaces no pending region |
| SlotModel.NothingElseLost | network/vfs_so.c:95-107 | in turn or not, an act loses nothing but the region it replaces and duplicates nothing |
| SlotModel.WrongNow | network/vfs_so.c:95-107 | the first act to stray, by queuing bytes that begin differently from the pending region, or any that drops one, makes what is to be sent or was sent wrong for good |
| SlotModel.WrongAct | network/vfs_so.c:95-107 | what is wrong for good stays so whatever the plugin does |
| SlotModel.TextThenFile | network/vfs_so.c:95-107 | with no region pending, a text and a file behind it are in turn |
| SlotModel.ReceivedLeft | network/vfs_so.c:88-93 | acts take received bytes away from the front, as many as they ask for together, and nothing else becomes of them |
| SlotModel.SendMatchesExactly | network/vfs_so.c:213-251 | after do_send write interest goes with pending output if and only if, all having gone out, the callbacks handed over no bytes and no file, or, not all having, bytes were left or handed over or the region left was not replaced by an empty one |
| VfsSo.Conn.SendQueued | network/vfs_so.c:174-200 | moves exactly the bytes the kernel took, in order, from the queue to the wire; how each kernel answer is treated |
| VfsSo.Conn.SendFile | network/vfs_so.c:201-228 | the same for the file region, closing it when used up |
| VfsSo.Conn.Flush | network/vfs_so.c:157-231 | wire followed by pending is unchanged; an open connection has write interest exactly when something is pending; what each kernel answer leads to |
| VfsSo.Conn.SetClientData | network/vfs_so.c:95-100 | queues bytes and keeps the books of what was handed over |
| VfsSo.Conn.SetClientFd | network/vfs_so.c:102-107 | hands over a file region, dropping the one before, and keeps the books |
| VfsSo.Conn.RunActs | network/vfs_so.c:81-107 | what any sequence of plugin acts makes of the buffers, and whether all were in turn or one strayed |
| VfsSo.Conn.DoSend | network/vfs_so.c:157-251 | a closed slot sends nothing; how much of queue and file region the kernel's answers put on the wire, in order; svc_send_once is called if and only if the last send or sendfile moved bytes and the sending did not close the slot, then svc_send if and only if all has gone out, and they act on what was left; exactly what closes the slot; exactly when write interest goes with pending output |
| VfsSo.CallRetried | network/vfs_so.c:175-196 | a call that is interrupted is made again until it is answered, and the answer is used up |
| VfsSo.ToldOfPart | network/vfs_so.c:242-243 | of two queued bytes one goes out and svc_send_once queues another: the buffers afterwards |
| VfsSo.ToldOfAll | network/vfs_so.c:242-246 | both go out and both callbacks queue: the buffers afterwards |
| VfsSo.NotToldBeforeFile | network/vfs_so.c:198-243 | both go out and the sendfile behind them would block: svc_send_once is not called |
| VfsSo.SentInPart | network/vfs_so.c:157-251 | a slot on which the first of these happens, made by the slot's own operations |
| VfsSo.Conn.Receive | network/vfs_so.c:253-301 | do_recv up to the plugin: appends what arrived, exactly which outcomes close the connection, and write interest is taken away exactly when nothing was read |
| VfsSo.Conn.DoRecv | network/vfs_so.c:253-321 | a closed slot receives nothing; what is received, and what svc_recv and a do_send it asks for make of wire, buffers and losses; exactly what closes the slot; the interest each answer leaves, and exactly when it goes with pending output |
| VfsSo.Conn.DoProcess | network/vfs_so.c:323-341 | nothing happens on a closed slot; what both halves make of wire, buffers and losses; the write half sends exactly when output is possible and the read half did not close; exactly which events close the slot; the interest left, and exactly when it goes with pending output |
| VfsSo.Conn.PluginWrite | network/vfs_so.c:73-107 | a write between events hands over its bytes and files and sets the interest |
| VfsSo.Conn.DoClose | network/vfs_so.c:136-155 | tells the plugin and closes once, and does nothing when closed already; the life stays orderly if and only if the slot was opened before |
| VfsSo.Conn.Open | network/vfs_so.c:57-71 | an open slot with nothing pending, nothing received, read interest only |
| VfsSo.StepKeeps | network/vfs_so.c:57-341 | every step of the state machine, whatever the kernel and the plugin do, keeps wire, pending and dropped bytes together what was handed over since the opening, in order as above |
| VfsSo.RunKeeps | network/vfs_so.c:57-341 | so does every run of the state machine |
| VfsSo.Drive | network/vfs_so.c:109-134 | every run of accepts, events, writes and closes on a slot takes the steps of the state machine, each of which fixes what is sent, left and lost, whether the slot stays open, and its write interest; its life is orderly if and only if it is opened before it is closed; what was handed over since the last opening is, but for replaced regions, on the wire or pending, in order if all was in turn or no file was handed over, and not in order once an act strayed; the descriptors given are those handed over |
| VfsSo.StrayClose | network/vfs_so.c:136-155 | a slot that is closed once and was never opened |
| VfsSo.Stalled | network/vfs_so.c:289-294 | an open slot with pending output and no write interest after a read that found nothing |
| VfsSo.StalledByAnswer | network/vfs_so.c:307-309 | the same after a read that found a byte and an answer that asks for read events |
| VfsSo.Overtaken | network/vfs_so.c:95-107 | a byte queued while a file is pending goes in front of it |
| VfsSo.Replaced | network/vfs_so.c:102-107 | a file handed over while another is pending drops it |
| StrExplode.BuildIfs | lib/util_str.c:13-17 | the table marks exactly the given separators |
| StrExplode.ExplodeCount | lib/util_str.c:24-60 | at most n fields |
| StrExplode.SplitsJoined | lib/util_str.c:24-60 | of fields written plain or in quotes, joined by a separator and followed by any separators, all are recovered when there is room; otherwise the last field is the joined rest without the separators at its end, or the text in quotes at its beginning |
| StrExplode.NameAndValue | lib/util_str.c:48-52 | "name value" with a blank and a line end behind it gives two fields without them |
| StrExplode.ExplodeReads | lib/util_str.c:24-60 | where the fields lie in the line: which bytes are skipped, where each begins and ends, quoted or not, and why there are no more |
| StrExplode.CutKept | lib/util_str.c:44-56 | later writes do not disturb earlier fields |
| StrExplode.StrExplode | lib/util_str.c:24-60 | the fields read in the altered line what the tokenizer on values finds in the line as it was, and what lies there at the places found; an unquoted last field does not end in a separator and has only separators behind it |
| Base64.DecodeEncode | lib/common.c:204-229 | decoding recovers every byte string, padded or not |
| Base64.Vectors | lib/common.c:204-229 | test vectors of section 10 of RFC 4648, and the last two symbols |
| Base64.SymbolOfValue | lib/common.c:206 | each letter and digit, + and / stand for a value of their own |
| Base64.EncodedLength | lib/common.c:209-226 | the number of symbols, and four characters for every three bytes begun when padded |
| Base64.IdxIsSymbol | lib/common.c:211-222 | every computed index is below 64 and selects the symbol of the RFC's grouping |
| Base64.Base64Encode | lib/common.c:204-229 | fills the output with the encoding and a NUL and nothing else |
| IpText.Str2Ip | lib/util_ip.c:18-88 | reads what the grammar of dotted numbers says, and gives INADDR_NONE for a text that does not begin with a digit |
| IpText.NoDigitRefused | lib/util_ip.c:21-22 | a text that is empty or does not begin with a digit gives INADDR_NONE |
| IpText.DotRefused | lib/util_ip.c:30-69 | one to three numbers, a dot and no digit give INADDR_NONE |
| IpText.ParseDotted | lib/util_ip.c:18-88 | dotted numbers are read as themselves, whatever follows that could not be part of them |
| IpText.StrtoulDecimal | lib/util_ip.c:24 | a decimal number of any length is read modulo 2^32, and as 2^32 - 1 from 2^64 on |
| IpText.BasesAgree | lib/util_ip.c:24-40 | one address with its first number in base 10, 8 and 16 |
| IpText.Ip2Str | lib/util_ip.c:90-136 | writes the dotted decimal octets |
| IpText.RoundTrip | lib/util_ip.c:18-136 | the text of an address is read back as the address when its first octet is 1 to 223, and otherwise as INADDR_NONE |
| IpText.SpellingsAgree | lib/util_ip.c:18-88 | one to four numbers spell the same address |
| IpText.NumbersRefused | lib/util_ip.c:25-84 | exactly when one, two, three or four numbers are refused; of four the third is not checked |
| IpText.ThirdNumberUnchecked | lib/util_ip.c:69-80 | 1.2.300.4 is read as 1.2.44.5 |
| Watchdog.NoTickLost | network/watchdog.c:76-77 | in any interleaving the initial tick and all others are those observed and those in the counter |
| Watchdog.KilledWhenStill | network/watchdog.c:78-91 | a thread is killed at exactly those checks that observe nothing after at least the limit of such checks in a row |
| Watchdog.CheckIsSteps | network/watchdog.c:68-93 | what the table check does to one thread is the read, ticks and subtraction of the state machine |
| Watchdog.ThreadMap.GetThreadstat | network/watchdog.c:45-57 | registers one thread and leaves the others |
| Watchdog.ThreadMap.CheckThreadmap | network/watchdog.c:68-93 | passes over unused entries; the threads killed are, in table order, those of exactly the registered entries without a tick that were still for at least the limit of checks; what every entry becomes |
| Watchdog.CheckAll | network/watchdog.c:68-93 | when every registered entry is in the state its steps lead to, it is again after the check of the whole table, and its thread is among the killed if and only if the last of its checks kills it |
| TimeStamp.WriteSlot | network/vfs_time_stamp.c:154-172 | writing one slot of the byte file changes what it holds and nothing else |
| TimeStamp.KeepsLatest | network/vfs_time_stamp.c:174-188 | after any sequence of guarded sets each slot holds the latest of its initial value and all accepted times |
| TimeStamp.LatestIsOne | network/vfs_time_stamp.c:174-188 | that latest time is the initial value or one that was set for the slot, and none of them is later |
| TimeStamp.LowestFirst | network/vfs_time_stamp.c:154-172 | the first byte of a stored time is its lowest |
| TimeStamp.TimeStampFiles.CsSlotOnce | network/vfs_time_stamp.c:219-222 | two directory pairs and domains share a slot if and only if they agree, domains modulo the number of domains |
| TimeStamp.TimeStampFiles.SetFcsTimeStamp | network/vfs_time_stamp.c:174-188 | is a guarded set of the pair's slot |
| TimeStamp.TimeStampFiles.SetCsTimeStamp | network/vfs_time_stamp.c:252-297 | is a guarded set of the slot that takes effect only on line, and changes nothing for an unreadable name |

## Left out

- ShmBuffer.RoomComesWhen: says nothing more than RoomComesForRepeats of one to three overflow nodes behind five or more buckets; whether such an area always comes to have four nodes is open.
- ShmBuffer.TShmBuffer.Add: asks a table of fewer than five nodes to have room, since it would never return otherwise (RehashTiny).
- ShmBuffer.TShmBuffer.Realloc: models the call without arguments, the only one made; copying aside and attaching the new segment succeed.
- ShmBuffer.TShmBuffer.Find: keys are positive ints; 0 marks an empty node and a negative key would index outside the table.
- NmShm.NMSHM.constructor: asks for enough memory for the first two tables; failing to link them is not modelled.
- VfsSo.Conn.DoSend: like DoRecv and DoProcess it is stated for slots that were opened or closed before; they are reached only through events, which the kernel delivers for descriptors that add_fd_2_efd registered.
- VfsSo.Drive: one slot; the source indexes an array of slots by descriptor and touches only the slot of the event, and the kernel hands out a descriptor again only after it was closed.
- VfsSo.Conn.SendFile: the contents of local files do not change while they are sent, and a sendfile result of 0 is treated as an error.
- Watchdog.NoTickLost: starts at the registration of a thread; a thread that registers again between the watchdog's read and subtraction is not modelled.
- Shared-memory segments are private arrays, limited only by a largest size; sizes and totals are unbounded integers, and a process left with an old segment after a rehash, or a writer caught inside a call by the index flip, is not modelled.
- The string tables of TNmShm.cpp: the same code with another value type.
- TShmBuffer.Delete, Size, KeepAlive, the second Next and similar accessors: easy members.
- Locks, lock timeouts and memory exhaustion in vfs_timer.c and mybuff.c; timer callbacks do not call back into the pool.
- The clearing of the MD5 context at the end of MD5Final, which covers only the size of a pointer.
- send_len, peer addresses and time values are unbounded integers except where the text above says otherwise.
- Opening, sizing and dumping the time stamp files, parsing directory and domain names out of paths, and I/O errors there.
- Sockets, epoll, processes, plugins, configuration, logging, MySQL code, the DNS and HTTP tools, GeneralHashFunctions, lib/protocol.c and network/vfs_so_r.c, which is not built.
