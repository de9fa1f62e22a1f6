# A model of libevent 2.1.12 and of the Common containers

This project models, in Dafny, the parts of the repository whose correctness is not visible from any
single function, and proves what they promise.

- **The chained byte buffer** (`buffer.c`). `Chains` has the chains and buffers as objects with their
  storage as arrays, linked as in the source, and the written invariant of `last_with_datap`. The plain
  reference is a byte string. `EvbufferEnds`, `EvbufferMove`, `EvbufferPullup`, `EvbufferExpand` and
  `EvbufferReserve` are the operations that change a buffer; `EvbufferSearch` and `EvbufferLines` those
  that look for something in it; `EvbufferReference` those that share storage. `EvbufferRuns` puts the
  operations together into runs over two buffers. `ChainLifetimes` has the reference counts of chains and
  buffers. `BuffereventPair` is the bounded pipe of `bufferevent_pair.c`, built on the buffers.
- **The resolver** (`evdns.c`). `DnsNames` and `DnsLabels` are the name parser and the name compressor of
  section 4.1.4 of RFC 1035, and `DnsCompression` says what sharing names saves. `ResolverLists`, `ResolverMoves` and `Resolver` are the queues of requests,
  the nameservers and their counters. `GetAddrInfo` is the machine of two subrequests behind
  `evdns_getaddrinfo`.
- **The rate limiter** (`bufferevent_ratelim.c`). `TokenBucket` is the arithmetic of a bucket,
  `RateLimit` one bufferevent with its two buckets and one timer, `RateGroup` the protocol of the threads
  that use a group, and `RateGroupRuns` who is suspended and resumed in its runs.
- **The tagged format and the schema compiler** (`event_tagging.c`, `event_rpcgen.py`). `Tagging` and
  `TaggedData` are the wire format, `RpcSchema` the emitted code as functions over a schema,
  `RpcRoundTrip` what they promise together, `RpcCode` the emitted code as methods over a buffer.
- **The containers of `Common`**. `Primes` and `Hashtable` are the hash table with its marks for removed
  keys and its double hashing, `Heap` the heap in an array.

`Basics` has what several modules share. `dafny verify dfyconfig.toml` checks the project.

## How the model is built

An operation that changes state is a method on objects with fields or arrays, in the order of the source,
and its contract ties the new state to the old one. Where a definition is needed to say what a loop
computes, it is a function, and the lemmas are about that function. Threads and callbacks are state
machines over the steps that the others see as one. Integers are unbounded; where the width matters
(`size_t` lengths, 32-bit ticks and tags, 64-bit limits, 16-bit identifiers) it is written out.

`hide` statements keep definitions out of proofs that do not look into them; they have no other effect.

## What turned out not to hold

The model keeps the code as it is. Each of these is an exact condition in a contract.

- `evbuffer_reserve_space` for one vector can hand out an empty chain in the middle of the list that
  `evbuffer_commit_space` then rejects: exactly in the states of `EvbufferReserve.Strands`
  (`ReserveSpace`, `ReserveAndCommit`, and the buffer of `StrandedReservation`).
- `evbuffer_reserve_space` for no bytes in several vectors runs into an assertion of
  `evbuffer_read_setup_vecs_`: exactly in the states of `EvbufferExpand.FullEnd` (`ReserveNone`).
- `evbuffer_pullup` writes behind the data of a first chain that may not be written, when that chain has the
  room: exactly in the states of `EvbufferPullup.Intrudes` (`EvbufferReference.SharedPullup`). Another chain over
  the same storage can see it (`TwoPullups`).
- `evbuffer_strspn` leaves its pointer at the start of the last chain when the run goes on to the end of the
  buffer: the exact condition is in `EvbufferLines.Strspn`, with the buffer of `StrspnLeaves`.
- `evbuffer_add_buffer_reference` frees the chains of a destination that has chains but no data, and does
  not reset the list, so that the next insertion frees them again: exactly the outcome `FreedTwice` of
  `ChainLifetimes.World.AddBufferReference`, and `EvbufferReference.Dangles` (`ExpandedFreedTwice`,
  `ExpandedDangles`).
- `evbuffer_prepend` can fail after it has put a suffix of the bytes in front: exactly when they do not fit in
  the slack of the first chain, which is not nothing, and a chain for the rest cannot be allocated
  (`EvbufferEnds.Prepend`, and the buffer of `PrependPart`).
- `search_try_next` can leave its new request waiting although there is room, because the room is made
  after the request, and `request_submit` does not look for it: exactly when the limit was just met and
  nothing else waited (`Resolver.Base.SearchTryNext`, `SearchWaits`). With a limit of one, nothing is then
  inflight. A raised limit does not let waiting requests fly either (`SetMaxRequestsInflight`).
- A flush of a pair does not move everything when there is a high watermark that the input has not reached
  and that input and output together exceed: exactly when `BuffereventPair.Direction.Flushes` does not
  hold (`FlushLeaves`).
- `dnsname_to_labels` writes the final zero without a check of the length, so that it can lie one byte behind
  the limit: exactly for the names of `DnsLabels.TakesAll` (`DnsnameToLabels`, `PastWhen`, `OnePast`).
- `evdns_base_free` frees the base at once, and callbacks and timers of `evdns_getaddrinfo` that are still to
  come take its lock: never afterwards exactly when it is called in a state of
  `GetAddrInfo.State.SafeToFree` (`FreeingIsSafe`, `QueuedAnswerFaults`, `SkewTimerFaults`).
- Two inflight requests can get one identifier: `search_try_next` draws it before the old request is gone, and
  then a waiting request may draw the same. Exactly while a request waits that could fly
  (`Resolver.Base.Crowds`, `SearchTryNext`, `CrowdedSearch`).
- The update of a token bucket does not bring a bucket down to its maximum that a caller has raised above
  it by hand, and overflows when it was raised to the end of the range: `TokenBucket.Stays` and `Sinks`,
  with the numbers of `NotClamped`.
- A group can be resumed with an empty bucket exactly when its least share can be nothing
  (`RateGroup.EmptySuspends`, `EmptyUnsuspended`).
- `IsPrime` takes one for a prime. `GetPrime` returns its argument when there is no prime between it and
  the greatest index.
- The comment at the head of `event_tagging.c` (lines 80-93) gives the order of nibbles and of groups of
  seven bits the other way round; the model has the order of the code.

## Model

| member | source | states |
|---|---|---|
| `Chains.Evbuffer.constructor` | libevent-2.1.12-stable/buffer.c:388-402 | A new buffer is valid, empty, and unfrozen. |
| `EvbufferEnds.Add` | libevent-2.1.12-stable/buffer.c:1730-1824 | Appending gives old contents + d, or fails exactly when the end is frozen, the length would overflow, or no chain can be that large; chains, cached last_with_datap, last and total_len stay right in every filling, realigning and splitting case. |
| `EvbufferEnds.Prepend` | libevent-2.1.12-stable/buffer.c:1827-1910 | Prepending puts the last bytes of d in front: all of them, or, when the allocation of a chain fails or would be too large, exactly those that fit in the slack of the first chain; none when the front is frozen or the length would overflow. |
| `EvbufferEnds.PrependPart` | libevent-2.1.12-stable/buffer.c:1856-1893 | Ten bytes in front of 970 that have six bytes of slack, and no memory: the call fails and six bytes stay. |
| `EvbufferEnds.Drain` | libevent-2.1.12-stable/buffer.c:1101-1166 | Exactly the first min(n, length) bytes go; exactly the first chains are freed, once each, the others keep their references. |
| `EvbufferMove.AddBuffer` | libevent-2.1.12-stable/buffer.c:966-1009 | dst becomes dst + src and src becomes empty, without copying; or nothing changes, exactly when an end is frozen or both are the same buffer. |
| `EvbufferMove.PrependBuffer` | libevent-2.1.12-stable/buffer.c:1055-1098 | dst becomes src + dst and src becomes empty, with the same failures. |
| `EvbufferMove.RemoveBuffer` | libevent-2.1.12-stable/buffer.c:1260-1347 | With m = min(n, length of src), dst becomes dst + src[..m] and src becomes src[m..]: whole chains are relinked, the rest is copied, both buffers keep their invariant. |
| `EvbufferPullup.Pullup` | libevent-2.1.12-stable/buffer.c:1350-1461 | The contents stay; the first n bytes are contiguous in the first chain; the result is the old chains from stop on behind it; each chain that was absorbed has lost one reference and no other has; null exactly in the cases of the source; exactly when the first chain may not be written and has the room, the source writes into it all the same, and the model ends. |
| `EvbufferPullup.TwoPullups` | libevent-2.1.12-stable/buffer.c:1399-1407 | Two chains over one storage: what is pulled up behind the one is overwritten by what is pulled up behind the other. |
| `EvbufferReference.SharedPullup` | libevent-2.1.12-stable/buffer.c:1350-1461 | Two buffers added by reference to a third, and a pullup across them: it writes into the storage of the first. |
| `EvbufferExpand.ExpandFast` | libevent-2.1.12-stable/buffer.c:2051-2158 | The contents stay, and on success the first at most n free stretches have room for the bytes asked for. |
| `EvbufferExpand.ReadSetupVecs` | libevent-2.1.12-stable/buffer.c:2225-2260 | The vectors are the free space of successive chains from the first that has any, at most n of them, at least howmuch bytes in all and exactly that when asked to be exact. |
| `EvbufferReserve.ExpandSingle` | libevent-2.1.12-stable/buffer.c:1939-2046 | One chain with enough contiguous room, the contents unchanged; it is the last chain or the first with space unless the old state was stranded. |
| `EvbufferReserve.ReserveSpace` | libevent-2.1.12-stable/buffer.c:671-701 | Fails only where the source does; otherwise the stretches are disjoint free space of the buffer with the room asked for; a single stretch can be committed exactly when the state was not stranded; asked for no bytes in several stretches, the source's own assertion fails exactly when the buffer ends in a full chain. |
| `EvbufferReserve.ReserveNone` | libevent-2.1.12-stable/buffer.c:2225-2243 | A concrete buffer, with one full chain, for which that assertion fails. |
| `EvbufferReserve.CommitSpace` | libevent-2.1.12-stable/buffer.c:724-791 | Succeeds exactly when the vectors fit the buffer's free stretches; then precisely the bytes written into them are appended, in order, and nothing else changes. |
| `EvbufferReserve.StretchesApart` | libevent-2.1.12-stable/buffer.c:2225-2260 | Reserved stretches lie in storage of different chains, behind their data. |
| `EvbufferReserve.ReservedCommits` | libevent-2.1.12-stable/buffer.c:724-791 | Any shortened prefix of what ReadSetupVecs reserved can be committed. |
| `EvbufferReserve.ReserveAndCommit` | libevent-2.1.12-stable/buffer.c:671-791 | Reserving one stretch and giving it back in full fails exactly when the old state was stranded: the last chain with data has too little space, and the next one enough, without being the last. |
| `EvbufferReserve.StrandedReservation` | libevent-2.1.12-stable/buffer.c:1939-2046 | A buffer, made by adding bytes and by two reservations that are not used, in which one more reservation succeeds and its commit fails. |
| `EvbufferRuns.DoStep` | libevent-2.1.12-stable/buffer.c:966-1461 | One step of a run over two buffers changes their byte strings as the plain step does, and the buffer that is not named not at all. |
| `EvbufferRuns.Run` | libevent-2.1.12-stable/evbuffer-internal.h:82-101 | Over every run of add, prepend, drain, pullup, expand and of the three moves between two buffers, both buffers keep the chain invariant (total_len, last, last_with_datap, misalign + off within the storage) and hold what the same run gives on plain byte strings. |
| `EvbufferReference.AddReference` | libevent-2.1.12-stable/buffer.c:2921-2958 | The foreign storage is appended without being copied, and is never in the memory that the buffer writes. |
| `EvbufferReference.AddBufferReference` | libevent-2.1.12-stable/buffer.c:1012-1052 | outbuf gets the bytes of inbuf, whose contents stay: behind its own chains, but for empty ones at the end, comes one chain for each chain of inbuf with data, in order, that shows it; refused exactly when the end is frozen, the buffers are the same, or inbuf holds a multicast chain; every chain with data becomes immutable and has one reference more, the others have as many as before; exactly when outbuf has chains but no data, those are freed and stay in its list, and the model ends. |
| `EvbufferReference.ExpandedDangles` | libevent-2.1.12-stable/buffer.c:1040-1046 | A buffer that was expanded and has no data: its chain is freed and stays in the list. |
| `EvbufferReference.SourceWrites` | libevent-2.1.12-stable/buffer.c:908-945 | No append, prepend or drain on the source changes what a referencing buffer holds. |
| `EvbufferSearch.SetPtr` | libevent-2.1.12-stable/buffer.c:2623-2672 | Every position up to the length is found, with the chain it is in; positions beyond are rejected. |
| `EvbufferSearch.PtrMemcmp` | libevent-2.1.12-stable/buffer.c:2679-2712 | Zero exactly when the bytes occur at the position, across chain boundaries; otherwise the first byte that differs gives the sign, or -1 when there is no place for the bytes. |
| `EvbufferSearch.SearchRange` | libevent-2.1.12-stable/buffer.c:2721-2782 | The least position in the range at which the pattern occurs and ends by the limit, or none exactly when there is none. |
| `EvbufferLines.Strspn` | libevent-2.1.12-stable/buffer.c:1545-1581 | The length of the longest run of the given bytes, and where the pointer is left: it is still a position of the buffer exactly when a byte that is not of the set stands at it or behind, or the last chain is empty, or the pointer was at the end. |
| `EvbufferLines.StrspnLeaves` | libevent-2.1.12-stable/buffer.c:1571-1576 | A run to the end of a buffer of two bytes, after which the pointer is no position of the buffer. |
| `EvbufferLines.SearchEol` | libevent-2.1.12-stable/buffer.c:1597-1684 | The first end of line of the style and its length, or none exactly when there is none. |
| `EvbufferLines.CopyOut` | libevent-2.1.12-stable/buffer.c:1190-1254 | Copies exactly the bytes from the position on, as many as there are, and leaves the buffer alone. |
| `EvbufferLines.Remove` | libevent-2.1.12-stable/buffer.c:1170-1181 | CopyOut and drain together: what was copied is what is gone. |
| `EvbufferLines.Readln` | libevent-2.1.12-stable/buffer.c:1687-1723 | The old contents are line, terminator and rest; the line is returned with a zero behind it and the buffer keeps the rest; null exactly when the front is frozen or there is no line. |
| `EvbufferLines.LineSplits` | libevent-2.1.12-stable/buffer.c:1597-1723 | A found end of line splits the string into three parts, of which the second is a terminator of the style and the first contains none. |
| `EvbufferLines.NoLine` | libevent-2.1.12-stable/buffer.c:1597-1684 | No end of line is found exactly when no terminator of the style occurs. |
| `BuffereventPair.Direction.constructor` | libevent-2.1.12-stable/bufferevent_pair.c:115-150 | A new direction is valid, with nothing written or consumed. |
| `BuffereventPair.Direction.Transfer` | libevent-2.1.12-stable/bufferevent_pair.c:153-192 | After a transfer nothing more is wanted; exactly as many bytes have passed as fit below the watermark, or all of them without a watermark; bytes consumed, then input, then output still spell what was written. |
| `BuffereventPair.Direction.Write` | libevent-2.1.12-stable/bufferevent_pair.c:205-222 | The bytes go to the end of the output, and from there exactly what fits goes on to the input if both sides are open; the FIFO equation and the watermark suspension are kept, and no data waits without a reason. |
| `BuffereventPair.Direction.Read` | libevent-2.1.12-stable/bufferevent.c:136-149 | Reading takes exactly the next bytes, and what this makes possible is transferred at once. |
| `BuffereventPair.Direction.EnableRead` | libevent-2.1.12-stable/bufferevent_pair.c:225-250 | Enabling transfers what was waiting, within the watermark. |
| `BuffereventPair.Direction.Unsuspend` | libevent-2.1.12-stable/bufferevent.c:78-108 | The reason is gone and no other, except that the watermark may suspend anew; what was waiting is transferred exactly when nothing else keeps it, within the watermark. |
| `BuffereventPair.Direction.SetWatermark` | libevent-2.1.12-stable/bufferevent.c:594-638 | A new watermark suspends or resumes reading exactly as the input length says. |
| `BuffereventPair.Direction.Flush` | libevent-2.1.12-stable/bufferevent_pair.c:305-337 | What fits below the watermark moves, or everything when there is none or it has been reached, in order; the output is empty afterwards exactly when it was, or the mode is not normal and everything fits or the watermark does not count. |
| `BuffereventPair.FlushLeaves` | libevent-2.1.12-stable/bufferevent_pair.c:162-166 | With a watermark of 10, 4 bytes in the input and 20 in the output, a flush leaves 14 in the output. |
| `BuffereventPair.Run` | libevent-2.1.12-stable/bufferevent_pair.c:152-337 | Over every run of writes, reads, enablings, suspensions, watermarks and flushes the direction is what the plain pipe is; bytes consumed, then input, then output spell what was written; data waits only while something keeps it; reading is suspended for the watermark exactly while the input has reached it, and without a flush, while watermarks only rise, the input never passes it. |
| `ChainLifetimes.World.ChainFree` | libevent-2.1.12-stable/buffer.c:196-253 | Dropping a reference keeps every count equal to the references there are, and frees exactly what has none left, through parents and source buffers. |
| `ChainLifetimes.World.FreeBuf` | libevent-2.1.12-stable/buffer.c:561-585 | Giving up a buffer frees only what nobody refers to; everything else keeps its data and its list. |
| `ChainLifetimes.World.AddBufferReference` | libevent-2.1.12-stable/buffer.c:1012-1052 | Exactly when it is refused, when it would free chains twice, and otherwise: dst loses only trailing empty chains and gets one chain for each chain of src with data, in order, that shows it. |
| `ChainLifetimes.ExpandedFreedTwice` | libevent-2.1.12-stable/buffer.c:1040-1046 | A destination with one empty chain, a source with data: the chain is freed twice. |
| `ChainLifetimes.World.AddBuffer` | libevent-2.1.12-stable/buffer.c:966-1009 | Refused exactly when an end is frozen; otherwise the chains of src are behind those of dst, without its trailing empty ones, and all counts stay right. |
| `ChainLifetimes.World.PrependBuffer` | libevent-2.1.12-stable/buffer.c:1055-1098 | The same in front; chains of a dst without data go. |
| `ChainLifetimes.World.MoveChains` | libevent-2.1.12-stable/buffer.c:1286-1325 | The first chains of a buffer move to another one with their references, also those that multicast chains show. |
| `ChainLifetimes.AliveIffReferenced` | libevent-2.1.12-stable/buffer.c:196-253 | A chain is alive exactly while a list holds it or a multicast chain shows it. |
| `ChainLifetimes.SourceOutlives` | libevent-2.1.12-stable/buffer.c:230-253 | A buffer is alive exactly while its user holds it or a multicast chain names it as the source of its parent. |
| `ChainLifetimes.Do` | libevent-2.1.12-stable/buffer.c:561-1347 | Each event of a run, if it names what is there: a buffer is made empty and held, is given up with only what nobody refers to freed, loses its first chains or some of its first bytes, gets a new chain at its end, or gets all or the first chains of another one, which loses them; a reference leaves its source alone, and frees chains twice in exactly the states given before. Otherwise nothing happens. |
| `ChainLifetimes.Run` | libevent-2.1.12-stable/buffer.c:561-1347 | Both equivalences, for every chain and buffer, over every run of the users, moves of chains between buffers included. |
| `DnsNames.NameParse` | libevent-2.1.12-stable/evdns.c:977-1030 | Halts on every packet, reads inside it, writes at most name_out_len bytes with the terminator, and yields exactly the labels and the end index that the recursive definition gives, or fails exactly when that does or the name is too long. |
| `DnsLabels.DnsnameToLabels` | libevent-2.1.12-stable/evdns.c:1615-1678 | Writes exactly the encoding that the recursive definition gives, with the table of suffixes seen so far, or returns its error; the final zero goes behind the buffer exactly when the limit is the length of the buffer and the name, written in full, takes all of it: no suffix in the table, labels of at most 63 bytes, length and one byte up to the limit, and neither a dot nor a zero at its end. Which bytes these are is stated without that definition in `DnsCompression.Compressed` and `Uncompressed`. |
| `DnsLabels.EmitFits` | libevent-2.1.12-stable/evdns.c:1615-1678 | A valid name is never refused for room when its length and one byte fit. |
| `DnsLabels.PastWhen` | libevent-2.1.12-stable/evdns.c:1615-1678 | The encoding goes one byte beyond the limit exactly under that condition on the name, the place and the table. |
| `DnsLabels.OnePast` | libevent-2.1.12-stable/evdns.c:1669-1674 | A name of one byte in a buffer of two: the final zero goes behind the buffer. |
| `DnsLabels.EmitSpells` | libevent-2.1.12-stable/evdns.c:1615-1678 | The encoding of a valid name spells it, with pointers that go strictly backwards, and every table entry still spells its suffix. |
| `DnsLabels.ParseSpelled` | libevent-2.1.12-stable/evdns.c:977-1030 | What is spelled with strictly backward pointers is parsed as those labels, and the jump limit is never met. |
| `DnsLabels.PacketReadBack` | libevent-2.1.12-stable/evdns.c:1936-1945 | For any sequence of names and other data written with one table, parsing at the start of any of the names returns that name and the index behind its encoding. |
| `DnsCompression.Compressed` | libevent-2.1.12-stable/evdns.c:1615-1678 | When the name, or what stands behind one of its dots, is in the table: what is in front of the longest such suffix is written in full, byte by byte, and two bytes that point to its place stand for it; exactly when there is room for that and no label in front is longer than 63 bytes. Otherwise the error, -1 exactly when such a label comes before the room runs out. |
| `DnsCompression.Uncompressed` | libevent-2.1.12-stable/evdns.c:1615-1678 | When nothing of it is in the table, or there is none: the name is written in full with its zero, exactly when there is room for it without the zero and its labels are short enough; the errors as before. |
| `DnsCompression.Kept` | libevent-2.1.12-stable/evdns.c:1573-1600 | What is in the table stays there; what is new is the name or what stands behind one of its dots, at the place where it is written; the table never has more than 128 names. |
| `DnsCompression.Remembered` | libevent-2.1.12-stable/evdns.c:1586-1646 | While there is room for all its labels in the table of 128, a name that is written leaves itself and all that stands behind its dots in it. |
| `DnsCompression.WrittenAgain` | libevent-2.1.12-stable/evdns.c:1615-1646 | Such a name, or what stands behind one of its dots, written again at any place, is two bytes that point to where it stands, and leaves the table alone. |
| `DnsCompression.PacketShares` | libevent-2.1.12-stable/evdns.c:1936-1945 | In any packet with at most 128 labels, a name takes two bytes if an earlier name is it or ends in it behind a dot. |
| `DnsCompression.TwiceA` | libevent-2.1.12-stable/evdns.c:1615-1678 | The name "a" written at 12 and at 15: 1, 97, 0 and then 192, 12. |
| `GetAddrInfo.Request.constructor` | libevent-2.1.12-stable/evdns.c:4701-4830 | A launched request satisfies the invariant. |
| `GetAddrInfo.Request.Reply` | libevent-2.1.12-stable/evdns.c:834-868 | A result is queued for its callback. |
| `GetAddrInfo.Request.ShutDown` | libevent-2.1.12-stable/evdns.c:4102-4160 | Everything at work fails with the shutdown, and the base is gone. |
| `GetAddrInfo.Request.Cancel` | libevent-2.1.12-stable/evdns.c:4833-4847 | Nothing happens when the request is done; otherwise the timer is off and all that is at work is canceled. |
| `GetAddrInfo.Request.Timeout` | libevent-2.1.12-stable/evdns.c:4392-4441 | While the base is there: the user gets what there is, or the error that the last result stands for, exactly once; exactly one subrequest is at work, as the source asserts, and is canceled. |
| `GetAddrInfo.Request.BeginCallback` | libevent-2.1.12-stable/evdns.c:4488-4504 | The part under the lock of the base, which a shutdown does not take: what was sampled of the cancellation, and whether the other subrequest is done; nothing else changes. |
| `GetAddrInfo.Request.FinishCallback` | libevent-2.1.12-stable/evdns.c:4504-4640 | The subrequest is done, and its result is the last one reported; the skew timer runs when the other one is still at work and the user waits. |
| `GetAddrInfo.Told` | libevent-2.1.12-stable/evdns.c:4529-4640 | What the last subrequest has for the user is all that was reported, in the order A then AAAA; or the cancellation; or what the last result stands for: that there is no such name exactly after NXDOMAIN, that there is no data exactly after an empty answer, and a failure otherwise. |
| `GetAddrInfo.NoSuchName` | libevent-2.1.12-stable/evdns.c:4340-4360 | One subrequest, answered with NXDOMAIN: the user is told that there is no such name. |
| `GetAddrInfo.OverLast` | libevent-2.1.12-stable/evdns.c:4529-4640 | Telling the user and freeing the request restores the invariant. |
| `GetAddrInfo.NeverStuck` | libevent-2.1.12-stable/evdns.c:4392-4640 | Until the request is freed, something can still happen to it. |
| `GetAddrInfo.FreeingIsSafe` | libevent-2.1.12-stable/evdns.c:4102-4160 | After evdns_base_free no later step uses the base exactly when, at the call, no result waits for its callback, the skew timer is not to run, and the callback under way will not set it. |
| `GetAddrInfo.QueuedAnswerFaults` | libevent-2.1.12-stable/evdns.c:4488-4499 | An answer is queued, the base is freed, and the callback of the answer takes its lock. |
| `GetAddrInfo.SkewTimerFaults` | libevent-2.1.12-stable/evdns.c:4392-4413 | The skew timer runs, the base is freed, and the timer takes its lock. |
| `GetAddrInfo.SafelyFaultless` | libevent-2.1.12-stable/evdns.c:4102-4160 | A run that frees the base only when that is safe never uses it afterwards. |
| `GetAddrInfo.Run` | libevent-2.1.12-stable/evdns.c:4392-4847 | The state after any interleaving of answers, the end of the base, skew timeout, user cancel and the two halves of each callback, up to the first use of a freed base: the user is called at most once, with all addresses if there are any, with the cancellation only after canceling, and otherwise told that there is no such name exactly when the last result was NXDOMAIN, that there is no data exactly when it was an empty answer, and a failure else; the request is freed once, exactly when both subrequests have reported, and the user has been called by then; there is no such use when the base is freed only when that is safe. |
| `Resolver.Base.NameserverPick` | libevent-2.1.12-stable/evdns.c:1350-1382 | The first server in the circle that is up, or the next one if none is; the branch in which the walk comes round does not occur. |
| `Resolver.Base.SwapNs` | libevent-2.1.12-stable/evdns.c:549-557 | The request changes its server and both counters follow; the asserted counter is positive. |
| `Resolver.Base.NameserverFailed` | libevent-2.1.12-stable/evdns.c:562-619 | The server is down and counted so; requests that were never sent move off it, to servers that are up, whenever there is one, and nothing else changes; if it was down already, nothing does. |
| `Resolver.Base.NameserverUp` | libevent-2.1.12-stable/evdns.c:622-640 | The server is up and counted once, with no timeouts; an outstanding probe is forgotten, and canceled with one reply; if the server was up already nothing changes. |
| `Resolver.Base.Transmit` | libevent-2.1.12-stable/evdns.c:2254-2303 | A packet that goes out counts, and so does one whose server fails, which is then down, with its unsent requests moved; one for a socket that takes no more is marked to be sent, and the server is choked. Nothing else changes. |
| `Resolver.Base.TransmitAll` | libevent-2.1.12-stable/evdns.c:2361-2383 | If no server fails meanwhile, every inflight request that still has to go out afterwards is on a server whose socket takes no more. |
| `Resolver.Base.FindFromTransId` | libevent-2.1.12-stable/evdns.c:473-487 | Searching one list finds an inflight request with the identifier exactly when there is one. |
| `Resolver.Base.TransactionIdPick` | libevent-2.1.12-stable/evdns.c:1333-1344 | The identifier is free and is not 0xffff. |
| `Resolver.Base.Submit` | libevent-2.1.12-stable/evdns.c:2858-2875 | A request with a server flies, and has been sent or is marked to be sent; one without waits at the end of the list. |
| `Resolver.Base.Resolve` | libevent-2.1.12-stable/evdns.c:2781-2875 | A new handle is owed exactly one reply; if no request waited that could fly, then none does; identifiers stay unique. |
| `Resolver.Base.Pump` | libevent-2.1.12-stable/evdns.c:747-774 | Waiting requests fly in their order, with fresh identifiers, until there is no room; then none waits that could fly; all that can go out does, as after `TransmitAll`. |
| `Resolver.Base.Finish` | libevent-2.1.12-stable/evdns.c:653-710 | The request is gone from its list and all counters, and the room is used. |
| `Resolver.Base.CancelRequest` | libevent-2.1.12-stable/evdns.c:2879-2911 | A live request without a scheduled reply gets one and is finished; otherwise nothing happens. |
| `Resolver.Base.RequestReissue` | libevent-2.1.12-stable/evdns.c:719-739 | Reissued exactly when another server was picked. |
| `Resolver.Base.RequestTimeout` | libevent-2.1.12-stable/evdns.c:2177-2212 | After the maximum of transmissions the request is given up with one reply, and its server is down. Before, it is kept and given to the server that is picked: one transmission more, or marked to be sent; that server has one timeout more, or is down with none when there were too many; every other server stays as it is. If the packet breaks the server, that is down too, and a request that was never sent moves to another one, whose timeout it is then. |
| `Resolver.Base.TimeOutOften` | libevent-2.1.12-stable/evdns.c:2177-2303 | However often the timer of a request runs: with more timeouts than the maximum and the packets that had to wait, the request is gone and its user has exactly one reply more; as long as it is there, the transmissions are those counted at the start and one for each packet that went out. |
| `Resolver.Base.SearchTryNext` | libevent-2.1.12-stable/evdns.c:3290-3330 | The handle gets a new request, never sent before or sent once, with another identifier, that flies exactly when the limit had room; if nothing waited that could fly before, then the new request waits with room exactly when the limit was just met and nothing else waited, and identifiers stay unique; if something did, and the same free identifier is drawn twice, then two requests have it. |
| `Resolver.SearchWaits` | libevent-2.1.12-stable/evdns.c:3290-3330 | With a limit of one and nothing else waiting, the next request of a search waits although there is room. |
| `Resolver.CrowdedSearch` | libevent-2.1.12-stable/evdns.c:3290-3330 | One request flies and one waits, the limit is raised, and the search of the first goes on: both have one identifier. |
| `Resolver.Base.ReplyHandle` | libevent-2.1.12-stable/evdns.c:885-974 | Each verdict leads to one scheduled reply, or to a request that is still owed one. After an answer or a final error the server is up, unless a request that waited was sent then; after a refusal it is down as long as the request may be reissued, and the request goes to another server, not sent yet, whenever one is up; a server failure counts as a timeout. |
| `Resolver.Base.SendProbe` | libevent-2.1.12-stable/evdns.c:2332-2356 | A probe flies on its server whatever the limit, sent or marked to be sent. |
| `Resolver.Base.ProbeCallback` | libevent-2.1.12-stable/evdns.c:2306-2329 | A good probe brings the server up; a bad one only ends, and a canceled one changes nothing; what users are owed stays. |
| `Resolver.Base.SetMaxRequestsInflight` | libevent-2.1.12-stable/evdns.c:3426-3454 | Every inflight request is filed anew in (max+4)/5 lists, and none is lost; what waits goes on waiting, also when there is room for it now. |
| `Resolver.Base.AddServer` | libevent-2.1.12-stable/evdns.c:2502-2598 | The new server is in the circle behind the head, up, counted, with nothing assigned. |
| `Resolver.Base.WriteReady` | libevent-2.1.12-stable/evdns.c:1508-1527 | The server takes packets again: if no server fails meanwhile, whatever still has to go out afterwards is on a choked server, and this one is choked again only if a packet for it has to wait. |
| `Resolver.Base.Counters` | libevent-2.1.12-stable/evdns.c:305-332 | The counters equal the lengths of the lists, each server's counter the requests assigned to it, and the good servers those that are up. |
| `Resolver.Base.Step` | libevent-2.1.12-stable/evdns.c:549-2911 | Each event keeps what holds over runs, and does something to the request or the server that it names: an answer or a final error ends the request, the next name of a search renews it, a refusal takes the server down, a timeout counts or ends the request, a cancellation ends it, a good probe brings the server up, a writable socket takes what there is. |
| `Resolver.Run` | libevent-2.1.12-stable/evdns.c:549-2911 | All of this after every run of events, which determine the limit and the servers; each user's handle has one reply scheduled or one live request, never both and never two; every inflight request has been sent or is marked to be sent; identifiers of inflight requests differ unless a search went on while another request waited that could fly. |
| `ResolverLists.LengthsAdd` | libevent-2.1.12-stable/evdns.c:305-332 | The lengths of all lists of inflight requests add up to their number. |
| `ResolverLists.Pigeons` | libevent-2.1.12-stable/evdns.c:1333-1344 | Fewer than 65535 inflight requests leave an identifier free. |
| `ResolverMoves.NotRound` | libevent-2.1.12-stable/evdns.c:1366-1381 | While one server is up the walk over the circle does not come round. |
| `TokenBucket.Refill` | libevent-2.1.12-stable/bufferevent_ratelim.c:74-111 | The division-based update equals min(maximum, limit + n * rate) exactly when the bucket is not above its maximum by more than the wrapped difference allows; otherwise it is the plain sum, with the wrap of 64 bits. |
| `TokenBucket.ElapsedWraps` | libevent-2.1.12-stable/bufferevent_ratelim.c:79-86 | For ticks that lie d apart, across any wrap at 32 bits, d ticks count, or none when d stands for time that has gone back. |
| `TokenBucket.ToppedUp` | libevent-2.1.12-stable/bufferevent_ratelim.c:88-107 | An update empties a positive bucket exactly in the overflow case. |
| `TokenBucket.NotClamped` | libevent-2.1.12-stable/bufferevent_ratelim.c:98-107 | Concrete buckets that stay above their maximum, and that overflow. |
| `RateLimit.Bufferevent.DecrementBuckets` | libevent-2.1.12-stable/bufferevent_ratelim.c:273-346 | The direction is suspended for bandwidth exactly when its bucket is empty; the shared timer is started then, and stopped exactly when the direction is resumed and the other one does not need it. |
| `RateLimit.Bufferevent.DecrementLimit` | libevent-2.1.12-stable/bufferevent_ratelim.c:969-1022 | The same for the public decrement, also with negative numbers, which acts only on a change of sign. |
| `RateLimit.Bufferevent.UpdateBuckets` | libevent-2.1.12-stable/bufferevent_ratelim.c:114-124 | Both buckets are refilled by the elapsed ticks; the invariant holds afterwards exactly when no served direction overflows. |
| `RateLimit.Bufferevent.GetMax` | libevent-2.1.12-stable/bufferevent_ratelim.c:198-258 | What may be moved now: no more than the refilled bucket or the single limit, and never less than zero; nothing while the group is suspended, which suspends the direction; otherwise in a group, with most allowed by the bufferevent itself: the smaller of most and the least share, if the bucket of the group does not hold a least share for each member, and if it does, the greatest number, up to most, of which it holds one for each member. |
| `RateLimit.Bufferevent.RefillCallback` | libevent-2.1.12-stable/bufferevent_ratelim.c:394-439 | A direction stays suspended for bandwidth exactly when its bucket is still empty, other reasons stay, and the timer runs again exactly then. |
| `RateLimit.Bufferevent.SetRateLimit` | libevent-2.1.12-stable/bufferevent_ratelim.c:560-635 | A new configuration starts or clips the buckets; the timer is never assigned while it is pending, and runs afterwards exactly when a bucket is empty; none takes every bandwidth suspension away, and the timer. |
| `RateLimit.ElapsedSince` | libevent-2.1.12-stable/bufferevent_ratelim.c:79-86 | Once a bucket has been looked at, it never counts more ticks than pass, across any wrap. |
| `RateLimit.Perform` | libevent-2.1.12-stable/bufferevent_ratelim.c:198-439 | One act of a run: a demand moves as many bytes as are wanted and the fair share of the refilled bucket lets through, and those leave the bucket; a charge takes what it says; nothing else moves bytes. |
| `RateLimit.Transfer` | libevent-2.1.12-stable/bufferevent_ratelim.c:198-439 | Over any time and any run of demands in both directions, looks, charges, refills, suspensions and enablings, each direction moves at most maximum + rate * ticks bytes. |
| `RateLimit.Handle` | libevent-2.1.12-stable/bufferevent_ratelim.c:273-439 | Every event keeps the invariant, except exactly those updates in which a limit overflows that was raised by hand; limits, reasons and what the user wants change as the event says. |
| `RateLimit.Run` | libevent-2.1.12-stable/bufferevent_ratelim.c:50-1022 | After every run of events, up to the first overflow: the configuration, what the user wants, and the reasons for suspension other than the bucket are those of the events; a bandwidth suspension implies the timer is pending, an empty bucket implies the suspension, and a direction is served exactly when it is enabled and nothing suspends it. |
| `RateLimit.SuspendServes` | libevent-2.1.12-stable/bufferevent.c:67-108 | Suspending and unsuspending keep a direction served exactly when it is wanted and unsuspended. |
| `RateGroup.NextSound` | libevent-2.1.12-stable/bufferevent_ratelim.c:349-735 | Every step of every thread keeps the invariant of the group protocol, changes of the configuration and of the least share included. |
| `RateGroup.NoLostWakeUp` | libevent-2.1.12-stable/bufferevent_ratelim.c:488-557 | In every interleaving, with failed try-locks and members that join during a walk: a member with the group bit has the group suspended, a wake-up pending, or a walk under way that has not come to it or will be repeated. |
| `RateGroup.EmptySuspends` | libevent-2.1.12-stable/bufferevent_ratelim.c:349-557 | While a least share of at least one byte is asked for, an empty group bucket keeps the group suspended, whatever the configuration changes to. |
| `RateGroup.EmptyUnsuspended` | libevent-2.1.12-stable/bufferevent_ratelim.c:529-557 | With a share of zero the refill ends the suspension of a bucket at zero: four steps that do so. |
| `RateGroup.AllAwake` | libevent-2.1.12-stable/bufferevent_ratelim.c:488-504 | A waking walk that gets every lock leaves no member suspended. |
| `RateGroupRuns.RefillResumes` | libevent-2.1.12-stable/bufferevent_ratelim.c:488-557 | A refill that comes to a suspended direction with at least the least share in the bucket, or with a wake-up pending: whatever the other threads do during its walk, the suspension is over, the wake-up is pending again exactly if a lock could not be had, and if every lock was had no member is suspended for the group. |
| `RateGroupRuns.RefillSpares` | libevent-2.1.12-stable/bufferevent_ratelim.c:529-557 | A direction that is neither stays as it is. |
| `RateGroupRuns.Resumes` | libevent-2.1.12-stable/bufferevent_ratelim.c:529-557 | In every interleaving in which nobody takes bytes and each tick adds at least one: once there have been as many ticks as there are bytes missing to the least share, and no refill is under way, the group is not suspended. |
| `RateGroupRuns.SpendDecides` | libevent-2.1.12-stable/bufferevent_ratelim.c:293-306 | A member that spends leaves the group suspended exactly if the bucket is empty then, and all members are to be visited when there is something to do. |
| `RateGroupRuns.AdjustDecides` | libevent-2.1.12-stable/bufferevent_ratelim.c:1024-1063 | From outside, the group is suspended or resumed exactly when the bucket changes its sign. |
| `RateGroupRuns.SuspendsAll` | libevent-2.1.12-stable/bufferevent_ratelim.c:349-371 | After that, a walk that gets every lock leaves every member suspended, whatever the other threads do meanwhile. |
| `RateGroupRuns.LookMarks` | libevent-2.1.12-stable/bufferevent_ratelim.c:228-245 | A member that looks at its limit is suspended exactly if it was or the group is. |
| `RateGroupRuns.JoinSuspends` | libevent-2.1.12-stable/bufferevent_ratelim.c:734-783 | Whoever joins a suspended group is suspended once it has joined, whatever the others do meanwhile. |
| `RateGroupRuns.ShareInRuns` | libevent-2.1.12-stable/bufferevent_ratelim.c:671-731 | In every run the least share is the one that was asked for, or the smaller rate if that is less; a new configuration takes from a bucket only what is above its maximum. |
| `RateGroupRuns.MemberSuspended` | libevent-2.1.12-stable/bufferevent_ratelim.c:273-371 | A member joins, takes the whole bucket, and is suspended with the group. |
| `RateGroup.ForeachRandomOrder` | libevent-2.1.12-stable/bufferevent_ratelim.c:474-486 | The two loops of the walk visit every member once, whatever was drawn. |
| `Tagging.EncodeInt` | libevent-2.1.12-stable/event_tagging.c:121-154 | The nibble loop writes exactly the bytes of the definition: count less one, then nibbles from the lowest up. |
| `Tagging.IntLengthIs` | libevent-2.1.12-stable/event_tagging.c:121-154 | A number takes k bytes or less exactly if it has at most 2k - 1 nibbles. |
| `Tagging.DecodeIntLoop` | libevent-2.1.12-stable/event_tagging.c:319-377 | The decoding loop gives the number of the definition or fails exactly when it does; no bit is lost to the width. |
| `Tagging.IntReadBack` | libevent-2.1.12-stable/event_tagging.c:121-377 | Every number within the width is read back, with its length, whatever follows. |
| `Tagging.EncodeTag` | libevent-2.1.12-stable/event_tagging.c:178-198 | The tag loop writes exactly the groups of seven bits, lowest first. |
| `Tagging.TagLength` | libevent-2.1.12-stable/event_tagging.c:178-198 | A tag takes k bytes or less exactly if it is below 128 to the power of k. |
| `Tagging.DecodeTagLoop` | libevent-2.1.12-stable/event_tagging.c:201-246 | The tag loop accepts at most five groups and 32 bits, and gives the value of the definition. |
| `Tagging.TagReadBack` | libevent-2.1.12-stable/event_tagging.c:178-246 | Every tag of 32 bits is read back, at any place. |
| `TaggedData.BlockBack` | libevent-2.1.12-stable/event_tagging.c:261-484 | A block is read back with its tag and payload, and what follows is untouched. |
| `TaggedData.IntBlockBack` | libevent-2.1.12-stable/event_tagging.c:281-540 | The same for an integer block. |
| `TaggedData.IntBlockRead` | libevent-2.1.12-stable/event_tagging.c:489-540 | Any block with the tag gives a number exactly if one can be read where the payload starts and is no longer than the payload; the payload is consumed. |
| `TaggedData.OtherTagRefused` | libevent-2.1.12-stable/event_tagging.c:489-581 | Who asks for another tag, or for a fixed payload of another size, does not get the block. |
| `TaggedData.TruncatedRefused` | libevent-2.1.12-stable/event_tagging.c:441-486 | A block that is cut off anywhere is refused. |
| `TaggedData.Stream.UnmarshalInt` | libevent-2.1.12-stable/event_tagging.c:489-540 | Draining the buffer step by step gives what the definition reads. |
| `TaggedData.Stream.UnmarshalString` | libevent-2.1.12-stable/event_tagging.c:562-581 | The string of C is the payload up to its first zero. |
| `RpcCode.Struct.AddEntry` | libevent-2.1.12-stable/event_rpcgen.py:72-81 | An entry is refused exactly when its tag is in use; tags stay distinct. |
| `RpcSchema.ReadValue` | libevent-2.1.12-stable/event_rpcgen.py:655-669 | Each decoding step strictly shortens the input. |
| `RpcRoundTrip.ValueBack` | libevent-2.1.12-stable/event_rpcgen.py:731-748 | A value of any kind, nested structures included, is read back and the rest is untouched. |
| `RpcRoundTrip.LoopBack` | libevent-2.1.12-stable/event_rpcgen.py:279-325 | From any member on, the loop reads what was written: arrays element by element, optional members only when set. |
| `RpcRoundTrip.UnmarshalBack` | libevent-2.1.12-stable/event_rpcgen.py:249-376 | For every schema with distinct tags and every complete message with payloads within INT_MAX, unmarshal of marshal is the message, and all bytes are consumed. |
| `RpcRoundTrip.TwiceRefused` | libevent-2.1.12-stable/event_rpcgen.py:279-325 | Two values for a member that is no array are refused, whatever was read before and follows. |
| `RpcRoundTrip.UnknownRefused` | libevent-2.1.12-stable/event_rpcgen.py:279-325 | A value with a tag that no member has is refused. |
| `RpcRoundTrip.ReadStays` | libevent-2.1.12-stable/event_rpcgen.py:279-325 | What has been read stays to the end: single values unchanged, arrays only longer. |
| `RpcRoundTrip.UnmarshalTyped` | libevent-2.1.12-stable/event_rpcgen.py:279-361 | Whatever the bytes, what unmarshal accepts is a complete message of the schema. |
| `RpcCode.Marshal` | libevent-2.1.12-stable/event_rpcgen.py:249-276 | The emitted marshal code appends exactly the bytes of the definition. |
| `RpcCode.UnmarshalMessage` | libevent-2.1.12-stable/event_rpcgen.py:279-361 | The emitted unmarshal code returns what the definition reads, and on success has consumed everything. |
| `RpcCode.RoundTrip` | libevent-2.1.12-stable/event_rpcgen.py:249-423 | Writing a complete message to a buffer and reading it back gives the message. |
| `Primes.IsPrime` | Common/Hashtable.cpp:117-129 | True exactly for the primes and for one. |
| `Primes.GetPrime` | Common/Hashtable.cpp:72-106 | In the range of the table the least listed number not below the argument, and that is a prime; above it the least prime, or the number itself when there is none below the greatest index. |
| `Primes.TablePrime` | Common/Hashtable.cpp:72-106 | Every listed number is prime. |
| `Primes.NotDivided` | Common/Hashtable.cpp:108-115 | A prime does not divide the product of two smaller numbers. |
| `Primes.VisitsAll` | Common/Hashtable.cpp:12-27 | With a prime number of slots the probes for any key visit every slot. |
| `Hashtable.Table.Find` | Common/Hashtable.cpp:29-50 | Finds the slot of a key exactly when the table holds it; marks of removed keys hide nothing. |
| `Hashtable.Table.PrepareAddIndex` | Common/Hashtable.cpp:12-27 | The first slot on the path of the key that is not in use, or none when all are. |
| `Hashtable.Table.Add` | Common/Hashtable.cpp:12-27 | A fresh key is stored; with a prime number of slots it is turned away only by a full table. |
| `Hashtable.Table.Remove` | Common/Hashtable.cpp:52-61 | Exactly this key goes. |
| `Hashtable.Table.Cleanup` | Common/Hashtable.cpp:63-70 | The table is empty. |
| `Hashtable.SetUp` | Common/Hashtable.cpp:72-106 | A table that is set up for a number of keys in the range of the list has a prime number of slots, and room for them. |
| `Hashtable.FullSize` | Common/Hashtable.cpp:12-61 | A table is full exactly when it holds as many keys as it has slots. |
| `Hashtable.Run` | Common/Hashtable.cpp:12-61 | Over every run of adds and removes the table holds exactly what the same operations leave in a map with room for as many keys as there are slots. |
| `Heap.Queue.Push` | Common/Heap.h:113-126 | The item is added and the heap order kept, or the heap is full and nothing changes. |
| `Heap.Queue.Pop` | Common/Heap.h:129-150 | Exactly the root goes and the heap order is kept. |
| `Heap.Queue.Build` | Common/Heap.h:153-181 | The heap holds the given items in heap order, or refuses them for size. |
| `Heap.RootGreatest` | Common/Heap.h:72-78 | The root is the greatest item. |
| `Heap.Sort` | Common/Heap.h:113-181 | Items come out in descending order, each as often as it went in. |

## Left out

- Socket, file, sendfile, mmap and IOCP reads and writes, and pinned chains: their behaviour is outside the
  repository; sending a packet is a free choice between its outcomes.
- Evbuffer callbacks and their counters (`n_add_for_cb`, `n_del_for_cb`), except the watermark callback of
  the pair: callbacks do not re-enter.
- Failing allocations, except in `evbuffer_prepend` and where a size is too large to be allocated at all.
- Locks as primitives: what is done under a lock is one step; who holds which lock is modelled in `RateGroup` only.
- `evbuffer_peek`, `evbuffer_add_vprintf`, `evbuffer_freeze` as calls of their own, and evbuffer defer queues.
- EvbufferMove.RemoveBuffer: asks that both buffers together are no longer than `SIZE_MAX`, because the source ignores the result of `evbuffer_add` here.
- EvbufferPullup.Pullup: what other buffers hold after a write into shared storage is not followed further than `TwoPullups`.
- EvbufferReference.AddBufferReference: chains of this module do not name their parents; what becomes of parents and source buffers is in `ChainLifetimes`, whose chains have a length but no bytes. Both say in the same words which chains the destination gets.
- EvbufferReserve.CommitSpace: the vectors are given as arrays with offsets; a pointer outside every chain is an array that is not in the buffer.
- DnsLabels.PacketReadBack: for offsets below 2^14, as the source's own comment on its pointers assumes.
- DNS messages as a whole (`reply_parse`, the server side), configuration files, hosts files, suspending and clearing nameservers.
- GetAddrInfo.Run: the loop may take deferred callbacks in any order; an address stands for all the `addrinfo` entries made of it; the canonical name and the counters of answers are not modelled; the base is freed with `fail_requests`, and the user does not cancel after that.
- Resolver.Base.TransactionIdPick: of the random draws the first is a parameter, and the others are one choice of a free identifier; fewer than 65535 inflight requests are asked for, since the source draws forever otherwise.
- Resolver.Base.SetMaxRequestsInflight: for limits up to 65000, to which the option is clipped.
- Resolver.Base.ReplyHandle: whether the search has another name to try is a parameter; the names of a search are not modelled.
- The timers of requests and probes, and `disable_when_inactive`: a timeout may come at any time.
- RateLimit.Bufferevent.GetMax: the bucket of the group and the number of its members are parameters.
- RateLimit.Transfer: for one configuration, and for callers that do not raise a limit by hand and take no more than they are told.
- RateGroup.NoLostWakeUp: one group; destroying a bufferevent that is still a member is not modelled.
- TaggedData.ReadHeader: a payload longer than `INT_MAX` is an error; the source goes on with a negative length.
- RpcSchema.Unmarshal: the accessors, clear and free functions of a structure are not modelled; it starts from a new one.
- The parser of the schema language, and the text of the emitted code: the model is what the emitted code does.
- The chain of the entries of a hash table in the order of insertion, and the other templates of `Common`.
- Heap.Queue: for integers in their natural order; the source takes any order as a template argument. Both ways down share one method.
- Hashtable.Table: for a number of slots other than one, for which the source computes an index outside the table.
