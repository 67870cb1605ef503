# liberate: models and proofs

Dafny models of five parts of the liberate library, and proofs about them.

* **Two-lock queue** (`concurrency/concurrent_queue.h`). `ConcurrentQueueMachine.dfy` is a
  small-step model: any number of threads, two spin locks, a heap of nodes whose addresses
  are reused, one atomic access per step. `ConcurrentQueueProof.dfy` proves step by step that
  it simulates the atomic queue of `AtomicQueue.dfy`; `ConcurrentQueueTheorems.dfy` draws the
  conclusions for whole runs, and `ConcurrentQueueProgress.dfy` proves that calls return.
  `ConcurrentQueue.dfy` is the same code as a class that one thread uses, destructor
  included.
* **Tasklets** (`concurrency/tasklet.cpp`). `TaskletMachine.dfy` models controllers, started
  threads, mutexes, condition variables with spurious wake-ups, contexts that are swapped
  during a join, and the allocator. `TaskletProof.dfy` holds the invariant,
  `TaskletTheorems.dfy` what every run guarantees. `TaskletFlags.dfy` says what `running`
  means in every run, what sleeping answers and whom a notification wakes, and follows one
  tasklet from construction to destruction.
* **Codecs with numbers in them**: `Varint.dfy` (`serialization/varint.h`) and `Crc32.dfy`
  (`checksum/crc32.h`), the latter over the bit operations of `Bits.dfy`. `Crc32Words.dfy`
  ties it to 32-bit machine words and gives the listed polynomials by their terms.
* **Networks**: `SocketAddress.dfy` (comparison and increment), `Prefix.dfy` (masks),
  `AddressPool.dfy` (what reserving and releasing does to the set of reserved addresses,
  and its meaning over whole runs) and `Network.dfy` (the class, method by method).
* **Parser and printer pairs**: `HexCode.dfy`, `UrlCode.dfy`, `Url.dfy` with
  `UrlRoundTrip.dfy` (what was printed) and `UrlReading.dfy` (any other text), and `Path.dfy` with `PathRoundTrip.dfy` (paths without backslashes) and
  `PathTheorem.dfy` (all paths), over the string functions in `Text.dfy`.

Conditions under which the code does not do what its interface suggests are part of the
results; they are stated as exact conditions:

* `serialized_size` promises one byte too many exactly for the values from 128^(n-1) up to
  but not including (128^n - 128) / 127, for some n from 3 on; then the written bytes do
  not begin where a reader starts.
* A multi-byte varint that ends exactly where the input ends is rejected, so reading takes
  one byte of slack.
* For the listed polynomials `crc32` cannot be continued from a first result that is
  0xFFFFFFFF, and only then.
* The comparison of IPv4 addresses contradicts itself exactly when number and port disagree,
  the one of IPv6 addresses exactly when neither is at least as large in every byte and in
  the port.
* Reserving an address gives out one that is taken already exactly when the network address
  and the one after it are both reserved. A /31 network never gives out an address and
  mapping an identifier in it divides by zero; a /32 network gives out addresses outside
  itself, and for almost all hashes mapping does not end. The check against the broadcast address in front of
  the line marked unreachable always succeeds, because the broadcast address carries port
  65535.
* `hexdecode` writes behind a buffer that is exactly half as long as its input, rounded
  down, exactly when that length is odd and the byte behind the input goes on with digits.
* The upper-case hexadecimal alphabet has 'D' where 'C' belongs, so percent-encoding comes
  back exactly when no encoded byte has a digit 12.
* A printed URL is parsed back to itself exactly under the conditions of
  `UrlRoundTrip.RoundTrips`. A path comes back from Windows form exactly when it has no
  backslash and meets the conditions of `PathRoundTrip.RoundTrips`.

Where documentation and code differ, the models follow the code: `url.h` says that URL
escaping is ignored, but authority, path, keys and values are percent-encoded and decoded;
the comment on `operator++` for IPv6 speaks of overflow into the next byte, but bytes that
are 0xff are not reset.

## Model

| member | source | states |
|---|---|---|
| AtomicQueue.SpecStepConserves | include/liberate/concurrency/concurrent_queue.h:104-150 | a step of the atomic queue keeps "pushed values = popped values followed by the content" |
| QueueInvariant.StepSimulates | include/liberate/concurrency/concurrent_queue.h:104-187 | every step of every thread of the two-lock queue is matched by a step of the atomic queue, and the whole invariant (locks, list, contents, ownership of nodes and values) is kept |
| QueueInvariant.SpecMatched | include/liberate/concurrency/concurrent_queue.h:104-187 | the matching step shows an observer the same event, and a call takes effect only while it is pending |
| QueueTheorems.InitialSimulates | include/liberate/concurrency/concurrent_queue.h:72-76 | the new queue corresponds to the empty atomic queue |
| QueueTheorems.Follow | include/liberate/concurrency/concurrent_queue.h:104-187 | over a whole schedule the atomic queue shows the same events, its logs are the link writes and the head moves in order, and a thread's returned values are what it took |
| QueueTheorems.Linearizable | include/liberate/concurrency/concurrent_queue.h:104-187 | in every run every call of push, pop, empty and size takes effect in one instant between invocation and return with the result it returns, and that instant is fixed: the link write of push, the head move of a successful pop, the read of empty(), the read of the null link by a failing pop and by size() |
| QueueTheorems.AnswersExact | include/liberate/concurrency/concurrent_queue.h:130-187 | in every run size() settles, at its read of the null link, for exactly the number of links minus head moves so far; pop finds no value and empty() answers yes exactly when that number is 0 at their read |
| QueueTheorems.FirstInFirstOut | include/liberate/concurrency/concurrent_queue.h:110-142 | the values in head-move order are a prefix of the values in link-write order |
| QueueTheorems.DeliveredOnce | include/liberate/concurrency/concurrent_queue.h:140-149 | each head move delivers its value to exactly the thread that made it, in order |
| QueueTheorems.MemorySafe | include/liberate/concurrency/concurrent_queue.h:108-149 | no run touches or frees unallocated memory; `m_last` may name a freed node only while a producer with the lock stands between its link write and its write of `m_last` |
| QueueTheorems.NoLeak | include/liberate/concurrency/concurrent_queue.h:104-150 | with no call under way exactly one node per value plus the sentinel and one box per value are allocated |
| QueueProgress.LoneCallReturns | include/liberate/concurrency/concurrent_queue.h:104-187 | after any run, a thread inside push, pop, empty or size finishes by its own steps once the others are between calls: no lock stays taken, and the walk of size() ends |
| QueueObject.ConcurrentQueue.constructor | include/liberate/concurrency/concurrent_queue.h:72-76 | a new queue is empty |
| QueueObject.ConcurrentQueue.Push | include/liberate/concurrency/concurrent_queue.h:104-114 | appends the value |
| QueueObject.ConcurrentQueue.Pop | include/liberate/concurrency/concurrent_queue.h:128-150 | returns and removes the first value, or reports that there is none |
| QueueObject.ConcurrentQueue.IsEmpty | include/liberate/concurrency/concurrent_queue.h:163-172 | tells whether the content is empty and leaves it alone |
| QueueObject.ConcurrentQueue.Size | include/liberate/concurrency/concurrent_queue.h:176-187 | counts the values and leaves them alone |
| QueueObject.ConcurrentQueue.Destroy | include/liberate/concurrency/concurrent_queue.h:80-90 | frees every node and every value and leaves nothing allocated |
| TaskletInvariant.StepKeeps | lib/concurrency/tasklet.cpp:79-300 | every step of every controller, started thread and outside user of a shared condition keeps the invariant, in particular that nothing forbidden happens |
| TaskletInvariant.NotifiedAll | lib/concurrency/tasklet.cpp:79-88 | a notification of one thread on an owned condition reaches the thread of that context, because no other can wait there |
| TaskletInvariant.NobodyUses | lib/concurrency/tasklet.cpp:59-65 | once its thread is joined nobody uses a context, holds the mutex it owns or waits on its condition |
| TaskletTheorems.NoStopIsLost | lib/concurrency/tasklet.cpp:80-192 | in every reachable state a waiting thread's context is live, and if its `running` is cleared a controller is between clearing it and notifying |
| TaskletTheorems.JoinMeetsNoSleeper | lib/concurrency/tasklet.cpp:103-143 | a joining controller has a live context with a started thread, and if `running` is cleared, as it always is in the destructor, that thread is not asleep |
| TaskletTheorems.JoinNeverStuck | lib/concurrency/tasklet.cpp:103-192 | with `running` cleared or in the destructor, a joining controller, its thread, or the holder of the mutex the thread needs can always take a step |
| TaskletTheorems.MemorySafe | lib/concurrency/tasklet.cpp:59-147 | no use after free, no double free, no context freed before its thread is joined, no condition freed while held or waited on, shared conditions never freed |
| TaskletTheorems.OneThreadPerContext | lib/concurrency/tasklet.cpp:242-254 | two started threads never have the same context |
| TaskletTheorems.NoLeak | lib/concurrency/tasklet.cpp:59-147 | between calls there is exactly one context per tasklet, one condition per context that owns one, and no thread that is not some context's; without tasklets nothing is left |
| TaskletTheorems.CallsAnswered | lib/concurrency/tasklet.cpp:241-290 | start() returns true exactly when no thread was started since the last wait() returned, stop() exactly when one was |
| TaskletTheorems.RestartsAfterWait | lib/concurrency/tasklet.cpp:115-147 | after wait() has returned the next start() succeeds |
| TaskletFlags.RunningExactly | lib/concurrency/tasklet.cpp:103-282 | in every run, as long as a thread is not joined, the `running` of its context is set exactly when no stop() that found the thread and no destructor has told it to stop since it was started |
| TaskletFlags.SleepAnswers | lib/concurrency/tasklet.cpp:175-192 | in every run nanosleep() returns true exactly when the thread was not told to stop since it was started |
| TaskletFlags.WokenUp | lib/concurrency/tasklet.cpp:80-88 | with the step by which wakeup() or a successful stop() returns, or by which a join begins, whatever thread of that context was waiting is awake, and with a shared condition everyone waiting there |
| TaskletFlags.WakesPresent | lib/concurrency/tasklet.cpp:296-300 | wakeup() works on the context that the tasklet has at that moment |
| TaskletFlags.JoinedDone | lib/concurrency/tasklet.cpp:143 | no step of any run takes a thread away before its function has returned |
| TaskletFlags.Asleep | lib/concurrency/tasklet.cpp:175-192 | there is a run in which a thread waits: start() has returned true and the function it runs sleeps |
| TaskletFlags.WholeLife | lib/concurrency/tasklet.cpp:93-300 | there is a run in which a sleeping thread is stopped and joined and the tasklet destroyed; it ends as it began, with nothing left, and start(), stop() and wait() have returned, the first two with true |
| Varint.EncodeBijective | include/liberate/serialization/varint.h:106-118 | the code is a bijection between the natural numbers and the terminated byte strings |
| Varint.EncodingExample | test/serialization/varint.cpp:33-56 | 0x01020304 is written as 0x87 0x87 0x85 0x04, and 127 in one byte |
| Varint.LeastClosedForm | include/liberate/serialization/varint.h:106-118 | the least value that takes n bytes is (128^n - 128) / 127 |
| Varint.SizeGap | include/liberate/serialization/varint.h:65-75 | the promised size is never too small, and one too large exactly on the intervals given above |
| Varint.SizeGapBounded | include/liberate/serialization/varint.h:65-75 | for values below 2^63 the intervals stop at nine bytes |
| Varint.GapsNotEmpty | include/liberate/serialization/varint.h:65-75 | how many values each exceptional interval holds; none is empty from n = 3 on |
| Varint.FirstGap | include/liberate/serialization/varint.h:65-75 | exactly the values 16384 to 16511 are promised three bytes and written in two |
| Varint.NegativeNeverEnds | include/liberate/serialization/varint.h:71-73 | on a negative value the loop condition never becomes false |
| Varint.SerializedSize | include/liberate/serialization/varint.h:65-75 | counts the groups of seven bits |
| Varint.SerializeVarint | include/liberate/serialization/varint.h:92-121 | returns 0 and writes nothing when the buffer is missing or too small; otherwise the encoding ends where the promised size ends and nothing else is written; the "ran out of room" branch is dead |
| Varint.DeserializeVarint | include/liberate/serialization/varint.h:136-172 | returns 0 exactly when no prefix is an accepted encoding (unterminated, overflowing 64 bits, or ending with the input), else the length of the one that is, and its value; reads behind the input exactly when that is one byte asking for continuation |
| Varint.AcceptsUnique | include/liberate/serialization/varint.h:155-168 | at most one prefix is accepted |
| Varint.DecodeBijective | include/liberate/serialization/varint.h:58-60 | with one byte of slack reading inverts writing both ways for all values below 2^64, rejects all others, and takes at most VARINT_MAX_BUFSIZE bytes, a bound that is met |
| Varint.NoSlack | include/liberate/serialization/varint.h:137-172 | without a byte of slack an encoding is read back exactly if it is one byte, and rejected otherwise |
| Varint.RoundTripExactly | include/liberate/serialization/varint.h:92-172 | writing and reading back gives value and size exactly when the promised size is right |
| Varint.StreamRoundTrip | include/liberate/serialization/varint.h:136-172 | values encoded back to back come back in order, given one more byte |
| Varint.SerializeMany | include/liberate/serialization/varint.h:92-121 | writing values one behind the other produces that stream when no size promise is wrong |
| Crc32.ListedTopBit | include/liberate/checksum/crc32.h:53-75 | all listed polynomials have the top bit set |
| Crc32Words.IeeeTerms | include/liberate/checksum/crc32.h:54-55 | bit 31 - e of `CRC32` is set exactly for the exponents e of the polynomial of IEEE 802.3, clause 3.2.9 |
| Crc32Words.CastagnoliTerms | include/liberate/checksum/crc32.h:57-62 | the same of `CRC32C` for the polynomial in appendix B of RFC 4960 |
| Crc32Words.KoopmanTerms | include/liberate/checksum/crc32.h:64-67 | the same of `CRC32K` for x^30 + x^29 + x^28 + x^26 + x^20 + x^19 + x^17 + x^16 + x^15 + x^11 + x^10 + x^7 + x^6 + x^4 + x^2 + x + 1 |
| Crc32Words.Koopman2Terms | include/liberate/checksum/crc32.h:69-70 | the same of `CRC32K2` for x^29 + x^28 + x^25 + x^22 + x^20 + x^19 + x^13 + x^12 + x^10 + x^7 + x^4 + x^3 + 1 |
| Crc32Words.AixmTerms | include/liberate/checksum/crc32.h:72-73 | the same of `CRC32Q` for x^31 + x^24 + x^22 + x^16 + x^14 + x^8 + x^7 + x^5 + x^3 + x + 1 |
| Crc32Words.IeeeCheck | include/liberate/checksum/crc32.h:219-234 | the checksum of "123456789" with `CRC32` is the published 0xCBF43926 |
| Crc32Words.CastagnoliCheck | include/liberate/checksum/crc32.h:219-234 | with `CRC32C` it is the published 0xE3069283 |
| Crc32Words.KoopmanCheck | include/liberate/checksum/crc32.h:219-234 | with `CRC32K` it is 0x2D3DD0AE, the complement of the published 0xD2C22F51, which is taken without the final complement |
| Crc32Words.Koopman2Check | include/liberate/checksum/crc32.h:219-234 | with `CRC32K2` it is 0xEEB754CC |
| Crc32Words.AixmCheck | include/liberate/checksum/crc32.h:219-234 | with `CRC32Q` it is 0xA9CC8179 |
| Crc32.Table | include/liberate/checksum/crc32.h:136-162 | the recursion over parameter packs lists the 256 elements in order |
| Crc32.IterValueLinear | include/liberate/checksum/crc32.h:90-104 | one shift of the register is linear over exclusive or |
| Crc32.TableElementIterates | include/liberate/checksum/crc32.h:106-134 | a table element is eight shifts of its index |
| Crc32.StepIterates | include/liberate/checksum/crc32.h:189-203 | a table step is eight shifts of the register with the byte added at the low end |
| Crc32.TableIsRegister | include/liberate/checksum/crc32.h:219-234 | the table-driven checksum is the bit-serial shift register, for every polynomial, start and message |
| Crc32Words.AccumulateIs | include/liberate/checksum/crc32.h:219-234 | the table-driven checksum is the shift register on 32-bit words, with the machine's shift and exclusive or |
| Crc32.BurstDetected | include/liberate/checksum/crc32.h:219-234 | two messages that differ only within 32 consecutive bits have different checksums from the same initial value, for polynomials with the top bit |
| Crc32.BurstSharp | include/liberate/checksum/crc32.h:219-234 | for every polynomial two messages that differ only within 33 bits have the same checksum |
| Crc32.Continues | include/liberate/checksum/crc32.h:220-234 | for every polynomial, continuing from a first result that is not the initializer gives the checksum of the whole |
| Crc32.ContinueExactly | include/liberate/checksum/crc32.h:220-234 | with the polynomial's highest bit set, it does so exactly then |
| Crc32.ChunksJoin | include/liberate/checksum/crc32.h:220-234 | for every polynomial and any number of chunks, feeding results on gives the checksum of the whole if none of those fed on is the initializer (this way only; the next row has the other way for the first result that is the initializer) |
| Crc32.OneMoreExactly | include/liberate/checksum/crc32.h:220-234 | with the highest bit set, as long as no earlier result was the initializer, one more chunk goes wrong exactly if the last result is |
| Crc32.InitializerReached | include/liberate/checksum/crc32.h:220-234 | for every polynomial, message and initial value, the four bytes of the register behind the message make its checksum the initializer |
| Crc32.ContinueFails | include/liberate/checksum/crc32.h:220-234 | with the highest bit set, continuing from such a message gives a wrong checksum, whatever follows |
| Crc32.FullBytes | include/liberate/checksum/crc32.h:220-234 | four bytes 0xFF have the initializer as their checksum, for every polynomial |
| Crc32.ChecksumAppended | include/liberate/checksum/crc32.h:219-234 | for every polynomial, a message followed by its checksum in little-endian order has the polynomial's residue |
| Crc32.ResidueExactly | include/liberate/checksum/crc32.h:219-234 | with the highest bit set, no other four bytes give that residue |
| SocketAddresses.IsLessThan | lib/net/socket_address.cpp:711-749 | computes the comparison: any smaller byte or else a smaller port on IPv6, a smaller number or else a smaller port on IPv4, IPv4 before IPv6 |
| SocketAddresses.V4Contradiction | lib/net/socket_address.cpp:720-727 | two IPv4 addresses are each less than the other exactly when number and port disagree; with one port the comparison is the numbers' order |
| SocketAddresses.V6Contradiction | lib/net/socket_address.cpp:729-739 | two IPv6 addresses are each less than the other exactly when neither is at least the other in every byte and in the port, and neither is less than the other exactly when they are equal |
| SocketAddresses.FamiliesApart | lib/net/socket_address.cpp:714-717 | every IPv4 address is less than every IPv6 address, never the other way, and never equal |
| SocketAddresses.ComesLast | lib/net/socket_address.cpp:711-727 | IPv6 addresses and addresses with a port come after every IPv4 address without, so a set of those does not contain them |
| SocketAddresses.SocketAddress.Increment | lib/net/socket_address.cpp:753-776 | IPv4 counts up modulo 2^32; on IPv6 one byte goes up by one, all bytes behind it are 0xff and stay so, nothing changes if all are 0xff; port and family stay |
| SocketAddresses.IncrementsChain | lib/net/socket_address.cpp:753-776 | any number of increments of an address is so many steps along its chain on IPv6, and addition modulo 2^32 on IPv4, with the port it had |
| SocketAddresses.RaiseOne | lib/net/socket_address.cpp:762-772 | a step raises exactly one byte by one unless all are 0xff |
| SocketAddresses.ChainGrows | lib/net/socket_address.cpp:762-772 | along increments no byte ever goes down |
| SocketAddresses.ChainOrder | lib/net/socket_address.cpp:729-772 | on the addresses reached from one by increments the comparison is the strict order of the steps taken |
| SocketAddresses.IncrementIsPlusOne | lib/net/socket_address.cpp:762-772 | the increment is +1 on the 128-bit number exactly when the last byte is not 0xff |
| Prefix.MakeMask32 | lib/net/network.cpp:47-54 | the loop builds 2^32 - 2^(32 - size) |
| Prefix.MakeMask128 | lib/net/network.cpp:57-65 | the loop builds the sixteen mask bytes, the partial one truncated to a byte |
| Prefix.AndMask | lib/net/network.cpp:483-488 | masking gives the lowest address of the block around the address |
| Prefix.OrComplement | lib/net/network.cpp:258-263 | setting the bits the mask leaves out gives the highest |
| Prefix.SameBlock | lib/net/network.cpp:218-224 | two addresses have the same masked address exactly when one lies between the ends of the other's block |
| Prefix.MaskedBytes | lib/net/network.cpp:494-500 | masking byte by byte is masking the 128-bit number |
| Prefix.RaisedBytes | lib/net/network.cpp:269-275 | and so is setting the other bits |
| Networks.Network.MakeMasked | lib/net/network.cpp:475-505 | same family, port 0, and the lowest address of the block; an address of the other family keeps its bytes |
| Networks.Network.BroadcastAddress | lib/net/network.cpp:250-281 | the highest address of the network, with port 65535 |
| Networks.Network.InNetwork | lib/net/network.cpp:218-224 | true exactly for addresses of the network's family between network and broadcast address, for both families and every mask |
| Networks.Network.GetMax | lib/net/network.cpp:125-140 | two less than the size modulo 2^64, the domain error exactly for IPv6 masks above 64, and the entry behind the table for IPv6 mask 0 |
| Networks.Network.ReserveAddress | lib/net/network.cpp:285-329 | gives out an address with port 0 and adds it and nothing else to the reserved set; for masks up to 30 it succeeds exactly when fewer addresses than lie between the ends are reserved, and gives the least free one if the network address is not reserved; never the error of the last line |
| Networks.Network.MappedAddress | lib/net/network.cpp:333-355 | for every IPv4 mask: the address `Mapped` gives, or a division by zero, or a loop without end; for masks up to 30 the address after the network address plus the hash modulo the number of addresses between the ends |
| Networks.Network.Find | lib/net/network.cpp:382 | the ordered search with the addresses' own comparison finds exactly the reserved addresses, for keys of both families and with any port |
| Networks.Network.ReserveMapped | lib/net/network.cpp:375-392 | adds the mapped address and nothing else to the reserved set; for masks up to 30 it succeeds exactly when that address is free, and gives that address |
| Networks.Network.ReserveGiven | lib/net/network.cpp:410-425 | succeeds exactly when the address is IPv4, in the network and free, and then adds it and nothing else to the reserved set |
| Networks.Network.IsReserved | lib/net/network.cpp:452-457 | tells membership in the reserved set, for addresses of both families and with any port |
| Networks.Network.ReleaseAddress | lib/net/network.cpp:461-471 | for addresses of both families and with any port: succeeds exactly when the address is reserved, and then takes it and nothing else out of the reserved set |
| AddressPool.InsertKeepsOrder | lib/net/network.cpp:103 | the set stays in order and gains exactly the new address |
| AddressPool.RemoveKeepsOrder | lib/net/network.cpp:103 | the set stays in order and loses exactly the address |
| AddressPool.MappedExactly | lib/net/network.cpp:333-355 | strictly inside for networks of four or more addresses; division by zero exactly for two; no end exactly for one address and a hash from 2^32 up to but not including 2^64 - 1 |
| AddressPool.MappedApart | lib/net/network.cpp:333-355 | two hashes map to one address exactly when they leave the same remainder by the number of addresses between the ends; remainder 0 maps to the first of them |
| AddressPool.EveryAddressMapped | lib/net/network.cpp:333-355 | every address strictly between the ends is the image of some hash |
| AddressPool.NeverEndsExactly | lib/net/network.cpp:352 | the model's "no end" is given exactly when the 32-bit loop counter is below the hash after every number of rounds |
| AddressPool.ScanLeastFree | lib/net/network.cpp:311-318 | the walk over the ordered set finds the least address not in it |
| AddressPool.ReserveNextExactly | lib/net/network.cpp:285-329 | fails exactly when the count has reached the limit, otherwise answers strictly inside the network, with a free address exactly unless network address and successor are both reserved, and with the least free one if the network address is not |
| AddressPool.ReserveNextEffect | lib/net/network.cpp:285-329 | for networks of all sizes the answer, if there is one, joins the reserved set and nothing else changes |
| AddressPool.FailsExactlyWhenFull | lib/net/network.cpp:290-295 | with neither end of the network reserved, fails exactly when every address between the ends is reserved |
| AddressPool.SmallNetworks | lib/net/network.cpp:139 | whatever is reserved, /31 always fails, and /32 answers outside the network while fewer than 2^32 - 1 addresses are reserved |
| AddressPool.OnlyAddressExactly | lib/net/network.cpp:285-329 | /32 answers its own address exactly when all others are reserved, it is not, and it is 0.0.0.0 or 255.255.255.255 |
| AddressPool.RunStaysWithin | lib/net/network.cpp:285-471 | over every run all reserved addresses lie in the network, and the network address is reserved only by asking for it |
| AddressPool.RunAnswers | lib/net/network.cpp:285-471 | at every step of every run: reserving fails exactly at the limit, reserving by identifier or by address exactly when that address is reserved or outside, releasing exactly when it is not reserved; after success the set has gained or lost that address and nothing else |
| AddressPool.ReservesLeastFree | lib/net/network.cpp:285-329 | over every run that never reserves the network address by hand: the least unreserved address above it, below the broadcast address, and failure exactly at the limit |
| AddressPool.NeverGrantedTwice | lib/net/network.cpp:285-471 | over every such run no address is given out twice without having been released in between |
| AddressPool.ReservedAgain | lib/net/network.cpp:285-471 | after any such run an address that is reserved in any way and released is given out again by the same operation |
| AddressPool.Conserved | lib/net/network.cpp:285-471 | over every such run the number reserved is the number given out less the number released |
| AddressPool.GrantedTwice | lib/net/network.cpp:312-316 | with the network address reserved by hand the next address is given out twice in a row |
| HexCode.HexEncode | lib/string/hexencode.cpp:61-82 | writes the two digits of each byte, or nothing if the buffer is too small, and leaves the rest of the buffer alone |
| HexCode.HexDecode | lib/string/hexencode.cpp:98-121 | for every buffer and input: writes the leading pairs of digits and returns their number, or 0 unless everything is pairs of digits; with an odd length the byte behind the input counts as well; writes behind the buffer exactly when the length is odd, the buffer half as long rounded down, and everything including that byte is digits |
| HexCode.HexEncodeText | lib/string/hexencode.cpp:134-150 | the same as a string |
| HexCode.DecodeHalfExactly | lib/string/hexencode.cpp:45-57 | which characters are digits, of either case, and of which value; all others are rejected |
| HexCode.EncodedCased | lib/string/hexencode.cpp:30-42 | encoded text is digits, without lower-case letters in upper case and without upper-case letters in lower case |
| HexCode.PairsExactly | lib/string/hexencode.cpp:108-118 | everything is pairs of digits exactly when the length is even and every character a digit |
| HexCode.OverrunsExactly | lib/string/hexencode.cpp:98-121 | the overrun happens exactly when the length is odd, the buffer half of it rounded down, and all characters and the one behind them are digits; it does for "a" with '0' behind it and no buffer |
| HexCode.NullStops | lib/string/hexencode.cpp:108-118 | a null behind an odd number of characters is never part of a pair of digits, so it keeps the decoder inside its buffer |
| HexCode.HexDecodeText | lib/string/hexencode.cpp:162-176 | the decoded bytes, or none, for odd lengths too; the overrun by the condition above, never with a null behind the input |
| HexCode.DigitRoundTrip | lib/string/hexencode.cpp:30-57 | a digit decodes to itself, except that the upper-case 12 decodes to 13 |
| HexCode.RoundTripExactly | lib/string/hexencode.cpp:87-121 | lower-case encoding always comes back, upper-case encoding exactly when no byte has a digit 12 |
| HexCode.EncodeDecoded | lib/string/hexencode.cpp:87-121 | decoding and encoding again gives the digits in lower case |
| UrlCode.UrlEncode | lib/string/urlencode.cpp:26-43 | keeps letters, digits, '-', '_', '.' and '/', and writes every other byte as '%' and two upper-case digits |
| UrlReading.KeptExactly | lib/string/urlencode.cpp:33-39 | exactly letters, digits, '-', '_', '.' and '/' stay as they are |
| UrlReading.EncodedTilde | lib/string/urlencode.cpp:33-39 | '~', which RFC 3986 counts as unreserved in section 2.3, is written as "%7E" |
| UrlCode.UrlDecode | lib/string/urlencode.cpp:47-75 | reads '%' and two digits as their byte, anything else after '%' as '?', also at the end of the string |
| UrlReading.PlainDecoded | lib/string/urlencode.cpp:47-75 | text without '%' is read as it stands, whatever follows; '+' is no space |
| UrlReading.PercentDecoded | lib/string/urlencode.cpp:47-75 | '%' and two more characters are one byte, or one '?' if either is no digit, whatever follows |
| UrlReading.CutShort | lib/string/urlencode.cpp:47-75 | '%' with less than two characters behind it is read as '?', and these are dropped |
| UrlCode.DecodeEncodedThen | lib/string/urlencode.cpp:26-75 | decoding encoded text, also when made lower case in between, gives each character's own reading, whatever follows |
| UrlCode.UrlRoundTripExactly | lib/string/urlencode.cpp:26-75 | the text comes back exactly when no percent-encoded byte has a digit 12, and if made lower case in between besides no letter is upper case |
| UrlCode.EncodedChars | lib/string/urlencode.cpp:33-39 | encoded text has only kept characters and '%', and a '/' exactly where the text has one |
| Text.FindAppend | lib/net/url.cpp:113 | where find_first_of finds a character in two strings put together |
| Urls.Parse | lib/net/url.cpp:101-202 | computes scheme, authority, path, parameters and fragment, or the error of a missing or bad separator |
| UrlReading.ParsesExactly | lib/net/url.cpp:113-135 | parsing succeeds exactly when the first ':' begins "://", and fails for want of a separator exactly without any ':'; the scheme is what stands in front, in lower case |
| UrlReading.GenericParsed | lib/net/url.cpp:101-202 | text in the generic form of authority, path, query and fragment is read piece by piece as it is written, with query and fragment present or not |
| UrlReading.SlashInQuery | lib/net/url.cpp:141-174 | a '/' found only behind '?' still ends the authority, and the path goes on to the end |
| UrlReading.QuestionInFragment | lib/net/url.cpp:176-199 | a '?' behind '#' begins a query as well, which goes on to the end, while the fragment keeps it |
| Urls.ParsePieces | lib/net/url.cpp:141-199 | computes where the pieces end, with the length that wraps around when the first '/' comes after the query |
| Urls.SplitQuery | lib/net/url.cpp:53-88 | adds one parameter per piece between '&', the last of a name winning |
| Urls.SplitParameter | lib/net/url.cpp:66-86 | an '=' behind the next '&' does not belong to the parameter; no '=' means the value "1" |
| UrlReading.FlagRead | lib/net/url.cpp:66-86 | a parameter without '=' sets its lower-case name to "1" |
| UrlReading.PairRead | lib/net/url.cpp:66-86 | one with '=' sets the lower-case name in front of the first to the normalized value behind it, both decoded |
| UrlReading.ParametersInTurn | lib/net/url.cpp:53-88 | a query put together from two at an '&' is read as the one after the other |
| UrlReading.NormalizedExactly | lib/net/url.cpp:38-51 | a value becomes "1" exactly for true, yes and 1 in any case, "0" exactly for false, no and 0, and is made lower case otherwise |
| Urls.Str | lib/net/url.cpp:229-250 | prints the URL with its parameters in the order the map hands them out |
| UrlRoundTrip.ValueExactly | lib/net/url.cpp:38-51 | a value comes back exactly when it is faithful, lower case and none of true, yes, false, no |
| UrlRoundTrip.ItemsRead | lib/net/url.cpp:53-88 | printed parameters are read as each key and value read back by itself, in order |
| UrlRoundTrip.QueryExactly | lib/net/url.cpp:53-88 | the parameters come back exactly when each key and each value does by itself |
| UrlRoundTrip.SplitStructured | lib/net/url.cpp:141-174 | under the conditions on separators the printed authority and path are found again |
| UrlRoundTrip.StructureNeeded | lib/net/url.cpp:141-174 | and they are found with their lengths only under these conditions |
| UrlRoundTrip.ParsePrintedExactly | lib/net/url.cpp:101-250 | parsing a printed URL gives back the URL exactly when: scheme lower case without ':'; authority without '/'; path empty or beginning with '/'; keys and values lower case, no value true, yes, false or no; no '?' in the fragment if there are no parameters; no '/' in parameters or fragment if the path is empty; no percent-encoded byte with a digit 12 |
| Path.Tokenize | lib/fs/path.cpp:31-83 | computes the tokens and whether there was a leading delimiter, with quoted backslashes and skipped tokens |
| Path.Join | lib/fs/path.cpp:87-100 | puts the delimiter between the tokens |
| Path.Replace | lib/string/util.cpp:65-96 | replaces every occurrence of a character |
| Path.ToPosixPath | lib/fs/path.cpp:106-135 | converts, or fails on a drive that is not a letter |
| Path.ToWin32Path | lib/fs/path.cpp:139-174 | converts, writing a single leading letter as a drive |
| PathRoundTrip.Win32IsSwapped | lib/fs/path.cpp:139-174 | without backslashes and without a '/' at the end the conversion swaps the separators and rewrites a drive, and does nothing else |
| PathRoundTrip.PosixIsSwapped | lib/fs/path.cpp:106-135 | without quoted or trailing backslashes so does the way back, failing exactly on a drive that is not a letter |
| PathRoundTrip.PairShows | lib/fs/path.cpp:55-65 | two backslashes in a row are kept in the result instead of becoming separators |
| PathRoundTrip.TrailingShortens | lib/fs/path.cpp:73-80 | a '/' at the end is dropped |
| PathRoundTrip.PosixRoundTripExactly | lib/fs/path.cpp:106-174 | a path without backslashes comes back exactly when it has no empty components but the one before a leading '/', its drive letter is not upper case, and a relative path does not begin with two characters ending in ':' |
| PathTheorem.TokensBack | lib/fs/path.cpp:55-71 | splitting at backslashes and joining with '/' keeps pairs of backslashes, turns single ones into '/', takes a pair at the very end apart and drops a separator there |
| PathTheorem.FieldCounts | lib/fs/path.cpp:72-78 | there are no more tokens than fields between '/'; with as many, the tokens hold all backslashes and a last one before a final '/' does not end in one; no token holds a '/' |
| PathTheorem.QuotedFieldLost | lib/fs/path.cpp:72-78 | the first component of a relative path is lost when it ends in a backslash |
| PathTheorem.DriveFails | lib/fs/path.cpp:113-130 | conversion from Windows form fails exactly on what begins with a character that is no letter, ':', and then the end or a single backslash |
| PathTheorem.Win32Counts | lib/fs/path.cpp:139-174 | Windows form has no '/', twice the backslashes of the tokens and one per separator, and no more unpaired backslashes than separators; two fewer if it ends in a pair |
| PathTheorem.NeverBack | lib/fs/path.cpp:31-174 | a path with a backslash anywhere never comes back: it fails, or another path comes back |
| PathTheorem.RoundTripExactly | lib/fs/path.cpp:31-174 | for every string: it comes back from Windows form exactly when it has no backslash, no empty component but the one before a leading '/', no upper-case drive letter, and, if relative, no first component of two characters ending in ':' |

## Left out

- The concurrent queue and the tasklets are state machines over values, because their steps interleave; update in place and aliasing appear there as maps from addresses. `ConcurrentQueue.dfy` has the queue as a class, for one thread.
- Weak memory: the atomics of the queue and of `running` are sequentially consistent, which is their default order. Plain fields that two threads read and write without a lock are treated the same way.
- Liveness of the spin locks and fairness of the scheduler: what is proved about progress is that some tasklet agent can step and that a queue call nobody interferes with returns.
- The queue's destructor racing with users, `push_range` (repeated `push`), exceptions from `new` or from copying values.
- More than one controlling thread for one tasklet: after a join has swapped the context another thread's stop() does not reach the old thread any more.
- Durations: a timed sleep may end at any time; a thread may wake up without notification.
- The start_now parameter of the tasklet constructors, which calls start().
- Networks.Network.ReserveAddress: IPv4 only, with all reserved addresses on port 0, because the comparison does not order other sets of addresses and std::set then promises nothing.
- Networks.Network.ReserveGiven: IPv4 networks and addresses on port 0, for the same reason: an address with a port would join the set.
- Networks.Network.ReserveMapped: IPv4 networks, for the same reason.
- Networks.Network.IsReserved: IPv4 networks, for the same reason.
- Networks.Network.ReleaseAddress: IPv4 networks, for the same reason.
- Networks.Network.MappedAddress: IPv4 networks. The hash function itself is a parameter.
- Path.Replace: needles of one character and all occurrences, the only way the path functions use it.
- AddressPool.FailsExactlyWhenFull: with the broadcast address reserved the count reaches the limit one address early, which AddressPool.ReserveNextExactly states instead.
- The forms of the network functions that take a pointer and a length, gateway_address, comparison and printing of networks, and parsing of CIDR strings.
- Varint.SerializeVarint: values from 0 to 2^63 - 1; on negative ones the size computation does not end. Bytes are unsigned; with a signed 8-bit type no continuation bit would be seen.
- The aliases of the listed polynomials, which add no behaviour; `CRC32_KOOPMAN2` stands for `CRC32K`, not for `CRC32K2`.
- Crc32.Crc: the register has 32 bits; an integer type wider than that holds the same values throughout.
- Urls.Str: the order of the parameters is given from outside, and the results hold for every order; std::map uses the order of the keys.
- Letter case and character classes are those of the "C" locale, and bytes from 128 on are no letters.
- Operations on equality, order, hashing and swapping of URLs; hexdump; resolving, temporary files, logging, system errors, versions, random numbers, back-off, integer serialization.
