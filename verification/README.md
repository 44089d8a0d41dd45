# A verified model of the Arcus C client

This project models four parts of the Arcus C client and proves what they promise.

1. **The ZooKeeper manager and the proxy** (`ArcusManager`, `ArcusSessions`, `ArcusProxy`, `ArcusNodeList`). The
   manager thread, the ZooKeeper callbacks, the starting and the closing thread are a step relation in which every
   access to shared data is a step of its own; both mutexes are part of it. So are the proxy that publishes a server
   list and the clients that copy it. The theorems hold of every run: a cluster change is lost only when the list
   fetched for it cannot be put to use, no wake-up is lost, an ended session leads to a new client and nothing else
   does, closing is exclusive and never deadlocks, the manager ends within a fixed number of its steps, and a client
   holds exactly the list that was published as the version it recorded. The textual side, joining names into a buffer
   and cutting and parsing them in place, is imperative code on arrays.
2. **The memaslap connection** (`SendList`, `Transmit`, `UdpSort`, `ReadWindow`). The scatter/gather send list with
   its datagram limit, partial sends, the reordering of UDP datagrams, and the sliding read buffer. The results are
   about bytes: none is lost, repeated or moved, however the network cuts up what is sent and in whatever order it
   delivers it. For UDP this asks that the receive buffer does not move under the table.
3. **The example server** (`ByteOrder`, `Storage`, `StoreSteps`, `Database`, `InterfaceV1`, `InterfaceV0`, `CasRuns`,
   `PacketRuns`, `PacketCodec`, `Serving`). The circular list refines a finite map; both handler levels refine
   functions on that map; the two levels agree, or agree exactly under a stated condition; and a CAS value is spent at
   most once in a run, of decoded commands and of raw packets. What a client writes is what the server reads, does and
   answers, byte by byte.
4. **The hashes** (`Words`, `Md5Compress`, `Md5`, `Md5Answer`, `Jenkins`, `HashSteps`, `Fnv`, `OneAtATime`, `Murmur`,
   `Crc32`, `HashAnswers`). MD5 taken in pieces is the digest of RFC 1321; the three Jenkins paths are one function;
   local changes never collide in the small hashes; the table-driven CRC is the bit-by-bit CRC of RFC 1952. Each of
   them is proved to give one published answer.

`Slices` holds facts about sequences, and `UdpLimits` what sending and receiving share.

Where a promise is false, the model keeps the code as it is, shows a failing case and proves when the promise
holds:

- A cluster change is lost when the list fetched for it cannot be put to use, because there is no memory or
  because memcached_update_cachelist reports an error, which is only logged (`ArcusManager.FailedUpdateIsLost`),
  and only then (`ArcusManager.NoUpdateIsLost`, `ArcusManager.LossNeedsFailure`).
- A refresh that gets no memory records a version whose list it does not have
  (`ArcusProxy.RefreshWithoutMemoryIsStale`); a client's list belongs to its recorded version if and only if its
  last refresh got memory (`ArcusProxy.ClientsHoldAPublishedList`).
- Cutting a joined list gives the list back if and only if no name is empty or has a comma
  (`ArcusNodeList.SplitInvertsJoin`). A name with commas can give more servers than there are slots
  (`ArcusNodeList.CommasOverrun`). The slots suffice if and only if the tokens before the last one leave a slot for
  it (`ArcusNodeList.AllocationSufficesIff`); otherwise a token is parsed into the first slot behind them
  (`ArcusNodeList.ParsedBehindSlots`). For proper names this is a count over the names
  (`ArcusNodeList.PublishedNamesFitIff`).
- A port is read modulo 2^16 (`ArcusNodeList.PortReads`), so a name gives its own port if and only if that is below
  2^16.
- A line of a response is read back if and only if it is not empty and has no newline in it
  (`ReadWindow.LineReadBack`); the empty line comes out as its carriage return.
- Datagrams that are copied out after the receive buffer has moved are read through pointers into the old one
  (`UdpSort.ReadsFreedMemory`); what is given out stays a prefix of the payload if and only if none of its bytes
  belongs to such a datagram (`UdpSort.UdpConn.Sort`), over a whole session too (`UdpSort.UdpConn.Session`).
- A buffer without bytes can cost a datagram (`SendList.EmptyBufferWastesDatagram`). The number of datagrams is the
  smallest possible if and only if there is data, and no empty buffer comes last when the data fills its datagrams
  to the last byte (`SendList.FewestDatagramsIff`).
- The level-0 delete ignores the CAS field (`Database.DeleteLayersAgreeIff`), and the level-1 arithmetic drops
  the flags (`Database.ArithmeticLayersAgreeIff`).
- The CAS counter issues zero when it overflows (`CasRuns.OverflowIssuesZero`, `CasRuns.OverflowIsReached`); the
  values handed out are non-zero and pairwise distinct if and only if fewer than 2^64 stores were made
  (`CasRuns.CasHoldsIff`, `PacketRuns.PacketCasHoldsIff`).
- The block loop of MD5Update counts in 32 bits, and works if and only if the end of its last whole block is at
  most 2^32 - 64 (`Md5.GuardWorksIff`, `Md5.LongInputDoesNotFit`). MD5Update is static, and its callers start with
  an empty buffer or pass at most 64 bytes, so none of them reaches the failing case (`Md5.ShortInputFits`).

What comes from outside is a parameter: the order of the steps, the results of ZooKeeper calls and of timed waits,
whether an allocation succeeds and whether it moves a buffer, what `sendmsg` and `read` do, the address of a key,
what lies in memory behind it, and whether `char` has a sign.

## Model

| member | source | states |
|---|---|---|
| `ArcusManager.StepInv` | libmemcached/arcus.cc:1347-1416 | every step of every thread keeps the invariant of the manager protocol |
| `ArcusManager.NoUpdateIsLost` | libmemcached/arcus.cc:1360-1411 | in every reachable state in which no update is requested, about to be requested, in the manager's hands or due after a reconnect retry, and no stop was requested, a change is outstanding if and only if the list fetched for it could not be put to use |
| `ArcusManager.LossNeedsFailure` | libmemcached/arcus.cc:1062-1095 | a change can become lost only in an update that fails after the fetch, and the next one that succeeds makes up for it |
| `ArcusManager.FailedUpdateIsLost` | libmemcached/arcus.cc:1079-1083 | a run after which the manager sleeps with a change outstanding and nothing in progress |
| `ArcusManager.NoWakeupIsLost` | libmemcached/arcus.cc:1330-1386 | an unsignalled, untimed sleep means no notification, no stopper past its wake-up and no request except one whose callback holds the lock and is about to signal; a request without a notification is paired with zk_retry |
| `ArcusManager.NeverOversleeps` | libmemcached/arcus.cc:1136-1238 | the manager sleeps on an outstanding change that was not lost in a failed update only while a callback is about to post it |
| `ArcusManager.StopIsExclusive` | libmemcached/arcus.cc:303-329 | zookeeper_close from arcus_close never overlaps the manager's ZooKeeper calls, every zookeeper_close runs inside lock_arcus, and a stop lets at most one request finish |
| `ArcusManager.ReconnectIsRetried` | libmemcached/arcus.cc:986-1016 | a failed reconnect stays pending until ten polls have passed, and ends only by another attempt |
| `ArcusManager.StopTerminates` | libmemcached/arcus.cc:1305-1328 | once the stop flag is set the manager takes at most 18 more steps, in any interleaving |
| `ArcusManager.StopNeverDeadlocks` | libmemcached/arcus.cc:1305-1328 | from the first step of arcus_close to its last, it can move, or the manager can, or a thread that holds lock_arcus or the manager's mutex can |
| `ArcusSessions.SessionEventLeadsToReconnect` | libmemcached/arcus.cc:1168-1238 | in every reachable state: once a session event was delivered since the client in use was created, a callback is on its way to report it, the reconnect flag is set or in the manager's hands, a retry is pending, the client is being replaced, or a stop was requested |
| `ArcusSessions.NeverSleepsOnExpiry` | libmemcached/arcus.cc:1360-1386 | the manager sleeps on an ended session only while a callback is about to report it |
| `ArcusSessions.ReconnectsAreEarned` | libmemcached/arcus.cc:1211-1238 | in every run there are no more new clients, attempts under way, pending retries, requests and callbacks on their way, taken together, than session events; so without one no reconnect is asked for |
| `ArcusSessions.FetchesAreEarned` | libmemcached/arcus.cc:1097-1166 | in every run there are no more fetches, done, under way or ahead, than child events, new clients and fetches that asked again, and the one of the start |
| `ArcusProxy.RunInv` | libmemcached/arcus.cc:1018-1048 | in every interleaving of one publisher and any number of clients the shared list and every client's copy are consistent |
| `ArcusProxy.ClientsHoldAPublishedList` | libmemcached/arcus.cc:754-788 | between checks a client has exactly the list published as its recorded version, if and only if its last refresh got memory; otherwise an older published one |
| `ArcusProxy.RefreshIsCurrent` | libmemcached/arcus.cc:765-788 | a check that went through the lock leaves the client at the newest version |
| `ArcusProxy.VersionsNeverGoBack` | libmemcached/arcus.cc:765-788 | recorded versions never decrease, and what was published as a version never changes |
| `ArcusProxy.RefreshWithoutMemoryIsStale` | libmemcached/arcus.cc:943-960 | a run after which a client's recorded version is newer than its list |
| `ArcusNodeList.AtoiReads` | libmemcached/arcus.cc:867-870 | a decimal number, signed or not, is read as itself, up to the first character that is no digit |
| `ArcusNodeList.PortReads` | libmemcached/arcus.cc:867-870 | a decimal port is read modulo 2^16 |
| `ArcusNodeList.NodeReadBack` | libmemcached/arcus.cc:855-880 | a name of the documented form, with any host name, gives its address and its port, into whatever slot it is parsed |
| `ArcusNodeList.NodesReadBack` | libmemcached/arcus.cc:1077-1092 | a list of such names gives the addresses and ports, one by one and in order |
| `ArcusNodeList.PublishedNodesReadBack` | libmemcached/arcus.cc:943-984 | so does the published list: joined, cut and parsed within the slots |
| `ArcusNodeList.SplitInvertsJoin` | libmemcached/arcus.cc:1026-1039 | cutting the joined names gives the names back if and only if none is empty or has a comma |
| `ArcusNodeList.DocumentedNamesIgnoreMemory` | libmemcached/arcus.cc:811-881 | for names in the documented form the servers do not depend on what the allocated slots held |
| `ArcusNodeList.ProxiedListIsDirectList` | libmemcached/arcus.cc:943-984 | joining, cutting and parsing stays within the slots and gives the same servers, in the same order and number, as parsing the names directly |
| `ArcusNodeList.AllocationSufficesIff` | libmemcached/arcus.cc:955-977 | every token is parsed into an allocated slot if and only if the tokens before the last one fill fewer slots than there are |
| `ArcusNodeList.ParsedBehindSlots` | libmemcached/arcus.cc:955-977 | otherwise some token is parsed into the first slot behind the allocated ones |
| `ArcusNodeList.PublishedNamesFitIff` | libmemcached/arcus.cc:943-977 | when the tokens are documented names with a port other than zero, size + 1 slots suffice if and only if the names together have at most one token more than there are names |
| `ArcusNodeList.JoinKeepsTokens` | libmemcached/arcus.cc:1026-1039 | the tokens of a joined list are as many as those of its names, one by one |
| `ArcusNodeList.NamesFitSlots` | libmemcached/arcus.cc:1077-1092 | as many slots as names always suffice |
| `ArcusNodeList.CommasOverrun` | libmemcached/arcus.cc:955-977 | a single name with two commas does not fit the size + 1 slots, one with one comma does |
| `ArcusNodeList.PublishNames` | libmemcached/arcus.cc:1026-1039 | the shared buffer holds the joined names as a C string, and the size is their number |
| `ArcusNodeList.StrTok` | libmemcached/arcus.cc:967-971 | one call finds the first token of the reference definition and cuts it off in place |
| `ArcusNodeList.ParseName` | libmemcached/arcus.cc:811-881 | a name is accepted exactly when it has a host and a non-zero port, the port is that of the reference, and the host is left in the buffer as a C string |
| `ArcusNodeList.ParseList` | libmemcached/arcus.cc:943-984 | the list yields the reference servers, and every host they point at is intact once the whole list is parsed |
| `ArcusNodeList.ReadProxied` | libmemcached/arcus.cc:943-984 | the same from the shared buffer, through a copy, within size + 1 slots |
| `ArcusNodeList.ReadDirect` | libmemcached/arcus.cc:1077-1092 | the same for names that lie apart in memory |
| `SendList.Conn.EnsureIovSpace` | clients/ms_conn.c:2072-2098 | growing the array keeps every message where it was: the sums of the lengths are the old places; it fails exactly when the array is full and cannot grow, and changes nothing then |
| `SendList.Conn.AddMsghdr` | clients/ms_conn.c:2018-2061 | a message is added behind a full one, with a header slot over UDP, and no byte of the data changes; when an allocation fails nothing has changed, or the new message lacks its header slot |
| `SendList.Conn.AddIov` | clients/ms_conn.c:2111-2164 | the data is appended byte for byte; every datagram has one header slot in front and at most 1400 bytes, no message more than IOV_MAX entries, all but the last are full, and msg_iov is the sum of the lengths before it; the list is a function of the old one and the buffer; when the array cannot grow, all this holds of the part that was added |
| `SendList.NoDatagramIsWasted` | clients/ms_conn.c:2111-2164 | unless one reached the limit on entries, all datagrams but the last are as full as can be, and their number is the smallest that can carry the data if and only if the last one carries a byte |
| `SendList.FewestDatagramsIff` | clients/ms_conn.c:2111-2164 | the same by the lengths of the buffers: the number is the smallest if and only if there is data, and the last buffer is not an empty one behind data that fills its datagrams |
| `SendList.FillEnds` | clients/ms_conn.c:2128-2158 | a buffer with bytes leaves one of them in the last message |
| `SendList.FillEmpty` | clients/ms_conn.c:2128-2158 | a buffer without bytes adds an entry to the last message, or to a new one when the last is full |
| `SendList.EntriesBound` | clients/ms_conn.c:2111-2164 | n buffers give no message more than n + 1 entries |
| `SendList.BuildList` | clients/ms_conn.c:2018-2164 | the list that ms_add_msghdr and ms_add_iov build is the one the theorems speak of |
| `SendList.EmptyBufferWastesDatagram` | clients/ms_conn.c:2018-2164 | these calls build a list of two datagrams whose data fits one |
| `Transmit.BuiltListIsPending` | clients/ms_conn.c:2111-2164 | a list built by ms_add_iov is to be written from its first byte to its last |
| `Transmit.DropIsSuffix` | clients/ms_conn.c:2258-2273 | removing n bytes from the entries of a message leaves exactly its bytes from n on, and no empty entry in front |
| `Transmit.Sender.Consume` | clients/ms_conn.c:2258-2273 | the loop and the adjustment behind it do that in place and touch no other message |
| `Transmit.Sender.Transmit` | clients/ms_conn.c:2237-2298 | what the kernel took of the entries and what is left are together what was left before; complete means nothing is left; incomplete means that something was written; the error cases by their cause |
| `Transmit.Sender.Drain` | clients/ms_conn.c:2611-2639 | over any sequence of sendmsg results the wire carries the list once and in order; if the kernel always takes something, the list is written in at most one call more than it has bytes |
| `UdpSort.HeaderNames` | clients/ms_conn.h:49-56 | the header macros read back the request, the number and the count that were put in |
| `UdpSort.CountArrivals` | clients/ms_conn.c:1440-1450 | the length of the receive buffer tells how many datagrams have arrived and how long the last one is |
| `UdpSort.AllIsReady` | clients/ms_conn.c:1493-1546 | once as many distinct datagrams have arrived as there are, the whole payload can be given out |
| `UdpSort.PrefixGrowsIff` | clients/ms_conn.c:1509-1512 | the bytes given out stay a prefix of the payload exactly when none of the next ones lies in a freed buffer |
| `UdpSort.UdpConn.Receive` | clients/ms_conn.c:1571-1600 | a datagram is appended; when it might not fit, the buffer is reallocated, and if it moves, all pointers entered so far are left behind |
| `UdpSort.UdpConn.IndexPackets` | clients/ms_conn.c:1440-1491 | the table says where every datagram that has arrived lies, and in which buffer, and knows no other |
| `UdpSort.UdpConn.CopyOut` | clients/ms_conn.c:1493-1546 | what is copied are the next bytes, as many as there is room for and as lie before the first gap, as they are read through the table's pointers |
| `UdpSort.UdpConn.Sort` | clients/ms_conn.c:1427-1549 | what has been given out grows to exactly the smaller of old length plus room and the place of the first gap, and stays a prefix of the payload if and only if no byte of it is read through a pointer that was left behind; -1 when nothing could be copied |
| `UdpSort.UdpConn.Session` | clients/ms_conn.c:1427-1630 | over any interleaving of arrivals and reads, what was given out is a prefix of the payload if and only if no read gave out a byte of a datagram whose pointer had been left behind, which is so if the response fits the buffer; once everything has arrived, reads with enough room complete it |
| `UdpSort.ReadsFreedMemory` | clients/ms_conn.c:1571-1584 | a run of 749 datagrams, number 0 last, after which what was given out is no prefix of the payload |
| `ReadWindow.ReachedIsParse` | clients/ms_conn.c:2518-2557 | items taken one after the other are the first items of the stream, and the rest of the stream parses to the rest of them |
| `ReadWindow.StepKept` | clients/ms_conn.c:1373-1409 | more input does not change an item that is complete |
| `ReadWindow.LineReadBack` | clients/ms_conn.c:1371-1394 | a line sent with its line end is read back if and only if it is not empty and has no newline in it |
| `ReadWindow.PartComesOut` | clients/ms_conn.c:1160-1177 | a line that announces nothing, and a line that announces a value of its own length and the value, come out as they were sent, and what follows is parsed as what follows |
| `ReadWindow.ResponseComesOut` | clients/ms_conn.c:1160-1177 | a whole response, of any number of lines and values, comes out as it was sent, and nothing behind it |
| `ReadWindow.Connection.Compact` | clients/ms_conn.c:1661-1668 | moving the window to the front keeps its bytes; it stays only where the value fits behind it |
| `ReadWindow.Connection.Grow` | clients/ms_conn.c:1672-1683 | doubling keeps the window and leaves room; without memory the unread bytes are dropped |
| `ReadWindow.Connection.TryReadNetwork` | clients/ms_conn.c:1653-1734 | the window stays the stream minus what was taken; whenever a line or the rest of a value is awaited the first read has room |
| `ReadWindow.Connection.TryReadLine` | clients/ms_conn.c:1371-1412 | a line is taken exactly when the window has a newline; it is the first line of the untaken stream, and only its bytes go |
| `ReadWindow.Connection.CompleteNread` | clients/ms_conn.c:1853-1907 | a value is the next bytes of the stream, without its line end, and only they go |
| `ReadWindow.Connection.Shrink` | clients/ms_conn.c:2311-2333 | shrinking happens by the water marks and keeps the window |
| `ReadWindow.Connection.Reset` | clients/ms_conn.c:1276-1307 | what was not taken is dropped |
| `ReadWindow.Connection.ConnRead` | clients/ms_conn.c:2518-2538 | one visit takes the next item of the stream if it is complete, and otherwise reads the network, or drops what was read when an allocation fails |
| `ReadWindow.Connection.ReadResponse` | clients/ms_conn.c:2511-2557 | however the network cuts the stream and the buffer is moved, grown and shrunk, the items taken are the first items of the stream, and all of them when the operation ends; an allocation that fails ends it and drops what was read |
| `ReadWindow.Connection.ReceiveResponse` | clients/ms_conn.c:2511-2557 | of a response that a server sent, what is taken in any number of visits are its first items, and all of them when the operation ends |
| `ByteOrder.SwapIsInvolution` | example/byteorder.cc:60-87 | swapping the bytes of an n-byte number twice gives the number back |
| `ByteOrder.Swap64` | example/byteorder.cc:60-76 | the shifting loop reverses the eight bytes |
| `Storage.Store.NoDuplicateKeys` | example/storage.c:29-139 | no key is in the ring twice |
| `Storage.CreateItem` | example/storage.c:72-106 | a fresh entry with the given contents, or null exactly when memory runs out |
| `Storage.Store.PutItem` | example/storage.c:29-48 | the entry gets the next CAS value and becomes the root of one ring through all entries; the map gains its key |
| `Storage.Store.GetItem` | example/storage.c:50-70 | the walk ends and finds the entry of the key exactly when the map has it |
| `Storage.Store.DeleteItem` | example/storage.c:108-139 | exactly the entry of the key goes, though the root moves; the result says whether there was one |
| `Storage.Store.Flush` | example/storage.c:141-161 | the ring and the map become empty |
| `InterfaceV1.AddHandler` | example/interface_v1.c:25-57 | refines Add on the map, with status, CAS value and the case without memory |
| `InterfaceV1.SetHandler` | example/interface_v1.c:338-375 | refines Set: without memory the old item is gone |
| `InterfaceV1.ReplaceHandler` | example/interface_v1.c:296-336 | refines Replace |
| `InterfaceV1.ConcatHandler` | example/interface_v1.c:59-99 | refines append and prepend: without memory nothing changes |
| `InterfaceV1.DeleteHandler` | example/interface_v1.c:143-170 | refines Delete, which compares the CAS value |
| `InterfaceV1.FlushHandler` | example/interface_v1.c:173-179 | refines Flush |
| `InterfaceV1.ArithmeticHandler` | example/interface_v1.c:101-238 | refines increment with wrap-around and decrement that stops at zero, and reports the new value |
| `InterfaceV0.SetCommand` | example/interface_v0.c:333-394 | refines the raw set: next store and response message, field by field |
| `InterfaceV0.AddCommand` | example/interface_v0.c:396-446 | refines the raw add |
| `InterfaceV0.ReplaceCommand` | example/interface_v0.c:448-507 | refines the raw replace |
| `InterfaceV0.ConcatCommand` | example/interface_v0.c:265-331 | refines the raw append and prepend |
| `InterfaceV0.ArithmeticCommand` | example/interface_v0.c:163-239 | refines the raw increment and decrement: operands decoded from the packet, flags kept, value and CAS value in the response, which the quiet forms send only on failure |
| `InterfaceV0.FlushCommand` | example/interface_v0.c:138-161 | refines the raw flush |
| `InterfaceV0.DeleteCommand` | example/interface_v0.c:109-136 | refines the raw delete |
| `Database.SetLayersAgree` | example/interface_v0.c:333-394 | decoding a well-formed packet and running level 1 gives the next store, status and CAS value of level 0, without memory too |
| `Database.AddLayersAgree` | example/interface_v0.c:396-446 | the same for add |
| `Database.ReplaceLayersAgree` | example/interface_v0.c:448-507 | the same for replace |
| `Database.ConcatLayersAgree` | example/interface_v0.c:265-331 | the same for append and prepend |
| `Database.DeleteLayersAgreeIff` | example/interface_v0.c:109-136 | for delete, exactly when the CAS value is zero or right or the key is missing |
| `Database.ArithmeticLayersAgreeIff` | example/interface_v0.c:163-239 | a packet run through level 0 and, decoded, through level 1 gives the same store, status, CAS value and counter value exactly when there is no memory, no old item, or one without flags |
| `Database.RawArithmeticReports` | example/interface_v0.c:215-236 | whatever the flags, both levels report the same status, CAS value and counter value |
| `Database.LoadBack` | example/interface_v1.c:101-238 | a counter is read as it was stored, whatever lies behind it |
| `CasRuns.SuccessMeansDone` | example/interface_v1.c:25-375 | after a command that was answered with success the store holds what was asked for, in terms of what it held before: the given item, the old data with the new behind or before it, the counter plus or minus the delta; every other key keeps its item |
| `CasRuns.AnswersAre` | example/interface_v1.c:25-375 | the number that answers every command, by whether the key is there, the CAS value is right and there is memory; what the store holds after ENOMEM |
| `CasRuns.StepHasShape` | example/storage.c:163-166 | a command that stores hands out the next CAS value, to an item under its own key; every other key keeps its item or loses it |
| `CasRuns.CounterCountsStores` | example/storage.c:163-166 | in every run, of any length, the counter is the number of stores modulo 2^64 |
| `CasRuns.RunIsValid` | example/storage.c:163-166 | with fewer than 2^64 stores, the stored CAS values are non-zero and pairwise distinct |
| `CasRuns.CasIsSpentOnce` | example/interface_v1.c:296-336 | with fewer than 2^64 stores, at most one replace, append or prepend that carries a given non-zero CAS value succeeds |
| `CasRuns.CasIsNeverReused` | example/storage.c:163-166 | with fewer than 2^64 stores, later stores are given greater values |
| `CasRuns.CasHoldsIff` | example/storage.c:163-166 | the CAS values handed out are non-zero and pairwise distinct if and only if fewer than 2^64 stores were made |
| `CasRuns.OverflowIssuesZero` | example/storage.c:163-166 | every run that makes 2^64 stores is handed zero |
| `CasRuns.OverflowIsReached` | example/storage.c:163-166 | there is such a run: 2^64 times the same set |
| `CasRuns.RefusalsChangeNothing` | example/interface_v1.c:59-99 | EEXISTS and ENOENT leave the store as it was |
| `PacketRuns.PacketIsCommand` | example/interface_v0.c:109-507 | every well-formed packet changes the store and is answered as the command it decodes to, delete without its CAS field and arithmetic with its flags; a message after a store carries the new CAS value |
| `PacketRuns.PacketRunIsValid` | example/interface_v0.c:109-507 | in a run of packets with fewer than 2^64 stores, the stored CAS values are non-zero and pairwise distinct |
| `PacketRuns.PacketSpendsOnce` | example/interface_v0.c:265-507 | with fewer than 2^64 stores, at most one replace, append or prepend packet, loud or quiet, that carries a given non-zero CAS value is answered with success |
| `PacketRuns.PacketCasHoldsIff` | example/interface_v0.c:109-507 | the CAS values given to the items are non-zero and pairwise distinct if and only if fewer than 2^64 items were stored |
| `PacketRuns.PacketRefusalsChangeNothing` | example/interface_v0.c:109-507 | a packet answered with EEXISTS or ENOENT leaves the store as it was |
| `PacketCodec.NumberReadBack` | example/byteorder.cc:60-87 | a number written in network order, read by the machine and swapped, is the number |
| `PacketCodec.CommandReadBack` | example/interface_v0.c:163-507 | the command that a level-0 handler reads from the bytes a client wrote is the command written: key, data, flags, expiration, CAS value, delta and initial value |
| `PacketCodec.OpcodeTells` | libmemcached/memcached/protocol_binary.h:93-121 | the opcode byte of a written command names its handler and no other |
| `PacketCodec.ResponseReadBack` | example/interface_v0.c:109-507 | from the bytes of the response the client reads its own opcode and tag, the number of the answer and, after a store, the CAS value of the stored item |
| `PacketCodec.CounterReadBack` | example/interface_v0.c:163-239 | and after an increment or decrement the counter as it is stored |
| `Serving.ServeOrders` | example/interface_v0.c:109-507 | any sequence of commands, written as packets and served on the linked list, goes through the run of exactly these commands; whoever is told success finds in the store what was asked for |
| `Serving.ServeAll` | example/interface_v1.c:25-375 | any sequence of commands on the linked list goes through the databases of a run, and every answer is that of the run |
| `Serving.ServeSpendsOnce` | example/interface_v1.c:59-375 | so no CAS value is spent twice on the linked list either |
| `Serving.ServePackets` | example/interface_v0.c:109-507 | any sequence of packets on the linked list goes through the databases of a run of packets, and every reply is that of the run |
| `Serving.ServePacketsSpendsOnce` | example/interface_v0.c:265-507 | so no CAS value is spent twice by packets on the linked list either |
| `Md5Compress.SelectsByFirst` | libhashkit/md5.cc:95-95 | bit by bit, F takes y or z, as x says |
| `Md5Compress.SelectsByLast` | libhashkit/md5.cc:96-96 | G takes x or y, as z says |
| `Md5Compress.IsParity` | libhashkit/md5.cc:97-97 | H is one where an odd number of the three are |
| `Md5Compress.InvertsByBoth` | libhashkit/md5.cc:98-98 | I inverts y exactly where x is one or z is zero |
| `Md5Compress.Decode` | libhashkit/md5.cc:344-354 | the loop yields the little-endian words of the input |
| `Md5Compress.Transform` | libhashkit/md5.cc:231-320 | the 64 unrolled steps are the 64 table-driven steps of section 3.4 of RFC 1321 |
| `Md5.WordOfBytes` | libhashkit/md5.cc:325-354 | decoding the bytes of a word gives the word |
| `Md5.BytesOfWord` | libhashkit/md5.cc:325-354 | encoding the word of four bytes gives the bytes |
| `Md5.DecodeUndoesEncode` | libhashkit/md5.cc:325-354 | decoding what was encoded gives the words back |
| `Md5.EncodeUndoesDecode` | libhashkit/md5.cc:325-354 | encoding what was decoded gives the bytes back |
| `Md5.DigestTellsRegisters` | libhashkit/md5.cc:222-222 | two messages have the same digest if and only if they end in the same registers |
| `Md5.WordsTellBlock` | libhashkit/md5.cc:344-354 | different blocks are different words |
| `Md5.Encode` | libhashkit/md5.cc:325-338 | the loop puts out the bytes of the words, low-order byte first |
| `Md5.ChainConcat` | libhashkit/md5.cc:179-190 | the registers after whole blocks and a rest are those after the rest, begun from the blocks |
| `Md5.CountAdds` | libhashkit/md5.cc:171-175 | the two words of the count, with the carry, count the bits modulo 2^64 |
| `Md5.GuardWorksIff` | libhashkit/md5.cc:185-186 | the loop over blocks, counting in 32 bits, stops where it should if and only if the length fits |
| `Md5.LongInputDoesNotFit` | libhashkit/md5.cc:185-186 | after one byte, an input of 2^32 - 1 bytes does not fit |
| `Md5.ShortInputFits` | libhashkit/md5.cc:185-186 | an input of at most 2^32 - 64 bytes always fits, and any 32-bit length does at the start |
| `Md5.Context.constructor` | libhashkit/md5.cc:144-153 | the context holds the empty message |
| `Md5.Context.Update` | libhashkit/md5.cc:160-196 | the message held grows by the input: registers, bit count and buffered tail are those of the concatenation |
| `Md5.PaddingIs` | libhashkit/md5.cc:216-219 | the code's padding is that of section 3.1 of RFC 1321 |
| `Md5.Context.Final` | libhashkit/md5.cc:202-227 | the digest of sections 3.1 to 3.5 of RFC 1321 of the message held; the context is wiped |
| `Md5.Signature` | libhashkit/md5.cc:133-140 | the digest of the key, for every 32-bit length |
| `Md5.DigestOfPieces` | libhashkit/md5.cc:160-227 | any split of a message into updates gives the digest of the message |
| `Md5.HashkitMd5` | libhashkit/md5.cc:356-367 | the first register after the padded key, whose length is cut to 32 bits |
| `Md5Answer.DigestOfAbc` | libhashkit/md5.cc:133-227 | the digest of "abc" is the one in the test suite of section A.5 of RFC 1321 |
| `Md5Answer.RegistersOfAbc` | libhashkit/md5.cc:356-367 | the registers at its end, of which hashkit_md5 returns the first |
| `Jenkins.MixUndone` | libhashkit/jenkins.cc:20-28 | mixing is a permutation of the internal states |
| `Jenkins.BlocksNeverMerge` | libhashkit/jenkins.cc:73-112 | keys of one length that differ in one twelve-byte block reach the final mixing in different states |
| `Jenkins.RunIsFinal` | libhashkit/jenkins.cc:210-212 | the hash of a key that is not empty is the final mixing of that state |
| `Jenkins.JenkinsMix` | libhashkit/jenkins.cc:20-28 | the macro is six turns of one operation |
| `Jenkins.JenkinsFinal` | libhashkit/jenkins.cc:30-39 | the macro is seven turns of another |
| `Jenkins.HashWords` | libhashkit/jenkins.cc:69-112 | the 32-bit path computes the hash of the key alone, whatever lies behind the key in its last word |
| `Jenkins.HashHalves` | libhashkit/jenkins.cc:113-162 | the 16-bit path computes the same function |
| `Jenkins.HashBytes` | libhashkit/jenkins.cc:163-206 | so does the byte-wise path |
| `Jenkins.HashkitJenkins` | libhashkit/jenkins.cc:59-213 | the result does not depend on the address of the key |
| `HashSteps.StepUndone` | libhashkit/one_at_a_time.cc:22-28 | for a given value every step is a permutation of the states |
| `HashSteps.ValueRecovered` | libhashkit/fnv_32.cc:50-55 | for a given state every step tells its values apart |
| `HashSteps.ApartAfter` | libhashkit/murmur.cc:43-56 | a change of one value changes every later state |
| `Fnv.LowTimes` | libhashkit/fnv_64.cc:54-54 | the low word of the 64-bit product depends on the low word alone |
| `Fnv.HashkitFnv1` | libhashkit/fnv_32.cc:45-58 | the loop is the run of steps over the key |
| `Fnv.HashkitFnv1a` | libhashkit/fnv_32.cc:60-73 | the same |
| `Fnv.HashkitFnv1Wide` | libhashkit/fnv_64.cc:47-59 | the 64-bit loop, cut to 32 bits, is a run of 32-bit steps |
| `Fnv.HashkitFnv1aWide` | libhashkit/fnv_64.cc:61-73 | the loop is the run of steps with the low words of the 64-bit constants |
| `Fnv.NeverCollides` | libhashkit/fnv_32.cc:45-73 | keys of one length that differ in one byte have different hashes, in all four variants and for either char |
| `OneAtATimeHash.HashkitOneAtATime` | libhashkit/one_at_a_time.cc:16-34 | the loop and the last mixing are the run of steps and a permutation |
| `OneAtATimeHash.NeverCollides` | libhashkit/one_at_a_time.cc:16-34 | keys of one length that differ in one byte have different hashes |
| `MurmurHash.HashkitMurmur` | libhashkit/murmur.cc:22-79 | the loop, the tail and the last mixing are the run over the blocks, one more value and a permutation |
| `MurmurHash.BlockNeverCollides` | libhashkit/murmur.cc:43-78 | keys of one length that differ in one four-byte block have different hashes |
| `MurmurHash.TailNeverCollides` | libhashkit/murmur.cc:60-78 | so have keys that differ only behind the last block |
| `Crc32.TableIs` | libhashkit/crc32.cc:9-74 | all 256 entries of the table are what eight single-bit steps do to their index |
| `Crc32.TableStep` | libhashkit/crc32.cc:82-83 | one step by table is eight steps by bit |
| `Crc32.HashkitCrc32` | libhashkit/crc32.cc:76-86 | bits 16 to 30 of the CRC-32 of section 8 of RFC 1952, whether or not char has a sign |
| `HashAnswers.OneAtATimeOfApple` | tests/hash_results.h:45-45 | the hash of "apple" is the one the tests expect |
| `HashAnswers.Fnv1OfApple` | tests/hash_results.h:82-82 | the same |
| `HashAnswers.Fnv1aOfApple` | tests/hash_results.h:90-90 | the same |
| `HashAnswers.Fnv1LowOfApple` | tests/hash_results.h:66-66 | the same |
| `HashAnswers.Fnv1aLowOfApple` | tests/hash_results.h:74-74 | the same |
| `HashAnswers.MurmurOfApple` | tests/hash_results.h:109-109 | the same |
| `HashAnswers.CrcOfApple` | tests/hash_results.h:61-61 | the same, and the CRC-32 it is taken from |
| `HashAnswers.JenkinsOfApple` | tests/hash_results.h:120-120 | the same |
| `HashAnswers.JenkinsOfFourScore` | libhashkit/jenkins.cc:69-212 | with an initial value of zero, "Four score and seven years ago" gives the answer published with lookup3 |

## Left out

- The ENABLE_REPLICATION branches of libmemcached/arcus.cc, the pool branch of arcus_server_check_for_update, and the hand-over of a server list to the library.
- The start of the manager: it is modelled from the moment its thread has set `running`. The global count of ZooKeeper clients in do_arcus_zk_connect and do_arcus_zk_close is left out.
- ArcusManager.StopNeverDeadlocks: zookeeper_close is taken to return; whether the library waits in it for callbacks that are themselves waiting for lock_arcus is not part of this model. The second wait of the starting thread, on cond_arcus, counts as another use of lock_arcus.
- ArcusManager.StopTerminates: bounds the steps of the manager. That arcus_close ends needs fair mutexes besides: callbacks that keep taking lock_arcus could starve it.
- ArcusProxy.ClientsHoldAPublishedList: the version counter does not wrap around, and there is one client per process.
- ArcusNodeList.ParseName: the port is computed without the overflow of `int` in atoi.
- ArcusNodeList.PublishNames: asks that the joined names fit the shared buffer, which the code does not test.
- ArcusNodeList.ReadProxied: asks that the slots suffice, which the code does not test; `ArcusNodeList.AllocationSufficesIff` says when they do.
- ArcusNodeList.ParseList: asks the same.
- SendList.Conn.AddIov: the allocations of ms_add_msghdr, whose result ms_add_iov does not look at, succeed, and the 32-bit sum of a length and msgbytes does not overflow.
- The contents of the header slots: `Transmit` begins when ms_build_udp_headers has filled them. That function refuses a UDP request of more than one message, so a list of several datagrams is built and not sent.
- Transmit.Sender.Drain: does not model the event loop between two calls.
- UdpSort.UdpConn.Sort: datagrams are distinct, all but the highest-numbered are full, and a short one arrives last.
- UdpSort.UdpConn.Session: asks the same of the arrivals.
- UdpSort.UdpConn.Receive: the reallocation succeeds; after a failed one the code drops what was read.
- ReadWindow.Connection.ReadResponse: ends with an allocation that fails; the code goes on reading behind the dropped bytes.
- ReadWindow.Connection.TryReadLine: what a line means is a parameter; a value length is not negative. The binary protocol takes its headers and bodies from the same window and is left out.
- InterfaceV1.ArithmeticHandler: the bytes behind a value shorter than eight bytes are a parameter.
- The get, stat, version, noop and quit handlers.
- Storage.Store.PutItem: asks that the key is not stored, as every caller has made sure; put_item itself would add a second entry.
- Storage.Store.Flush: freeing memory is not modelled; an entry that was removed is out of the ring.
- Jenkins.HashkitJenkins: little-endian machine. A memory image is given in whole words when the address is aligned.
- Md5.Context.Update: asks that the length fits, which is exactly when the loop stops where it should.
- ketama.cc, whose body is disabled, and hsieh.cc, whose step is not a permutation.
- Option parsing, statistics, task selection and printing of the clients.
