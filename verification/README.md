# EtherApe: what its stateful cores keep

EtherApe watches a network and draws who talks to whom. Under its window there are a few cores that do
their work with shared pointers, reference counts, incremental sums and threads. This project models those
cores in Dafny, in the form the C code has (classes whose methods change fields in place, loops that move
cursors), and proves what they keep: over every call, over every run and over every interleaving.

Each core has a description as a value, a heap form that is proved to do what the description says, and
theorems about the description.

- **The DNS name cache** (`IpCacheSpec`, `IpCacheRuns`, `CacheLaws`, `IpCacheItem`, `IpCacheIndex`, `IpCacheRing`,
  `IpCache`).
  Two hash indices, whose buckets are sorted doubly linked lists entered at a moving finger, and a circular
  list of answered items share the same heap items. Together they refine a map from addresses to entries
  and a move-to-front list. Over every run that list is a prefix of the addresses by last use, it holds
  exactly the items ever answered, and items that wait for their first answer survive everything. `CacheLaws` says
  in figures when an address leaves the cache and when it is asked for again.
- **The resolver** (`Resolver`, `RequestQueue`, `NameService`, `LookupRuns`, `LateReports`,
  `NameRefresh`, `ThreadResolver`). A pool of threads with one
  mutex, one condition and one queue, as atomic steps in any interleaving: no wakeup is lost, requests are
  taken in order and once, the threads come to rest, and at rest every address in the cache has had an answer.
  Together with the cache: a thread finds the item that it reports on exactly if no act since the lookup
  cleared or evicted it. `ThreadResolver` is the same in memory, with the items that threads hold.
- **Traffic accounting** (`BasicStats`, `Protocols`, `Traffic`, `TrafficRuns`, `TrafficStats`, `Decode`, `NodeIds`,
  `MonitorSpec`, `MonitorRuns`, `MonitorTotals`, `OutOfOrder`, `QueueLives`, `CatalogRuns`, `Ledger`, `Capture`, `Program`, `Conversations`). Each packet is
  shared by four queues (source, destination, link, summary) with counters kept by adding and
  subtracting. `Traffic` proves that the counters always are the sums over the queue. `MonitorRuns` proves
  that all queues of a capture are the views of one window of packets, although each is purged on
  its own and nodes and links come and go, exactly as long as packets leave the window in the order in which
  they arrived. From this follow the equality of the four ways of adding up
  traffic and the four references of each packet. `QueueLives` and `CatalogRuns` tell from the packets alone what a
  queue has recorded, which protocols it lists, and which nodes and links are known. `Capture` is the same in
  memory, with exact reference counts, and `Program` takes it through every event.
- **Smaller algorithms**: the table of conversations with wildcard ports (`Conversations`), the one-pass
  merge of table rows and catalog (`NodesTable`), and the compaction of colour preferences (`Colours`,
  `ColourTable`, `CompactColours`).

Where to start reading: `IpCacheRuns.ActiveListIsMostRecentlyUsed`, `MonitorRuns.EveryRunRefinesIff`,
`MonitorTotals.AccountsAgree`, `Program.Packet`, `LookupRuns.ReportFindsItemIff`, `CompactColours.CompactKeepsColoursIff`.

Check everything with `dafny verify dfyconfig.toml`.

## Conventions

- Times are whole microseconds and byte counts whole numbers; averages are reals. Protocol names and host
  names are strings, addresses are sequences of bytes.
- What the environment decides is an argument: the clock, the numbers drawn by the generators, what the
  decoders find in a packet, what the name server answers, which sleeping thread a signal wakes.
- A run of a capture is a series of events in which every new packet is new memory (`MonitorSpec.Enabled`). About
  time nothing is assumed: packets carry the stamps of the capture library, and the clock of the program may be
  before or behind them. One refresh of the diagram (nodes, new nodes, links, summary) is one event with one time;
  `Capture.UpdateDiagram` performs it step by step.

## Where the code differs from what it says

- The comment in `ipcache_prepare_request` speaks of doubling the refresh time. The code doubles the tick of
  the last expiry, which is a point in time and not a delay; the model does the same, so that only the bound
  of `IpCacheSpec.ExpireTick` holds.
- `protohash_read_prefvect` ignores whether a colour can be parsed, so an unknown colour is read as the one
  before it; `remove_spaces` removes white space that does not separate protocols when they are read. Both
  make compaction change colours (`CompactColours.UnknownColourMoves`, `CompactColours.CarriageReturnIsLost`), and so
  does a protocol under two colours (`CompactColours.TwoColoursClash`). When it does is stated for all preferences
  by `CompactColours.CompactKeepsColoursIff`.
- After `protohash_read_prefvect` the cycle of free colours starts at its last colour, because the pointer to
  the current colour is not moved when the list is reversed.
- A packet of size zero can lose its protocols while it is still queued (`Traffic.EmptyPacketLosesItsProtocol`);
  exactly when is `TrafficRuns.ProtocolIsLost`. The counters stay right all the same: the theorems about runs hold
  for packets of any size.
- A thread can report on an item that is no longer in the cache: exactly when is `LookupRuns.ReportFindsItemIff`,
  and `LateReports.ReportsTooLate` is such a run.
- Packets that several interfaces deliver out of order make the accounts of nodes, links and summary disagree
  (`OutOfOrder.AccountsDisagree`), because each queue is purged from its tail. Exactly when queues and window part is
  `MonitorRuns.EveryRunRefinesIff`; with stamps in order of arrival they do not (`MonitorRuns.StampsKeepOrder`).

## Model

| member | source | states |
|---|---|---|
| `Bytes.MemcmpIsRankOrder` | src/ip-cache.c:454-477 | comparing addresses byte by byte is the order of the numerals they spell: negative, zero or positive exactly as one is below, equal to or above the other |
| `Bytes.AddressCompare` | src/common.h:114-118 | the sign of the comparison of two addresses is the order of the addresses as numerals; it is zero only for equal ones |
| `IpCacheItem.SeekGapId` | src/ip-cache.c:302-336 | from any member of a bucket sorted by id, walking forward or back ends at the one place where a missing id belongs |
| `IpCacheItem.SeekGapIp` | src/ip-cache.c:359-393 | the same for a bucket sorted by address |
| `IpCacheItem.SeekId` | src/ip-cache.c:429-450 | from any member of the bucket the two-way search ends, and where it stops is the item with the id, if any member has it |
| `IpCacheItem.SeekIp` | src/ip-cache.c:454-477 | the same for a bucket sorted by address |
| `IpCacheItem.SpliceId` | src/ip-cache.c:302-336 | linking an item in at a place keeps next and previous inverse to each other along the whole bucket |
| `IpCacheItem.SpliceIp` | src/ip-cache.c:359-393 | the same for the links by address |
| `IpCacheItem.CutId` | src/ip-cache.c:339-356 | taking a member out keeps next and previous inverse to each other along what is left |
| `IpCacheItem.CutIp` | src/ip-cache.c:396-413 | the same for the links by address |
| `IpCacheIndex.KeysUnique` | src/ip-cache.c:302-336 | in a well formed index a key belongs to one item at most |
| `IpCacheIndex.LinkResolveId` | src/ip-cache.c:302-336 | inserting an item with a new id from wherever the finger stands keeps every bucket an acyclic, doubly linked, strictly sorted list of exactly the items with its hash, with a finger on a member; the finger of its own bucket becomes the new item and the other fingers stay |
| `IpCacheIndex.LinkResolveIp` | src/ip-cache.c:359-393 | the same for the index by address |
| `IpCacheIndex.UnlinkResolveId` | src/ip-cache.c:339-356 | removing an item keeps the index well formed for the items that remain; only a finger that points to it moves, to a member of what is left or to null if the bucket is empty then |
| `IpCacheIndex.UnlinkResolveIp` | src/ip-cache.c:396-413 | the same for the index by address |
| `IpCacheIndex.FindId` | src/ip-cache.c:429-450 | a search by id answers an item exactly when some item has the id; the finger of its bucket goes to the item found and stays if there is none, and no other finger and no link moves |
| `IpCacheIndex.FindIp` | src/ip-cache.c:454-477 | the same for a search by address |
| `IpCacheRing.PushRing` | src/ip-cache.c:265-299 | linking an item between head and tail makes the circular list with it in front |
| `IpCacheRing.CutRing` | src/ip-cache.c:224-245 | unlinking a member leaves the circular list of the others |
| `IpCacheSpec.Kept` | src/ip-cache.c:249-261 | a purge leaves a list of up to 1024 items as it is, and of a longer one the first 1013 |
| `IpCacheSpec.ExpireTick` | src/ip-cache.c:160-170 | an expiry is never in the past and less than 86400 + 720 ticks ahead, whatever delay is asked for |
| `IpCacheSpec.Pick` | src/ip-cache.c:480-511 | the generator loop ends with the first drawn id that no item uses |
| `IpCache.Cache.constructor` | src/ip-cache.c:188-197 | the cache starts empty, with both indices and the list well formed |
| `IpCache.Cache.UnlinkActive` | src/ip-cache.c:224-245 | an item leaves the circular list, the counter follows, and a sole or head item is replaced correctly; an item that is not on it changes nothing |
| `IpCache.Cache.UnlinkResolve` | src/ip-cache.c:417-426 | an evicted item leaves both indices and the list, and everything else stays |
| `IpCache.Cache.PurgeActive` | src/ip-cache.c:249-261 | a list of up to 1024 items is left as it is; of a longer one exactly the items behind the first 1013 leave all three structures |
| `IpCache.Cache.LinkActive` | src/ip-cache.c:265-299 | whatever the list looks like, the item becomes its head; nothing else moves except for the purge before a new item enters |
| `IpCache.Cache.Clear` | src/ip-cache.c:636-644 | clearing removes every item on the list and no other |
| `IpCache.Cache.Tick` | src/ip-cache.c:147-151 | the clock moves by one |
| `IpCache.Cache.FindById` | src/ip-cache.c:429-450 | finds an item by id exactly when there is one |
| `IpCache.Cache.FindByIp` | src/ip-cache.c:454-477 | finds the item that the map from addresses gives, or none if it gives none |
| `IpCache.Cache.AllocItem` | src/ip-cache.c:480-511 | a new item enters both indices under an unused id and the view gains one pending entry |
| `IpCache.Cache.CalcExpireTick` | src/ip-cache.c:160-170 | both expiry fields are set to the clamped and randomized tick |
| `IpCache.Cache.PrepareRequest` | src/ip-cache.c:515-545 | finds or creates the item of the address and marks it as requested, in memory as in the map |
| `IpCache.Cache.RequestFailed` | src/ip-cache.c:549-560 | a failure marks the item and moves it to the front, but never replaces a good answer |
| `IpCache.Cache.RequestSucceeded` | src/ip-cache.c:564-588 | an answer stores name and expiry and moves the item to the front |
| `IpCache.Cache.GetNameIp` | src/ip-cache.c:595-633 | a lookup answers the known name, moves an answered item to the front, and tells that a request is due exactly if no item has the address or its tick of expiry has passed |
| `IpCacheRuns.ApplyKeepsInv` | src/ip-cache.c:224-299 | every operation keeps: the list has no duplicates and at most max_active + 1 members, and holds exactly the items ever answered; ids are unique 16-bit numbers |
| `IpCacheRuns.RunKeepsInv` | src/ip-cache.c:480-588 | so does every run of operations |
| `IpCacheRuns.Reachable` | src/ip-cache.c:247-299 | in every state reachable from the empty cache the list has at most 1025 members, and an item is on it exactly if it was ever answered |
| `IpCacheRuns.PendingSurvives` | src/ip-cache.c:247-299 | an item that was never answered survives every purge, clear, lookup and answer for others, under its own id, until its first answer |
| `IpCacheRuns.ActiveListIsMostRecentlyUsed` | src/ip-cache.c:265-299 | after any run the list is a prefix of the addresses ordered by last use: eviction is strictly least recently used |
| `IpCacheRuns.NameStays` | src/ip-cache.c:549-588 | a found name is what lookups answer, whatever fails or is purged, until the address is asked for again or evicted |
| `CacheLaws.LeavesCacheIff` | src/ip-cache.c:249-299 | an address leaves the cache exactly if the cache is cleared and it was answered, or 1025 are listed, an address gets its first answer, and it is not one of the 1013 used last |
| `CacheLaws.EnoughAreKept` | src/ip-cache.c:249-299 | in every run without clearing, the 1014 addresses used last are on the list, or all that were ever used |
| `CacheLaws.FoundIsDue` | src/ip-cache.c:564-588 | a found address keeps its name, and is not due for a twelfth of the seconds that the answer holds, at most 86400 ticks; up to 720 ticks later it is |
| `CacheLaws.NotFoundIsDue` | src/ip-cache.c:549-560 | an address that was not found has no name and is due 8640 to 9360 ticks later; a failure after a name was found changes nothing |
| `CacheLaws.AskedIsDue` | src/ip-cache.c:515-545 | an address that was asked for has no name until the answer, and when a further request is due: at once, 18 ticks later if it had been answered, or after twice the tick of its last expiry, or up to 12 ticks after that |
| `CacheLaws.ClockCountsTicks` | src/ip-cache.c:147-151 | the clock of the cache is the number of its ticks |
| `RequestQueue.RequestQueue.constructor` | src/thread_resolve.c:67-68 | the request list starts empty |
| `RequestQueue.RequestQueue.Append` | src/thread_resolve.c:230-245 | a request goes to the end of the list, also when the tail pointer is stale |
| `RequestQueue.RequestQueue.Take` | src/thread_resolve.c:125-135 | the first request is taken, or none if the list is empty |
| `NameService.NameService.SendRequest` | src/thread_resolve.c:220-251 | the cache is prepared for the address and exactly one request joins the list, for the item of the address, which is new memory if the cache had none |
| `NameService.NameService.Lookup` | src/thread_resolve.c:282-302 | a lookup answers what the cache knows, and sends a request, for the item of the address, exactly if no item has the address or its tick of expiry has passed |
| `Resolver.StepKeepsWakeups` | src/thread_resolve.c:105-162 | every step keeps: while a thread waits there are at least as many woken threads as queued requests; no thread waits once the pool is stopped |
| `Resolver.StepKeepsFifo` | src/thread_resolve.c:125-162 | every step keeps: what was enqueued is what was taken followed by what is queued, and what was taken is in flight, answered or abandoned |
| `Resolver.StepKeepsInv` | src/thread_resolve.c:94-165 | both together, for every step of every thread |
| `Resolver.RunKeepsInv` | src/thread_resolve.c:94-251 | and so for every interleaving; the pool never forgets a stop |
| `Resolver.NoLostWakeup` | src/thread_resolve.c:109-113 | in every interleaving the queue is never nonempty while all threads that have not exited are blocked, although the wait is guarded by an if and each request signals once |
| `Resolver.EachRequestOnce` | src/thread_resolve.c:125-162 | in every interleaving requests are taken in the order in which they were enqueued, and each is exactly once queued, in the hands of a thread, answered, or abandoned after a stop; the numbers add up |
| `Resolver.OneThreadPerRequest` | src/thread_resolve.c:128-135 | no two threads ever work on the same request |
| `Resolver.StepWorks` | src/thread_resolve.c:105-162 | each step of a thread lowers the work left; a wakeup without signal raises it by at most three |
| `Resolver.WorkIsBounded` | src/thread_resolve.c:105-162 | without new requests the threads take a bounded number of steps |
| `Resolver.RestMeansDone` | src/thread_resolve.c:105-162 | when no thread can take a step every request has been answered, or all threads have exited after a stop |
| `Resolver.StoppedNeverWaits` | src/thread_resolve.c:203-214 | once the pool is stopped no thread ever waits again |
| `Resolver.StoppedThreadsLeave` | src/thread_resolve.c:105-162 | once the pool is stopped no request is taken, and every thread exits at its next step; only one that is about to report does so first |
| `LookupRuns.StepKeepsInv` | src/thread_resolve.c:281-302 | every act keeps: each item of the cache without an answer is owed one by a request for this very item, and until a request for an item is answered the item is in the cache |
| `LookupRuns.NoLookupForgotten` | src/thread_resolve.c:219-251 | in every interleaving an item of the cache without an answer has a request for this item in the queue, in a thread, or abandoned after a stop |
| `LookupRuns.FirstAnswerFindsItem` | src/thread_resolve.c:154-159 | in every interleaving the request whose answer is the first for its item finds this item in the cache, not evicted or cleared, and still without an answer |
| `LookupRuns.RestAnswersAll` | src/thread_resolve.c:151-160 | in every interleaving, when the threads of a running pool have come to rest every address in the cache has had an answer |
| `LookupRuns.NoThreadStuck` | src/thread_resolve.c:105-162 | whatever step a thread can take in the pool, it can take together with the cache: if its item is gone it reports nevertheless |
| `LookupRuns.ActsAreBounded` | src/thread_resolve.c:105-162 | without new lookups the threads act a bounded number of times, whatever the clock and the cache do: so they come to rest |
| `LookupRuns.LeavesIff` | src/ip-cache.c:249-299 | the item of a request leaves the cache with an act exactly if the act clears it from the list of answered items or is an answer whose purge drops it; and it never comes back |
| `LookupRuns.PresentIff` | src/ip-cache.c:249-299 | along any run the item of a request stays in the cache exactly if it is in it at the start and no act of the run clears or evicts it |
| `LookupRuns.ReportFindsItemIff` | src/thread_resolve.c:151-160 | at whatever time a thread reports on a request, it finds the item of the request in the cache exactly if no act since the lookup cleared or evicted it |
| `LateReports.ReportsTooLate` | src/thread_resolve.c:151-160 | and it need not: two lookups of one address, a tick apart, an answer and a clearing leave the second thread reporting on an item that is gone. The program clears the cache only when it exits, while the threads still run (src/main.c:294-300); in mid-run it is an eviction that takes the item out, as LeavesIff says |
| `NameRefresh.AsksIff` | src/thread_resolve.c:281-302 | a lookup sends one request exactly if the cache does not hold the address or its tick of expiry has passed |
| `NameRefresh.NameIsAskedAgain` | src/thread_resolve.c:281-302 | a name that was found is what lookups answer, and it is not asked for again for 7200 ticks, whatever is looked up, answered and evicted meanwhile, and from 7920 ticks on every lookup asks for it, as long as the cache holds it |
| `ThreadResolver.ThreadResolver.constructor` | src/thread_resolve.c:94-201 | the threads start with an empty cache and an empty list |
| `ThreadResolver.ThreadResolver.Enter` | src/thread_resolve.c:105 | in memory a thread that tests the stop flag takes the step of the pool |
| `ThreadResolver.ThreadResolver.Lock` | src/thread_resolve.c:107-113 | so does a thread that finds the list empty and waits, or goes on |
| `ThreadResolver.ThreadResolver.TakeOrLeave` | src/thread_resolve.c:115-135 | under the mutex a thread leaves the pool if it is stopped, or takes the first item of the list in its hands, or finds none |
| `ThreadResolver.ThreadResolver.Resume` | src/thread_resolve.c:109-135 | a thread that was woken goes on in the same way |
| `ThreadResolver.ThreadResolver.Resolved` | src/thread_resolve.c:141-152 | after the name server has answered a thread leaves the pool if it is stopped, and reports otherwise |
| `ThreadResolver.ThreadResolver.HeldIsPresent` | src/thread_resolve.c:151-160 | the item in the hands of a reporting thread is in the cache exactly if its request finds it there |
| `ThreadResolver.ThreadResolver.ReportFailed` | src/thread_resolve.c:154-159 | a report without an answer on an item of the cache does to the cache and the pool what the act says |
| `ThreadResolver.ThreadResolver.ReportSucceeded` | src/thread_resolve.c:154-159 | so does a report with a name |
| `ThreadResolver.ThreadResolver.Lookup` | src/thread_resolve.c:281-302 | a lookup in memory answers the known name and does to cache, list and threads what the act says: one request more exactly if no item has the address or its tick of expiry has passed, for the item in memory, and a new item gets a new number |
| `ThreadResolver.ThreadResolver.StopPool` | src/thread_resolve.c:203-214 | stopping sets the flag and wakes every waiting thread |
| `ThreadResolver.ThreadResolver.Clear` | src/ip-cache.c:636-644 | clearing the cache leaves the items in the hands of threads out of it exactly as the act says |
| `ThreadResolver.ThreadResolver.FirstReportIsLive` | src/thread_resolve.c:154-159 | a thread that reports the first answer for an item holds an item of the cache in memory, without an answer: it was not freed |
| `ThreadResolver.ThreadResolver.RestInMemory` | src/thread_resolve.c:105-162 | when all threads of a running pool wait, the list in memory is empty and every item of the cache has had an answer |
| `Decode.Decoder.constructor` | src/decode_proto.c:218-232 | decoding starts with an empty stack at level one |
| `Decode.Decoder.Add` | src/decode_proto.c:233-245 | a name goes to the next level, and beyond the fifth it is ignored |
| `Decode.Decoder.GetPacketProt` | src/decode_proto.c:358-374 | after any decoder the stack holds its first five names in order, and level 0 a copy of the deepest |
| `Decode.DecodedStackIsOk` | src/decode_proto.c:358-374 | whatever a decoder adds, the named levels are a prefix and level 0 repeats the topmost |
| `Decode.StackTellsNames` | src/decode_proto.c:217-245 | from level 1 on the stack tells the first five names in the order in which they were added, and level 0 is the last of them |
| `Protocols.AddToFacts` | src/protocols.c:70-99 | adding a packet at a level moves the window and the accumulated bytes of its protocol, created if need be, and the level sum by its size, and no other protocol |
| `Protocols.SubFromFacts` | src/protocols.c:102-131 | subtracting moves the protocol and the level sum back by the size |
| `Protocols.ExpireFacts` | src/protocols.c:157-189 | expiry takes out only protocols without bytes in the window, so no sum changes |
| `Protocols.SortFacts` | src/protocols.c:231-242 | sorting a level changes no counter |
| `Protocols.SortedHeadIsMostUsed` | src/protocols.c:231-242 | the first protocol of a sorted level has the most accumulated bytes |
| `Protocols.SortIsStable` | src/protocols.c:231-242 | sorting puts protocols in descending order of accumulated bytes, and leaves those with equally many in the order in which they were |
| `Protocols.SubStackIsPointwise` | src/protocols.c:102-131 | on a prefix-closed stack whose protocols are all listed, stopping at the first empty level subtracts at exactly the named levels |
| `Traffic.NamedIsListed` | src/protocols.c:113-130 | a protocol named by a queued packet that is not empty is always listed, so its subtraction never reaches the not-found branch |
| `Traffic.AddIsConsistent` | src/traffic_stats.c:70-95 | adding a packet keeps every counter equal to the sum over the queue: total, in, out, each protocol, each level |
| `Traffic.DropIsConsistent` | src/traffic_stats.c:98-136 | so does subtracting the packet at the tail |
| `Traffic.PurgeIsConsistent` | src/traffic_stats.c:98-136 | so does purging packets and expiring protocols |
| `Traffic.UpdateIsConsistent` | src/traffic_stats.c:141-170 | so does a whole update |
| `Traffic.RefreshIsConsistent` | src/node.c:231-281 | so does an update followed by sorting every level |
| `Traffic.PurgeIsFilterIff` | src/traffic_stats.c:98-136 | popping expired packets off the tail keeps exactly the packets younger than the expiry time if and only if no expired packet was queued after one that has not expired |
| `Traffic.PurgeIsFilter` | src/traffic_stats.c:98-136 | so it is whenever timestamps are in order of arrival |
| `Traffic.UpdateAverages` | src/traffic_stats.c:141-170 | after an update every average is 8000 * bytes / milliseconds, also when no packet is left |
| `Traffic.RefreshAverages` | src/node.c:231-281 | the same after sorting |
| `TrafficRuns.LifeIsRecorded` | src/basic_stats.c:210-219 | whatever is purged and averaged meanwhile, accumulated bytes, packet count, mean size and last time are those of all packets ever added, per direction |
| `Traffic.LevelsShrink` | src/protocols.c:79-98 | the bytes at level 0 are those at level 1, and deeper levels never count more |
| `Protocols.ExpireKeepsIff` | src/protocols.c:157-189 | a listed protocol survives expiry exactly if it has bytes in the window or was added to less than the expiry time ago |
| `Traffic.ProtocolIsLostIff` | src/protocols.c:157-189 | expiry takes out a listed protocol exactly if every queued packet that names it is empty and it was last added to at least the expiry time ago |
| `TrafficRuns.LifeIsConsistent` | src/traffic_stats.c:70-170 | after any life of a queue, with packets of any size, every counter is the sum over the queue |
| `TrafficRuns.ProtocolsAreRecorded` | src/protocols.c:70-99 | after any life of a queue the accumulated bytes, number of packets and mean size of a listed protocol are those of the packets added under its name at its level since it was put on the list, and its time is that of the last of them |
| `TrafficRuns.MostUsedCarriedMost` | src/protocols.c:231-242 | after a refresh that leaves packets the first protocol of each level is the one that carried the most bytes since it was put on the list |
| `TrafficRuns.ProtocolStaysIff` | src/protocols.c:157-189 | over an update or refresh a protocol stays listed exactly if protocols do not expire, or a packet with bytes that names it is left, or the last packet that named it came less than the expiry time ago |
| `TrafficRuns.ProtocolIsLost` | src/protocols.c:157-189 | after any life of a queue expiry takes out a listed protocol exactly if every queued packet that names it is empty and the last packet that named it came at least the expiry time ago |
| `Traffic.EmptyPacketLosesItsProtocol` | src/protocols.c:157-189 | it happens: a protocol that only a packet of size zero names expires while the packet is queued |
| `TrafficStats.Memory.constructor` | src/basic_stats.c:30 | no items and no packets at first |
| `TrafficStats.Memory.CreateItem` | src/basic_stats.c:148-165 | an item takes a reference on its packet and is counted |
| `TrafficStats.Memory.DeleteItem` | src/basic_stats.c:167-191 | deleting an item gives up its reference; the packet is freed exactly with the last one |
| `TrafficStats.TrafficStats.constructor` | src/traffic_stats.c:36-47 | a queue starts empty with zero counters |
| `TrafficStats.TrafficStats.AddProtocols` | src/protocols.c:70-99 | the loop over the levels adds the packet as specified |
| `TrafficStats.TrafficStats.SubProtocols` | src/protocols.c:102-131 | the loop over the levels subtracts the packet as specified |
| `TrafficStats.TrafficStats.ExpireProtocols` | src/protocols.c:157-189 | the nested loops expire protocols as specified |
| `TrafficStats.TrafficStats.AverageProtocols` | src/protocols.c:135-153 | the loop sets every average as specified |
| `TrafficStats.TrafficStats.SortMostUsed` | src/protocols.c:231-242 | sorts one level and names its most used protocol, or none for an empty level |
| `TrafficStats.TrafficStats.AddPacket` | src/traffic_stats.c:70-95 | the packet is in front of the queue, counted by direction, with one more reference and one more item in memory |
| `TrafficStats.TrafficStats.PurgeExpired` | src/traffic_stats.c:98-136 | does the specified purge, and for every packet the references held elsewhere stay; packets are freed exactly with their last reference |
| `TrafficStats.TrafficStats.Update` | src/traffic_stats.c:141-170 | does the specified update with the same law of references, and tells whether packets are left |
| `TrafficStats.TrafficStats.Reset` | src/traffic_stats.c:50-66 | empties the queue and gives every reference back |
| `NodeIds.Compare` | src/node_id.c:43-90 | the comparison is exactly -1, 0 or 1 |
| `NodeIds.CompareIsOrder` | src/node_id.c:43-90 | it is the order by mode and then by the bytes that the mode uses |
| `NodeIds.CompareIsTotalOrder` | src/node_id.c:43-90 | it is antisymmetric, transitive, and zero only for the same mode and the same used bytes |
| `NodeIds.OneByteDiffers` | src/node_id.c:43-90 | two ids of one mode that differ in one byte compare as equal exactly if it is not one of the first 6 of a link layer address, of the first 20 of an IP id, or of the 22 of a TCP id |
| `NodeIds.ModesComeFirst` | src/node_id.c:43-90 | the default mode comes first, then link layer, IP and TCP, whatever the addresses |
| `NodeIds.LinkCompareIsTotalOrder` | src/links.c:40-54 | links are totally ordered by source and then destination |
| `NodeIds.LinkOfIsUnordered` | src/decode_proto.c:303-317 | packets either way between two nodes go to one link, ordered by node, with opposite directions; and only those two nodes use it |
| `MonitorRuns.AcquireQueues` | src/decode_proto.c:262-321 | a packet goes in front of the queues of its source, its destination, its link and the summary, and of no other |
| `MonitorRuns.RoundQueues` | src/diagram.c:321-389 | a refresh pops the expired packets off the tail of every queue, whatever the times are; nodes and links that go have empty queues |
| `MonitorRuns.ProjOfYounger` | src/traffic_stats.c:98-136 | purging the queue of a node or link gives the queue that the purged window of packets calls for |
| `MonitorRuns.StepRefinesIff` | src/capture.c:261-380 | every event does to all queues what it does to one window of packets, unless it is a refresh that finds a packet outside the averaging window that arrived after one inside it: and then it does not |
| `MonitorRuns.RoundRefinesIff` | src/diagram.c:321-389 | a refresh takes the views of a window to the views of its younger packets if and only if packets leave the window in the order in which they arrived |
| `MonitorRuns.EveryRunRefinesIff` | src/capture.c:261-380 | over any run, whatever the stamps of packets and the clock at refreshes, the queues are the views of one window all along if and only if packets leave the window in the order in which they arrived |
| `MonitorRuns.EveryRunRefines` | src/capture.c:261-380 | so after every such run of packets, refreshes, pauses, ends of file, stops and starts each queue is the view of that window, and every counter the sum over its queue |
| `MonitorRuns.StampsKeepOrder` | src/capture.c:491-513 | it is enough that no packet is stamped earlier than one that is still in the window: the clock at refreshes may be behind the stamps and may go back |
| `MonitorRuns.EveryRunKeeps` | src/capture.c:261-380 | in every run, in whatever order packets are stamped, every counter is the sum over its queue and the catalogs are in place |
| `MonitorTotals.CountersAddUp` | src/decode_proto.c:295-320 | whenever the queues are the views of one window, the counters of the catalogs on each side of the accounts add up to the bytes of the window |
| `MonitorTotals.SidesAreListed` | src/decode_proto.c:295-320 | every side of the accounts has a list of its queues, each once, for the totals to run over |
| `MonitorTotals.AccountsAgree` | src/decode_proto.c:295-320 | in every run in which packets leave the window in order of arrival, the bytes sent by all nodes, received by all nodes, carried by all links and in the summary are one number |
| `MonitorTotals.ProtocolAccountsAgree` | src/decode_proto.c:295-320 | in the same runs links and summary count the same bytes for each protocol and level, and the nodes together twice as many |
| `MonitorTotals.LinkSplitsTraffic` | src/decode_proto.c:303-317 | in the same runs a link counts exactly the bytes each way between its two nodes, and they sum to its total |
| `MonitorTotals.NodeSplitsTraffic` | src/decode_proto.c:295-302 | in the same runs a node counts exactly the bytes that it sent and that it received, and they sum to its total |
| `MonitorTotals.NodeRates` | src/diagram.c:396-444 | after a refresh in the same runs the rates of a node are eight bits for each byte that it sent, received and both within the averaging time, per second of that time |
| `MonitorTotals.YoungerIff` | src/traffic_stats.c:98-136 | the packets that a refresh leaves in the window are those stamped less than the averaging time ago |
| `OutOfOrder.AccountsDisagree` | src/traffic_stats.c:98-136 | and not in all runs: of two packets between different nodes, the second stamped so early that it leaves the window first, the summary counts both when all links together count only the first |
| `MonitorTotals.FourReferences` | src/decode_proto.c:295-320 | whenever the queues are the views of one window, a packet of the window is held by exactly four queue items and any other packet by none |
| `MonitorTotals.LifecycleOfRuns` | src/capture.c:261-380 | in every run the catalogs are open exactly while not stopped, a stopped capture holds nothing, and the new nodes are catalog nodes, each once |
| `MonitorTotals.OneLinkPerPair` | src/links.c:289-302 | in every run there is at most one link between two nodes |
| `MonitorTotals.RefreshedAverages` | src/diagram.c:396-444 | after a refresh of any running capture, in whatever order packets are stamped, every average is the one its counter calls for |
| `QueueLives.EveryQueueLives` | src/decode_proto.c:262-321 | in every run the queue of each node and link and of the summary is what its life makes of it: the packets that belong to it since it was started, and the refreshes with the preferences for its kind |
| `QueueLives.EveryQueueIsRecorded` | src/basic_stats.c:210-219 | so its accumulated bytes, number of packets, mean size and last time are those of its packets since it was started, in each direction |
| `QueueLives.ProtocolStaysInRound` | src/node.c:231-281 | in every run a listed protocol is still listed after a refresh exactly if the preference for this kind of queue is off, or a packet with bytes that names it is left, or the last packet that named it came less than the preference ago |
| `QueueLives.MostUsedInRound` | src/node.c:231-281 | and if packets are left, the first protocol of each level of a node or link is the one that carried the most bytes there |
| `CatalogRuns.NodesStayIff` | src/node.c:231-281 | in every run a node is still known after a refresh exactly if one of its packets is in the averaging window, or there is no timeout for nodes, or the last packet from or to it came less than the timeout ago |
| `CatalogRuns.LinksStayIff` | src/links.c:175-218 | and a link exactly if one of its packets is in the averaging window, or there is no timeout for links, or the last packet between its nodes, either way, came less than the timeout ago |
| `CatalogRuns.NewNodesIff` | src/decode_proto.c:328-356 | a packet puts on the list of new nodes exactly those of its two nodes that had no packets |
| `CatalogRuns.PausedRunsAgain` | src/capture.c:262-338 | a paused capture runs again as it was, whatever refreshes are due meanwhile |
| `CatalogRuns.SwitchesKeepQueues` | src/capture.c:262-338 | pausing, resuming, the end of the file and the clock leave every queue alone; starting makes any capture play; one that is paused or at its end is not refreshed |
| `Ledger.QueueChangeKeeps` | src/basic_stats.c:148-191 | changing one queue keeps reference counts and item counter exact if the references held elsewhere stay |
| `Ledger.LiveIsWindow` | src/basic_stats.c:148-191 | with balanced books the live packets are those of the window, each with four references and four items |
| `Capture.Capture.constructor` | src/node.c:57-58 | a program starts stopped, without catalogs and without packets |
| `Capture.Capture.PacketAcquired` | src/decode_proto.c:262-321 | in memory a packet is created, enters its four queues as specified, and all reference counts stay exact |
| `Capture.Capture.AddNodePacket` | src/decode_proto.c:328-356 | finds or creates the node, adds the packet, and lists the node as new exactly when this is its only packet |
| `Capture.Capture.AddLinkPacket` | src/links.c:350-359 | finds or creates the link and adds the packet |
| `Capture.Capture.AddSummaryPacket` | src/protocols.c:514-520 | adds the packet to the summary, opened if need be |
| `Capture.Capture.NodeUpdate` | src/node.c:231-281 | updates one node and tells whether it has expired, in which case it leaves the list of new nodes |
| `Capture.Capture.NodesTraverse` | src/node.c:567-586 | the traversal refreshes every node once and collects exactly the expired ones |
| `Capture.Capture.NodesUpdateAll` | src/node.c:567-586 | all nodes are refreshed and exactly the expired ones are gone, with exact reference counts |
| `Capture.Capture.NewNodesPop` | src/node.c:435-472 | answers the first listed node that is still in the catalog, and what follows it stays listed; or none when none is left, and then the list is empty |
| `Capture.Capture.DiagramUpdateNodes` | src/diagram.c:321-334 | nodes are updated and the list of new nodes is drained |
| `Capture.Capture.LinkUpdate` | src/links.c:175-218 | updates one link and tells whether it has expired |
| `Capture.Capture.LinkDelete` | src/links.c:105-125 | gives the packets of the link back and forgets the conversations between its ends |
| `Capture.Capture.LinksUpdateAll` | src/links.c:326-346 | all links are refreshed, exactly the expired ones are gone, and with them exactly the conversations between their ends |
| `Capture.Capture.SummaryUpdateAll` | src/protocols.c:523-528 | the summary is updated, if it is open |
| `Capture.Capture.UpdateDiagram` | src/diagram.c:396-444 | a refresh does the specified round unless the capture is paused or at the end of its file |
| `Capture.Capture.StartCapture` | src/capture.c:262-317 | a new capture opens summary and catalogs, which were closed; a paused one goes on |
| `Capture.Capture.PauseCapture` | src/capture.c:320-338 | only a running capture is paused, and only if its source can be removed |
| `Capture.Capture.EndOfFile` | src/capture.c:448-449 | the end of the file changes nothing but the status |
| `Capture.Capture.StopCapture` | src/capture.c:342-380 | after a stop no node, link, conversation, new node or packet is left, and the memory counters are zero |
| `Capture.Capture.PacketsAreCounted` | src/basic_stats.c:148-191 | if the queues are the views of one window, the live packets in memory are those of the window, each with reference count 4; one counter is their number, the other four times that |
| `Program.Program.constructor` | src/node.c:57-58 | the program starts with a stopped capture, whose queues are the views of an empty window |
| `Program.Program.Packet` | src/capture.c:491-513 | when a packet arrives, whatever its size, stack and stamp, the capture in memory takes the step of the event; views of a window become views of the window with the packet in front; the packet is new memory, which no queue holds yet |
| `Program.Program.Refresh` | src/diagram.c:396-444 | a refresh in memory takes the step of the event, whatever the clock says; views of a window become views of its younger packets if and only if packets leave the window in order of arrival |
| `Program.Program.ReadClock` | src/diagram.c:462 | reading the clock between refreshes changes no queue |
| `Program.Program.Start` | src/capture.c:262-317 | starting keeps every counter the sum over its queue, and views of a window stay views of it |
| `Program.Program.Pause` | src/capture.c:320-338 | so does pausing |
| `Program.Program.EndOfFile` | src/capture.c:448-449 | so does the end of the file |
| `Program.Program.Stop` | src/capture.c:342-380 | after a stop the queues are the views of an empty window, whatever the order of packets was before |
| `Program.Program.FourReferencesInMemory` | src/basic_stats.c:148-191 | so between any two events, as long as the queues are the views of the window, the packets in memory are those of the window, each has reference count 4, and the counters are their number and four times that |
| `Conversations.MatchesIffSameEnds` | src/conversations.c:43-75 | a query matches an entry exactly if the ports left open in either can be filled in so that both have the same two ends, each an address with its port, in whatever order |
| `Conversations.AddedIsFound` | src/conversations.c:79-123 | an entry that is added and not dropped is what both directions of its conversation find, and with all ports given it is found by no other ports |
| `Conversations.OthersAreOfOtherEnds` | src/conversations.c:154-176 | removing a link removes the entries whose two addresses are its two, in whatever order |
| `Conversations.AnswerIsUnique` | src/conversations.c:43-75 | a query with both ports given matches at most one entry |
| `Conversations.AnswerIgnoresOrder` | src/conversations.c:130-150 | and its answer does not depend on the order of the list |
| `Conversations.Table.FindPtr` | src/conversations.c:43-75 | finds the first matching entry in either direction, zero matching every port |
| `Conversations.Table.Find` | src/conversations.c:130-150 | answers the data of the first matching entry, which with both ports given is that of any matching entry |
| `Conversations.Table.Add` | src/conversations.c:79-123 | an entry that matches one of the table is dropped, so no two entries ever match each other; the counter is the length |
| `Conversations.Table.DeleteLink` | src/conversations.c:154-176 | ends, and removes exactly the entries between the two addresses in either direction |
| `Conversations.Table.DeleteAll` | src/conversations.c:179-198 | empties the table and the counter |
| `NodesTable.Table.Iterate` | src/node_windows.c:319-369 | one catalog node is merged at the cursor as specified; this ends because the comparison is exactly -1, 0 or 1 |
| `NodesTable.Table.Update` | src/node_windows.c:371-394 | the traversal with the removal of left-over rows does the specified pass |
| `NodesTable.TableAfterPass` | src/node_windows.c:319-394 | whatever rows there were, the nodes that the old rows reach end up in order and the others in front, the other way round |
| `NodesTable.OneRowPerNode` | src/node_windows.c:319-394 | exactly one row per catalog node, showing its present data, and no other row |
| `NodesTable.InOrderIff` | src/node_windows.c:319-394 | the rows end up ascending exactly when some old row is not before the last node, or there is at most one node |
| `NodesTable.SecondPassIsInOrder` | src/node_windows.c:319-394 | a second pass over the same nodes leaves the rows ascending |
| `Colours.ColourEnds` | src/datastructs.c:175-222 | a semicolon, blank, tab or new line ends the colour of an entry, and nothing else does |
| `Colours.NameEnds` | src/datastructs.c:175-222 | a comma, blank, tab or new line ends the name of a protocol, and nothing else does |
| `Colours.SameButCase` | src/datastructs.c:228-295 | colours are the same if they differ in the case of letters only |
| `Colours.NamesJoin` | src/datastructs.c:255-266 | joining two protocol lists with a comma names what the one names and then what the other does |
| `Colours.WriteThenRead` | src/datastructs.c:281-291 | a compacted entry is read back as it was written |
| `Colours.CompactGathers` | src/datastructs.c:228-295 | one entry per colour whatever its case, in the order and spelling of first occurrence, with all protocols listed under it in order |
| `Colours.CompactIsIdempotent` | src/datastructs.c:228-295 | compacting twice is compacting once |
| `Colours.Compact` | src/datastructs.c:228-295 | the nested loops over the list built in reverse do the specified compaction |
| `CompactColours.CompactKeepsColoursIff` | src/datastructs.c:175-295 | for all preferences, compacting leaves the map from protocols to colours as it was if and only if every name that is listed, read as it is or without its spaces, has the same colour as last listed entry by entry and as last listed colour by colour in order of first occurrence |
| `CompactColours.CompactKeepsColours` | src/datastructs.c:175-295 | so compacting changes no protocol's colour if no protocol is listed under two colours, all colours parse and white space is plain |
| `CompactColours.TwoColoursClash` | src/datastructs.c:228-295 | preferences with a protocol under two colours, which has another colour after compacting |
| `CompactColours.UnknownColourMoves` | src/datastructs.c:194-211 | preferences with a colour that does not parse, which is read as the one before it: after compacting it stands behind another one |
| `CompactColours.CarriageReturnIsLost` | src/datastructs.c:304-316 | preferences with a carriage return, which belongs to a name as read: after compacting another protocol has the colour |
| `CompactColours.SpacesGo` | src/datastructs.c:304-316 | blank, tab, new line, carriage return and form feed are what is taken out of a list of protocols |
| `CompactColours.ColoursAlone` | src/datastructs.c:175-222 | preferences that list colours only give these colours to protocols without one, in their order, and name no protocol |
| `ColourTable.ColourTable.Set` | src/datastructs.c:95-123 | a colour is mapped to the protocol, or joins the cycle when there is none |
| `ColourTable.ColourTable.ReadPrefvect` | src/datastructs.c:175-222 | the hash is what reading the entries in order gives, the cycle is in their order or grey, and its last colour comes first |
| `ColourTable.ColourTable.Color` | src/datastructs.c:133-157 | an unmapped protocol gets the next colour of the cycle and keeps it |

## Left out

- The windows, the canvas, preferences files, XML and text dumps, packet capture and the name server: foreign or
  presentation code. Of the node table only the rows and the cursor are modelled, not sorting and cell text.
- The protocol decoders: a decoder is any series of calls of decode_proto_add, and the node ids it finds are
  arguments. `choose_port`, `add_offset` and packet names (`names.c`) are not part of this model.
- `main_prot` and the node names: sorting each level and its most used protocol are modelled, the copies kept
  in nodes and links are not.
- `update_protocols_table`, `limit_nodes`, the layout and the fading of the diagram: library behaviour or
  floating point without a clean specification.
- The timers that replay a capture file: pausing can leave one behind, so nothing is said about their number.
- Floating point: byte counters are whole numbers and averages reals, so rounding is not modelled.
- Machine integers: counters and ticks do not wrap around; item ids are 16-bit numbers.
- The balanced trees of the catalogs are maps, and a traversal visits their entries in any order; that the
  comparison functions are total orders is proved in `NodeIds`.
- Allocation failure, and the strings that C copies.
- IpCache.Cache.AllocItem: the id is drawn before the item is linked by address and not after; the two
  concern different lists. That the generator finds a free id is a condition on the numbers drawn, because
  its termination cannot be proved.
- IpCacheItem.IpHash: reads the 32-bit words of an address in little-endian order, as on the machines the
  program mostly runs on; no theorem depends on the values.
- IpCacheRuns.PendingSurvives: is claimed for items never answered. An answered item with a refresh on its way
  stays on the list and can be evicted, as in the code.
- LookupRuns.StepKeepsInv: a late report on an item that was freed (`StaleAnswer`) leaves the cache as it is; what
  the code writes into freed memory is not modelled. When it comes to that is proved: `LookupRuns.ReportFindsItemIff`.
- Resolver.NoLostWakeup: memory is sequentially consistent, so that the unlocked test of the stop flag reads
  its latest value; starting threads again after a stop and destroying the mutex are not part of this model.
- Capture.Capture.UpdateDiagram: drawing, and the events that drawing lets in, are not modelled.
- CompactColours.CompactKeepsColoursIff: speaks of the map from protocols to colours. The cycle of free colours is
  not kept by compaction, and nothing is claimed about it.
