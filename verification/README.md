# Augustus data plane in Dafny

Augustus is a content router for named data. Each core keeps three tables — the Pending
Interest Table (PIT), the Content Store (CS) and the Forwarding Information Base (FIB) — and a
packet loop that composes them into the Interest/Data protocol. This project models that core:
the tables as classes over arrays, each proved against a small abstract meaning; the protocol
as a state machine over events; and the packet loop as a class whose state is, after any
sequence of calls, the one that its recorded events lead to. What the protocol promises is then
proved over every run of events.

## How it is laid out

| file | part |
|---|---|
| `Defs`, `Ring`, `Bucket`, `Index`, `FaceMask` | constants; circular logs; bucket counting; the two-way index between a bucket table and its entries; face masks |
| `PitSpec`, `Pit` | the PIT as a log with holes and as a map of names; the table and ring that implement it |
| `CsSpec`, `Cs` | the CS as a bounded first-in first-out queue; the table and ring that implement it |
| `FibSpec`, `FibHashTable`, `Fib` | the FIB as a multiset of routes, longest-prefix match; the table that implements it; the probing |
| `Wire` | the ICN packet format: printing, patching of lengths, parsing |
| `Checksum` | the Internet checksum of IPv4 headers |
| `Mbufs`, `Transmit`, `Transmitter` | packet buffers and reference counts; transmit buffers and bursts, as values and as a class |
| `Refcounts`, `Delivery` | exactness of reference counts; order and integrity of what is sent |
| `Router`, `Runs`, `Ledger`, `Tables` | the protocol as a state machine; invariants of every run; balances over every run; what the three tables hold after every run |
| `Steps` | what every kind of event does to every reachable state, in bytes, table contents, counters and bursts |
| `Leaks` | how a router comes to lose a packet buffer, and that it is for good |
| `Polling`, `Delay`, `DataPlane` | the schedule of the polling loop; how long packets and expired entries can wait; the packet loop itself |

The CRC is an arbitrary total function of a name, so every statement holds whatever its
collisions are. Time, the number of packets the network card accepts, what it receives and the
random tie-break of FIB lookup are inputs. Integers are unbounded.

## What the code does and its documentation does not say

- A purge of the PIT stops at the first entry that has not expired. So after the TTL is lowered,
  what src/lib/pit/pit.h:112-125 calls a transient period touches new entries too: a name entered
  at 0 with a TTL of 100 hides from a purge at 60 another one entered at 10 with a TTL of 40
  (`PitSpec.ShorterTtlBlocksPurge`, and `PitSpec.StuckIff` for any two). A purge leaves no expired
  entry exactly when none lies above a live one that has not expired (`PitSpec.PurgeCompleteIff`).
  Every purge from some instant on leaves none exactly when expiries are sorted from there on
  (`PitSpec.SortedIffAlwaysComplete`), and they are if no insertion expires before an earlier one
  that expires after that instant (`PitSpec.EveryPurgeExact`). So the period is indeed transient:
  it is over once the old TTL has gone by since the change (`PitSpec.TransientEnds`).
- The occupancy of the PIT counts holes; it is the number of pending names exactly when there
  are none (`PitSpec.LiveWithinCapacity`).
- The TTL read back in microseconds is in whole seconds (`Pit.TtlRoundTrip` says for which values
  it is the one that was set): one microsecond reads back as zero, and on some clocks two seconds as
  three (`Pit.TtlNotKept`).
- The CS refuses a packet exactly when its bucket is full (`CsSpec.RefusedIff`), even when it has
  room, or is about to evict from that very bucket (`CsSpec.RefusedAlthoughEvicting`). The data
  plane then loses one reference to the packet (`Runs.LeaksAreRefusals`): in a store with room for
  BUCKET_SIZE packets or more, the eighth Data packet of one bucket is such a packet
  (`Leaks.RefusalHappens`), though it be the same packet eight times (`Leaks.EightTimesLost`), and
  its buffer is never free again (`Leaks.NeverFree`).
- Deleting a route never gives its place in the forwarding table back. An addition is refused
  exactly when as many as there are places have succeeded before, or its bucket is full
  (`FibSpec.RefusedIff`); a FIB to which one route is added and deleted that often has no routes
  and refuses every one (`FibSpec.WornOut`).
- A packet whose length field was given by hand and ends at its name is not parsed
  (`Wire.RoundTrip`).
- The second purge of the polling loop (src/main/data_plane.c:481-484) never happens, whatever the
  input, if and only if the purge interval is not below the drain interval (`Polling.LonePurgeIff`),
  as is so by default (src/config/defaults.h:190 and src/config/defaults.h:200).

## Model

| member | source | states |
|---|---|---|
| Index.Link | src/lib/pit/pit.c:156-161 | a free slot and a free entry can be tied together whoever owned either before; every other slot and entry stays correctly tied |
| Index.Unlink | src/lib/pit/pit.c:252-253 | taking an entry out of use frees exactly its own slot |
| Index.NoFreeSlot | src/lib/pit/pit.c:149-151 | a bucket has no free slot exactly when BUCKET_SIZE entries in use fall in it |
| Index.CountAlongLog | src/lib/pit/pit.h:64-85 | counting the entries of a bucket along the circular window counts them all: none lies outside it |
| Ring.OccupancyIsLength | src/lib/pit/pit.h:142-145 | the occupancy formula is the length of the window from bottom to top, wrapped or not |
| Ring.FullIsCapacity | src/lib/cs/cs.h:127-130 | the fullness test holds exactly when all places but one are in use |
| Ring.Push | src/lib/pit/pit.c:171 | writing at top and advancing it appends one element to the window |
| Ring.Pop | src/lib/pit/pit.c:260-264 | advancing bottom drops the oldest element |
| FaceMask.WithFaceAdds | src/lib/pit/pit.c:132-136 | setting a bit adds that face to the set and changes no other |
| FaceMask.ZeroIsEmpty | src/lib/pit/pit.c:222-227 | the mask 0 stands for no face and no other mask does, so 0 can mean absent |
| FaceMask.ShiftOnce | src/main/data_plane.c:367-380 | the lowest bit after p shifts is face p, and shifting once more keeps that |
| Pit.SlotFinds | src/lib/pit/pit.c:103-127 | a busy slot with the right name leads to the one live entry of that name, inside the window |
| Pit.NoSlotNotPending | src/lib/pit/pit.c:145-151 | a name that no slot of its bucket leads to is not pending, whatever the CRC collisions |
| Pit.ClearStep | src/lib/pit/pit.c:214-220 | freeing the slot that was found, and moving bottom if it was there, is removal from the log, with all invariants kept |
| Pit.TtlRoundTrip | src/lib/pit/pit.h:107-130 | the TTL read back equals the one set if and only if it is a whole number of seconds over which the rounding of the clock rate stays below one second |
| Pit.TtlNotKept | src/lib/pit/pit.h:107-130 | one microsecond reads back as zero on every clock of at least two cycles a second, and two seconds as three on a clock of 1.000001 cycles a microsecond |
| Pit.Pit.constructor | src/lib/pit/pit.c:25-62 | a new PIT is valid, empty and has the capacity asked for |
| Pit.Pit.SetTtlUs | src/lib/pit/pit.h:126-130 | sets the TTL from microseconds with the clock rate rounded up, and nothing else |
| Pit.Pit.GetTtlUs | src/lib/pit/pit.h:107-110 | the result is a whole number of seconds, the largest that the clock cycles of the TTL last |
| Pit.Pit.Occupancy | src/lib/pit/pit.h:142-145 | the length of the log, holes included |
| Pit.Pit.IsFull | src/lib/pit/pit.h:166-175 | full exactly when the log has the requested capacity |
| Pit.Pit.IsEmpty | src/lib/pit/pit.h:156-159 | empty exactly when the log is |
| Pit.Pit.Scan | src/lib/pit/pit.c:97-151 | finds the slot of a pending name, or a free slot, or neither exactly when the bucket is full of pending names |
| Pit.Pit.Lookup | src/lib/pit/pit.c:65-90 | finds an entry exactly for pending names, and it is the one the log has |
| Pit.Pit.LookupAndUpdate | src/lib/pit/pit.c:93-177 | its result and its effect on the log are those of the abstract update: aggregate, insert, or refuse and change nothing |
| Pit.Pit.AddFaceVia | src/lib/pit/pit.c:129-142 | through the slot found, the face joins the entry of that name; expiry and everything else stay |
| Pit.Pit.Insert | src/lib/pit/pit.c:152-171 | filling a free slot and the entry at top appends the name, with its one face and expiry, to the log |
| Pit.Pit.LookupAndRemove | src/lib/pit/pit.c:191-228 | its mask and its effect on the log are those of the abstract removal |
| Pit.Pit.Clear | src/lib/pit/pit.c:214-220 | frees the slot and its entry, and the place too when it is at the bottom |
| Pit.Pit.PurgeExpired | src/lib/pit/pit.c:243-268 | its effect on the log is the abstract purge, and it counts the places given back, holes included |
| Pit.Pit.Deactivate | src/lib/pit/pit.c:251-253 | frees an entry and the slot that it names, and nothing else |
| Pit.Pit.Advance | src/lib/pit/pit.c:260-264 | moves bottom up by one, round the end of the ring |
| PitSpec.UpdateView | src/lib/pit/pit.c:92-177 | on the map of names: a pending name gets the face added, an absent one gets an entry with this face and expiry unless seven pending names have its hash modulo the number of buckets or the log is full; nothing else changes |
| PitSpec.RemoveView | src/lib/pit/pit.c:191-228 | removal deletes exactly that name from the map and returns its faces, the empty set exactly when it was absent |
| PitSpec.LoadCountsNames | src/lib/pit/pit.c:149-151 | what fills a bucket is the number of pending names that hash to it |
| PitSpec.PurgeIsDrop | src/lib/pit/pit.c:243-268 | purging drops the longest prefix of the log made of holes and expired entries |
| PitSpec.PurgeCompleteIff | src/lib/pit/pit.c:243-268 | a purge leaves no expired entry if and only if no expired entry lies above a live one that has not expired |
| PitSpec.SortedIffAlwaysComplete | src/lib/pit/pit.c:243-268 | purging is complete at every instant from a given one on if and only if expiries are sorted along the log from there on; from 0 on, this means at every instant and sorted throughout |
| PitSpec.ShorterTtlBlocksPurge | src/lib/pit/pit.h:112-130 | in a run that enters two names and lowers the TTL from 100 to 40 between them, a purge leaves the second in the map after its expiry |
| PitSpec.StuckIff | src/lib/pit/pit.c:243-268 | of two names entered one after the other, whatever the TTLs, a purge leaves the second behind although it has expired if and only if it falls between the second expiry and the first |
| PitSpec.PurgeView | src/lib/pit/pit.c:243-268 | on a sorted log a purge removes from the map exactly the names that have expired |
| PitSpec.KeepsSorted | src/lib/pit/pit.c:163-167 | insertion with an expiry no earlier than the others, removal and purge keep the log sorted |
| PitSpec.RunSorted | src/lib/pit/pit.h:112-130 | over every run of insertions, removals and purges in which no insertion expires before an earlier one that expires after a given instant, the log stays valid and sorted by expiry from there on |
| PitSpec.EveryPurgeExact | src/lib/pit/pit.c:243-268 | in every such run, each purge from that instant on removes from the map exactly the names that have expired by then |
| PitSpec.TransientEnds | src/lib/pit/pit.h:112-125 | after a change of the TTL, every purge is exact once the old TTL has gone by since the last insertion under it |
| PitSpec.PlacesConserved | src/lib/pit/pit.c:156-268 | over every run, the places of the log taken by new names are those given back at the bottom by removals and purges and those still in use |
| PitSpec.InsertThenRemove | src/main/data_plane.c:315-330 | entering a name and withdrawing it leaves the map as it was and costs at most one place of the log |
| PitSpec.LiveWithinCapacity | src/lib/pit/pit.h:132-145 | pending names never exceed the places in use, nor these the capacity; the two are equal exactly without holes |
| Cs.SlotFinds | src/lib/cs/cs.c:124-142 | a slot that matches leads to an item of that name in the queue |
| Cs.NoSlotNotHeld | src/lib/cs/cs.c:143 | a name that no slot leads to has no item in the queue |
| Cs.EvictStep | src/lib/cs/cs.c:76-86 | freeing the entry at bottom and its slot drops the oldest item, with all invariants kept |
| Cs.InsertStep | src/lib/cs/cs.c:87-97 | filling a free slot and the entry at top appends the item, with all invariants kept |
| Cs.Cs.constructor | src/lib/cs/cs.c:23-61 | a new CS is valid, empty and has the capacity asked for |
| Cs.Cs.Occupancy | src/lib/cs/cs.h:99-102 | the number of items in the queue |
| Cs.Cs.IsFull | src/lib/cs/cs.h:127-130 | full exactly when the queue has the capacity |
| Cs.Cs.Lookup | src/lib/cs/cs.c:117-144 | finds a packet exactly for names in the queue, and one that was inserted under that very name |
| Cs.Cs.Insert | src/lib/cs/cs.c:64-102 | its result and its effect on the queue are those of the abstract insertion; exactly the evicted packet loses one reference |
| Cs.Cs.Evict | src/lib/cs/cs.c:76-86 | drops the oldest item, frees its slot and gives up its reference; the slot found for the new item stays free |
| Cs.Cs.Enqueue | src/lib/cs/cs.c:87-97 | appends an item to the queue |
| CsSpec.RunIsNewest | src/lib/cs/cs.c:64-102 | after any run of insertions the store holds the newest accepted items up to its capacity, oldest first, and no others |
| CsSpec.EvictionOrder | src/lib/cs/cs.c:75-86 | an item leaves exactly when the capacity-th item after it is accepted |
| CsSpec.RefusedIff | src/lib/cs/cs.c:73-101 | an item is refused if and only if seven of the items held have its hash modulo the number of buckets, room or not |
| CsSpec.RefusedAlthoughEvicting | src/lib/cs/cs.c:69-101 | any BUCKET_SIZE items of one bucket, whatever their names and buffers, are all held, and the next one of that bucket is refused: with room left, and also when the item to evict is in that bucket |
| FibHashTable.AddStep | src/lib/fib/fib_hash_table.c:67-76 | filling a free slot and the next forwarding entry appends a route, with all invariants kept |
| FibHashTable.RemoveStep | src/lib/fib/fib_hash_table.c:172-178 | clearing a busy flag removes exactly the route behind it |
| FibHashTable.FibHashTable.AddKey | src/lib/fib/fib_hash_table.c:53-84 | its result and effect are those of the abstract addition: refused exactly when the table or the bucket is full |
| FibHashTable.FibHashTable.Fill | src/lib/fib/fib_hash_table.c:67-76 | appends a route through a free slot |
| FibHashTable.FibHashTable.LookupKey | src/lib/fib/fib_hash_table.c:102-140 | finds some face of a name exactly when there is a route of that name |
| FibHashTable.FibHashTable.DelKey | src/lib/fib/fib_hash_table.c:156-185 | deletes one route with that name and face exactly when there is one |
| FibHashTable.FibHashTable.Release | src/lib/fib/fib_hash_table.c:176 | the route behind a slot is gone, its place in the forwarding table is not given back |
| FibSpec.AddRoutes | src/lib/fib/fib_hash_table.c:67-76 | an addition puts one pair into the multiset of routes |
| FibSpec.DeleteRoutes | src/lib/fib/fib_hash_table.c:172-178 | a deletion takes exactly one copy of one pair out of the multiset of routes |
| FibSpec.RunRefinesMultiset | src/lib/fib/fib_hash_table.c:53-185 | after any run of additions and deletions the routes are those of the same run on multisets, and the places used up are the additions that ever succeeded, at most the size of the table |
| FibSpec.RefusedIff | src/lib/fib/fib_hash_table.c:53-84 | after any run an addition is refused if and only if as many as the table has places have succeeded before it, routes left or not, or seven routes have its hash modulo the number of buckets |
| FibSpec.WornOut | src/lib/fib/fib_hash_table.c:172-178 | adding and deleting one route as often as the table has places leaves no routes, and every addition is refused from then on |
| FibSpec.BestIsLongest | src/lib/fib/fib.c:83-109 | probing from the last separator down gives a face of the longest component prefix with a route, or nothing exactly when none has one |
| Fib.Fib.Add | src/lib/fib/fib.c:59-69 | answers invalid exactly for names that are empty or start with a zero byte, and leaves the FIB alone; otherwise adds |
| Fib.Fib.Del | src/lib/fib/fib.c:71-81 | rejects the same names; otherwise deletes one matching route, or reports that there is none |
| Fib.Fib.Lookup | src/lib/fib/fib.c:83-109 | answers with a route of the last offset whose prefix has one, and leaves the hashes of the prefixes probed in the packet |
| Fib.EndToEnd | icn-scapy/icnscapy/packet.py:136-186 | a chunk name printed with its computed offsets, parsed and looked up gets a face of its longest component prefix in the FIB, or none exactly when no such prefix is registered |
| Wire.SeparatorsExact | icn-scapy/icnscapy/packet.py:149 | the list holds exactly the positions of the separators, in increasing order |
| Wire.ChunkNameParts | icn-scapy/icnscapy/packet.py:179-180 | the chunk number is the last four bytes, high byte first, and the closed object name is among the prefixes whose offsets are carried |
| Wire.PostBuild | icn-scapy/icnscapy/packet.py:53-66 | bytes 2 and 3 get the packet length and bytes 7 and 8 the header length, high byte first, unless they were given; every other byte is unchanged and the payload follows |
| Wire.FieldBytes | icn-scapy/icnscapy/packet.py:39-50 | the layer byte by byte: type, packet length, hop limit, flags, header length, name length, name, TLV type and length, offsets, every number high byte first |
| Wire.OffsetBytes | icn-scapy/icnscapy/packet.py:136-150 | the offsets are printed in order, two bytes each, high byte first |
| Wire.Layout | src/lib/packet.h:84-90 | where each field of a printed packet lies |
| Wire.IcnPacket.ParsePacket | src/lib/packet.c:17-66 | type, name length, packet length and offsets are read high byte first; succeeds exactly when the packet length reaches past the name and the bytes 0 and 1 follow it, and fills the fields in accordingly |
| Wire.RoundTrip | icn-scapy/icnscapy/packet.py:53-66 | parsing a printed packet gives back its type, name and offsets if and only if its packet length reaches past the name |
| Wire.ChunkRoundTrip | src/lib/packet.c:43-50 | a packet printed with computed offsets is parsed to the same name and to exactly the offsets of its separators |
| Checksum.SumUnique | src/lib/util.h:38-58 | the sum is determined by the total of the words modulo 0xFFFF and by whether that is zero |
| Checksum.Get16bSum | src/lib/util.h:38-58 | the result is the one's complement sum of the words, odd lengths included, and is zero exactly when all bytes are |
| Checksum.SumBytes | src/lib/util.h:38-58 | in bytes: the sum has 16 bits and is congruent modulo 0xFFFF to the bytes at even places plus 256 times those at odd places on a little-endian machine, and the other way round on a big-endian one |
| Checksum.Verifies | src/lib/util.h:68-75 | with the checksum in its field the header sums to exactly 0xFFFF |
| Checksum.SetIpv4Cksum | src/lib/util.h:68-75 | only bytes 10 and 11 change, they are not both zero, and the header then sums to exactly 0xFFFF |
| Checksum.ByteOrderIndependent | src/lib/util.h:38-58 | over an even number of bytes, summing words in one byte order gives the byte swap of summing them in the other |
| Checksum.VerifiesOnTheWire | src/lib/util.h:68-75 | a header whose checksum a little-endian machine has set verifies on a big-endian one |
| Transmitter.Transmitter.SendBurst | src/main/data_plane.c:151-173 | offers the packets to the card, counts the refused ones and gives up exactly one reference for each |
| Transmitter.Transmitter.FreeFrom | src/main/data_plane.c:165-170 | the loop gives up one reference for each packet from the first refused one on |
| Transmitter.Transmitter.SendSingle | src/main/data_plane.c:178-196 | appends the packet to the buffer of its port; the 32nd empties it, and then the card gets the packets it accepts, from the first on, and each of the others is counted and freed |
| Transmitter.Transmitter.Flush | src/main/data_plane.c:469-474 | the port is empty afterwards; the card gets the packets it accepts, from the first on, and each of the others is counted and freed |
| Transmitter.Transmitter.SendCopy | src/main/data_plane.c:264-277 | takes one more reference to a packet before it is sent, so that references stay exact |
| Transmitter.Transmitter.SendCopies | src/main/data_plane.c:367-380 | sends a copy, with a reference of its own, to exactly the ports whose bits are set, and counts them |
| Transmitter.Transmitter.Drain | src/main/data_plane.c:467-475 | sends what every port has, if anything |
| Transmitter.Transmitter.Accepted | src/main/data_plane.c:157 | the card takes from each port what it accepts, or what waits there if that is less |
| Delivery.SingleDelivers | src/main/data_plane.c:178-196 | sending keeps every port a first-in first-out queue with unaltered packets and the drop counter exact |
| Delivery.ReceiveDelivers | src/main/data_plane.c:491 | filling a free buffer alters no packet that still waits |
| Refcounts.BurstOwned | src/main/data_plane.c:157-171 | a burst keeps reference counts exact: the accepted packets pass to the card, each refused one gives up one reference |
| Refcounts.SafeToSend | src/main/data_plane.c:178-196 | whatever part of a burst the card refuses, every packet freed still has the reference that is given up |
| Refcounts.StoreOwned | src/lib/cs/cs.c:75-97 | the store takes over the reference that came with a packet and gives up that of the evicted one |
| Refcounts.CopiesOwned | src/main/data_plane.c:359-380 | copies to any set of ports keep reference counts exact |
| Refcounts.ReachableNotFree | src/main/data_plane.c:264-267 | what the store, a transmit buffer or the card refers to is not free |
| Router.PrintedPacket | src/main/data_plane.c:245-254 | a packet as the Scapy layer prints it is classified by its type and read back with its name and separators; the router handles it if the tables have room for the name and its separators |
| Runs.StepSane | src/main/data_plane.c:199-389 | every step keeps the three tables valid and no transmit buffer full |
| Runs.RefcountsExact | src/main/data_plane.c:259-381 | in every reachable state a buffer has as many references as places in the store and the transmit buffers, plus those the card holds, plus those lost |
| Runs.NoDanglingReference | src/main/data_plane.c:359-364 | in no reachable state can a buffer that something refers to be filled with another packet |
| Runs.LeaksAreRefusals | src/main/data_plane.c:349-358 | the references lost over a run are those of the Data packets the store refused, one each, and no others |
| Leaks.RefusalHappens | src/main/data_plane.c:341-349 | receiving any BUCKET_SIZE + 1 Data packets whose names fall in one bucket of the store, into free buffers, is a run of the router, and it loses a reference to the last buffer |
| Leaks.EightTimesLost | icn-scapy/icnscapy/packet.py:188-224 | so does receiving one and the same printed Data packet eight times |
| Leaks.NeverFree | src/main/data_plane.c:341-349 | however the run goes on, a lost reference stays lost and nothing is received into that buffer again |
| Runs.StepOnlyNew | src/main/data_plane.c:491 | only reception brings a free buffer into use, and only the one received into |
| Runs.RunDelivers | src/main/data_plane.c:151-196 | in every reachable state each port has sent, refused and kept what was queued for it, in order and unaltered, the drop counter is exact, and the store holds Data under their own names |
| Ledger.NoUnsolicitedData | src/main/data_plane.c:254-381 | over every run, for every name and port, the Data sent to the port, plus one if it still waits, never exceeds the Interests that came from it |
| Ledger.InterestsAccounted | src/main/data_plane.c:254-381 | over every run, for every name and port, the Interests that came from the port are exactly those answered with Data, the one still waiting, and those unserved: dropped for want of room or route or for a loop, aggregated while the port was waiting already, or expired |
| Ledger.AggregationExact | src/main/data_plane.c:282-337 | over every run a name has been forwarded as often as its entry was satisfied by Data or expired, plus one if it is pending |
| Ledger.PendingNotForwarded | src/main/data_plane.c:287-307 | while a name is pending no step forwards it again |
| Ledger.EveryWaiterServed | src/main/data_plane.c:339-381 | Data for a name reaches every port that waits for it, exactly once, and settles the name |
| Ledger.HitServed | src/main/data_plane.c:258-281 | an Interest that the store can answer is answered once, to its port, with Data of its name, and changes no table |
| Ledger.RoutedByLongestPrefix | src/main/data_plane.c:308-337 | the step of a newly pending Interest queues it for exactly one face, registered for its longest component prefix and not its own port, and makes it pending; or it queues nothing and leaves the map of names as it was, and then no prefix is registered or the face is its own port |
| Ledger.RunTimed | src/lib/pit/pit.c:163-167 | in every reachable state expiries are sorted and at most a TTL ahead of the clock |
| Ledger.AfterPurge | src/main/data_plane.c:460-484 | in every run a drain or purge removes from the PIT exactly what has expired, and a drain leaves every transmit buffer empty |
| Ledger.RunCounted | src/main/data_plane.c:254-381 | in every reachable state Interests received are the hits, aggregations, overflows, missing routes, loops and forwards; packets queued are Data sent and forwards; Data sent and still owed never exceed Interests received |
| Tables.StoreHoldsNewest | src/main/data_plane.c:339-349 | in every reachable state of the router the store holds the newest Data that it accepted, up to its capacity, oldest first, whatever else has happened |
| Tables.FibHoldsRoutes | src/lib/fib/fib_hash_table.c:53-185 | in every reachable state of the router the routes are those of the same updates on multisets, and the places in use are the additions that succeeded |
| Tables.PitPlacesConserved | src/main/data_plane.c:282-352 | in every reachable state of the router the PIT is the outcome of its own operations, and the places that new names took are those given back and those in use |
| Steps.ReadsAs | src/main/data_plane.c:226-254 | only EtherType 0x0008 (as read) with protocol 253 is ICN; type bytes 0, 0 are an Interest and 0, 1 are Data; name and offsets are those in the bytes |
| Steps.TypeCounted | src/main/data_plane.c:226-254 | in every reachable state a packet counts as an Interest, as Data or as malformed by its EtherType, protocol and type bytes, and as one of these only |
| Steps.MalformedStep | src/main/data_plane.c:226-242 | in every reachable state a packet that is not ICN, or of another type, is counted and dropped, and tables, buffers and references stay as they were |
| Steps.InterestStep | src/main/data_plane.c:254-337 | in every reachable state each of the counters of Interests goes up by one exactly when the contents of store, PIT and FIB say so |
| Steps.InterestTables | src/main/data_plane.c:254-337 | in every reachable state an Interest leaves store and FIB alone; a pending name gets the face and keeps its expiry; another becomes pending only when it is forwarded; nothing but a reply of that name or the Interest is queued |
| Steps.DataStep | src/main/data_plane.c:339-381 | in every reachable state Data settles its name and is counted as received, and as sent once for each waiting port or as a miss |
| Steps.AddStep | src/lib/fib/fib.c:59-69 | in every reachable state an added route goes into the multiset of routes unless the name is empty or starts with a zero byte, the places are used up, or seven routes share its bucket |
| Steps.DeleteStep | src/lib/fib/fib.c:71-81 | in every reachable state one copy of a deleted route is taken out unless the name is empty or starts with a zero byte, or there is none |
| Steps.QuietStep | src/main/data_plane.c:454-484 | drains, purges and transmitted packets change no table but the PIT, no counter, and no reference but those given back |
| Steps.PortStep | src/main/data_plane.c:151-196 | in every reachable state and for every port, a burst is offered exactly when 32 packets wait, or some do in a drain; the card gets the first ones, as many as it accepts, and the others are refused; otherwise nothing is offered and all wait |
| Steps.DropsExact | src/main/data_plane.c:157-171 | in every reachable state the drop counter is the sum over all bursts of what waited less what the card accepted |
| Steps.ReceivedCounted | src/main/data_plane.c:218-389 | in every reachable state the counters of Interests, Data, malformed packets and Data misses are the numbers of these that were received |
| Polling.LonePurgeIff | src/main/data_plane.c:450-484 | the purge that is not part of a drain never takes place, for any clock and any traffic, if and only if the purge interval is not below the drain interval |
| Polling.RoundAt | src/main/data_plane.c:487-536 | the packets of a round are those of its bursts, queue by queue and in order, each with the port of its own queue |
| Polling.ScheduleAt | src/main/data_plane.c:450-536 | each round of the schedule is a drain when one is due, or else a purge when one is due, and then all its packets in order, each with the port of its queue |
| Delay.WaitsSinceDrain | src/main/data_plane.c:403-408 | over every run, the packets in a transmit buffer are the last ones queued for its port, and all were queued since the last drain |
| Delay.ExpiresAfterPurge | src/main/data_plane.c:476-484 | over every run, no pending entry had expired at the last purge |
| Delay.EveryRoundPrompt | src/main/data_plane.c:403-413 | in each round of the polling loop, once its upkeep is done, no packet has been in a transmit buffer for longer than the drain interval, and no entry that expired longer ago than the shorter of the drain and purge intervals is still in the PIT |
| DataPlane.DataPlane.Keeps | src/main/data_plane.c:199-540 | whatever sequence of calls the object has seen, its references are exact, its ports deliver in order, its counters balance, every Interest and forward is accounted for, for every name and port, its store holds the newest Data it accepted, and its FIB the routes added and not deleted |
| DataPlane.DataPlane.constructor | src/main/data_plane.c:395-432 | a new data plane is in the initial state of the state machine |
| DataPlane.DataPlane.Reply | src/main/data_plane.c:259-281 | takes one more reference to the cached packet, sends it to the port, counts it and drops the Interest |
| DataPlane.DataPlane.Miss | src/main/data_plane.c:282-337 | its effect on tables, transmission and counters is the one that the state machine gives the Interest's fate |
| DataPlane.DataPlane.Route | src/main/data_plane.c:308-337 | the answer is one that longest-prefix match allows; without one, or back to where it came from, the entry is withdrawn and the packet dropped, otherwise it is sent to that face |
| DataPlane.DataPlane.Withdraw | src/main/data_plane.c:319-330 | removes the entry just made and gives up the reference of the Interest |
| DataPlane.DataPlane.OnInterest | src/main/data_plane.c:254-338 | the same, with the store asked first |
| DataPlane.DataPlane.Store | src/main/data_plane.c:341-349 | stores the packet, evicting and freeing the oldest when full; a refused packet's reference is lost |
| DataPlane.DataPlane.Serve | src/main/data_plane.c:350-381 | removes the PIT entry and sends a copy to every port in its mask, or counts a miss when there is none |
| DataPlane.DataPlane.OnData | src/main/data_plane.c:339-381 | its effect on tables, transmission and counters is the one that the state machine gives to Data |
| DataPlane.DataPlane.HandleMalformed | src/main/data_plane.c:226-242 | drops the packet, counts it and changes nothing else |
| DataPlane.DataPlane.Handle | src/main/data_plane.c:218-389 | dispatches a frame as the state machine does, by EtherType, protocol and packet type (what these are is in Steps.TypeCounted) |
| DataPlane.DataPlane.IcnFwd | src/main/data_plane.c:199-389 | handling a packet is exactly one step of the run, with the packet's own frame, port and time, and brings no other free buffer into use |
| DataPlane.DataPlane.Upkeep | src/main/data_plane.c:454-484 | one drain at this time, for what the card accepts of what waits, exactly when the last drain is too long ago; or else one purge, exactly when the last purge is; or else nothing |
| DataPlane.DataPlane.DrainPorts | src/main/data_plane.c:466-475 | every port sends what it has; no table changes |
| DataPlane.DataPlane.PurgePit | src/main/data_plane.c:476-484 | purges the PIT at the time read at the start of the round; nothing else changes |
| DataPlane.DataPlane.ReadBurst | src/main/data_plane.c:491-534 | the two loops handle every packet of a burst exactly once and in order, each as received from the port of the queue, whatever the size of the burst |
| DataPlane.DataPlane.Poll | src/main/data_plane.c:450-536 | a round is its upkeep, and then every packet of the bursts of the receive queues, queue by queue and in order, each as received from the port of its own queue |
| DataPlane.DataPlane.PktFwdLoop | src/main/data_plane.c:395-540 | without receive queues it does nothing; otherwise its steps follow the schedule: a drain and purge whenever a drain is due, a purge alone when only that is due, every packet once in order; and after the upkeep of each round nothing has waited for longer than the intervals allow |
| DataPlane.DataPlane.FibAdd | src/lib/fib/fib.c:59-69 | adding a route between packets is one step of the run; it is invalid exactly for names that are empty or start with a zero byte, and otherwise puts one copy of the route in exactly when there is room |
| DataPlane.DataPlane.FibDel | src/lib/fib/fib.c:71-81 | deleting a route between packets is one step of the run; it is invalid for the same names, and otherwise takes one copy of the route out exactly when there is one |

## Left out

- DataPlane.DataPlane.IcnFwd: covers only frames that are not ICN or whose ICN packet parses, with a name of at most 33 bytes, fewer than 16 components and offsets inside the name; the source ignores the result of parsing and does not check these bounds. The reference of a packet counts from the moment its handling begins.
- DataPlane.DataPlane.Handle: has the same restriction to frames; after a failed parse the source goes on with fields of a stack variable that were never set, and a longer name or list would overrun the fixed arrays, so what it does then is not defined.
- DataPlane.DataPlane.PktFwdLoop: has the same restriction to frames; runs for any finite number of rounds where the source runs forever; the buffers of a burst are any free ones, and the TTL of the PIT stays fixed while the loop runs (PitSpec.EveryPurgeExact and PitSpec.TransientEnds are about a TTL that changes).
- DataPlane.DataPlane.ReadBurst: has the same restriction to frames, for every packet of the burst.
- DataPlane.DataPlane.Poll: has the same restriction to frames, for every burst of the round.
- Delay.EveryRoundPrompt: bounds waiting at the start of each round; how long a round itself takes is up to the traffic and not bounded.
- Wire.IcnPacket.ParsePacket: does not model the last two length reads, which have no observable effect, and takes for granted that the bytes the header points to are in memory: the source does not check, and what lies past the buffer of a packet is not part of this model.
- Pit.Pit.Scan: is the one scan loop that lookup, update and removal share, where the source repeats the loop in each of them.
- Pit.Pit.constructor: takes the TTL in clock cycles; the conversion is in SetTtlUs.
- Transmitter.Transmitter.SendBurst: how many packets the card accepts is an input, at most what it is offered.
- Face masks are natural numbers whose bits are binary digits, with the faces 0 to 9; the narrowing of the mask to 32 bits in the data plane loses none of them.
- Rewriting of MAC addresses: the header lies in a buffer shared by all queued copies.
- DPDK itself: memory pools, device set-up, NUMA placement, prefetching, cache alignment, logging. Prefetch hints have no effect here.
- Receive-side scaling and several cores: one core is modelled, and FIB updates happen between packets.
- Control plane, command line, device start-up, statistics printing, and the freeing of tables.
- Wrap-around of 32-bit counters and overflow of 64-bit times.
- The internals of CRC32, and names whose length does not fit the tables.
- int_to_ipv4 and the IP and Ethernet layers that interest_over_ip and data_over_ip put around a packet.
