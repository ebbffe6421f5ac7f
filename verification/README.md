# An in-memory cache server, modelled and proved in Dafny

The server keeps key/value entries in one fixed buffer used as a ring, finds them through a
Robin Hood hash map, and serves clients over non-blocking sockets with one state machine per
connection and a round-robin scheduler. This project models that logic and proves what the
pieces promise. `dafny verify dfyconfig.toml` checks all of it.

| file | models |
|---|---|
| `RobinHood.dfy`, `Crowding.dfy`, `HashMap.dfy`, `Dictionary.dfy`, `DibWidth.dfy`, `BitMask.dfy` | the hash map of `src/hashmap.c`: the bucket array as a value with its invariant, which items its 16-bit distances can place, the class whose loops refine functions on that value, what a client with at most 65535 items sees, and the tables that go wrong |
| `SipHash.dfy`, `SipVectors.dfy` | SIP64 against SipHash-2-4 and its published values (section 2 of Aumasson and Bernstein, "SipHash: a fast short-input PRF") |
| `Bytes.dfy`, `EntryHeader.dfy` | little-endian bytes, the packed 16-byte entry header, the reader lock |
| `EntryHashMap.dfy` | the index from keys to entries: comparison, hashing, put and delete |
| `RingGeometry.dfy`, `RingIndex.dfy`, `RingClients.dfy`, `RingRun.dfy`, `Placement.dfy`, `MemoryQueue.dfy`, `QueueRun.dfy`, `QueueNumbers.dfy`, `Retention.dfy` | the ring allocator on real bytes, together with the index: layout, agreement of map and ring, what clients write, runs, the class, any sequence of its operations, what these do in indices and byte counts, and what stays in it |
| `Protocol.dfy`, `Requests.dfy`, `Connection.dfy`, `Chunking.dfy`, `Sessions.dfy` | the wire protocol as a one-shot specification, and on literal bytes, the connection's state machine, and its independence from how traffic is split and from who is served in between |
| `ConnectionList.dfy`, `CacheServer.dfy`, `RoundRobin.dfy` | the intrusive list as a heap structure, the scheduler, whose turn it is over a run, and the reader locks and request streams of all connections together |

## How the parts fit

**Hash map.** A table is valid when every bucket lies `dib - 1` slots after its home, a bucket's
dib is at most its predecessor's plus one, and no two buckets have the same key. The class
`HashMap` keeps its bucket array, `spare` and `edata` as fields and loops over them; each loop is
proved equal to a recursive function, and lemmas about these functions carry the argument.
"Same key" is what the code decides: 48-bit hashes equal and `compare` zero; this must be an
equivalence on the keys in play (`Distinguishes`), and for the entry index the exact condition on
the keys is proved. A bucket's distance field has 16 bits. Which items a table can hold is decided
by their hashes alone (`Spread`): for every w, no w consecutive slots may be home to more than
w + 65534 keys. Every operation is proved to do its work exactly when that holds of its result, and
it always holds of 65535 items or fewer.

**Ring.** The state is the buffer's bytes plus the indices. The live entries, oldest first, either
tile `[read, write)`, or tile `[read, p)` with the end-of-buffer marker at p and then `[0, write)`;
the second form also covers `write == read == 0` with entries left, which a blocked wrap leaves
behind. Every mapped key leads to a live, active entry stored under that key (`Sound`), and, once
entries are activated before they are put, every active live entry is mapped (`Exact`). Every
operation that leaves the queue valid, blocked or not, is proved to be a `Step`, and the results
about runs are about any sequence of steps. `QueueRun.Run` takes the class through any sequence of
operations and returns such a run, with what each operation did, up to the one that loses the queue,
if there is one. Three results are about all of them: what readers hold is never reclaimed nor changed
(`RingRun.HeldNeverReclaimed`, `RingRun.HeldReadsTheSame`), entries leave in the order they came
(`RingRun.FirstInFirstOut`), and what was put is found, unchanged, exactly until an operation takes it
out (`Retention.PutIsFound`).

**Connections.** A `Backend` stands for index, ring and malloc as one connection meets them: an
arbitrary function of the history of the connection's own calls. Since it is arbitrary, it takes in
whatever other connections do to the cache between these calls. `OneShot` says what one request does
when its bytes are all there. A connection keeps to it under every splitting of its traffic
(`Tracks`), through a whole stream of requests (`Chunking.ServeStream`), and whoever else is served
in between (`Sessions.Turn`, `CacheServer.CacheServer.Run`): entries and their reader locks are
common to all connections, and every call is answered by the calling connection's own function. A
run of the server is returned as a trace: one event for each call, and the list, the current
connection, every connection's position, and all it has received and sent, between calls.

**In numbers.** Where code and specification use the same definition, the definition itself is tied to
something outside: published hash values (`SipVectors`), the bytes of requests and headers (`Requests`,
`EntryHeader.Layout`), indices and byte counts (`Placement`, `QueueNumbers`, the last clauses of
`MemoryQueue.MemoryQueue.Allocate`), the number 65535 (`Dictionary`, `DibWidth.OnlyFarFails`), and
positions in the list (`RoundRobin`).

**Environment.** Whether an allocation succeeds, what memory from malloc contains, how many bytes
a socket moves, whether a client is waiting and whether the accept period has passed are
parameters or arbitrary choices.

## Findings

Where the code does not keep what a reader would expect, there is a lemma with a concrete state
and a statement of exactly when it does:

- A bucket's distance field wraps at 16 bits (`src/hashmap.c:30-33`). In a table of 131072 buckets
  with 65535 items of hash 0, setting one more item of hash 0 loses an item or the order
  (`DibWidth.CrowdedOverflows`). In a table of 2097152 buckets with 65535 items of hash 0 and 65535
  of hash 1048576, all is well until a delete halves it (`src/hashmap.c:362-367`,
  `DibWidth.HalvingOverflows`). Exactly when: `DibWidth.SetExactly`, `HashMap.HashMap.Resize`,
  `Crowding.NarrowIffSpread`.
- `entry_compare` is not symmetric and stops at NUL bytes (`src/entry_hash_map.c:83-90`): the keys
  01 and 01 01 compare equal in this order, not in the other (`EntryHashMap.CompareNotSymmetric`).
  Exactly when it decides equality of keys: `EntryHashMap.SeparatedIffDistinguished`.
- `remove_entry` takes a stale header behind the last entry for the marker if its bit is set
  (`src/memory_queue.c:140-143`); only `memory_queue_clean` can get there. A buffer of 50 bytes holds
  one entry, key "k" and value "v", with a left-over marker header behind it
  (`MemoryQueue.StaleMarkHappens`). Exactly when: `MemoryQueue.MemoryQueue.Clean`.
- `entry_hash_map_put` keeps map and ring in agreement only for entries whose `active` bit is set
  (`src/entry_hash_map.c:56-67`), and `src/connection.c:288-289` never sets it. Putting key "k" with
  value "v" leaves the index pointing at an inactive entry (`MemoryQueue.InactivePutBreaks`), which
  the next allocation reclaims without unmapping it (`MemoryQueue.InactivePutDangles`). Exactly when:
  `MemoryQueue.MemoryQueue.Put`.
- An entry that leaves no room for a marker behind it is still allocated
  (`src/memory_queue.c:53-56`): key size 1 and value size 40 in a buffer of 64 bytes
  (`QueueRun.NoRoomForMarker`). So is one whose 32-bit sum of sizes overflows
  (`src/memory_queue.c:50`): key size 0 and value size 4294967280 make the total zero
  (`QueueRun.TotalOverflows`). Exactly when the queue is valid afterwards:
  `MemoryQueue.MemoryQueue.Allocate`, `MemoryQueue.MemoryQueue.Reserve`.
- A reservation is neither active nor locked while its payload arrives (`src/connection.c:443-466`),
  so another connection's allocation can reclaim it, and the bytes then go into another entry: two
  puts of a key of 1 and a value of 15 bytes in a buffer of 64 bytes (`QueueRun.ReservationLost`).
  Exactly when an entry survives: `QueueRun.Survives`.
- A node with stale links appended to an empty list leaves the list ill-linked
  (`src/connection_list.c:35-39`): append a and b, remove a and b, append a
  (`ConnectionList.StaleNodeBreaks`). Exactly when: `ConnectionList.ConnectionList.Append`; the
  scheduler only appends nodes without links.
- A blocked connection leaves the list but stays current (`src/cache_server.c:153-161`): a single
  connection whose put gets the last byte of its sizes while the ring is write-blocked
  (`CacheServer.BusyPutBreaks`). Exactly when, from what is received:
  `CacheServer.CacheServer.ServeCurrent`; a read block moreover takes 65536 open connections
  (`CacheServer.CacheServer.ReadBlockNeedsReaders`).
- With keep-alive, the event that a lock became free is overwritten before the scheduler reads it
  (`src/connection.c:347-352`): a kept-alive get of an entry nobody else reads. Exactly when:
  `Connection.Connection.EventSentBody`.
- A transfer of length zero reads as no transfer (`src/connection.c:400-405`): a get with key size 0
  is never answered. Exactly when: `Connection.Connection.StallsAtZero`.

## Model

| member | source | states |
|---|---|---|
| `HashMap.Run` | `src/hashmap.c:188-372` | for every sequence of set, get, delete and clear, of any length and with any allocation failing, the answers, the contents, the number of buckets and `count` are those of a finite map, as long as at each point the items are spread well enough for the number of buckets (`Smooth`), which can be told from the hashes alone |
| `HashMap.FewIsSmooth` | `src/hashmap.c:188-372` | every run that never holds more than 65535 items is such a run, whatever the hashes |
| `Dictionary.Use` | `src/hashmap.c:188-372` | any sequence of set, get, delete and clear on a map that never holds more than 65535 items, whatever the hashes and with any allocation failing: the answers and the contents are those of a finite map, the number of buckets doubles exactly when three quarters are taken and memory allows, and halves exactly when a delete leaves a tenth, above the capacity; it stops only at a set of a new key beside 65535 others |
| `Dictionary.Serve` | `src/hashmap.c:188-372` | one such operation |
| `Dictionary.FewAfter` | `src/hashmap.c:252-372` | only a set of a new key adds an item |
| `HashMap.Apply` | `src/hashmap.c:188-372` | one operation of any kind answers as a finite map would and keeps the whole invariant if and only if the items are then spread well enough for the number of buckets; a get and a clear always are |
| `HashMap.HashMap.Set` | `src/hashmap.c:252-294` | set maps the key to the new item, returns the displaced one and keeps the invariant if and only if no stretch of the table is home to too many keys afterwards; replacing always does, and changes one bucket in its item only; a failed growth changes nothing; the table doubles exactly at the load limit; with at most 65535 items it is, always |
| `HashMap.HashMap.Get` | `src/hashmap.c:298-316` | get returns the item last set for the key, or nothing |
| `HashMap.HashMap.Delete` | `src/hashmap.c:333-372` | delete returns the key's item (the copy in `spare` survives the shrink), halves the table exactly when sparse, above its initial capacity, and memory allows, and removes the key and keeps all others if and only if these are spread well enough for the number of buckets left |
| `HashMap.HashMap.Clear` | `src/hashmap.c:188-205` | clear empties the map whether or not its allocation succeeds, and settles `cap` and `nbuckets` |
| `HashMap.HashMap.Resize` | `src/hashmap.c:208-246` | moving to any number of buckets keeps invariant and contents if and only if the items are spread well enough for it; a failed allocation changes nothing |
| `HashMap.HashMap.Grow` | `src/hashmap.c:257-262` | doubling always keeps invariant and contents |
| `HashMap.HashMap.New` | `src/hashmap.c:74-135` | a new map is empty and valid; its capacity is the least power of two that is at least 16 and at least the request; null exactly when an allocation fails |
| `HashMap.HashMap.Capacity` | `src/hashmap.c:90-98` | always `16 <= cap <= nbuckets`, `count <= growat < nbuckets`, an empty bucket exists, and every dib is at most `count` and fits 16 bits, so every probe loop ends; the load limits are three quarters and a tenth of the buckets |
| `HashMap.HashMap.ValidSpreads` | `src/hashmap.c:30-33` | the items of a valid table are spread well enough for its number of buckets |
| `HashMap.HashMap.CountIsSize` | `src/hashmap.c:374-377` | `count` is the number of keys |
| `HashMap.RoundUp` | `src/hashmap.c:90-98` | the doubling loop finds the least sufficient power of two |
| `HashMap.RoundUpExact` | `src/hashmap.c:208-211` | a capacity that is already a power of two is taken as it is, so resize gets exactly the size it asked for |
| `HashMap.Sizes` | `src/hashmap.c:257-262` | doubling and halving stay within the range of the capacity arithmetic |
| `HashMap.HashMap.Insert` | `src/hashmap.c:264-293` | below the load limit, the insertion loop refines map update if and only if the items are spread well enough |
| `HashMap.HashMap.PlaceItem` | `src/hashmap.c:265-293` | the loop with its swaps through `spare` computes the recursive insertion |
| `HashMap.PlaceSearches` | `src/hashmap.c:270-293` | with the 16-bit distances as they are: set on a present key replaces exactly that bucket's item; on an absent key, if the items are then spread well enough, one item is added, nothing is lost and no distance wraps |
| `HashMap.PlaceFinds` | `src/hashmap.c:278-285` | a present key is reached before any swap, and before any distance can wrap |
| `HashMap.PlaceIsPush` | `src/hashmap.c:278-290` | with the key absent, no displaced bucket ever matches a later one: the match test never fires |
| `HashMap.PushInserts` | `src/hashmap.c:221-236` | pushing an absent item through the swap chain keeps the Robin Hood invariant, uniqueness and all other items, and no distance wraps, if the items are then spread well enough |
| `HashMap.CarryTurn` | `src/hashmap.c:286-292` | one turn of either insertion loop, swap or not, keeps table plus bucket in hand together equal to the map with the item added |
| `HashMap.SearchSettles` | `src/hashmap.c:286-290` | the first bucket closer to home than the new item proves the key absent |
| `HashMap.SearchOn` | `src/hashmap.c:291-292` | passing a bucket with another key keeps the search invariant and gets nearer to an empty slot |
| `HashMap.MatchIsKey` | `src/hashmap.c:278-280` | 48-bit hash equality and a zero comparison mean the same key |
| `HashMap.SeekFinds` | `src/hashmap.c:304-315` | the probe loop reaches the item with the key, or an empty bucket exactly when the key is absent |
| `HashMap.ProbeStep` | `src/hashmap.c:314-314` | a probe that passes a foreign bucket has still seen every slot from home on |
| `HashMap.ProbeMiss` | `src/hashmap.c:306-308` | an empty bucket on the probe path proves the key absent |
| `HashMap.HashMap.Find` | `src/hashmap.c:302-315` | the loop of get and delete computes the recursive probe |
| `HashMap.HashMap.Reinsert` | `src/hashmap.c:221-236` | the inner loop of resize computes the recursive push, although it uses the old bucket as scratch |
| `HashMap.HashMap.MoveOne` | `src/hashmap.c:217-236` | after bucket i the new table holds exactly the items of the first i + 1 old buckets |
| `HashMap.HashMap.MoveAll` | `src/hashmap.c:216-237` | the new table ends up with exactly the old items, each once |
| `HashMap.CopyOne` | `src/hashmap.c:221-236` | reinserting one item extends the copied prefix by that item |
| `HashMap.HashMap.Shrink` | `src/hashmap.c:362-367` | the size test of delete halves the table or leaves it, and its contents stay if and only if they are spread well enough for the result |
| `HashMap.HashMap.Take` | `src/hashmap.c:337-361` | find and unlink remove exactly the key's item |
| `HashMap.HashMap.Unlink` | `src/hashmap.c:348-361` | freeing an occupied slot and shifting back removes exactly its item |
| `HashMap.HashMap.ShiftFrom` | `src/hashmap.c:349-360` | the backward-shift loop computes the recursive shift |
| `HashMap.ShiftCloses` | `src/hashmap.c:350-360` | shifting back until a bucket at home or an empty one restores the invariant and loses nothing |
| `HashMap.DeleteRemoves` | `src/hashmap.c:348-360` | deletion of a slot gives the map without that key |
| `HashMap.HashMap.Erase` | `src/hashmap.c:201-201` | zeroed buckets are an empty valid table |
| `HashMap.HashMap.Iter` | `src/hashmap.c:431-445` | one call yields the next occupied slot's item and a cursor just behind it, or reports the end: the first occupied one from the cursor on |
| `HashMap.HashMap.IterateAll` | `src/hashmap.c:431-445` | iterating from cursor 0 yields the items in slot order |
| `HashMap.HashMap.Scan` | `src/hashmap.c:398-410` | scan offers the same items in the same order, and stops at the first refusal |
| `HashMap.YieldIsContents` | `src/hashmap.c:398-445` | what iteration yields is every pair of the map exactly once |
| `HashMap.YieldDistinct` | `src/hashmap.c:431-445` | no key is yielded twice |
| `HashMap.HashMap.constructor` | `src/hashmap.c:109-133` | a zeroed table of n buckets is empty, valid and has its limits set |
| `RobinHood.MaskedSuccessor` | `src/hashmap.c:291-291` | `(i + 1) & mask` is the circular successor |
| `RobinHood.HomeIs` | `src/hashmap.c:220-220` | an item is at home in the slot that is the remainder of its hash |
| `BitMask.MaskIsRemainder` | `src/hashmap.c:291-291` | masking with one less than a power of two is the remainder |
| `RobinHood.WalkBack` | `src/hashmap.c:286-292` | by the step rule, dib falls by at most one per slot going back |
| `RobinHood.DibAtMostCount` | `src/hashmap.c:270-293` | a bucket's dib is at most the number of items |
| `RobinHood.ProbeEnds` | `src/hashmap.c:286-290` | beyond a bucket closer to home than the probe lies nothing with the probed hash |
| `RobinHood.ProbeComplete` | `src/hashmap.c:304-315` | a probe that ends has proved absence |
| `RobinHood.PlaceKeepsTable` | `src/hashmap.c:286-290` | writing the bucket in hand over one closer to home keeps the invariant and exchanges exactly the two items |
| `RobinHood.CarrySwap` | `src/hashmap.c:286-292` | a swap keeps table plus hand equal to the same map |
| `RobinHood.CarryOn` | `src/hashmap.c:291-292` | moving on keeps table plus hand equal to the same map |
| `RobinHood.CarryEnd` | `src/hashmap.c:273-276` | storing into an empty bucket completes the map |
| `RobinHood.ReplaceKeepsTable` | `src/hashmap.c:278-285` | replacing an item by one with the same key keeps the invariant and updates that key only |
| `RobinHood.DigHole` | `src/hashmap.c:349-349` | freeing a slot leaves a table that breaks the step rule at most behind it |
| `RobinHood.ShiftKeepsHole` | `src/hashmap.c:350-360` | one shift moves the hole one slot on and keeps everything else |
| `RobinHood.ShiftContents` | `src/hashmap.c:358-359` | one shift changes no item |
| `RobinHood.CloseHole` | `src/hashmap.c:354-357` | in front of a bucket at home, or an empty one, the hole is no hole |
| `RobinHood.ContentsSize` | `src/hashmap.c:374-377` | distinct keys: as many pairs as occupied buckets |
| `RobinHood.ContentsUpdate` | `src/hashmap.c:274-289` | overwriting one bucket takes out its pair and puts in the new one |
| `DibWidth.SetExactly` | `src/hashmap.c:265-293` | for tables of any size and items of any hash: the insertion loop of set does to the table what set means, every distance fitting 16 bits, if and only if afterwards no w consecutive slots, for any w, are home to more than w + 65534 keys |
| `DibWidth.PushExactly` | `src/hashmap.c:221-236` | the same for the insertion loop of resize |
| `DibWidth.OnlyFarFails` | `src/hashmap.c:265-293` | setting an absent key goes wrong exactly when, with distances that have no limit, it would leave a bucket whose distance field would have to hold 65536 or more |
| `HashMap.BumpFits` | `src/hashmap.c:292-292` | a 16-bit distance goes from 65535 to 0, and otherwise up by one |
| `Crowding.Limits` | `src/hashmap.c:30-33` | the limits in numbers: a distance field holds 65535, and w slots may be home to w + 65534 keys |
| `Crowding.NarrowIffSpread` | `src/hashmap.c:30-33` | in any Robin Hood table with an empty slot, all distances fit 16 bits if and only if no stretch of slots is home to too many keys: the condition on the hashes alone |
| `Crowding.NarrowSpreads` | `src/hashmap.c:270-293` | small distances leave no stretch of slots home to too many keys |
| `Crowding.FarIsCrowded` | `src/hashmap.c:270-293` | a bucket 65536 or more from home has the whole run up to it at home in a stretch too short for it |
| `Crowding.SubmapSpread` | `src/hashmap.c:333-372` | fewer items are spread at least as well |
| `Crowding.DoubledSpread` | `src/hashmap.c:257-262` | doubling the table spreads the items at least as well: growing is always safe |
| `Crowding.FewSpread` | `src/hashmap.c:30-33` | 65535 items or fewer are always spread well enough |
| `DibWidth.CrowdedOverflows` | `src/hashmap.c:30-33` | 65535 items with one hash, in a table of any larger size, form a valid table that one more such item breaks |
| `DibWidth.HalvingOverflows` | `src/hashmap.c:362-367` | a family of tables that delete halves although the items are spread well enough only for the larger size |
| `SipHash.Sip64` | `src/hashmap.c:465-525` | for every input length, SIP64 is SipHash-2-4 of the message (zero-padded, length byte last) |
| `SipVectors.Published` | `src/hashmap.c:465-525` | with the key 00 .. 0f, SIP64 gives the values published for SipHash-2-4: 726fdb47dd0e0e31 for the empty message, 93f5f5799a932462 for 00 .. 07 and a129ca6149be45e5 for 00 .. 0e |
| `SipVectors.FifteenHashed` | `src/hashmap.c:465-525` | the definition gives the value of appendix A of the paper |
| `SipVectors.EightHashed` | `src/hashmap.c:465-525` | and that of a message of one whole word |
| `SipVectors.EmptyHashed` | `src/hashmap.c:465-525` | and that of the empty message |
| `SipHash.Blocks` | `src/hashmap.c:497-503` | the block loop absorbs the whole words of the padded message |
| `SipHash.Tail` | `src/hashmap.c:504-515` | the fall-through switch builds the last word: tail bytes, zeros, length byte |
| `SipHash.Round` | `src/hashmap.c:482-490` | the macro's fourteen statements are one SipRound |
| `SipHash.LoadStored` | `src/hashmap.c:468-480` | loading what was stored gives the word back |
| `SipHash.StoredLoad` | `src/hashmap.c:468-480` | storing what was loaded gives the bytes back |
| `EntryHashMap.SeparatedIffDistinguished` | `src/entry_hash_map.c:79-100` | the match test of the map means "same key" if and only if different keys in play that share a 48-bit hash have equal length and differ before their first NUL |
| `EntryHashMap.CompareNotSymmetric` | `src/entry_hash_map.c:83-85` | a shorter first key compares as equal, a longer one does not |
| `EntryHashMap.CompareIs` | `src/entry_hash_map.c:79-91` | entry_compare is zero for a longer second key, or one of the same length that is equal up to its first NUL |
| `EntryHashMap.HashIs` | `src/entry_hash_map.c:93-100` | entry_hash is SIP64 of the bytes of the key with both seeds zero, of which the map uses 48 bits |
| `EntryHashMap.StrncmpIsCString` | `src/entry_hash_map.c:87-90` | strncmp calls two keys equal exactly when they agree up to the first NUL |
| `EntryHashMap.NulFreeIsWhole` | `src/entry_hash_map.c:87-90` | on NUL-free keys that is full equality |
| `EntryHashMap.EntryHashMap.Open` | `src/entry_hash_map.c:21-37` | on separated keys the opened index is valid and empty; null exactly when memory runs out |
| `EntryHashMap.EntryHashMap.Get` | `src/entry_hash_map.c:45-54` | get returns the entry mapped from the key, whatever header asks |
| `EntryHashMap.EntryHashMap.Put` | `src/entry_hash_map.c:56-67` | put maps the entry's key to it and clears `active` on the displaced entry; non-zero exactly when the table has to grow and cannot, with nothing changed |
| `EntryHashMap.EntryHashMap.Delete` | `src/entry_hash_map.c:69-77` | delete unmaps the key and clears `active` on its entry |
| `EntryHashMap.EntryHashMap.DeleteCalm` | `src/entry_hash_map.c:69-77` | an index whose items are spread well enough for every number of buckets deletions may lead to never loses that |
| `EntryHashMap.EntryHashMap.TakesFew` | `src/entry_hash_map.c:56-67` | with fewer than 65535 keys there is always a place for one more entry |
| `EntryHeader.UnpackPack` | `src/entry_header.h:16-23` | every header in range is read back from its 16 bytes |
| `EntryHeader.PackUnpack` | `src/entry_header.h:16-23` | every 16 bytes are the packing of the header they hold: the layout has no spare bits |
| `EntryHeader.Layout` | `src/entry_header.h:16-23` | the fields on the 16 bytes: `active` is bit 0, `end_of_buffer` bit 1, `expiry` the 62 bits above, then value size, key size and locks, all little-endian |
| `EntryHeader.HeaderWritten` | `src/entry_header.h:16-23` | a header written into a buffer is read back |
| `EntryHeader.HeaderKept` | `src/entry_header.h:16-23` | and leaves every header clear of it alone |
| `EntryHeader.ReleaseUndoesAcquire` | `src/entry_header.c:7-26` | release gives back what acquire took; acquire is refused only at 0xFFFF; the events mark exactly the two edges |
| `MemoryQueue.MemoryQueue.Allocate` | `src/memory_queue.c:44-96` | success evicts exactly the oldest entries in the way, none locked, and appends a block in bounds that overlaps no live entry; blocked stops at the first locked one in the way; on every exit the ring tiles, the counters are exact and map and ring agree, unless the 32-bit sum of sizes overflowed; the queue is valid afterwards if and only if it did not overflow and one more header fits; with room for the entry and 16 bytes more behind the write index, before the end of the buffer and, in a wrapped ring, before the read index, it evicts nothing and puts the entry there; it goes back to the front exactly when there is none before the end |
| `MemoryQueue.MemoryQueue.Reserve` | `src/memory_queue.c:44-96` | an allocation of any sizes, seen from the state before it: the queue is lost if and only if nothing locked is in the way and the sizes overflow or leave no room for a marker; with room behind the write index it goes there and nothing else changes |
| `MemoryQueue.AllocatesInNumbers` | `src/memory_queue.c:56-82` | which entries an allocation evicts, in indices and byte counts |
| `MemoryQueue.AllocatesWithRoom` | `src/memory_queue.c:56-82` | none, if there is room for the entry and a marker behind the write index |
| `Placement.InTheWay` | `src/memory_queue.c:56-82` | which entries are in the way, in indices and byte counts |
| `Placement.RoomAhead` | `src/memory_queue.c:56-82` | with room behind the write index none is |
| `MemoryQueue.MemoryQueue.WrapIfNeeded` | `src/memory_queue.c:56-73` | goes back to the front exactly when entry and marker do not fit behind the write index, or stops at the first locked entry in the way: write index, total and 16 bytes reach the capacity |
| `MemoryQueue.MemoryQueue.CleanAhead` | `src/memory_queue.c:59-64` | the first cleaning loop ends, having evicted everything up to the marker or stopped at a locked entry |
| `MemoryQueue.MemoryQueue.WrapAround` | `src/memory_queue.c:66-72` | marker and indices: the live entries and the agreement are unchanged |
| `MemoryQueue.MemoryQueue.MakeRoom` | `src/memory_queue.c:75-82` | the second cleaning loop ends, having evicted exactly the entries that begin at or below the limit, or stopped at a locked one of them |
| `MemoryQueue.MemoryQueue.RoomAt` | `src/memory_queue.c:75-82` | the two loops together evict exactly the entries in the way, or stop at the first locked one of them |
| `MemoryQueue.MemoryQueue.Prepare` | `src/memory_queue.c:56-82` | wrap and eviction make room for total size and marker, or stop at the first locked entry in the way |
| `MemoryQueue.MemoryQueue.PlaceEntry` | `src/memory_queue.c:84-93` | the new inactive header keeps layout, counters and agreement; if the sum of sizes overflowed, the layout is lost |
| `MemoryQueue.MemoryQueue.CleanOne` | `src/memory_queue.c:58-82` | each turn of a cleaning loop reclaims one unlocked entry, or stops at a locked one which it retires |
| `MemoryQueue.MemoryQueue.ForceClean` | `src/memory_queue.c:110-123` | evicts the oldest entry and unmaps it; if locked, unmaps and deactivates it but keeps its bytes |
| `MemoryQueue.MemoryQueue.RemoveEntry` | `src/memory_queue.c:125-146` | removal, or refusal with nothing changed when locked; the read index resets at the marker, and wrongly so exactly at a stale marker bit |
| `MemoryQueue.MemoryQueue.Retire` | `src/memory_queue.c:117-120` | a locked active entry leaves the index and turns inactive |
| `MemoryQueue.MemoryQueue.Clean` | `src/memory_queue.c:98-108` | cleaning removes the oldest entry exactly when it is expired or inactive, and unlocked; it keeps the queue valid, and every active entry mapped, if and only if no stale marker bit lies behind the only entry; on fields: not while it is active and its expiry lies ahead, and not while its lock count is not zero |
| `MemoryQueue.MemoryQueue.StaleMarkIs` | `src/memory_queue.c:140-143` | the stale marker as the code can tell it: one entry, no wrap, and the bit behind it set |
| `MemoryQueue.MemoryQueue.SkipMarker` | `src/memory_queue.c:140-143` | the read index starts over exactly at a header with the marker bit |
| `MemoryQueue.StaleMarkHappens` | `src/memory_queue.c:140-143` | a concrete consistent queue, of one entry with a key and a value of one byte, on which memory_queue_clean loses its place |
| `MemoryQueue.MemoryQueue.EvictFacts` | `src/memory_queue.c:125-139` | taking the oldest entry out of index and ring keeps both in agreement |
| `MemoryQueue.MemoryQueue.RemoveFacts` | `src/memory_queue.c:125-143` | the header read behind the oldest entry is the marker exactly at the end of the older run, or stale |
| `MemoryQueue.MemoryQueue.constructor` | `src/memory_queue.c:23-36` | an opened queue is valid and empty on memory of any content |
| `MemoryQueue.Total` | `src/memory_queue.c:50-50` | the 32-bit sum is the true size exactly when it does not overflow |
| `MemoryQueue.MemoryQueue.Put` | `src/entry_hash_map.c:56-67` | publishing keeps map and ring in agreement if and only if the entry is active and not already the mapped one; it changes the flag of the displaced entry and no other byte |
| `MemoryQueue.MemoryQueue.Publish` | `src/tests/test_entry_hash_map.c:185-199` | activating an entry and then putting it keeps map and ring in agreement, and every active live entry mapped; what it does to the buffer, byte for byte |
| `MemoryQueue.MemoryQueue.InactiveIsUnmapped` | `src/entry_hash_map.c:56-77` | no key leads to an inactive entry |
| `MemoryQueue.InactivePutBreaks` | `src/connection.c:288-289` | a concrete queue, of one entry with a key and a value of one byte, on which putting the entry, whose `active` bit nobody set, leaves the index pointing at an inactive entry |
| `MemoryQueue.InactivePutDangles` | `src/memory_queue.c:44-96` | and what follows from it: the next allocation of 18 bytes reclaims that entry without taking it out of the index, so that the item kept under its key points at an entry with another key |
| `MemoryQueue.MemoryQueue.Erase` | `src/entry_hash_map.c:69-77` | deleting a key keeps map and ring in agreement |
| `MemoryQueue.MemoryQueue.Unmap` | `src/memory_queue.c:136-138` | entry_hash_map_delete on a ring entry removes its key and clears its flag only |
| `MemoryQueue.MemoryQueue.Look` | `src/entry_hash_map.c:45-54` | a key found leads to a live, active entry stored under that key, never a reclaimed one; a key not found has no active entry |
| `MemoryQueue.MemoryQueue.AcquireLock` | `src/entry_header.c:7-13` | locking a live entry changes its lock count and no other bit of the buffer |
| `MemoryQueue.MemoryQueue.ReleaseLock` | `src/entry_header.c:15-26` | as does unlocking |
| `MemoryQueue.MemoryQueue.Activate` | `src/tests/test_entry_hash_map.c:192-192` | setting the flag on an entry whose key is in play keeps the agreement |
| `MemoryQueue.MemoryQueue.Fill` | `src/connection.c:375-383` | received bytes inside the payload of an entry that is live, inactive and not being read disturb no other entry, header or marker |
| `MemoryQueue.MemoryQueue.Rewrite` | `src/entry_header.h:16-23` | header updates keep ring, agreement and all other entries |
| `RingGeometry.LiveApart` | `src/memory_queue.c:44-96` | live entries never overlap |
| `RingGeometry.MarkApart` | `src/memory_queue.c:66-66` | the marker lies outside every live entry |
| `RingGeometry.RemoveFirst` | `src/memory_queue.c:132-143` | dropping the oldest entry keeps the layout and subtracts its size |
| `RingGeometry.NextHeader` | `src/memory_queue.c:140-143` | what lies behind the oldest entry: the next header, or the marker exactly at the end of the older run |
| `RingGeometry.WrapKeeps` | `src/memory_queue.c:66-72` | writing the marker and wrapping keeps layout and entries |
| `RingGeometry.AppendKeeps` | `src/memory_queue.c:84-93` | a new block keeps the tiling, overlaps nothing and adds its size |
| `RingGeometry.TouchHeader` | `src/memory_queue.c:84-89` | rewriting one live header leaves every other entry and the marker alone |
| `RingIndex.EraseKeepsSound` | `src/entry_hash_map.c:69-77` | erasing a key keeps "every mapped key leads to a live active entry of that key", and that the map holds all of them |
| `RingIndex.EraseKeepsRing` | `src/entry_hash_map.c:74-76` | and touches at most the flag of one entry |
| `RingIndex.Forget` | `src/memory_queue.c:136-138` | forgetting the oldest entry keeps layout, agreement and all other entries |
| `RingIndex.DropFirst` | `src/memory_queue.c:132-134` | an entry no key leads to can be reclaimed |
| `RingIndex.DeactivateFirst` | `src/memory_queue.c:117-120` | deactivating the oldest entry leaves only its own key to mend |
| `RingIndex.DoomedSettled` | `src/memory_queue.c:56-82` | in terms of the ring before the call, exactly the entries in the way go |
| `RingIndex.DoomedSoFar` | `src/memory_queue.c:59-82` | a blocked call stopped at an entry in the way, with all before it in the way and unlocked |
| `RingIndex.PositionedAt` | `src/memory_queue.c:56-82` | where an entry of the ring before the call is after the first loop and the wrap, and that the second loop takes it for in the way exactly when it was |
| `RingIndex.PreparedIsFree` | `src/memory_queue.c:56-82` | a call that makes its room had nothing locked in the way |
| `RingIndex.RoomIsPrepared` | `src/memory_queue.c:56-82` | whatever the first loop and the wrap did, the second loop ends with exactly the entries in the way gone, or blocked at the first locked one of them |
| `RingIndex.ReclaimsSome` | `src/memory_queue.c:58-82` | a blocked allocation reclaims exactly the entries that are, with all older ones, in the way and unlocked |
| `RingIndex.WrapConsistent` | `src/memory_queue.c:66-72` | wrapping keeps map and ring in agreement |
| `RingClients.PutKeeps` | `src/entry_hash_map.c:56-67` | the if-and-only-if behind put, for every ring and map |
| `RingClients.FillKeeps` | `src/connection.c:375-383` | payload writes and the agreement |
| `RingClients.RewriteKeeps` | `src/entry_header.c:7-26` | header writes and the agreement |
| `RingRun.HeldNeverReclaimed` | `src/memory_queue.c:125-130` | an entry whose lock count never reaches zero is live in every state of any run; runs include all traces of `QueueRun.Run` |
| `RingRun.HeldUndisturbed` | `src/memory_queue.c:58-95` | and no step of the run overlaps it with a new block or changes its payload, whether the entry is still mapped or has been retired while readers are sending it |
| `RingRun.HeldReadsTheSame` | `src/memory_queue.c:58-95` | so in every state of the run the payload of an entry held throughout is what it was in the first |
| `RingRun.FirstInFirstOut` | `src/memory_queue.c:58-95` | over any run the live entries are everything ever added less the first so many: strictly allocation order |
| `QueueRun.Run` | `src/memory_queue.c:44-146` | any sequence of allocating, filling, publishing, erasing, locking, unlocking and cleaning, of any sizes, until an operation loses the queue: it is lost exactly when an allocation goes ahead whose sizes overflow or leave no room for a marker, or a cleaning removes the only entry in front of a stale marker; until then the queue is valid, and the trace returned has every step do to the live entries, the buffer and the index exactly what its operation says; if the index has memory to grow whenever it must, it holds exactly the active live entries in every state, and each operation takes out of it exactly what it says |
| `QueueRun.Perform` | `src/memory_queue.c:44-146` | one operation of any kind: exactly when it loses the queue, and what it does otherwise |
| `QueueRun.Allocation` | `src/memory_queue.c:44-96` | an allocation of any sizes loses the queue if and only if it goes ahead and its sizes overflow or leave no room for a marker; otherwise it reclaims an entry if and only if it and all older ones are in the way and unlocked, and adds one block, or none when a locked entry is in the way or the total exceeds the capacity; what it takes out of the index |
| `QueueRun.Cleaning` | `src/memory_queue.c:98-108` | a cleaning reclaims the oldest entry if and only if it is expired or inactive, and unlocked, and loses the queue if and only if it does so in front of a stale marker; what it takes out of the index |
| `QueueNumbers.LosesInNumbers` | `src/memory_queue.c:56-82` | an allocation of a run reclaims an entry exactly if it and all older ones begin in the bytes to be written, or not beyond 16 bytes behind them, or have to go before the write index goes back to the front, and have lock counts of zero |
| `QueueNumbers.EffectInNumbers` | `src/memory_queue.c:50-93` | it adds a block at the write index, or at 0 if write index, total and 16 reach the capacity; and none exactly if the total exceeds the capacity or the first entry left is in the way and locked |
| `QueueNumbers.SpoilsInNumbers` | `src/memory_queue.c:50-93` | it loses the queue exactly if nothing locked is in the way and the sum of sizes overflows 32 bits or leaves no 16 bytes |
| `QueueNumbers.UnmapsInNumbers` | `src/memory_queue.c:56-82` | it takes an entry out of the index exactly if that and all older ones are in the way, and the older ones have lock counts of zero |
| `QueueNumbers.CleanInNumbers` | `src/memory_queue.c:98-108` | a cleaning of a run, on header fields |
| `QueueNumbers.LocksInNumbers` | `src/entry_header.c:7-26` | locking and unlocking change one lock count by one and no byte of the buffer besides its header; locking stops at 65535 |
| `QueueNumbers.EraseInNumbers` | `src/entry_hash_map.c:69-77` | erasing a key takes out the entry with these bytes behind its header, clears the active bit of the header the key led to and changes nothing else |
| `QueueNumbers.PublishInNumbers` | `src/entry_hash_map.c:56-67` | publishing sets the active bit of the header of its entry and nothing else in it, puts the entry under the bytes behind the header, and takes the active bit from the entry its key led to; only memory for the index can be missing |
| `QueueRun.Touching` | `src/entry_header.c:7-26` | the other operations reclaim and add nothing; the buffer and the index afterwards, byte for byte and key by key |
| `QueueRun.RemovalUnmaps` | `src/entry_hash_map.c:45-54` | once the oldest entries are reclaimed, and perhaps the next one retired, the index leads to exactly the other active ones |
| `QueueRun.AllocationRetains` | `src/memory_queue.c:44-96` | an allocation takes out of the index exactly the entries its cleaning loops get to |
| `QueueRun.CleaningRetains` | `src/memory_queue.c:98-108` | a cleaning takes out exactly the entry it reclaims |
| `QueueRun.TouchedRetains` | `src/entry_hash_map.c:56-77` | a publishing or erasing takes out exactly the entry under its key, the other operations nothing |
| `QueueRun.PerformedIsRun` | `src/memory_queue.c:44-146` | every trace of operations is a run in the sense of the results about runs: entries held are never reclaimed nor disturbed, and entries leave in the order they came |
| `QueueRun.Survives` | `src/connection.c:443-466` | over any trace of operations, an entry, such as the reservation of a put whose payload is arriving, is still there at the end, at the same place, if and only if no operation on the way loses it: no allocation for which it and all older entries are in the way and unlocked, and no cleaning while it is the oldest, expired or inactive, and unlocked |
| `Retention.PutIsFound` | `src/entry_hash_map.c:45-77` | over any run in which the index has memory to grow, an active entry is found under its key in every state if and only if no operation on the way takes it out: no allocation for which it and all older entries are in the way and the older ones unlocked, no cleaning that reclaims it, no erasing of its key and no publishing under it; and then it stays at its place with its payload |
| `Retention.PublishedIsFound` | `src/entry_hash_map.c:56-67` | after an entry has been activated and put it is found under its key, with the bytes received into it |
| `Retention.HoldsOn` | `src/memory_queue.c:44-146` | one operation, and an entry the index holds |
| `Retention.PublishedPayload` | `src/entry_hash_map.c:56-67` | activating and putting an entry leave its payload |
| `QueueRun.ReservationLost` | `src/connection.c:443-466` | two connections and a buffer of 64 bytes: the second reservation takes the place of the first, and the key byte the first connection receives becomes the key of the second entry |
| `QueueRun.NoRoomForMarker` | `src/memory_queue.c:53-56` | allocating 57 of 64 bytes succeeds, and leaves no room for a marker |
| `QueueRun.TotalOverflows` | `src/memory_queue.c:50-56` | a value of 4294967280 bytes makes the 32-bit sum zero: the allocation succeeds with nothing set aside |
| `Chunking.Serve` | `src/connection.c:110-143` | however the traffic is split into partial transfers, a finished request consumed the bytes, made the calls and sent the bytes of the one-shot specification, and with keep-alive leaves the connection ready for the next; a servable request does finish, and a refused one does end write-blocked, once enough bytes are let through, unless the entry it finds has 0xFFFF readers or the socket breaks; until it is finished, and up to the first break, which ends it, it has sent the beginning of its response |
| `Chunking.ServeStream` | `src/connection.c:110-143` | however the traffic of a connection is split, it gets through its stream of requests as the one-shot specification does through one after the other: at the end it has sent the concatenation of their responses and consumed the concatenation of their bytes; until then, and up to the first break, which ends it, it has sent the responses to the finished requests and the beginning of the next; every poll that lets bytes through moves some while the request at hand can be served or refused |
| `Chunking.StreamPoll` | `src/connection.c:110-143` | one poll in the middle of a stream, at the end of a request or between |
| `Chunking.MidwaySent` | `src/connection.c:385-392` | what has been sent in the middle of a request is the beginning of its response |
| `Chunking.AlongBegun` | `src/connection.c:385-392` | what has been sent in the middle of a stream is the finished responses and the beginning of the next |
| `Chunking.StreamOneMore` | `src/connection.c:477-483` | one more request decided extends the stream of outcomes |
| `Chunking.PollOnce` | `src/connection.c:371-421` | each poll of a servable or refused request that lets bytes through moves at least one |
| `Chunking.Advance` | `src/connection.c:110-143` | one transfer keeps a connection exactly as far into its request as the bytes moved say |
| `Chunking.Finished` | `src/connection.c:110-143` | a request decided by a prefix of the input is decided by all of it |
| `Protocol.ConsumedDecides` | `src/cache_protocol.h:36-60` | what becomes of a request depends only on the bytes it consumes |
| `Protocol.ConsumedBounds` | `src/cache_protocol.h:36-60` | a decided request consumed its header and at most what was there |
| `Requests.Delete` | `src/connection.c:277-286` | DELETE on its bytes: it asks for memory for the key, erases the key, makes no other call and is answered 1; without memory it is answered 6 and hung up on; it goes on exactly if bit 0 of the flags is set |
| `Requests.Get` | `src/connection.c:264-275` | GET on its bytes: one lookup of the key; answered 5, or 2 with the size and the value of the entry found |
| `Requests.Put` | `src/connection.c:288-305` | PUT on its bytes: it reserves room for the sizes, stores key and value, looks the key up once more and is answered 1 or 6; 6 if the ring is full, nothing if it is write-blocked |
| `Requests.Short` | `src/connection.c:189-223` | PING is answered 3; another kind of request 7 and another version 8, and both are hung up on |
| `Requests.Deleting` | `src/connection.c:110-143` | a connection that receives a DELETE, however its traffic is split, makes these calls, sends this answer and goes on or hangs up accordingly; and it gets there once enough bytes are let through |
| `Requests.Getting` | `src/connection.c:110-143` | the same for a GET, unless the entry has 0xFFFF readers |
| `Requests.Putting` | `src/connection.c:110-143` | the same for a PUT, which ends write-blocked exactly if the ring refuses |
| `Requests.Answering` | `src/connection.c:110-143` | the same for requests that are all header |
| `Requests.OneRequest` | `src/connection.c:385-392` | in a server, a connection whose whole input is one request has sent the beginning of the response to it, and all of it when it is hung up on |
| `Requests.DeleteAnswered` | `src/connection.c:277-286` | a DELETE in a server, whoever else is served meanwhile, is answered 1, and nothing else is sent |
| `Chunking.MovesCounts` | `src/connection.c:371-421` | the polls of a schedule that move bytes |
| `Connection.Connection.Proc` | `src/connection.c:110-143` | every step: (phase, remaining bytes) decreases on success with index plus remaining constant within a phase; bytes received and sent follow the one-shot outcome; locks are taken and given back one for one; it blocks writing if and only if the bytes received complete the sizes of a put and the ring is busy, and reading if and only if they complete the key of a get whose entry has 0xFFFF readers; blocked results hold no lock |
| `Connection.Connection.Dispatch` | `src/connection.c:119-142` | an event moves strictly forward, finishes, disconnects or blocks, and balances the reader locks; exactly when it blocks |
| `Connection.Connection.EventReceived` | `src/connection.c:119-128` | the three receiving events |
| `Connection.Connection.EventSent` | `src/connection.c:130-134` | the two sending events |
| `Connection.Connection.ReceivedArguments` | `src/connection.c:225-258` | a get or delete goes on to its key, a put reserves its entry; exactly when it blocks writing |
| `Connection.Connection.ReceivedBody` | `src/connection.c:260-314` | get, delete and put act once their body is complete; exactly when a get blocks reading |
| `Connection.Connection.Transfer` | `src/connection.c:371-421` | partial transfers, would-block and failure; a failed connection gives its lock back |
| `Connection.Connection.Receive` | `src/connection.c:375-383` | received bytes extend the request by exactly these bytes |
| `Connection.Connection.Send` | `src/connection.c:385-392` | sent bytes are the next bytes of the response |
| `Connection.Connection.EventReceivedHeader` | `src/connection.c:189-223` | version, keep-alive and type decide the next phase as the specification says |
| `Connection.Connection.AllocateKeyHeader` | `src/connection.c:229-246` | the key header is allocated, or out of memory is answered |
| `Connection.Connection.ReceivedKeyArguments` | `src/connection.c:229-246` | the step agrees with the specification |
| `Connection.Connection.ReceivedPutArguments` | `src/connection.c:248-249` | reserving the ring entry agrees with the specification in all three outcomes |
| `Connection.Connection.AttemptMemoryWrite` | `src/connection.c:443-467` | reserve, out of memory, or write blocked; the payload size is the 32-bit sum |
| `Connection.Connection.AttemptMemoryRead` | `src/connection.c:423-441` | not found, value with one more reader, or read blocked exactly at 0xFFFF readers |
| `Connection.Connection.ReceivedGetKey` | `src/connection.c:264-275` | lookup and lock, as specified |
| `Connection.Connection.ReceivedDeleteKey` | `src/connection.c:277-286` | erase and answer OK, as specified |
| `Connection.Connection.ReceivedPutPayload` | `src/connection.c:288-305` | publish and answer, as specified |
| `Connection.Connection.EventSentHeader` | `src/connection.c:316-345` | fatal responses drop keep-alive; one-byte responses finish the request with the specified outcome; a value response goes on to the value |
| `Connection.Connection.EventSentBody` | `src/connection.c:347-359` | the lock is given back once, and the request finishes with the specified outcome; the release event survives if and only if the connection is not kept alive |
| `Connection.Connection.FinishRequest` | `src/connection.c:477-483` | keep-alive starts a clean request, otherwise disconnect |
| `Connection.Connection.InitRequest` | `src/connection.c:361-369` | a request starts with nothing received, sent or held |
| `Connection.Connection.constructor` | `src/connection.c:80-104` | a new connection is at the start of its first request, unlinked and holding nothing |
| `Connection.Connection.SendHeader` | `src/connection.c:469-475` | a response overwrites one byte of the shared header and starts sending it |
| `Connection.HeaderDecides` | `src/connection.c:189-223` | what a complete header decides |
| `Connection.KeyArgumentsDecide` | `src/connection.c:225-246` | what a key size decides |
| `Connection.KeyDecides` | `src/connection.c:260-286` | what a complete key decides |
| `Connection.PutArgumentsDecide` | `src/connection.c:443-467` | what the sizes of a put decide |
| `Connection.PayloadDecides` | `src/connection.c:288-305` | what a complete key and value decide |
| `Connection.Connection.StillIncomplete` | `src/connection.c:114-117` | a connection that waits for input has not seen enough to decide its request |
| `Connection.Connection.StallsAtZero` | `src/connection.c:400-405` | a connection waits for a transfer of length zero if and only if the specification has its request stalled there, with what it has received, asked and sent |
| `Connection.Connection.SentSoFar` | `src/connection.c:385-392` | what a connection has sent in the middle of a request is the beginning of the response the request has been decided to get |
| `Sessions.Turn` | `src/connection.c:110-143` | one step of a connection of which only what it has received and sent since it was accepted is known: its finished requests got their one-shot outcomes one after the other, for the answers its own calls were given, the request at hand is as far as the bytes moved, and a connection that is hung up on has answered all it consumed |
| `Sessions.StreamGrows` | `src/connection.c:110-143` | more input leaves the outcomes of the requests already served as they are |
| `Sessions.OutcomeStays` | `src/connection.c:110-143` | and so for a single request |
| `Sessions.Finishes` | `src/connection.c:477-483` | a request that finishes extends the stream of outcomes by its own, and input and output are then accounted for to the last byte |
| `Sessions.KeptInStream` | `src/connection.c:385-392` | seen by its bytes alone, a connection has sent the responses to its finished requests and the beginning of the next |
| `Connection.Connection.CanMove` | `src/connection.c:371-421` | in the middle of a servable request there are always bytes to receive, or to send |
| `ConnectionList.ConnectionList.constructor` | `src/connection_list.c:14-20` | the opened list is empty |
| `ConnectionList.ConnectionList.Append` | `src/connection_list.c:32-45` | appends to the sequence; links stay right if and only if the list was not empty or the node's links were null |
| `ConnectionList.ConnectionList.Remove` | `src/connection_list.c:47-67` | removes exactly that element and relinks its neighbours |
| `ConnectionList.ConnectionList.Unlink` | `src/connection_list.c:47-67` | the pointers afterwards lead past the node, from both sides and at both ends; both assertions hold |
| `ConnectionList.StaleNodeBreaks` | `src/connection_list.c:32-45` | two nodes appended, both removed, and the first appended again: its stale link leaves the list ill-linked |
| `CacheServer.CacheServer.Run` | `src/cache_server.c:115-167` | any run, returned as a trace of what every call did, in which each state follows from the one before by the accept rule or by the served connection's step and the switch; it covers every call unless its last one blocks a connection, and while none does: every lock count is the number of open connections holding the entry, the current connection is on the list or the list is empty, and the list holds exactly the connections accepted in the trace and not disconnected in it since; in every state, whatever was served in between, all that each connection has received and sent is what the one-shot specification makes of it, request by request, for the answers its own calls were given |
| `RoundRobin.HeadGoesOn` | `src/cache_server.c:126-128` | over any run, a call that moved bytes without finishing its request is followed by calls that serve the head of the list, accepts aside, until one moves nothing, finishes a request, disconnects or blocks |
| `RoundRobin.AroundTheList` | `src/cache_server.c:130-132` | over consecutive calls whose sockets move nothing, the j-th serves the connection j places behind the first, circularly |
| `RoundRobin.EveryoneReached` | `src/cache_server.c:130-132` | so within as many such calls as there are connections, each of them is served |
| `RoundRobin.ServedTurn` | `src/cache_server.c:121-166` | a served call of a run, on the list: who is on it afterwards and in which order, and who is current, for each of the six results |
| `RoundRobin.ServedMoves` | `src/connection.c:371-421` | and what it moves: nothing exactly if its socket would block, a part, or all its phase still wants; nothing the socket does is left out if the connection asks for it |
| `RoundRobin.AcceptedTurn` | `src/cache_server.c:116-120` | an accepting call, which there is exactly when it is due or nobody is current |
| `RoundRobin.EveryStream` | `src/cache_server.c:102-166` | in every state of a run, what a listed connection has received and sent is a stream of requests, each answered by the one-shot specification |
| `CacheServer.CacheServer.SendersAreReaders` | `src/connection.c:423-441` | in a valid server a connection that sends a value, or the header in front of it, is counted among the readers of its entry |
| `CacheServer.DistinctAfter` | `src/cache_server.c:125-166` | nobody gets on the list twice |
| `CacheServer.CacheServer.RunOne` | `src/cache_server.c:115-167` | one more call of a run |
| `CacheServer.CacheServer.Proc` | `src/cache_server.c:115-167` | one call accepts, exactly when nobody is current or the accept period is over, or else serves the current connection with what its socket can do: the list, the current connection, every connection's progress and all it has received and sent afterwards; the server stays valid if and only if the call blocks no connection, and exactly when it does |
| `CacheServer.CacheServer.ServeCurrent` | `src/cache_server.c:121-166` | the server stays valid if and only if the bytes received do not complete a put the ring is too busy for, or a get whose entry has 0xFFFF readers; locks are conserved, and every connection's stream is kept, even then |
| `CacheServer.BusyPutBreaks` | `src/cache_server.c:158-161` | a server with one connection, whose put is one byte short of its sizes while the ring is write-blocked: the call that receives the byte empties the list and leaves the connection current |
| `CacheServer.CacheServer.ReadBlockNeedsReaders` | `src/cache_server.c:153-156` | a call blocks reading only with more than 0xFFFF connections open |
| `CacheServer.CacheServer.ServeTick` | `src/cache_server.c:121-166` | serving as a step of a run |
| `CacheServer.CacheServer.AcceptTick` | `src/cache_server.c:116-120` | accepting as a step of a run |
| `CacheServer.OpenOneMore` | `src/cache_server.c:115-167` | the connections on the list are those accepted and not since disconnected, call by call |
| `CacheServer.CacheServer.Serve` | `src/cache_server.c:121-166` | list, current connection, locks and streams after each of the six results |
| `CacheServer.CacheServer.Reschedule` | `src/cache_server.c:125-166` | the switch gives the list and current connection the result calls for, case by case |
| `CacheServer.CacheServer.Switch` | `src/cache_server.c:125-166` | and touches neither requests nor locks |
| `CacheServer.CacheServer.Turn` | `src/connection.c:110-143` | a turn conserves locks, and keeps every connection's stream, over the list as it will be after the switch |
| `CacheServer.CacheServer.Step` | `src/connection.c:110-143` | the served connection alone: it goes on with its stream of requests, or is hung up on at the end of it |
| `CacheServer.CacheServer.StepAmong` | `src/connection.c:110-143` | the other connections, their locks and their streams are not affected |
| `CacheServer.SaneAfter` | `src/cache_server.c:125-166` | locks counted apart and streams kept apart add up over the list as it is after the switch |
| `CacheServer.UpheldOneMore` | `src/cache_server.c:115-167` | a call that follows the rules, whichever connection it serves, leaves every listed connection with its requests answered in order, up to the middle of a response |
| `CacheServer.CacheServer.Welcome` | `src/connection.c:80-104` | a connection that joins holds no lock, and its stream begins blank |
| `CacheServer.CacheServer.ValidUpholds` | `src/cache_server.c:115-167` | in a valid server every listed connection's output is the responses to its requests so far, up to the middle of one |
| `CacheServer.CacheServer.AcceptConnection` | `src/cache_server.c:169-197` | a client joins at the end, with a blank stream, and becomes current exactly when nobody was; no client changes nothing |
| `CacheServer.CacheServer.NextIsSuccessor` | `src/cache_server.c:199-209` | the next connection is the one behind the current, circularly |
| `CacheServer.CacheServer.constructor` | `src/cache_server.c:36-106` | an opened server with no readers is valid and empty |
| `CacheServer.MembersAfter` | `src/cache_server.c:125-152` | which connections are on the list after a turn, and where the served one is |
| `CacheServer.CurrentPlaced` | `src/cache_server.c:125-166` | the next current connection is on the list exactly when nobody was blocked |
| `CacheServer.ConservedAfter` | `src/entry_header.c:7-26` | counting the served connection and the others apart adds up to conservation |
| `CacheServer.HoldersSplit` | `src/entry_header.c:7-26` | the holders of an entry are the others holding it, plus the served one if it does |

## Left out

- HashMap.Run: growth is followed up to 2^30 buckets, from where the `int` in `hashmap_new_with_allocator` overflows; `HashMap.HashMap.Set` and `HashMap.Apply` ask for it only when growth is due. What a table does after its items have got too crowded is not followed further.
- HashMap.HashMap.New: capacities above 2^30, at which the `int` that is doubled overflows; `HashMap.RoundUp` likewise.
- MemoryQueue.MemoryQueue.Allocate: what happens to a buffer smaller than one header when the sum of sizes overflows as well (the header would be written past its end).
- EntryHashMap.EntryHashMap.Put: asks for a place in the table (`Takes`), as `MemoryQueue.MemoryQueue.Put` does below; `HashMap.HashMap.Set` is the exact statement for one call.
- MemoryQueue.MemoryQueue.Put: asks for a place in the index (`Takes`): the entry's hash must crowd no part of the table, now or after later deletions. `EntryHashMap.EntryHashMap.TakesFew` gives it for up to 65535 keys. Beyond that it excludes growth past 2^30 buckets, crowded tables, and also large tables that are well spread as they are but that deletions could halve into crowded ones, such as 2097152 items with the hashes 0, 2, 4, … in 4194304 buckets, whether or not these deletions follow; the validity of the queue includes this. `HashMap.HashMap.Set` and `HashMap.HashMap.Delete` ask for no such foresight.
- QueueRun.Run: ends at the operation that loses the queue, if there is one, and what later operations do to a lost queue is not followed. A publishing with 65535 keys already in the index is left undone (`HashMap.HashMap.Set` decides exactly what it does), as is an operation on an entry that is not in the state the operation needs. The buffer is not smaller than one header.
- MemoryQueue.MemoryQueue.Fill: asks for a live, inactive entry that no reader holds. In the server the entry can be gone by then (`QueueRun.ReservationLost`); the bytes it would then write are not followed further.
- Chunking.Serve: a request with a zero-length key, value or payload stalls, as in the code, and nothing is claimed to follow it; `Requests` is about requests that have none.
- CacheServer.CacheServer.Run: a run ends at a blocked result. What follows one in the code (`src/blocked_connections.c`, `handle_lock_release_event`, the two unblock functions) is not modelled: the add loop does not advance on a non-empty list, and the blocked connection stays current. A socket result that the current connection's state rules out counts as would-block.
- ConnectionList.ConnectionList.Append: the 16-bit `count` is modelled with its wrap-around; the links do not depend on it.
- "GET returns what PUT stored" for the server as it is: `Retention.PutIsFound` and `Retention.PublishedIsFound` have it for entries that are activated before they are put, as `src/tests/test_entry_hash_map.c:185-199` does; `active` is never set on the server's PUT path (`MemoryQueue.InactivePutBreaks`).
- The binding between the connections' `Backend` and the ring: connections see entries as objects with a value and a lock count, the ring sees bytes; each side is proved by itself. Which answers one connection's calls get because of another's is therefore open in `CacheServer.CacheServer.Run`; entries found are assumed to be live, and a value is taken not to change while it is read (`RingRun.HeldReadsTheSame` is the ring's side of that).
- Ownership of memory: malloc and free of key headers, items and connections; only success or failure of an allocation matters. `free_elements`, `hashmap_free`, `hashmap_probe` and custom allocators.
- Pointer alignment, and the padding of buckets; headers are little-endian with the first bit field lowest.
- `expiry` is stored in 62 bits and used by `memory_queue_clean` only; the server does not check it on reads.
- Sockets, fcntl, accept and the clock; the accept period and its timestamp.
- MurmurHash, benchmarks, configuration, time utilities, `main` and the scripts.
