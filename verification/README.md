# hICN forwarding and mobility, in Dafny

A model, with proofs, of the parts of hICN that keep state: the combined
Pending Interest Table and Content Store of the VPP plugin with the packet
pipeline around it, MAP-Me producer mobility, the sharing of packet buffers,
and the prefix and packet formats of the library. `dafny verify dfyconfig.toml`
checks all of it.

- **PIT/CS.** `PitCs` is the object: hash table, pool, four counters and the
  doubly linked LRU chain, updated in place. `PcsModel` is its value and the
  specification of each operation, `PcsStore` the store its callers see: one map
  from names to pending or cached contents, and the cached names by last use.
  `PitFaces` is the face database inside a PIT entry.
- **Pipeline.** `Pipeline` specifies the five graph nodes, `Nodes` has them as
  methods on the object. `Flow` runs them in any interleaving, with packets that
  carry a pool index from one node to the next, and proves flow balance;
  `FlowIndices` says when such an index is freed under an interest and when an
  interest that is forwarded has a PIT entry, `FlowFaults` what happens when an
  index is recycled; `FlowStore` ties every run of the pipeline to the store: how
  long data is cached, what is evicted, where packets go; `Frame` proves single
  delivery for a frame of data packets.
- **MAP-Me.** `Fib` is the ten-slot array shared by next hops and TFIB (the
  previous hops still to be notified) with its face locks, `RouteSync` its
  reconciliation with the routing table. `Mapme` is the protocol at a node on
  sets of faces, `MapmeNode` the same on the array with locks and deleted faces,
  `Network` many nodes and the messages between them, `Handover` a move of the
  producer from one of them to another, `ArrayNode` the array node as a node of the
  network, `EventMgr` the retransmission scheduler, `Notify` the entry and the
  scheduler together: that previous hops are told.
- **Buffers.** `Buffers` has reference counts and the 128-byte head that is moved
  between a cached buffer and its clones, and one packet over its whole life.
- **Library.** `Prefix` has longest prefix match and truncation over 64-bit words
  and bytes, `MapmePacket` the ICMP redirects that carry MAP-Me.
- `Types` and `Seqs` have what is shared: face numbers, bytes, sequences without repeats.

## What does not hold as one would expect

Each is a lemma at a concrete input, with the exact condition under which the
code does meet the property.

- A pool index that is freed and handed out again while a packet still carries it
  breaks flow balance (`FlowFaults.RecycledIndexBreaksBalance`); the invariant is
  kept if and only if no index in use is recycled (`Flow.StepKeepsIff`). What each
  of the three nodes that act on an index then does to the balance is exact too,
  from any state in balance: hitpit breaks it if it adds the face to an entry of
  another name and the face has no interest in that name to spare
  (`FlowFaults.HitPitOnOtherName`), data_fwd if it serves faces of another name
  and one of them is sent more than it has to spare (`FlowFaults.FwdOnOtherName`),
  and serving them it also poisons the cache (`FlowFaults.FwdPoisonsCache`), hitcs
  if the buffer it reads holds other data of which the face has nothing to spare
  (`FlowFaults.HitCsOnOtherName`), which can happen even at an entry of the same
  name, because it does not test the kind of the entry
  (`FlowFaults.MistakenEntryBreaksBalance`).
- An interest can be left with a free index, which the source asserts cannot be
  (`FlowFaults.FreedIndexAtHitPit`, `FlowFaults.FreedByForwarding`). A run is free of
  that if and only if no step frees an index that an interest left in flight
  carries (`FlowIndices.HeldIff`, `FlowIndices.HeldRunIff`).
- Where no index in use was recycled, an interest is forwarded without a place in
  the PIT if and only if hitcs forwards it (`FlowIndices.ForwardedWaitsIff`), and
  that is if and only if the entry found has expired
  (`FlowIndices.HitCsForwardsIff`, `FlowFaults.ExpiredHitForwarded`).
- The room check of `hicn_strategy_dpo_ctx_add_nh` ignores the TFIB
  (`Fib.HopAddedOkIff`, `Fib.FullArrayLosesPrev`), and a refused TFIB entry is
  ignored by `hicn_mapme_process_ctrl` (`MapmeNode.MovedAllIff`,
  `MapmeNode.SixHopsDoNotFit`).
- An update with a higher number can delete the face it arrived on, because the
  face leaves the TFIB, or the next hops, before it becomes a next hop again
  (`MapmeNode.IngressLostIff`, `MapmeNode.ReturningProducerLosesFace`), and a next hop
  that found no slot (`MapmeNode.OtherLostIff`, `MapmeNode.SixthHopLost`). The model
  goes on as the source does and records the deletion.
- MAP-Me is not loop free: numbers never fall along a path, but a repeated number
  can close a loop (`Network.LoopOccurs`); exactly when is `Network.StepLoopIff`
  and `Network.LoopFreeIff`.
- The answer to an outdated update goes to the newest previous hop, which need not
  be its sender (`MapmeNode.AnswerReachesSender`, `MapmeNode.AnswerGoesElsewhere`);
  without a previous hop the slot after the array is read
  (`MapmeNode.AnswerReadsPastArrayIff`, `MapmeNode.AnswerReadsPastArray`).
- With capacity zero the entry just cached is the one evicted
  (`PcsStore.OverflowEvictsOldest`, `PcsStore.CapacityZeroKeepsNothing`). With extra
  locks the capacity could be exceeded (`PcsStore.InsertFits`); nothing in the
  plugin calls `hicn_pcs_entry_add_lock`, so there are none.
- Interests with a manifest can list a face twice (`PitFaces.HitKeepsDistinct`,
  `PitFaces.ManifestListedTwice`).
- `hicn_prefix_lpm` of two IPv4 prefixes compares the padding and so always gives
  the smaller length (`Prefix.LpmOfV4`, `Prefix.LpmOfV4TooLong`).
- A packet created with type UPDATE_ACK does not name its prefix to the parser
  (`MapmePacket.CreateParse`, `MapmePacket.CreatedAckNamesLoopback`).

## What the model takes as given

- The hash table is a map; the pool hands out any index free at that moment; times are real
  numbers; counters other than the 8-bit reference count, and sequence numbers,
  are unbounded.
- A face that was deleted keeps its number; what else a use of it does is not modelled.
- A change of a path in the routing table reaches `sync_hicn_fib_entry` at once,
  and faces are of the kinds that function supports. Faces to be added are not
  marked deleted, a forwarding object determines its face, and the target faces
  fit beside the TFIB.
- Nodes of the network know each other by number; messages once sent can be
  delivered any number of times, in any order, or never. Only MAP-Me changes next
  hops, all nodes start with number zero, and only the producer raises the number.
- The event manager knows at most as many DPOs as its arrays have entries: the
  slots are proved to hold at most one entry for each.
- An entry from `hicn_pcs_entry_cs_get` has the buffer and expiry its memory had
  before, as in the source, which sets neither; whoever inserts it sets them.
- Buffers are not chained on arrival, start with one reference, and their
  allocation succeeds.
- The strategies' answers, the result of the context lookup and whether a TFIB
  exists at a timeout are parameters.


## Model

| member | source | states |
|---|---|---|
| `PcsModel.ChainCountsCache` | hicn-plugin/src/pcs.h:740-821 | the length of the LRU chain is the number of names the cache answers |
| `PcsModel.TouchInv` | hicn-plugin/src/pcs.h:277-285 | a CS hit keeps the one-to-one correspondence of table and pool and the chain of exactly the CS entries |
| `PcsModel.PitInsertInv` | hicn-plugin/src/pcs.h:771-785 | inserting a PIT entry keeps the invariant and adds one pending name |
| `PcsModel.RemoveInv` | hicn-plugin/src/pcs.h:672-705 | deleting an entry keeps the invariant and takes one pending name off exactly if the entry was pending |
| `PcsModel.UpdateInv` | hicn-plugin/src/pcs.h:413-438 | changing the contents of an entry in place keeps the invariant and both sets of names |
| `PcsModel.UnlockInv` | hicn-plugin/src/pcs.h:443-453 | releasing one lock keeps the invariant, whether or not it was the last |
| `PcsModel.InsertLruInv` | hicn-plugin/src/pcs.h:291-307 | chaining a CS entry and evicting the tail keeps the invariant and all pending names, also when the victim stays because of another lock |
| `PcsModel.ToCsInv` | hicn-plugin/src/pcs.h:803-821 | turning a PIT entry into a CS entry, with its eviction, keeps the invariant and takes exactly one pending name off |
| `PcsModel.CsInsertInv` | hicn-plugin/src/pcs.h:740-756 | inserting a fresh CS entry, with its eviction, keeps the invariant |
| `PitCs.LinkKeepsLinks` | hicn-plugin/src/cache_policies/cs_lru.c:33-66 | writing the links of a new head gives a doubly linked list of the longer sequence |
| `PitCs.UnlinkKeepsLinks` | hicn-plugin/src/cache_policies/cs_lru.c:78-116 | rewriting the neighbours' links gives a doubly linked list of the sequence without that entry |
| `PitCs.PitCs.LruInsert` | hicn-plugin/src/cache_policies/cs_lru.c:33-66 | the linked chain, read as a sequence, gets the entry in front |
| `PitCs.PitCs.LruDequeue` | hicn-plugin/src/cache_policies/cs_lru.c:78-116 | the entry leaves the chain wherever it stands, the others keep their order, its links are reset |
| `PitCs.PitCs.LruUpdateHead` | hicn-plugin/src/cache_policies/cs_lru.c:121-141 | the entry moves to the front and the others keep their order |
| `PitCs.PitCs.constructor` | hicn-plugin/src/pcs.c:22-41 | the initial state is valid and empty |
| `PitCs.PitCs.Allocate` | hicn-plugin/src/pcs.h:327-347 | a new entry that is in no table and no chain; alloc minus dealloc stays the pool population |
| `PitCs.PitCs.EntryPitGet` | hicn-plugin/src/pcs.h:532-543 | a new pending entry without faces, expiring after its lifetime |
| `PitCs.PitCs.EntryCsGet` | hicn-plugin/src/pcs.h:462-472 | a new CS entry; the buffer passed in is not stored |
| `PitCs.PitCs.LookupOne` | hicn-plugin/src/pcs.h:627-660 | finds exactly the names in the table, and moves a cached one to the front of the chain |
| `PitCs.PitCs.PitInsert` | hicn-plugin/src/pcs.h:711-785 | the entry becomes the one of its name; the counters follow |
| `PitCs.PitCs.DeleteInternal` | hicn-plugin/src/pcs.h:672-705 | the entry leaves table, pool and chain and is uncounted; after the dequeue its links are reset, as the sanity check of the source demands |
| `PitCs.PitCs.RemoveLock` | hicn-plugin/src/pcs.h:443-453 | one lock less, and deletion exactly at zero; all four counters stay exact |
| `PitCs.PitCs.CsInsertLru` | hicn-plugin/src/pcs.h:291-307 | the state is that of the specification: tail unlocked if the chain outgrew its maximum; counters and links exact |
| `PitCs.PitCs.CsInsert` | hicn-plugin/src/pcs.h:740-756 | a fresh CS entry is in table and chain, the overflow evicted; counters and links exact |
| `PitCs.PitCs.PitToCs` | hicn-plugin/src/pcs.h:803-821 | the entry keeps its name and index and becomes cached in the buffer, the overflow is evicted; counters and links exact |
| `PcsStore.StepRefines` | hicn-plugin/src/pcs.h:290-821 | each operation on table, pool and chain does to the map from names to pending or cached contents what the map operation does |
| `PcsStore.RunRefines` | hicn-plugin/src/pcs.h:290-821 | after every run of operations from the empty state the invariant holds, the pool has no entry outside the table, and table, pool and chain are exactly the map and the order of the simple store |
| `PcsStore.RunOrderedByUse` | hicn-plugin/src/cache_policies/cs_lru.c:121-141 | in every reachable state the chain lists the cached names by their last lookup or insertion |
| `PcsStore.CsInsertIsBoth` | hicn-plugin/src/pcs.h:740-756 | caching unrequested data is the same as requesting it and storing it at once |
| `PcsStore.CapacityZeroKeepsNothing` | hicn-plugin/src/params.h:89 | with capacity zero data that was asked for is gone after it is stored |
| `PcsStore.InsertFits` | hicn-plugin/src/pcs.h:291-307 | an insertion respects the capacity if and only if there was room or nobody else locks the oldest entry |
| `PcsStore.RunFits` | hicn-plugin/src/pcs.h:291-307 | in every run without extra locks the cache holds at most its maximum, and every entry has one lock |
| `PcsStore.UnlockUndoesLock` | hicn-plugin/src/pcs.h:404-453 | a lock that is taken and given back leaves the store as it was |
| `PcsStore.OverflowEvictsOldest` | hicn-plugin/src/pcs.h:291-307 | after every run, an insertion into a full cache removes exactly one name, the one used longest ago; it is the inserted one if and only if the capacity is zero |
| `PitFaces.FaceDb.Reset` | hicn-plugin/src/pcs.h:532-543 | a recycled element starts with no faces and an empty bitmap |
| `PitFaces.FaceDb.AddFace` | hicn-plugin/src/pcs.h:578-601 | inline slots and overflow vector read back the old faces and the new one at the end; a bit is set exactly for listed faces |
| `PitFaces.FaceDb.Search` | hicn-plugin/src/pcs.h:606-612 | the bitmap answers whether the face is listed |
| `PitFaces.FaceDb.GetFace` | hicn-plugin/src/pcs.h:563-576 | reading by index gives the face of that arrival, inline or not |
| `PitFaces.FaceDb.HitPit` | hicn-plugin/src/interest_hitpit_node.c:112-146 | when the interest is forwarded, and which faces are listed afterwards, for all four cases of listed and forced and for manifests |
| `PitFaces.HitKeepsDistinct` | hicn-plugin/src/interest_hitpit_node.c:122-145 | a hit keeps the list free of repeats if and only if it is no manifest, or the face is neither listed nor forced |
| `PitFaces.ManifestListedTwice` | hicn-plugin/src/interest_hitpit_node.c:126-140 | a manifest sent again lists its face twice |
| `PitFaces.AfterAllOrder` | hicn-plugin/src/interest_hitpit_node.c:112-146 | over every run of ordinary interests the list holds the faces that arrived, in order of first arrival |
| `PitFaces.AfterAllBounded` | hicn-plugin/src/interest_hitpit_node.c:112-146 | hence no repeats and at most HICN_PARAM_FACES_MAX faces |
| `Pipeline.InterestEffect` | hicn-plugin/src/interest_pcslookup_node.c:130-200 | an unexpired entry is left alone and found by the next node, and a cached one moves to the head of the chain; otherwise, at any index that is free once the expired entry is gone (its own included), a new entry with the one face replaces it, or nothing remains when no strategy context exists |
| `Pipeline.ToCsSettled` | hicn-plugin/src/pcs.h:803-821 | the conversion changes one name to cached and drops at most cached names; no other entry changes or moves to another index |
| `Pipeline.DataFwdEffect` | hicn-plugin/src/data_fwd_node.c:372-478 | on a freed or cached index data is dropped and nothing changes; otherwise an unexpired entry serves exactly its faces, an expired one none, and the name is no longer pending; kept data expires after its lifetime, or five minutes if that is more than a day |
| `Flow.StepKeeps` | hicn-plugin/src/interest_hitpit_node.c:103-146 | every step of the pipeline that recycles no index in use keeps the invariant: entries, packets in flight and balance |
| `Flow.StepKeepsIff` | hicn-plugin/src/interest_pcslookup_node.c:130-200 | the condition is exact: a step keeps the invariant if and only if packets that carry the index of a new entry are for its name and not at hitcs, and a data packet without a context carries an index of its own name or a free one |
| `Flow.FlowBalance` | hicn-plugin/src/data_fwd_node.c:386-477 | over every such run, for each name and face: data sent plus places in the PIT plus interests in flight never exceed interests received |
| `FlowFaults.HitPitOnOtherName` | hicn-plugin/src/interest_hitpit_node.c:103-146 | from any state in balance, hitpit on a pending entry keeps it if and only if the entry has the name of the interest, or lists the face already, or the face has an interest in that name to spare |
| `FlowFaults.HitCsOnOtherName` | hicn-plugin/src/interest_hitcs_node.c:147-179 | from any state in balance, hitcs, which takes any entry for a CS entry, keeps it if and only if the entry has expired, or the buffer read has the name asked for or is no data packet's, or the face has an interest in the name sent to spare |
| `FlowFaults.FwdOnOtherName` | hicn-plugin/src/data_fwd_node.c:372-478 | from any state in balance, data_fwd keeps it if and only if the entry at the index serves nobody, or has the name of the data, or every face it serves has that many interests in the data's name to spare |
| `FlowFaults.FwdPoisonsCache` | hicn-plugin/src/data_fwd_node.c:447-455 | data cached through an index of another name makes the cache answer that name with it; it does so if and only if the names differ |
| `FlowFaults.RecycledIndexBreaksBalance` | hicn-plugin/src/data_fwd_node.c:372-393 | a concrete reachable run in which an index is freed and handed out again between lookup and hit, after which the balance fails |
| `FlowFaults.FreedIndexAtHitPit` | hicn-plugin/src/interest_hitpit_node.c:103-104 | in that run hitpit holds a free index, against the assertion of the source |
| `FlowFaults.FreedByForwarding` | hicn-plugin/src/data_fwd_node.c:456-477 | the step that freed it: data without a lifetime at the index the interest carries |
| `FlowIndices.PoolAfter` | hicn-plugin/src/pcs.h:443-453 | the allocated indices after any step: without the one its node frees by its guards, with the one a new entry takes |
| `FlowIndices.HeldIff` | hicn-plugin/src/pcs.h:373-378 | if all interests in flight carry allocated indices, they do after a step if and only if none left in flight carries the index it frees |
| `FlowIndices.HeldRunIff` | hicn-plugin/src/pcs.h:376 | in every run, indices recycled at will, the assertion of the source holds in all states if and only if no step frees an index that an interest carries |
| `FlowIndices.RunSettled` | hicn-plugin/src/pcs.h:672-705 | every such run leaves table, pool and chain consistent, with every entry inserted and locked once |
| `FlowIndices.ForwardedWaitsIff` | hicn-plugin/src/interest_pcslookup_node.c:130-200 | in every state that keeps the invariant, an interest sent to the strategy has its face waiting in the PIT for its name, if and only if the node that sent it is not hitcs |
| `FlowIndices.HitCsForwardsIff` | hicn-plugin/src/interest_hitcs_node.c:153-163 | hitcs sends an interest to the strategy if and only if the entry has expired |
| `FlowStore.StepLeads` | hicn-plugin/src/interest_pcslookup_node.c:130-200 | every step of every node amounts to named operations of the store: lookup, request, face, data, expiry, buffer or release, given by the packet and the entry it meets |
| `FlowStore.FlowRefines` | hicn-plugin/src/data_fwd_node.c:257-279 | in every run, indices recycled at will, the PIT/CS holds what the operations of the steps so far make of an empty store, and the cache stays within its capacity |
| `FlowStore.RunOrdered` | hicn-plugin/src/pcs.h:652-656 | in every run the chain is in the order of last use: interests and data looked up, and data kept |
| `FlowStore.FlowKeeps` | hicn-plugin/src/data_fwd_node.c:257-279 | in every run data that is kept is cached under the name of the entry until its lifetime ends; nothing else changes, but that a full cache loses one name |
| `FlowStore.FlowEvictsOldest` | hicn-plugin/src/pcs.h:291-307 | that name is the one whose last use is the oldest; it is the name just stored only with capacity zero |
| `FlowStore.CacheAnswersIff` | hicn-plugin/src/interest_pcslookup_node.c:130-200 | in every run an interest for a name in the cache since its data was kept goes to hitcs if and only if it comes within the lifetime of the data |
| `FlowStore.CachedKeepsExpiry` | hicn-plugin/src/interest_hitcs_node.c:147-179 | no step changes the expiry of a name that stays cached |
| `FlowStore.InterestAnswers` | hicn-plugin/src/interest_pcslookup_node.c:130-200 | when an interest is dropped, forwarded, sent to hitpit or to hitcs, each if and only if, and with which entry |
| `FlowStore.HitPitForwardsIff` | hicn-plugin/src/interest_hitpit_node.c:103-146 | hitpit forwards an interest if and only if its face waits already or the strategy says so, drops it otherwise, and passes it on if the entry became a CS entry |
| `FlowStore.HitCsAnswers` | hicn-plugin/src/interest_hitcs_node.c:147-179 | hitcs replies with the buffer of the entry until it expires, and forwards from then on |
| `FlowStore.HitAfterHit` | hicn-plugin/src/interest_hitcs_node.c:165-170 | a hit leaves the data in the buffer clone_from_cs returned, which the next hit replies with; name, lock and expiry stay |
| `FlowStore.DataAnswers` | hicn-plugin/src/data_pcslookup_node.c:99-117 | data is dropped if and only if its name is unknown, or cached with a context; otherwise it goes on with the index of its name, or without a context with the one it came with |
| `FlowFaults.MistakenEntryBreaksBalance` | hicn-plugin/src/interest_hitcs_node.c:142-167 | a concrete reachable run in which hitcs finds a PIT entry of the same name at its index, reads the bitmap as a buffer, and sends a face data it never asked for |
| `FlowFaults.ExpiredHitForwarded` | hicn-plugin/src/interest_hitcs_node.c:153-163 | from the fifth state of that run hitcs forwards an interest and nothing is left that waits for the data |
| `Frame.LookupFrameAnswers` | hicn-plugin/src/data_pcslookup_node.c:99-117 | all lookups of a frame answer from the state before the frame |
| `Frame.FwdFrameDelivers` | hicn-plugin/src/data_fwd_node.c:372-393 | from any point in the middle of a frame, the rest is delivered as due |
| `Frame.FrameSingleDelivery` | hicn-plugin/src/data_fwd_node.c:372-478 | of the packets of a frame with one pending unexpired name the first goes to exactly the faces of the entry, the others to none |
| `Nodes.InterestLookupPacket` | hicn-plugin/src/interest_pcslookup_node.c:130-200 | the node on the object does what the specified step does, for hit, expired and new-entry paths |
| `Nodes.NewEntryPacket` | hicn-plugin/src/interest_pcslookup_node.c:173-200 | the new-entry path, with the entry taken back when no context exists |
| `Nodes.HitPitPacket` | hicn-plugin/src/interest_hitpit_node.c:103-146 | aggregation, retransmission and the hand-over of an entry that became cached |
| `Nodes.HitCsPacket` | hicn-plugin/src/interest_hitcs_node.c:147-179 | reply with the buffer read from the entry and write-back of the one clone_from_cs returns, or removal of the expired entry and forwarding without a PIT entry |
| `Nodes.DataLookupNode` | hicn-plugin/src/data_pcslookup_node.c:99-117 | the loop over a frame stores the specified indices and leaves the specified state |
| `Nodes.DataFwdNode` | hicn-plugin/src/data_fwd_node.c:372-478 | the loop over a frame sends to the specified faces and leaves the specified state |
| `Nodes.DataFwdPacket` | hicn-plugin/src/data_fwd_node.c:372-478 | one data packet: dropped, expired, forwarded and cached, or forwarded and forgotten |
| `Fib.HopAddedOkIff` | hicn-plugin/src/strategy_dpo_ctx.c:101-136 | adding a hop is a set insertion that keeps the entry well formed if and only if there is room beside the TFIB, or the face is listed and not deleted |
| `Fib.FullArrayLosesPrev` | hicn-plugin/src/strategy_dpo_ctx.c:124-132 | nine next hops and one previous hop: the next one added takes the previous hop's place |
| `Fib.SwapDelIsRemoval` | hicn-plugin/src/strategy_dpo_ctx.c:138-158 | moving the last hop into the gap removes exactly one occurrence of the face, and keeps the list free of repeats |
| `Fib.FibEntry.constructor` | hicn-plugin/src/strategy_dpo_ctx.h:97-124 | the first ten hops given, the other slots invalid, an empty TFIB |
| `Fib.FibEntry.TfibHas` | hicn-plugin/src/mapme.h:125-133 | finds a face exactly in the TFIB region of the shared array |
| `Fib.FibEntry.TfibAdd` | hicn-plugin/src/mapme.h:138-172 | in front of the TFIB unless listed, local or without room; hops untouched; the lock count follows |
| `Fib.FibEntry.TfibDel` | hicn-plugin/src/mapme.h:195-227 | exactly that face leaves, the order of the others and the hops are kept; the lock count follows, and the face is deleted if that was its only lock |
| `Fib.FibEntry.TfibClear` | hicn-plugin/src/mapme.h:174-193 | an empty TFIB, hops untouched, every lock released, and the faces without another lock deleted |
| `Fib.FibEntry.NhHas` | hicn-plugin/src/mapme_ctrl_node.c:116-123 | finds a face exactly among the next hops |
| `Fib.FibEntry.AddNh` | hicn-plugin/src/strategy_dpo_ctx.c:101-136 | the hop is appended, over the newest TFIB entry if the array is full; the lock count follows |
| `Fib.FibEntry.DelNh` | hicn-plugin/src/strategy_dpo_ctx.c:138-158 | one occurrence of the hop leaves, the TFIB is untouched; the lock count follows, and the face is deleted if that was its only lock |
| `RouteSync.CollectedFaces` | hicn-plugin/src/route.c:252-308 | whatever the repetitions, the faces collected are those of the buckets |
| `RouteSync.Collect` | hicn-plugin/src/route.c:252-308 | one face and one lock per change of forwarding object |
| `RouteSync.Sync` | hicn-plugin/src/route.c:220-339 | the next hops become exactly the target faces, the TFIB is untouched, each face's locks change by its change in membership, and exactly the faces that stop being a hop and had no other lock are deleted |
| `Mapme.ProcessClosedForm` | hicn-plugin/src/mapme_ctrl_node.c:379-469 | any list of updates leads to the closed form: next hops are the faces that carried the highest number, the TFIB all other faces ever known that are not local |
| `Mapme.StepClosedForm` | hicn-plugin/src/mapme_ctrl_node.c:379-469 | one more update moves the closed form as the node does |
| `Mapme.Confluence` | hicn-plugin/src/mapme_ctrl_node.c:379-469 | the outcome depends only on the set of updates, not on order or duplication |
| `MapmeNode.MovedAllIff` | hicn-plugin/src/mapme_ctrl_node.c:396-406 | every next hop gets into the TFIB if and only if the array holds them beside the hops they still occupy |
| `MapmeNode.ManyHopsDoNotFit` | hicn-plugin/src/mapme_ctrl_node.c:396-406 | with more than five next hops and an empty TFIB some are not kept |
| `MapmeNode.SixHopsDoNotFit` | hicn-plugin/src/mapme_ctrl_node.c:396-406 | routes 1 to 6 and an update on face 7 |
| `MapmeNode.UpdatedAbs` | hicn-plugin/src/mapme_ctrl_node.c:377-469 | with that room the array entry does what the protocol on sets does |
| `MapmeNode.AnswerReachesSender` | hicn-plugin/src/mapme_eventmgr.c:289-322 | the answer to an outdated update reaches its sender if and only if that is the newest TFIB entry or has just entered |
| `MapmeNode.AnswerGoesElsewhere` | hicn-plugin/src/mapme_eventmgr.c:289-322 | a producer that moved twice: the outdated update of the first place is answered to the second |
| `MapmeNode.AnswerReadsPastArrayIff` | hicn-plugin/src/mapme_eventmgr.c:318-319 | the slot after the array is read if and only if there is no previous hop and the sender does not become one |
| `MapmeNode.AnswerReadsPastArray` | hicn-plugin/src/mapme_eventmgr.c:318-319 | an outdated update of a local face at a node without previous hops |
| `MapmeNode.IngressLostIff` | hicn-plugin/src/mapme_ctrl_node.c:379-416 | the face an update arrived on is deleted while it is processed if and only if the number is higher, the face is a next or previous hop but not the only next hop, and nobody else holds a lock on it |
| `MapmeNode.OtherLostIff` | hicn-plugin/src/mapme_ctrl_node.c:379-416 | another face is deleted if and only if the number is higher, the face is a next hop outside the TFIB that nobody else holds, and it is local or the next hops before it take all free slots |
| `MapmeNode.SixthHopLost` | hicn-plugin/src/mapme_ctrl_node.c:396-408 | with six next hops and a higher number on a new face, the sixth is deleted |
| `MapmeNode.MovedHas` | hicn-plugin/src/mapme_ctrl_node.c:396-406 | a next hop is in the TFIB after the loop if and only if it was before, or is not local and fewer hops before it asked for a slot than were free |
| `MapmeNode.ReturningProducerLosesFace` | hicn-plugin/src/mapme_ctrl_node.c:389-408 | a producer that moves away and comes back: its face is deleted when the second update arrives on it |
| `MapmeNode.NewFaceHeldByEntryIff` | hicn-plugin/src/mapme_ctrl_node.c:408-416 | after an update on a face just created the entry alone holds it, if and only if the number was higher and the face not the one next hop already |
| `ArrayNode.UpdatedIsHandled` | hicn-plugin/src/mapme_ctrl_node.c:377-469 | whatever the array refuses, an update is a step of a node of the network, and keeps next and previous hops apart |
| `ArrayNode.FewFacesRoom` | hicn-plugin/src/mapme_ctrl_node.c:396-406 | with at most five faces in the entry and the updates together, no update of any list finds the array too full |
| `ArrayNode.ArrayClosedForm` | hicn-plugin/src/mapme_ctrl_node.c:379-469 | as long as each update finds room, the array ends in the closed form, for every list of updates |
| `ArrayNode.ArrayConfluence` | hicn-plugin/src/mapme_ctrl_node.c:379-469 | hence order and repetition of the updates do not matter to it |
| `MapmeNode.Route.SetHop` | hicn-plugin/src/mapme_ctrl_node.c:52-109 | the one next hop is the face, TFIB and foreign locks untouched; tells whether anything changed, and which faces were deleted on the way |
| `MapmeNode.Route.AddPath` | hicn-plugin/src/mapme_ctrl_node.c:128-154 | the next hops gain the face, the rest of the entry and foreign locks untouched |
| `MapmeNode.Route.ProcessCtrl` | hicn-plugin/src/mapme_ctrl_node.c:377-469 | new entry, event raised, every lock accounted for and exactly the faces deleted on the way, for a higher, equal and lower number |
| `MapmeNode.Route.ProcessAck` | hicn-plugin/src/mapme_ack_node.c:89-119 | an acknowledgement of the current number drops the face from the TFIB, an older one is ignored; locks and the deletion of the face accounted for |
| `Network.StepInv` | hicn-plugin/src/mapme_ctrl_node.c:377-469 | every step keeps: next hops have at least the node's number; updates and acknowledgements in flight carry at most their sender's |
| `Network.RunInv` | hicn-plugin/src/mapme_ctrl_node.c:377-469 | hence in every state of every run, under any loss, duplication, reordering and refusal of TFIB entries |
| `Network.ForwardingNeverGoesBack` | hicn-plugin/src/mapme_ctrl_node.c:377-469 | numbers never fall along a forwarding path, so a forwarding loop lies inside one number |
| `Network.AcknowledgedHopCaughtUp` | hicn-plugin/src/mapme_ack_node.c:89-101 | when an acknowledgement takes a neighbour off the TFIB, that neighbour has at least the node's number |
| `Network.UpdatedNodesReachProducer` | hicn-plugin/src/mapme_ctrl_node.c:377-469 | in every state, from every node that was ever updated there is a forwarding path to a node where the producer announced the number that node has, at least as high; from a node with the highest number, to one where it announced that |
| `Network.StepLoopIff` | hicn-plugin/src/mapme_ctrl_node.c:377-469 | a step closes a forwarding loop through an updated node if and only if it is an update that repeats the node's number, on a face that is no next hop and from which forwarding leads to the node |
| `Network.LoopFreeIff` | hicn-plugin/src/mapme_ctrl_node.c:424-447 | a run is free of such loops if and only if none of its steps closes one |
| `Network.LoopOccurs` | hicn-plugin/src/mapme_ctrl_node.c:424-469 | with such an update there can be one: a concrete run of ten steps, from routes without any loop, that ends in a loop of three nodes |
| `Handover.StepInforms` | hicn-plugin/src/mapme_ctrl_node.c:379-469 | every step of a move keeps: a node without the new number has its old next hops, and a node with it has notified each of them or has it in the TFIB |
| `Handover.OldPathsInformed` | hicn-plugin/src/mapme_ctrl_node.c:396-416 | once all TFIBs are empty again, the new number has spread along every old forwarding path from a node that has it |
| `Handover.HandoverDelivers` | hicn-plugin/src/mapme_ctrl_node.c:377-469 | then every node from which forwarding led to the old location has a path to a place announced with the new number or a later one |
| `Handover.MoveDelivers` | hicn-plugin/src/mapme_ctrl_node.c:377-469 | after a single move that path ends at the new location |
| `Handover.InitialPathsDeliver` | hicn-plugin/src/mapme_ctrl_node.c:377-469 | the same from the initial routes, for every run in which no previous hop is refused or given up: all nodes on an initial path from an updated node are updated |
| `Handover.MoveOccurs` | hicn-plugin/src/mapme_ack_node.c:89-119 | a concrete move of four steps between two nodes, at rest before and after |
| `EventMgr.Manager.NhSet` | hicn-plugin/src/mapme_eventmgr.c:395-455 | an entry for the DPO in the next slot, the old one marked deleted, the timer on |
| `EventMgr.Manager.Timeout` | hicn-plugin/src/mapme_eventmgr.c:496-559 | which updates are sent, which TFIBs cleared, and the slots after the exchange |
| `EventMgr.AgainIs` | hicn-plugin/src/mapme_eventmgr.c:509-549 | the entries put back are those due and not exhausted, counted up by one, one per DPO |
| `EventMgr.AgainHas` | hicn-plugin/src/mapme_eventmgr.c:526-548 | every entry that is not deleted, has a TFIB and was sent for fewer than ten times is put back, counted up by one |
| `EventMgr.RunInv` | hicn-plugin/src/mapme_eventmgr.c:395-559 | over every interleaving: a DPO is live at most once, the next slot holds fresh entries, no slot outgrows the number of DPOs, and nothing is pending when the timer is off |
| `EventMgr.BoundedRetransmission` | hicn-plugin/src/mapme_eventmgr.c:509-549 | at most HICN_PARAM_RTX_MAX timer-driven sends since the last NH_SET, and the TFIB is cleared exactly at that count |
| `EventMgr.ExactRetransmission` | hicn-plugin/src/mapme_eventmgr.c:496-559 | while the TFIB exists, an NH_SET is followed by exactly ten sends, at the second to the eleventh timeout; the timer runs until then; the eleventh timeout and no other clears the TFIB |
| `EventMgr.SentOnce` | hicn-plugin/src/mapme_eventmgr.c:509-549 | a timeout sends once for each DPO and clears each TFIB once |
| `EventMgr.IdleStops` | hicn-plugin/src/mapme_eventmgr.c:507-565 | with nothing to send, the second timeout after an event stops the timer, and not the first |
| `Notify.SendUpdates` | hicn-plugin/src/mapme_eventmgr.c:290-322 | an update with the entry's number goes to every previous hop in order, or to the newest only |
| `Notify.Dispatch` | hicn-plugin/src/mapme_eventmgr.c:396-493 | what each event does to the scheduler and which updates it sends |
| `Notify.EventMeaning` | hicn-plugin/src/mapme_ctrl_node.c:377-469 | the event tells what became of the entry, each if and only if: the number rose; it stayed and the face carries it; the update is outdated and its sender no next hop; or a next hop |
| `Notify.EventRestarts` | hicn-plugin/src/mapme_eventmgr.c:396-493 | every event but an acknowledgement restarts the idle count and the timer |
| `Notify.OutdatedAnswered` | hicn-plugin/src/mapme_ctrl_node.c:448-470 | an outdated update is answered at once with the current number; the answer goes to its sender and nobody else under the exact condition of AnswerReachesSender |
| `Notify.PreviousHopNotified` | hicn-plugin/src/mapme_eventmgr.c:396-559 | in every run of entry and scheduler together: a raised number goes to each previous hop at once and again at the second to the eleventh timeout until it answers; the entry keeps it until then, and the eleventh timeout clears the TFIB |
| `EventMgr.TimeoutProgress` | hicn-plugin/src/mapme_eventmgr.c:496-559 | every timeout lowers a measure of slots, counters and idle time |
| `EventMgr.TimerStops` | hicn-plugin/src/mapme_eventmgr.c:496-559 | after any run HICN_PARAM_RTX_MAX + 2 timeouts without events stop the timer |
| `Buffers.Clone256` | hicn-plugin/src/data_fwd.h:90-147 | every clone reads the packet; short packets are copied, others share the advanced buffer with one reference each |
| `Buffers.Clone2` | hicn-plugin/src/data_fwd.h:163-214 | as many clones as asked for, each reading the packet; the 8-bit count does not wrap |
| `Buffers.SatisfyFaces` | hicn-plugin/src/data_fwd_node.c:89-109 | one packet per face; the flag is set exactly if the buffer was not advanced, and one reference is kept for the store |
| `Buffers.ForwardData` | hicn-plugin/src/data_fwd_node.c:430-478 | the count is the outstanding clones, plus one exactly if the Content Store keeps the buffer, which then stores the packet |
| `Buffers.CloneFromCs` | hicn-plugin/src/interest_hitcs_node.c:41-85 | the reply reads the stored packet; start, length and bytes are restored; the count follows, with a copy at 255 |
| `Buffers.CachedPacket.constructor` | hicn-plugin/src/data_fwd_node.c:430-478 | after forwarding the count is the clones of all faces, plus one exactly if the Content Store keeps the buffer; every clone reads the packet |
| `Buffers.CachedPacket.Hit` | hicn-plugin/src/interest_hitcs_node.c:150-167 | one more reply that reads the packet; the counts of the buffer the store had and of the one it has now are exact |
| `Buffers.CachedPacket.Release` | hicn-plugin/src/pcs.h:511-523 | a packet that was sent gives its reference back, and the counts stay exact |
| `Buffers.CachedPacket.Evict` | hicn-plugin/src/pcs.h:511-523 | the store gives its reference back; the packets in flight still read the packet |
| `Buffers.CachedPacket.Run` | hicn-plugin/src/interest_hitcs_node.c:41-85 | over any interleaving of hits, releases and eviction, for every buffer that ever held the packet: the count is the unreleased packets chained to it, plus one exactly if the store holds it; and every packet in flight reads the bytes that arrived |
| `Prefix.FirstOfByte` | lib/src/name.c:362-375 | the branching on halves of a byte finds its first bit in network order |
| `Prefix.Log2Nbo` | lib/src/name.c:333-378 | on a little-endian load the result is the index of the first bit set in network order |
| `Prefix.WordLpm` | lib/src/name.c:385-400 | one round of the loop finds where the two addresses first differ in that word |
| `Prefix.Lpm` | lib/src/name.c:380-405 | the result is the largest length, up to both, at which the addresses have the same first bits |
| `Prefix.LpmDecidesTruncation` | lib/src/name.c:380-436 | IPv6: truncating both to n gives equal addresses if and only if n is at most the result |
| `Prefix.LpmOfV4` | lib/src/name.c:380-405 | IPv4: the result is the smaller length whatever the addresses; it is a common prefix if and only if the addresses agree that far after the padding |
| `Prefix.LpmOfV4TooLong` | lib/src/name.c:380-405 | 10.0.0.0/8 and 11.0.0.0/8 get the common prefix length 8 |
| `Prefix.MaskedEqual` | lib/src/name.c:407-429 | equal after masking to n bits if and only if the first n bits agree |
| `Prefix.TruncatedTwice` | lib/src/name.c:431-436 | successive truncations compose to the shorter one, for every address and all lengths that stay inside it |
| `Prefix.TruncatedToV4` | lib/src/name.c:407-429 | an address that is not IPv4 passes for IPv4 after truncation only by becoming zero |
| `Prefix.Object.V4` | lib/src/name.c:311-315 | IPv4 is recognised by twelve zero bytes |
| `Prefix.Object.Clear` | lib/src/name.c:407-429 | in place, the bits from the given one on become zero and the others stay; at the full length the address stays and the length field is zeroed |
| `Prefix.Object.Truncate` | lib/src/name.c:431-436 | the same, with the new length |
| `MapmePacket.Create` | lib/src/mapme.c:64-139 | the buffer starts with the header of the version, byte by byte; what follows it is untouched |
| `MapmePacket.CreateParse` | lib/src/mapme.c:64-247 | parsing a created packet gives number, length and direction back for both versions and every kind; the prefix if and only if it is one of the version and the packet is an update or the prefix the loopback address |
| `MapmePacket.CreatedAckNamesLoopback` | lib/src/mapme.c:97-139 | an acknowledgement created for b001::/64 is parsed as one for ::1 |
| `MapmePacket.CreatedFields` | lib/src/mapme.c:64-129 | the fields the parser does not read: lengths, protocol, hop limit, redirect target, destination and gateway, zero bytes |
| `MapmePacket.CreateAck` | lib/src/mapme.c:141-181 | in place: addresses exchanged, hop limit, type and checksum set, every other byte kept |
| `MapmePacket.AckParse` | lib/src/mapme.c:141-247 | the acknowledgement of any packet parses to the same number and length as an acknowledgement; to the same prefix if and only if the packet was an update or had equal addresses |
| `MapmePacket.UpdateAckRoundTrip` | lib/src/mapme.c:64-247 | an update that is created, acknowledged and parsed names the same prefix and number |

## Left out

- Fib.FibEntry.AddNh: requires a free slot or a listed face; with ten next hops its room check passes and it writes the slot after the array, which is not modelled.
- PitCs.PitCs.Allocate: does not model the 32-bit wrap-around of the allocation counters; their difference, the pool population, is what matters.
- Buffers.Clone2: does not model failing allocations, nor a source buffer that is itself a chain.
- Buffers.CachedPacket.Release: models the count only; returning the memory is VPP's.
- Frame.LookupFrameAnswers: all packets of the frame have a DPO context; one without goes on with the index it happens to carry, which `Flow` covers.
- Frame.FrameSingleDelivery: the same.
- Nodes.DataLookupNode: the same.
- EventMgr.Manager.NhSet: the slots are sequences, not arrays of 100 entries; `EventMgr.RunInv` bounds them by the number of DPOs.
- FlowFaults.HitCsOnOtherName: when hitcs takes a PIT entry for a CS entry and the buffer it reads is at its full count, the copy's number is written over the bitmap, which is not modelled.
- RouteSync.Sync: requires that the target faces fit beside the TFIB; beyond that `Fib.HopAddedOkIff` says what is overwritten.
- MapmeNode.Route.AddPath: requires a free slot or a listed face, as `Fib.FibEntry.AddNh` does.
- Nodes.HitCsPacket: a PIT entry taken for a CS entry keeps its bitmap; when the buffer is copied the source writes the number of the copy over it.
- Notify.Dispatch: requires a previous hop when an outdated update is to be answered; without one the source reads the slot after the array (`MapmeNode.AnswerReadsPastArrayIff`).
- Notify.PreviousHopNotified: the context of the prefix exists at every timeout.
- Handover.HandoverDelivers: no previous hop is refused or given up on the way, and updates older than the move are no longer delivered.
- MapmeNode.Route.ProcessCtrl: the prefix has a FIB entry already, and there is room for the hop; creation of entries for unknown prefixes rests on VPP's FIB.
- Prefix.Object.Clear: requires a length of at most 128, or 32 for an address that passes for IPv4; beyond that the source writes past the prefix.
- Prefix.Object.Truncate: the same.
- MapmePacket.Create: checksums are left at zero as in the source; whoever sends the packet fills them in.
- Manifest interests apart from their effect on the face list: the manifest header functions are not part of this model.
- Frames, enqueueing, prefetching, tracing, statistics and error counters of the graph nodes.
- Strategy bodies, face creation, `hicn_route_enable` and `hicn_route_disable`: they rest on VPP's FIB and adjacency code.
- `hicn_cs_lru_flush`: releases the tail until the chain is empty; it has no caller in the plugin.
- `hicn_cs_lru_trim`: cuts entries off the chain by rewriting the links itself and takes index 0 for its end; it has no caller in the plugin either.
- Packet parsing of interests and data (`lib/src/packet.c`, `lib/src/ops.*`): dispatch to per-protocol operations.
- The stand-alone forwarder `hicn-light`, `ctrl`, `libtransport`, applications, telemetry, CLI and API: other programs around the same protocol.
