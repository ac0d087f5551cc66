# blvm-node: protocol state, proved

A Dafny model of the parts of blvm-node that keep long-lived state: the header index fed by
peers' `headers` replies and the announcements built from it, the high-bandwidth slots, the
graph of loaded modules, the new and tried address buckets, the service bandwidth windows,
the Dandelion stem, the reconnection queue, BIP 21 URIs and the merged ban list.
`dafny verify dfyconfig.toml` checks everything.

| files | component |
|---|---|
| `HeaderProbe`, `HeaderChain`, `HeaderAnnounce` | storing probed headers, what every probe keeps, announcing a new tip |
| `HighBandwidth` | compact-block slots as a protocol of concurrent fillers and revokers |
| `ModuleGraph`, `ModuleLifecycle`, `ModuleManager` | dependency graph, whole runs, the manager's methods |
| `AddressTable`, `AddressDatabase`, `AddressBook`, `AddressCrowd` | buckets, entries and outbound choice, the methods over both, runs to full buckets |
| `WindowBound`, `Bandwidth`, `BandwidthRuns` | one tumbling window, trackers, whole runs |
| `BandwidthPeer`, `BandwidthSweeps`, `BandwidthWrap` | one peer's trackers, what sweeps do, counter width |
| `Dandelion`, `Reconnect` | stem relay and reconnection tick |
| `UrlCodec`, `Bip21`, `BanList` | percent coding, URI round trip, ban merge |
| `Prelude`, `Sorting` | shared definitions; stable sort and when its result is canonical |

Code that updates state in place is a class or a loop, and each method is proved equal to a
function on values. What the component promises is then proved about those functions, over
single steps and over every run.

Clocks, random draws, send, spawn and kill outcomes, and the iteration order of hash maps are
inputs, so every statement holds for all of them. Header hashing, the work and version checks,
version requirements, the amount text format and the ban-list digest are function parameters.

Assumptions that a reader should know:

- Theorems about the header index speak about a set of headers in which no two share a hash.
  The theorems on heights and forks also take the genesis header, whose parent field is the hash
  of no block, and a depth function that is 0 for genesis and one larger for any other header
  than for its parent; probes give the tip's true height.
- Contiguity needs heights that stay below 2^64; the theorem on heights does not, it saturates
  as the code does.
- Bandwidth bounds need a clock that never goes back and check-to-record pairs that do not
  overlap. Sweeps are covered when requests are noted, recorded within a known delay, and the
  sweep spares a window plus that delay.
- Counters that the code increments with plain `+=` wrap around, as they do in the release
  profile; a build with overflow checks stops there instead.
- The Dandelion timeout is at least 2 units, because a smaller one leaves no range to draw the
  jitter from.

Where the code and its comments or names differ, the model follows the code:

- A crash removes only direct dependents. A failed kill returns after the module is gone from
  the map and before its dependents are unloaded.
- A reload revisits only direct hard dependents, in map order.
- With the tip's row missing from the height index, a sibling of the tip can take its height.
- A full tried bucket without a replaceable slot makes a promotion drop the address from both sides.
- Expiry leaves bucket rows behind, and a row without an entry is never replaced.
- `add_address` describes timestamp 0 as not marking the address as just seen; the code sets
  its last-seen time to now.
- "At most three peers are asked" holds of slots; of asked peers it needs that no slot or peer
  is taken from a filler in mid-send and no needed revocation is lost.
- `forks_before_tip` and `disconnect_from` disagree for a branch on a side block at or above the
  tip's height and for a reply that only repeats active ancestors.
- Sweeps forget subnet trackers always, because nothing ever records a request for a subnet.
- Merged ban lists are sorted for a deterministic output, which two addresses with the same bytes
  and port but other services or time defeat.
- The reconnect ban test lets permanently banned addresses through.
- The stale filter can drop an entry before its first dial.
- `start_stem_phase` compares path expiry with the real clock and everything else with the injected one.
- BIP 21 has a URI with an unknown `req-` parameter rejected; the code keeps the parameter.
- An empty parameter key survives the URI round trip, and a percent code with a leading `+` decodes.

## Model

| member | source | states |
|---|---|---|
| `HeaderProbe.FindAnchor` | src/network/block_announced_sync.rs:505-520 | the anchor is the first header of the reply whose parent is the tip or an indexed block; every earlier header has an unknown parent, and no anchor means all have |
| `HeaderProbe.BlockIndex.AnchorOf` | src/network/block_announced_sync.rs:505-520 | the scan over the reply finds exactly that anchor |
| `HeaderProbe.BlockIndex.LinkedPrefix` | src/network/block_announced_sync.rs:531-572 | the loop over height, parent and pending rows collects the prefix characterised by `LinkFromIsChain` and `LinkFromIsLongest` |
| `HeaderProbe.ClaimsAreMaximal` | src/network/block_announced_sync.rs:578-623 | the rows that claim an active height are the longest front of the batch that extends the active chain over free or matching heights |
| `HeaderProbe.BlockIndex.SplitRows` | src/network/block_announced_sync.rs:578-623 | although it writes side rows while it reads the height index, the loop splits the batch as if it had read the index once; side rows never touch the height index |
| `HeaderProbe.BlockIndex.StoreHeadersBatch` | src/storage/blockstore.rs:1292-1348 | a batch store writes header, hash-to-height and height-to-hash rows, and leaves an occupied height alone |
| `HeaderProbe.BlockIndex.StoreHeadersLinkingToTip` | src/network/block_announced_sync.rs:496-657 | one probe: the new index and the whole report, for an empty, unanchored, partly linked or forked reply alike |
| `HeaderChain.LinkFromIsChain` | src/network/block_announced_sync.rs:533-572 | the accepted rows are a front of the reply from the anchor on, each the child of the one before, on consecutive heights |
| `HeaderChain.LinkFromIsLongest` | src/network/block_announced_sync.rs:533-572 | every accepted row passed the checks at its height against the rows before it, and the first dropped header fails them |
| `HeaderChain.BatchShape` | src/network/block_announced_sync.rs:603-629 | what storing a batch changes: old rows stay, the front becomes active, the rest is stored by hash only, and stored headers stay genuine |
| `HeaderChain.BatchKeepsChain` | src/network/block_announced_sync.rs:578-629 | no occupied height changes hash, neighbours stay parent-linked, and the height index stays without a gap if and only if the tip's own row is not missing |
| `HeaderChain.MissingTipRowLeavesGap` | src/network/block_announced_sync.rs:594-602 | when the tip's row is missing and a batch is claimed on top of it, the height index gets a gap |
| `HeaderChain.TipIndexedHasItsRow` | src/network/block_announced_sync.rs:594-602 | an indexed tip rules that case out, for every batch |
| `HeaderChain.ProbeKeepsChain` | src/network/block_announced_sync.rs:496-629 | every probe keeps the active index contiguous, parent-linked and genuine, keeps the tip indexed and changes no occupied height |
| `HeaderChain.RunKeepsChain` | src/network/block_announced_sync.rs:496-657 | the same over every sequence of replies, each with the tip of its moment indexed |
| `HeaderChain.RunKeepsChainIff` | src/network/block_announced_sync.rs:578-629 | over every sequence of replies and tips, the index is one contiguous, linked chain after each of them if and only if none is claimed on top of a tip whose row is missing |
| `HeaderChain.BatchSplits` | src/network/block_announced_sync.rs:578-623 | a batch row is active after the call if and only if it lies below `disconnect_from`; a later row that meets an occupied height is not active either |
| `HeaderChain.ProbeSplitsBatch` | src/network/block_announced_sync.rs:578-623 | the same for the batch of a reply, and `disconnect_from` is the height of one of its rows, so it is the least height off the active chain |
| `HeaderChain.ProbeKeepsTrueHeights` | src/network/block_announced_sync.rs:505-629 | active and side rows alike get the true depth of their block above genesis, so an indexed child is one above its indexed parent, for replies that may contain the genesis header itself |
| `HeaderChain.RunKeepsTrueHeights` | src/network/block_announced_sync.rs:496-657 | the same over every sequence of replies, whatever the chain tip is at each of them |
| `HeaderChain.MissingBodiesAreExact` | src/network/block_announced_sync.rs:635-639 | the missing bodies are the batch hashes without a body, and listing them follows the order of the chain |
| `HeaderChain.ThroughTipUndoesAboveIt` | src/network/block_announced_sync.rs:640-656 | a batch that passes through the tip never asks to undo the tip or anything below |
| `HeaderChain.ForkReportMatchesUndo` | src/network/block_announced_sync.rs:172-176 | the two answers of a report, forking before the tip and undoing the tip, agree if and only if a batch above the tip is the tip's child and a batch that ends below the tip holds something not yet active |
| `HeaderChain.SideBranchUndoesNothing` | src/network/block_announced_sync.rs:640-656 | a concrete mismatch: a child of the tip's sibling is reported as forking before the tip with nothing at or below the tip to undo |
| `HeaderChain.SiblingForks` | src/network/block_announced_sync.rs:640-656 | a concrete agreement that meets every condition of these results: a reply with the genesis header and the tip's sibling forks and undoes the tip |
| `HeaderChain.TipHeightTakenIff` | src/network/block_announced_sync.rs:594-605 | after a batch the tip's height belongs to another block if and only if the tip's height was free and a claimed row with another hash sits on it |
| `HeaderChain.SiblingTakesTheTipHeight` | src/network/block_announced_sync.rs:594-605 | a concrete index and reply: with the tip's row missing, a sibling of the tip takes the tip's height |
| `HeaderAnnounce.AnnounceLen` | src/network/block_announced_sync.rs:31-39 | a batch length is given if and only if the known mark is 1 to 8 below the tip, and is exactly that distance |
| `HeaderAnnounce.HeadersForAnnounce` | src/network/block_announced_sync.rs:80-105 | the loop returns the active headers up to the tip, or nothing when a row is missing or the last one is not the tip |
| `HeaderAnnounce.AnnouncedBatchClosesGap` | src/network/block_announced_sync.rs:80-105 | on a linked index holding the tip, the batch exists, has exactly tip minus known headers, starts right above the mark, is parent-linked and ends in the tip (BIP 130) |
| `HeaderAnnounce.GapIsUnique` | src/network/block_announced_sync.rs:80-105 | no other sequence of headers closes that gap |
| `HeaderAnnounce.Announcer.AnnounceConnectedBlock` | src/network/block_announced_sync.rs:693-741 | a round over the peers with failing sends: who gets which headers and how the marks move; nothing happens without relay or an indexed height |
| `HeaderAnnounce.RoundClosesGaps` | src/network/block_announced_sync.rs:719-741 | every message sent in a round, to any peer with any earlier sends failing or not, closes that peer's gap, and its mark ends at the tip |
| `HeaderAnnounce.RoundReachesIff` | src/network/block_announced_sync.rs:719-741 | a round sends to a peer if and only if it is listed, its mark is in range and its send succeeds, whatever happened to the peers before it |
| `HeaderAnnounce.Advance` | src/network/block_announced_sync.rs:61-69 | a mark becomes the higher of itself and the new height |
| `HeaderAnnounce.MarksNeverGoDown` | src/network/block_announced_sync.rs:807-812 | over every run of announcements, notes and peer changes, the mark of a peer that stays never goes down |
| `HighBandwidth.CandidatesAreLeastOpen` | src/network/block_announced_sync.rs:42-58 | the candidates are the lowest-addressed open peers, as many as there are free slots, whatever order the map is walked in |
| `HighBandwidth.PeerTable.TakeSlot` | src/network/block_announced_sync.rs:751-767 | under the lock a slot is taken only by a known peer without one while fewer than three are held |
| `HighBandwidth.PeerTable.ClearSlot` | src/network/block_announced_sync.rs:776-779 | a failed send frees the slot and touches no other peer |
| `HighBandwidth.PeerTable.RevokeSlot` | src/network/block_announced_sync.rs:785-796 | a revocation is reported exactly when the peer held a slot, and frees only that slot |
| `HighBandwidth.PeerTable.FillHighBandwidthSlots` | src/network/block_announced_sync.rs:745-782 | an undisturbed fill: exactly the candidates whose send succeeds end up holding a slot, next to the earlier holders |
| `HighBandwidth.ThreeSlots` | src/network/block_announced_sync.rs:745-796 | in every interleaving of fillers with stale candidates, revokers, failing sends, joins and leaves, at most three peers hold a slot (BIP 152) |
| `HighBandwidth.StepKeepsAccountIff` | src/network/block_announced_sync.rs:745-796 | a step keeps a peer accounted for, by a slot, a revocation on its way or the filler at work on it, if and only if it does not take that peer's slot or the peer itself from a filler in mid-send, nor lose a revocation still needed for it |
| `HighBandwidth.AccountedThroughoutIff` | src/network/block_announced_sync.rs:745-796 | so the peers stay accounted for all through a run if and only if each of its steps is of that kind |
| `HighBandwidth.AtMostThreeAsked` | src/network/block_announced_sync.rs:24-25 | over every run, at most three peers are asked and not being revoked besides those disturbed by such steps, so three are exceeded by at most the number of disturbed peers, and not at all in runs without them |
| `HighBandwidth.MidSendIsReached` | src/network/block_announced_sync.rs:745-796 | from no peers at all, an explicit run, for any order the map is walked in, reaches two asked peers, a third in mid-send and a second filler with a stale list |
| `HighBandwidth.FourAskedWithThreeSlots` | src/network/block_announced_sync.rs:745-796 | from there a revocation in mid-send leaves four peers asked, every message delivered, while three slots are kept |
| `ModuleGraph.CascadeIsExact` | src/module/manager.rs:988-1154 | whatever order dependents are visited in, a finished cascade leaves exactly the modules with no hard-dependency chain of killed modules to the unloaded one |
| `ModuleGraph.UnloadCascades` | src/module/manager.rs:988-1154 | that set is itself a finished cascade, so the characterisation is met |
| `ModuleGraph.UnloadRemovesLeastClosedSet` | src/module/manager.rs:988-1154 | an unload removes the least set that contains the module and every hard dependent of a killed member, and changes no survivor |
| `ModuleGraph.FallsThroughDependent` | src/module/manager.rs:1123-1148 | what a nested unload of a dependent takes down, the outer unload takes down too, although the nested one sees a smaller map |
| `ModuleLifecycle.LoadKeepsWellFounded` | src/module/manager.rs:713-755 | a load, accepted or refused, keeps every hard dependency loaded, running, in an accepted version and loaded earlier |
| `ModuleLifecycle.UnloadKeepsWellFounded` | src/module/manager.rs:988-1154 | so does an unload whose kills succeed |
| `ModuleLifecycle.RunKeepsWellFounded` | src/module/manager.rs:702-1434 | so does every run of loads, unloads and reloads with successful kills, in whatever order reloads revisit dependents |
| `ModuleLifecycle.WellFoundedIsClosedAndAcyclic` | src/module/manager.rs:729-755 | then the loaded graph is closed under hard dependencies and has no dependency cycle |
| `ModuleLifecycle.UnloadStaysClosedIff` | src/module/manager.rs:1052-1061 | with failing kills, closure survives an unload if and only if no survivor hard-depends on a fallen module whose kill failed |
| `ModuleLifecycle.FailedKillStrandsDependents` | src/module/manager.rs:1053-1056 | a concrete graph: a failed kill removes the module and leaves its dependent loaded |
| `ModuleLifecycle.CrashLeavesNoDirectDependent` | src/module/manager.rs:525-691 | a crash removes the module and exactly its direct hard dependents |
| `ModuleLifecycle.CrashStaysClosedIff` | src/module/manager.rs:525-691 | closure survives a crash if and only if no survivor hard-depends on one of the removed direct dependents |
| `ModuleLifecycle.CrashCanStrandAModule` | src/module/manager.rs:644-675 | a concrete chain of three: the far end stays loaded without its dependency |
| `ModuleLifecycle.ShutdownEmpties` | src/module/manager.rs:2127-2141 | shutdown empties the map in any order and whatever kills fail, although cascades remove listed modules early |
| `ModuleLifecycle.ReloadRestoresIff` | src/module/manager.rs:1168-1434 | a reload in which nothing fails brings back the same set of modules if and only if only direct dependents fell and they are revisited dependencies first |
| `ModuleLifecycle.OrderedReloadRestores` | src/module/manager.rs:1251-1431 | revisiting direct dependents in dependency order restores every module |
| `ModuleLifecycle.RestoringReloadIsOrdered` | src/module/manager.rs:1178-1217 | conversely, a restoring reload had no indirect dependent and visited in dependency order |
| `ModuleLifecycle.OutOfOrderStaysOut` | src/module/manager.rs:1251-1431 | a dependent revisited before its own dependency is never loaded again by that reload |
| `ModuleLifecycle.ReloadLosesAnIndirectDependent` | src/module/manager.rs:1178-1217 | a concrete line of three: reloading the base, with nothing failing, loses the far end |
| `ModuleLifecycle.ReloadLosesByOrder` | src/module/manager.rs:1251-1431 | two direct dependents, one needing the other, revisited in the wrong order: one is lost |
| `ModuleManager.Manager.CheckDependencies` | src/module/manager.rs:729-755 | the loop accepts if and only if every hard dependency is loaded, acceptable and running or starting, and names the kind of failure |
| `ModuleManager.Manager.LoadModule` | src/module/manager.rs:702-985 | each outcome of a load has its exact condition, and only success changes the map |
| `ModuleManager.Manager.UnloadModule` | src/module/manager.rs:988-1154 | the recursive cascade over any choice of dependents terminates and leaves exactly `UnloadOf`, also when kills fail; modules linked only optionally survive |
| `ModuleManager.Manager.ReloadModule` | src/module/manager.rs:1168-1434 | unload, load and the walk over direct dependents give `Reload`; the result is success exactly when the module itself could be loaded and spawned |
| `ModuleManager.Manager.HandleCrash` | src/module/manager.rs:525-691 | the crash step leaves exactly `CrashOf` |
| `ModuleManager.Manager.Shutdown` | src/module/manager.rs:2127-2141 | the loop over the names taken at the start ends with no module loaded |
| `AddressTable.ComputeBucketIndex` | src/network/address_table.rs:86-105 | the hashing loop computes the 64-bit wrapping FNV fold that places an address, below the bucket count |
| `AddressTable.ChooseSide` | src/network/address_table.rs:22-37 | no side if and only if both are empty, and never an empty side |
| `AddressTable.FirstTerrible` | src/network/address_table.rs:186-192 | the slot to replace is the first replaceable one, or there is none |
| `AddressTable.InsertCappedEffect` | src/network/address_table.rs:178-193 | an insert puts the address in if and only if it was there, there is room or a slot is replaceable, and drops at most the replaced address |
| `AddressTable.ScanIsOneBucket` | src/network/address_table.rs:195-203 | scanning a whole side agrees with looking into the one hashed bucket |
| `AddressTable.PlaceNewKeepsInv` | src/network/address_table.rs:107-113 | placing keeps the table invariant |
| `AddressTable.PlaceNewOutcome` | src/network/address_table.rs:107-113 | after placing, the address is on the new side if and only if it was, or it is not tried and its bucket had room; the tried side is untouched |
| `AddressTable.PromoteTriedOutcome` | src/network/address_table.rs:115-124 | after promotion the address is never on the new side, and is tried if and only if it was or its bucket had room: otherwise it is in neither |
| `AddressTable.RemoveKeepsInv` | src/network/address_table.rs:145-154 | removal takes an address off both sides and keeps the invariant |
| `AddressTable.RememberAnchorOk` | src/network/address_table.rs:164-170 | anchors stay at most two and distinct, with the newest in front |
| `AddressTable.RunKeepsInv` | src/network/address_table.rs:86-204 | over every run: at most 64 distinct addresses a bucket, each only in its hashed bucket, new and tried disjoint, at most two distinct anchors |
| `AddressTable.AddrsDistinct` | src/network/address_table.rs:156-162 | listing a side lists no address twice |
| `AddressTable.AddrsAreContents` | src/network/address_table.rs:156-162 | listing a side lists exactly the addresses its scan finds |
| `AddressTable.AddressBuckets.constructor` | src/network/address_table.rs:77-84 | a new table is empty and satisfies the invariant |
| `AddressTable.AddressBuckets.Place` | src/network/address_table.rs:107-113 | the in-place update is the placement of `PlaceNewOutcome` |
| `AddressTable.AddressBuckets.Promote` | src/network/address_table.rs:115-124 | the purge loop and insert are the promotion of `PromoteTriedOutcome` |
| `AddressTable.AddressBuckets.Note` | src/network/address_table.rs:126-136 | the success or the failure count of that address grows by one and saturates at 32 bits |
| `AddressTable.AddressBuckets.RemoveAddr` | src/network/address_table.rs:145-154 | the loops over both sides are the removal of `RemoveKeepsInv` |
| `AddressTable.AddressBuckets.Remember` | src/network/address_table.rs:164-170 | the anchor list update of `RememberAnchorOk` |
| `AddressTable.AddressBuckets.AnchorsNow` | src/network/address_table.rs:172-176 | reading the anchors drops those older than seven days and returns the rest in order |
| `AddressTable.AddressBuckets.AllOn` | src/network/address_table.rs:156-162 | the loop concatenates the buckets of a side in order |
| `AddressDatabase.KnownAddressOutcome` | src/network/address_db.rs:124-164 | an advert outside the relay horizon changes nothing; inside it the entry is refreshed and gains flags without losing any, and no entry comes or goes |
| `AddressDatabase.NewAddressOutcome` | src/network/address_db.rs:124-164 | a new address is always stored; a past timestamp outside the horizon is its last-seen time, any other counts as now; other entries stay except an evicted oldest one |
| `AddressDatabase.DnsSeedOutcome` | src/network/address_db.rs:170-188 | a seed address ends up stored and seen now without the limited flag, other flags unchanged |
| `AddressDatabase.SelectionIsBestOfOneSide` | src/network/address_db.rs:271-309 | the selection is the best min(count, usable) usable addresses of one side, full before unknown before limited and newest first; it is empty if and only if count is 0 or neither side has a usable address |
| `AddressDatabase.ReachableSelection` | src/network/address_db.rs:271-309 | the same in every database reached from empty by any run, stale rows included |
| `AddressDatabase.ApplyKeepsInv` | src/network/address_db.rs:124-390 | each operation keeps the table invariant and at most max(1, limit) entries |
| `AddressDatabase.RunKeepsDbInv` | src/network/address_db.rs:124-390 | so does every run |
| `AddressDatabase.ExpiredRowsBlockTheirBucket` | src/network/address_db.rs:333-346 | a placement does not get into a full bucket whose rows have all lost their entry |
| `AddressDatabase.BlockedUntilTouched` | src/network/address_db.rs:333-390 | over every run that stores, promotes and forgets none of those 64 addresses, the bucket stays as it is and takes no other address |
| `AddressCrowd.MembersShareABucket` | src/network/address_table.rs:86-105 | addresses of one host whose ports differ by multiples of the number of buckets share a bucket, on either side |
| `AddressCrowd.BlockedIsReached` | src/network/address_db.rs:333-383 | for every host, 64 adverts from the empty database and an expiry lead to such a bucket |
| `AddressCrowd.PromotionLosesItsAddress` | src/network/address_db.rs:311-318 | for every host, a run from the empty database after which an advertised address on the new side connects and is then on neither side, though still stored |
| `AddressBook.Book.constructor` | src/network/address_db.rs:91-102 | a new database is empty and valid |
| `AddressBook.Book.OldestEntry` | src/network/address_db.rs:545-604 | the scan finds an entry seen no later than any other, whatever the map order |
| `AddressBook.Book.EnsureRoom` | src/network/address_db.rs:545-604 | when full, exactly one oldest entry and its rows go |
| `AddressBook.Book.PlaceSocketNew` | src/network/address_db.rs:333-338 | placement with replaceability judged from the entries and attempt counts of that moment |
| `AddressBook.Book.AddNetAddress` | src/network/address_db.rs:124-164 | the update is the one of `KnownAddressOutcome` and `NewAddressOutcome`, with an oldest entry as victim |
| `AddressBook.Book.AddSeedAddress` | src/network/address_db.rs:170-188 | the update is the one of `DnsSeedOutcome`, with an oldest entry as victim |
| `AddressBook.Book.PromoteSocket` | src/network/address_db.rs:311-318 | the success is counted before replaceability is judged; then promotion and anchor |
| `AddressBook.Book.NoteDialFailure` | src/network/address_db.rs:320-322 | a failed dial changes the attempt counts only |
| `AddressBook.Book.RemoveExpiredEntries` | src/network/address_db.rs:378-383 | expired entries go, bucket rows stay, and the number removed is returned |
| `AddressBook.Book.ForgetAddress` | src/network/address_db.rs:386-390 | a removed address leaves the entries and both sides |
| `AddressBook.Book.SelectOutbound` | src/network/address_db.rs:271-309 | the grouping loop and the three sorts give the selection of `SelectionIsBestOfOneSide` |
| `AddressBook.PartitionUsable` | src/network/address_db.rs:281-299 | the loop puts every usable address into the group of its flags, in table order |
| `WindowBound.RollTracks` | src/network/bandwidth_protection.rs:113-128 | a reset check at any later time keeps the window equal to what was recorded since its start, and any interval of the window length within twice the cap |
| `WindowBound.AddTracks` | src/network/bandwidth_protection.rs:131-142 | recording an amount that fits the cap keeps both facts |
| `Bandwidth.ResetRolls` | src/network/bandwidth_protection.rs:113-128 | the tracker's reset rolls the hourly bytes, daily bytes and hourly requests each as its own window, creating the tracker when absent |
| `Bandwidth.DropKeeps` | src/network/bandwidth_protection.rs:536-556 | forgetting a tracker idle for a window and the delay bound loses nothing that still counts |
| `Bandwidth.Manager.Look` | src/network/bandwidth_protection.rs:302-306 | looking creates or resets the tracker of that key only |
| `Bandwidth.Manager.CheckServiceRequest` | src/network/bandwidth_protection.rs:282-434 | the cascade of peer, IP and subnet tests with its early exits: the verdict and which trackers it touched on the way; no limits means admitted and untouched |
| `Bandwidth.Manager.RecordServiceBandwidth` | src/network/bandwidth_protection.rs:437-486 | the bytes are added, in 64 bits that wrap around, for the peer, the IP and the IPv4 or IPv6 subnet and nowhere else |
| `Bandwidth.Manager.RecordServiceRequest` | src/network/bandwidth_protection.rs:489-511 | a request is counted, in 32 bits that wrap around, for the peer and the IP and never for a subnet |
| `Bandwidth.Manager.EvictStaleEntries` | src/network/bandwidth_protection.rs:536-556 | the retain loop keeps a tracker if and only if a request was noted for it at most the idle time ago, and keeps it unchanged |
| `BandwidthRuns.CheckEffect` | src/network/bandwidth_protection.rs:282-434 | a check leaves each tracker alone or just resets it, and an admitted one has looked at its peer, IP and subnet |
| `BandwidthRuns.ServedInAnyInterval` | src/network/bandwidth_protection.rs:282-511 | for peers, IPs and subnets, in bytes an hour, bytes a day and requests an hour: over every run with a monotone clock and non-overlapping requests, if limit - 1 + largest response fits the counter, any interval of that length serves at most twice that, and the counter equals what its window served |
| `BandwidthRuns.AdmittedIff` | src/network/bandwidth_protection.rs:282-434 | whatever the early exits skip, a request is admitted if and only if no hourly, daily or request limit of its peer, IP or subnet is reached |
| `BandwidthRuns.RefusalIsEarned` | src/network/bandwidth_protection.rs:282-556 | over every run, with any sweeps and wrapped counters, a refused request's peer, IP or subnet was really served a whole limit in the hour or day before the check |
| `BandwidthSweeps.SpentSweepIsUnnoticed` | src/network/bandwidth_protection.rs:536-556 | a sweep whose dropped counters are zero or past their window does not change the verdict of the next check, with nothing served in between |
| `BandwidthSweeps.SpentSweepIsNoticedLater` | src/network/bandwidth_protection.rs:536-556 | with a response in between it can: for all limits, a counter swept while empty but inside its window makes a check refused that is admitted without the sweep |
| `BandwidthSweeps.OverSweepIsUnnoticed` | src/network/bandwidth_protection.rs:536-556 | a sweep that drops only trackers with both windows over is never noticed: in every run that follows, later sweeps of no longer idle time included, the same requests are served and every check has the same verdict |
| `BandwidthWrap.WrapLiftsTheBound` | src/network/bandwidth_protection.rs:131-142 | where limit - 1 + largest response does not fit into 64 bits, responses of at most that size can be chosen so that any amount is served in one second |
| `BandwidthWrap.HourBoundedIff` | src/network/bandwidth_protection.rs:131-142 | for all limits: every run is bounded by twice the cap in any hour if and only if no request is admitted at all, or one largest response on top of just under the least of the six byte limits fits into 64 bits |
| `BandwidthSweeps.SweepForgetsSubnets` | src/network/bandwidth_protection.rs:548-555 | after any run, a sweep leaves no subnet tracker |
| `BandwidthSweeps.SweepsLiftEveryBound` | src/network/bandwidth_protection.rs:536-556 | requests that are not noted, with a sweep after each, serve any number of responses of any size within one second, for peer, IP and subnet, by hour and by day |
| `BandwidthSweeps.ShortIdleBreaksTheBound` | src/network/bandwidth_protection.rs:536-556 | noted requests do not help: for every idle time up to 3597 seconds, a run passes twice the cap of each key within an hour |
| `Dandelion.DandelionRelay.InitializeStemPath` | src/network/dandelion.rs:163-191 | a path to a drawn peer other than its owner, or none |
| `Dandelion.DandelionRelay.UpdateStemPath` | src/network/dandelion.rs:194-212 | an existing path moves to a drawn peer that is neither its owner nor its old next hop and counts it in a byte that wraps around; without such a peer it stays as it is |
| `Dandelion.DandelionRelay.StartStemPhase` | src/network/dandelion.rs:217-263 | a live path is reused and a missing or expired one replaced; without a next peer no transaction enters the stem |
| `Dandelion.DandelionRelay.Advance` | src/network/dandelion.rs:295-320 | the hop is counted even when no next peer is found |
| `Dandelion.DandelionRelay.CleanupExpired` | src/network/dandelion.rs:351-363 | the two retain loops forget exactly the paths whose expiry has come and the transactions whose start plus twice the deadline has passed, and change nothing else |
| `Dandelion.DandelionRelay.MarkRelayed` | src/network/relay.rs:212-226 | a relayed transaction leaves the stem phase exactly when it should fluff |
| `Dandelion.DandelionRelay.RelayTransaction` | src/network/relay.rs:235-276 | a transaction is started, fluffed or advanced, and the peer returned is the one the run log records |
| `Dandelion.AdvanceKeepsRelayOk` | src/network/dandelion.rs:295-320 | an advance never names the current holder, adds one hop, keeps the start time and touches no other transaction |
| `Dandelion.EveryRunIsBounded` | src/network/dandelion.rs:163-363 | over every run: a start names another peer than its own, hops since a start never exceed the maximum, every hop goes to another peer than the holder and happens within 1.5 timeouts of the start, and the stored counters equal what the log shows (BIP 156) |
| `Dandelion.HopsFitInAByte` | src/network/dandelion.rs:295-297 | so the 8-bit hop counter of a transaction never overflows |
| `Dandelion.LateOrFarMeansFluff` | src/network/dandelion.rs:268-290 | at 1.5 timeouts or at the maximum number of hops a transaction fluffs whatever the coin says |
| `Dandelion.CleanupDropsOnlyExpired` | src/network/dandelion.rs:351-363 | cleanup drops a transaction if and only if twice its deadline has passed, hence only ones that would fluff, and only expired paths |
| `Dandelion.PathCounterWraps` | src/network/dandelion.rs:194-212 | the 8-bit hop counter of a path, unlike that of a transaction, comes round again after 256 updates |
| `Reconnect.ReconnectionQueue.Enqueue` | src/network/background_tasks.rs:268-272 | an address already queued keeps its entry; a new one starts at zero attempts |
| `Reconnect.ReconnectionQueue.VisitAddress` | src/network/background_tasks.rs:493-555 | one visit: skipped, removed, stopped at capacity or dialled, with the entry updated to match |
| `Reconnect.ReconnectionQueue.RunTick` | src/network/background_tasks.rs:430-555 | a tick with its stale filter, sort and loop; attempt counts and last dials read before the loop agree with the queue the loop is changing |
| `Reconnect.OrderIsBestFirst` | src/network/background_tasks.rs:466-491 | a tick visits exactly the eligible entries, by quality, then fewest attempts, then longest waiting |
| `Reconnect.RunKeepsSysOk` | src/network/background_tasks.rs:457-555 | over every run of ticks, enqueues and reconnects: attempts stay at most 10 and successive dials of a queued entry are at least min(2^a, 60) seconds apart, a being the count after the earlier one |
| `Reconnect.BackoffShiftFits` | src/network/background_tasks.rs:518 | so the backoff shift stays at most 1024 |
| `Reconnect.AtMostTenDials` | src/network/background_tasks.rs:525-532 | an address that is never persistent is dialled at most 10 times while it stays queued, over every run |
| `Reconnect.EleventhVisitRemoves` | src/network/background_tasks.rs:518-532 | with 10 attempts behind it, a visit that is not held, banned or too early removes it |
| `Reconnect.BanTestsAgreeIff` | src/network/background_tasks.rs:507-516 | the reconnect ban test agrees with `is_banned` if and only if the address is not banned for ever |
| `Reconnect.PermanentBansAreIgnored` | src/network/background_tasks.rs:507-516 | a tick with permanent bans leaves the same queue and makes the same dials as with all of them lifted |
| `Reconnect.PermanentlyBannedIsDialled` | src/network/background_tasks.rs:507-516 | a visit dials a permanently banned address whenever its own backoff is over and there is room |
| `Reconnect.FreshEntryDroppedIff` | src/network/background_tasks.rs:459-464 | a freshly queued entry is dropped before its first dial if and only if only persistent peers are tried, it is not one, and the clock has passed the stale time |
| `Reconnect.EvictionsAreTheStalest` | src/network/background_tasks.rs:66-77 | the evicted peers are all but the protected number, distinct, and none announced a block later than a kept one |
| `UrlCodec.EncodeString` | src/bip21.rs:427-469 | the loop over characters and their UTF-8 bytes computes the encoding the lemmas speak about |
| `UrlCodec.DecodeString` | src/bip21.rs:400-424 | the loop with its look-ahead computes the decoding, errors included |
| `UrlCodec.EncodedIsClean` | src/bip21.rs:427-469 | encoded text never contains the separators `&`, `=`, `?` or `+` |
| `UrlCodec.DecodeOfEncode` | src/bip21.rs:400-469 | decoding an encoding always succeeds and yields the UTF-8 bytes read as one character each |
| `UrlCodec.RoundTripIffAscii` | src/bip21.rs:400-469 | it yields the text itself if and only if the text is ASCII |
| `Bip21.SplitOfJoin` | src/bip21.rs:97 | splitting undoes joining for parts without the separator |
| `Bip21.ParseOneParam` | src/bip21.rs:97-139 | one parameter: empty ones skipped, known keys set, an undecodable value or a bad amount refused, every other key kept with its decoded value |
| `Bip21.ParseUri` | src/bip21.rs:67-149 | the parse loop, stopping at the first error, is the parser of `RoundTripIff` |
| `Bip21.ParseOkIff` | src/bip21.rs:67-149 | a text parses if and only if it has the scheme, a non-empty address and only parameters whose value decodes and, for an amount, is a number not at or below zero |
| `Bip21.RequiredIsKept` | src/bip21.rs:97-139 | a parsed URI keeps every parameter whose key starts with `req-`, none of which is understood, where BIP 21 asks for rejection |
| `Bip21.RequiredTextParses` | src/bip21.rs:97-139 | for every address, a required parameter that decodes makes a URI that parses |
| `Bip21.PrintUri` | src/bip21.rs:153-180 | printing for any iteration order of the extra parameters is the printer of `RoundTripIff` |
| `Bip21.ParsedIsPrintable` | src/bip21.rs:67-149 | whatever parses has a non-empty address and keys that can be printed apart again |
| `Bip21.ParseOfPrinted` | src/bip21.rs:67-180 | every printable URI parses back from its text, with each value read byte-wise |
| `Bip21.RoundTripIff` | src/bip21.rs:67-180 | a printed URI parses to itself if and only if its address is non-empty without `?`, its keys are free of `&` and `=` and not reserved, and its values are ASCII; for every order of parameters (BIP 21) |
| `BanList.MergeOneList` | src/network/ban_list_merging.rs:23-52 | the loop over one list's entries is the fold the lemmas speak about |
| `BanList.MergeIntoMap` | src/network/ban_list_merging.rs:15-53 | the loop over messages skips those without a full list |
| `BanList.MergeBanLists` | src/network/ban_list_merging.rs:15-66 | the result holds exactly the merged entries, each once, sorted by address, for any map order |
| `BanList.MergeTakesLongest` | src/network/ban_list_merging.rs:26-38 | an address is in the result if and only if it occurs, with the longest ban of all its occurrences, for ever being the longest |
| `BanList.MergeKeepsReasons` | src/network/ban_list_merging.rs:39-46 | the merged reason is all reasons given for the address, joined in order |
| `BanList.MergeIgnoresOrder` | src/network/ban_list_merging.rs:15-66 | unban times depend only on which entries occur, not on their order, number or grouping |
| `BanList.MergeIsIdempotent` | src/network/ban_list_merging.rs:15-66 | merging the merged list again changes nothing |
| `BanList.OutputIsSorted` | src/network/ban_list_merging.rs:55-63 | sorting in place turns any iteration order into a sorted list of every banned address once |
| `BanList.MergeIsDeterministicIff` | src/network/ban_list_merging.rs:55-63 | the output is the same for every iteration order if and only if no two banned addresses share address bytes and port while differing in services or time |
| `BanList.HashIgnoresOrder` | src/network/ban_list_merging.rs:90-109 | the hash is the same for every permutation of entries with distinct endpoints |
| `BanList.HashIsCanonicalIff` | src/network/ban_list_merging.rs:90-109 | for an injective digest, the hash ignores order if and only if no two different entries share an endpoint |
| `Sorting.CanonicalIffNoTies` | src/network/ban_list_merging.rs:93-100 | a stable sort gives the same result for every permutation if and only if tied elements are equal |

## Left out

- Storage errors, partial writes and a missing store or network in the header probe: storage always answers.
- Chainwork caching, chain selection and the work and version checks themselves: parameters or no effect on the index.
- Sockets, tasks, timeouts, wire formats and logging: each handler or tick is one step with its inputs given.
- Module processes, IPC, WASM, events, configuration and discovery on disk: only the map of modules is modelled, with spawn and kill outcomes as inputs.
- Version requirements: a parameter, so their string parsing is not modelled.
- Concurrent load and unload calls: the manager's methods run one at a time.
- Tip changes during a probe: the tip is read once per probe, while the source reads it again inside the probe.
- Reload configuration, binary paths and error texts: no effect on the set of modules.
- Iroh addresses: a second map without buckets, counted into the same size limit; the limit here counts socket addresses only.
- CPU-time limits, the default limit tables and the initial-block-download limits: a comparison with a constant, a table of constants, and a separate manager that shares no state with the trackers.
- The bandwidth manager's separate tracker maps: one map with tagged keys, which have the same contents.
- Fresh-address queries, locality and ban filters of the address database: filters over the entries that change no state.
- Fluff probability, amounts and peer quality as floating point: a coin, a codec and a real number; NaN qualities do not occur, and a NaN amount, which the code lets pass, is for the codec to call not at or below zero.
- Evicted addresses and dial cool-down in the reconnection tick: one set of held addresses.
- SHA-256 and serialisation in the ban-list hash: a digest parameter, injective where collisions matter.
- Ban entry validation, URI scheme registration files and installer text: an expiry test on one entry, and fixed text with names filled in.
