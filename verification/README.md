# littlefs, mbedTLS bignum and ARIA in a bootloader: a Dafny model

The repository is an STM32 bootloader that keeps firmware on a littlefs filesystem and checks it with
mbedTLS. This project models the two libraries' hardest parts and proves what they are relied on for.

## The model in short

**littlefs** (`Middleware/LittleFS/lfs.c`)

- `TagLog`, `TagWords`: the metadata log of a directory. Tags are records of type, id and size; `TagWords`
  has them as the 32-bit words in a block, each exclusive-or'ed with the one before it. Backward lookup
  with id shifting is proved to find what replaying the log forwards leaves.
- `Compaction`: the filter, and the proof that lookups do not notice compaction; lookups finer than the
  filter do, and it is stated exactly when.
- `Traversal`, `PendingAttrs`: the traversal behind appending and compacting, with its explicit stack, over
  pending attributes that include no-ops and moves of entries from other directories.
- `MetadataPair`: two blocks of commits, revision counts that wrap around, and power loss at every
  programming step. A crc is ideal: it is the content it was computed from, and accepts exactly that.
- `NameMatch`, `NameOrder`, `NameCommits`: entries are found by name in one forward scan that keeps one best
  tag. It is stated exactly for which logs that is right, and proved that commits, compactions and power
  losses keep directories that way.
- `GlobalState`, `StateRecords`: the state spread as exclusive-or deltas over all linked pairs, through commits,
  compaction, relocation, dropping and mounting, and the deltas as records of the logs.
- `Rename`, `RenameByName`, `RenameCrash`: the two commits of a rename and the recovery between them, by place,
  by name, and with power lost at any item of either commit.
- `LfsBase`: shared constants, byte overlays and slices.
- `Bits`, `CtzIndex`, `CtzList`, `CtzExtend`, `FileUpdate`: files as skip lists, byte by byte on the raw
  device: index arithmetic, find, extend, traverse, and copy-on-write updates.
- `Allocator`, `BlockDevice`, `TailList`: the lookahead allocator, the two caches over the raw device, and
  the walks along the tails with Brent's cycle detection.

**mbedTLS bignum** (`bignum_core.c`, `bignum_mod_raw.c`, `bignum_mod.c`)

- `Congruence` and `Fermat` hold the number theory. `MpiLimbs` has limbs of 32 or 64 bits, spans of limbs in
  a buffer and the number they stand for. `MpiCore`, `MpiMont`, `MpiExp`, `MpiModRaw`, `MpiMod`, `MpiBytes` and
  `MpiInput` are the routines, working in place on arrays with the aliasing the callers rely on, and proved for
  every limb count.

**ARIA** (`aria.c`)

- `AriaSBox` has the four tables, `AriaField` the arithmetic in the field of 256 elements that they are proved to
  come from, `Aria` the two layers and the rounds: decryption is encryption under transformed keys.
- `AriaKeys` is the key schedule, and `AriaVectors`, `AriaVectors192` and `AriaVectors256` follow the examples of
  appendix A of RFC 5794 through it.

## Main results

1. Backward lookup with id shifting is forward replay (`TagLog.LookupReplays`), on the words of a block too
   (`TagWords.GetSlice`), whose layout is stated apart (`TagWords.Layout`, `TagWords.WriteThenRead`).
2. Compaction, with the suspended traversal that writes it, changes no lookup of a class
   (`Compaction.CompactionMeaning`, `Traversal.Traverse`, `PendingAttrs.CompactionWrites`) and finer ones exactly
   as stated (`Compaction.FineLookup`).
3. A fetch serves exactly the records that an accepted crc vouches for (`MetadataPair.ScanServes`). After every
   run of commits and power losses a pair answers as the completed commits say (`MetadataPair.RunSound`,
   `MetadataPair.RunSoundFine`, `MetadataPair.SettledExactly`), by name as well (`NameCommits.RunResolves`); the
   scan by name is right exactly for orderly logs (`NameMatch.OrderlyExactly`), and ends a search exactly when it
   should, but for a case that is stated (`NameOrder.SearchEnds`).
4. A rename cut off anywhere leaves the file under exactly one of its names (`RenameCrash.FirstStep`,
   `RenameCrash.SecondStep`).
5. The deltas of the global state add up through relocation, dropping and mounting (`GlobalState.Lfs.Mount`).
6. The index estimate of files is exact if and only if blocks have at least 112 bytes
   (`CtzIndex.IndexExactness`); finding a block takes logarithmically many hops (`CtzList.Find`).
7. A write is copy-on-write: the new file is right and the old list still reads the old bytes
   (`FileUpdate.File.WriteAt`). No block is handed out twice (`Allocator.Free.Alloc`).
8. The caches are invisible (`BlockDevice.Device.Read`, `BlockDevice.Device.ProgAll`); walks along tails end on
   every graph (`TailList.Walk`).
9. Montgomery multiplication, windowed exponentiation and modular inversion are right for every limb count
   (`MpiMont.MontMul`, `MpiExp.ExpMod`, `MpiMod.ModInv`); output reads back if and only if the string is no
   longer than the limbs (`MpiInput.ReadsBack`).
10. ARIA decrypts what it encrypts, for all round keys (`Aria.DecryptInverts`) and all keys (`AriaKeys.KeyInverts`);
    its boxes are the field maps they stand for (`Aria.SubstituteMeans`), and it meets the known answers
    (`AriaVectors.KnownAnswer`).

Names follow the source. Methods are the source's loops and updates; functions state what they compute;
`ghost` parameters carry what only the proofs need.

## Model

| member | source | states |
|---|---|---|
| TagLog.LookupReplays | Middleware/LittleFS/lfs.c:667-708 | Scanning a well-formed log newest-first while shifting the id through created and deleted entries finds exactly the attribute that replaying the log forwards leaves in that entry, for every query and id. |
| TagLog.MoveIsDelete | Middleware/LittleFS/lfs.c:658-663 | A pending move answers every lookup as if a DELETE of the moved id had been appended to the log. |
| TagLog.MasksMean | Middleware/LittleFS/lfs.c:346-356 | The masks tell types of 11 bits apart exactly, by their class, and by the class of names. |
| TagLog.SplicesMean | Middleware/LittleFS/lfs.c:358-364 | The types from 0x400 to 0x4ff are splices, the lower half of them creating that many entries and the upper half deleting some. |
| TagWords.BigEndian | Middleware/LittleFS/lfs_util.h:193-207 | A word on disk has its highest byte first. |
| TagWords.Layout | Middleware/LittleFS/lfs.c:326-368 | The word whose number is type * 2^20 + id * 2^10 + size reads as that type, id and size, with or without the valid bit, for every type of 11 bits and every id and size of 10; an all-ones size stands for no data. |
| TagWords.FlipMeans | Middleware/LittleFS/lfs.c:868-871 | The valid bit that a crc tag asks to be flipped in the next tag is the lowest bit of its type. |
| TagWords.HoldsLast | Middleware/LittleFS/lfs.c:667-676 | The newest record of a block lies where the size in its tag says, and its stored word is the tag exclusive-or the one before it. |
| TagWords.Back | Middleware/LittleFS/lfs.c:668-676 | One step back through the exclusive-or chain yields the previous tag, whatever the valid bit that a crc tag may have flipped. |
| TagWords.GetSlice | Middleware/LittleFS/lfs.c:651-711 | The byte-level backward scan of a block returns the tag, with the id asked for, and the slice (zero filled) of the attribute that the lookup on the log finds, or no entry; with a pending move it answers as the moved lookup. A slice that would leave the block is reported as corrupt. What the fields of a word are is stated by TagWords.Layout. |
| TagWords.SliceExact | Middleware/LittleFS/lfs.c:694-703 | Whatever is stored behind the attribute, a slice shows the part of the attribute it names if and only if it starts with the attribute, or does not reach over its end. |
| TagWords.Forth | Middleware/LittleFS/lfs.c:858-871 | Reading forwards, every stored word unchains to the tag of its record. |
| TagWords.ReadForward | Middleware/LittleFS/lfs.c:856-871 | The forward scan of a block by the traversal reads exactly the records of the log. |
| TagWords.Commit.CommitAttr | Middleware/LittleFS/lfs.c:1523-1567 | Committing an attribute extends the block to one that holds the log with that record, or returns no-space exactly when it does not fit and changes nothing. |
| TagWords.WriteThenRead | Middleware/LittleFS/lfs.c:1523-1567 | An attribute committed in the layout of tag words and then asked for by its type and id comes back with its data, for every type, id and size that fits its field and stands for an entry; it is refused exactly when it does not fit the block. |
| Compaction.FilteredLookup | Middleware/LittleFS/lfs.c:782-810 | Filtering by one later tag keeps every lookup by class or by exact user attribute, with ids moved through created and deleted entries, but for what the tag itself supersedes. |
| Compaction.SurvivorsLookup | Middleware/LittleFS/lfs.c:782-810 | Among the records that survive filtering, every lookup by class or by exact user attribute finds what it finds in the original log, for every id. |
| Compaction.CompactionPreserves | Middleware/LittleFS/lfs.c:1905-1912 | For every log with its pending attributes and every id in the range, a lookup by class or by exact user attribute gives in the compacted log what it gives in the original one at the shifted id. |
| Compaction.CompactionMeaning | Middleware/LittleFS/lfs.c:842-1034 | Replaying the compacted log gives the entries from begin to end, each answering every query by class or by exact user attribute as before. |
| Compaction.CompactionMeaningFine | Middleware/LittleFS/lfs.c:788-800 | To a finer query, such as the one for the name of an entry, each of them answers its newest name or struct when that agrees with the query, and nothing otherwise. |
| Compaction.FineLookup | Middleware/LittleFS/lfs.c:788-800 | A lookup finer than the filter gives, after compaction, the newest name or struct or nothing; it is unchanged if and only if it found nothing before or the newest one agrees. |
| Compaction.FinerLookupChanges | Middleware/LittleFS/lfs.c:788-792 | Concrete log on which a lookup of an inline struct by its exact type differs before and after compaction. |
| Compaction.TrailerInvisible | Middleware/LittleFS/lfs.c:1920-1966 | The tail, global state and crc tags written behind the entries change no lookup of an entry. |
| Compaction.CompactShape | Middleware/LittleFS/lfs.c:1974-1974 | The compacted log is well formed over end - begin entries and creates or deletes none. |
| Compaction.CollectedSurvivors | Middleware/LittleFS/lfs.c:889-930 | Filtering each record by all later ones, as the suspended traversal does, keeps exactly the survivors of tag-by-tag filtering. |
| Traversal.Suspend | Middleware/LittleFS/lfs.c:894-923 | A tag that later ones may make redundant suspends its level; the stack has room for it, and what remains to be written is unchanged. |
| Traversal.Traverse | Middleware/LittleFS/lfs.c:842-1034 | The single loop with its explicit stack of two frames ends, and hands out what the nested levels of commit, move and filter come to, for appending and for compacting. |
| PendingAttrs.MoveWrites | Middleware/LittleFS/lfs.c:971-985 | A move writes the structs and user attributes of the old entry that survive in its directory, under the new id. |
| PendingAttrs.AppendWrites | Middleware/LittleFS/lfs.c:2172-2176 | A commit appends what its attributes come to, no-ops and moves included. |
| PendingAttrs.CompactionWrites | Middleware/LittleFS/lfs.c:1905-1912 | With pending attributes, moves and no-ops among them, a compaction writes the compacted form of the log they come to. |
| PendingAttrs.WrittenMeant | Middleware/LittleFS/lfs.c:935-985 | What a move writes answers every lookup by class or by exact user attribute as if all attributes of the old entry had been copied. |
| PendingAttrs.CompactionMeant | Middleware/LittleFS/lfs.c:1905-1912 | Compaction with pending moves answers every such lookup in the range like the log with what the attributes stand for. |
| PendingAttrs.CompactionMeantFine | Middleware/LittleFS/lfs.c:1905-1912 | And every finer lookup with the newest name or struct they leave, when that agrees with the query. |
| PendingAttrs.RenameReady | Middleware/LittleFS/lfs.c:3923-3933 | The attributes of every rename, within a pair or across pairs, replacing an entry or not, are of the kind compaction is right for. |
| PendingAttrs.RenameMeant | Middleware/LittleFS/lfs.c:3923-3933 | The attributes of a rename stand for the removal of a replaced entry, the new entry with all that is moved, and the removal of the old one within the same pair. |
| PendingAttrs.ReplayAll | Middleware/LittleFS/lfs.c:2157-2224 | Committing records to a log is applying them to its entries. |
| PendingAttrs.RenameCommitted | Middleware/LittleFS/lfs.c:3919-3933 | The first commit of a rename, appended or compacted on the way, leaves a log that answers every lookup by class or by exact user attribute as the renamed entries do. |
| PendingAttrs.RenameCommittedFine | Middleware/LittleFS/lfs.c:3919-3933 | Finer lookups in that log: compacted, they give the newest name or struct of the renamed entries when it agrees with the query, and nothing otherwise; appended to, they give it whenever it agrees. |
| PendingAttrs.RenamedNameRead | Middleware/LittleFS/lfs.c:1339-1340 | The query by which names are read (mask 0x780) reads the new name back for the renamed entry, from the log appended to and from the compacted one. |
| MetadataPair.ScmpNext | Middleware/LittleFS/lfs_util.h:163-167 | The next revision count compares newer, also when the 32-bit count wraps around. |
| MetadataPair.ScmpMeans | Middleware/LittleFS/lfs_util.h:163-167 | The comparison is the difference modulo 2^32, as a number of 32 bits with a sign. |
| MetadataPair.FetchCurrent | Middleware/LittleFS/lfs.c:1051-1082 | Whatever the order of the blocks and their revision counts, the fetch finds the block that counts. |
| MetadataPair.FetchCorrupt | Middleware/LittleFS/lfs.c:1051-1082 | It reports corruption if and only if neither block holds a closed commit. |
| MetadataPair.FetchTied | Middleware/LittleFS/lfs.c:1061-1082 | Of two blocks with commits of which neither is newer the first one counts. |
| MetadataPair.ScanServes | Middleware/LittleFS/lfs.c:1093-1161 | For every content of a block the scan closes exactly the records that have an accepted crc behind them, in their order, counts the accepted crcs, and stops if and only if some crc does not vouch. Accepted is a crc when it and all before it are over what lies between it and the crc before, the first one of the block over the revision count as well. |
| MetadataPair.ErasedMeans | Middleware/LittleFS/lfs.c:1256-1273 | The storage behind the commits counts as erased if and only if the last item is an accepted crc with the promise, and it is erased. |
| MetadataPair.ScanCut | Middleware/LittleFS/lfs.c:1093-1161 | A commit cut off before its crc closes nothing; with its crc it closes exactly its records. |
| MetadataPair.AppendAtomic | Middleware/LittleFS/lfs.c:2157-2224 | An append cut off after any number of items leaves a pair that fetches as the directory before, or after when the last item is in. |
| MetadataPair.CompactAtomic | Middleware/LittleFS/lfs.c:1870-1983 | A compaction cut off during erase, header or any item fetches as the directory before; complete, as the new one, under the next revision count. |
| MetadataPair.RewrittenAlike | Middleware/LittleFS/lfs.c:1905-1966 | What compaction writes answers every lookup by class or by exact user attribute like the log it compacts. |
| MetadataPair.NextSound | Middleware/LittleFS/lfs.c:2157-2238 | One commit, appended or compacted and cut off anywhere, leaves a readable pair that answers lookups by class or by exact user attribute as the completed commits say. |
| MetadataPair.RunSound | Middleware/LittleFS/lfs.c:1036-1296 | After every run of commits and power losses the next fetch answers lookups by class or by exact user attribute exactly as the completed commits say. |
| MetadataPair.NextSoundFine | Middleware/LittleFS/lfs.c:2157-2238 | Finer lookups of names and structs: one commit keeps that the pair on disk answers as the completed commits say, or as their newest name or struct does. |
| MetadataPair.RunSoundFine | Middleware/LittleFS/lfs.c:1036-1296 | After every run of commits and power losses the same holds of every lookup of a name or struct that is finer than its class, the query for names and the one for the superblock among them. |
| MetadataPair.SettledNow | Middleware/LittleFS/lfs.c:4297-4299 | Where the newest name or struct of an entry agrees with such a query, or the query finds nothing in the completed commits, disk and completed commits answer alike. |
| MetadataPair.SettledExactly | Middleware/LittleFS/lfs.c:788-800 | And only there: for every other finer lookup a compaction of the directory as it is changes the answer. |
| MetadataPair.FetchBlock | Middleware/LittleFS/lfs.c:1093-1246 | The loop serves exactly the records that have an accepted crc behind them, counts the accepted crcs, and gathers from those records, and only those, the best tag for a name, the number of entries and the tail. |
| MetadataPair.TailMeans | Middleware/LittleFS/lfs.c:1194-1206 | The tail is the last pointer among the records; there is none if and only if no record is a pointer. |
| MetadataPair.PointsOnTypes | Middleware/LittleFS/lfs.c:346-348 | Pointers are the records of types 0x600 to 0x6ff. |
| MetadataPair.TailCommitted | Middleware/LittleFS/lfs.c:1920-1933 | After a completed commit, appended or compacted, a fetch reports the last pointer the commit has written. |
| MetadataPair.FetchPair | Middleware/LittleFS/lfs.c:1051-1296 | The fetch takes the newer block, or the other one when that holds no closed commit, or reports corruption when neither does; of the name it reports what the scan of the closed commits with the pending move on top finds, and of the tail the last pointer. |
| MetadataPair.AppendCommit | Middleware/LittleFS/lfs.c:2157-2224 | Programmed item by item, the append passes through states that all fetch as before or after. |
| MetadataPair.CompactCommit | Middleware/LittleFS/lfs.c:1870-1983 | Erased, headed and programmed item by item, the compaction passes through states that all fetch as before or after. |
| NameMatch.MatchEqual | Middleware/LittleFS/lfs.c:1370-1392 | Two names compare equal only when they are the same. |
| NameMatch.MatchTrans | Middleware/LittleFS/lfs.c:1370-1392 | The comparison orders names; of two names one of which continues the other, the longer one comes first. |
| NameMatch.ScanTracks | Middleware/LittleFS/lfs.c:1183-1246 | For every orderly log the best tag kept through splices, overwritten names and greater names is valid exactly for the entry that goes by the name. |
| NameMatch.OrderlyExactly | Middleware/LittleFS/lfs.c:1183-1246 | The scan is right for every name after every record of a log if and only if the log is orderly: names are given in order, not to two entries, and entries that go leave nothing in their deleting tag. |
| NameMatch.OrderMatters | Middleware/LittleFS/lfs.c:1241-1245 | A well-formed log whose entries have different names, not in order, in which the scan loses an entry. |
| NameMatch.FetchExact | Middleware/LittleFS/lfs.c:1275-1296 | For every orderly log and every pending move, the fetch returns entry id if and only if that is an entry of the replayed log without the moved one, and its newest name is the one looked for. |
| NameMatch.CountRight | Middleware/LittleFS/lfs.c:1176-1185 | The number of entries counted from name and splice tags is that of the replayed log when every entry the log starts from has a name. |
| NameOrder.CountKept | Middleware/LittleFS/lfs.c:1176-1185 | In a directory kept sorted by name it always is. |
| NameOrder.FetchPlace | Middleware/LittleFS/lfs.c:1275-1296 | In a directory kept sorted by name, whatever move is pending, the fetch finds the entry of that name among the others; when there is none it reports the place where the name keeps them sorted, and that the search goes on only when all names, that of the moved entry among them, are smaller. |
| NameOrder.SearchEnds | Middleware/LittleFS/lfs.c:1275-1296 | The search goes on if and only if they all are, but for one case: with a move pending, and the best tag left behind the last entry by the deletion of a greater name, it ends although it should go on. |
| NameOrder.EndsEarly | Middleware/LittleFS/lfs.c:1279-1294 | A sorted directory in which that happens. |
| NameCommits.SteadyKept | Middleware/LittleFS/lfs.c:2157-2224 | A commit that gives names to new entries at their places keeps the directory sorted and every entry named. |
| NameCommits.CompactKept | Middleware/LittleFS/lfs.c:1870-1983 | Compaction keeps the directory sorted, with the same names. |
| NameCommits.RunNamed | Middleware/LittleFS/lfs.c:1036-1296 | Over every run of such commits, compactions and power losses the pair on disk stays sorted, with the names that the completed commits leave. |
| NameCommits.RunResolves | Middleware/LittleFS/lfs.c:1036-1296 | After every such run, every name is found, or has its place, on disk as the completed commits say. |
| GlobalState.MaskedMeans | Middleware/LittleFS/lfs.c:2190-2190 | What is written of two states is the same if and only if they differ in nothing but the number of orphans, which reads as zero; the mark that there are any is written. |
| GlobalState.CommitDelta | Middleware/LittleFS/lfs.c:2186-2204 | The delta a commit adds takes the sum of the deltas on disk from the old global state to the new one, including what was stolen from a dropped pair. |
| GlobalState.Lfs.Written | Middleware/LittleFS/lfs.c:1935-1959 | The delta written is the own one exclusive-or the masked difference; a relocating compaction leaves out the states in memory, an append writes nothing for a zero difference. |
| GlobalState.Lfs.Commit | Middleware/LittleFS/lfs.c:2185-2224 | A commit in place keeps the sum of the deltas of the linked pairs equal to the state on disk, which becomes the one in memory. |
| GlobalState.Lfs.Relocate | Middleware/LittleFS/lfs.c:1935-1983 | A relocating compaction moves the pair with its delta and leaves the state on disk as it was. |
| GlobalState.Lfs.Drop | Middleware/LittleFS/lfs.c:2335-2353 | Dropping a pair keeps its delta in the sum by stealing it into the commit to its predecessor. |
| GlobalState.Lfs.DropAndRelocate | Middleware/LittleFS/lfs.c:2335-2353 | The same when that commit relocates the predecessor. |
| GlobalState.Lfs.Link | Middleware/LittleFS/lfs.c:2185-2224 | Linking a relocated pair in makes it part of the chain on disk without changing the sum. |
| GlobalState.Lfs.Mount | Middleware/LittleFS/lfs.c:4257-4404 | Mounting after a power loss reconstructs, outside the bits that are not written, the state of the last commit that reached the chain, and counts one orphan exactly when the state is marked to have any. |
| StateRecords.LittleEndian | Middleware/LittleFS/lfs_util.h:170-190 | The words of the state have their lowest byte first. |
| StateRecords.StateRoundTrip | Middleware/LittleFS/lfs.c:429-442 | The state is stored as its tag and the two blocks of the pair, in this order, and read back unchanged. |
| StateRecords.AppendDelta | Middleware/LittleFS/lfs.c:2185-2204 | The record that an append writes, or leaves out, changes the delta read from the log by exactly the masked difference of the states. |
| StateRecords.CompactDelta | Middleware/LittleFS/lfs.c:1935-1959 | So does the one that a compaction writes, or leaves out. |
| StateRecords.SumMoves | Middleware/LittleFS/lfs.c:1312-1328 | A change of one delta by the masked difference takes the sum over all pairs from the old state to the new one. |
| StateRecords.MovePrepared | Middleware/LittleFS/lfs.c:424-427 | A prepared move of an entry of a pair is pending, under its id, for exactly the pairs that have a block in common with it, whatever the order of the blocks; a cleared one for none. |
| StateRecords.OrphansKept | Middleware/LittleFS/lfs.c:4654-4661 | Preparing or clearing a move leaves the number of orphans and their mark alone. |
| Rename.ViewIsLookup | Middleware/LittleFS/lfs.c:658-663 | What is seen of a pair with a pending move is what lookups in a log of its entries answer. |
| Rename.MovedAnswers | Middleware/LittleFS/lfs.c:953-983 | The attributes a move takes along answer every struct and user-attribute query as the old entry did. |
| Rename.ApplyNewEntry | Middleware/LittleFS/lfs.c:3923-3928 | The attributes of the first commit put the renamed entry at its place, replacing the one there if there is one. |
| Rename.RenamedOnce | Middleware/LittleFS/lfs.c:3919-3948 | In a renamed state the struct of the moved file is seen at the new place and nowhere else. |
| Rename.DemovedSame | Middleware/LittleFS/lfs.c:4703-4735 | Finishing a pending move changes nothing that is seen of any pair. |
| Rename.Fs.Demove | Middleware/LittleFS/lfs.c:4703-4735 | Deletes the moved entry and clears the pending move in one commit. |
| Rename.Fs.Rename | Middleware/LittleFS/lfs.c:3836-3948 | After either commit the old entry is gone and the new one there; what a mount between them finishes is what the second commit writes; within one pair a single commit does both; errors change nothing. |
| RenameByName.FirstCommit | Middleware/LittleFS/lfs.c:3919-3933 | After the first commit, appended or compacted, the new name finds the new entry with the struct that the old one held, every other name finds something exactly when it did before, and the directory is still sorted. |
| RenameByName.WhilePending | Middleware/LittleFS/lfs.c:1275-1283 | As long as the move is pending, the old name finds nothing in the old directory, and every other name finds something exactly when it did before. |
| RenameByName.SecondCommit | Middleware/LittleFS/lfs.c:3937-3946 | The second commit, or the recovery at a later mount, leaves it that way. |
| RenameByName.RenameWithin | Middleware/LittleFS/lfs.c:3923-3933 | Within one pair a single commit takes the old name away and gives the new one what the old one held. |
| RenameCrash.CommitLog | Middleware/LittleFS/lfs.c:2157-2224 | A commit programmed to its last item leaves the log of its attributes, with the delta that takes the global state along. |
| RenameCrash.FirstStep | Middleware/LittleFS/lfs.c:3919-3933 | Power lost at any item of the first commit: before the last item the file is found under its old name; with it, under its new name only, and the mount sees the move as pending, in whichever order the blocks of the two pairs are fetched. |
| RenameCrash.SecondStep | Middleware/LittleFS/lfs.c:3937-3946 | Power lost at any item of the second commit, by the rename or by the mount that finishes it, in whichever order the blocks are fetched: the file is found under its new name only, and with the last item nothing is pending. |
| Bits.Npw2 | Middleware/LittleFS/lfs_util.h:126-140 | The smallest exponent whose power of two is not below a, for every a of 32 bits but for 1, which gives 1, and 0, which gives 32. |
| Bits.PopcPred | Middleware/LittleFS/lfs_util.h:142-161 | One less trades the lowest one for ones below it. |
| CtzIndex.BeforeClosed | Middleware/LittleFS/lfs.c:2756-2767 | The bytes before block i, summed block by block, in closed form by popcount. |
| CtzIndex.IndexExact | Middleware/LittleFS/lfs.c:2756-2767 | In blocks of at least 112 bytes the estimate gives the block and offset of every position below 2^31. |
| CtzIndex.IndexInexact | Middleware/LittleFS/lfs.c:2756-2767 | In every smaller block size there is a position the estimate misplaces. |
| CtzIndex.IndexExactness | Middleware/LittleFS/lfs.c:2756-2767 | The estimate is right for all positions if and only if blocks have at least 112 bytes. |
| CtzIndex.InitChecks | Middleware/LittleFS/lfs.c:4071-4077 | Blocks of at least 128 bytes pass the second check as well, and the estimate is right for all positions in them. |
| CtzIndex.PointersCheckAlone | Middleware/LittleFS/lfs.c:4074-4077 | The check for the pointers alone would let 104 bytes pass, for which the estimate is not always right. |
| CtzList.PtrDigits | Middleware/LittleFS/lfs.c:2782-2794 | Pointers are stored with their lowest byte first. |
| CtzList.Hop | Middleware/LittleFS/lfs.c:2782-2796 | A hop never overshoots the target and uses up one of the hops allowed. |
| CtzList.NextPosition | Middleware/LittleFS/lfs.c:2826-2852 | The position behind the last byte is the next one of its block, or the data of the next block. |
| CtzList.Find | Middleware/LittleFS/lfs.c:2769-2801 | Reaches exactly the block and offset of the position, in at most popcount(last) + bitlen(last - target) hops. |
| CtzList.Traverse | Middleware/LittleFS/lfs.c:2903-2944 | Calls back exactly once for every block of the file, from the last to the first. |
| CtzExtend.Flash.CopyBytes | Middleware/LittleFS/lfs.c:2831-2848 | Copies the bytes of the incomplete block, programs erased bytes only and touches no other block. |
| CtzExtend.Flash.ProgPointers | Middleware/LittleFS/lfs.c:2855-2882 | Pointer j of the new block leads back by the j-th power of two, for all j up to its number of trailing zeros; only erased bytes are programmed. |
| CtzExtend.Flash.Extend | Middleware/LittleFS/lfs.c:2804-2893 | A fresh block for the next position, erased from there on, after which the list holds the same bytes and no block in use was touched. |
| CtzExtend.Appended | Middleware/LittleFS/lfs.c:2855-2886 | A block with its pointers behind a full file leaves the file as it was. |
| FileUpdate.Programmed | Middleware/LittleFS/lfs.c:3499-3520 | Programming bytes at the end of a list appends exactly them to the file. |
| FileUpdate.File.ExtendFrom | Middleware/LittleFS/lfs.c:3478-3487 | Extending the list under construction leaves the list on record untouched. |
| FileUpdate.File.Open | Middleware/LittleFS/lfs.c:3459-3497 | Provides a block for the write position whose list holds exactly the bytes before it. |
| FileUpdate.File.FlushedWrite | Middleware/LittleFS/lfs.c:3440-3526 | The list under construction grows by exactly the data, no byte is programmed twice, and the list on record keeps its bytes. |
| FileUpdate.File.Flush | Middleware/LittleFS/lfs.c:3227-3305 | Copies the rest of the old file behind what was written and puts the new list on record; the old list still reads the old bytes. |
| FileUpdate.File.RawWrite | Middleware/LittleFS/lfs.c:3528-3569 | Refuses files beyond the limit, starts at the end when appending, fills a gap with zeros and writes. |
| FileUpdate.File.WriteAt | Middleware/LittleFS/lfs.c:3440-3569 | Writing d at p and flushing gives old[..p] + d + old[p+|d|..] (a gap filled with zeros, and p moved to the end when appending) while the old head and size still read the old bytes. |
| Allocator.Free.NewWindow | Middleware/LittleFS/lfs.c:635-641 | The next window says of each of its blocks whether the traversal reported it, and never exceeds the budget. |
| Allocator.Free.Look | Middleware/LittleFS/lfs.c:605-616 | Every block looked at is a new one since the acknowledgement. |
| Allocator.Free.Alloc | Middleware/LittleFS/lfs.c:603-647 | Hands out a block that was neither handed out since the acknowledgement nor reported by the scan of its window; no-space only when every block was handed out or reported since. |
| BlockDevice.BypassProgress | Middleware/LittleFS/lfs.c:91-105 | Reads past the cache always read something if and only if program units are made of whole read units. |
| BlockDevice.LoadProgress | Middleware/LittleFS/lfs.c:107-116 | A load covers the offset if and only if the hint is positive or the offset lies within a unit. |
| BlockDevice.Device.Load | Middleware/LittleFS/lfs.c:107-121 | The loaded cache is coherent and holds the offset asked for. |
| BlockDevice.Device.ReadSome | Middleware/LittleFS/lfs.c:52-122 | One round returns bytes of the block as the program cache has them, or loads what the next round reads. |
| BlockDevice.Device.Read | Middleware/LittleFS/lfs.c:44-125 | Returns exactly the bytes of the device overlaid by the program cache, for every offset, size and positive hint, or reports an access out of range. |
| BlockDevice.Device.Cmp | Middleware/LittleFS/lfs.c:127-152 | Tells whether a stretch of the block equals the buffer, and otherwise which of the two is smaller in the first byte that differs. |
| BlockDevice.ComparedOnce | Middleware/LittleFS/lfs.c:127-152 | Of the three answers at most one is right. |
| BlockDevice.Device.Flush | Middleware/LittleFS/lfs.c:176-208 | Programs whole units with the cached bytes, finds them on the device when it validates, and clears the cache. |
| BlockDevice.Device.Prog | Middleware/LittleFS/lfs.c:227-271 | The block then reads as before with the data laid over it, and no other block changes, wherever in an empty cache or in the cached stretch the data goes, gaps in erased storage included. |
| BlockDevice.Device.Sync | Middleware/LittleFS/lfs.c:211-222 | What was appended to erased storage is on the device, and nothing else has changed. |
| BlockDevice.Device.ProgAll | Middleware/LittleFS/lfs.c:211-271 | However the data is split into contiguous writes, and wherever they start, programming them and syncing puts their concatenation on the erased storage. |
| TailList.Meets | Middleware/LittleFS/lfs.c:4262-4275 | A tortoise far enough along is met again within as many steps as there are pairs. |
| TailList.Walk | Middleware/LittleFS/lfs.c:4257-4281 | Ends on every graph of tails after at most 3n + 2 fetches, reports a cycle only at a pair visited before, and visits every pair of an acyclic list exactly once. |
| MpiCore.Add | Middleware/mbedtls/library/bignum_core.c:356-372 | Sum of two numbers of any length with its carry. |
| MpiCore.AddIf | Middleware/mbedtls/library/bignum_core.c:374-394 | The addend is added exactly when the condition is set. |
| MpiCore.Sub | Middleware/mbedtls/library/bignum_core.c:396-411 | Difference modulo R, and a borrow exactly when the first number is smaller. |
| MpiCore.MulAdd | Middleware/mbedtls/library/bignum_core.c:413-448 | The accumulator grows by s times b, the carry running on through the rest of it. |
| MpiCore.CondAssign | Middleware/mbedtls/library/bignum_core.c:158-168 | Assigns exactly when told to. |
| MpiCore.TableLookup | Middleware/mbedtls/library/bignum_core.c:533-544 | Copies exactly the row with that index. |
| MpiCore.LessThan | Middleware/mbedtls/library/constant_time.c:804-842 | Decides which number is smaller, from the highest limb down without stopping early. |
| MpiMont.NewtonStep | Middleware/mbedtls/library/bignum_core.c:454-465 | A Newton step doubles the number of bits of the inverse that are right. |
| MpiMont.MontMulInit | Middleware/mbedtls/library/bignum_core.c:454-465 | The constant times the lowest limb is -1 modulo 2^biL. |
| MpiMont.MontLoop | Middleware/mbedtls/library/bignum_core.c:484-495 | After all rounds the accumulator is below 2N, and R times it is A times B modulo N, no carry being lost. |
| MpiMont.MontMul | Middleware/mbedtls/library/bignum_core.c:467-517 | The result is below N, and R times it is A times B modulo N, for every limb count, any A and any B not above N. |
| MpiExp.RadixInvertible | Middleware/mbedtls/library/bignum_core.c:454-465 | The Montgomery constant shows R to be invertible modulo N. |
| MpiExp.MulRep | Middleware/mbedtls/library/bignum_mod_raw.c:136-145 | The product of two representatives represents the product modulo N. |
| MpiExp.PrecomputeWindow | Middleware/mbedtls/library/bignum_core.c:661-686 | Row i of the table represents the i-th power of the base. |
| MpiExp.ExpBit | Middleware/mbedtls/library/bignum_core.c:738-776 | Each bit keeps the invariant: X stands for the power of the exponent read so far less the bits in the window. |
| MpiExp.ExpLoop | Middleware/mbedtls/library/bignum_core.c:730-778 | All bits of all limbs are read, for every exponent, limb count and window size. |
| MpiExp.ExpMod | Middleware/mbedtls/library/bignum_core.c:700-781 | The result is the Montgomery representative of a to the E modulo N. |
| MpiModRaw.RawSub | Middleware/mbedtls/library/bignum_mod_raw.c:113-121 | A - B reduced modulo N. |
| MpiModRaw.RawAdd | Middleware/mbedtls/library/bignum_mod_raw.c:188-197 | A + B reduced modulo N. |
| MpiModRaw.RawNeg | Middleware/mbedtls/library/bignum_mod_raw.c:281-291 | -A reduced modulo N, zero for zero. |
| Fermat.LittleTheorem | Middleware/mbedtls/library/bignum_mod_raw.c:166-170 | Fermat's little theorem, which the inversion rests on: a^(p-1) is 1 modulo a prime p that does not divide a. |
| MpiModRaw.RawInvPrime | Middleware/mbedtls/library/bignum_mod_raw.c:159-179 | For an odd prime N and a nonzero A the result is the inverse in Montgomery form. |
| MpiMod.Modulus.Setup | Middleware/mbedtls/library/bignum_mod.c:139-170 | Sets up the constants of the chosen representation, or fails and leaves an unusable modulus; only the Montgomery representation asks for an odd modulus. |
| MpiMod.MontSquare | Middleware/mbedtls/library/bignum_mod.c:101-137 | R * R reduced modulo N, or failure exactly at the size limit. |
| MpiMod.ToMontRep | Middleware/mbedtls/library/bignum_core.c:818-827 | A * R modulo N. |
| MpiMod.FromMontRep | Middleware/mbedtls/library/bignum_core.c:829-839 | A / R modulo N. |
| MpiMod.InverseCanonical | Middleware/mbedtls/library/bignum_mod.c:235-268 | Inverting the representative and leaving Montgomery form gives the inverse of the value. |
| MpiMod.InvNonMont | Middleware/mbedtls/library/bignum_mod.c:235-268 | The product with A is 1 modulo N, or setting up the modulus fails and X is unchanged. |
| MpiMod.ModInv | Middleware/mbedtls/library/bignum_mod.c:270-311 | The modular inverse in the representation of the modulus, or exactly the documented errors with X unchanged. |
| MpiBytes.ByteIsDigit | Middleware/mbedtls/library/bignum_core.c:243-275 | The bytes of the limbs are the base-256 digits of the number. |
| MpiBytes.FitsWhenHighZero | Middleware/mbedtls/library/bignum_core.c:257-263 | A number fits into n bytes if and only if its bytes from n on are zero. |
| MpiBytes.WriteLe | Middleware/mbedtls/library/bignum_core.c:243-275 | Writes the number little-endian, zero filled; too small a buffer is reported exactly when the number does not fit, and then left alone. |
| MpiBytes.WriteBe | Middleware/mbedtls/library/bignum_core.c:277-314 | The same big-endian. |
| MpiMod.RawFromMontRep | Middleware/mbedtls/library/bignum_mod_raw.c:264-279 | Leaves the number that the residue stands for. |
| MpiMod.RawToMontRep | Middleware/mbedtls/library/bignum_mod_raw.c:246-262 | Brings back the limbs its counterpart started from. |
| MpiMod.ModWrite | Middleware/mbedtls/library/bignum_mod.c:380-419 | Emits the number the residue stands for in either byte order, or exactly the documented errors, and leaves the residue unchanged. |
| MpiInput.ReadLe | Middleware/mbedtls/library/bignum_core.c:189-209 | Reads the number little-endian; too few limbs are reported exactly when the string, zeros included, is longer than they are, and then left alone. |
| MpiInput.BigEndianLimb | Middleware/mbedtls/library/bignum_core.c:71-104 | The bytes of a limb, accumulated one by one, are the limb with its bytes in the opposite order. |
| MpiInput.BigEndianToHost | Middleware/mbedtls/library/bignum_core.c:106-134 | Working in place from both ends, all limbs end up in the opposite order with their bytes swapped. |
| MpiInput.SwappedValue | Middleware/mbedtls/library/bignum_core.c:228-239 | Swapping all limbs of a stored string makes them the number it stands for in big-endian order. |
| MpiInput.ReadBe | Middleware/mbedtls/library/bignum_core.c:211-241 | The same as the little-endian read, big-endian. |
| MpiInput.RawRead | Middleware/mbedtls/library/bignum_mod_raw.c:54-87 | Accepts exactly the numbers below the modulus that the limbs have room for. |
| MpiInput.ModRead | Middleware/mbedtls/library/bignum_mod.c:351-378 | Afterwards the residue stands for the number read, in the representation of the modulus; otherwise exactly the documented errors. |
| MpiInput.ReadsBack | Middleware/mbedtls/library/bignum_mod.c:351-419 | Reading what was written brings back the same limbs, if and only if the string is no longer than the limbs; a longer one is refused although its surplus is zero. |
| AriaField.InverseUnique | Middleware/mbedtls/library/aria.c:184-287 | With multiplication modulo x^8 + x^4 + x^3 + x + 1, every byte has exactly one inverse, zero itself; the boxes of section 2.4.2 of RFC 5794 are defined by it. |
| AriaField.FirstBoxMeans | Middleware/mbedtls/library/aria.c:185-209 | The first table holds exactly the affine image of the inverse. |
| AriaField.FirstBoxUndone | Middleware/mbedtls/library/aria.c:237-261 | The third table holds exactly the byte of which the first box makes this one. |
| AriaField.SecondBoxMeans | Middleware/mbedtls/library/aria.c:211-235 | The second table holds exactly the affine image of the power 247, the eighth power of the inverse. |
| AriaField.SecondBoxUndone | Middleware/mbedtls/library/aria.c:263-287 | The fourth table holds exactly the byte of which the second box makes this one. |
| AriaSBox.FirstBox | Middleware/mbedtls/library/aria.c:185-261 | The table of the inverse of the first box undoes it. |
| AriaSBox.FirstBoxBack | Middleware/mbedtls/library/aria.c:185-261 | The first box undoes its inverse. |
| AriaSBox.SecondBox | Middleware/mbedtls/library/aria.c:211-287 | The table of the inverse of the second box undoes it. |
| AriaSBox.SecondBoxBack | Middleware/mbedtls/library/aria.c:211-287 | The second box undoes its inverse. |
| Aria.DiffuseLinear | Middleware/mbedtls/library/aria.c:127-149 | The diffusion of a sum is the sum of the diffusions. |
| Aria.DiffuseTwice | Middleware/mbedtls/library/aria.c:127-149 | The diffusion undoes itself. |
| Aria.AriaA | Middleware/mbedtls/library/aria.c:127-149 | The word-by-word steps compute the diffusion of section 2.4.3 of RFC 5794. |
| Aria.SubstituteMeans | Middleware/mbedtls/library/aria.c:159-180 | In both kinds of rounds the layer puts each byte of a word through the box it is due, in field arithmetic: the first and second box and their inverses in odd rounds, the inverses first in even ones; nothing else is a substitution of the block. |
| Aria.SubstituteBack | Middleware/mbedtls/library/aria.c:159-180 | The two substitution layers undo each other. |
| Aria.Backwards | Middleware/mbedtls/library/aria.c:461-513 | Round by round, decryption passes through the states of encryption, one diffusion ahead. |
| Aria.DecryptInverts | Middleware/mbedtls/library/aria.c:461-513 | For every even round count, all round keys and every block, the cipher under the decryption keys undoes the cipher. |
| Aria.EncryptInverts | Middleware/mbedtls/library/aria.c:461-513 | And the cipher undoes decryption. |
| Aria.Context.CryptEcb | Middleware/mbedtls/library/aria.c:461-513 | The loop computes the cipher, for every even round count and all round keys; what that is, is stated by Aria.SubstituteMeans, Aria.AriaA and the known answers. |
| Aria.Context.SetkeyDec | Middleware/mbedtls/library/aria.c:428-456 | The round keys become those for decryption. |
| AriaKeys.RotatesExactly | Middleware/mbedtls/library/aria.c:340-360 | The word-wise shifts put bit p + n in the place of bit p, in blocks of 128 bits, if and only if n is not a multiple of 32, which none of the rotations of the key schedule is. |
| AriaKeys.Rot128 | Middleware/mbedtls/library/aria.c:340-360 | The loop adds the rotated block. |
| AriaKeys.SetkeyEnc | Middleware/mbedtls/library/aria.c:365-423 | The round keys and the number of rounds are those of the schedule for keys of 128, 192 and 256 bits; other lengths are refused and change nothing. |
| AriaKeys.SetkeyDec | Middleware/mbedtls/library/aria.c:428-456 | For decryption, those of the schedule turned round. |
| AriaKeys.KeyInverts | Middleware/mbedtls/library/aria.c:365-513 | Under every key of either length a block encrypts to another if and only if that one decrypts to it. |
| AriaVectors.KnownAnswer | Middleware/mbedtls/library/aria.c:707-723 | From the key to the ciphertext, the example of appendix A.1 of RFC 5794 comes out. |
| AriaVectors.KnownBack | Middleware/mbedtls/library/aria.c:707-723 | And back. |
| AriaVectors192.KnownAnswer | Middleware/mbedtls/library/aria.c:724-725 | The example of appendix A.2, with a key of 192 bits. |
| AriaVectors256.KnownAnswer | Middleware/mbedtls/library/aria.c:726-727 | The example of appendix A.3, with a key of 256 bits. |

## Left out

What the model leaves out:

- Walking a path through its components and over the pairs of a split directory: names are looked up in one
  pair. User attribute and directory interfaces, superblock expansion, splitting of directories, orphans, bad
  blocks and migration of littlefs. Programming and erasing do not fail in the model.
- The crc polynomial and its collisions: a crc is the content it vouches for. Padding crcs are folded into
  the crc that closes the commit, and the forward crc into the promise that the storage behind is erased.
- Arithmetic on whole tag words: ids are numbers of their own. In well-formed logs they stay in range, where
  adding to the word does not carry from one field into the next.
- `Traversal.Traverse`: the callback that writes does not fail, and the pending user attributes of an open
  file are not expanded.
- `PendingAttrs.CompactionWrites`: entries are moved to new entries, and only removals come behind a move, as
  in the attributes of a rename, the only ones with a move.
- `TagWords.GetSlice` compares whole ids; the mask with which inline files are read leaves out the highest bit
  of the id. The cache that reads of inline files go through is not modelled.
- `Compaction.CompactionPreserves`: lookups by class or by exact user attribute. What finer ones give is stated
  apart (`Compaction.FineLookup`, `MetadataPair.RunSoundFine`), since compaction does change some of them.
- `MetadataPair.AppendCommit` and `MetadataPair.CompactCommit`: an item programmed in part is not one of the
  steps of the loops; it is among the states of `MetadataPair.AppendAtomic` and `MetadataPair.CompactAtomic`.
- `GlobalState.Lfs.Link`: one relocation at a time; a chain of relocations that leaves half an orphan is not
  modelled. Wrap-around of the orphan count is not either.
- `Rename.Fs.Rename`: starts after both paths were looked up and after consistency was forced; dropping a
  replaced directory is not modelled.
- `RenameCrash.FirstStep`: nothing else is pending when the rename begins, and neither pair is relocated.
- `Bits.Npw2` is the version without intrinsics. Popcount and trailing zeros are defined by recursion; their
  bit tricks are not modelled.
- `CtzExtend.Flash.Alloc` hands out any block not in use; how the allocator finds one is in `Allocator`. The
  list on record and the one under construction are on the raw device, the caches being covered by
  `BlockDevice`. Inline files are not modelled.
- `Allocator.Free.Lookahead`: the lookahead bits are an array of booleans rather than packed words.
- `BlockDevice.Device.Cmp` is for stretches within a block. Offsets near 2^32, whose sum with a size would wrap
  around, are not modelled.
- `TailList.Walk`: the period of the cycle detection is unbounded, where the source has 32 bits.
- `MpiCore.MulAdd`: one multiply-accumulate step per limb; unrolling by eight is not modelled.
- `MpiExp.ExpMod`: the window limit is any configured value from 1 to 6.
- `MpiMod.MontSquare`: the shift and division of legacy bignums that compute R * R modulo N are not part of
  this model; the value they yield is.
- Failing memory allocation, random numbers, constant execution time and zeroing of memory.
- The modes built on the block cipher of ARIA.
- Shifting numbers right, and random residues. Limbs are stored as on a little-endian host.

In one case the code does not do what its caller relies on: `lfs_dir_find` (line 1484) goes on to the next pair of a
directory when the fetch finds this one used up, and with a move pending the fetch can fail to see that. When exactly
is stated by `NameOrder.SearchEnds`, an example is `NameOrder.EndsEarly`.

Where comments and code differ, the model follows the code:

- The fetch is said to keep track of the best match; it does for directories kept sorted by name, which is what
  littlefs writes, and exactly for orderly logs (`NameMatch.OrderlyExactly`).
- The rotation of 128 bits in the key schedule of ARIA is right for all distances but multiples of 32, which do
  not occur (`AriaKeys.RotatesExactly`).
- The comment above the exponentiation in `bignum_core.c` and its documentation in `bignum_core.h` (line 588)
  and `bignum_mod_raw.h` (line 287) describe the squared radix as 2^(2*biL) modulo N; the code needs
  2^(2*n*biL) for n limbs.
- A comment in the exponentiation says that row i of the window table is A^(2^i); the code stores A^i.
- Montgomery multiplication is documented for A and B below N; what the code needs is B not above N.
- `lfs_init` calls its second block size check exact; on its own it would let 104 bytes pass, for which the
  index estimate is not always right (`CtzIndex.PointersCheckAlone`).
