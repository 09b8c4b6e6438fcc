# LevelDB and nanopb in Dafny

A model of the two vendored libraries whose behaviour the app depends on: **LevelDB**, a log-structured key-value
store, and **nanopb**, a table-driven protobuf codec. `dafny verify dfyconfig.toml` checks everything.

The store is modelled in layers, each proved against a simple abstract object:

- *Order and cursors* (`Order`, `Cursors`). A comparator is any total order; an iterator is a position in a sorted
  sequence, or off it. `Merger`, `DbIter`, `TwoLevels` and `BlockIters` are each such a cursor, whatever mix of moves
  and turns they make. `DbIter` runs on `Merger`, and `StoreIterators` on the whole store.
- *Levels* (`Tables`, `Versions`, `Levels`, `Inputs`, `Linking`, `Picking`, `Flush`). Files in levels, the invariants
  that make the level-by-level lookup a lookup in all entries at once, and how flushes and compactions are placed.
- *Compaction* (`Drops`, `Compactions`, `CompactionInputs`, `CompactionSteps`, `CompactionEffects`, `Resurfacing`,
  `Interleaving`, `Gaps`, `Background`). What the loop drops, what the new version holds, exactly when a reader can
  tell, and what a memtable flushed in the middle of it does.
- *The database* (`Database`, `Durability`, `LogFiles`, `GroupCommit`). Reads against every update ever written, with
  writes and flushes while a compaction runs; recovery after crashes of the process and the machine; the writer queue
  with readers in between.
- *Formats* (`Coding`, `Varints`, `Crc32c`, `Crc32cVectors`, `LogFormat`, `LogWriter`, `LogReader`, `LogRoundTrip`,
  `Corruption`, `LogDamage`, `WriteBatches`, `VersionEdits`, `Manifests`, `Builders`, `VersionSets`,
  `Rejections`, `FormatExamples`). Bytes out and bytes back: whole, cut off, and damaged.
- *Tables on disk* (`Separators`, `ShortKeys`, `Blocks`, `Blooms`, `FilterBlocks`, `TableBuilders`, `TableReaders`,
  `TableFiles`).
- *In memory* (`SkipList`, with a writer and any number of readers interleaved; `HandleTables`, `LruCaches`, `Caches`).
- *nanopb* (`NanopbSchema`, `NanopbFields`, `NanopbWire`, `NanopbEncode`, `NanopbEncoders`, `NanopbDecode`,
  `NanopbDecoders`, `NanopbRoundTrip`, `NanopbUnknown`, `NanopbFailures`, `NanopbExamples`). Message descriptions as
  nested values, encoders and decoders as streams in a buffer.

An object the source updates in place is a class here; its methods are proved against functions on values, and the
results are lemmas about those functions. What such a function means is said by laws that do not name it, and for the
formats by bytes written out. `CRC32C` is the one of section 12.1 of RFC 3720, with test vectors of its appendix B.4;
nanopb's wire format is that of the sections "Base 128 Varints" and "Message Structure" of the Protocol Buffers encoding
specification.

## Findings

Properties the documentation or the comments suggest, which the code does not have. Each has a concrete input and the
exact condition.

- *A compaction can bring a deleted value back.* `SetupOtherInputs` extends the inputs at `level` over files that
  continue a user key (TeamyApp/Pods/leveldb-library/db/version_set.cc:1407 and 1422), but not `inputs_[1]`. A deletion
  may then be dropped while an older value of the key stays behind in level+1: `Resurfacing.CompactionCanUndelete`. It
  happens exactly when `Resurfaces` says, and only at the largest user key of the lower inputs:
  `CompactionEffects.CompactionKeepsReadsIff`, `ResurfacesOnlyAtBoundary`, `SafeWithoutBoundary`.
- *A memtable flushed during a manual compaction can end up where it is not found.* `PickLevelForMemTableOutput` looks
  at the files there are (TeamyApp/Pods/leveldb-library/db/version_set.cc:491-516), not at the outputs of a compaction
  that is running, although `DoCompactionWork` flushes in the middle of its loop
  (TeamyApp/Pods/leveldb-library/db/db_impl.cc:907-921). `CompactRange` may pick files with a gap between them
  (TeamyApp/Pods/leveldb-library/db/version_set.cc:1464-1495); the table can go into the gap, at the output's level, and
  then "no overlap in levels > 0" (version_set.cc:724) is broken: `Gaps.FlushLostInGap`. The levels stay in order
  exactly when `Interleaving.InterleavedIff` says. Inputs without a gap, as `PickCompaction` picks, are always safe:
  `Picking.PickCompaction`, `Interleaving.FlushKeepsUnderway`.
- *A decoded edit can carry old compaction pointers.* `VersionEdit::Clear` keeps them
  (TeamyApp/Pods/leveldb-library/db/version_edit.cc:26-39): `VersionEdits.PointerSurvives`, `ReusedObjectIff`.
- *The comparator's documented promise is too weak.* `FindShortestSeparator` may do as it likes with equal keys by its
  documentation, but internal keys of one user key then get an index key behind the next block:
  `Separators.DocumentedIsNotEnough`. They are right exactly when no key gets a shorter and larger separator from
  itself (`DocumentedSeparatesIff`; for any comparator `SeparatesIff`), as with the bytewise comparator.
- *A synced write does not save the writes before it.* Unsynced, "some recent writes may be lost"
  (TeamyApp/Pods/leveldb-library/include/leveldb/options.h:173-182), and a synced write is likened to write() and
  fsync(). But a switch of the log file closes the old one without syncing it
  (TeamyApp/Pods/leveldb-library/db/db_impl.cc:1356-1360), so an older write can be lost and a later, synced one
  survive: `Durability.OlderWriteLost`. No gap is possible exactly when `Durability.NoGapIff` says.
- *nanopb sends strings it does not accept.* `pb_enc_string` sends a string that fills its storage, `pb_dec_string`
  wants room for a zero (TeamyApp/Pods/nanopb/pb_encode.c:875-899, TeamyApp/Pods/nanopb/pb_decode.c:1471-1504):
  `NanopbRoundTrip.FullStringFails`. `Decodable` is the exact condition, in `NanopbRoundTrip.DecodesTo`.
- *A zero can come back as a default.* A field without a has_ flag is left out when zero, also if its description gives
  another default: `NanopbRoundTrip.DefaultReplacesZero`. The message comes back exactly when `NoneReplaced` holds of it
  (`NanopbRoundTrip.BackIsSame`), as always for proto3 descriptions (`NothingToReplace`).

## Model

| member | source | states |
|---|---|---|
| `Merger.UnionKeeps` | TeamyApp/Pods/leveldb-library/table/merger.h:13-22 | the sequence the merging iterator runs over holds exactly the entries of its children |
| `Merger.UnionSorted` | TeamyApp/Pods/leveldb-library/table/merger.h:13-22 | children that are each sorted and share no key merge into a strictly sorted sequence |
| `Merger.SmallestIsNext` | TeamyApp/Pods/leveldb-library/table/merger.cc:148-161 | when every child stands just past entry n - 1 of the union, the child with the smallest key stands on entry n, and none is left exactly at the end |
| `Merger.LargestIsPrevious` | TeamyApp/Pods/leveldb-library/table/merger.cc:163-176 | when every child stands on its last entry before place n, the child with the largest key stands on entry n - 1 |
| `Merger.MergingIterator.FindSmallest` | TeamyApp/Pods/leveldb-library/table/merger.cc:148-161 | the loop picks a valid child with the least key, or none if all are exhausted |
| `Merger.MergingIterator.FindLargest` | TeamyApp/Pods/leveldb-library/table/merger.cc:163-176 | the backward loop picks a valid child with the greatest key |
| `Merger.MergingIterator.Seek` | TeamyApp/Pods/leveldb-library/table/merger.cc:47-53 | a seek of all children is a seek in the sorted union |
| `Merger.MergingIterator.SeekToFirst` | TeamyApp/Pods/leveldb-library/table/merger.cc:31-37 | moves the one cursor over the union to its first entry |
| `Merger.MergingIterator.SeekToLast` | TeamyApp/Pods/leveldb-library/table/merger.cc:39-45 | moves it to the last entry |
| `Merger.MergingIterator.Next` | TeamyApp/Pods/leveldb-library/table/merger.cc:55-79 | one entry on in the union, also right after moving backwards |
| `Merger.MergingIterator.Prev` | TeamyApp/Pods/leveldb-library/table/merger.cc:81-108 | one entry back in the union, also right after moving forwards |
| `DbIter.ViewIsNewest` | TeamyApp/Pods/leveldb-library/db/db_iter.cc:168-198 | the user view at a sequence number holds (k, v) exactly when the newest entry of k visible there is the value v |
| `DbIter.ViewSorted` | TeamyApp/Pods/leveldb-library/db/db_iter.cc:34-39 | the user view is strictly sorted by user key |
| `DbIter.ViewIsReads` | TeamyApp/Pods/leveldb-library/db/db_iter.cc:34-39 | iterating and point reads agree: the view holds (k, v) exactly when a flat read of k finds v |
| `DbIter.SeekLands` | TeamyApp/Pods/leveldb-library/db/db_iter.cc:269-281 | the first entry to show from a seek on is the first key of the view at or after the target |
| `DbIter.DBIter.ScanForward` | TeamyApp/Pods/leveldb-library/db/db_iter.cc:168-198 | the forward scan terminates at the first entry that is newest for its key, visible, no deletion and past the key to skip, and passes over no such entry |
| `DbIter.DBIter.ScanBackward` | TeamyApp/Pods/leveldb-library/db/db_iter.cc:227-267 | the backward scan terminates and saves the newest visible entry of the last key it met |
| `DbIter.DBIter.BackToEarlierKey` | TeamyApp/Pods/leveldb-library/db/db_iter.cc:203-222 | turning back stops at the last entry of an earlier key, having passed no visible entry of another |
| `DbIter.DBIter.FindNextUserEntry` | TeamyApp/Pods/leveldb-library/db/db_iter.cc:168-198 | leaves the iterator valid on the entry wanted, or invalid at the end |
| `DbIter.DBIter.FindPrevUserEntry` | TeamyApp/Pods/leveldb-library/db/db_iter.cc:227-267 | leaves it showing the last user key before where it stood, or invalid |
| `DbIter.DBIter.Next` | TeamyApp/Pods/leveldb-library/db/db_iter.cc:141-166 | one key on in the user view, also right after moving backwards |
| `DbIter.DBIter.Prev` | TeamyApp/Pods/leveldb-library/db/db_iter.cc:200-225 | one key back in the user view, also right after moving forwards |
| `DbIter.DBIter.Seek` | TeamyApp/Pods/leveldb-library/db/db_iter.cc:269-281 | the first user key at or after the target |
| `DbIter.DBIter.SeekToFirst` | TeamyApp/Pods/leveldb-library/db/db_iter.cc:283-292 | the first user key |
| `DbIter.DBIter.SeekToLast` | TeamyApp/Pods/leveldb-library/db/db_iter.cc:294-299 | the last user key |
| `StoreIterators.LevelIndexes` | TeamyApp/Pods/leveldb-library/db/version_set.cc:159-228 | the files of a sorted level under their largest keys are what a two-level iterator needs to run over all their entries |
| `StoreIterators.ChildrenCover` | TeamyApp/Pods/leveldb-library/db/version_set.cc:230-246 | memtables, level-0 files and concatenated levels share no key and together hold everything a read may look at |
| `StoreIterators.NewInternalIterator` | TeamyApp/Pods/leveldb-library/db/db_impl.cc:1062-1087 | for every sequence number, the user view of the merged store holds (k, v) exactly when a read of the whole store finds v |
| `StoreIterators.NewIterator` | TeamyApp/Pods/leveldb-library/db/db_impl.cc:1147-1157 | an iterator at a live snapshot runs, in order, over the keys with a value there; a key of which no old value has resurfaced is listed with v exactly when the updates up to the snapshot, applied in order, leave v |
| `InternalKeys.InternalIsTotal` | TeamyApp/Pods/leveldb-library/db/dbformat.cc:51-67 | user key ascending, then sequence and type descending, is a total order |
| `Tables.LookupIsNewest` | TeamyApp/Pods/leveldb-library/db/memtable.cc:100-136 | a seek to the lookup key finds the newest entry of the user key visible at the snapshot |
| `Tables.LookupOfNone` | TeamyApp/Pods/leveldb-library/db/memtable.cc:100-136 | if no entry of the key is visible, the lookup says so |
| `Versions.FindFile` | TeamyApp/Pods/leveldb-library/db/version_set.cc:88-106 | the binary search returns the first file whose largest key is at or after the key |
| `Versions.SortNewestFirstSorts` | TeamyApp/Pods/leveldb-library/db/version_set.cc:278-280 | the level-0 candidates are visited newest first, none lost or repeated |
| `Versions.GetFromLevel0` | TeamyApp/Pods/leveldb-library/db/version_set.cc:349-364 | looking at the overlapping level-0 files newest first answers like a flat read of all of them |
| `Versions.GetFromSortedLevel` | TeamyApp/Pods/leveldb-library/db/version_set.cc:365-382 | the one file found by binary search answers like a flat read of the level |
| `Versions.Get` | TeamyApp/Pods/leveldb-library/db/version_set.cc:326-421 | under the level invariants, the level-by-level lookup answers like a flat read of all entries of all files |
| `Inputs.GetOverlappingInputs` | TeamyApp/Pods/leveldb-library/db/version_set.cc:519-559 | terminates with the files overlapping the range; at level 0 with the least range, and its files, closed under overlap with the growing range |
| `Inputs.FindLargestKey` | TeamyApp/Pods/leveldb-library/db/version_set.cc:1326-1340 | the largest key of the files, or nothing for no files |
| `Inputs.FindSmallestBoundaryFile` | TeamyApp/Pods/leveldb-library/db/version_set.cc:1344-1362 | among the files that continue the user key behind a key, the one with the smallest first key, if any |
| `Inputs.AddBoundaryInputs` | TeamyApp/Pods/leveldb-library/db/version_set.cc:1378-1401 | terminates; each file added is the first of those in which the largest key so far continues, and in the end none does |
| `Inputs.BoundaryIsNext` | TeamyApp/Pods/leveldb-library/db/version_set.cc:1378-1401 | in a sorted level the file added is the next one, so a stretch of files stays a stretch |
| `Picking.GetRange` | TeamyApp/Pods/leveldb-library/db/version_set.cc:1205-1224 | the smallest and largest key over all files |
| `Linking.GrownLinked` | TeamyApp/Pods/leveldb-library/db/version_set.cc:1378-1401 | boundary files leave no gap in the user keys behind what they extend |
| `Linking.WidenedLinked` | TeamyApp/Pods/leveldb-library/db/version_set.cc:519-559 | nor does the closure under overlap at level 0: every key inside the widened range is in one of the files |
| `Linking.LinkedMore` | TeamyApp/Pods/leveldb-library/db/version_set.cc:1403-1462 | nor do files that reach into the range of a set without a gap |
| `Picking.SetupOtherInputs` | TeamyApp/Pods/leveldb-library/db/version_set.cc:1403-1462 | the inputs are exactly those of the source: boundary files added, the next level in their range, and the wider choice if it adds files at the level, none below, and stays under the limit; closed at the upper level, without a gap if the given files have none |
| `Picking.PickCompaction` | TeamyApp/Pods/leveldb-library/db/version_set.cc:1270-1322 | whatever file is picked at a level, the inputs are so chosen, hold it, and have no gap in their user keys |
| `Picking.CompactRange` | TeamyApp/Pods/leveldb-library/db/version_set.cc:1464-1495 | a manual range finds nothing only if no file overlaps it; otherwise it takes the overlapping files up to the size at which the source cuts, and sets up the other inputs |
| `Picking.OverlappingIsStretch` | TeamyApp/Pods/leveldb-library/db/version_set.cc:519-559 | in a sorted level the files overlapping a range lie next to each other |
| `Picking.NoneContinuesAtLevel0` | TeamyApp/Pods/leveldb-library/db/version_set.cc:519-559 | files closed under overlap leave none behind that continues their largest user key |
| `Flush.SomeFileOverlapsRange` | TeamyApp/Pods/leveldb-library/db/version_set.cc:122-157 | true exactly when some file overlaps the user-key range, also by the binary search of sorted levels |
| `Flush.PickLevelForMemTableOutput` | TeamyApp/Pods/leveldb-library/db/version_set.cc:491-516 | exactly the level the source picks: as deep as nothing overlaps the range and the grandparents allow, level 2 at most, level 0 if that overlaps |
| `Flush.FlushKeepsGood` | TeamyApp/Pods/leveldb-library/db/version_set.cc:491-516 | a table newer than the store, put at such a level, keeps the level invariants and adds just its entries |
| `Flush.WriteLevel0Table` | TeamyApp/Pods/leveldb-library/db/db_impl.cc:491-533 | the version with the memtable's table at just that level, or unchanged for an empty memtable; the invariants and all entries are kept |
| `Drops.DropsInvisibleIff` | TeamyApp/Pods/leveldb-library/db/db_impl.cc:946-960 | with the entries the rules drop gone, every read of a key from the smallest snapshot on answers as before, if and only if no old value of it resurfaces |
| `Drops.SameAnswer` | TeamyApp/Pods/leveldb-library/db/db_impl.cc:946-960 | without an older value left behind, each single read answers as before |
| `Drops.ResurfacedDiffers` | TeamyApp/Pods/leveldb-library/db/db_impl.cc:949-960 | a deletion dropped over an older value left behind does change some read |
| `Compactions.Compaction.IsBaseLevelForKey` | TeamyApp/Pods/leveldb-library/db/version_set.cc:1533-1552 | with keys asked in order, the pointers that only move forward answer like a scan of all deeper levels |
| `Compactions.HiddenIffBefore` | TeamyApp/Pods/leveldb-library/db/db_impl.cc:937-962 | what the loop remembers of the key before decides rule (A) as the whole set of entries does |
| `Compactions.KeptSurvives` | TeamyApp/Pods/leveldb-library/db/db_impl.cc:929-963 | the entries kept are exactly those that neither rule drops |
| `Compactions.DoCompactionWork` | TeamyApp/Pods/leveldb-library/db/db_impl.cc:878-1036 | wherever the outputs are cut: an entry is in them if and only if some reader at or above the smallest snapshot sees it among the inputs, unless it is a deletion marker below all snapshots whose key no deeper file covers; in order, nothing twice |
| `Compactions.KeptIsNeeded` | TeamyApp/Pods/leveldb-library/db/db_impl.cc:937-963 | what the two drop rules keep is just that, said without the rules |
| `CompactionInputs.UnionMergesInputs` | TeamyApp/Pods/leveldb-library/db/version_set.cc:1237-1268 | the chosen files can be merged, and their union holds exactly their entries |
| `CompactionInputs.MakeInputIterator` | TeamyApp/Pods/leveldb-library/db/version_set.cc:1237-1268 | the input iterator is a merging iterator over just these entries |
| `CompactionSteps.ChosenIsPicked` | TeamyApp/Pods/leveldb-library/db/version_set.cc:1403-1462 | the inputs setup chooses are such that replacing them keeps the levels ordered |
| `CompactionSteps.CompactedIsGood` | TeamyApp/Pods/leveldb-library/db/db_impl.cc:860-876 | replacing the inputs by the outputs keeps all level invariants |
| `CompactionSteps.StoreAfter` | TeamyApp/Pods/leveldb-library/db/db_impl.cc:860-876 | the store then holds what it held, less the inputs, plus the outputs |
| `CompactionEffects.CompactionKeepsReadsIff` | TeamyApp/Pods/leveldb-library/db/db_impl.cc:906-999 | the whole compaction leaves every read of a key from the smallest snapshot on unchanged if and only if no older value of a dropped deletion is left behind in level+1 |
| `CompactionEffects.ResurfacesOnlyAtBoundary` | TeamyApp/Pods/leveldb-library/db/version_set.cc:1403-1462 | that can happen only for the largest user key of the lower inputs, and only if a file left behind continues it |
| `CompactionEffects.SafeWithoutBoundary` | TeamyApp/Pods/leveldb-library/db/db_impl.cc:906-999 | if no file left behind continues that key, every read is unchanged |
| `Resurfacing.CompactionCanUndelete` | TeamyApp/Pods/leveldb-library/db/version_set.cc:1403-1427 | a store and a compaction chosen by the code's own rules after which a deleted key is found again |
| `Background.MoveKeepsStore` | TeamyApp/Pods/leveldb-library/db/version_set.cc:1515-1523 | a trivial move keeps the invariants and the entries |
| `Background.CompactFiles` | TeamyApp/Pods/leveldb-library/db/db_impl.cc:734-743 | the loop on the chosen files ends in outputs that may be installed: the inputs leave their levels, every other file stays, what is new is at level + 1 and holds just the entries readers need, and reads change just where an old value resurfaces |
| `Background.BackgroundCompaction` | TeamyApp/Pods/leveldb-library/db/db_impl.cc:688-767 | the same for a compaction picked at any level and file; the inputs are just those the source picks, and the file is just moved exactly when it may be |
| `Background.IsTrivialMove` | TeamyApp/Pods/leveldb-library/db/version_set.cc:1515-1523 | one file, none below it, and few enough grandparent bytes |
| `Interleaving.InterleavedIff` | TeamyApp/Pods/leveldb-library/db/db_impl.cc:907-921 | a compaction installed after a memtable was flushed in the middle of it leaves the levels in order if and only if the new table is not at the output level inside the range of one output |
| `Interleaving.LinkedKeepsClear` | TeamyApp/Pods/leveldb-library/db/version_set.cc:491-516 | with inputs that have no gap it never is: a table that overlaps no input keeps clear of every output |
| `Interleaving.FlushKeepsUnderway` | TeamyApp/Pods/leveldb-library/db/db_impl.cc:907-921 | so a picked compaction stays installable over any flush, with the reads it will leave unchanged |
| `Interleaving.UnderwayInstalls` | TeamyApp/Pods/leveldb-library/db/db_impl.cc:860-876 | installed in whatever version is then current, it keeps all invariants, adds nothing, and changes reads just where an old value resurfaces |
| `Gaps.FlushLostInGap` | TeamyApp/Pods/leveldb-library/db/version_set.cc:1464-1495 | a manual compaction of two files with a gap between them, and a memtable flushed into the gap: afterwards two files of level 2 overlap, and a search of the level for the key flushed ends in the wrong one |
| `Levels.GoodByAge` | TeamyApp/Pods/leveldb-library/db/version_set.cc:326-421 | for one user key what a level holds is newer than what any deeper level holds |
| `Database.InsertInto` | TeamyApp/Pods/leveldb-library/db/write_batch.cc:115-137 | a batch goes into the memtable with consecutive sequence numbers |
| `Database.OnTop` | TeamyApp/Pods/leveldb-library/db/db_impl.cc:1112-1134 | newer memtables over two stores that read alike read alike |
| `Database.CompactionFaithful` | TeamyApp/Pods/leveldb-library/db/db_impl.cc:906-999 | a compaction that changes no read of the files changes none of the database |
| `Database.DBImpl.Get` | TeamyApp/Pods/leveldb-library/db/db_impl.cc:1100-1145 | at a live snapshot, whatever has run: for a key of which no old value has resurfaced, exactly what the updates up to the snapshot, applied in the order written, make of it |
| `Database.DBImpl.Write` | TeamyApp/Pods/leveldb-library/db/db_impl.cc:1185-1256 | a batch takes the next sequence numbers, the history grows by it, and the invariant holds on |
| `Database.DBImpl.SwitchMemTable` | TeamyApp/Pods/leveldb-library/db/db_impl.cc:1345-1367 | the full memtable becomes immutable; nothing is lost |
| `Database.DBImpl.CompactMemTable` | TeamyApp/Pods/leveldb-library/db/db_impl.cc:535-566 | the immutable memtable becomes a table at just the level picked, also while a compaction runs |
| `Database.HistoryReads` | TeamyApp/Pods/leveldb-library/include/leveldb/db.h:63-88 | reading all that was ever written at s is applying the first s updates |
| `Database.UpdatesRead` | TeamyApp/Pods/leveldb-library/include/leveldb/db.h:63-88 | a batch on top: a key it is about reads as its last update of it, any other as before |
| `Database.DBImpl.BeginCompaction` | TeamyApp/Pods/leveldb-library/db/db_impl.cc:688-758 | a compaction of just the files the source picks is merged, against the oldest snapshot, to just the entries readers need; the version stays as it is, and writes, flushes and snapshots may follow |
| `Database.DBImpl.FinishCompaction` | TeamyApp/Pods/leveldb-library/db/db_impl.cc:860-876 | its outputs replace its inputs in the version that is then current; the keys disturbed are just those of which an old value resurfaces |
| `Database.DBImpl.Compact` | TeamyApp/Pods/leveldb-library/db/db_impl.cc:688-767 | both in a row: the inputs leave, the rest stays, readers lose nothing; the keys no longer answered as written are those of before and just those of which this compaction lets an old value resurface |
| `Database.DBImpl.GetSnapshot` | TeamyApp/Pods/leveldb-library/db/db_impl.cc:1166-1169 | a snapshot is the last sequence number, newest at the end of the list |
| `Database.DBImpl.ReleaseSnapshot` | TeamyApp/Pods/leveldb-library/db/db_impl.cc:1171-1174 | takes just that snapshot off the list |
| `Durability.RunningIsHealthy` | TeamyApp/Pods/leveldb-library/db/db_impl.cc:1112-1134 | while running, memory and files read as all that was written |
| `Durability.AppendOnDisk` | TeamyApp/Pods/leveldb-library/db/db_impl.cc:1204-1222 | a record appended to the live log, synced or not, is part of what recovery will find |
| `Durability.InstallKeeps` | TeamyApp/Pods/leveldb-library/db/db_impl.cc:543-562 | naming the current log as the oldest needed, when the flushed table is installed, loses nothing |
| `Durability.CompactOnDisk` | TeamyApp/Pods/leveldb-library/db/version_set.cc:801-884 | with a compacted version in the manifest recovery finds what was written, but for the keys whose reads at or above the snapshot the version changed |
| `Durability.DeleteOnDisk` | TeamyApp/Pods/leveldb-library/db/db_impl.cc:223-278 | dropping logs below the log number and tables not in the version changes nothing recovery needs |
| `Durability.OpenedOnDisk` | TeamyApp/Pods/leveldb-library/db/db_impl.cc:1474-1515 | the recovered version in a new manifest, with a new log, restores the invariant |
| `Durability.Store.Append` | TeamyApp/Pods/leveldb-library/db/db_impl.cc:1204-1222 | from the moment its record is at the end of the current log a batch counts as written: its keys read as its last updates, all others as before; a sync marks everything in that log as on the disk |
| `Durability.Store.Apply` | TeamyApp/Pods/leveldb-library/db/db_impl.cc:1223-1237 | after it is in the memtable too, the running store reads as all that was written |
| `Durability.Store.SwitchMemTable` | TeamyApp/Pods/leveldb-library/db/db_impl.cc:1345-1367 | a new log for a new memtable |
| `Durability.Store.BuildTable` | TeamyApp/Pods/leveldb-library/db/db_impl.cc:491-507 | one table more, of the immutable memtable, not yet in any version |
| `Durability.Store.InstallTable` | TeamyApp/Pods/leveldb-library/db/db_impl.cc:535-566 | the manifest takes the table at just the level picked and lets go of older logs, also while a compaction runs; what recovery finds is unchanged |
| `Durability.Store.Get` | TeamyApp/Pods/leveldb-library/db/db_impl.cc:1100-1145 | a read of the running store, after any crashes and recoveries: what was written and not lost with the machine |
| `Durability.Store.BeginCompaction` | TeamyApp/Pods/leveldb-library/db/db_impl.cc:878-1026 | the finished outputs are tables the manifest does not name yet, no older table has changed, and a crash here changes nothing |
| `Durability.Store.FinishCompaction` | TeamyApp/Pods/leveldb-library/db/db_impl.cc:860-876 | the manifest takes outputs for inputs, whatever was flushed since; the keys disturbed are just those of which an old value resurfaces |
| `Durability.Store.Compact` | TeamyApp/Pods/leveldb-library/db/db_impl.cc:688-767 | both in a row, related to the version before as a compaction must be: recovery still finds all writes, but for the keys of which an old value resurfaces |
| `Durability.OutputsWritten` | TeamyApp/Pods/leveldb-library/db/db_impl.cc:786-858 | the outputs are there under their numbers, and every older table is as it was |
| `Durability.Store.DeleteObsoleteFiles` | TeamyApp/Pods/leveldb-library/db/db_impl.cc:223-278 | a table is left if and only if the version names it or it is pending, as memtable or compaction output, and unchanged; a log if and only if it is at or above the log number; what recovery finds is unchanged |
| `Durability.Store.Crash` | TeamyApp/Pods/leveldb-library/db/db_impl.cc:280-369 | the process may die at any moment and lose its memory; the disk invariant stands |
| `Durability.LossOnDisk` | TeamyApp/Pods/leveldb-library/db/db_impl.cc:1204-1222 | when log files lose any part of their unsynced ends, the disk is in order for what is left of the writes |
| `Durability.Store.PowerLoss` | TeamyApp/Pods/leveldb-library/include/leveldb/options.h:168-182 | the machine may stop at any moment: every synced batch and everything flushed survives, and nothing that was not written appears |
| `Durability.LosesLastIsPrefix` | TeamyApp/Pods/leveldb-library/include/leveldb/options.h:168-182 | if no log keeps anything while an earlier one loses something, recovery finds the first batches logged, up to some point |
| `Durability.NoGapIff` | TeamyApp/Pods/leveldb-library/db/db_impl.cc:1345-1367 | every possible loss is of that kind if and only if each live log before one in use was synced to its end, which the switch of logs does not do |
| `Durability.OlderWriteLost` | TeamyApp/Pods/leveldb-library/db/db_impl.cc:1345-1367 | a run from a new store after which an earlier write is lost and a later, synced one is found |
| `Durability.RecoverLogFile` | TeamyApp/Pods/leveldb-library/db/db_impl.cc:371-489 | replaying a log, with flushes whenever the memtable fills, adds exactly its batches, in order |
| `Durability.RecoverLogs` | TeamyApp/Pods/leveldb-library/db/db_impl.cc:280-369 | the logs at or above the log number, replayed in order onto the manifest's version, give all completely logged writes and the last sequence number |
| `Durability.Store.Open` | TeamyApp/Pods/leveldb-library/db/db_impl.cc:1474-1515 | after any run of the steps and any crashes and power losses, opening gives a store that reads as every write that was completely logged and not lost, with new tables at level 0 only and a new manifest and log |
| `Durability.Store.InterruptedOpen` | TeamyApp/Pods/leveldb-library/db/db_impl.cc:280-369 | an open that crashes after any batch of any log, with any tables written and the last one in part, leaves all as recoverable as before |
| `Durability.Store.UnfinishedOpen` | TeamyApp/Pods/leveldb-library/db/db_impl.cc:1474-1515 | so does one that crashes after the last table or the new log, before the new manifest |
| `LogFiles.RecordIsBatch` | TeamyApp/Pods/leveldb-library/db/db_impl.cc:405-455 | the record of a batch is read back as that batch |
| `LogFiles.CutFile` | TeamyApp/Pods/leveldb-library/db/db_impl.cc:371-455 | a log file cut at any byte is read as just the batches before the cut, with nothing reported |
| `LogFiles.CutDisk` | TeamyApp/Pods/leveldb-library/db/db_impl.cc:280-369 | whatever byte each log file ends at, not before its synced part, the disk is in order and reads as the writes less the batches cut off |
| `GroupCommit.BuildBatchGroup` | TeamyApp/Pods/leveldb-library/db/db_impl.cc:1260-1306 | the group is the longest stretch of the queue within the size limit that puts no sync write behind a non-sync leader; its updates are those of its writers in a row |
| `GroupCommit.StepKeeps` | TeamyApp/Pods/leveldb-library/db/db_impl.cc:1185-1256 | every step of writers, leader and inserter keeps the invariant |
| `GroupCommit.RunKeeps` | TeamyApp/Pods/leveldb-library/db/db_impl.cc:1185-1256 | so every state of every run has it |
| `GroupCommit.LoggedInOrder` | TeamyApp/Pods/leveldb-library/db/db_impl.cc:1185-1256 | in every state the log holds the updates of the finished writers, and of the group being applied, in queue order, none lost or repeated, and the numbers their leaders gave them from LastSequence are 1, 2, 3 and so on |
| `GroupCommit.AllOrNothing` | TeamyApp/Pods/leveldb-library/db/db_impl.cc:1213-1237 | an update in the memtable is numbered up to LastSequence exactly when it is of a finished batch, at every interleaving: a reader sees all of those and nothing of others |
| `GroupCommit.SyncedWhenFinished` | TeamyApp/Pods/leveldb-library/db/db_impl.cc:1213-1253 | when a group with a sync writer finishes, the log has been synced up to its end |
| `WriteBatches.BodyRoundTrip` | TeamyApp/Pods/leveldb-library/db/write_batch.cc:42-80 | parsing the records of a batch gives back its operations |
| `Rejections.CutBatchFails` | TeamyApp/Pods/leveldb-library/db/write_batch.cc:42-79 | a batch cut inside a record hands over the updates before it and is reported as corrupt |
| `Rejections.BodyStopsAt` | TeamyApp/Pods/leveldb-library/db/write_batch.cc:42-79 | so with any malformed record, one with an unknown tag among them |
| `FormatExamples.Batch` | TeamyApp/Pods/leveldb-library/db/write_batch.cc:5-14 | a batch of a put and a deletion, byte for byte |
| `WriteBatches.WriteBatch.Put` | TeamyApp/Pods/leveldb-library/db/write_batch.cc:98-103 | one record more, counted in the header |
| `WriteBatches.WriteBatch.Delete` | TeamyApp/Pods/leveldb-library/db/write_batch.cc:105-109 | the same for a deletion |
| `WriteBatches.WriteBatch.Append` | TeamyApp/Pods/leveldb-library/db/write_batch.cc:144-148 | the other batch's operations behind this one's, the counts added up |
| `WriteBatches.WriteBatch.SetSequence` | TeamyApp/Pods/leveldb-library/db/write_batch.cc:94-96 | changes the sequence number and nothing else |
| `WriteBatches.WriteBatch.Count` | TeamyApp/Pods/leveldb-library/db/write_batch.cc:82-84 | the number of operations |
| `WriteBatches.WriteBatch.Iterate` | TeamyApp/Pods/leveldb-library/db/write_batch.cc:42-80 | on any bytes: hands over the records up to the first malformed one, and succeeds exactly when all parse and the count is right |
| `LogRoundTrip.RecordIsRead` | TeamyApp/Pods/leveldb-library/db/log_reader.cc:56-174 | a record written at any offset is read whole, or not at all if the file was cut inside it |
| `LogRoundTrip.CutLogReads` | TeamyApp/Pods/leveldb-library/db/log_reader.cc:56-174 | from any record on, a cut log reads as its complete records, with nothing reported |
| `LogRoundTrip.TruncatedLog` | TeamyApp/Pods/leveldb-library/db/log_reader.cc:56-174 | any byte-truncation of a written log reads as exactly the records that lie wholly before the cut, with no corruption report |
| `LogRoundTrip.WholeLog` | TeamyApp/Pods/leveldb-library/db/log_reader.cc:56-174 | a written log reads as exactly the records written |
| `LogDamage.DamageIsLocal` | TeamyApp/Pods/leveldb-library/db/log_reader.cc:189-270 | four bytes in a row changed in any fragment's type or payload: exactly the records with that fragment, or beginning behind it in its block, are lost, every other is read as written, and it is reported but for an empty fragment turned to type zero |
| `LogDamage.DamagedRecord` | TeamyApp/Pods/leveldb-library/db/log_reader.cc:59-187 | a record is read up to its damaged fragment and dropped there |
| `LogDamage.RestIsSkipped` | TeamyApp/Pods/leveldb-library/db/log_reader.cc:106-160 | the middle and last fragments a block begins with are passed over |
| `Corruption.CorruptFragmentIsBad` | TeamyApp/Pods/leveldb-library/db/log_reader.cc:243-257 | a fragment with up to four bytes in a row changed is reported as bad, never returned |
| `LogWriter.Writer.AddRecord` | TeamyApp/Pods/leveldb-library/db/log_writer.cc:34-80 | the fragments written for a record, for any length and block offset |
| `LogWriter.Writer.EmitFragment` | TeamyApp/Pods/leveldb-library/db/log_writer.cc:43-78 | one turn of the loop: trailer, type and length of the fragment |
| `LogWriter.Writer.EmitPhysicalRecord` | TeamyApp/Pods/leveldb-library/db/log_writer.cc:82-108 | the header with the checksum extended from the type's |
| `LogReader.Reader.ReadPhysicalRecord` | TeamyApp/Pods/leveldb-library/db/log_reader.cc:189-271 | on any file: the next fragment, bad record or end, and what is reported |
| `LogReader.Reader.FillBuffer` | TeamyApp/Pods/leveldb-library/db/log_reader.cc:190-214 | refilling by blocks changes nothing about what comes next |
| `LogReader.Reader.ReadRecord` | TeamyApp/Pods/leveldb-library/db/log_reader.cc:56-174 | on any file: the reassembled record, the position after it and the bytes reported |
| `LogReader.ReadLog` | TeamyApp/Pods/leveldb-library/db/log_reader.cc:56-174 | reading to the end gives the records and reports the round trip speaks of |
| `Crc32c.Extend` | TeamyApp/Pods/leveldb-library/util/crc32c.cc:276-377 | for every length, alignment and start value, the four-stride loop computes the byte-at-a-time CRC |
| `Crc32c.CrcAppend` | TeamyApp/Pods/leveldb-library/util/crc32c.cc:276-377 | extending by one piece and then another is extending by both |
| `Crc32c.StrideTablesAdvance` | TeamyApp/Pods/leveldb-library/util/crc32c.cc:293-300 | four stride-table lookups advance a word over the twelve bytes of the other strides and its own four |
| `Crc32c.ByteTableAdvances` | TeamyApp/Pods/leveldb-library/util/crc32c.cc:286-291 | a byte-table lookup advances by one byte |
| `Crc32c.SwathStep` | TeamyApp/Pods/leveldb-library/util/crc32c.cc:302-310 | one swath of sixteen bytes keeps the four accumulators equal to the remainder so far |
| `Crc32c.Rotate` | TeamyApp/Pods/leveldb-library/util/crc32c.cc:349-358 | the single-word step rotates the accumulators without changing what they stand for |
| `Crc32c.WordStep` | TeamyApp/Pods/leveldb-library/util/crc32c.cc:312-320 | folding a whole word in is folding in its four bytes |
| `Crc32c.ZerosLinear` | TeamyApp/Pods/leveldb-library/util/crc32c.cc:276-377 | advancing over zero bits is linear |
| `Crc32c.ZerosAdd` | TeamyApp/Pods/leveldb-library/util/crc32c.cc:276-377 | advancing over m and n zero bits is advancing over m + n |
| `Crc32c.MaskRoundTrip` | TeamyApp/Pods/leveldb-library/util/crc32c.h:20-38 | Mask and Unmask undo each other, both ways |
| `Corruption.BurstDetected` | TeamyApp/Pods/leveldb-library/util/crc32c.cc:276-377 | two messages that differ in at most 32 bits in a row, byte by byte, have different checksums |
| `Crc32cVectors.ThirtyTwoZeros` | TeamyApp/Pods/leveldb-library/util/crc32c.cc:276-377 | the test vector of RFC 3720 for 32 bytes of zeros |
| `Crc32cVectors.Incrementing` | TeamyApp/Pods/leveldb-library/util/crc32c.cc:276-377 | and the one for the bytes 0 to 31 |
| `FormatExamples.LogRecord` | TeamyApp/Pods/leveldb-library/db/log_writer.cc:80-110 | a log record of one byte, byte for byte |
| `Coding.Fixed32RoundTrip` | TeamyApp/Pods/leveldb-library/util/coding.cc:9-18 | a 32-bit word survives being stored |
| `Varints.PutVarint64` | TeamyApp/Pods/leveldb-library/util/coding.cc:81-96 | the loop writes seven bits a byte |
| `Varints.FiveCases` | TeamyApp/Pods/leveldb-library/util/coding.cc:47-73 | the five cases of EncodeVarint32 are that same encoding |
| `Varints.VarintRoundTrip` | TeamyApp/Pods/leveldb-library/util/coding.cc:142-157 | a varint is read back, whatever follows it |
| `Varints.GetVarint` | TeamyApp/Pods/leveldb-library/util/coding.cc:112-157 | on any input: the value, its bits beyond the word lost, and the rest, or failure |
| `Varints.PrefixedRoundTrip` | TeamyApp/Pods/leveldb-library/util/coding.cc:98-101 | a length-prefixed string is read back, whatever follows it |
| `Varints.GetLengthPrefixedSlice` | TeamyApp/Pods/leveldb-library/util/coding.cc:181-190 | on any input: the string and the rest, or failure |
| `Varints.FixedRoundTrip` | TeamyApp/Pods/leveldb-library/util/coding.cc:20-45 | a fixed-width number is read back |
| `VersionEdits.EditRoundTrip` | TeamyApp/Pods/leveldb-library/db/version_edit.cc:107-205 | decoding an encoded edit gives it back, behind the compaction pointers the object already had |
| `Rejections.CutEditFails` | TeamyApp/Pods/leveldb-library/db/version_edit.cc:107-215 | an edit cut inside a field is reported as corrupt |
| `Rejections.UnknownTagFails` | TeamyApp/Pods/leveldb-library/db/version_edit.cc:107-215 | so is one with a tag there is none of, as an unknown tag |
| `FormatExamples.EditFields` | TeamyApp/Pods/leveldb-library/db/version_edit.cc:12-86 | each kind of field with its tag, byte for byte |
| `VersionEdits.ReusedObjectIff` | TeamyApp/Pods/leveldb-library/db/version_edit.cc:26-39 | into a used object it is given back if and only if that object had no compaction pointers, since Clear keeps them |
| `VersionEdits.PointerSurvives` | TeamyApp/Pods/leveldb-library/db/version_edit.cc:26-39 | a used object with one pointer, and an edit that comes back with that pointer |
| `VersionEdits.FieldsRoundTrip` | TeamyApp/Pods/leveldb-library/db/version_edit.cc:107-205 | any list of fields is read back in order |
| `VersionEdits.PayloadRoundTrip` | TeamyApp/Pods/leveldb-library/db/version_edit.cc:120-194 | each kind of field is read back, whatever follows it |
| `VersionEdits.VersionEdit.EncodeTo` | TeamyApp/Pods/leveldb-library/db/version_edit.cc:41-85 | appends the encoding of the edit's fields |
| `VersionEdits.VersionEdit.DecodeFrom` | TeamyApp/Pods/leveldb-library/db/version_edit.cc:107-205 | on any bytes: the edit, or the error message |
| `VersionEdits.VersionEdit.Clear` | TeamyApp/Pods/leveldb-library/db/version_edit.cc:26-39 | resets everything but the compaction pointers |
| `Builders.SavedIsCurrent` | TeamyApp/Pods/leveldb-library/db/version_set.cc:698-754 | what the merge of base and added files, less the deleted, leaves of a level is the level the edits lead to |
| `Builders.SortedIsUnique` | TeamyApp/Pods/leveldb-library/db/version_set.cc:592-605 | files in the builder's order are determined by which they are |
| `Builders.AddEachAgrees` | TeamyApp/Pods/leveldb-library/db/version_set.cc:667-691 | files added one by one keep builder and version in step |
| `Builders.EditAgrees` | TeamyApp/Pods/leveldb-library/db/version_set.cc:649-692 | so does a whole edit |
| `Builders.SaveLevel` | TeamyApp/Pods/leveldb-library/db/version_set.cc:698-721 | the merging loops write the merge of base and added files, less the deleted |
| `Builders.Builder.Apply` | TeamyApp/Pods/leveldb-library/db/version_set.cc:649-692 | one edit more, its new files entered and its deleted ones noted |
| `Builders.Builder.SaveTo` | TeamyApp/Pods/leveldb-library/db/version_set.cc:694-739 | one SaveTo after a list of edits equals applying them one version at a time, each level sorted by smallest key |
| `Manifests.ReplayOfEncodings` | TeamyApp/Pods/leveldb-library/db/version_set.cc:926-969 | replaying encoded edits notes the last of each number and all file changes |
| `Manifests.CutManifest` | TeamyApp/Pods/leveldb-library/db/version_set.cc:886-1011 | a manifest cut anywhere recovers to what its complete edits say |
| `Manifests.Recover` | TeamyApp/Pods/leveldb-library/db/version_set.cc:886-1011 | on any bytes: the edits and numbers recovered, or the error |
| `Manifests.SnapshotRebuilds` | TeamyApp/Pods/leveldb-library/db/version_set.cc:1088-1116 | the snapshot record applied to an empty version is the version |
| `Manifests.LastNumbersCount` | TeamyApp/Pods/leveldb-library/db/version_set.cc:973-1000 | the numbers recovered are those of the last edit |
| `Manifests.RecoversIff` | TeamyApp/Pods/leveldb-library/db/version_set.cc:926-1000 | a manifest is recovered if and only if no edit names another comparator and log, next file and last sequence number have each been set by some edit; the numbers are those set last |
| `VersionSets.VersionSet.LogAndApply` | TeamyApp/Pods/leveldb-library/db/version_set.cc:801-884 | memory and manifest move together: the new version is the edit applied to the old, and the manifest one record longer |
| `VersionSets.VersionSet.OpenDescriptor` | TeamyApp/Pods/leveldb-library/db/version_set.cc:824-839 | a new manifest starts with a snapshot of the current version |
| `VersionSets.TracksOneMore` | TeamyApp/Pods/leveldb-library/db/version_set.cc:801-884 | one record more keeps manifest and version in step |
| `VersionSets.FromSnapshot` | TeamyApp/Pods/leveldb-library/db/version_set.cc:1088-1116 | starting from the snapshot is starting from the version |
| `VersionSets.CutRecoversVersion` | TeamyApp/Pods/leveldb-library/db/version_set.cc:886-1011 | after any cut of the manifest's bytes behind its snapshot, recovery restores the version as of the last complete edit |
| `VersionSets.Rebuild` | TeamyApp/Pods/leveldb-library/db/version_set.cc:990-1000 | one builder over all recovered edits gives that version |
| `SkipList.StepOk` | TeamyApp/Pods/leveldb-library/db/skiplist.h:337-368 | every single store of the writer and load of a reader keeps the invariant, and nothing linked is ever unlinked |
| `SkipList.RunOk` | TeamyApp/Pods/leveldb-library/db/skiplist.h:337-368 | so over whole runs, in any interleaving |
| `SkipList.PublishLevels` | TeamyApp/Pods/leveldb-library/db/skiplist.h:361-367 | linking a node at one more level keeps each level sorted and part of the level below |
| `SkipList.TurnOk` | TeamyApp/Pods/leveldb-library/db/skiplist.h:262-281 | a reader that goes on or down keeps all it has passed before its target |
| `SkipList.SearchIsRight` | TeamyApp/Pods/leveldb-library/db/skiplist.h:262-281 | in any run, a search returns the least key at or after its target among some set of nodes between those linked when it began and those linked when it ended |
| `SkipList.SearchIsAtomic` | TeamyApp/Pods/leveldb-library/db/skiplist.h:262-281 | in any run, at some step between its first and its last a search result is exactly the least key at or after the target among the keys linked at that step |
| `SkipList.LinkedIsReached` | TeamyApp/Pods/leveldb-library/db/skiplist.h:262-281 | every linked node is reached by walking its level from the head |
| `SkipList.NeverStuck` | TeamyApp/Pods/leveldb-library/db/skiplist.h:337-368 | a writer in the middle of linking and a searching reader always have a step to take |
| `SkipList.FindGreaterOrEqual` | TeamyApp/Pods/leveldb-library/db/skiplist.h:262-281 | undisturbed, the least key at or after the target, and the last node before it at every level |
| `SkipList.List.Insert` | TeamyApp/Pods/leveldb-library/db/skiplist.h:337-368 | adds just the key |
| `SkipList.List.Contains` | TeamyApp/Pods/leveldb-library/db/skiplist.h:371-378 | true exactly for the keys inserted |
| `HandleTables.HandleTable.FindPointer` | TeamyApp/Pods/leveldb-library/util/cache.cc:114-120 | the slot in the bucket chain that points at the entry, or the one at the chain's end |
| `HandleTables.HandleTable.Lookup` | TeamyApp/Pods/leveldb-library/util/cache.cc:74-76 | the entry under key and hash, or null |
| `HandleTables.HandleTable.Insert` | TeamyApp/Pods/leveldb-library/util/cache.cc:78-92 | the map gets the entry, the one it replaces is returned, and the list is grown, all entries moved, exactly when there are more entries than buckets |
| `HandleTables.HandleTable.Remove` | TeamyApp/Pods/leveldb-library/util/cache.cc:94-102 | the map loses the entry, which is returned |
| `HandleTables.HandleTable.Resize` | TeamyApp/Pods/leveldb-library/util/cache.cc:122-146 | relinking every chain into a larger list loses and repeats nothing |
| `HandleTables.PutIndexed` | TeamyApp/Pods/leveldb-library/util/cache.cc:78-92 | a chain with the entry put at the slot found indexes the map with it |
| `HandleTables.TakeIndexed` | TeamyApp/Pods/leveldb-library/util/cache.cc:94-102 | a chain with it taken out indexes the map without it |
| `HandleTables.MovingEnds` | TeamyApp/Pods/leveldb-library/util/cache.cc:122-146 | when the last chain has been moved the new list indexes the same map |
| `LruCaches.EvictedIs` | TeamyApp/Pods/leveldb-library/util/cache.cc:293-300 | eviction takes exactly as many of the oldest unreferenced entries as the charge demands |
| `LruCaches.OldestIs` | TeamyApp/Pods/leveldb-library/util/cache.cc:293-300 | each is in the table and is deleted as it goes |
| `LruCaches.DroppedIs` | TeamyApp/Pods/leveldb-library/util/cache.cc:307-316 | an entry taken out of the cache is deleted when its last reference goes |
| `LruCaches.InsertedSound` | TeamyApp/Pods/leveldb-library/util/cache.cc:266-303 | after an insertion the charge fits the capacity or no entry is left to evict |
| `LruCaches.InsertedIsFound` | TeamyApp/Pods/leveldb-library/util/cache.cc:266-303 | with a capacity, the new entry is then found under its key and is in use |
| `LruCaches.InsertedKeeps` | TeamyApp/Pods/leveldb-library/util/cache.cc:266-303 | of the other entries it leaves only some of those there, and all that clients hold |
| `LruCaches.EvictedInOrder` | TeamyApp/Pods/leveldb-library/util/cache.cc:293-300 | an idle entry is found until it is evicted, and goes only after all that have been idle longer |
| `LruCaches.ReleasedIsNewest` | TeamyApp/Pods/leveldb-library/util/cache.cc:225-237 | an entry given back by its last client is still found, and goes after everything that was idle before it |
| `LruCaches.ErasedIs` | TeamyApp/Pods/leveldb-library/util/cache.cc:307-321 | erasing takes just the one key out, and deletes its entry unless a client still holds it |
| `LruCaches.PrunedIs` | TeamyApp/Pods/leveldb-library/util/cache.cc:323-333 | pruning deletes every unreferenced entry and no other |
| `Caches.LRUCache.Ref` | TeamyApp/Pods/leveldb-library/util/cache.cc:217-223 | one client more; an idle entry moves to those in use |
| `Caches.LRUCache.Unref` | TeamyApp/Pods/leveldb-library/util/cache.cc:225-237 | one client less; the last makes it the newest idle entry, or calls its deleter if it has left the cache |
| `Caches.LRUCache.LRU_Remove` | TeamyApp/Pods/leveldb-library/util/cache.cc:239-242 | takes the entry out of its ring |
| `Caches.LRUCache.LRU_Append` | TeamyApp/Pods/leveldb-library/util/cache.cc:244-250 | puts it in as the newest of the ring |
| `Caches.LRUCache.Lookup` | TeamyApp/Pods/leveldb-library/util/cache.cc:252-259 | the entry with one client more, or null |
| `Caches.LRUCache.Release` | TeamyApp/Pods/leveldb-library/util/cache.cc:261-264 | gives a client's reference back |
| `Caches.LRUCache.Insert` | TeamyApp/Pods/leveldb-library/util/cache.cc:266-303 | the bounded map with the new entry, the one it replaces and the oldest idle ones gone; usage fits or nothing is idle |
| `Caches.LRUCache.FinishErase` | TeamyApp/Pods/leveldb-library/util/cache.cc:307-316 | the entry leaves the cache, and its charge with it |
| `Caches.LRUCache.Erase` | TeamyApp/Pods/leveldb-library/util/cache.cc:318-321 | the map without the key |
| `Caches.LRUCache.Prune` | TeamyApp/Pods/leveldb-library/util/cache.cc:323-333 | the map without its idle entries |
| `Separators.BytewiseIsTotal` | TeamyApp/Pods/leveldb-library/util/comparator.cc:25-27 | byte order is a total order |
| `Separators.BytewiseShortens` | TeamyApp/Pods/leveldb-library/util/comparator.cc:29-64 | the separator lies from its start up to, not at, its limit, the successor not before its key; equal keys are left alone |
| `Separators.FindShortestSeparator` | TeamyApp/Pods/leveldb-library/util/comparator.cc:29-50 | the loop computes that separator |
| `Separators.FindShortSuccessor` | TeamyApp/Pods/leveldb-library/util/comparator.cc:52-64 | the loop computes that successor |
| `Separators.InternalIsTotal` | TeamyApp/Pods/leveldb-library/db/dbformat.cc:51-67 | internal keys in bytes are totally ordered |
| `Separators.InternalSeparatorIs` | TeamyApp/Pods/leveldb-library/db/dbformat.cc:69-86 | the separator of internal keys lies from the first up to, not at, the second; if shortened, its user key lies strictly between theirs |
| `Separators.InternalSuccessorIs` | TeamyApp/Pods/leveldb-library/db/dbformat.cc:88-101 | for any comparator the successor is not before the key |
| `Separators.SeparatesIff` | TeamyApp/Pods/leveldb-library/db/dbformat.cc:69-86 | for any comparator all separators lie so if and only if none that is shorter and larger than its start reaches the limit |
| `Separators.DocumentedSeparatesIff` | TeamyApp/Pods/leveldb-library/include/leveldb/comparator.h:44-55 | for a documented comparator if and only if no key gets a shorter and larger separator from itself |
| `Separators.DocumentedIsNotEnough` | TeamyApp/Pods/leveldb-library/db/dbformat.cc:69-86 | a comparator that keeps only the documented promise can give a separator behind the limit, for equal user keys |
| `ShortKeys.SeparatorShortest` | TeamyApp/Pods/leveldb-library/util/comparator.cc:29-50 | a separator other than its start is the shortest of all keys from the start up to, not at, the limit |
| `ShortKeys.SeparatorChanges` | TeamyApp/Pods/leveldb-library/util/comparator.cc:29-50 | it is other than its start exactly when the first differing bytes leave room between them |
| `ShortKeys.SuccessorShortest` | TeamyApp/Pods/leveldb-library/util/comparator.cc:52-64 | no key behind the given one is shorter than its successor |
| `ShortKeys.SuccessorBehind` | TeamyApp/Pods/leveldb-library/util/comparator.cc:52-64 | the successor is behind the key, but for a run of 0xff, which is left alone |
| `ShortKeys.InternalSeparatorShortens` | TeamyApp/Pods/leveldb-library/db/dbformat.cc:69-86 | a separator of internal keys is the start, or shorter and before every key of its user key; it is shortened exactly if the user separator is shorter and larger |
| `Blocks.BlockBuilder.Add` | TeamyApp/Pods/leveldb-library/table/block_builder.cc:72-106 | one entry more, with prefix compression and restart points kept right |
| `Blocks.BlockBuilder.Finish` | TeamyApp/Pods/leveldb-library/table/block_builder.cc:62-70 | the block's bytes, restart array and count |
| `Blocks.EntryRoundTrip` | TeamyApp/Pods/leveldb-library/table/block.cc:54-74 | an entry's bytes are decoded to it, given the key before |
| `Blocks.DecodeEntryFast` | TeamyApp/Pods/leveldb-library/table/block.cc:54-74 | the one-byte fast path decodes as three varints do |
| `Blocks.BlockEncodes` | TeamyApp/Pods/leveldb-library/table/block_builder.cc:62-106 | parsing a finished block finds exactly the entries added, at the offsets the restart points name |
| `FormatExamples.BlockOfThree` | TeamyApp/Pods/leveldb-library/table/block_builder.cc:5-27 | a block of three entries, one sharing a prefix and one at a restart point, byte for byte |
| `BlockIters.Iter.ParseNextKey` | TeamyApp/Pods/leveldb-library/table/block.cc:224-251 | in a finished block the next entry; on any bytes it advances or stops |
| `BlockIters.Iter.FindBlock` | TeamyApp/Pods/leveldb-library/table/block.cc:164-189 | the binary search ends at the last restart point before the target |
| `BlockIters.Iter.ScanTo` | TeamyApp/Pods/leveldb-library/table/block.cc:156-160 | the scan stops at the last entry before the given offset |
| `BlockIters.Iter.Seek` | TeamyApp/Pods/leveldb-library/table/block.cc:163-201 | binary then linear search lands on the first key at or after the target |
| `BlockIters.Iter.Next` | TeamyApp/Pods/leveldb-library/table/block.cc:137-140 | the next entry |
| `BlockIters.Iter.Prev` | TeamyApp/Pods/leveldb-library/table/block.cc:142-161 | the entry before |
| `TwoLevels.SeekLands` | TeamyApp/Pods/leveldb-library/table/two_level_iterator.cc:82-87 | seeking in the index and then in the block is seeking in all entries |
| `TwoLevels.JoinedSorted` | TeamyApp/Pods/leveldb-library/table/two_level_iterator.cc:82-87 | under a proper index the blocks' entries in a row are sorted |
| `TwoLevels.TwoLevelIterator.InitDataBlock` | TeamyApp/Pods/leveldb-library/table/two_level_iterator.cc:146-161 | an iterator of the block the index stands at, the old one kept if it is the same |
| `TwoLevels.TwoLevelIterator.SkipEmptyDataBlocksForward` | TeamyApp/Pods/leveldb-library/table/two_level_iterator.cc:115-126 | terminates on the next entry there is, without moving over any |
| `TwoLevels.TwoLevelIterator.SkipEmptyDataBlocksBackward` | TeamyApp/Pods/leveldb-library/table/two_level_iterator.cc:128-139 | the same backwards |
| `TwoLevels.TwoLevelIterator.Seek` | TeamyApp/Pods/leveldb-library/table/two_level_iterator.cc:82-87 | a seek in the concatenation of the blocks |
| `TwoLevels.TwoLevelIterator.SeekToFirst` | TeamyApp/Pods/leveldb-library/table/two_level_iterator.cc:89-94 | its first entry |
| `TwoLevels.TwoLevelIterator.SeekToLast` | TeamyApp/Pods/leveldb-library/table/two_level_iterator.cc:96-101 | its last entry |
| `TwoLevels.TwoLevelIterator.Next` | TeamyApp/Pods/leveldb-library/table/two_level_iterator.cc:103-107 | one entry on, over empty blocks |
| `TwoLevels.TwoLevelIterator.Prev` | TeamyApp/Pods/leveldb-library/table/two_level_iterator.cc:109-113 | one entry back, over empty blocks |
| `Blooms.KeysMatch` | TeamyApp/Pods/leveldb-library/util/bloom.cc:56-80 | a Bloom filter lets every key it was made of through |
| `Blooms.MatchesIff` | TeamyApp/Pods/leveldb-library/util/bloom.cc:28-80 | a key passes if and only if each of its probes is a probe of some key of the filter |
| `Blooms.NoKeysMatchNothing` | TeamyApp/Pods/leveldb-library/util/bloom.cc:28-80 | so a filter of no keys rejects every key |
| `Blooms.CreateFilter` | TeamyApp/Pods/leveldb-library/util/bloom.cc:28-54 | the loops set just the probed bits |
| `Blooms.TestKey` | TeamyApp/Pods/leveldb-library/util/bloom.cc:56-80 | the loop tests just those |
| `FilterBlocks.BloomNeverRejects` | TeamyApp/Pods/leveldb-library/util/bloom.cc:28-80 | so the Bloom policy never rejects a key it was given |
| `FilterBlocks.PlacedPasses` | TeamyApp/Pods/leveldb-library/table/filter_block.cc:90-104 | a key in the filter of its block's two-kilobyte range passes the reader |
| `FilterBlocks.FilterBlockBuilder.StartBlock` | TeamyApp/Pods/leveldb-library/table/filter_block.cc:21-27 | filters are made up to the block's range, empty ones included |
| `FilterBlocks.FilterBlockBuilder.AddKey` | TeamyApp/Pods/leveldb-library/table/filter_block.cc:29-33 | the key is pending at the current block's offset |
| `FilterBlocks.FilterBlockBuilder.GenerateFilter` | TeamyApp/Pods/leveldb-library/table/filter_block.cc:51-75 | the pending keys become one group |
| `FilterBlocks.FilterBlockBuilder.Finish` | TeamyApp/Pods/leveldb-library/table/filter_block.cc:35-49 | the finished block lets every key added pass at its block's offset |
| `FormatExamples.FilterBlockOfThree` | TeamyApp/Pods/leveldb-library/table/filter_block.cc:44-60 | a filter block with an empty filter in it, byte for byte |
| `TableBuilders.TableBuilder.Add` | TeamyApp/Pods/leveldb-library/table/table_builder.cc:94-123 | one entry more; the block is ended, and written, exactly when the entry brings it to the block size; the index entry of the block before gets the separator to this key |
| `TableBuilders.TableBuilder.Flush` | TeamyApp/Pods/leveldb-library/table/table_builder.cc:125-139 | the block built so far is written as it is, nothing lost |
| `TableBuilders.TableBuilder.WriteRawBlock` | TeamyApp/Pods/leveldb-library/table/table_builder.cc:177-194 | the contents and their trailer lie at the handle |
| `TableBuilders.TableBuilder.Finish` | TeamyApp/Pods/leveldb-library/table/table_builder.cc:198-253 | the file is a table of all entries added: blocks, index, filter, metaindex and footer where the handles say |
| `TableBuilders.ReadBlock` | TeamyApp/Pods/leveldb-library/table/format.cc:64-139 | a block is read exactly if it is in the file, uncompressed, and right in its checksum when that is asked for; it is then the bytes at the handle, so what was stored is read back |
| `Rejections.DamagedBlockFails` | TeamyApp/Pods/leveldb-library/table/format.cc:84-94 | a stored block with up to four bytes in a row changed fails its checksum |
| `Rejections.OtherMagicFails` | TeamyApp/Pods/leveldb-library/table/format.cc:42-55 | a footer with other than the magic number is refused |
| `TableBuilders.HandleRoundTrip` | TeamyApp/Pods/leveldb-library/table/format.cc:15-29 | a handle is decoded to itself, whatever follows it |
| `TableBuilders.FooterRoundTrip` | TeamyApp/Pods/leveldb-library/table/format.cc:31-62 | so is a footer |
| `FormatExamples.Footer` | TeamyApp/Pods/leveldb-library/table/format.cc:31-41 | a footer with its magic number, byte for byte |
| `FormatExamples.BlockTrailer` | TeamyApp/Pods/leveldb-library/table/table_builder.cc:177-194 | the trailer of an empty block, byte for byte |
| `TableBuilders.FilteredPasses` | TeamyApp/Pods/leveldb-library/table/table_builder.cc:111-113 | every key passes the filter at the offset of the block it is in |
| `TableReaders.Open` | TeamyApp/Pods/leveldb-library/table/table.cc:38-82 | opening a table finds its index, and its filter if the policy's name is there |
| `TableReaders.ReadMeta` | TeamyApp/Pods/leveldb-library/table/table.cc:84-134 | the filter block, through the metaindex |
| `TableReaders.SeekInBlock` | TeamyApp/Pods/leveldb-library/table/table.cc:220-237 | a block's first entry at or after a key |
| `TableReaders.TableIndexes` | TeamyApp/Pods/leveldb-library/table/table.cc:210-214 | a table's iterator is a two-level cursor over all its entries |
| `TableReaders.GapHasOtherUser` | TeamyApp/Pods/leveldb-library/table/table.cc:216-244 | a key that falls between a block and its shortened index key has another user key than the next block's first |
| `TableReaders.InternalNeverRejects` | TeamyApp/Pods/leveldb-library/db/dbformat.cc:105-119 | a policy that never rejects does so on user keys of internal keys too |
| `TableReaders.InternalGet` | TeamyApp/Pods/leveldb-library/table/table.cc:216-244 | index seek, filter and block seek, as one function of the table |
| `TableReaders.LookupIsExact` | TeamyApp/Pods/leveldb-library/table/table.cc:216-244 | if the first entry at or after the target has its user key, just that entry is found, separators and filter notwithstanding; no other entry ever is |
| `TableFiles.BuildTable` | TeamyApp/Pods/leveldb-library/table/table_builder.cc:94-253 | any increasing entries, added one by one and finished, make a table of just those, in which every block but the last ends with the entry that brings it to the block size |
| `TableFiles.TableGet` | TeamyApp/Pods/leveldb-library/table/table.cc:216-244 | Open and InternalGet in a row are exact in that sense |
| `TableFiles.BuildThenGet` | TeamyApp/Pods/leveldb-library/table/table.cc:38-244 | so are building, opening and looking up, for every increasing input and every key |
| `NanopbFields.FieldIter.Next` | TeamyApp/Pods/nanopb/pb_common.c:20-76 | the next field and the number of required fields before it, or around to the first |
| `NanopbFields.FieldIter.Find` | TeamyApp/Pods/nanopb/pb_common.c:78-95 | wherever it starts, the wrapped-around search finds the field with the tag if there is one |
| `NanopbWire.Varint32Accepts` | TeamyApp/Pods/nanopb/pb_decode.c:187-247 | every number of 32 bits is decoded from its varint, whatever follows it |
| `NanopbWire.Varint32Rejects` | TeamyApp/Pods/nanopb/pb_decode.c:187-247 | larger ones, up to 63 bits, are refused |
| `NanopbWire.OrBit` | TeamyApp/Pods/nanopb/pb_decode.c:231-234 | bitwise or, bit by bit |
| `NanopbWire.AllBits` | TeamyApp/Pods/nanopb/pb_decode.c:1056-1071 | a word equals its all-ones mask exactly when every bit below is set |
| `NanopbEncode.FixedSize` | TeamyApp/Pods/nanopb/pb_encode.c:169-177 | fixed-width arrays take the size reckoned without a sizing pass |
| `NanopbEncoders.VarintBytes` | TeamyApp/Pods/nanopb/pb_encode.c:608-628 | the loop with its last high bit cleared gives the varint |
| `NanopbEncoders.OStream.Write` | TeamyApp/Pods/nanopb/pb_encode.c:103-124 | fails exactly when the stream would overrun, and then writes nothing; otherwise the bytes go where it stood |
| `NanopbEncoders.OStream.EncodeItem` | TeamyApp/Pods/nanopb/pb_encode.c:55-69 | each type's encoder writes its encoding, exactly if it fits |
| `NanopbEncoders.OStream.EncodePacked` | TeamyApp/Pods/nanopb/pb_encode.c:162-205 | a packed array, its size found first, exactly if it fits |
| `NanopbEncoders.OStream.EncodeField` | TeamyApp/Pods/nanopb/pb_encode.c:341-426 | required, optional, singular, repeated and oneof fields, exactly if they fit |
| `NanopbEncoders.OStream.EncodeSubmessage` | TeamyApp/Pods/nanopb/pb_encode.c:717-765 | sizing first, then a substream of just that size, which never comes out different |
| `NanopbEncoders.OStream.Encode` | TeamyApp/Pods/nanopb/pb_encode.c:528-550 | on a buffer stream: success exactly when the message can be encoded and fits, then its bytes and no others are written; never a byte past the end. On a sizing stream: the exact size |
| `NanopbEncoders.GetEncodedSize` | TeamyApp/Pods/nanopb/pb_encode.c:567-576 | the number of bytes of the encoding |
| `NanopbEncoders.SizeThenEncode` | TeamyApp/Pods/nanopb/pb_encode.c:567-576 | if the size is N, encoding into at most max_size bytes works exactly when N <= max_size, writes N bytes and touches nothing else |
| `NanopbDecoders.AllPresent` | TeamyApp/Pods/nanopb/pb_decode.c:1051-1072 | the check of whole words and a last partial word finds exactly whether every tracked required field was seen |
| `NanopbDecoders.CheckRequired` | TeamyApp/Pods/nanopb/pb_decode.c:1033-1073 | counting the required fields by walking on to the end |
| `NanopbDecoders.IStream.DecodeVarint32` | TeamyApp/Pods/nanopb/pb_decode.c:187-247 | on any bytes, with the 8-bit shift count that wraps around |
| `NanopbDecoders.IStream.DecodeVarint` | TeamyApp/Pods/nanopb/pb_decode.c:255-274 | on any bytes: the 64-bit value, or failure |
| `NanopbDecoders.IStream.DecodeTag` | TeamyApp/Pods/nanopb/pb_decode.c:298-319 | tag and wire type, the end of the message, or failure |
| `NanopbDecoders.IStream.SkipField` | TeamyApp/Pods/nanopb/pb_decode.c:321-330 | past the field, by its wire type |
| `NanopbDecoders.IStream.DecodeItem` | TeamyApp/Pods/nanopb/pb_decode.c:68-81 | each type's decoder, on any bytes |
| `NanopbDecoders.IStream.DecodeSubmessage` | TeamyApp/Pods/nanopb/pb_decode.c:1506-1528 | a substream decoded on top of what is there, and closed |
| `NanopbDecoders.IStream.DecodeStaticField` | TeamyApp/Pods/nanopb/pb_decode.c:406-483 | by the field's rule: packed or single items, oneofs switched |
| `NanopbDecoders.IStream.DecodeNoinit` | TeamyApp/Pods/nanopb/pb_decode.c:928-1076 | on any bytes and any message to start from: the merged message, or failure, with iterator, bitmap and substreams in play |
| `NanopbDecoders.IStream.Decode` | TeamyApp/Pods/nanopb/pb_decode.c:1078-1090 | the same from the defaults |
| `NanopbRoundTrip.NumbersBack` | TeamyApp/Pods/nanopb/pb_decode.c:1332-1415 | signed, unsigned and zigzag numbers of every width survive the wire |
| `NanopbRoundTrip.ItemBack` | TeamyApp/Pods/nanopb/pb_decode.c:68-81 | what is encoded of an item is decoded to it, or refused if it cannot be decoded, whatever follows |
| `NanopbRoundTrip.FieldsBack` | TeamyApp/Pods/nanopb/pb_decode.c:928-1076 | so for the first fields of a message, whatever follows them |
| `NanopbRoundTrip.DecodesTo` | TeamyApp/Pods/nanopb/pb_decode.c:1078-1090 | decoding an encoded message gives the defaults with all that was present, and fails exactly when a string fills its storage or a length needs more than 32 bits |
| `NanopbRoundTrip.BackIsSame` | TeamyApp/Pods/nanopb/pb_decode.c:839-922 | what comes back is the same message up to storage not in use, if and only if nothing left out as zero has another default |
| `NanopbRoundTrip.RoundTrip` | TeamyApp/Pods/nanopb/pb_encode.c:528-550 | both together: decoding succeeds exactly under that condition, and gives the message back exactly when no default replaces a zero |
| `NanopbRoundTrip.NothingToReplace` | TeamyApp/Pods/nanopb/pb_decode.c:839-922 | of a description whose singular fields have no defaults, as in proto3, every message comes back |
| `NanopbRoundTrip.FullStringFails` | TeamyApp/Pods/nanopb/pb_encode.c:875-899 | a string without room for its zero is encoded and then refused |
| `NanopbRoundTrip.DefaultReplacesZero` | TeamyApp/Pods/nanopb/pb_encode.c:240-337 | a singular field with a default of its own turns from zero into it |
| `NanopbUnknown.OneIgnored` | TeamyApp/Pods/nanopb/pb_decode.c:960-989 | a well-formed field of an unknown tag changes nothing |
| `NanopbUnknown.UnknownIgnored` | TeamyApp/Pods/nanopb/pb_decode.c:960-989 | any number of them, between any fields of an encoded message, change nothing |
| `NanopbUnknown.ReadByStranger` | TeamyApp/Pods/nanopb/pb_encode.c:675-692 | a reader that knows no field passes over any encoded message to its end: each tag announces the bytes that follow it |
| `NanopbFailures.CutTagFails` | TeamyApp/Pods/nanopb/pb_decode.c:952-957 | an encoded message followed by part of a tag's varint is refused |
| `NanopbFailures.CutMessageFails` | TeamyApp/Pods/nanopb/pb_decode.c:928-1076 | so is one cut inside the record of a field |
| `NanopbFailures.MissingRequiredFails` | TeamyApp/Pods/nanopb/pb_decode.c:1051-1072 | so is one without a tracked required field |
| `NanopbFailures.BadWireTypeFails` | TeamyApp/Pods/nanopb/pb_decode.c:321-331 | so is a field of unknown tag with a wire type there is none of |
| `NanopbFailures.TooManyFails` | TeamyApp/Pods/nanopb/pb_decode.c:436-462 | so are more items than an array has room for |
| `NanopbExamples.Int150` | TeamyApp/Pods/nanopb/pb_encode.c:675-692 | the number 150 in field 1, byte for byte |
| `NanopbExamples.Fixed32Seven` | TeamyApp/Pods/nanopb/pb_encode.c:675-692 | a fixed32 field, byte for byte, with wire type 5 |
| `NanopbExamples.Fixed64One` | TeamyApp/Pods/nanopb/pb_encode.c:675-692 | a fixed64 field, with wire type 1 |
| `NanopbExamples.PackedThree` | TeamyApp/Pods/nanopb/pb_encode.c:147-236 | a packed array |
| `NanopbExamples.NestedInt150` | TeamyApp/Pods/nanopb/pb_encode.c:717-766 | a submessage |

## Left out

Not modelled:

- Env and POSIX files, mmap, locks, threads, loggers, I/O errors and the error states they lead to, paranoid_checks,
  repair, statistics and the C interface: a file is a sequence of bytes, a directory a map.
- Snappy compression, the hardware CRC, and the literal CRC tables, which are replaced by the recurrences that define
  them.
- Compaction scores, seek-based compaction, sizes of files and memtables, and where outputs are cut: all
  nondeterministic here, so that the results hold for every choice. Compaction pointers are encoded and decoded, but
  pick nothing.
- Manual compactions as steps of the database and the store: what they pick is modelled, and why they cannot be let in
  as they are.
- File systems that lose other than the unsynced end of a log file: tables and manifests, which the source syncs before
  it relies on them, are taken to be safe. reuse_logs.
- Memory orders of the skip list: its loads and stores are single sequentially consistent steps.
- Arenas, the sharding and the destructor of the cache, the block and table caches, ApproximateOffsetOf, Abandon.
- Sequence numbers stay below the largest one, and lengths within the widths of the format, where a contract says so.
- nanopb's callbacks, extensions, pointer fields and everything else under PB_ENABLE_MALLOC (also the release of a
  oneof's old member), arrays of fixed count, PB_WITHOUT_64BIT and struct layout: a struct is a map of slots.
- size_t is unbounded for encoded sizes, and uint_fast8_t is taken to have 8 bits.

Where a contract says less than its source, or more is assumed:

- Durability.Store.FinishCompaction: takes the manifest's record as one step; its bytes are the subject of VersionSets.
- Durability.Store.Append: logs a batch as one step; a disk that ends inside its bytes is treated by LogFiles.CutDisk.
- Database.DBImpl.FinishCompaction: once an old value of a key has resurfaced, nothing is promised about that key.
- LogReader.ReadLog: reads from offset 0; resynchronising from a later initial offset is not modelled.
- Blocks.DecodeEntryFast: rejects lengths whose 32-bit sum wraps around, which the source lets through.
- Separators.InternalIsTotal: keys shorter than eight bytes, which the source never compares, get an arbitrary place.
- HandleTables.HandleTable.FindPointer: takes the hash modulo the number of buckets, a power of two in the source.
- Inputs.GetOverlappingInputs: states the closed range through ghost results, which its callers then use.
- NanopbDecoders.IStream.DecodeNoinit: does not say what a failed call leaves in the message.
- NanopbRoundTrip.RoundTrip: for encodings of less than 2^63 bytes.
- TableFiles.BuildThenGet: for files of less than 2^32 bytes, so that all block sizes fit.
