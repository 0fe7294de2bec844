# drydb, modelled and proved in Dafny

drydb is a read-only key-value store in one file: a builder sorts the rows of each table with a bounded
buffer, writes them once, front to back, as B+Trees of fixed-size pages, and readers search and scan
those trees through a page cache under a memory budget.

The project models that path from end to end and proves it right for every input:

| files | what they model |
|---|---|
| `Encoding`, `Keys` | key encodings: the law a digest keeps, the built-in encodings, composite index keys |
| `Eytzinger`, `Page`, `Codec`, `WritePage` | one page: its digest layouts, its checks, its bytes, the search on it |
| `Tree`, `Search`, `Query`, `Cursor` | the tree: descent, point lookup, cached lookup, range cursors, counting |
| `Writer`, `Refs`, `TreeWriter` | the one-pass tree writer, on bytes, and the references it hands out |
| `Merge`, `Spool` | the external sort: runs on disk, the merge heap, the tiers of runs |
| `Index`, `IndexScan`, `Table` | secondary indexes: record ids, range translation, building, scanning |
| `Verify`, `Built`, `Mixed`, `Reach` | the verification pass: which trees pass, among them all the builder writes, what a clean report does and does not imply, and what lookups find then |
| `Shard`, `Cache`, `Store` | the page cache as a state machine, eviction, and reservations under the budget |

Things that compute are functions; things the program updates in place are classes or loops, each proved
against a specification. A reader is never given more than the file: a `Tree` is a sequence of pages some
of which may not decode, `avail` is the set of pages that can be loaded during a call, and every contract
says what holds when a load fails. A `Shape` lists the pages of each level and is only a witness: it
appears in contracts, never in code.

The main results build on one another.

- **Pages.** What is written is read back (`Codec.RoundTrip`), the check on a page decides exactly what the
  search on it needs (`Pages.CheckDigests`, `Pages.LeafSearch`).
- **Trees.** On a well-formed tree every search gives the answer of a linear scan over all rows
  (`Searching.Search`), and on any other file answers come from sound pages only. A scan hands out exactly the
  rows between its bounds, in order, each once, whatever fails on the way (`Cursors.Cursor.Advance`), and
  `Cursors.CountRange` counts them.
- **Building.** Whatever is pushed, `TreeBuilding.TreeWriter.Finish` leaves bytes in which readers find a
  well-formed tree with exactly those rows, of logarithmic height, and references that lead to their values.
- **Sorting.** `Spooling.RecordSpool.IntoSorted` gives back every record, sorted and stable, after any
  number of spills and merges, and each byte was written few times.
- **Indexes.** `TableBuilding.BuildTable` joins the three, and `TableBuilding.ScanAnswers` says that a scan
  of the index hands out the rows whose index key is inside the bounds, with their values.
- **Verification.** `Verifying.VerifyTree` ends with a clean report if and only if everything it checks is in
  order. That is the case for every well-formed tree and so for all files the builder writes
  (`BuiltFiles.FinishAndVerify`). It implies a well-formed tree under a condition on the file that is shown to
  be needed, and `Reaching.FoundExactly` says what lookups find where it does not hold.
- **Cache.** Over every run of any number of threads (`Caching.RunsKeep`), the budget counts what is held
  and is not exceeded, every page being loaded has one loader, and nobody waits in vain. `Shards.ClockRule` says
  which page goes.

Throughout, `Lawful` is what the program expects of a key encoding: a total order on the keys it can read,
digests that follow that order, and keys that come back from their digests where it says they do. The
encodings that ship with drydb are proved to be lawful.

## Model

| member | source | states |
|---|---|---|
| `Eytzinger.CompleteSizeIsLeast` | crates/drydb/src/format/node.rs:113-122 | the digest area of `n` entries is the smallest complete tree that holds `n`: it fits under any other complete tree exactly when the entries do |
| `Eytzinger.ComputeCompleteSize` | crates/drydb/src/format/node.rs:113-122 | the doubling loop finds that size |
| `Eytzinger.SlotAtIsInverse` | crates/drydb/src/btree.rs:245-305 | the slot of the entry at a position has that position when the slots are read left to right |
| `Eytzinger.FoundAt` | crates/drydb/src/btree.rs:245-305 | and the entry at the position of a slot has that slot, so slots and positions correspond one to one |
| `Eytzinger.ScatterEytzinger` | crates/drydb/src/builder/tree.rs:639-656 | scattering in place: read left to right, the slots are the sorted digests followed by padding |
| `Eytzinger.ScatteredTurnCounts` | crates/drydb/src/format/node.rs:397-421 | the place where the slots turn from below the probe to not below it is the number of digests below the probe, so padding never counts |
| `Eytzinger.DescendRank` | crates/drydb/src/format/node.rs:397-421 | the branch-free descent over the slots stops at that turn |
| `Eytzinger.First` | crates/drydb/src/btree.rs:245-305 | walking the left spine finds the slot of the first entry |
| `Eytzinger.Successor` | crates/drydb/src/btree.rs:245-305 | stepping through the implicit tree visits the slots in key order and ends behind the last |
| `Encodings.NothingBehindCut` | crates/drydb/src/btree.rs:483-531 | on ascending keys, the first entry that is not before the probe has none before the probe behind it, equal digests included |
| `Pages.CheckDigests` | crates/drydb/src/btree.rs:152-200 | accepts a page if and only if it is sound: readable keys that match their digests and ascend, in each of the three layouts |
| `Pages.SoundOmittedPage` | crates/drydb/src/btree.rs:152-200 | a page that leaves its keys out is sound if and only if the encoding rebuilds keys and each digest is above the one before it, or equal to it where digests are inexact |
| `Pages.CheckEytzinger` | crates/drydb/src/btree.rs:245-305 | for the tree layout, if and only if every slot holds the digest of the entry it stands for, or padding |
| `Pages.CheckedKeysAscend` | crates/drydb/src/btree.rs:152-243 | the keys of an accepted page ascend, strictly unless they come from inexact digests |
| `Pages.LowerBoundRank` | crates/drydb/src/format/node.rs:397-421 | the rank search over digests, sorted or scattered, finds the turn |
| `Pages.LeafSearch` | crates/drydb/src/btree.rs:483-531 | starting from the digest rank, the search gives the answer a scan of all keys of the page would give, for all three operations; a match it reports compares equal on any page |
| `Trees.NoRepeats` | crates/drydb/src/btree.rs:758-782 | no page is twice on the sibling chain of a level, so a walk of the chain ends |
| `Trees.LevelsApart` | crates/drydb/src/btree.rs:368-412 | no page is on two levels, so a descent ends |
| `Searching.TreePage` | crates/drydb/src/btree.rs:97-113 | a page is given out if and only if it can be loaded and, unless checking is off, is sound; an unsound one is refused as corrupt |
| `Searching.ChildIndex` | crates/drydb/src/btree.rs:429-450 | the child chosen is the last whose separator does not sort above the key, or the one before a run of equal inexact separators, and only such a choice is reported as inexact |
| `Searching.RouteDown` | crates/drydb/src/btree.rs:368-412 | one step down keeps the promise of a descent: the answer is not left of the page, and not right of it unless a choice was inexact |
| `Searching.Descend` | crates/drydb/src/btree.rs:368-412 | the leaf reached keeps that promise on every tree whose rows lead to its pages, and the descent fails only if a page cannot be loaded; it ends on every file; nothing is in doubt where the pages above the leaves compare keys |
| `Searching.EdgeLeaf` | crates/drydb/src/btree.rs:707-756 | the first or last entry of the tree, or none if there are no rows |
| `Searching.EndsAt` | crates/drydb/src/btree.rs:694-705 | the page is the last of the chain in that direction, if and only if |
| `Searching.StepSibling` | crates/drydb/src/btree.rs:758-782 | the sibling is a leaf that points back, and every such leaf is accepted |
| `Searching.Search` | crates/drydb/src/btree.rs:533-584 | on a well-formed tree the answer to each of the three operations is that of a scan of all rows; it fails only if a page cannot be loaded; an equal match is right on every file; with checking on, on any file whatever, an answer or its absence comes from a way down from the root, no longer than allowed, and a walk along the leaves, all through sound pages each of which leads to the next; on any tree that can be descended a lookup that is not in doubt finds exactly what the one leaf it comes to has, and one that is in doubt finds any entry ahead of it |
| `Searching.FindMeansPresent` | crates/drydb/src/btree.rs:586-592 | an entry is found if and only if some row compares equal to the key, and it is the first such row; where keys are compared exactly, if and only if the key is in the tree, at its row |
| `Searching.FindCached` | crates/drydb/src/btree.rs:594-677 | the lookup that reads only cached pages gives the same answer as the full search or none, and gives one when all pages are cached |
| `Queries.SliceIsRange` | crates/drydb/src/query.rs:623-678 | the rows inside the bounds are one slice of all rows, so that comparing positions is comparing keys |
| `Queries.LeafBounds` | crates/drydb/src/query.rs:623-678 | the limit on a leaf, and whether the scan ends there, for both orders and all kinds of bounds |
| `Queries.NextPage` | crates/drydb/src/query.rs:574-621 | the scan moves to the entry beside the leaf, or ends where there is none inside the bounds |
| `Queries.DescendingStart` | crates/drydb/src/query.rs:489-529 | a descending scan starts on the last row before the cut, across leaf borders |
| `Queries.SeekFirst` | crates/drydb/src/query.rs:465-487 | the first entry of the scan in its order, or none exactly when no row is inside |
| `Queries.Step` | crates/drydb/src/query.rs:552-572 | one step goes to the next row in the order, and gives none exactly at the end of the range |
| `Cursors.SelectedIsFiltered` | crates/drydb/src/query.rs:36-95 | a row is among those selected if and only if its key is inside both bounds |
| `Cursors.DescendingReverses` | crates/drydb/src/query.rs:372-375 | the descending scan is the ascending one backwards |
| `Cursors.Materialize` | crates/drydb/src/query.rs:685-740 | an entry is read with its own key, rebuilt from the digest if need be, and its own value, from its blob page if need be |
| `Cursors.Cursor.Advance` | crates/drydb/src/query.rs:377-395 | after any sequence of calls the rows handed out are a prefix of the rows selected; a call that fails leaves the position as it was; it ends exactly when all are handed out; it fails only if a page or memory is missing; on any file, with checking on, each row is the key and value of one entry of a sound leaf |
| `Cursors.Cursor.Restore` | crates/drydb/src/query.rs:412-435 | a saved position can be taken up again with the rows handed out up to it |
| `Cursors.Open` | crates/drydb/src/query.rs:282-370 | refused if and only if a bound is no key or the bounds cross; then it selects nothing, or has a bound that is no key, or its two bounds have one digest in a tree of digests only |
| `Cursors.CountRange` | crates/drydb/src/query.rs:783-853 | the count, made leaf by leaf without reading values, is the number of rows a scan would hand out |
| `Codec.RoundTrip` | crates/drydb/src/format/node.rs:191-590 | decoding the bytes of any page the builder can make gives that page back, for all combinations of layout flags, kinds and overflowing values |
| `Codec.KindBytes` | crates/drydb/src/format/node.rs:38-46 | which kind words there are, bit by bit: the kind, the three flags and how they may be combined; the retired flag and all others are refused |
| `Codec.HeaderBytes` | crates/drydb/src/format/node.rs:191-297 | what the first 28 bytes of any page that decodes say: its length, kind, flags, count and neighbours |
| `Codec.DigestBytes` | crates/drydb/src/format/node.rs:363-372 | where its digests are |
| `Codec.LeafBytes` | crates/drydb/src/format/node.rs:453-527 | where the entries of a leaf are, in each layout: a value length of 0xFFFF, or the top bit of an offset, stands for a value on a page of its own |
| `Codec.ChildBytes` | crates/drydb/src/format/node.rs:528-573 | and the entries of an internal page |
| `Codec.Validate` | crates/drydb/src/format/node.rs:329-361 | accepts exactly the pages every entry of which can be read |
| `Codec.PatchSetsRight` | crates/drydb/src/builder/tree.rs:345-349 | writing eight bytes over the page sets the right sibling and nothing else |
| `Codec.BlobReadsBack` | crates/drydb/src/builder/tree.rs:316-334 | a blob page can be read back if and only if the value leaves room for the page prefix in 31 bits, and is refused otherwise |
| `PageWriting.ArrangeDigests` | crates/drydb/src/builder/tree.rs:449-460 | the digest area: sorted as they are, or scattered so that reading left to right gives them back |
| `PageWriting.WritePage` | crates/drydb/src/builder/tree.rs:414-502 | the bytes put down area by area are the encoding of the page |
| `PageBuilding.OneSeparatorFits` | crates/drydb/src/builder/tree.rs:599-634 | a key that fits on a leaf fits on an internal page |
| `PageBuilding.ChosenLayoutIsOk` | crates/drydb/src/builder/tree.rs:570-597 | the layout chosen is one the format allows, for every page size and encoding |
| `PageBuilding.ChosenLayoutIsSmallest` | crates/drydb/src/builder/tree.rs:570-591 | and no other that is allowed makes a page any smaller |
| `PageBuilding.KeyFitsMeans` | crates/drydb/src/builder/tree.rs:593-634 | a key is taken if and only if a leaf has room for it with a page number, and an internal page for it twice |
| `PageBuilding.BuiltIsChecked` | crates/drydb/src/builder/tree.rs:414-502 | every page built passes the reader's check and is searched exactly |
| `TreeWriting.AppendPage` | crates/drydb/src/builder/tree.rs:336-349 | the file holds the encoding of every page, with the page before linked to the new one and nothing else changed |
| `TreeWriting.Rotate` | crates/drydb/src/builder/tree.rs:336-401 | writing out a page and listing it above, which may cascade and add a level, keeps every row, every link and the order, and every page above a leaf lists at least two; with keys that fit it fails only when the file has all the pages a page number can name |
| `TreeWriting.MakeRoom` | crates/drydb/src/builder/tree.rs:336-412 | an internal page is written out only when the next separator does not fit on it |
| `TreeWriting.LevelsAreFew` | crates/drydb/src/builder/tree.rs:336-401 | with keys that fit, the tree stays under 34 levels |
| `References.RefReadsBack` | crates/drydb/src/format/pageref.rs:31-62 | a reference that fits the format reads back |
| `References.LeafRefs` | crates/drydb/src/builder/tree.rs:508-528 | the reference of every row points behind its stored key, or is the one kept from its blob page |
| `References.LocatedBytes` | crates/drydb/src/builder/tree.rs:508-528 | the bytes a reference names in the written page are the value |
| `References.RefLeadsTo` | crates/drydb/src/index.rs:386-388 | following the encoded reference gives the value |
| `TreeBuilding.TreeWriter.constructor` | crates/drydb/src/builder/tree.rs:132-161 | a new writer holds no rows and leaves the pages already in the file alone |
| `TreeBuilding.TreeWriter.Push` | crates/drydb/src/builder/tree.rs:194-302 | the row is added, inline or on a page of its own; with keys that fit it fails only for a key or value over its limit, or when the file has all the pages a page number can name |
| `TreeBuilding.TreeWriter.Place` | crates/drydb/src/builder/tree.rs:236-261 | nothing is written as long as the row fits on the leaf, with its value or with the number of a page; the value goes elsewhere only if it does not fit |
| `TreeBuilding.FitMeans` | crates/drydb/src/builder/tree.rs:304-314 | where fitting is that the encoded leaf is no longer than a page |
| `TreeBuilding.TreeWriter.WriteBlob` | crates/drydb/src/builder/tree.rs:316-334 | the value is on a page of its own and the reference leads to it |
| `TreeBuilding.TreeWriter.Finish` | crates/drydb/src/builder/tree.rs:536-562 | the tree read from the bytes is well formed; it contains exactly the rows pushed, in order, if and only if each leaves room for the page prefix; its height is logarithmic in its leaves; internal pages but the last of a level list at least two; each reference leads to its value; earlier pages are untouched; with keys that fit it fails only when the file has all the pages a page number can name |
| `Verifying.Reporter.Problem` | crates/drydb/src/verify.rs:393-432 | a problem is counted, up to the number asked for; whatever is reported, the report is no longer clean, also when there is no room for it |
| `Verifying.Reporter.Failed` | crates/drydb/src/verify.rs:357-391 | a failure is never lost: lack of memory and failing reads are kept, the first of them, and anything else is a problem |
| `Verifying.CheckSeparator` | crates/drydb/src/verify.rs:594-694 | the report stays clean if and only if the separator fits the child, in all four mixes of layouts |
| `Verifying.FittingSeparatorIsFirstKey` | crates/drydb/src/verify.rs:594-694 | where parent and child agree on omitting keys or digests are exact, a separator that fits is the first key of the child |
| `Verifying.LowerChain.Expect` | crates/drydb/src/verify.rs:495-564 | the children, in the order listed, follow each other by their right links, and each starts where its separator says; a child that does is never reported |
| `Verifying.CheckAbove` | crates/drydb/src/verify.rs:929-940 | the report stays clean if and only if the key sorts above the one before it, or equals it where one of the two was rebuilt from an inexact digest |
| `Verifying.LevelsDistinct` | crates/drydb/src/verify.rs:753-958 | no page is twice in a tree that passes, on one level or on two |
| `Verifying.SizesFit` | crates/drydb/src/verify.rs:766-836 | so its levels together have no more pages than the file, and the budget of steps is never used up on it |
| `Verifying.WalkLevel` | crates/drydb/src/verify.rs:753-958 | a clean walk of a level means its pages are sound and linked both ways, its separators ascend, and they list exactly the pages of the level below, in order, each under a separator that fits; a level of which all this holds is walked without a finding |
| `Verifying.VerifyInternalLevels` | crates/drydb/src/verify.rs:753-958 | so do all levels from the root down, no more of them than allowed; and where they do, nothing is found |
| `Verifying.CheckOverflow` | crates/drydb/src/verify.rs:966-1011 | the report stays clean if and only if the page of an overflowing value can be read and is a leaf without entries |
| `Verifying.WalkLeaves` | crates/drydb/src/verify.rs:1230-1400 | a clean walk of the leaves means they are sound and linked both ways, each key sorts above the one before it across page borders, rebuilt keys excepted, and all blobs are there; leaves of which all this holds are walked without a finding |
| `Verifying.WalksAreEnough` | crates/drydb/src/verify.rs:1194-1408 | what the walks establish is a well-formed tree with all its values, if the layouts are uniform |
| `Verifying.WellFormedIsWalked` | crates/drydb/src/verify.rs:1194-1408 | conversely everything the walks look at is in order in every well-formed tree that has all its values, in all layouts |
| `Verifying.CleanIsWellFormed` | crates/drydb/src/verify.rs:1194-1408 | so that on uniform layouts clean and well formed are the same |
| `Verifying.VerifyTree` | crates/drydb/src/verify.rs:1194-1408 | on any file, a pass that ends with a clean report has found each of these things in order all over the tree, whatever the layouts; if the digests are exact or all pages agree on omitting keys, the tree is well formed, so that every search and every scan is right; and there are no false alarms: on every well-formed tree, and on every other in which these things are in order, the pass ends with a clean report if pages can be read and there is room for the keys |
| `BuiltFiles.FinishAndVerify` | crates/drydb/src/builder/tree.rs:536-562 | finishing a tree and running the pass over its bytes ends with a clean report, for all rows with keys that fit and values that can be read back |
| `BuiltFiles.TableIsClean` | crates/drydb/src/builder/mod.rs:489-603 | both trees of a table that was built pass, its rows and the index over them |
| `MixedLayouts.MixedIsWalked` | crates/drydb/src/verify.rs:621-673 | a file with stored separators over a leaf that omits its keys has everything in order that the pass checks |
| `MixedLayouts.MixedMisses` | crates/drydb/src/btree.rs:429-450 | and the leaf a lookup of the key on that leaf comes to has no such entry |
| `MixedLayouts.ReportsCleanAndMisses` | crates/drydb/src/verify.rs:1194-1408 | running the pass over that file ends with a clean report, and looking the key up ends with nothing found |
| `MixedLayouts.MixedExists` | crates/drydb/src/encoding.rs:524-580 | keys for such a file exist in an encoding that ships: composite keys over integers |
| `MixedLayouts.RunIsFound` | crates/drydb/src/btree.rs:429-531 | a file beside it that passes, whose second row also sorts above the first key of its leaf, and in which every key is found |
| `Reaching.AllFoundExactly` | crates/drydb/src/btree.rs:429-531 | rows over leaves of any layouts: the last leaf whose row is not above the key has an entry for it, for every key of the leaves, if and only if every leaf but the first starts where its row says: the row is not above its first key, unless the leaf before ends in that key; and keys of the leaf before that are not below the row are taken for that first key |
| `Reaching.FoundExactly` | crates/drydb/src/btree.rs:533-592 | in every tree that passes, with keys above its leaves, each key on a leaf is found if and only if that holds of every leaf |
| `Reaching.FoundExactlyInPlace` | crates/drydb/src/btree.rs:533-592 | for encodings that rebuild the least key of a digest: if and only if the row above each leaf but the first is its first key, or the leaf before ends in that key |
| `MixedLayouts.NumbersRebuildLeast` | crates/drydb/src/encoding.rs:520-585 | composite keys over integers, the ones shipped that can be rebuilt and are inexact, are such an encoding |
| `Reaching.CoarseComesTo` | crates/drydb/src/btree.rs:533-584 | in every tree that passes, with inexact digests above its leaves, the leaf where a lookup ends has an entry for the key or is left of one with nothing but smaller keys between, and the lookup knows to go on: so each key is found, whatever the layouts of the leaves |
| `Reaching.Lookup` | crates/drydb/src/btree.rs:586-592 | the lookup finds a key exactly when these say so |
| `Records.RecordReadsBack` | crates/drydb/src/builder/spool.rs:563-597 | a record in the spool file reads back if and only if its numbers fit the header |
| `Records.StoredHolds` | crates/drydb/src/builder/spool.rs:559-597 | a run reads back record by record, and ends where it ends |
| `Merging.SiftDown` | crates/drydb/src/builder/spool.rs:739-757 | the heap is restored below the node, over the same runs |
| `Merging.Heapify` | crates/drydb/src/builder/spool.rs:689-712 | the heap is a heap over all runs with records left |
| `Merging.Merger.Next` | crates/drydb/src/builder/spool.rs:779-798 | takes out one record that none of the others goes before, and keeps the rest; none only when all are out |
| `Merging.Merger.Refill` | crates/drydb/src/builder/spool.rs:718-721 | the run taken from moves on by one, the others stay |
| `Merging.MergeRuns` | crates/drydb/src/builder/spool.rs:609-649 | merging any number of sorted runs gives all their records, sorted, and writes them as such |
| `Merging.OneWaySorted` | crates/drydb/src/builder/spool.rs:723-737 | sorting by key and time of appending has one result only |
| `Merging.SortIsStable` | crates/drydb/src/builder/spool.rs:209-238 | records with equal keys come out in the order they went in |
| `Tiers.RunsAreDigits` | crates/drydb/src/builder/spool.rs:337-356 | the number of runs of a level is one digit, in base sixteen, of the number of spills |
| `Tiers.LevelsAreFew` | crates/drydb/src/builder/spool.rs:337-356 | few runs are kept, and no level is reached early |
| `Spooling.MergeGroups` | crates/drydb/src/builder/spool.rs:609-649 | merging runs in groups keeps all records and bytes, leaves fewer runs, and with groups of one copies them as they are |
| `Spooling.MergeTail` | crates/drydb/src/builder/spool.rs:358-399 | sixteen runs of a level become one of the next with all their records, written behind the others |
| `Spooling.Rewrite` | crates/drydb/src/builder/spool.rs:401-422 | copying the live runs keeps them and leaves no dead byte |
| `Spooling.MergeTiers` | crates/drydb/src/builder/spool.rs:337-356 | after each spill the levels are those of one more spill, and more than half of the file is dead if and only if the number of spills is 16^l for some l of two or more |
| `Spooling.SingleRunOverfull` | crates/drydb/src/builder/spool.rs:347-350 | the one case the compaction passes over: a single run of level l stands behind more dead bytes than it has if and only if l is two or more, because the merge into it and the one before both left behind what they read |
| `Spooling.DeadSpace` | crates/drydb/src/builder/spool.rs:347-350 | such a file is reached: 256 spills of one record each, of any key and value |
| `Spooling.RunsCountSpills` | crates/drydb/src/builder/spool.rs:337-356 | a run of level `l` holds the records of exactly 16^l consecutive spills, levels do not rise along the list, and together the runs hold every spill |
| `Spooling.ReduceRuns` | crates/drydb/src/builder/spool.rs:429-460 | ends with at most sixteen runs that hold the same records |
| `Spooling.RecordSpool.WrittenFewTimes` | crates/drydb/src/builder/spool.rs:337-422 | with fewer than 16^(t+1) spills, at most 1 + 2t bytes were ever written per live byte, compaction included, and at most 15(t+1) runs are kept |
| `Spooling.RecordSpool.Spill` | crates/drydb/src/builder/spool.rs:240-290 | the sorted buffer becomes one more run, and the spool is as good as before or the file failed |
| `Spooling.RecordSpool.Push` | crates/drydb/src/builder/spool.rs:149-184 | the record is appended, or the key is refused and nothing changed, or the file failed and the spool refuses everything from then on |
| `Spooling.RecordSpool.IntoSorted` | crates/drydb/src/builder/spool.rs:305-332 | everything appended, sorted by key and then by time, whatever was spilled and merged; an error only if the file failed |
| `Shards.PushIsCovered` | crates/drydb/src/cache.rs:384-405 | what is reserved for the ring covers the old and the new ring while it doubles, and does not rise when it has |
| `Shards.RingTargetBytes` | crates/drydb/src/cache.rs:392-405 | the doubling loop finds the size of the ring that is reserved for |
| `Shards.MarkerIsCovered` | crates/drydb/src/cache.rs:429-453 | what a load reserved covers its marker, and both tables while the table moves |
| `Shards.PageIsCovered` | crates/drydb/src/cache.rs:306-325 | publishing a page needs nothing that is not reserved, so settling up cannot fail |
| `Shards.PublishedIsCached` | crates/drydb/src/cache.rs:303-325 | a page that was loaded is cached afterwards, if it is not larger than a whole shard may be: it is never the one to go while there is another |
| `Shards.EvictOne` | crates/drydb/src/cache.rs:526-556 | the loop over the clock ring does what the specification does, turn by turn |
| `Shards.EvictOneWorks` | crates/drydb/src/cache.rs:526-556 | one page goes and its bytes are given back, markers stay; it comes back empty-handed if and only if no page is cached |
| `Shards.EvictOneEvicts` | crates/drydb/src/cache.rs:526-556 | which page goes, on any ring: the first cached one that is not referenced or stands earlier on the ring too; the cached pages before it follow the rest of the ring in order and are no longer referenced; if there is none, the first cached page goes and none is referenced any more |
| `Shards.ClockRule` | crates/drydb/src/cache.rs:526-556 | on a ring with each cached page once, as all rings are: the first that is not referenced, or the first if all are |
| `Shards.ReferencedStays` | crates/drydb/src/cache.rs:535-541 | the second chance: a page that was used does not go while one is cached that was not |
| `Shards.EvictDownWorks` | crates/drydb/src/cache.rs:348-359 | evicting ends at or under the capacity |
| `Shards.EvictDownStops` | crates/drydb/src/cache.rs:348-359 | and lets no page go that did not have to |
| `Shards.EvictDownToCapacity` | crates/drydb/src/cache.rs:348-359 | the loop does what the specification does |
| `Shards.ReleaseOk` | crates/drydb/src/cache.rs:490-523 | shrinking table and ring keeps what is promised to loads under way, and never raises the books |
| `Shards.TableShrinkIsCovered` | crates/drydb/src/cache.rs:496-507 | what is reserved before a table shrinks covers the old table and the new one, which is the smallest for its entries, beside the ring |
| `Shards.RingShrinkIsCovered` | crates/drydb/src/cache.rs:511-520 | and before a ring shrinks, the old ring and the new one beside the table, also where the ring is left with the next power of two |
| `Caching.StepKeeps` | crates/drydb/src/cache.rs:208-346 | every atomic step of every thread keeps the invariant |
| `Caching.RunsKeep` | crates/drydb/src/cache.rs:208-346 | in every state of every run of any number of threads: the budget is the sum of what is held and within its limit, each shard is within its capacity, each cached page is on its ring exactly once and nothing else is, each page being loaded has exactly one loader, and whoever waits will be woken |
| `Caching.OnlyTheOwnerUnmarks` | crates/drydb/src/cache.rs:290-346 | a marker goes only when its own load ends |
| `Caching.LoadedIsCached` | crates/drydb/src/cache.rs:290-346 | a load that ends with a page leaves it cached for the next who asks, if it fits |
| `Caching.HitIsUsed` | crates/drydb/src/cache.rs:224-232 | a hit ends the call, gives back what was reserved for it, and marks the page as used, which keeps it while there is one that is not |
| `Caching.RunsTryFewTimes` | crates/drydb/src/cache.rs:248-263 | no call goes back to reserve more than eight times, whatever the other threads do |
| `Storing.EvictBytes` | crates/drydb/src/cache.rs:361-381 | bytes released and bytes still resident add up to those before; it falls short only if nothing is left in any shard, and goes over by no more than the last page |
| `Storing.EvictChunk` | crates/drydb/src/directory.rs:176-196 | a chunk goes exactly if there is one; it is one that was used longest ago, and all others stay |
| `Storing.ChunksTile` | crates/drydb/src/directory.rs:83-90 | a chunk has exactly the ordinals that are looked for in it |
| `Storing.InsertChunk` | crates/drydb/src/directory.rs:202-221 | the chunk is held afterwards, once; the others all stay while there is room, and otherwise all but one that was used longest ago; there are no more than allowed |
| `Storing.ReclaimPages` | crates/drydb/src/store.rs:212-239 | nothing freed means no page is cached and no root retained |
| `Storing.ReclaimAny` | crates/drydb/src/store.rs:306-350 | a chunk is given up only when no page is left, and the roots only when no chunk is |
| `Storing.PageStore.Reserve` | crates/drydb/src/store.rs:306-350 | succeeds at once if there is room; refuses at once what can never fit; otherwise fails only when everything that can be given up has been; the limit is never passed; it ends |
| `Storing.PageStore.OffsetOf` | crates/drydb/src/directory.rs:76-174 | unless a chunk cannot be read or paid for: the number in the directory, if it is at least 26 and below the directory, and otherwise an error, whatever is cached or evicted; the chunk it came from is then the one used last |
| `ByteOrder.LeadingFollows` | crates/drydb/src/encoding.rs:305-311 | the first bytes of keys, as a number, follow the order of the keys, short keys included |
| `ByteOrder.LexDecides` | crates/drydb/src/encoding.rs:244-246 | text keys are in byte order: the first difference decides, and a key goes before its extensions |
| `ByteOrder.AsciiDigestIs` | crates/drydb/src/encoding.rs:305-311 | the digest byte by byte: that of the key, or nought past its end |
| `ByteOrder.AsciiDigestBytes` | crates/drydb/src/encoding.rs:305-311 | the loop over the bytes computes that number |
| `ByteOrder.PrefixEnd` | crates/drydb/src/query.rs:857-880 | keys start with the prefix if and only if they are between it and the end computed, for trailing 0xFF bytes and the empty prefix too |
| `KeyEncodings.ByteKeysLawful` | crates/drydb/src/encoding.rs:237-311 | text keys, and fixed-length byte keys such as ULIDs, are lawful |
| `KeyEncodings.ByteKeysOrder` | crates/drydb/src/encoding.rs:239-250 | with that order and that digest |
| `KeyEncodings.IntKeysLawful` | crates/drydb/src/encoding.rs:170-215 | signed 64-bit keys are lawful with exact digests that give the key back |
| `KeyEncodings.IntKeysOrder` | crates/drydb/src/encoding.rs:174-211 | numbers written in two's complement, low byte first, are in their own order from -2^63 to 2^63 - 1; the digest of x is x + 2^63, and gives back the same bytes |
| `KeyEncodings.EveryIntKey` | crates/drydb/src/encoding.rs:178-182 | every key of eight bytes is such a number |
| `KeyEncodings.UuidKeysLawful` | crates/drydb/src/encoding.rs:322-372 | UUID keys are lawful in their mixed-endian order |
| `KeyEncodings.UuidsAreCanonical` | crates/drydb/src/encoding.rs:340-368 | they are in byte order of their canonical form, bytes 3, 2, 1, 0, 5, 4, 7, 6 and then the rest, and the digest is its first eight bytes |
| `KeyEncodings.CanonicalTwice` | crates/drydb/src/encoding.rs:324-338 | the exchange of bytes between the two forms is its own inverse |
| `Composites.SplitComposed` | crates/drydb/src/encoding.rs:489-517 | a composite key splits into what it was made of |
| `Composites.ComposeSplit` | crates/drydb/src/encoding.rs:489-517 | and the other way round |
| `Composites.ComposedOnly` | crates/drydb/src/encoding.rs:497-517 | nothing else is a composite key |
| `Composites.CompositeLawful` | crates/drydb/src/encoding.rs:520-585 | composite keys over a lawful encoding are lawful, with either digest accepted on a page, if and only if a key with a record id behind it never has a lower digest |
| `Composites.BuiltInComposites` | crates/drydb/src/encoding.rs:520-585 | which holds for every encoding that ships |
| `Indexing.TreeRangeSelects` | crates/drydb/src/index.rs:242-290 | the range over composite keys takes in an entry if and only if its index key is inside the bounds asked for, for every record id |
| `Indexing.EmptySelectsNothing` | crates/drydb/src/index.rs:242-253 | a range treated as empty has no key inside |
| `Indexing.TreeRangeAnswers` | crates/drydb/src/index.rs:255-271 | a range is refused if and only if keys are asked for and a bound is none; a unique index is asked for the bounds as they are |
| `Indexing.TreeRangeKeepsOrder` | crates/drydb/src/index.rs:271-290 | widening the bounds to record ids makes them cross if and only if they did |
| `Indexing.PrefixRange` | crates/drydb/src/query.rs:857-880 | the range of a prefix takes in exactly the keys that start with it |
| `Indexing.RidsAscend` | crates/drydb/src/builder/mod.rs:631-668 | the composite keys given to sorted records ascend strictly |
| `Indexing.AssignRids` | crates/drydb/src/builder/mod.rs:631-668 | record ids count up from nought among equal keys; refused if and only if one key has too many records |
| `Indexing.BuildIndexTree` | crates/drydb/src/builder/mod.rs:606-668 | the tree read from the bytes is well formed and holds every record under its key and record id; it fails only if one key has too many records, a key is too long or malformed, or the file is full |
| `Indexing.IndexAnswers` | crates/drydb/src/index.rs:144-163 | a scan of it over any bounds hands out exactly the records with keys inside, by key and then by time |
| `IndexScanning.IndexCursor.Advance` | crates/drydb/src/index.rs:328-343 | the rows handed out are those the entries handed out lead to; if a row cannot be read the cursor is put back and the next call tries it again; it ends exactly when all entries are out |
| `IndexScanning.IndexCursor.AdvanceInner` | crates/drydb/src/index.rs:345-390 | one entry is followed: its reference parsed, its key stripped of the record id, its value read |
| `TableBuilding.RowsStay` | crates/drydb/src/builder/sink.rs:165-230 | a tree in the file keeps its rows while more is written behind it |
| `TableBuilding.DistinctRows` | crates/drydb/src/builder/mod.rs:556-573 | refused if and only if two rows have the same primary key |
| `TableBuilding.SpoolRecords` | crates/drydb/src/builder/mod.rs:545-554 | one index record per row: the index key and where the value is |
| `TableBuilding.BuildTable` | crates/drydb/src/builder/mod.rs:489-603 | from the rows appended to the finished file: the primary tree holds them in order, every reference leads to its row, and the index holds a record for each; it fails only if the spool failed or a pass over it does, a key is repeated, a key or value is too long, a row has no index key, an index key is malformed or too long, one index key has too many rows, or the file is full |
| `TableBuilding.ScanAnswers` | crates/drydb/src/index.rs:144-163 | a whole scan of the index of that file hands out the index key and the value of exactly the rows whose index key is inside the bounds, by index key and then by primary key |
| `TableBuilding.ScanResolves` | crates/drydb/src/index.rs:345-390 | and each of those rows can be read once its page can be loaded |

## Findings

Four things the source does that a reader of it might not expect. Each has its lemma, and each is followed
by the exact condition under which the property does hold.

- **A clean report on a file with mixed layouts.** The pass accepts a stored separator over a leaf that
  omits its keys, comparing only through the digest (`crates/drydb/src/verify.rs:621-624`, `663-673`,
  `1363-1371`). For an encoding with inexact digests that rebuilds keys, such as composite keys over
  integers, take two keys `x < y`, a root with the separators (x, 0) and (y, 7), a left leaf that stores
  (x, 0) and a right leaf that omits its key and holds the digest of y. All checks pass
  (`MixedLayouts.MixedIsWalked`) and the key on the right leaf is (y, 0), but a lookup of it goes left.
  `MixedLayouts.ReportsCleanAndMisses` runs both: the report is clean, and nothing is found.
  `MixedLayouts.MixedExists` has such keys.
  - `Verifying.VerifyTree` therefore promises correct searches when digests are exact or all pages agree on
    omitting keys, which holds of every file the builder writes.
  - For the others `Reaching.FoundExactly` gives the exact condition under which every key is found, for all
    trees that pass and have keys above their leaves, and `Reaching.FoundExactlyInPlace` its short form for
    the encodings that ship: the row above each leaf but the first is its first key. There is one exception,
    so that "no row sorts above the first key of its leaf" is enough there but not needed: where the leaf
    before ends in the same rebuilt key, the lookup finds that entry instead (`MixedLayouts.RunIsFound`).
  - With inexact digests above the leaves nothing is missed (`Reaching.CoarseComesTo`).
- **Values that are too long to be read back.** The builder accepts values up to 2^31 - 1 bytes
  (`crates/drydb/src/builder/tree.rs:210`), but the length of a page is a signed 32-bit number that includes
  the 28 bytes of its prefix (`crates/drydb/src/builder/tree.rs:318-322`). `Codec.BlobReadsBack` and
  `TreeBuilding.TreeWriter.Finish` state the bound: a row can be read back if and only if its value is at
  least 28 bytes shorter than 2^31.
- **Lengths in the spool.** A record header in the spool has 32 bits for each length and the lengths are cut
  to fit (`crates/drydb/src/builder/spool.rs:259-260`). `Records.RecordReadsBack` states that a record reads
  back if and only if they fit; the builder's limit on values keeps table rows below it.
- **Dead space behind a single run.** The spool compacts its file once more than half of it is dead, except
  when one run is left (`crates/drydb/src/builder/spool.rs:347-350`). So there are files of which more than
  half is dead: `Spooling.DeadSpace` gets to one with 256 spills. `Spooling.MergeTiers` states exactly when:
  after n spills, if and only if n is 16^l for some l of two or more.

## Left out

- The file header, the catalog, page filters and compression: opening a database is a parse without state.
- The page directory of the file and its spool; a page number stands for the page.
- `check_page_ref` in the verification pass: that every reference of an index lands on a row of its table is
  proved of files the builder writes, and not of files that merely pass verification.
- Unique secondary indexes: they differ from the primary tree only in what their values are.
- Memory mapping, positioned reads, guards and the blob reader, and what cursors reserve for their buffers;
  a call is given whether there is room.
- Metrics and the text of errors.
- Ownership of charges by reference counting: the budget is a sum over what is held.
- FindCached: stated for well-formed trees and for no tree at all; on other files a page reached through a sibling link is descended from without a bound, so no claim is made that the loop ends.
- Push: the spool is given keys and values shorter than 2^32 bytes and fewer than 2^64 records, as the builder's own limits make sure for rows.
- VerifyTree: what the pass reserves for the keys it compares is a limit on their length.
- FoundExactly: trees in which the pages above the leaves are compared in both ways, some by keys and some by inexact digests, are left to `VerifyTree`; neither builder writes one.
- CoarseComesTo: for encodings that accept no digest but a key's own, which holds of the ones shipped that can be rebuilt.
- BuildTable: one index, which is not unique; its records are spooled once the primary tree is written and not leaf by leaf, in the same order; index keys are shorter than 2^32 bytes.
- Advance: what a buffer for a key costs is not modelled, only that reserving it may fail.
- OffsetOf: the directory is read without another thread changing it between the look and the read.
- Reserve: one caller at a time; what other threads take or give back between two attempts is in the state machine of the cache.
- RunsKeep: safety over all runs; that a fair scheduler lets every thread finish is not stated.
