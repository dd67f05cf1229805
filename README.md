# Filestore storage consistency, modelled in Dafny

This project models the storage-consistency core of the go-ipfs "filestore"
branch. In that branch, blocks can live in ordinary files on disk instead of
in the block store. The model covers these parts:

- **Union block store** (`MultiStore`, multi.dfy): an ordered list of named
  mounts.
  - Reads ask every mount in order.
  - Writes and deletes go to mount 0, the cache mount.
  - `Put` and `PutMany` skip blocks that `Has` already reports as present.
- **Mark-and-sweep garbage collector** (`GarbageCollector`, gc.dfy):
  - It colours every key reachable from the pins.
  - A depth-first walk with a visited set keeps the walk finite on cyclic
    graphs.
  - It then deletes every uncoloured key of mount 0.
- **Status taxonomy, formatting and listing** (`FilestoreCommon`,
  common.dfy):
  - Status codes grouped by their tens digit, with fixed-width labels.
  - The one-line `Format` of a listing result.
  - The `List*` filters.
  - The classification of errors into statuses by `verify` and `getNode`.
- **`filestore clean`** (`FilestoreClean`, clean.dfy):
  - The kinds of problem to clean are expanded into a stage mask, an
    `incompleteWhen` list and a `to_remove` table.
  - The stage mask selects the verification to run.
  - The candidates are picked from the verification results.
  - Each candidate is removed with a compare-then-delete against a snapshot.
- **Filestore-aware `Put`** (`FilestoreSupport`, support.dfy):
  `prepareBlock` decides whether a block is stored as raw bytes, as a
  metadata record (`DataObj`) pointing into a file, or not at all.
- **`CleanPath`** (`FilestorePath`, path.dfy): byte-level path
  normalisation. It collapses `//` and `/./` but keeps `..`.
- **`DagBuilderHelper`** (`DagBuilder`, dagbuilder.dfy): the importer's
  chunk iterator with one chunk of look-ahead, and the layer filling that
  is bounded by `maxlinks`.
- **`chanWriter`** (`FilestoreCommands`, chanwriter.dfy): the reader that
  turns a stream of listing results into text.

Shared types are in `Base` (base.dfy). They are keys, bytes, `Option`,
`Result` and the error values the code distinguishes: not found, file
missing, invalid block, EOF, unexpected EOF, and any other failure.

How the source's parts appear in the model:

- Stateful objects are classes that the methods update in place:
  - the union store;
  - the GC's key set;
  - the filestore database;
  - the filestore-aware blockstore;
  - the DAG builder and the node it fills;
  - the two chan writers.
- Every channel the source fills from a goroutine is a finite sequence:
  - `AllKeysChan`;
  - the GC output;
  - the `List*` streams;
  - the verification results;
  - the removal report.
- Calls into packages outside this model are parameters of the model:
  - the link service, as a map of links plus a map of faults;
  - the pin set;
  - the verifications;
  - the record codec and the node decoder;
  - base58;
  - `DataObj.Format`;
  - the filestore `Update`;
  - the answers that each datastore and each mount gives.

A record flagged `NoBlockData` carries the block's `AltData` in its `Data`
field (filestore/support/blockstore.go:73-76), and
`FilestoreSupport.PrepareBlock` does the same.

## Model

| member | source | states |
|---|---|---|
| MultiStore.InsertWellFormed | blocks/blockstore/multi.go:108-115 | A write to a mount keeps that mount's key list duplicate-free and equal to its block set, and keeps the old keys first in their old order. |
| MultiStore.InsertAllWellFormed | blocks/blockstore/multi.go:127-130 | A batch write keeps the mount well formed. |
| MultiStore.DeleteWellFormed | blocks/blockstore/multi.go:67-69 | A delete keeps the mount well formed. |
| MultiStore.DeleteManyStep | pin/gc/gc.go:51-56 | Deleting one more key without a fault leaves the mount as if the enlarged key set had been deleted at once. |
| MultiStore.AllKeysMembers | blocks/blockstore/multi.go:144-152 | A key is in the concatenated enumeration iff some mount enumerates it. |
| MultiStore.Missing | blocks/blockstore/multi.go:117-126 | The blocks PutMany forwards are exactly the input blocks whose key no mount reports as present without error. |
| MultiStore.MissingSnoc | blocks/blockstore/multi.go:120-126 | Scanning one more block adds it to the forwarded list iff it is not present, which keeps the input order. |
| MultiStore.MultiBlockstore.constructor | blocks/blockstore/multi.go:35-39 | The store holds the given mounts, in the given order. |
| MultiStore.MultiBlockstore.FirstMount | blocks/blockstore/multi.go:46-48 | The result is mount 0, the cache mount. |
| MultiStore.MultiBlockstore.Mounts | blocks/blockstore/multi.go:50-56 | One prefix per mount, in mount order. |
| MultiStore.MultiBlockstore.Mount | blocks/blockstore/multi.go:58-65 | The result is nil iff no mount has the prefix. Otherwise it is the store of the first mount with that prefix. |
| MultiStore.MultiBlockstore.DeleteBlock | blocks/blockstore/multi.go:67-69 | Only mount 0 changes, exactly as its own delete changes it. The other mounts are unchanged. |
| MultiStore.MultiBlockstore.Has | blocks/blockstore/multi.go:71-83 | The result is true iff some mount answers (true, nil). Otherwise the error is the first error in mount order, or nil when no mount gave one. |
| MultiStore.MultiBlockstore.Get | blocks/blockstore/multi.go:85-97 | The block comes from the first mount that succeeds. When every mount fails, the error is the first non-NotFound error if there is one, otherwise NotFound. With no mounts there is no error. |
| MultiStore.MultiBlockstore.Locate | blocks/blockstore/multi.go:99-106 | One entry per mount, in mount order, holding that mount's prefix and its Get error. |
| MultiStore.MultiBlockstore.Put | blocks/blockstore/multi.go:108-115 | Nothing is written when Has reports the block present without error. Otherwise only mount 0 is written, by its own Put. |
| MultiStore.MultiBlockstore.PutMany | blocks/blockstore/multi.go:117-131 | Mount 0 receives exactly the blocks that are not present anywhere, in input order, as one batch. When there are none, nothing is called and nothing changes. |
| MultiStore.MultiBlockstore.AllKeysChan | blocks/blockstore/multi.go:133-154 | The call fails iff some mount cannot start its enumeration, and then reports the first such error. Otherwise the output is the mounts' key sequences concatenated in mount order. |
| GarbageCollector.PathStaysInside | pin/gc/gc.go:72-92 | A key set that is closed under the child relation, except at some keys, holds the end of every path that starts in it and avoids those keys. |
| GarbageCollector.UnvisitedShrinks | pin/gc/gc.go:77-84 | Marking a new child as seen shrinks the set of unseen keys, which is why the walk ends on cyclic graphs. |
| GarbageCollector.KeySet.constructor | pin/gc/gc.go:97 | A new key set is empty. |
| GarbageCollector.KeySet.Has | pin/gc/gc.go:79 | Has is membership. |
| GarbageCollector.KeySet.Add | pin/gc/gc.go:74 | Add inserts exactly the key. |
| GarbageCollector.Visit | pin/gc/gc.go:77-85 | The visit callback adds the key and answers "descend" iff the key was not in the set before. |
| GarbageCollector.EnumerateChildren | pin/gc/gc.go:77-85 | The walk only adds keys. On success the root and every key it added are walkable and have all their children in the set. On an error the failing key is the root or a key the walk added; it cannot be walked, and the error is its link error. In a best-effort walk a key that is not available locally is skipped. Every key the walk adds is reached from the root by a path that enters no key that was in the set before. |
| GarbageCollector.Descendants | pin/gc/gc.go:72-92 | The walk only adds keys. On success every root is in the set, and every root and every added key has all its children in the set. On an error the failing key is reached from a root by a path that enters no key that was in the set before; it cannot be walked, and the error is its link error. Every added key is a root, or is reached from a root by such a path. |
| GarbageCollector.ChildReached | pin/gc/gc.go:77-84 | A new child of a key is reached from that key. |
| GarbageCollector.ReachedThrough | pin/gc/gc.go:77-85 | A key the walk below a new child reaches is reached from the parent, through that child. |
| GarbageCollector.ReachedWider | pin/gc/gc.go:72-92 | A path that avoids a set of keys also avoids every smaller set. |
| GarbageCollector.PathFrom | pin/gc/gc.go:72-92 | A key reached from the roots that is not itself a root is the end of a path that starts at a root. |
| GarbageCollector.FailingPath | pin/gc/gc.go:72-92 | A key a walk fails at, reached from the roots, is the end of a path from a root that enters no key of the starting set, and the path ends at that link error. |
| GarbageCollector.FailureBreaksWalks | pin/gc/gc.go:94-118 | A path on which one of the three walks must fail shows that the walks do not all succeed. |
| GarbageCollector.StrictWalkFails | pin/gc/gc.go:98-101 | A failure of the recursive walk, or of the internal walk after the early colouring, at a key it reached is a failure of the whole colouring at that key. |
| GarbageCollector.BestEffortWalkFails | pin/gc/gc.go:103-106 | A failure of the best-effort walk at a key it reached is a failure of the whole colouring at that key; an absent key is never such a failure. |
| GarbageCollector.EarlyColoured | pin/gc/gc.go:97-110 | Every key coloured before the internal walk is a direct pin, or is reached from a recursive or best-effort root. |
| GarbageCollector.EarlyInside | pin/gc/gc.go:97-110 | Every direct pin and every key reached from a recursive or best-effort root is coloured before the internal walk. |
| GarbageCollector.EarlyExact | pin/gc/gc.go:97-110 | After the recursive walk, the best-effort walk and the direct pins, the set is closed under children and holds exactly the early-marked keys. |
| GarbageCollector.PhasesSucceed | pin/gc/gc.go:94-118 | When all four phases succeed, every key any of the walks must pass can be passed. |
| GarbageCollector.ColouringBelow | pin/gc/gc.go:94-118 | After all four phases the set holds every pin and the end of every path that the walks follow, and it is closed except at direct pins that are not internal. |
| GarbageCollector.ColouringDone | pin/gc/gc.go:94-118 | After all four phases succeed, the set is exactly the marked keys, and every walk can pass every key it must enter. |
| GarbageCollector.ColoredExactly | pin/gc/gc.go:16-24 | A colouring that meets the lower bound and holds only marked keys holds exactly the marked keys. |
| GarbageCollector.PhasesMarked | pin/gc/gc.go:94-118 | The recursive walk, the best-effort walk, the direct pins and the internal walk add only marked keys. The internal walk never enters a direct pin. |
| GarbageCollector.ColoredSet | pin/gc/gc.go:94-118 | ColoredSet succeeds iff every walk can pass every key it must enter. That is every key reached from a recursive root, every key reached from a best-effort root except one that is merely absent, and every key reached from an internal root without passing an early-marked key. On success a key is coloured iff it is marked, and the recursive and internal roots have readable links. On failure the error is the link error of one such key, at the end of a path the failing walk follows. |
| GarbageCollector.SweptPrefix | pin/gc/gc.go:45-56 | A sweep that stops at an uncoloured key whose delete fails has emitted a prefix of the uncoloured keys, and the stopping key comes next in it. |
| GarbageCollector.SweptAll | pin/gc/gc.go:45-50 | A sweep that reaches the end of the enumeration has emitted every uncoloured key. |
| GarbageCollector.SweepStep | pin/gc/gc.go:51-61 | A coloured key leaves the output unchanged. An uncoloured key is appended to it. |
| GarbageCollector.SweptUnique | pin/gc/gc.go:45-56 | The sweep output is fully determined by the enumeration, the colouring and the delete faults. |
| GarbageCollector.DeleteNext | pin/gc/gc.go:51-56 | A successful delete of the next uncoloured key leaves mount 0 as if all emitted keys had been deleted at once. |
| GarbageCollector.Sweep | pin/gc/gc.go:45-67 | The output is the uncoloured keys of the enumeration, in order, up to the first one whose delete fails. No emitted key is one whose delete fails. Mount 0 loses exactly the emitted keys, and the other mounts are unchanged. |
| GarbageCollector.GC | pin/gc/gc.go:25-70 | GC succeeds iff the colouring succeeds and mount 0 can enumerate its keys. A colouring failure is the link error at a key one of the walks must pass. Otherwise the error is the enumeration error, and either failure deletes nothing. On success a key is coloured iff it is marked. The output is the unmarked keys of mount 0, in enumeration order, up to the first failed delete, and no marked key is emitted. Mount 0 loses exactly the emitted keys; the other mounts are unchanged. |
| FilestoreCommon.StatusFamilies | filestore/util/common.go:18-45 | For the named codes: AnError iff the tens digit is 1, 2 or 3. AnInternalError iff it is a 3x code other than "missing". OfInterest is false exactly for ok, unchecked and complete. A non-error is a 0x or 9x code. |
| FilestoreCommon.LabelWidths | filestore/util/common.go:47-80 | Status 0 has the empty label. Unknown codes get "??       ". Every other label is 9 characters wide, except "incomplete ", which is 11. |
| FilestoreCommon.TrimRight | filestore/util/common.go:100 | The result is the longest prefix that does not end in a space. Only spaces are removed. |
| FilestoreCommon.TrimSpaces | filestore/util/common.go:100-103 | A string made only of spaces trims to the empty string. |
| FilestoreCommon.StatusStrMeaning | filestore/util/common.go:98-105 | StatusStr is never empty. Status 0 and status 90 both read "unchecked". Every other code reads as its label without the trailing padding. |
| FilestoreCommon.What | filestore/util/common.go:90-96 | The result is "root" iff the record is flagged WholeFile, and "leaf" otherwise. |
| FilestoreCommon.Format | filestore/util/common.go:119-129 | An empty raw hash gives "\n". With no record the line is label + hash + "\n". With a record it is label + hash + " " + the record's summary + "\n". Every line ends in a newline. |
| FilestoreCommon.FormatOneLine | filestore/util/common.go:119-129 | The newline is the line's only one when neither the hash nor the record's summary contains a newline. |
| FilestoreCommon.LabelNoNewline | filestore/util/common.go:47-80 | No status label contains a newline. |
| FilestoreCommon.Records | filestore/util/common.go:152-155 | One record per database entry, in order, with the decoded value (or none) and the default status. |
| FilestoreCommon.ListKeys | filestore/util/common.go:131-143 | One result per key, in iteration order, with no record and the default status. |
| FilestoreCommon.List | filestore/util/common.go:145-163 | The output is exactly the records the filter accepts, in iteration order. |
| FilestoreCommon.FilterAll | filestore/util/common.go:165-167 | A filter that accepts everything keeps the sequence unchanged. |
| FilestoreCommon.ListAll | filestore/util/common.go:165-167 | Every record, in order. |
| FilestoreCommon.ListWholeFile | filestore/util/common.go:169-171 | The output is the decoded records filtered to those flagged WholeFile, in iteration order with their multiplicity. A result is in it iff it is a record flagged WholeFile. |
| FilestoreCommon.GetDirect | filestore/util/common.go:180 | The lookup is NotFound iff the key is absent. It succeeds iff the key is present and its value decodes, and then yields the decoded record. |
| FilestoreCommon.FoundSnoc | filestore/util/common.go:178-184 | One more key adds its record iff GetDirect finds it. |
| FilestoreCommon.FoundMeaning | filestore/util/common.go:173-187 | ListByKey emits at most one record per key. Each emitted record is the one GetDirect finds for one of the keys, with the default status. |
| FilestoreCommon.ListByKey | filestore/util/common.go:173-187 | The records GetDirect finds, in key order. |
| FilestoreCommon.Verify | filestore/util/common.go:189-202 | The result is one of 1, 10, 11, 12. No error gives ok. Not-exist gives file-missing. InvalidBlock, EOF and unexpected EOF give changed. Anything else gives file-error. The result is an error, and of interest, iff there was an error, and it is never an internal error. |
| FilestoreCommon.GetNode | filestore/util/common.go:220-246 | Each status holds iff its case holds. A NoBlockData record gives unchecked, with the record and no node. A record without that flag gives ok iff its data decodes, with its node and the record. NotFound in both stores gives key-not-found. Any other blockstore error gives error. Without a record, a fetched block gives found iff it decodes, with its node and no record. Corrupt holds iff the record's data or the fetched block does not decode. |
| FilestoreClean.KindOfName | filestore/util/clean.go:29-51 | Every kind's name reads back as that kind. |
| FilestoreClean.PrimitivesMembers | filestore/util/clean.go:34-51 | A kind takes effect iff its name was seen and it is one of changed, no-file, error, incomplete, orphan. |
| FilestoreClean.RequestedConcat | filestore/util/clean.go:28-33 | The kinds requested by a list are those of its parts. |
| FilestoreClean.RequestedNonEmpty | filestore/util/clean.go:28-55 | A list of valid kinds requests nothing iff it is empty. |
| FilestoreClean.RequestedPrimitive | filestore/util/clean.go:28-51 | Every requested kind is one of the five primitive kinds. |
| FilestoreClean.ExpansionRequests | filestore/util/clean.go:30-33 | "invalid" expands to changed and no-file. "full" expands to invalid, incomplete and orphan, and so requests all five primitive kinds. |
| FilestoreClean.WeightConcat | filestore/util/clean.go:28 | The pending work of a list is the sum of its parts' work. |
| FilestoreClean.ExpansionWeight | filestore/util/clean.go:30-33 | Expanding a compound kind lowers the pending work by one, so the loop over the growing list ends. |
| FilestoreClean.ExpandWeight | filestore/util/clean.go:28-33 | Each turn of the loop over the growing list lowers the pending work, whether the argument is primitive or appends an expansion. |
| FilestoreClean.ExpandedDuplicates | filestore/util/clean.go:28-40 | "invalid" then "changed" walk as invalid, changed, changed, no-file, so incompleteWhen is changed, changed, no-file. |
| FilestoreClean.StagesAdd | filestore/util/clean.go:34-51 | Each primitive kind ORs its own stage bit: 0100 for changed, no-file and error, 0020 for incomplete, 0003 for orphan. |
| FilestoreClean.StagesRange | filestore/util/clean.go:81-113 | The stage mask is always an OR of a subset of {0100, 0020, 0003}. It is 0 iff no primitive kind is requested. |
| FilestoreClean.MarksAdd | filestore/util/clean.go:37-51 | Each primitive kind marks its own status: 12, 11, 10, 20 and 4. |
| FilestoreClean.TableAdd | filestore/util/clean.go:37-51 | Setting a kind's entry in the to_remove table gives the table of the enlarged kind set. |
| FilestoreClean.TurnCompound | filestore/util/clean.go:30-33 | Appending the expansion keeps the planning invariant and lowers the pending work. |
| FilestoreClean.TurnPrimitive | filestore/util/clean.go:34-51 | Handling a primitive kind keeps the planning invariant and lowers the pending work. |
| FilestoreClean.PrimitiveRecorded | filestore/util/clean.go:34-51 | After a primitive kind, the stage mask has gained its bit, the table its status, and incompleteWhen the kind's name when it is a block kind. Each of them is the value for the kinds seen so far. |
| FilestoreClean.SeenStep | filestore/util/clean.go:34-51 | Seeing one more argument adds its kind to the kinds seen when it is primitive, and adds its name to incompleteWhen when it is a block kind. |
| FilestoreClean.RestStep | filestore/util/clean.go:28-29 | Moving past one argument removes its requested kinds and its work from what is still to come. |
| FilestoreClean.Turn | filestore/util/clean.go:29-54 | One loop turn either keeps the planning invariant and the list still to be walked, or rejects an original argument that is not a valid kind with "invalid arg: " + that argument. |
| FilestoreClean.PlanClean | filestore/util/clean.go:23-56 | Planning fails iff some argument is not a valid kind, with the message of the first such argument. Otherwise the plan is the stage mask and the 100-entry to_remove table of the requested kinds. incompleteWhen is the block kinds of the whole walked list: in the order walked, with repeats, and with every expansion appended at the end of the list. |
| FilestoreClean.PlanStart | filestore/util/clean.go:24-27 | The planning invariant holds before the loop. |
| FilestoreClean.PlanReject | filestore/util/clean.go:52-53 | An invalid argument met by the loop is an original argument, and every argument before it was valid. |
| FilestoreClean.PlanDone | filestore/util/clean.go:28-55 | At the end of the loop every argument was valid. The plan is the plan for the requested kinds, and incompleteWhen is the block kinds of the walked list. |
| FilestoreClean.PlanOfKinds | filestore/util/clean.go:34-51 | The stage mask, the table and the incompleteWhen list recorded over a whole list form the plan for the primitive kinds that the list names. |
| FilestoreClean.StepRest | filestore/util/clean.go:28-29 | Taking the next argument splits off its requested kinds and its work. |
| FilestoreClean.StepSeen | filestore/util/clean.go:34-51 | A block kind joins incompleteWhen, and a primitive kind joins the effective kinds. Nothing else changes either. |
| FilestoreClean.StepExpand | filestore/util/clean.go:30-33 | Appending an expansion requests the compound kind's kinds and adds only valid kinds. |
| FilestoreClean.DispatchMeaning | filestore/util/clean.go:81-113 | Every non-empty combination of kinds selects exactly one verification, and the empty combination panics. Post-orphan runs iff both incomplete and orphan are requested. Basic runs iff only block kinds are. The orphan scan is skipped iff only incomplete is requested. |
| FilestoreClean.PlanPanicsOnlyWhenEmpty | filestore/util/clean.go:110-112 | Clean reaches the panic branch iff it was given no kinds. |
| FilestoreClean.KeysOfMeaning | filestore/util/clean.go:120-129 | Candidate keys decode iff every candidate's datastore key decodes. Otherwise the error is the first failure. |
| FilestoreClean.KeysOfErrExtends | filestore/util/clean.go:122-126 | Once a key fails to decode, later results do not change the outcome. |
| FilestoreClean.KeysOfSnoc | filestore/util/clean.go:120-128 | One more candidate adds its decoded key, or ends with its decode error. |
| FilestoreClean.SelectStep | filestore/util/clean.go:121 | One more result is a candidate iff its status is marked in to_remove. |
| FilestoreClean.SelectStop | filestore/util/clean.go:122-126 | Stopping at the first key that does not decode gives the same outcome as scanning the whole stream. |
| FilestoreClean.SelectCandidates | filestore/util/clean.go:119-129 | The result is the decoded keys of exactly the results whose status is marked, in stream order, or the first decode error. |
| FilestoreClean.CandidatesMarked | filestore/util/clean.go:119-129 | The candidates are exactly the converted keys of the verified records whose status is one that the requested kinds mark for removal. |
| FilestoreClean.MarkedByPlan | filestore/util/clean.go:37-51 | A record is marked for removal by the plan's table iff its status is one that a requested kind marks. |
| FilestoreClean.UpdateSpec | filestore/util/clean.go:179-187 | The compare-and-delete only deletes the given key. A fault changes nothing. An absent key counts as done. A present key that differs from the original value is kept and reported as not done. |
| FilestoreClean.RmStep | filestore/util/clean.go:168-188 | The report names the key. A report with no error means the record is gone. "value changed" means nothing changed. In exclusive mode, a key with no update fault is removed. |
| FilestoreClean.RmOneRecordPerKey | filestore/util/clean.go:166-188 | Exactly one report line per key that survives the pin check, in key order, naming that key. |
| FilestoreClean.RmFrame | filestore/util/clean.go:168-188 | Removal only deletes, only records of the given keys, and never alters a remaining record. |
| FilestoreClean.RmSharedKeepsChanged | filestore/util/clean.go:171-186 | In shared mode, a record the snapshot lacks, or one that changed since the snapshot, survives. |
| FilestoreClean.RmExclusiveRemovesAll | filestore/util/clean.go:131-135 | In exclusive mode no snapshot is consulted. Every key without an update fault is removed and reported as removed. |
| FilestoreClean.FilestoreDb.constructor | filestore/util/clean.go:147-148 | The database holds the given records and update faults. |
| FilestoreClean.FilestoreDb.Update | filestore/util/clean.go:179 | The database, the ok flag and the error are as UpdateSpec gives them. |
| FilestoreClean.FilestoreDb.RmBlocks | filestore/util/clean.go:147-190 | The report and the new database are the per-key removal applied to the unpinned keys, in order. |
| FilestoreClean.FilestoreDb.Clean | filestore/util/clean.go:23-145 | Clean is rejected iff some kind is invalid, with "invalid arg: " and the first invalid argument. With valid kinds, a failed snapshot is returned as that error. With no kinds, it panics. Otherwise the output closes with the verification error or the first key-conversion error, if there is one. If not, it finishes with the removal report of the unpinned candidates, using the snapshot in shared mode and none in exclusive mode. Only a finished run changes the database. |
| FilestoreSupport.PrepareBlock | filestore/support/blockstore.go:54-80 | A plain block is skipped iff Has reports it present without error, and is otherwise stored as its raw data. A file block always yields a record with the path, offset, size, mtime and add options copied. With no AltData the record is flagged WholeFile and FileRoot and holds the block data. With AltData it is flagged NoBlockData and holds the AltData. |
| FilestoreSupport.HasIn | filestore/support/blockstore.go:57 | Has fails exactly on its fault keys, and otherwise reports membership. |
| FilestoreSupport.PreparedMeaning | filestore/support/blockstore.go:40-45 | The batch holds at most one entry per block. Every file block is in it. Every plain block that is absent, or whose Has fails, is in it. |
| FilestoreSupport.PreparedConcat | filestore/support/blockstore.go:40-45 | The batch of a concatenation is the concatenation of the batches. |
| FilestoreSupport.FirstFault | filestore/support/blockstore.go:46-49 | There is no fault iff no batch entry's key is refused. Otherwise the fault is that of a refused entry. |
| FilestoreSupport.FirstFaultPrefix | filestore/support/blockstore.go:46-49 | A refusal early in the batch decides the outcome, whatever follows. |
| FilestoreSupport.LastWrite | filestore/support/blockstore.go:51 | A key has a last write iff some batch entry has that key. |
| FilestoreSupport.LastWriteIs | filestore/support/blockstore.go:51 | The last write of a key is the value of its last entry in the batch. |
| FilestoreSupport.ApplyAllMeaning | filestore/support/blockstore.go:51 | After the commit a key is present iff it was present or written. Its value is that of its last write, or else its old value. |
| FilestoreSupport.Blockstore.constructor | filestore/support/blockstore.go:19-21 | The blockstore wraps the given datastore. |
| FilestoreSupport.Blockstore.Put | filestore/support/blockstore.go:23-32 | A skipped block writes nothing. Otherwise the prepared value is stored under the key, unless the write fails, and then nothing changes. |
| FilestoreSupport.Blockstore.PutMany | filestore/support/blockstore.go:34-52 | A failed batch open, the first refused entry, or a failed commit each returns its error and leaves the store unchanged. Otherwise the store is the old store with the prepared batch applied in order. |
| FilestoreSupport.PreparedRecordStatus | filestore/support/blockstore.go:70-76 | A record written for a file block reads back through getNode as unchecked iff it carries AltData. Otherwise it decodes as a node from the block data. |
| FilestorePath.AppendClean | filestore/path.go:20-28 | Appending a byte keeps a path free of "//" and "/./" unless that byte completes one of them. |
| FilestorePath.PrefixEssential | filestore/path.go:20-28 | A byte that is neither a separator nor the dot of "/./" stays so in every prefix that holds it. |
| FilestorePath.KeepsStep | filestore/path.go:20-28 | Bytes that are kept or inessential extend the set of kept positions. |
| FilestorePath.EmbedsSnoc | filestore/path.go:27 | Writing a later input byte keeps the output a subsequence of the input. |
| FilestorePath.ProgressStart | filestore/path.go:19 | After the first byte is written, the loop invariant holds. |
| FilestorePath.ProgressSkipSlash | filestore/path.go:21-22 | Skipping a '/' that follows a '/' keeps the loop invariant. |
| FilestorePath.ProgressSkipDot | filestore/path.go:23-25 | Skipping the "./" of a "/./" keeps the loop invariant. |
| FilestorePath.ProgressKeep | filestore/path.go:26-27 | Copying any other byte keeps the loop invariant. |
| FilestorePath.Dropped | filestore/path.go:16-29 | Kept positions that hold every essential byte show that only inessential bytes were dropped. |
| FilestorePath.ProgressDone | filestore/path.go:16-35 | After the walk the output keeps the first byte, is no longer than the input, drops only separators and lone dots, contains neither "//" nor "/./", and equals the input when the input had neither. |
| FilestorePath.KeepStep | filestore/path.go:26-27 | Copying a byte moves it from the rest of the walk to the output. |
| FilestorePath.ProgressTo | filestore/path.go:20-29 | Finishing the walk from any point gives the output so far plus the rest of the walk, and the final invariant. |
| FilestorePath.WalkAll | filestore/path.go:16-29 | The whole walk over a non-empty path ends in the final invariant. |
| FilestorePath.CleanedMeaning | filestore/path.go:12-35 | "" gives "". The first byte is always kept. The output is never longer. Only '/' bytes and dots of "/./" are dropped, so ".." is kept. A path with no "//" and no "/./" is returned unchanged. |
| FilestorePath.CleanedIsClean | filestore/path.go:20-29 | The output contains neither "//" nor "/./". |
| FilestorePath.CleanPath | filestore/path.go:12-36 | The loop computes the normalised path. |
| FilestorePath.CleanPathExamples | filestore/path.go:20-29 | "a//b/./c" becomes "a/b/c". "" and "abc" are unchanged. |
| DagBuilder.DataOf | importer/helpers/dagbuilder.go:85-89 | One data item per chunk, in order. |
| DagBuilder.LayerStart | importer/helpers/dagbuilder.go:79-82 | The layer invariant holds before the loop. |
| DagBuilder.LayerStop | importer/helpers/dagbuilder.go:82-94 | Stopping with the node full or the input used up is a successful fill. |
| DagBuilder.LayerStep | importer/helpers/dagbuilder.go:83-92 | Adding the next chunk as a child, once it is within the size limit and accepted, keeps the layer invariant. |
| DagBuilder.LayerFail | importer/helpers/dagbuilder.go:85-91 | A chunk that is taken while the node has room but cannot be added ends the fill. The error is ErrSizeLimitExceeded for an oversize chunk and the refusal otherwise. |
| DagBuilder.LayerFilledUnique | importer/helpers/dagbuilder.go:79-95 | The layer outcome leaves no choice: the children, the chunks left and the error are fixed by the node, the pending chunks, the link limit and the DAG service. |
| DagBuilder.UnixfsNode.constructor | importer/helpers/dagbuilder.go:83 | A new node has no data and no children. |
| DagBuilder.UnixfsNode.SetData | importer/helpers/dagbuilder.go:107 | Only the node's data is set. |
| DagBuilder.UnixfsNode.AddChild | importer/helpers/dagbuilder.go:89-91 | The child is appended, or nothing changes and the refusal error is returned. |
| DagBuilder.DagBuilderHelper.constructor | importer/helpers/dagbuilder.go:30-38 | The link limit, the DAG service and its NeedAltData flag are copied from the params. Maxlinks() returns the limit. Every chunk of the splitter is pending, and nothing is waiting yet. |
| DagBuilder.DagBuilderHelper.PrepareNext | importer/helpers/dagbuilder.go:43-51 | The pending chunks do not change. A chunk is waiting iff one remains. When data was already waiting, nothing changes, which makes the call idempotent. |
| DagBuilder.DagBuilderHelper.Done | importer/helpers/dagbuilder.go:54-59 | The result is true iff no chunk remains. Nothing is consumed. |
| DagBuilder.DagBuilderHelper.Next | importer/helpers/dagbuilder.go:64-69 | The result is the first pending chunk, which is consumed and recorded as returned, so every chunk is returned once and in splitter order. At the end it is a chunk without data. |
| DagBuilder.DagBuilderHelper.FillNodeWithData | importer/helpers/dagbuilder.go:97-110 | At the end of input nothing happens. A chunk over BlockSizeLimit is consumed and gives ErrSizeLimitExceeded without setting data. Otherwise the node's data is the chunk. |
| DagBuilder.DagBuilderHelper.FillNodeLayer | importer/helpers/dagbuilder.go:79-95 | The children added are the next chunks' data, in order, never beyond maxlinks, each within the size limit and accepted by the DAG service. On success the node is full or the input is used up. On failure the node still had room, and the next chunk was consumed but is oversize (ErrSizeLimitExceeded) or refused. The node's own data is unchanged. |
| FilestoreCommands.FormattedLength | core/commands/filestore.go:26 | The text of a stream is at least as long as the stream, and ends in a newline when the stream is not empty. |
| FilestoreCommands.FormattedStep | core/commands/filestore.go:22-26 | Receiving one more result extends the text by that result's line. |
| FilestoreCommands.Advance | core/commands/filestore.go:28-29 | Handing out part of the line keeps "returned text plus unread rest" unchanged. |
| FilestoreCommands.Pull | core/commands/filestore.go:20-26 | A new line is pulled only after the old one is used up, and it extends the text. |
| FilestoreCommands.CopyInto | core/commands/filestore.go:28 | The copy moves min(len(p), rest of the line) bytes and leaves the rest of p alone. |
| FilestoreCommands.ChanWriter.constructor | core/commands/filestore.go:13-17 | A new writer has an empty buffer and offset 0. |
| FilestoreCommands.ChanWriter.Read | core/commands/filestore.go:19-31 | Read returns at most len(p) bytes, and the offset stays within the buffer. A new result is received only when the buffer is used up. A closed stream gives (0, EOF) and resets the offset to 0. Up to that EOF, the bytes returned are the text of the results received. |
| FilestoreCommands.StaleReadAfterEof | core/commands/filestore.go:20-25 | Reading a one-result stream to EOF and then once more hands out the last line a second time. The text read then differs from the stream's text. |
| FilestoreCommands.StickyChanWriter.constructor | core/commands/filestore.go:13-17 | A new writer has an empty buffer, and its invariant holds. |
| FilestoreCommands.StickyChanWriter.Read | core/commands/filestore.go:19-31 | As Read, with the stream's end checked before the offset is reset. EOF is reported iff everything has been received and returned, and the bytes returned are then exactly the text of the stream. A non-EOF Read into a non-empty p returns at least one byte. |
| FilestoreCommands.ReadAll | core/commands/filestore.go:19-31 | With the corrected writer, reading to the end gives exactly the concatenated Format lines of the stream, and a later Read gives (0, EOF) again. |

## Left out

- Goroutines, channels, `select` on context cancellation, `io.Pipe` and channel buffer sizes. Every stream is a finite sequence that has been fully produced, so cancellation part-way through and producer/consumer interleaving are not modelled.
- `GCLock`/`Unlock` and the lock state: no concurrent writer is modelled.
- Logging, `println`, and the delay in `debugCleanRmDelay`, which reads an environment variable and sleeps. None of them affects results.
- fuse/node/mount_unix.go is not part of this model: it is FUSE mounting and OS error-text rewriting.
- `dag.EnumerateChildren` lives in a package outside this model. It is modelled as the depth-first walk its visit callback implies, over a link service given as maps.
- The verifications (`VerifyBasic`, `VerifyFull`, `VerifyPostOrphan`) are not modelled. Clean takes their result as a parameter, chosen by the verification that the dispatch selects.
- `butil.CheckPins` is a predicate parameter that drops the pinned keys. `butil.ProcRmOutput` is not modelled: the removal report is returned as a sequence.
- `fs.Update` is not part of this model. Its compare-and-delete effect is the function `UpdateSpec`.
- The `DataObj` byte encoding, `Decode`, `DataObj.Format`, `node.DecodeProtobuf`, `KeyFromDsKey`/`DsKey` and base58 are codec parameters. `fs.FromTime` is the identity on a time stamp.
- The datastore key namespace (`dsns.Wrap`) is left out: keys are used directly.
- The cmds command definitions and `extractFilestore` in core/commands/filestore.go are CLI plumbing and are not modelled.
- `fsGetNode` (filestore/util/common.go:204-218) is not modelled. It repeats the first half of `getNode`.
- `DagBuilderHelper.GetDagServ`, `SetAsRoot`, `Add` and `Close` are not modelled. They forward to the DAG service and the batch, which are outside this model.
- `UnixfsNode` (helpers.go) is not part of this model. It is reduced to its data and its children's data.
- DagBuilder.UnixfsNode.AddChild: the DAG service's refusal is modelled as a set of data it refuses, so the error text is a stand-in.
- DagBuilder.DagBuilderHelper.Next: the splitter's error is ignored by the source (importer/helpers/dagbuilder.go:49-50). The model's splitter simply ends, so no error value is modelled.
- DagBuilder.BlockSizeLimit is 1048576, the value in helpers.go, which is not part of this model.
- FilestoreCommands.ChanWriter.Read: the result is formatted by a formatter parameter. `ReadAll` ties it to `ListRes.Format`, and `FormattedLength` shows that this formatter gives non-empty lines.
- FilestoreCommands.ChanWriter.Read: Go strings are bytes, and the model copies characters.
- FilestorePath.CleanPath: the source returns its argument itself when nothing changed. The value is the same, and sharing of the string is not modelled.
- The delegated `GCBlockstore` methods of the filestore-aware blockstore (Get, Has, DeleteBlock and the rest) are not modelled. Only Put and PutMany are overridden.
- MultiStore.MultiBlockstore.Get: with no mounts the source returns a nil block and a nil error, and the model does the same. `FirstMount`, `Put`, `PutMany` and `DeleteBlock` require at least one mount, because the source indexes mount 0.
- FilestoreCommon.ListWholeFile requires every value to decode. The source's filter reads the flags of the decoded record, and on an undecodable value it would dereference nil.
- FilestoreClean.FilestoreDb.Clean: the `quiet` flag and the "performing verify ..." progress lines written ahead of the report are not modelled. Neither changes which blocks are removed. Clean returns its outcome instead of writing to a pipe, so the `ProcRmOutput` write error is not modelled either.
- FilestoreClean.RmStep: a key the snapshot lacks is reported with the `NotFound` message. This stands in for the error text of the snapshot database's Get, which is not part of this model.
- FilestoreCommon.What requires a record. The source reads the flags through the record pointer embedded in `ListRes`, which would dereference nil on a result without one.
- Status codes are `int`. `to_remove` has 100 entries, so `SelectCandidates` requires every status to be below 100, because the source would index out of range otherwise.

## Findings

| source | as written | input that shows it | evidently intended | confidence | as-written member | corrected member |
|---|---|---|---|---|---|---|
| core/commands/filestore.go:20-25 | When the buffer is used up, `Read` sets `offset` to 0 before it receives from the channel. On a closed channel it returns (0, EOF) with the old line still in `buf` and `offset` at 0. | A stream of one result r: Read returns Format(r), then (0, EOF), then a third Read returns Format(r) again. | Once EOF has been reported, every later Read reports EOF again, so the text read is exactly the stream's text. | not executed | FilestoreCommands.StaleReadAfterEof | FilestoreCommands.StickyChanWriter.Read |
