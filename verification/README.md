# Game downloader: a verified model

The repository downloads a game release in fourteen resumable stages, unpacks it through a layered
virtual file system, decodes its compiled formats into text and seals the result as a snapshot. This
Dafny project models the parts of it that carry the hard guarantees, and proves those guarantees for
every input, every run and every reachable state.

The model takes the form of the source: loops over arrays and dictionaries are methods with
invariants, objects that update their fields are classes, and each method is proved against a function
or predicate that says what it is for. `dafny verify dfyconfig.toml` checks the whole project.

Conventions shared by all modules:

- Digests (SHA-256, SHA-1) are function parameters. Where a theorem needs that different contents
  have different digests, it requires the function to be injective and says so; the content-addressed
  store, for one, is safe without that.
- `sorted` and `heapq` are taken by their library contracts: `Sorting.Sort` is a stable sort, and the
  least element of a heap is the one popped.
- XML, zip archives, text codecs, Unicode normalisation and case folding, float formatting, JSON
  Schema contracts and external tools are parameters. What the code checks about their results is
  modelled; what they compute is not.
- Python exceptions are `Result` or `Option` values. Real time is `real`, and timestamps that the code
  truncates are whole seconds.
- Moments at which a process can die, be interrupted or meet an exception are explicit: before and
  after every atomic write of the pipeline, when the files of a stage are read to reuse it, and between
  any two steps of the store. A call that dies, or that an exception leaves which is none of the
  pipeline's own errors, is aborted.

| files | component |
|---|---|
| `ResultChain`, `PipelineSteps`, `Pipeline`, `PipelineHistory` | the staged pipeline and its hash chain of results |
| `BlobStore`, `BlobCompletion` | the content-addressed store under concurrency and crashes |
| `Decimal`, `Bencode`, `TorrentParser`, `Torrent` | the strict bencode parser and torrent metainfo |
| `PackedSection`, `PackedValues`, `PackedEncoder`, `PackedDecoder` | the packed-section tree decoder and a reference encoder of values and trees |
| `PoText`, `PoCatalogue`, `MoConverter`, `MoWriter` | the MO to PO converter with its own reader, and a reference writer of MO files |
| `LptBound`, `Scheduling` | the heap schedulers |
| `VfsCandidates`, `VfsIndex`, `VfsMaterialize` | the layered VFS index and its materialisation |
| `SplitBundles`, `BundleAssembly`, `BundleRoundTrip`, `ClientTree`, `DiskPaths` | split bundles from numbering to installation |
| `ManifestOrder`, `SnapshotManifest`, `SnapshotWriter`, `SnapshotHashing`, `SnapshotVerifier` | sealed snapshots |
| `TransferProgress` | HTTP transfer progress and the retry loop |
| `ReleaseStatus`, `RetrySchedule` | release status documents and the retry schedule |
| `Wrappers`, `Sorting`, `Grouping` | results, sorting and sums, dictionaries of lists |

Five properties that one might expect are false of the code. Each is replaced by its exact condition:

- A stage that is executed again does not always force every later stage to be executed again. If a
  change is tried with an earlier `until` and then taken back, later results made before the change are
  valid again (`PipelineHistory.RevertedChangeIsReused`). A stage is executed exactly when its stored
  input is not the clean one or an exception hits the reading of its files
  (`PipelineHistory.AfterReturn`), and the cascade holds when the stored stages form one chain (`PipelineHistory.ChangedStageCascades`).
- A resolve result is not committed for good once its status says succeeded. A fault in one of the two
  steps after that write makes the handler of `_execute_stage` write a failure over it: an exception of
  the commit observer or of the directory fsync, or an interruption before `committed` is set. A later
  call may then commit another result (`PipelineHistory.CommittedResolveIsReplaced`).
  `PipelineSteps.Downgraded` is the exact condition, on the schedule of faults
  (`Pipeline.Run.ExecuteStage`, `Pipeline.Run.RunStage`, `Pipeline.Run.Execute`); a resolve result that
  is there when a call starts stays forever, and resolve is committed again only after such a loss
  (`PipelineHistory.Replay`). A call that loses a result never returns: it ends with the failure or
  interruption of the stage, and is aborted exactly when one more fault follows right upon the write of
  the failure (`PipelineSteps.ExecutionOutcome`).
- The text of a PO catalogue is not always read back. It is exactly when the catalogue has an entry and
  no string holds U+0085, U+2028 or U+2029, which JSON leaves unescaped and `splitlines` breaks at
  (`PoCatalogue.RenderedIsRead`).
- `READY` does not determine every file of a snapshot: the verifier walks the payload layers only, so
  files elsewhere below `sources` may be added or replaced. It determines exactly the files that the
  descriptor covers (`SnapshotVerifier.ReadyDeterminesSnapshot`, `SnapshotVerifier.UncoveredIsIgnored`), and
  `SnapshotVerifier.StrayFileIsAccepted` is a case where it does not.
- `record_run` does not always leave a status that loads: a retained retry can be later than the run
  recorded (`ReleaseStatus.RetryCanOutlive`). `ReleaseStatus.RecordedIsLoadable` gives the condition.

## Model

| member | source | states |
|---|---|---|
| ResultChain.Ancestry | src/game_downloader/pipeline.py:636-671 | two chains of results whose last digests are equal are equal throughout, and belong to the same request |
| ResultChain.ReuseAgrees | src/game_downloader/pipeline.py:705-735 | a stored result whose input digest is that of the input prepared now is the result that executing the stage would commit, and so are all results below it |
| ResultChain.ChangeCascades | src/game_downloader/pipeline.py:636-671 | once an ancestor differs, the stored input of every later stage of a chain differs from the one prepared |
| ResultChain.CleanRunIsChain | src/game_downloader/pipeline.py:434-523 | a run from scratch builds a chain of results |
| ResultChain.CleanRunExtends | src/game_downloader/pipeline.py:434-523 | running to a later stage keeps the results of the earlier ones |
| PipelineSteps.ReusableWhenSameInput | src/game_downloader/pipeline.py:705-777 | for a sound stage all checks on stored input, result and status come down to this: it is reused exactly when it succeeded under the very input prepared |
| PipelineSteps.ReusedIsClean | src/game_downloader/pipeline.py:705-735 | what is reused is what a clean execution would commit |
| Pipeline.Run.Commit | src/game_downloader/pipeline.py:850-894 | the writes of result and status in order, with a step before, between and after them: the first step that does not go on determines which of them are made, and `committed` is set one step after the status was written |
| PipelineSteps.Handled | src/game_downloader/pipeline.py:894-928 | a failure before `committed` is written over whatever the status says, with a step before that write and one after: what the stage then holds and the outcome are those of `StageExecuted` |
| PipelineSteps.FailureIsRecorded | src/game_downloader/pipeline.py:885-928 | of an execution that does not return: when its first fault is an exception, or an interruption before `committed`, and the next step goes on, the stage is failed or interrupted accordingly with the new attempt and the prepared digest, and that is the outcome unless the step after is hit, when the call is aborted. A stage is left running exactly when its process dies while it runs or the failure write is hit |
| Pipeline.Run.ExecuteStage | src/game_downloader/pipeline.py:801-928 | the schedule of faults determines the outcome, the number of steps, all files of the stage and what was committed (`StageExecuted`): what was written before the first fault is there, with the failure over the status exactly when a failure is written. No other stage changes, and the stage stays sound |
| Pipeline.Run.ReconcileInterrupted | src/game_downloader/pipeline.py:615-634 | stages left running become interrupted, one write each, and nothing else changes |
| Pipeline.Run.LoadPinnedResolve | src/game_downloader/pipeline.py:551-601 | the files of a sound committed resolve pass every check: it is used exactly when the step goes on, refused exactly on an exception, and the call is aborted otherwise; no file changes |
| Pipeline.Run.Reuse | src/game_downloader/pipeline.py:705-735 | a stage committed under the prepared input is reused when its files can be read; an exception while they are read makes it executed again, and an interruption ends the call |
| Pipeline.Run.RunStage | src/game_downloader/pipeline.py:477-519 | one round of the loop: a stage committed under that input is left alone unless an exception hits the reading of its files, and a resolve committed before is left alone; any other is executed, and the faults determine its files, what was committed and the outcome. When it returns, the stage holds the clean result, and resolve the one just made if it had none |
| Pipeline.Run.RunStages | src/game_downloader/pipeline.py:477-519 | the loop returns with the clean run and exactly the stale and the unreadable stages executed, or is cut in the first round that the faults do not let return, with the files and the outcome of that round; later stages are untouched and attempts only grow |
| Pipeline.Run.Execute | src/game_downloader/pipeline.py:434-523 | crash safety and incremental equals clean for one call: every stage marked succeeded matches its digests, attempts only grow, a resolve committed before the call stays, and one committed in the call is there at its end if and only if the call did not lose it. A call that returns leaves exactly the results of a clean run, from the resolve result pinned or just made, and has executed exactly the stages that were stale or could not be read. One that does not return has been cut while stages were reconciled, while the pinned resolve was loaded, or in a round, and what it leaves and its outcome are determined by the first fault there (`CallCut`) |
| PipelineHistory.Replay | src/game_downloader/pipeline.py:434-523 | the same for every call of any history with crashes, failures, interruptions and changed implementations. Between any two moments of it attempts only grow and a committed resolve stays, and the number of resolve results ever committed is the number of losses, plus one if there is one now |
| PipelineHistory.FailedExecutorIsRecorded | src/game_downloader/pipeline.py:885-928 | a call of a new run for any stage, with an exception or an interruption as the only fault of the first five steps of its execution: the call ends with the failure or interruption of that stage, which then has one attempt; the stages below have succeeded and those above are untouched |
| PipelineHistory.HistoryNeverGoesBack | src/game_downloader/pipeline.py:434-523 | from any moment between two calls to any later one, attempts grow and a resolve result stays |
| PipelineHistory.CommittedResolveIsReplaced | src/game_downloader/pipeline.py:888-907 | a concrete run, with an exception or an interruption right after the status write, whose first call fails or is interrupted accordingly, and which commits two different resolve results |
| PipelineHistory.AfterReturn | src/game_downloader/pipeline.py:705-735 | after a call that returns, a stage holds the clean input; it was executed exactly when that was not its stored input or an exception hit the step at which its files were read |
| PipelineHistory.UnchangedResumeAt | src/game_downloader/pipeline.py:705-735 | resuming a run that already holds the clean results leaves a stage as it is if and only if no exception hits the reading of its files; otherwise the stage is executed again under the same input |
| PipelineHistory.UnchangedResumeExecutesNothing | src/game_downloader/pipeline.py:434-523 | without such exceptions that resume changes no file |
| PipelineHistory.ChangedStageCascades | src/game_downloader/pipeline.py:636-671 | when the stored stages form one chain, a stage whose result changes forces every later stage up to `until` to be executed |
| PipelineHistory.RevertedChangeIsReused | src/game_downloader/pipeline.py:705-735 | a concrete run that shows the cascade can fail otherwise: stage 1 is executed three times and stage 2 once |
| BlobStore.StepKeepsInvariant | src/game_downloader/workspace.py:178-300 | any step of any process, or a crash, keeps every blob hashing to its name, every lock held by a live process, and every committed blob as it was |
| BlobStore.HistoryKeepsStore | src/game_downloader/workspace.py:178-358 | the same for every interleaving from a quiet store |
| BlobStore.CommittedForever | src/game_downloader/workspace.py:178-358 | what is committed at some moment of a history is there, unchanged, at every later one |
| BlobStore.StepRefinesMap | src/game_downloader/workspace.py:178-358 | the store refines a map from digest to bytes to which a step adds one entry or none |
| BlobStore.CompletedIsStored | src/game_downloader/workspace.py:178-300 | an operation that completes has its content in the store, and a completed adoption has consumed its source |
| BlobStore.PutBytesIsNeverRefused | src/game_downloader/workspace.py:178-195 | without collisions, writing bytes never meets an existing blob that fails validation |
| BlobCompletion.AloneEnds | src/game_downloader/workspace.py:178-336 | what an operation alone on its digest comes to, from its start to its end, whatever other processes have in hand: it is refused exactly when the blob is there with another size or the source of a new file has changed, and otherwise its content is under its digest, an adopted source is gone, and nothing else has changed |
| BlobCompletion.StatedIsStored | src/game_downloader/workspace.py:178-336 | without collisions, writing bytes, copying or adopting a file whose digest and size are as stated always completes, with the blob absent or present; the store then has exactly that content under that digest and the locks are as before |
| BlobCompletion.NeverStuck | src/game_downloader/workspace.py:178-358 | no reachable state is a deadlock: any process at work can be brought to its end without a crash, at most after the one whose lock it waits for |
| Bencode.SameValue | src/game_downloader/torrent.py:32-133 | canonical bencoding is prefix-free: two values whose encodings begin one text are the same |
| Bencode.LessIsBytewise | src/game_downloader/torrent.py:115-133 | the order of dictionary keys is that of the first differing byte, a key before its continuations |
| TorrentParser.AcceptedValueIsUnique | src/game_downloader/torrent.py:40-48 | a text is accepted with at most one value |
| TorrentParser.IntOfIsExact | src/game_downloader/torrent.py:69-83 | the integer read from a canonical text prints as that text |
| TorrentParser.BencodeParser.Parse | src/game_downloader/torrent.py:40-48 | the parser accepts a text with a value exactly when the text is its canonical encoding within the byte, depth and value limits, and the info span is exactly the encoding of the top-level info value |
| TorrentParser.BencodeParser.Value | src/game_downloader/torrent.py:50-67 | one value from any position: what was consumed is its encoding, the counter has grown by its values, and a refusal means that no value that fits stands there |
| TorrentParser.BencodeParser.Integer | src/game_downloader/torrent.py:69-83 | accepts exactly canonical integers |
| TorrentParser.BencodeParser.ByteString | src/game_downloader/torrent.py:85-102 | accepts exactly byte strings with a canonical length that fits the input |
| TorrentParser.BencodeParser.List | src/game_downloader/torrent.py:104-113 | accepts exactly the lists that fit |
| TorrentParser.BencodeParser.Dictionary | src/game_downloader/torrent.py:115-133 | accepts exactly the dictionaries that fit, keys strictly sorted, and records the info span at the top level |
| Torrent.DescriptionIsUnique | src/game_downloader/torrent.py:203-313 | a parsed root describes at most one metainfo |
| Torrent.PieceCount | src/game_downloader/torrent.py:276-283 | the expected number of pieces is the one with which the pieces hold the payload and none is to spare |
| Torrent.ReadFile | src/game_downloader/torrent.py:235-262 | reads a file entry exactly when it describes one |
| Torrent.ReadLayout | src/game_downloader/torrent.py:225-274 | reads the single or multi-file layout exactly when the dictionary describes one |
| Torrent.ReadPieces | src/game_downloader/torrent.py:213-223 | reads piece length and digests exactly when they are sound and within the limit |
| Torrent.ParseTorrent | src/game_downloader/torrent.py:203-313 | accepts bytes exactly when they encode a root that describes a metainfo; the info hash is that of the canonical info dictionary |
| PackedSection.NodesAreBounded | src/game_downloader/readable.py:1253-1323 | an accepted section of L bytes has N nodes, synthetic rows included, with 6 (N - 1) <= L |
| PackedSection.MatrixNodes | src/game_downloader/readable.py:1312-1322 | a twelve-float leaf becomes four row nodes |
| PackedValues.SignedRoundTrip | src/game_downloader/readable.py:1340-1346 | the little-endian two's complement bytes of any integer in the signed range of a width read as that integer |
| PackedValues.ValueRoundTrip | src/game_downloader/readable.py:1325-1365 | the bytes of a string, integer, boolean, list of floats or masked blob show the text of that very value, when its text is readable |
| PackedValues.DecodedIsProper | src/game_downloader/readable.py:1325-1365 | every accepted data block is the encoding of a value of its kind, so values are decoded in no other way |
| PackedValues.MatrixIsShown | src/game_downloader/readable.py:1312-1322 | twelve floats are shown as four rows of three, in their order |
| PackedEncoder.RoundTrip | src/game_downloader/readable.py:1253-1323 | for every tree of sections that hold values, decoding its reference encoding yields the tags of the keys, the texts of the values and the children in their order at every depth, only twelve-float leaves rewritten into rows, when its parts are readable, and is rejected otherwise |
| PackedEncoder.ChildrenRoundTrip | src/game_downloader/readable.py:1276-1311 | the same for the first n children, through the records that hold the end and type of the element before |
| PackedDecoder.TableRoundTrip | src/game_downloader/readable.py:1235-1251 | the string table of the encoder is read back, up to where the section starts |
| PackedDecoder.FileRoundTrip | src/game_downloader/readable.py:1199-1233 | the same for whole files with magic, version and string table |
| PackedDecoder.FileNodesAreBounded | src/game_downloader/readable.py:1199-1323 | the linear bound for whole files |
| PackedDecoder.PackedXmlDecoder.Decode | src/game_downloader/readable.py:1199-1233 | the decoder with its counter accepts exactly the files that read as a tree within the size and node limits, and counts its nodes exactly |
| PackedDecoder.PackedXmlDecoder.ReadStringTable | src/game_downloader/readable.py:1235-1251 | the loop reads exactly the table, or fails when there is none |
| PackedDecoder.PackedXmlDecoder.Node | src/game_downloader/readable.py:1253-1323 | the recursion with its counter refines the tree reader; the node limit refuses exactly the trees that exceed it |
| PoText.LoadsQuote | src/game_downloader/readable.py:1533-1534 | a quoted string is read back, and is no string when cut short |
| PoText.UnescapeEscape | src/game_downloader/readable.py:1533-1534 | escaping is undone whatever follows |
| PoText.EscapedBreaks | src/game_downloader/readable.py:1533-1534 | an escaped string has a line break only if it had one of the three wide ones |
| PoText.SplitParagraphs | src/game_downloader/readable.py:1559-1566 | groups joined by empty lines are split again |
| PoCatalogue.GroupIsRead | src/game_downloader/readable.py:1566-1592 | the lines of one entry, with context, plural and indices of any length, are read back exactly when its strings are clean |
| PoCatalogue.UncleanLinesAreRejected | src/game_downloader/readable.py:1566-1592 | a wide break in some string makes the reader reject the text |
| PoCatalogue.RenderedIsRead | src/game_downloader/readable.py:1536-1594 | reading what was rendered returns the entries exactly when there is one and all are clean; it is rejected otherwise |
| MoConverter.ParseRaw | src/game_downloader/readable.py:1470-1511 | accepts exactly the files with a sound header in either byte order, and returns the strings that the two tables list |
| MoConverter.ParseRendered | src/game_downloader/readable.py:1559-1594 | the loops compute the reader that the round trip is about |
| MoConverter.Convert | src/game_downloader/readable.py:1440-1468 | a converted catalogue reads back as the catalogue of the MO file, and a catalogue is refused only if it is empty, unclean or too long |
| MoWriter.MessageRoundTrip | src/game_downloader/readable.py:1513-1531 | an entry written from a message, with or without context and plural, is read as that message when its parts decode, and as nothing else |
| MoWriter.FileRoundTrip | src/game_downloader/readable.py:1470-1511 | a file written in either byte order lists exactly the entries written |
| MoWriter.CatalogueRoundTrip | src/game_downloader/readable.py:1440-1531 | a file of messages holds their texts in the charset that its header message declares, in their order, and no other catalogue |
| LptBound.ListBound | src/game_downloader/readable.py:2326-2352 | list scheduling: m times the load after placing an item is at most the total plus (m - 1) times the item |
| LptBound.LargestFirstBound | src/game_downloader/readable.py:2326-2352 | Graham's bound for largest first: 3 m L <= (4 m - 1) times the limit of any other assignment |
| Scheduling.DealOut | src/game_downloader/readable.py:2326-2352 | the heap loop puts every item into a least loaded bucket and keeps the true loads |
| Scheduling.BalancedStagedPycWork | src/game_downloader/readable.py:2326-2352 | the chunks are the input rearranged, come heaviest first, are as many as the workers call for, and the heaviest is within Graham's bound of every assignment |
| Scheduling.HeapIsNotEmpty | src/game_downloader/readable.py:253-280 | the heap of buckets with room is never empty when it is popped |
| Scheduling.NoBatchIsEmpty | src/game_downloader/readable.py:253-280 | no batch stays empty |
| Scheduling.DealOutLimited | src/game_downloader/readable.py:253-280 | the heap loop puts every item into the least loaded batch with room, the first of those |
| Scheduling.DealingIsDetermined | src/game_downloader/readable.py:253-280 | that rule determines where every item goes, and with that every batch |
| Scheduling.BalancedPycBatches | src/game_downloader/readable.py:253-280 | the batches are those that dealing out the items largest first by that rule makes; they are the input rearranged, hold between 1 and `batch_size` items and come by non-increasing true load |
| Scheduling.ChunkedWorkCovers | src/game_downloader/readable.py:2313-2324 | chunks keep the order of the work, are not empty and are at most four per worker; all but the last have one length, the least with which so many chunks suffice |
| VfsCandidates.ParsePackageOrder | src/game_downloader/vfs.py:197-227 | accepts exactly a non-empty order of distinct supported locations, and returns it in document order |
| VfsCandidates.LookupIsLeast | src/game_downloader/vfs.py:135-183 | mount lookup finds a candidate of the least precedence that offers the path |
| VfsCandidates.LookupIsFirstListed | src/game_downloader/vfs.py:132-176 | the winner, said of the order and the tree alone: a package entry wins when no package listed before it has an entry for the path in that layer, and a loose file when no listed package has one; nothing is found exactly when nothing offers the path |
| VfsCandidates.TreeIsIndexable | src/game_downloader/vfs.py:139-176 | the tree contributes its candidates exactly when every package is listed and readable with safe entry paths, and every loose file below `res` has a safe path |
| VfsIndex.Resolve | src/game_downloader/vfs.py:291-324 | lists exactly the candidates of a path in order and picks the one that comes first, or reports the path ambiguous when two tie |
| VfsIndex.PassesFindAll | src/game_downloader/vfs.py:139-176 | the pass over packages and the pass over loose files find what one pass over the tree would |
| VfsIndex.Index | src/game_downloader/vfs.py:112-194 | the winner of every layer and case-folded path is the first listed package that has an entry for it, or a loose file if none has; every candidate lies in exactly one entry, entries are sorted; it fails exactly when a file cannot be indexed or a path is ambiguous |
| VfsMaterialize.MaterializePackage | src/game_downloader/vfs.py:456-523 | makes a file of every candidate of a package, or fails when one changed or is damaged |
| VfsMaterialize.Schedule | src/game_downloader/vfs.py:389-424 | grouping and scheduling lose no winner and repeat none, for any number of workers |
| VfsMaterialize.Materialize | src/game_downloader/vfs.py:331-454 | succeeds exactly when the languages are selected and every winner is available, and then the files are the winners, once each, sorted |
| VfsMaterialize.FilesAreWinners | src/game_downloader/vfs.py:702-708 | the files are exactly what mount lookup finds, each layer and path once, with the path, layer and size of the winner and the content of the loose file or of the undamaged archive entry |
| VfsMaterialize.MaterializationIsUnique | src/game_downloader/vfs.py:331-454 | the result depends on no grouping, schedule, number of workers or order of entries |
| SplitBundles.SuffixIsUnique | src/game_downloader/acquisition.py:68-68 | base and index determine the name of a segment |
| SplitBundles.SiblingsInOrder | src/game_downloader/acquisition.py:309-312 | sorted indices are 1 to n exactly when the bundle has each of them once |
| SplitBundles.Split | src/game_downloader/acquisition.py:290-331 | succeeds exactly when every bundle is contiguous, and then marks every numbered file with its bundle, its index and the length of the bundle, and no other |
| BundleAssembly.AssembleSplit | src/game_downloader/delivery.py:1533-1595 | succeeds exactly on a complete archive, whose bytes are the segments joined |
| BundleAssembly.AssembleAll | src/game_downloader/delivery.py:1412-1420 | assembles every bundle of the plan exactly once, in the order of their names, or fails when one is incomplete or no archive |
| BundleRoundTrip.TransitionIsWellNumbered | src/game_downloader/acquisition.py:290-331 | in a marked transition every group holds its indices 1 to n once, for any order of the artifacts |
| BundleRoundTrip.EveryBundleIsComplete | src/game_downloader/delivery.py:1548-1559 | whatever `_split_segments` numbers passes the completeness check, for any order of artifacts and downloads and together with any other transitions |
| BundleRoundTrip.JoinedInNumericOrder | src/game_downloader/delivery.py:1560-1568 | the segments of a bundle are joined in the order of the numbers in their names, from .001 |
| ClientTree.Claim | src/game_downloader/client_tree.py:498-511 | claiming succeeds exactly while no two files of a layer share a case-folded path |
| ClientTree.Assemble | src/game_downloader/client_tree.py:124-212 | succeeds exactly when every installation goes through, no path is claimed twice and there is a file, and returns all their files |
| ClientTree.EachBundleOnce | src/game_downloader/client_tree.py:157-183 | every bundle with a segment is installed exactly once, and no other |
| ClientTree.OthersOnce | src/game_downloader/client_tree.py:184-188 | every other artifact is installed exactly once, in order |
| DiskPaths.OnDiskIsInjective | src/game_downloader/client_tree.py:63-65 | different byte paths have different names on disk |
| SnapshotManifest.Lines | src/game_downloader/snapshot.py:1150-1153 | the lines of a file join to the file, so hashing line by line hashes the file |
| SnapshotManifest.Documents | src/game_downloader/snapshot.py:1140-1171 | reads a manifest exactly when it is canonical line by line and agrees with the digest and count of its reference |
| SnapshotManifest.CheckEntries | src/game_downloader/snapshot.py:1217-1269 | accepts exactly strictly ordered entries without duplicates, each bound to its source, and returns the payload they describe |
| ManifestOrder.LexicographicIsTotal | src/game_downloader/snapshot.py:1185-1192 | Python's order of tuples of numbers, strings and bytes is strict and total |
| ManifestOrder.TupleOrderExactly | src/game_downloader/snapshot.py:1185-1192 | the first differing component decides, by its first differing number |
| SnapshotManifest.OrderExactly | src/game_downloader/snapshot.py:1172-1249 | the order of each manifest, said of the fields: the base before every locale, locales by name, then precedence for packages, then path |
| SnapshotWriter.SortedIsStrict | src/game_downloader/snapshot.py:506-566 | sorting by the keys of a manifest gives the strict order of keys that the verifier demands exactly when no two entries share a key |
| SnapshotWriter.KeysAreDistinct | src/game_downloader/snapshot.py:1172-1269 | in every manifest but that of the packages, entries that are no duplicates never share a key |
| SnapshotWriter.JsonlWriter.MakeReference | src/game_downloader/snapshot.py:205-240 | the reference made at any moment agrees with the file as it stands, which is read as the entries written so far |
| SnapshotWriter.WriteManifest | src/game_downloader/snapshot.py:459-600 | the verifier reads the manifest back as the sorted entries, and accepts them exactly when there are no duplicates, each fits the rest of the snapshot, and no two packages share language, precedence and path |
| SnapshotHashing.VerifyRequests | src/game_downloader/snapshot.py:1104-1138 | the batching queue accepts exactly when every file matches; the batches are the requests in order, each once, within the limits |
| SnapshotHashing.VerifyInBatches | src/game_downloader/snapshot.py:1115-1138 | the same for the queue alone |
| SnapshotVerifier.WalkLayer | src/game_downloader/snapshot.py:1298-1326 | a walk in any order finds the files of a layer and requests each once, or meets one that is not expected |
| SnapshotVerifier.VerifyPayload | src/game_downloader/snapshot.py:1271-1331 | accepts exactly when the files of the layers are those expected, with the stated sizes and digests |
| SnapshotVerifier.Verify | src/game_downloader/snapshot.py:989-1035 | accepts exactly the sealed snapshots |
| SnapshotVerifier.ReadyDeterminesSnapshot | src/game_downloader/snapshot.py:989-1035 | two accepted directories with equal READY have equal descriptors and agree on every file that it covers: manifests and all layers of sources, sources-as3 and stubs |
| SnapshotVerifier.UncoveredIsIgnored | src/game_downloader/snapshot.py:1271-1331 | a file that the descriptor does not cover may be changed in an accepted directory, which is accepted again |
| SnapshotVerifier.StrayFileIsAccepted | src/game_downloader/snapshot.py:1271-1331 | a concrete sealed directory, with five empty manifests, to which `sources/x` can be added: both are accepted with equal READY |
| TransferProgress.HttpTransferProgress.Check | src/game_downloader/delivery.py:137-171 | fails exactly when the deadline has passed; otherwise the queue starts at the sample that a scan of the full history would pick, and the warning is raised exactly when the transfer turns slow |
| TransferProgress.HttpTransferProgress.Update | src/game_downloader/delivery.py:119-125 | only bytes above the high watermark renew the deadline |
| TransferProgress.HttpTransferProgress.RestartAfterDiscard | src/game_downloader/delivery.py:130-135 | starts a new window and a new watermark without renewing the deadline |
| TransferProgress.StartIsLatest | src/game_downloader/delivery.py:146-150 | the evicting loop stops at the latest sample at or before the cutoff, or at the first sample |
| TransferProgress.DownloadWebSeed | src/game_downloader/delivery.py:1222-1333 | the retry loop on its attempts alone: it ends idle exactly when some update or question comes `timeout` or more after the last time that bytes went above every earlier count since the last discard; otherwise it is complete at the first verified attempt, or corrupt or unavailable by whether an attempt was corrupt. The deadline is renewed at most max(0, most - initial) + most times, where no update exceeds `most`; progress is rebased at most once, and the fallbacks are counted exactly |
| ReleaseStatus.LoadedIsLoadable | scripts/release_status.py:249-273 | what was loaded from any document is written and loaded unchanged |
| ReleaseStatus.StatusLoadsExactly | scripts/release_status.py:182-312 | a document loads as a status exactly when it says that status, its moments cut to seconds, and name, version, run and retry meet the stated conditions |
| ReleaseStatus.BlockedExactly | scripts/release_status.py:343-368 | a release is held back exactly while it is unpublished, is the one that keeps failing, and 12 hours, or 24 hours from 3 days on, or 7 days from 10 days on, have not passed since its last failure |
| ReleaseStatus.RecordedIsLoadable | scripts/release_status.py:412-433 | from a loadable status, recording a valid run gives a status that loads exactly when no retained retry is later than the run |
| ReleaseStatus.RetryCanOutlive | scripts/release_status.py:304-311 | a concrete update whose status is rejected when it is loaded |
| ReleaseStatus.RecordingTwice | scripts/release_status.py:430-431 | recording the same run again leaves the status as it is |
| ReleaseStatus.StatusFile.RecordRun | scripts/release_status.py:371-433 | succeeds exactly for a valid run on a file that loads. The file then loads, as the updated status, exactly when no retained retry outlives the run, whether it was written or not |
| ReleaseStatus.RecordTwice | scripts/release_status.py:371-433 | recording the same run again reports unchanged and writes nothing exactly when no retained retry outlives the run; otherwise the file no longer loads |
| RetrySchedule.HistoryIsSpaced | scripts/release_status.py:343-368 | when every attempt is guarded by the comparison, the retry state tracks first and last failure, and failures are spaced by the schedule |
| RetrySchedule.SpacedIsPermitted | scripts/release_status.py:343-368 | the converse: the comparison lets through every history whose failures are spaced by the schedule, so it holds back no more than that |
| RetrySchedule.RetriesAreRare | scripts/release_status.py:80-90 | at most 6 failures before an age of 3 days, at most 7 from 3 to 10 days, and after that at least 7 days between two |

## Left out

- Direct resume with `--skip-check` (pipeline.py:448-476): it checks only that predecessors have succeeded, not that they chain.
- Status readers that run without the lock beside a writer: the code promises nothing about such a race.
- Executors are functions of their input and of the results below it; a failing executor is a fault. Work directories, statistics, progress reports, and the validation and audit hooks are not modelled.
- Distinct processes sharing one run directory: the run lock is modelled as calls that follow one another.
- The methods of `BlobStore` appear as the steps of one state machine over files, locks and processes, since their interleaving is what matters.
- File modes, symbolic links, inodes and fsync of the store and of snapshots; `expected_sha256` of `put_file`.
- BlobStore.CompletedIsStored: for `put_file` and adoption it names the digest of what is stored, not the source bytes, because another process may change the source while it is read; `BlobCompletion.StatedIsStored` says what is stored when none does.
- CPython's limit on the number of digits of an integer, and integers beyond memory.
- Base64 and UTF-8 views of torrent paths; `torrent_source_components`.
- PackedDecoder.PackedXmlDecoder.Decode: yields the tree; its rendering as XML text, the size limit on that text and its reparse are not modelled.
- MoConverter.ParseRendered: `\u` escapes of surrogate pairs, and plural indices that only Python's `int` accepts, such as `+1`, `1_0` or digits other than ASCII, are rejected; the PO writer never writes them.
- VfsMaterialize.Materialize: a file and a directory of the same name in one layer, which fail on disk, and the CRC of entries, which is part of an entry being sound.
- VfsCandidates.ParsePackageOrder: the `Package` elements of `paths.xml` come parsed, with a text and a safe path.
- Package entry counts and unpacked sizes belong to the archive reader.
- BundleRoundTrip.EveryBundleIsComplete: transitions are distinct by part, language and target version, which is what names their bundles.
- `AcquisitionPlanner._assembled_bytes` and the disk space estimate, which are sums.
- Extraction of bundles, service files of patches, and link or copy of files: an installation either yields paths or fails.
- SnapshotVerifier.Verify: file modes, kinds of files and directories without files are not seen, since a tree is its regular files.
- The creation of descriptors by the assembler beyond the manifests.
- SnapshotWriter.WriteManifest: that canonical JSON is read back as it was written, and that UTF-8 is injective, are hypotheses on the parameters.
- SnapshotManifest.CheckEntries: the checks that bind an entry to packages, tools and sources are one predicate on the entry, the descriptor and the entries verified before.
- TransferProgress.DownloadWebSeed: the early return for a payload that is already complete and exceptions other than those of the transfer are not modelled; an attempt is a list of updates, questions for the remaining time and an ending; aria2, hashing and back-off sleeps are time that passes. No bound on elapsed time is stated, since an update that brings new bytes renews a deadline even after it has passed.
- `_DownloadProgress`, which sums progress over artifacts and reports it.
- JSON typing of status documents, ISO 8601 parsing and the regular expressions for versions and URLs.
- HTTP, aria2, SSH and cloud clients, decompilers, engine stub extraction, the command line, the status page and reports.
