# Knossos, modelled and verified

Knossos is a mod manager for FreeSpace 2 Open. This project models the parts of it
that carry state through long loops, and proves what they keep and what they
compute:

- the client's **dependency resolver**, a backtracking search (`ClientResolver`,
  with its termination order in `Backtracking`), and the server's greedy one
  (`ServerResolver`), with inputs on which they go wrong (`ResolverLimits`,
  `ServerLimits`);
- the **download queue**: the retry and resume loop of one item (`Download`) and
  the protocol between Run, its workers, NextResult and Abort (`DownloadQueue`);
- the **KAR archive**: the concurrent writer (`KarWriter`) and its folders
  (`KarTree`), the launcher's reader
  (`KarReader`), the table of contents (`KarToc`), the way from one to the other
  (`KarTocRoundTrip`, `KarRoundTrip`), and the chunked delivery of an entry
  (`ArchiveHandler`);
- the **Boolean expressions** of the build scripts: the state machine that parses
  them (`BoolParser`), what its trees mean (`BoolMeaning`) and when it crashes
  (`BoolCrash`);
- the **task runner** of the build tool (`TaskRunner`), and when a run of it
  succeeds (`TaskWalk`);
- the **mod store**: sorting (`VersionSort`), the version index (`VersionIndex`),
  the bucket that it must agree with (`ModStore`), and the cleanup after a remote
  import (`RemoteCleanup`);
- the **modsync exporter**: packs of releases and their checksum (`Modsync`,
  `SortedStrings`), two updates that go wrong (`ModsyncLimits`) and one whole export
  (`ModsyncExport`);
- the **settings file** of the engine, printer and parser (`IniSettings`), and when
  the parser crashes (`IniCrash`);
- the **install dialog**'s dependency closure (`InstallClosure`).

`ByteStrings`, `Seqs` and `Wrappers` hold what several of these share.

Every algorithm that works by changing things is a method, proved against a
function or a predicate, and the results are lemmas about those. Map iteration
order is a choice of any remaining key, so a result holds for every order.

`dafny verify dfyconfig.toml` checks everything.

## Where the code does not do what one would expect

The model follows the code. Where a natural property fails, there is a lemma with an
input on which it fails, and one that says exactly when it holds.

- Client resolver: the answer is closed but for what a release asks of its own mod
  (`AnswerNotClosed`), and closed exactly when these requests are met (`Solves`),
  which is sure if no listed release has one that is not (`ClosedWithoutSelfDemands`).
  Undoing a node panics (`PanicsOnB`) exactly if its release rejects itself
  (`Backtrack`). Both examples are calls that give this result.
- Server resolver: a mod whose picked version had no dependencies may end with
  another version whose dependencies nobody looked at (`ServerLimits.AnswerNotClosed`
  is a call that answers so);
  the answer is closed exactly when these are met (`ClosedWhen`), which is sure if no
  mod has versions of both kinds (`ClosedWhenUniform`).
- Downloads: with a checksum the expected length does not count once an answer
  announces another one (`OtherLengthPasses`, `PassesWithItsLength`). A restart with
  status 200 does not cut the file off, so a checked download can keep the tail of an
  earlier, longer one (`StaleTailPasses`, `CheckedBytesAreTheFile`).
- Queue: Run can return nil while a verified result is not in the list yet, and
  NextResult then misses it (`ResultCanBeMissed`), exactly while the worker stands
  between two critical sections (`MissedOnlyWhileReleased`). A worker that leaves
  through an early return keeps its slot for good (`GoneForever`).
- KAR: an empty file, and no other, is read back as its compressed bytes
  (`ReadBack`). A folder that is opened under a name in use replaces the one that was
  there, with all it holds (`OpenLeads`, `LostIsNotRead`).
- Boolean expressions: in `!(a && b)` the negation goes to `a` alone
  (`LeadingNegationMisread`), exactly when a negated bracket starts a chain
  (`MeaningExact`). A bracket that is closed without being open crashes the parser
  (`UnmatchedBracketCrashes`, `CrashesExactly`), and a bracket can only be closed right
  behind a name, after an operator (`ParseText`). `a &&` parses to a tree that crashes
  when it is evaluated (`MissingOperandPasses`), as does exactly every text that parses
  and ends in the middle (`CompleteExactly`).
- Task runner: a task with the name of a listed one, run through a reference, hides a
  cycle of the listed one (`CyclePasses`, `NilMeansNoCycle`). Without such tasks, a run
  in which nothing else goes wrong succeeds exactly if what it needs has no cycle
  (`CalmSucceedsExactly`).
- Mod store: IDs with `#` share bucket keys with other mods (`SharedKey`, `KeysDiffer`).
- Remote cleanup: removing while ranging skips versions and counts some twice
  (`CleanupGoesWrong`, `CleanupExactness`).
- Modsync: the last pack is read again relative to the working directory, so new
  releases are published exactly if that read succeeds (`NewReleasesNeedLastPack`), and
  never for a mod without packs (`ModWithoutPacks`, `FirstReleaseStaysOut`); the
  checksum describes the packs exactly if the pack read there has the versions of the
  stored one (`OtherLastPack`, `HashedIsPublished`).
- Settings: a section without fields at the end of the file makes the file
  unreadable, and nothing else does (`RoundTrip`); a line without `=` crashes the parser
  (`LineWithoutValueCrashes`, `IniCrash.CrashesExactly`).

## Model

| member | source | states |
|---|---|---|
| ClientResolver.FilterVersions | packages/libknossos/pkg/mods/dependencies.go:228-239 | the in-place deletion from the end keeps exactly the candidates that a constraint allows, in their order; it fails if and only if a candidate cannot be read |
| ClientResolver.KeepIsExact | packages/libknossos/pkg/mods/dependencies.go:214-260 | a candidate survives narrowing if and only if every constraint on its mod allows it, and the last one that survives is the last allowed one |
| ClientResolver.NarrowCandidates | packages/libknossos/pkg/mods/dependencies.go:214-260 | applying constraints one by one gives each mod the versions that all of them allow; a mod is enqueued when it is seen for the first time; a failure names its cause: the constraints leave a mod nothing of what it had, or a mod that is asked for has no versions or an unreadable one |
| ClientResolver.AcceptedByPath | packages/libknossos/pkg/mods/dependencies.go:131-153 | the check of a candidate against the nodes already placed accepts it if and only if every one of them accepts its version and packages |
| ClientResolver.CollectConstraints | packages/libknossos/pkg/mods/dependencies.go:155-207 | the demands of a candidate are those of its supported packages; success means that every earlier node suits each of them and every constraint is readable; a clash names a demand that a node does not suit, and a malformed demand has an unreadable constraint |
| ClientResolver.TryVersion | packages/libknossos/pkg/mods/dependencies.go:106-269 | a placed node has narrowed candidates, and it and every node before it meet each other's demands; a rejected candidate has no supported package, does not fit an earlier node, or leaves a mod nothing; one that ends the search is unreadable or missing, or asks for something that is |
| ClientResolver.PickStaysLast | packages/libknossos/pkg/mods/dependencies.go:88-103 | a node's snapshot of its own mod ends in another version than the one it picked if and only if the release rejects itself |
| ClientResolver.PushKeepsPath | packages/libknossos/pkg/mods/dependencies.go:262-269 | placing a node keeps all pairs of the path mutually compatible and every snapshot sound |
| ClientResolver.PushKeepsCover | packages/libknossos/pkg/mods/dependencies.go:241-269 | placing a node loses no mod: whatever the path or a candidate list mentions stays placed or enqueued |
| ClientResolver.PopKeepsCover | packages/libknossos/pkg/mods/dependencies.go:63-104 | undoing the last node loses no mod either, with duplicates in the queue allowed |
| ClientResolver.WeightDrops | packages/libknossos/pkg/mods/dependencies.go:88-104 | candidate lists that only get shorter weigh less once one of them lost a version: the measure behind termination |
| ClientResolver.PushKeepsSearching | packages/libknossos/pkg/mods/dependencies.go:262-269 | placing a node keeps the search invariant and lowers its rank |
| ClientResolver.PopKeepsSearching | packages/libknossos/pkg/mods/dependencies.go:63-104 | undoing a node and the version it picked keeps the search invariant and lowers its rank |
| ClientResolver.DropKeepsSearching | packages/libknossos/pkg/mods/dependencies.go:106-130 | dropping a rejected candidate keeps the search invariant and lowers its rank |
| ResolverLimits.ClosedWithoutSelfDemands | packages/libknossos/pkg/mods/dependencies.go:131-207 | if every listed release has what it asks of its own mod, which a caller can see before the call, then every answer is closed; if the root has not, no answer is |
| ClientResolver.PathSolves | packages/libknossos/pkg/mods/dependencies.go:272-277 | once the queue is empty, the versions of any path that the search can have reached form a solution, through any number of backtracks and duplicate entries |
| ClientResolver.BuildSnapshot | packages/libknossos/pkg/mods/dependencies.go:272-277 | the returned snapshot has, for each mod on the path but the root, the version placed last |
| ClientResolver.EndSolves | packages/libknossos/pkg/mods/dependencies.go:272-277 | that snapshot, of any path at the end of the search, is a solution |
| ClientResolver.Backtrack | packages/libknossos/pkg/mods/dependencies.go:63-104 | what undoing does, exactly: the path loses its last node, its mod and the one without candidates go to the front of the queue, and the candidates become the snapshot of that node, in which its mod has lost the version it picked and nothing else; it fails only without a node to undo, and panics if and only if there is one and its release rejects itself |
| ClientResolver.PlaceOrBacktrack | packages/libknossos/pkg/mods/dependencies.go:63-269 | one turn of the outer loop with its repickVersion jumps, exactly: the candidates of the mod are refused from the last one down, until one is placed, which appends its node, leaves the mod that candidate and those before it, narrows the others and enqueues each newly mentioned mod once, or ends the search, or none is left and the last node is undone; the invariant stays and the rank falls |
| ClientResolver.TurnKeepsLive | packages/libknossos/pkg/mods/dependencies.go:63-269 | every such turn, whatever was placed, dropped and undone before, keeps the search invariant and lowers the rank |
| ClientResolver.RunIsLive | packages/libknossos/pkg/mods/dependencies.go:46-280 | safety over all runs: every search that any sequence of turns reaches is in the invariant, with all candidate lists among the listed versions |
| ClientResolver.RunEnds | packages/libknossos/pkg/mods/dependencies.go:46-280 | the end of any run is a solution or has its stated cause |
| ClientResolver.GetDependencySnapshot | packages/libknossos/pkg/mods/dependencies.go:46-280 | the search terminates, with the end of a run of such turns from the root; success gives supported releases whose dependencies on other mods are all chosen in allowed versions with all required packages, and a closed answer if no listed release has an unmet demand on its own mod; a failure has its stated cause among the listed releases; there is no panic if no listed release rejects itself |
| ResolverLimits.PanicsOnB | packages/libknossos/pkg/mods/dependencies.go:88-103 | a call that panics: the last release of the path asks for an older version of its own mod, and the next mod has nothing left to try |
| ResolverLimits.AnswerNotClosed | packages/libknossos/pkg/mods/dependencies.go:228-277 | a call that answers with such a release, and so with a snapshot that is not closed |
| ResolverLimits.MovesOneWay | packages/libknossos/pkg/mods/dependencies.go:63-269 | from a search all of whose candidates are refused or placed without an error, a turn has one outcome only, although packages and constraints are visited in any order |
| ResolverLimits.OneOutcome | packages/libknossos/pkg/mods/dependencies.go:46-280 | so if one run goes through such searches only, every run ends as it does |
| Backtracking.SearchHalts | packages/libknossos/pkg/mods/dependencies.go:58-104 | every run of placing, dropping and undoing ends, by the weights of the snapshots along the path, the current weight and the queue's length |
| Backtracking.RankDrops | packages/libknossos/pkg/mods/dependencies.go:262-269 | each such step has a lower ordinal rank than the one before |
| ServerResolver.PickNaiveVersion | packages/server/pkg/mods/dependencies.go:44-63 | the pick is a version that meets the constraint, and none that meets it is higher; failure means an unreadable version or no match |
| ServerResolver.GatherOne | packages/server/pkg/mods/dependencies.go:94-149 | one dependency adds one constraint to its mod, and enqueues the mod with its naive pick if and only if it had no constraint before |
| ServerResolver.Gather | packages/server/pkg/mods/dependencies.go:78-152 | gathering terminates; each mod is enqueued at most once, and the constraints are exactly those of the enqueued versions and the root |
| ServerResolver.ResolveMod | packages/server/pkg/mods/dependencies.go:165-201 | the result is the last listed version that meets all constraints of the mod, or there is none |
| ServerResolver.VerifyAssumptions | packages/server/pkg/mods/dependencies.go:206-216 | accepts if and only if every recorded pick is the version in the snapshot |
| ServerResolver.AssumptionsMean | packages/server/pkg/mods/dependencies.go:129-148 | the recorded assumptions hold if and only if each enqueued mod whose pick has dependencies ended with its pick |
| ServerResolver.GetDependencySnapshot | packages/server/pkg/mods/dependencies.go:67-220 | a snapshot holds exactly the gathered mods, each in the latest version that meets all its constraints, and all picks with dependencies hold; each kind of failure has its stated cause at the requests that were gathered: at one dependency of one of them, with all before it in order, an unreadable version or constraint or one that no version meets; behind them, a gathered mod with an unreadable version or none that meets all its constraints; or a pick that did not hold |
| ServerResolver.ExploredAreMet | packages/server/pkg/mods/dependencies.go:164-204 | in a returned snapshot every dependency of the root and of each explored version is met |
| ServerResolver.ClosedWhen | packages/server/pkg/mods/dependencies.go:206-218 | the snapshot meets all dependencies of its own versions if and only if it does so for the mods whose pick had none |
| ServerResolver.ClosedWhenUniform | packages/server/pkg/mods/dependencies.go:67-220 | if no mod of the database has both versions with dependencies and versions without, every answer is closed |
| ServerLimits.AnswerNotClosed | packages/server/pkg/mods/dependencies.go:67-220 | a database on which the call returns a snapshot that is not closed: a mod ends with another version than the one that was looked at, and that one has a dependency |
| Download.Run | packages/libknossos/pkg/downloader/queue.go:170-346 | a success follows a complete answer after at most the allowed tries, and passes the length and checksum checks on what was received |
| Download.ReadBody | packages/libknossos/pkg/downloader/queue.go:274-308 | writes, hashes and counts each block alike, or stops early |
| Download.TriesKeepConsistent | packages/libknossos/pkg/downloader/queue.go:199-308 | over any sequence of failed mirrors, restarts and resumes, the hasher has seen exactly the file's prefix up to the offset, and progress is the offset modulo 2^32 |
| Download.SizeStaysKnown | packages/libknossos/pkg/downloader/queue.go:238-262 | for an item without a checksum, a known length is never changed by a later answer |
| Download.SizeIsFirstAnnounced | packages/libknossos/pkg/downloader/queue.go:238-262 | an unknown length becomes the first one that a usable answer announces |
| Download.SizeOfCheckedItem | packages/libknossos/pkg/downloader/queue.go:238-272 | for an item with a checksum, the length is the item's until an answer announces another one, then what the last such answer announces; a restart brings the item's length back exactly if that was no length |
| Download.PassedIsVerified | packages/libknossos/pkg/downloader/queue.go:310-346 | passing means that the offset did not wrap in 32 bits and that the prefix up to it has the expected digest when one is given; without a checksum it equals a known length, with one exactly under the condition of `PassesWithItsLength`, and an unknown length becomes the first one announced |
| Download.PassesWithItsLength | packages/libknossos/pkg/downloader/queue.go:263-346 | a checked item passes with its own length if and only if no answer announced another one for good; its length is not checked at all exactly if the last such announcement was no length |
| Download.OtherLengthPasses | packages/libknossos/pkg/downloader/queue.go:263-272 | one byte passes where three were expected, announced as one byte or not at all, if the checksum is that of the one byte |
| Download.FileReachesPeak | packages/libknossos/pkg/downloader/queue.go:210-232 | the file is as long as the furthest offset that any try reached |
| Download.CheckedBytesAreTheFile | packages/libknossos/pkg/downloader/queue.go:210-232 | the checked bytes are the whole file if and only if no earlier try got further than the last |
| Download.StaleTailPasses | packages/libknossos/pkg/downloader/queue.go:210-232 | two answers of unknown length after which the checks pass and the file keeps a stale tail |
| DownloadQueue.StepKeepsInv | packages/libknossos/pkg/downloader/queue.go:93-168 | every critical section keeps the invariant: slots, order of results, verified items, errors |
| DownloadQueue.ReachableInv | packages/libknossos/pkg/downloader/queue.go:93-168 | so it holds in every state that any interleaving reaches |
| DownloadQueue.QueueIsSafe | packages/libknossos/pkg/downloader/queue.go:109-138 | active is the number of started workers that have not given their slot back and at most the limit; items are handed out at most once, in finishing order, each with a verified file |
| DownloadQueue.NilMeansAllVerified | packages/libknossos/pkg/downloader/queue.go:140-149 | if Run returns nil, every item's worker left by the success path and its file passed the checks |
| DownloadQueue.StartedOnce | packages/libknossos/pkg/downloader/queue.go:109-131 | no interleaving starts two workers for one item |
| DownloadQueue.GoneBlocksRun | packages/libknossos/pkg/downloader/queue.go:201-203 | while a worker that left early holds its slot, Run cannot get past its drain loop |
| DownloadQueue.GoneForever | packages/libknossos/pkg/downloader/queue.go:306-308 | whatever happens after a worker left early, its slot is not given back and Run never returns nil |
| DownloadQueue.ResultCanBeMissed | packages/libknossos/pkg/downloader/queue.go:348-359 | an interleaving in which Run returns nil and is done before a verified item is in the result list |
| DownloadQueue.MissedOnlyWhileReleased | packages/libknossos/pkg/downloader/queue.go:348-359 | after Run returned nil, an item is missing from the list if and only if its worker stands between giving its slot back and appending; so NextResult's false means that everything was handed out exactly if no worker stands there |
| KarToc.PathInjective | packages/client/launcher/browser/knossos_archive.cc:90-98 | different lists of slash-free names have different full paths |
| KarToc.CollectAt | packages/client/launcher/browser/knossos_archive.cc:87-104 | after any tree of entries the reader's map has, at a file's full path, exactly that file |
| KarToc.CollectOnly | packages/client/launcher/browser/knossos_archive.cc:87-104 | and each of its keys is the full path of some file of the tree |
| KarReader.KnossosArchive.Open | packages/client/launcher/browser/knossos_archive.cc:12-110 | reads header and table, with every error code of the source, from the missing file on, and fills the item map; a pop of the empty stack is undefined behaviour |
| KarReader.KnossosArchive.ReadEntry | packages/client/launcher/browser/knossos_archive.cc:112-156 | fetches, bounds and decompresses an item, and leaves the stream failed after a short read |
| KarTocRoundTrip.DecodeEncoded | packages/client/launcher/browser/knossos_archive.cc:52-85 | the reader decodes each written entry to the entry itself |
| KarTocRoundTrip.ReadEncoded | packages/client/launcher/browser/knossos_archive.cc:46-106 | reading a written table is walking over its entries |
| KarTocRoundTrip.WalkListing | packages/client/launcher/browser/knossos_archive.cc:46-106 | walking over a tree's entries never pops the empty stack, ends with the stack it began with, and gives the flattened map |
| KarWriter.WriteDirectoryEntries | packages/build-tools/pkg/pack_kar.go:234-302 | whatever the order of the maps, what is written is the encoding of a listing of the folder tree, and the item counter is the number of its entries |
| KarWriter.StoreKeeps | packages/build-tools/pkg/pack_kar.go:147-169 | storing one more file keeps every folder's records equal to those of the last jobs for their names |
| KarWriter.OpenKeeps | packages/build-tools/pkg/pack_kar.go:78-88 | so does opening a folder |
| KarTree.OpenLeads | packages/build-tools/pkg/pack_kar.go:78-88 | after a folder was opened, an earlier folder is found under the names it was opened with if and only if it was before and does not lie in or below a folder of the new one's names |
| KarTree.OpenKeepsPaths | packages/build-tools/pkg/pack_kar.go:78-88 | so the folders that are not found where they were opened stay exactly those that a name in use has replaced, and the new folder is found |
| KarWriter.KarWriter.constructor | packages/build-tools/pkg/pack_kar.go:43-74 | a new archive has an empty root folder and no jobs |
| KarWriter.KarWriter.OpenDirectory | packages/build-tools/pkg/pack_kar.go:78-88 | adds an empty folder to the current one and makes it current, records the names it was opened under, and loses what lay under these names before |
| KarWriter.KarWriter.CloseDirectory | packages/build-tools/pkg/pack_kar.go:91-100 | goes back to the parent, and fails at the root |
| KarWriter.KarWriter.WriteFile | packages/build-tools/pkg/pack_kar.go:103-125 | starts a job for the current folder, or lets the producer wait while every CPU is busy; there are never more jobs than CPUs |
| KarWriter.KarWriter.Resume | packages/build-tools/pkg/pack_kar.go:103-125 | a woken producer finds a free slot and starts its job |
| KarWriter.KarWriter.Store | packages/build-tools/pkg/pack_kar.go:147-169 | appends the compressed bytes and points the job's folder at them |
| KarWriter.KarWriter.Cleanup | packages/build-tools/pkg/pack_kar.go:113-118 | gives the slot back and wakes the producer |
| KarWriter.KarWriter.Close | packages/build-tools/pkg/pack_kar.go:176-232 | fails with open directories; otherwise writes header, data and table of the whole tree, and every accepted file is in the data exactly once; the folders that are not lost are found where they were opened |
| KarRoundTrip.FindInListing | packages/build-tools/pkg/pack_kar.go:234-302 | a written listing holds, under every path, what the folders hold there |
| KarRoundTrip.OpenWritten | packages/client/launcher/browser/knossos_archive.cc:12-110 | opening a written archive succeeds with the flattened tree |
| KarRoundTrip.ItemsAreTheTree | packages/client/launcher/browser/knossos_archive.cc:46-106 | the opened items are exactly the files of the tree under their full paths |
| KarRoundTrip.IntervalsDisjoint | packages/build-tools/pkg/pack_kar.go:147-169 | the data of stored files are disjoint and lie between the header and the table |
| KarRoundTrip.ReadBack | packages/client/launcher/browser/knossos_archive.cc:112-156 | for every interleaving of jobs, reading a path gives what the last job for it stored, an empty file its compressed bytes, and a path without a file nothing |
| KarRoundTrip.AcceptedIsReadBack | packages/client/launcher/browser/knossos_archive.cc:112-156 | so, with different names in each folder, every file that the writer accepted is read back from what Close wrote, under the names its folder was opened with, unless that folder was replaced; an empty file comes back as its compressed bytes |
| KarRoundTrip.LostIsNotRead | packages/build-tools/pkg/pack_kar.go:78-88 | the path of a file in a replaced folder is missing, or gives a file of the folder that is there now |
| ArchiveHandler.KnossosArchiveHandler.Read | packages/client/launcher/browser/knossos_archive_handler.cc:81-101 | delivers the next bytes up to the requested number, and reports the end only after everything was delivered |
| ArchiveHandler.DeliveredIsData | packages/client/launcher/browser/knossos_archive_handler.cc:81-101 | whatever the sizes of the requests, the chunks put together are the entry, without gaps |
| BoolParser.ParseBoolExpr | packages/build-tools/pkg/bool_parser.go:66-289 | the loop runs the state machine over the whole text |
| BoolParser.RunAppend | packages/build-tools/pkg/bool_parser.go:78-258 | running over two texts is running over the first and going on from there |
| BoolParser.RunClosing | packages/build-tools/pkg/bool_parser.go:212-242 | a closing bracket ends the innermost open chain and puts its tree where the bracket was opened, if and only if it stands right behind a name after an operator |
| BoolParser.RunChain | packages/build-tools/pkg/bool_parser.go:78-258 | over a chain's text the machine builds the chain's tree on top of whatever stack it had |
| BoolParser.ParseText | packages/build-tools/pkg/bool_parser.go:66-289 | the text of an expression parses if and only if every bracket can be closed, and then to the expression's tree |
| BoolParser.EvalIsCarriedValue | packages/build-tools/pkg/bool_parser.go:20-64 | evaluating that tree gives the strict left-to-right value with leading negations carried to the first name |
| BoolParser.ParsedMeaning | packages/build-tools/pkg/bool_parser.go:66-289 | without a negated bracket at the start of a chain, parsing and evaluating gives the left-to-right meaning for every assignment |
| BoolParser.LeadingNegationMisread | packages/build-tools/pkg/bool_parser.go:84-119 | `!(a && b)` parses and is false where it should be true |
| BoolParser.UnmatchedBracketCrashes | packages/build-tools/pkg/bool_parser.go:212-214 | for instance after any chain that could be closed: a closing bracket without an opening one indexes below the stack, whatever follows |
| BoolCrash.PrefixRun | packages/build-tools/pkg/bool_parser.go:78-258 | over any prefix of any text the machine's stack has a Paren for each bracket that is open and nothing but operators below and between them, or the machine has failed, or it has panicked at a known place |
| BoolCrash.CrashesExactly | packages/build-tools/pkg/bool_parser.go:66-289 | for every text: the parser crashes if and only if it gets to a closing bracket behind an operator with no bracket open; it never does if no prefix closes more brackets than it opens |
| BoolCrash.CompleteExactly | packages/build-tools/pkg/bool_parser.go:66-289 | for every text that parses: its tree has all operands, so that it can be evaluated, if and only if the text, without the blanks, negations and opening brackets at its end, is not empty and does not end in two, four and so on operator characters |
| BoolCrash.MissingOperandPasses | packages/build-tools/pkg/bool_parser.go:260-289 | `a &&` parses, to a tree without a right side |
| BoolMeaning.MeaningExact | packages/build-tools/pkg/bool_parser.go:84-119 | with all variables different, the parsed expression means what it says for every assignment if and only if no chain starts with a negated bracket |
| TaskRunner.MarkKeeps | packages/build-tools/pkg/buildsys/runner.go:126-139 | marking a task as running keeps the trace consistent: no name starts twice |
| TaskRunner.FinishKeeps | packages/build-tools/pkg/buildsys/runner.go:341-343 | marking it as done keeps the completion order topological |
| TaskRunner.FinishKeepsCommands | packages/build-tools/pkg/buildsys/runner.go:341-343 | a task is marked as done only if it was up to date or all its commands were carried out, and a referenced task only counts as carried out when it is done |
| TaskRunner.CompleteOne | packages/build-tools/pkg/buildsys/runner.go:341-343 | a task whose dependencies are all completed can be completed next |
| TaskRunner.RuntimeCtx.RunTaskInternal | packages/build-tools/pkg/buildsys/runner.go:120-343 | success means done; the tasks marked false are exactly those on the call stack; the recursion ends because the unmarked tasks get fewer |
| TaskRunner.RuntimeCtx.RunDeps | packages/build-tools/pkg/buildsys/runner.go:139-152 | success means that every dependency is completed |
| TaskRunner.RuntimeCtx.RunCommands | packages/build-tools/pkg/buildsys/runner.go:283-337 | success means that every command was carried out in its turn, a referenced task by completing it, or that a script left through the shell's exit |
| TaskRunner.RunTask | packages/build-tools/pkg/buildsys/runner.go:105-118 | if no script calls exit, a nil result means that the task and all it depends on were completed, in the run's own order, which is topological, and that nothing is left running; and, if no reference leads to a task beside the listed one of its name, that no chain of dependencies from it is a cycle. A calm run, in which nothing is cancelled, up to date or failing, succeeds if and only if the walk over the markers does (`CalmSucceeds`) |
| TaskRunner.ChainIsCompleted | packages/build-tools/pkg/buildsys/runner.go:139-152 | along any chain of dependencies from a completed task every task is completed, each before the one that needs it |
| TaskRunner.NilMeansNoCycle | packages/build-tools/pkg/buildsys/runner.go:126-139 | so a nil result after which every completed task is the one listed under its name excludes every cycle of dependencies that can be reached from the task |
| TaskWalk.CalmSucceedsExactly | packages/build-tools/pkg/buildsys/runner.go:120-343 | if every task is the one listed under its name, a calm run succeeds if and only if the tasks it needs all exist, none has an empty script, and they can be numbered so that each comes behind all that it depends on or refers to |
| TaskWalk.CyclePasses | packages/build-tools/pkg/buildsys/parser.go:533-543 | a project in which a referenced task has the name of a listed one that needs itself: every calm run of it succeeds, although there is a cycle |
| VersionSort.StringVersionCollection.Swap | packages/libknossos/pkg/storage/sort.go:19-22 | exchanges the entries of both lists, which stay in lockstep |
| VersionSort.StringVersionCollection.Sort | packages/libknossos/pkg/storage/sort.go:11-27 | sorting on Less and Swap alone permutes the strings into ascending precedence |
| VersionSort.SortVersions | packages/libknossos/pkg/storage/mods.go:47-55 | succeeds if and only if every string is a version, and then sorts them |
| VersionIndex.Deduplicate | packages/libknossos/pkg/storage/index.go:173-187 | the in-place deletion from the end leaves one of each group of equal neighbours |
| VersionIndex.DedupAscending | packages/libknossos/pkg/storage/index.go:163-187 | of a sorted list the result is sorted, and has no duplicates if equal precedence means equal strings |
| VersionIndex.SavedFacts | packages/libknossos/pkg/storage/index.go:163-201 | saving keeps the set of strings, and a list without duplicates loses nothing |
| VersionIndex.StringListIndex.Save | packages/libknossos/pkg/storage/index.go:163-201 | every list becomes sorted and free of equal neighbours, or some string is unreadable and the lists are permuted at most |
| VersionIndex.StringListIndex.Add | packages/libknossos/pkg/storage/index.go:117-128 | appends the value to its key's list and saves, unless in a batch |
| VersionIndex.StringListIndex.RemoveFromCache | packages/libknossos/pkg/storage/index.go:88-103 | removes the first occurrence from the key's list |
| VersionIndex.StringListIndex.Remove | packages/libknossos/pkg/storage/index.go:130-147 | removes it and saves, unless in a batch |
| ModStore.KeysDiffer | packages/libknossos/pkg/storage/mods.go:138-190 | with IDs free of `#`, different releases have different bucket keys |
| ModStore.SharedKey | packages/libknossos/pkg/storage/mods.go:138-190 | every release of a mod with `#` in its ID has its key in common with a release of another mod |
| ModStore.AddKeepsAgreement | packages/libknossos/pkg/storage/mods.go:138-190 | storing a new release keeps index and bucket in agreement |
| ModStore.DeleteKeepsAgreement | packages/libknossos/pkg/storage/mods.go:192-215 | so does deleting one |
| ModStore.LocalMods.SaveLocalMod | packages/libknossos/pkg/storage/mods.go:118-136 | stores the metadata under the bare ID; with an ID free of `#` no release is overwritten and the agreement stays |
| ModStore.LocalMods.SaveLocalModRelease | packages/libknossos/pkg/storage/mods.go:138-190 | stores or replaces a release in the bucket and lists its version, and keeps the agreement; it is committed if and only if its files can be imported and its version is listed already or all listed versions and its own can be read |
| ModStore.LocalMods.DeleteLocalModRelease | packages/libknossos/pkg/storage/mods.go:192-215 | removes the release from both |
| ModStore.LocalMods.ImportMods | packages/libknossos/pkg/storage/mods.go:57-81 | an import is committed if and only if every version can be read and every release's files can be imported; then the bucket has the imported releases' keys and the index exactly their versions, which agree if no ID has `#`; a failed one leaves the bucket as it was |
| ModStore.LocalMods.GetMods | packages/libknossos/pkg/storage/mods.go:217-250 | never misses, and returns the highest stored release of every mod, once |
| RemoteCleanup.Cleanup | packages/libknossos/pkg/storage/remote_mods.go:125-139 | the loop that removes from the array it ranges over computes the stated sweep |
| RemoteCleanup.SweepIs | packages/libknossos/pkg/storage/remote_mods.go:125-139 | what the sweep leaves and what its count is, for every list, also with duplicates: the missing versions that the loop reads are taken out one copy at a time; behind a removed version one is skipped, and only stale copies of the last are read again |
| RemoteCleanup.CleanupExactness | packages/libknossos/pkg/storage/remote_mods.go:125-139 | for every list, exactly the stored versions remain if and only if none is stored, or each missing one is read as often as it is listed and the reads are not as many as the versions |
| RemoteCleanup.DistinctExactness | packages/libknossos/pkg/storage/remote_mods.go:125-139 | in a list without duplicates: if and only if no missing version stands behind another one, but for the last two, and the last one, when it is missing, is not read so often that the count reaches zero |
| RemoteCleanup.AllOrNothing | packages/libknossos/pkg/storage/remote_mods.go:125-139 | with all versions stored the list is unchanged, with none stored the key is dropped |
| RemoteCleanup.CleanupGoesWrong | packages/libknossos/pkg/storage/remote_mods.go:125-139 | a list whose stored version is lost, and one whose missing version stays |
| SortedStrings.SortedOnce | packages/server/pkg/exporter/modsync.go:245-259 | only one sorted list has given elements |
| SortedStrings.SearchStrings | packages/server/pkg/exporter/modsync.go:404-407 | binary search finds a string if and only if the sorted list has it |
| Modsync.ChecksumIgnoresOrder | packages/server/pkg/exporter/modsync.go:245-259 | the checksum depends on the multiset of versions only |
| Modsync.PassOverPack | packages/server/pkg/exporter/modsync.go:392-416 | the loop over a pack from its end replaces, keeps or deletes each release as stated, lists the versions that remain, and reports a change whenever there was one |
| Modsync.PassPackCounts | packages/server/pkg/exporter/modsync.go:392-416 | how many copies of each version a pack has afterwards |
| Modsync.PassAllOthers | packages/server/pkg/exporter/modsync.go:377-431 | releases without a new form pass unchanged and in order, if they are still public and not deleted |
| Modsync.ModEntry.PassOverPacks | packages/server/pkg/exporter/modsync.go:377-431 | all packs go through that loop in order; it fails if and only if one is missing |
| Modsync.ModEntry.AppendNew | packages/server/pkg/exporter/modsync.go:433-478 | each pending release is added exactly once behind what was read of the last pack, in packs that are numbered on; earlier packs stay |
| Modsync.ModEntry.Update | packages/server/pkg/exporter/modsync.go:332-488 | an update fails if and only if a release does not convert or a pack is missing; otherwise packs and checksum are what the pass and the new releases make them |
| Modsync.UpdateConserves | packages/server/pkg/exporter/modsync.go:377-478 | every converted release is published, once if its version was not duplicated before; other versions keep their number of copies if they are still public and not deleted, and go otherwise |
| Modsync.UpdateKeepsOrder | packages/server/pkg/exporter/modsync.go:377-478 | the releases without a new form keep their order over the whole update |
| Modsync.NewReleasesNeedLastPack | packages/server/pkg/exporter/modsync.go:433-459 | a release that was in no pack is published if and only if the last pack could be read again |
| ModsyncLimits.ModWithoutPacks | packages/server/pkg/exporter/modsync.go:433-459 | a mod without packs publishes nothing: that is the only outcome of an update that succeeds, whatever was converted |
| ModsyncLimits.FirstReleaseStaysOut | packages/server/pkg/exporter/modsync.go:433-459 | a converted release of such a mod that is not published |
| Modsync.HashedIsPublished | packages/server/pkg/exporter/modsync.go:433-487 | the hashed versions are the published ones if and only if the pack that was read again has the versions of the stored last pack, or nothing was written |
| ModsyncLimits.OtherLastPack | packages/server/pkg/exporter/modsync.go:433-487 | a working directory with another last pack, after which the checksum is not that of the packs |
| ModsyncExport.BuildModIndex | packages/server/pkg/exporter/modsync.go:281-330 | the packs of a new mod put together are its releases, all full but the last, each stamped, with a checksum that describes them; it fails if and only if a release does not convert |
| ModsyncExport.FullButLastCount | packages/server/pkg/exporter/modsync.go:292-320 | such packs number the releases divided by ten, rounded up |
| ModsyncExport.Prune | packages/server/pkg/exporter/modsync.go:598-606 | the backward deletion with binary search leaves exactly the entries whose mod is in the database, in order |
| ModsyncExport.ExportsOneMore | packages/server/pkg/exporter/modsync.go:553-596 | exporting one more mod changes no other entry |
| ModsyncExport.VisitListed | packages/server/pkg/exporter/modsync.go:572-596 | a listed mod whose packs are as new as its releases stays as it is; otherwise it is updated with the releases since its newest pack; its own date is renewed exactly if the mod is newer; it fails if and only if it is to be updated and one of those releases does not convert |
| ModsyncExport.UpdateModsyncExport | packages/server/pkg/exporter/modsync.go:527-619 | for any index, also one whose checksums no longer describe its packs: a run succeeds if and only if every new mod's releases convert, and every listed mod can be updated where it has to be; then the index is the old one without the mods that are gone, and the new mods behind, each built from its releases with a checksum that describes its packs; the last entry of every listed mod was exported as stated, and no other entry changed; if the checksums were right before and all packs are read from the exporter's own directory, they are right behind |
| ModsyncExport.IndexIsDatabase | packages/server/pkg/exporter/modsync.go:547-606 | so the index lists exactly the database's mods, none twice |
| IniSettings.RuneScanner.ReadTo | packages/libknossos/pkg/fsointerop/ini_parser.go:18-32 | reads up to the first stop character and over it, or to the end without finding one |
| IniSettings.RuneScanner.SkipWhitespace | packages/libknossos/pkg/fsointerop/ini_parser.go:34-58 | stops in front of the first other character, or at the end |
| IniSettings.ParseFile | packages/libknossos/pkg/fsointerop/ini_parser.go:60-188 | the scanner loop computes the stated parse, with its errors and its crash |
| IniSettings.SaveSettings | packages/libknossos/pkg/fsointerop/ini_parser.go:229-277 | writes each set section with its fields in the schema's order |
| IniSettings.AtoiReadsDecimal | packages/libknossos/pkg/fsointerop/ini_parser.go:166-183 | a printed 32-bit number is read back |
| IniSettings.ParseLine | packages/libknossos/pkg/fsointerop/ini_parser.go:117-182 | a printed line sets its field to the printed value |
| IniSettings.ParseSection | packages/libknossos/pkg/fsointerop/ini_parser.go:77-104 | a printed section replaces the section's values, whatever was parsed before |
| IniSettings.RoundTrip | packages/libknossos/pkg/fsointerop/ini_parser.go:60-277 | parsing printed settings over any defaults gives those settings, and the defaults where a section was not set; it is an error exactly if the last printed section is empty |
| IniSettings.LineWithoutValueCrashes | packages/libknossos/pkg/fsointerop/ini_parser.go:130-132 | for instance at once: a line without an equals sign in a section crashes the parser |
| IniCrash.CrashesExactly | packages/libknossos/pkg/fsointerop/ini_parser.go:60-188 | for every schema and text: the parser crashes if and only if it gets, without an error before, to a line without an equals sign in a section of the schema; the lines are those that it cuts, which may start behind a header's bracket |
| IniCrash.SafeFile | packages/libknossos/pkg/fsointerop/ini_parser.go:60-188 | a file whose lines all have an equals sign never crashes it |
| InstallClosure.ReachedIsLeastClosed | packages/client-ui/src/dialogs/install-mod.tsx:121-171 | the packages reached from the user's selection are the least set that holds it and all dependencies in the tree |
| InstallClosure.StartSelection | packages/client-ui/src/dialogs/install-mod.tsx:128-146 | first exactly the user's packages are selected, and what they depend on is needed |
| InstallClosure.Turn | packages/client-ui/src/dialogs/install-mod.tsx:150-170 | a turn over the tree selects more packages, or finds that nothing needed is left |
| InstallClosure.ProcessDependencies | packages/client-ui/src/dialogs/install-mod.tsx:121-171 | terminates, with a package selected if and only if it is reached, whatever the order of the nodes |

## Left out

- Completeness and minimality of both resolvers: the code does not give them.
- Liveness of the download queue, speed tracking, mirror shuffling and the progress ticker.
- HTTP, file system calls, transactions, protobuf and JSON encoding: abstract maps, byte sequences and arbitrary answers stand for them; an I/O error ends a run where the source returns it in the download loop, and is not modelled in the archive writer and the exporter.
- Brotli and SHA-256: any compressor with an inverse, and any hash function.
- The text of versions and constraints, and the rewriting of constraints for prereleases: a strict weak order on parsed versions and a satisfaction predicate stand for them.
- Log messages, error texts, and the conflict reports of the resolvers.
- Starlark, the shell interpreter, and the up-to-date checks by file dates: a script is a list of statements with arbitrary results, and a check has an arbitrary outcome.
- ServerResolver.ClosedWhenUniform: one way only; the exact condition, `ClosedWhen`, speaks of the answer.
- ResolverLimits.ClosedWithoutSelfDemands: one way only for releases other than the root; the exact condition, in `Solves`, speaks of the answer.
- Long loops are split into helper methods, and nested loops over packages and their dependencies into a method for each level.
- ClientResolver.GetDependencySnapshot: candidate lists and nodes are values that each step replaces, so the sharing of slices between snapshots is not captured; the source copies them in `makeVersionSnapshot`.
- DownloadQueue.QueueIsSafe: the queue is a state machine over its critical sections; that the locks make them atomic is taken from the source.
- KarWriter.KarWriter.WriteFile: the file's content is taken as it is at the call, although the job reads it later; folders are places in a sequence instead of objects.
- KarRoundTrip.AcceptedIsReadBack: assumes names without slashes, no folder called `..`, names of at most 2048 bytes and an archive below 2^31 bytes, which the format needs and the writer does not check, and different names for the files of a folder, as a second one replaces the first (`ReadBack` has no such condition).
- BoolMeaning.MeaningExact: the converse needs different variables, since an expression that is always false hides a wrong part; the other direction (`BoolParser.ParsedMeaning`) needs no such condition.
- TaskRunner.NilMeansNoCycle: assumes that each completed task is the one listed under its name; without that it fails (`CyclePasses`), and that it also fails whenever some other task was completed is not claimed.
- TaskRunner.RunTask: a script that calls the shell's exit leaves its marker false, so the result speaks of projects whose scripts do not call it; of a run that is not calm it does not say when it succeeds, as that depends on the file system and the scripts.
- ModStore.LocalMods.ImportMods: saves releases only; importing a release's files is a given success or failure.
- The type index and the user settings of the mod store.
- The callbacks of ImportRemoteMods before the cleanup, GetVersionsForMod and the other lookups of the mod providers, which only read.
- Modsync.ModEntry.Update: pack numbers stay below 2^32 - 1, the number that an entry without packs asks for, and no file has that number.
- ModsyncExport.UpdateModsyncExport: a run that fails part of the way leaves packs that are newer than the saved index; what a failed run leaves is not described, pack numbers stay below 2^32 - 1, and mod IDs are distinct in the database.
- Modsync checksum files, mod metadata files and the conversion of a database row to a release, which is a value or a failure.
- IniSettings.RoundTrip: text is a sequence of characters, not UTF-8 bytes; a file that names an unexported field of the settings structures makes the source panic, and the schema has only exported ones.
- IniSettings.ParseFile: a signed 32-bit field is printed by the source but makes its parser panic; the settings have none.
- InstallClosure.ProcessDependencies: every node of the tree has package data; the labels and check boxes are left out.
- VP archives, the single download, and the differ: they repeat what is here or have no counterpart to be proved against.
