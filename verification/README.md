# Verified model of the zorba-mcp server's machinery

`zorba-mcp` answers JSON-RPC requests about a directory of documents. Behind the query engine it
runs a background scanner, a document cache, a JSON reader and printer, a second JSON reader for
previews, and code that keeps every answer within a size limit. The debugger has a queue of its own,
without locks. This project models that machinery in Dafny and proves what it keeps, step by step and
over whole runs.

`dafny verify dfyconfig.toml` checks everything.

## How the files belong together

- **Scanner.** `scanner_state` has what `Scanner::Shared` guards by its mutex as a value, with each
  operation as a function; `scanner_shared` is the class that performs the operations in place, with
  its loops over ordered maps, and proves each method against that function. `scanner_run` has the three
  threads as a transition system: each critical section is one step, what the file system answers is
  part of the step. `scanner_books`, `scanner_trees` and `scanner_theorems` prove the invariant and what
  follows from it in every interleaving. `scanner_listings` and `scanner_whole` have what a listing puts in the
  index and what is there when it has gone through a whole directory; `scanner_effects` has what the other
  sections do, in names, numbers and bytes. `scanner_failures` has what an allocation that fails inside a
  section leaves behind, and the runs with such failures; `scanner_dirs` has what the walker has still to
  list in such runs; `scanner_cases` has runs from the start that end otherwise than promised. `path_order`
  is the byte order of the index.
- **Document cache.** `file_world` is a small file system with a clock; `cache_tracker`, `cache_state`
  and `cache_theorems` have the cache as a value and its agreement with the files; `cache_admission` says
  when a file is read to be kept, and how long a refused mark stands; `cache_contracts` when exactly a record is
  served, kept and swept, by the files and paths themselves; `cache_runs` and `cache_rereads` have
  calls of get that end otherwise than documented; `document_cache` is the class.
- **JSON.** `json` (values and printing), `json_parse` (the strict parser as functions), `json_round_trip`
  (printing and parsing are inverse), `json_parser` (the parser and printer as they run). `json_grammar` is the
  grammar of RFC 8259 with its bytes written out, `json_grammar_theorems` and `json_spelling` prove both readers
  against it. `json_prefix` and `json_prefix_theorems` have the previews' reader and its verdicts on cut files,
  `json_reader` the class, `json_readers` and `json_acceptance` what it accepts of the strict parser's texts
  and more. `utf8` has both UTF-8 validators.
- **Protocol.** `protocol` and `protocol_theorems` handle messages with memory that can run out at any
  point; `protocol_replies` has the replies by the bytes of the members; `main_loop` is the loop over the
  lines of the input.
- **Texts.** `output_limits` (cuts between characters), `path_text` (file names as text), `request_path`
  (paths in one spelling), `listing` (the size of a directory answer), `decimal`.
- **Queue.** `queue_steps` has the queue of the debugger as interleaved statements, `lock_free_queue` as a
  class. Sequential consistency is assumed.

## Where the code does not do what its documentation or its purpose says

- `remove_unseen` drops a file the listing has just met when a directory of the same name was known
  and not met: `ScannerTrees.MetFileStays` gives the exact condition, `ScannerCases.MetFileCanGo` a run.
- `note_unreadable` charges a directory before it notes it (scanner.cpp:514-515). If memory runs out between
  the two, the ledger is over by its cost until the next refresh, and all else is right:
  `ScannerFailures.LedgerDespiteFailures` has the excess of every run, `ScannerCases.LedgerCanBeOff` is a run.
- `hold_preview` marks and charges a preview before it lists it (scanner.cpp:757-762), and `refresh` resets its
  counters after a push (scanner.cpp:983-985). If memory runs out between, the entry holds a preview that
  `theLru` does not list, whose place the next `forget_preview` erases although it has none; or an empty index
  is charged for what it had. `ScannerFailures.FailureKeepsBooksIff` says of every allocation in the sections
  exactly when its failure breaks the books; `ScannerCases.ListCanLack` and `RefreshCanBeOff` are runs.
- An exception in a request is not caught by the scanner. If it comes between a file's entry and its
  queue, the file is forgotten, and the status can be "complete" with files not sampled:
  `ScannerFailures.FailureForgetsIff`, `ScannerCases.CompleteCanBeWrong`. If it comes as a directory is
  queued, the directory is known and not walked until its mtime changes: `ScannerDirs.FailureDropsDirIff`,
  `ScannerDirs.DirCanBeForgotten`.
- "A query thus admits at most theMaxFiles documents" (document_cache.cpp:383-384) is not so: each
  used record whose file changed makes room for one more. `CacheTheorems.AdmissionsAre` counts the
  admissions exactly and gives the exact condition; `CacheRuns.AdmissionsCanExceed` is a run.
- A refused file is to be "not tried again until it changes" (document_cache.h:55-57). But a lookup of
  another file in a full set of the tracker takes a victim's place (document_cache.cpp:322-325, 374), and that
  can be the refused mark: `CacheAdmission.MarkStandsIff` says exactly when, and
  `CacheRereads.RefusedIsReadAgain` is a run in which a refused file that did not change is read again.
- A path that leads to another file just while it is read to be kept, and back, leaves a wrong record in
  the cache, which the next call serves: `CacheRuns.RepointedReadIsServed`. A kept record is right exactly if
  the path led to the file itself at the read or to one with the same bytes
  (`CacheTheorems.AdmittedIsFreshIff`); where every admission does, every hit is right
  (`CacheAgreesWithFiles`), and one that does not can be served at once (`CacheRuns.WrongAdmissionIsServed`).
- A file whose tag is 1 takes an empty slot of the tracker, which is 0, for its refused mark: it is not
  noted by its first read (`CacheTracker.RefusedMarkIsUnambiguous`, `CacheAdmission.FirstLookupNotes`).
- A response of the client to the server, which is never to be answered, is answered when memory runs
  out before its id is known: exactly then (`ProtocolTheorems.ClientResponses`).
- `read_line` keeps one byte more than the largest message so that a longer line is refused by its
  size. A longer line with a carriage return at that byte is not refused but cut:
  `MainLoop.WhenFaithful`.
- The preview reader reports "no JSON value" for the first bytes of a good file that do not reach its
  first value: `JsonPrefixTheorems.NoFalseError` and `ProblemsAreFinal` give the exact conditions. The
  position it reports for a malformed `\u` escape can move as more bytes are read, by less than four
  (`BadEscapeMoves`).
- The two JSON readers do not accept the same: the preview reader takes a byte order mark, unpaired
  surrogate escapes (`JsonReaders.OnlyOneAcceptsLoneSurrogates`) and an empty pair of brackets one level
  deeper.
  `JsonAcceptance.AcceptedIff` is the exact difference.
- A file name with a literal `\xHH` in it does not come back from its text: `PathText.RoundTrip`, an
  equivalence.

## Model

| member | source | states |
|---|---|---|
| `ScannerTheorems.LedgerInEveryRun` | bin/mcp/scanner.cpp:455-543 | in every interleaving of whole sections theBytes is what entries, known and unreadable directories and held previews are charged, thePreviewBytes is the previews' part, theSampled counts the sampled entries, theLru lists the entries with previews once each, and the sum never exceeds max_memory |
| `ScannerFailures.LedgerDespiteFailures` | bin/mcp/scanner.cpp:455-1021 | in every run in which allocations fail anywhere inside the sections, with the handlers that follow, but at the two places that break the books: the same, with theBytes over by exactly what failed notes of unreadable directories were charged since the last refresh |
| `ScannerFailures.FailureKeepsBooksIff` | bin/mcp/scanner.cpp:485-1021 | for every allocation of the sections: its failure leaves list, coherence, bound and the ledger, up to what it loses, right exactly unless a preview is held and not yet listed, or a refresh has cleared an index that was not empty and not yet reset its counters |
| `ScannerFailures.NoteFailure` | bin/mcp/scanner.cpp:512-517 | where noting an unreadable directory fails, what the ledger is over by grows by exactly its cost if there is room for it, and the books are right otherwise |
| `ScannerFailures.TurnLoses` | bin/mcp/scanner.cpp:512-517 | no section and no other failure changes what the ledger is over by, but a refresh, which makes it 0 |
| `ScannerFailures.TurnsLose` | bin/mcp/scanner.cpp:455-1021 | hence over every run it is the sum of what failed notes lost since the last refresh |
| `ScannerFailures.UnlistedIsLost` | bin/mcp/scanner.cpp:753-762 | where theLru.insert fails, the entry holds a preview that theLru does not list, while the ledger is right |
| `ScannerFailures.NothingForgottenDespiteFailures` | bin/mcp/scanner.cpp:837-877 | in every run with failures that break no books and, in a request, do not fall between a file's entry and its queue: nothing is forgotten, and complete means all sampled |
| `ScannerFailures.FailureForgetsIff` | bin/mcp/scanner.cpp:545-583 | a failure in a request leaves every file accounted for exactly unless it falls between a file's entry and its queue, while sampling goes on and the file is neither queued nor in hand |
| `ScannerCases.LedgerCanBeOff` | bin/mcp/scanner.cpp:512-517 | a run from the start, with the failure as its last step, after which theBytes charges a directory that is nowhere |
| `ScannerCases.RefreshCanBeOff` | bin/mcp/scanner.cpp:972-985 | a run from the start, with a failing refresh as its last step, after which the index is empty and theBytes charges the file it had |
| `ScannerCases.ListCanLack` | bin/mcp/scanner.cpp:753-790 | a run from the start, with the failure as its last step, after which an entry holds a preview that theLru lacks |
| `ScannerCases.CompleteCanBeWrong` | bin/mcp/scanner.cpp:553-583 | a run from the start, for every file with a format, with a failing theFiles.push_back in a request as its last step, after which the status is complete and the file is not sampled |
| `ScannerDirs.NoDirIsForgotten` | bin/mcp/scanner.cpp:586-614 | in every run, with failures but those that break the books or hit the queue of directories in a request: each directory that is new, or got another mtime, since the walker last took it is queued, or the walk has ended at the memory limit; and when the status is complete, none is due |
| `ScannerDirs.FailureDropsDirIff` | bin/mcp/scanner.cpp:586-747 | a failure in a request leaves queued all that was and all that changed, exactly unless it is that of theDirs.push_back, for a directory not yet queued, while the index is not full |
| `ScannerDirs.TurnKeepsDue` | bin/mcp/scanner.cpp:455-987 | every section, and every failure but those, keeps what is due in the queue |
| `ScannerDirs.DirCanBeForgotten` | bin/mcp/scanner.cpp:586-614 | a run from the start, with the failure as its last step, after which a directory is known, will not be walked, and the status is complete |
| `ScannerTheorems.CompleteMeansAllSampled` | bin/mcp/scanner.cpp:441-452 | in every run, when the status is "complete" and the scanner is not stopping, files_sampled equals files_found and every entry is sampled |
| `ScannerTheorems.NothingIsForgotten` | bin/mcp/scanner.cpp:545-583 | in every run of whole sections, unless stopping, each indexed file is sampled, queued, in the sampler's hand for the current generation, or sampling has stopped at the memory limit |
| `ScannerWhole.WholeListing` | bin/mcp/scanner.cpp:618-706 | a listing of a directory that ends whole, with no refresh, no memory limit and nobody else at the directory meanwhile: the directory's files in the index are then exactly the files listed, with the status listed, but for names of known directories that were not met; its known directories are those listed, but for such as are too deep |
| `ScannerWhole.ListingGoesOn` | bin/mcp/scanner.cpp:678-692 | over every run of batches, with any steps of others that leave the directory alone: all that was listed bears a mark of the listing, and nothing else in the directory does |
| `ScannerListings.WalkerListsBatch` | bin/mcp/scanner.cpp:681-695 | after a batch with distinct names each listed file is in the index under its key with the listed size, mtime and the current stamp, or had no room and index full and limit hit are set; each listed directory is known with its mtime and stamp, or too deep, or the index is full; all else stays; and a batch of another generation, when stopping or at a full index changes nothing |
| `ScannerListings.RequestListsBatch` | bin/mcp/scanner.cpp:681-695 | the same for a batch of a request, which goes on at a full index |
| `ScannerListings.FileIsMerged` | bin/mcp/scanner.cpp:553-583 | one file: in the index as it was met, or no room; the others keep status and mark |
| `ScannerListings.FileFitsIff` | bin/mcp/scanner.cpp:412-421 | a file not yet in the index finds room exactly if twice its path, two strings, two heap blocks, the entry and 64 bytes fit beside what is no preview |
| `ScannerListings.DirFitsIff` | bin/mcp/scanner.cpp:423-426 | the same for a directory, if it is not too deep and the index not full |
| `ScannerListings.DirIsMerged` | bin/mcp/scanner.cpp:586-614 | one directory: known with its time and mark, or too deep by its number of slashes, or the index is full |
| `ScannerListings.MarksInEveryRun` | bin/mcp/scanner.cpp:670-676 | in every run no file and no directory bears a stamp that was not yet given |
| `ScannerEffects.WalkEndIsNoted` | bin/mcp/scanner.cpp:697-706 | a directory that may not be listed is noted as unreadable unless the index is full; one gone through whole is not |
| `ScannerEffects.RefreshStartsOver` | bin/mcp/scanner.cpp:972-987 | after a refresh the guarded state is that of the start, but for generation and stamp, and no request waits |
| `ScannerEffects.StartsWithTheRoot` | bin/mcp/scanner.cpp:365-365 | at the start the root is queued, and nothing is known |
| `ScannerEffects.RequestIsAnswered` | bin/mcp/scanner.cpp:941-955 | a request that was read is answered with the preview, or with the words of the error |
| `ScannerEffects.RequestedIsKept` | bin/mcp/scanner.cpp:945-951 | what a request read is kept exactly if its two strings, list node and 48 bytes fit beside what is no preview, and is then the last to be evicted |
| `ScannerEffects.SampledIsKept` | bin/mcp/scanner.cpp:956-958 | what the sampler came across is kept at the cold end if there is room as it is, and else sampling stops |
| `ScannerEffects.GoneIsErased` | bin/mcp/scanner.cpp:958-961 | a file that is gone when it is sampled leaves the index, and nothing else does |
| `ScannerEffects.FileIsAskedFor` | bin/mcp/scanner.cpp:990-1021 | after a request for a file with a format, its preview is held, or its request waits or is being read, or 64 wait |
| `ScannerEffects.OthersAreNotAskedFor` | bin/mcp/scanner.cpp:1015-1015 | a file without a format is not asked for |
| `ScannerEffects.MissingIsErased` | bin/mcp/scanner.cpp:519-543 | what is missing leaves files, directories and unreadable ones with all whose name starts with it and a slash, and nothing else does |
| `ScannerEffects.RecheckDoes` | bin/mcp/scanner.cpp:738-750 | of the known directories a request looked at, the trees of those gone leave, and those changed have their new time and are queued unless the index is full |
| `ScannerEffects.RelistDoes` | bin/mcp/scanner.cpp:1142-1153 | files found changed are in the index with their new status, or had no room |
| `ScannerEffects.RelistErases` | bin/mcp/scanner.cpp:1142-1149 | files found gone leave the index |
| `ScannerEffects.FirstComesFirst` | bin/mcp/scanner.cpp:879-912 | queues are taken from the front, requests before files, and a file that is gone or sampled is skipped |
| `ScannerEffects.FailuresStop` | bin/mcp/scanner.cpp:837-877 | a failure of the walker ends walk and sampling as at the limit, one of the sampler ends sampling and drops the request in hand; the index stays |
| `ScannerEffects.StoppingStoresNothing` | bin/mcp/scanner.cpp:940-940 | once stopping, what was read is neither stored nor answered |
| `ScannerEffects.RunningIsWork` | bin/mcp/scanner.cpp:441-452 | unless stopping, the status is running exactly if the walker or the sampler has a step to take, and else memory_limit exactly if the limit was hit |
| `ScannerEffects.FormatsAre` | bin/mcp/scan_preview.cpp:1500-1519 | the format by the extension, in any case of its letters, as a table of bytes |
| `ScannerEffects.OthersHaveNone` | bin/mcp/scan_preview.cpp:1500-1505 | a name in which no dot follows the last slash has no format |
| `ScannerTheorems.RefreshIsolates` | bin/mcp/scanner.cpp:972-987 | however a run goes on after a refresh, no section of a listing, sample or requested read begun before it changes an entry, directory, preview, queue, flag or counter; a listing that starts late takes the next stamp, and that is all |
| `ScannerTheorems.StaleStepChangesNothing` | bin/mcp/scanner.cpp:672-701 | what was begun in another generation leaves the guarded state as it is; only the start of a listing takes its stamp |
| `ScannerTheorems.InFlightIsOld` | bin/mcp/scanner.cpp:972-974 | at a refresh, what the walker and the sampler have in hand is of an earlier generation |
| `ScannerTheorems.ServedPreviewMatches` | bin/mcp/scanner.cpp:1015-1021 | a preview served from memory was read from the size and mtime the request's own stat saw, and becomes the most recently used |
| `ScannerTheorems.ListedFieldsMatch` | bin/mcp/scanner.cpp:1117-1141 | in every run, fields shown in a listing come from a preview made from the very size and mtime the listing saw |
| `ScannerTheorems.OneRequestPerFile` | bin/mcp/scanner.cpp:990-1003 | in every run a file has at most one request waiting or being read, no more wait than max_requests, ids are distinct and no waiting request has an answer |
| `ScannerTheorems.AnswersAreOfTheirFiles` | bin/mcp/scanner.cpp:941-955 | the only answer a step gives is the text of a read of the file the request was made for; all others stay |
| `ScannerTheorems.AnswersStay` | bin/mcp/scanner.cpp:941-955 | in every run an answer, once given, is never changed |
| `ScannerFailures.TurnKeepsInv` | bin/mcp/scanner.cpp:837-877 | a whole section, or a failure inside one that breaks no books and forgets no file, keeps the invariant |
| `ScannerTheorems.StepKeepsInv` | bin/mcp/scanner.cpp:837-1003 | every whole section of the walker, sampler and request thread, their handlers of failures, refresh and stop keep the invariant: books, nothing forgotten, requests and their ids in order, nothing from a later generation |
| `ScannerTheorems.SchedulesRun` | bin/mcp/scanner.cpp:880-968 | whatever steps are taken whenever they can be, the invariant holds in all states between them |
| `ScannerTheorems.RunsGoOn` | bin/mcp/scanner.cpp:880-968 | no run is cut short by the invariant: any step a state allows continues it |
| `ScannerState.NoUnderflow` | bin/mcp/scanner.cpp:455-543 | no subtraction from the ledger can wrap: each counter is at least what any entry, directory or preview is charged |
| `ScannerState.SampledAtMostAll` | bin/mcp/scanner.cpp:446-452 | the sampled count is at most the number of entries, and equal exactly if all are sampled |
| `ScannerState.EvictToFit` | bin/mcp/scanner.cpp:485-490 | the eviction loop keeps the books, evicts only from the cold end, and ends with room or with no preview left, so it never pops an empty list |
| `ScannerState.RoomInIndex` | bin/mcp/scanner.cpp:485-496 | there is room exactly if the cost fits beside everything that is no preview; only previews go; if not, the walk and sampling are ended |
| `ScannerState.EvictionFreesPreviews` | bin/mcp/scanner.cpp:485-496 | evictions change the previews' part of the ledger alone, and bring it to zero when none is left |
| `ScannerState.ForgetPreviewKeepsBooks` | bin/mcp/scanner.cpp:455-469 | forgetting a preview keeps ledger, list and marks in agreement |
| `ScannerBooks.MergeFileKeepsGood` | bin/mcp/scanner.cpp:553-583 | merging a file keeps the books and forgets no file: a changed one is queued again or sampling has stopped |
| `ScannerBooks.MergeDirKeepsGood` | bin/mcp/scanner.cpp:586-613 | merging a directory keeps the books within the limit |
| `ScannerBooks.MergedStat` | bin/mcp/scanner.cpp:553-583 | after a merge the entry is there exactly if it reports so, with exactly the size and mtime merged and the current stamp as its seen mark |
| `ScannerBooks.StoreSampledAccounts` | bin/mcp/scanner.cpp:771-790 | after a sample is stored, or refused, the file in hand is sampled, queued, or sampling has stopped |
| `ScannerBooks.StoreSampledKeepsBooks` | bin/mcp/scanner.cpp:771-790 | storing a sample keeps the books, and with them that each held preview was made from the very status its entry records |
| `ScannerBooks.SampleEvictsNothing` | bin/mcp/scanner.cpp:771-790 | a sample changes no other entry and, if it is kept, its preview is the first to be evicted |
| `ScannerBooks.RequestedComesFirst` | bin/mcp/scanner.cpp:792-806 | what a request read is kept exactly if it fits beside everything that is no preview; then it is the last to be evicted, and only the coldest others went; if not, sampling stops and the index is as it was |
| `ScannerBooks.StoreRequestedKeepsGood` | bin/mcp/scanner.cpp:792-806 | storing what a request read keeps the books within the limit, or stops sampling if it cannot fit |
| `ScannerBooks.NoteUnreadableKeepsGood` | bin/mcp/scanner.cpp:512-517 | noting an unreadable directory keeps the books within the limit |
| `ScannerBooks.EraseKeepsBooks` | bin/mcp/scanner.cpp:498-502 | erasing a file takes exactly its charges off |
| `ScannerRun.StoreReadKeepsGood` | bin/mcp/scanner.cpp:924-964 | whatever an open and a read gave, the file in the sampler's hand is accounted for without the hand |
| `ScannerRun.EndListingKeepsGood` | bin/mcp/scanner.cpp:697-706 | the end of a listing, denied, whole or partial, keeps the books and forgets nothing |
| `ScannerTrees.RemoveKeepsBooks` | bin/mcp/scanner.cpp:519-543 | removing any files, directories and unreadable directories leaves a ledger that agrees with the rest |
| `ScannerTrees.MetFileStays` | bin/mcp/scanner.cpp:620-643 | a direct file the listing met stays, exactly unless a known directory of its name was not met |
| `ScannerCases.MetFileCanGo` | bin/mcp/scanner.cpp:620-643 | for every name and any limits it fits in, a run from the start in which a request's listing meets the file, and ends whole without it |
| `PathOrder.PrefixRun` | bin/mcp/scanner.cpp:435-437 | in byte order, the keys with a prefix are one run that starts at its lower bound |
| `PathOrder.RunEndsAtZero` | bin/mcp/scanner.cpp:632-633 | the names under a directory are exactly those from its name and '/' up to its name and '0' |
| `PathOrder.Bound` | bin/mcp/scanner.cpp:524-525 | the first key at or after (or after) a text in byte order |
| `ScannerShared.Shared.EraseTree` | bin/mcp/scanner.cpp:519-543 | the loops remove exactly the name and everything under it from files, directories and unreadable ones, and their charges |
| `ScannerShared.Shared.RemoveUnseen` | bin/mcp/scanner.cpp:620-643 | the loops with their jump past '/' remove exactly the direct files not merged since the start and the whole tree of each direct directory not merged since |
| `ScannerShared.Shared.EraseUnseen` | bin/mcp/scanner.cpp:622-634 | the walk over the files erases the direct ones not seen, and passes everything deeper |
| `ScannerShared.Shared.CollectGone` | bin/mcp/scanner.cpp:635-640 | the directories collected are the direct ones not merged since the start |
| `ScannerShared.Shared.ForgetPreview` | bin/mcp/scanner.cpp:455-469 | in place, the preview leaves the entry, the list and both byte counters, the sampled mark the count; nothing else changes |
| `ScannerShared.Shared.EvictColdest` | bin/mcp/scanner.cpp:478-483 | the last of the list loses its preview |
| `ScannerShared.Shared.RoomInIndex` | bin/mcp/scanner.cpp:485-496 | the loop evicts as EvictToFit says, and ends the walk when nothing more fits |
| `ScannerShared.Shared.Erase` | bin/mcp/scanner.cpp:498-502 | in place, the file leaves with its preview and all it is charged; nothing else changes |
| `ScannerShared.Shared.NoteUnreadable` | bin/mcp/scanner.cpp:512-517 | in place, a directory not noted yet is noted and charged if the eviction loop can make room, and only previews are lost for it |
| `ScannerShared.Shared.QueueSample` | bin/mcp/scanner.cpp:545-551 | queued once, unless sampled or stopped |
| `ScannerShared.Shared.MergeFile` | bin/mcp/scanner.cpp:553-583 | in place: an unknown file enters if room can be made; a changed one loses preview, sampled and queued marks; it is seen now, and queued or, without a format, sampled |
| `ScannerShared.Shared.MergeDir` | bin/mcp/scanner.cpp:586-613 | in place: a known directory is seen now and walked again if its time changed; an unknown one enters unless the index is full, it is too deep or no room can be made |
| `ScannerShared.Shared.StoreSampled` | bin/mcp/scanner.cpp:771-790 | in place: kept at the cold end only if of this generation, still there, not sampled and within the limit; beyond it sampling stops |
| `ScannerShared.Shared.StoreRequested` | bin/mcp/scanner.cpp:792-806 | in place: the old preview goes, the loop evicts others until the new one fits, and it is kept at the hot end, or sampling stops |
| `CacheTheorems.CacheAgreesWithFiles` | bin/mcp/document_cache.cpp:335-445 | in every run from an empty cache, with a clock that does not go back, change times that lag it by less than min_change_age, every write stamped, and writes between the two stats of an admission included: if what admissions read is the file they look at or has its bytes, what a query gets by a hit is what reading the file at that moment gives |
| `CacheTheorems.HitsStayRight` | bin/mcp/document_cache.cpp:335-366 | the same from any cache whose records are fresh |
| `CacheTheorems.GetKeepsFresh` | bin/mcp/document_cache.cpp:335-378 | a call of get leaves only fresh records |
| `CacheTheorems.AdmittedIsFreshIff` | bin/mcp/document_cache.cpp:389-421 | with whatever writes between the two stats, what an admission keeps is right exactly if the path led to the file itself at the read, or to one with the same bytes |
| `CacheTheorems.AdmittedIsUntouched` | bin/mcp/document_cache.cpp:166-178 | a file whose metadata is equal at both stats and was old at the clock's reading is one and the same from there to the second stat |
| `CacheRuns.WrongAdmissionIsServed` | bin/mcp/document_cache.cpp:404-421 | whenever an admission read neither the file nor its bytes, the next call of get for the path gives a query what the file does not hold |
| `CacheRuns.RepointedReadIsServed` | bin/mcp/document_cache.cpp:335-421 | for any hash above 1, three calls of get on an empty cache, the path repointed just for one read, of which the third gives the other file's content |
| `CacheTheorems.HitIsWhatReadingGives` | bin/mcp/document_cache.cpp:356-363 | what get returns for a hit on a fresh record is what the file holds |
| `CacheTheorems.AdmissionsAre` | bin/mcp/document_cache.cpp:380-387 | what the current query has admitted are the records it has used and those it lost again, but not those it found there; it is at most theMaxFiles exactly if it lost no more than it found and has room left for |
| `CacheRuns.AdmissionsCanExceed` | bin/mcp/document_cache.cpp:335-445 | four calls of get on an empty cache with room for one, the file written between them, make two admissions of one query, whatever its two hashes |
| `CacheRuns.AdmissionsExceed` | bin/mcp/document_cache.cpp:335-445 | the same for any file, any write that shows in its metadata, and any two hashes above 1 |
| `CacheAdmission.ReadOnlyAfterAMiss` | bin/mcp/document_cache.h:48-53 | in every run from an empty cache, a file is read to be kept only if an earlier call came to the tracker with its tag, found no mark of it, and wrote it |
| `CacheAdmission.GetTries` | bin/mcp/document_cache.cpp:369-377 | a call of get reads a file to keep it at most once, and only where its own tag stands in the tracker |
| `CacheAdmission.RefusedIsNotRead` | bin/mcp/document_cache.h:54-57 | a lookup of a file whose refused mark stands does not read it, and leaves the tracker as it is |
| `CacheAdmission.MarkStandsIff` | bin/mcp/document_cache.cpp:310-326 | after any call the refused mark of a file still stands, exactly unless the call misses on another tag of its set, finds no match and no empty way there, and the victim is the way of the mark |
| `CacheRereads.RefusedIsReadAgain` | bin/mcp/document_cache.cpp:310-413 | a run from an empty cache over any nine files of one set that do not change: one is read and refused, lookups of two others take its place, and it is read again |
| `CacheRereads.RefusedCanBeReadAgain` | bin/mcp/document_cache.cpp:310-413 | such files there are, for any nine hashes of one set |
| `CacheRereads.AskTracks` | bin/mcp/document_cache.cpp:368-413 | a lookup of a file whose read gives an error changes the set of its tag, the victim and the number of reads as the set alone says |
| `CacheAdmission.FirstLookupNotes` | bin/mcp/document_cache.cpp:369-376 | a first lookup that finds an empty slot notes the file, exactly unless its tag is 1: that one takes the empty slot for its refused mark |
| `CacheTheorems.OrderInEveryRun` | bin/mcp/document_cache.cpp:234-445 | in every run, whatever happens to the files: the list is a duplicate-free listing of the map's keys with the current query's as its front segment, byte and entry counts agree with the map, the tracker is in order, and the query's admissions are counted exactly, with the exact condition for their bound |
| `CacheTheorems.UsedStandInFront` | bin/mcp/document_cache.cpp:328-363 | what the current query used is a front segment of the list |
| `FileWorld.JustNowIsByAge` | bin/mcp/document_cache.cpp:166-178 | the comparison by seconds first is by age: less than min_change_age, or ahead |
| `FileWorld.EventsEvolve` | bin/mcp/document_cache.h:56-60 | whatever is written, unlinked, renamed or passes in time, a file is as it was or shows a recent change time |
| `FileWorld.Untouched` | bin/mcp/document_cache.h:56-60 | a file whose change time is old enough at the clock's reading was not written since |
| `CacheState.Get` | bin/mcp/document_cache.cpp:335-378 | the calls keep list, counts and tracker in order; no record the query used goes but the one looked up; every record was there before or was just admitted under two equal stats |
| `CacheState.Admit` | bin/mcp/document_cache.cpp:380-445 | what admission keeps: order, used records, one tracker slot written at most, and what the new record was made under |
| `CacheState.EvictIs` | bin/mcp/document_cache.cpp:423-426 | the eviction loop ends below the limit with list and counts in order, keeping the rest as it was |
| `CacheState.Place` | bin/mcp/document_cache.cpp:423-443 | making room and storing keeps every record the query used, puts the new one in front and empties its tracker slot |
| `CacheState.EvictKeepsUsed` | bin/mcp/document_cache.cpp:383-426 | no record of the current query is evicted |
| `CacheState.SetActiveKeepsCache` | bin/mcp/document_cache.cpp:234-253 | a new query, with or without the sweep, keeps the cache in order, and nothing is used yet |
| `CacheContracts.SweepIsExact` | bin/mcp/document_cache.cpp:240-252 | after set_active(true) a record is there exactly if it was and its path leads to a file with its device, inode, size and times under its canonical path; each is as it was, in the order they were |
| `CacheContracts.InactiveKeepsAll` | bin/mcp/document_cache.cpp:234-239 | set_active(false) leaves the records alone |
| `CacheContracts.UnchangedIsServed` | bin/mcp/document_cache.cpp:234-363 | a record whose file stays as it is through set_active is served by the next get, as a hit |
| `CacheContracts.ServedIff` | bin/mcp/document_cache.cpp:335-366 | a call is a hit exactly if it is active, the file is not too large, and the record's metadata and canonical path are the file's; it then gives the record and marks it as used |
| `CacheContracts.KeptIff` | bin/mcp/document_cache.cpp:380-445 | a call keeps a record exactly if the file was noted, there is room or a record the query has not used, the file is 20 ms old, could be read without an error, takes at most 128 times its size or 128 KiB, and its metadata and canonical path are the same after the read; the record is of what the path led to at the read |
| `CacheContracts.OthersAreNotKept` | bin/mcp/document_cache.cpp:335-349 | inactive, missing and oversized files leave the records alone and give nothing |
| `CacheContracts.TagsAre` | bin/mcp/document_cache.cpp:182-198 | two hashes have one tag exactly if they are equal, or 0 and 1 |
| `CacheContracts.EverySlotIsUsed` | bin/mcp/document_cache.cpp:310-313 | each of the 4096 slots is of one of 512 sets of eight |
| `CacheState.SweepKeepsShelf` | bin/mcp/document_cache.cpp:240-252 | the sweep of changed files keeps list and counts in agreement with the map |
| `CacheState.HitKeepsRecords` | bin/mcp/document_cache.cpp:356-363 | a hit keeps the list ordered by last use, and the current query has used just the one record more |
| `CacheTracker.WriteKeepsTracker` | bin/mcp/document_cache.cpp:310-326 | every write through tracker_slot keeps each set: tags or refused marks of its own, at most one slot per tag, a victim state that is not 0 |
| `CacheTracker.WritesKeepTracker` | bin/mcp/document_cache.cpp:369-377 | the same for all that get and admit may write |
| `CacheTracker.RefusedMarkIsUnambiguous` | bin/mcp/document_cache.h:179-179 | a refused mark reads as empty exactly for tag 1, and never as another file's hit of its set |
| `CacheTracker.NeverBoth` | bin/mcp/document_cache.h:179-179 | no value is both a tag of a set and the refused mark of one |
| `CacheTracker.XorShiftNonZero` | bin/mcp/document_cache.cpp:322-325 | the xorshift state never becomes 0 |
| `CacheTracker.HighBitsBelowWays` | bin/mcp/document_cache.cpp:325-325 | the victim's index is below 8 |
| `CacheTracker.Slot` | bin/mcp/document_cache.cpp:310-326 | the slot is in the tag's own set, and the lookup writes none |
| `DocumentCaches.DocumentCache.TrackerSlot` | bin/mcp/document_cache.cpp:310-326 | the loop finds the slot the function says |
| `DocumentCaches.DocumentCache.Get` | bin/mcp/document_cache.cpp:335-378 | in place, inactive, missing, oversized, hit, changed, refused, first-seen and second-seen files each leave the cache and return the record as CacheState.Get, whose guarantees are above |
| `DocumentCaches.DocumentCache.Admit` | bin/mcp/document_cache.cpp:380-445 | in place: full of used records, just changed, unresolvable, failed, refused and admitted files, each with its counters, mark and record |
| `DocumentCaches.DocumentCache.Evict` | bin/mcp/document_cache.cpp:423-426 | the loop drops from the end of the list until one more fits, counting |
| `DocumentCaches.DocumentCache.SetActive` | bin/mcp/document_cache.cpp:234-253 | the sweep, in whatever order the map is visited, leaves exactly the records whose file and canonical path are unchanged, in their order |
| `DocumentCaches.DocumentCache.Clear` | bin/mcp/document_cache.cpp:255-268 | map, list and counts are empty together |
| `DocumentCaches.DocumentCache.Erase` | bin/mcp/document_cache.cpp:328-333 | the record leaves map, list and counts |
| `Utf8.ValidatorsAgree` | bin/mcp/scan_preview.cpp:73-102 | the decoding validator and the range table accept the same sequences, with the same length |
| `Utf8.EncodeIsWellFormed` | bin/mcp/json.cpp:347-363 | a code point that is no surrogate is written as well-formed UTF-8 |
| `JsonGrammarTheorems.EncodeIsUtf8` | bin/mcp/json.cpp:347-363 | a code point is written in its UTF-8 form, by the arithmetic of section 3 of RFC 3629 |
| `JsonGrammarTheorems.EncodeDecodes` | bin/mcp/json.cpp:347-417 | and its bytes decode to it |
| `JsonGrammarTheorems.Utf8IsEncode` | bin/mcp/json.cpp:347-363 | which is its only form |
| `Utf8.WellFormedConcat` | bin/mcp/scan_preview.cpp:73-102 | after well-formed text, the whole is well-formed exactly if the rest is |
| `JsonRoundTrip.ParseOfDump` | bin/mcp/json.cpp:85-152 | for every value with well-formed strings, distinct names, grammatical numbers and nesting within the limit, parsing its text gives it back, to the last byte |
| `JsonRoundTrip.AcceptedIsProper` | bin/mcp/json.cpp:165-474 | every accepted text gives such a value |
| `JsonRoundTrip.ParseDumpParse` | bin/mcp/json.cpp:165-474 | parsing, printing and parsing is parsing |
| `JsonRoundTrip.DumpIsInjective` | bin/mcp/json.cpp:85-126 | values with one text are one value |
| `JsonRoundTrip.QuoteReadsBack` | bin/mcp/json.cpp:128-152 | a printed string is read back, escapes and all |
| `JsonRoundTrip.NumberReadsBack` | bin/mcp/json.cpp:316-345 | a number of the grammar of section 6 of RFC 8259 is read back up to its end |
| `JsonSpelling.StrictIsGrammar` | bin/mcp/json.cpp:165-474 | the strict parser gives a value for a text exactly if the text spells it by the grammar of RFC 8259, its bytes written out: four bytes of space anywhere between tokens, numbers, escapes, nesting within the limit, the last of a name winning in its first place |
| `JsonGrammarTheorems.ValueSound` | bin/mcp/json.cpp:208-312 | what the parser reads at a position stands there by the grammar |
| `JsonGrammarTheorems.ValueComplete` | bin/mcp/json.cpp:208-312 | what stands there by the grammar, before space, a comma, a closing byte or the end, the parser reads |
| `JsonGrammarTheorems.MeansSet` | bin/mcp/json.cpp:68-77 | collecting members one by one with set gives each name where it first comes, with the value it last has |
| `JsonSpelling.EscapeIsItsCharacter` | bin/mcp/json.cpp:365-384 | a string of one escape of four digits, in either case, is the character whose code the digits make |
| `JsonSpelling.PairIsItsCharacter` | bin/mcp/json.cpp:449-466 | a string of a surrogate pair is the character above U+FFFF that they make |
| `JsonSpelling.ShortEscapes` | bin/mcp/json.cpp:440-448 | the eight short escapes, and no other byte after a backslash |
| `JsonSpelling.OtherBytesAreRefused` | bin/mcp/json.cpp:165-474 | a text with any byte outside its strings that is neither one of the four of space nor one of a token is not accepted |
| `JsonSpelling.PrintedAs` | bin/mcp/json.cpp:128-152 | how each byte of a string is printed |
| `JsonParse.NumberIsGrammatical` | bin/mcp/json.cpp:316-345 | what the parser takes for a number is one of that grammar |
| `JsonParse.StringIsWellFormed` | bin/mcp/json.cpp:419-474 | what the parser takes for a string is well-formed UTF-8, surrogate pairs included |
| `Json.SetKeepsDistinct` | bin/mcp/json.cpp:68-77 | set leaves names distinct and adds at most the one |
| `Json.FindAfterSet` | bin/mcp/json.cpp:54-77 | after set, find gives the value for its name and what it gave before for every other |
| `JsonParser.Parser.ReadValue` | bin/mcp/json.cpp:208-236 | value, position, error and its offset are those of the parser as a function |
| `JsonParser.Parser.ReadMembers` | bin/mcp/json.cpp:238-279 | the loop over members reads all of them, the last of a name winning in its first place |
| `JsonParser.Parser.ReadItems` | bin/mcp/json.cpp:281-312 | the loop over items reads all of them |
| `JsonParser.Parser.ReadNumber` | bin/mcp/json.cpp:316-345 | takes the longest number of the grammar at the position, or stops at the byte that breaks it |
| `JsonParser.Parser.ReadHex4` | bin/mcp/json.cpp:365-384 | the loop reads four digits in either case |
| `JsonParser.Parser.ReadUtf8Char` | bin/mcp/json.cpp:387-417 | the loop copies one character exactly if the validator accepts it |
| `JsonParser.Parser.ReadString` | bin/mcp/json.cpp:419-474 | ends behind the closing quote with the decoded text, or stops where and why JsonParse.ParseString does |
| `JsonParser.Parse` | bin/mcp/json.cpp:165-178 | the result, or the first error and its offset, is that of the function |
| `JsonParser.Print` | bin/mcp/json.cpp:85-126 | the loops append the text of the value |
| `JsonParser.AppendString` | bin/mcp/json.cpp:128-152 | the loop appends the quoted string |
| `JsonParser.SetMember` | bin/mcp/json.cpp:68-77 | the loop sets as the function says |
| `JsonParser.FindMember` | bin/mcp/json.cpp:54-61 | the loop from the end finds the last of the name |
| `JsonPrefixTheorems.NoFalseError` | bin/mcp/scan_preview.cpp:444-464 | of a file that is accepted whole, the first n bytes, read as truncated, give no error exactly if they reach the first byte of its first value |
| `JsonPrefixTheorems.ProblemsAreFinal` | bin/mcp/scan_preview.cpp:535-546 | an error on the first bytes is one of every continuation, the same and after as many values, exactly if they reach a value and are not just the start of a byte order mark |
| `JsonPrefixTheorems.BadEscapeMoves` | bin/mcp/scan_preview.cpp:680-696 | two texts, one the start of the other, whose bad escape is placed one byte apart |
| `JsonPrefixTheorems.ValueAgrees` | bin/mcp/scan_preview.cpp:581-603 | a value read or found wrong in the first bytes is so in the whole, unless the reading was cut |
| `JsonPrefixTheorems.StringAgrees` | bin/mcp/scan_preview.cpp:699-749 | the same for strings, with characters and escapes that the cut divides |
| `JsonPrefixTheorems.NumberAgrees` | bin/mcp/scan_preview.cpp:618-659 | the same for numbers, which may go on |
| `JsonPrefixTheorems.ValuesAgree` | bin/mcp/scan_preview.cpp:451-464 | the first bytes show no more values and no other problem than the whole |
| `JsonReaders.AcceptedByBoth` | bin/mcp/scan_preview.cpp:581-855 | every text the strict parser accepts is exactly one value, without a problem, for the preview reader |
| `JsonSpelling.FilesAreRead` | bin/mcp/scan_preview.cpp:444-464 | a file of n values of the grammar with space between them, before and after, and perhaps a byte order mark, is n values and no problem to the preview reader |
| `JsonSpelling.BlankFiles` | bin/mcp/scan_preview.cpp:444-464 | a file of space alone is no value |
| `JsonSpelling.DeepIsRefused` | bin/mcp/scan_preview.cpp:581-590 | the 66th bracket open at once is one too many, at its place |
| `JsonReaders.StringsAgree` | bin/mcp/scan_preview.cpp:699-749 | a string of the strict parser ends where the preview reader's does, surrogate pairs included |
| `JsonReaders.OnlyOneAcceptsLoneSurrogates` | bin/mcp/scan_preview.cpp:718-723 | a lone surrogate escape is refused by the one and accepted by the other |
| `JsonAcceptance.AcceptedIff` | bin/mcp/json.cpp:165-474 | the strict parser accepts a text exactly if it is one value and no problem to the preview reader, has no byte order mark, and a scan of its bytes, without regard to any grammar, finds no more than 64 brackets and braces open at once and every surrogate escape paired |
| `JsonAcceptance.StringJudged` | bin/mcp/json.cpp:419-474 | of a string the preview reader reads, the strict parser finds the same end, or it has an unpaired surrogate escape |
| `JsonAcceptance.ValuesJudged` | bin/mcp/json.cpp:208-312 | of a value the preview reader reads, the strict parser finds the same end, or the scan finds it nested too deep or unpaired |
| `JsonReader.Reader.ReadValue` | bin/mcp/scan_preview.cpp:581-603 | position, cut mark and error are those of the reader as a function |
| `JsonReader.Reader.PassNumber` | bin/mcp/scan_preview.cpp:618-659 | ends behind the number, or is cut where more bytes could go on with it, or fails at its start or at the bad byte |
| `JsonReader.Reader.ReadHex4` | bin/mcp/scan_preview.cpp:680-696 | ends behind four hex digits; of fewer bytes it is cut, unless one of them is no hex digit |
| `JsonReader.Reader.ReadString` | bin/mcp/scan_preview.cpp:699-749 | ends behind the closing quote, is cut inside a string, character or escape, or fails at the bad byte |
| `JsonReader.Reader.PassMembers` | bin/mcp/scan_preview.cpp:751-797 | the loop ends behind the closing brace, or with the first cut or error in name, colon, value or separator |
| `JsonReader.Reader.PassItems` | bin/mcp/scan_preview.cpp:800-843 | the loop ends behind the closing bracket, or with the first cut or error in item or separator |
| `JsonReader.ReadFile` | bin/mcp/scan_preview.cpp:444-464 | the loop counts the values and reports what the function says |
| `PathText.RoundTrip` | bin/mcp/scan_preview.cpp:1564-1603 | a name comes back from its text exactly if it has no \xHH with upper-case digits in it |
| `PathText.FromToText` | bin/mcp/scan_preview.cpp:1564-1603 | reading a name's text back gives what reading the name itself as text gives, for all bytes |
| `PathText.ToTextIsWellFormed` | bin/mcp/scan_preview.cpp:1564-1582 | the text of any bytes is well-formed UTF-8 |
| `PathText.ToTextIsInjective` | bin/mcp/scan_preview.cpp:1564-1582 | two names without \xHH never have one text |
| `PathText.BytesAreWritten` | bin/mcp/scan_preview.cpp:1570-1578 | a byte that starts no character is written as a backslash, an x and its two upper-case hex digits |
| `PathText.EscapesAreRead` | bin/mcp/scan_preview.cpp:1592-1597 | and read back |
| `PathText.SignsAre` | bin/mcp/scan_preview.cpp:70-71 | what replaces a byte and what marks a cut are U+FFFD and U+2026 |
| `PathText.PathToText` | bin/mcp/scan_preview.cpp:1564-1582 | the loop gives that text |
| `PathText.PathFromText` | bin/mcp/scan_preview.cpp:1584-1603 | the loop undoes the escapes |
| `PathText.ShortText` | bin/mcp/scan_preview.cpp:105-123 | all of the repaired text if it fits; else its whole characters that fit, the next one not, and the ellipsis |
| `PathText.RepairedIsWellFormed` | bin/mcp/scan_preview.cpp:105-123 | the repaired text is well-formed |
| `PathText.RepairedIsSame` | bin/mcp/scan_preview.cpp:1605-1607 | exactly well-formed texts are left as they are |
| `PathText.ValidUtf8` | bin/mcp/scan_preview.cpp:1605-1607 | the room given is never used up: all of the repaired text |
| `OutputLimits.KeptIsLongest` | bin/mcp/mcp_server.cpp:692-700 | what is kept of well-formed output is its longest prefix of whole characters within the cap |
| `OutputLimits.Answer` | bin/mcp/mcp_server.cpp:682-700 | that, and the note with both sizes, however the output was divided into writes |
| `OutputLimits.NoteSays` | bin/mcp/mcp_server.cpp:693-697 | where the number of bytes kept and the number of all stand in the note |
| `OutputLimits.MarkersSay` | bin/mcp/mcp_server.cpp:184-205 | where the size stands in the two markers |
| `OutputLimits.CappedBuf.Write` | bin/mcp/mcp_server.cpp:139-150 | after any writes the buffer holds their first bytes up to the cap, and counts them all |
| `OutputLimits.TrimTail` | bin/mcp/mcp_server.cpp:158-172 | the loop back over at most four bytes cuts where the function says |
| `OutputLimits.TrimIsLongest` | bin/mcp/mcp_server.cpp:158-172 | it cuts a cut well-formed text at the last place between characters |
| `OutputLimits.CutIsBetween` | bin/mcp/mcp_server.cpp:174-176 | in well-formed text both parts are well-formed exactly where no continuation byte follows |
| `OutputLimits.CutMiddle` | bin/mcp/mcp_server.cpp:180-194 | a prefix, the marker and a disjoint suffix, as much as whole characters allow of half the room; within the cap if the marker fits; well-formed for well-formed text |
| `OutputLimits.LineExcerpt` | bin/mcp/mcp_server.cpp:200-226 | the bytes around the place of the error, or the two ends, by whole characters; well-formed for a well-formed line, and then the place is among them |
| `OutputLimits.ExcerptIsWellFormed` | bin/mcp/mcp_server.cpp:200-226 | and well-formed with dots and marker |
| `ProtocolTheorems.RequestsAreAnswered` | bin/mcp/mcp_server.cpp:836-872 | a request is answered whatever memory does, with its own id unless both attempts failed to read it, and then with null |
| `ProtocolReplies.IdComesBack` | bin/mcp/mcp_server.cpp:874-889 | by the parsed members: an id that is a string, or a number without point and exponent, comes back whenever one attempt has memory for it, unless the message is a response of the client |
| `ProtocolReplies.RequestsAreServed` | bin/mcp/mcp_server.cpp:926-955 | while memory lasts such a request gets its outcome if the version is 2.0, the method a string and params, if any, an object; and else -32600 or -32602 with its id |
| `ProtocolReplies.OtherIdsAreRefused` | bin/mcp/mcp_server.cpp:925-929 | any other value for an id is refused with null and -32600 |
| `ProtocolReplies.OthersAreRefused` | bin/mcp/mcp_server.cpp:899-917 | what is too large, no JSON or no object is refused with null and -32600 or -32700 |
| `ProtocolReplies.OthersAreSilent` | bin/mcp/mcp_server.cpp:919-935 | a message without an id, or a response of the client, gets no reply |
| `ProtocolReplies.FailuresAreReported` | bin/mcp/mcp_server.cpp:843-872 | where memory runs out once the id is known, the reply is -32603 with the id, and the reason if it can be said |
| `Json.FindIsLast` | bin/mcp/json.cpp:54-61 | find gives the value of the last member of the name, exactly if there is one |
| `ProtocolTheorems.NotificationsAreNotAnswered` | bin/mcp/mcp_server.cpp:836-872 | a notification is not answered exactly if one attempt recognised it |
| `ProtocolTheorems.ClientResponses` | bin/mcp/mcp_server.cpp:918-924 | a response of the client is not answered exactly if memory lasted until its id was known |
| `ProtocolTheorems.OthersAreAnsweredWithNull` | bin/mcp/mcp_server.cpp:899-928 | what is too large, no JSON, no object, or has an invalid id and is no response, is answered with null whatever memory does |
| `ProtocolTheorems.WhenIdIsNull` | bin/mcp/mcp_server.cpp:874-889 | null only where the id is missing or invalid or was read in neither attempt; any other id is the message's own |
| `ProtocolTheorems.AnswersAreResponses` | bin/mcp/mcp_server.cpp:105-113 | every answer is one line, parses as a response object and has the id it is for |
| `ProtocolTheorems.DumpIsOneLine` | bin/mcp/json.cpp:85-152 | the text of a value has no end of line in it |
| `Protocol.Server.Identify` | bin/mcp/mcp_server.cpp:874-889 | kind and id as the members say, and what each failure leaves |
| `Protocol.Server.HandleMessage` | bin/mcp/mcp_server.cpp:896-943 | what the first attempt knows, returns or throws |
| `Protocol.Server.Handle` | bin/mcp/mcp_server.cpp:836-872 | the response for the id, or nothing; if it throws, the id for the last answer is in place |
| `Protocol.Server.Respond` | bin/mcp/zorba_mcp.cpp:343-371 | what is written for a message, whatever memory does, is the answer of the protocol or nothing; if handle threw, the answer that needs no memory, with the id it left, unless the message was a notification |
| `Protocol.OutOfMemoryIsResponse` | bin/mcp/zorba_mcp.cpp:352-356 | the literal text is that of an error response |
| `MainLoop.Serve` | bin/mcp/zorba_mcp.cpp:338-371 | the lines written are the answers to the lines read, in order, as far as writing succeeds |
| `MainLoop.OutputIsTheAnswers` | bin/mcp/zorba_mcp.cpp:338-371 | read by lines, the output is the answers, one to a line |
| `MainLoop.Input.ReadLine` | bin/mcp/zorba_mcp.cpp:226-241 | a line up to its newline or the end, of which max + 1 bytes are kept |
| `MainLoop.WhenFaithful` | bin/mcp/zorba_mcp.cpp:226-241 | a message is taken whole or refused by its size, exactly unless the line is longer and has a carriage return right after the largest message |
| `MainLoop.LineIsAnswered` | bin/mcp/zorba_mcp.cpp:338-345 | a line without its carriage return is a message, unless it is but spaces and tabs |
| `Listing.DirectoryAnswer` | bin/mcp/scanner.cpp:1236-1267 | the answer is never longer than max_output or the size computed for the first line; it shows the first files that fit, and not one less |
| `Listing.FirstLineFits` | bin/mcp/scanner.cpp:1236-1240 | the first line is within its computed size for all 64-bit counts |
| `Listing.AllowanceIsTight` | bin/mcp/scanner.cpp:1236-1240 | that size is reached |
| `Listing.ShownIsCounted` | bin/mcp/scanner.cpp:1243-1258 | the answer has as many lines after the first as it says are shown |
| `Listing.FirstLineSays` | bin/mcp/scanner.cpp:1256-1265 | the first line by its bytes: the number behind total is the number of files, the one behind shown that of the lines that follow |
| `Listing.FileLineSays` | bin/mcp/scanner.cpp:1245-1250 | the line of a file by its bytes |
| `Decimal.DigitsReadBack` | bin/mcp/scanner.cpp:1256-1258 | the digits of a number stand for it, without a leading zero |
| `Decimal.TwentyDigits` | bin/mcp/scanner.cpp:1239-1240 | twenty digits hold every 64-bit count, nineteen do not |
| `RequestPath.Normalize` | bin/mcp/scanner.cpp:280-302 | the loop refuses and normalizes as the function says |
| `RequestPath.NormalizedOnce` | bin/mcp/scanner.cpp:280-302 | the normal form is accepted, is its own, and has exactly the segments kept |
| `RequestPath.SameSpelling` | bin/mcp/scanner.cpp:280-302 | two paths have one normal form exactly if the same segments are kept of them |
| `RequestPath.RefusedIff` | bin/mcp/scanner.cpp:280-302 | a path is refused exactly if it starts with a slash, has a NUL, or a segment other than a lone dot that starts with a dot |
| `QueueSteps.FirstInFirstOut` | bin/debugger/lock_free_queue.h:60-86 | at every statement of every interleaving, the results of consume, then the values pending in the list, then the argument of a produce under way, are the arguments given to produce, in order |
| `QueueSteps.RunProduces` | bin/debugger/lock_free_queue.h:60-66 | what was published and what is under way are the arguments of the calls of produce |
| `QueueSteps.TrimmingIsSafe` | bin/debugger/lock_free_queue.h:66-72 | no step of the producer erases the divider's node or one after it |
| `QueueSteps.EmptyMeansAllConsumed` | bin/debugger/lock_free_queue.h:76-86 | consume finds nothing exactly if all arguments given to produce, but one under way, were consumed |
| `QueueSteps.RunsAreSafe` | bin/debugger/lock_free_queue.h:60-86 | no statement moves, reads or erases an iterator that is not at a node of the list |
| `QueueSteps.StepKeepsInv` | bin/debugger/lock_free_queue.h:60-86 | every statement keeps the invariant: consecutive nodes, first before divider before last, the nodes hold the arguments of produce, a new node the argument under way |
| `LockFreeQueues.LockFreeQueue.Produce` | bin/debugger/lock_free_queue.h:60-74 | the contents get the value at their end, and nothing before the divider is left |
| `LockFreeQueues.LockFreeQueue.Consume` | bin/debugger/lock_free_queue.h:76-86 | the first of the contents, or nothing if there is none |

## Left out

- File descriptor work (`open_directory`, `open_regular`, `stat_under`, `read_capped`, `list_directory`): system calls; what they return is part of a scanner step, or a moment of the cache's world.
- XML, HTML and CSV previews: the first two are libxml2's, the third has no meaning in the repository to refine.
- The tables of a JSON preview (keys, samples, array lengths, top-level names): the reader's positions, cuts and errors do not depend on them.
- The engine (`read`, `copy_of`, `run`, static contexts, policies): a record, a size or a failure that is an input.
- What a request is answered with (tools, protocol versions, `theLegacyVersion`): an input of the protocol model, as are the words of refusals; which message is answered, when, and with which id does not depend on it.
- Starting, joining and time-outs of threads: a wait is a step that is not taken.
- ScannerFailures.LeftBehind: what a failure leaves behind is its state in the model; that the next use of the unlisted preview's iterator is undefined in C++ is not a state.
- ScannerTheorems.LedgerInEveryRun: sections are whole there; runs with failures inside them are those of ScannerFailures.LedgerDespiteFailures, which leaves out the two that break the books, because the claim is false after them.
- ScannerWhole.WholeListing: stated for the walker's listing; a request's goes through the same sections, of which ScannerListings.RequestListsBatch has the batches and ScannerTrees.MetFileStays the end.
- JsonSpelling.FilesAreRead: values nested at most 64 deep; the preview reader also takes an empty pair of brackets one level deeper (JsonAcceptance.AcceptedIff).
- Generation counter: unbounded, where the code wraps at 2^32 refreshes.
- Which known directories a request looks at again (`theDirCursor`): any may be found gone or changed.
- Files of a listing that have no room in the index (`Unindexed`): they are not part of the guarded state.
- Roots: one root, and a path is its own key; the FNV hash of the tracker is any number.
- ScannerShared.Shared: the methods run under the mutex; the threads' interleaving is in ScannerRun, on values.
- JsonPrefixTheorems.ProblemsAreFinal: places a malformed `\u` escape only to within four bytes, because the code itself places it differently on a cut text.
- CacheTheorems.CacheAgreesWithFiles: asks that what an admission reads between two equal stats is the file or has its bytes, because the claim is false otherwise (CacheRuns.WrongAdmissionIsServed).
- QueueSteps.FirstInFirstOut: assumes sequential consistency; the fields are plain iterators in the code, and the C++ memory model promises nothing of the kind for them.
- QueueSteps.Next: insert and erase of the list are one step each, as statements are.
- Command line, log lines, tool descriptions, timers: data or thin drivers.
