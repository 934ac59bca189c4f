# Verified model of true-knowledge

A Dafny 4.11 model of the parts of `tk` that change state step by step, with proofs of what they
keep. `dafny verify dfyconfig.toml` checks all of it.

What is modelled, module by module:

- **The structured-payload trimmer** (`Rows`, `RowsProofs`, `TrimLaws`, `RowCount`, `Budget`,
  `Containers`, `Trimmer`, `CutPoint`, `Evidence`; `internal/cbmexec/exec.go`). A reply that is over
  budget loses whole rows until its text, markers included, fits. Paths to the droppable arrays are
  computed once and used while the tree shrinks under them. `Trimmer.BudgetResult` is the loop,
  proved against a trim defined without paths. `Evidence` is the scan that decides whether a reply
  is an absence, and says exactly which absences and findings survive a trim.
- **The child and the resident** (`Child`, `Resident`, `ResidentProofs`, `ResidentRuns`,
  `ResidentReplies`, `ResidentOrder`, `ResidentServing`; `internal/cbmexec/child.go`,
  `internal/resident/server.go`). `Child` is the reply loop over a noisy stream, matching ids as
  section 5 ("Response object") of the JSON-RPC 2.0 specification asks. `Resident` is a state
  machine whose steps are the critical sections of requests, of the goroutine that a timeout leaves
  behind, and of serve, quiesce, resume and close.
- **The memory stores** (`LedgerLog`, `LedgerProofs`, `Ledger`, `NoteFile`, `Reviews`,
  `ReviewsProofs`, `Vectors`, `NoteIndex`, `Embedding`, `NoteSteps`, `NoteVectors`, `NoteSync`,
  `NoteBlobs`, `NoteApproval`, `NoteStore`, `Names`; `internal/memory`). The append-only ledger and
  its reader after a crash, the note file's front matter, the review queue, and the index rebuilt
  from the markdown files with its embedding cache.
- **The staged swap** (`PublishSteps`, `PublishLaws`, `Installer`;
  `internal/installer/installer.go`), with every file operation allowed to fail.
- **Walks with accounting**: log rotation (`TraceLog`), rank fusion (`Fusion`), the fleet search
  under one limit (`Fleet`), ignore rules and the pruning walk (`Ignore`, `DirWalk`).

`Text`, `Lines`, `Fields`, `Json`, `JsonProofs`, `JsonLaws`, `JsonText` and `TextLaws` are the text
underneath: byte strings, lines and runes, and a JSON printer and reader written out in full
(sections 6 and 7 of RFC 8259), because ledger lines, note files and budgets depend on their exact
bytes. A `string` is a sequence of bytes, so its length is the one Go reports.

Failures come in as parameters: the number of bytes that reached a file, the stage at which an
operation stops, the file operations that fail, the chunks the endpoint refuses. The theorems hold
for every choice of them.

## Where the code and its documentation differ

The model follows the code.

- `internal/cbmexec/exec.go:1015-1019` says that scalars are never dropped. A counter inside a
  record goes with the record. `Evidence.CountersSurvive` and `Evidence.FindingSurvives` give the
  exact condition, `Evidence.FindingCanBeLost` and `Evidence.AbsenceCanBeLost` a payload each.
- `internal/cbmexec/exec.go:1021-1023` says that a payload that cannot fit is returned whole. What
  the code returns has lost everything droppable (`Trimmer.BudgetResult`).
- `internal/resident/server.go:352-354` says that no request is in flight once the serial slot is
  held. A call that timed out may still be (`ResidentRuns.DrainMissesAbandoned`, and
  `ResidentProofs.DrainIsExact` for exactly when); closing waits for it all the same
  (`ResidentProofs.OneOutstanding`).
- `internal/installer/installer.go:171-186` promises to retain the current binary before publishing.
  When its metadata cannot be read it is not retained (`PublishLaws.OldBytesCanBeLost`); otherwise
  it always is (`PublishLaws.OldBytesKept`). That covers one attempt: after a second rename that
  failed the retained copy is the only one (`PublishLaws.FailedRenameStrands`), and the next attempt
  removes it first (`PublishLaws.OnlyCopyKept`).
- `internal/installer/installer.go:352-355` promises that a rollback that fails is reported. When
  the retained file cannot be seen, the rollback does nothing and reports success, so the rejected
  binary stays (`PublishLaws.RejectedCanStay`); `PublishLaws.RollbackExact` and
  `PublishLaws.FailureRestores` say exactly when.
- `internal/resident/server.go:363-373` describes resume as the end of a swap. Nothing checks that a
  quiesce came first, and without one the old engine is leaked (`ResidentRuns.ResumeLeaksEngine`;
  `ResidentOrder.LeakIsExact` for exactly when).
- `internal/memory/notes.go:871` says that the check of project names guards against traversal. It
  lets `.` and `..` pass. A note of such a project is written outside every directory that a rebuild
  walks, and its row disappears with the next rebuild (`NoteSync.EscapedNoteIsForgotten`;
  `NoteSync.ApproveSyncs` for exactly when).
- `internal/cbmexec/child.go:41-43` says that the stderr buffer holds only the last write. It holds
  the last bytes of all writes (`Child.TailIsLast`).

## Model

| member | source | states |
|---|---|---|
| Rows.GetRows | internal/cbmexec/exec.go:956-975 | the loop that follows a path ends at the array the path denotes, and at nothing when a hop cannot be taken |
| Rows.SetReplaces | internal/cbmexec/exec.go:980-1005 | storing where a non-empty array was found never fails a type assertion and replaces exactly that array |
| Text.SortedKeysAscend | internal/cbmexec/exec.go:1171-1176 | the members of an object are taken in ascending byte order of their keys: of two keys the earlier is a proper prefix of the later, or has the lower byte where they first differ |
| Text.LessIsBefore | internal/cbmexec/exec.go:1171-1176 | the recursive comparison is that byte order, which is told without it |
| Json.ZeroLiteralIs | internal/cbmexec/exec.go:619-628 | a counter is zero exactly when every digit before its exponent is 0 |
| Json.ZeroIntLiteral | internal/cbmexec/exec.go:619-628 | an integer counter is zero exactly when its value is |
| RowsProofs.DropAlongIsTrim | internal/cbmexec/exec.go:1032-1054 | for an object payload, spending the recorded paths one after the other on the changing tree is the trim defined on the tree without paths: every path still leads to its own container when it is used, and the second registration of a record array finds nothing left |
| RowsProofs.DropAlongIsSpent | internal/cbmexec/exec.go:1032-1054 | the same for every payload: a top-level array is never shortened itself, and the rows of a top-level table never change |
| RowsProofs.DropMember | internal/cbmexec/exec.go:1176-1189 | one member of an object, with its array registered twice, is spent exactly once |
| TrimLaws.TrimShortens | internal/cbmexec/exec.go:1119-1141 | a trimmed payload is the payload with some arrays of arrays or of objects cut to a prefix: the rows a table keeps are verbatim, only inside kept records are further arrays cut, and everything else is unchanged |
| TrimLaws.ShorterIsContainer | internal/cbmexec/exec.go:1147-1190 | the only arrays a trim can shorten are the recorded ones |
| TrimLaws.TrimConserves | internal/cbmexec/exec.go:1036-1054 | what is dropped and what can still be dropped always add up to what could be dropped at the start |
| TrimLaws.SpentConserves | internal/cbmexec/exec.go:1036-1054 | the same for every payload as a whole |
| TrimLaws.WalkDroppable | internal/cbmexec/exec.go:1147-1190 | every recorded path leads to an array of arrays, an array of objects or an empty array |
| RowCount.RowsDistinct | internal/cbmexec/exec.go:1147-1190 | the containers, counted once each, have different paths |
| Containers.ContainersAre | internal/cbmexec/exec.go:1119-1190 | told from the payload alone: the recorded paths are exactly those that lead to an array which is empty or starts with an array or an object and that pass through no table |
| RowCount.DroppedIsCounted | internal/cbmexec/exec.go:1147-1190 | over the distinct containers of the payload exactly as many elements are missing as `rows_dropped` says, although some containers are registered twice and some vanish inside dropped records |
| Budget.PlugWidth | internal/cbmexec/exec.go:1082-1089 | replacing a value anywhere changes the length of the printed document by the difference of the two values |
| Budget.CutStep | internal/cbmexec/exec.go:1082-1112 | one more dropped element makes the marked text strictly shorter even when `rows_dropped` gains a digit; under a top-level key that the markers overwrite it never does |
| Budget.OverBetween | internal/cbmexec/exec.go:1036-1053 | when the first and a later measurement in a container are over budget, so is everything between |
| Trimmer.Payload.Len | internal/cbmexec/exec.go:931 | the number of elements the path leads to now |
| Trimmer.Payload.Drop | internal/cbmexec/exec.go:934-940 | the last n elements of the container are gone, and no input makes the store behind it panic |
| Trimmer.Payload.TrimContainer | internal/cbmexec/exec.go:1036-1054 | one container is spent in doubling batches: it stops at fewer than twice the largest failed number plus two, or with the container empty, after at most log2(n) + 1 measurements |
| Trimmer.ContainerNow | internal/cbmexec/exec.go:1036-1043 | in a partly trimmed payload a recorded path below the top level leads to nothing or to its own droppable array, which holds no more than can still be dropped |
| Trimmer.NothingFits | internal/cbmexec/exec.go:1046-1052 | two failed measurements in a container rule out every number of dropped elements up to the later one |
| Trimmer.SpentIsEmpty | internal/cbmexec/exec.go:1036-1059 | with everything droppable gone no recorded array below the top level has elements left |
| Trimmer.BudgetResult | internal/cbmexec/exec.go:1024-1059 | text that fits, or cannot be read, is returned as it is. For every other payload, whatever its top level: if some number of dropped elements would make the marked text fit, what is delivered fits, with d elements gone in the canonical order, and in the container where the loop stopped fewer than twice as many elements are gone as were necessary there; if and only if no number would do, everything droppable is gone and an object carries `budget_exceeded` |
| Trimmer.PlainUnmarked | internal/cbmexec/exec.go:1061-1071 | a payload whose top level is not an object carries no markers however much is dropped |
| CutPoint.WalkNestedFirst | internal/cbmexec/exec.go:1137-1190 | no container lies below one that was recorded before it |
| CutPoint.WalkInOrder | internal/cbmexec/exec.go:1114-1190 | containers are recorded deeper ones first, then by byte order of the keys and by position |
| CutPoint.Round | internal/cbmexec/exec.go:934-1005 | one drop shortens its own container and leaves the length of every other container that is still to come |
| CutPoint.SingleCutPoint | internal/cbmexec/exec.go:1036-1054 | for every number of dropped elements the trimmed tree is the input except for one cut point in the order of the containers: those before it are empty, the one at it is cut to a prefix, later ones that are not among them keep their length, and whatever holds none of the containers up to it is exactly as it was; the rows a table keeps are verbatim, kept records change only inside, and an array that is no container keeps its length |
| Evidence.ScanEvidence | internal/cbmexec/exec.go:615-654 | whatever order the members come in, the scan reports whether some counter is reachable and whether none of them is non-zero |
| Evidence.ScanMember | internal/cbmexec/exec.go:619-641 | a counter key is read and never entered, any other key is entered |
| Evidence.LooksEmptyData | internal/cbmexec/exec.go:580-590 | empty exactly when the text can be read, states at least one counter, and every counter is zero |
| Evidence.NoNewFinding | internal/cbmexec/exec.go:1015-1019 | trimming never turns a payload without a finding into one with a finding, whatever its top level |
| Evidence.CountersSurvive | internal/cbmexec/exec.go:1015-1019 | a payload states counters after every trim if and only if some counter lies outside every array that the code can shorten; a top-level array is none of these, and the rows of a top-level table never change |
| Evidence.FindingSurvives | internal/cbmexec/exec.go:1015-1019 | a finding is still there after every trim if and only if some non-zero number, or non-empty list of scalars, stands under a counter key outside every array that the code can shorten |
| Evidence.FindingCanBeLost | internal/cbmexec/exec.go:1125-1129 | a concrete payload whose finding becomes an absence when its one row is dropped |
| Evidence.AbsenceCanBeLost | internal/cbmexec/exec.go:1015-1019 | a concrete payload that states an absence and, after its record is dropped, states no counter at all |
| Evidence.MarkersAreNoEvidence | internal/cbmexec/exec.go:659 | none of the three marker keys is a counter key |
| Evidence.CounterKeyIs | internal/cbmexec/exec.go:656-659 | a counter key is one of the twelve words in any case, by itself or after something on one line that ends in an underscore |
| Evidence.MarkersStateNothing | internal/cbmexec/exec.go:1094-1112 | adding the markers adds no counter and takes none away |
| Evidence.DeliveredIsMarked | internal/cbmexec/exec.go:1091-1112 | read back from the delivered text of an object, whether or not it uses the marker keys itself: besides the markers the reply is the payload with d elements gone, `rows_dropped` is d, and either the text is within the budget or no number of dropped elements makes it fit, everything droppable is gone and `budget_exceeded` is set; read back from any other payload: exactly the payload with d elements gone |
| Evidence.DeliveredEvidence | internal/cbmexec/exec.go:1024-1059 | read back from the delivered text of any payload that does not use the marker keys: no absence becomes a finding, a finding outside the arrays the code can shorten is still a finding, and an absence with such a counter stays an absence |
| JsonProofs.DecodeEncode | internal/cbmexec/exec.go:1114-1117 | a document printed on one line reads back as itself |
| JsonProofs.StringRoundTrip | internal/memory/notes.go:832 | a printed string reads back as itself, with every escape of section 7 of RFC 8259 that the printer uses |
| JsonProofs.ObjectRoundTrip | internal/memory/notes.go:822-832 | an object printed with any of its members, in any order and layout, reads back as those members |
| JsonProofs.TornObjectUnreadable | internal/memory/ledger.go:183-209 | no strict prefix of a printed object can be read |
| JsonLaws.DecodePadded | internal/cbmexec/exec.go:1028-1031 | white space around a document changes nothing |
| JsonLaws.NothingBehind | internal/cbmexec/exec.go:1028-1031 | a document with anything else behind it is refused |
| JsonLaws.NumeralIs | internal/cbmexec/exec.go:1028-1031 | the numerals that are read are exactly those of the grammar in section 6 of RFC 8259 |
| JsonLaws.NoControlInside | internal/cbmexec/exec.go:1028-1031 | a string that can be read holds no control character |
| JsonLaws.LettersAre | internal/cbmexec/exec.go:1028-1031 | the letters that may follow a backslash, and what each reads as |
| JsonLaws.HexValueIs | internal/cbmexec/exec.go:1028-1031 | digits of base 16 are read in either case, and nothing else is |
| JsonLaws.PlainUnit | internal/cbmexec/exec.go:1028-1031 | a code unit outside the surrogates reads as its code point |
| JsonLaws.SurrogatePair | internal/cbmexec/exec.go:1028-1031 | a pair of surrogates reads as the code point it stands for |
| JsonLaws.LoneSurrogate | internal/cbmexec/exec.go:1028-1031 | any other surrogate reads as U+FFFD |
| JsonLaws.Utf8Is | internal/cbmexec/exec.go:1028-1031 | the bytes of a code point, with the bits they carry |
| JsonLaws.EscapeWidth | internal/cbmexec/exec.go:1114-1117 | a printed character takes two bytes where the reader has a letter for it, six when it is another control character or one that HTML would read, and one otherwise |
| JsonLaws.SeparatorsAre | internal/cbmexec/exec.go:1114-1117 | U+2028 and U+2029 are escaped as a whole, and nothing else that is longer than a byte |
| JsonText.PlainEncode | internal/memory/ledger.go:93 | a document printed on one line holds no control character, so no line end |
| JsonText.FoldedObject | internal/memory/notes.go:832 | in an indented object every line end is followed by a space or the closing brace |
| Child.Child.Call | internal/cbmexec/child.go:139-188 | one call: after a death it reports that death and does nothing, after a close it does nothing; a failed write is a death; otherwise its id goes onto the wire, and it is answered by the first line that is an object with that id, or the output ends without one, which is a death too |
| Child.Child.Fail | internal/cbmexec/child.go:190-198 | the first death is the one that is kept |
| Child.FirstOwnFrame | internal/cbmexec/child.go:133-188 | the answer is the first line that is an object with the call's id, whatever stands before it: its error when it has one, else its result; the lines after it are left, and without such a line the call ends |
| Child.CarriesIs | internal/cbmexec/child.go:164-184 | told from the decoded line: which lines carry an id, and what such a line answers |
| Child.BytesTrimIs | internal/cbmexec/child.go:294-304 | a line without the white space on either side; `Child.TrimmedOnce` says that there is only one |
| Child.CallIsDone | internal/cbmexec/child.go:139-198 | what every branch of a call leaves behind and returns |
| Child.IdsIncrease | internal/cbmexec/child.go:148-152 | over any run of calls the ids on the wire strictly increase |
| Child.DeathIsLatched | internal/cbmexec/child.go:142-144 | after a death every later call returns that death unchanged and writes nothing |
| Child.DeathIsReported | internal/cbmexec/child.go:190-198 | a call that reports a death leaves exactly that death latched |
| Child.TailBuffer.Write | internal/cbmexec/child.go:44-58 | a write keeps the last bytes of what was kept and what is written |
| Child.TailIsLast | internal/cbmexec/child.go:41-58 | after any writes the buffer holds exactly the last bytes of everything written |
| Lines.ReadLine | internal/cbmexec/child.go:156-161 | what is read runs to the first line end and includes it, or is everything left when there is none; it and the rest are the text |
| ResidentProofs.InvRequestStep | internal/resident/server.go:185-231 | every step of serving a request keeps the invariant of all runs |
| ResidentProofs.InvCallStep | internal/cbmexec/child.go:139-188 | every step of a call, abandoned or not, keeps the invariant of all runs |
| ResidentProofs.InvControlStep | internal/resident/server.go:346-423 | every step of serve, quiesce, resume and close keeps the invariant of all runs |
| ResidentProofs.OneOutstanding | internal/resident/server.go:217-220 | in every interleaving of requests, timeouts, quiesce, resume and close an engine's pipe carries at most one request, the one whose call holds the engine's lock, and a closed engine's pipe carries none |
| ResidentRuns.OpenUntilClosed | internal/cbmexec/child.go:258-265 | an engine is open at every instant between its start and its closing |
| ResidentRuns.ResultsAreWhole | internal/resident/server.go:185-231 | a reply with a result comes from a call written at one step and answered at a later one, on an engine that was open at every instant in between |
| ResidentReplies.RepliesAreSettled | internal/resident/server.go:185-231 | in every run each reply goes back to the step that settled it: a refusal on arrival at a resident that is closed, quiesced or without an engine, a timeout, or the outcome of the request's own call, which is what the engine answered or a failure of the engine |
| ResidentReplies.CallsAreTaken | internal/resident/server.go:185-220 | in every run a request that waits or is served arrived at an open, unquiesced resident and goes to the engine that was attached then |
| ResidentReplies.EngineHistory | internal/cbmexec/child.go:139-198 | in every run an engine is dead exactly when it died under a request or could not be written to, and closed exactly when a quiesce or a close got to it |
| ResidentReplies.QuiesceWaits | internal/resident/server.go:346-362 | in every run a quiesce gets past its drain only when no request holds the serial slot, and an engine is closed only with nothing on its pipe |
| ResidentReplies.NothingIsStuck | internal/resident/server.go:185-423 | in every reachable state each unfinished request and each control action can move on, or the one in its way can |
| ResidentReplies.RequestIsServed | internal/resident/server.go:217-231 | a concrete run: a request is taken, written, answered and replied to with its result |
| ResidentReplies.UpgradeIsServed | internal/resident/server.go:346-400 | a concrete run: quiesce, a refused request, resume, and a request that goes to the new engine |
| ResidentRuns.ResumeLeaksEngine | internal/resident/server.go:374-400 | a concrete run: a resume that follows no quiesce leaves two open engines |
| ResidentRuns.DrainMissesAbandoned | internal/resident/server.go:346-362 | a concrete run: quiesce gets past the serial slot while a call that timed out is still on the pipe, and only the engine's own lock holds up the closing |
| ResidentOrder.OrderlyShape | internal/resident/server.go:346-423 | the invariant of runs whose control actions do not overlap and whose starts never succeed while an engine is attached, with requests interleaving freely |
| ResidentServing.ServingHasEngine | internal/resident/server.go:374-400 | whenever control actions do not overlap, a stray resume included, a started resident that is neither closed nor quiesced has an engine, and the engine is open |
| ResidentOrder.OneLiveEngine | internal/resident/server.go:346-400 | in those runs, of any two engines one was closed before the other was started |
| ResidentOrder.QuiescedIsOrderly | internal/resident/server.go:346-400 | a run in which every resume begins quiesced is such a run |
| ResidentOrder.LeakIsExact | internal/resident/server.go:374-400 | when control actions do not overlap, at most one engine is open at every instant if and only if no start succeeds while an engine is attached: a resume that skipped the quiesce leaks exactly when its start succeeds |
| ResidentProofs.DrainIsExact | internal/resident/server.go:346-362 | in every run, while the serial slot is free, an engine's pipe is empty if and only if no call was left behind on it by a reply that reported a timeout |
| Ledger.Ledger.ReadAll | internal/memory/ledger.go:186-210 | the entries of a project, or an error when an earlier line cannot be read |
| Ledger.Ledger.Append | internal/memory/ledger.go:77-101 | the files and the outcome of one append; for intact files, complete or torn after any number of bytes, the project's history is as it was or longer by the new entry, the latter when it completed, every other project is as it was, and a refusal, exactly for a bad name, a bad key or a blank value, writes nothing |
| Ledger.Ledger.Get | internal/memory/ledger.go:106-124 | exactly the keys that some entry has, each with its last entry, the value capped |
| LedgerProofs.EntryRoundTrip | internal/memory/ledger.go:54-60 | the text of an entry reads back as that entry |
| LedgerProofs.EntryText | internal/memory/ledger.go:183-209 | a torn entry reads as no entry, and the text of an entry is one line |
| LedgerProofs.CrashSafe | internal/memory/ledger.go:183-210 | a crash after any byte of one append to an intact log leaves the history as it was or with the new entry at its end, never an error |
| LedgerProofs.AppendKeepsIntact | internal/memory/ledger.go:77-101 | a completed append leaves the log intact |
| LedgerProofs.AppendIsSafe | internal/memory/ledger.go:77-101 | complete, torn or rejected, an append to intact files leaves its project's history old or extended by its entry and every other project alone; it is rejected exactly for a bad name, a bad key or a blank value |
| LedgerProofs.ReadingIsExact | internal/memory/ledger.go:186-210 | a log is refused exactly when a line before the last is neither blank nor an entry; otherwise it gives the entries of its readable lines in order |
| LedgerProofs.HistoryIsExact | internal/memory/ledger.go:186-210 | the same of a project's history, in terms of the lines of its file |
| LedgerProofs.NullEntry | internal/memory/ledger.go:186-210 | a line that says null is an entry with nothing in it |
| LedgerProofs.AppendIsExact | internal/memory/ledger.go:77-101 | for any log, damaged or not: which append is refused, and for what, and that a refusal writes nothing; otherwise what reached the file is a beginning of the new entry's line |
| LedgerProofs.KeysAre | internal/memory/ledger.go:27-48 | the five keys |
| LedgerProofs.SingleWriter | internal/memory/ledger.go:171-181 | a single writer's entries are numbered 1 to n and hold what was written, in order |
| LedgerProofs.FoldIsLast | internal/memory/ledger.go:115-118 | a key is returned exactly when some entry has it, and its value is the last such entry's |
| LedgerProofs.CapIsExact | internal/memory/ledger.go:212-228 | a value within the cap is whole; a longer one is cut between runes to exactly the cap, marker included |
| Lines.SplitJoin | internal/memory/ledger.go:194 | a line end separates the lines before it from the lines after it |
| TextLaws.SpaceIs | internal/memory/ledger.go:85-90 | a text starts with white space exactly when it starts with a code point of the White_Space property |
| TextLaws.WhiteIs | internal/memory/ledger.go:85-90 | a blank text is one made of such code points |
| TextLaws.TrimSpaceIs | internal/memory/notes.go:872-878 | a trimmed text lies between white space and neither starts nor ends with any |
| TextLaws.PointIsRune | internal/memory/ledger.go:212-228 | a code point is one whole rune, whatever follows |
| TextLaws.ValidProjectIs | internal/memory/notes.go:872-878 | a project name is refused exactly when, trimmed, it is empty or holds a slash of either kind |
| TextLaws.FileNameIs | internal/memory/notes.go:185-198 | a note's file name: at most 48 small letters, digits and single dashes, which are the title itself when it is such a text, a dash, the first 8 characters of the id, and `.md` |
| TextLaws.LowerByteIs | internal/memory/notes.go:185-198 | only the 26 capital letters change, each to its small letter |
| TextLaws.EndsMdIs | internal/memory/notes.go:811 | a name ends in `.md` when that stands at its end |
| Fields.MemberReads | internal/memory/ledger.go:186-210 | an absent or null member reads as the zero value, one of the type as its value, any other is an error |
| Fields.WrapIs | internal/memory/ledger.go:90-93 | an overflowing number comes out 2^64 away |
| NoteFile.Find | internal/memory/notes.go:847 | the first occurrence, or none at all |
| NoteFile.FirstSeparator | internal/memory/notes.go:847 | the separator a note is written with is the first in its text, whatever the title and the body |
| NoteFile.RoundTrip | internal/memory/notes.go:821-870 | what is written for a note reads back with every field and the body, which loses exactly its last line end if it ends in one and nothing otherwise; it is refused exactly without id or title |
| NoteFile.FirstSeparatorDivides | internal/memory/notes.go:845-870 | a text without the separator is no note; in any other the first one ends the front matter and the rest, less one line end, is the body |
| NoteFile.MarshalEnds | internal/memory/notes.go:833-842 | a written note ends in its separator, its body and a line end |
| Vectors.EncodeVec | internal/memory/embed.go:99-106 | the bytes of the vector's words, each little-endian |
| Vectors.DecodeVec | internal/memory/embed.go:108-118 | the words of the blob, or nothing when it is not whole words |
| Vectors.UnpackPack | internal/memory/embed.go:99-118 | a stored vector reads back as itself |
| Vectors.PackUnpack | internal/memory/embed.go:99-118 | a blob of whole words is exactly what the vector read from it is stored as |
| Reviews.FindReview | internal/memory/notes.go:739-766 | the first entry of the file with the id |
| Reviews.DropLine | internal/memory/notes.go:768-791 | the lines kept: all but blank ones and the entries with the id |
| ReviewsProofs.ReviewRoundTrip | internal/memory/notes.go:103-111 | a captured note is one line that reads back as that note, empty text and reasons included |
| ReviewsProofs.CaptureAppends | internal/memory/notes.go:214-223 | capturing a note adds it at the end of the queue and changes nothing before it |
| ReviewsProofs.DropIsExact | internal/memory/notes.go:768-791 | dropping an id removes all its entries and no others, keeps the order and every unreadable line |
| ReviewsProofs.WithoutIs | internal/memory/notes.go:768-791 | entries are kept or left out one by one, by their ids alone |
| ReviewsProofs.KeptLinesAre | internal/memory/notes.go:768-791 | the lines that stay are those neither blank nor an entry with the id |
| ReviewsProofs.StringsAre | internal/memory/notes.go:739-766 | a list of strings is read element by element, null as the empty string |
| Embedding.FillFromCache | internal/memory/notes.go:644-653 | unchanged bodies get their cached vectors, in place, and the rest is counted |
| Embedding.EmbedChunks | internal/memory/notes.go:673-686 | chunk after chunk, exactly the missing entries whose chunk succeeded are filled, with one call per chunk |
| Embedding.ReindexEmbed | internal/memory/notes.go:618-688 | after the pass the entries are cached, embedded or left as the failures of the endpoint say, and the number of calls is exact |
| Embedding.CallsAre | internal/memory/notes.go:656-673 | no call when every body is cached, one when the endpoint is down, else one more than the least number of chunks that hold the missing bodies |
| NoteVectors.ReindexAgrees | internal/memory/notes.go:523-612 | a rebuild, failing anywhere or not, keeps rows and cache in agreement with the embedder |
| NoteVectors.VectorsAgree | internal/memory/notes.go:523-688 | after any run with any failures every stored vector is the one its model gives its note's current body, and every cache row is the vector of the body its digest stands for |
| NoteBlobs.RebuildStores | internal/memory/notes.go:569-606 | a completed rebuild counts the notes, gives every id the row of its last note, and stores in rows and cache exactly the vectors that the cache still held or the endpoint delivered |
| NoteBlobs.RebuildEmbeds | internal/memory/notes.go:569-606 | while cache and embedder agree, a row has its model's vector of its body whenever that has any numbers in it and was cached or its chunk succeeded |
| NoteBlobs.VectorIsModels | internal/memory/notes.go:618-688 | while cache and embedder agree, a note's vector is its model's when cached or delivered, and there is none otherwise |
| NoteBlobs.ApproveStores | internal/memory/notes.go:283-307 | an approval stores the vector of the body when the endpoint gives one with any numbers in it |
| NoteStore.Notes.CollectNotes | internal/memory/notes.go:794-819 | the notes of one project or of all, read directory by directory, file by file; a project named `.` or `..` is never listed |
| NoteStore.Notes.Reindex | internal/memory/notes.go:523-612 | rows, cache and count after a rebuild that completes or fails at any stage: files and queue stay; a completed rebuild counts the notes and stores exactly the vectors that were cached or delivered, and one of everything leaves the rows exactly the notes in the files; a failed one leaves no row once the table was emptied |
| NoteStore.Notes.FindEntry | internal/memory/notes.go:739-766 | the first pending entry with the id over all queue files, and the file that holds it |
| NoteStore.Notes.Approve | internal/memory/notes.go:238-270 | an approval succeeds exactly for a pending entry when nothing fails; it writes the note's file, then its row with the vector the endpoint gives, then takes the entries with its id out of the queue, and stops at the first of these that fails; rows and files that were the same stay so in exactly the cases of `NoteSync.ApproveSyncs` |
| NoteStore.Notes.Reject | internal/memory/notes.go:273-279 | it succeeds exactly for a pending entry; the entries with the id leave their file, the others keep their order, and nothing else changes |
| NoteStore.Notes.SaveToReview | internal/memory/notes.go:202-224 | refused exactly for a bad project name, a blank title or a text over the limit; a captured note has what was given, is the last entry of its project's queue, and every other queue is as it was |
| NoteSync.CollectExact | internal/memory/notes.go:535-552 | a rebuild of everything reads exactly the notes in the files of the projects that the walk lists, and fails exactly when one cannot be parsed |
| NoteSync.CollectForExact | internal/memory/notes.go:535-552 | the same for a rebuild of one project |
| NoteSync.FindIsFirst | internal/memory/notes.go:739-766 | the entry found is the first with the id in the first queue file, in byte order of the names, that has one; none is found exactly when no file has one |
| NoteSync.ReindexSyncs | internal/memory/notes.go:519-612 | after a completed rebuild of everything the rows are exactly the notes in the files |
| NoteSync.ApproveSyncs | internal/memory/notes.go:236-270 | an approval keeps rows and files the same if and only if, in a project that the walk lists, the text does not end in a line end, id and title are not empty, and the file it writes is the only one with its id and held no other note; in a project named `.` or `..`, only if another file holds the very same note already |
| NoteSync.EscapedNoteIsForgotten | internal/memory/notes.go:871-878 | a concrete run: a note captured for the project `..` is approved and indexed, no walk finds its file, and the next rebuild forgets it |
| NoteSync.WriteKeepsSync | internal/memory/notes.go:255-261 | an approval that wrote only its file leaves at most its own id lagging |
| NoteSync.RunKeepsSync | internal/memory/notes.go:200-321 | after any run of captures, approvals, rejections and rebuilds, any of them failing midway, the rows are exactly the notes in the files but for the ids that a failure left lagging |
| NoteSync.NothingLags | internal/memory/notes.go:200-321 | when the operations complete, no id lags |
| NoteSync.ApprovalIsRepaired | internal/memory/notes.go:238-270 | an approval that failed midway is repaired by approving again or by a full rebuild |
| NoteApproval.NothingUnapproved | internal/memory/notes.go:200-321 | after any run with any failures from an empty store, every note in a file is the note of an entry that was pending when it was approved, less one final line end, and every row is such a note, with or without that line end, under its own id |
| NoteApproval.PendingWasCaptured | internal/memory/notes.go:200-279 | after any run with any failures from an empty queue, every pending entry is one that a capture returned |
| Installer.Disk.Swap | internal/installer/installer.go:335-350 | the old binary is at the target or beside it after every operation of the swap, if and only if it is not the case that its metadata could not be read and the rename over it worked; success puts the staged binary at the target |
| Installer.Disk.Rollback | internal/installer/installer.go:356-372 | the retained binary is never lost; a rejected binary at the target is replaced by it exactly when it could be seen and one of the two ways to rename it worked; a failure is reported exactly when it was seen and neither did |
| Installer.Disk.Publish | internal/installer/installer.go:271-328 | success leaves the staged binary at the target; with any operation failing, exactly when it installs, exactly when the old binary is kept after every operation, and exactly when a publish that did not install leaves it at the target |
| Installer.Disk.Install | internal/installer/installer.go:205-246 | an archive of the manifest's digest is published; without one nothing is touched, and success leaves the binary of such an archive at the target |
| PublishLaws.SwapKeeps | internal/installer/installer.go:335-350 | the old bytes are at the target or beside it after every operation of the swap, if and only if the target's metadata was not misread before a working rename |
| PublishLaws.RollbackKeeps | internal/installer/installer.go:356-372 | a rollback never loses the retained bytes, whichever of its operations fail |
| PublishLaws.OldBytesKept | internal/installer/installer.go:270-328 | after every operation of a publish until the pin is reported the old bytes are at the target or beside it, if and only if it is not the case that the target's metadata could not be read and the rename over it worked; success leaves the staged bytes at the target |
| PublishLaws.FailedRenameStrands | internal/installer/installer.go:335-350 | a second rename that fails leaves the retained copy as the only one |
| PublishLaws.OnlyCopyKept | internal/installer/installer.go:271-350 | with no target, a retry keeps that copy exactly when its candidate is not accepted or the copy cannot be removed |
| PublishLaws.RejectedEarly | internal/installer/installer.go:276-295 | a candidate that is not accepted never reaches the target |
| PublishLaws.FailureRestores | internal/installer/installer.go:288-323 | whichever operations fail, a publish that did not install leaves the old binary at the target in exactly the cases listed by operation; in particular a rejected binary stays there although the rollback reported nothing if and only if the retained file could not be seen or had not been retained |
| PublishLaws.SuccessPublishes | internal/installer/installer.go:271-328 | a publish that installed leaves the staged binary at the target |
| PublishLaws.InstalledExactly | internal/installer/installer.go:271-328 | for any failing operations, exactly when a publish installs, is refused or is rejected: the candidate is accepted, the swap goes through, the published binary reports the pin |
| PublishLaws.NothingFailsInstalls | internal/installer/installer.go:271-328 | with nothing failing and both probes reporting the pin the new binary is installed and nothing is left beside it |
| PublishLaws.RollbackExact | internal/installer/installer.go:356-372 | exactly when a rollback leaves the retained binary at the target and exactly when it reports no failure; when the retained file cannot be seen it changes nothing and reports nothing |
| PublishLaws.RejectedCanStay | internal/installer/installer.go:352-359 | a concrete host on which every rename works and only the rollback's look at the retained file fails: the rejected binary stays and no failure is reported |
| PublishLaws.OldBytesCanBeLost | internal/installer/installer.go:339-346 | a concrete host and target whose old bytes are gone after an install that failed |
| PublishLaws.InstallIsGated | internal/installer/installer.go:232-246 | an archive with the digest asked for is published, any other changes nothing, and success, on a first install too, means the binary of such an archive |
| TraceLog.Log.Rotate | internal/trace/trace.go:97-107 | the descending renames move every file up by one and drop the last |
| TraceLog.Log.Append | internal/trace/trace.go:67-79 | the record is the last of the live log, after a rotation when the log was over its limit |
| TraceLog.RotationDrops | internal/trace/trace.go:97-107 | a rotation drops the records of the last backup and no others |
| TraceLog.RunIsSuffix | internal/trace/trace.go:67-107 | for any number of backups, oldest backup to live log is a contiguous suffix of all the records appended; the newest record is always in the live log, and once something was dropped every backup is there and over the limit |
| TraceLog.SizeIs | internal/trace/trace.go:97-101 | the size that is compared with the limit is the number of bytes in the file |
| TraceLog.SizesAreBounded | internal/trace/trace.go:67-107 | after any run every file would be within the limit without its newest record: a rotation never comes late |
| Fusion.ScoreMap | internal/memory/embed.go:140-150 | every listed id and only those, each with the sum of its weights over all lists |
| Fusion.Fuse | internal/memory/embed.go:120-138 | the first ids of the ranking by score and then by id, whatever order the map is iterated in |
| Fusion.RankingUnique | internal/memory/embed.go:128-133 | there is only one such ranking |
| Fusion.RankingIs | internal/memory/embed.go:128-133 | in it scores never rise, and where they are equal the ids stand in byte order |
| Fusion.WeightIs | internal/memory/embed.go:140-150 | the first place weighs 1/61, the next 1/62, and so on |
| Fusion.ScoresAdd | internal/memory/embed.go:140-150 | the scores of lists add up, in whatever groups they are taken |
| Fusion.PlacesAdd | internal/memory/embed.go:140-150 | one more place in a list adds its weight to the id that stands there and to no other |
| Fusion.DominatedScoresLess | internal/memory/embed.go:140-150 | an id that stands before another wherever the other stands scores more |
| Fusion.DominantRanksFirst | internal/memory/embed.go:120-138 | an id that stands before another in every list that holds the other, those lists being free of duplicates, is ranked above it |
| Fusion.DominantMakesTheCut | internal/memory/embed.go:134-136 | and makes the cut whenever the other does |
| Fleet.DistinctFiles | internal/mcp/zoekt.go:217-225 | the number of runs of adjacent matches in one file |
| Fleet.RunsAreFiles | internal/mcp/zoekt.go:214-217 | when the matches of a file stand together, that is the number of files |
| Fleet.QueryFleet | internal/mcp/zoekt.go:93-139 | which members are searched with which limit, and the whole accounting of it |
| Fleet.LimitIsKept | internal/mcp/zoekt.go:85-119 | a positive limit is never exceeded by the matches shown, no member is searched without a positive remainder, remainder and shown always add up to the limit, and a walk that stops early, which is what `limitReached` says, has shown exactly the limit |
| Fleet.AccountIsExact | internal/mcp/zoekt.go:93-139 | each search is of its member with the remainder it got, and the numbers of the answer are theirs: matches shown, totals, files, and truncated exactly when a search had more or, under a limit, there are more matches than were shown |
| Fleet.NoMemberLost | internal/mcp/zoekt.go:96-112 | every member is, in order and once, searched, skipped with the reason its search failed for, or in the tail not searched |
| Ignore.ParseIgnores | internal/zoekttext/zoekttext.go:151-173 | the rules of the lines, none with an empty pattern |
| Ignore.RuleRoundTrip | internal/zoekttext/zoekttext.go:125-173 | the line written for a rule reads back as that rule |
| Ignore.RuleIsWritten | internal/zoekttext/zoekttext.go:151-173 | a line that gives a rule is, but for surrounding white space, the line written for that rule |
| Ignore.NoRuleIs | internal/zoekttext/zoekttext.go:151-173 | the lines that give no rule: blank ones, comments, and slashes alone |
| Ignore.MatchIsComponents | internal/zoekttext/zoekttext.go:132-143 | an anchored rule matches exactly when its components are a prefix of the path's, any other exactly when they stand in it without gaps; a directory rule matches only directories |
| Ignore.AnyMatchesIsCovers | internal/zoekttext/zoekttext.go:132-182 | on a path made of names, the string tests of all rules hold exactly when the components of some rule are a prefix of the names, or stand in them without gaps |
| Ignore.MatchCoversBelow | internal/zoekttext/zoekttext.go:125-143 | a rule that is not for directories only and matches a directory matches everything below it |
| DirWalk.Builder.Visit | internal/zoekttext/zoekttext.go:212-266 | what one file or directory adds to the index |
| DirWalk.Builder.IndexDir | internal/zoekttext/zoekttext.go:189-274 | what a directory tree adds to the index |
| DirWalk.WalkReaches | internal/zoekttext/zoekttext.go:212-266 | the index holds exactly the regular files that no rule matches and that lie below no pruned directory, without content when too large |
| DirWalk.WalkIsExact | internal/zoekttext/zoekttext.go:212-266 | the same in terms of names: the index holds exactly the regular files that no rule covers and that lie below no directory which is skipped by its name or covered by a rule |
| DirWalk.IndexedOnce | internal/zoekttext/zoekttext.go:212-266 | no file is indexed twice |
| DirWalk.IndexedInOrder | internal/zoekttext/zoekttext.go:212-266 | the files stand in the index directory by directory in byte order of the names |

## Left out

- Trimmer.Payload: the decoded tree is a value held in a field and replaced at each store; two parts of the tree sharing one Go map or slice is not captured (decoding never makes such sharing).
- Evidence.LooksEmptyData: counter keys are matched with ASCII case folding; the two non-ASCII letters that fold to `s` and `k` are not.
- Resident: the text of replies, status requests, the socket, connection deadlines and process exit; a step is one critical section or one awaited event, and time is the number of steps.
- Child.Child.Call: the write of a request succeeds or fails as a whole, and the engine's output is a given text rather than something that depends on the requests.
- Ledger.Ledger.Append: timestamps are parameters; two processes appending at once are not modelled, and neither is an append after a torn line, which joins onto that line.
- NoteStore.Notes.Approve: leftover temporary files of a failed write, and directory creation, are not modelled.
- NoteStore.Notes.SaveToReview: the write of the queue line completes; secret detection, ids and times are parameters.
- NoteStore.Notes.Reindex: the full-text table that mirrors the rows is left out; row order is the order of directory and file names.
- NoteSync.RunKeepsSync: captured texts do not end in a line end, ids are new, file names do not clash and no project is named `.` or `..`; `NoteSync.ApproveSyncs` shows what happens without these conditions.
- NoteSync.ApproveSyncs: a queue line whose project holds a path separator, which no capture writes, counts as a directory that no walk lists; names that clean to another directory are not resolved.
- Names.FileName: lower-casing is ASCII only.
- Installer.Disk.Publish: whether renames replace existing files, what a binary reports and what an archive holds are parameters; archive extraction and downloading are not modelled.
- Fusion.Fuse: exact arithmetic in place of floating point, and a limit that is not negative.
- Fleet.QueryFleet: the search itself, the rendered text of the matches and the wording of the completeness line.
- DirWalk.Builder.IndexDir: cancellation, and the index builder behind the list of documents.
- TraceLog.Log.Append: renames and writes of files that are there succeed; redaction and failed writes are left out.
- JSON numbers keep their literal text instead of becoming 64-bit floats; member names are matched exactly, not case-insensitively; nesting depth is unlimited; bytes that are not UTF-8 are passed through.
- A struct member given twice keeps its last value also when the last one is null.
- Searching notes, pruning ledgers, freshness bookkeeping, configuration, command wiring and message wording: many branches, little state.
