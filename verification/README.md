# Proofs about agentmemory

agentmemory keeps what an agent remembers between sessions: named entries in scopes, a
journal of every change to them, and a block of text that shows them to a model.  This
project models the parts of it where one wrong step loses a write, and proves what they
promise, for every input and every run.

| file | what it models |
|---|---|
| `Lock.dfy`, `LockSteps.dfy`, `LockRuns.dfy`, `LockStuck.dfy` | the store's lock file, with takeover from a dead holder, as an interleaved protocol in which a process may die between any two file operations |
| `Journal.dfy` | the journal file: appends, appends cut off, the forward scan and the backward chunked read |
| `Cursor.dfy` | the cursor kept beside the journal, which must always equal a whole replay |
| `FileStore.dfy` | writes, forgets and reconciling over files a person may edit in any way |
| `System.dfy` | lock, journal and cursor together: any number of writers, deaths, torn appends and hand edits |
| `Doubling.dfy` | what giving a number twice does to the chain and to the audit, and a run that does it |
| `LostUpdates.dfy` | the one-pass audit of a journal for forks and broken chains |
| `Memory.dfy`, `MemStore.dfy` | names, metadata, the conditions of a write, and the in-memory store |
| `Patch.dfy`, `FilePatch.dfy` | memory_patch and memory_insert among other sessions' calls, and memory_patch over files people edit |
| `Frontmatter.dfy` | the entry file's printer and parser |
| `Manifest.dfy`, `ManifestFold.dfy` | the manifest delta codec, a manifest's identity, and the bounded fold of a session's records |
| `Markdown.dfy`, `Neutralise.dfy`, `Content.dfy` | making an entry's Markdown harmless (sections 4.2, 4.3, 4.5 and 4.6 of CommonMark 0.31.2) |
| `Shapes.dfy`, `ContentShapes.dfy` | the same spelt out in characters: what a heading, an underline, a fence and a lead are, and which lines become what |
| `Packing.dfy`, `Render.dfy`, `Block.dfy` | the byte-budget packer and the summary line that states the block's own size |
| `BlockText.dfy` | the block in characters: every part, its place, and which entries are in it |
| `Text.dfy`, `Common.dfy` | decimal numbers, byte order, white space, searching; options and results |

`dafny verify dfyconfig.toml` checks all of it.

## How it is modelled

Strings are sequences of `char`, one per byte.  Code that changes things step by step is a
class or a method with loops, proved against a function; what the source promises is then
proved about that function.  The lock and the whole system are transition systems whose
steps are single file operations.  What such a function computes is also said in other
terms than its own: in characters, in the values of numerals, in places of a list.

What the model takes as given is passed in as function values and named in predicates:

- `Memory.Sound`: the content digest has no collisions and is never empty.
- `Journal.Faithful`: digests and the store's own constants are valid UTF-8; a record whose
  hashes and source are has a JSON line that holds no newline and reads back (its entry,
  base and session exactly, where they are valid UTF-8 too); a strict prefix of it is not a
  record; and
  whatever reads as a record is valid UTF-8 and passes the checks of `decodeRecord`.
- `Manifests.Carries`: the one manifest record in question reads back from its JSON.
- `Frontmatter.Exact`: the one time in question reads back from its written form, which is
  a single trimmed line.
- In `Lock`, in the steps themselves: no identity is written twice, a dead process never
  runs again, and nobody calls BreakLock.  The claim name's digest may collide.

Where a property one would expect is false of the code, the code is kept, an input that shows it
is given, and the exact condition is proved:

- An append cut off so that only its final newline is lost leaves a line that the cursor
  and `lastSeq` ignore and that the next append turns into a record, so a number repeats
  (`Journal.LostNewlineRepeats`).  `Journal.AppendIncreasing` and `Cursor.AppendAgrees`
  give the condition for one append.  Over runs with cuts of every kind,
  `System.OrderIffUndoubled` has it both ways: the order holds if and only if no step ends
  such a line and appends after it, or ends one whose number is used already; a run
  without that one cut has no such step (`System.OnlyLostNewlinesDouble`).
  `Doubling.DoubledRunAudit` says exactly when the audit then reports a break, and
  `Doubling.DoublingIsReached` gives the run from the empty directory.
- `strings.Count` does not count overlapping occurrences, so memory_patch accepts some text
  that occurs twice (`Patch.OverlapCountsOnce`); `Patch.CountsOnce` says exactly which.
- A delta that writes an entry without a scope or a name is refused by its reader
  (`Manifests.NamelessIsRefused`); `Manifests.ListRoundTrip` has the condition both ways.
- A shown entry's reason is not part of a manifest's identity
  (`ManifestFold.ShownReasonIsNotDigested`); `ManifestFold.DigestTextInjective` says exactly
  what is.
- Not every lock left by a dead process is taken over.  `LockStuck.StuckExactly`: in every
  state of every run, nothing ever changes what the lock path names if and only if no live
  writer made the lock and its file is blank, or names no host or no process, or names a
  holder whose claim exists while no live writer is working under that claim.  The comment
  on `takeover` names one way there, a taker that dies (`LockStuck.DeadTakerIsReached`);
  there are also a writer that dies before it has written its identity
  (`LockStuck.BlankIsReached`), one that lives but can neither write it nor remove the lock
  again (`LockStuck.FailedUndoIsReached`), a host without a name
  (`LockStuck.NamelessHostIsReached`) and a taker that lives but fails to remove the lock
  and then its claim (`LockStuck.FailedTakerIsReached`).
- Packing in less room does not only leave more out, as the comment at render.go:816-819
  says: an entry that fits only the larger room can keep out two that the smaller room holds
  (`Render.TighterMayShowMore`).  `Render.LeavesMoreExactly`: it does only leave more out if
  and only if the two passes agree from the place on, if there is one, where the pass with
  more room has less left.  The pass with more room takes the first entry on which the two
  differ (`Render.LooserTakesFirst`); when that entry costs more than the room held back,
  it is that place, and the passes must differ nowhere else
  (`Render.FirstDifferenceDecides`).  The second pass never takes everything when the first
  did not (`Render.TighterNeverTakesAll`), which is what the code needs.

The comment in `Reconcile` (filestore/filestore.go:530-533) reads as if a run that only
caught up with the journal saves the cursor; the code compares with the state after
loading, so it does not, and `FileStore.Store.Reconcile` follows the code.

## Model

| member | source | states |
|---|---|---|
| `LockSteps.InvStep` | filestore/lock.go:70-209 | every single file operation of any writer, and every start or death of a process, keeps the invariant on files, owners, takers and pairs of writers |
| `LockRuns.InvRun` | filestore/lock.go:70-209 | so every state of every run from the empty directory satisfies it |
| `LockRuns.MutualExclusion` | filestore/lock.go:70-136 | in every state of every run at most one live writer stands between a successful create and its release, and the lock path names the file it created |
| `LockRuns.RemovesOnlyItsOwn` | filestore/lock.go:161-209 | in every run the lock path is removed only by a takeover while it still names the dead holder inspected and no live writer made it, or by the writer that made it |
| `LockSteps.ReleaseChecks` | filestore/lock.go:197-209 | in any state at all, a release goes on to remove the lock if and only if the lock it read names its own holder |
| `LockSteps.NotStale` | filestore/lock.go:231-237 | a live holder is never judged stale, on whatever host it is asked |
| `LockRuns.TakeoverCompletes` | filestore/lock.go:161-195 | a live writer that finds a stale unclaimed lock and is left alone removes it, drops its claim and creates its own lock |
| `LockStuck.StuckForever` | filestore/lock.go:158-195 | from a stuck lock on, every run keeps the lock and its file, and no live writer ever holds the store |
| `LockStuck.Unstuck` | filestore/lock.go:70-209 | from every other state with a lock some steps remove it: the owner lets go, a claimant finishes, or a new process takes it over |
| `LockStuck.StuckExactly` | filestore/lock.go:70-209 | in every state of every run with a lock, no steps ever change what the lock path names if and only if it is stuck: no live maker, and blank, or nameless, or claimed with nobody alive under that claim |
| `LockStuck.DeadTakerIsStuck` | filestore/lock.go:158-161 | in every reachable state a taker that died with its claim in place leaves the holder's lock stuck |
| `LockStuck.DeadTakerIsReached` | filestore/lock.go:158-195 | such a state is reached from the empty directory, by an explicit list of steps |
| `LockStuck.FailedTakerIsReached` | filestore/lock.go:189-194 | a taker that lives, and whose removals of the lock and of its claim fail, leaves a stuck lock, reached from the empty directory |
| `LockStuck.BlankIsReached` | filestore/lock.go:117-136 | a writer that dies between creating the lock and writing its identity leaves a stuck lock |
| `LockStuck.FailedUndoIsReached` | filestore/lock.go:127-134 | a writer that fails to write its identity and then to remove the lock leaves a stuck lock, and lives |
| `LockStuck.NamelessHostIsReached` | filestore/lock.go:227-237 | a holder that could not tell its host leaves a stuck lock when it dies |
| `System.InvStep` | filestore/state.go:194-219 | every step of the composed system that gives no number twice keeps the journal in order, the saved cursor one of this journal, and the cursor of the writer in charge equal to a whole replay; the records grow by one at most |
| `System.InvRun` | filestore/state.go:194-219 | and so in every state of every run up to the first step that does |
| `System.OneInCharge` | filestore/lock.go:57-113 | no two live writers are in charge at once |
| `System.DoubleBreaks` | filestore/journal.go:23-60 | a step that ends a cut-off record and appends after it, or ends one whose number is used, leaves the records out of order |
| `System.OrderIffUndoubled` | filestore/state.go:181-219 | over all multi-writer runs with deaths and appends cut after any byte: the records of every state are numbered in increasing order if and only if no step gives a number twice |
| `System.OnlyLostNewlinesDouble` | filestore/journal.go:32-40 | a run in which no append loses exactly its final newline has no such step |
| `System.JournalStaysInOrder` | filestore/state.go:181-219 | up to the first such step, readable records are numbered in increasing order, each names the last live state before it as what it replaced, and the audit from 0 reports no break, whatever hand edits, deaths and cuts there were |
| `System.RecordsOnlyGrow` | filestore/journal.go:23-60 | what a reader could read at one moment of a run is a prefix of what it can read at any later one |
| `System.ReaderResumes` | filestore/journal.go:201-211 | a reader that stops after any record at any moment and resumes at any later one with the last number it saw gets exactly the rest: no repeat and no gap |
| `System.ReadInsideAppend` | filestore/journal.go:23-60 | a reader without the lock that comes after any byte of an append under way finds the records before it (those after it, when the append ends a cut-off record), and resuming later gets each record once |
| `System.CursorAgrees` | filestore/state.go:97-165 | in every run the cursor of a writer in charge, and the one loaded from disk, equal a replay from byte 0 |
| `System.DirectoryIsValid` | filestore/filestore.go:249-401 | at every moment of a run at which no cut-off record dangles, and for any files, the directory is valid, so what is proved of whole writes, forgets and reconciling holds inside runs |
| `System.ConditionalWriteForksNothing` | filestore/filestore.go:249-324 | in a run, a writer that notes the file it found and later writes over it under a condition the file passed, or under none, appends a record with Prev equal to Replaced |
| `System.SettledWriteForksNothing` | filestore/filestore.go:249-324 | and so one whose cursor needed no note of the file |
| `Doubling.DoubledRunAudit` | lostupdate.go:61-111 | after the first step of a run that gives a number twice, the audit reports a break if and only if the cut-off record left its entry's chain, or it changed the state of the very entry the new record is for |
| `Doubling.DoublingIsReached` | filestore/state.go:181-219 | a run from the empty directory in which two writes share a number: the first loses its last newline alone; the audit reports a break if and only if both are of one entry |
| `Journal.AppendRecords` | filestore/journal.go:23-60 | a whole append adds its own record, and makes a record of a cut-off line it ends exactly when that line reads as one |
| `Journal.TornRecords` | filestore/journal.go:23-60 | an append cut off after any byte adds no record of its own; what it leaves reads as a record only if the cut lost the newline alone |
| `Journal.AppendIncreasing` | filestore/journal.go:23-60 | an append numbered one past the last record keeps the numbers increasing if and only if the cut-off line it ends is not itself a record |
| `Journal.LostNewlineRepeats` | filestore/journal.go:32-40 | the hypothesis is needed: after a cut that loses only the newline the next write repeats a number |
| `Journal.ScanJournal` | filestore/journal.go:221-276 | the forward scan from any offset yields exactly the records and damaged lines of the complete lines after it, and the offset past the last complete line |
| `Journal.ItemsDamage` | filestore/journal.go:214-260 | a scan yields the records and one error for each line that is neither blank nor a record |
| `Journal.TailLines` | filestore/journal.go:125-172 | for every file and every first chunk size, the backward read calls `fn` with exactly the complete lines in reverse order, up to the one it stops at |
| `Journal.ReadChunk` | filestore/journal.go:134-153 | putting the next chunk in front of the buffer keeps it the bytes of the file and finds the last newline of the file |
| `Journal.YieldChunk` | filestore/journal.go:154-169 | yields the lines that start in the bytes read so far and keeps the rest |
| `Journal.LastSeq` | filestore/journal.go:96-118 | the number found from the tail is that of the last record a forward scan finds |
| `Journal.LinesFrom` | filestore/journal.go:221-238 | reading on from the start of a line reads exactly the remaining lines |
| `Cursor.LoadCatchesUp` | filestore/state.go:97-145 | loading a cursor saved against a journal and catching up with any journal that extends it gives the number, offset, head and entries of a rebuild from byte 0 |
| `Cursor.LoadWithoutCursor` | filestore/state.go:97-145 | a missing or unreadable cursor gives the rebuild |
| `Cursor.HeadStable` | filestore/journal.go:67-81 | once the journal has a complete line its head no longer changes as it grows |
| `Cursor.HeadIs` | filestore/journal.go:62-87 | the head is the file up to and with its first newline, or 64 KiB of it |
| `Cursor.OtherJournalRebuilds` | filestore/state.go:97-145 | a cursor saved against a journal whose first line differs within 64 KiB, or past the end of this one, is not taken up: the journal is read whole |
| `Cursor.AppendAgrees` | filestore/state.go:194-219 | an append keeps an agreeing cursor in agreement, ending a partial line as it goes, if and only if that line is no record or one that changes nothing the cursor would hold |
| `Cursor.AppendKeeps` | filestore/state.go:194-219 | an append to a journal in order leaves it in order, with the cursor agreeing and the record readable |
| `Cursor.ReplayLast` | filestore/state.go:64-87 | the replayed entries are exactly the live ends of the chains of records |
| `Cursor.JournalState.Note` | filestore/state.go:64-71 | the entries afterwards are those of the replay with one more record |
| `Cursor.JournalState.NoteAll` | filestore/state.go:127-143 | and with any number of them |
| `Cursor.JournalState.Append` | filestore/state.go:181-219 | the journal, the record and every field of the cursor after an append |
| `Cursor.RebuildState` | filestore/state.go:147-165 | the state built by scanning from byte 0 is the whole replay |
| `Cursor.LoadState` | filestore/state.go:97-145 | the state loaded is the specification of loading, and `read` says whether the saved cursor was resumed |
| `FileStore.BuildChains` | filestore/state.go:232-270 | every record a store builds, of a note, a write or a forget over whatever file it read, names the last live state the readable records hold |
| `FileStore.NoteLands` | filestore/filestore.go:329-336 | noting a file appends exactly one record when one is needed and none otherwise: the file's content and metadata, or, of a file that is gone, the last record's entry with deleted set; then the cursor holds the file's state |
| `FileStore.IntentAppends` | filestore/state.go:194-270 | whatever a store is about to append, the journal stays in order, the cursor agrees, and the saved cursor loads as the rebuild |
| `FileStore.PutLands` | filestore/filestore.go:249-324 | a completed write: file and journal agree, the file found is journaled just before the write's own record when it could be and was not, the record names that state as replaced; it names as its base the condition, else the base given, or the state replaced where that base is the file found, else the state replaced; it forks if and only if a base was given that is neither |
| `FileStore.PutKeepsValid` | filestore/filestore.go:249-324 | a refused write changes nothing and a completed one leaves the directory valid |
| `FileStore.ForkIsReported` | lostupdate.go:61-111 | a write built on a state that is neither the one it replaced nor the file it found is reported by the audit of the journal, with that base |
| `FileStore.NeedsNoteIs` | filestore/state.go:226-260 | a note is needed if and only if a storable file has another content hash or metadata hash than the last record, or the file of a live entry is gone |
| `FileStore.PutRefuses` | filestore/filestore.go:249-290 | what a write is refused for, and in which order |
| `FileStore.ForgetRefuses` | filestore/filestore.go:341-360 | what a forget is refused for |
| `FileStore.ForgetLands` | filestore/filestore.go:341-401 | a completed forget: the file is gone, its state is journaled just before the tombstone, which keeps that state's content; of a file that cannot be journaled it keeps the last live record's entry, where that is another |
| `FileStore.ForgetKeepsValid` | filestore/filestore.go:341-401 | a refused forget changes nothing and a completed one leaves the directory valid |
| `FileStore.PassSettles` | filestore/filestore.go:507-528 | one pass over distinct keys, in any order, appends one note for each key that needs one, that file or the last record marked deleted, and nothing else |
| `FileStore.PassIsComplete` | filestore/filestore.go:471-545 | after a pass over all keys every storable file is the journal's last state, every live journaled name has a file, and a second pass appends nothing |
| `FileStore.ReconcileKeepsValid` | filestore/filestore.go:471-545 | reconciling keeps the directory valid whether or not the cursor is written back |
| `FileStore.Store.LastRecordFor` | filestore/state.go:276-291 | the scan returns the last readable record of the entry |
| `FileStore.Store.Outside` | filestore/state.go:232-270 | the record of an outside edit, or none, for every cursor and file |
| `FileStore.Store.NoteFound` | filestore/filestore.go:329-336 | journal and cursor after noting a file |
| `FileStore.Store.Write` | filestore/filestore.go:283-322 | file, note, record and cursor of a write nothing refused |
| `FileStore.Store.Put` | filestore/filestore.go:249-324 | the whole directory after a write, and its result, in every case |
| `FileStore.Store.Forget` | filestore/filestore.go:341-401 | the whole directory after a forget, and its result, in every case |
| `FileStore.SortKeys` | filestore/filestore.go:496-506 | every key of the files and the cursor once, in the byte order of their texts |
| `FileStore.Store.NoteAll` | filestore/filestore.go:508-528 | the loop of the pass |
| `FileStore.Store.Reconcile` | filestore/filestore.go:471-545 | the journal, the changes and the cursor after a pass over the keys of the files and of the cursor in the byte order of their texts; the files are untouched |
| `LostUpdates.Audit` | lostupdate.go:61-111 | the one-pass loop reports exactly the declarative verdicts (fork, break against the previous record of the name, break after damage) in order |
| `LostUpdates.VerdictIs` | lostupdate.go:79-101 | the verdict on a record from the record of its entry just before it: the live hash there, a break if that is not what was replaced, after damage if a damaged line lies between; without one, from nothing live if the journal's start is there, else a fork alone |
| `LostUpdates.HoldsStartIs` | lostupdate.go:68-85 | the start is there if and only if the read is from 0 and the first record follows the damaged lines before it |
| `LostUpdates.ReportInOrder` | lostupdate.go:75-109 | the verdicts come in the order of the records |
| `LostUpdates.ChainedNoBreak` | lostupdate.go:61-111 | a journal whose records continue their chains reports forks alone, whatever the damage |
| `LostUpdates.BreakIffUnchained` | lostupdate.go:61-111 | of a journal whose start is there, a break is reported if and only if some record does not name the last live state before it |
| `LostUpdates.AnchoredIsClean` | lostupdate.go:42-48 | when besides every write was built on what it replaced, nothing is reported |
| `LostUpdates.LaterForks` | lostupdate.go:50-55 | reading from a later cursor reports every fork past it |
| `LostUpdates.LaterBreaks` | lostupdate.go:50-55 | and every break it reports is one the whole read reports, in the same words |
| `Memory.CheckName` | memory.go:420-436 | the one-pass check accepts exactly kebab-case names of 1 to 64 bytes |
| `Memory.KeyTextInjective` | memory.go:420-436 | "scope/name" stands for one key only |
| `Memory.RunCheckEntry` | memory.go:475-518 | the check of an entry, in whatever order its metadata is visited |
| `Memory.ComputeMetaHash` | memory.go:253-270 | the metadata digest is that of the sorted lines |
| `Text.BelowIs` | memory.go:253-270 | the order of the keys: a prefix first, else by the first byte that differs |
| `Memory.MetaHashInjective` | memory.go:253-270 | two valid sets of metadata with one hash are one set |
| `Memory.CheckExactly` | memory.go:303-323 | a write passes if and only if the hashes are the ones it was told to expect, so one without conditions always; a conflict names both, the content's first |
| `Memory.ResumeGivesTheRest` | filestore/journal.go:201-211 | with increasing numbers, resuming after any prefix gives exactly the rest |
| `MemStore.DoKeeps` | memstore.go:92-154 | every call keeps the live map the replay of the journal, the numbers dense and the chain whole; a refused call changes nothing |
| `MemStore.RunKeeps` | memstore.go:92-154 | in every run the live map is exactly the replay of the journal |
| `MemStore.RunNeverBreaks` | memstore.go:92-154 | and the audit of its journal never reports a break |
| `MemStore.PutLands` | memstore.go:92-121 | a completed write: entry, number, session, what it replaced, and its base by condition, given base or found state; it forks if and only if it has no condition and gives another base |
| `MemStore.ForgetLands` | memstore.go:124-139 | a completed forget: the entry as it was with deleted set, built on and replacing its last state |
| `MemStore.Refuses` | memstore.go:92-139 | what a write and a forget are refused for, and in which order |
| `MemStore.ForkIsReported` | lostupdate.go:61-111 | every write that forks is reported by the audit, and as no break |
| `MemStore.Store.Get` | memstore.go:58-70 | the live entry, or why there is none |
| `MemStore.Store.Append` | memstore.go:142-154 | one record at the end of the journal, numbered by its place |
| `MemStore.Store.Put` | memstore.go:92-121 | state and result of a write, refusals and conflicts included |
| `MemStore.Store.Forget` | memstore.go:124-139 | state and result of a forget |
| `MemStore.Store.Journal` | memstore.go:186-201 | slicing the journal at the cursor gives exactly the records numbered after it |
| `Patch.CountsOnce` | tools.go:905-912 | the count is one exactly when nothing occurs past the end of the first occurrence |
| `Patch.OverlapCountsOnce` | tools.go:905-912 | so text that overlaps itself passes for text that appears once |
| `Patch.PatchAloneKeeps` | tools.go:892-933 | a successful edit has Prev equal to Replaced, the metadata it landed on, and, where the content it landed on is p + old + q with no earlier old, the content p + new + q |
| `Patch.ReplaceIs` | tools.go:916 | the first occurrence, and nothing else, is replaced |
| `Patch.PatchAloneRefuses` | tools.go:892-912 | what an edit is refused for: no text, no entry, text that does not occur, text that occurs again |
| `Patch.SameEntry` | memory.go:303-323 | an entry with the hash and metadata hash it was read with is the entry that was read |
| `Patch.PatchIsAtomic` | tools.go:892-933 | an edit read at one moment and written at any later one, whatever calls came between, is the edit made on the spot where it landed |
| `Patch.PatchesCompose` | tools.go:892-933 | a patch that lands after another, however early it read, makes its replacement in the text the other left |
| `Patch.PatchEntry` | tools.go:892-933 | memory_patch with other sessions interleaving any calls: a success is the edit made alone at one moment between them, putting the new text in place of the old in what the store then held; a failure writes nothing, and gives up after four conflicts alone |
| `Patch.InsertNamesDiffer` | tools.go:243-249 | the names tried for one content and second are all different |
| `Patch.InsertEntry` | tools.go:954-973 | memory_insert: a success creates an entry where none was live, under the name of its attempt, and replaces nothing; a failure writes nothing, and gives up after 100 names alone |
| `FilePatch.SameFile` | memory.go:303-323 | a file with the content hash and metadata hash another was read with is that file, for any two files read from bytes |
| `FilePatch.PatchIsAtomicOnFiles` | tools.go:892-933 | over the directory, with arbitrary hand edits between the read and the write: a write that succeeds lands on the file that was read and is the edit made on the spot, with Prev equal to Replaced, the new text in place of the old in that file and its metadata kept |
| `Frontmatter.EncodeFile` | filestore/frontmatter.go:32-58 | the printer writes the delimiters, the fields in key order and the content as it is |
| `Frontmatter.EncodeReads` | filestore/frontmatter.go:32-58 | the file begins "---", name and updated lines, then the fields in byte order of their keys, "---" and the content |
| `Frontmatter.DecodeFile` | filestore/frontmatter.go:71-115 | the parser, on every input, files without a block and unclosed blocks included |
| `Frontmatter.OpensWhereWritten` | filestore/frontmatter.go:76-91 | the first closing delimiter found is the one written, whatever the content holds |
| `Frontmatter.RoundTrip` | filestore/frontmatter.go:32-115 | a file reads back as written: content to the byte, every field and the time |
| `Frontmatter.AcceptedRoundTrip` | filestore/frontmatter.go:32-115 | and so for every entry `CheckEntry` accepts, even one whose content looks like a file |
| `Frontmatter.DecodedIsWritable` | filestore/frontmatter.go:66-115 | whatever bytes a file holds, what is read is the end of the file and fields the store can write |
| `Frontmatter.DecodeWhole` | filestore/frontmatter.go:71-91 | a file that does not begin with "---" or has no closing line is all content, and has no fields |
| `Frontmatter.DecodeParts` | filestore/frontmatter.go:76-92 | any other is cut at its first closing line, whatever follows |
| `Frontmatter.DecodeEmptyBlock` | filestore/frontmatter.go:78-80 | a block of no lines has no fields |
| `Frontmatter.SplitIs` | filestore/frontmatter.go:93 | the lines of the block, with line ends between them, are the block |
| `Frontmatter.CutIs` | filestore/frontmatter.go:93-97 | a line is cut at its first ":" and both sides trimmed; one without ":" is no field |
| `Frontmatter.FieldIs` | filestore/frontmatter.go:92-115 | a key is read if and only if it is a valid name other than "name" and "updated", with the value of the last line that sets it |
| `Frontmatter.TimeIs` | filestore/frontmatter.go:99-103 | the time is that of the last "updated" line whose value is one |
| `Text.TrimIs` | filestore/frontmatter.go:96-97 | trimming takes off the white space characters at both ends, all of them and nothing else |
| `Text.IsSpaceIs` | filestore/frontmatter.go:96-97 | which code points those are, by their UTF-8 bytes |
| `Frontmatter.RewriteKeeps` | filestore/frontmatter.go:66-115 | and written back and read again it is the same |
| `Manifests.Index` | render.go:483-493 | the map of places, and whether no entry is named twice |
| `Manifests.Diff` | render.go:500-531 | the delta the cursor-and-run loop writes, or that a list names an entry twice |
| `Manifests.Apply` | render.go:534-564 | what folding any operations gives, every refusal with its place |
| `Manifests.DiffApplies` | render.go:500-564 | read with the cursor it was written with, a delta gives the run and the rest of the list, also where the cursor moves backwards, or is refused for a nameless entry and nothing else |
| `Manifests.ListRoundTrip` | render.go:500-564 | applying the delta between two lists to the first gives the second if and only if the entries written whole have names, and so whenever all do |
| `Manifests.UnchangedIsOneKeep` | render.go:500-531 | what did not move is not written again: the delta of a list on itself is one keep |
| `Manifests.WritesMoved` | render.go:500-531 | a delta writes whole exactly the entries that changed or do not stand where the ones before them left off, in order |
| `Manifests.ReadsWellPlaced` | render.go:534-564 | a delta is read if and only if the list names no entry twice and every element is a named entry without a keep or a keep of entries that are there |
| `Manifests.NamelessIsRefused` | render.go:548-550 | an entry without a name is written and then refused |
| `ManifestFold.ComputeDigest` | render.go:191-203 | the text digested is the lines of shown and omitted entries and the mark of a block left out |
| `ManifestFold.LineReads` | render.go:191-203 | the lines digested, by their characters |
| `ManifestFold.DigestTextInjective` | render.go:191-203 | well-formed manifests digest the same text if and only if they show and omit the same, but for the reasons of shown entries |
| `ManifestFold.ShownReasonIsNotDigested` | render.go:191-203 | two manifests that differ in a shown entry's reason digest the same text |
| `ManifestFold.DigestInjective` | render.go:191-203 | so the hash tells apart well-formed manifests whose shown entries carry no reason |
| `ManifestFold.WriteRecordSince` | render.go:255-272 | the record is the delta where there can be one and it is smaller, else the whole |
| `ManifestFold.SinceIsShorter` | render.go:255-272 | the record is the shorter of the whole and the delta, the whole one of two as long |
| `ManifestFold.FoldDelta` | render.go:441-456 | folding a delta, its refusals and its hash check |
| `ManifestFold.SinceRoundTrip` | render.go:255-305 | a record written on a manifest and read on it gives back what was recorded, whole or delta, if and only if it writes no nameless entry |
| `ManifestFold.PushKeepsWindow` | render.go:403-414 | moving to the front and dropping the oldest keeps the window the 8 most recently in force distinct manifests of the history, read from its end |
| `ManifestFold.WindowOfEight` | render.go:403-414 | the window holds eight: of at most eight that differ all, the last first, and never more |
| `ManifestFold.Fold.Push` | render.go:403-414 | the fold holds that window, with its hashes, after every push |
| `ManifestFold.Fold.Read` | render.go:338-363 | a record is folded as the history says, and a refused one leaves the fold as it was |
| `ManifestFold.ReadAll` | render.go:318-363 | after any records the window is that of their history |
| `ManifestFold.Fold.Current` | render.go:367-373 | the manifest in force is the last of the history, the empty one before any |
| `ManifestFold.Fold.Record` | render.go:390-398 | the data is the smallest of the whole record and the deltas on the manifests held |
| `ManifestFold.SmallestLeast` | render.go:390-398 | no record on a manifest held, nor the whole one, is smaller |
| `ManifestFold.RecordIsRead` | render.go:376-398 | the record a fold writes is accepted by every fold of the same history and puts the manifest in force |
| `ManifestFold.FoldReadsMore` | render.go:293-363 | what a reader of the manifest in force alone accepts, the fold reads the same |
| `ManifestFold.DeltaIsChecked` | render.go:338-363 | a delta is folded only on a manifest of the window with its base hash, and gives the manifest of its own hash |
| `Markdown.ComputeLead` | render.go:1066-1092 | the lead of a line, with and without list markers |
| `Markdown.LeadInsert` | render.go:1066-1092 | a lead ends where it did whatever follows, so long as that does not carry it on |
| `Markdown.UnderlineChars` | render.go:1168-1174 | a setext underline holds nothing but quote characters, "=" and "-" |
| `Markdown.FindUnclosed` | render.go:1117-1136 | the line that opened the fence still open at the end, or -1 |
| `Markdown.OpenedByOpener` | render.go:1117-1159 | that line does open a fence |
| `Shapes.LeadIs` | render.go:1066-1092 | the lead is the longest prefix made of spaces, tabs, ">" and, where they count, list markers with the space or tab after them |
| `Shapes.TextLineIs` | render.go:1043 | a line counts as text if and only if it is neither blank nor, after its lead, one to six "#" and a space, a tab or the end |
| `Shapes.OpenerIs` | render.go:1149-1159 | a line opens a fence of n c if and only if it is at most three spaces, exactly n >= 3 of "`" or "~", and, for "`", no other after |
| `Shapes.CloserIs` | render.go:1162-1165 | a line closes it if and only if it is at most three spaces, c at least n times, and spaces and tabs |
| `Shapes.FenceAfterIs` | render.go:1117-1136 | the scan has a fence open if and only if a line opened it outside every fence and no line since closed it |
| `Shapes.RewrittenTurns` | render.go:1027-1044 | by characters: after any lead, one to three "#" before a space, a tab or the end become four; "<" gets a backslash; an underline below text gets one after its quote lead; every other line stays |
| `Shapes.HeadingBecomesFour` | render.go:1034-1035 | for every lead p, n from 1 to 3 and t empty or begun by a space or tab: p, n "#" and t become p + "####" + t |
| `Neutralise.RewrittenIsTame` | render.go:1027-1044 | one line rewritten is no heading of level one to three, no HTML and no underline after text; it is text if and only if it was; it is the line with one mark put in at most, and then opens no fence; a heading becomes level four |
| `Neutralise.EscapedIsCalm` | render.go:1045-1053 | a fence line escaped is harmless text that opens no fence |
| `Content.Split` | render.go:1099-1113 | the split at "\r\n", "\n" and lone "\r" |
| `Content.SplitJoins` | render.go:1099-1113 | splitting and joining give the text back |
| `Content.JoinSplits` | render.go:1054-1113 | lines as splitting leaves them come back from their text |
| `Content.SettledIs` | render.go:1045-1053 | the fence loop terminates with no fence open and escapes only lines that open one |
| `Content.NeutralText` | render.go:1027-1061 | for every content: re-split, the output has the same lines and line ends, no heading of level one to three, no HTML, no underline after text, no open fence, and each line is the input line with one run of "#" or one "\\" put in at most |
| `Content.NeutralTwice` | render.go:1019-1061 | neutralising twice is neutralising once, and it leaves alone exactly the content that is harmless already |
| `ContentShapes.SettledExactly` | render.go:1045-1053 | a line gets a backslash after its spaces if and only if it opens, outside a fence of the output, one that no later line closes |
| `ContentShapes.NeutralExactly` | render.go:996-1061 | the whole of it by characters, line for line: what each line becomes, and that the output, split again, has no heading of level one to three, HTML, underline below text or open fence |
| `ContentShapes.PlainIsKept` | render.go:1019-1061 | a content stays as it is if and only if it holds none of these shapes |
| `Content.FirstPassInPlace` | render.go:1028-1044 | the first pass over the lines in place |
| `Content.Settle` | render.go:1045-1053 | the fence loop over the lines in place |
| `Content.NeutraliseContent` | render.go:1027-1061 | the whole of it, as one function of the content |
| `Packing.RenderEntry` | render.go:981-994 | an entry's part: heading, description on one line, harmless content less one newline |
| `BlockText.EntryReads` | render.go:981-994 | the part is "### ", the name, the size and the limit as numerals of those values, the description with its line ends made spaces, a blank line, and the content less one newline, made harmless |
| `BlockText.RenderedAt` | render.go:781-789 | every entry listed is rendered by itself, in its place |
| `BlockText.RenderedListsAt` | render.go:781-789 | and every scope's list in its place |
| `Text.ItoaReads` | render.go:974-977 | a number is written in digits that have its value, with no leading zero |
| `Packing.ComputePack` | render.go:894-905 | the decisions and the bytes they take |
| `Packing.PackIsGreedy` | render.go:894-905 | each entry in order is taken if and only if it fits beside the ones taken before |
| `Packing.GreedyIsPack` | render.go:894-905 | and there is only one such choice |
| `Packing.PackWithin` | render.go:894-905 | the entries taken fit the room |
| `Packing.AllFit` | render.go:894-914 | all are taken if and only if together they fit |
| `Packing.ComputeReserve` | render.go:918-926 | the reserve for the omission line |
| `Packing.ComputeOmitLine` | render.go:935-964 | the names that fit, else the count, else nothing |
| `Packing.OmitLineFits` | render.go:935-964 | the line never takes more than the room left |
| `Packing.ReserveNamesOne` | render.go:918-964 | with the reserve for room the line names at least one entry |
| `BlockText.NamingReads` | render.go:928-964 | the line gives the names and sizes of the first entries left out, in order, and the number of the others |
| `BlockText.CountingReads` | render.go:951-956 | the count alone reads as the number of the entries left out |
| `BlockText.OmitLineExactly` | render.go:935-964 | it names as many as fit and not one more; else it gives the count if that fits, else nothing |
| `BlockText.ReserveIsWidest` | render.go:918-926 | the reserve is exactly the widest line with one name |
| `Render.JoinedLength` | render.go:692-698 | the length of the joined block is the first text and the costs of the rest |
| `Render.PickedSplit` | render.go:824-835 | every entry is shown or omitted, as often as it is listed |
| `Render.TighterNeverTakesAll` | render.go:816-823 | the pass in less room never takes everything when the pass in more room did not |
| `Render.LooserTakesFirst` | render.go:894-905 | at the first entry on which two passes differ, the one with more room takes it |
| `Render.LeavesMoreExactly` | render.go:816-823 | the pass in less room only leaves more out if and only if the passes agree from where the pass with more room has less left |
| `Render.FirstDifferenceDecides` | render.go:816-823 | the first entry on which they differ puts the larger room behind if and only if it costs more than the room held back; then they must differ nowhere else |
| `Render.TighterMayShowMore` | render.go:816-823 | less room may show more entries: for every x, y and rooms with 2y <= less < x <= room < x + y, the costs x, y, y |
| `Render.SectionAccounts` | render.go:824-835 | a scope's manifest lists name its entries, each as often as it is listed |
| `Render.SectionFits` | render.go:806-843 | a scope's parts cost what they are said to and no more than its room; nothing is omitted if and only if all its entries fit |
| `Render.OmissionIsNamed` | render.go:816-841 | when the reserve fits the room and something is left out, the scope's last part names at least one entry left out |
| `BlockText.OmissionReads` | render.go:816-841 | and that part reads as the names and sizes of the first ones left out |
| `Render.RenderScope` | render.go:806-843 | the section of a scope: parts, bytes, both manifest lists |
| `BlockText.SectionWithReads` | render.go:806-843 | heading, parts and manifest lines of a scope, each entry in its place by list order, with its name, hash and size |
| `BlockText.SectionLine` | render.go:836-841 | the line of the ones left out is the section's last part, or is not there when it is empty |
| `BlockText.ChoiceExactly` | render.go:811-823 | all entries are shown when they fit the room, and else each in order that fits with the reserve held back |
| `Blocks.SummaryWidth` | render.go:974-977 | the summary's width depends on the size it states and on nothing else |
| `Blocks.SummarySettles` | render.go:844-865 | for every bound and count the third pass at the latest writes the size of the block it makes, so the loop of 8 always leaves through its break |
| `Blocks.SettleSummary` | render.go:857-864 | the loop |
| `Blocks.SectionsFit` | render.go:806-843 | the sections stay within the bound together and each within its cap |
| `Blocks.BlockIsHonest` | render.go:844-865 | the last line states the exact length of the joined block, the counts and what is free |
| `Blocks.RenderFits` | render.go:756-867 | whenever there is a block it is at most the bound, its last line states its exact size, every scope is within its cap, and the manifest names every listed entry, shown or omitted, as often as it is listed |
| `Blocks.HonestTells` | render.go:844-865 | the last line is "Entries: a shown, b omitted. Block: c of d bytes (f free). Entry limit: l bytes." where the numerals have the values of the two counts, the joined length, the bound, the difference and the limit |
| `BlockText.SectionsAre` | render.go:803-843 | every scope in the order given has its section in exactly the room the scopes before it left, within its cap |
| `BlockText.PartsSplit` | render.go:803-843 | parts and manifest lines of a scope stand between those of the scopes before it and those of the scopes after it |
| `BlockText.WidestIs` | render.go:790-795 | what is held back for the summary: its letters, and its numbers at their widest |
| `BlockText.BlockReads` | render.go:803-867 | the whole block: title, sections in order, summary, and the manifest beside it |
| `Blocks.CheckBounds` | render.go:761-778 | which bounds, caps and scopes are refused, and with what |
| `Blocks.ComputeFixed` | render.go:790-801 | what the block holds whatever it shows |
| `Blocks.RenderBlock` | render.go:756-867 | the block of the sections laid one after another, with a last line that tells counts, size, bound, free bytes and limit, or exactly why there is none |
| `Blocks.RenderText` | render.go:703-709 | the text is the joined parts of that block, never longer than its bound, and its last line tells the same |

## Left out

- `sqlite/sqlite.go`: its guarantees come from SQLite transactions and full-text search, which are not visible here.
- JSON, SHA-256, UTF-8 validity and time formatting: function values with the hypotheses named above.
- Timestamps, timeouts and back-off: they never order records.
- `Seq` is a natural number: the wrap-around of a 64-bit counter is not modelled.
- BreakLock, and damage to a record the cursor has already read: outside the guarantees.
- File-system errors other than those of the lock protocol, a cut-off append and a lost cursor: an operation that fails without effect is a step not taken.
- System: the entry files are not part of its state; what a writer read of one is part of its step and may be anything.
- FileStore: INDEX.md, directory links and file modes, which no proof here needs.
- Patch: memory_save, whose metadata retry carries no condition once it finds the entry forgotten, and the tools' schemas, wording and scope checks.
- Patch.InsertEntry: the time and the eight digits of the content's hash are parameters.
- Packing: entry texts are computed once for each entry, where the program computes them again in each pass.
- Packing.Wording: the block's fixed texts are a value in the layout proofs; `Packing.Words` has the program's, and `BlockText.dfy` and `Blocks.HonestTells` spell them out.
- Blocks: trust labels, and errors from listing a scope.
- ManifestFold: namespaces, LeaveOut and Dropped, which are one-line readings of a manifest.
- search.go, INDEX.md writing, tool schemas and descriptions, scripts: filters, printers and glue that would only add easy members.
