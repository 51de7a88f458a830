/**
 The directory-backed store (filestore/filestore.go, and `outside` of
 filestore/state.go): `Write` calls `NoteFound` before it replaces a file,
 and with that every record continues the chain of its entry.

 An entry file is what it decodes to, its content and metadata; a person may change
 the files in any way between two calls.  What a crash leaves is in the module System.
 */
module FileStore {
  import opened Common
  import opened Text
  import opened Memory
  import opened Journal
  import opened Cursor
  import L = LostUpdates

  datatype File = File(content: string, meta: map<string, string>)

  function EntryOf(env: Env, k: Key, f: File): Entry {
    Entry(k, f.content, f.meta, env.hash(f.content), false)
  }

  function FoundEntry(env: Env, k: Key, f: Option<File>): Option<Entry> {
    match f case None => None case Some(x) => Some(EntryOf(env, k, x))
  }

  predicate Agrees(env: Env, known: StateEntry, f: File) {
    known == StateEntry(env.hash(f.content), MetaHash(env, f.meta))
  }

  predicate Storable(env: Env, max: int, k: Key, f: File) {
    CheckEntry(env, EntryOf(env, k, f), max, None).None?
  }

  /******* The records a store writes *******/

  /** `outside`: the record, if any, that brings the cursor's entry for `k` to the file found. */
  function OutsideChange(env: Env, max: int, st: State, recs: seq<Change>, k: Key, cur: Option<File>): Option<Change> {
    var known := k in st.entries;
    match cur
    case None =>
      if !known || LastFor(recs, k).None? then None
      else
        var held := st.entries[k].hash;
        Some(Change(0, LastFor(recs, k).value.entry.(deleted := true), held, held, "", SourceReconciled))
    case Some(f) =>
      if known && Agrees(env, st.entries[k], f) then None
      else if !Storable(env, max, k, f) then None
      else
        var held := HeldIn(st.entries, k);
        Some(Change(0, EntryOf(env, k, f), held, held, "", SourceReconciled))
  }

  /** The record of a write, once the file it found has been noted. */
  function PutChange(env: Env, st: State, e: Entry, o: PutOptions, stored: Option<File>, session: string): Change {
    var held := HeldIn(st.entries, e.key);
    var base := BaseFor(o, held);
    // The base is a file of which there is no record: the record names the held state in its place.
    var unjournaled := stored.Some? && base == env.hash(stored.value.content) && held != base;
    Change(0, e, if unjournaled then held else base, held, session, "")
  }

  /** The tombstone of an entry: the file's state if the journal holds that, and else the journal's last live one. */
  function ForgetChange(env: Env, st: State, recs: seq<Change>, k: Key, stored: File, session: string): Change {
    var held := HeldIn(st.entries, k);
    var last := LastFor(recs, k);
    var e := if k in st.entries && Agrees(env, st.entries[k], stored) then EntryOf(env, k, stored)
             else if last.Some? && !last.value.entry.deleted then last.value.entry
             else EntryOf(env, k, stored);
    Change(0, e.(deleted := true), held, held, session, "")
  }

  /** What a holder of the lock may be about to append, with what it read of the entry's file, whatever that is. */
  datatype Intent =
    | Note(k: Key, cur: Option<File>)
    | Write(e: Entry, o: PutOptions, stored: Option<File>, session: string)
    | Erase(k: Key, found: File, session: string)

  function Build(env: Env, max: int, st: State, recs: seq<Change>, i: Intent): Option<Change> {
    match i
    case Note(k, cur) => OutsideChange(env, max, st, recs, k, cur)
    case Write(e, o, stored, session) => Some(PutChange(env, st, e, o, stored, session))
    case Erase(k, found, session) => Some(ForgetChange(env, st, recs, k, found, session))
  }

  predicate ValidIntent(env: Env, max: int, i: Intent) {
    match i
    case Note(k, _) => ValidKey(k)
    case Write(e, _, _, _) => CheckEntry(env, e, max, None).None? && e.hash == env.hash(e.content) && !e.deleted
    case Erase(k, _, _) => ValidKey(k)
  }

  function IntentKey(i: Intent): Key {
    match i case Note(k, _) => k case Write(e, _, _, _) => e.key case Erase(k, _, _) => k
  }

  lemma StorableClean(env: Env, max: int, e: Entry)
    requires CheckEntry(env, e, max, None).None?
    ensures ValidKey(e.key) && Clean(env, e)
  {
    forall k | k in e.meta ensures ValidName(k) && env.utf8(e.meta[k]) {
      assert ValidField(env, k, e.meta[k]);
    }
  }

  lemma {:induction false} LastForIn(recs: seq<Change>, k: Key)
    ensures LastFor(recs, k).Some? ==> LastFor(recs, k).value.entry.key == k && LastFor(recs, k).value in recs
  {
    if recs != [] && recs[|recs| - 1].entry.key != k {
      LastForIn(recs[..|recs| - 1], k);
    }
  }

  lemma {:induction false} ReadRecordable(env: Env, codec: Codec, ls: seq<string>, c: Change)
    requires Faithful(env, codec) && c in Recs(codec, ls)
    ensures Recordable(env, c)
  {
    var front, l := ls[..|ls| - 1], ls[|ls| - 1];
    if c in Recs(codec, front) {
      ReadRecordable(env, codec, front, c);
    } else {
      assert OnlyRecords(env, codec, l);
    }
  }

  /** Every record a store builds names the last live state the readable records hold as what it replaced. */
  lemma BuildChains(env: Env, max: int, codec: Codec, j: string, i: Intent)
    requires Sound(env.hash) && Faithful(env, codec) && ValidIntent(env, max, i)
    requires Build(env, max, Rebuilt(env, codec, j), Read(codec, j), i).Some?
    ensures var c := Build(env, max, Rebuilt(env, codec, j), Read(codec, j), i).value;
            && c.entry.key == IntentKey(i) && Notable(env, c)
            && c.replaced == HeldHash(Read(codec, j), c.entry.key)
            && (!i.Write? ==> c.prev == c.replaced)
  {
    var recs := Read(codec, j);
    var k := IntentKey(i);
    HeldIsHeldHash(env, recs, k);
    ReplayLast(env, recs, k);
    LastForIn(recs, k);
    if LastFor(recs, k).Some? {
      ReadRecordable(env, codec, Lines(j), LastFor(recs, k).value);
    }
    match i {
      case Note(_, cur) =>
        if cur.Some? {
          StorableClean(env, max, EntryOf(env, k, cur.value));
        }
      case Write(e, _, _, _) =>
        StorableClean(env, max, e);
      case Erase(_, _, _) =>
    }
  }

  /******* What a directory holds *******/

  datatype Disk = Disk(files: map<Key, File>, journal: string, saved: Option<State>)

  function Lookup(files: map<Key, File>, k: Key): Option<File> {
    if k in files then Some(files[k]) else None
  }

  /** The journal is in order, and the cursor, if there is one, catches up to it. */
  ghost predicate ValidDisk(env: Env, codec: Codec, d: Disk) {
    && Sound(env.hash) && Faithful(env, codec)
    && InOrder(codec, d.journal)
    && Loaded(env, codec, d.saved, d.journal) == Rebuilt(env, codec, d.journal)
  }

  /** The cursor's entry for `k` is not the file's and the file is storable; or there is an entry and no file. */
  predicate NeedsNote(env: Env, max: int, entries: map<Key, StateEntry>, k: Key, cur: Option<File>) {
    match cur
    case None => k in entries
    case Some(f) => !(k in entries && Agrees(env, entries[k], f)) && Storable(env, max, k, f)
  }

  /** The same by what is hashed: another content or other metadata than the last record's, or a file that is gone. */
  lemma NeedsNoteIs(env: Env, max: int, entries: map<Key, StateEntry>, k: Key, cur: Option<File>)
    ensures NeedsNote(env, max, entries, k, cur) <==>
            if cur.None? then k in entries
            else
              var f := cur.value;
              && CheckEntry(env, Entry(k, f.content, f.meta, env.hash(f.content), false), max, None).None?
              && !(k in entries && entries[k].hash == env.hash(f.content) && entries[k].meta == MetaHash(env, f.meta))
  {
  }

  lemma OutsideIffNeeded(env: Env, max: int, codec: Codec, j: string, k: Key, cur: Option<File>)
    ensures var st := Rebuilt(env, codec, j);
            OutsideChange(env, max, st, Read(codec, j), k, cur).Some? <==> NeedsNote(env, max, st.entries, k, cur)
  {
    ReplayLast(env, Read(codec, j), k);
  }

  /** `noteOutside`: the journal and the cursor after it. */
  function NoteOutside(env: Env, max: int, codec: Codec, st: State, j: string, k: Key, cur: Option<File>)
    : (string, State)
  {
    match OutsideChange(env, max, st, Read(codec, j), k, cur)
    case None => (j, st)
    case Some(c) =>
      var s := AppendChange(env, codec, st, j, c);
      (s.journal, s.st)
  }

  /** The directory once a write nothing refuses has noted the file it found, and its record. */
  function Written(env: Env, max: int, codec: Codec, d: Disk, st: State, e: Entry, o: PutOptions, stored: Option<File>,
                   session: string): (Disk, Change)
  {
    var (j, st') := NoteOutside(env, max, codec, st, d.journal, e.key, stored);
    var s := AppendChange(env, codec, st', j, PutChange(env, st', e, o, stored, session));
    (Disk(d.files[e.key := File(e.content, e.meta)], s.journal, Some(s.st)), s.change)
  }

  function PutDisk(env: Env, max: int, codec: Codec, d: Disk, given: Entry, o: PutOptions, session: string)
    : (Disk, Result<Change, Error>)
  {
    var k := given.key;
    var stored := Lookup(d.files, k);
    var found := FoundEntry(env, k, stored);
    var bad := CheckEntry(env, given, 0, None);
    var refused := CheckEntry(env, given, max, found);
    var conflict := Check(env, o, found);
    if bad.Some? then (d, Err(bad.value))
    else if refused.Some? then (d, Err(refused.value))
    else if conflict.Some? then (d, Err(conflict.value))
    else
      var e := given.(hash := env.hash(given.content), deleted := false);
      var (d', c) := Written(env, max, codec, d, Loaded(env, codec, d.saved, d.journal), e, o, stored, session);
      (d', Ok(c))
  }

  function ForgetDisk(env: Env, max: int, codec: Codec, d: Disk, k: Key, session: string)
    : (Disk, Result<Change, Error>)
  {
    if !ValidKey(k) then (d, Err(Invalid))
    else if k !in d.files then (d, Err(NotFound))
    else
      var stored := d.files[k];
      var (j, st) := NoteOutside(env, max, codec, Loaded(env, codec, d.saved, d.journal), d.journal, k, Some(stored));
      var s := AppendChange(env, codec, st, j, ForgetChange(env, st, Read(codec, j), k, stored, session));
      (Disk(d.files - {k}, s.journal, Some(s.st)), Ok(s.change))
  }

  /**
   `c` notes the file `cur`: both its hashes are the one held under the key, and its entry is
   the file, or, of a file that is gone, the entry of the last record, `last`, with `deleted`
   set.
   */
  ghost predicate NoteOf(env: Env, entries: map<Key, StateEntry>, last: Option<Change>, k: Key, cur: Option<File>,
                         c: Change)
  {
    && c.source == "reconciled" && c.session == "" && c.prev == c.replaced == HeldIn(entries, k) && c.entry.key == k
    && match cur
       case Some(f) => c.entry == Entry(k, f.content, f.meta, env.hash(f.content), false)
       case None => k in entries && last.Some? && c.entry == last.value.entry.(deleted := true)
  }

  /** `d` is such a record as the journal gives it back: whole, when what it holds is valid UTF-8. */
  ghost predicate IsNoteOf(env: Env, entries: map<Key, StateEntry>, last: Option<Change>, k: Key, cur: Option<File>,
                           d: Change)
  {
    && d.source == "reconciled" && d.prev == d.replaced == HeldIn(entries, k) && d.entry.key == k
    && match cur
       case Some(f) => d.entry == Entry(k, f.content, f.meta, env.hash(f.content), false)
       case None =>
         && d.entry.deleted && k in entries && d.entry.hash == entries[k].hash && last.Some?
         && (Clean(env, last.value.entry) ==> d.entry == last.value.entry.(deleted := true))
  }

  // The record built for a file is a note of it, and settles it.
  lemma NoteBuilt(env: Env, max: int, codec: Codec, j: string, k: Key, cur: Option<File>, d: Change)
    requires Sound(env.hash) && Faithful(env, codec) && ValidKey(k)
    requires var st := Rebuilt(env, codec, j);
             && NeedsNote(env, max, st.entries, k, cur)
             && OutsideChange(env, max, st, Read(codec, j), k, cur).Some?
             && Kept(env, OutsideChange(env, max, st, Read(codec, j), k, cur).value, d.(seqno := 0))
    ensures var entries := Rebuilt(env, codec, j).entries;
            var c := OutsideChange(env, max, Rebuilt(env, codec, j), Read(codec, j), k, cur).value;
            && NoteOf(env, entries, LastFor(Read(codec, j), k), k, cur, c)
            && IsNoteOf(env, entries, LastFor(Read(codec, j), k), k, cur, d)
            && Noted(env, entries, c.entry) == NotedFile(env, entries, k, cur)
  {
    ReplayLast(env, Read(codec, j), k);
    LastForIn(Read(codec, j), k);
    if cur.Some? {
      StorableClean(env, max, EntryOf(env, k, cur.value));
    }
  }

  /** What the cursor holds once it has been told of a file. */
  function NotedFile(env: Env, entries: map<Key, StateEntry>, k: Key, cur: Option<File>): map<Key, StateEntry> {
    match cur
    case None => entries - {k}
    case Some(f) => entries[k := StateEntry(env.hash(f.content), MetaHash(env, f.meta))]
  }

  lemma NoteAppends(env: Env, max: int, codec: Codec, j: string, k: Key, cur: Option<File>)
    requires Sound(env.hash) && Faithful(env, codec) && InOrder(codec, j) && ValidKey(k)
    requires NeedsNote(env, max, Rebuilt(env, codec, j).entries, k, cur)
    ensures var st := Rebuilt(env, codec, j);
            var c := OutsideChange(env, max, st, Read(codec, j), k, cur);
            && c.Some?
            && var s := AppendChange(env, codec, st, j, c.value);
               var d := codec.dec(codec.enc(s.change));
               && s.st == Rebuilt(env, codec, s.journal) && InOrder(codec, s.journal)
               && d.Some? && Read(codec, s.journal) == Read(codec, j) + [d.value]
               && Kept(env, s.change, d.value)
               && NoteOf(env, st.entries, LastFor(Read(codec, j), k), k, cur, s.change)
               && IsNoteOf(env, st.entries, LastFor(Read(codec, j), k), k, cur, d.value)
               && s.st.entries == NotedFile(env, st.entries, k, cur)
  {
    var st := Rebuilt(env, codec, j);
    OutsideIffNeeded(env, max, codec, j, k, cur);
    var c := OutsideChange(env, max, st, Read(codec, j), k, cur).value;
    BuildChains(env, max, codec, j, Note(k, cur));
    AppendKeeps(env, codec, st, j, c);
    var s := AppendChange(env, codec, st, j, c);
    NoteBuilt(env, max, codec, j, k, cur, codec.dec(codec.enc(s.change)).value);
  }

  lemma NotedIsSettled(env: Env, max: int, entries: map<Key, StateEntry>, k: Key, cur: Option<File>)
    ensures !NeedsNote(env, max, NotedFile(env, entries, k, cur), k, cur)
  {
  }

  lemma NeededNoteLands(env: Env, max: int, codec: Codec, j: string, k: Key, cur: Option<File>) returns (d: Change)
    requires Sound(env.hash) && Faithful(env, codec) && InOrder(codec, j) && ValidKey(k)
    requires NeedsNote(env, max, Rebuilt(env, codec, j).entries, k, cur)
    ensures var st := Rebuilt(env, codec, j);
            var (j', st') := NoteOutside(env, max, codec, st, j, k, cur);
            && st' == Rebuilt(env, codec, j') && InOrder(codec, j')
            && st'.entries == NotedFile(env, st.entries, k, cur)
            && Read(codec, j') == Read(codec, j) + [d]
            && IsNoteOf(env, st.entries, LastFor(Read(codec, j), k), k, cur, d)
  {
    var st := Rebuilt(env, codec, j);
    NoteAppends(env, max, codec, j, k, cur);
    var s := AppendChange(env, codec, st, j, OutsideChange(env, max, st, Read(codec, j), k, cur).value);
    d := codec.dec(codec.enc(s.change)).value;
  }

  /** Noting a file appends exactly one record when one is needed, and then the cursor holds the file's state. */
  lemma NoteLands(env: Env, max: int, codec: Codec, j: string, k: Key, cur: Option<File>)
    requires Sound(env.hash) && Faithful(env, codec) && InOrder(codec, j) && ValidKey(k)
    ensures var st := Rebuilt(env, codec, j);
            var (j', st') := NoteOutside(env, max, codec, st, j, k, cur);
            && st' == Rebuilt(env, codec, j') && InOrder(codec, j')
            && !NeedsNote(env, max, st'.entries, k, cur)
            && (!NeedsNote(env, max, st.entries, k, cur) ==> j' == j && st' == st)
            && (NeedsNote(env, max, st.entries, k, cur) ==>
                  && st'.entries == NotedFile(env, st.entries, k, cur)
                  && exists d :: Read(codec, j') == Read(codec, j) + [d] &&
                                 IsNoteOf(env, st.entries, LastFor(Read(codec, j), k), k, cur, d))
  {
    var st := Rebuilt(env, codec, j);
    if NeedsNote(env, max, st.entries, k, cur) {
      var d := NeededNoteLands(env, max, codec, j, k, cur);
      NotedIsSettled(env, max, st.entries, k, cur);
    } else {
      OutsideIffNeeded(env, max, codec, j, k, cur);
    }
  }

  /** Whatever a store is about to append, the journal stays in order, the cursor agreeing, and its saved form good. */
  lemma IntentAppends(env: Env, max: int, codec: Codec, j: string, i: Intent)
    requires Sound(env.hash) && Faithful(env, codec) && InOrder(codec, j) && ValidIntent(env, max, i)
    requires Build(env, max, Rebuilt(env, codec, j), Read(codec, j), i).Some?
    ensures var st, c := Rebuilt(env, codec, j), Build(env, max, Rebuilt(env, codec, j), Read(codec, j), i).value;
            var s := AppendChange(env, codec, st, j, c);
            var d := codec.dec(codec.enc(s.change));
            && s.st == Rebuilt(env, codec, s.journal) && InOrder(codec, s.journal)
            && Loaded(env, codec, Some(s.st), s.journal) == s.st
            && s.change == c.(seqno := LastSeqno(Read(codec, j)) + 1) && Recordable(env, s.change)
            && d.Some? && Kept(env, s.change, d.value)
            && Read(codec, s.journal) == Read(codec, j) + [d.value]
            && c.replaced == HeldHash(Read(codec, j), c.entry.key) && c.entry.key == IntentKey(i)
            && s.st.entries == Noted(env, st.entries, c.entry)
  {
    var st, c := Rebuilt(env, codec, j), Build(env, max, Rebuilt(env, codec, j), Read(codec, j), i).value;
    BuildChains(env, max, codec, j, i);
    AppendKeeps(env, codec, st, j, c);
    var s := AppendChange(env, codec, st, j, c);
    LoadsItself(env, codec, s.journal, s.st);
  }

  /**
   The records after a completed write or forget: those before it, a note of the file it
   found when the journal had not seen that, and its own, which names the state before it.
   */
  ghost predicate Follows(env: Env, max: int, entries: map<Key, StateEntry>, found: Option<File>, recs: seq<Change>,
                          recs': seq<Change>, c: Change)
  {
    exists notes, d :: FollowedBy(env, max, entries, found, recs, recs', c, notes, d)
  }

  ghost predicate FollowedBy(env: Env, max: int, entries: map<Key, StateEntry>, found: Option<File>, recs: seq<Change>,
                             recs': seq<Change>, c: Change, notes: seq<Change>, d: Change)
  {
    var k := c.entry.key;
    && recs' == recs + notes + [d] && Kept(env, c, d)
    && (if NeedsNote(env, max, entries, k, found)
        then |notes| == 1 && IsNoteOf(env, entries, LastFor(recs, k), k, found, notes[0]) else notes == [])
    && c.replaced == HeldHash(recs + notes, k) && c.seqno == LastSeqno(recs + notes) + 1
  }

  lemma FollowsIntro(env: Env, max: int, entries: map<Key, StateEntry>, found: Option<File>,
                     recs: seq<Change>, mid: seq<Change>, recs': seq<Change>, c: Change, d: Change)
    requires recs' == mid + [d] && Kept(env, c, d)
    requires c.replaced == HeldHash(mid, c.entry.key) && c.seqno == LastSeqno(mid) + 1
    requires if NeedsNote(env, max, entries, c.entry.key, found)
             then exists n :: mid == recs + [n] &&
                              IsNoteOf(env, entries, LastFor(recs, c.entry.key), c.entry.key, found, n)
             else mid == recs
    ensures Follows(env, max, entries, found, recs, recs', c)
  {
    if NeedsNote(env, max, entries, c.entry.key, found) {
      var n :| mid == recs + [n] && IsNoteOf(env, entries, LastFor(recs, c.entry.key), c.entry.key, found, n);
      assert FollowedBy(env, max, entries, found, recs, recs', c, [n], d);
    } else {
      assert recs + [] == recs;
      assert FollowedBy(env, max, entries, found, recs, recs', c, [], d);
    }
  }

  // A note, or none, and then the append of an intent built on what it left.
  lemma NoteThenAppend(env: Env, max: int, codec: Codec, j0: string, cur: Option<File>, i: Intent)
    requires Sound(env.hash) && Faithful(env, codec) && InOrder(codec, j0) && ValidIntent(env, max, i) && !i.Note?
    ensures var (j, st) := NoteOutside(env, max, codec, Rebuilt(env, codec, j0), j0, IntentKey(i), cur);
            var c := Build(env, max, st, Read(codec, j), i).value;
            var s := AppendChange(env, codec, st, j, c);
            && InOrder(codec, s.journal) && s.st == Rebuilt(env, codec, s.journal)
            && Loaded(env, codec, Some(s.st), s.journal) == s.st
            && Follows(env, max, Rebuilt(env, codec, j0).entries, cur, Read(codec, j0), Read(codec, s.journal),
               s.change)
            && s.change == c.(seqno := s.change.seqno)
            && s.st.entries == Noted(env, st.entries, c.entry)
  {
    var k := IntentKey(i);
    if i.Write? {
      StorableClean(env, max, i.e);
    }
    var (j, st) := NoteOutside(env, max, codec, Rebuilt(env, codec, j0), j0, k, cur);
    NoteLands(env, max, codec, j0, k, cur);
    IntentAppends(env, max, codec, j, i);
    var s := AppendChange(env, codec, st, j, Build(env, max, st, Read(codec, j), i).value);
    FollowsIntro(env, max, Rebuilt(env, codec, j0).entries, cur, Read(codec, j0), Read(codec, j),
                 Read(codec, s.journal), s.change, codec.dec(codec.enc(s.change)).value);
  }

  // What a write replaces, by what file it found.
  lemma HeldAfterNote(env: Env, max: int, codec: Codec, j0: string, k: Key, cur: Option<File>)
    requires Sound(env.hash) && Faithful(env, codec) && InOrder(codec, j0) && ValidKey(k)
    ensures var st := NoteOutside(env, max, codec, Rebuilt(env, codec, j0), j0, k, cur).1;
            && (cur.None? ==> k !in st.entries)
            && (cur.Some? && Storable(env, max, k, cur.value) ==>
               k in st.entries && Agrees(env, st.entries[k], cur.value))
  {
    NoteLands(env, max, codec, j0, k, cur);
  }

  /**
   A completed write: the file holds the entry and the journal agrees with it; the journal
   gains the entry's record and, just before it, the file's state if it had not seen that;
   the record names the file's hash as what it replaced when that could be journaled.
   Under IfHash it is never a fork.
   */
  lemma PutLands(env: Env, max: int, codec: Codec, d: Disk, given: Entry, o: PutOptions, session: string)
    requires ValidDisk(env, codec, d) && PutDisk(env, max, codec, d, given, o, session).1.Ok?
    ensures var (d', r) := PutDisk(env, max, codec, d, given, o, session);
            var c, k, stored := r.value, given.key, Lookup(d.files, given.key);
            && ValidDisk(env, codec, d')
            && d'.files == d.files[k := File(given.content, given.meta)]
            && c.entry == given.(hash := env.hash(given.content), deleted := false)
            && c.session == session && c.source == ""
            && Follows(env, max, Rebuilt(env, codec, d.journal).entries, stored, Read(codec, d.journal),
               Read(codec, d'.journal), c)
            && (stored.None? ==> c.replaced == "")
            && (stored.Some? && Storable(env, max, k, stored.value) ==> c.replaced == env.hash(stored.value.content))
            && (o.conditional || !o.hasBase ==> c.prev == c.replaced) && NamesBase(env, o, stored, c)
            && !NeedsNote(env, max, Rebuilt(env, codec, d'.journal).entries, k, Lookup(d'.files, k))
  {
    var stored := Lookup(d.files, given.key);
    var e := given.(hash := env.hash(given.content), deleted := false);
    PutIsWritten(env, max, codec, d, given, o, session);
    WrittenLands(env, max, codec, d, e, o, stored, session);
  }

  // A write that nothing refuses writes the entry with its hash.
  lemma PutIsWritten(env: Env, max: int, codec: Codec, d: Disk, given: Entry, o: PutOptions, session: string)
    requires ValidDisk(env, codec, d) && PutDisk(env, max, codec, d, given, o, session).1.Ok?
    ensures var stored, e := Lookup(d.files, given.key), given.(hash := env.hash(given.content), deleted := false);
            && ValidIntent(env, max, Write(e, o, stored, session))
            && Check(env, o, FoundEntry(env, e.key, stored)).None?
            && var (d', c) := Written(env, max, codec, d, Rebuilt(env, codec, d.journal), e, o, stored, session);
               PutDisk(env, max, codec, d, given, o, session) == (d', Ok(c))
  {
  }

  lemma WrittenLands(env: Env, max: int, codec: Codec, d: Disk, e: Entry, o: PutOptions, stored: Option<File>,
                     session: string)
    requires ValidDisk(env, codec, d) && ValidIntent(env, max, Write(e, o, stored, session))
    requires Check(env, o, FoundEntry(env, e.key, stored)).None?
    ensures var (d', c) := Written(env, max, codec, d, Rebuilt(env, codec, d.journal), e, o, stored, session);
            && ValidDisk(env, codec, d') && d'.files == d.files[e.key := File(e.content, e.meta)]
            && c.entry == e && c.session == session && c.source == ""
            && Follows(env, max, Rebuilt(env, codec, d.journal).entries, stored, Read(codec, d.journal),
               Read(codec, d'.journal), c)
            && (stored.None? ==> c.replaced == "")
            && (stored.Some? && Storable(env, max, e.key, stored.value) ==>
               c.replaced == env.hash(stored.value.content))
            && (o.conditional || !o.hasBase ==> c.prev == c.replaced) && NamesBase(env, o, stored, c)
            && !NeedsNote(env, max, Rebuilt(env, codec, d'.journal).entries, e.key, Some(File(e.content, e.meta)))
  {
    var st := NoteOutside(env, max, codec, Rebuilt(env, codec, d.journal), d.journal, e.key, stored).1;
    assert (stored.None? ==> e.key !in st.entries)
        && (stored.Some? && Storable(env, max, e.key, stored.value) ==>
            e.key in st.entries && Agrees(env, st.entries[e.key], stored.value)) by {
      StorableClean(env, max, e);
      HeldAfterNote(env, max, codec, d.journal, e.key, stored);
    }
    PutIsAnchored(env, max, st, e, o, stored, session);
    PutIsNoted(env, max, st.entries, e);
    NoteThenAppend(env, max, codec, d.journal, stored, Write(e, o, stored, session));
  }

  /**
   The record `c` of a write that gives a base and no condition: `prev` is the base, or
   `replaced` where the base is the very file found.  So `prev` differs from `replaced` if and
   only if the base is neither `replaced` nor that file.
   */
  ghost predicate NamesBase(env: Env, o: PutOptions, stored: Option<File>, c: Change) {
    var isFile := stored.Some? && o.base == env.hash(stored.value.content);
    !o.conditional && o.hasBase ==>
      && c.prev == (if isFile then c.replaced else o.base)
      && (c.prev != c.replaced <==> o.base != c.replaced && !isFile)
  }

  // What the record of a write names, once the file found has been noted in the cursor.
  lemma PutIsAnchored(env: Env, max: int, st: State, e: Entry, o: PutOptions, stored: Option<File>, session: string)
    requires Sound(env.hash) && Check(env, o, FoundEntry(env, e.key, stored)).None?
    requires stored.None? ==> e.key !in st.entries
    requires stored.Some? && Storable(env, max, e.key, stored.value) ==>
             e.key in st.entries && Agrees(env, st.entries[e.key], stored.value)
    ensures var c := PutChange(env, st, e, o, stored, session);
            && (stored.None? ==> c.replaced == "")
            && (stored.Some? && Storable(env, max, e.key, stored.value) ==>
               c.replaced == env.hash(stored.value.content))
            && (o.conditional || !o.hasBase ==> c.prev == c.replaced) && NamesBase(env, o, stored, c)
  {
  }

  // An append ends with its own record, as the audit reads the journal.
  lemma LastItem(env: Env, codec: Codec, j: string, c: Change)
    requires Faithful(env, codec) && Recordable(env, c)
    ensures var items := Items(codec, Lines(Appended(codec, j, c)));
            items != [] && codec.dec(codec.enc(c)).Some? && items[|items| - 1] == L.Rec(codec.dec(codec.enc(c)).value)
  {
    assert ReadsBack(env, codec, c);
    AppendLines(j, codec.enc(c));
    ItemsSnoc(codec, Lines(j) + (if Tail(j) != "" then [Tail(j)] else []), codec.enc(c));
  }

  /** The audit of the journal reports a record that names `base` as what it was built on and `replaced` as replaced. */
  ghost predicate ReportsFork(codec: Codec, j: string, k: Key, base: string, replaced: string) {
    var items := Items(codec, Lines(j));
    exists u :: u in L.Report(items, 0, |items|) && u.change.entry.key == k && u.change.prev == base &&
                u.change.replaced == replaced
  }

  lemma LastForkReported(codec: Codec, j: string, d: Change)
    requires var items := Items(codec, Lines(j)); items != [] && items[|items| - 1] == L.Rec(d)
    requires d.prev != d.replaced
    ensures ReportsFork(codec, j, d.entry.key, d.prev, d.replaced)
  {
    var items := Items(codec, Lines(j));
    L.InReport(items, 0, |items|, |items| - 1);
  }

  /**
   A write built on a state that is neither the one it replaced nor the file it found is a
   lost update, and the audit of the journal reports it.
   */
  lemma ForkIsReported(env: Env, max: int, codec: Codec, d: Disk, given: Entry, o: PutOptions, session: string)
    requires ValidDisk(env, codec, d) && PutDisk(env, max, codec, d, given, o, session).1.Ok?
    requires !o.conditional && o.hasBase && env.utf8(o.base)
    requires var stored := Lookup(d.files, given.key); stored.None? || o.base != env.hash(stored.value.content)
    requires o.base != PutDisk(env, max, codec, d, given, o, session).1.value.replaced
    ensures var (d', r) := PutDisk(env, max, codec, d, given, o, session);
            ReportsFork(codec, d'.journal, given.key, o.base, r.value.replaced)
  {
    var stored := Lookup(d.files, given.key);
    var e := given.(hash := env.hash(given.content), deleted := false);
    PutIsWritten(env, max, codec, d, given, o, session);
    PutLands(env, max, codec, d, given, o, session);
    WrittenForks(env, max, codec, d, e, o, stored, session);
  }

  lemma WrittenForks(env: Env, max: int, codec: Codec, d: Disk, e: Entry, o: PutOptions, stored: Option<File>,
                     session: string)
    requires ValidDisk(env, codec, d) && ValidIntent(env, max, Write(e, o, stored, session))
    requires var c := Written(env, max, codec, d, Rebuilt(env, codec, d.journal), e, o, stored, session).1;
             c.prev != c.replaced && env.utf8(c.prev)
    ensures var (d', c) := Written(env, max, codec, d, Rebuilt(env, codec, d.journal), e, o, stored, session);
            ReportsFork(codec, d'.journal, c.entry.key, c.prev, c.replaced)
  {
    var (j, st) := NoteOutside(env, max, codec, Rebuilt(env, codec, d.journal), d.journal, e.key, stored);
    var c := PutChange(env, st, e, o, stored, session);
    assert Recordable(env, AppendChange(env, codec, st, j, c).change) by {
      StorableClean(env, max, e);
      NoteLands(env, max, codec, d.journal, e.key, stored);
      IntentAppends(env, max, codec, j, Write(e, o, stored, session));
    }
    AppendForks(env, codec, st, j, c);
  }

  lemma AppendForks(env: Env, codec: Codec, st: State, j: string, c: Change)
    requires Faithful(env, codec) && Recordable(env, AppendChange(env, codec, st, j, c).change)
    requires c.prev != c.replaced && env.utf8(c.prev)
    ensures ReportsFork(codec, AppendChange(env, codec, st, j, c).journal, c.entry.key, c.prev, c.replaced)
  {
    var s := AppendChange(env, codec, st, j, c);
    LastItem(env, codec, j, s.change);
    assert ReadsBack(env, codec, s.change);
    LastForkReported(codec, s.journal, codec.dec(codec.enc(s.change)).value);
  }

  lemma PutIsNoted(env: Env, max: int, entries: map<Key, StateEntry>, e: Entry)
    requires !e.deleted && e.hash == env.hash(e.content)
    ensures !NeedsNote(env, max, Noted(env, entries, e), e.key, Some(File(e.content, e.meta)))
  {
  }

  /**
   A completed forget: the file is gone, the tombstone follows the file's state in the
   journal, and keeps content a record held whenever the journal holds the entry.
   */
  lemma ForgetLands(env: Env, max: int, codec: Codec, d: Disk, k: Key, session: string)
    requires ValidDisk(env, codec, d) && ForgetDisk(env, max, codec, d, k, session).1.Ok?
    ensures var (d', r) := ForgetDisk(env, max, codec, d, k, session);
            var c, stored := r.value, d.files[k];
            && ValidDisk(env, codec, d')
            && d'.files == d.files - {k}
            && c.entry.deleted && c.entry.key == k && c.prev == c.replaced && c.session == session && c.source == ""
            && Follows(env, max, Rebuilt(env, codec, d.journal).entries, Some(stored), Read(codec, d.journal),
               Read(codec, d'.journal), c)
            && (Storable(env, max, k, stored) ==>
               c.entry == EntryOf(env, k, stored).(deleted := true) && c.replaced == c.entry.hash)
            && (!Storable(env, max, k, stored) ==> LastsOf(env, LastFor(Read(codec, d.journal), k), k, stored, c))
            && (c.replaced != "" ==> c.entry.hash == c.replaced)
            && k !in Rebuilt(env, codec, d'.journal).entries
  {
    var stored := d.files[k];
    NoteThenAppend(env, max, codec, d.journal, Some(stored), Erase(k, stored, session));
    HeldAfterNote(env, max, codec, d.journal, k, Some(stored));
    var (j, st) := NoteOutside(env, max, codec, Rebuilt(env, codec, d.journal), d.journal, k, Some(stored));
    NoteLands(env, max, codec, d.journal, k, Some(stored));
    ForgetIsAnchored(env, max, codec, j, k, stored, session);
  }

  /**
   The tombstone of a file that the journal cannot take keeps the last record's entry while
   that is live and another than the file, and the file itself otherwise.
   */
  ghost predicate LastsOf(env: Env, last: Option<Change>, k: Key, stored: File, c: Change) {
    var file := Entry(k, stored.content, stored.meta, env.hash(stored.content), true);
    var other := && last.Some? && !last.value.entry.deleted
                 && !(&& last.value.entry.hash == file.hash
                      && MetaHash(env, last.value.entry.meta) == MetaHash(env, file.meta));
    c.entry == if other then last.value.entry.(deleted := true) else file
  }

  // What the record of a forget names, once the file found has been noted in the cursor.
  lemma ForgetIsAnchored(env: Env, max: int, codec: Codec, j: string, k: Key, stored: File, session: string)
    requires var st := Rebuilt(env, codec, j);
             Storable(env, max, k, stored) ==> k in st.entries && Agrees(env, st.entries[k], stored)
    ensures var st := Rebuilt(env, codec, j);
            var c := ForgetChange(env, st, Read(codec, j), k, stored, session);
            && c.entry.deleted && c.entry.key == k && c.prev == c.replaced && c.session == session
            && (Storable(env, max, k, stored) ==>
               c.entry == EntryOf(env, k, stored).(deleted := true) && c.replaced == c.entry.hash)
            && (!Storable(env, max, k, stored) ==> LastsOf(env, LastFor(Read(codec, j), k), k, stored, c))
            && (c.replaced != "" ==> c.entry.hash == c.replaced)
            && k !in Noted(env, st.entries, c.entry)
  {
    ReplayLast(env, Read(codec, j), k);
    LastForIn(Read(codec, j), k);
  }

  /** What a write is refused for, in order: the entry itself, its size, and then its conditions. */
  lemma PutRefuses(env: Env, max: int, codec: Codec, d: Disk, given: Entry, o: PutOptions, session: string)
    ensures var r := PutDisk(env, max, codec, d, given, o, session).1;
            var found := if given.key in d.files
                         then Some(Entry(given.key, d.files[given.key].content, d.files[given.key].meta,
                                         env.hash(d.files[given.key].content), false)) else None;
            && (CheckEntry(env, given, max, found).Some? ==> r == Err(CheckEntry(env, given, max, found).value))
            && (CheckEntry(env, given, max, found).None? && Check(env, o, found).Some? ==>
                  r == Err(Check(env, o, found).value))
            && (r.Ok? <==> CheckEntry(env, given, max, found).None? && Check(env, o, found).None?)
  {
  }

  lemma ForgetRefuses(env: Env, max: int, codec: Codec, d: Disk, k: Key, session: string)
    ensures var r := ForgetDisk(env, max, codec, d, k, session).1;
            && (r == Err(Invalid) <==> !ValidKey(k)) && (r == Err(NotFound) <==> ValidKey(k) && k !in d.files)
            && (r.Ok? <==> ValidKey(k) && k in d.files)
  {
  }

  /** A refused write leaves the directory as it was, and a completed one leaves it valid. */
  lemma PutKeepsValid(env: Env, max: int, codec: Codec, d: Disk, given: Entry, o: PutOptions, session: string)
    requires ValidDisk(env, codec, d)
    ensures var (d', r) := PutDisk(env, max, codec, d, given, o, session);
            ValidDisk(env, codec, d') && (r.Err? ==> d' == d)
  {
    if PutDisk(env, max, codec, d, given, o, session).1.Ok? {
      PutLands(env, max, codec, d, given, o, session);
    }
  }

  /** And so for a forget. */
  lemma ForgetKeepsValid(env: Env, max: int, codec: Codec, d: Disk, k: Key, session: string)
    requires ValidDisk(env, codec, d)
    ensures var (d', r) := ForgetDisk(env, max, codec, d, k, session);
            ValidDisk(env, codec, d') && (r.Err? ==> d' == d)
  {
    if ForgetDisk(env, max, codec, d, k, session).1.Ok? {
      ForgetLands(env, max, codec, d, k, session);
    }
  }

  /******* Reconciling *******/

  datatype Pass = Pass(journal: string, st: State, changes: seq<Change>)

  /** One key of a pass: the note of its file, if the cursor says it needs one. */
  function PassNext(env: Env, max: int, codec: Codec, p: Pass, files: map<Key, File>, k: Key): Pass {
    match OutsideChange(env, max, p.st, Read(codec, p.journal), k, Lookup(files, k))
    case None => p
    case Some(c) =>
      var s := AppendChange(env, codec, p.st, p.journal, c);
      Pass(s.journal, s.st, p.changes + [s.change])
  }

  /** What one pass over `keys`, in that order, leaves. */
  function ReconcilePass(env: Env, max: int, codec: Codec, st: State, j: string, files: map<Key, File>,
                         keys: seq<Key>): Pass
  {
    if keys == [] then Pass(j, st, [])
    else PassNext(env, max, codec, ReconcilePass(env, max, codec, st, j, files, keys[..|keys| - 1]), files,
         keys[|keys| - 1])
  }

  /** The keys whose files need a note, in order. */
  function Needing(env: Env, max: int, entries: map<Key, StateEntry>, files: map<Key, File>, keys: seq<Key>): seq<Key> {
    if keys == [] then []
    else Needing(env, max, entries, files, keys[..|keys| - 1]) +
         (if NeedsNote(env, max, entries, keys[|keys| - 1], Lookup(files, keys[|keys| - 1]))
          then [keys[|keys| - 1]] else [])
  }

  /** The entries a cursor holds once it has been told of every file of `keys` that needed it. */
  function AllNoted(env: Env, max: int, entries: map<Key, StateEntry>, files: map<Key, File>, keys: seq<Key>)
    : map<Key, StateEntry>
  {
    if keys == [] then entries
    else
      var m := AllNoted(env, max, entries, files, keys[..|keys| - 1]);
      var k := keys[|keys| - 1];
      if NeedsNote(env, max, entries, k, Lookup(files, k)) then NotedFile(env, m, k, Lookup(files, k)) else m
  }

  lemma {:induction false} AllNotedAt(env: Env, max: int, entries: map<Key, StateEntry>, files: map<Key, File>,
                                      keys: seq<Key>, k: Key)
    ensures var m := AllNoted(env, max, entries, files, keys);
            var n := if k in keys && NeedsNote(env, max, entries, k, Lookup(files, k))
                     then NotedFile(env, entries, k, Lookup(files, k)) else entries;
            (k in m <==> k in n) && (k in m ==> m[k] == n[k])
  {
    if keys != [] {
      AllNotedAt(env, max, entries, files, keys[..|keys| - 1], k);
    }
  }

  lemma SameNeed(env: Env, max: int, m: map<Key, StateEntry>, n: map<Key, StateEntry>, last: Option<Change>, k: Key,
                 cur: Option<File>, d: Change)
    requires (k in m <==> k in n) && (k in m ==> m[k] == n[k])
    ensures NeedsNote(env, max, m, k, cur) <==> NeedsNote(env, max, n, k, cur)
    ensures IsNoteOf(env, m, last, k, cur, d) <==> IsNoteOf(env, n, last, k, cur, d)
    ensures NoteOf(env, m, last, k, cur, d) <==> NoteOf(env, n, last, k, cur, d)
  {
  }

  // The record `c`, read back as `d`, is the note of the file of `k`, after the records `recs`.
  ghost predicate NotedBy(env: Env, entries: map<Key, StateEntry>, recs: seq<Change>, files: map<Key, File>, k: Key,
                          c: Change, d: Change)
  {
    && NoteOf(env, entries, LastFor(recs, k), k, Lookup(files, k), c) && Kept(env, c, d)
    && IsNoteOf(env, entries, LastFor(recs, k), k, Lookup(files, k), d)
  }

  /** The records of the notes, one for each key in order, and as the journal gives them back. */
  ghost predicate NotesFor(env: Env, entries: map<Key, StateEntry>, recs: seq<Change>, files: map<Key, File>,
                           keys: seq<Key>, changes: seq<Change>, notes: seq<Change>)
  {
    && |keys| == |changes| == |notes|
    && forall i :: 0 <= i < |keys| ==> NotedBy(env, entries, recs, files, keys[i], changes[i], notes[i])
  }

  ghost predicate Distinct(keys: seq<Key>) {
    forall i, j :: 0 <= i < j < |keys| ==> keys[i] != keys[j]
  }

  lemma NotesForNext(env: Env, entries: map<Key, StateEntry>, recs: seq<Change>, files: map<Key, File>,
                     keys: seq<Key>, changes: seq<Change>, notes: seq<Change>, k: Key, c: Change, d: Change)
    requires NotesFor(env, entries, recs, files, keys, changes, notes) && NotedBy(env, entries, recs, files, k, c, d)
    ensures NotesFor(env, entries, recs, files, keys + [k], changes + [c], notes + [d])
  {
  }

  /** One note for each key that needs one, in order, and no other. */
  ghost predicate NeededNotes(env: Env, max: int, entries: map<Key, StateEntry>, recs: seq<Change>,
                              files: map<Key, File>, keys: seq<Key>, changes: seq<Change>, notes: seq<Change>)
  {
    NotesFor(env, entries, recs, files, Needing(env, max, entries, files, keys), changes, notes)
  }

  lemma NeededNotesNext(env: Env, max: int, entries: map<Key, StateEntry>, recs: seq<Change>, files: map<Key, File>,
                        keys: seq<Key>, changes: seq<Change>, notes: seq<Change>, k: Key, c: Change, d: Change)
    requires NeededNotes(env, max, entries, recs, files, keys, changes, notes)
    requires NeedsNote(env, max, entries, k, Lookup(files, k)) && NotedBy(env, entries, recs, files, k, c, d)
    ensures NeededNotes(env, max, entries, recs, files, keys + [k], changes + [c], notes + [d])
  {
    NeedingNext(env, max, entries, files, keys, k);
    NotesForNext(env, entries, recs, files, Needing(env, max, entries, files, keys), changes, notes, k, c, d);
  }

  // What a pass over `keys` from a journal of records `recs`, a cursor at `entries`, has come to.
  ghost predicate Settling(env: Env, max: int, codec: Codec, entries: map<Key, StateEntry>, recs: seq<Change>,
                           files: map<Key, File>, keys: seq<Key>, p: Pass, notes: seq<Change>) {
    && p.st == Rebuilt(env, codec, p.journal) && InOrder(codec, p.journal)
    && p.st.entries == AllNoted(env, max, entries, files, keys)
    && Read(codec, p.journal) == recs + notes
    && NeededNotes(env, max, entries, recs, files, keys, p.changes, notes)
  }

  // One more note, appended by `s` and read back as `d`.
  lemma SettlingNext(env: Env, max: int, codec: Codec, entries: map<Key, StateEntry>, recs: seq<Change>,
                     files: map<Key, File>, keys: seq<Key>, p: Pass, notes: seq<Change>, k: Key, s: Step, d: Change)
    requires Settling(env, max, codec, entries, recs, files, keys, p, notes)
    requires NeedsNote(env, max, entries, k, Lookup(files, k))
    requires s.st == Rebuilt(env, codec, s.journal) && InOrder(codec, s.journal)
    requires s.st.entries == NotedFile(env, p.st.entries, k, Lookup(files, k))
    requires Read(codec, s.journal) == Read(codec, p.journal) + [d]
    requires NotedBy(env, entries, recs, files, k, s.change, d)
    ensures Settling(env, max, codec, entries, recs, files, keys + [k], Pass(s.journal, s.st, p.changes + [s.change]),
            notes + [d])
  {
    var q, more := Pass(s.journal, s.st, p.changes + [s.change]), notes + [d];
    assert q.st.entries == AllNoted(env, max, entries, files, keys + [k]) by {
      AllNotedNext(env, max, entries, files, keys, k);
    }
    assert NeededNotes(env, max, entries, recs, files, keys + [k], q.changes, more) by {
      NeededNotesNext(env, max, entries, recs, files, keys, p.changes, notes, k, s.change, d);
    }
    assert Read(codec, q.journal) == recs + more by {
      assert recs + notes + [d] == recs + more;
    }
    SettlingIntro(env, max, codec, entries, recs, files, keys + [k], q, more);
  }

  lemma SettlingIntro(env: Env, max: int, codec: Codec, entries: map<Key, StateEntry>, recs: seq<Change>,
                      files: map<Key, File>, keys: seq<Key>, p: Pass, notes: seq<Change>)
    requires p.st == Rebuilt(env, codec, p.journal) && InOrder(codec, p.journal)
    requires p.st.entries == AllNoted(env, max, entries, files, keys)
    requires Read(codec, p.journal) == recs + notes
    requires NeededNotes(env, max, entries, recs, files, keys, p.changes, notes)
    ensures Settling(env, max, codec, entries, recs, files, keys, p, notes)
  {
  }

  lemma AllNotedNext(env: Env, max: int, entries: map<Key, StateEntry>, files: map<Key, File>, keys: seq<Key>, k: Key)
    requires NeedsNote(env, max, entries, k, Lookup(files, k))
    ensures AllNoted(env, max, entries, files, keys + [k]) ==
            NotedFile(env, AllNoted(env, max, entries, files, keys), k, Lookup(files, k))
  {
    assert (keys + [k])[..|keys|] == keys;
  }

  lemma NeedingNext(env: Env, max: int, entries: map<Key, StateEntry>, files: map<Key, File>, keys: seq<Key>, k: Key)
    requires NeedsNote(env, max, entries, k, Lookup(files, k))
    ensures Needing(env, max, entries, files, keys + [k]) == Needing(env, max, entries, files, keys) + [k]
  {
    assert (keys + [k])[..|keys|] == keys;
  }

  lemma {:induction false} LastForSkips(recs: seq<Change>, notes: seq<Change>, k: Key)
    requires forall i :: 0 <= i < |notes| ==> notes[i].entry.key != k
    ensures LastFor(recs + notes, k) == LastFor(recs, k)
  {
    if notes == [] {
      assert recs + notes == recs;
    } else {
      var front := notes[..|notes| - 1];
      LastForSkips(recs, front, k);
      assert recs + notes == recs + front + [notes[|notes| - 1]];
      LastForAppend(recs + front, notes[|notes| - 1], k);
    }
  }

  lemma {:induction false} NeedingFrom(env: Env, max: int, entries: map<Key, StateEntry>, files: map<Key, File>,
                                       keys: seq<Key>)
    ensures forall x :: x in Needing(env, max, entries, files, keys) ==> x in keys
  {
    if keys != [] {
      NeedingFrom(env, max, entries, files, keys[..|keys| - 1]);
    }
  }

  // The notes of other keys leave a key its last record.
  lemma SettlingLast(env: Env, max: int, codec: Codec, entries: map<Key, StateEntry>, recs: seq<Change>,
                     files: map<Key, File>, keys: seq<Key>, p: Pass, notes: seq<Change>, k: Key)
    requires Settling(env, max, codec, entries, recs, files, keys, p, notes) && k !in keys
    ensures LastFor(Read(codec, p.journal), k) == LastFor(recs, k)
  {
    var needing := Needing(env, max, entries, files, keys);
    NeedingFrom(env, max, entries, files, keys);
    forall i | 0 <= i < |notes| ensures notes[i].entry.key != k {
      assert NotedBy(env, entries, recs, files, needing[i], p.changes[i], notes[i]);
      assert needing[i] in needing;
    }
    LastForSkips(recs, notes, k);
  }

  lemma SettlingNote(env: Env, max: int, codec: Codec, entries: map<Key, StateEntry>, recs: seq<Change>,
                     files: map<Key, File>, keys: seq<Key>, p: Pass, notes: seq<Change>, k: Key) returns (d: Change)
    requires Sound(env.hash) && Faithful(env, codec) && ValidKey(k) && k !in keys
    requires Settling(env, max, codec, entries, recs, files, keys, p, notes)
    requires NeedsNote(env, max, p.st.entries, k, Lookup(files, k))
    ensures Settling(env, max, codec, entries, recs, files, keys + [k], PassNext(env, max, codec, p, files, k),
            notes + [d])
    ensures PassNext(env, max, codec, p, files, k).changes != []
  {
    var cur := Lookup(files, k);
    AllNotedAt(env, max, entries, files, keys, k);
    NoteAppends(env, max, codec, p.journal, k, cur);
    var s := AppendChange(env, codec, p.st, p.journal,
      OutsideChange(env, max, p.st, Read(codec, p.journal), k, cur).value);
    d := codec.dec(codec.enc(s.change)).value;
    SettlingLast(env, max, codec, entries, recs, files, keys, p, notes, k);
    SameNeed(env, max, entries, p.st.entries, LastFor(recs, k), k, cur, s.change);
    SameNeed(env, max, entries, p.st.entries, LastFor(recs, k), k, cur, d);
    SettlingNext(env, max, codec, entries, recs, files, keys, p, notes, k, s, d);
  }

  lemma SettlingSkip(env: Env, max: int, codec: Codec, entries: map<Key, StateEntry>, recs: seq<Change>,
                     files: map<Key, File>, keys: seq<Key>, p: Pass, notes: seq<Change>, k: Key)
    requires k !in keys && !NeedsNote(env, max, p.st.entries, k, Lookup(files, k))
    requires Settling(env, max, codec, entries, recs, files, keys, p, notes)
    ensures PassNext(env, max, codec, p, files, k) == p
    ensures Settling(env, max, codec, entries, recs, files, keys + [k], p, notes)
  {
    assert (keys + [k])[..|keys|] == keys;
    AllNotedAt(env, max, entries, files, keys, k);
    OutsideIffNeeded(env, max, codec, p.journal, k, Lookup(files, k));
    assert NeedsNote(env, max, entries, k, Lookup(files, k)) <==>
           NeedsNote(env, max, p.st.entries, k, Lookup(files, k));
  }

  /**
   One pass over distinct keys, in any order, appends one note for each key that needs one
   and nothing else, keeps the journal in order and the cursor agreeing.
   */
  lemma {:induction false} PassSettles(env: Env, max: int, codec: Codec, j: string, files: map<Key, File>,
                                       keys: seq<Key>)
    returns (notes: seq<Change>)
    requires Sound(env.hash) && Faithful(env, codec) && InOrder(codec, j)
    requires Distinct(keys) && forall k :: k in keys ==> ValidKey(k)
    ensures var st := Rebuilt(env, codec, j);
            var p := ReconcilePass(env, max, codec, st, j, files, keys);
            && Settling(env, max, codec, st.entries, Read(codec, j), files, keys, p, notes)
            && (p.changes == [] ==> p == Pass(j, st, []))
  {
    notes := [];
    if keys == [] {
      assert Read(codec, j) + [] == Read(codec, j);
    } else {
      var st := Rebuilt(env, codec, j);
      var front, k := keys[..|keys| - 1], keys[|keys| - 1];
      assert front + [k] == keys;
      notes := PassSettles(env, max, codec, j, files, front);
      var p := ReconcilePass(env, max, codec, st, j, files, front);
      if NeedsNote(env, max, p.st.entries, k, Lookup(files, k)) {
        var d := SettlingNote(env, max, codec, st.entries, Read(codec, j), files, front, p, notes, k);
        notes := notes + [d];
      } else {
        SettlingSkip(env, max, codec, st.entries, Read(codec, j), files, front, p, notes, k);
      }
    }
  }

  /**
   After a pass over every key the files or the journal know, no file needs a note: every
   storable file is the journal's last state of its entry, and every entry the journal
   holds live has a file.  A second pass, in any order, appends nothing.
   */
  lemma PassIsComplete(env: Env, max: int, codec: Codec, j: string, files: map<Key, File>, keys: seq<Key>,
                       again: seq<Key>, k: Key)
    requires Sound(env.hash) && Faithful(env, codec) && InOrder(codec, j)
    requires Distinct(keys) && (forall x :: x in keys ==> ValidKey(x))
    requires forall x :: x in files || x in Rebuilt(env, codec, j).entries ==> x in keys
    ensures var p := ReconcilePass(env, max, codec, Rebuilt(env, codec, j), j, files, keys);
            && !NeedsNote(env, max, p.st.entries, k, Lookup(files, k))
            && (k in files && Storable(env, max, k, files[k]) ==>
               && k in p.st.entries && p.st.entries[k].hash == env.hash(files[k].content)
               && p.st.entries[k].meta == MetaHash(env, files[k].meta))
            && (k in p.st.entries ==> k in files)
            && ReconcilePass(env, max, codec, p.st, p.journal, files, again) == Pass(p.journal, p.st, [])
  {
    var st := Rebuilt(env, codec, j);
    var p := ReconcilePass(env, max, codec, st, j, files, keys);
    var _ := PassSettles(env, max, codec, j, files, keys);
    forall x ensures !NeedsNote(env, max, p.st.entries, x, Lookup(files, x)) {
      AllNotedAt(env, max, st.entries, files, keys, x);
    }
    QuietPass(env, max, codec, p.journal, files, again);
  }

  lemma {:induction false} MoreRecordsLaterNumber(recs: seq<Change>, notes: seq<Change>)
    requires Increasing(recs + notes)
    ensures notes != [] ==> LastSeqno(recs + notes) > LastSeqno(recs)
  {
    var all := recs + notes;
    if notes != [] {
      assert recs != [] ==> all[|recs| - 1] == recs[|recs| - 1];
    }
  }

  /** Reconciling keeps the directory valid, whether or not the cursor is written back. */
  lemma ReconcileKeepsValid(env: Env, max: int, codec: Codec, d: Disk, keys: seq<Key>)
    requires ValidDisk(env, codec, d) && Distinct(keys) && forall k :: k in keys ==> ValidKey(k)
    ensures var st := Loaded(env, codec, d.saved, d.journal);
            var p := ReconcilePass(env, max, codec, st, d.journal, d.files, keys);
            && ValidDisk(env, codec, d.(journal := p.journal, saved := Some(p.st)))
            && (p.st.seqno == st.seqno ==> ValidDisk(env, codec, d.(journal := p.journal)))
  {
    var st := Rebuilt(env, codec, d.journal);
    var p := ReconcilePass(env, max, codec, st, d.journal, d.files, keys);
    var notes := PassSettles(env, max, codec, d.journal, d.files, keys);
    LoadsItself(env, codec, p.journal, p.st);
    MoreRecordsLaterNumber(Read(codec, d.journal), notes);
  }

  lemma {:induction false} QuietPass(env: Env, max: int, codec: Codec, j: string, files: map<Key, File>, keys: seq<Key>)
    requires forall x :: x in keys ==> !NeedsNote(env, max, Rebuilt(env, codec, j).entries, x, Lookup(files, x))
    ensures ReconcilePass(env, max, codec, Rebuilt(env, codec, j), j, files, keys) ==
            Pass(j, Rebuilt(env, codec, j), [])
  {
    if keys != [] {
      QuietPass(env, max, codec, j, files, keys[..|keys| - 1]);
      OutsideIffNeeded(env, max, codec, j, keys[|keys| - 1], Lookup(files, keys[|keys| - 1]));
    }
  }

  function KeyText(k: Key): string {
    k.scope + "/" + k.name
  }

  predicate FirstKey(keys: set<Key>, k: Key) {
    k in keys && forall x :: x in keys ==> Below(KeyText(k), KeyText(x))
  }

  lemma HasFirstKey(keys: set<Key>)
    requires keys != {}
    ensures exists k :: FirstKey(keys, k)
  {
    var some :| some in keys;
    var texts := set k | k in keys :: KeyText(k);
    assert KeyText(some) in texts;
    HasLeast(texts);
    var t :| IsLeast(texts, t);
    var k :| k in keys && KeyText(k) == t;
    assert FirstKey(keys, k);
  }

  ghost predicate InTextOrder(keys: seq<Key>) {
    forall i, j :: 0 <= i < j < |keys| ==> Below(KeyText(keys[i]), KeyText(keys[j]))
  }

  /** Every key once, in the byte order of their texts. */
  method SortKeys(all: set<Key>) returns (keys: seq<Key>)
    ensures Distinct(keys) && InTextOrder(keys) && forall k :: k in keys <==> k in all
  {
    keys := [];
    var todo := all;
    while todo != {}
      invariant todo <= all && Distinct(keys) && InTextOrder(keys)
      invariant forall k :: k in keys <==> k in all && k !in todo
      invariant forall i, x :: 0 <= i < |keys| && x in todo ==> Below(KeyText(keys[i]), KeyText(x))
      decreases todo
    {
      HasFirstKey(todo);
      var k :| FirstKey(todo, k);
      keys := keys + [k];
      todo := todo - {k};
    }
  }

  // The last record for a key, with one more item read.
  lemma LastNext(items: seq<L.Item>, i: nat, k: Key)
    requires i < |items|
    ensures LastFor(L.Records(items[..i + 1]), k) ==
            if items[i].Rec? && items[i].c.entry.key == k then Some(items[i].c) else LastFor(L.Records(items[..i]), k)
  {
    assert items[..i + 1][..i] == items[..i];
    var before := L.Records(items[..i]);
    if items[i].Rec? {
      LastForAppend(before, items[i].c, k);
    } else {
      assert before + [] == before;
    }
  }

  /******* The store *******/

  class Store {
    const env: Env
    const codec: Codec
    const max: int
    var files: map<Key, File>
    var journal: string
    var saved: Option<State>

    constructor (env: Env, codec: Codec, max: int)
      ensures this.env == env && this.codec == codec && this.max == max
      ensures View() == Disk(map[], "", None)
    {
      this.env, this.codec, this.max := env, codec, max;
      files, journal, saved := map[], "", None;
    }

    function View(): Disk
      reads this
    {
      Disk(files, journal, saved)
    }

    /** `lastRecordFor`: the whole journal is read for one entry's last record. */
    method LastRecordFor(k: Key) returns (last: Option<Change>)
      ensures last == LastFor(Read(codec, journal), k)
    {
      var _, items := ScanJournal(codec, journal, 0);
      assert journal[0..] == journal;
      ItemsRecords(codec, Lines(journal));
      last := None;
      for i := 0 to |items|
        invariant last == LastFor(L.Records(items[..i]), k)
      {
        LastNext(items, i, k);
        if items[i].Rec? && items[i].c.entry.key == k {
          last := Some(items[i].c);
        }
      }
      assert items[..|items|] == items;
    }

    method Outside(st: JournalState, k: Key, cur: Option<File>) returns (c: Option<Change>)
      ensures c == OutsideChange(env, max, st.View(), Read(codec, journal), k, cur)
    {
      var known := k in st.entries;
      match cur {
        case None =>
          if !known {
            return None;
          }
          var last := LastRecordFor(k);
          if last.None? {
            return None;
          }
          var held := st.entries[k].hash;
          c := Some(Change(0, last.value.entry.(deleted := true), held, held, "", SourceReconciled));
        case Some(f) =>
          if known && Agrees(env, st.entries[k], f) {
            return None;
          }
          var refused := RunCheckEntry(env, EntryOf(env, k, f), max, None);
          if refused.Some? {
            return None;
          }
          var held := if known then st.entries[k].hash else "";
          c := Some(Change(0, EntryOf(env, k, f), held, held, "", SourceReconciled));
      }
    }

    method NoteFound(st: JournalState, k: Key, cur: Option<File>)
      modifies this`journal, st
      ensures (journal, st.View()) == NoteOutside(env, max, codec, old(st.View()), old(journal), k, cur)
    {
      var c := Outside(st, k, cur);
      if c.Some? {
        var j, _ := st.Append(env, codec, journal, c.value);
        journal := j;
      }
    }

    method Put(given: Entry, o: PutOptions, session: string) returns (r: Result<Change, Error>)
      modifies this
      ensures (View(), r) == PutDisk(env, max, codec, old(View()), given, o, session)
    {
      var k := given.key;
      var bad := RunCheckEntry(env, given, 0, None);
      if bad.Some? {
        return Err(bad.value);
      }
      var stored := Lookup(files, k);
      var found := FoundEntry(env, k, stored);
      var refused := RunCheckEntry(env, given, max, found);
      if refused.Some? {
        return Err(refused.value);
      }
      var conflict := Check(env, o, found);
      if conflict.Some? {
        return Err(conflict.value);
      }
      var e := given.(hash := env.hash(given.content), deleted := false);
      var st, _ := LoadState(env, codec, saved, journal);
      var c := Write(st, e, o, stored, session);
      r := Ok(c);
    }

    // The write itself: the file, the note of what it replaces, the record and the cursor.
    method Write(st: JournalState, e: Entry, o: PutOptions, stored: Option<File>, session: string) returns (c: Change)
      modifies this, st
      ensures (View(), c) == Written(env, max, codec, old(View()), old(st.View()), e, o, stored, session)
    {
      files := files[e.key := File(e.content, e.meta)];
      NoteFound(st, e.key, stored);
      var held := HeldIn(st.entries, e.key);
      var prev := BaseFor(o, held);
      if stored.Some? && prev == env.hash(stored.value.content) && held != env.hash(stored.value.content) {
        prev := held;
      }
      var j;
      j, c := st.Append(env, codec, journal, Change(0, e, prev, held, session, ""));
      journal := j;
      saved := Some(st.View());
    }

    method Forget(k: Key, session: string) returns (r: Result<Change, Error>)
      modifies this
      ensures (View(), r) == ForgetDisk(env, max, codec, old(View()), k, session)
    {
      var scopeOk := CheckName(k.scope);
      var nameOk := CheckName(k.name);
      if !scopeOk || !nameOk {
        return Err(Invalid);
      }
      if k !in files {
        return Err(NotFound);
      }
      var stored := files[k];
      var st, _ := LoadState(env, codec, saved, journal);
      files := files - {k};
      NoteFound(st, k, Some(stored));
      var e := EntryOf(env, k, stored);
      var held := HeldIn(st.entries, k);
      if k !in st.entries || !Agrees(env, st.entries[k], stored) {
        var last := LastRecordFor(k);
        if last.Some? && !last.value.entry.deleted {
          e := last.value.entry;
        }
      }
      var j, c := st.Append(env, codec, journal, Change(0, e.(deleted := true), held, held, session, ""));
      journal := j;
      saved := Some(st.View());
      r := Ok(c);
    }

    // The loop over the keys.
    method NoteAll(st: JournalState, keys: seq<Key>) returns (changes: seq<Change>)
      modifies this`journal, st
      ensures Pass(journal, st.View(), changes) ==
              ReconcilePass(env, max, codec, old(st.View()), old(journal), files, keys)
    {
      changes := [];
      for i := 0 to |keys|
        invariant Pass(journal, st.View(), changes) ==
                  ReconcilePass(env, max, codec, old(st.View()), old(journal), files, keys[..i])
      {
        assert keys[..i + 1][..i] == keys[..i];
        var c := Outside(st, keys[i], Lookup(files, keys[i]));
        if c.Some? {
          var j, c' := st.Append(env, codec, journal, c.value);
          journal := j;
          changes := changes + [c'];
        }
      }
      assert keys[..|keys|] == keys;
    }

    /**
     `Reconcile`: one pass over the keys of the files and of the cursor, in order.  The
     cursor is written back when it was rebuilt or when the pass moved it.
     */
    method Reconcile() returns (changes: seq<Change>, keys: seq<Key>)
      modifies this
      ensures var st := Loaded(env, codec, old(saved), old(journal));
              var p := ReconcilePass(env, max, codec, st, old(journal), files, keys);
              && journal == p.journal && changes == p.changes
              && saved == (if !Resumed(env, old(saved), old(journal)) || p.st.seqno != st.seqno || p.st.off != st.off
                           then Some(p.st) else old(saved))
              && Distinct(keys) && (forall k :: k in keys <==> k in files || k in st.entries)
      ensures InTextOrder(keys) && files == old(files)
    {
      var st, read := LoadState(env, codec, saved, journal);
      var seqno, off := st.seqno, st.off;
      keys := SortKeys(files.Keys + st.entries.Keys);
      changes := NoteAll(st, keys);
      if !read || st.seqno != seqno || st.off != off {
        saved := Some(st.View());
      }
    }
  }
}
