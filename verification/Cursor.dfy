/**
 The cursor of the store (filestore/state.go): an offset into the journal, and a pair of
 hashes for each key.  Whatever the store does, it equals `Rebuilt`, the cursor that a
 read of the journal from byte 0 gives.
 */
module Cursor {
  import opened Common
  import opened Memory
  import opened Journal
  import L = LostUpdates

  datatype StateEntry = StateEntry(hash: string, meta: string)

  /** The cursor's fields, as .state.json holds them. */
  datatype State = State(seqno: nat, off: nat, head: string, entries: map<Key, StateEntry>)

  const Empty := State(0, 0, "", map[])

  /******* What the records say *******/

  function Noted(env: Env, entries: map<Key, StateEntry>, e: Entry): map<Key, StateEntry> {
    if e.deleted then entries - {e.key} else entries[e.key := StateEntry(e.hash, MetaHash(env, e.meta))]
  }

  function ReplayFrom(env: Env, entries: map<Key, StateEntry>, recs: seq<Change>): map<Key, StateEntry> {
    if recs == [] then entries
    else Noted(env, ReplayFrom(env, entries, recs[..|recs| - 1]), recs[|recs| - 1].entry)
  }

  function Replay(env: Env, recs: seq<Change>): map<Key, StateEntry> {
    ReplayFrom(env, map[], recs)
  }

  lemma {:induction false} ReplayConcat(env: Env, entries: map<Key, StateEntry>, a: seq<Change>, b: seq<Change>)
    ensures ReplayFrom(env, entries, a + b) == ReplayFrom(env, ReplayFrom(env, entries, a), b)
  {
    if b == [] {
      assert a + b == a;
    } else {
      assert (a + b)[..|a + b| - 1] == a + b[..|b| - 1];
      ReplayConcat(env, entries, a, b[..|b| - 1]);
    }
  }

  /** The replayed entries are the live ends of the chains. */
  lemma {:induction false} ReplayLast(env: Env, recs: seq<Change>, k: Key)
    ensures k in Replay(env, recs) <==> LastFor(recs, k).Some? && !LastFor(recs, k).value.entry.deleted
    ensures k in Replay(env, recs) ==>
              Replay(env, recs)[k] == StateEntry(LastFor(recs, k).value.entry.hash,
                MetaHash(env, LastFor(recs, k).value.entry.meta))
  {
    if recs != [] {
      ReplayLast(env, recs[..|recs| - 1], k);
    }
  }

  /** `held`: the hash under a key, "" when the key is absent. */
  function HeldIn(entries: map<Key, StateEntry>, k: Key): string {
    if k in entries then entries[k].hash else ""
  }

  lemma HeldIsHeldHash(env: Env, recs: seq<Change>, k: Key)
    ensures HeldIn(Replay(env, recs), k) == HeldHash(recs, k)
  {
    ReplayLast(env, recs, k);
  }

  /******* The file's first line *******/

  const HeadLimit := 65536

  /** `headLine`: the first line with its newline, cut at `HeadLimit` bytes. */
  function HeadLine(j: string): string {
    var t := if |j| > HeadLimit then j[..HeadLimit] else j;
    var i := FirstNl(t);
    if i == |t| then t else t[..i + 1]
  }

  lemma FirstNlAt(s: string, i: nat)
    requires i < |s| && s[i] == '\n' && forall k :: 0 <= k < i ==> s[k] != '\n'
    ensures FirstNl(s) == i
  {
  }

  /** Once a journal has a complete line, its head no longer changes as it grows. */
  lemma HeadStable(j: string, more: string, nl: nat)
    requires nl < |j| && j[nl] == '\n'
    ensures HeadLine(j + more) == HeadLine(j)
  {
    var i := FirstNl(j);
    var s := j + more;
    assert i < |j|;
    if i < HeadLimit {
      var t := if |j| > HeadLimit then j[..HeadLimit] else j;
      var u := if |s| > HeadLimit then s[..HeadLimit] else s;
      assert forall k :: 0 <= k <= i ==> t[k] == j[k] && u[k] == j[k];
      FirstNlAt(t, i);
      FirstNlAt(u, i);
      assert t[..i + 1] == u[..i + 1];
    } else {
      assert s[..HeadLimit] == j[..HeadLimit];
    }
  }

  /** The head is the file up to its first newline, that included, or up to 64 KiB. */
  lemma HeadIs(j: string)
    ensures var n := |HeadLine(j)|;
            && n <= |j| && n <= 65536 && HeadLine(j) == j[..n] && (forall i :: 0 <= i < n - 1 ==> j[i] != '\n')
            && (n == |j| || n == 65536 || (n > 0 && j[n - 1] == '\n'))
  {
  }

  // Two files that differ before the end of their first lines have other heads.
  lemma HeadsDiffer(a: string, b: string, i: nat)
    requires i < |a| && i < |b| && i < 65536 && a[..i] == b[..i] && NoNl(a[..i]) && a[i] != b[i]
    ensures HeadLine(a) != HeadLine(b)
  {
    HeadIs(a);
    HeadIs(b);
    assert forall k :: 0 <= k < i ==> a[k] == a[..i][k] && b[k] == b[..i][k];
    assert |HeadLine(a)| > i && |HeadLine(b)| > i;
    assert HeadLine(a)[i] == a[i] && HeadLine(b)[i] == b[i];
  }

  /******* Reading the journal whole, and from the cursor *******/

  /** What reading the journal whole gives. */
  function Rebuilt(env: Env, codec: Codec, j: string): State {
    State(LastSeqno(Read(codec, j)), EndOfLines(j), env.hash(HeadLine(j)), Replay(env, Read(codec, j)))
  }

  /** A cursor told of some records. */
  function Told(env: Env, st: State, recs: seq<Change>): State {
    st.(seqno := if recs == [] then st.seqno else LastSeqno(recs), entries := ReplayFrom(env, st.entries, recs))
  }

  lemma ToldMore(env: Env, st: State, recs: seq<Change>, c: Change)
    ensures var was := Told(env, st, recs);
            Told(env, st, recs + [c]) == was.(seqno := c.seqno, entries := Noted(env, was.entries, c.entry))
  {
    assert (recs + [c])[..|recs|] == recs && (recs + [c])[|recs|] == c;
  }

  /** What the records from the cursor on add to it. */
  function CaughtUp(env: Env, codec: Codec, st: State, j: string): State
    requires st.off <= |j|
  {
    Told(env, st, Read(codec, j[st.off..])).(off := st.off + EndOfLines(j[st.off..]))
  }

  /** What `loadState` returns for the cursor it read, none for one missing or unreadable. */
  function Loaded(env: Env, codec: Codec, saved: Option<State>, j: string): State {
    var st := if saved.Some? then saved.value else Empty;
    if st.head != env.hash(HeadLine(j)) || st.off > |j| then Rebuilt(env, codec, j) else CaughtUp(env, codec, st, j)
  }

  /**
   A cursor saved against another journal is not taken up: when the first lines differ
   within 64 KiB, or the offset is past the end, loading reads this journal whole.
   */
  lemma OtherJournalRebuilds(env: Env, codec: Codec, was: string, j: string, i: nat)
    requires Sound(env.hash)
    requires || EndOfLines(was) > |j|
             || (i < |was| && i < |j| && i < 65536 && was[..i] == j[..i] && NoNl(was[..i]) && was[i] != j[i])
    ensures Loaded(env, codec, Some(Rebuilt(env, codec, was)), j) == Rebuilt(env, codec, j)
  {
    if EndOfLines(was) <= |j| {
      HeadsDiffer(was, j, i);
    }
  }

  lemma PrefixLines(codec: Codec, j: string, a: string, t: string, more: string)
    requires j == a + t && (a == "" || a[|a| - 1] == '\n') && NoNl(t)
    ensures Read(codec, j + more) == Read(codec, j) + Read(codec, (j + more)[|a|..])
    ensures Tail(j + more) == Tail((j + more)[|a|..])
  {
    var b := t + more;
    assert j + more == a + b && (j + more)[|a|..] == b;
    assert Lines(a + b) == Lines(a) + Lines(b) && Tail(a + b) == Tail(b) by {
      LinesConcat(a, b);
    }
    assert Lines(j) == Lines(a) by {
      LinesExtend(a, t);
    }
    RecsConcat(codec, Lines(a), Lines(b));
  }

  lemma PrefixRead(codec: Codec, j: string, more: string)
    ensures var off := EndOfLines(j);
            && Read(codec, j + more) == Read(codec, j) + Read(codec, (j + more)[off..])
            && Tail(j + more) == Tail((j + more)[off..])
  {
    var a, t := SplitTail(j);
    PrefixLines(codec, j, a, t, more);
  }

  lemma SplitTail(j: string) returns (a: string, t: string)
    ensures j == a + t && (a == "" || a[|a| - 1] == '\n') && NoNl(t) && |a| == EndOfLines(j)
  {
    TailText(j);
    EndIsLineStart(j);
    a, t := j[..EndOfLines(j)], Tail(j);
  }

  lemma {:induction false} EndIsLineStart(j: string)
    ensures var off := EndOfLines(j); off <= |j| && (off > 0 ==> j[off - 1] == '\n')
  {
    if j != "" && j[|j| - 1] != '\n' {
      EndIsLineStart(j[..|j| - 1]);
    }
  }

  /**
   Loading a cursor saved against a journal, and catching up with any journal that
   extends it, gives what reading that journal whole gives: number, offset, head and
   entries.
   */
  lemma LoadCatchesUp(env: Env, codec: Codec, j: string, more: string)
    ensures Loaded(env, codec, Some(Rebuilt(env, codec, j)), j + more) == Rebuilt(env, codec, j + more)
  {
    var st, all := Rebuilt(env, codec, j), j + more;
    if st.head == env.hash(HeadLine(all)) {
      PrefixRead(codec, j, more);
      var seen, rest := Read(codec, j), Read(codec, all[st.off..]);
      ReplayConcat(env, map[], seen, rest);
      assert rest == [] ==> seen + rest == seen;
    }
  }

  // A cursor just saved is the one loaded.
  lemma LoadsItself(env: Env, codec: Codec, j: string, st: State)
    requires st == Rebuilt(env, codec, j)
    ensures Loaded(env, codec, Some(st), j) == st
  {
    LoadCatchesUp(env, codec, j, "");
    assert j + "" == j;
  }

  lemma LoadWithoutCursor(env: Env, codec: Codec, j: string)
    requires Sound(env.hash)
    ensures Loaded(env, codec, None, j) == Rebuilt(env, codec, j)
  {
  }

  /******* Appending *******/

  datatype Step = Step(journal: string, st: State, change: Change)

  /** `appendChange`: number the record, append it, advance the cursor. */
  function AppendChange(env: Env, codec: Codec, st: State, j: string, c: Change): Step {
    var tail := LastSeqno(Read(codec, j));
    var seqno := (if tail > st.seqno then tail else st.seqno) + 1;
    var c' := c.(seqno := seqno);
    var j' := Appended(codec, j, c');
    var head := if st.off == 0 then env.hash(HeadLine(j')) else st.head;
    Step(j', State(seqno, |j'|, head, Noted(env, st.entries, c.entry)), c')
  }

  /** A record whose line gives back the entry the cursor is told of. */
  predicate Notable(env: Env, c: Change) {
    && ValidKey(c.entry.key) && c.entry.hash != "" && (!c.entry.deleted ==> Clean(env, c.entry))
    && env.utf8(c.entry.hash) && env.utf8(c.replaced) && env.utf8(c.source)
  }

  lemma NotableNoted(env: Env, codec: Codec, c: Change, entries: map<Key, StateEntry>)
    requires Faithful(env, codec) && Notable(env, c) && c.seqno > 0
    ensures ReadsBack(env, codec, c)
    ensures Noted(env, entries, codec.dec(codec.enc(c)).value.entry) == Noted(env, entries, c.entry)
  {
    assert Recordable(env, c);
    assert ReadsBack(env, codec, c);
  }

  /** The cut-off line, ended by the append, tells the entries nothing the append does not settle. */
  predicate TailUnseen(env: Env, codec: Codec, st: State, j: string, c: Change) {
    var t := TailRecord(codec, j);
    t == [] || t[0].entry.key == c.entry.key || Noted(env, st.entries, t[0].entry) == st.entries
  }

  lemma NotedTwice(env: Env, entries: map<Key, StateEntry>, d: Entry, e: Entry)
    ensures Noted(env, Noted(env, entries, d), e) == Noted(env, entries, e)
            <==> d.key == e.key || Noted(env, entries, d) == entries
  {
    var once, twice := Noted(env, entries, e), Noted(env, Noted(env, entries, d), e);
    var dn := Noted(env, entries, d);
    if d.key != e.key && dn != entries {
      assert (d.key in entries) != (d.key in dn) ||
             (d.key in entries && d.key in dn && entries[d.key] != dn[d.key]) by {
        if d.deleted {
          assert d.key !in entries ==> dn == entries;
        } else {
          assert d.key in entries && entries[d.key] == dn[d.key] ==> dn == entries;
        }
      }
      assert d.key in once <==> d.key in entries;
      assert d.key in twice <==> d.key in dn;
    }
  }

  // What reading the journal whole gives after an append.
  lemma AppendedState(env: Env, codec: Codec, j: string, c: Change)
    requires Faithful(env, codec) && Notable(env, c) && c.seqno > 0
    ensures var r := Rebuilt(env, codec, Appended(codec, j, c));
            && r.seqno == c.seqno && r.off == |Appended(codec, j, c)|
            && (EndOfLines(j) > 0 ==> r.head == env.hash(HeadLine(j)))
            && r.entries == Noted(env, ReplayFrom(env, Replay(env, Read(codec, j)), TailRecord(codec, j)), c.entry)
  {
    assert Recordable(env, c);
    AppendRecords(env, codec, j, c);
    var recs, t, d := Read(codec, j), TailRecord(codec, j), codec.dec(codec.enc(c)).value;
    ReplayConcat(env, map[], recs + t, [d]);
    ReplayConcat(env, map[], recs, t);
    ReplayOne(env, ReplayFrom(env, map[], recs + t), d);
    NotableNoted(env, codec, c, ReplayFrom(env, map[], recs + t));
    assert (recs + t + [d])[|recs + t|] == d;
    if EndOfLines(j) > 0 {
      EndIsLineStart(j);
      HeadStable(j, AppendBytes(j, codec.enc(c)), EndOfLines(j) - 1);
    }
  }

  /**
   An append keeps a cursor that agrees with its journal in agreement, and ends a cut-off
   line as it does so, if and only if that line is not a record, or is one the cursor
   would not have noticed.
   */
  lemma AppendAgrees(env: Env, codec: Codec, st: State, j: string, c: Change)
    requires Faithful(env, codec) && Notable(env, c) && st == Rebuilt(env, codec, j)
    ensures var s := AppendChange(env, codec, st, j, c);
            && s.change.seqno == LastSeqno(Read(codec, j)) + 1
            && Recordable(env, s.change)
            && (s.st == Rebuilt(env, codec, s.journal) <==> TailUnseen(env, codec, st, j, c))
  {
    var s := AppendChange(env, codec, st, j, c);
    AppendedState(env, codec, j, s.change);
    var t := TailRecord(codec, j);
    if t != [] {
      ReplayOne(env, st.entries, t[0]);
      assert t == [t[0]];
      NotedTwice(env, st.entries, t[0].entry, c.entry);
    }
  }

  lemma ReplayOne(env: Env, entries: map<Key, StateEntry>, c: Change)
    ensures ReplayFrom(env, entries, [c]) == Noted(env, entries, c.entry)
  {
    assert [c][..0] == [];
  }

  /******* The cursor in memory *******/

  class JournalState {
    var seqno: nat
    var off: nat
    var head: string
    var entries: map<Key, StateEntry>

    function View(): State
      reads this
    {
      State(seqno, off, head, entries)
    }

    constructor (st: State)
      ensures View() == st
    {
      seqno, off, head, entries := st.seqno, st.off, st.head, st.entries;
    }

    /** The entry's hashes as the record leaves them, or nothing once it is a tombstone. */
    method Note(env: Env, e: Entry)
      modifies this
      ensures View() == old(View()).(entries := Noted(env, old(entries), e))
    {
      if e.deleted {
        entries := entries - {e.key};
      } else {
        var meta := ComputeMetaHash(env, e.meta);
        entries := entries[e.key := StateEntry(e.hash, meta)];
      }
    }

    /** Takes in what a scan yielded: damaged lines are the readers' to report. */
    method NoteAll(env: Env, items: seq<L.Item>)
      modifies this
      ensures View() == Told(env, old(View()), L.Records(items))
    {
      assert items[..0] == [];
      for i := 0 to |items|
        invariant View() == Told(env, old(View()), L.Records(items[..i]))
      {
        L.RecordsNext(items, i);
        if items[i].Rec? {
          ToldMore(env, old(View()), L.Records(items[..i]), items[i].c);
          seqno := items[i].c.seqno;
          Note(env, items[i].c.entry);
        }
      }
      assert items[..|items|] == items;
    }

    // Scans from the offset on and takes in what it yields; the offset itself is the caller's to move.
    method ReadOn(env: Env, codec: Codec, j: string) returns (end: nat)
      modifies this
      ensures old(off) > |j| ==> end == |j| && View() == old(View())
      ensures old(off) <= |j| ==>
                && end == old(off) + EndOfLines(j[old(off)..])
                && View() == Told(env, old(View()), Read(codec, j[old(off)..]))
    {
      var items;
      end, items := ScanJournal(codec, j, off);
      if off <= |j| {
        ItemsRecords(codec, Lines(j[off..]));
      }
      NoteAll(env, items);
    }

    /** `appendChange`, over the journal file `j`: the new file and the numbered record. */
    method Append(env: Env, codec: Codec, j: string, c: Change) returns (j': string, c': Change)
      modifies this
      ensures Step(j', View(), c') == AppendChange(env, codec, old(View()), j, c)
    {
      var tail := LastSeq(codec, j, 4096);
      if tail > seqno {
        seqno := tail;
      }
      c' := c.(seqno := seqno + 1);
      j' := Appended(codec, j, c');
      var first := off == 0;
      seqno, off := c'.seqno, |j'|;
      Note(env, c.entry);
      if first {
        head := env.hash(HeadLine(j'));
      }
    }
  }

  method RebuildState(env: Env, codec: Codec, j: string) returns (st: JournalState)
    ensures fresh(st) && st.View() == Rebuilt(env, codec, j)
  {
    st := new JournalState(Empty);
    var off, items := ScanJournal(codec, j, 0);
    assert j[0..] == j;
    ItemsRecords(codec, Lines(j));
    st.NoteAll(env, items);
    st.off, st.head := off, env.hash(HeadLine(j));
  }

  /** The cursor read is of this journal, so it is kept and caught up rather than rebuilt. */
  predicate Resumed(env: Env, saved: Option<State>, j: string) {
    saved.Some? && saved.value.head == env.hash(HeadLine(j)) && saved.value.off <= |j|
  }

  /** `loadState`; `read` is whether a saved cursor was taken up. */
  method LoadState(env: Env, codec: Codec, saved: Option<State>, j: string) returns (st: JournalState, read: bool)
    ensures fresh(st) && st.View() == Loaded(env, codec, saved, j)
    ensures read == Resumed(env, saved, j)
  {
    st := new JournalState(if saved.Some? then saved.value else Empty);
    read := saved.Some?;
    if st.head != env.hash(HeadLine(j)) {
      st := RebuildState(env, codec, j);
      return st, false;
    }
    var off := st.ReadOn(env, codec, j);
    if off < st.off {
      st := RebuildState(env, codec, j);
      return st, false;
    }
    st.off := off;
  }

  /******* A journal in order *******/

  /** Numbers increase, every record continues its chain, and the cut-off line is not a record. */
  ghost predicate InOrder(codec: Codec, j: string) {
    Increasing(Read(codec, j)) && Chained(Read(codec, j)) && TailRecord(codec, j) == []
  }

  /**
   Appending, with a cursor that agrees with the journal, a record that names what the
   journal holds as what it replaced, keeps the journal in order and the cursor agreeing,
   and adds that one record.
   */
  lemma AppendKeeps(env: Env, codec: Codec, st: State, j: string, c: Change)
    requires Faithful(env, codec) && Notable(env, c) && st == Rebuilt(env, codec, j) && InOrder(codec, j)
    requires c.replaced == HeldHash(Read(codec, j), c.entry.key)
    ensures var s := AppendChange(env, codec, st, j, c);
            && s.st == Rebuilt(env, codec, s.journal) && InOrder(codec, s.journal)
            && Recordable(env, s.change) && s.change.seqno == LastSeqno(Read(codec, j)) + 1
            && ReadsBack(env, codec, s.change)
            && Read(codec, s.journal) == Read(codec, j) + [codec.dec(codec.enc(s.change)).value]
  {
    var s := AppendChange(env, codec, st, j, c);
    AppendAgrees(env, codec, st, j, c);
    assert ReadsBack(env, codec, s.change);
    AppendRecords(env, codec, j, s.change);
    var recs, d := Read(codec, j), codec.dec(codec.enc(s.change)).value;
    assert recs + [] + [d] == recs + [d];
    IncreasingAppend(recs, d);
    ChainedAppend(recs, d);
  }
}
