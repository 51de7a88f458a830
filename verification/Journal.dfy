/**
 The journal file (filestore/journal.go): an append-only text of one record a line,
 whose last line may be cut off.  JSON is a parameter, a `Codec`; what the proofs need
 of it is written out in `Faithful`.
 */
module Journal {
  import opened Common
  import opened Memory
  import L = LostUpdates

  /** `enc` is json.Marshal, `dec` is decodeRecord, `blank` is a line of white space. */
  datatype Codec = Codec(enc: Change -> string, dec: string -> Option<Change>, blank: string -> bool)

  /** What decodeRecord demands of a record, whose hashes and source are text that JSON keeps. */
  predicate Recordable(env: Env, c: Change) {
    && c.seqno > 0 && ValidKey(c.entry.key) && c.entry.hash != ""
    && env.utf8(c.entry.hash) && env.utf8(c.replaced) && env.utf8(c.source)
  }

  predicate Clean(env: Env, e: Entry) {
    env.utf8(e.content) && forall k :: k in e.meta ==> ValidName(k) && env.utf8(e.meta[k])
  }

  /**
   What a record keeps through its line: its place in the chain always, and its whole
   entry when that is valid UTF-8, which JSON needs.
   */
  predicate Kept(env: Env, c: Change, d: Change) {
    && d.seqno == c.seqno && d.replaced == c.replaced && d.source == c.source
    && d.entry.key == c.entry.key && d.entry.hash == c.entry.hash && d.entry.deleted == c.entry.deleted
    && (c.prev == c.replaced ==> d.prev == d.replaced)
    && (env.utf8(c.prev) ==> d.prev == c.prev) && (env.utf8(c.session) ==> d.session == c.session)
    && (Clean(env, c.entry) ==> d.entry == c.entry)
  }

  /** A line a reader takes for a record. */
  predicate Readable(codec: Codec, line: string) {
    !codec.blank(line) && codec.dec(line).Some?
  }

  /** A record's line holds no newline and reads back. */
  predicate ReadsBack(env: Env, codec: Codec, c: Change) {
    var line := codec.enc(c);
    NoNl(line) && line != "" && Readable(codec, line) && Kept(env, c, codec.dec(line).value)
  }

  /** Cut short, it is not a record. */
  predicate CutIsDamage(codec: Codec, c: Change, n: nat) {
    n < |codec.enc(c)| ==> !Readable(codec, codec.enc(c)[..n])
  }

  predicate OnlyRecords(env: Env, codec: Codec, line: string) {
    codec.dec(line).Some? ==> Recordable(env, codec.dec(line).value)
  }

  /** Digests, and the store's own constants, are valid UTF-8. */
  ghost predicate Legible(env: Env) {
    (forall x :: env.utf8(env.hash(x))) && env.utf8("") && env.utf8(SourceReconciled)
  }

  /** What JSON gives. */
  ghost predicate Faithful(env: Env, codec: Codec) {
    && Legible(env)
    && (forall c :: Recordable(env, c) ==> ReadsBack(env, codec, c))
    && (forall c, n :: Recordable(env, c) ==> CutIsDamage(codec, c, n))
    && (forall line :: OnlyRecords(env, codec, line))
  }

  /******* Lines *******/

  predicate NoNl(s: string) {
    forall i :: 0 <= i < |s| ==> s[i] != '\n'
  }

  /** The complete lines of a file, without their newlines. */
  function Lines(s: string): seq<string> {
    if s == "" then []
    else
      var front := s[..|s| - 1];
      if s[|s| - 1] == '\n' then Lines(front) + [Tail(front)] else Lines(front)
  }

  /** What follows the last newline: a line that was cut off, or nothing. */
  function Tail(s: string): (t: string)
    ensures |t| <= |s|
  {
    if s == "" || s[|s| - 1] == '\n' then "" else Tail(s[..|s| - 1]) + [s[|s| - 1]]
  }

  lemma {:induction false} TailText(s: string)
    ensures NoNl(Tail(s)) && s == s[..|s| - |Tail(s)|] + Tail(s)
    ensures Tail(s) == "" <==> s == "" || s[|s| - 1] == '\n'
  {
    if s != "" && s[|s| - 1] != '\n' {
      TailText(s[..|s| - 1]);
      var t := Tail(s[..|s| - 1]);
      assert s == s[..|s| - 1] + [s[|s| - 1]];
      assert s[..|s| - 1][..|s| - 1 - |t|] == s[..|s| - 1 - |t|];
    }
  }

  /** A newline ends the line before it, whatever comes after. */
  lemma {:induction false} LinesJoin(a: string, b: string)
    ensures Lines(a + "\n" + b) == Lines(a) + [Tail(a)] + Lines(b)
    ensures Tail(a + "\n" + b) == Tail(b)
  {
    var s := a + "\n" + b;
    if b == "" {
      assert s[..|s| - 1] == a;
    } else {
      assert s[..|s| - 1] == a + "\n" + b[..|b| - 1];
      LinesJoin(a, b[..|b| - 1]);
    }
  }

  lemma EndLine(a: string)
    ensures Lines(a + "\n") == Lines(a) + [Tail(a)] && Tail(a + "\n") == ""
  {
    assert (a + "\n")[..|a|] == a;
  }

  /** Bytes without a newline extend the cut-off line and nothing else. */
  lemma {:induction false} LinesExtend(a: string, b: string)
    requires NoNl(b)
    ensures Lines(a + b) == Lines(a) && Tail(a + b) == Tail(a) + b
  {
    if b == "" {
      assert a + b == a;
    } else {
      assert (a + b)[..|a + b| - 1] == a + b[..|b| - 1];
      LinesExtend(a, b[..|b| - 1]);
    }
  }

  lemma OneLine(l: string)
    requires NoNl(l)
    ensures Lines(l) == [] && Tail(l) == l
  {
    LinesExtend("", l);
    assert "" + l == l;
  }

  /** Where the file's complete lines end. */
  function EndOfLines(s: string): nat {
    |s| - |Tail(s)|
  }

  lemma LinesConcat(a: string, b: string)
    requires a == "" || a[|a| - 1] == '\n'
    ensures Lines(a + b) == Lines(a) + Lines(b) && Tail(a + b) == Tail(b)
  {
    if a == "" {
      assert a + b == b;
    } else {
      var front := a[..|a| - 1];
      assert a + b == front + "\n" + b;
      LinesJoin(front, b);
    }
  }

  // The same of text given whole.
  lemma LinesOfHalves(s: string, a: string, b: string)
    requires s == a + b && (a == "" || a[|a| - 1] == '\n')
    ensures Lines(s) == Lines(a) + Lines(b) && Tail(s) == Tail(b)
  {
    LinesConcat(a, b);
  }

  lemma Halves(s: string, off: nat)
    requires off <= |s|
    ensures s == s[..off] + s[off..] && (off > 0 ==> s[..off][off - 1] == s[off - 1])
  {
  }

  /** Reading on from where a line starts reads the rest of the lines. */
  lemma LinesFrom(s: string, off: nat)
    requires off <= |s| && (off > 0 ==> s[off - 1] == '\n')
    ensures Lines(s) == Lines(s[..off]) + Lines(s[off..]) && Tail(s) == Tail(s[off..])
  {
    var a, b := s[..off], s[off..];
    assert s == a + b && (a == "" || a[|a| - 1] == '\n') by {
      Halves(s, off);
    }
    LinesOfHalves(s, a, b);
  }

  /** The place of the first newline, or the length. */
  function FirstNl(s: string): (i: nat)
    ensures i <= |s| && (i < |s| ==> s[i] == '\n')
    ensures forall k :: 0 <= k < i ==> s[k] != '\n'
  {
    if s == "" || s[0] == '\n' then 0 else 1 + FirstNl(s[1..])
  }

  /** `bytes.LastIndexByte(s, '\n')`. */
  function LastNl(s: string): (i: int)
    ensures -1 <= i < |s| && (i >= 0 ==> s[i] == '\n')
    ensures forall k :: i < k < |s| ==> s[k] != '\n'
  {
    if s == "" then -1 else if s[|s| - 1] == '\n' then |s| - 1 else LastNl(s[..|s| - 1])
  }

  /******* Records *******/

  function LineRecord(codec: Codec, l: string): seq<Change> {
    if Readable(codec, l) then [codec.dec(l).value] else []
  }

  /** The records of the lines, in order. */
  function Recs(codec: Codec, ls: seq<string>): seq<Change> {
    if ls == [] then [] else Recs(codec, ls[..|ls| - 1]) + LineRecord(codec, ls[|ls| - 1])
  }

  /** What a scan yields of a line: nothing for a blank one, damage for one that is not a record. */
  function LineItem(codec: Codec, l: string): seq<L.Item> {
    if codec.blank(l) then [] else
      match codec.dec(l) case Some(c) => [L.Rec(c)] case None => [L.Damage]
  }

  function Items(codec: Codec, ls: seq<string>): seq<L.Item> {
    if ls == [] then [] else Items(codec, ls[..|ls| - 1]) + LineItem(codec, ls[|ls| - 1])
  }

  lemma {:induction false} RecsConcat(codec: Codec, a: seq<string>, b: seq<string>)
    ensures Recs(codec, a + b) == Recs(codec, a) + Recs(codec, b)
  {
    if b == [] {
      assert a + b == a;
    } else {
      assert (a + b)[..|a + b| - 1] == a + b[..|b| - 1];
      RecsConcat(codec, a, b[..|b| - 1]);
    }
  }

  lemma {:induction false} ItemsRecords(codec: Codec, ls: seq<string>)
    ensures L.Records(Items(codec, ls)) == Recs(codec, ls)
  {
    if ls != [] {
      var front, l := ls[..|ls| - 1], ls[|ls| - 1];
      ItemsRecords(codec, front);
      var items := Items(codec, front);
      if codec.blank(l) {
        assert items + [] == items;
      } else {
        var item := LineItem(codec, l)[0];
        assert (items + [item])[..|items|] == items;
      }
    }
  }

  /** How many of the lines are neither blank nor records. */
  function Damaged(codec: Codec, ls: seq<string>): nat {
    if ls == [] then 0
    else
      var l := ls[|ls| - 1];
      Damaged(codec, ls[..|ls| - 1]) + if !codec.blank(l) && codec.dec(l).None? then 1 else 0
  }

  /** A scan yields the records, and an error for each damaged line, no line of white space among them. */
  lemma {:induction false} ItemsDamage(codec: Codec, ls: seq<string>)
    ensures L.DamageIn(Items(codec, ls)) == Damaged(codec, ls)
    ensures |Items(codec, ls)| == |Recs(codec, ls)| + Damaged(codec, ls)
  {
    if ls != [] {
      var front, l := ls[..|ls| - 1], ls[|ls| - 1];
      ItemsDamage(codec, front);
      var items := Items(codec, front);
      if codec.blank(l) {
        assert items + [] == items;
      } else {
        var item := LineItem(codec, l)[0];
        assert (items + [item])[..|items|] == items;
      }
    }
  }

  /** The records a reader of the file finds. */
  function Read(codec: Codec, j: string): seq<Change> {
    Recs(codec, Lines(j))
  }

  /** The record the cut-off line would be if it were ended, when it is one. */
  function TailRecord(codec: Codec, j: string): seq<Change> {
    if Tail(j) == "" then [] else LineRecord(codec, Tail(j))
  }

  /******* Appending *******/

  /** The bytes `appendJournal` writes: a cut-off line is ended first. */
  function AppendBytes(j: string, line: string): string {
    (if Tail(j) != "" then "\n" else "") + line + "\n"
  }

  /** The journal after a whole append, and after one cut off after `n` of its bytes. */
  function Appended(codec: Codec, j: string, c: Change): string {
    j + AppendBytes(j, codec.enc(c))
  }

  function Torn(codec: Codec, j: string, c: Change, n: nat): string
    requires n <= |AppendBytes(j, codec.enc(c))|
  {
    j + AppendBytes(j, codec.enc(c))[..n]
  }

  lemma AppendLines(j: string, line: string)
    requires NoNl(line)
    ensures Lines(j + AppendBytes(j, line)) == Lines(j) + (if Tail(j) != "" then [Tail(j)] else []) + [line]
    ensures Tail(j + AppendBytes(j, line)) == ""
  {
    if Tail(j) != "" {
      assert j + AppendBytes(j, line) == (j + "\n" + line) + "\n";
      EndLine(j + "\n" + line);
      LinesJoin(j, line);
      OneLine(line);
      assert Lines(j) + [Tail(j)] + [] == Lines(j) + [Tail(j)];
    } else {
      assert j + AppendBytes(j, line) == (j + line) + "\n";
      EndLine(j + line);
      LinesExtend(j, line);
      assert "" + line == line && Lines(j) + [] == Lines(j);
    }
  }

  /** A whole append adds its own record, and makes a record of the cut-off line if that reads as one. */
  lemma AppendRecords(env: Env, codec: Codec, j: string, c: Change)
    requires Faithful(env, codec) && Recordable(env, c)
    ensures Read(codec, Appended(codec, j, c)) ==
            Read(codec, j) + TailRecord(codec, j) + [codec.dec(codec.enc(c)).value]
    ensures Tail(Appended(codec, j, c)) == ""
  {
    var line := codec.enc(c);
    assert ReadsBack(env, codec, c);
    AppendLines(j, line);
    var t := if Tail(j) != "" then [Tail(j)] else [];
    RecsConcat(codec, Lines(j) + t, [line]);
    RecsConcat(codec, Lines(j), t);
    assert [line][..0] == [] && (t != [] ==> t[..0] == []);
    assert Recs(codec, [line]) == LineRecord(codec, line);
    assert Recs(codec, t) == TailRecord(codec, j);
  }

  lemma EndedTail(codec: Codec, j: string, p: string)
    requires NoNl(p) && Tail(j) != ""
    ensures Read(codec, j + "\n" + p) == Read(codec, j) + TailRecord(codec, j)
    ensures Tail(j + "\n" + p) == p
  {
    LinesJoin(j, p);
    OneLine(p);
    RecsConcat(codec, Lines(j), [Tail(j)]);
    assert Lines(j) + [Tail(j)] + [] == Lines(j) + [Tail(j)];
    assert [Tail(j)][..0] == [];
  }

  // What a write of `line` cut off after `n` bytes leaves, before anything is asked of the codec.
  lemma TornLines(codec: Codec, j: string, line: string, n: nat)
    requires NoNl(line) && 0 < n < |AppendBytes(j, line)|
    ensures var torn := j + AppendBytes(j, line)[..n];
            && Read(codec, torn) == Read(codec, j) + TailRecord(codec, j)
            && Tail(torn) == line[..if Tail(j) != "" then n - 1 else n]
  {
    var torn := j + AppendBytes(j, line)[..n];
    if Tail(j) != "" {
      var p := line[..n - 1];
      assert torn == j + "\n" + p;
      EndedTail(codec, j, p);
    } else {
      var p := line[..n];
      assert torn == j + p;
      LinesExtend(j, p);
      assert "" + p == p;
    }
  }

  /**
   An append cut off anywhere adds no record of its own; it may end the line cut off
   before it.  What it leaves at the end reads as a record only if the cut lost the
   newline alone.
   */
  lemma TornRecords(env: Env, codec: Codec, j: string, c: Change, n: nat)
    requires Faithful(env, codec) && Recordable(env, c)
    requires n < |AppendBytes(j, codec.enc(c))|
    ensures Read(codec, Torn(codec, j, c, n)) == Read(codec, j) + (if n == 0 then [] else TailRecord(codec, j))
    ensures TailRecord(codec, Torn(codec, j, c, n)) ==
            if n == 0 then TailRecord(codec, j)
            else if n == |AppendBytes(j, codec.enc(c))| - 1 then [codec.dec(codec.enc(c)).value]
            else []
  {
    var line := codec.enc(c);
    assert ReadsBack(env, codec, c);
    if n == 0 {
      assert Torn(codec, j, c, n) == j;
    } else {
      TornLines(codec, j, line, n);
      var m := if Tail(j) != "" then n - 1 else n;
      assert CutIsDamage(codec, c, m);
      assert m == |line| ==> line[..m] == line;
    }
  }

  /**
   When the numbers increase along the journal, an append numbered one past its last
   record keeps them increasing if and only if the cut-off line it ends is not itself a
   record.
   */
  lemma AppendIncreasing(env: Env, codec: Codec, j: string, c: Change)
    requires Faithful(env, codec) && Recordable(env, c)
    requires Increasing(Read(codec, j)) && c.seqno == LastSeqno(Read(codec, j)) + 1
    ensures Increasing(Read(codec, Appended(codec, j, c))) <==> TailRecord(codec, j) == []
  {
    AppendRecords(env, codec, j, c);
    assert ReadsBack(env, codec, c);
    NumberedIncreasing(Read(codec, j), TailRecord(codec, j), codec.dec(codec.enc(c)).value);
  }

  lemma NumberedIncreasing(recs: seq<Change>, between: seq<Change>, c: Change)
    requires Increasing(recs) && c.seqno == LastSeqno(recs) + 1
    ensures Increasing(recs + between + [c]) <==> between == []
  {
    var all := recs + between + [c];
    if between == [] {
      assert all == recs + [c];
      IncreasingAppend(recs, c);
    } else {
      assert all[|recs|] == between[0] && all[|all| - 1] == c;
      assert recs != [] ==> all[|recs| - 1] == recs[|recs| - 1];
    }
  }

  // A cut that loses the last newline alone leaves the record where only the next append will end it.
  lemma LostNewlineLeaves(env: Env, codec: Codec, j: string, c: Change, torn: string)
    requires Faithful(env, codec) && Recordable(env, c) && TailRecord(codec, j) == []
    requires torn == Torn(codec, j, c, |AppendBytes(j, codec.enc(c))| - 1)
    ensures ReadsBack(env, codec, c)
    ensures Read(codec, torn) == Read(codec, j) && TailRecord(codec, torn) == [codec.dec(codec.enc(c)).value]
  {
    assert ReadsBack(env, codec, c);
    TornRecords(env, codec, j, c, |AppendBytes(j, codec.enc(c))| - 1);
  }

  /**
   The number may be given twice: an append that loses its last newline alone, and the
   next append after it, whatever it is, end with two records of one number.
   */
  lemma LostNewlineRepeats(env: Env, codec: Codec, j: string, c: Change, torn: string, next: Change)
    requires Faithful(env, codec) && Recordable(env, c) && Recordable(env, next)
    requires Increasing(Read(codec, j)) && TailRecord(codec, j) == []
    requires c.seqno == LastSeqno(Read(codec, j)) + 1
    requires torn == Torn(codec, j, c, |AppendBytes(j, codec.enc(c))| - 1)
    requires next.seqno == LastSeqno(Read(codec, torn)) + 1
    ensures var recs := Read(codec, Appended(codec, torn, next));
            && |recs| >= 2 && recs[|recs| - 2].seqno == recs[|recs| - 1].seqno == c.seqno
            && !Increasing(recs)
  {
    LostNewlineLeaves(env, codec, j, c, torn);
    assert ReadsBack(env, codec, next);
    AppendRecords(env, codec, torn, next);
    RepeatedNumber(Read(codec, j), codec.dec(codec.enc(c)).value, codec.dec(codec.enc(next)).value);
  }

  lemma RepeatedNumber(recs: seq<Change>, c: Change, d: Change)
    requires c.seqno == d.seqno
    ensures var all := recs + [c] + [d];
            all[|all| - 2].seqno == all[|all| - 1].seqno && !Increasing(all)
  {
    var all := recs + [c] + [d];
    assert all[|recs|] == c && all[|recs| + 1] == d;
  }

  /******* Reading forwards *******/

  lemma FirstLine(l: string, b: string, s: string)
    requires s == l + "\n" + b && NoNl(l)
    ensures Lines(s) == [l] + Lines(b) && Tail(s) == Tail(b)
  {
    LinesJoin(l, b);
    OneLine(l);
  }

  lemma CutAt(s: string, n: nat)
    requires n < |s| && s[n] == '\n'
    ensures s == s[..n] + "\n" + s[n + 1..]
  {
  }

  lemma ScanLine(rest: string, n: nat)
    requires n < |rest| && rest[n] == '\n' && NoNl(rest[..n])
    ensures Lines(rest) == [rest[..n]] + Lines(rest[n + 1..]) && Tail(rest) == Tail(rest[n + 1..])
  {
    CutAt(rest, n);
    FirstLine(rest[..n], rest[n + 1..], rest);
  }

  // A scan of `j` from `off` has read the lines `seen`, up to `end`.
  ghost predicate Scanned(j: string, off: nat, end: nat, seen: seq<string>) {
    && off <= end <= |j|
    && seen + Lines(j[end..]) == Lines(j[off..]) && Tail(j[end..]) == Tail(j[off..])
  }

  lemma ScanNext(j: string, off: nat, end: nat, seen: seq<string>, rest: string, n: nat, next: nat)
    requires Scanned(j, off, end, seen) && rest == j[end..] && n == FirstNl(rest) && n < |rest| && next == end + n + 1
    ensures Scanned(j, off, next, seen + [rest[..n]])
  {
    ScanLine(rest, n);
    assert rest[n + 1..] == j[next..];
    assert seen + [rest[..n]] + Lines(j[next..]) == seen + ([rest[..n]] + Lines(j[next..]));
  }

  lemma ScanDone(j: string, off: nat, end: nat, seen: seq<string>, rest: string)
    requires Scanned(j, off, end, seen) && rest == j[end..] && FirstNl(rest) == |rest|
    ensures seen == Lines(j[off..]) && end == off + EndOfLines(j[off..])
  {
    OneLine(rest);
    assert seen + [] == seen;
  }

  /** `scanJournal`: the items of the complete lines from `off` on, and where those lines end. */
  method ScanJournal(codec: Codec, j: string, off: nat) returns (end: nat, items: seq<L.Item>)
    ensures off > |j| ==> end == |j| && items == []
    ensures off <= |j| ==> end == off + EndOfLines(j[off..]) && items == Items(codec, Lines(j[off..]))
  {
    if off > |j| {
      return |j|, [];
    }
    end := off;
    items := [];
    ghost var seen: seq<string> := [];
    while true
      invariant Scanned(j, off, end, seen)
      invariant items == Items(codec, seen)
      decreases |j| - end
    {
      var rest := j[end..];
      var n := FirstNl(rest);
      if n == |rest| {
        ScanDone(j, off, end, seen, rest);
        return;
      }
      var line, next := rest[..n], end + n + 1;
      ScanNext(j, off, end, seen, rest, n, next);
      ItemsSnoc(codec, seen, line);
      end := next;
      seen := seen + [line];
      items := items + LineItem(codec, line);
    }
  }

  lemma ItemsSnoc(codec: Codec, ls: seq<string>, l: string)
    ensures Items(codec, ls + [l]) == Items(codec, ls) + LineItem(codec, l)
    ensures codec.blank(l) ==> Items(codec, ls + [l]) == Items(codec, ls)
  {
    assert (ls + [l])[..|ls|] == ls;
  }

  /******* Reading backwards *******/

  /** What `fn` is called with, from the last line back, until it says to stop. */
  function Backwards(ls: seq<string>, more: string -> bool): seq<string> {
    if ls == [] then []
    else if more(ls[|ls| - 1]) then [ls[|ls| - 1]] + Backwards(ls[..|ls| - 1], more)
    else [ls[|ls| - 1]]
  }

  lemma LinesEnd(a: string, line: string, g: string)
    requires g == a + (line + "\n") && NoNl(line) && (a == "" || a[|a| - 1] == '\n')
    ensures Lines(g) == Lines(a) + [line]
  {
    OneLine(line);
    EndLine(line);
    LinesConcat(a, line + "\n");
  }

  lemma LastLine(f: string, begin: nat, end: nat)
    requires begin <= end < |f| && f[end] == '\n' && NoNl(f[begin..end])
    requires begin > 0 ==> f[begin - 1] == '\n'
    ensures Lines(f[..end + 1]) == Lines(f[..begin]) + [f[begin..end]]
  {
    assert f[..end + 1] == f[..begin] + (f[begin..end] + "\n");
    LinesEnd(f[..begin], f[begin..end], f[..end + 1]);
  }

  lemma DropTail(f: string, end: nat)
    requires end <= |f| && NoNl(f[end..])
    ensures Lines(f) == Lines(f[..end])
  {
    assert f == f[..end] + f[end..];
    LinesExtend(f[..end], f[end..]);
  }

  lemma YieldOne(ls: seq<string>, line: string, more: string -> bool)
    ensures Backwards(ls + [line], more) == if more(line) then [line] + Backwards(ls, more) else [line]
  {
    assert (ls + [line])[..|ls|] == ls;
  }

  // A line of the file, from `begin` to the newline at `end`.
  ghost predicate LineAt(f: string, begin: nat, end: nat) {
    && begin <= end < |f| && f[end] == '\n' && (begin > 0 ==> f[begin - 1] == '\n')
    && forall k :: begin <= k < end ==> f[k] != '\n'
  }

  ghost predicate NoNlFrom(f: string, end: nat) {
    end <= |f| && forall k :: end <= k < |f| ==> f[k] != '\n'
  }

  // `rem` gives, for each place, what is yielded of the file before it.
  ghost predicate Tells(f: string, more: string -> bool, rem: nat -> seq<string>) {
    && rem(0) == []
    && (forall end: nat :: NoNlFrom(f, end) ==> rem(end) == rem(|f|))
    && (forall begin: nat, end: nat :: LineAt(f, begin, end) ==>
          rem(end + 1) == if more(f[begin..end]) then [f[begin..end]] + rem(begin) else [f[begin..end]])
  }

  function Yields(f: string, more: string -> bool): nat -> seq<string> {
    (n: nat) => if n <= |f| then Backwards(Lines(f[..n]), more) else []
  }

  lemma YieldsAtEnd(f: string, more: string -> bool, end: nat)
    requires NoNlFrom(f, end)
    ensures Yields(f, more)(end) == Yields(f, more)(|f|) == Backwards(Lines(f), more)
  {
    assert f[..|f|] == f;
    DropTail(f, end);
  }

  lemma YieldsLine(f: string, more: string -> bool, begin: nat, end: nat)
    requires LineAt(f, begin, end)
    ensures Yields(f, more)(end + 1) == if more(f[begin..end]) then [f[begin..end]] + Yields(f, more)(begin)
            else [f[begin..end]]
  {
    LastLine(f, begin, end);
    YieldOne(Lines(f[..begin]), f[begin..end], more);
  }

  lemma YieldsTells(f: string, more: string -> bool)
    ensures Tells(f, more, Yields(f, more)) && Yields(f, more)(|f|) == Backwards(Lines(f), more)
  {
    assert f[..0] == "";
    YieldsAtEnd(f, more, |f|);
    var rem := Yields(f, more);
    forall end: nat | NoNlFrom(f, end) ensures rem(end) == rem(|f|) {
      YieldsAtEnd(f, more, end);
    }
    forall begin: nat, end: nat | LineAt(f, begin, end)
      ensures rem(end + 1) == if more(f[begin..end]) then [f[begin..end]] + rem(begin) else [f[begin..end]]
    {
      YieldsLine(f, more, begin, end);
    }
  }

  // The lines before the newline at `end`, and its own, are still to be yielded.
  ghost predicate Remaining(f: string, end: nat, rem: nat -> seq<string>, yielded: seq<string>) {
    end < |f| && f[end] == '\n' && yielded + rem(end + 1) == rem(|f|)
  }

  lemma YieldLine(f: string, begin: nat, end: nat, more: string -> bool, rem: nat -> seq<string>,
                  yielded: seq<string>, line: string)
    requires Tells(f, more, rem) && LineAt(f, begin, end) && line == f[begin..end] && Remaining(f, end, rem, yielded)
    ensures !more(line) || begin == 0 ==> yielded + [line] == rem(|f|)
    ensures more(line) && begin > 0 ==> Remaining(f, begin - 1, rem, yielded + [line])
  {
    assert yielded + ([line] + rem(begin)) == yielded + [line] + rem(begin);
    assert [line] + [] == [line];
  }

  // `buf` is the file's bytes from `start` on.
  ghost predicate Same(f: string, start: nat, buf: string) {
    start + |buf| <= |f| && forall i :: 0 <= i < |buf| ==> buf[i] == f[start + i]
  }

  lemma SameSlice(f: string, start: nat, buf: string, a: nat, b: nat)
    requires Same(f, start, buf) && a <= b <= |buf|
    ensures buf[a..b] == f[start + a..start + b]
  {
  }

  // The buffer holds the file from `start` to the newline at `limit`, or to its end while no newline is found.
  ghost predicate Buffered(f: string, start: nat, buf: string, limit: int) {
    && Same(f, start, buf)
    && (limit < 0 ==> start + |buf| == |f| && NoNl(buf))
    && (limit >= 0 ==> |buf| == limit + 1)
  }

  /**
   `tailLines`: reading the file backwards in growing chunks calls `fn` with exactly the
   complete lines, last first, up to the one it stops at.
   */
  method TailLines(f: string, firstChunk: nat, more: string -> bool) returns (yielded: seq<string>)
    requires firstChunk > 0
    ensures yielded == Backwards(Lines(f), more)
  {
    YieldsTells(f, more);
    yielded := ReadBackwards(f, firstChunk, more, Yields(f, more));
  }

  method ReadBackwards(f: string, firstChunk: nat, more: string -> bool, ghost rem: nat -> seq<string>)
    returns (yielded: seq<string>)
    requires firstChunk > 0 && Tells(f, more, rem)
    ensures yielded == rem(|f|)
  {
    var start := |f|;
    var chunk := firstChunk;
    var buf := "";
    var limit := -1;
    var stopped := false;
    yielded := [];
    while start > 0
      invariant 0 <= start <= |f| && chunk > 0 && limit >= -1
      invariant Buffered(f, start, buf, limit)
      invariant limit == -1 ==> yielded == []
      invariant limit >= 0 ==> start > 0 && Remaining(f, start + limit, rem, yielded)
      decreases start
    {
      var n := if chunk < start then chunk else start;
      limit, buf := ReadChunk(f, start - n, start, buf, limit, more, rem);
      start := start - n;
      chunk := chunk * 2;
      if limit < 0 {
        continue;
      }
      limit, buf, yielded, stopped := YieldChunk(f, start, buf, limit, more, rem, yielded);
      if stopped {
        return;
      }
    }
    SameSlice(f, 0, buf, 0, |buf|);
    assert NoNlFrom(f, 0);
  }

  // The last newline of the buffer, once the file has none after the buffer's end.
  lemma FirstRemaining(f: string, start: nat, buf: string, limit: nat, more: string -> bool, rem: nat -> seq<string>)
    requires Tells(f, more, rem) && Same(f, start, buf) && start + |buf| == |f|
    requires limit < |buf| && buf[limit] == '\n' && forall k :: limit < k < |buf| ==> buf[k] != '\n'
    ensures Remaining(f, start + limit, rem, [])
  {
    forall k | start + limit + 1 <= k < |f| ensures f[k] != '\n' {
      assert buf[k - start] == f[start + (k - start)];
    }
    assert NoNlFrom(f, start + limit + 1);
    assert [] + rem(|f|) == rem(|f|);
  }

  lemma SameBefore(f: string, at: nat, start: nat, before: string, buf: string)
    requires at <= start && Same(f, start, before) && buf == f[at..start] + before
    ensures Same(f, at, buf)
  {
  }

  // The end of the file is in the buffer: what is before its last newline is what is left to read.
  lemma LastNlFound(f: string, at: nat, buf: string, limit: int, more: string -> bool, rem: nat -> seq<string>)
    requires Tells(f, more, rem) && Same(f, at, buf) && at + |buf| == |f| && limit == LastNl(buf)
    ensures limit < 0 ==> Buffered(f, at, buf, limit)
    ensures limit >= 0 ==> Buffered(f, at, buf[..limit + 1], limit) && Remaining(f, at + limit, rem, [])
  {
    if limit >= 0 {
      FirstRemaining(f, at, buf, limit, more, rem);
    }
  }

  /** Puts the bytes from `at` to `start` in front of the buffer, and finds the last newline if none was found. */
  method ReadChunk(f: string, at: nat, start: nat, before: string, from: int, more: string -> bool,
                   ghost rem: nat -> seq<string>)
    returns (limit: int, buf: string)
    requires at <= start && from >= -1 && Buffered(f, start, before, from) && Tells(f, more, rem)
    ensures limit >= -1 && Buffered(f, at, buf, limit)
    ensures from >= 0 ==> limit == from + (start - at)
    ensures from < 0 <= limit ==> Remaining(f, at + limit, rem, [])
  {
    buf := f[at..start] + before;
    SameBefore(f, at, start, before, buf);
    if from >= 0 {
      limit := from + (start - at);
      return;
    }
    limit := LastNl(buf);
    LastNlFound(f, at, buf, limit, more, rem);
    if limit >= 0 {
      buf := buf[..limit + 1];
    }
  }

  // The line before the newline at `limit`, as it stands in the buffer and in the file.
  lemma LineInFile(f: string, start: nat, buf: string, limit: nat, begin: int)
    requires Same(f, start, buf) && limit < |buf| && buf[limit] == '\n' && -1 <= begin < limit
    requires begin >= 0 ==> buf[begin] == '\n'
    requires begin < 0 ==> start == 0
    requires forall k :: begin < k < limit ==> buf[k] != '\n'
    ensures LineAt(f, start + begin + 1, start + limit) && buf[begin + 1..limit] == f[start + begin + 1..start + limit]
  {
    SameSlice(f, start, buf, begin + 1, limit);
    forall k | start + begin + 1 <= k < start + limit ensures f[k] != '\n' {
      assert buf[k - start] == f[start + (k - start)];
    }
  }

  lemma LastNlBefore(buf: string, limit: nat, begin: int)
    requires limit <= |buf| && begin == LastNl(buf[..limit])
    ensures -1 <= begin < limit && (begin >= 0 ==> buf[begin] == '\n') && forall k :: begin < k < limit ==>
            buf[k] != '\n'
  {
    assert forall k :: 0 <= k < limit ==> buf[..limit][k] == buf[k];
  }

  // The line that ends at `limit`, once its start is in the buffer.
  lemma NextLine(f: string, start: nat, buf: string, limit: nat, begin: int, from: nat, to: nat, line: string)
    requires Same(f, start, buf) && limit < |buf| && to == start + limit && f[to] == '\n'
    requires begin == LastNl(buf[..limit]) && (begin >= 0 || start == 0) && line == buf[begin + 1..limit]
    requires from == start + begin + 1
    ensures LineAt(f, from, to) && line == f[from..to]
  {
    LastNlBefore(buf, limit, begin);
    LineInFile(f, start, buf, limit, begin);
  }

  /** Yields the lines that start inside the bytes read so far, and leaves the rest of the buffer. */
  method YieldChunk(f: string, start: nat, buf: string, from: nat, more: string -> bool, ghost rem: nat -> seq<string>,
                    before: seq<string>)
    returns (limit: int, left: string, yielded: seq<string>, stopped: bool)
    requires Buffered(f, start, buf, from) && Tells(f, more, rem)
    requires Remaining(f, start + from, rem, before)
    ensures stopped ==> yielded == rem(|f|)
    ensures !stopped ==>
              && start > 0 && limit >= 0
              && Buffered(f, start, left, limit) && Remaining(f, start + limit, rem, yielded)
  {
    limit, left, yielded, stopped := from, buf, before, false;
    while true
      invariant !stopped && 0 <= limit <= from
      invariant Remaining(f, start + limit, rem, yielded)
      decreases limit
    {
      var begin := LastNl(buf[..limit]);
      if begin < 0 && start > 0 {
        left := buf[..limit + 1];
        return;
      }
      var line := buf[begin + 1..limit];
      ghost var first, end := start + begin + 1, start + limit;
      NextLine(f, start, buf, limit, begin, first, end, line);
      YieldLine(f, first, end, more, rem, yielded, line);
      yielded := yielded + [line];
      stopped := begin < 0 || !more(line);
      if stopped {
        return;
      }
      limit := begin;
    }
  }

  lemma {:induction false} BackwardsFindsLast(codec: Codec, ls: seq<string>)
    ensures var ys := Backwards(ls, l => !Readable(codec, l));
            LastSeqno(Recs(codec, ls)) ==
              if ys != [] && Readable(codec, ys[|ys| - 1]) then codec.dec(ys[|ys| - 1]).value.seqno else 0
  {
    if ls != [] {
      var l, front := ls[|ls| - 1], ls[..|ls| - 1];
      BackwardsFindsLast(codec, front);
      if !Readable(codec, l) {
        assert Recs(codec, ls) == Recs(codec, front);
        var ys := Backwards(front, x => !Readable(codec, x));
        assert Backwards(ls, x => !Readable(codec, x)) == [l] + ys;
      }
    }
  }

  /** `lastSeq`: the number read from the file's tail is the one a whole forward scan ends with. */
  method LastSeq(codec: Codec, j: string, firstChunk: nat) returns (n: nat)
    requires firstChunk > 0
    ensures n == LastSeqno(Read(codec, j))
  {
    var more := l => !Readable(codec, l);
    var ys := TailLines(j, firstChunk, more);
    BackwardsFindsLast(codec, Lines(j));
    n := 0;
    if ys != [] && Readable(codec, ys[|ys| - 1]) {
      n := codec.dec(ys[|ys| - 1]).value.seqno;
    }
  }
}
