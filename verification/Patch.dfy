/**
 Edits that other sessions interleave with (tools.go): memory_patch, which reads an entry
 and writes it back on condition that nothing moved, and memory_insert, which tries
 the names of `InsertName` until one is free.

 Between any two calls of the tool the other sessions may make any calls at all: they
 are the `moves` of the methods below.
 */
module Patch {
  import opened Common
  import opened Text
  import opened Memory
  import opened MemStore

  /******* Replacing text *******/

  /** `strings.Count`: occurrences taken from the left, none over another. */
  function Count(s: string, sub: string): nat
    requires sub != ""
    decreases |s|
  {
    var i := Index(s, sub);
    if i < 0 then 0 else 1 + Count(s[i + |sub|..], sub)
  }

  /** `strings.Replace` of the first occurrence. */
  function Replace(s: string, sub: string, text: string): string {
    var i := Index(s, sub);
    if i < 0 then s else s[..i] + text + s[i + |sub|..]
  }

  /** `s` is `p`, then its first `sub`, then `q`. */
  ghost predicate FirstSplit(s: string, p: string, sub: string, q: string) {
    s == p + sub + q && forall j :: OccursAt(s, sub, j) ==> j >= |p|
  }

  /** `r` is `s` with `text` in place of its first `sub`, or `s` where `sub` does not occur. */
  ghost predicate Substituted(s: string, sub: string, text: string, r: string) {
    && (forall p, q :: FirstSplit(s, p, sub, q) ==> r == p + text + q)
    && ((forall j :: !OccursAt(s, sub, j)) ==> r == s)
  }

  lemma ReplaceIs(s: string, sub: string, text: string)
    ensures Substituted(s, sub, text, Replace(s, sub, text))
    ensures Index(s, sub) >= 0 ==> exists p, q :: FirstSplit(s, p, sub, q)
  {
    var r, i := Replace(s, sub, text), Index(s, sub);
    forall p, q | FirstSplit(s, p, sub, q) ensures r == p + text + q {
      assert s[|p|..|p| + |sub|] == sub;
      assert OccursAt(s, sub, |p|);
      assert i == |p| && s[..i] == p && s[i + |sub|..] == q;
    }
    if i >= 0 {
      assert s == s[..i] + sub + s[i + |sub|..];
      assert FirstSplit(s, s[..i], sub, s[i + |sub|..]);
    }
  }

  // What occurs in the rest of a text, from place `at` on, occurs in the text that far on, and the other way round.
  lemma OccursInRest(s: string, sub: string, at: nat, rest: string, j: nat)
    requires at <= |s| && rest == s[at..]
    ensures OccursAt(rest, sub, j) <==> OccursAt(s, sub, at + j)
  {
    if at + j + |sub| <= |s| {
      assert rest[j..j + |sub|] == s[at + j..at + j + |sub|];
    }
  }

  /** The count is one when nothing occurs past the end of the first occurrence; one may still start inside it. */
  lemma CountsOnce(s: string, sub: string)
    requires sub != ""
    ensures Count(s, sub) == 1 <==>
            Index(s, sub) >= 0 && OnlyFirst(s, sub)
  {
    var i := Index(s, sub);
    if i >= 0 {
      var at := i + |sub|;
      var rest := s[at..];
      var r := Index(rest, sub);
      if r >= 0 {
        OccursInRest(s, sub, at, rest, r);
      } else {
        forall j | OccursAt(s, sub, j) ensures j < at {
          if j >= at {
            OccursInRest(s, sub, at, rest, j - at);
          }
        }
      }
    }
  }

  /** So text that overlaps itself passes for text that appears once. */
  lemma OverlapCountsOnce()
    ensures Count("aaa", "aa") == 1 && OccursAt("aaa", "aa", 0) && OccursAt("aaa", "aa", 1)
  {
    assert OccursAt("aaa", "aa", 0) && OccursAt("aaa", "aa", 1);
    assert Index("aaa", "aa") == 0;
    assert "aaa"[2..] == "a";
    assert Index("a", "aa") == -1;
  }

  /******* One edit, on its own *******/

  const PatchAttempts := 4
  const InsertAttempts := 100

  datatype PatchError =
    | EmptyText
    | Absent
    | Repeated(n: nat)
    | Refused(e: Error)
    | Exhausted(e: Error)

  function PatchOptions(env: Env, cur: Entry): PutOptions {
    IfMetaHash(IfHash(NoOptions, cur.hash), MetaHash(env, cur.meta))
  }

  function PatchPut(env: Env, cur: Entry, sub: string, text: string, session: string): Op {
    Put(cur.(content := Replace(cur.content, sub, text)), PatchOptions(env, cur), session)
  }

  /** The edit as it would be with no other session: read, replace, write. */
  function PatchAlone(env: Env, max: int, m: Mem, k: Key, sub: string, text: string, session: string)
    : (Mem, Result<Change, PatchError>)
  {
    if sub == "" then (m, Err(EmptyText))
    else if !ValidKey(k) then (m, Err(Refused(Invalid)))
    else if k !in m.live then (m, Err(Refused(NotFound)))
    else if Count(m.live[k].content, sub) == 0 then (m, Err(Absent))
    else if Count(m.live[k].content, sub) > 1 then (m, Err(Repeated(Count(m.live[k].content, sub))))
    else
      var (m', r) := Do(env, max, m, PatchPut(env, m.live[k], sub, text, session));
      match r
      case Ok(c) => (m', Ok(c))
      case Err(e) => (m', Err(Refused(e)))
  }

  /**
   What a successful edit leaves: the replacement in the text it landed on, the metadata it
   landed on, and no fork.
   */
  lemma PatchAloneKeeps(env: Env, max: int, m: Mem, k: Key, sub: string, text: string, session: string)
    requires Valid(env, m) && PatchAlone(env, max, m, k, sub, text, session).1.Ok?
    ensures var (m', r) := PatchAlone(env, max, m, k, sub, text, session);
            var c := r.value;
            && k in m.live && Count(m.live[k].content, sub) == 1
            && Edits(m, k, sub, text, m', c)
  {
    assert Sane(env, k, m.live[k]);
    ReplaceIs(m.live[k].content, sub, text);
  }

  /** The change `c` of the store `m`: the replacement made in the entry's text, all else of the entry kept, no fork. */
  ghost predicate Edits(m: Mem, k: Key, sub: string, text: string, now: Mem, c: Change) {
    && k in m.live && c.prev == c.replaced == m.live[k].hash
    && c.entry.key == k && !c.entry.deleted && c.entry.meta == m.live[k].meta
    && Substituted(m.live[k].content, sub, text, c.entry.content)
    && now.live == m.live[k := c.entry] && now.journal == m.journal + [c]
  }

  /**
   What an edit that is refused is refused for, in the tool's order: no text to look for, a
   key that is none, no such entry, text that does not occur, text that occurs again after
   its first place, and last what the store itself refuses.
   */
  lemma PatchAloneRefuses(env: Env, max: int, m: Mem, k: Key, sub: string, text: string, session: string)
    ensures var (m', r) := PatchAlone(env, max, m, k, sub, text, session);
            && (r.Err? && Valid(env, m) ==> m' == m)
            && (r == Err(EmptyText) <==> sub == "")
            && (sub != "" && !ValidKey(k) ==> r == Err(Refused(Invalid)))
            && (sub != "" && ValidKey(k) && k !in m.live ==> r == Err(Refused(NotFound)))
    ensures sub != "" && ValidKey(k) && k in m.live ==>
            var (s, r) := (m.live[k].content, PatchAlone(env, max, m, k, sub, text, session).1);
            && (r == Err(Absent) <==> forall j :: !OccursAt(s, sub, j))
            && (r.Err? && r.error.Repeated? <==> Index(s, sub) >= 0 && !OnlyFirst(s, sub))
            && (r.Ok? ==> Index(s, sub) >= 0 && OnlyFirst(s, sub))
  {
    if sub != "" && ValidKey(k) && k in m.live {
      CountsOnce(m.live[k].content, sub);
      if Valid(env, m) {
        DoKeeps(env, max, m, PatchPut(env, m.live[k], sub, text, session));
      }
    }
  }

  /** Nothing occurs past the end of the first occurrence. */
  ghost predicate OnlyFirst(s: string, sub: string) {
    forall j :: OccursAt(s, sub, j) ==> j < Index(s, sub) + |sub|
  }

  /******* One edit among many *******/

  /** An entry that still has the hash and the metadata hash it was read with is the entry that was read. */
  lemma SameEntry(env: Env, k: Key, a: Entry, b: Entry)
    requires Sound(env.hash) && Sane(env, k, a) && Sane(env, k, b)
    requires a.hash == b.hash && MetaHash(env, a.meta) == MetaHash(env, b.meta)
    ensures a == b
  {
    MetaHashInjective(env, a.meta, b.meta);
  }

  // A write on condition of an entry lands on that entry only.
  lemma LandsOnWhatWasRead(env: Env, max: int, cur: Entry, m: Mem, k: Key, sub: string, text: string, session: string)
    requires Sound(env.hash) && Sane(env, k, cur) && Valid(env, m)
    requires Do(env, max, m, PatchPut(env, cur, sub, text, session)).1.Ok?
    ensures k in m.live && m.live[k] == cur
    ensures Do(env, max, m, PatchPut(env, cur, sub, text, session)).1.value.entry.content ==
            Replace(cur.content, sub, text)
  {
    assert HashOf(Lookup(m.live, k)) == cur.hash;
    assert k in m.live && Sane(env, k, m.live[k]);
    SameEntry(env, k, cur, m.live[k]);
  }

  /**
   The condition is enough: an entry read at one moment of a run and written back at any
   later one, whatever calls came between, is written only over that same entry, so the
   edit is the one that would have been made on the spot.
   */
  lemma PatchIsAtomic(env: Env, max: int, read: Mem, between: seq<Op>, k: Key, sub: string, text: string,
                      session: string)
    requires Sound(env.hash) && Valid(env, read) && ValidKey(k) && k in read.live
    requires sub != "" && Count(read.live[k].content, sub) == 1
    requires Do(env, max, DoAll(env, max, read, between), PatchPut(env, read.live[k], sub, text, session)).1.Ok?
    ensures var m := DoAll(env, max, read, between);
            var (m', r) := Do(env, max, m, PatchPut(env, read.live[k], sub, text, session));
            k in m.live && m.live[k] == read.live[k] &&
              PatchAlone(env, max, m, k, sub, text, session) == (m', Ok(r.value))
  {
    var m := DoAll(env, max, read, between);
    RunKeeps(env, max, read, between);
    assert Sane(env, k, read.live[k]);
    LandsOnWhatWasRead(env, max, read.live[k], m, k, sub, text, session);
  }

  /** No call of the run is on the key. */
  ghost predicate Elsewhere(ops: seq<Op>, k: Key) {
    forall i :: 0 <= i < |ops| ==> (match ops[i] case Put(e, _, _) => e.key != k case Forget(x, _) => x != k)
  }

  lemma {:induction false} Untouched(env: Env, max: int, m: Mem, ops: seq<Op>, k: Key)
    requires Elsewhere(ops, k)
    ensures Lookup(DoAll(env, max, m, ops).live, k) == Lookup(m.live, k)
  {
    if ops != [] {
      Untouched(env, max, m, ops[..|ops| - 1], k);
    }
  }

  /**
   No successful patch is lost by another: a patch that read the entry `cur` at any time,
   and lands after another patch has, with no call on the entry between, makes its
   replacement in the text that the other left.
   */
  lemma PatchesCompose(env: Env, max: int, landed: Mem, k: Key, sub: string, text: string, after: seq<Op>, cur: Entry,
                       sub2: string, text2: string, session: string)
    requires Sound(env.hash) && Valid(env, landed) && Sane(env, k, cur) && Elsewhere(after, k)
    requires PatchAlone(env, max, landed, k, sub, text, session).1.Ok?
    requires var patched := PatchAlone(env, max, landed, k, sub, text, session).0;
             Do(env, max, DoAll(env, max, patched, after), PatchPut(env, cur, sub2, text2, session)).1.Ok?
    ensures var patched := PatchAlone(env, max, landed, k, sub, text, session).0;
            var (m', r) := Do(env, max, DoAll(env, max, patched, after), PatchPut(env, cur, sub2, text2, session));
            && k in landed.live && k in patched.live
            && Substituted(landed.live[k].content, sub, text, patched.live[k].content)
            && Substituted(patched.live[k].content, sub2, text2, r.value.entry.content)
  {
    PatchAloneKeeps(env, max, landed, k, sub, text, session);
    var patched := PatchAlone(env, max, landed, k, sub, text, session).0;
    var later := DoAll(env, max, patched, after);
    assert Valid(env, later) by {
      DoKeeps(env, max, landed, PatchPut(env, landed.live[k], sub, text, session));
      RunKeeps(env, max, patched, after);
    }
    assert Lookup(later.live, k) == Lookup(patched.live, k) by {
      Untouched(env, max, patched, after, k);
    }
    LandsOnWhatWasRead(env, max, cur, later, k, sub2, text2, session);
    ReplaceIs(cur.content, sub2, text2);
  }

  /******* The tools *******/

  function Move(moves: seq<seq<Op>>, i: nat): seq<Op> {
    if i < |moves| then moves[i] else []
  }

  /** The store after the other sessions' first `n` moves. */
  function World(run: (Mem, seq<Op>) -> Mem, m: Mem, moves: seq<seq<Op>>, n: nat): Mem {
    if n == 0 then m else run(World(run, m, moves, n - 1), Move(moves, n - 1))
  }

  lemma {:induction false} WorldIsValid(env: Env, max: int, m: Mem, moves: seq<seq<Op>>, n: nat)
    requires Valid(env, m)
    ensures Valid(env, World(Runs(env, max), m, moves, n))
  {
    if n > 0 {
      WorldIsValid(env, max, m, moves, n - 1);
      RunKeeps(env, max, World(Runs(env, max), m, moves, n - 1), Move(moves, n - 1));
    }
  }

  /** The edit made alone, as a function of the store it is made on. */
  function Alone(env: Env, max: int, k: Key, sub: string, text: string, session: string)
    : Mem -> (Mem, Result<Change, PatchError>)
  {
    m => PatchAlone(env, max, m, k, sub, text, session)
  }

  // The entry read, with the replacement, written on condition that it is still there.
  method WriteBack(s: Store, k: Key, cur: Entry, sub: string, text: string, session: string, ghost read: Mem,
                   ghost between: seq<Op>)
    returns (put: Result<Change, Error>)
    requires Sound(s.env.hash) && Valid(s.env, read) && ValidKey(k) && k in read.live && read.live[k] == cur
    requires sub != "" && Count(cur.content, sub) == 1
    requires Valid(s.env, s.View()) && s.View() == DoAll(s.env, s.max, read, between)
    modifies s
    ensures put.Ok? ==> PatchAlone(s.env, s.max, old(s.View()), k, sub, text, session) == (s.View(), Ok(put.value))
    ensures put.Err? ==> s.View() == old(s.View())
    ensures between == [] ==>
              PatchAlone(s.env, s.max, read, k, sub, text, session) ==
              (s.View(), match put case Ok(c) => Ok(c) case Err(e) => Err(Refused(e)))
    ensures put.Err? && put.error.Conflict? ==> between != []
  {
    assert Sane(s.env, k, cur);
    var next := cur.(content := Replace(cur.content, sub, text));
    put := s.Put(next, PatchOptions(s.env, cur), session);
    if put.Ok? {
      PatchIsAtomic(s.env, s.max, read, between, k, sub, text, session);
    }
  }

  // A success is the edit made alone on the store `m`; a failure leaves that store.
  ghost predicate Outcome(alone: Mem -> (Mem, Result<Change, PatchError>), m: Mem, now: Mem,
                          r: Result<Change, PatchError>)
  {
    if r.Ok? then alone(m) == (now, r) else now == m
  }

  // The other sessions' next move.
  method LetMove(s: Store, moves: seq<seq<Op>>, turn: nat, ghost start: Mem) returns (next: nat)
    requires Valid(s.env, start) && s.View() == World(Runs(s.env, s.max), start, moves, turn)
    modifies s
    ensures next == turn + 1 && Valid(s.env, s.View()) && s.View() == World(Runs(s.env, s.max), start, moves, next)
    ensures s.View() == DoAll(s.env, s.max, old(s.View()), Move(moves, turn))
  {
    next := turn + 1;
    s.Interfere(Move(moves, turn));
    assert s.View() == World(Runs(s.env, s.max), start, moves, next);
    WorldIsValid(s.env, s.max, start, moves, next);
  }

  // One attempt: read, let the others move, write back on condition.
  method TryPatch(s: Store, k: Key, sub: string, text: string, session: string, moves: seq<seq<Op>>, turn: nat,
                  ghost start: Mem)
    returns (r: Result<Change, PatchError>, next: nat, again: bool)
    requires Sound(s.env.hash) && Valid(s.env, start) && Valid(s.env, s.View()) && sub != ""
    requires s.View() == World(Runs(s.env, s.max), start, moves, turn)
    modifies s
    ensures turn <= next <= turn + 1 && (again ==> next == turn + 1 && r.Err? && r.error.Refused?)
    ensures r.Err? ==> !r.error.Exhausted?
    ensures Outcome(Alone(s.env, s.max, k, sub, text, session), World(Runs(s.env, s.max), start, moves, next), s.View(),
                    r)
    ensures moves == [] ==> !again && (s.View(), r) == PatchAlone(s.env, s.max, old(s.View()), k, sub, text, session)
  {
    ghost var read := s.View();
    var got := s.Get(k);
    if got.Err? {
      return Err(Refused(got.error)), turn, false;
    }
    var cur := got.value;
    var count := Count(cur.content, sub);
    if count == 0 {
      return Err(Absent), turn, false;
    } else if count > 1 {
      return Err(Repeated(count)), turn, false;
    }
    next := LetMove(s, moves, turn, start);
    var put := WriteBack(s, k, cur, sub, text, session, read, Move(moves, turn));
    if put.Ok? {
      return Ok(put.value), next, false;
    }
    return Err(Refused(put.error)), next, put.error.Conflict?;
  }

  // One attempt, with the other sessions' move before it.
  method Attempt(s: Store, k: Key, sub: string, text: string, session: string, moves: seq<seq<Op>>, turn: nat,
                 ghost start: Mem)
    returns (r: Result<Change, PatchError>, next: nat, again: bool)
    requires Sound(s.env.hash) && Valid(s.env, start) && sub != ""
    requires s.View() == World(Runs(s.env, s.max), start, moves, turn)
    modifies s
    ensures turn < next <= turn + 2 && (again ==> next == turn + 2 && r.Err? && r.error.Refused?)
    ensures r.Err? ==> !r.error.Exhausted?
    ensures Outcome(Alone(s.env, s.max, k, sub, text, session), World(Runs(s.env, s.max), start, moves, next), s.View(),
                    r)
    ensures moves == [] ==> !again && (s.View(), r) == PatchAlone(s.env, s.max, old(s.View()), k, sub, text, session)
  {
    next := LetMove(s, moves, turn, start);
    r, next, again := TryPatch(s, k, sub, text, session, moves, next, start);
  }

  /**
   memory_patch: a success is the edit made alone on what the store then held, at one
   moment between the other sessions' moves, and puts the new text in place of the old in
   the content it then found; a failure writes nothing.  With no other session it is the
   edit made alone.
   */
  method PatchEntry(s: Store, k: Key, sub: string, text: string, session: string, moves: seq<seq<Op>>)
    returns (r: Result<Change, PatchError>, n: nat)
    requires Sound(s.env.hash) && Valid(s.env, s.View())
    modifies s
    ensures n <= 8 && (r.Err? && r.error.Exhausted? ==> n == 8)
    ensures var m := World(Runs(s.env, s.max), old(s.View()), moves, n);
            && (r.Ok? ==> (s.View(), r) == Alone(s.env, s.max, k, sub, text, session)(m))
            && (r.Ok? ==> Edits(m, k, sub, text, s.View(), r.value))
            && (r.Err? ==> s.View() == m)
    ensures moves == [] ==> (s.View(), r) == Alone(s.env, s.max, k, sub, text, session)(old(s.View()))
  {
    ghost var start, run := s.View(), Runs(s.env, s.max);
    if sub == "" {
      return Err(EmptyText), 0;
    }
    var last := Invalid;
    n := 0;
    for attempt := 0 to PatchAttempts
      invariant n == 2 * attempt && s.View() == World(run, start, moves, n)
      invariant moves == [] ==> attempt == 0
    {
      var again;
      r, n, again := Attempt(s, k, sub, text, session, moves, n, start);
      if !again {
        if r.Ok? {
          WorldIsValid(s.env, s.max, start, moves, n);
          PatchAloneKeeps(s.env, s.max, World(run, start, moves, n), k, sub, text, session);
        }
        return;
      }
      last := r.error.e;
    }
    return Err(Exhausted(last)), n;
  }

  /** `InsertName`: the name of attempt `n`, numbered from the second attempt on. */
  function InsertName(stamp: string, digits: string, n: nat): string {
    stamp + "-" + digits + (if n >= 2 then "-" + Itoa(n) else "")
  }

  /** The first attempt's name, and from the second on that with a hyphen and the attempt's number. */
  ghost predicate NameOfAttempt(name: string, first: string, n: nat) {
    if n < 2 then name == first else exists x :: Numeral(x, n) && name == first + "-" + x
  }

  lemma InsertNameIs(stamp: string, digits: string, n: nat)
    ensures NameOfAttempt(InsertName(stamp, digits, n), stamp + "-" + digits, n)
  {
    ItoaReads(n);
    if n >= 2 {
      assert InsertName(stamp, digits, n) == stamp + "-" + digits + "-" + Itoa(n);
    } else {
      assert stamp + "-" + digits + "" == stamp + "-" + digits;
    }
  }

  /** The names tried are all different. */
  lemma InsertNamesDiffer(stamp: string, digits: string, m: nat, n: nat)
    requires 1 <= m && 1 <= n && InsertName(stamp, digits, m) == InsertName(stamp, digits, n)
    ensures m == n
  {
    var p := stamp + "-" + digits;
    var a, b := InsertName(stamp, digits, m), InsertName(stamp, digits, n);
    if m >= 2 && n >= 2 {
      assert a[|p| + 1..] == Itoa(m) && b[|p| + 1..] == Itoa(n);
      ItoaInjective(m, n);
    }
  }

  // What a successful insert leaves of the store it landed on.
  ghost predicate Inserts(env: Env, m: Mem, e: Entry, now: Mem, c: Change) {
    && c.entry == e.(hash := env.hash(e.content), deleted := false)
    && e.key !in m.live && c.prev == "" && c.replaced == ""
    && now == Mem(m.live[e.key := c.entry], m.journal + [c])
  }

  method TryInsert(s: Store, e: Entry, session: string) returns (put: Result<Change, Error>)
    requires Sound(s.env.hash) && Valid(s.env, s.View())
    modifies s
    ensures if put.Ok? then Inserts(s.env, old(s.View()), e, s.View(), put.value) else s.View() == old(s.View())
  {
    ghost var m := s.View();
    put := s.Put(e, IfHash(NoOptions, ""), session);
    assert e.key in m.live ==> Sane(s.env, e.key, m.live[e.key]);
  }

  /** memory_insert: a success creates an entry where none was live, and replaces nothing; a failure writes nothing. */
  method InsertEntry(s: Store, scope: string, content: string, meta: map<string, string>, stamp: string,
                     digits: string, session: string, moves: seq<seq<Op>>)
    returns (r: Result<Change, Error>, n: nat)
    requires Sound(s.env.hash) && Valid(s.env, s.View())
    modifies s
    ensures n <= 100 && (r.Err? && r.error.Conflict? ==> n == 100)
    ensures r.Ok? ==>
              && n >= 1 && r.value.entry.key.scope == scope
              && NameOfAttempt(r.value.entry.key.name, stamp + "-" + digits, n)
    ensures var m := World(Runs(s.env, s.max), old(s.View()), moves, n);
            && (r.Err? ==> s.View() == m)
            && (r.Ok? ==> Inserts(s.env, m, Entry(Key(scope, InsertName(stamp, digits, n)), content, meta, "", false),
               s.View(), r.value))
  {
    ghost var start, run := s.View(), Runs(s.env, s.max);
    n := 0;
    r := Err(Invalid);
    for i := 1 to InsertAttempts + 1
      invariant n == i - 1 && r.Err? && s.View() == World(run, start, moves, n)
    {
      n := LetMove(s, moves, n, start);
      r := TryInsert(s, Entry(Key(scope, InsertName(stamp, digits, i)), content, meta, "", false), session);
      if r.Ok? || !r.error.Conflict? {
        InsertNameIs(stamp, digits, n);
        return;
      }
    }
  }
}
