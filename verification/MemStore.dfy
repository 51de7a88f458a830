/** The in-memory store (memstore.go): `live` is always the replay of `journal`. */
module MemStore {
  import opened Common
  import opened Memory
  import L = LostUpdates

  datatype Mem = Mem(live: map<Key, Entry>, journal: seq<Change>)

  datatype Op =
    | Put(given: Entry, o: PutOptions, session: string)
    | Forget(k: Key, session: string)

  function Lookup(live: map<Key, Entry>, k: Key): Option<Entry> {
    if k in live then Some(live[k]) else None
  }

  function AppendMem(m: Mem, live: map<Key, Entry>, e: Entry, prev: string, replaced: string, session: string)
    : (Mem, Result<Change, Error>)
  {
    var c := Change(|m.journal| + 1, e, prev, replaced, session, "");
    (Mem(live, m.journal + [c]), Ok(c))
  }

  /** What one call does to the store. */
  function Do(env: Env, max: int, m: Mem, op: Op): (Mem, Result<Change, Error>) {
    match op
    case Put(given, o, session) =>
      var stored := Lookup(m.live, given.key);
      var refused := CheckEntry(env, given, max, stored);
      var conflict := Check(env, o, stored);
      if refused.Some? then (m, Err(refused.value))
      else if conflict.Some? then (m, Err(conflict.value))
      else
        var e := given.(hash := env.hash(given.content), deleted := false);
        AppendMem(m, m.live[given.key := e], e, BaseFor(o, HashOf(stored)), HashOf(stored), session)
    case Forget(k, session) =>
      if !ValidKey(k) then (m, Err(Invalid))
      else if k !in m.live then (m, Err(NotFound))
      else AppendMem(m, m.live - {k}, m.live[k].(deleted := true), m.live[k].hash, m.live[k].hash, session)
  }

  function DoAll(env: Env, max: int, m: Mem, ops: seq<Op>): Mem {
    if ops == [] then m else Do(env, max, DoAll(env, max, m, ops[..|ops| - 1]), ops[|ops| - 1]).0
  }

  /** Runs of the store, as a function of where they start and the calls made. */
  function Runs(env: Env, max: int): (Mem, seq<Op>) -> Mem {
    (m, ops) => DoAll(env, max, m, ops)
  }

  const Empty := Mem(map[], [])

  /** The entries a journal leaves live. */
  function Replay(recs: seq<Change>): map<Key, Entry> {
    if recs == [] then map[]
    else
      var m, e := Replay(recs[..|recs| - 1]), recs[|recs| - 1].entry;
      if e.deleted then m - {e.key} else m[e.key := e]
  }

  /** A live entry is one the store would take: its key, content and metadata pass, its hash is its content's. */
  ghost predicate Sane(env: Env, k: Key, e: Entry) {
    e.key == k && !e.deleted && e.hash == env.hash(e.content) && ValidMeta(env, e.meta)
  }

  ghost predicate Valid(env: Env, m: Mem) {
    && m.live == Replay(m.journal)
    && Chained(m.journal)
    && (forall i :: 0 <= i < |m.journal| ==> m.journal[i].seqno == i + 1)
    && (forall k :: k in m.live ==> Sane(env, k, m.live[k]))
  }

  lemma {:induction false} ReplayLast(recs: seq<Change>, k: Key)
    ensures k in Replay(recs) <==> LastFor(recs, k).Some? && !LastFor(recs, k).value.entry.deleted
    ensures k in Replay(recs) ==> Replay(recs)[k] == LastFor(recs, k).value.entry
    ensures HashOf(Lookup(Replay(recs), k)) == HeldHash(recs, k)
  {
    if recs != [] {
      ReplayLast(recs[..|recs| - 1], k);
    }
  }

  lemma ReplayMore(recs: seq<Change>, c: Change)
    ensures Replay(recs + [c]) ==
            if c.entry.deleted then Replay(recs) - {c.entry.key} else Replay(recs)[c.entry.key := c.entry]
  {
    assert (recs + [c])[..|recs|] == recs;
  }

  // A record of an entry appended to the journal, with the live map changed as it says.
  lemma AppendKeeps(env: Env, m: Mem, e: Entry, prev: string, session: string)
    requires Valid(env, m) && (e.deleted || Sane(env, e.key, e))
    ensures var live := if e.deleted then m.live - {e.key} else m.live[e.key := e];
            Valid(env, AppendMem(m, live, e, prev, HashOf(Lookup(m.live, e.key)), session).0)
  {
    var live := if e.deleted then m.live - {e.key} else m.live[e.key := e];
    var c := Change(|m.journal| + 1, e, prev, HashOf(Lookup(m.live, e.key)), session, "");
    assert live == Replay(m.journal + [c]) by {
      ReplayMore(m.journal, c);
    }
    assert Chained(m.journal + [c]) by {
      ReplayLast(m.journal, e.key);
      ChainedAppend(m.journal, c);
    }
    forall k | k in live ensures Sane(env, k, live[k]) {
      if k != e.key {
        assert Sane(env, k, m.live[k]);
      }
    }
  }

  /** Every call keeps the live map the replay of the journal, the numbers dense and the chain whole. */
  lemma DoKeeps(env: Env, max: int, m: Mem, op: Op)
    requires Valid(env, m)
    ensures Valid(env, Do(env, max, m, op).0)
    ensures Do(env, max, m, op).1.Err? ==> Do(env, max, m, op).0 == m
  {
    match op {
      case Put(given, o, session) =>
        if Do(env, max, m, op).1.Ok? {
          var stored := Lookup(m.live, given.key);
          AppendKeeps(env, m, given.(hash := env.hash(given.content), deleted := false), BaseFor(o, HashOf(stored)),
            session);
        }
      case Forget(k, session) =>
        if Do(env, max, m, op).1.Ok? {
          AppendKeeps(env, m, m.live[k].(deleted := true), m.live[k].hash, session);
        }
    }
  }

  /**
   A completed write: the entry with its hash, live and last in the journal, numbered by its
   place.  It names as replaced the state it found, and as what it was built on its
   condition, else the base it gives, else the state it found; so it forks if and only if it
   has no condition and gives another base.
   */
  lemma PutLands(env: Env, max: int, m: Mem, given: Entry, o: PutOptions, session: string)
    requires Do(env, max, m, Put(given, o, session)).1.Ok?
    ensures var (m', r) := Do(env, max, m, Put(given, o, session));
            var c, k := r.value, given.key;
            && c.entry == given.(hash := env.hash(given.content), deleted := false)
            && c.session == session && c.source == "" && c.seqno == |m.journal| + 1
            && c.replaced == (if k in m.live then m.live[k].hash else "")
            && (o.conditional ==> c.prev == c.replaced == o.ifHash)
            && (!o.conditional && o.hasBase ==> c.prev == o.base)
            && (!o.conditional && !o.hasBase ==> c.prev == c.replaced)
            && (c.prev != c.replaced <==> !o.conditional && o.hasBase && o.base != c.replaced)
            && m' == Mem(m.live[k := c.entry], m.journal + [c])
  {
  }

  /** What a call is refused for: the entry itself and then its conditions, or a key that is none or has no entry. */
  lemma Refuses(env: Env, max: int, m: Mem, given: Entry, o: PutOptions, session: string)
    ensures var r := Do(env, max, m, Put(given, o, session)).1;
            var found := if given.key in m.live then Some(m.live[given.key]) else None;
            && (CheckEntry(env, given, max, found).Some? ==> r == Err(CheckEntry(env, given, max, found).value))
            && (CheckEntry(env, given, max, found).None? && Check(env, o, found).Some? ==>
                  r == Err(Check(env, o, found).value))
            && (r.Ok? <==> CheckEntry(env, given, max, found).None? && Check(env, o, found).None?)
    ensures var r := Do(env, max, m, Forget(given.key, session)).1;
            && (r == Err(Invalid) <==> !ValidKey(given.key))
            && (r == Err(NotFound) <==> ValidKey(given.key) && given.key !in m.live)
  {
  }

  /** A completed forget: the entry as it was, with `deleted` set, built on and replacing its last state. */
  lemma ForgetLands(env: Env, max: int, m: Mem, k: Key, session: string)
    requires Do(env, max, m, Forget(k, session)).1.Ok?
    ensures var (m', r) := Do(env, max, m, Forget(k, session));
            var c := r.value;
            && k in m.live && c.entry == m.live[k].(deleted := true) && c.prev == c.replaced == m.live[k].hash
            && c.session == session && c.source == "" && c.seqno == |m.journal| + 1
            && m' == Mem(m.live - {k}, m.journal + [c])
  {
  }

  /** The audit of the journal reports every write that forks, and as no break. */
  lemma ForkIsReported(env: Env, max: int, m: Mem, given: Entry, o: PutOptions, session: string)
    requires Valid(env, m) && Do(env, max, m, Put(given, o, session)).1.Ok?
    requires !o.conditional && o.hasBase && o.base != HashOf(Lookup(m.live, given.key))
    ensures var (m', r) := Do(env, max, m, Put(given, o, session));
            exists u :: u in L.Report(AsItems(m'.journal), 0, |m'.journal|) && u.change == r.value && !u.brk
  {
    var (m', r) := Do(env, max, m, Put(given, o, session));
    PutLands(env, max, m, given, o, session);
    DoKeeps(env, max, m, Put(given, o, session));
    ItemsRecords(m'.journal);
    var items := AsItems(m'.journal);
    L.ChainedVerdict(items, |items| - 1);
    L.InReport(items, 0, |items|, |items| - 1);
  }

  /** In every run of the store the live map is exactly the replay of its journal. */
  lemma {:induction false} RunKeeps(env: Env, max: int, m: Mem, ops: seq<Op>)
    requires Valid(env, m)
    ensures Valid(env, DoAll(env, max, m, ops))
  {
    if ops != [] {
      RunKeeps(env, max, m, ops[..|ops| - 1]);
      DoKeeps(env, max, DoAll(env, max, m, ops[..|ops| - 1]), ops[|ops| - 1]);
    }
  }

  /** And the audit of its journal never reports a break. */
  lemma RunNeverBreaks(env: Env, max: int, ops: seq<Op>)
    ensures var m := DoAll(env, max, Empty, ops);
            && Increasing(m.journal)
            && forall u :: u in L.Report(AsItems(m.journal), 0, |m.journal|) ==> !u.brk
  {
    RunKeeps(env, max, Empty, ops);
    var m := DoAll(env, max, Empty, ops);
    ItemsRecords(m.journal);
    L.ChainedNoBreak(AsItems(m.journal), |m.journal|);
  }

  function AsItems(recs: seq<Change>): (items: seq<L.Item>)
    ensures |items| == |recs|
  {
    seq(|recs|, i requires 0 <= i < |recs| => L.Rec(recs[i]))
  }

  lemma {:induction false} ItemsRecords(recs: seq<Change>)
    ensures L.Records(AsItems(recs)) == recs
  {
    if recs != [] {
      ItemsRecords(recs[..|recs| - 1]);
      assert AsItems(recs)[..|recs| - 1] == AsItems(recs[..|recs| - 1]);
    }
  }

  /******* The store *******/

  class Store {
    const env: Env
    const max: int
    var live: map<Key, Entry>
    var journal: seq<Change>

    function View(): Mem
      reads this
    {
      Mem(live, journal)
    }

    constructor (env: Env, max: int)
      ensures this.env == env && this.max == max && View() == Empty
    {
      this.env, this.max := env, max;
      live, journal := map[], [];
    }

    method Get(k: Key) returns (r: Result<Entry, Error>)
      ensures r == if !ValidKey(k) then Err(Invalid) else if k in live then Ok(live[k]) else Err(NotFound)
    {
      var scopeOk := CheckName(k.scope);
      var nameOk := CheckName(k.name);
      if !scopeOk || !nameOk {
        return Err(Invalid);
      }
      if k !in live {
        return Err(NotFound);
      }
      return Ok(live[k]);
    }

    method Append(e: Entry, prev: string, replaced: string, session: string) returns (c: Change)
      modifies this`journal
      ensures c == Change(|old(journal)| + 1, e, prev, replaced, session, "") && journal == old(journal) + [c]
    {
      c := Change(|journal| + 1, e, prev, replaced, session, "");
      journal := journal + [c];
    }

    method Put(given: Entry, o: PutOptions, session: string) returns (r: Result<Change, Error>)
      modifies this
      ensures (View(), r) == Do(env, max, old(View()), Op.Put(given, o, session))
    {
      var stored := if given.key in live then Some(live[given.key]) else None;
      var refused := RunCheckEntry(env, given, max, stored);
      if refused.Some? {
        return Err(refused.value);
      }
      var conflict := Check(env, o, stored);
      if conflict.Some? {
        return Err(conflict.value);
      }
      var e := given.(hash := env.hash(given.content), deleted := false);
      live := live[given.key := e];
      var replaced := if stored.Some? then stored.value.hash else "";
      var c := Append(e, BaseFor(o, replaced), replaced, session);
      return Ok(c);
    }

    method Forget(k: Key, session: string) returns (r: Result<Change, Error>)
      modifies this
      ensures (View(), r) == Do(env, max, old(View()), Op.Forget(k, session))
    {
      var scopeOk := CheckName(k.scope);
      var nameOk := CheckName(k.name);
      if !scopeOk || !nameOk {
        return Err(Invalid);
      }
      if k !in live {
        return Err(NotFound);
      }
      var e := live[k];
      live := live - {k};
      var c := Append(e.(deleted := true), e.hash, e.hash, session);
      return Ok(c);
    }

    /** `Journal`: in a store numbered from 1 without gaps, a cursor is a place in the journal. */
    method Journal(after: nat) returns (changes: seq<Change>)
      requires Valid(env, View())
      ensures changes == After(journal, after)
    {
      changes := if after < |journal| then journal[after..] else [];
      assert Increasing(journal);
      if after < |journal| {
        ResumeSkips(journal, after, after);
      } else {
        ResumeSkips(journal, |journal|, after);
      }
    }

    /** Other sessions' calls, whatever they are. */
    method Interfere(ops: seq<Op>)
      modifies this
      ensures View() == Runs(env, max)(old(View()), ops)
    {
      for i := 0 to |ops|
        invariant View() == DoAll(env, max, old(View()), ops[..i])
      {
        assert ops[..i + 1][..i] == ops[..i];
        match ops[i] {
          case Put(given, o, session) => var _ := Put(given, o, session);
          case Forget(k, session) => var _ := Forget(k, session);
        }
      }
      assert ops[..|ops|] == ops;
    }
  }
}
