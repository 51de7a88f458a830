/**
 What a step of the module System that gives a number twice does to the chain of the
 records and to their audit, and a run that makes one.
 */
module Doubling {
  import opened Common
  import opened Memory
  import opened Journal
  import opened Cursor
  import opened System
  import FS = FileStore
  import K = Lock
  import L = LostUpdates

  /******* What the audit then reports *******/

  /** The audit of the whole journal reports a break. */
  ghost predicate AuditBreaks(codec: Codec, j: string) {
    L.ReportsBreak(Items(codec, Lines(j)))
  }

  lemma AuditIffUnchained(codec: Codec, j: string)
    requires Read(codec, j) != [] ==> Read(codec, j)[0].seqno == 1
    ensures AuditBreaks(codec, j) <==> !Chained(Read(codec, j))
  {
    ItemsRecords(codec, Lines(j));
    L.FirstHoldsStart(Items(codec, Lines(j)));
    L.BreakIffUnchained(Items(codec, Lines(j)));
  }

  lemma ChainedFront(recs: seq<Change>, d: Change)
    requires Chained(recs + [d])
    ensures Chained(recs)
  {
    assert forall i :: 0 <= i < |recs| ==> (recs + [d])[i] == recs[i] && (recs + [d])[..i] == recs[..i];
  }

  // A record between a chain and a record built on the chain without it.
  lemma BetweenChains(recs: seq<Change>, t: Change, d: Change)
    requires Chained(recs) && d.replaced == HeldHash(recs, d.entry.key)
    ensures Chained(recs + [t] + [d]) <==>
            && t.replaced == HeldHash(recs, t.entry.key)
            && (t.entry.key == d.entry.key ==> LiveHash(t.entry) == d.replaced)
  {
    ChainedAppend(recs, t);
    LastForAppend(recs, t, d.entry.key);
    if Chained(recs + [t]) {
      ChainedAppend(recs + [t], d);
    } else if Chained(recs + [t] + [d]) {
      ChainedFront(recs + [t], d);
    }
  }

  // The records after a step that gives a number twice.
  lemma DoubledRecords(cfg: Config, s: Sys, act: Act) returns (t: Change, d: Change)
    requires Assumed(cfg) && Inv(cfg, s) && Enabled(cfg, s, act) && Doubles(cfg, s, act)
    ensures TailRecord(cfg.codec, s.journal) == [t] && Kept(cfg.env, Next(cfg, s, act.w, act.i).change, d)
    ensures d.replaced == HeldHash(Read(cfg.codec, s.journal), d.entry.key)
    ensures Read(cfg.codec, Do(cfg, s, act).journal) ==
            Read(cfg.codec, s.journal) + [t] + (if act.Append? then [d] else [])
  {
    var c := Next(cfg, s, act.w, act.i).change;
    assert MemAgrees(cfg, s, act.w);
    NextIs(cfg, s, act.w, act.i);
    assert ReadsBack(cfg.env, cfg.codec, c);
    TailIsRecord(cfg, s.journal);
    t, d := TailRecord(cfg.codec, s.journal)[0], cfg.codec.dec(cfg.codec.enc(c)).value;
    if act.Append? {
      AppendRecords(cfg.env, cfg.codec, s.journal, c);
    } else {
      TornRecords(cfg.env, cfg.codec, s.journal, c, act.n);
    }
  }

  /** The cut-off record leaves its entry's chain, or the record after it, of the same entry, does not know of it. */
  predicate Parts(recs: seq<Change>, t: Change, c: Change, whole: bool) {
    || t.replaced != HeldHash(recs, t.entry.key)
    || (whole && t.entry.key == c.entry.key && LiveHash(t.entry) != c.replaced)
  }

  lemma DoubledAudit(cfg: Config, s: Sys, act: Act)
    requires Assumed(cfg) && Inv(cfg, s) && Enabled(cfg, s, act) && Doubles(cfg, s, act)
    ensures AuditBreaks(cfg.codec, Do(cfg, s, act).journal) <==>
            Parts(Read(cfg.codec, s.journal), TailRecord(cfg.codec, s.journal)[0], Next(cfg, s, act.w, act.i).change,
                  act.Append?)
  {
    var recs := Read(cfg.codec, s.journal);
    var t, d := DoubledRecords(cfg, s, act);
    TailIsRecord(cfg, s.journal);
    var after := Read(cfg.codec, Do(cfg, s, act).journal);
    assert after[0] == if recs == [] then t else recs[0];
    AuditIffUnchained(cfg.codec, Do(cfg, s, act).journal);
    if act.Append? {
      BetweenChains(recs, t, d);
    } else {
      ChainedAppend(recs, t);
      assert after == recs + [t];
    }
  }

  /**
   At the first step of a run that gives a number twice, the audit of the journal it leaves
   reports a break if and only if the cut-off record it ends left the chain of its entry, or
   the record it appends is of the same entry and that record had changed its state.
   Otherwise the number is repeated and the audit has nothing to say of it.
   */
  lemma DoubledRunAudit(cfg: Config, states: seq<Sys>, acts: seq<Act>, n: nat)
    requires Assumed(cfg) && Run(cfg, states, acts) && n < |acts| && Undoubled(cfg, states, acts, n)
    requires Doubles(cfg, states[n], acts[n])
    ensures AuditBreaks(cfg.codec, states[n + 1].journal) <==>
            Parts(Read(cfg.codec, states[n].journal), TailRecord(cfg.codec, states[n].journal)[0],
                  Next(cfg, states[n], acts[n].w, acts[n].i).change, acts[n].Append?)
  {
    InvRun(cfg, states, acts, n);
    DoubledAudit(cfg, states[n], acts[n]);
  }

  /******* A run that gets there *******/

  // A run none of whose steps gives a number twice, and where it ends.
  ghost predicate Reaches(cfg: Config, states: seq<Sys>, acts: seq<Act>, s: Sys) {
    Run(cfg, states, acts) && Undoubled(cfg, states, acts, |acts|) && states[|acts|] == s
  }

  // One step more, which may be one that gives a number twice.
  lemma Extends(cfg: Config, states: seq<Sys>, acts: seq<Act>, s: Sys, act: Act) returns (more: seq<Sys>, all: seq<Act>)
    requires Reaches(cfg, states, acts, s) && Enabled(cfg, s, act)
    ensures more == states + [Do(cfg, s, act)] && all == acts + [act]
    ensures Run(cfg, more, all) && Undoubled(cfg, more, all, |acts|)
  {
    more, all := states + [Do(cfg, s, act)], acts + [act];
    forall i | 0 <= i < |all| ensures Enabled(cfg, more[i], all[i]) && more[i + 1] == Do(cfg, more[i], all[i]) {
      if i < |acts| {
        assert more[i] == states[i] && more[i + 1] == states[i + 1] && all[i] == acts[i];
      }
    }
  }

  lemma Onward(cfg: Config, states: seq<Sys>, acts: seq<Act>, s: Sys, act: Act)
    returns (more: seq<Sys>, all: seq<Act>, s': Sys)
    requires Reaches(cfg, states, acts, s) && Enabled(cfg, s, act) && !Doubles(cfg, s, act)
    ensures Reaches(cfg, more, all, s') && s' == Do(cfg, s, act)
  {
    s' := Do(cfg, s, act);
    more, all := Extends(cfg, states, acts, s, act);
  }

  lemma OnwardLock(cfg: Config, states: seq<Sys>, acts: seq<Act>, s: Sys, a: K.Action)
    returns (more: seq<Sys>, all: seq<Act>, s': Sys)
    requires Reaches(cfg, states, acts, s) && K.Enabled(s.lk, a)
    ensures Reaches(cfg, more, all, s') && s'.lk == K.Step(cfg.digest, s.lk, a) && s'.journal == s.journal
  {
    more, all, s' := Onward(cfg, states, acts, s, LockStep(a));
  }

  lemma OnwardLoad(cfg: Config, states: seq<Sys>, acts: seq<Act>, s: Sys, w: K.Writer)
    returns (more: seq<Sys>, all: seq<Act>, s': Sys)
    requires Reaches(cfg, states, acts, s) && InCharge(s, w)
    ensures Reaches(cfg, more, all, s') && s'.lk == s.lk && s'.journal == s.journal && w in s'.mem
  {
    more, all, s' := Onward(cfg, states, acts, s, Load(w));
  }

  // The writer may take the lock, and nobody has it.
  predicate Ready(s: Sys, w: K.Writer) {
    K.Live(s.lk, w) && K.PcOf(s.lk, w).Idle? && s.lk.lock.None?
  }

  // It has the lock and has loaded the cursor.
  predicate Charged(s: Sys, w: K.Writer, ino: K.Inode, info: K.LockInfo) {
    && K.Live(s.lk, w) && K.PcOf(s.lk, w) == K.Holding(ino, info)
    && s.lk.lock == Some(ino) && K.Reads(s.lk, ino, info) && w in s.mem
  }

  predicate Signs(info: K.LockInfo, w: K.Writer) {
    info.pid == w.proc.pid && info.host == w.proc.host
  }

  lemma TakesCharge(cfg: Config, states: seq<Sys>, acts: seq<Act>, s: Sys, w: K.Writer, ino: K.Inode, info: K.LockInfo)
    returns (more: seq<Sys>, all: seq<Act>, s': Sys)
    requires Reaches(cfg, states, acts, s) && Ready(s, w)
    requires ino !in s.lk.files && info !in s.lk.used && Signs(info, w)
    ensures Reaches(cfg, more, all, s') && Charged(s', w, ino, info) && s'.journal == s.journal
    ensures s'.lk.files == s.lk.files[ino := K.Info(info)] && s'.lk.used == s.lk.used + {info}
  {
    more, all, s' := OnwardLock(cfg, states, acts, s, K.Begin(w));
    more, all, s' := OnwardLock(cfg, more, all, s', K.Create(w, ino));
    more, all, s' := OnwardLock(cfg, more, all, s', K.Write(w, info));
    more, all, s' := OnwardLoad(cfg, more, all, s', w);
  }

  lemma LetsGo(cfg: Config, states: seq<Sys>, acts: seq<Act>, s: Sys, w: K.Writer, ino: K.Inode, info: K.LockInfo)
    returns (more: seq<Sys>, all: seq<Act>, s': Sys)
    requires Reaches(cfg, states, acts, s) && K.Live(s.lk, w) && K.PcOf(s.lk, w) == K.Holding(ino, info)
    requires s.lk.lock == Some(ino) && K.Reads(s.lk, ino, info)
    ensures Reaches(cfg, more, all, s') && Ready(s', w) && s'.journal == s.journal
    ensures s'.lk.files == s.lk.files && s'.lk.used == s.lk.used
  {
    more, all, s' := OnwardLock(cfg, states, acts, s, K.Release(w, true));
    more, all, s' := OnwardLock(cfg, more, all, s', K.Free(w, true));
  }

  // The first append to an empty journal loses its last newline.
  lemma TearsFirst(cfg: Config, states: seq<Sys>, acts: seq<Act>, s: Sys, w: K.Writer, e: Entry, o: PutOptions,
                   session: string)
    returns (more: seq<Sys>, all: seq<Act>, s': Sys, t: Change)
    requires Assumed(cfg) && Reaches(cfg, states, acts, s) && InCharge(s, w) && w in s.mem && s.journal == ""
    requires FS.ValidIntent(cfg.env, cfg.max, FS.Write(e, o, None, session))
    ensures Reaches(cfg, more, all, s') && s'.lk == s.lk
    ensures Read(cfg.codec, s'.journal) == [] && TailRecord(cfg.codec, s'.journal) == [t]
    ensures t.entry.key == e.key && LiveHash(t.entry) == e.hash && t.replaced == ""
  {
    InvRun(cfg, states, acts, |acts|);
    var i := FS.Write(e, o, None, session);
    assert MemAgrees(cfg, s, w);
    NextIs(cfg, s, w, i);
    var c := Next(cfg, s, w, i).change;
    var cut := |AppendBytes(s.journal, cfg.codec.enc(c))| - 1;
    LostNewlineLeaves(cfg.env, cfg.codec, s.journal, c, Torn(cfg.codec, s.journal, c, cut));
    t := cfg.codec.dec(cfg.codec.enc(c)).value;
    more, all, s' := Onward(cfg, states, acts, s, Tear(w, i, cut));
  }

  // The first write of an empty directory does, and the writer lets the lock go.
  lemma FirstWrite(cfg: Config, w: K.Writer, info: K.LockInfo, e: Entry, o: PutOptions, session: string)
    returns (states: seq<Sys>, acts: seq<Act>, s: Sys, t: Change)
    requires Assumed(cfg) && Signs(info, w) && FS.ValidIntent(cfg.env, cfg.max, FS.Write(e, o, None, session))
    ensures Reaches(cfg, states, acts, s) && Ready(s, w) && s.lk.files.Keys == {0} && s.lk.used == {info}
    ensures Read(cfg.codec, s.journal) == [] && TailRecord(cfg.codec, s.journal) == [t]
    ensures t.entry.key == e.key && LiveHash(t.entry) == e.hash && t.replaced == ""
  {
    states, acts, s := OnwardLock(cfg, [Initial], [], Initial, K.Spawn(w.proc));
    states, acts, s := TakesCharge(cfg, states, acts, s, w, 0, info);
    states, acts, s, t := TearsFirst(cfg, states, acts, s, w, e, o, session);
    states, acts, s := LetsGo(cfg, states, acts, s, w, 0, info);
  }

  lemma SecondWrite(cfg: Config, states: seq<Sys>, acts: seq<Act>, s: Sys, w: K.Writer, e: Entry, o: PutOptions,
                    session: string, t: Change)
    requires Assumed(cfg) && Reaches(cfg, states, acts, s) && InCharge(s, w) && w in s.mem
    requires Read(cfg.codec, s.journal) == [] && TailRecord(cfg.codec, s.journal) == [t]
    requires t.replaced == "" && LiveHash(t.entry) != ""
    requires FS.ValidIntent(cfg.env, cfg.max, FS.Write(e, o, None, session))
    ensures var act := Append(w, FS.Write(e, o, None, session));
            && Enabled(cfg, s, act) && Doubles(cfg, s, act)
            && (AuditBreaks(cfg.codec, Do(cfg, s, act).journal) <==> t.entry.key == e.key)
  {
    InvRun(cfg, states, acts, |acts|);
    var i := FS.Write(e, o, None, session);
    assert MemAgrees(cfg, s, w);
    NextIs(cfg, s, w, i);
    DoubledAudit(cfg, s, Append(w, i));
  }

  /**
   From the empty directory: a write whose append loses its last newline alone, and the
   next write, give one number twice; the audit reports a break if and only if both are
   of one entry.
   */
  lemma DoublingIsReached(cfg: Config, w: K.Writer, info: K.LockInfo, again: K.LockInfo, e: Entry, e': Entry,
                          o: PutOptions, session: string)
    returns (states: seq<Sys>, acts: seq<Act>, n: nat)
    requires Assumed(cfg) && Signs(info, w) && Signs(again, w) && info != again
    requires FS.ValidIntent(cfg.env, cfg.max, FS.Write(e, o, None, session))
    requires FS.ValidIntent(cfg.env, cfg.max, FS.Write(e', o, None, session))
    ensures Run(cfg, states, acts) && |acts| == n + 1 && Undoubled(cfg, states, acts, n)
    ensures acts[n] == Append(w, FS.Write(e', o, None, session)) && Doubles(cfg, states[n], acts[n])
    ensures AuditBreaks(cfg.codec, states[n + 1].journal) <==> e.key == e'.key
  {
    var before, did, s, t := FirstWrite(cfg, w, info, e, o, session);
    before, did, s := TakesCharge(cfg, before, did, s, w, 1, again);
    n := |did|;
    var act := Append(w, FS.Write(e', o, None, session));
    SecondWrite(cfg, before, did, s, w, e', o, session, t);
    states, acts := Extends(cfg, before, did, s, act);
  }
}
