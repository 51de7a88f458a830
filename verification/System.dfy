/**
 The whole of it: any number of writers that take the lock, read the cursor, append to
 the journal and save the cursor, one file operation at a time, while processes die,
 appends are cut off and people edit the entry files.

 The entry files do not appear.  What a writer reads of one is in its intent and may be
 anything, so every edit a person could make, at any moment, is covered.  An append may
 be cut off after any byte, its last newline included; what that last cut does to the
 order of the records, and when, is the lemma OrderIffUndoubled.
 */
module System {
  import opened Common
  import opened Memory
  import opened Journal
  import opened Cursor
  import FS = FileStore
  import K = Lock
  import KS = LockSteps
  import L = LostUpdates

  datatype Config = Config(env: Env, codec: Codec, max: int, digest: K.Digest)

  datatype Sys = Sys(
    lk: K.State,
    journal: string,
    saved: Option<State>,
    mem: map<K.Writer, State>)

  datatype Act =
    | LockStep(a: K.Action)
    | Load(w: K.Writer)
    | Append(w: K.Writer, i: FS.Intent)
    | Tear(w: K.Writer, i: FS.Intent, n: nat)
    | Save(w: K.Writer)
    | LoseCursor

  const Initial := Sys(K.Initial, "", None, map[])

  /** The writer is alive and between taking the lock and releasing it. */
  predicate InCharge(s: Sys, w: K.Writer) {
    K.Live(s.lk, w) && K.PcOf(s.lk, w).Holding?
  }

  predicate CanAppend(cfg: Config, s: Sys, w: K.Writer, i: FS.Intent) {
    && InCharge(s, w) && w in s.mem && FS.ValidIntent(cfg.env, cfg.max, i)
    && FS.Build(cfg.env, cfg.max, s.mem[w], Read(cfg.codec, s.journal), i).Some?
  }

  function Next(cfg: Config, s: Sys, w: K.Writer, i: FS.Intent): Step
    requires CanAppend(cfg, s, w, i)
  {
    AppendChange(cfg.env, cfg.codec, s.mem[w], s.journal,
      FS.Build(cfg.env, cfg.max, s.mem[w], Read(cfg.codec, s.journal), i).value)
  }

  predicate Enabled(cfg: Config, s: Sys, act: Act) {
    match act
    case LockStep(a) => K.Enabled(s.lk, a)
    case Load(w) => InCharge(s, w)
    case Append(w, i) => CanAppend(cfg, s, w, i)
    case Tear(w, i, n) =>
      CanAppend(cfg, s, w, i) && n < |AppendBytes(s.journal, cfg.codec.enc(Next(cfg, s, w, i).change))|
    case Save(w) => InCharge(s, w) && w in s.mem
    case LoseCursor => true
  }

  function Do(cfg: Config, s: Sys, act: Act): Sys
    requires Enabled(cfg, s, act)
  {
    match act
    case LockStep(a) =>
      s.(lk := K.Step(cfg.digest, s.lk, a), mem := if a.Write? then s.mem - {a.w} else s.mem)
    case Load(w) => s.(mem := s.mem[w := Loaded(cfg.env, cfg.codec, s.saved, s.journal)])
    case Append(w, i) =>
      var step := Next(cfg, s, w, i);
      s.(journal := step.journal, mem := s.mem[w := step.st])
    case Tear(w, i, n) =>
      s.(journal := Torn(cfg.codec, s.journal, Next(cfg, s, w, i).change, n), mem := s.mem - {w})
    case Save(w) => s.(saved := Some(s.mem[w]))
    case LoseCursor => s.(saved := None)
  }

  ghost predicate Run(cfg: Config, states: seq<Sys>, acts: seq<Act>) {
    && |states| == |acts| + 1 && states[0] == Initial
    && forall i :: 0 <= i < |acts| ==> Enabled(cfg, states[i], acts[i]) && states[i + 1] == Do(cfg, states[i], acts[i])
  }

  ghost predicate Assumed(cfg: Config) {
    Sound(cfg.env.hash) && Faithful(cfg.env, cfg.codec)
  }

  /** The cursor on disk was saved against this journal as it once was. */
  ghost predicate SavedBefore(cfg: Config, saved: Option<State>, j: string) {
    saved.Some? ==> exists was :: was <= j && saved.value == Rebuilt(cfg.env, cfg.codec, was)
  }

  ghost predicate MemAgrees(cfg: Config, s: Sys, w: K.Writer) {
    InCharge(s, w) && w in s.mem ==> s.mem[w] == Rebuilt(cfg.env, cfg.codec, s.journal)
  }

  /** A cut-off line that reads as a record continues the records, or repeats a number they have. */
  ghost predicate TailFits(recs: seq<Change>, tail: seq<Change>) {
    tail != [] && tail[0].seqno > LastSeqno(recs) ==>
      tail[0].seqno == LastSeqno(recs) + 1 && tail[0].replaced == HeldHash(recs, tail[0].entry.key)
  }

  ghost predicate Ordered(recs: seq<Change>, tail: seq<Change>) {
    Increasing(recs) && Chained(recs) && (recs != [] ==> recs[0].seqno == 1) && TailFits(recs, tail)
  }

  ghost predicate Inv(cfg: Config, s: Sys) {
    && K.Inv(cfg.digest, s.lk)
    && Ordered(Read(cfg.codec, s.journal), TailRecord(cfg.codec, s.journal))
    && SavedBefore(cfg, s.saved, s.journal)
    && (forall w :: MemAgrees(cfg, s, w))
  }

  /**
   The step gives a number twice: it ends a cut-off line that reads as a record, and
   either appends its own record after it or finds the line's number used already.
   */
  predicate Doubles(cfg: Config, s: Sys, act: Act) {
    var recs, tail := Read(cfg.codec, s.journal), TailRecord(cfg.codec, s.journal);
    match act
    case Append(_, _) => tail != []
    case Tear(_, _, n) => n > 0 && tail != [] && tail[0].seqno <= LastSeqno(recs)
    case _ => false
  }

  /** None of the first `n` steps does. */
  ghost predicate Undoubled(cfg: Config, states: seq<Sys>, acts: seq<Act>, n: nat) {
    n <= |acts| <= |states| && forall i :: 0 <= i < n ==> !Doubles(cfg, states[i], acts[i])
  }

  /** Only the lock's own steps decide who is in charge, and one writer at most is. */
  lemma OneInCharge(cfg: Config, s: Sys, w: K.Writer, w': K.Writer)
    requires K.Inv(cfg.digest, s.lk) && InCharge(s, w) && InCharge(s, w')
    ensures w == w'
  {
    assert K.OwnerInv(s.lk, w) && K.OwnerInv(s.lk, w');
    assert K.PairInv(cfg.digest, s.lk, w, w');
  }

  // A writer in charge after a step of the lock that did not just give it the lock was in charge before.
  lemma InChargeSince(cfg: Config, s: Sys, a: K.Action, w: K.Writer)
    requires K.Inv(cfg.digest, s.lk) && K.Enabled(s.lk, a)
    requires var lk := K.Step(cfg.digest, s.lk, a); K.Live(lk, w) && K.PcOf(lk, w).Holding?
    ensures InCharge(s, w) || (a.Write? && a.w == w)
  {
    assert K.OwnerInv(s.lk, w);
  }

  lemma LoadIsRebuilt(cfg: Config, saved: Option<State>, j: string)
    requires Assumed(cfg) && SavedBefore(cfg, saved, j)
    ensures Loaded(cfg.env, cfg.codec, saved, j) == Rebuilt(cfg.env, cfg.codec, j)
  {
    if saved.Some? {
      var was :| was <= j && saved.value == Rebuilt(cfg.env, cfg.codec, was);
      LoadCatchesUp(cfg.env, cfg.codec, was, j[|was|..]);
      assert was + j[|was|..] == j;
    } else {
      LoadWithoutCursor(cfg.env, cfg.codec, j);
    }
  }

  lemma SavedGrows(cfg: Config, saved: Option<State>, j: string, more: string)
    requires SavedBefore(cfg, saved, j)
    ensures SavedBefore(cfg, saved, j + more)
  {
    if saved.Some? {
      var was :| was <= j && saved.value == Rebuilt(cfg.env, cfg.codec, was);
      assert was <= j + more;
    }
  }

  // One record more, or none: what a step does to the records a reader finds.
  ghost predicate Grows(cfg: Config, s: Sys, s': Sys) {
    var recs, recs' := Read(cfg.codec, s.journal), Read(cfg.codec, s'.journal);
    recs' == recs || exists c :: recs' == recs + [c]
  }

  lemma LockStepKeeps(cfg: Config, s: Sys, a: K.Action)
    requires Assumed(cfg) && Inv(cfg, s) && Enabled(cfg, s, LockStep(a))
    ensures Inv(cfg, Do(cfg, s, LockStep(a))) && Grows(cfg, s, Do(cfg, s, LockStep(a)))
  {
    var s' := Do(cfg, s, LockStep(a));
    KS.InvStep(cfg.digest, s.lk, a);
    forall w ensures MemAgrees(cfg, s', w) {
      if InCharge(s', w) && w in s'.mem {
        InChargeSince(cfg, s, a, w);
        assert MemAgrees(cfg, s, w);
      }
    }
  }

  // What a writer in charge is about to append.
  lemma NextIs(cfg: Config, s: Sys, w: K.Writer, i: FS.Intent)
    requires Assumed(cfg) && MemAgrees(cfg, s, w) && CanAppend(cfg, s, w, i)
    ensures var c, recs := Next(cfg, s, w, i).change, Read(cfg.codec, s.journal);
            && Recordable(cfg.env, c) && c.seqno == LastSeqno(recs) + 1
            && c.replaced == HeldHash(recs, c.entry.key)
  {
    var c := FS.Build(cfg.env, cfg.max, s.mem[w], Read(cfg.codec, s.journal), i).value;
    FS.BuildChains(cfg.env, cfg.max, cfg.codec, s.journal, i);
    AppendAgrees(cfg.env, cfg.codec, s.mem[w], s.journal, c);
  }

  lemma AppendKeepsInv(cfg: Config, s: Sys, w: K.Writer, i: FS.Intent)
    requires Assumed(cfg) && Inv(cfg, s) && Enabled(cfg, s, Append(w, i)) && !Doubles(cfg, s, Append(w, i))
    ensures Inv(cfg, Do(cfg, s, Append(w, i))) && Grows(cfg, s, Do(cfg, s, Append(w, i)))
  {
    var s' := Do(cfg, s, Append(w, i));
    assert MemAgrees(cfg, s, w);
    FS.IntentAppends(cfg.env, cfg.max, cfg.codec, s.journal, i);
    SavedGrows(cfg, s.saved, s.journal, AppendBytes(s.journal, cfg.codec.enc(Next(cfg, s, w, i).change)));
    forall w' ensures MemAgrees(cfg, s', w') {
      if InCharge(s', w') {
        OneInCharge(cfg, s, w, w');
      }
    }
  }

  // The records and the cut-off line after a cut, from those before it and the record `d` that was cut.
  lemma CutOrders(recs: seq<Change>, tail: seq<Change>, d: Change, recs': seq<Change>, tail': seq<Change>)
    requires Ordered(recs, tail) && |tail| <= 1 && (tail != [] ==> tail[0].seqno > LastSeqno(recs))
    requires recs' == recs + tail && (tail' == [] || tail' == [d])
    requires d.seqno == LastSeqno(recs) + 1 && d.replaced == HeldHash(recs, d.entry.key)
    ensures Ordered(recs', tail') && (recs' == recs || exists c :: recs' == recs + [c])
  {
    if tail == [] {
      assert recs' == recs;
    } else {
      assert tail == [tail[0]];
      IncreasingAppend(recs, tail[0]);
      ChainedAppend(recs, tail[0]);
    }
  }

  lemma TearKeepsInv(cfg: Config, s: Sys, w: K.Writer, i: FS.Intent, n: nat)
    requires Assumed(cfg) && Inv(cfg, s) && Enabled(cfg, s, Tear(w, i, n)) && !Doubles(cfg, s, Tear(w, i, n))
    ensures Inv(cfg, Do(cfg, s, Tear(w, i, n))) && Grows(cfg, s, Do(cfg, s, Tear(w, i, n)))
  {
    var s' := Do(cfg, s, Tear(w, i, n));
    assert MemAgrees(cfg, s, w);
    NextIs(cfg, s, w, i);
    var c := Next(cfg, s, w, i).change;
    TearOrders(cfg, s, s'.journal, c, n);
    SavedGrows(cfg, s.saved, s.journal, AppendBytes(s.journal, cfg.codec.enc(c))[..n]);
    forall w' ensures MemAgrees(cfg, s', w') {
      if InCharge(s', w') {
        OneInCharge(cfg, s, w, w');
      }
    }
  }

  // What a cut leaves of the order, and what it adds to the records.
  lemma TearOrders(cfg: Config, s: Sys, j: string, c: Change, n: nat)
    requires Assumed(cfg) && Recordable(cfg.env, c) && n < |AppendBytes(s.journal, cfg.codec.enc(c))|
    requires j == Torn(cfg.codec, s.journal, c, n)
    requires var recs, tail := Read(cfg.codec, s.journal), TailRecord(cfg.codec, s.journal);
             && Ordered(recs, tail) && (n > 0 && tail != [] ==> tail[0].seqno > LastSeqno(recs))
             && c.seqno == LastSeqno(recs) + 1 && c.replaced == HeldHash(recs, c.entry.key)
    ensures Ordered(Read(cfg.codec, j), TailRecord(cfg.codec, j))
    ensures var recs, recs' := Read(cfg.codec, s.journal), Read(cfg.codec, j);
            recs' == recs || exists c :: recs' == recs + [c]
  {
    var recs, tail := Read(cfg.codec, s.journal), TailRecord(cfg.codec, s.journal);
    if n == 0 {
      assert j == s.journal;
    } else {
      var d := cfg.codec.dec(cfg.codec.enc(c)).value;
      assert d.seqno == c.seqno && d.replaced == c.replaced && d.entry.key == c.entry.key by {
        assert ReadsBack(cfg.env, cfg.codec, c);
      }
      var recs', tail' := Read(cfg.codec, j), TailRecord(cfg.codec, j);
      assert recs' == recs + tail && (tail' == [] || tail' == [d]) by {
        TornRecords(cfg.env, cfg.codec, s.journal, c, n);
      }
      assert |tail| <= 1;
      CutOrders(recs, tail, d, recs', tail');
    }
  }

  /** Every step that gives no number twice keeps the invariant. */
  lemma InvStep(cfg: Config, s: Sys, act: Act)
    requires Assumed(cfg) && Inv(cfg, s) && Enabled(cfg, s, act) && !Doubles(cfg, s, act)
    ensures Inv(cfg, Do(cfg, s, act)) && Grows(cfg, s, Do(cfg, s, act))
  {
    match act {
      case LockStep(a) => LockStepKeeps(cfg, s, a);
      case Append(w, i) => AppendKeepsInv(cfg, s, w, i);
      case Tear(w, i, n) => TearKeepsInv(cfg, s, w, i, n);
      case Load(w) =>
        LoadIsRebuilt(cfg, s.saved, s.journal);
        var s' := Do(cfg, s, act);
        forall w' ensures MemAgrees(cfg, s', w') { assert MemAgrees(cfg, s, w'); }
      case Save(w) =>
        var s' := Do(cfg, s, act);
        assert MemAgrees(cfg, s, w);
        forall w' ensures MemAgrees(cfg, s', w') { assert MemAgrees(cfg, s, w'); }
      case LoseCursor =>
        var s' := Do(cfg, s, act);
        forall w' ensures MemAgrees(cfg, s', w') { assert MemAgrees(cfg, s, w'); }
    }
  }

  lemma {:induction false} InvRun(cfg: Config, states: seq<Sys>, acts: seq<Act>, n: nat)
    requires Assumed(cfg) && Run(cfg, states, acts) && Undoubled(cfg, states, acts, n)
    ensures Inv(cfg, states[n])
  {
    if n > 0 {
      InvRun(cfg, states, acts, n - 1);
      InvStep(cfg, states[n - 1], acts[n - 1]);
    }
  }

  // Two records after others, the second numbered one past the others' last.
  lemma NotIncreasing(recs: seq<Change>, t: Change, d: Change)
    requires d.seqno == LastSeqno(recs) + 1 && t.seqno > 0
    ensures t.seqno <= LastSeqno(recs) ==> !Increasing(recs + [t])
    ensures t.seqno <= LastSeqno(recs) + 1 ==> !Increasing(recs + [t] + [d])
  {
    var one, two := recs + [t], recs + [t] + [d];
    assert one[|recs|] == t && two[|recs|] == t && two[|recs| + 1] == d;
    if t.seqno <= LastSeqno(recs) {
      assert one[|recs| - 1] == recs[|recs| - 1] && two[|recs| - 1] == recs[|recs| - 1];
    }
  }

  /** A step that gives a number twice does break the order. */
  lemma DoubleBreaks(cfg: Config, s: Sys, act: Act)
    requires Assumed(cfg) && Inv(cfg, s) && Enabled(cfg, s, act) && Doubles(cfg, s, act)
    ensures !Increasing(Read(cfg.codec, Do(cfg, s, act).journal))
  {
    var recs, tail := Read(cfg.codec, s.journal), TailRecord(cfg.codec, s.journal);
    var c := Next(cfg, s, act.w, act.i).change;
    assert MemAgrees(cfg, s, act.w);
    NextIs(cfg, s, act.w, act.i);
    assert ReadsBack(cfg.env, cfg.codec, c);
    var d := cfg.codec.dec(cfg.codec.enc(c)).value;
    TailIsRecord(cfg, s.journal);
    NotIncreasing(recs, tail[0], d);
    if act.Append? {
      AppendRecords(cfg.env, cfg.codec, s.journal, c);
    } else {
      TornRecords(cfg.env, cfg.codec, s.journal, c, act.n);
    }
  }

  lemma TailIsRecord(cfg: Config, j: string)
    requires Assumed(cfg) && TailRecord(cfg.codec, j) != []
    ensures TailRecord(cfg.codec, j) == [TailRecord(cfg.codec, j)[0]] && TailRecord(cfg.codec, j)[0].seqno > 0
  {
    assert OnlyRecords(cfg.env, cfg.codec, Tail(j));
  }

  lemma {:induction false} IncreasingUndoubles(cfg: Config, states: seq<Sys>, acts: seq<Act>, n: nat)
    requires Assumed(cfg) && Run(cfg, states, acts) && n <= |acts|
    requires forall m :: 0 <= m < |states| ==> Increasing(Read(cfg.codec, states[m].journal))
    ensures Undoubled(cfg, states, acts, n)
  {
    if n > 0 {
      IncreasingUndoubles(cfg, states, acts, n - 1);
      InvRun(cfg, states, acts, n - 1);
      assert Increasing(Read(cfg.codec, states[n].journal));
      if Doubles(cfg, states[n - 1], acts[n - 1]) {
        DoubleBreaks(cfg, states[n - 1], acts[n - 1]);
      }
    }
  }

  /**
   Over all runs, cuts of every kind included: the readable records of every state are
   numbered in increasing order if and only if no step gives a number twice.
   */
  lemma OrderIffUndoubled(cfg: Config, states: seq<Sys>, acts: seq<Act>)
    requires Assumed(cfg) && Run(cfg, states, acts)
    ensures (forall m :: 0 <= m < |states| ==> Increasing(Read(cfg.codec, states[m].journal)))
            <==> Undoubled(cfg, states, acts, |acts|)
  {
    if Undoubled(cfg, states, acts, |acts|) {
      forall m | 0 <= m < |states| ensures Increasing(Read(cfg.codec, states[m].journal)) {
        InvRun(cfg, states, acts, m);
      }
    }
    if forall m :: 0 <= m < |states| ==> Increasing(Read(cfg.codec, states[m].journal)) {
      IncreasingUndoubles(cfg, states, acts, |acts|);
    }
  }

  /** The cut that loses an append's last newline and nothing else. */
  predicate LosesNewline(cfg: Config, s: Sys, act: Act)
    requires Enabled(cfg, s, act)
  {
    act.Tear? && act.n == |AppendBytes(s.journal, cfg.codec.enc(Next(cfg, s, act.w, act.i).change))| - 1
  }

  /** A run without that one cut gives no number twice, and never ends in a cut-off record. */
  lemma {:induction false} OnlyLostNewlinesDouble(cfg: Config, states: seq<Sys>, acts: seq<Act>, n: nat)
    requires Assumed(cfg) && Run(cfg, states, acts) && n <= |acts|
    requires forall i :: 0 <= i < n ==> !LosesNewline(cfg, states[i], acts[i])
    ensures Undoubled(cfg, states, acts, n) && TailRecord(cfg.codec, states[n].journal) == []
  {
    if n > 0 {
      OnlyLostNewlinesDouble(cfg, states, acts, n - 1);
      InvRun(cfg, states, acts, n - 1);
      TailStaysEmpty(cfg, states[n - 1], acts[n - 1]);
    }
  }

  lemma TailStaysEmpty(cfg: Config, s: Sys, act: Act)
    requires Assumed(cfg) && Inv(cfg, s) && Enabled(cfg, s, act) && !LosesNewline(cfg, s, act)
    requires TailRecord(cfg.codec, s.journal) == []
    ensures TailRecord(cfg.codec, Do(cfg, s, act).journal) == []
  {
    if act.Append? || act.Tear? {
      assert MemAgrees(cfg, s, act.w);
      NextIs(cfg, s, act.w, act.i);
      var c := Next(cfg, s, act.w, act.i).change;
      if act.Append? {
        AppendRecords(cfg.env, cfg.codec, s.journal, c);
      } else {
        TornRecords(cfg.env, cfg.codec, s.journal, c, act.n);
      }
    }
  }

  lemma ResumeLater(early: seq<Change>, all: seq<Change>, k: nat)
    requires early <= all && Increasing(all) && k <= |early|
    ensures early[..k] + After(all, LastSeqno(early[..k])) == all
  {
    assert early[..k] == all[..k];
    ResumeGivesTheRest(all, k);
  }

  lemma RecordsOnlyGrow(cfg: Config, states: seq<Sys>, acts: seq<Act>, m: nat, n: nat)
    requires Assumed(cfg) && Run(cfg, states, acts) && m <= n && Undoubled(cfg, states, acts, n)
    ensures Read(cfg.codec, states[m].journal) <= Read(cfg.codec, states[n].journal)
  {
    var found := seq(n + 1, i requires 0 <= i <= n => Read(cfg.codec, states[i].journal));
    forall i | 0 <= i < n ensures found[i] <= found[i + 1] {
      GrowsAt(cfg, states, acts, n, i);
    }
    PrefixesChain(found, m, n);
  }

  lemma {:induction false} PrefixesChain(found: seq<seq<Change>>, m: nat, n: nat)
    requires m <= n < |found| && forall i :: 0 <= i < n ==> found[i] <= found[i + 1]
    ensures found[m] <= found[n]
  {
    if m < n {
      PrefixesChain(found, m, n - 1);
    }
  }

  lemma GrowsAt(cfg: Config, states: seq<Sys>, acts: seq<Act>, n: nat, i: nat)
    requires Assumed(cfg) && Run(cfg, states, acts) && i < n && Undoubled(cfg, states, acts, n)
    ensures Read(cfg.codec, states[i].journal) <= Read(cfg.codec, states[i + 1].journal)
  {
    assert !Doubles(cfg, states[i], acts[i]);
    InvRun(cfg, states, acts, i);
    InvStep(cfg, states[i], acts[i]);
  }

  /**
   In every state of every run, as long as no step has given a number twice, the readable
   records are numbered in increasing order, each names the last live state before it as
   what it replaced, and the audit from the start reports no break.
   */
  lemma JournalStaysInOrder(cfg: Config, states: seq<Sys>, acts: seq<Act>, n: nat)
    requires Assumed(cfg) && Run(cfg, states, acts) && Undoubled(cfg, states, acts, n)
    ensures Increasing(Read(cfg.codec, states[n].journal)) && Chained(Read(cfg.codec, states[n].journal))
    ensures var items := Items(cfg.codec, Lines(states[n].journal));
            forall u :: u in L.Report(items, 0, |items|) ==> !u.brk
  {
    InvRun(cfg, states, acts, n);
    var ls := Lines(states[n].journal);
    ItemsRecords(cfg.codec, ls);
    L.ChainedNoBreak(Items(cfg.codec, ls), |Items(cfg.codec, ls)|);
  }

  /**
   A reader that reads some of the journal at one moment of a run, stops after any `k`
   records, and resumes at any later moment with the last number it saw, gets exactly the
   records after those: none twice and none missed.
   */
  lemma ReaderResumes(cfg: Config, states: seq<Sys>, acts: seq<Act>, m: nat, n: nat, k: nat)
    requires Assumed(cfg) && Run(cfg, states, acts) && m <= n && Undoubled(cfg, states, acts, n)
    requires k <= |Read(cfg.codec, states[m].journal)|
    ensures var seen, all := Read(cfg.codec, states[m].journal)[..k], Read(cfg.codec, states[n].journal);
            seen + After(all, LastSeqno(seen)) == all
  {
    InvRun(cfg, states, acts, n);
    RecordsOnlyGrow(cfg, states, acts, m, n);
    ResumeLater(Read(cfg.codec, states[m].journal), Read(cfg.codec, states[n].journal), k);
  }

  /** The journal while the step's append is under way and `cut` of its bytes are there. */
  function InFlight(cfg: Config, s: Sys, act: Act, cut: nat): string
    requires (act.Append? || act.Tear?) && Enabled(cfg, s, act)
    requires cut < |AppendBytes(s.journal, cfg.codec.enc(Next(cfg, s, act.w, act.i).change))|
  {
    Torn(cfg.codec, s.journal, Next(cfg, s, act.w, act.i).change, cut)
  }

  // A reader that comes in the middle of an append finds the records before it or those after it.
  lemma InFlightReads(cfg: Config, s: Sys, act: Act, cut: nat)
    requires Assumed(cfg) && Inv(cfg, s) && (act.Append? || act.Tear?) && Enabled(cfg, s, act) && !Doubles(cfg, s, act)
    requires cut < |AppendBytes(s.journal, cfg.codec.enc(Next(cfg, s, act.w, act.i).change))|
    requires act.Tear? ==> cut <= act.n
    ensures var found := Read(cfg.codec, InFlight(cfg, s, act, cut));
            && (found == Read(cfg.codec, s.journal) || found == Read(cfg.codec, Do(cfg, s, act).journal))
            && (TailRecord(cfg.codec, s.journal) == [] ==> found == Read(cfg.codec, s.journal))
  {
    assert MemAgrees(cfg, s, act.w);
    NextIs(cfg, s, act.w, act.i);
    var c := Next(cfg, s, act.w, act.i).change;
    TornRecords(cfg.env, cfg.codec, s.journal, c, cut);
    if act.Tear? {
      TornRecords(cfg.env, cfg.codec, s.journal, c, act.n);
    }
  }

  /**
   A reader that takes no lock and comes while an append is under way, after any of its
   bytes, finds the records before it, or, when the append ends a cut-off record, those
   after; resuming at any later moment it too gets each record once.
   */
  lemma ReadInsideAppend(cfg: Config, states: seq<Sys>, acts: seq<Act>, m: nat, cut: nat, n: nat, k: nat)
    requires Assumed(cfg) && Run(cfg, states, acts) && m < n && Undoubled(cfg, states, acts, n)
    requires acts[m].Append? || acts[m].Tear?
    requires cut < |AppendBytes(states[m].journal, cfg.codec.enc(Next(cfg, states[m], acts[m].w, acts[m].i).change))|
    requires acts[m].Tear? ==> cut <= acts[m].n
    requires k <= |Read(cfg.codec, InFlight(cfg, states[m], acts[m], cut))|
    ensures var found := Read(cfg.codec, InFlight(cfg, states[m], acts[m], cut));
            && (found == Read(cfg.codec, states[m].journal) || found == Read(cfg.codec, states[m + 1].journal))
            && (TailRecord(cfg.codec, states[m].journal) == [] ==> found == Read(cfg.codec, states[m].journal))
            && var seen, all := found[..k], Read(cfg.codec, states[n].journal);
               seen + After(all, LastSeqno(seen)) == all
  {
    InvRun(cfg, states, acts, m);
    InFlightReads(cfg, states[m], acts[m], cut);
    if Read(cfg.codec, InFlight(cfg, states[m], acts[m], cut)) == Read(cfg.codec, states[m].journal) {
      ReaderResumes(cfg, states, acts, m, n, k);
    } else {
      ReaderResumes(cfg, states, acts, m + 1, n, k);
    }
  }

  /** Whenever a writer in charge has loaded the cursor, it holds what reading the whole journal would give. */
  lemma CursorAgrees(cfg: Config, states: seq<Sys>, acts: seq<Act>, n: nat, w: K.Writer)
    requires Assumed(cfg) && Run(cfg, states, acts) && Undoubled(cfg, states, acts, n)
    ensures InCharge(states[n], w) && w in states[n].mem ==>
            states[n].mem[w] == Rebuilt(cfg.env, cfg.codec, states[n].journal)
    ensures Loaded(cfg.env, cfg.codec, states[n].saved, states[n].journal) ==
            Rebuilt(cfg.env, cfg.codec, states[n].journal)
  {
    InvRun(cfg, states, acts, n);
    assert MemAgrees(cfg, states[n], w);
    LoadIsRebuilt(cfg, states[n].saved, states[n].journal);
  }

  /******* Whole writes inside a run *******/

  /**
   At every moment of a run at which no cut-off record dangles, whatever files there are,
   the directory is one the results of the module FileStore speak of.
   */
  lemma DirectoryIsValid(cfg: Config, states: seq<Sys>, acts: seq<Act>, n: nat, files: map<Key, FS.File>)
    requires Assumed(cfg) && Run(cfg, states, acts) && Undoubled(cfg, states, acts, n)
    requires TailRecord(cfg.codec, states[n].journal) == []
    ensures FS.ValidDisk(cfg.env, cfg.codec, FS.Disk(files, states[n].journal, states[n].saved))
  {
    InvRun(cfg, states, acts, n);
    LoadIsRebuilt(cfg, states[n].saved, states[n].journal);
  }

  // The step leaves the cursor the writer has in memory alone.
  predicate Leaves(act: Act, w: K.Writer) {
    match act
    case LockStep(a) => !(a.Write? && a.w == w)
    case Load(x) => x != w
    case Append(x, _) => x != w
    case Tear(x, _, _) => x != w
    case _ => true
  }

  lemma {:induction false} MemStays(cfg: Config, states: seq<Sys>, acts: seq<Act>, m: nat, n: nat, w: K.Writer)
    requires Run(cfg, states, acts) && m <= n < |states| && w in states[m].mem
    requires forall i :: m <= i < n ==> Leaves(acts[i], w)
    ensures w in states[n].mem && states[n].mem[w] == states[m].mem[w]
  {
    if m < n {
      MemStays(cfg, states, acts, m, n - 1, w);
    }
  }

  // Having noted a file, the writer's cursor needs no note of it.
  lemma NoteSettles(cfg: Config, s: Sys, w: K.Writer, k: Key, stored: Option<FS.File>)
    requires Assumed(cfg) && Inv(cfg, s)
    requires Enabled(cfg, s, Append(w, FS.Note(k, stored))) && !Doubles(cfg, s, Append(w, FS.Note(k, stored)))
    ensures var s' := Do(cfg, s, Append(w, FS.Note(k, stored)));
            w in s'.mem && !FS.NeedsNote(cfg.env, cfg.max, s'.mem[w].entries, k, stored)
  {
    assert MemAgrees(cfg, s, w);
    FS.NoteLands(cfg.env, cfg.max, cfg.codec, s.journal, k, stored);
  }

  // A write whose condition the file passed, and whose file the cursor needs no note of, forks nothing.
  lemma WriteIsAnchored(cfg: Config, s: Sys, w: K.Writer, e: Entry, o: PutOptions, stored: Option<FS.File>,
                        session: string)
    returns (d: Change)
    requires Assumed(cfg) && Inv(cfg, s)
    requires var i := FS.Write(e, o, stored, session); Enabled(cfg, s, Append(w, i)) && !Doubles(cfg, s, Append(w, i))
    requires !FS.NeedsNote(cfg.env, cfg.max, s.mem[w].entries, e.key, stored)
    requires Check(cfg.env, o, FS.FoundEntry(cfg.env, e.key, stored)).None? && (o.conditional || !o.hasBase)
    ensures var s' := Do(cfg, s, Append(w, FS.Write(e, o, stored, session)));
            Read(cfg.codec, s'.journal) == Read(cfg.codec, s.journal) + [d] && d.entry == e && d.prev == d.replaced
  {
    var i := FS.Write(e, o, stored, session);
    assert MemAgrees(cfg, s, w);
    FS.IntentAppends(cfg.env, cfg.max, cfg.codec, s.journal, i);
    FS.PutIsAnchored(cfg.env, cfg.max, s.mem[w], e, o, stored, session);
    FS.StorableClean(cfg.env, cfg.max, e);
    d := cfg.codec.dec(cfg.codec.enc(Next(cfg, s, w, i).change)).value;
  }

  /**
   In a run with deaths, cuts and hand edits, a writer that notes the file it found and then
   writes over it under a condition the file passed, or under none, appends a record whose
   Prev is its Replaced: a completed conditional write is never a fork.
   */
  lemma ConditionalWriteForksNothing(cfg: Config, states: seq<Sys>, acts: seq<Act>, m: nat, n: nat, w: K.Writer,
                                     e: Entry, o: PutOptions, stored: Option<FS.File>, session: string)
    returns (d: Change)
    requires Assumed(cfg) && Run(cfg, states, acts) && m < n < |acts| && Undoubled(cfg, states, acts, n + 1)
    requires acts[m] == Append(w, FS.Note(e.key, stored)) && acts[n] == Append(w, FS.Write(e, o, stored, session))
    requires forall i :: m < i < n ==> Leaves(acts[i], w)
    requires Check(cfg.env, o, FS.FoundEntry(cfg.env, e.key, stored)).None? && (o.conditional || !o.hasBase)
    ensures Read(cfg.codec, states[n + 1].journal) == Read(cfg.codec, states[n].journal) + [d]
    ensures d.entry == e && d.prev == d.replaced
  {
    InvRun(cfg, states, acts, m);
    InvRun(cfg, states, acts, n);
    NoteSettles(cfg, states[m], w, e.key, stored);
    MemStays(cfg, states, acts, m + 1, n, w);
    d := WriteIsAnchored(cfg, states[n], w, e, o, stored, session);
  }

  /** And so does one that found nothing to note, as its cursor said when it wrote. */
  lemma SettledWriteForksNothing(cfg: Config, states: seq<Sys>, acts: seq<Act>, n: nat, w: K.Writer,
                                 e: Entry, o: PutOptions, stored: Option<FS.File>, session: string) returns (d: Change)
    requires Assumed(cfg) && Run(cfg, states, acts) && n < |acts| && Undoubled(cfg, states, acts, n + 1)
    requires acts[n] == Append(w, FS.Write(e, o, stored, session)) && w in states[n].mem
    requires !FS.NeedsNote(cfg.env, cfg.max, states[n].mem[w].entries, e.key, stored)
    requires Check(cfg.env, o, FS.FoundEntry(cfg.env, e.key, stored)).None? && (o.conditional || !o.hasBase)
    ensures Read(cfg.codec, states[n + 1].journal) == Read(cfg.codec, states[n].journal) + [d]
    ensures d.entry == e && d.prev == d.replaced
  {
    InvRun(cfg, states, acts, n);
    d := WriteIsAnchored(cfg, states[n], w, e, o, stored, session);
  }
}
