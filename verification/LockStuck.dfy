/**
 Locks that nobody will ever remove (filestore/lock.go): which they are, exactly, and that
 every kind of them is reached.
 */
module LockStuck {
  import opened Common
  import opened Lock
  import opened LockSteps
  import opened LockRuns

  ghost predicate NoLiveOwner(s: State) {
    forall w :: Live(s, w) ==> Owned(PcOf(s, w)).None?
  }

  /** No live writer is taking a lock over under the claim name `n`. */
  ghost predicate NoLiveClaimant(f: Digest, s: State, n: string) {
    forall w :: Live(s, w) && Claimant(PcOf(s, w)) ==> f(PcOf(s, w).dead) != n
  }

  /** What no writer can ever prove dead, or can prove dead and not claim. */
  ghost predicate Beyond(f: Digest, s: State, c: Content) {
    || c.Blank? || c.info.host == "" || c.info.pid == 0
    || (f(c.info) in s.claims && NoLiveClaimant(f, s, f(c.info)))
  }

  /**
   The lock is there, no live writer made it, and its file is blank, or names no host or no
   process, or names a holder whose claim is taken and that no live writer is working on.
   */
  ghost predicate Stuck(f: Digest, s: State) {
    && s.lock.Some? && s.lock.value in s.files
    && NoLiveOwner(s) && Beyond(f, s, s.files[s.lock.value])
  }

  /******* A stuck lock stays *******/

  lemma ClaimsSince(f: Digest, s: State, a: Action, n: string)
    requires Enabled(s, a) && n in s.claims
    ensures n in Step(f, s, a).claims || (a.DropClaim? && f(PcOf(s, a.w).dead) == n)
  {
  }

  // A writer that stands anywhere and lives after a step lived before it.
  lemma LivedBefore(f: Digest, s: State, a: Action, w: Writer)
    requires Inv(f, s) && Enabled(s, a) && Live(Step(f, s, a), w) && !PcOf(s, w).Idle?
    ensures Live(s, w)
  {
    LiveSince(f, s, a, w);
    assert OwnerInv(s, w);
  }

  lemma NobodyRemoves(f: Digest, s: State, a: Action)
    requires Inv(f, s) && Stuck(f, s) && Enabled(s, a)
    ensures !a.Undo? && !a.RemoveLock? && !a.Free? && !a.Write?
  {
    assert !a.Spawn? && !a.Die? ==> OwnerInv(s, a.w) && TakerInv(f, s, a.w);
  }

  lemma NoOwnerStep(f: Digest, s: State, a: Action)
    requires Inv(f, s) && Stuck(f, s) && Enabled(s, a)
    ensures NoLiveOwner(Step(f, s, a))
  {
    var s' := Step(f, s, a);
    forall w | Live(s', w) ensures Owned(PcOf(s', w)).None? {
      if Owned(PcOf(s', w)).Some? {
        OwnedSince(f, s, a, w);
        if Owned(PcOf(s, w)).Some? {
          LivedBefore(f, s, a, w);
        }
        assert false;
      }
    }
  }

  lemma NoClaimantStep(f: Digest, s: State, a: Action, n: string)
    requires Inv(f, s) && Enabled(s, a) && n in s.claims && NoLiveClaimant(f, s, n)
    ensures n in Step(f, s, a).claims && NoLiveClaimant(f, Step(f, s, a), n)
  {
    var s' := Step(f, s, a);
    ClaimsSince(f, s, a, n);
    forall w | Live(s', w) && Claimant(PcOf(s', w)) ensures f(PcOf(s', w).dead) != n {
      ClaimantSince(f, s, a, w);
      LivedBefore(f, s, a, w);
    }
  }

  /** Every step leaves a stuck lock stuck, and its file as it is. */
  lemma StuckStep(f: Digest, s: State, a: Action)
    requires Inv(f, s) && Stuck(f, s) && Enabled(s, a)
    ensures var s' := Step(f, s, a);
            Stuck(f, s') && s'.lock == s.lock && s'.files[s'.lock.value] == s.files[s.lock.value]
  {
    var c := s.files[s.lock.value];
    NobodyRemoves(f, s, a);
    LockSince(f, s, a);
    FileSince(f, s, a, s.lock.value);
    NoOwnerStep(f, s, a);
    if c.Info? && f(c.info) in s.claims && NoLiveClaimant(f, s, f(c.info)) {
      NoClaimantStep(f, s, a, f(c.info));
    }
  }

  /** From a stuck lock on, every run keeps it, and no writer ever holds the store. */
  lemma {:induction false} StuckForever(f: Digest, s: State, actions: seq<Action>)
    requires Inv(f, s) && Stuck(f, s) && Steps(f, s, actions).Some?
    ensures var s' := Steps(f, s, actions).value;
            && Stuck(f, s') && s'.lock == s.lock && s'.files[s'.lock.value] == s.files[s.lock.value]
            && NoLiveOwner(s')
    decreases |actions|
  {
    if actions != [] {
      StuckStep(f, s, actions[0]);
      InvStep(f, s, actions[0]);
      StuckForever(f, Step(f, s, actions[0]), actions[1..]);
    }
  }

  /** In every reachable state a taker that died with its claim in place leaves the holder's lock stuck. */
  lemma DeadTakerIsStuck(f: Digest, s: State, w: Writer)
    requires Inv(f, s) && !Live(s, w) && Claimant(PcOf(s, w))
    requires s.lock.Some? && Reads(s, s.lock.value, PcOf(s, w).dead)
    ensures Stuck(f, s)
  {
    assert TakerInv(f, s, w);
    forall x | Live(s, x) ensures Owned(PcOf(s, x)).None? {
      assert OwnerInv(s, x) && PairInv(f, s, w, x);
    }
    forall x | Live(s, x) && Claimant(PcOf(s, x)) ensures f(PcOf(s, x).dead) != f(PcOf(s, w).dead) {
      assert PairInv(f, s, w, x);
    }
  }

  /******* Any other lock can go *******/

  lemma {:induction false} StepsConcat(f: Digest, s: State, a: seq<Action>, b: seq<Action>)
    requires Steps(f, s, a).Some?
    ensures Steps(f, s, a + b) == Steps(f, Steps(f, s, a).value, b)
    decreases |a|
  {
    if a == [] {
      assert a + b == b;
    } else {
      assert (a + b)[0] == a[0] && (a + b)[1..] == a[1..] + b;
      StepsConcat(f, Step(f, s, a[0]), a[1..], b);
    }
  }

  lemma OneStep(f: Digest, s: State, a: Action)
    requires Enabled(s, a)
    ensures Steps(f, s, [a]) == Some(Step(f, s, a))
  {
    assert [a][1..] == [];
  }

  lemma TwoSteps(f: Digest, s: State, a: Action, b: Action)
    requires Enabled(s, a) && Enabled(Step(f, s, a), b)
    ensures Steps(f, s, [a, b]) == Some(Step(f, Step(f, s, a), b))
  {
    assert [a, b][1..] == [b];
    OneStep(f, Step(f, s, a), b);
  }

  /** A live writer that made the lock can undo it or release it. */
  lemma OwnerLetsGo(f: Digest, s: State, w: Writer) returns (actions: seq<Action>)
    requires Inv(f, s) && Live(s, w) && Owned(PcOf(s, w)).Some?
    ensures Steps(f, s, actions).Some? && Steps(f, s, actions).value.lock.None?
  {
    assert OwnerInv(s, w);
    match PcOf(s, w) {
      case Created(_) =>
        actions := [WriteFails(w), Undo(w, true)];
        TwoSteps(f, s, WriteFails(w), Undo(w, true));
      case Undoing(_) =>
        actions := [Undo(w, true)];
        OneStep(f, s, Undo(w, true));
      case Holding(_, _) =>
        actions := [Release(w, true), Free(w, true)];
        TwoSteps(f, s, Release(w, true), Free(w, true));
      case Freeing(_, _) =>
        actions := [Free(w, true)];
        OneStep(f, s, Free(w, true));
    }
  }

  function Others(running: set<Process>, host: string, pid: nat): set<Process> {
    set p | p in running && !(p.host == host && p.pid == pid)
  }

  /** Every process of one host and pid can die. */
  lemma {:induction false} AllDie(f: Digest, s: State, host: string, pid: nat) returns (actions: seq<Action>)
    ensures Steps(f, s, actions) == Some(s.(running := Others(s.running, host, pid)))
    decreases s.running
  {
    if Others(s.running, host, pid) == s.running {
      actions := [];
    } else {
      var p :| p in s.running && p !in Others(s.running, host, pid);
      var s' := Step(f, s, Die(p));
      var rest := AllDie(f, s', host, pid);
      actions := [Die(p)] + rest;
      assert actions[1..] == rest;
      assert Others(s'.running, host, pid) == Others(s.running, host, pid);
    }
  }

  lemma {:induction false} LaterBirth(born: set<Process>) returns (b: nat)
    ensures forall p :: p in born ==> p.birth < b
  {
    b := 0;
    if born != {} {
      var p :| p in born;
      var rest := LaterBirth(born - {p});
      b := if rest > p.birth then rest else p.birth + 1;
    }
  }

  lemma {:induction false} NewInode(files: set<Inode>) returns (i: Inode)
    ensures forall j :: j in files ==> j < i
  {
    i := 0;
    if files != {} {
      var j :| j in files;
      var rest := NewInode(files - {j});
      i := if rest > j then rest else j + 1;
      forall k | k in files ensures k < i { assert k == j || k in files - {j}; }
    }
  }

  // A new process comes to look at the lock.
  lemma Arrives(f: Digest, s: State, q: Process, w: Writer, ino: Inode)
    requires Inv(f, s) && q !in s.born && w == Writer(q, 0) && s.lock.Some? && ino !in s.files
    ensures Steps(f, s, [Spawn(q), Begin(w), Create(w, ino)])
            == Some(s.(born := s.born + {q}, running := s.running + {q}, pcs := s.pcs[w := Looking]))
  {
    assert OwnerInv(s, w);
    var s1 := Step(f, s, Spawn(q));
    var s2 := Step(f, s1, Begin(w));
    var s3 := Step(f, s2, Create(w, ino));
    assert s3.pcs == s.pcs[w := Looking];
    ThreeSteps(f, s, Spawn(q), Begin(w), Create(w, ino));
  }

  /** A lock whose holder's name says where it ran, with its claim free, can be taken over. */
  lemma TakenOver(f: Digest, s: State, dead: LockInfo) returns (actions: seq<Action>)
    requires Inv(f, s) && s.lock.Some? && Reads(s, s.lock.value, dead)
    requires dead.host != "" && dead.pid > 0 && f(dead) !in s.claims
    ensures Steps(f, s, actions).Some? && Steps(f, s, actions).value.lock != s.lock
  {
    var kills := AllDie(f, s, dead.host, dead.pid);
    var s1 := Steps(f, s, kills).value;
    InvSteps(f, s, kills);
    var b := LaterBirth(s.born);
    var ino := NewInode(s.files.Keys);
    var q := Process(dead.host, dead.pid + 1, b);
    var w := Writer(q, 0);
    Arrives(f, s1, q, w, ino);
    var comes := [Spawn(q), Begin(w), Create(w, ino)];
    var s2 := Steps(f, s1, comes).value;
    assert Stale(s2, dead, w.proc.host);
    TakeoverCompletes(f, s2, w, dead, ino);
    var takes := [Look(w, w.proc.host), Link(w), Verify(w, true)];
    var ends := [RemoveLock(w, true), DropClaim(w, true), Create(w, ino)];
    StepsConcat(f, s2, takes, ends);
    StepsConcat(f, s1, comes, takes + ends);
    StepsConcat(f, s, kills, comes + (takes + ends));
    actions := kills + (comes + (takes + ends));
  }

  lemma {:induction false} InvSteps(f: Digest, s: State, actions: seq<Action>)
    requires Inv(f, s) && Steps(f, s, actions).Some?
    ensures Inv(f, Steps(f, s, actions).value)
    decreases |actions|
  {
    if actions != [] {
      InvStep(f, s, actions[0]);
      InvSteps(f, Step(f, s, actions[0]), actions[1..]);
    }
  }

  // A live claimant removes the lock, or lets go of its claim.
  lemma ClaimantFinishes(f: Digest, s: State, w: Writer) returns (actions: seq<Action>)
    requires Inv(f, s) && Live(s, w) && Claimant(PcOf(s, w)) && s.lock.Some?
    ensures Steps(f, s, actions).Some?
    ensures var s' := Steps(f, s, actions).value;
            s'.lock != s.lock ||
            (s'.lock == s.lock && s'.files == s.files && f(PcOf(s, w).dead) !in s'.claims)
  {
    match PcOf(s, w) {
      case Removing(_) =>
        actions := [RemoveLock(w, true)];
        OneStep(f, s, RemoveLock(w, true));
      case Dropping(_) =>
        actions := [DropClaim(w, true)];
        OneStep(f, s, DropClaim(w, true));
      case Verifying(_) =>
        actions := [Verify(w, false), DropClaim(w, true)];
        TwoSteps(f, s, Verify(w, false), DropClaim(w, true));
    }
  }

  /** A lock that is not stuck can be removed: some steps from here do it. */
  lemma Unstuck(f: Digest, s: State) returns (actions: seq<Action>)
    requires Inv(f, s) && s.lock.Some? && !Stuck(f, s)
    ensures Steps(f, s, actions).Some? && Steps(f, s, actions).value.lock != s.lock
  {
    if !NoLiveOwner(s) {
      var w :| Live(s, w) && Owned(PcOf(s, w)).Some?;
      actions := OwnerLetsGo(f, s, w);
    } else {
      var dead := s.files[s.lock.value].info;
      if f(dead) !in s.claims {
        actions := TakenOver(f, s, dead);
      } else {
        var w :| Live(s, w) && Claimant(PcOf(s, w)) && f(PcOf(s, w).dead) == f(dead);
        actions := ClaimantFinishes(f, s, w);
        var s' := Steps(f, s, actions).value;
        if s'.lock == s.lock {
          InvSteps(f, s, actions);
          var rest := TakenOver(f, s', dead);
          StepsConcat(f, s, actions, rest);
          actions := actions + rest;
        }
      }
    }
  }

  /** No steps from here ever change what the lock path names. */
  ghost predicate NeverChanges(f: Digest, s: State) {
    forall actions :: Steps(f, s, actions).Some? ==> Steps(f, s, actions).value.lock == s.lock
  }

  /** In every state of every run, a lock stays for good if and only if it is stuck. */
  lemma StuckExactly(f: Digest, states: seq<State>, actions: seq<Action>, i: nat)
    requires Run(f, states, actions) && states[0] == Initial && i < |states| && states[i].lock.Some?
    ensures NeverChanges(f, states[i]) <==> Stuck(f, states[i])
  {
    InvRun(f, states, actions, i);
    var s := states[i];
    if Stuck(f, s) {
      forall more | Steps(f, s, more).Some? ensures Steps(f, s, more).value.lock == s.lock {
        StuckForever(f, s, more);
      }
    } else {
      var more := Unstuck(f, s);
      assert Steps(f, s, more).Some?;
    }
  }

  /******* Every kind of stuck lock is reached *******/

  // A holder takes the lock and dies.
  lemma HolderDies(f: Digest, w: Writer, info: LockInfo)
    requires info.pid == w.proc.pid && (info.host == w.proc.host || info.host == "")
    ensures Steps(f, Initial, [Spawn(w.proc), Begin(w), Create(w, 0)] + [Write(w, info), Die(w.proc)])
            == Some(State(Some(0), map[], map[0 := Info(info)], {info}, {w.proc}, {}, map[w := Holding(0, info)]))
  {
    Makes(f, w);
    var s := Steps(f, Initial, [Spawn(w.proc), Begin(w), Create(w, 0)]).value;
    TwoSteps(f, s, Write(w, info), Die(w.proc));
    StepsConcat(f, Initial, [Spawn(w.proc), Begin(w), Create(w, 0)], [Write(w, info), Die(w.proc)]);
    var s' := Steps(f, s, [Write(w, info), Die(w.proc)]).value;
    assert s'.files == map[0 := Info(info)] && s'.pcs == map[w := Holding(0, info)] && s'.running == {} &&
           s'.used == {info};
  }

  lemma Makes(f: Digest, w: Writer)
    ensures Steps(f, Initial, [Spawn(w.proc), Begin(w), Create(w, 0)])
            == Some(State(Some(0), map[], map[0 := Blank], {}, {w.proc}, {w.proc}, map[w := Created(0)]))
  {
    var s1 := Step(f, Initial, Spawn(w.proc));
    var s2 := Step(f, s1, Begin(w));
    var s3 := Step(f, s2, Create(w, 0));
    assert s3.files == map[0 := Blank] && s3.pcs == map[w := Created(0)];
    assert s3.born == {w.proc} && s3.running == {w.proc};
    ThreeSteps(f, Initial, Spawn(w.proc), Begin(w), Create(w, 0));
  }

  /** A writer that dies between creating the lock and writing its identity leaves it blank. */
  lemma BlankIsReached(f: Digest, w: Writer)
    ensures var actions := [Spawn(w.proc), Begin(w), Create(w, 0)] + [Die(w.proc)];
            Steps(f, Initial, actions).Some? && Stuck(f, Steps(f, Initial, actions).value)
  {
    Makes(f, w);
    var s := Steps(f, Initial, [Spawn(w.proc), Begin(w), Create(w, 0)]).value;
    OneStep(f, s, Die(w.proc));
    StepsConcat(f, Initial, [Spawn(w.proc), Begin(w), Create(w, 0)], [Die(w.proc)]);
  }

  /** So does one that can neither write its identity nor remove the lock again, with its process alive. */
  lemma FailedUndoIsReached(f: Digest, w: Writer)
    ensures var actions := [Spawn(w.proc), Begin(w), Create(w, 0)] + [WriteFails(w), Undo(w, false)];
            && Steps(f, Initial, actions).Some?
            && var s := Steps(f, Initial, actions).value; Stuck(f, s) && Live(s, w)
  {
    Makes(f, w);
    var s := Steps(f, Initial, [Spawn(w.proc), Begin(w), Create(w, 0)]).value;
    TwoSteps(f, s, WriteFails(w), Undo(w, false));
    StepsConcat(f, Initial, [Spawn(w.proc), Begin(w), Create(w, 0)], [WriteFails(w), Undo(w, false)]);
  }

  /** A holder that could not tell its host's name leaves a lock nobody may judge. */
  lemma NamelessHostIsReached(f: Digest, w: Writer, since: nat)
    ensures var actions := [Spawn(w.proc), Begin(w), Create(w, 0)] +
            [Write(w, LockInfo(w.proc.pid, "", since)), Die(w.proc)];
            Steps(f, Initial, actions).Some? && Stuck(f, Steps(f, Initial, actions).value)
  {
    HolderDies(f, w, LockInfo(w.proc.pid, "", since));
  }

  // A second process proves the holder dead and stands before removing the lock.
  lemma TakerStands(f: Digest, w: Writer, info: LockInfo, x: Writer) returns (actions: seq<Action>, s: State)
    requires info.pid == w.proc.pid > 0 && info.host == w.proc.host == x.proc.host != "" && x.handle == 0
    requires x.proc.pid != w.proc.pid
    ensures Steps(f, Initial, actions) == Some(s)
    ensures s.lock == Some(0) && s.files == map[0 := Info(info)] && s.claims == map[f(info) := 0]
    ensures s.running == {x.proc} && s.pcs == map[w := Holding(0, info), x := Removing(info)]
  {
    HolderDies(f, w, info);
    actions := [Spawn(w.proc), Begin(w), Create(w, 0)] + [Write(w, info), Die(w.proc)];
    var s1 := Steps(f, Initial, actions).value;
    InitialInv(f);
    InvSteps(f, Initial, actions);
    Arrives(f, s1, x.proc, x, 1);
    var comes := [Spawn(x.proc), Begin(x), Create(x, 1)];
    var s2 := Steps(f, s1, comes).value;
    ClaimsStale(f, s2, x, info);
    var takes := [Look(x, x.proc.host), Link(x), Verify(x, true)];
    StepsConcat(f, s1, comes, takes);
    StepsConcat(f, Initial, actions, comes + takes);
    actions := actions + (comes + takes);
    s := Steps(f, s2, takes).value;
  }

  lemma InitialInv(f: Digest)
    ensures Inv(f, Initial)
  {
  }

  /** A taker that dies between its link and its removal leaves the lock stuck behind its claim. */
  lemma DeadTakerIsReached(f: Digest, w: Writer, info: LockInfo, x: Writer) returns (actions: seq<Action>, s: State)
    requires info.pid == w.proc.pid > 0 && info.host == w.proc.host == x.proc.host != "" && x.handle == 0
    requires x.proc.pid != w.proc.pid
    ensures Steps(f, Initial, actions) == Some(s) && Stuck(f, s) && PcOf(s, x) == Removing(info) && !Live(s, x)
  {
    var before;
    actions, before := TakerStands(f, w, info, x);
    OneStep(f, before, Die(x.proc));
    StepsConcat(f, Initial, actions, [Die(x.proc)]);
    actions := actions + [Die(x.proc)];
    s := Step(f, before, Die(x.proc));
  }

  /** And so does one that lives, and fails to remove the lock and then its claim. */
  lemma FailedTakerIsReached(f: Digest, w: Writer, info: LockInfo, x: Writer) returns (actions: seq<Action>, s: State)
    requires info.pid == w.proc.pid > 0 && info.host == w.proc.host == x.proc.host != "" && x.handle == 0
    requires x.proc.pid != w.proc.pid
    ensures Steps(f, Initial, actions) == Some(s) && Stuck(f, s) && PcOf(s, x).Creating? && Live(s, x)
  {
    var before;
    actions, before := TakerStands(f, w, info, x);
    TwoSteps(f, before, RemoveLock(x, false), DropClaim(x, false));
    StepsConcat(f, Initial, actions, [RemoveLock(x, false), DropClaim(x, false)]);
    actions := actions + [RemoveLock(x, false), DropClaim(x, false)];
    s := Steps(f, before, [RemoveLock(x, false), DropClaim(x, false)]).value;
  }
}
