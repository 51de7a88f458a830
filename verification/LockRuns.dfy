/** What holds in every run of the lock's protocol (filestore/lock.go). */
module LockRuns {
  import opened Common
  import opened Lock
  import opened LockSteps

  lemma {:induction false} InvRun(f: Digest, states: seq<State>, actions: seq<Action>, i: nat)
    requires Run(f, states, actions) && Inv(f, states[0]) && i < |states|
    ensures Inv(f, states[i])
  {
    if i > 0 {
      InvRun(f, states, actions, i - 1);
      InvStep(f, states[i - 1], actions[i - 1]);
    }
  }

  /**
   Mutual exclusion: in every state of every run, at most one live writer stands
   between a successful create of the lock and its release, and the lock path names
   the file it created.
   */
  lemma {:induction false} MutualExclusion(f: Digest, states: seq<State>, actions: seq<Action>, i: nat, w: Writer,
                                           w': Writer)
    requires Run(f, states, actions) && states[0] == Initial && i < |states|
    requires Live(states[i], w) && Owned(PcOf(states[i], w)).Some?
    ensures states[i].lock == Owned(PcOf(states[i], w))
    ensures Live(states[i], w') && Owned(PcOf(states[i], w')).Some? ==> w == w'
  {
    InvRun(f, states, actions, i);
    assert OwnerInv(states[i], w) && OwnerInv(states[i], w');
    assert PairInv(f, states[i], w, w');
  }

  /**
   A removal of the lock path, in every run: a takeover removes only a lock that still
   names the dead holder it inspected and that no live writer made, and a release or an
   undone create removes only the lock its own writer made.
   */
  lemma RemovesOnlyItsOwn(f: Digest, states: seq<State>, actions: seq<Action>, i: nat)
    requires Run(f, states, actions) && states[0] == Initial && i < |actions|
    requires states[i].lock.Some? && states[i + 1].lock != states[i].lock
    ensures states[i + 1].lock.None?
    ensures var s, a := states[i], actions[i];
            || (a.RemoveLock? && Reads(s, s.lock.value, PcOf(s, a.w).dead)
                && forall w :: Live(s, w) ==> Owned(PcOf(s, w)) != s.lock)
            || (a.Free? && PcOf(s, a.w).ino == s.lock.value && Reads(s, s.lock.value, PcOf(s, a.w).mine))
            || (a.Undo? && PcOf(s, a.w).ino == s.lock.value)
  {
    var s, a := states[i], actions[i];
    LockSince(f, s, a);
    assert Inv(f, s) by {
      InvRun(f, states, actions, i);
    }
    assert OwnerInv(s, a.w) && TakerInv(f, s, a.w);
    if a.RemoveLock? {
      forall w | Live(s, w) ensures Owned(PcOf(s, w)) != s.lock {
        NotTheOwner(f, s, a.w, w);
      }
    }
  }

  // A live writer did not make the lock that another is about to remove.
  lemma NotTheOwner(f: Digest, s: State, taker: Writer, w: Writer)
    requires Inv(f, s) && PcOf(s, taker).Removing? && Live(s, w)
    ensures Owned(PcOf(s, w)) != s.lock
  {
    assert TakerInv(f, s, taker) && OwnerInv(s, w) && PairInv(f, s, taker, w);
  }

  /** The state after `actions`, or none when one of them cannot be taken. */
  function Steps(f: Digest, s: State, actions: seq<Action>): Option<State>
    decreases |actions|
  {
    if actions == [] then Some(s)
    else if !Enabled(s, actions[0]) then None
    else Steps(f, Step(f, s, actions[0]), actions[1..])
  }

  lemma ThreeSteps(f: Digest, s: State, a: Action, b: Action, c: Action)
    requires Enabled(s, a) && Enabled(Step(f, s, a), b)
    requires Enabled(Step(f, Step(f, s, a), b), c)
    ensures Steps(f, s, [a, b, c]) == Some(Step(f, Step(f, Step(f, s, a), b), c))
  {
    var s1 := Step(f, s, a);
    var s2 := Step(f, s1, b);
    assert [a, b, c][1..] == [b, c] && [b, c][1..] == [c] && [c][1..] == [];
    assert Steps(f, s2, [c]) == Steps(f, Step(f, s2, c), []);
    assert Steps(f, s1, [b, c]) == Steps(f, s2, [c]);
  }

  // A live writer that finds a stale lock nobody has claimed proves it dead,
  lemma ClaimsStale(f: Digest, s: State, w: Writer, dead: LockInfo)
    requires Live(s, w) && PcOf(s, w).Looking?
    requires s.lock.Some? && Reads(s, s.lock.value, dead)
    requires Stale(s, dead, w.proc.host) && f(dead) !in s.claims
    ensures Steps(f, s, [Look(w, w.proc.host), Link(w), Verify(w, true)])
            == Some(At(s.(claims := s.claims[f(dead) := s.lock.value]), w, Removing(dead)))
  {
    var s1 := Step(f, s, Look(w, w.proc.host));
    assert s1 == At(s, w, Claiming(dead));
    var s2 := Step(f, s1, Link(w));
    assert s2 == At(s.(claims := s.claims[f(dead) := s.lock.value]), w, Verifying(dead));
    var s3 := Step(f, s2, Verify(w, true));
    assert s3 == At(s.(claims := s.claims[f(dead) := s.lock.value]), w, Removing(dead));
    ThreeSteps(f, s, Look(w, w.proc.host), Link(w), Verify(w, true));
  }

  // removes it, drops its claim and creates its own.
  lemma RemovesStale(f: Digest, s: State, w: Writer, dead: LockInfo, ino: Inode)
    requires Live(s, w) && PcOf(s, w) == Removing(dead) && ino !in s.files
    ensures Steps(f, s, [RemoveLock(w, true), DropClaim(w, true), Create(w, ino)])
            == Some(At(s.(lock := Some(ino), claims := s.claims - {f(dead)}, files := s.files[ino := Blank]), w,
              Created(ino)))
  {
    var s1 := Step(f, s, RemoveLock(w, true));
    assert s1 == At(s.(lock := None), w, Dropping(dead));
    var s2 := Step(f, s1, DropClaim(w, true));
    assert s2 == At(s.(lock := None, claims := s.claims - {f(dead)}), w, Creating);
    var s3 := Step(f, s2, Create(w, ino));
    assert s3.pcs == s.pcs[w := Created(ino)];
    ThreeSteps(f, s, RemoveLock(w, true), DropClaim(w, true), Create(w, ino));
  }

  /**
   What the protocol is for: left to itself, a live writer that finds a stale lock
   nobody has claimed removes it and creates its own, and leaves no claim behind.
   */
  lemma TakeoverCompletes(f: Digest, s: State, w: Writer, dead: LockInfo, ino: Inode)
    requires Live(s, w) && PcOf(s, w).Looking? && ino !in s.files
    requires s.lock.Some? && Reads(s, s.lock.value, dead)
    requires Stale(s, dead, w.proc.host) && f(dead) !in s.claims
    ensures var mid := Steps(f, s, [Look(w, w.proc.host), Link(w), Verify(w, true)]);
            && mid.Some?
            && var end := Steps(f, mid.value, [RemoveLock(w, true), DropClaim(w, true), Create(w, ino)]);
               end.Some? && PcOf(end.value, w) == Created(ino) && end.value.lock == Some(ino) &&
                 end.value.claims == s.claims
  {
    ClaimsStale(f, s, w, dead);
    var mid := Steps(f, s, [Look(w, w.proc.host), Link(w), Verify(w, true)]).value;
    RemovesStale(f, mid, w, dead, ino);
    assert mid.claims - {f(dead)} == s.claims;
  }
}
