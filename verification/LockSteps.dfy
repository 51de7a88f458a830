/** Every step of the lock's protocol keeps its invariant, case by case. */
module LockSteps {
  import opened Common
  import opened Lock

  lemma FilesStep(f: Digest, s: State, a: Action)
    requires Inv(f, s) && Enabled(s, a)
    ensures FilesInv(Step(f, s, a))
  {
    if a.Write? {
      WriteFiles(f, s, a.w, a.info);
    } else if a.Create? {
      CreateFiles(f, s, a.w, a.ino);
    } else if a.Link? {
      LinkFiles(f, s, a.w);
    } else {
      NamesLeft(f, s, a);
    }
  }

  lemma LinkFiles(f: Digest, s: State, w: Writer)
    requires FilesInv(s) && Enabled(s, Link(w))
    ensures FilesInv(Step(f, s, Link(w)))
  {
  }

  lemma CreateFiles(f: Digest, s: State, w: Writer, ino: Inode)
    requires FilesInv(s) && Enabled(s, Create(w, ino))
    ensures FilesInv(Step(f, s, Create(w, ino)))
  {
  }

  // A step that neither creates, writes nor links changes no file, and at most takes a name away.
  lemma NamesLeft(f: Digest, s: State, a: Action)
    requires Enabled(s, a) && !a.Write? && !a.Create? && !a.Link?
    ensures var s' := Step(f, s, a);
            && s'.files == s.files && s'.used == s.used && (s.running <= s.born ==> s'.running <= s'.born)
            && (s'.lock == s.lock || s'.lock.None?)
            && (s'.claims == s.claims || (a.DropClaim? && s'.claims == s.claims - {f(PcOf(s, a.w).dead)}))
  {
  }

  lemma WriteFiles(f: Digest, s: State, w: Writer, info: LockInfo)
    requires Inv(f, s) && Enabled(s, Write(w, info))
    ensures FilesInv(Step(f, s, Write(w, info)))
  {
    assert OwnerInv(s, w);
  }

  /**
   In any state at all, reachable or not: a release goes on to remove the lock if and only
   if the lock then read is there and names its own holder.
   */
  lemma ReleaseChecks(f: Digest, s: State, w: Writer, ok: bool)
    requires Enabled(s, Release(w, ok))
    ensures PcOf(Step(f, s, Release(w, ok)), w).Freeing? <==>
            ok && s.lock.Some? && s.lock.value in s.files && s.files[s.lock.value] == Info(PcOf(s, w).mine)
    ensures Step(f, s, Release(w, ok)).lock == s.lock
  {
  }

  // What a step leaves of the lock: it stands, or there was none and the writer made it, or the writer removed it.
  lemma LockSince(f: Digest, s: State, a: Action)
    requires Enabled(s, a)
    ensures var s' := Step(f, s, a);
            || s'.lock == s.lock
            || (a.Create? && s.lock.None?)
            || ((a.Undo? || a.RemoveLock? || a.Free?) && s'.lock.None?)
  {
  }

  // A step changes no file but the one its writer made and has not written, or is making.
  lemma FileSince(f: Digest, s: State, a: Action, i: Inode)
    requires Enabled(s, a) && i in s.files
    ensures i in Step(f, s, a).files
    ensures Step(f, s, a).files[i] == s.files[i] || (a.Write? && i == PcOf(s, a.w).ino)
  {
  }

  lemma PcSince(f: Digest, s: State, a: Action, w: Writer)
    requires Enabled(s, a) && (a.Spawn? || a.Die? || a.w != w)
    ensures PcOf(Step(f, s, a), w) == PcOf(s, w)
    ensures Live(Step(f, s, a), w) ==> Live(s, w) || (a.Spawn? && a.p == w.proc)
    ensures s.born <= Step(f, s, a).born
  {
  }

  // No step of another removes the lock a live writer made, or touches its file.
  lemma OwnerUndisturbed(f: Digest, s: State, a: Action, w: Writer)
    requires Inv(f, s) && Enabled(s, a) && !a.Spawn? && !a.Die? && a.w != w && Owned(PcOf(s, w)).Some?
    ensures Live(s, w) ==> !a.Undo? && !a.RemoveLock? && !a.Free? && s.lock.Some?
    ensures a.Write? ==> PcOf(s, a.w).ino != PcOf(s, w).ino
  {
    assert OwnerInv(s, w) && OwnerInv(s, a.w) && TakerInv(f, s, a.w);
    assert PairInv(f, s, a.w, w);
  }

  lemma OwnerStepOther(f: Digest, s: State, a: Action, w: Writer)
    requires Inv(f, s) && Enabled(s, a) && (a.Spawn? || a.Die? || a.w != w)
    ensures OwnerInv(Step(f, s, a), w)
  {
    assert OwnerInv(s, w);
    PcSince(f, s, a, w);
    if Owned(PcOf(s, w)).Some? {
      LockSince(f, s, a);
      FileSince(f, s, a, PcOf(s, w).ino);
      if !a.Spawn? && !a.Die? {
        OwnerUndisturbed(f, s, a, w);
      }
    }
  }

  lemma OwnerStep(f: Digest, s: State, a: Action, w: Writer)
    requires Inv(f, s) && Enabled(s, a)
    ensures OwnerInv(Step(f, s, a), w)
  {
    if a.Spawn? || a.Die? || a.w != w {
      OwnerStepOther(f, s, a, w);
    } else {
      assert OwnerInv(s, w) && TakerInv(f, s, w);
    }
  }

  lemma TakerStep(f: Digest, s: State, a: Action, w: Writer)
    requires Inv(f, s) && Enabled(s, a)
    ensures TakerInv(f, Step(f, s, a), w)
  {
    assert OwnerInv(s, w) && TakerInv(f, s, w);
    if !a.Spawn? && !a.Die? && a.w != w {
      OtherTakerStep(f, s, a, w);
    }
  }

  // No step of another drops a claim the writer made, writes the file it names, or removes a lock it proved dead.
  lemma TakerUndisturbed(f: Digest, s: State, a: Action, w: Writer)
    requires Inv(f, s) && Enabled(s, a) && !a.Spawn? && !a.Die? && a.w != w && Claimant(PcOf(s, w))
    ensures var n := f(PcOf(s, w).dead);
            n in s.claims && n in Step(f, s, a).claims && Step(f, s, a).claims[n] == s.claims[n] &&
              s.claims[n] in s.files
    ensures a.Write? ==> a.info != PcOf(s, w).dead
    ensures a.Write? && Reads(s, s.claims[f(PcOf(s, w).dead)], PcOf(s, w).dead) ==>
            PcOf(s, a.w).ino != s.claims[f(PcOf(s, w).dead)]
    ensures var n := f(PcOf(s, w).dead);
            Reads(s, s.claims[n], PcOf(s, w).dead) && s.lock == Some(s.claims[n]) ==>
              !a.Undo? && !a.RemoveLock? && !a.Free?
  {
    assert OwnerInv(s, a.w) && TakerInv(f, s, a.w) && TakerInv(f, s, w);
    assert PairInv(f, s, a.w, w) && PairInv(f, s, w, a.w);
  }

  // A step of another writer: only a removal of the lock, or of a claim, could disturb w.
  lemma OtherTakerStep(f: Digest, s: State, a: Action, w: Writer)
    requires Inv(f, s) && Enabled(s, a) && !a.Spawn? && !a.Die? && a.w != w
    ensures TakerInv(f, Step(f, s, a), w)
  {
    assert TakerInv(f, s, w);
    PcSince(f, s, a, w);
    if Claimant(PcOf(s, w)) {
      TakerUndisturbed(f, s, a, w);
      LockSince(f, s, a);
      FileSince(f, s, a, s.claims[f(PcOf(s, w).dead)]);
    }
  }

  // A maker was one before the step, or has just made a file that was not there.
  lemma OwnedSince(f: Digest, s: State, a: Action, w: Writer)
    requires Enabled(s, a) && Owned(PcOf(Step(f, s, a), w)).Some?
    ensures Owned(PcOf(s, w)) == Owned(PcOf(Step(f, s, a), w)) ||
            (a.Create? && a.w == w && Owned(PcOf(Step(f, s, a), w)).value !in s.files)
  {
  }

  lemma MakerStep(f: Digest, s: State, a: Action, w: Writer, w': Writer)
    requires Inv(f, s) && Enabled(s, a)
    ensures OneMaker(Step(f, s, a), w, w')
  {
    assert OwnerInv(s, w) && OwnerInv(s, w');
    assert PairInv(f, s, w, w');
    var s' := Step(f, s, a);
    if Owned(PcOf(s', w)).Some? && Owned(PcOf(s', w)) == Owned(PcOf(s', w')) {
      OwnedSince(f, s, a, w);
      OwnedSince(f, s, a, w');
    }
  }

  // A claimant was one before the step, or has just linked a name that was free.
  lemma ClaimantSince(f: Digest, s: State, a: Action, w: Writer)
    requires Enabled(s, a) && Claimant(PcOf(Step(f, s, a), w))
    ensures Takes(PcOf(s, w)) && PcOf(Step(f, s, a), w).dead == PcOf(s, w).dead
    ensures Claimant(PcOf(s, w)) || (a == Link(w) && f(PcOf(s, w).dead) !in s.claims)
  {
  }

  lemma ClaimantStep(f: Digest, s: State, a: Action, w: Writer, w': Writer)
    requires Inv(f, s) && Enabled(s, a)
    ensures OneClaimant(f, Step(f, s, a), w, w')
  {
    if Claimant(PcOf(Step(f, s, a), w)) && Claimant(PcOf(Step(f, s, a), w')) {
      ClaimantSince(f, s, a, w);
      ClaimantSince(f, s, a, w');
    }
    assert TakerInv(f, s, w) && TakerInv(f, s, w');
    assert PairInv(f, s, w, w');
  }

  // A taker was one before the step, or has just judged the lock's holder dead.
  lemma TakesSince(f: Digest, s: State, a: Action, w: Writer)
    requires Enabled(s, a) && Takes(PcOf(Step(f, s, a), w))
    ensures var dead := PcOf(Step(f, s, a), w).dead;
            (Takes(PcOf(s, w)) && PcOf(s, w).dead == dead) || (a.Look? && a.w == w && Stale(s, dead, a.host))
  {
  }

  // A holder was one before the step, or has just written its identity.
  lemma NamesSince(f: Digest, s: State, a: Action, w: Writer, info: LockInfo)
    requires Enabled(s, a) && Names(PcOf(Step(f, s, a), w), info)
    ensures Names(PcOf(s, w), info) || a == Write(w, info)
  {
  }

  lemma LiveSince(f: Digest, s: State, a: Action, w: Writer)
    requires Enabled(s, a) && Live(Step(f, s, a), w)
    ensures Live(s, w) || a == Spawn(w.proc)
  {
  }

  // A live holder's identity is never stale.
  lemma NotStale(s: State, w: Writer, info: LockInfo, host: string)
    requires OwnerInv(s, w) && Live(s, w) && Names(PcOf(s, w), info)
    ensures !Stale(s, info, host)
  {
    if info.host == host && info.host != "" {
      assert w.proc in s.running && w.proc.host == host && w.proc.pid == info.pid;
    }
  }

  lemma DeadStep(f: Digest, s: State, a: Action, w: Writer, w': Writer)
    requires Inv(f, s) && Enabled(s, a)
    ensures TrulyDead(Step(f, s, a), w, w')
  {
    var s' := Step(f, s, a);
    if Takes(PcOf(s', w)) && Live(s', w') && Names(PcOf(s', w'), PcOf(s', w).dead) {
      var dead := PcOf(s', w).dead;
      assert OwnerInv(s, w') && TakerInv(f, s, w) && PairInv(f, s, w, w');
      TakesSince(f, s, a, w);
      NamesSince(f, s, a, w', dead);
      LiveSince(f, s, a, w');
      if Live(s, w') && Names(PcOf(s, w'), dead) && a.Look? {
        NotStale(s, w', dead, a.host);
      }
      assert false;
    }
  }

  /** Every step keeps the invariant. */
  lemma InvStep(f: Digest, s: State, a: Action)
    requires Inv(f, s) && Enabled(s, a)
    ensures Inv(f, Step(f, s, a))
  {
    FilesStep(f, s, a);
    forall w ensures OwnerInv(Step(f, s, a), w) && TakerInv(f, Step(f, s, a), w) {
      OwnerStep(f, s, a, w);
      TakerStep(f, s, a, w);
    }
    forall w, w' ensures PairInv(f, Step(f, s, a), w, w') {
      MakerStep(f, s, a, w, w');
      ClaimantStep(f, s, a, w, w');
      DeadStep(f, s, a, w, w');
    }
  }
}
