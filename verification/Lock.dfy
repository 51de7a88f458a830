/**
 The store's lock file (filestore/lock.go) as an interleaved protocol.

 Any number of writers, in any number of processes, work on one directory.  The
 lock path names at most one inode, a claim name at most one inode, and an inode
 is blank (created and not yet wholly written) or holds its writer's identity.
 Every file operation is one step, so another writer, or the death of a process,
 may come between any two of them.

 A removal may fail, and then leaves its file.  A write of the identity that fails leaves
 a blank file; one whose file then fails to close, the identity being there, is a `Write`
 followed by `Release` and `Free`, which lead to the same states.

 The hypotheses are in the steps: an identity is never written twice (`Write`
 takes an unused one), a process that has died never runs again (`Spawn` takes an
 unborn one), and nobody calls BreakLock.  Claim names come from an arbitrary
 digest of the dead holder's identity: nothing asks for it to be free of
 collisions.
 */
module Lock {
  import opened Common

  type Inode = nat

  /** One incarnation of a process: a pid may be used again by a later one. */
  datatype Process = Process(host: string, pid: nat, birth: nat)

  /** One caller of `acquire`, inside one process. */
  datatype Writer = Writer(proc: Process, handle: nat)

  datatype LockInfo = LockInfo(pid: nat, host: string, since: nat)

  datatype Content = Blank | Info(info: LockInfo)

  /** Where a writer stands between two file operations. */
  datatype Pc =
    | Idle
    | Creating                            // about to create the lock exclusively
    | Created(ino: Inode)                 // created it; its identity is not written yet
    | Undoing(ino: Inode)                 // could not write it; about to remove the lock
    | Looking                             // found a lock; about to read it
    | Claiming(dead: LockInfo)            // read a stale holder; about to link the claim
    | Verifying(dead: LockInfo)           // linked; about to read the claim
    | Removing(dead: LockInfo)            // the claim names the dead holder; about to remove the lock
    | Dropping(dead: LockInfo)            // about to remove the claim
    | Holding(ino: Inode, mine: LockInfo) // the caller's write runs here
    | Freeing(ino: Inode, mine: LockInfo) // read its own identity back; about to remove the lock

  datatype State = State(
    lock: Option<Inode>,
    claims: map<string, Inode>,
    files: map<Inode, Content>,
    used: set<LockInfo>,
    born: set<Process>,
    running: set<Process>,
    pcs: map<Writer, Pc>)

  /** One file operation of one writer, or the start or death of a process. */
  datatype Action =
    | Spawn(p: Process)
    | Die(p: Process)
    | Begin(w: Writer)
    | Create(w: Writer, ino: Inode)
    | Write(w: Writer, info: LockInfo)
    | WriteFails(w: Writer)
    | Undo(w: Writer, ok: bool)
    | Look(w: Writer, host: string)
    | Link(w: Writer)
    | Verify(w: Writer, ok: bool)
    | RemoveLock(w: Writer, ok: bool)
    | DropClaim(w: Writer, ok: bool)
    | Release(w: Writer, ok: bool)
    | Free(w: Writer, ok: bool)
    | GiveUp(w: Writer)

  type Digest = LockInfo -> string

  const Initial := State(None, map[], map[], {}, {}, {}, map[])

  function PcOf(s: State, w: Writer): Pc {
    if w in s.pcs then s.pcs[w] else Idle
  }

  predicate Live(s: State, w: Writer) {
    w.proc in s.running
  }

  function At(s: State, w: Writer, pc: Pc): State {
    s.(pcs := s.pcs[w := pc])
  }

  /** `processAlive`, asked on the host the process runs on. */
  predicate ProcessAlive(s: State, host: string, pid: nat) {
    exists p :: p in s.running && p.host == host && p.pid == pid
  }

  /** `LockInfo.stale`, as a writer that believes it is on `host` computes it. */
  predicate Stale(s: State, info: LockInfo, host: string) {
    info.host != "" && info.host == host && info.pid > 0 && !ProcessAlive(s, host, info.pid)
  }

  /** What `readLock` reads at an inode: an identity, or an error for a blank file. */
  predicate Reads(s: State, ino: Inode, info: LockInfo) {
    ino in s.files && s.files[ino] == Info(info)
  }

  predicate Enabled(s: State, a: Action) {
    match a
    case Spawn(p) => p !in s.born
    case Die(p) => p in s.running
    case Begin(w) => Live(s, w) && PcOf(s, w).Idle?
    case Create(w, ino) => Live(s, w) && PcOf(s, w).Creating? && ino !in s.files
    case Write(w, info) =>
      && Live(s, w) && PcOf(s, w).Created?
      && info !in s.used && info.pid == w.proc.pid && (info.host == w.proc.host || info.host == "")
    case WriteFails(w) => Live(s, w) && PcOf(s, w).Created?
    case Undo(w, _) => Live(s, w) && PcOf(s, w).Undoing?
    case Look(w, host) => Live(s, w) && PcOf(s, w).Looking? && (host == w.proc.host || host == "")
    case Link(w) => Live(s, w) && PcOf(s, w).Claiming?
    case Verify(w, _) => Live(s, w) && PcOf(s, w).Verifying?
    case RemoveLock(w, _) => Live(s, w) && PcOf(s, w).Removing?
    case DropClaim(w, _) => Live(s, w) && PcOf(s, w).Dropping?
    case Release(w, _) => Live(s, w) && PcOf(s, w).Holding?
    case Free(w, _) => Live(s, w) && PcOf(s, w).Freeing?
    case GiveUp(w) => Live(s, w) && (PcOf(s, w).Creating? || PcOf(s, w).Looking? || PcOf(s, w).Claiming?)
  }

  /** The state after one step; a removal or a link acts on whatever the name names then. */
  function Step(f: Digest, s: State, a: Action): State
    requires Enabled(s, a)
  {
    match a
    case Spawn(p) => s.(born := s.born + {p}, running := s.running + {p})
    case Die(p) => s.(running := s.running - {p})
    case Begin(w) => At(s, w, Creating)
    case Create(w, ino) =>
      if s.lock.Some? then At(s, w, Looking)
      else At(s.(lock := Some(ino), files := s.files[ino := Blank]), w, Created(ino))
    case Write(w, info) =>
      var ino := PcOf(s, w).ino;
      At(s.(files := s.files[ino := Info(info)], used := s.used + {info}), w, Holding(ino, info))
    case WriteFails(w) => At(s, w, Undoing(PcOf(s, w).ino))
    case Undo(w, ok) => At(if ok then s.(lock := None) else s, w, Idle)
    case Look(w, host) =>
      if s.lock.Some? && s.lock.value in s.files && s.files[s.lock.value].Info?
         && Stale(s, s.files[s.lock.value].info, host)
      then At(s, w, Claiming(s.files[s.lock.value].info))
      else At(s, w, Creating)
    case Link(w) =>
      var dead := PcOf(s, w).dead;
      if f(dead) in s.claims || s.lock.None? then At(s, w, Creating)
      else At(s.(claims := s.claims[f(dead) := s.lock.value]), w, Verifying(dead))
    case Verify(w, ok) =>
      var dead := PcOf(s, w).dead;
      if ok && f(dead) in s.claims && Reads(s, s.claims[f(dead)], dead) then At(s, w, Removing(dead))
      else At(s, w, Dropping(dead))
    case RemoveLock(w, ok) =>
      At(if ok then s.(lock := None) else s, w, Dropping(PcOf(s, w).dead))
    case DropClaim(w, ok) =>
      At(if ok then s.(claims := s.claims - {f(PcOf(s, w).dead)}) else s, w, Creating)
    case Release(w, ok) =>
      var pc := PcOf(s, w);
      if ok && s.lock.Some? && Reads(s, s.lock.value, pc.mine) then At(s, w, Freeing(pc.ino, pc.mine))
      else At(s, w, Idle)
    case Free(w, ok) => At(if ok then s.(lock := None) else s, w, Idle)
    case GiveUp(w) => At(s, w, Idle)
  }

  /** `states` is a run of the protocol from `states[0]` by `actions`. */
  ghost predicate Run(f: Digest, states: seq<State>, actions: seq<Action>) {
    && |states| == |actions| + 1
    && forall i :: 0 <= i < |actions| ==>
         Enabled(states[i], actions[i]) && states[i + 1] == Step(f, states[i], actions[i])
  }

  /** The inode a writer made and has not given up: from its create to its release. */
  function Owned(pc: Pc): Option<Inode> {
    match pc
    case Created(i) => Some(i)
    case Undoing(i) => Some(i)
    case Holding(i, _) => Some(i)
    case Freeing(i, _) => Some(i)
    case _ => None
  }

  /** The writer linked a claim for `pc.dead` and has not removed it. */
  predicate Claimant(pc: Pc) {
    pc.Verifying? || pc.Removing? || pc.Dropping?
  }

  predicate Takes(pc: Pc) {
    pc.Claiming? || Claimant(pc)
  }

  predicate Names(pc: Pc, info: LockInfo) {
    (pc.Holding? || pc.Freeing?) && pc.mine == info
  }

  /**
   What every reachable state says of the directory: the lock and the claims name
   files, and no two files hold one identity.
   */
  ghost predicate FilesInv(s: State) {
    && s.running <= s.born
    && (s.lock.Some? ==> s.lock.value in s.files)
    && (forall n :: n in s.claims ==> s.claims[n] in s.files)
    && (forall i :: i in s.files && s.files[i].Info? ==> s.files[i].info in s.used)
    && (forall i, j :: i in s.files && j in s.files && s.files[i].Info? && s.files[i] == s.files[j] ==> i == j)
  }

  /** What it says of one writer that has made a lock and not released it. */
  ghost predicate OwnerInv(s: State, w: Writer) {
    var pc := PcOf(s, w);
    && (!pc.Idle? ==> w.proc in s.born)
    && (Owned(pc).Some? ==>
      && pc.ino in s.files
      && (Live(s, w) ==> s.lock == Some(pc.ino))
      && (pc.Created? || pc.Undoing? ==> s.files[pc.ino] == Blank)
      && (pc.Holding? || pc.Freeing? ==>
            && s.files[pc.ino] == Info(pc.mine)
            && pc.mine.pid == w.proc.pid && (pc.mine.host == w.proc.host || pc.mine.host == "")))
  }

  /** What it says of one writer that is taking a lock over. */
  ghost predicate TakerInv(f: Digest, s: State, w: Writer) {
    var pc := PcOf(s, w);
    && (Takes(pc) ==> pc.dead in s.used && pc.dead.host != "" && pc.dead.pid > 0)
    && (Claimant(pc) ==> f(pc.dead) in s.claims)
    && (pc.Verifying? && Reads(s, s.claims[f(pc.dead)], pc.dead) ==> s.lock == Some(s.claims[f(pc.dead)]))
    && (pc.Removing? ==> Reads(s, s.claims[f(pc.dead)], pc.dead) && s.lock == Some(s.claims[f(pc.dead)]))
  }

  // What it says of two writers: they never made one inode,
  ghost predicate OneMaker(s: State, w: Writer, w': Writer) {
    Owned(PcOf(s, w)).Some? && Owned(PcOf(s, w)) == Owned(PcOf(s, w')) ==> w == w'
  }

  // never hold claims under one name,
  ghost predicate OneClaimant(f: Digest, s: State, w: Writer, w': Writer) {
    var pc, pc' := PcOf(s, w), PcOf(s, w');
    Claimant(pc) && Claimant(pc') && f(pc.dead) == f(pc'.dead) ==> w == w'
  }

  // and an identity one of them judged dead is not one the other, alive, holds.
  ghost predicate TrulyDead(s: State, w: Writer, w': Writer) {
    Takes(PcOf(s, w)) && Live(s, w') ==> !Names(PcOf(s, w'), PcOf(s, w).dead)
  }

  ghost predicate PairInv(f: Digest, s: State, w: Writer, w': Writer) {
    OneMaker(s, w, w') && OneClaimant(f, s, w, w') && TrulyDead(s, w, w')
  }

  ghost predicate Inv(f: Digest, s: State) {
    && FilesInv(s)
    && (forall w :: OwnerInv(s, w) && TakerInv(f, s, w))
    && (forall w, w' :: PairInv(f, s, w, w'))
  }
}
