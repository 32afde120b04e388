/** A run of the storage server that fills the table of commit queues, and a session that loses its edits to that. */
module FullQueueExample {
  import opened Options
  import opened WriteSession
  import opened Paths
  import opened Storage
  import opened ServerState
  import opened ServerRuns
  import opened ServerHistory
  import opened ServerExamples

  /** Nobody is editing, no lock is held, and these files have a commit queue. */
  ghost predicate Idle(s: State, names: seq<string>) {
    Inv(s) && s.sessions == [] && s.queues == names && forall n, i :: Unheld(s, n, i)
  }

  lemma StartIsIdle(files: Files)
    ensures Idle(Start(files), [])
  {
  }

  // ----- lock and unlock -----

  lemma LocksOfLock(s: State, name: string, user: string, index: nat, n: string, i: int, u: string)
    requires (forall x, y :: Unheld(s, x, y)) && StepLock(s, name, user, index).1 == SUCCESS
    ensures HeldBy(StepLock(s, name, user, index).0.table, n, i, u) ==> n == name && i == index && u == user
  {
    AcquireIs(s.table, name, index, user, n, i, u);
    LockOutcome(s, name, user, index);
    assert Unheld(s, n, i);
  }

  /** A session on a server on which nobody is editing. */
  lemma IdleLock(s: State, names: seq<string>, name: string, user: string, index: nat)
      returns (v: ActiveSession, r: State)
    requires Idle(s, names) && MayLock(MainOf(s, name), index)
    ensures StepLock(s, name, user, index) == (r, SUCCESS) && Inv(r) && r.sessions == [v] && r.queues == names
    ensures v.Is(name, user, index) && Open(r, v, MainOf(s, name)) && MainOf(r, name) == MainOf(s, name)
  {
    assert Unheld(s, name, index);
    LockSucceeds(s, name, user, index);
    GrantedLock(s, name, user, index);
    LockKeepsInv(s, name, user, index);
    LockKeepsMain(s, name, user, index);
    LockOutcome(s, name, user, index);
    r := StepLock(s, name, user, index).0;
    v := r.sessions[0];
  }

  /** The only session is unlocked. */
  lemma OnlySessionUnlocks(s: State, v: ActiveSession) returns (r: State, status: int)
    requires Inv(s) && s.sessions == [v]
    ensures StepUnlock(s, v.name, v.user, v.index) == (r, status) && Inv(r) && r.sessions == []
    ensures status == (if QueueAtHand(s, v.name) then SUCCESS else ERR_SERVER_ERROR)
    ensures QueueAtHand(s, v.name) && v.name !in s.queues ==> r.queues == s.queues + [v.name]
    ensures !QueueAtHand(s, v.name) ==> MainOf(r, v.name) == MainOf(s, v.name) && v.CopyPath() !in r.files
    ensures r.table == Release(s.table, v.name, v.index, v.user).0
  {
    ActiveIsFound(s, v);
    UnlockIs(s, v);
    UnlockKeepsInv(s, v.name, v.user, v.index);
    r, status := StepUnlock(s, v.name, v.user, v.index).0, StepUnlock(s, v.name, v.user, v.index).1;
  }

  /** The messages of a user who locks the first sentence of a file and unlocks it again. */
  function Visit(name: string, user: string): seq<Event> {
    [LockSentence(name, user, 0), UnlockSentence(name, user, 0)]
  }

  lemma FirstMayBeLocked(main: string)
    ensures MayLock(main, 0)
  {
  }

  lemma LocksOfVisit(s: State, r1: State, r: State, name: string, user: string, n: string, i: int)
    requires (forall x, y :: Unheld(s, x, y)) && StepLock(s, name, user, 0) == (r1, SUCCESS)
    requires r.table == Release(r1.table, name, 0, user).0
    ensures Unheld(r, n, i)
  {
    forall u
      ensures !HeldBy(r.table, n, i, u)
    {
      LocksOfLock(s, name, user, 0, n, i, u);
      ReleaseIs(r1.table, name, 0, user, n, i, u);
    }
  }

  lemma OneVisit(s: State, names: seq<string>, name: string, user: string) returns (r: State)
    requires Idle(s, names) && name !in names && |names| < MAX_FILE_QUEUES
    ensures Reaches(s, Visit(name, user), r) && Idle(r, names + [name])
  {
    FirstMayBeLocked(MainOf(s, name));
    var v, r1 := IdleLock(s, names, name, user, 0);
    var status;
    r, status := OnlySessionUnlocks(r1, v);
    forall n, i
      ensures Unheld(r, n, i)
    {
      LocksOfVisit(s, r1, r, name, user, n, i);
    }
    TwoSteps(s, LockSentence(name, user, 0), r1, UnlockSentence(name, user, 0), r);
  }

  // ----- many visits -----

  function Visits(names: seq<string>, user: string): seq<Event> {
    if names == [] then [] else Visits(names[..|names| - 1], user) + Visit(names[|names| - 1], user)
  }

  predicate AllDifferent(names: seq<string>) {
    forall i, j :: 0 <= i < j < |names| ==> names[i] != names[j]
  }

  lemma {:induction false} ManyVisits(s: State, names: seq<string>, user: string) returns (r: State)
    requires Idle(s, []) && AllDifferent(names) && |names| <= MAX_FILE_QUEUES
    ensures Reaches(s, Visits(names, user), r) && Idle(r, names)
    decreases |names|
  {
    if names == [] {
      r := s;
    } else {
      var front, name := names[..|names| - 1], names[|names| - 1];
      var before := ManyVisits(s, front, user);
      r := OneVisit(before, front, name, user);
      Chain(s, Visits(front, user), before, Visit(name, user), r);
      assert front + [name] == names;
    }
  }

  lemma {:induction false} VisitsSpare(s: State, names: seq<string>, user: string, name: string)
    requires Inv(s) && name !in names
    ensures MainOf(ServerRuns.Run(s, Visits(names, user)), name) == MainOf(s, name)
    decreases |names|
  {
    if names != [] {
      var front, other := names[..|names| - 1], names[|names| - 1];
      var es := Visits(front, user);
      VisitsSpare(s, front, user, name);
      VisitSpares(s, es, other, user, name);
    }
  }

  lemma VisitSpares(s: State, es: seq<Event>, other: string, user: string, name: string)
    requires Inv(s) && other != name
    ensures MainOf(ServerRuns.Run(s, es + Visit(other, user)), name) == MainOf(ServerRuns.Run(s, es), name)
  {
    var e, f := LockSentence(other, user, 0), UnlockSentence(other, user, 0);
    var r := ServerRuns.Run(s, es);
    RunOfMore(s, es, e, es + [e]);
    RunOfMore(s, es + [e], f, es + [e] + [f]);
    assert es + Visit(other, user) == es + [e] + [f];
    StepIsLocal(r, e, Main(name));
    StepKeepsInv(r, e);
    StepIsLocal(ServerState.Step(r, e).0, f, Main(name));
  }

  // ----- the session that comes too late -----

  /** A session on a file that has no commit queue and gets none: its write is accepted, its unlock is refused, and
      what it wrote is gone. */
  lemma LateSession(s: State, names: seq<string>, name: string, x: string, i: nat, w: Write, c: string)
      returns (s1: State, s2: State)
    requires Idle(s, names) && name !in names && |names| == MAX_FILE_QUEUES
    requires var main := MainOf(s, name);
      MayLock(main, i) && !(main == "" && i == 1) && WriteText(main, i, w) == Some(c)
    ensures StepLock(s, name, x, i) == (s1, SUCCESS) && Inv(s1)
    ensures StepWrite(s1, name, x, i, w) == (s2, SUCCESS) && Inv(s2)
    ensures var (r, status) := StepUnlock(s2, name, x, i);
      && status == ERR_SERVER_ERROR && MainOf(r, name) == MainOf(s, name)
      && r.sessions == [] && Copy(name, x, i) !in r.files
  {
    var v;
    v, s1 := IdleLock(s, names, name, x, i);
    ActiveIsFound(s1, v);
    WriteKeepsInv(s1, name, x, i, w);
    WriteKeepsMain(s1, name, x, i, w);
    s2 := StepWrite(s1, name, x, i, w).0;
    var r, status := OnlySessionUnlocks(s2, v);
  }

  /** A hundred files are locked and unlocked, which gives each a commit queue. Then a user locks a sentence of
      another file and writes; all these messages succeed. The unlock answers with a server error, the file is as it
      was, and the copy with the accepted text is gone. */
  lemma FullQueueRun(files: Files, names: seq<string>, u: string, name: string, x: string, i: nat, w: Write, c: string)
    requires AllDifferent(names) && |names| == MAX_FILE_QUEUES && name !in names
    requires var main := Read(files, Main(name));
      MayLock(main, i) && !(main == "" && i == 1) && WriteText(main, i, w) == Some(c)
    ensures var es := Visits(names, u) + [LockSentence(name, x, i), WriteWords(name, x, i, w)];
      && Succeeds(Start(files), es)
      && var (r, status) := StepUnlock(ServerRuns.Run(Start(files), es), name, x, i);
      && status == ERR_SERVER_ERROR && MainOf(r, name) == Read(files, Main(name))
      && r.sessions == [] && Copy(name, x, i) !in r.files
  {
    StartIsIdle(files);
    var s := ManyVisits(Start(files), names, u);
    VisitsSpare(Start(files), names, u, name);
    var s1, s2 := LateSession(s, names, name, x, i, w, c);
    TwoSteps(s, LockSentence(name, x, i), s1, WriteWords(name, x, i, w), s2);
    Chain(Start(files), Visits(names, u), s, [LockSentence(name, x, i), WriteWords(name, x, i, w)], s2);
  }
}
