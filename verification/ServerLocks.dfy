/** Locks and sessions of the storage server: in every reachable state a sentence index is locked exactly while a write
    session is active on it. */
module ServerLocks {
  import opened Options
  import opened Document
  import opened WriteSession
  import opened Paths
  import opened Storage
  import opened ServerState
  import opened ServerRuns

  predicate Active(s: State, name: string, user: string, index: int) {
    FindSession(s.sessions, name, user, index) < |s.sessions|
  }

  /** Every held lock belongs to an active session, and the session table is within its bounds. */
  ghost predicate LocksOk(s: State) {
    && (forall n, i, u {:trigger HeldBy(s.table, n, i, u)} :: HeldBy(s.table, n, i, u) ==> Active(s, n, u, i))
    && |s.sessions| <= MAX_SESSIONS
  }

  lemma ActiveIff(s: State, name: string, user: string, index: int)
    ensures Active(s, name, user, index) <==> exists v :: v in s.sessions && v.Is(name, user, index)
  {
    var i := FindSession(s.sessions, name, user, index);
    if i < |s.sessions| {
      assert s.sessions[i] in s.sessions;
    }
  }

  /** The same holders. */
  ghost predicate SameHolders(t: seq<FileLocks>, t': seq<FileLocks>) {
    forall n, i, u {:trigger HeldBy(t', n, i, u)} :: HeldBy(t', n, i, u) <==> HeldBy(t, n, i, u)
  }

  /** One more holder. */
  ghost predicate OneMoreHolder(t: seq<FileLocks>, t': seq<FileLocks>, name: string, index: int, user: string) {
    forall n, i, u {:trigger HeldBy(t', n, i, u)} ::
      HeldBy(t', n, i, u) <==> HeldBy(t, n, i, u) || (n == name && i == index && u == user)
  }

  /** One holder less. */
  ghost predicate OneLessHolder(t: seq<FileLocks>, t': seq<FileLocks>, name: string, index: int, user: string) {
    forall n, i, u {:trigger HeldBy(t', n, i, u)} ::
      HeldBy(t', n, i, u) <==> HeldBy(t, n, i, u) && !(n == name && i == index && u == user)
  }

  lemma AcquiredHolders(table: seq<FileLocks>, name: string, index: nat, user: string)
    ensures var (t, status) := Acquire(table, name, index, user);
      && (status == SUCCESS ==> OneMoreHolder(table, t, name, index, user))
      && (status != SUCCESS ==> SameHolders(table, t))
  {
    var (t, status) := Acquire(table, name, index, user);
    forall n, i, u
      ensures HeldBy(t, n, i, u)
         <==> HeldBy(table, n, i, u) || (status == SUCCESS && n == name && i == index && u == user)
    {
      AcquireIs(table, name, index, user, n, i, u);
    }
  }

  lemma ReleasedHolders(table: seq<FileLocks>, name: string, index: int, user: string)
    ensures OneLessHolder(table, Release(table, name, index, user).0, name, index, user)
  {
    var t := Release(table, name, index, user).0;
    forall n, i, u
      ensures HeldBy(t, n, i, u) <==> HeldBy(table, n, i, u) && !(n == name && i == index && u == user)
    {
      ReleaseIs(table, name, index, user, n, i, u);
    }
  }

  // ----- what the messages about locks do -----

  /** What a lock request is answered. */
  function LockAnswer(s: State, name: string, user: string, index: int): int {
    if !MayLock(Read(s.files, Main(name)), index) then ERR_INVALID_INDEX
    else if !FreeFor(s.table, name, index, user) then ERR_SENTENCE_LOCKED
    else if !SessionRoom(s, name, user, index) then ERR_SERVER_ERROR
    else SUCCESS
  }

  /** From `s` to `r` the session `v` has begun, in place of an older one of the same user on the same index. */
  ghost predicate Begun(s: State, r: State, v: ActiveSession, main: string) {
    && (forall w :: w in r.sessions <==> w == v || (w in s.sessions && !w.Is(v.name, v.user, v.index)))
    && r.files == s.files[v.CopyPath() := main]
    && OneMoreHolder(s.table, r.table, v.name, v.index, v.user)
    && r.queues == s.queues
  }

  lemma StartBegins(s: State, name: string, user: string, index: nat, r: State)
    requires Inv(s) && StartSession(s, name, user, index) == Some(r)
    ensures var v := ActiveSession(name, user, index, |Parse(Read(s.files, Main(name)))|);
      forall w :: w in r.sessions <==> w == v || (w in s.sessions && !w.Is(name, user, index))
  {
    var v := ActiveSession(name, user, index, |Parse(Read(s.files, Main(name)))|);
    var i := FindSession(s.sessions, name, user, index);
    FoundOnly(s, name, user, index);
    if i < |s.sessions| {
      assert r.sessions[i] == v;
      forall w | w in s.sessions && w != s.sessions[i]
        ensures w in r.sessions
      {
        var j :| 0 <= j < |s.sessions| && s.sessions[j] == w;
        assert r.sessions[j] == w;
      }
      forall w | w in r.sessions && w != v
        ensures w in s.sessions && !w.Is(name, user, index)
      {
        var j :| 0 <= j < |r.sessions| && r.sessions[j] == w;
        SameKey(s, s.sessions[j], s.sessions[i]);
        DifferentPlaces(s, i, j);
      }
    } else {
      assert r.sessions == s.sessions + [v];
    }
  }

  lemma DifferentPlaces(s: State, i: nat, j: nat)
    requires Inv(s) && i < |s.sessions| && j < |s.sessions| && i != j
    ensures !s.sessions[j].Is(s.sessions[i].name, s.sessions[i].user, s.sessions[i].index)
  {
    assert s.sessions[i].CopyPath() != s.sessions[j].CopyPath();
  }

  lemma AnswerIs(s: State, name: string, user: string, index: int)
    requires Inv(s)
    ensures StepLock(s, name, user, index).1 == LockAnswer(s, name, user, index)
    ensures MayLock(Read(s.files, Main(name)), index) ==>
      && index >= 0
      && Acquire(s.table, name, index, user).1
         == (if FreeFor(s.table, name, index, user) then SUCCESS else ERR_SENTENCE_LOCKED)
  {
    if MayLock(Read(s.files, Main(name)), index) {
      AcquireIs(s.table, name, index, user, name, index, user);
    }
  }

  lemma GrantedBegins(s: State, name: string, user: string, index: nat)
    requires Inv(s) && StepLock(s, name, user, index).1 == SUCCESS
    ensures var main := Read(s.files, Main(name));
      Begun(s, StepLock(s, name, user, index).0, ActiveSession(name, user, index, |ViewOf(main)|), main)
  {
    AnswerIs(s, name, user, index);
    ParseIsCut(Read(s.files, Main(name)));
    AcquiredHolders(s.table, name, index, user);
    AcquireKeepsInv(s, name, user, index);
    var s1 := s.(table := Acquire(s.table, name, index, user).0);
    StartBegins(s1, name, user, index, StepLock(s, name, user, index).0);
  }

  lemma RefusedKeeps(s: State, name: string, user: string, index: int)
    requires Inv(s) && LocksOk(s) && StepLock(s, name, user, index).1 != SUCCESS
    ensures var r := StepLock(s, name, user, index).0; r == s.(table := r.table) && SameHolders(s.table, r.table)
  {
    AnswerIs(s, name, user, index);
    if MayLock(Read(s.files, Main(name)), index) {
      AcquiredHolders(s.table, name, index, user);
      ReleasedHolders(Acquire(s.table, name, index, user).0, name, index, user);
      assert !FreeFor(s.table, name, index, user) || !HeldBy(s.table, name, index, user);
    }
  }

  /** A lock request: how it is answered, and the new state in either case. A refused one changes no holder, no session
      and no file. */
  lemma LockIs(s: State, name: string, user: string, index: int)
    requires Inv(s) && LocksOk(s)
    ensures var (r, status) := StepLock(s, name, user, index); var main := Read(s.files, Main(name));
      && status == LockAnswer(s, name, user, index)
      && (status == SUCCESS ==> index >= 0 && Begun(s, r, ActiveSession(name, user, index, |ViewOf(main)|), main))
      && (status != SUCCESS ==> r == s.(table := r.table) && SameHolders(s.table, r.table))
  {
    AnswerIs(s, name, user, index);
    if StepLock(s, name, user, index).1 == SUCCESS {
      GrantedBegins(s, name, user, index);
    } else {
      RefusedKeeps(s, name, user, index);
    }
  }

  /** The message ends the session, by a commit or without one. */
  predicate EndsSession(e: Event, v: ActiveSession) {
    (e.UnlockSentence? || e.CancelWrite?) && v.Is(e.name, e.user, e.index)
  }

  /** From `s` to `r` the session has ended: it and its copy are gone, nobody holds its index any more, and all other
      sessions and holders are there. */
  ghost predicate Ended(s: State, r: State, v: ActiveSession) {
    && (forall w :: w in r.sessions <==> w in s.sessions && w != v)
    && v.CopyPath() !in r.files
    && OneLessHolder(s.table, r.table, v.name, v.index, v.user)
    && |r.sessions| < |s.sessions|
  }

  lemma CommitEnds(s: State, i: nat)
    requires Inv(s) && i < |s.sessions|
    ensures var c := CommitSession(s, i).0;
      s.sessions[i].CopyPath() !in c.files && |c.sessions| < |s.sessions|
  {
    var v := s.sessions[i];
    UnlockIs(s, v);
    ActiveIsFound(s, v);
    ProcessSingle(s.files, v.name, v.ToEntry());
  }

  /** An unlock or a cancel of an active session ends it, whatever the answer. A cancel succeeds and changes no file but
      the copy. */
  lemma SessionEnds(s: State, e: Event, v: ActiveSession)
    requires Inv(s) && LocksOk(s) && v in s.sessions && EndsSession(e, v)
    ensures var (r, status) := ServerState.Step(s, e);
      && Ended(s, r, v)
      && (e.CancelWrite? ==> status == SUCCESS && r.files == s.files - {v.CopyPath()} && r.queues == s.queues)
  {
    ActiveIsFound(s, v);
    var i := FindSession(s.sessions, v.name, v.user, v.index);
    assert SessionOk(s.files, s.table, v);
    ReleaseIs(s.table, v.name, v.index, v.user, v.name, v.index, v.user);
    ReleasedHolders(s.table, v.name, v.index, v.user);
    if e.UnlockSentence? {
      CommitKeepsInv(s, i);
      CommitEnds(s, i);
    } else {
      RemoveKeepsOthers(s, i);
    }
  }

  /** Without a session there is nothing to end: the message is refused and changes nothing. */
  lemma NothingToEnd(s: State, name: string, user: string, index: int)
    requires Inv(s) && LocksOk(s) && !Active(s, name, user, index)
    ensures var refusal := if GetLock(s.table, name, index).None? then ERR_INVALID_INDEX else ERR_ACCESS_DENIED;
      StepUnlock(s, name, user, index) == StepCancel(s, name, user, index) == (s, refusal)
  {
    ReleaseIs(s.table, name, index, user, name, index, user);
    assert !HeldBy(s.table, name, index, user);
  }

  /** A write goes into the copy of the sender's own session on that index and changes nothing else; if the text cannot
      be inserted, nothing changes. */
  lemma WriteIs(s: State, v: ActiveSession, w: Write)
    requires Inv(s) && v in s.sessions
    ensures v.CopyPath() in s.files && !(s.files[v.CopyPath()] == "" && v.index == 1)
    ensures var (r, status) := StepWrite(s, v.name, v.user, v.index, w);
      match WriteText(s.files[v.CopyPath()], v.index, w)
      case None => r == s && status == ERR_INVALID_INDEX
      case Some(u) => r == s.(files := s.files[v.CopyPath() := u]) && status == SUCCESS
  {
    ActiveIsFound(s, v);
    assert SessionOk(s.files, s.table, v);
    CopyNotEmpty(s, v);
  }

  /** Without a session nothing can be written. */
  lemma NoSessionNoWrite(s: State, name: string, user: string, index: int, w: Write)
    requires Inv(s) && forall v :: v in s.sessions ==> !v.Is(name, user, index)
    ensures StepWrite(s, name, user, index, w) == (s, ERR_INVALID_OPERATION)
  {
    ActiveIff(s, name, user, index);
  }

  /** What messages about stored files are answered when they are refused, and that they change nothing then. */
  lemma RefusedWith(s: State, name: string, tag: string)
    requires Inv(s)
    ensures var (r, status) := ServerState.Step(s, UndoRequest(name));
      Undo(name) !in s.files ==> status == 405 && r == s
    ensures var (r, status) := ServerState.Step(s, CreateRequest(name));
      Main(name) in s.files ==> status == 409 && r == s
    ensures var (r, status) := ServerState.Step(s, DeleteRequest(name));
      Main(name) !in s.files ==> status == 404 && r == s
    ensures var (r, status) := ServerState.Step(s, CheckpointRequest(name, tag));
      && (Checkpoint(name, tag) in s.files ==> status == 409 && r == s)
      && (Checkpoint(name, tag) !in s.files && Main(name) !in s.files ==> status == 404 && r == s)
    ensures var (r, status) := ServerState.Step(s, RevertRequest(name, tag));
      Checkpoint(name, tag) !in s.files ==> status == 404 && r == s
  {
  }

  // ----- every reachable state -----

  lemma LockKeepsLocks(s: State, name: string, user: string, index: int)
    requires Inv(s) && LocksOk(s)
    ensures LocksOk(StepLock(s, name, user, index).0)
  {
    LockIs(s, name, user, index);
    var (r, status) := StepLock(s, name, user, index);
    if status == SUCCESS {
      var v := ActiveSession(name, user, index, |ViewOf(Read(s.files, Main(name)))|);
      forall n, i, u | HeldBy(r.table, n, i, u)
        ensures Active(r, n, u, i)
      {
        BegunKeepsActive(s, r, v, Read(s.files, Main(name)), n, u, i);
      }
    }
  }

  lemma BegunKeepsActive(s: State, r: State, v: ActiveSession, main: string, n: string, u: string, i: int)
    requires Begun(s, r, v, main) && (v.Is(n, u, i) || Active(s, n, u, i))
    ensures Active(r, n, u, i)
  {
    ActiveIff(s, n, u, i);
    ActiveIff(r, n, u, i);
    if v.Is(n, u, i) {
      assert v in r.sessions;
    } else {
      var w :| w in s.sessions && w.Is(n, u, i);
      assert w in r.sessions;
    }
  }

  lemma EndedKeepsLocks(s: State, r: State, v: ActiveSession)
    requires LocksOk(s) && Ended(s, r, v)
    ensures LocksOk(r)
  {
    forall n, i, u | HeldBy(r.table, n, i, u)
      ensures Active(r, n, u, i)
    {
      ActiveIff(s, n, u, i);
      ActiveIff(r, n, u, i);
      var w :| w in s.sessions && w.Is(n, u, i);
      assert w in r.sessions;
    }
  }

  lemma EndKeepsLocks(s: State, e: Event)
    requires Inv(s) && LocksOk(s) && (e.UnlockSentence? || e.CancelWrite?)
    ensures LocksOk(ServerState.Step(s, e).0)
  {
    if Active(s, e.name, e.user, e.index) {
      var v := s.sessions[FindSession(s.sessions, e.name, e.user, e.index)];
      SessionEnds(s, e, v);
      EndedKeepsLocks(s, ServerState.Step(s, e).0, v);
    } else {
      NothingToEnd(s, e.name, e.user, e.index);
    }
  }

  lemma CreateKeepsHolders(s: State, name: string)
    ensures SameHolders(s.table, StepCreate(s, name).0.table)
  {
    var t := StepCreate(s, name).0.table;
    forall n, i, u
      ensures HeldBy(t, n, i, u) <==> HeldBy(s.table, n, i, u)
    {
      InitKeepsLocks(s.table, name, 1, n, i);
    }
  }

  /** A file is created empty if there is none of the name; nobody's lock changes, and its first sentence gets a
      lock. */
  lemma CreateIs(s: State, name: string)
    requires Inv(s)
    ensures var (r, status) := StepCreate(s, name);
      && (status == SUCCESS <==> Main(name) !in s.files)
      && SameHolders(s.table, r.table) && r.sessions == s.sessions && r.queues == s.queues
      && (status == SUCCESS ==> r.files == s.files[Main(name) := ""] && GetLock(r.table, name, 0).Some?)
      && (status != SUCCESS ==> r == s)
  {
    CreateKeepsHolders(s, name);
    InitKeepsLocks(s.table, name, 1, name, 0);
  }

  lemma WriteKeepsTables(s: State, name: string, user: string, index: int, w: Write)
    requires Inv(s)
    ensures var r := StepWrite(s, name, user, index, w).0; r.table == s.table && r.sessions == s.sessions
  {
  }

  lemma StepKeepsLocks(s: State, e: Event)
    requires Inv(s) && LocksOk(s)
    ensures LocksOk(ServerState.Step(s, e).0)
  {
    match e
    case LockSentence(name, user, index) => LockKeepsLocks(s, name, user, index);
    case WriteWords(name, user, index, w) => WriteKeepsTables(s, name, user, index, w);
    case UnlockSentence(_, _, _) => EndKeepsLocks(s, e);
    case CancelWrite(_, _, _) => EndKeepsLocks(s, e);
    case CreateRequest(name) => CreateKeepsHolders(s, name);
    case _ =>
  }

  lemma {:induction false} RunKeepsLocks(s: State, es: seq<Event>)
    requires Inv(s) && LocksOk(s)
    ensures LocksOk(Run(s, es))
  {
    if es != [] {
      RunKeepsLocks(s, es[..|es| - 1]);
      StepKeepsLocks(Run(s, es[..|es| - 1]), es[|es| - 1]);
    }
  }

  lemma HeldIff(s: State, n: string, i: int, u: string)
    requires Inv(s) && LocksOk(s)
    ensures HeldBy(s.table, n, i, u) <==> exists v :: v in s.sessions && v.Is(n, u, i)
  {
    ActiveIff(s, n, u, i);
    if v :| v in s.sessions && v.Is(n, u, i) {
      assert SessionOk(s.files, s.table, v);
    }
  }

  /** In every reachable state: a user holds a sentence index of a file if and only if the user has a session on it, and
      a file is reported as locked if and only if some session is active on it. No lock outlives its session. */
  lemma LocksAreSessions(files: Files, es: seq<Event>, n: string, i: int, u: string)
    ensures var s := Run(Start(files), es);
      && (HeldBy(s.table, n, i, u) <==> exists v :: v in s.sessions && v.Is(n, u, i))
      && (HasLocks(s.table, n) <==> exists v :: v in s.sessions && v.name == n)
  {
    var s := Run(Start(files), es);
    RunKeepsLocks(Start(files), es);
    HeldIff(s, n, i, u);
    if v :| v in s.sessions && v.name == n {
      SessionsShowAsLocks(files, es, v);
    }
    if HasLocks(s.table, n) {
      var f := FindFile(s.table, n);
      var j :| 0 <= j < |s.table[f].locks| && s.table[f].locks[j].locked;
      assert HeldBy(s.table, n, j, s.table[f].locks[j].holder);
      HeldIff(s, n, j, s.table[f].locks[j].holder);
    }
  }

  /** When a lock is granted, in terms of sessions: the index is one that may be locked, no other user has a session on
      it, and there is a slot for the session. */
  lemma GrantedIff(files: Files, es: seq<Event>, name: string, user: string, index: int)
    ensures var s := Run(Start(files), es);
      StepLock(s, name, user, index).1 == SUCCESS <==>
        && MayLock(Read(s.files, Main(name)), index)
        && (forall v :: v in s.sessions && v.name == name && v.index == index ==> v.user == user)
        && SessionRoom(s, name, user, index)
  {
    var s := Run(Start(files), es);
    RunKeepsLocks(Start(files), es);
    LockGrantedIff(s, name, user, index);
    FreeIff(s, name, index, user);
  }

  lemma FreeIff(s: State, name: string, index: int, user: string)
    requires Inv(s) && LocksOk(s)
    ensures FreeFor(s.table, name, index, user)
       <==> forall v :: v in s.sessions && v.name == name && v.index == index ==> v.user == user
  {
    var l := GetLock(s.table, name, index);
    if l.Some? && l.value.locked {
      HeldIff(s, name, index, l.value.holder);
    }
    if v :| v in s.sessions && v.name == name && v.index == index {
      assert SessionOk(s.files, s.table, v);
    }
  }

  /** The index is free again: after a session has been unlocked or cancelled, in any reachable state, any user's lock
      of its index is granted if and only if the index may still be locked. */
  lemma IndexIsFreeAgain(files: Files, es: seq<Event>, v: ActiveSession, e: Event, user: string)
    requires v in Run(Start(files), es).sessions && EndsSession(e, v)
    requires Inv(ServerState.Step(Run(Start(files), es), e).0)
    ensures var r := ServerState.Step(Run(Start(files), es), e).0;
      StepLock(r, v.name, user, v.index).1 == SUCCESS <==> MayLock(Read(r.files, Main(v.name)), v.index)
  {
    var s := Run(Start(files), es);
    var r := ServerState.Step(s, e).0;
    RunKeepsLocks(Start(files), es);
    SessionEnds(s, e, v);
    EndedKeepsLocks(s, r, v);
    LockGrantedIff(r, v.name, user, v.index);
    FreeIff(r, v.name, v.index, user);
    forall w | w in r.sessions
      ensures !(w.name == v.name && w.index == v.index)
    {
      OneWriterPerLock(files, es, v, w);
    }
  }
}
