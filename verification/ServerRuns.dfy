/** Runs of the storage server: any sequence of messages of any users, in any order. */
module ServerRuns {
  import opened Options
  import opened Text
  import opened Document
  import opened WriteSession
  import opened Commit
  import opened Session
  import opened Merge
  import opened MergedText
  import opened Paths
  import opened Storage
  import opened ServerState

  /** The state after a run. */
  function Run(s: State, es: seq<Event>): (r: State)
    requires Inv(s)
    ensures Inv(r)
  {
    if es == [] then s else
      var before := Run(s, es[..|es| - 1]);
      StepKeepsInv(before, es[|es| - 1]);
      Step(before, es[|es| - 1]).0
  }

  /** A server that has just started on the files it finds. */
  function Start(files: Files): (s: State)
    ensures Inv(s)
  {
    State(files, [], [], [])
  }

  // ----- writers exclude each other -----

  /** In every reachable state, two sessions on the same sentence index of a file are the same session, and the lock is
      held by its user. */
  lemma OneWriterPerLock(files: Files, es: seq<Event>, v: ActiveSession, w: ActiveSession)
    requires v in Run(Start(files), es).sessions && w in Run(Start(files), es).sessions
    ensures HeldBy(Run(Start(files), es).table, v.name, v.index, v.user)
    ensures v.name == w.name && v.index == w.index ==> v == w
  {
    var s := Run(Start(files), es);
    assert SessionOk(s.files, s.table, v) && SessionOk(s.files, s.table, w);
    SameKey(s, v, w);
  }

  /** `check_file_locks`: some sentence of the file is locked. */
  predicate HasLocks(table: seq<FileLocks>, name: string) {
    var f := FindFile(table, name);
    f < |table| && exists i :: 0 <= i < |table[f].locks| && table[f].locks[i].locked
  }

  /** A file with a write session is reported as locked. */
  lemma SessionsShowAsLocks(files: Files, es: seq<Event>, v: ActiveSession)
    requires v in Run(Start(files), es).sessions
    ensures HasLocks(Run(Start(files), es).table, v.name)
  {
    var s := Run(Start(files), es);
    assert SessionOk(s.files, s.table, v);
    assert s.table[FindFile(s.table, v.name)].locks[v.index].locked;
  }

  // ----- a session is private -----

  /** The event starts, commits or cancels the session. */
  predicate Touches(e: Event, v: ActiveSession) {
    match e
    case LockSentence(name, user, index) => v.Is(name, user, index)
    case UnlockSentence(name, user, index) => v.Is(name, user, index)
    case CancelWrite(name, user, index) => v.Is(name, user, index)
    case _ => false
  }

  predicate Untouched(es: seq<Event>, v: ActiveSession) {
    forall e :: e in es ==> !Touches(e, v)
  }

  predicate Writes(e: Event, v: ActiveSession) {
    e.WriteWords? && v.Is(e.name, e.user, e.index)
  }

  /** The writes of the session that were accepted during a run. */
  function Accepted(s: State, es: seq<Event>, v: ActiveSession): seq<Write>
    requires Inv(s)
  {
    if es == [] then [] else
      var front, e := es[..|es| - 1], es[|es| - 1];
      Accepted(s, front, v)
      + (if Writes(e, v) && Step(Run(s, front), e).1 == SUCCESS then [e.write] else [])
  }

  /** While a session is active, no other user gets its lock. */
  lemma OthersAreRefused(s: State, v: ActiveSession, user: string)
    requires Inv(s) && v in s.sessions && user != v.user
    ensures StepLock(s, v.name, user, v.index).1
         == if MayLock(Read(s.files, Main(v.name)), v.index) then ERR_SENTENCE_LOCKED else ERR_INVALID_INDEX
  {
    assert SessionOk(s.files, s.table, v);
    AcquireIs(s.table, v.name, v.index, user, v.name, v.index, user);
  }

  lemma StartKeepsSession(s: State, name: string, user: string, index: nat, v: ActiveSession)
    requires v in s.sessions && v.CopyPath() in s.files && !v.Is(name, user, index)
    ensures var r := StartSession(s, name, user, index);
      r.Some? ==> v in r.value.sessions && v.CopyPath() in r.value.files
                  && r.value.files[v.CopyPath()] == s.files[v.CopyPath()]
  {
    var i := FindSession(s.sessions, name, user, index);
    var j :| 0 <= j < |s.sessions| && s.sessions[j] == v;
    assert i < |s.sessions| ==> s.sessions[i].Is(name, user, index);
    assert j != i;
    var session := ActiveSession(name, user, index, |Parse(Read(s.files, Main(name)))|);
    assert i < |s.sessions| ==> s.sessions[i := session][j] == v;
  }

  lemma LockKeepsSession(s: State, name: string, user: string, index: int, v: ActiveSession)
    requires v in s.sessions && v.CopyPath() in s.files && !v.Is(name, user, index)
    ensures var r := StepLock(s, name, user, index).0;
      v in r.sessions && v.CopyPath() in r.files && r.files[v.CopyPath()] == s.files[v.CopyPath()]
  {
    if MayLock(Read(s.files, Main(name)), index) && index >= 0 {
      StartKeepsSession(s.(table := Acquire(s.table, name, index, user).0), name, user, index, v);
    }
  }

  lemma WriteKeepsSession(s: State, name: string, user: string, index: int, w: Write, v: ActiveSession)
    requires Inv(s) && v in s.sessions
    ensures var (r, status) := StepWrite(s, name, user, index, w);
      && v in r.sessions && v.CopyPath() in r.files
      && v.CopyPath() in s.files && !(s.files[v.CopyPath()] == "" && v.index == 1)
      && (if v.Is(name, user, index) && status == SUCCESS
          then WriteText(s.files[v.CopyPath()], v.index, w) == Some(r.files[v.CopyPath()])
          else r.files[v.CopyPath()] == s.files[v.CopyPath()])
  {
    assert SessionOk(s.files, s.table, v);
    CopyNotEmpty(s, v);
    FoundOnly(s, name, user, index);
    var i := FindSession(s.sessions, name, user, index);
    if i < |s.sessions| {
      SameKey(s, v, s.sessions[i]);
    }
  }

  lemma UnlockKeepsSession(s: State, name: string, user: string, index: int, v: ActiveSession)
    requires Inv(s) && v in s.sessions && v.CopyPath() in s.files && !v.Is(name, user, index)
    ensures var r := StepUnlock(s, name, user, index).0;
      v in r.sessions && v.CopyPath() in r.files && r.files[v.CopyPath()] == s.files[v.CopyPath()]
  {
    var i := FindSession(s.sessions, name, user, index);
    if i < |s.sessions| {
      CommitKeepsInv(s, i);
      CommitKeepsCopy(s, i, v);
    }
  }

  lemma ProcessKeepsCopy(files: Files, e: Entry, p: Path)
    requires p.Copy? && p != e.CopyPath() && p in files
    ensures var r := ProcessQueue(files, e.name, [e]); p in r && r[p] == files[p]
  {
    ProcessSingle(files, e.name, e);
  }

  lemma CommitKeepsCopy(s: State, i: nat, v: ActiveSession)
    requires Inv(s) && i < |s.sessions| && v in s.sessions && v != s.sessions[i] && v.CopyPath() in s.files
    ensures var c := CommitSession(s, i).0;
      v.CopyPath() in c.files && c.files[v.CopyPath()] == s.files[v.CopyPath()]
  {
    SameKey(s, v, s.sessions[i]);
    ProcessKeepsCopy(s.files, s.sessions[i].ToEntry(), v.CopyPath());
  }

  lemma CancelKeepsSession(s: State, name: string, user: string, index: int, v: ActiveSession)
    requires Inv(s) && v in s.sessions && v.CopyPath() in s.files && !v.Is(name, user, index)
    ensures var r := StepCancel(s, name, user, index).0;
      v in r.sessions && v.CopyPath() in r.files && r.files[v.CopyPath()] == s.files[v.CopyPath()]
  {
    var i := FindSession(s.sessions, name, user, index);
    if i < |s.sessions| {
      SameKey(s, v, s.sessions[i]);
      RemoveKeepsOthers(s, i);
    }
  }

  /** A step that does not touch a session leaves it active, and changes its copy only by a write of its own. */
  lemma StepKeepsSession(s: State, e: Event, v: ActiveSession)
    requires Inv(s) && v in s.sessions && !Touches(e, v)
    ensures var (r, status) := Step(s, e);
      && v in r.sessions && v.CopyPath() in r.files && v.CopyPath() in s.files
      && !(s.files[v.CopyPath()] == "" && v.index == 1)
      && (if Writes(e, v) && status == SUCCESS
          then WriteText(s.files[v.CopyPath()], v.index, e.write) == Some(r.files[v.CopyPath()])
          else r.files[v.CopyPath()] == s.files[v.CopyPath()])
  {
    assert SessionOk(s.files, s.table, v);
    CopyNotEmpty(s, v);
    match e
    case LockSentence(name, user, index) => LockKeepsSession(s, name, user, index, v);
    case WriteWords(name, user, index, w) => WriteKeepsSession(s, name, user, index, w, v);
    case UnlockSentence(name, user, index) => UnlockKeepsSession(s, name, user, index, v);
    case CancelWrite(name, user, index) => CancelKeepsSession(s, name, user, index, v);
    case _ =>
  }

  /** Whatever others do, an active session stays active, and its copy is what its own accepted writes made of it. */
  lemma {:induction false} SessionIsPrivate(s: State, es: seq<Event>, v: ActiveSession)
    requires Inv(s) && v in s.sessions && Untouched(es, v)
    ensures v.CopyPath() in s.files && !(s.files[v.CopyPath()] == "" && v.index == 1)
    ensures var r := Run(s, es);
      && v in r.sessions && v.CopyPath() in r.files
      && RunWrites(s.files[v.CopyPath()], v.index, Accepted(s, es, v)) == Some(r.files[v.CopyPath()])
  {
    assert SessionOk(s.files, s.table, v);
    CopyNotEmpty(s, v);
    if es != [] {
      var front := es[..|es| - 1];
      SessionIsPrivate(s, front, v);
      PrivateStep(s.files[v.CopyPath()], Accepted(s, front, v), Run(s, front), es[|es| - 1], v);
    }
  }

  lemma PrivateStep(base: string, before: seq<Write>, r: State, e: Event, v: ActiveSession)
    requires Inv(r) && v in r.sessions && v.CopyPath() in r.files && !Touches(e, v)
    requires !(base == "" && v.index == 1) && RunWrites(base, v.index, before) == Some(r.files[v.CopyPath()])
    ensures var (next, status) := ServerState.Step(r, e);
      var ws := before + (if Writes(e, v) && status == SUCCESS then [e.write] else []);
      && v in next.sessions && v.CopyPath() in next.files
      && RunWrites(base, v.index, ws) == Some(next.files[v.CopyPath()])
  {
    StepKeepsSession(r, e, v);
    if Writes(e, v) && ServerState.Step(r, e).1 == SUCCESS {
      assert (before + [e.write])[..|before|] == before;
    } else {
      assert before + [] == before;
    }
  }

  // ----- from lock to unlock -----

  /** No other user holds the lock. */
  predicate FreeFor(table: seq<FileLocks>, name: string, index: int, user: string) {
    var l := GetLock(table, name, index);
    l.Some? && l.value.locked ==> l.value.holder == user
  }

  /** There is a slot for the session. */
  predicate SessionRoom(s: State, name: string, user: string, index: int) {
    FindSession(s.sessions, name, user, index) < |s.sessions| || |s.sessions| < MAX_SESSIONS
  }

  /** When a lock request is granted. */
  lemma LockGrantedIff(s: State, name: string, user: string, index: int)
    requires Inv(s)
    ensures StepLock(s, name, user, index).1 == SUCCESS <==>
      && MayLock(Read(s.files, Main(name)), index)
      && FreeFor(s.table, name, index, user)
      && SessionRoom(s, name, user, index)
  {
    if MayLock(Read(s.files, Main(name)), index) {
      AcquireIs(s.table, name, index, user, name, index, user);
    }
  }

  /** A granted lock starts a session on a copy of the main file. */
  lemma GrantedLock(s: State, name: string, user: string, index: int)
    requires Inv(s) && StepLock(s, name, user, index).1 == SUCCESS
    ensures index >= 0 && MayLock(Read(s.files, Main(name)), index)
    ensures var main := Read(s.files, Main(name));
      var v, r := ActiveSession(name, user, index, |ViewOf(main)|), StepLock(s, name, user, index).0;
      && v in r.sessions && v.CopyPath() in r.files && r.files[v.CopyPath()] == main
      && r.queues == s.queues
  {
    var main := Read(s.files, Main(name));
    ParseIsCut(main);
    AcquireIs(s.table, name, index, user, name, index, user);
    var s1 := s.(table := Acquire(s.table, name, index, user).0);
    var i := FindSession(s.sessions, name, user, index);
    var v := ActiveSession(name, user, index, |Parse(main)|);
    assert StartSession(s1, name, user, index).Some?;
    assert StepLock(s, name, user, index).0.sessions
        == if i < |s.sessions| then s.sessions[i := v] else s.sessions + [v];
    assert i < |s.sessions| ==> s.sessions[i := v][i] == v;
    assert i == |s.sessions| ==> (s.sessions + [v])[i] == v;
  }

  /** A commit queue is at hand for the file. */
  predicate QueueAtHand(s: State, name: string) {
    name in s.queues || |s.queues| < MAX_FILE_QUEUES
  }

  lemma ActiveIsFound(s: State, v: ActiveSession)
    requires DistinctSessions(s.sessions) && v in s.sessions
    ensures var i := FindSession(s.sessions, v.name, v.user, v.index); i < |s.sessions| && s.sessions[i] == v
  {
    FoundOnly(s, v.name, v.user, v.index);
  }

  /** The commit that an unlock of the session queues. */
  function CommitOf(s: State, v: ActiveSession): (q: Queued)
    requires SessionOk(s.files, s.table, v)
    ensures q.Valid() && q.index == v.index && q.original == v.original
  {
    Queued(v.index, v.original, s.files[v.CopyPath()])
  }

  /** An unlock of an active session succeeds exactly when there is a commit queue for the file. Then it merges the
      session's copy into the main file as it is then, which changes no token but those of the session's sentence
      and adds nothing but blanks, keeps the bytes from before as the undo copy, removes the
      session's copy, and touches nothing else. Without a queue the copy is deleted and the main file stays. */
  lemma UnlockIs(s: State, v: ActiveSession)
    requires Inv(s) && v in s.sessions
    ensures SessionOk(s.files, s.table, v)
    ensures var (r, status) := StepUnlock(s, v.name, v.user, v.index);
      var merged := MergeOne(Read(s.files, Main(v.name)), CommitOf(s, v));
      && (status == SUCCESS <==> QueueAtHand(s, v.name))
      && (if QueueAtHand(s, v.name) then
            && Processed(BackUp(s.files, v.name), r.files, v.name, merged, {v.CopyPath()})
            && Merged(Read(s.files, Main(v.name)), CommitOf(s, v), merged)
            && r.queues == (if v.name in s.queues then s.queues else s.queues + [v.name])
          else status == ERR_SERVER_ERROR && r.files == s.files - {v.CopyPath()} && r.queues == s.queues)
  {
    ActiveIsFound(s, v);
    assert SessionOk(s.files, s.table, v);
    ReleaseIs(s.table, v.name, v.index, v.user, v.name, v.index, v.user);
    if QueueAtHand(s, v.name) {
      MergeIs(Read(s.files, Main(v.name)), CommitOf(s, v));
      ProcessSingle(s.files, v.name, v.ToEntry());
      ProcessOneMerges(BackUp(s.files, v.name), v.name, v.ToEntry());
    }
  }

  /** The main text after the unlock of a session. */
  lemma UnlockReads(s: State, v: ActiveSession)
    requires Inv(s) && v in s.sessions
    ensures SessionOk(s.files, s.table, v)
    ensures var main := Read(s.files, Main(v.name));
      Read(StepUnlock(s, v.name, v.user, v.index).0.files, Main(v.name))
      == if QueueAtHand(s, v.name) then MergeOne(main, CommitOf(s, v)) else main
  {
    UnlockIs(s, v);
  }

  /** Whatever was written behind the last sentence of a file that has sentences is dropped by the unlock. */
  lemma AppendIsDropped(s: State, v: ActiveSession)
    requires Inv(s) && v in s.sessions
    requires v.index == v.original && (v.original > 0 || Read(s.files, Main(v.name)) != "")
    ensures Read(StepUnlock(s, v.name, v.user, v.index).0.files, Main(v.name)) == Read(s.files, Main(v.name))
  {
    UnlockReads(s, v);
    SkippedIff(Read(s.files, Main(v.name)), CommitOf(s, v).copy, v.index, v.original);
  }

  /** The state in which a session begins, and the state after its owner and all others went on. */
  predicate SessionRun(s: State, name: string, user: string, index: int, es: seq<Event>, v: ActiveSession, r: State)
  {
    && Inv(s) && StepLock(s, name, user, index).1 == SUCCESS
    && index >= 0 && v == ActiveSession(name, user, index, |ViewOf(Read(s.files, Main(name)))|)
    && Untouched(es, v)
    && Inv(StepLock(s, name, user, index).0)
    && r == Run(StepLock(s, name, user, index).0, es)
  }

  /** From lock to unlock, with any steps of all users in between: the unlock merges the text that the session's
      accepted writes made of the file as it was at the lock into the file as it is at the unlock, if there is a
      commit queue. */
  lemma SessionEndToEnd(s: State, name: string, user: string, index: int, es: seq<Event>, v: ActiveSession, r: State)
    requires SessionRun(s, name, user, index, es, v, r)
    ensures var base, main := Read(s.files, Main(name)), Read(r.files, Main(name));
      var ws := Accepted(StepLock(s, name, user, index).0, es, v);
      && !(base == "" && index == 1)
      && RunWrites(base, index, ws).Some?
      && Read(StepUnlock(r, name, user, index).0.files, Main(name))
         == if QueueAtHand(r, name) then MergeOne(main, Queued(index, v.original, RunWrites(base, index, ws).value))
            else main
  {
    LockKeepsInv(s, name, user, index);
    GrantedLock(s, name, user, index);
    SessionIsPrivate(StepLock(s, name, user, index).0, es, v);
    UnlockReads(r, v);
  }

  /** If no commit came in between: without a commit queue, or behind the last sentence of a file that has one, all is
      lost. Otherwise the file holds all its old real tokens with every accepted text spliced in, in the order of the
      writes, if and only if the writes stayed inside the session's sentences. */
  lemma UncontendedSession(s: State, name: string, user: string, index: int, es: seq<Event>, v: ActiveSession, r: State)
    requires SessionRun(s, name, user, index, es, v, r)
    requires Read(r.files, Main(name)) == Read(s.files, Main(name))
    ensures index <= |ViewOf(Read(s.files, Main(name)))|
    ensures var base := Read(s.files, Main(name));
      var ws := Accepted(StepLock(s, name, user, index).0, es, v);
      var final := Read(StepUnlock(r, name, user, index).0.files, Main(name));
      && !(base == "" && index == 1)
      && if !QueueAtHand(r, name) || (index == |ViewOf(base)| && base != "") then final == base
         else Real(Tokens(final)) == WithWrites(base, index, ws) <==> AllInside(base, index, ws)
  {
    SessionEndToEnd(s, name, user, index, es, v, r);
    GrantedLock(s, name, user, index);
    var base := Read(s.files, Main(name));
    var ws := Accepted(StepLock(s, name, user, index).0, es, v);
    MayLockIff(base, index);
    if QueueAtHand(r, name) {
      CommitKeepsWritesIff(base, index, ws, RunWrites(base, index, ws).value);
    }
  }

  /** The real tokens of a file with the writes spliced into one sentence; behind the last one, a new sentence. */
  function WithWrites(base: string, index: nat, ws: seq<Write>): seq<Token>
    requires index <= |ViewOf(base)|
  {
    if index == |ViewOf(base)| then Flatten(ViewOf(base)) + Spliced([], ws)
    else Flatten(ViewOf(base)[..index]) + Spliced(ViewOf(base)[index], ws) + Flatten(ViewOf(base)[index + 1..])
  }

  lemma CommitKeepsWritesIff(base: string, index: nat, ws: seq<Write>, temp: string)
    requires index <= |ViewOf(base)| && !(base == "" && index == 1) && RunWrites(base, index, ws) == Some(temp)
    ensures var final := MergeOne(base, Queued(index, |ViewOf(base)|, temp));
      if index == |ViewOf(base)| && base != "" then final == base
      else Real(Tokens(final)) == WithWrites(base, index, ws) <==> AllInside(base, index, ws)
  {
    ParseIsCut(base);
    SkippedIff(base, temp, index, |ViewOf(base)|);
    if index < |ViewOf(base)| {
      var u := MergeText(base, temp, index, |ViewOf(base)|).value;
      SessionCommits(base, index, ws, temp, u);
      CopyHoldsEverything(base, index, ws, temp);
    } else if base == "" {
      SessionOnEmptyFile(ws, temp, MergeText("", temp, 0, 0).value);
      LastIsInside("", 0, ws);
      assert WithWrites("", 0, ws) == Spliced([], ws);
    }
  }

  // ----- what messages leave alone -----

  predicate Kept(files: Files, files': Files, p: Path) {
    (p in files <==> p in files') && (p in files ==> files'[p] == files[p])
  }

  /** A file of another name, or a checkpoint that exists. */
  predicate Spared(files: Files, name: string, p: Path) {
    p.name != name || (p.Checkpoint? && p in files)
  }

  lemma StartSpares(s: State, name: string, user: string, index: nat, p: Path)
    requires Spared(s.files, name, p)
    ensures StartSession(s, name, user, index).Some? ==>
      Kept(s.files, StartSession(s, name, user, index).value.files, p)
  {
  }

  lemma LockSpares(s: State, name: string, user: string, index: int, p: Path)
    requires Spared(s.files, name, p)
    ensures Kept(s.files, StepLock(s, name, user, index).0.files, p)
  {
    if index >= 0 {
      StartSpares(s.(table := Acquire(s.table, name, index, user).0), name, user, index, p);
    }
  }

  lemma WriteSpares(s: State, name: string, user: string, index: int, w: Write, p: Path)
    requires Inv(s) && Spared(s.files, name, p)
    ensures Kept(s.files, StepWrite(s, name, user, index, w).0.files, p)
  {
  }

  lemma UnlockSpares(s: State, name: string, user: string, index: int, p: Path)
    requires Spared(s.files, name, p)
    ensures Kept(s.files, StepUnlock(s, name, user, index).0.files, p)
  {
    var i := FindSession(s.sessions, name, user, index);
    if i < |s.sessions| {
      CommitSpares(s, i, p);
    }
  }

  lemma CommitSpares(s: State, i: nat, p: Path)
    requires i < |s.sessions| && Spared(s.files, s.sessions[i].name, p)
    ensures Kept(s.files, CommitSession(s, i).0.files, p)
  {
    ProcessSingle(s.files, s.sessions[i].name, s.sessions[i].ToEntry());
  }

  lemma CancelSpares(s: State, name: string, user: string, index: int, p: Path)
    requires Spared(s.files, name, p)
    ensures Kept(s.files, StepCancel(s, name, user, index).0.files, p)
  {
  }

  /** A message changes only files that belong to the stored file it names, and no checkpoint that exists. */
  lemma StepIsLocal(s: State, e: Event, p: Path)
    requires Inv(s) && Spared(s.files, e.name, p)
    ensures Kept(s.files, ServerState.Step(s, e).0.files, p)
  {
    match e
    case LockSentence(name, user, index) => LockSpares(s, name, user, index, p);
    case WriteWords(name, user, index, w) => WriteSpares(s, name, user, index, w, p);
    case UnlockSentence(name, user, index) => UnlockSpares(s, name, user, index, p);
    case CancelWrite(name, user, index) => CancelSpares(s, name, user, index, p);
    case _ =>
  }

  /** A checkpoint never changes: not by commits, undos, reverts, deletion of the file or further checkpoints. */
  lemma {:induction false} CheckpointsNeverChange(s: State, es: seq<Event>, name: string, tag: string)
    requires Inv(s) && Checkpoint(name, tag) in s.files
    ensures Checkpoint(name, tag) in Run(s, es).files
    ensures Run(s, es).files[Checkpoint(name, tag)] == s.files[Checkpoint(name, tag)]
  {
    if es != [] {
      var front := es[..|es| - 1];
      CheckpointsNeverChange(s, front, name, tag);
      StepIsLocal(Run(s, front), es[|es| - 1], Checkpoint(name, tag));
    }
  }

  /** A file saved under a tag comes back by a revert to the tag after any run, and an undo takes the revert back. */
  lemma RevertBringsBack(s: State, name: string, tag: string, es: seq<Event>)
    requires Inv(s) && TakeCheckpoint(s.files, name, tag).1 == SUCCESS
    requires Inv(s.(files := TakeCheckpoint(s.files, name, tag).0))
    ensures var r := Run(s.(files := TakeCheckpoint(s.files, name, tag).0), es).files;
      var (reverted, status) := RevertTo(r, name, tag);
      && status == SUCCESS && reverted[Main(name)] == s.files[Main(name)]
      && (Main(name) in r ==> RestoreUndo(reverted, name) == (r - {Undo(name)}, SUCCESS))
  {
    var s1 := s.(files := TakeCheckpoint(s.files, name, tag).0);
    CheckpointsNeverChange(s1, es, name, tag);
    if Main(name) in Run(s1, es).files {
      UndoRestoresRevert(Run(s1, es).files, name, tag);
    }
  }

  /** An undo right after an unlock restores the bytes from before it if the unlock had a commit queue and a main file;
      otherwise nothing was backed up, and the undo brings back an older backup if there is one. */
  lemma UndoTakesUnlockBack(s: State, v: ActiveSession)
    requires Inv(s) && v in s.sessions
    ensures var r, left := StepUnlock(s, v.name, v.user, v.index).0.files, s.files - {v.CopyPath()};
      RestoreUndo(r, v.name)
      == if QueueAtHand(s, v.name) && Main(v.name) in s.files then (left - {Undo(v.name)}, SUCCESS)
         else if Undo(v.name) in s.files then RestoreUndo(left, v.name)
         else (r, ERR_INVALID_OPERATION)
  {
    UnlockIs(s, v);
    var r, left := StepUnlock(s, v.name, v.user, v.index).0.files, s.files - {v.CopyPath()};
    if QueueAtHand(s, v.name) {
      var merged := MergeOne(Read(s.files, Main(v.name)), CommitOf(s, v));
      if Main(v.name) in s.files {
        ProcessedIsRewritten(BackUp(s.files, v.name), r, v.name, merged, {v.CopyPath()});
        UndoOfRewrite(s.files, v.name, merged, {v.CopyPath()});
      } else {
        UndoOfProcessed(s.files, r, v.name, merged, v.CopyPath());
      }
    }
  }

  lemma UndoOfProcessed(files: Files, r: Files, name: string, text: string, copy: Path)
    requires Processed(files, r, name, text, {copy}) && copy.Copy?
    ensures RestoreUndo(r, name)
         == if Undo(name) in files then RestoreUndo(files - {copy}, name) else (r, ERR_INVALID_OPERATION)
  {
    var main, undo := Main(name), Undo(name);
    assert undo in r <==> undo in r - {main};
    assert undo in files <==> undo in files - {main} - {copy};
    if undo in files {
      assert r[undo] == (r - {main})[undo] == files[undo];
      var t := files[undo];
      calc {
        r[main := t] - {undo};
        (r - {main})[main := t] - {undo};
        (files - {main} - {copy})[main := t] - {undo};
        (files - {copy})[main := t] - {undo};
      }
    }
  }

  // ----- locks are on indices, not on sentences -----

  /** Where a session's sentence is taken to be in a file of `count` sentences. */
  function PlaceOf(v: ActiveSession, count: nat): int {
    AdjustedIndex(v.index, count, v.original)
  }

  /** Another user gets a lock on the sentence that an active session is editing if and only if the number of sentences
      has changed since the session began and nobody holds the index that the sentence has now. */
  lemma SecondWriterIff(s: State, v: ActiveSession, user: string, index: int)
    requires Inv(s) && v in s.sessions && v.index < v.original && user != v.user
    ensures var count := |ViewOf(Read(s.files, Main(v.name)))|;
      StepLock(s, v.name, user, index).1 == SUCCESS && index == PlaceOf(v, count)
      <==> && index == PlaceOf(v, count) && index >= 0
           && count != v.original
           && FreeFor(s.table, v.name, index, user)
           && SessionRoom(s, v.name, user, index)
  {
    var count := |ViewOf(Read(s.files, Main(v.name)))|;
    LockGrantedIff(s, v.name, user, index);
    MayLockIff(Read(s.files, Main(v.name)), index);
    NotFreeForOthers(s, v, user);
  }

  lemma NotFreeForOthers(s: State, v: ActiveSession, user: string)
    requires Inv(s) && v in s.sessions && user != v.user
    ensures !FreeFor(s.table, v.name, v.index, user)
  {
    assert SessionOk(s.files, s.table, v);
  }

  /** Then both sessions are active and mean the same sentence, whatever the number of sentences will be. */
  lemma SecondWriterShares(s: State, v: ActiveSession, user: string, index: int)
    requires Inv(s) && v in s.sessions && v.index < v.original && user != v.user
    requires StepLock(s, v.name, user, index).1 == SUCCESS && index == PlaceOf(v, |ViewOf(Read(s.files, Main(v.name)))|)
    ensures index >= 0
    ensures var w := ActiveSession(v.name, user, index, |ViewOf(Read(s.files, Main(v.name)))|);
      var r := StepLock(s, v.name, user, index).0;
      && v in r.sessions && w in r.sessions && v != w
      && forall count: nat :: PlaceOf(v, count) == PlaceOf(w, count)
  {
    GrantedLock(s, v.name, user, index);
    assert SessionOk(s.files, s.table, v);
    LockKeepsSession(s, v.name, user, index, v);
  }

  lemma TwoUnlocks(s: State, v: ActiveSession, w: ActiveSession)
    requires Inv(s) && v in s.sessions && w in s.sessions && v != w && v.name == w.name && QueueAtHand(s, v.name)
    ensures SessionOk(s.files, s.table, v) && SessionOk(s.files, s.table, w)
    ensures var r := StepUnlock(s, v.name, v.user, v.index).0;
      Read(StepUnlock(r, w.name, w.user, w.index).0.files, Main(v.name))
      == MergeOne(MergeOne(Read(s.files, Main(v.name)), CommitOf(s, v)), CommitOf(s, w))
  {
    var r := StepUnlock(s, v.name, v.user, v.index).0;
    assert SessionOk(s.files, s.table, w);
    SameKey(s, v, w);
    UnlockKeepsInv(s, v.name, v.user, v.index);
    UnlockKeepsSession(s, v.name, v.user, v.index, w);
    UnlockIs(s, v);
    UnlockReads(r, w);
  }

  /** Two sessions of one file, unlocked one after the other: the later one overwrites a sentence of the earlier one if
      and only if the distance of their sentences says so, which both locks have fixed. */
  lemma LaterUnlockOverwritesIff(s: State, v: ActiveSession, w: ActiveSession, i: int, j: int)
    requires Inv(s) && v in s.sessions && w in s.sessions && v != w && v.name == w.name && QueueAtHand(s, v.name)
    requires v.index < v.original && w.index < w.original
    requires SessionOk(s.files, s.table, v) && SessionOk(s.files, s.table, w)
    requires var count := |ViewOf(Read(s.files, Main(v.name)))|;
      && i == PlaceOf(v, count) && i >= 0
      && j == PlaceOf(w, count + CommitOf(s, v).Growth()) && j >= 0
    ensures var main, p, q := Read(s.files, Main(v.name)), CommitOf(s, v), CommitOf(s, w);
      var r := StepUnlock(s, v.name, v.user, v.index).0;
      && i < |ViewOf(main)| && j < |MergeView(ViewOf(main), p.Own(), i)|
      && ViewOf(Read(StepUnlock(r, w.name, w.user, w.index).0.files, Main(v.name)))
         == MergeView(MergeView(ViewOf(main), p.Own(), i), q.Own(), j)
      && (Overwrites(p, q, i, j)
          <==> -p.Growth() <= (w.index - w.original) - (v.index - v.original) <= 0)
  {
    var main, p, q := Read(s.files, Main(v.name)), CommitOf(s, v), CommitOf(s, w);
    TwoUnlocks(s, v, w);
    CommitLands(main, p, i);
    OverwritesIff(main, p, q, i, j);
  }
}
