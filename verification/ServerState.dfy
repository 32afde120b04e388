/** The storage server as a state machine: one step for each message it handles, freely interleaved across users. */
module ServerState {
  import opened Options
  import opened Text
  import opened Document
  import opened WriteSession
  import opened Paths
  import opened Storage

  const MAX_SESSIONS := 1000
  const MAX_FILE_QUEUES := 100

  /** One sentence lock; `holder` means something only while it is locked. */
  datatype SentenceLock = SentenceLock(locked: bool, holder: string)

  /** The locks of one file; the table grows and never shrinks. */
  datatype FileLocks = FileLocks(name: string, locks: seq<SentenceLock>)

  datatype ActiveSession = ActiveSession(name: string, user: string, index: nat, original: nat) {
    predicate Is(n: string, u: string, i: int) {
      name == n && user == u && index == i
    }

    function CopyPath(): Path {
      Copy(name, user, index)
    }

    function ToEntry(): Entry {
      Entry(name, user, index, original)
    }
  }

  /** Files, lock table, active write sessions, and the files that have a commit queue. All queues are empty between
      steps. */
  datatype State = State(files: Files, table: seq<FileLocks>, sessions: seq<ActiveSession>, queues: seq<string>)

  datatype Event =
    | LockSentence(name: string, user: string, index: int)
    | WriteWords(name: string, user: string, index: int, write: Write)
    | UnlockSentence(name: string, user: string, index: int)
    | CancelWrite(name: string, user: string, index: int)
    | UndoRequest(name: string)
    | CreateRequest(name: string)
    | DeleteRequest(name: string)
    | CheckpointRequest(name: string, tag: string)
    | RevertRequest(name: string, tag: string)

  // ----- lock table -----

  /** Index of the file's entry, or the length of the table. */
  function FindFile(table: seq<FileLocks>, name: string): (i: nat)
    ensures i <= |table|
    ensures i < |table| ==> table[i].name == name
    ensures forall j :: 0 <= j < i ==> table[j].name != name
  {
    if table == [] || table[0].name == name then 0
    else
      var i := 1 + FindFile(table[1..], name);
      assert forall j :: 1 <= j < i ==> table[j] == table[1..][j - 1];
      i
  }

  function FreeLocks(n: nat): seq<SentenceLock> {
    seq(n, _ => SentenceLock(false, ""))
  }

  /** `init_file_locks`: make sure the file has at least `count` locks, and at least one. */
  function InitLocks(table: seq<FileLocks>, name: string, count: nat): seq<FileLocks> {
    var n := if count == 0 then 1 else count;
    var i := FindFile(table, name);
    if i == |table| then table + [FileLocks(name, FreeLocks(n))]
    else if |table[i].locks| < n then table[i := FileLocks(name, table[i].locks + FreeLocks(n - |table[i].locks|))]
    else table
  }

  /** `get_sentence_lock`. */
  function GetLock(table: seq<FileLocks>, name: string, index: int): Option<SentenceLock> {
    var i := FindFile(table, name);
    if i < |table| && 0 <= index < |table[i].locks| then Some(table[i].locks[index]) else None
  }

  function SetLock(table: seq<FileLocks>, name: string, index: int, l: SentenceLock): seq<FileLocks>
    requires GetLock(table, name, index).Some?
  {
    var i := FindFile(table, name);
    table[i := FileLocks(name, table[i].locks[index := l])]
  }

  predicate HeldBy(table: seq<FileLocks>, name: string, index: int, user: string) {
    var l := GetLock(table, name, index);
    l.Some? && l.value.locked && l.value.holder == user
  }

  /** `lock_sentence_ss` for a valid index. */
  function Acquire(table: seq<FileLocks>, name: string, index: nat, user: string): (seq<FileLocks>, int) {
    var t := InitLocks(table, name, index + 1);
    var l := GetLock(t, name, index);
    if l.None? then (t, ERR_INVALID_INDEX)
    else if l.value.locked && l.value.holder != user then (t, ERR_SENTENCE_LOCKED)
    else (SetLock(t, name, index, SentenceLock(true, user)), SUCCESS)
  }

  /** `unlock_sentence_ss`. */
  function Release(table: seq<FileLocks>, name: string, index: int, user: string): (seq<FileLocks>, int) {
    var l := GetLock(table, name, index);
    if l.None? then (table, ERR_INVALID_INDEX)
    else if !l.value.locked || l.value.holder != user then (table, ERR_ACCESS_DENIED)
    else (SetLock(table, name, index, SentenceLock(false, "")), SUCCESS)
  }

  // ----- write sessions -----

  /** Index of the session, or the number of sessions. */
  function FindSession(sessions: seq<ActiveSession>, name: string, user: string, index: int): (i: nat)
    ensures i <= |sessions|
    ensures i < |sessions| ==> sessions[i].Is(name, user, index)
    ensures forall j :: 0 <= j < i ==> !sessions[j].Is(name, user, index)
  {
    if sessions == [] || sessions[0].Is(name, user, index) then 0
    else
      var i := 1 + FindSession(sessions[1..], name, user, index);
      assert forall j :: 1 <= j < i ==> sessions[j] == sessions[1..][j - 1];
      i
  }

  function RemoveAt<T>(s: seq<T>, i: nat): seq<T>
    requires i < |s|
  {
    s[..i] + s[i + 1..]
  }

  /** `start_write_session_ss`: a new session, or the user's old one restarted, on a copy of the main file. None if the
      session table is full. */
  function StartSession(s: State, name: string, user: string, index: nat): Option<State> {
    var main := Read(s.files, Main(name));
    var session := ActiveSession(name, user, index, |Parse(main)|);
    var i := FindSession(s.sessions, name, user, index);
    var files := s.files[Copy(name, user, index) := main];
    if i < |s.sessions| then Some(s.(sessions := s.sessions[i := session], files := files))
    else if |s.sessions| < MAX_SESSIONS then Some(s.(sessions := s.sessions + [session], files := files))
    else None
  }

  /** The index check of the LOCK handler: an existing sentence, or the one behind the last if that one is closed by a
      delimiter or a newline, or index 0 of an empty file. */
  predicate MayLock(main: string, index: int) {
    var doc := Parse(main);
    if doc == [] then index == 0
    else 0 <= index < |doc| || (index == |doc| && EndsSentence(doc[|doc| - 1]))
  }

  predicate EndsSentence(s: Sentence) {
    s != [] && (IsDelimToken(s[|s| - 1]) || IsNewlineToken(s[|s| - 1]))
  }

  lemma EndsSentenceIff(s: Sentence, t: Token)
    requires s != [] && s[|s| - 1] == t && WellFormed(t)
    ensures EndsSentence(s) <==> KindOf(t[0]) == Delimiter || KindOf(t[0]) == Newline
  {
  }

  lemma LastIsWellFormed(ts: seq<Token>)
    requires ts != [] && AllWellFormed(ts)
    ensures WellFormed(ts[|ts| - 1])
  {
  }

  lemma LastOfFlat(doc: Doc, ts: seq<Token>)
    requires doc != [] && doc[|doc| - 1] != [] && Flatten(doc) == ts
    ensures ts != [] && ts[|ts| - 1] == doc[|doc| - 1][|doc[|doc| - 1]| - 1]
  {
    var front, last := doc[..|doc| - 1], doc[|doc| - 1];
    assert doc == front + [last];
    FlattenLast(front, last);
  }

  /** Which indices may be locked, in terms of the text: those of its sentences, and the one behind them if the text is
      empty or its last character is a delimiter or a newline. */
  lemma MayLockIff(main: string, index: int)
    ensures MayLock(main, index) <==>
      || 0 <= index < |ViewOf(main)|
      || (index == |ViewOf(main)|
          && (main == "" || KindOf(main[|main| - 1]) == Delimiter || KindOf(main[|main| - 1]) == Newline))
  {
    ParseIsCut(main);
    if main != "" {
      TextEnds(main, Parse(main), Tokens(main));
    }
  }

  lemma TextEnds(main: string, doc: Doc, ts: seq<Token>)
    requires main != "" && ts == Tokens(main) && IsCut(doc) && doc != [] && Flatten(doc) == ts
    ensures EndsSentence(doc[|doc| - 1])
       <==> KindOf(main[|main| - 1]) == Delimiter || KindOf(main[|main| - 1]) == Newline
  {
    assert OneSentence(doc[|doc| - 1]);
    LastOfFlat(doc, ts);
    LastTokenShows(main);
    LastIsWellFormed(ts);
    EndsSentenceIff(doc[|doc| - 1], ts[|ts| - 1]);
  }

  // ----- steps -----

  function StepLock(s: State, name: string, user: string, index: int): (State, int) {
    if !MayLock(Read(s.files, Main(name)), index) || index < 0 then (s, ERR_INVALID_INDEX) else
      var (t, status) := Acquire(s.table, name, index, user);
      if status != SUCCESS then (s.(table := t), status) else
        match StartSession(s.(table := t), name, user, index)
        case Some(r) => (r, SUCCESS)
        case None => (s.(table := Release(t, name, index, user).0), ERR_SERVER_ERROR)
  }

  function StepWrite(s: State, name: string, user: string, index: int, w: Write): (State, int)
    requires Inv(s)
  {
    var i := FindSession(s.sessions, name, user, index);
    if i == |s.sessions| then (s, ERR_INVALID_OPERATION) else
      var p := s.sessions[i].CopyPath();
      assert SessionOk(s.files, s.table, s.sessions[i]);
      CopyNotEmpty(s, s.sessions[i]);
      match WriteText(s.files[p], s.sessions[i].index, w)
      case None => (s, ERR_INVALID_INDEX)
      case Some(u) => (s.(files := s.files[p := u]), SUCCESS)
  }

  /** `commit_write_session_ss`: queue the commit, drop the session and process the queue. */
  function CommitSession(s: State, i: nat): (State, int)
    requires i < |s.sessions|
  {
    var session := s.sessions[i];
    var left := RemoveAt(s.sessions, i);
    if session.name in s.queues || |s.queues| < MAX_FILE_QUEUES then
      (s.(files := ProcessQueue(s.files, session.name, [session.ToEntry()]),
          sessions := left,
          queues := if session.name in s.queues then s.queues else s.queues + [session.name]), SUCCESS)
    else (s.(files := s.files - {session.CopyPath()}, sessions := left), ERR_SERVER_ERROR)
  }

  function StepUnlock(s: State, name: string, user: string, index: int): (State, int) {
    var i := FindSession(s.sessions, name, user, index);
    var (c, commitStatus) := if i < |s.sessions| then CommitSession(s, i) else (s, SUCCESS);
    var (t, status) := Release(c.table, name, index, user);
    (c.(table := t), if commitStatus == SUCCESS then status else commitStatus)
  }

  function StepCancel(s: State, name: string, user: string, index: int): (State, int) {
    var i := FindSession(s.sessions, name, user, index);
    var c := if i < |s.sessions|
             then s.(sessions := RemoveAt(s.sessions, i), files := s.files - {s.sessions[i].CopyPath()}) else s;
    var (t, status) := Release(c.table, name, index, user);
    (c.(table := t), status)
  }

  function OnFiles(s: State, r: (Files, int)): (State, int) {
    (s.(files := r.0), r.1)
  }

  function StepCreate(s: State, name: string): (State, int) {
    var (files, status) := CreateFile(s.files, name);
    (s.(files := files, table := if status == SUCCESS then InitLocks(s.table, name, 1) else s.table), status)
  }

  function Step(s: State, e: Event): (State, int)
    requires Inv(s)
  {
    match e
    case LockSentence(name, user, index) => StepLock(s, name, user, index)
    case WriteWords(name, user, index, w) => StepWrite(s, name, user, index, w)
    case UnlockSentence(name, user, index) => StepUnlock(s, name, user, index)
    case CancelWrite(name, user, index) => StepCancel(s, name, user, index)
    case UndoRequest(name) => OnFiles(s, RestoreUndo(s.files, name))
    case CreateRequest(name) => StepCreate(s, name)
    case DeleteRequest(name) => OnFiles(s, DeleteFile(s.files, name))
    case CheckpointRequest(name, tag) => OnFiles(s, TakeCheckpoint(s.files, name, tag))
    case RevertRequest(name, tag) => OnFiles(s, RevertTo(s.files, name, tag))
  }

  // ----- the invariant -----

  /** A session's lock is held by its user; its copy exists and has at least as many sentences as the original. */
  predicate SessionOk(files: Files, table: seq<FileLocks>, w: ActiveSession) {
    && HeldBy(table, w.name, w.index, w.user)
    && w.index <= w.original
    && w.CopyPath() in files && |ViewOf(files[w.CopyPath()])| >= w.original
  }

  predicate DistinctSessions(sessions: seq<ActiveSession>) {
    forall i, j :: 0 <= i < j < |sessions| ==> sessions[i].CopyPath() != sessions[j].CopyPath()
  }

  predicate DistinctFiles(table: seq<FileLocks>) {
    forall i, j :: 0 <= i < j < |table| ==> table[i].name != table[j].name
  }

  predicate SessionsOk(files: Files, table: seq<FileLocks>, sessions: seq<ActiveSession>) {
    forall w :: w in sessions ==> SessionOk(files, table, w)
  }

  predicate Inv(s: State) {
    DistinctFiles(s.table) && DistinctSessions(s.sessions) && SessionsOk(s.files, s.table, s.sessions)
  }

  lemma CopyNotEmpty(s: State, w: ActiveSession)
    requires SessionOk(s.files, s.table, w)
    ensures !(s.files[w.CopyPath()] == "" && w.index == 1)
  {
  }

  // ----- the lock table -----

  lemma EntryReplaced(table: seq<FileLocks>, i: nat, locks: seq<SentenceLock>, n: string)
    requires i < |table|
    ensures FindFile(table[i := FileLocks(table[i].name, locks)], n) == FindFile(table, n)
  {
    var t := table[i := FileLocks(table[i].name, locks)];
    assert forall j :: 0 <= j < |table| ==> t[j].name == table[j].name;
  }

  lemma EntryAdded(table: seq<FileLocks>, entry: FileLocks, n: string)
    ensures var i := FindFile(table, n);
      FindFile(table + [entry], n) == if i < |table| || entry.name == n then i else |table| + 1
  {
    var t := table + [entry];
    assert forall j :: 0 <= j < |table| ==> t[j] == table[j];
    assert t[|table|] == entry;
  }

  predicate LocksKept(table: seq<FileLocks>, t: seq<FileLocks>, n: string, i: int) {
    && (GetLock(table, n, i).Some? ==> GetLock(t, n, i) == GetLock(table, n, i))
    && (GetLock(table, n, i).None? && GetLock(t, n, i).Some? ==> GetLock(t, n, i) == Some(SentenceLock(false, "")))
  }

  lemma AddedKeepsLocks(table: seq<FileLocks>, entry: FileLocks, n: string, i: int, c: nat)
    requires FindFile(table, entry.name) == |table| && entry.locks == FreeLocks(c)
    ensures LocksKept(table, table + [entry], n, i)
    ensures n == entry.name && 0 <= i < c ==> GetLock(table + [entry], n, i).Some?
  {
    EntryAdded(table, entry, n);
  }

  lemma GrownKeepsLocks(table: seq<FileLocks>, f: nat, more: nat, n: string, i: int)
    requires f < |table|
    requires n == table[f].name ==> f == FindFile(table, n)
    ensures var t := table[f := FileLocks(table[f].name, table[f].locks + FreeLocks(more))];
      && LocksKept(table, t, n, i)
      && (n == table[f].name && 0 <= i < |table[f].locks| + more ==> GetLock(t, n, i).Some?)
  {
    EntryReplaced(table, f, table[f].locks + FreeLocks(more), n);
  }

  /** Growing the table keeps every lock, held or free, and makes room for `count` locks of the file. */
  lemma InitKeepsLocks(table: seq<FileLocks>, name: string, count: nat, n: string, i: int)
    ensures LocksKept(table, InitLocks(table, name, count), n, i)
    ensures n == name && 0 <= i < count ==> GetLock(InitLocks(table, name, count), n, i).Some?
  {
    var c := if count == 0 then 1 else count;
    var f := FindFile(table, name);
    if f == |table| {
      AddedKeepsLocks(table, FileLocks(name, FreeLocks(c)), n, i, c);
    } else if |table[f].locks| < c {
      GrownKeepsLocks(table, f, c - |table[f].locks|, n, i);
    }
  }

  lemma InitKeepsFiles(table: seq<FileLocks>, name: string, count: nat)
    requires DistinctFiles(table)
    ensures DistinctFiles(InitLocks(table, name, count))
  {
  }

  lemma SetChangesOneLock(table: seq<FileLocks>, name: string, index: int, l: SentenceLock, n: string, i: int)
    requires GetLock(table, name, index).Some?
    ensures DistinctFiles(table) ==> DistinctFiles(SetLock(table, name, index, l))
    ensures GetLock(SetLock(table, name, index, l), n, i)
         == if n == name && i == index then Some(l) else GetLock(table, n, i)
  {
    var f := FindFile(table, name);
    EntryReplaced(table, f, table[f].locks[index := l], n);
  }

  /** A lock attempt succeeds unless another user holds the lock, and leaves all other holders alone. */
  lemma AcquireIs(table: seq<FileLocks>, name: string, index: nat, user: string, n: string, i: int, v: string)
    ensures var (t, status) := Acquire(table, name, index, user); var l := GetLock(table, name, index);
      && (DistinctFiles(table) ==> DistinctFiles(t))
      && status == (if l.Some? && l.value.locked && l.value.holder != user then ERR_SENTENCE_LOCKED else SUCCESS)
      && (HeldBy(t, n, i, v) <==>
            HeldBy(table, n, i, v) || (status == SUCCESS && n == name && i == index && v == user))
  {
    if DistinctFiles(table) {
      InitKeepsFiles(table, name, index + 1);
    }
    InitKeepsLocks(table, name, index + 1, n, i);
    InitKeepsLocks(table, name, index + 1, name, index);
    var t := InitLocks(table, name, index + 1);
    SetChangesOneLock(t, name, index, SentenceLock(true, user), n, i);
  }

  /** Only the holder can release a lock, and that releases no other lock. */
  lemma ReleaseIs(table: seq<FileLocks>, name: string, index: int, user: string, n: string, i: int, v: string)
    ensures var (t, status) := Release(table, name, index, user);
      && (DistinctFiles(table) ==> DistinctFiles(t))
      && (status == SUCCESS <==> HeldBy(table, name, index, user))
      && (HeldBy(t, n, i, v) <==> HeldBy(table, n, i, v) && !(n == name && i == index && v == user))
  {
    if HeldBy(table, name, index, user) {
      SetChangesOneLock(table, name, index, SentenceLock(false, ""), n, i);
    }
  }

  // ----- every step keeps the invariant -----

  /** The sessions that a step leaves alone stay as they are if their locks and copies do. */
  predicate Undisturbed(files: Files, table: seq<FileLocks>, files': Files, table': seq<FileLocks>, w: ActiveSession) {
    && (HeldBy(table, w.name, w.index, w.user) ==> HeldBy(table', w.name, w.index, w.user))
    && (w.CopyPath() in files ==> w.CopyPath() in files' && files'[w.CopyPath()] == files[w.CopyPath()])
  }

  predicate AllUndisturbed(s: State, files': Files, table': seq<FileLocks>, sessions: seq<ActiveSession>) {
    forall w :: w in sessions ==> w in s.sessions && Undisturbed(s.files, s.table, files', table', w)
  }

  lemma UndisturbedOk(s: State, files': Files, table': seq<FileLocks>, sessions: seq<ActiveSession>)
    requires SessionsOk(s.files, s.table, s.sessions) && AllUndisturbed(s, files', table', sessions)
    ensures SessionsOk(files', table', sessions)
  {
    forall w | w in sessions
      ensures SessionOk(files', table', w)
    {
      assert Undisturbed(s.files, s.table, files', table', w) && SessionOk(s.files, s.table, w);
    }
  }

  lemma SameKey(s: State, v: ActiveSession, w: ActiveSession)
    requires DistinctSessions(s.sessions) && v in s.sessions && w in s.sessions
    ensures v.CopyPath() == w.CopyPath() <==> v == w
  {
    var i :| 0 <= i < |s.sessions| && s.sessions[i] == v;
    var j :| 0 <= j < |s.sessions| && s.sessions[j] == w;
  }

  lemma RemoveKeepsOthers(s: State, i: nat)
    requires DistinctSessions(s.sessions) && i < |s.sessions|
    ensures var left := RemoveAt(s.sessions, i);
      && DistinctSessions(left)
      && |left| == |s.sessions| - 1
      && (forall x :: 0 <= x < |left| ==> left[x] == s.sessions[if x < i then x else x + 1])
      && (forall w :: w in left <==> w in s.sessions && w != s.sessions[i])
  {
    var left := RemoveAt(s.sessions, i);
    forall x | 0 <= x < |left|
      ensures left[x] == s.sessions[if x < i then x else x + 1]
    {
    }
    forall w | w in s.sessions && w != s.sessions[i]
      ensures w in left
    {
      var j :| 0 <= j < |s.sessions| && s.sessions[j] == w;
      assert left[if j < i then j else j - 1] == w;
    }
  }

  lemma LockKeepsInv(s: State, name: string, user: string, index: int)
    requires Inv(s)
    ensures Inv(StepLock(s, name, user, index).0)
  {
    var main := Read(s.files, Main(name));
    if MayLock(main, index) && index >= 0 {
      var (t, status) := Acquire(s.table, name, index, user);
      var s1 := s.(table := t);
      AcquireKeepsInv(s, name, user, index);
      if status == SUCCESS {
        AcquireIs(s.table, name, index, user, name, index, user);
        StartKeepsInv(s1, name, user, index);
        if StartSession(s1, name, user, index).None? {
          ReleaseKeepsInv(s1, name, user, index);
        }
      }
    }
  }

  lemma AcquireKeepsInv(s: State, name: string, user: string, index: nat)
    requires Inv(s)
    ensures Inv(s.(table := Acquire(s.table, name, index, user).0))
  {
    var t := Acquire(s.table, name, index, user).0;
    AcquireIs(s.table, name, index, user, name, index, user);
    forall w | w in s.sessions
      ensures Undisturbed(s.files, s.table, s.files, t, w)
    {
      AcquireIs(s.table, name, index, user, w.name, w.index, w.user);
    }
    UndisturbedOk(s, s.files, t, s.sessions);
  }

  /** Releasing a lock that no session needs. */
  lemma ReleaseKeepsInv(s: State, name: string, user: string, index: int)
    requires Inv(s) && forall w :: w in s.sessions ==> !w.Is(name, user, index)
    ensures Inv(s.(table := Release(s.table, name, index, user).0))
  {
    var t := Release(s.table, name, index, user).0;
    ReleaseIs(s.table, name, index, user, name, index, user);
    forall w | w in s.sessions
      ensures Undisturbed(s.files, s.table, s.files, t, w)
    {
      ReleaseIs(s.table, name, index, user, w.name, w.index, w.user);
    }
    UndisturbedOk(s, s.files, t, s.sessions);
  }

  lemma StartKeepsInv(s: State, name: string, user: string, index: nat)
    requires Inv(s) && MayLock(Read(s.files, Main(name)), index) && HeldBy(s.table, name, index, user)
    ensures var r := StartSession(s, name, user, index);
      if r.Some? then Inv(r.value) else forall w :: w in s.sessions ==> !w.Is(name, user, index)
  {
    var r := StartSession(s, name, user, index);
    if r.Some? {
      StartedOk(s, name, user, index, r.value);
    }
  }

  lemma StartedOk(s: State, name: string, user: string, index: nat, r: State)
    requires Inv(s) && MayLock(Read(s.files, Main(name)), index) && HeldBy(s.table, name, index, user)
    requires StartSession(s, name, user, index) == Some(r)
    ensures Inv(r)
  {
    var main := Read(s.files, Main(name));
    var session := ActiveSession(name, user, index, |Parse(main)|);
    ParseIsCut(main);
    forall w | w in r.sessions
      ensures SessionOk(r.files, r.table, w)
    {
      if w != session {
        assert w in s.sessions && SessionOk(s.files, s.table, w);
        assert w.CopyPath() != session.CopyPath();
      }
    }
  }

  lemma WriteKeepsInv(s: State, name: string, user: string, index: int, w: Write)
    requires Inv(s)
    ensures Inv(StepWrite(s, name, user, index, w).0)
  {
    var i := FindSession(s.sessions, name, user, index);
    if i < |s.sessions| {
      var session := s.sessions[i];
      assert SessionOk(s.files, s.table, session);
      CopyNotEmpty(s, session);
      var r := WriteText(s.files[session.CopyPath()], session.index, w);
      if r.Some? {
        WrittenOk(s, session, w, r.value);
      }
    }
  }

  lemma WrittenOk(s: State, session: ActiveSession, w: Write, u: string)
    requires Inv(s) && session in s.sessions && session.CopyPath() in s.files
    requires !(s.files[session.CopyPath()] == "" && session.index == 1)
    requires WriteText(s.files[session.CopyPath()], session.index, w) == Some(u)
    ensures Inv(s.(files := s.files[session.CopyPath() := u]))
  {
    var files := s.files[session.CopyPath() := u];
    WriteGrows(s.files[session.CopyPath()], session.index, w, u);
    forall v | v in s.sessions
      ensures SessionOk(files, s.table, v)
    {
      SameKey(s, session, v);
      assert SessionOk(s.files, s.table, v);
    }
  }

  /** Processing the queue of one commit. */
  lemma ProcessSingle(files: Files, name: string, e: Entry)
    ensures ProcessQueue(files, name, [e]) == ProcessOne(BackUp(files, name), name, e)
  {
    assert [e][1..] == [];
    assert ProcessEach(ProcessOne(BackUp(files, name), name, e), name, [])
        == ProcessOne(BackUp(files, name), name, e);
  }

  lemma CommitSpares(s: State, i: nat, w: ActiveSession)
    requires Inv(s) && i < |s.sessions| && w in s.sessions && w != s.sessions[i]
    ensures Undisturbed(s.files, s.table, CommitSession(s, i).0.files, s.table, w)
  {
    var session := s.sessions[i];
    ProcessSingle(s.files, session.name, session.ToEntry());
    SameKey(s, session, w);
  }

  /** A commit removes the session and its copy, and touches no other session's copy. */
  lemma CommitKeepsInv(s: State, i: nat)
    requires Inv(s) && i < |s.sessions|
    ensures var c := CommitSession(s, i).0;
      && Inv(c) && c.table == s.table
      && (forall w :: w in c.sessions <==> w in s.sessions && w != s.sessions[i])
  {
    var c := CommitSession(s, i).0;
    RemoveKeepsOthers(s, i);
    forall w | w in c.sessions
      ensures Undisturbed(s.files, s.table, c.files, s.table, w)
    {
      CommitSpares(s, i, w);
    }
    UndisturbedOk(s, c.files, s.table, c.sessions);
  }

  lemma DropKeepsInv(s: State, i: nat)
    requires Inv(s) && i < |s.sessions|
    ensures var c := s.(sessions := RemoveAt(s.sessions, i), files := s.files - {s.sessions[i].CopyPath()});
      && Inv(c)
      && (forall w :: w in c.sessions <==> w in s.sessions && w != s.sessions[i])
  {
    var c := s.(sessions := RemoveAt(s.sessions, i), files := s.files - {s.sessions[i].CopyPath()});
    RemoveKeepsOthers(s, i);
    forall w | w in c.sessions
      ensures Undisturbed(s.files, s.table, c.files, s.table, w)
    {
      SameKey(s, s.sessions[i], w);
    }
    UndisturbedOk(s, c.files, s.table, c.sessions);
  }

  lemma FoundOnly(s: State, name: string, user: string, index: int)
    requires DistinctSessions(s.sessions)
    ensures var i := FindSession(s.sessions, name, user, index);
      forall w :: w in s.sessions && w.Is(name, user, index) ==> i < |s.sessions| && w == s.sessions[i]
  {
    var i := FindSession(s.sessions, name, user, index);
    forall w | w in s.sessions && w.Is(name, user, index)
      ensures i < |s.sessions| && w == s.sessions[i]
    {
      SameKey(s, w, s.sessions[i]);
    }
  }

  lemma UnlockKeepsInv(s: State, name: string, user: string, index: int)
    requires Inv(s)
    ensures Inv(StepUnlock(s, name, user, index).0)
  {
    var i := FindSession(s.sessions, name, user, index);
    FoundOnly(s, name, user, index);
    if i < |s.sessions| {
      CommitKeepsInv(s, i);
      ReleaseKeepsInv(CommitSession(s, i).0, name, user, index);
    } else {
      ReleaseKeepsInv(s, name, user, index);
    }
  }

  lemma CancelKeepsInv(s: State, name: string, user: string, index: int)
    requires Inv(s)
    ensures Inv(StepCancel(s, name, user, index).0)
  {
    var i := FindSession(s.sessions, name, user, index);
    FoundOnly(s, name, user, index);
    if i < |s.sessions| {
      DropKeepsInv(s, i);
      ReleaseKeepsInv(s.(sessions := RemoveAt(s.sessions, i), files := s.files - {s.sessions[i].CopyPath()}),
                      name, user, index);
    } else {
      ReleaseKeepsInv(s, name, user, index);
    }
  }

  lemma CreateKeepsInv(s: State, name: string)
    requires Inv(s)
    ensures Inv(StepCreate(s, name).0)
  {
    var r := StepCreate(s, name).0;
    InitKeepsFiles(s.table, name, 1);
    forall w | w in s.sessions
      ensures Undisturbed(s.files, s.table, r.files, r.table, w)
    {
      InitKeepsLocks(s.table, name, 1, w.name, w.index);
    }
    UndisturbedOk(s, r.files, r.table, s.sessions);
  }

  /** Steps of the name server touch no copy and no lock. */
  lemma FilesKeepInv(s: State, files: Files)
    requires Inv(s) && forall p: Path :: p.Copy? && p in s.files ==> p in files && files[p] == s.files[p]
    ensures Inv(s.(files := files))
  {
    forall w | w in s.sessions
      ensures Undisturbed(s.files, s.table, files, s.table, w)
    {
    }
    UndisturbedOk(s, files, s.table, s.sessions);
  }

  /** Every step keeps every session's lock held by its user, the session keys distinct, and every copy present with at
      least as many sentences as the session began with. */
  lemma StepKeepsInv(s: State, e: Event)
    requires Inv(s)
    ensures Inv(Step(s, e).0)
  {
    match e
    case LockSentence(name, user, index) => LockKeepsInv(s, name, user, index);
    case WriteWords(name, user, index, w) => WriteKeepsInv(s, name, user, index, w);
    case UnlockSentence(name, user, index) => UnlockKeepsInv(s, name, user, index);
    case CancelWrite(name, user, index) => CancelKeepsInv(s, name, user, index);
    case UndoRequest(name) => FilesKeepInv(s, RestoreUndo(s.files, name).0);
    case CreateRequest(name) => CreateKeepsInv(s, name);
    case DeleteRequest(name) => FilesKeepInv(s, DeleteFile(s.files, name).0);
    case CheckpointRequest(name, tag) => FilesKeepInv(s, TakeCheckpoint(s.files, name, tag).0);
    case RevertRequest(name, tag) => FilesKeepInv(s, RevertTo(s.files, name, tag).0);
  }
}
