/** The storage server's handlers over its tables: each changes the state exactly as `ServerState.Step` says. */
module StorageServer {
  import opened Options
  import opened Arrays
  import opened Text
  import opened Document
  import opened Insert
  import opened WriteSession
  import opened Tokeniser
  import opened FileOps
  import opened Paths
  import opened Storage
  import opened ServerState
  import opened CommitQueues
  import ServerRuns

  function Names(queues: seq<CommitQueue>): seq<string> {
    seq(|queues|, i requires 0 <= i < |queues| => queues[i].name)
  }

  class StorageServer {
    var files: Files
    var table: seq<FileLocks>
    const sessions: array<ActiveSession>
    var sessionCount: nat
    var queues: seq<CommitQueue>

    /** The tables are within their bounds and no commit is waiting. */
    ghost predicate Valid()
      reads this, queues
    {
      && sessionCount <= sessions.Length == MAX_SESSIONS
      && |queues| <= MAX_FILE_QUEUES
      && (forall i :: 0 <= i < |queues| ==> queues[i].Resting())
    }

    ghost function Now(): State
      requires sessionCount <= sessions.Length
      reads this, sessions
    {
      State(files, table, sessions[..sessionCount], Names(queues))
    }

    constructor (stored: Files)
      ensures Valid() && Now() == State(stored, [], [], [])
    {
      files, table, sessionCount, queues := stored, [], 0, [];
      sessions := new ActiveSession[MAX_SESSIONS](_ => ActiveSession("", "", 0, 0));
    }

    // ----- the lock table -----

    method FindLocks(name: string) returns (i: nat)
      ensures i == FindFile(table, name)
    {
      i := 0;
      while i < |table| && table[i].name != name
        invariant i <= |table| && forall j :: 0 <= j < i ==> table[j].name != name
      {
        i := i + 1;
      }
    }

    /** `init_file_locks`: new locks are free; the ones that are there stay as they are. */
    method InitFileLocks(name: string, count: nat)
      modifies this`table
      ensures table == InitLocks(old(table), name, count)
    {
      var n := if count == 0 then 1 else count;
      var i := FindLocks(name);
      if i < |table| {
        if |table[i].locks| < n {
          var locks := MoreLocks(table[i].locks, n);
          table := table[i := FileLocks(name, locks)];
        }
      } else {
        var locks := MoreLocks([], n);
        assert locks == FreeLocks(n);
        table := table + [FileLocks(name, locks)];
      }
    }

    /** `get_sentence_lock`. */
    method FindLock(name: string, index: int) returns (l: Option<SentenceLock>)
      ensures l == GetLock(table, name, index)
    {
      var i := FindLocks(name);
      l := if i < |table| && 0 <= index < |table[i].locks| then Some(table[i].locks[index]) else None;
    }

    method StoreLock(name: string, index: int, l: SentenceLock)
      requires GetLock(table, name, index).Some?
      modifies this`table
      ensures table == SetLock(old(table), name, index, l)
    {
      var i := FindLocks(name);
      table := table[i := FileLocks(name, table[i].locks[index := l])];
    }

    /** `lock_sentence_ss`. */
    method LockSentence(name: string, index: nat, user: string) returns (status: int)
      modifies this`table
      ensures (table, status) == Acquire(old(table), name, index, user)
    {
      InitFileLocks(name, index + 1);
      var l := FindLock(name, index);
      if l.None? {
        return ERR_INVALID_INDEX;
      }
      if l.value.locked && l.value.holder != user {
        return ERR_SENTENCE_LOCKED;
      }
      StoreLock(name, index, SentenceLock(true, user));
      status := SUCCESS;
    }

    /** `unlock_sentence_ss`. */
    method UnlockSentence(name: string, index: int, user: string) returns (status: int)
      modifies this`table
      ensures (table, status) == Release(old(table), name, index, user)
    {
      var l := FindLock(name, index);
      if l.None? {
        return ERR_INVALID_INDEX;
      }
      if !l.value.locked || l.value.holder != user {
        return ERR_ACCESS_DENIED;
      }
      StoreLock(name, index, SentenceLock(false, ""));
      status := SUCCESS;
    }

    /** `check_file_locks`. */
    method CheckFileLocks(name: string) returns (b: bool)
      ensures b == ServerRuns.HasLocks(table, name)
    {
      var i := FindLocks(name);
      if i == |table| {
        return false;
      }
      var j := 0;
      while j < |table[i].locks|
        invariant 0 <= j <= |table[i].locks| && forall x :: 0 <= x < j ==> !table[i].locks[x].locked
      {
        if table[i].locks[j].locked {
          return true;
        }
        j := j + 1;
      }
      b := false;
    }

    // ----- the session table -----

    /** `get_write_session`: the slot of a session, or the number of sessions. */
    method FindSlot(name: string, user: string, index: int) returns (i: nat)
      requires Valid()
      ensures i == FindSession(Now().sessions, name, user, index) <= sessionCount
    {
      i := 0;
      while i < sessionCount && !sessions[i].Is(name, user, index)
        invariant i <= sessionCount && forall j :: 0 <= j < i ==> !sessions[j].Is(name, user, index)
      {
        i := i + 1;
      }
    }

    /** Close the gap that session `i` leaves: all later ones move down by one. */
    method CompactFrom(i: nat)
      requires Valid() && i < sessionCount
      modifies this`sessionCount, sessions
      ensures Valid() && sessionCount == old(sessionCount) - 1
      ensures sessions[..sessionCount] == RemoveAt(old(sessions[..sessionCount]), i)
    {
      ShiftDown(sessions, i, sessionCount);
      sessionCount := sessionCount - 1;
    }

    /** `start_write_session_ss`. */
    method StartWriteSession(name: string, user: string, index: nat) returns (status: int)
      requires Valid()
      modifies this`files, this`sessionCount, sessions
      ensures Valid()
      ensures var r := StartSession(old(Now()), name, user, index);
        if r.Some? then status == SUCCESS && Now() == r.value else status == ERR_SERVER_ERROR && Now() == old(Now())
    {
      var main := if Main(name) in files then files[Main(name)] else "";
      var fc := new FileContent();
      fc.ParseFile(main);
      var session := ActiveSession(name, user, index, fc.sentenceCount);
      var i := FindSlot(name, user, index);
      ghost var before := Now().sessions;
      if i == sessionCount {
        if sessionCount >= MAX_SESSIONS {
          return ERR_SERVER_ERROR;
        }
        sessionCount := sessionCount + 1;
      }
      sessions[i] := session;
      assert sessions[..sessionCount] == if i < |before| then before[i := session] else before + [session];
      files := files[Copy(name, user, index) := main];
      status := SUCCESS;
    }

    // ----- the handlers -----

    /** The index check of the LOCK handler. */
    method IndexIsValid(name: string, index: int) returns (b: bool)
      ensures b == MayLock(Read(files, Main(name)), index)
    {
      var fc := new FileContent();
      fc.ParseFile(if Main(name) in files then files[Main(name)] else "");
      ghost var doc := fc.Document();
      var count := fc.sentenceCount;
      if count == 0 {
        return index == 0;
      }
      if index < 0 || index > count {
        return false;
      }
      if index < count {
        return true;
      }
      var last := fc.sentences[count - 1];
      assert last.Content() == doc[count - 1];
      if last.wordCount == 0 {
        return false;
      }
      var word := last.words[last.wordCount - 1];
      b := IsDelimToken(word) || IsNewlineToken(word);
    }

    method HandleLock(name: string, user: string, index: int) returns (status: int)
      requires Valid() && Inv(Now())
      modifies this`files, this`table, this`sessionCount, sessions
      ensures Valid() && (Now(), status) == Step(old(Now()), Event.LockSentence(name, user, index))
    {
      var valid := IndexIsValid(name, index);
      if !valid || index < 0 {
        return ERR_INVALID_INDEX;
      }
      status := LockSentence(name, index, user);
      if status == SUCCESS {
        var sessionStatus := StartWriteSession(name, user, index);
        if sessionStatus != SUCCESS {
          var _ := UnlockSentence(name, index, user);
          status := sessionStatus;
        }
      }
    }

    /** `write_file_ss`: parse the session's copy, insert the words, print it back. */
    method HandleWrite(name: string, user: string, index: int, w: Write) returns (status: int)
      requires Valid() && Inv(Now()) && RunsFit(w.content, Letter)
      modifies this`files
      ensures Valid() && (Now(), status) == Step(old(Now()), WriteWords(name, user, index, w))
    {
      var i := FindSlot(name, user, index);
      if i == sessionCount {
        return ERR_INVALID_OPERATION;
      }
      ghost var session := Now().sessions[i];
      assert SessionOk(files, table, session);
      CopyNotEmpty(Now(), session);
      var path := sessions[i].CopyPath();
      var r := EditText(files[path], sessions[i].index, w);
      if r.None? {
        return ERR_INVALID_INDEX;
      }
      files := files[path := r.value];
      status := SUCCESS;
    }

    /** `get_commit_queue`: the file's queue, made if there is none and there is room for one. */
    method GetCommitQueue(name: string) returns (q: CommitQueue?)
      requires Valid()
      modifies this`queues
      ensures Valid()
      ensures q == null <==> old(!ServerRuns.QueueAtHand(Now(), name))
      ensures q != null ==> q in queues && q.name == name
      ensures old(queues) <= queues && forall x :: x in queues ==> x in old(queues) || fresh(x)
      ensures Names(queues) == if q == null || name in Names(old(queues)) then Names(old(queues))
                               else Names(old(queues)) + [name]
    {
      var i := 0;
      while i < |queues| && queues[i].name != name
        invariant i <= |queues| && forall j :: 0 <= j < i ==> queues[j].name != name
      {
        i := i + 1;
      }
      if i < |queues| {
        assert Names(queues)[i] == name;
        return queues[i];
      }
      assert name !in Names(queues);
      if |queues| >= MAX_FILE_QUEUES {
        return null;
      }
      q := new CommitQueue(name);
      queues := queues + [q];
    }

    /** Queue one commit and process the queue, if there is a queue. */
    method QueueCommit(e: Entry) returns (queued: bool)
      requires Valid() && AdmissibleOne(files, e)
      modifies this`files, this`queues, queues
      ensures Valid() && queued == old(ServerRuns.QueueAtHand(Now(), e.name))
      ensures files == if queued then ProcessQueue(old(files), e.name, [e]) else old(files)
      ensures Names(queues) == if !queued || e.name in Names(old(queues)) then Names(old(queues))
                               else Names(old(queues)) + [e.name]
    {
      var q := GetCommitQueue(e.name);
      if q == null {
        return false;
      }
      q.Enqueue(e);
      assert q.Entries() == [e];
      files := q.Process(files);
      queued := true;
    }

    /** `commit_write_session_ss`. */
    method CommitWriteSession(name: string, user: string, index: int) returns (status: int)
      requires Valid() && Inv(Now())
      modifies this`files, this`sessionCount, this`queues, sessions, queues
      ensures Valid()
      ensures var i := FindSession(old(Now()).sessions, name, user, index);
        (Now(), status) == if i < old(sessionCount) then CommitSession(old(Now()), i) else (old(Now()), SUCCESS)
    {
      var i := FindSlot(name, user, index);
      if i == sessionCount {
        return SUCCESS;
      }
      var session := sessions[i];
      assert SessionOk(files, table, Now().sessions[i]);
      var queued := QueueCommit(session.ToEntry());
      if queued {
        status := SUCCESS;
      } else {
        files := files - {session.CopyPath()};
        status := ERR_SERVER_ERROR;
      }
      CompactFrom(i);
    }

    method HandleUnlock(name: string, user: string, index: int) returns (status: int)
      requires Valid() && Inv(Now())
      modifies this, sessions, queues
      ensures Valid() && (Now(), status) == Step(old(Now()), Event.UnlockSentence(name, user, index))
    {
      var commitStatus := CommitWriteSession(name, user, index);
      status := UnlockSentence(name, index, user);
      if commitStatus != SUCCESS {
        status := commitStatus;
      }
    }

    /** `cancel_write_session_ss`, then the unlock. */
    method HandleCancel(name: string, user: string, index: int) returns (status: int)
      requires Valid() && Inv(Now())
      modifies this, sessions
      ensures Valid() && (Now(), status) == Step(old(Now()), CancelWrite(name, user, index))
    {
      var i := FindSlot(name, user, index);
      if i < sessionCount {
        files := files - {sessions[i].CopyPath()};
        CompactFrom(i);
      }
      status := UnlockSentence(name, index, user);
    }

    /** The bytes of the undo copy come back, and the copy is used up. */
    method HandleUndo(name: string) returns (status: int)
      requires Valid() && Inv(Now())
      modifies this`files
      ensures Valid() && (Now(), status) == Step(old(Now()), UndoRequest(name))
      ensures status == SUCCESS <==> Undo(name) in old(files)
      ensures status == SUCCESS ==> Read(files, Main(name)) == Read(old(files), Undo(name)) && Undo(name) !in files
      ensures forall p :: status != SUCCESS || (p != Main(name) && p != Undo(name)) ==>
        ServerRuns.Kept(old(files), files, p)
    {
      if Undo(name) !in files {
        return ERR_INVALID_OPERATION;
      }
      files := files[Main(name) := files[Undo(name)]] - {Undo(name)};
      status := SUCCESS;
    }

    /** The bytes of the checkpoint come back, and those from before are the undo copy. */
    method HandleRevert(name: string, tag: string) returns (status: int)
      requires Valid() && Inv(Now())
      modifies this`files
      ensures Valid() && (Now(), status) == Step(old(Now()), RevertRequest(name, tag))
      ensures status == SUCCESS <==> Checkpoint(name, tag) in old(files)
      ensures status == SUCCESS ==> Read(files, Main(name)) == Read(old(files), Checkpoint(name, tag))
      ensures status == SUCCESS && Main(name) in old(files) ==> Read(files, Undo(name)) == Read(old(files), Main(name))
      ensures forall p :: status != SUCCESS || (p != Main(name) && p != Undo(name)) ==>
        ServerRuns.Kept(old(files), files, p)
    {
      if Checkpoint(name, tag) !in files {
        return ERR_FILE_NOT_FOUND;
      }
      var saved := files[Checkpoint(name, tag)];
      files := BackUpFile(files, name);
      files := files[Main(name) := saved];
      status := SUCCESS;
    }

    /** `create_checkpoint`: a tag is taken once. */
    method HandleCheckpoint(name: string, tag: string) returns (status: int)
      requires Valid() && Inv(Now())
      modifies this`files
      ensures Valid() && (Now(), status) == Step(old(Now()), CheckpointRequest(name, tag))
      ensures status == SUCCESS <==> Main(name) in old(files) && Checkpoint(name, tag) !in old(files)
      ensures status == SUCCESS ==> Checkpoint(name, tag) in files
      ensures status == SUCCESS ==> Read(files, Checkpoint(name, tag)) == Read(files, Main(name))
      ensures forall p :: status != SUCCESS || p != Checkpoint(name, tag) ==> ServerRuns.Kept(old(files), files, p)
    {
      if Checkpoint(name, tag) in files {
        return ERR_FILE_EXISTS;
      }
      if Main(name) !in files {
        return ERR_FILE_NOT_FOUND;
      }
      files := files[Checkpoint(name, tag) := files[Main(name)]];
      status := SUCCESS;
    }

    /** `delete_file_ss`: the main file and its undo copy go; checkpoints and the copies of sessions stay. */
    method HandleDelete(name: string) returns (status: int)
      requires Valid() && Inv(Now())
      modifies this`files
      ensures Valid() && (Now(), status) == Step(old(Now()), DeleteRequest(name))
      ensures status == SUCCESS <==> Main(name) in old(files)
      ensures status == SUCCESS ==> Main(name) !in files && Undo(name) !in files
      ensures forall p :: status != SUCCESS || (p != Main(name) && p != Undo(name)) ==>
        ServerRuns.Kept(old(files), files, p)
    {
      if Main(name) !in files {
        return ERR_FILE_NOT_FOUND;
      }
      files := files - {Main(name)};
      files := files - {Undo(name)};
      status := SUCCESS;
      assert files == old(files) - {Main(name), Undo(name)};
    }

    method HandleCreate(name: string) returns (status: int)
      requires Valid() && Inv(Now())
      modifies this`files, this`table
      ensures Valid() && (Now(), status) == Step(old(Now()), CreateRequest(name))
      ensures status == SUCCESS <==> Main(name) !in old(files)
      ensures status == SUCCESS ==> Main(name) in files && Read(files, Main(name)) == ""
      ensures forall p :: status != SUCCESS || p != Main(name) ==> ServerRuns.Kept(old(files), files, p)
    {
      if Main(name) in files {
        return ERR_FILE_EXISTS;
      }
      files := files[Main(name) := ""];
      InitFileLocks(name, 1);
      status := SUCCESS;
    }
  }

  /** A session's copy, parsed; an empty one counts as one empty sentence. */
  method ParseCopy(text: string) returns (fc: FileContent)
    ensures fresh(fc.Repr) && fc.Valid() && fc.Document() == Editable(text)
  {
    fc := new FileContent();
    fc.ParseFile(text);
    if fc.sentenceCount == 0 {
      fc.OpenSlot(0);
      fc.sentenceCount := 1;
    }
  }

  /** The result of an insertion into a parsed copy. */
  ghost predicate InsertedInto(doc: Doc, index: nat, w: Write, ok: bool, result: Doc) {
    InsertWord(doc, index, w.word, w.content) == if ok then Some(result) else None
  }

  method InsertInto(fc: FileContent, index: nat, w: Write) returns (ok: bool)
    requires fc.Valid() && RunsFit(w.content, Letter) && !(index == 1 && fc.Document() == [[]])
    modifies fc.Repr
    ensures fc.Valid() && InsertedInto(old(fc.Document()), index, w, ok, fc.Document())
  {
    if index > fc.sentenceCount {
      return false;
    }
    var added := fc.InsertWordInSentence(index, w.word, w.content);
    ok := added >= 0;
  }

  /** Insert words into the text of a session's copy. */
  method EditText(text: string, index: nat, w: Write) returns (r: Option<string>)
    requires !(text == "" && index == 1) && RunsFit(w.content, Letter)
    ensures r == WriteText(text, index, w)
  {
    NotOneEmpty(text, index);
    var fc := ParseCopy(text);
    var ok := InsertInto(fc, index, w);
    if !ok {
      return None;
    }
    var printed := fc.WriteFileContent();
    r := Some(printed);
  }

  lemma NotOneEmpty(text: string, index: nat)
    requires !(text == "" && index == 1)
    ensures !(index == 1 && Editable(text) == [[]])
  {
    ParseIsCut(text);
    if Parse(text) != [] {
      assert OneSentence(Parse(text)[0]);
    }
  }

  /** Extend a file's locks to `n`. */
  method MoreLocks(had: seq<SentenceLock>, n: nat) returns (locks: seq<SentenceLock>)
    requires |had| <= n
    ensures locks == had + FreeLocks(n - |had|)
  {
    locks := had;
    while |locks| < n
      invariant |had| <= |locks| <= n && locks == had + FreeLocks(|locks| - |had|)
    {
      locks := locks + [SentenceLock(false, "")];
    }
  }
}
