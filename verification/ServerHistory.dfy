/** What a file becomes over a run of the storage server: the merge of the commits of that run, in order. */
module ServerHistory {
  import opened Options
  import opened Document
  import opened WriteSession
  import opened Merge
  import opened Fate
  import opened Paths
  import opened Storage
  import opened ServerState
  import opened ServerRuns

  function MainOf(s: State, name: string): string {
    Read(s.files, Main(name))
  }

  /** The commit that an event queues for a file, if any. */
  function CommitAt(s: State, e: Event, name: string): (cs: seq<Queued>)
    requires Inv(s)
    ensures |cs| <= 1 && AllValid(cs)
  {
    if !e.UnlockSentence? || e.name != name then [] else
      var i := FindSession(s.sessions, name, e.user, e.index);
      if i < |s.sessions| && QueueAtHand(s, name) then
        assert SessionOk(s.files, s.table, s.sessions[i]);
        [CommitOf(s, s.sessions[i])]
      else []
  }

  /** The commits to a file during a run, in order. */
  function CommitsOf(s: State, es: seq<Event>, name: string): (cs: seq<Queued>)
    requires Inv(s)
    ensures AllValid(cs)
  {
    if es == [] then [] else
      CommitsOf(s, es[..|es| - 1], name) + CommitAt(Run(s, es[..|es| - 1]), es[|es| - 1], name)
  }

  /** An undo, revert or deletion of the file that succeeds. */
  predicate Rewrites(s: State, e: Event, name: string)
    requires Inv(s)
  {
    (e.UndoRequest? || e.RevertRequest? || e.DeleteRequest?) && e.name == name && ServerState.Step(s, e).1 == SUCCESS
  }

  /** Nothing but commits rewrites the file during the run. */
  predicate OnlyCommits(s: State, es: seq<Event>, name: string)
    requires Inv(s)
  {
    es == [] || (
      var front := es[..|es| - 1];
      OnlyCommits(s, front, name) && !Rewrites(Run(s, front), es[|es| - 1], name))
  }

  // ----- the file over a run -----

  lemma UnlockMerges(s: State, name: string, user: string, index: int)
    requires Inv(s)
    ensures MainOf(StepUnlock(s, name, user, index).0, name)
         == MergeAll(MainOf(s, name), CommitAt(s, UnlockSentence(name, user, index), name))
  {
    var i := FindSession(s.sessions, name, user, index);
    if i < |s.sessions| {
      UnlockReads(s, s.sessions[i]);
      if QueueAtHand(s, name) {
        MergeAllOne(MainOf(s, name), CommitOf(s, s.sessions[i]));
      }
    }
  }

  /** A granted lock starts a session; another one changes no more than the lock table. */
  lemma LockOutcome(s: State, name: string, user: string, index: int)
    ensures var (r, status) := StepLock(s, name, user, index);
      if status == SUCCESS then
        index >= 0 && StartSession(s.(table := Acquire(s.table, name, index, user).0), name, user, index) == Some(r)
      else r == s.(table := r.table)
  {
  }

  lemma StartKeepsMain(s: State, name: string, user: string, index: nat, r: State)
    requires StartSession(s, name, user, index) == Some(r)
    ensures MainOf(r, name) == MainOf(s, name)
    ensures forall v :: v in r.sessions ==> v.Is(name, user, index) || v in s.sessions
  {
  }

  lemma LockKeepsMain(s: State, name: string, user: string, index: int)
    ensures MainOf(StepLock(s, name, user, index).0, name) == MainOf(s, name)
  {
    var (r, status) := StepLock(s, name, user, index);
    LockOutcome(s, name, user, index);
    if status == SUCCESS {
      StartKeepsMain(s.(table := Acquire(s.table, name, index, user).0), name, user, index, r);
    }
  }

  lemma WriteKeepsMain(s: State, name: string, user: string, index: int, w: Write)
    requires Inv(s)
    ensures MainOf(StepWrite(s, name, user, index, w).0, name) == MainOf(s, name)
  {
  }

  lemma CancelKeepsMain(s: State, name: string, user: string, index: int)
    ensures MainOf(StepCancel(s, name, user, index).0, name) == MainOf(s, name)
  {
  }

  lemma CreateKeepsMain(s: State, name: string)
    ensures MainOf(StepCreate(s, name).0, name) == MainOf(s, name)
  {
  }

  /** Undo, revert and delete that fail, and checkpoints. */
  lemma FailureKeepsMain(s: State, e: Event, name: string)
    requires Inv(s) && !Rewrites(s, e, name) && e.name == name
    requires e.UndoRequest? || e.DeleteRequest? || e.CheckpointRequest? || e.RevertRequest?
    ensures MainOf(ServerState.Step(s, e).0, name) == MainOf(s, name)
  {
  }

  lemma OthersKeepMain(s: State, e: Event, name: string)
    requires Inv(s) && !Rewrites(s, e, name) && e.name == name && !e.UnlockSentence?
    ensures MainOf(ServerState.Step(s, e).0, name) == MainOf(s, name)
  {
    match e
    case LockSentence(_, user, index) => LockKeepsMain(s, name, user, index);
    case WriteWords(_, user, index, w) => WriteKeepsMain(s, name, user, index, w);
    case CancelWrite(_, user, index) => CancelKeepsMain(s, name, user, index);
    case CreateRequest(_) => CreateKeepsMain(s, name);
    case _ => FailureKeepsMain(s, e, name);
  }

  lemma StepMerges(s: State, e: Event, name: string)
    requires Inv(s) && !Rewrites(s, e, name)
    ensures MainOf(ServerState.Step(s, e).0, name) == MergeAll(MainOf(s, name), CommitAt(s, e, name))
  {
    if e.name != name {
      StepIsLocal(s, e, Main(name));
    } else if e.UnlockSentence? {
      UnlockMerges(s, name, e.user, e.index);
    } else {
      OthersKeepMain(s, e, name);
    }
  }

  /** As long as no undo, revert or deletion rewrites it, a file is what the commits of the run make of it, in order,
      whatever messages of all users came in between. */
  lemma {:induction false} MainIsMerged(s: State, es: seq<Event>, name: string)
    requires Inv(s) && OnlyCommits(s, es, name)
    ensures MainOf(Run(s, es), name) == MergeAll(MainOf(s, name), CommitsOf(s, es, name))
  {
    if es != [] {
      var front, e := es[..|es| - 1], es[|es| - 1];
      MainIsMerged(s, front, name);
      StepMerges(Run(s, front), e, name);
      MergeAllAppend(MainOf(s, name), CommitsOf(s, front, name), CommitAt(Run(s, front), e, name));
    }
  }

  /** So the file remains one non-empty block for each sentence that it had, each edited by commits alone. */
  lemma RunEditsBlocks(s: State, es: seq<Event>, name: string)
    requires Inv(s) && OnlyCommits(s, es, name) && MainOf(s, name) != ""
    ensures var blocks := EditAll(Unedited(ViewOf(MainOf(s, name))), CommitsOf(s, es, name));
      ViewOf(MainOf(Run(s, es), name)) == Join(blocks) && NonEmpty(blocks)
  {
    var base := MainOf(s, name);
    ParseIsCut(base);
    JoinUnedited(ViewOf(base));
    MainIsMerged(s, es, name);
    MergeAllEditsBlocks(base, CommitsOf(s, es, name), Unedited(ViewOf(base)));
  }

  /** And every sentence of the file at the end is one that it had at the start, or one that a session committed
      during the run: which one follows from the indices and counts of the sessions alone. */
  lemma RunOrigins(s: State, es: seq<Event>, name: string, e: nat)
    requires Inv(s) && OnlyCommits(s, es, name) && MainOf(s, name) != ""
    requires 1 <= e <= Count(|ViewOf(MainOf(s, name))|, CommitsOf(s, es, name))
    ensures var cs, base, final := CommitsOf(s, es, name), ViewOf(MainOf(s, name)), ViewOf(MainOf(Run(s, es), name));
      var o := OriginOf(e, |base|, cs);
      && |final| == Count(|base|, cs) && Sound(o, |base|, cs) && At(final, e) == SentenceOf(o, base, cs)
  {
    MainIsMerged(s, es, name);
    OriginIs(MainOf(s, name), CommitsOf(s, es, name), e);
  }

  // ----- the sessions after a message -----

  /** A lock on the file is granted. */
  predicate Grants(s: State, e: Event, name: string)
    requires Inv(s)
  {
    e.LockSentence? && e.name == name && ServerState.Step(s, e).1 == SUCCESS
  }

  /** The message leaves the session as it is, but for a write of its own. */
  predicate Spares(s: State, e: Event, v: ActiveSession)
    requires Inv(s)
  {
    !Touches(e, v) || (e.LockSentence? && !Grants(s, e, e.name))
  }

  lemma SparedSession(s: State, e: Event, v: ActiveSession)
    requires Inv(s) && v in s.sessions && Spares(s, e, v)
    ensures var (r, status) := ServerState.Step(s, e);
      && v in r.sessions && v.CopyPath() in r.files && v.CopyPath() in s.files
      && !(s.files[v.CopyPath()] == "" && v.index == 1)
      && (if Writes(e, v) && status == SUCCESS
          then WriteText(s.files[v.CopyPath()], v.index, e.write) == Some(r.files[v.CopyPath()])
          else r.files[v.CopyPath()] == s.files[v.CopyPath()])
  {
    if Touches(e, v) {
      assert SessionOk(s.files, s.table, v);
    } else {
      StepKeepsSession(s, e, v);
    }
  }

  /** The sessions after a message are the new one of a granted lock, and those from before that it leaves alone. */
  lemma SessionsAfter(s: State, e: Event, v: ActiveSession)
    requires Inv(s) && v in ServerState.Step(s, e).0.sessions
    ensures (v in s.sessions && Spares(s, e, v)) || (Grants(s, e, v.name) && v.Is(e.name, e.user, e.index))
  {
    match e
    case LockSentence(name, user, index) => SessionsAfterLock(s, name, user, index, v);
    case UnlockSentence(name, user, index) => SessionsAfterUnlock(s, name, user, index, v);
    case CancelWrite(name, user, index) => SessionsAfterCancel(s, name, user, index, v);
    case _ =>
  }

  lemma SessionsAfterLock(s: State, name: string, user: string, index: int, v: ActiveSession)
    requires Inv(s) && v in StepLock(s, name, user, index).0.sessions
    ensures if StepLock(s, name, user, index).1 == SUCCESS then v.Is(name, user, index) || v in s.sessions
            else v in s.sessions
  {
    var (r, status) := StepLock(s, name, user, index);
    LockOutcome(s, name, user, index);
    if status == SUCCESS {
      StartKeepsMain(s.(table := Acquire(s.table, name, index, user).0), name, user, index, r);
    }
  }

  lemma SessionsAfterUnlock(s: State, name: string, user: string, index: int, v: ActiveSession)
    requires Inv(s) && v in StepUnlock(s, name, user, index).0.sessions
    ensures v in s.sessions && !v.Is(name, user, index)
  {
    var i := FindSession(s.sessions, name, user, index);
    FoundOnly(s, name, user, index);
    if i < |s.sessions| {
      CommitKeepsInv(s, i);
    }
  }

  lemma SessionsAfterCancel(s: State, name: string, user: string, index: int, v: ActiveSession)
    requires Inv(s) && v in StepCancel(s, name, user, index).0.sessions
    ensures v in s.sessions && !v.Is(name, user, index)
  {
    var i := FindSession(s.sessions, name, user, index);
    FoundOnly(s, name, user, index);
    if i < |s.sessions| {
      RemoveKeepsOthers(s, i);
    }
  }
}
