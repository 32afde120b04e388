/** Runs of a server that has just started, in which every message succeeds and edits are lost all the same. */
module ServerExamples {
  import opened Options
  import opened Text
  import opened Document
  import opened WriteSession
  import opened Commit
  import opened Session
  import opened Merge
  import opened MergeExamples
  import opened Paths
  import opened Storage
  import opened ServerState
  import opened ServerRuns
  import opened ServerHistory

  /** Every message of the run is answered by SUCCESS. */
  predicate Succeeds(s: State, es: seq<Event>)
    requires Inv(s)
  {
    es == [] || (
      var front := es[..|es| - 1];
      Succeeds(s, front) && ServerState.Step(ServerRuns.Run(s, front), es[|es| - 1]).1 == SUCCESS)
  }

  /** From `s` the messages `es` succeed and lead to `r`. */
  predicate Reaches(s: State, es: seq<Event>, r: State)
    requires Inv(s)
  {
    Succeeds(s, es) && ServerRuns.Run(s, es) == r
  }

  lemma OneMore(s: State, es: seq<Event>, r: State, e: Event, r': State)
    requires Inv(s) && Reaches(s, es, r) && Inv(r) && ServerState.Step(r, e) == (r', SUCCESS)
    ensures Reaches(s, es + [e], r') && Inv(r')
  {
    assert (es + [e])[..|es|] == es;
    StepKeepsInv(r, e);
  }

  lemma OneStep(s: State, e: Event, r: State)
    requires Inv(s) && ServerState.Step(s, e) == (r, SUCCESS)
    ensures Reaches(s, [e], r) && Inv(r)
  {
    StepKeepsInv(s, e);
    assert [e][..0] == [];
    assert Succeeds(s, []) && ServerRuns.Run(s, []) == s;
  }

  lemma TwoSteps(s: State, e: Event, r1: State, f: Event, r: State)
    requires Inv(s) && ServerState.Step(s, e) == (r1, SUCCESS) && Inv(r1) && ServerState.Step(r1, f) == (r, SUCCESS)
    ensures Reaches(s, [e, f], r)
  {
    OneStep(s, e, r1);
    OneMore(s, [e], r1, f, r);
    assert [e] + [f] == [e, f];
  }

  /** A session is open on the file, with the given copy. */
  predicate Open(s: State, v: ActiveSession, copy: string) {
    v in s.sessions && v.CopyPath() in s.files && s.files[v.CopyPath()] == copy
  }

  /** A server with few sessions, on which the file reads as `main` and has a queue or room for one. */
  predicate Quiet(s: State, name: string, main: string) {
    Inv(s) && MainOf(s, name) == main && QueueAtHand(s, name) && |s.sessions| < 10
  }

  /** Nobody holds the lock. */
  ghost predicate Unheld(s: State, name: string, index: int) {
    forall user :: !HeldBy(s.table, name, index, user)
  }

  lemma StartIsQuiet(files: Files, name: string)
    ensures Quiet(Start(files), name, Read(files, Main(name)))
    ensures forall i :: Unheld(Start(files), name, i)
  {
  }

  lemma LockSucceeds(s: State, name: string, user: string, index: nat)
    requires Inv(s) && |s.sessions| < 9 && MayLock(MainOf(s, name), index) && Unheld(s, name, index)
    ensures StepLock(s, name, user, index).1 == SUCCESS
  {
    LockGrantedIff(s, name, user, index);
    if !FreeFor(s.table, name, index, user) {
      assert HeldBy(s.table, name, index, GetLock(s.table, name, index).value.holder);
    }
  }

  lemma OtherLocksStay(s: State, name: string, user: string, index: nat, i: int)
    requires Inv(s) && StepLock(s, name, user, index).1 == SUCCESS && i != index && Unheld(s, name, i)
    ensures Unheld(StepLock(s, name, user, index).0, name, i)
  {
    forall u
      ensures !HeldBy(StepLock(s, name, user, index).0.table, name, i, u)
    {
      AcquireIs(s.table, name, index, user, name, i, u);
    }
  }

  lemma LockOpens(s: State, name: string, user: string, index: nat, main: string)
    requires Quiet(s, name, main) && |s.sessions| < 9 && MayLock(main, index) && Unheld(s, name, index)
    ensures var (r, status) := StepLock(s, name, user, index);
      && status == SUCCESS && Quiet(r, name, main) && |r.sessions| <= |s.sessions| + 1
      && Open(r, ActiveSession(name, user, index, |ViewOf(main)|), main)
  {
    LockSucceeds(s, name, user, index);
    GrantedLock(s, name, user, index);
    LockKeepsInv(s, name, user, index);
    LockKeepsMain(s, name, user, index);
    LockKeepsTables(s, name, user, index);
  }

  lemma LockKeepsTables(s: State, name: string, user: string, index: nat)
    requires StepLock(s, name, user, index).1 == SUCCESS
    ensures var r := StepLock(s, name, user, index).0; r.queues == s.queues && |r.sessions| <= |s.sessions| + 1
  {
    LockOutcome(s, name, user, index);
  }

  lemma OtherStays(s: State, e: Event, v: ActiveSession, copy: string)
    requires Inv(s) && Open(s, v, copy) && !Touches(e, v) && !Writes(e, v)
    ensures Open(ServerState.Step(s, e).0, v, copy)
  {
    StepKeepsSession(s, e, v);
  }

  lemma WriteGoesIn(s: State, name: string, main: string, v: ActiveSession, copy: string, w: Write, u: string)
    requires Quiet(s, name, main) && v.name == name && Open(s, v, copy)
    requires !(copy == "" && v.index == 1) && WriteText(copy, v.index, w) == Some(u)
    ensures var (r, status) := StepWrite(s, name, v.user, v.index, w);
      status == SUCCESS && Quiet(r, name, main) && Open(r, v, u) && r.sessions == s.sessions
  {
    ActiveIsFound(s, v);
    WriteKeepsInv(s, name, v.user, v.index, w);
  }

  // ----- two writers -----

  /** Two sessions on different sentences of one file, open at the same time, with one write each. */
  function TwoWriters(name: string, u: string, i: int, w: Write, x: string, j: int, y: Write): seq<Event> {
    Locks(name, u, i, x, j) + Writings(name, u, i, w, x, j, y) + Unlocks(name, u, i, x, j)
  }

  function Locks(name: string, u: string, i: int, x: string, j: int): seq<Event> {
    [LockSentence(name, u, i), LockSentence(name, x, j)]
  }

  function Writings(name: string, u: string, i: int, w: Write, x: string, j: int, y: Write): seq<Event> {
    [WriteWords(name, u, i, w), WriteWords(name, x, j, y)]
  }

  function Unlocks(name: string, u: string, i: int, x: string, j: int): seq<Event> {
    [UnlockSentence(name, u, i), UnlockSentence(name, x, j)]
  }

  lemma BothOpen(s: State, name: string, main: string, u: string, i: nat, x: string, j: nat)
      returns (r: State)
    requires Quiet(s, name, main) && |s.sessions| < 7 && i != j && MayLock(main, i) && MayLock(main, j)
    requires Unheld(s, name, i) && Unheld(s, name, j)
    ensures Reaches(s, Locks(name, u, i, x, j), r) && Quiet(r, name, main)
    ensures Open(r, ActiveSession(name, u, i, |ViewOf(main)|), main)
    ensures Open(r, ActiveSession(name, x, j, |ViewOf(main)|), main)
    ensures |r.sessions| <= |s.sessions| + 2
    ensures forall k :: k != i && k != j && Unheld(s, name, k) ==> Unheld(r, name, k)
  {
    var v := ActiveSession(name, u, i, |ViewOf(main)|);
    var e, f := LockSentence(name, u, i), LockSentence(name, x, j);
    LockOpens(s, name, u, i, main);
    OtherLocksStay(s, name, u, i, j);
    var r1 := StepLock(s, name, u, i).0;
    LockOpens(r1, name, x, j, main);
    OtherStays(r1, f, v, main);
    r := StepLock(r1, name, x, j).0;
    TwoSteps(s, e, r1, f, r);
    forall k | k != i && k != j && Unheld(s, name, k)
      ensures Unheld(r, name, k)
    {
      OtherLocksStay(s, name, u, i, k);
      OtherLocksStay(r1, name, x, j, k);
    }
  }

  lemma BothWrite(s: State, name: string, main: string, v: ActiveSession, c0: string, w: Write, c: string,
                  z: ActiveSession, d0: string, y: Write, d: string) returns (r: State)
    requires Quiet(s, name, main) && v.name == z.name == name && v.index != z.index && Open(s, v, c0) && Open(s, z, d0)
    requires c0 != "" && WriteText(c0, v.index, w) == Some(c)
    requires d0 != "" && WriteText(d0, z.index, y) == Some(d)
    ensures Reaches(s, Writings(name, v.user, v.index, w, z.user, z.index, y), r)
    ensures Quiet(r, name, main) && Open(r, v, c) && Open(r, z, d)
  {
    var e, f := WriteWords(name, v.user, v.index, w), WriteWords(name, z.user, z.index, y);
    WriteGoesIn(s, name, main, v, c0, w, c);
    OtherStays(s, e, z, d0);
    var r1 := StepWrite(s, name, v.user, v.index, w).0;
    WriteGoesIn(r1, name, main, z, d0, y, d);
    OtherStays(r1, f, v, c);
    r := StepWrite(r1, name, z.user, z.index, y).0;
    TwoSteps(s, e, r1, f, r);
  }

  lemma UnlockSucceeds(s: State, v: ActiveSession)
    requires Inv(s) && v in s.sessions && QueueAtHand(s, v.name)
    ensures StepUnlock(s, v.name, v.user, v.index).1 == SUCCESS
    ensures QueueAtHand(StepUnlock(s, v.name, v.user, v.index).0, v.name)
  {
    UnlockIs(s, v);
  }

  lemma BothUnlock(s: State, name: string, main: string, v: ActiveSession, c: string, z: ActiveSession, d: string)
      returns (r: State)
    requires Quiet(s, name, main) && v.name == z.name == name && v.index != z.index && Open(s, v, c) && Open(s, z, d)
    ensures Reaches(s, Unlocks(name, v.user, v.index, z.user, z.index), r)
    ensures MainOf(r, name)
         == MergeOne(MergeOne(main, Queued(v.index, v.original, c)), Queued(z.index, z.original, d))
  {
    var e, f := UnlockSentence(name, v.user, v.index), UnlockSentence(name, z.user, z.index);
    var r1 := StepUnlock(s, name, v.user, v.index).0;
    TwoUnlocks(s, v, z);
    UnlockSucceeds(s, v);
    StepKeepsInv(s, e);
    OtherStays(s, e, z, d);
    UnlockSucceeds(r1, z);
    r := StepUnlock(r1, name, z.user, z.index).0;
    TwoSteps(s, e, r1, f, r);
  }

  lemma LastApart<T>(fs: seq<T>, front: seq<T>, e: T)
    requires fs != [] && front == fs[..|fs| - 1] && e == fs[|fs| - 1]
    ensures fs == front + [e]
  {
  }

  lemma RunOfMore(r: State, front: seq<Event>, e: Event, fs: seq<Event>)
    requires Inv(r) && fs == front + [e]
    ensures ServerRuns.Run(r, fs) == ServerState.Step(ServerRuns.Run(r, front), e).0
    ensures Succeeds(r, fs) <==> Succeeds(r, front) && ServerState.Step(ServerRuns.Run(r, front), e).1 == SUCCESS
  {
    assert fs[..|fs| - 1] == front;
  }

  lemma {:induction false} Chain(s: State, es: seq<Event>, r: State, fs: seq<Event>, q: State)
    requires Inv(s) && Reaches(s, es, r) && Inv(r) && Reaches(r, fs, q)
    ensures Reaches(s, es + fs, q)
    decreases fs
  {
    if fs == [] {
      assert es + fs == es;
    } else {
      var front, e := fs[..|fs| - 1], fs[|fs| - 1];
      var before := ServerRuns.Run(r, front);
      LastApart(fs, front, e);
      RunOfMore(r, front, e, fs);
      Chain(s, es, r, front, before);
      OneMore(s, es + front, before, e, q);
      Assoc(es, front, [e]);
    }
  }

  /** On any text: all six messages succeed, and the file ends as the merge of both copies, in the order of the
      unlocks. */
  lemma TwoWritersMerge(files: Files, name: string, u: string, i: nat, w: Write, c: string, x: string, j: nat, y: Write,
                        d: string) returns (r: State)
    requires var main := Read(files, Main(name));
      && main != "" && i != j && i < |ViewOf(main)| && j < |ViewOf(main)|
      && WriteText(main, i, w) == Some(c) && WriteText(main, j, y) == Some(d)
    ensures Reaches(Start(files), TwoWriters(name, u, i, w, x, j, y), r)
    ensures var main := Read(files, Main(name)); var count := |ViewOf(main)|;
      MainOf(r, name) == MergeOne(MergeOne(main, Queued(i, count, c)), Queued(j, count, d))
  {
    var s, main := Start(files), Read(files, Main(name));
    var v, z := ActiveSession(name, u, i, |ViewOf(main)|), ActiveSession(name, x, j, |ViewOf(main)|);
    StartIsQuiet(files, name);
    MayLockIff(main, i);
    MayLockIff(main, j);
    var r1 := BothOpen(s, name, main, u, i, x, j);
    var r2 := BothWrite(r1, name, main, v, main, w, c, z, main, y, d);
    r := BothUnlock(r2, name, main, v, c, z, d);
    Chain(s, Locks(name, u, i, x, j), r1, Writings(name, u, i, w, x, j, y), r2);
    Chain(s, Locks(name, u, i, x, j) + Writings(name, u, i, w, x, j, y), r2, Unlocks(name, u, i, x, j), r);
  }

  /** The file "a. b." of a server that has just started: one user locks sentence 1 and writes c behind it, another
      one locks sentence 0 and writes x in front of it, and they unlock in this order. All messages succeed, b is
      lost, and a is there twice. */
  lemma WrongOrderRun(files: Files, name: string, u: string, x: string, a: char, b: char, c: char, d: char)
    requires KindOf(a) == KindOf(b) == KindOf(c) == KindOf(d) == Letter
    requires Read(files, Main(name)) == Line([a, b])
    ensures var es := TwoWriters(name, u, 1, Write(3, [c]), x, 0, Write(1, [d]));
      && Succeeds(Start(files), es)
      && ViewOf(MainOf(ServerRuns.Run(Start(files), es), name)) == [Short(a), [[d]] + Short(a), [[c]]]
  {
    var base := Line([a, b]);
    TwoSentences(a, b);
    ParseIsCut(base);
    WrongOrderOnText(a, b, c, d);
    var first, second := RunWrites(base, 1, [Write(3, [c])]).value, RunWrites(base, 0, [Write(1, [d])]).value;
    RunOfOne(base, 1, Write(3, [c]));
    RunOfOne(base, 0, Write(1, [d]));
    var r := TwoWritersMerge(files, name, u, 1, Write(3, [c]), first, x, 0, Write(1, [d]), second);
  }

  lemma RunOfOne(base: string, k: nat, w: Write)
    requires !(base == "" && k == 1)
    ensures RunWrites(base, k, [w]) == WriteText(base, k, w)
  {
    assert [w][..0] == [];
    assert RunWrites(base, k, []) == Some(base);
  }

  // ----- one writer -----

  function OneWriter(name: string, u: string, i: int, w: Write): seq<Event> {
    [LockSentence(name, u, i)] + [WriteWords(name, u, i, w), UnlockSentence(name, u, i)]
  }

  lemma UnlockMergesOpen(s: State, name: string, main: string, v: ActiveSession, c: string)
    requires Quiet(s, name, main) && v.name == name && Open(s, v, c)
    ensures var (r, status) := StepUnlock(s, name, v.user, v.index);
      && status == SUCCESS && Quiet(r, name, MergeOne(main, Queued(v.index, v.original, c)))
      && |r.sessions| <= |s.sessions|
  {
    UnlockSucceeds(s, v);
    UnlockReads(s, v);
    UnlockKeepsInv(s, name, v.user, v.index);
  }

  lemma WriteAndUnlockOpen(s: State, name: string, main: string, v: ActiveSession, c0: string, w: Write, c: string)
      returns (r1: State, r: State)
    requires Quiet(s, name, main) && v.name == name && Open(s, v, c0)
    requires c0 != "" && WriteText(c0, v.index, w) == Some(c)
    ensures StepWrite(s, name, v.user, v.index, w) == (r1, SUCCESS) && Inv(r1)
    ensures StepUnlock(r1, name, v.user, v.index) == (r, SUCCESS)
    ensures Quiet(r, name, MergeOne(main, Queued(v.index, v.original, c))) && |r.sessions| <= |s.sessions|
  {
    WriteGoesIn(s, name, main, v, c0, w, c);
    r1 := StepWrite(s, name, v.user, v.index, w).0;
    UnlockMergesOpen(r1, name, main, v, c);
    r := StepUnlock(r1, name, v.user, v.index).0;
  }

  /** The session writes once and unlocks. */
  lemma WriteThenUnlock(s: State, name: string, main: string, v: ActiveSession, c0: string, w: Write, c: string)
      returns (r1: State, r: State)
    requires Quiet(s, name, main) && v.name == name && Open(s, v, c0)
    requires c0 != "" && WriteText(c0, v.index, w) == Some(c)
    ensures Reaches(s, [WriteWords(name, v.user, v.index, w), UnlockSentence(name, v.user, v.index)], r)
    ensures Quiet(r, name, MergeOne(main, Queued(v.index, v.original, c))) && |r.sessions| <= |s.sessions|
    ensures StepWrite(s, name, v.user, v.index, w).0 == r1 && Inv(r1) && StepUnlock(r1, name, v.user, v.index).0 == r
  {
    r1, r := WriteAndUnlockOpen(s, name, main, v, c0, w, c);
    TwoSteps(s, WriteWords(name, v.user, v.index, w), r1, UnlockSentence(name, v.user, v.index), r);
  }

  lemma OneWriterMerges(files: Files, name: string, u: string, i: nat, w: Write, c: string) returns (r: State)
    requires var main := Read(files, Main(name)); main != "" && MayLock(main, i) && WriteText(main, i, w) == Some(c)
    ensures Reaches(Start(files), OneWriter(name, u, i, w), r)
    ensures var main := Read(files, Main(name)); MainOf(r, name) == MergeOne(main, Queued(i, |ViewOf(main)|, c))
  {
    var s, main := Start(files), Read(files, Main(name));
    StartIsQuiet(files, name);
    LockOpens(s, name, u, i, main);
    var r1 := StepLock(s, name, u, i).0;
    OneStep(s, LockSentence(name, u, i), r1);
    var r2;
    r2, r := WriteThenUnlock(r1, name, main, ActiveSession(name, u, i, |ViewOf(main)|), main, w, c);
    Chain(s, [LockSentence(name, u, i)], r1, [WriteWords(name, u, i, w), UnlockSentence(name, u, i)], r);
  }

  lemma AppendAccepted(main: string, w: Write) returns (c: string)
    requires main != "" && (KindOf(main[|main| - 1]) == Delimiter || KindOf(main[|main| - 1]) == Newline) && w.word == 1
    ensures ViewOf(main) != [] && MayLock(main, |ViewOf(main)|) && WriteText(main, |ViewOf(main)|, w) == Some(c)
  {
    ParseIsCut(main);
    MayLockIff(main, |ViewOf(main)|);
    WriteAcceptedIff(main, |ViewOf(main)|, w);
    c := WriteText(main, |ViewOf(main)|, w).value;
  }

  /** Behind any text that ends in a delimiter or a newline a sentence can be locked, written and unlocked; all messages
      succeed, and the file stays as it was, whatever was written; word runs too long for the buffer of a write count as
      chopped. */
  lemma AppendRun(files: Files, name: string, u: string, content: string)
    requires var main := Read(files, Main(name));
      main != "" && (KindOf(main[|main| - 1]) == Delimiter || KindOf(main[|main| - 1]) == Newline)
    ensures var main := Read(files, Main(name)); var es := OneWriter(name, u, |ViewOf(main)|, Write(1, content));
      Succeeds(Start(files), es) && MainOf(ServerRuns.Run(Start(files), es), name) == main
  {
    var main, w := Read(files, Main(name)), Write(1, content);
    var c := AppendAccepted(main, w);
    var r := OneWriterMerges(files, name, u, |ViewOf(main)|, w, c);
    SkippedIff(main, c, |ViewOf(main)|, |ViewOf(main)|);
  }

  /** The file "a. b.": c is written behind the delimiter of the first sentence and is lost at the unlock. */
  lemma SpilledRun(files: Files, name: string, u: string, a: char, b: char, c: char)
    requires KindOf(a) == KindOf(b) == KindOf(c) == Letter && Read(files, Main(name)) == Line([a, b])
    ensures var es := OneWriter(name, u, 0, Write(3, [c]));
      && Succeeds(Start(files), es)
      && ViewOf(MainOf(ServerRuns.Run(Start(files), es), name)) == [Short(a), Short(b)]
  {
    var base, w := Line([a, b]), Write(3, [c]);
    SpilledOnText(a, b, c);
    RunOfOne(base, 0, w);
    ParseIsCut(base);
    MayLockIff(base, 0);
    var r := OneWriterMerges(files, name, u, 0, w, RunWrites(base, 0, [w]).value);
  }

  // ----- one sentence, two writers -----

  lemma OtherLocksStayFree(s: State, name: string, user: string, index: int, w: Write, i: int)
    requires Inv(s) && Unheld(s, name, i)
    ensures Unheld(StepWrite(s, name, user, index, w).0, name, i)
    ensures Unheld(StepUnlock(s, name, user, index).0, name, i)
  {
    forall u
      ensures !HeldBy(StepUnlock(s, name, user, index).0.table, name, i, u)
    {
      ReleaseIs(s.table, name, index, user, name, i, u);
    }
  }

  /** One user locks sentence 1; another one puts a sentence in front of the file; a third one locks sentence 2. */
  function GrownUnderLock(name: string, u: string, x: string, w: Write, y: string): seq<Event> {
    Locks(name, u, 1, x, 0) + [WriteWords(name, x, 0, w), UnlockSentence(name, x, 0)] + [LockSentence(name, y, 2)]
  }

  lemma GrowsUnder(s: State, name: string, main: string, x: string, w: Write, c: string, v: ActiveSession)
      returns (r: State)
    requires Quiet(s, name, main) && main != "" && WriteText(main, 0, w) == Some(c)
    requires Open(s, ActiveSession(name, x, 0, 2), main) && Open(s, v, main) && v.index == 1 && Unheld(s, name, 2)
    ensures Reaches(s, [WriteWords(name, x, 0, w), UnlockSentence(name, x, 0)], r)
    ensures Quiet(r, name, MergeOne(main, Queued(0, 2, c))) && |r.sessions| <= |s.sessions|
    ensures Open(r, v, main) && Unheld(r, name, 2)
  {
    var r1;
    r1, r := WriteThenUnlock(s, name, main, ActiveSession(name, x, 0, 2), main, w, c);
    OthersStay(s, name, x, w, v, main);
  }

  lemma FirstGrows(files: Files, name: string, u: string, x: string, w: Write, main: string, c: string)
      returns (r: State)
    requires main == Read(files, Main(name)) && |ViewOf(main)| == 2 && WriteText(main, 0, w) == Some(c)
    requires main != "" && MayLock(main, 0) && MayLock(main, 1)
    ensures Reaches(Start(files), Locks(name, u, 1, x, 0) + [WriteWords(name, x, 0, w), UnlockSentence(name, x, 0)], r)
    ensures Quiet(r, name, MergeOne(main, Queued(0, 2, c))) && Open(r, ActiveSession(name, u, 1, 2), main)
    ensures Unheld(r, name, 2) && |r.sessions| < 9
  {
    StartIsQuiet(files, name);
    var r1 := BothOpen(Start(files), name, main, u, 1, x, 0);
    r := GrowsUnder(r1, name, main, x, w, c, ActiveSession(name, u, 1, 2));
    Chain(Start(files), Locks(name, u, 1, x, 0), r1, [WriteWords(name, x, 0, w), UnlockSentence(name, x, 0)], r);
  }

  lemma OthersStay(s: State, name: string, x: string, w: Write, v: ActiveSession, copy: string)
    requires Inv(s) && Open(s, v, copy) && v.index == 1 && Unheld(s, name, 2)
    requires Inv(StepWrite(s, name, x, 0, w).0)
    ensures var r := StepUnlock(StepWrite(s, name, x, 0, w).0, name, x, 0).0;
      Open(r, v, copy) && Unheld(r, name, 2)
  {
    var r := StepWrite(s, name, x, 0, w).0;
    OtherStays(s, WriteWords(name, x, 0, w), v, copy);
    OtherStays(r, UnlockSentence(name, x, 0), v, copy);
    OtherLocksStayFree(s, name, x, 0, w, 2);
    OtherLocksStayFree(r, name, x, 0, w, 2);
  }

  lemma LockJoins(s: State, name: string, y: string, v: ActiveSession, copy: string, grown: string) returns (r: State)
    requires Quiet(s, name, grown) && |s.sessions| < 9 && Open(s, v, copy) && v.index == 1 && Unheld(s, name, 2)
    requires |ViewOf(grown)| == 3 && MayLock(grown, 2)
    ensures Reaches(s, [LockSentence(name, y, 2)], r)
    ensures Quiet(r, name, grown) && Open(r, v, copy) && Open(r, ActiveSession(name, y, 2, 3), grown)
  {
    var e := LockSentence(name, y, 2);
    LockOpens(s, name, y, 2, grown);
    OtherStays(s, e, v, copy);
    r := StepLock(s, name, y, 2).0;
    OneStep(s, e, r);
  }

  /** Then both sessions mean the sentence that was number 1. */
  lemma SharedSentence(files: Files, name: string, u: string, x: string, w: Write, y: string, main: string, c: string,
                       grown: string) returns (r: State)
    requires main == Read(files, Main(name)) && |ViewOf(main)| == 2 && WriteText(main, 0, w) == Some(c)
    requires main != "" && MayLock(main, 0) && MayLock(main, 1)
    requires grown == MergeOne(main, Queued(0, 2, c)) && |ViewOf(grown)| == 3 && MayLock(grown, 2)
    ensures Reaches(Start(files), GrownUnderLock(name, u, x, w, y), r)
    ensures Quiet(r, name, grown)
    ensures Open(r, ActiveSession(name, u, 1, 2), main) && Open(r, ActiveSession(name, y, 2, 3), grown)
    ensures PlaceOf(ActiveSession(name, u, 1, 2), 3) == PlaceOf(ActiveSession(name, y, 2, 3), 3) == 2
  {
    var r1 := FirstGrows(files, name, u, x, w, main, c);
    r := LockJoins(r1, name, y, ActiveSession(name, u, 1, 2), main, grown);
    Chain(Start(files), Locks(name, u, 1, x, 0) + [WriteWords(name, x, 0, w), UnlockSentence(name, x, 0)], r1,
          [LockSentence(name, y, 2)], r);
  }

  /** The messages of `LostEditRun`. */
  function LostEdit(name: string, u: string, x: string, w: Write, y: string, w1: Write, w2: Write): seq<Event> {
    GrownUnderLock(name, u, x, w, y) + Writings(name, u, 1, w1, y, 2, w2) + Unlocks(name, u, 1, y, 2)
  }

  lemma BothGoOn(s: State, name: string, u: string, y: string, main: string, grown: string, w1: Write, c1: string,
                 w2: Write, c2: string) returns (r: State)
    requires Quiet(s, name, grown) && main != "" && grown != ""
    requires Open(s, ActiveSession(name, u, 1, 2), main) && Open(s, ActiveSession(name, y, 2, 3), grown)
    requires WriteText(main, 1, w1) == Some(c1) && WriteText(grown, 2, w2) == Some(c2)
    ensures Reaches(s, Writings(name, u, 1, w1, y, 2, w2) + Unlocks(name, u, 1, y, 2), r)
    ensures MainOf(r, name) == MergeOne(MergeOne(grown, Queued(1, 2, c1)), Queued(2, 3, c2))
  {
    var v, z := ActiveSession(name, u, 1, 2), ActiveSession(name, y, 2, 3);
    var r1 := BothWrite(s, name, grown, v, main, w1, c1, z, grown, w2, c2);
    r := BothUnlock(r1, name, grown, v, c1, z, c2);
    Chain(s, Writings(name, u, 1, w1, y, 2, w2), r1, Unlocks(name, u, 1, y, 2), r);
  }

  lemma LostEditReaches(files: Files, name: string, u: string, x: string, w: Write, c: string, y: string, main: string,
                        grown: string, w1: Write, c1: string, w2: Write, c2: string) returns (r: State)
    requires main == Read(files, Main(name)) && |ViewOf(main)| == 2 && WriteText(main, 0, w) == Some(c)
    requires main != "" && MayLock(main, 0) && MayLock(main, 1)
    requires grown == MergeOne(main, Queued(0, 2, c)) && |ViewOf(grown)| == 3 && grown != "" && MayLock(grown, 2)
    requires WriteText(main, 1, w1) == Some(c1) && WriteText(grown, 2, w2) == Some(c2)
    ensures Reaches(Start(files), LostEdit(name, u, x, w, y, w1, w2), r)
    ensures MainOf(r, name) == MergeOne(MergeOne(grown, Queued(1, 2, c1)), Queued(2, 3, c2))
  {
    var r1 := SharedSentence(files, name, u, x, w, y, main, c, grown);
    r := BothGoOn(r1, name, u, y, main, grown, w1, c1, w2, c2);
    var es, fs, gs := GrownUnderLock(name, u, x, w, y), Writings(name, u, 1, w1, y, 2, w2), Unlocks(name, u, 1, y, 2);
    Chain(Start(files), es, r1, fs + gs, r);
    Assoc(es, fs, gs);
  }

  lemma GrownTexts(a: char, b: char, c: char) returns (front: string, grown: string)
    requires KindOf(a) == KindOf(b) == KindOf(c) == Letter
    ensures var main := Line([a, b]);
      && main != "" && |ViewOf(main)| == 2 && WriteText(main, 0, Write(1, [c, '.'])) == Some(front)
      && grown == MergeOne(main, Queued(0, 2, front)) && grown != "" && ViewOf(grown) == [Short(c), Short(a), Short(b)]
  {
    var main := Line([a, b]);
    TwoSentences(a, b);
    ParseIsCut(main);
    front := CopyWithSentence(a, b, c);
    RunOfOne(main, 0, Write(1, [c, '.']));
    grown := MergeOne(main, Queued(0, 2, front));
    GrownFile(main, front, Short(a), Short(b), Short(c));
    ParseIsCut(grown);
  }

  lemma LostEditTexts(a: char, b: char, c: char, grown: string, d: char, e: char)
      returns (first: string, second: string)
    requires KindOf(a) == KindOf(b) == KindOf(c) == KindOf(d) == KindOf(e) == Letter
    requires grown != "" && ViewOf(grown) == [Short(c), Short(a), Short(b)]
    ensures var main := Line([a, b]);
      && main != ""
      && WriteText(main, 1, Write(3, [d])) == Some(first) && WriteText(grown, 2, Write(3, [e])) == Some(second)
      && ViewOf(MergeOne(MergeOne(grown, Queued(1, 2, first)), Queued(2, 3, second)))
         == [Short(c), Short(a), Short(b), Short(b), [[e]]]
  {
    TwoSentences(a, b);
    first := CopyWithTail(Line([a, b]), b, d);
    second := CopyWithTail(grown, b, e);
    RunOfOne(Line([a, b]), 1, Write(3, [d]));
    RunOfOne(grown, 2, Write(3, [e]));
    FirstCommit(grown, Queued(1, 2, first), Short(a), Short(b), Short(c), [[d]]);
    SecondCommit(MergeOne(grown, Queued(1, 2, first)), Queued(2, 3, second), Short(a), Short(b), Short(c), [[d]],
                 [[e]]);
  }

  /** The file "a. b.": u locks "b.", x puts "c." in front of the file, y locks "b." too, by its new index. u writes d
      behind it, y writes e behind it, and they unlock. All nine messages succeed; d is lost, and b is there twice. */
  lemma LostEditRun(files: Files, name: string, u: string, x: string, y: string, a: char, b: char, c: char, d: char,
                    e: char)
    requires KindOf(a) == KindOf(b) == KindOf(c) == KindOf(d) == KindOf(e) == Letter
    requires Read(files, Main(name)) == Line([a, b])
    ensures var es := LostEdit(name, u, x, Write(1, [c, '.']), y, Write(3, [d]), Write(3, [e]));
      && Succeeds(Start(files), es)
      && ViewOf(MainOf(ServerRuns.Run(Start(files), es), name)) == [Short(c), Short(a), Short(b), Short(b), [[e]]]
  {
    var main := Line([a, b]);
    var front, grown := GrownTexts(a, b, c);
    var first, second := LostEditTexts(a, b, c, grown, d, e);
    MayLockIff(main, 0);
    MayLockIff(main, 1);
    MayLockIff(grown, 2);
    var r := LostEditReaches(files, name, u, x, Write(1, [c, '.']), front, y, main, grown, Write(3, [d]), first,
                             Write(3, [e]), second);
  }

  lemma GrownFile(main: string, front: string, a: Sentence, b: Sentence, c: Sentence)
    requires ViewOf(main) == [a, b] && ViewOf(front) == [c, a, b]
    ensures ViewOf(MergeOne(main, Queued(0, 2, front))) == [c, a, b]
  {
    var q := Queued(0, 2, front);
    CommitLands(main, q, 0);
    assert q.Own() == [c, a];
    assert MergeView([a, b], [c, a], 0) == [c, a, b];
  }

  lemma FirstCommitViews(a: Sentence, b: Sentence, c: Sentence, d: Sentence)
    ensures OwnSentences([a, b, d], 1, 2) == [b, d]
    ensures MergeView([c, a, b], [b, d], 2) == [c, a, b, d]
  {
  }

  lemma FirstCommit(main: string, p: Queued, a: Sentence, b: Sentence, c: Sentence, d: Sentence)
    requires ViewOf(main) == [c, a, b]
    requires p.index == 1 && p.original == 2 && ViewOf(p.copy) == [a, b, d]
    ensures ViewOf(MergeOne(main, p)) == [c, a, b, d]
  {
    FirstCommitViews(a, b, c, d);
    CommitLands(main, p, 2);
  }

  lemma SecondCommitViews(a: Sentence, b: Sentence, c: Sentence, d: Sentence, e: Sentence)
    ensures OwnSentences([c, a, b, e], 2, 3) == [b, e]
    ensures MergeView([c, a, b, d], [b, e], 3) == [c, a, b, b, e]
  {
  }

  lemma SecondCommit(main: string, q: Queued, a: Sentence, b: Sentence, c: Sentence, d: Sentence, e: Sentence)
    requires ViewOf(main) == [c, a, b, d]
    requires q.index == 2 && q.original == 3 && ViewOf(q.copy) == [c, a, b, e]
    ensures ViewOf(MergeOne(main, q)) == [c, a, b, b, e]
  {
    SecondCommitViews(a, b, c, d, e);
    CommitLands(main, q, 3);
  }
}
