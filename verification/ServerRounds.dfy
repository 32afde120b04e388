/** Rounds of the storage server: sessions of any users that are open on one file at the same time. */
module ServerRounds {
  import opened Options
  import Text
  import opened Document
  import opened WriteSession
  import opened Session
  import opened Merge
  import opened Rounds
  import opened Storage
  import opened ServerState
  import opened ServerRuns
  import opened ServerHistory

  /** No lock on the file is granted once a commit has changed it, and nothing but commits rewrites it. */
  predicate OneRound(s: State, es: seq<Event>, name: string)
    requires Inv(s)
  {
    es == [] || (
      var front, e := es[..|es| - 1], es[|es| - 1];
      && OneRound(s, front, name)
      && !Rewrites(Run(s, front), e, name)
      && (CommitsOf(s, front, name) == [] || !Grants(Run(s, front), e, name)))
  }

  lemma {:induction false} OneRoundOnlyCommits(s: State, es: seq<Event>, name: string)
    requires Inv(s) && OneRound(s, es, name)
    ensures OnlyCommits(s, es, name)
  {
    if es != [] {
      OneRoundOnlyCommits(s, es[..|es| - 1], name);
    }
  }

  // ----- what each session wrote -----

  /** A session's accepted writes after one more message: none at its granted lock, one more with each accepted
      write. */
  function NextWrites(s: State, e: Event, v: ActiveSession, ws: seq<Write>): seq<Write>
    requires Inv(s)
  {
    if Grants(s, e, v.name) && v.Is(e.name, e.user, e.index) then []
    else if Writes(e, v) && ServerState.Step(s, e).1 == SUCCESS then ws + [e.write]
    else ws
  }

  /** The writes of the session that were accepted during a run since its lock was last granted. */
  function WritesSince(s: State, es: seq<Event>, v: ActiveSession): seq<Write>
    requires Inv(s)
  {
    if es == [] then [] else
      var front := es[..|es| - 1];
      NextWrites(Run(s, front), es[|es| - 1], v, WritesSince(s, front, v))
  }

  /** The session that an event commits. */
  function Committer(s: State, e: Event, name: string): (v: ActiveSession)
    requires Inv(s) && CommitAt(s, e, name) != []
    ensures v in s.sessions && v.name == name && v.Is(e.name, e.user, e.index)
    ensures SessionOk(s.files, s.table, v) && CommitAt(s, e, name) == [CommitOf(s, v)]
  {
    var v := s.sessions[FindSession(s.sessions, name, e.user, e.index)];
    assert SessionOk(s.files, s.table, v);
    v
  }

  /** For each commit to a file during a run, the accepted writes of its session. */
  function WritesOf(s: State, es: seq<Event>, name: string): (wss: seq<seq<Write>>)
    requires Inv(s)
    ensures |wss| == |CommitsOf(s, es, name)|
  {
    if es == [] then [] else
      var front, e := es[..|es| - 1], es[|es| - 1];
      WritesOf(s, front, name)
      + (if CommitAt(Run(s, front), e, name) == [] then []
         else [WritesSince(s, front, Committer(Run(s, front), e, name))])
  }

  // ----- the ledger of a round -----

  predicate StillOpen(s: State, v: ActiveSession, base: string, cs: seq<Queued>, ws: seq<Write>) {
    && SessionOk(s.files, s.table, v) && OpenedOn(base, CommitOf(s, v), ws)
    && forall i :: 0 <= i < |cs| ==> cs[i].index != v.index
  }

  /** All commits so far and all open sessions are of this round and have different sentences, and their copies are what
      their own accepted writes made of the text at the locks. */
  predicate Ledger(s: State, es: seq<Event>, name: string)
    requires Inv(s)
  {
    var base, cs := MainOf(s, name), CommitsOf(s, es, name);
    && Distinct(cs)
    && AllOpenedOn(base, cs, WritesOf(s, es, name))
    && (forall v :: v in Run(s, es).sessions && v.name == name ==>
          StillOpen(Run(s, es), v, base, cs, WritesSince(s, es, v)))
  }

  lemma OneWriter(s: State, v: ActiveSession, w: ActiveSession)
    requires Inv(s) && v in s.sessions && w in s.sessions && v.name == w.name && v.index == w.index
    ensures v == w
  {
    assert SessionOk(s.files, s.table, v) && SessionOk(s.files, s.table, w);
    SameKey(s, v, w);
  }

  lemma OneMoreWrite(base: string, k: nat, ws: seq<Write>, temp: string, w: Write, u: string)
    requires !(base == "" && k == 1) && RunWrites(base, k, ws) == Some(temp)
    requires !(temp == "" && k == 1) && WriteText(temp, k, w) == Some(u)
    ensures RunWrites(base, k, ws + [w]) == Some(u)
  {
    assert (ws + [w])[..|ws|] == ws;
  }

  lemma SessionStaysOpen(s: State, e: Event, v: ActiveSession, base: string, cs: seq<Queued>, ws: seq<Write>)
    requires Inv(s) && v in s.sessions && Spares(s, e, v) && StillOpen(s, v, base, cs, ws)
    ensures StillOpen(ServerState.Step(s, e).0, v, base, cs, NextWrites(s, e, v, ws))
  {
    var (r, status) := ServerState.Step(s, e);
    StepKeepsInv(s, e);
    SparedSession(s, e, v);
    assert SessionOk(r.files, r.table, v);
    if Writes(e, v) && status == SUCCESS {
      OneMoreWrite(base, v.index, ws, s.files[v.CopyPath()], e.write, r.files[v.CopyPath()]);
    }
  }

  lemma NewSession(s: State, e: Event, name: string, v: ActiveSession)
    requires Inv(s) && Grants(s, e, name)
    requires v in ServerState.Step(s, e).0.sessions && v.Is(e.name, e.user, e.index)
    ensures StillOpen(ServerState.Step(s, e).0, v, MainOf(s, name), [], [])
  {
    var r, base := ServerState.Step(s, e).0, MainOf(s, name);
    StepKeepsInv(s, e);
    GrantedLock(s, name, e.user, e.index);
    var w := ActiveSession(name, e.user, e.index, |ViewOf(base)|);
    SameKey(r, v, w);
    assert SessionOk(r.files, r.table, v);
    ParseIsCut(base);
  }

  /** A session's commit joins the ledger when the session leaves it. */
  lemma CommitJoins(s: State, e: Event, name: string, base: string, cs: seq<Queued>, v: ActiveSession, ws: seq<Write>)
    requires Inv(s) && CommitAt(s, e, name) != [] && v == Committer(s, e, name) && StillOpen(s, v, base, cs, ws)
    requires Distinct(cs)
    ensures Distinct(cs + CommitAt(s, e, name)) && OpenedOn(base, CommitAt(s, e, name)[0], ws)
  {
  }

  lemma OtherStaysOpen(s: State, e: Event, name: string, base: string, cs: seq<Queued>, v: ActiveSession,
                       ws: seq<Write>)
    requires Inv(s) && v in s.sessions && v.name == name && Spares(s, e, v) && StillOpen(s, v, base, cs, ws)
    ensures StillOpen(ServerState.Step(s, e).0, v, base, cs + CommitAt(s, e, name), NextWrites(s, e, v, ws))
  {
    var all := cs + CommitAt(s, e, name);
    SessionStaysOpen(s, e, v, base, cs, ws);
    forall i | 0 <= i < |all|
      ensures all[i].index != v.index
    {
      if i >= |cs| {
        var w := Committer(s, e, name);
        if w.index == v.index {
          OneWriter(s, v, w);
          assert false;
        }
      }
    }
  }

  lemma OpenAfter(s: State, e: Event, name: string, base: string, cs: seq<Queued>, v: ActiveSession, ws: seq<Write>)
    requires Inv(s) && v in ServerState.Step(s, e).0.sessions && v.name == name
    requires v in s.sessions ==> StillOpen(s, v, base, cs, ws)
    requires Grants(s, e, name) ==> cs == [] && MainOf(s, name) == base
    ensures StillOpen(ServerState.Step(s, e).0, v, base, cs + CommitAt(s, e, name), NextWrites(s, e, v, ws))
  {
    SessionsAfter(s, e, v);
    if v in s.sessions && Spares(s, e, v) {
      OtherStaysOpen(s, e, name, base, cs, v, ws);
    } else {
      NewSession(s, e, name, v);
      assert CommitAt(s, e, name) == [];
    }
  }

  lemma LedgerCommits(s: State, es: seq<Event>, name: string)
    requires Inv(s) && es != [] && Ledger(s, es[..|es| - 1], name)
    ensures Distinct(CommitsOf(s, es, name))
    ensures AllOpenedOn(MainOf(s, name), CommitsOf(s, es, name), WritesOf(s, es, name))
  {
    var front, e := es[..|es| - 1], es[|es| - 1];
    var r, base, cs := Run(s, front), MainOf(s, name), CommitsOf(s, front, name);
    if CommitAt(r, e, name) != [] {
      var v := Committer(r, e, name);
      assert StillOpen(r, v, base, cs, WritesSince(s, front, v));
      CommitJoins(r, e, name, base, cs, v, WritesSince(s, front, v));
    }
  }

  lemma {:induction false} LedgerHolds(s: State, es: seq<Event>, name: string)
    requires Inv(s) && OneRound(s, es, name) && forall v :: v in s.sessions ==> v.name != name
    ensures Ledger(s, es, name)
  {
    if es != [] {
      var front, e := es[..|es| - 1], es[|es| - 1];
      var r, base, cs := Run(s, front), MainOf(s, name), CommitsOf(s, front, name);
      LedgerHolds(s, front, name);
      OneRoundOnlyCommits(s, front, name);
      MainIsMerged(s, front, name);
      LedgerCommits(s, es, name);
      forall v | v in Run(s, es).sessions && v.name == name
        ensures StillOpen(Run(s, es), v, base, CommitsOf(s, es, name), WritesSince(s, es, v))
      {
        OpenAfter(r, e, name, base, cs, v, WritesSince(s, front, v));
      }
    }
  }

  // ----- rounds of a server run -----

  /** Any number of sessions of any users, open on a file at the same time, with any messages in between, and
      committed in any order: their locked sentences are different ones, each copy is what the session's own
      accepted writes made of the text at the locks, every commit lands on the sentence that its session locked if
      and only if none expands a sentence behind one that is committed later, and then the file is the old one with
      each locked sentence replaced by its session's sentences. */
  lemma SimultaneousSessions(s: State, es: seq<Event>, name: string)
    requires Inv(s) && OneRound(s, es, name) && forall v :: v in s.sessions ==> v.name != name
    requires MainOf(s, name) != ""
    ensures var base := MainOf(s, name); var queue := Inner(CommitsOf(s, es, name)); var doc := ViewOf(base);
      && SameBase(queue, |doc|) && Distinct(queue)
      && AllOpenedOn(base, CommitsOf(s, es, name), WritesOf(s, es, name))
      && ((forall j :: 0 <= j < |queue| ==> LandsHome(doc, queue, j)) <==> Ordered(queue))
      && (Ordered(queue) ==> ViewOf(MainOf(Run(s, es), name)) == Join(Replaced(Unedited(doc), queue)))
  {
    var base, cs := MainOf(s, name), CommitsOf(s, es, name);
    ParseIsCut(base);
    LedgerHolds(s, es, name);
    InnerMeans(cs, |ViewOf(base)|);
    AllLandIffOrdered(ViewOf(base), Inner(cs));
    OneRoundOnlyCommits(s, es, name);
    MainIsMerged(s, es, name);
    InnerIsEnough(base, cs);
    if Ordered(Inner(cs)) {
      ConcurrentMerge(base, Inner(cs));
    }
  }

  /** And then the file has its old real tokens with every text that the server accepted from these sessions spliced
      into the sentence that it was written to, if and only if all these writes stayed inside. Texts behind the last
      sentence are not among them; they are dropped. */
  lemma SimultaneousEdits(s: State, es: seq<Event>, name: string)
    requires Inv(s) && OneRound(s, es, name) && forall v :: v in s.sessions ==> v.name != name
    requires MainOf(s, name) != "" && Ordered(Inner(CommitsOf(s, es, name)))
    ensures var base, cs, wss := MainOf(s, name), CommitsOf(s, es, name), WritesOf(s, es, name);
      Real(Text.Tokens(MainOf(Run(s, es), name))) == Flatten(WithAll(ViewOf(base), cs, wss))
      <==> AllStayInside(base, cs, wss)
  {
    LedgerHolds(s, es, name);
    OneRoundOnlyCommits(s, es, name);
    MainIsMerged(s, es, name);
    RoundHoldsIff(MainOf(s, name), CommitsOf(s, es, name), WritesOf(s, es, name));
  }

  /** On an empty file there is at most one session, and the file becomes its copy, which holds all its accepted
      writes. */
  lemma SessionsOnEmptyFile(s: State, es: seq<Event>, name: string)
    requires Inv(s) && OneRound(s, es, name) && forall v :: v in s.sessions ==> v.name != name
    requires MainOf(s, name) == ""
    ensures var cs, wss, final := CommitsOf(s, es, name), WritesOf(s, es, name), MainOf(Run(s, es), name);
      && |cs| <= 1 && AllOpenedOn("", cs, wss)
      && ViewOf(final) == (if cs == [] then [] else ViewOf(cs[0].copy))
      && Real(Text.Tokens(final)) == if cs == [] then [] else Spliced([], wss[0])
  {
    LedgerHolds(s, es, name);
    OneRoundOnlyCommits(s, es, name);
    MainIsMerged(s, es, name);
    RoundOnEmptyFile(CommitsOf(s, es, name), WritesOf(s, es, name));
  }
}
