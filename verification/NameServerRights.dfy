/** The name server's runs and the history of the files: who may do what, with the cache in front of the catalogue. */
module NameServerRights {
  import opened Options
  import opened Storage
  import opened Catalogue
  import opened CatalogueHistory
  import opened CatalogueCache

  /** The same metadata but for the note of the last access. */
  predicate SameMeta(a: FileMeta, b: FileMeta) {
    a.(accessed := b.accessed, accessedBy := b.accessedBy) == b
  }

  predicate SameRights(c: Directory, d: Directory) {
    && c.users == d.users && c.requests == d.requests && c.files.Keys == d.files.Keys
    && forall name :: name in c.files ==> SameMeta(c.files[name], d.files[name])
  }

  lemma SameAccess(c: Directory, d: Directory, name: string, user: string, required: int)
    requires SameRights(c, d)
    ensures MayAccess(c.files, name, user, required) <==> MayAccess(d.files, name, user, required)
  {
    if name in c.files {
      assert SameMeta(c.files[name], d.files[name]);
    }
  }

  lemma SameWith(c: Directory, d: Directory, name: string, a: FileMeta, b: FileMeta)
    requires SameRights(c, d) && SameMeta(a, b)
    ensures SameRights(WithFile(c, name, a), WithFile(d, name, b))
  {
  }

  lemma UseKeepsRights(c: Directory, d: Directory, sender: string, name: string, required: int, now: int,
                       found: Option<FileMeta>)
    requires SameRights(c, d)
    ensures SameRights(UseFound(c, sender, name, required, now, found).0, StepUse(d, sender, name, required, now).0)
  {
    SameAccess(c, d, name, sender, required);
    if name in c.files {
      assert SameMeta(c.files[name], d.files[name]);
    }
  }

  lemma AccessKeepsRights(c: Directory, d: Directory, sender: string, name: string, target: string, access: int)
    requires SameRights(c, d)
    ensures SameRights(StepAdd(c, sender, name, target, access).0, StepAdd(d, sender, name, target, access).0)
    ensures StepAdd(c, sender, name, target, access).1 == StepAdd(d, sender, name, target, access).1
    ensures SameRights(StepRemove(c, sender, name, target).0, StepRemove(d, sender, name, target).0)
    ensures StepRemove(c, sender, name, target).1 == StepRemove(d, sender, name, target).1
  {
    if name in c.files {
      var a, b := c.files[name], d.files[name];
      assert SameMeta(a, b);
      SameWith(c, d, name, a.(acl := Grant(a.acl, target, access)), b.(acl := Grant(b.acl, target, access)));
      SameWith(c, d, name, a.(acl := Revoke(a.acl, target)), b.(acl := Revoke(b.acl, target)));
    }
  }

  lemma DecisionKeepsRights(c: Directory, d: Directory, sender: string, id: int)
    requires SameRights(c, d)
    ensures SameRights(StepApprove(c, sender, id).0, StepApprove(d, sender, id).0)
    ensures SameRights(StepDeny(c, sender, id).0, StepDeny(d, sender, id).0)
    ensures StepApprove(c, sender, id).1 == StepApprove(d, sender, id).1 == Decidable(c, sender, id)
    ensures StepDeny(c, sender, id).1 == StepDeny(d, sender, id).1
  {
    if 0 <= id < |c.requests| && c.requests[id].filename in c.files {
      var q := c.requests[id];
      var a, b := c.files[q.filename], d.files[q.filename];
      assert SameMeta(a, b);
      SameWith(c, d, q.filename, a.(acl := Grant(a.acl, q.user, q.access)), b.(acl := Grant(b.acl, q.user, q.access)));
    }
  }

  lemma MoveKeepsRights(c: Directory, d: Directory, sender: string, name: string, folder: string, there: bool,
                        connected: bool, reply: int)
    requires SameRights(c, d)
    ensures var (x, y) := (StepMove(c, sender, name, folder, there, connected, reply),
                           StepMove(d, sender, name, folder, there, connected, reply));
      SameRights(x.0, y.0) && x.1 == y.1
  {
    SameAccess(c, d, name, sender, ACCESS_WRITE);
    if name in c.files {
      assert SameMeta(c.files[name], d.files[name]);
      SameWith(c, d, name, c.files[name].(folder := folder), d.files[name].(folder := folder));
    }
  }

  lemma FileKeepsRights(c: Directory, d: Directory, e: Event)
    requires SameRights(c, d) && (e.Create? || e.Delete? || e.Register?)
    ensures SameRights(Step(c, e).0, Step(d, e).0) && Step(c, e).1 == Step(d, e).1
  {
    var name := e.name;
    if name in c.files {
      assert SameMeta(c.files[name], d.files[name]);
    }
    match e
    case Create(sender, _, ssId, _, now) =>
      SameWith(c, d, name, NewFile(name, sender, ssId, now), NewFile(name, sender, ssId, now));
    case Register(_, ssId, _) =>
      if name in c.files {
        SameWith(c, d, name, c.files[name].(ssId := ssId), d.files[name].(ssId := ssId));
      }
    case _ =>
  }

  lemma OwnerKeepsRights(c: Directory, d: Directory, e: Event)
    requires SameRights(c, d) && (e.AddAccess? || e.RemoveAccess? || e.Approve? || e.Deny?)
    ensures SameRights(Step(c, e).0, Step(d, e).0) && Step(c, e).1 == Step(d, e).1
  {
    match e
    case AddAccess(sender, name, target, access) => AccessKeepsRights(c, d, sender, name, target, access);
    case RemoveAccess(sender, name, target) => AccessKeepsRights(c, d, sender, name, target, ACCESS_READ);
    case Approve(sender, id) => DecisionKeepsRights(c, d, sender, id);
    case Deny(sender, id) => DecisionKeepsRights(c, d, sender, id);
  }

  lemma RequestKeepsRights(c: Directory, d: Directory, sender: string, name: string, access: int)
    requires SameRights(c, d)
    ensures SameRights(StepRequest(c, sender, name, access).0, StepRequest(d, sender, name, access).0)
    ensures StepRequest(c, sender, name, access).1 == StepRequest(d, sender, name, access).1
  {
    SameAccess(c, d, name, sender, access);
  }

  /** What the cache finds decides about the answer to a use and about nothing else. */
  lemma StepKeepsRights(c: Directory, d: Directory, e: Event, found: Option<FileMeta>)
    requires SameRights(c, d)
    ensures SameRights(StepFound(c, e, found).0, Step(d, e).0)
    ensures !e.Use? ==> StepFound(c, e, found).1 == Step(d, e).1
  {
    match e
    case RequestAccess(sender, name, access) => RequestKeepsRights(c, d, sender, name, access);
    case Move(sender, name, folder, there, connected, reply) =>
      MoveKeepsRights(c, d, sender, name, folder, there, connected, reply);
    case Use(sender, name, required, now) => UseKeepsRights(c, d, sender, name, required, now, found);
    case AddUser(_) =>
    case _ =>
      if e.Create? || e.Delete? || e.Register? {
        FileKeepsRights(c, d, e);
      } else {
        OwnerKeepsRights(c, d, e);
      }
  }

  /** Over every run that was answered, whatever the cache held: users, requests, files, owners, access lists, folders
      and storage servers are those of the catalogue without a cache. */
  lemma {:induction false} RunKeepsRights(es: seq<Event>, hash: string -> nat)
    requires ServerRun(es, hash).Some?
    ensures SameRights(ServerRun(es, hash).value.dir, Run(es))
  {
    if es != [] {
      var front, e := es[..|es| - 1], es[|es| - 1];
      RunKeepsRights(front, hash);
      var s := ServerRun(front, hash).value;
      StepKeepsRights(s.dir, Run(front), e, Found(s.cache, e, hash));
    }
  }

  /** After every run of the name server, whatever its cache holds: a message other than a use succeeds if and only if
      the history says so; a use, only if the history gives its sender that access. */
  lemma AnswersAreHistory(es: seq<Event>, hash: string -> nat, e: Event)
    requires NeverFull(es) && ServerRun(es, hash).Some? && ServerStep(ServerRun(es, hash).value, e, hash).Some?
    ensures var status := ServerStep(ServerRun(es, hash).value, e, hash).value.1;
      if e.Use? then status == SUCCESS ==> Permits(StandingAfter(es, e.name, e.sender), e.sender, e.required)
      else status == SUCCESS <==> Granted(es, e)
  {
    var s := ServerRun(es, hash).value;
    RunKeepsRights(es, hash);
    StepKeepsRights(s.dir, Run(es), e, Found(s.cache, e, hash));
    SucceedsIff(es, e);
    if e.Use? {
      SameAccess(s.dir, Run(es), e.name, e.sender, e.required);
      AccessIsHistory(es, e.name, e.sender, e.required);
    }
  }

  /** In every state of the name server: only its owner changes what anyone may do with a file, or removes it. */
  lemma ServerOwnersDecide(s: Server, e: Event, hash: string -> nat, name: string, user: string)
    requires ServerStep(s, e, hash).Some? && name in s.dir.files
    ensures var r := ServerStep(s, e, hash).value.0.dir;
      && (Affects(s.dir, r, name, user) ==> Sender(e) == Some(s.dir.files[name].owner))
      && (name in r.files ==> r.files[name].owner == s.dir.files[name].owner)
  {
    if !e.Use? {
      OwnersDecide(s.dir, e, name, user);
    }
  }

  /** Over every run of the name server: a request waits if and only if it was made and not decided since. */
  lemma ServerWaitsIff(es: seq<Event>, hash: string -> nat, q: Request)
    requires ServerRun(es, hash).Some?
    ensures q in ServerRun(es, hash).value.dir.requests <==> MadeAndOpen(es, q)
  {
    RunKeepsRights(es, hash);
    WaitsIff(es, q);
  }
}
