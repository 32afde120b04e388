/** What the messages of a run say about owners, access and waiting requests: a history read off the messages alone, and
    the catalogue that agrees with it. */
module CatalogueHistory {
  import opened Options
  import TrieSpec
  import opened Storage
  import opened Catalogue

  // ----- the history -----

  /** What is known about a file and a user: whether the file exists, who owns it, and what the user was last
      granted. */
  datatype Standing = NoFile | Standing(owner: string, grant: Option<int>)

  predicate Owns(s: Standing, user: string) {
    s.Standing? && s.owner == user
  }

  predicate Permits(s: Standing, user: string, required: int) {
    s.Standing? && (s.owner == user || Allows(s.grant, required))
  }

  /** The standing after one more message, from the messages before it, the requests that wait and the standing
      before. */
  function NextStanding(front: seq<Event>, waiting: seq<Request>, before: Standing, e: Event, name: string,
                        user: string): Standing
  {
    match e
    case Create(sender, n, ssId, reply, _) =>
      if n == name && before.NoFile? && ssId >= 0 && reply == SUCCESS && TrieSpec.IsAscii(n)
      then Standing(sender, None) else before
    case Register(n, _, _) =>
      if n == name && before.NoFile? && TrieSpec.IsAscii(n) then Standing("system", None) else before
    case Delete(sender, n, locked, reply) =>
      if n == name && Owns(before, sender) && !locked && reply == SUCCESS then NoFile else before
    case AddAccess(sender, n, target, access) =>
      if n == name && target == user && Owns(before, sender) && target != sender && AddUser(target) in front
      then before.(grant := Some(access)) else before
    case RemoveAccess(sender, n, target) =>
      if n == name && target == user && Owns(before, sender) then before.(grant := None) else before
    case Approve(sender, id) =>
      if 0 <= id < |waiting| && waiting[id].filename == name && waiting[id].user == user && Owns(before, sender)
      then before.(grant := Some(waiting[id].access)) else before
    case _ => before
  }

  /** The standing after all messages. */
  function StandingAfter(es: seq<Event>, name: string, user: string): Standing
    decreases |es|, 0
  {
    if es == [] then NoFile else
      var front := es[..|es| - 1];
      NextStanding(front, Waiting(front), StandingAfter(front, name, user), es[|es| - 1], name, user)
  }

  /** The file that a message is about; for a decision, that of the request. */
  function FileOf(waiting: seq<Request>, e: Event): string {
    match e
    case Approve(_, id) => if 0 <= id < |waiting| then waiting[id].filename else ""
    case Deny(_, id) => if 0 <= id < |waiting| then waiting[id].filename else ""
    case AddUser(_) => ""
    case _ => e.name
  }

  /** The user who sends a message; nobody for those of storage servers and new users. */
  function SenderOf(e: Event): string {
    match e
    case Register(_, _, _) => ""
    case AddUser(_) => ""
    case _ => e.sender
  }

  /** The requests that wait after one more message, by the standing of its sender on its file. */
  function NextWaiting(before: seq<Request>, s: Standing, e: Event): seq<Request> {
    match e
    case RequestAccess(sender, n, access) =>
      if s.Standing? && !Permits(s, sender, access) && Request(sender, n, access) !in before
         && |before| < MAX_REQUESTS
      then before + [Request(sender, n, access)] else before
    case Approve(sender, id) =>
      if 0 <= id < |before| && Owns(s, sender) then before[..id] + before[id + 1..] else before
    case Deny(sender, id) =>
      if 0 <= id < |before| && Owns(s, sender) then before[..id] + before[id + 1..] else before
    case _ => before
  }

  /** The requests that wait after all messages, oldest first: made by users who may not access the file, once each, and
      neither approved nor denied by the file's owner since. */
  function Waiting(es: seq<Event>): seq<Request>
    decreases |es|, 0
  {
    if es == [] then [] else
      var front, e := es[..|es| - 1], es[|es| - 1];
      var before := Waiting(front);
      NextWaiting(before, StandingAfter(front, FileOf(before, e), SenderOf(e)), e)
  }

  function NextHome(before: int, s: Standing, e: Event, name: string): int {
    match e
    case Create(_, n, ssId, reply, _) =>
      if n == name && s.NoFile? && ssId >= 0 && reply == SUCCESS then ssId else before
    case Register(n, ssId, _) => if n == name then ssId else before
    case _ => before
  }

  /** The storage server that was chosen for the file or that last brought it along; -1 if there was none. */
  function HomeAfter(es: seq<Event>, name: string): int {
    if es == [] then -1 else
      var front, e := es[..|es| - 1], es[|es| - 1];
      NextHome(HomeAfter(front, name), StandingAfter(front, name, SenderOf(e)), e, name)
  }

  /** Which messages succeed, by the standing of the sender on the file, and by the requests and users there are. */
  predicate Allowed(es: seq<Event>, waiting: seq<Request>, s: Standing, home: int, e: Event) {
    match e
    case Create(_, _, ssId, reply, _) => s.NoFile? && ssId >= 0 && reply == SUCCESS
    case Delete(sender, _, locked, reply) => Owns(s, sender) && !locked && reply == SUCCESS
    case AddAccess(sender, _, target, _) => Owns(s, sender) && AddUser(target) in es && target != sender
    case RemoveAccess(sender, _, _) => Owns(s, sender)
    case RequestAccess(sender, n, access) =>
      s.Standing? && (Permits(s, sender, access) || Request(sender, n, access) in waiting || |waiting| < MAX_REQUESTS)
    case Approve(sender, id) => 0 <= id < |waiting| && Owns(s, sender)
    case Deny(sender, id) => 0 <= id < |waiting| && Owns(s, sender)
    case Move(sender, _, folder, there, connected, reply) =>
      && Permits(s, sender, ACCESS_WRITE)
      && (folder == "" || folder == "/" || there) && connected && reply == SUCCESS
    case Use(sender, _, required, _) => Permits(s, sender, required) && home >= 0
    case Register(_, _, _) => true
    case AddUser(_) => true
  }

  /** The standing of the sender of a message on its file. */
  function StandingFor(es: seq<Event>, e: Event): Standing {
    StandingAfter(es, FileOf(Waiting(es), e), SenderOf(e))
  }

  predicate Granted(es: seq<Event>, e: Event) {
    Allowed(es, Waiting(es), StandingFor(es, e), HomeAfter(es, FileOf(Waiting(es), e)), e)
  }

  // ----- the catalogue agrees with it -----

  /** The stored metadata agrees with the standing. */
  predicate Matches(c: Directory, name: string, user: string, s: Standing) {
    if name in c.files then s == Standing(c.files[name].owner, AccessOf(c.files[name].acl, user)) else s == NoFile
  }

  ghost predicate AllMatch(c: Directory, es: seq<Event>) {
    forall name, user {:trigger StandingAfter(es, name, user)} :: Matches(c, name, user, StandingAfter(es, name, user))
  }

  ghost predicate SameUsers(c: Directory, es: seq<Event>) {
    forall u :: u in c.users <==> AddUser(u) in es
  }

  ghost predicate SameHomes(c: Directory, es: seq<Event>) {
    forall name :: name in c.files ==> c.files[name].ssId == HomeAfter(es, name)
  }

  ghost predicate Follows(c: Directory, es: seq<Event>) {
    AllMatch(c, es) && c.requests == Waiting(es) && SameUsers(c, es) && SameHomes(c, es) && AllDistinct(c)
  }

  /** No access list was ever full. */
  predicate NeverFull(es: seq<Event>) {
    forall n :: 0 <= n < |es| ==> NotFull(Run(es[..n]))
  }

  lemma Unfolds(es: seq<Event>, front: seq<Event>, e: Event)
    requires es != [] && front == es[..|es| - 1] && e == es[|es| - 1]
    ensures es == front + [e] && Run(es) == Step(Run(front), e).0
    ensures NeverFull(es) ==> NeverFull(front) && NotFull(Run(front))
  {
    assert forall n :: 0 <= n < |front| ==> front[..n] == es[..n];
  }

  /** The catalogue has these users, these requests and no user twice in a list. */
  ghost predicate Knows(c: Directory, front: seq<Event>, waiting: seq<Request>) {
    SameUsers(c, front) && c.requests == waiting && AllDistinct(c)
  }

  lemma AddMatches(c: Directory, front: seq<Event>, waiting: seq<Request>, before: Standing, sender: string, n: string,
                   target: string, access: int, name: string, user: string)
    requires Knows(c, front, waiting) && NotFull(c) && Matches(c, name, user, before)
    ensures Matches(StepAdd(c, sender, n, target, access).0, name, user,
                    NextStanding(front, waiting, before, AddAccess(sender, n, target, access), name, user))
  {
    if n in c.files {
      GrantIs(c.files[n].acl, target, access, user);
    }
  }

  lemma RemoveMatches(c: Directory, front: seq<Event>, waiting: seq<Request>, before: Standing, sender: string,
                      n: string, target: string, name: string, user: string)
    requires Knows(c, front, waiting) && Matches(c, name, user, before)
    ensures Matches(StepRemove(c, sender, n, target).0, name, user,
                    NextStanding(front, waiting, before, RemoveAccess(sender, n, target), name, user))
  {
    if n in c.files {
      RevokeIs(c.files[n].acl, target, user);
    }
  }

  lemma ApproveMatches(c: Directory, front: seq<Event>, waiting: seq<Request>, before: Standing, sender: string,
                       id: int, name: string, user: string)
    requires Knows(c, front, waiting) && NotFull(c) && Matches(c, name, user, before)
    ensures Matches(StepApprove(c, sender, id).0, name, user,
                    NextStanding(front, waiting, before, Approve(sender, id), name, user))
  {
    if Decidable(c, sender, id) == SUCCESS {
      var r := c.requests[id];
      GrantIs(c.files[r.filename].acl, r.user, r.access, user);
    }
  }

  lemma NextMatches(c: Directory, front: seq<Event>, waiting: seq<Request>, before: Standing, e: Event, name: string,
                    user: string)
    requires Knows(c, front, waiting) && NotFull(c) && Matches(c, name, user, before)
    ensures Matches(Step(c, e).0, name, user, NextStanding(front, waiting, before, e, name, user))
  {
    match e
    case AddAccess(sender, n, target, access) =>
      AddMatches(c, front, waiting, before, sender, n, target, access, name, user);
    case RemoveAccess(sender, n, target) => RemoveMatches(c, front, waiting, before, sender, n, target, name, user);
    case Approve(sender, id) => ApproveMatches(c, front, waiting, before, sender, id, name, user);
    case _ =>
  }

  lemma OneMatches(c: Directory, front: seq<Event>, es: seq<Event>, e: Event, name: string, user: string)
    requires Follows(c, front) && NotFull(c) && es == front + [e]
    ensures Matches(Step(c, e).0, name, user, StandingAfter(es, name, user))
  {
    assert es[..|es| - 1] == front;
    var before := StandingAfter(front, name, user);
    NextMatches(c, front, Waiting(front), before, e, name, user);
  }

  lemma NextRequests(c: Directory, waiting: seq<Request>, s: Standing, e: Event)
    requires c.requests == waiting && Matches(c, FileOf(waiting, e), SenderOf(e), s)
    ensures Step(c, e).0.requests == NextWaiting(waiting, s, e)
  {
  }

  lemma RequestsMatch(c: Directory, front: seq<Event>, es: seq<Event>, e: Event)
    requires Follows(c, front) && es == front + [e]
    ensures Step(c, e).0.requests == Waiting(es)
  {
    assert es[..|es| - 1] == front;
    var s := StandingFor(front, e);
    NextRequests(c, Waiting(front), s, e);
  }

  lemma NextHomeIs(c: Directory, before: int, s: Standing, e: Event, name: string)
    requires name in c.files ==> c.files[name].ssId == before
    requires Matches(c, name, SenderOf(e), s)
    ensures var r := Step(c, e).0; name in r.files ==> r.files[name].ssId == NextHome(before, s, e, name)
  {
  }

  lemma HomesMatch(c: Directory, front: seq<Event>, es: seq<Event>, e: Event)
    requires Follows(c, front) && es == front + [e]
    ensures SameHomes(Step(c, e).0, es)
  {
    assert es[..|es| - 1] == front;
    var r := Step(c, e).0;
    forall name | name in r.files
      ensures r.files[name].ssId == HomeAfter(es, name)
    {
      var s := StandingAfter(front, name, SenderOf(e));
      NextHomeIs(c, HomeAfter(front, name), s, e, name);
    }
  }

  lemma UsersMatch(c: Directory, front: seq<Event>, es: seq<Event>, e: Event)
    requires SameUsers(c, front) && es == front + [e]
    ensures SameUsers(Step(c, e).0, es)
  {
    assert forall x :: x in es <==> x in front || x == e;
  }

  lemma AllMatchNext(c: Directory, front: seq<Event>, es: seq<Event>, e: Event, r: Directory)
    requires Follows(c, front) && NotFull(c) && es == front + [e] && r == Step(c, e).0
    ensures AllMatch(r, es)
  {
    forall name, user
      ensures Matches(r, name, user, StandingAfter(es, name, user))
    {
      OneMatches(c, front, es, e, name, user);
    }
  }

  lemma StepFollows(c: Directory, front: seq<Event>, es: seq<Event>, e: Event)
    requires Follows(c, front) && NotFull(c) && es == front + [e]
    ensures Follows(Step(c, e).0, es)
  {
    AllMatchNext(c, front, es, e, Step(c, e).0);
    UsersMatch(c, front, es, e);
    RequestsMatch(c, front, es, e);
    HomesMatch(c, front, es, e);
    StepKeepsDistinct(c, e);
  }

  lemma {:induction false} RunFollows(es: seq<Event>)
    requires NeverFull(es)
    ensures Follows(Run(es), es)
  {
    if es != [] {
      var front, e := es[..|es| - 1], es[|es| - 1];
      Unfolds(es, front, e);
      RunFollows(front);
      StepFollows(Run(front), front, es, e);
    }
  }

  /** As long as no access list is full, checking access says what the history of creations, grants, removals and
      approvals says, and no user has two entries. */
  lemma AccessIsHistory(es: seq<Event>, name: string, user: string, required: int)
    requires NeverFull(es)
    ensures AllDistinct(Run(es)) && Matches(Run(es), name, user, StandingAfter(es, name, user))
    ensures MayAccess(Run(es).files, name, user, required) <==> Permits(StandingAfter(es, name, user), user, required)
  {
    RunFollows(es);
    assert Matches(Run(es), name, user, StandingAfter(es, name, user));
  }

  /** And the waiting requests are those of the history, in its order. */
  lemma RequestsAreHistory(es: seq<Event>)
    requires NeverFull(es)
    ensures Run(es).requests == Waiting(es)
  {
    RunFollows(es);
  }

  /** And a message succeeds if and only if the history says so: who may create, delete, grant, take away, decide, move
      and use. */
  lemma SucceedsIff(es: seq<Event>, e: Event)
    requires NeverFull(es)
    ensures Step(Run(es), e).1 == SUCCESS <==> Granted(es, e)
  {
    RunFollows(es);
    var s, name := StandingFor(es, e), FileOf(Waiting(es), e);
    AllowedIff(Run(es), es, Waiting(es), s, HomeAfter(es, name), e);
  }

  lemma AllowedIff(c: Directory, es: seq<Event>, waiting: seq<Request>, s: Standing, home: int, e: Event)
    requires SameUsers(c, es) && c.requests == waiting && Matches(c, FileOf(waiting, e), SenderOf(e), s)
    requires FileOf(waiting, e) in c.files ==> c.files[FileOf(waiting, e)].ssId == home
    ensures Step(c, e).1 == SUCCESS <==> Allowed(es, waiting, s, home, e)
  {
  }

  /** No user ever has two entries on a file. */
  lemma {:induction false} RunKeepsDistinct(es: seq<Event>)
    ensures AllDistinct(Run(es))
  {
    if es != [] {
      RunKeepsDistinct(es[..|es| - 1]);
      StepKeepsDistinct(Run(es[..|es| - 1]), es[|es| - 1]);
    }
  }

  // ----- who changes what -----

  /** In every state: access is granted and taken away, files are deleted and requests decided by the owner of the
      stored file, and by nobody else. */
  lemma OwnersSucceedIff(c: Directory, sender: string, name: string, target: string, access: int, locked: bool,
                         reply: int, id: int)
    ensures var owns := name in c.files && c.files[name].owner == sender;
      && (StepAdd(c, sender, name, target, access).1 == SUCCESS <==> owns && target in c.users && target != sender)
      && (StepRemove(c, sender, name, target).1 == SUCCESS <==> owns)
      && (StepDelete(c, sender, name, locked, reply).1 == SUCCESS <==> owns && !locked && reply == SUCCESS)
    ensures var decides := 0 <= id < |c.requests| && c.requests[id].filename in c.files
                           && c.files[c.requests[id].filename].owner == sender;
      && (StepApprove(c, sender, id).1 == SUCCESS <==> decides)
      && (StepDeny(c, sender, id).1 == SUCCESS <==> decides)
  {
  }

  /** Who sent a message, if a user did. */
  function Sender(e: Event): Option<string> {
    match e
    case Register(_, _, _) => None
    case AddUser(_) => None
    case _ => Some(e.sender)
  }

  /** What a message is answered when it is refused: 404 if the file is not there, 401 if its owner is somebody else,
      403 if the sender may not access it, and so on, in this order. */
  lemma RefusedWith(c: Directory, e: Event)
    ensures var status := Step(c, e).1;
      match e
      case Create(_, n, ssId, reply, _) => status == (if n in c.files then 409 else if ssId < 0 then 503 else reply)
      case Delete(sender, n, locked, reply) =>
        status == (if n !in c.files then 404 else if c.files[n].owner != sender then 401 else if locked then 424
                   else reply)
      case AddAccess(sender, n, target, _) =>
        status == (if n !in c.files then 404 else if c.files[n].owner != sender then 401
                   else if target !in c.users then 406 else if target == sender then 405 else 200)
      case RemoveAccess(sender, n, _) =>
        status == (if n !in c.files then 404 else if c.files[n].owner != sender then 401 else 200)
      case RequestAccess(sender, n, access) =>
        status == (if n !in c.files then 404
                   else if MayAccess(c.files, n, sender, access) || Request(sender, n, access) in c.requests
                           || |c.requests| < MAX_REQUESTS then 200 else 500)
      case Approve(sender, id) => status == DecisionAnswer(c, sender, id)
      case Deny(sender, id) => status == DecisionAnswer(c, sender, id)
      case Move(sender, n, folder, there, connected, reply) =>
        status == (if n !in c.files then 404 else if !MayAccess(c.files, n, sender, ACCESS_WRITE) then 403
                   else if folder != "" && folder != "/" && !there then 404 else if !connected then 503 else reply)
      case Use(sender, n, required, _) =>
        status == (if !MayAccess(c.files, n, sender, required) then 403 else if c.files[n].ssId < 0 then 404 else 200)
      case _ => status == 200
  {
  }

  function DecisionAnswer(c: Directory, sender: string, id: int): int {
    if id < 0 || id >= |c.requests| then 400
    else if c.requests[id].filename !in c.files || c.files[c.requests[id].filename].owner != sender then 401
    else 200
  }

  /** A message that is refused changes nothing. */
  lemma RefusedChangesNothing(c: Directory, e: Event)
    requires Step(c, e).1 != SUCCESS
    ensures Step(c, e).0 == c
  {
  }

  /** The user's access to a stored file is different, or the file is gone. */
  predicate Affects(c: Directory, r: Directory, name: string, user: string) {
    name in c.files && (name !in r.files || AccessOf(r.files[name].acl, user) != AccessOf(c.files[name].acl, user))
  }

  /** Only its owner changes what anyone may do with a file, or removes it; it never gets another owner. */
  lemma OwnersDecide(c: Directory, e: Event, name: string, user: string)
    requires name in c.files
    ensures var r := Step(c, e).0;
      && (Affects(c, r, name, user) ==> Sender(e) == Some(c.files[name].owner))
      && (name in r.files ==> r.files[name].owner == c.files[name].owner)
  {
  }

  /** Apart from access lists: a stored file keeps its name; its folder changes by moving it only, its storage server by
      a registration only, the note of the last access by a use only; and each by messages about this file only. */
  lemma FieldsChangeBy(c: Directory, e: Event, name: string)
    requires name in c.files && name in Step(c, e).0.files
    ensures var a, b, ok := c.files[name], Step(c, e).0.files[name], Step(c, e).1 == SUCCESS;
      && b.filename == a.filename
      && b.folder == (if e.Move? && e.name == name && ok then e.folder else a.folder)
      && b.ssId == (if e.Register? && e.name == name then e.ssId else a.ssId)
      && (b.accessed, b.accessedBy)
         == if e.Use? && e.name == name && ok then (e.now, e.sender) else (a.accessed, a.accessedBy)
  {
  }

  /** A file comes into the catalogue by a creation or a registration, with nobody but its owner on it. */
  lemma FilesComeBy(c: Directory, e: Event, name: string)
    requires name !in c.files && name in Step(c, e).0.files
    ensures TrieSpec.IsAscii(name) && (e.Create? || e.Register?) && e.name == name
    ensures var m := Step(c, e).0.files[name];
      && m.filename == name && m.folder == "" && m.acl == [] && m.ssId == e.ssId && m.accessed == e.now
      && m.owner == (if e.Create? then e.sender else "system")
      && m.accessedBy == (if e.Create? then e.sender else "")
  {
  }

  // ----- requests -----

  /** A request by a user who may not access the file is recorded behind all others, unless it waits already or the
      table is full. */
  lemma RequestIsRecorded(c: Directory, sender: string, name: string, access: int)
    requires name in c.files && !MayAccess(c.files, name, sender, access)
    ensures var (r, status) := StepRequest(c, sender, name, access); var q := Request(sender, name, access);
      && (status == SUCCESS <==> q in r.requests)
      && (status == SUCCESS <==> q in c.requests || |c.requests| < MAX_REQUESTS)
      && (q in c.requests || status != SUCCESS ==> r.requests == c.requests)
      && (q !in c.requests && status == SUCCESS ==>
            |r.requests| == |c.requests| + 1 && c.requests <= r.requests && r.requests[|c.requests|] == q)
  {
    var (r, status) := StepRequest(c, sender, name, access);
    if status == SUCCESS && Request(sender, name, access) !in c.requests {
      assert r.requests[|c.requests|] == Request(sender, name, access);
    }
  }

  predicate IsDecision(e: Event, id: int) {
    (e.Approve? || e.Deny?) && e.id == id
  }

  /** An approval or a denial that succeeds takes away exactly the request that it names and leaves the others in
      their order. */
  lemma DecisionTakesOne(c: Directory, e: Event, id: int)
    requires IsDecision(e, id) && Step(c, e).1 == SUCCESS
    ensures 0 <= id < |c.requests|
    ensures var r := Step(c, e).0.requests;
      && |r| == |c.requests| - 1
      && (forall j :: 0 <= j < id ==> r[j] == c.requests[j])
      && (forall j :: id <= j < |r| ==> r[j] == c.requests[j + 1])
  {
  }

  /** Messages other than requests, approvals and denials leave the table as it is. */
  lemma OthersKeepRequests(c: Directory, e: Event)
    requires !e.RequestAccess? && !e.Approve? && !e.Deny?
    ensures Step(c, e).0.requests == c.requests
  {
  }

  /** Message `i` of the run puts the request into the table, or finds it there: its user may not access the file, which
      is stored, and there is room. */
  predicate Made(es: seq<Event>, i: nat, q: Request)
    requires i < |es|
  {
    var c := Run(es[..i]);
    && es[i] == RequestAccess(q.user, q.filename, q.access)
    && q.filename in c.files && !MayAccess(c.files, q.filename, q.user, q.access)
    && |c.requests| < MAX_REQUESTS
  }

  /** Message `i` of the run is the decision of the file's owner about the request. */
  predicate Decided(es: seq<Event>, i: nat, q: Request)
    requires i < |es|
  {
    var c := Run(es[..i]);
    && (es[i].Approve? || es[i].Deny?) && 0 <= es[i].id < |c.requests| && c.requests[es[i].id] == q
    && q.filename in c.files && c.files[q.filename].owner == es[i].sender
  }

  predicate MadeAndOpen(es: seq<Event>, q: Request) {
    exists i :: 0 <= i < |es| && Made(es, i, q) && OpenSince(es, i, q)
  }

  predicate OpenSince(es: seq<Event>, i: nat, q: Request) {
    forall j :: i < j < |es| ==> !Decided(es, j, q)
  }

  lemma FrontKeeps(es: seq<Event>, front: seq<Event>, q: Request, i: nat)
    requires es != [] && front == es[..|es| - 1] && i < |front|
    ensures Made(es, i, q) <==> Made(front, i, q)
    ensures Decided(es, i, q) <==> Decided(front, i, q)
  {
    assert front[..i] == es[..i];
  }

  lemma StillOpen(es: seq<Event>, front: seq<Event>, q: Request)
    requires es != [] && front == es[..|es| - 1]
    requires Made(es, |es| - 1, q) || (MadeAndOpen(front, q) && !Decided(es, |es| - 1, q))
    ensures MadeAndOpen(es, q)
  {
    if Made(es, |es| - 1, q) {
      assert OpenSince(es, |es| - 1, q);
    } else {
      var i :| 0 <= i < |front| && Made(front, i, q) && OpenSince(front, i, q);
      FrontKeeps(es, front, q, i);
      OpenSinceUnfolds(es, front, q, i);
    }
  }

  lemma WasOpen(es: seq<Event>, front: seq<Event>, q: Request)
    requires es != [] && front == es[..|es| - 1] && MadeAndOpen(es, q)
    ensures Made(es, |es| - 1, q) || (MadeAndOpen(front, q) && !Decided(es, |es| - 1, q))
  {
    var i :| 0 <= i < |es| && Made(es, i, q) && OpenSince(es, i, q);
    if i < |front| {
      FrontKeeps(es, front, q, i);
      OpenSinceUnfolds(es, front, q, i);
    }
  }

  lemma OpenSinceUnfolds(es: seq<Event>, front: seq<Event>, q: Request, i: nat)
    requires es != [] && front == es[..|es| - 1] && i < |front|
    ensures OpenSince(es, i, q) <==> OpenSince(front, i, q) && !Decided(es, |es| - 1, q)
  {
    forall j | i < j < |front|
      ensures Decided(es, j, q) <==> Decided(front, j, q)
    {
      FrontKeeps(es, front, q, j);
    }
  }

  lemma StepWaits(c: Directory, e: Event, q: Request)
    requires DistinctRequests(c.requests)
    ensures q in Step(c, e).0.requests <==>
      || (e == RequestAccess(q.user, q.filename, q.access) && q.filename in c.files
          && !MayAccess(c.files, q.filename, q.user, q.access) && |c.requests| < MAX_REQUESTS)
      || (q in c.requests && !((e.Approve? || e.Deny?) && 0 <= e.id < |c.requests| && c.requests[e.id] == q
          && q.filename in c.files && c.files[q.filename].owner == e.sender))
  {
    if (e.Approve? || e.Deny?) && Step(c, e).1 == SUCCESS {
      DropWaits(c.requests, e.id, q);
    }
  }

  lemma DropWaits(requests: seq<Request>, id: nat, q: Request)
    requires DistinctRequests(requests) && id < |requests|
    ensures q in DropRequest(requests, id) <==> q in requests && q != requests[id]
  {
    var r := DropRequest(requests, id);
    assert forall x :: 0 <= x < |r| ==> r[x] == requests[if x < id then x else x + 1];
    if q in requests && q != requests[id] {
      var x :| 0 <= x < |requests| && requests[x] == q;
      assert r[if x < id then x else x - 1] == q;
    }
  }

  /** Over every run: a request waits if and only if it was made and its file's owner has neither approved nor denied it
      since. */
  lemma {:induction false} WaitsIff(es: seq<Event>, q: Request)
    ensures q in Run(es).requests <==> MadeAndOpen(es, q)
  {
    if es != [] {
      var front, e := es[..|es| - 1], es[|es| - 1];
      WaitsIff(front, q);
      RequestsStayDistinct(front);
      StepWaits(Run(front), e, q);
      if MadeAndOpen(es, q) {
        WasOpen(es, front, q);
      } else if Made(es, |es| - 1, q) || (MadeAndOpen(front, q) && !Decided(es, |es| - 1, q)) {
        StillOpen(es, front, q);
      }
    }
  }

  // ----- from the request to the access -----

  /** No request is decided and the file is not deleted. */
  predicate Quiet(mid: seq<Event>, name: string) {
    forall e :: e in mid ==> !e.Approve? && !e.Deny? && !(e.Delete? && e.name == name)
  }

  lemma {:induction false} Meanwhile(es: seq<Event>, mid: seq<Event>, name: string, id: nat)
    requires Quiet(mid, name) && id < |Run(es).requests| && name in Run(es).files
    ensures var c, r := Run(es), Run(es + mid);
      && id < |r.requests| && r.requests[id] == c.requests[id]
      && name in r.files && r.files[name].owner == c.files[name].owner
    decreases |mid|
  {
    if mid == [] {
      assert es + mid == es;
    } else {
      var front, e := mid[..|mid| - 1], mid[|mid| - 1];
      assert e in mid && forall x :: x in front ==> x in mid;
      Meanwhile(es, front, name, id);
      assert (es + mid)[..|es + mid| - 1] == es + front && (es + mid)[|es + mid| - 1] == e;
      assert Run(es + mid) == Step(Run(es + front), e).0;
    }
  }

  /** From a request to the access: a user who may not access a file asks for it, any messages of any users follow that
      decide no request and do not delete the file, and the owner approves the request by its place. Then the user may
      read if the request was for reading, and read and write if it was for both. */
  lemma RequestedAndApproved(es: seq<Event>, user: string, name: string, access: int, mid: seq<Event>)
    requires name in Run(es).files && !MayAccess(Run(es).files, name, user, access)
    requires Request(user, name, access) !in Run(es).requests && |Run(es).requests| < MAX_REQUESTS
    requires var all := es + [RequestAccess(user, name, access)] + mid; NotFull(Run(all))
    requires Quiet(mid, name)
    ensures var all := es + [RequestAccess(user, name, access)] + mid;
      var (r, status) := Step(Run(all), Approve(Run(es).files[name].owner, |Run(es).requests|));
      && status == SUCCESS && Request(user, name, access) !in r.requests
      && (MayAccess(r.files, name, user, ACCESS_READ) <==> access == ACCESS_READ || access == ACCESS_READWRITE)
      && (MayAccess(r.files, name, user, ACCESS_WRITE) <==> access == ACCESS_READWRITE)
  {
    var asked := es + [RequestAccess(user, name, access)];
    var c, id, owner := Run(asked + mid), |Run(es).requests|, Run(es).files[name].owner;
    assert asked[..|asked| - 1] == es;
    assert Run(asked) == StepRequest(Run(es), user, name, access).0;
    assert Run(asked).requests[id] == Request(user, name, access);
    Meanwhile(asked, mid, name, id);
    RunKeepsDistinct(asked + mid);
    ApprovedRequest(c, owner, id);
    RequestsStayDistinct(asked + mid);
    DropWaits(c.requests, id, Request(user, name, access));
  }
}
