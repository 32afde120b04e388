/** The catalogue of the name server: who owns which file, who may access it, and which requests for access wait. */
module Catalogue {
  import opened Options
  import opened TrieSpec
  import opened Storage

  const MAX_ACL_ENTRIES := 100
  const MAX_REQUESTS := 100000
  const ERR_NOT_OWNER := 401
  const ERR_USER_NOT_FOUND := 406
  const ERR_FILE_LOCKED := 424
  const ERR_SS_UNAVAILABLE := 503

  // Access types; a value outside of these is possible, since the field comes off the wire.
  const ACCESS_READ := 1
  const ACCESS_WRITE := 2
  const ACCESS_READWRITE := 3

  datatype AclEntry = AclEntry(user: string, access: int)

  datatype FileMeta = FileMeta(filename: string, folder: string, owner: string, ssId: int, accessed: int,
                               accessedBy: string, acl: seq<AclEntry>)

  datatype Request = Request(user: string, filename: string, access: int)

  /** What the trie stores, the registered users, and the requests in the order in which they came. */
  datatype Directory = Directory(files: map<string, FileMeta>, users: set<string>, requests: seq<Request>)

  // ----- access lists -----

  /** Index of the user's first entry, or the length of the list. */
  function FindUser(acl: seq<AclEntry>, user: string): (i: nat)
    ensures i <= |acl|
    ensures i < |acl| ==> acl[i].user == user
    ensures forall j :: 0 <= j < i ==> acl[j].user != user
  {
    if acl == [] || acl[0].user == user then 0 else
      var i := 1 + FindUser(acl[1..], user);
      assert forall j :: 1 <= j < i ==> acl[j] == acl[1..][j - 1];
      i
  }

  /** Change the user's entry or add one; a full list stays as it is. */
  function Grant(acl: seq<AclEntry>, user: string, access: int): seq<AclEntry> {
    var i := FindUser(acl, user);
    if i < |acl| then acl[i := AclEntry(user, access)]
    else if |acl| < MAX_ACL_ENTRIES then acl + [AclEntry(user, access)]
    else acl
  }

  /** Take out the user's first entry. */
  function Revoke(acl: seq<AclEntry>, user: string): seq<AclEntry> {
    var i := FindUser(acl, user);
    if i < |acl| then acl[..i] + acl[i + 1..] else acl
  }

  function AccessOf(acl: seq<AclEntry>, user: string): Option<int> {
    var i := FindUser(acl, user);
    if i < |acl| then Some(acl[i].access) else None
  }

  predicate DistinctUsers(acl: seq<AclEntry>) {
    forall i, j :: 0 <= i < j < |acl| ==> acl[i].user != acl[j].user
  }

  /** What an entry allows. */
  predicate Allows(access: Option<int>, required: int) {
    && access.Some?
    && ((required == ACCESS_READ && (access.value == ACCESS_READ || access.value == ACCESS_READWRITE))
        || (required == ACCESS_WRITE && access.value == ACCESS_READWRITE))
  }

  /** `check_access`. */
  predicate MayAccess(files: map<string, FileMeta>, name: string, user: string, required: int) {
    name in files && (files[name].owner == user || Allows(AccessOf(files[name].acl, user), required))
  }

  /** Which entries let a user in, by the numbers on the wire: 1 to read, 2 to write, 3 for both. An entry for writing
      alone allows nothing, and nothing but reading or writing can be allowed. */
  lemma AccessTable(files: map<string, FileMeta>, name: string, user: string, required: int)
    ensures MayAccess(files, name, user, required) <==>
      && name in files
      && (files[name].owner == user
          || (required == 1 && (AccessOf(files[name].acl, user) in {Some(1), Some(3)}))
          || (required == 2 && AccessOf(files[name].acl, user) == Some(3)))
  {
  }

  /** Granting changes what one user has, unless the list is full. */
  lemma GrantIs(acl: seq<AclEntry>, user: string, access: int, u: string)
    requires DistinctUsers(acl)
    ensures DistinctUsers(Grant(acl, user, access))
    ensures AccessOf(Grant(acl, user, access), u)
         == if u == user && (AccessOf(acl, user).Some? || |acl| < MAX_ACL_ENTRIES) then Some(access)
            else AccessOf(acl, u)
  {
    var r := Grant(acl, user, access);
    var i, j, k := FindUser(acl, user), FindUser(acl, u), FindUser(r, u);
    assert forall x :: 0 <= x < |acl| ==> r[x].user == acl[x].user;
    if |r| > |acl| {
      assert r[|acl|] == AclEntry(user, access);
      assert k == if u == user then |acl| else if j < |acl| then j else |r|;
    } else {
      assert k == j;
    }
  }

  /** A grant changes the user's own entry in its place, or adds one behind all others; the others stay where
      they are. */
  lemma GrantKeepsOrder(acl: seq<AclEntry>, user: string, access: int)
    ensures var r := Grant(acl, user, access);
      && |acl| <= |r| <= |acl| + 1
      && (|r| > |acl| <==> AccessOf(acl, user).None? && |acl| < MAX_ACL_ENTRIES)
      && (|r| > |acl| ==> acl <= r && r[|acl|] == AclEntry(user, access))
      && (forall i :: 0 <= i < |acl| && acl[i].user != user ==> r[i] == acl[i])
  {
  }

  /** A removal closes the gap of the user's first entry and keeps all others in order. */
  lemma RevokeKeepsOrder(acl: seq<AclEntry>, user: string, i: nat)
    requires i == FindUser(acl, user)
    ensures AccessOf(acl, user).None? ==> Revoke(acl, user) == acl
    ensures AccessOf(acl, user).Some? ==> |Revoke(acl, user)| == |acl| - 1 && i < |acl|
    ensures AccessOf(acl, user).Some? ==> forall j :: 0 <= j < |acl| - 1 ==>
      Revoke(acl, user)[j] == acl[if j < i then j else j + 1]
  {
    if i < |acl| {
      GapClosed(acl, i, Revoke(acl, user));
    }
  }

  lemma GapClosed<T>(s: seq<T>, i: nat, r: seq<T>)
    requires i < |s| && r == s[..i] + s[i + 1..]
    ensures |r| == |s| - 1 && forall j :: 0 <= j < |r| ==> r[j] == s[if j < i then j else j + 1]
  {
  }

  /** Where each entry of a list goes when entry `i` is taken out. */
  lemma RevokedEntries(acl: seq<AclEntry>, i: nat, r: seq<AclEntry>)
    requires DistinctUsers(acl) && i < |acl| && r == acl[..i] + acl[i + 1..]
    ensures |r| == |acl| - 1 && forall x :: 0 <= x < |r| ==> r[x] == acl[if x < i then x else x + 1]
    ensures DistinctUsers(r)
  {
  }

  lemma FindIs(acl: seq<AclEntry>, user: string, i: nat)
    requires i <= |acl| && (i < |acl| ==> acl[i].user == user)
    requires forall j :: 0 <= j < i ==> acl[j].user != user
    ensures FindUser(acl, user) == i
  {
  }

  /** What users have after an entry is taken out. */
  lemma AccessWithout(acl: seq<AclEntry>, i: nat, r: seq<AclEntry>, u: string)
    requires DistinctUsers(acl) && i < |acl| && r == acl[..i] + acl[i + 1..]
    ensures AccessOf(r, u) == if u == acl[i].user then None else AccessOf(acl, u)
  {
    RevokedEntries(acl, i, r);
    var j := FindUser(acl, u);
    if j < |acl| && j != i {
      FindIs(r, u, if j < i then j else j - 1);
    } else {
      FindIs(r, u, |r|);
    }
  }

  /** Revoking leaves the user without an entry. */
  lemma RevokeIs(acl: seq<AclEntry>, user: string, u: string)
    requires DistinctUsers(acl)
    ensures DistinctUsers(Revoke(acl, user))
    ensures AccessOf(Revoke(acl, user), u) == if u == user then None else AccessOf(acl, u)
  {
    var i := FindUser(acl, user);
    if i < |acl| {
      RevokedEntries(acl, i, Revoke(acl, user));
      AccessWithout(acl, i, Revoke(acl, user), u);
    }
  }

  // ----- handlers -----

  /** A message to the name server, with the answers that it gets from the storage server while handling it. */
  datatype Event =
    | Create(sender: string, name: string, ssId: int, reply: int, now: int)
    | Delete(sender: string, name: string, locked: bool, reply: int)
    | AddAccess(sender: string, name: string, target: string, access: int)
    | RemoveAccess(sender: string, name: string, target: string)
    | RequestAccess(sender: string, name: string, access: int)
    | Approve(sender: string, id: int)
    | Deny(sender: string, id: int)
    | Move(sender: string, name: string, folder: string, folderExists: bool, connected: bool, reply: int)
    | Use(sender: string, name: string, required: int, now: int)
    | Register(name: string, ssId: int, now: int)
    | AddUser(user: string)

  function NewFile(name: string, owner: string, ssId: int, now: int): FileMeta {
    FileMeta(name, "", owner, ssId, now, owner, [])
  }

  function WithFile(c: Directory, name: string, meta: FileMeta): Directory {
    c.(files := c.files[name := meta])
  }

  /** `handle_create`; `ssId` is the chosen storage server, negative if there is none. */
  function StepCreate(c: Directory, sender: string, name: string, ssId: int, reply: int, now: int): (Directory, int) {
    if name in c.files then (c, ERR_FILE_EXISTS)
    else if ssId < 0 then (c, ERR_SS_UNAVAILABLE)
    else if reply != SUCCESS then (c, reply)
    else if !IsAscii(name) then (c, SUCCESS)
    else (WithFile(c, name, NewFile(name, sender, ssId, now)), SUCCESS)
  }

  function StepDelete(c: Directory, sender: string, name: string, locked: bool, reply: int): (Directory, int) {
    if name !in c.files then (c, ERR_FILE_NOT_FOUND)
    else if c.files[name].owner != sender then (c, ERR_NOT_OWNER)
    else if locked then (c, ERR_FILE_LOCKED)
    else if reply != SUCCESS then (c, reply)
    else (c.(files := c.files - {name}), SUCCESS)
  }

  function StepAdd(c: Directory, sender: string, name: string, target: string, access: int): (Directory, int) {
    if name !in c.files then (c, ERR_FILE_NOT_FOUND)
    else if c.files[name].owner != sender then (c, ERR_NOT_OWNER)
    else if target !in c.users then (c, ERR_USER_NOT_FOUND)
    else if target == sender then (c, ERR_INVALID_OPERATION)
    else
      var meta := c.files[name];
      (WithFile(c, name, meta.(acl := Grant(meta.acl, target, access))), SUCCESS)
  }

  function StepRemove(c: Directory, sender: string, name: string, target: string): (Directory, int) {
    if name !in c.files then (c, ERR_FILE_NOT_FOUND)
    else if c.files[name].owner != sender then (c, ERR_NOT_OWNER)
    else
      var meta := c.files[name];
      (WithFile(c, name, meta.(acl := Revoke(meta.acl, target))), SUCCESS)
  }

  /** `handle_requestaccess`; a user who may access the file already, or whose request is waiting, adds none. */
  function StepRequest(c: Directory, sender: string, name: string, access: int): (Directory, int) {
    if name !in c.files then (c, ERR_FILE_NOT_FOUND)
    else if MayAccess(c.files, name, sender, access) || Request(sender, name, access) in c.requests then (c, SUCCESS)
    else if |c.requests| < MAX_REQUESTS then (c.(requests := c.requests + [Request(sender, name, access)]), SUCCESS)
    else (c, ERR_SERVER_ERROR)
  }

  /** Whether the sender may decide about request `id`. */
  function Decidable(c: Directory, sender: string, id: int): (status: int)
    ensures status == SUCCESS ==> 0 <= id < |c.requests| && c.requests[id].filename in c.files
  {
    if id < 0 || id >= |c.requests| then ERR_INVALID_INDEX
    else
      var name := c.requests[id].filename;
      if name !in c.files || c.files[name].owner != sender then ERR_NOT_OWNER else SUCCESS
  }

  function DropRequest(requests: seq<Request>, id: nat): seq<Request>
    requires id < |requests|
  {
    requests[..id] + requests[id + 1..]
  }

  function StepApprove(c: Directory, sender: string, id: int): (Directory, int) {
    var status := Decidable(c, sender, id);
    if status != SUCCESS then (c, status) else
      var r := c.requests[id];
      var meta := c.files[r.filename];
      (WithFile(c, r.filename, meta.(acl := Grant(meta.acl, r.user, r.access)))
         .(requests := DropRequest(c.requests, id)), SUCCESS)
  }

  function StepDeny(c: Directory, sender: string, id: int): (Directory, int) {
    var status := Decidable(c, sender, id);
    if status != SUCCESS then (c, status) else (c.(requests := DropRequest(c.requests, id)), SUCCESS)
  }

  /** The metadata part of `handle_move`; `connected` says whether the file's storage server is there. */
  function StepMove(c: Directory, sender: string, name: string, folder: string, folderExists: bool, connected: bool,
                    reply: int): (Directory, int)
  {
    if name !in c.files then (c, ERR_FILE_NOT_FOUND)
    else if !MayAccess(c.files, name, sender, ACCESS_WRITE) then (c, ERR_ACCESS_DENIED)
    else if folder != "" && folder != "/" && !folderExists then (c, ERR_FILE_NOT_FOUND)
    else if !connected then (c, ERR_SS_UNAVAILABLE)
    else if reply != SUCCESS then (c, reply)
    else (WithFile(c, name, c.files[name].(folder := folder)), SUCCESS)
  }

  /** READ, WRITE, STREAM and UNDO: the access is checked, and the time and the user of the access are noted. */
  function StepUse(c: Directory, sender: string, name: string, required: int, now: int): (Directory, int) {
    if !MayAccess(c.files, name, sender, required) then (c, ERR_ACCESS_DENIED)
    else if c.files[name].ssId < 0 then (c, ERR_FILE_NOT_FOUND)
    else (WithFile(c, name, c.files[name].(accessed := now, accessedBy := sender)), SUCCESS)
  }

  /** One file of a storage server that registers: known files keep their metadata. */
  function StepRegister(c: Directory, name: string, ssId: int, now: int): (Directory, int) {
    if name in c.files then (WithFile(c, name, c.files[name].(ssId := ssId)), SUCCESS)
    else if !IsAscii(name) then (c, SUCCESS)
    else (WithFile(c, name, FileMeta(name, "", "system", ssId, now, "", [])), SUCCESS)
  }

  function Step(c: Directory, e: Event): (Directory, int) {
    match e
    case Create(sender, name, ssId, reply, now) => StepCreate(c, sender, name, ssId, reply, now)
    case Delete(sender, name, locked, reply) => StepDelete(c, sender, name, locked, reply)
    case AddAccess(sender, name, target, access) => StepAdd(c, sender, name, target, access)
    case RemoveAccess(sender, name, target) => StepRemove(c, sender, name, target)
    case RequestAccess(sender, name, access) => StepRequest(c, sender, name, access)
    case Approve(sender, id) => StepApprove(c, sender, id)
    case Deny(sender, id) => StepDeny(c, sender, id)
    case Move(sender, name, folder, there, connected, reply) =>
      StepMove(c, sender, name, folder, there, connected, reply)
    case Use(sender, name, required, now) => StepUse(c, sender, name, required, now)
    case Register(name, ssId, now) => StepRegister(c, name, ssId, now)
    case AddUser(user) => (c.(users := c.users + {user}), SUCCESS)
  }

  function Run(es: seq<Event>): Directory {
    if es == [] then Directory(map[], {}, []) else Step(Run(es[..|es| - 1]), es[|es| - 1]).0
  }

  // ----- access lists of a directory -----

  predicate NotFull(c: Directory) {
    forall name :: name in c.files ==> |c.files[name].acl| < MAX_ACL_ENTRIES
  }

  predicate AllDistinct(c: Directory) {
    forall name :: name in c.files ==> DistinctUsers(c.files[name].acl)
  }

  lemma StepKeepsDistinct(c: Directory, e: Event)
    requires AllDistinct(c)
    ensures AllDistinct(Step(c, e).0)
  {
    match e
    case AddAccess(sender, name, target, access) =>
      if name in c.files {
        GrantIs(c.files[name].acl, target, access, target);
      }
    case RemoveAccess(sender, name, target) =>
      if name in c.files {
        RevokeIs(c.files[name].acl, target, target);
      }
    case Approve(sender, id) =>
      if Decidable(c, sender, id) == SUCCESS {
        var r := c.requests[id];
        GrantIs(c.files[r.filename].acl, r.user, r.access, r.user);
      }
    case _ =>
  }

  /** A full list drops new grants: the handler answers with success and the user gets nothing. */
  lemma FullListDropsGrant(c: Directory, sender: string, name: string, target: string, access: int)
    requires name in c.files && StepAdd(c, sender, name, target, access).1 == SUCCESS
    requires |c.files[name].acl| >= MAX_ACL_ENTRIES && AccessOf(c.files[name].acl, target).None?
    ensures StepAdd(c, sender, name, target, access).0 == c
  {
    assert c.files[name := c.files[name]] == c.files;
  }

  /** An approved request lets the user in as requested, if it was for reading; a request for plain writing, once
      approved, allows neither reading nor writing. */
  lemma ApprovedRequest(c: Directory, sender: string, id: int)
    requires StepApprove(c, sender, id).1 == SUCCESS && NotFull(c) && AllDistinct(c)
    ensures 0 <= id < |c.requests|
    ensures var r := c.requests[id]; var files := StepApprove(c, sender, id).0.files;
      r.user != sender ==>
        && (MayAccess(files, r.filename, r.user, ACCESS_READ)
            <==> r.access == ACCESS_READ || r.access == ACCESS_READWRITE)
        && (MayAccess(files, r.filename, r.user, ACCESS_WRITE) <==> r.access == ACCESS_READWRITE)
  {
    var r := c.requests[id];
    GrantIs(c.files[r.filename].acl, r.user, r.access, r.user);
  }

  // ----- requests -----

  predicate DistinctRequests(requests: seq<Request>) {
    forall i, j :: 0 <= i < j < |requests| ==> requests[i] != requests[j]
  }

  lemma DropKeepsDistinct(requests: seq<Request>, id: nat)
    requires DistinctRequests(requests) && id < |requests|
    ensures DistinctRequests(DropRequest(requests, id))
  {
    var r := DropRequest(requests, id);
    assert forall x :: 0 <= x < |r| ==> r[x] == requests[if x < id then x else x + 1];
  }

  lemma StepKeepsRequests(c: Directory, e: Event)
    requires DistinctRequests(c.requests)
    ensures DistinctRequests(Step(c, e).0.requests)
  {
    match e
    case Approve(sender, id) =>
      if Decidable(c, sender, id) == SUCCESS {
        DropKeepsDistinct(c.requests, id);
      }
    case Deny(sender, id) =>
      if Decidable(c, sender, id) == SUCCESS {
        DropKeepsDistinct(c.requests, id);
      }
    case _ =>
  }

  /** No request ever waits twice. */
  lemma {:induction false} RequestsStayDistinct(es: seq<Event>)
    ensures DistinctRequests(Run(es).requests)
  {
    if es != [] {
      RequestsStayDistinct(es[..|es| - 1]);
      StepKeepsRequests(Run(es[..|es| - 1]), es[|es| - 1]);
    }
  }
}
