/** The name server's handlers over the trie, the cache and the request table on the heap. */
module NameServer {
  import opened Options
  import opened Arrays
  import TrieSpec
  import CacheSpec
  import CacheRuns
  import opened FileTrie
  import opened LruCache
  import opened Storage
  import opened Catalogue
  import opened CatalogueCache

  // ----- access lists -----

  /** The loop that looks a user up in an access list. */
  method FindEntry(acl: seq<AclEntry>, user: string) returns (i: nat)
    ensures i == FindUser(acl, user)
  {
    i := 0;
    while i < |acl| && acl[i].user != user
      invariant i <= |acl| && forall j :: 0 <= j < i ==> acl[j].user != user
    {
      i := i + 1;
    }
  }

  method GrantEntry(acl: seq<AclEntry>, user: string, access: int) returns (r: seq<AclEntry>)
    ensures r == Grant(acl, user, access)
  {
    var i := FindEntry(acl, user);
    r := acl;
    if i < |acl| {
      r := acl[i := AclEntry(user, access)];
    } else if |acl| < MAX_ACL_ENTRIES {
      r := acl + [AclEntry(user, access)];
    }
  }

  /** Shift the elements behind position `i` down by one. */
  method CloseGap<T>(s: seq<T>, i: nat) returns (r: seq<T>)
    requires i < |s|
    ensures r == s[..i] + s[i + 1..]
  {
    r := s;
    var j := i;
    while j < |s| - 1
      invariant i <= j <= |s| - 1 && |r| == |s|
      invariant r[..j] == s[..i] + s[i + 1..j + 1] && r[j..] == s[j..]
    {
      r := r[j := s[j + 1]];
      j := j + 1;
      assert s[i + 1..j + 1] == s[i + 1..j] + [s[j]];
    }
    assert s[i + 1..|s|] == s[i + 1..];
    r := r[..|s| - 1];
  }

  method RevokeEntry(acl: seq<AclEntry>, user: string) returns (r: seq<AclEntry>)
    ensures r == Revoke(acl, user)
  {
    var i := FindEntry(acl, user);
    r := acl;
    if i < |acl| {
      r := CloseGap(acl, i);
    }
  }

  class NameServer {
    const trie: FileTrie<FileMeta>
    const cache: LruCache<FileMeta>
    var users: set<string>
    const requests: array<Request>
    var requestCount: nat

    ghost predicate Valid()
      reads this, trie, trie.Repr, cache, cache.Repr
    {
      && trie.Valid() && cache.Valid() && trie.Repr !! cache.Repr
      && this !in trie.Repr + cache.Repr && requests !in trie.Repr + cache.Repr
      && requestCount <= requests.Length == MAX_REQUESTS
    }

    ghost function Now(): Directory
      requires requestCount <= requests.Length
      reads this, trie, requests
    {
      Directory(trie.files, users, requests[..requestCount])
    }

    ghost function State(): Server
      requires requestCount <= requests.Length
      reads this, trie, requests, cache
    {
      Server(Now(), cache.Spec())
    }

    /** Handling the message has done what the server's step for it does. */
    ghost predicate Handled(before: Server, e: Event, status: int)
      requires requestCount <= requests.Length
      reads this, trie, requests, cache
    {
      ServerStep(before, e, cache.hash) == Some((State(), status))
    }

    /** Handling the message comes to an end: it leaves the cache alone, or its searches there end. */
    ghost predicate Ready(e: Event)
      requires requestCount <= requests.Length
      reads this, trie, requests, cache
    {
      ServerStep(State(), e, cache.hash).Some?
    }

    /** A cache operation on the name comes to an end. */
    ghost predicate Reachable(name: string)
      reads this, cache
    {
      CacheSpec.Ends(cache.Spec(), name, cache.hash(name))
    }

    constructor (hash: string -> nat)
      requires CacheRuns.IsHash(hash, CACHE_SIZE)
      ensures Valid() && cache.hash == hash && Some(State()) == ServerRun([], hash)
    {
      trie := new FileTrie<FileMeta>();
      cache := new LruCache<FileMeta>(CACHE_SIZE, hash);
      users, requestCount := {}, 0;
      requests := new Request[MAX_REQUESTS](_ => Request("", "", 0));
    }

    // ----- lookups -----

    /** `check_access`. */
    method CheckAccess(name: string, user: string, required: int) returns (b: bool)
      requires Valid()
      ensures b == MayAccess(Now().files, name, user, required)
    {
      var meta := trie.Search(name);
      if meta.None? {
        return false;
      }
      if meta.value.owner == user {
        return true;
      }
      var i := FindEntry(meta.value.acl, user);
      if i == |meta.value.acl| {
        return false;
      }
      var access := meta.value.acl[i].access;
      b := (required == ACCESS_READ && (access == ACCESS_READ || access == ACCESS_READWRITE))
           || (required == ACCESS_WRITE && access == ACCESS_READWRITE);
    }

    /** `find_ss_for_file`. */
    method FindSsForFile(name: string) returns (ssId: int)
      requires Valid() && Reachable(name)
      modifies cache.Repr
      ensures Valid() && fresh(cache.Repr - old(cache.Repr)) && Reachable(name) && Now() == old(Now())
      ensures ssId == Locate(trie.files, old(cache.Spec()), name, cache.hash(name))
      ensures var found := CacheSpec.Get(old(cache.Spec()), name, cache.hash(name)).1;
        CacheRuns.RunFrom(old(cache.Spec()), LookupOps(Now(), name, found), cache.hash) == Some(cache.Spec())
    {
      ghost var before := cache.Spec();
      var meta := cache.Get(name);
      LookupRun(Now(), before, name, cache.hash);
      if meta.None? {
        meta := trie.Search(name);
        if meta.Some? {
          cache.Put(name, meta.value);
        }
      }
      ssId := if meta.Some? then meta.value.ssId else -1;
    }

    // ----- changing metadata -----

    /** Store changed metadata in the trie and in the cache. */
    method StoreMeta(name: string, meta: FileMeta)
      requires Valid() && name in trie.files && Reachable(name)
      modifies trie.Repr, cache.Repr
      ensures Valid() && fresh(cache.Repr - old(cache.Repr)) && fresh(trie.Repr - old(trie.Repr))
      ensures Now() == WithFile(old(Now()), name, meta)
      ensures CacheRuns.RunFrom(old(cache.Spec()), PutStored(Now(), name), cache.hash) == Some(cache.Spec())
    {
      CacheRuns.RunFromOne(cache.Spec(), CacheRuns.PutKey(name, meta), cache.hash);
      var _ := trie.Update(name, meta);
      cache.Put(name, meta);
    }

    /** `handle_create`. */
    method HandleCreate(sender: string, name: string, ssId: int, reply: int, now: int) returns (status: int)
      requires Valid() && Ready(Create(sender, name, ssId, reply, now))
      modifies trie.Repr, cache.Repr
      ensures Valid() && fresh(cache.Repr - old(cache.Repr)) && fresh(trie.Repr - old(trie.Repr))
      ensures Handled(old(State()), Create(sender, name, ssId, reply, now), status)
    {
      var existing := trie.Search(name);
      if existing.Some? {
        return ERR_FILE_EXISTS;
      }
      if ssId < 0 {
        return ERR_SS_UNAVAILABLE;
      }
      if reply != SUCCESS {
        return reply;
      }
      var meta := NewFile(name, sender, ssId, now);
      SearchesEnd(State(), Create(sender, name, ssId, reply, now), cache.hash);
      CacheRuns.RunFromOne(cache.Spec(), CacheRuns.PutKey(name, meta), cache.hash);
      var _ := trie.Insert(name, meta);
      cache.Put(name, meta);
      status := SUCCESS;
    }

    /** `handle_delete`. */
    method HandleDelete(sender: string, name: string, locked: bool, reply: int) returns (status: int)
      requires Valid() && Ready(Delete(sender, name, locked, reply))
      modifies trie.Repr, cache.Repr
      ensures Valid() && fresh(cache.Repr - old(cache.Repr)) && fresh(trie.Repr - old(trie.Repr))
      ensures Handled(old(State()), Delete(sender, name, locked, reply), status)
    {
      var meta := trie.Search(name);
      if meta.None? {
        return ERR_FILE_NOT_FOUND;
      }
      if meta.value.owner != sender {
        return ERR_NOT_OWNER;
      }
      if locked {
        return ERR_FILE_LOCKED;
      }
      if reply != SUCCESS {
        return reply;
      }
      SearchesEnd(State(), Delete(sender, name, locked, reply), cache.hash);
      TrieSpec.DeleteKeepsShape(trie.Spec(), name);
      CacheRuns.RunFromOne(cache.Spec(), CacheRuns.RemoveKey(name), cache.hash);
      trie.Delete(name);
      cache.Remove(name);
      status := SUCCESS;
    }

    /** `handle_access` for adding. */
    method HandleAddAccess(sender: string, name: string, target: string, access: int) returns (status: int)
      requires Valid() && Ready(AddAccess(sender, name, target, access))
      modifies trie.Repr, cache.Repr
      ensures Valid() && fresh(cache.Repr - old(cache.Repr)) && fresh(trie.Repr - old(trie.Repr))
      ensures Handled(old(State()), AddAccess(sender, name, target, access), status)
    {
      var meta := trie.Search(name);
      if meta.None? {
        return ERR_FILE_NOT_FOUND;
      }
      if meta.value.owner != sender {
        return ERR_NOT_OWNER;
      }
      if target !in users {
        return ERR_USER_NOT_FOUND;
      }
      if target == sender {
        return ERR_INVALID_OPERATION;
      }
      SearchesEnd(State(), AddAccess(sender, name, target, access), cache.hash);
      var acl := GrantEntry(meta.value.acl, target, access);
      StoreMeta(name, meta.value.(acl := acl));
      status := SUCCESS;
    }

    /** `handle_access` for removing. */
    method HandleRemoveAccess(sender: string, name: string, target: string) returns (status: int)
      requires Valid() && Ready(RemoveAccess(sender, name, target))
      modifies trie.Repr, cache.Repr
      ensures Valid() && fresh(cache.Repr - old(cache.Repr)) && fresh(trie.Repr - old(trie.Repr))
      ensures Handled(old(State()), RemoveAccess(sender, name, target), status)
    {
      var meta := trie.Search(name);
      if meta.None? {
        return ERR_FILE_NOT_FOUND;
      }
      if meta.value.owner != sender {
        return ERR_NOT_OWNER;
      }
      SearchesEnd(State(), RemoveAccess(sender, name, target), cache.hash);
      var acl := RevokeEntry(meta.value.acl, target);
      StoreMeta(name, meta.value.(acl := acl));
      status := SUCCESS;
    }

    /** One file of a storage server that registers: a known file only gets the server's number, and the cache is not
        told. */
    method HandleRegister(name: string, ssId: int, now: int)
      requires Valid()
      modifies trie.Repr
      ensures Valid() && fresh(trie.Repr - old(trie.Repr))
      ensures Handled(old(State()), Register(name, ssId, now), SUCCESS)
    {
      var existing := trie.Search(name);
      if existing.Some? {
        var _ := trie.Update(name, existing.value.(ssId := ssId));
      } else {
        var _ := trie.Insert(name, FileMeta(name, "", "system", ssId, now, "", []));
      }
    }

    // ----- requests -----

    /** `handle_requestaccess`. */
    method HandleRequestAccess(sender: string, name: string, access: int) returns (status: int)
      requires Valid()
      modifies this`requestCount, requests
      ensures Valid() && Handled(old(State()), RequestAccess(sender, name, access), status)
    {
      var meta := trie.Search(name);
      if meta.None? {
        return ERR_FILE_NOT_FOUND;
      }
      var has := CheckAccess(name, sender, access);
      if has {
        return SUCCESS;
      }
      var waits := IsWaiting(Request(sender, name, access));
      if waits {
        return SUCCESS;
      }
      if requestCount >= MAX_REQUESTS {
        return ERR_SERVER_ERROR;
      }
      Append(Request(sender, name, access));
      status := SUCCESS;
    }

    method IsWaiting(r: Request) returns (b: bool)
      requires Valid()
      ensures b == (r in Now().requests)
    {
      var i := 0;
      while i < requestCount
        invariant 0 <= i <= requestCount && r !in requests[..i]
      {
        if requests[i] == r {
          return true;
        }
        i := i + 1;
      }
      b := false;
    }

    method Append(r: Request)
      requires Valid() && requestCount < MAX_REQUESTS
      modifies this`requestCount, requests
      ensures Valid() && Now() == old(Now()).(requests := old(Now()).requests + [r])
    {
      requests[requestCount] := r;
      requestCount := requestCount + 1;
    }

    /** Close the gap that a decided request leaves in the table. */
    method DropAt(id: nat)
      requires Valid() && id < requestCount
      modifies this`requestCount, requests
      ensures Valid() && Now() == old(Now()).(requests := DropRequest(old(Now()).requests, id))
    {
      ShiftDown(requests, id, requestCount);
      requestCount := requestCount - 1;
    }

    /** The check at the start of `handle_approverequest` and `handle_denyrequest`. */
    method CheckRequest(sender: string, id: int) returns (status: int)
      requires Valid()
      ensures status == Decidable(Now(), sender, id)
    {
      if id < 0 || id >= requestCount {
        return ERR_INVALID_INDEX;
      }
      var meta := trie.Search(requests[id].filename);
      status := if meta.None? || meta.value.owner != sender then ERR_NOT_OWNER else SUCCESS;
    }

    /** `handle_approverequest`. */
    method HandleApprove(sender: string, id: int) returns (status: int)
      requires Valid() && Ready(Approve(sender, id))
      modifies this`requestCount, requests, trie.Repr, cache.Repr
      ensures Valid() && fresh(cache.Repr - old(cache.Repr)) && fresh(trie.Repr - old(trie.Repr))
      ensures Handled(old(State()), Approve(sender, id), status)
    {
      status := CheckRequest(sender, id);
      if status != SUCCESS {
        return;
      }
      SearchesEnd(State(), Approve(sender, id), cache.hash);
      GrantAndDrop(sender, id);
    }

    /** Grant a request and take it out of the table. */
    method GrantAndDrop(ghost sender: string, id: nat)
      requires Valid() && Decidable(Now(), sender, id) == SUCCESS && Reachable(requests[id].filename)
      modifies this`requestCount, requests, trie.Repr, cache.Repr
      ensures Valid() && fresh(cache.Repr - old(cache.Repr)) && fresh(trie.Repr - old(trie.Repr))
      ensures Handled(old(State()), Approve(sender, id), SUCCESS)
    {
      ghost var before := State();
      GrantRequest(requests[id]);
      DropGranted(before, sender, id);
    }

    /** Take a request that has just been granted out of the table. */
    method DropGranted(ghost before: Server, ghost sender: string, id: nat)
      requires Valid() && id < requestCount && Decidable(before.dir, sender, id) == SUCCESS
      requires var r := before.dir.requests[id]; var meta := before.dir.files[r.filename];
        && Now() == WithFile(before.dir, r.filename, meta.(acl := Grant(meta.acl, r.user, r.access)))
        && CacheRuns.RunFrom(before.cache, PutStored(Now(), r.filename), cache.hash) == Some(cache.Spec())
      modifies this`requestCount, requests
      ensures Valid() && trie.Repr == old(trie.Repr) && cache.Repr == old(cache.Repr)
      ensures Handled(before, Approve(sender, id), SUCCESS)
    {
      ApproveSteps(before, sender, id, Now(), cache.hash, cache.Spec());
      DropAt(id);
    }

    method GrantRequest(r: Request)
      requires Valid() && r.filename in trie.files && Reachable(r.filename)
      modifies trie.Repr, cache.Repr
      ensures Valid() && fresh(cache.Repr - old(cache.Repr)) && fresh(trie.Repr - old(trie.Repr))
      ensures var meta := old(trie.files[r.filename]);
        Now() == WithFile(old(Now()), r.filename, meta.(acl := Grant(meta.acl, r.user, r.access)))
      ensures CacheRuns.RunFrom(old(cache.Spec()), PutStored(Now(), r.filename), cache.hash) == Some(cache.Spec())
    {
      var meta := trie.Search(r.filename);
      var acl := GrantEntry(meta.value.acl, r.user, r.access);
      StoreMeta(r.filename, meta.value.(acl := acl));
    }

    /** `handle_denyrequest`. */
    method HandleDeny(sender: string, id: int) returns (status: int)
      requires Valid()
      modifies this`requestCount, requests
      ensures Valid() && Handled(old(State()), Deny(sender, id), status)
    {
      status := CheckRequest(sender, id);
      if status == SUCCESS {
        DropAt(id);
      }
    }

    // ----- moving and using files -----

    /** `handle_move`. */
    method HandleMove(sender: string, name: string, folder: string, folderExists: bool, connected: bool, reply: int)
        returns (status: int)
      requires Valid() && Ready(Move(sender, name, folder, folderExists, connected, reply))
      modifies trie.Repr, cache.Repr
      ensures Valid() && fresh(cache.Repr - old(cache.Repr)) && fresh(trie.Repr - old(trie.Repr))
      ensures Handled(old(State()), Move(sender, name, folder, folderExists, connected, reply), status)
    {
      var meta := trie.Search(name);
      if meta.None? {
        return ERR_FILE_NOT_FOUND;
      }
      var may := CheckAccess(name, sender, ACCESS_WRITE);
      if meta.value.owner != sender && !may {
        return ERR_ACCESS_DENIED;
      }
      if folder != "" && folder != "/" && !folderExists {
        return ERR_FILE_NOT_FOUND;
      }
      if !connected {
        return ERR_SS_UNAVAILABLE;
      }
      if reply != SUCCESS {
        return reply;
      }
      SearchesEnd(State(), Move(sender, name, folder, folderExists, connected, reply), cache.hash);
      StoreMeta(name, meta.value.(folder := folder));
      status := SUCCESS;
    }

    /** The lookup and the noting of an access that is allowed. */
    method AccessFile(sender: string, name: string, required: int, now: int) returns (status: int)
      requires Valid() && Reachable(name) && MayAccess(trie.files, name, sender, required)
      modifies trie.Repr, cache.Repr
      ensures Valid() && fresh(cache.Repr - old(cache.Repr)) && fresh(trie.Repr - old(trie.Repr))
      ensures Handled(old(State()), Use(sender, name, required, now), status)
    {
      ghost var before := State();
      var ssId := FindSsForFile(name);
      UseSteps(before, sender, name, required, now, cache.hash, cache.Spec());
      if ssId < 0 {
        return ERR_FILE_NOT_FOUND;
      }
      var meta := trie.Search(name);
      if meta.Some? {
        StoreMeta(name, meta.value.(accessed := now, accessedBy := sender));
      }
      status := SUCCESS;
    }

    /** READ, WRITE, STREAM and UNDO, whether cache and trie agree or not. */
    method HandleUse(sender: string, name: string, required: int, now: int) returns (status: int)
      requires Valid() && Ready(Use(sender, name, required, now))
      modifies trie.Repr, cache.Repr
      ensures Valid() && fresh(cache.Repr - old(cache.Repr)) && fresh(trie.Repr - old(trie.Repr))
      ensures Handled(old(State()), Use(sender, name, required, now), status)
    {
      var may := CheckAccess(name, sender, required);
      if !may {
        return ERR_ACCESS_DENIED;
      }
      SearchesEnd(State(), Use(sender, name, required, now), cache.hash);
      status := AccessFile(sender, name, required, now);
    }
  }
}
