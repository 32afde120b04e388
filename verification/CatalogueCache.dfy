/** The name server as one machine: the catalogue, and the cache in front of it, which each message uses and changes. */
module CatalogueCache {
  import opened Options
  import TrieSpec
  import opened Storage
  import opened Catalogue
  import CacheSpec
  import CacheRuns

  const CACHE_SIZE := 100

  type MetaCache = CacheSpec.Cache<FileMeta>
  type CacheOp = CacheRuns.Op<FileMeta>
  type Model = CacheRuns.Model<FileMeta>

  datatype Server = Server(dir: Directory, cache: MetaCache)

  // ----- one message -----

  /** The entry that the lookup of a READ, WRITE, STREAM or UNDO finds in the cache. */
  function Found(cache: MetaCache, e: Event, hash: string -> nat): Option<FileMeta> {
    if e.Use? && CacheSpec.Ends(cache, e.name, hash(e.name)) then CacheSpec.Get(cache, e.name, hash(e.name)).1 else None
  }

  /** A use of a file whose metadata the cache has found; what is found there decides where the file is. */
  function UseFound(c: Directory, sender: string, name: string, required: int, now: int, found: Option<FileMeta>)
      : (Directory, int)
  {
    if !MayAccess(c.files, name, sender, required) then (c, ERR_ACCESS_DENIED)
    else if (if found.Some? then found.value.ssId else c.files[name].ssId) < 0 then (c, ERR_FILE_NOT_FOUND)
    else (WithFile(c, name, c.files[name].(accessed := now, accessedBy := sender)), SUCCESS)
  }

  function StepFound(c: Directory, e: Event, found: Option<FileMeta>): (Directory, int) {
    match e
    case Use(sender, name, required, now) => UseFound(c, sender, name, required, now, found)
    case _ => Step(c, e)
  }

  /** Put the metadata that is stored after the event. */
  function PutStored(c: Directory, name: string): seq<CacheOp> {
    if name in c.files then [CacheRuns.PutKey(name, c.files[name])] else []
  }

  /** A lookup that finds nothing fetches the entry from the trie. */
  function LookupOps(c: Directory, name: string, found: Option<FileMeta>): seq<CacheOp> {
    [CacheRuns.GetKey(name)] + (if found.Some? then [] else PutStored(c, name))
  }

  /** The cache operations of one message, in order. */
  function CacheOps(c: Directory, e: Event, found: Option<FileMeta>): seq<CacheOp> {
    var (next, status) := StepFound(c, e, found);
    match e
    case Create(sender, name, ssId, _, now) =>
      if status == SUCCESS then [CacheRuns.PutKey(name, NewFile(name, sender, ssId, now))] else []
    case Delete(_, name, _, _) => if status == SUCCESS then [CacheRuns.RemoveKey(name)] else []
    case AddAccess(_, name, _, _) => if status == SUCCESS then PutStored(next, name) else []
    case RemoveAccess(_, name, _) => if status == SUCCESS then PutStored(next, name) else []
    case Approve(_, id) => if status == SUCCESS then PutStored(next, c.requests[id].filename) else []
    case Move(_, name, _, _, _, _) => if status == SUCCESS then PutStored(next, name) else []
    case Use(sender, name, required, _) =>
      if !MayAccess(c.files, name, sender, required) then [] else
        LookupOps(c, name, found) + (if status == SUCCESS then PutStored(next, name) else [])
    case _ => []
  }

  /** One message: None if a search in the cache does not come to an end. */
  function ServerStep(s: Server, e: Event, hash: string -> nat): Option<(Server, int)> {
    var found := Found(s.cache, e, hash);
    var (next, status) := StepFound(s.dir, e, found);
    match CacheRuns.RunFrom(s.cache, CacheOps(s.dir, e, found), hash)
    case None => None
    case Some(cache) => Some((Server(next, cache), status))
  }

  /** A server that has just started, after any messages. */
  function ServerRun(es: seq<Event>, hash: string -> nat): Option<Server> {
    if es == [] then Some(Server(Run([]), CacheSpec.Empty(CACHE_SIZE))) else
      match ServerRun(es[..|es| - 1], hash)
      case None => None
      case Some(s) =>
        match ServerStep(s, es[|es| - 1], hash)
        case None => None
        case Some(r) => Some(r.0)
  }

  // ----- agreement -----

  /** Every cached entry is the stored one. */
  predicate Agrees(c: Directory, m: Model) {
    forall key :: key in m.values ==> key in c.files && m.values[key] == c.files[key]
  }

  function FoundIn(m: Model, e: Event): Option<FileMeta> {
    if e.Use? && e.name in m.values then Some(m.values[e.name]) else None
  }

  /** No new name that the trie rejects, no storage server that takes over a cached file of another one, and no deletion
      that makes the cache lose another entry. */
  ghost predicate Calm(s: Server, e: Event, hash: string -> nat) {
    match e
    case Create(_, name, _, _, _) => Step(s.dir, e).1 == SUCCESS ==> TrieSpec.IsAscii(name)
    case Delete(_, name, _, _) =>
      Step(s.dir, e).1 == SUCCESS ==> CacheRuns.Harmless(s.cache, CacheRuns.RemoveKey(name), hash)
    case Register(name, ssId, _) =>
      name in s.dir.files && CacheRuns.HasSlot(s.cache.slots, name) ==> s.dir.files[name].ssId == ssId
    case _ => true
  }

  /** All messages so far were calm. */
  ghost predicate CalmRun(es: seq<Event>, hash: string -> nat) {
    es == [] || (
      var front, e := es[..|es| - 1], es[|es| - 1];
      CalmRun(front, hash) && (ServerRun(front, hash).Some? ==> Calm(ServerRun(front, hash).value, e, hash)))
  }

  // ----- operations on the reference -----

  function Onto(m: Model, ops: seq<CacheOp>): Model {
    if ops == [] then m else CacheRuns.ModelStep(Onto(m, ops[..|ops| - 1]), ops[|ops| - 1])
  }

  lemma OntoOne(m: Model, op: CacheOp)
    ensures Onto(m, [op]) == CacheRuns.ModelStep(m, op)
  {
    assert [op][..0] == [];
    assert Onto(m, []) == m;
  }

  lemma {:induction false} OntoAppend(m: Model, a: seq<CacheOp>, b: seq<CacheOp>)
    ensures Onto(m, a + b) == Onto(Onto(m, a), b)
  {
    if b == [] {
      assert a + b == a;
    } else {
      var front, op := b[..|b| - 1], b[|b| - 1];
      OntoAppend(m, a, front);
      assert (a + b)[..|a + b| - 1] == a + front && (a + b)[|a + b| - 1] == op;
    }
  }

  /** The entry is the stored one, and all others are as before. */
  lemma PutStoredAgrees(c: Directory, next: Directory, m: Model, name: string)
    requires Agrees(c, m)
    requires forall k :: k in c.files && k != name ==> k in next.files && next.files[k] == c.files[k]
    requires name in next.files
    ensures Agrees(next, Onto(m, PutStored(next, name)))
  {
    OntoOne(m, CacheRuns.PutKey(name, next.files[name]));
  }

  lemma UseAgrees(c: Directory, m: Model, sender: string, name: string, required: int, now: int)
    requires Agrees(c, m)
    ensures var e := Use(sender, name, required, now);
      Agrees(Step(c, e).0, Onto(m, CacheOps(c, e, FoundIn(m, e))))
  {
    var e := Use(sender, name, required, now);
    var (next, status) := StepFound(c, e, FoundIn(m, e));
    if !MayAccess(c.files, name, sender, required) {
      assert Onto(m, []) == m;
    } else {
      var look, fetch := [CacheRuns.GetKey(name)], if name in m.values then [] else PutStored(c, name);
      var note := if status == SUCCESS then PutStored(next, name) else [];
      OntoOne(m, CacheRuns.GetKey(name));
      OntoAppend(m, look + fetch, note);
      OntoAppend(m, look, fetch);
      var m1 := Onto(m, look);
      assert Onto(m1, []) == m1;
      if name !in m.values {
        PutStoredAgrees(c, c, m1, name);
      }
      var m2 := Onto(m1, fetch);
      assert Agrees(c, m2);
      assert Onto(m2, []) == m2;
      if status == SUCCESS {
        PutStoredAgrees(c, next, m2, name);
      }
    }
  }

  lemma DeleteAgrees(c: Directory, m: Model, name: string)
    requires Agrees(c, m)
    ensures Agrees(c.(files := c.files - {name}), Onto(m, [CacheRuns.RemoveKey(name)]))
  {
    OntoOne(m, CacheRuns.RemoveKey(name));
  }

  /** What the lookup finds is what is stored, so the catalogue goes on as it would without a cache. */
  lemma FoundIsStored(c: Directory, m: Model, e: Event)
    requires Agrees(c, m)
    ensures StepFound(c, e, FoundIn(m, e)) == Step(c, e)
  {
  }

  /** The messages that keep the reference and the catalogue in agreement. */
  predicate CalmHere(c: Directory, m: Model, e: Event) {
    match e
    case Create(_, name, _, _, _) => Step(c, e).1 == SUCCESS ==> TrieSpec.IsAscii(name)
    case Register(name, ssId, _) => name in c.files && name in m.values ==> c.files[name].ssId == ssId
    case _ => true
  }

  lemma StepAgrees(c: Directory, m: Model, e: Event)
    requires Agrees(c, m) && CalmHere(c, m, e)
    ensures Agrees(Step(c, e).0, Onto(m, CacheOps(c, e, FoundIn(m, e))))
  {
    var (next, status) := Step(c, e);
    assert Onto(m, []) == m;
    if e.Use? {
      UseAgrees(c, m, e.sender, e.name, e.required, e.now);
    } else if status == SUCCESS {
      match e
      case Create(_, name, _, _, _) => PutStoredAgrees(c, next, m, name);
      case Delete(_, name, _, _) => DeleteAgrees(c, m, name);
      case AddAccess(_, name, _, _) => PutStoredAgrees(c, next, m, name);
      case RemoveAccess(_, name, _) => PutStoredAgrees(c, next, m, name);
      case Approve(_, id) => PutStoredAgrees(c, next, m, c.requests[id].filename);
      case Move(_, name, _, _, _, _) => PutStoredAgrees(c, next, m, name);
      case _ =>
    }
  }

  // ----- room in the cache -----

  predicate NoRepeats(keys: seq<string>) {
    forall i, j :: 0 <= i < j < |keys| ==> keys[i] != keys[j]
  }

  /** The recency list holds each key once. */
  ghost predicate ListsKeys(m: Model) {
    NoRepeats(m.recency) && forall k :: k in m.recency <==> k in m.values
  }

  lemma {:induction false} WithoutKeyIs(keys: seq<string>, key: string)
    ensures forall k :: k in CacheRuns.WithoutKey(keys, key) <==> k in keys && k != key
    ensures NoRepeats(keys) ==> NoRepeats(CacheRuns.WithoutKey(keys, key))
  {
    if keys != [] {
      WithoutKeyIs(keys[1..], key);
      assert keys == [keys[0]] + keys[1..];
      if NoRepeats(keys) {
        assert keys[0] !in keys[1..];
      }
    }
  }

  lemma FrontKey(keys: seq<string>, key: string)
    requires NoRepeats(keys) && key !in keys
    ensures NoRepeats([key] + keys)
  {
  }

  lemma ModelKeepsList(m: Model, op: CacheOp)
    requires ListsKeys(m)
    ensures ListsKeys(CacheRuns.ModelStep(m, op))
  {
    if !op.ClearAll? {
      WithoutKeyIs(m.recency, op.key);
      FrontKey(CacheRuns.WithoutKey(m.recency, op.key), op.key);
    }
  }

  lemma {:induction false} CountKeys(list: seq<string>, keys: set<string>)
    requires NoRepeats(list) && forall k :: k in list ==> k in keys
    ensures |list| <= |keys|
    decreases |list|
  {
    if list != [] {
      assert list[0] in keys;
      forall k | k in list[1..]
        ensures k in keys - {list[0]}
      {
        assert k in list;
      }
      CountKeys(list[1..], keys - {list[0]});
    }
  }

  // ----- the server keeps the agreement -----

  /** The cache does what the reference does, and that agrees with the catalogue. */
  ghost predicate InTune(s: Server, m: Model, hash: string -> nat) {
    && |s.cache.slots| == CACHE_SIZE && CacheRuns.Represents(s.cache, hash, m)
    && ListsKeys(m) && Agrees(s.dir, m)
  }

  /** All operations use the key, and a removal is the only one. */
  predicate OneKey(ops: seq<CacheOp>, key: string) {
    && (forall i :: 0 <= i < |ops| ==> !ops[i].ClearAll? && ops[i].key == key)
    && (|ops| > 1 ==> forall i :: 0 <= i < |ops| ==> !ops[i].RemoveKey?)
  }

  /** The name that a message uses the cache for, if it does. */
  function KeyOf(c: Directory, e: Event): string {
    match e
    case AddUser(_) => ""
    case Approve(_, id) => if 0 <= id < |c.requests| then c.requests[id].filename else ""
    case Deny(_, _) => ""
    case _ => e.name
  }

  lemma OpsUseOneKey(c: Directory, e: Event, found: Option<FileMeta>)
    ensures OneKey(CacheOps(c, e, found), KeyOf(c, e))
  {
  }

  lemma RoomStays(m: Model, op: CacheOp, capacity: nat)
    requires ListsKeys(m) && !op.ClearAll? && !op.RemoveKey? && CacheRuns.HasRoom(m, op, capacity)
    ensures CacheRuns.HasRoom(CacheRuns.ModelStep(m, op), op, capacity)
  {
    WithoutKeyIs(m.recency, op.key);
  }

  /** The operations of one message on a cache that holds its key or has a free slot: they end, and the cache goes on as
      the reference does. */
  lemma {:induction false} OpsRepresent(c: MetaCache, hash: string -> nat, m: Model, ops: seq<CacheOp>, key: string)
    requires CacheRuns.IsHash(hash, |c.slots|) && CacheRuns.Represents(c, hash, m) && ListsKeys(m)
    requires OneKey(ops, key) && CacheRuns.HasRoom(m, CacheRuns.GetKey(key), |c.slots|)
    requires ops != [] ==> CacheRuns.Harmless(c, ops[0], hash)
    ensures var r := CacheRuns.RunFrom(c, ops, hash);
      && r.Some? && |r.value.slots| == |c.slots| && CacheRuns.Represents(r.value, hash, Onto(m, ops))
      && ListsKeys(Onto(m, ops))
    ensures (forall i :: 0 <= i < |ops| ==> !ops[i].RemoveKey?) ==>
      CacheRuns.HasRoom(Onto(m, ops), CacheRuns.GetKey(key), |c.slots|)
  {
    if ops != [] {
      var front, op := ops[..|ops| - 1], ops[|ops| - 1];
      OpsRepresent(c, hash, m, front, key);
      var before, n := CacheRuns.RunFrom(c, front, hash).value, Onto(m, front);
      ModelKeepsList(n, op);
      CacheRuns.OpRepresents(before, hash, n, op);
      if !op.RemoveKey? {
        RoomStays(n, op, |c.slots|);
      }
    }
  }

  /** If searches for their key do not end, neither do the operations. */
  lemma {:induction false} OpsAreStuck(c: MetaCache, hash: string -> nat, ops: seq<CacheOp>, key: string)
    requires OneKey(ops, key) && ops != [] && !CacheSpec.Ends(c, key, hash(key))
    ensures CacheRuns.RunFrom(c, ops, hash).None?
    decreases |ops|
  {
    var front := ops[..|ops| - 1];
    if front == [] {
      assert ops == [ops[0]];
      CacheRuns.RunFromOne(c, ops[0], hash);
    } else {
      OpsAreStuck(c, hash, front, key);
    }
  }

  /** If a message that uses the cache comes to an end, so do the searches for its key. */
  lemma SearchesEnd(s: Server, e: Event, hash: string -> nat)
    requires ServerStep(s, e, hash).Some? && CacheOps(s.dir, e, Found(s.cache, e, hash)) != []
    ensures CacheSpec.Ends(s.cache, KeyOf(s.dir, e), hash(KeyOf(s.dir, e)))
  {
    OpsUseOneKey(s.dir, e, Found(s.cache, e, hash));
    if !CacheSpec.Ends(s.cache, KeyOf(s.dir, e), hash(KeyOf(s.dir, e))) {
      OpsAreStuck(s.cache, hash, CacheOps(s.dir, e, Found(s.cache, e, hash)), KeyOf(s.dir, e));
    }
  }

  lemma FoundAgrees(s: Server, m: Model, e: Event, hash: string -> nat)
    requires CacheRuns.IsHash(hash, CACHE_SIZE) && InTune(s, m, hash)
    ensures Found(s.cache, e, hash) == FoundIn(m, e)
  {
    if e.Use? {
      CacheRuns.SearchEndsIff(s.cache, hash, m, e.name);
      if CacheSpec.Ends(s.cache, e.name, hash(e.name)) {
        CacheRuns.GetRepresents(s.cache, hash, m, e.name);
      }
    }
  }

  lemma FirstIsHarmless(s: Server, e: Event, m: Model, hash: string -> nat)
    requires Calm(s, e, hash)
    ensures var ops := CacheOps(s.dir, e, FoundIn(m, e)); ops != [] ==> CacheRuns.Harmless(s.cache, ops[0], hash)
  {
  }

  /** The messages that leave the cache alone, those about a cached file, and all of them while fewer files are
      cached than there are slots. */
  predicate Answered(c: Directory, m: Model, e: Event) {
    CacheOps(c, e, FoundIn(m, e)) == [] || KeyOf(c, e) in m.values || |m.recency| < CACHE_SIZE
  }

  lemma OpsEndIff(c: MetaCache, hash: string -> nat, m: Model, ops: seq<CacheOp>, key: string)
    requires CacheRuns.IsHash(hash, |c.slots|) && CacheRuns.Represents(c, hash, m) && ListsKeys(m)
    requires OneKey(ops, key) && ops != []
    ensures CacheRuns.RunFrom(c, ops, hash).Some? <==> CacheRuns.HasRoom(m, CacheRuns.GetKey(key), |c.slots|)
  {
    CacheRuns.SearchEndsIff(c, hash, m, key);
    if !CacheSpec.Ends(c, key, hash(key)) {
      OpsAreStuck(c, hash, ops, key);
    } else if ops[0].RemoveKey? {
      assert ops == [ops[0]];
      CacheRuns.RunFromOne(c, ops[0], hash);
    } else {
      OpsRepresent(c, hash, m, ops, key);
    }
  }

  /** Exactly these messages are ever answered: any other one searches the full table of the cache for good. */
  lemma AnsweredIff(s: Server, m: Model, e: Event, hash: string -> nat)
    requires CacheRuns.IsHash(hash, CACHE_SIZE) && InTune(s, m, hash)
    ensures ServerStep(s, e, hash).Some? <==> Answered(s.dir, m, e)
  {
    FoundAgrees(s, m, e, hash);
    OpsUseOneKey(s.dir, e, FoundIn(m, e));
    var ops := CacheOps(s.dir, e, FoundIn(m, e));
    if ops != [] {
      OpsEndIff(s.cache, hash, m, ops, KeyOf(s.dir, e));
    }
  }

  /** A calm message that is answered: the catalogue goes on as it would without a cache, and the two stay in tune. */
  lemma StepInTune(s: Server, m: Model, e: Event, hash: string -> nat)
    requires CacheRuns.IsHash(hash, CACHE_SIZE) && InTune(s, m, hash) && Calm(s, e, hash)
    requires Answered(s.dir, m, e)
    ensures var r := ServerStep(s, e, hash);
      && r.Some? && r.value.0.dir == Step(s.dir, e).0 && r.value.1 == Step(s.dir, e).1
      && InTune(r.value.0, Onto(m, CacheOps(s.dir, e, FoundIn(m, e))), hash)
  {
    FoundAgrees(s, m, e, hash);
    FoundIsStored(s.dir, m, e);
    OpsUseOneKey(s.dir, e, FoundIn(m, e));
    FirstIsHarmless(s, e, m, hash);
    StepAgrees(s.dir, m, e);
    var ops := CacheOps(s.dir, e, FoundIn(m, e));
    if ops != [] {
      OpsRepresent(s.cache, hash, m, ops, KeyOf(s.dir, e));
    }
  }

  /** The server after a calm run whose messages were all answered, and the reference that its cache follows. */
  lemma {:induction false} RunInTune(es: seq<Event>, hash: string -> nat) returns (s: Server, m: Model)
    requires CacheRuns.IsHash(hash, CACHE_SIZE) && CalmRun(es, hash) && ServerRun(es, hash).Some?
    ensures ServerRun(es, hash) == Some(s) && s.dir == Run(es) && InTune(s, m, hash)
  {
    if es == [] {
      s, m := Server(Run([]), CacheSpec.Empty(CACHE_SIZE)), CacheRuns.Model(map[], []);
      CacheRuns.EmptyRepresents<FileMeta>(hash, CACHE_SIZE);
    } else {
      var front, e := es[..|es| - 1], es[|es| - 1];
      var s0, m0 := RunInTune(front, hash);
      AnsweredIff(s0, m0, e, hash);
      StepInTune(s0, m0, e, hash);
      s, m := ServerStep(s0, e, hash).value.0, Onto(m0, CacheOps(s0.dir, e, FoundIn(m0, e)));
    }
  }

  lemma CachedAreFiles(s: Server, m: Model, hash: string -> nat)
    requires InTune(s, m, hash)
    ensures |m.recency| <= |s.dir.files.Keys|
  {
    CountKeys(m.recency, s.dir.files.Keys);
  }

  /** There were always fewer files than the cache has slots. */
  predicate FewFiles(es: seq<Event>) {
    |Run(es).files.Keys| < CACHE_SIZE && (es == [] || FewFiles(es[..|es| - 1]))
  }

  /** With fewer files than slots every message of a calm run is answered. */
  lemma {:induction false} FewFilesAreAnswered(es: seq<Event>, hash: string -> nat)
    requires CacheRuns.IsHash(hash, CACHE_SIZE) && CalmRun(es, hash) && FewFiles(es)
    ensures ServerRun(es, hash).Some?
  {
    if es != [] {
      var front, e := es[..|es| - 1], es[|es| - 1];
      FewFilesAreAnswered(front, hash);
      var s, m := RunInTune(front, hash);
      CachedAreFiles(s, m, hash);
      AnsweredIff(s, m, e, hash);
    }
  }

  /** `find_ss_for_file`: the storage server from the cache, else from the trie, else -1. */
  function Locate(files: map<string, FileMeta>, cache: MetaCache, name: string, h: nat): int
    requires CacheSpec.Ends(cache, name, h)
  {
    var cached := CacheSpec.Get(cache, name, h).1;
    if cached.Some? then cached.value.ssId
    else if name in files then files[name].ssId
    else -1
  }

  /** After putting a key, looking for it ends. */
  lemma PutEnds(cache: MetaCache, key: string, value: FileMeta, h: nat)
    requires CacheSpec.Ends(cache, key, h)
    ensures CacheSpec.Ends(CacheSpec.Put(cache, key, value, h), key, h)
  {
    var r, i := CacheSpec.Put(cache, key, value, h), CacheSpec.Probe(cache.slots, key, h, 0);
    assert CacheSpec.Stops(r.slots[i], key);
    CacheSpec.EndsIff(r, key, h);
  }

  /** What a lookup does to the cache. */
  lemma LookupRun(c: Directory, cache: MetaCache, name: string, hash: string -> nat)
    requires CacheSpec.Ends(cache, name, hash(name))
    ensures var (next, found) := CacheSpec.Get(cache, name, hash(name));
      && CacheSpec.Ends(next, name, hash(name))
      && var r := if found.None? && name in c.files then CacheSpec.Put(next, name, c.files[name], hash(name)) else next;
      && CacheRuns.RunFrom(cache, LookupOps(c, name, found), hash) == Some(r)
      && CacheSpec.Ends(r, name, hash(name))
  {
    var (next, found) := CacheSpec.Get(cache, name, hash(name));
    var look, fetch := [CacheRuns.GetKey(name)], if found.Some? then [] else PutStored(c, name);
    CacheRuns.RunFromOne(cache, CacheRuns.GetKey(name), hash);
    CacheRuns.RunFromAppend(cache, look, fetch, hash);
    if found.None? && name in c.files {
      CacheRuns.RunFromOne(next, CacheRuns.PutKey(name, c.files[name]), hash);
      PutEnds(next, name, c.files[name], hash(name));
    } else {
      assert fetch == [];
    }
  }

  /** A use that is allowed: what the lookup finds, and then the time and the user of the access. */
  lemma UseSteps(s: Server, sender: string, name: string, required: int, now: int, hash: string -> nat, mid: MetaCache)
    requires MayAccess(s.dir.files, name, sender, required) && CacheSpec.Ends(s.cache, name, hash(name))
    requires var found := CacheSpec.Get(s.cache, name, hash(name)).1;
      CacheRuns.RunFrom(s.cache, LookupOps(s.dir, name, found), hash) == Some(mid)
    ensures var e := Use(sender, name, required, now);
      var next := WithFile(s.dir, name, s.dir.files[name].(accessed := now, accessedBy := sender));
      ServerStep(s, e, hash)
      == if Locate(s.dir.files, s.cache, name, hash(name)) < 0 then Some((Server(s.dir, mid), ERR_FILE_NOT_FOUND))
         else match CacheRuns.RunFrom(mid, PutStored(next, name), hash)
              case None => None
              case Some(cache) => Some((Server(next, cache), SUCCESS))
  {
    var e, found := Use(sender, name, required, now), CacheSpec.Get(s.cache, name, hash(name)).1;
    assert Found(s.cache, e, hash) == found;
    var look, next := LookupOps(s.dir, name, found), StepFound(s.dir, e, found).0;
    if Locate(s.dir.files, s.cache, name, hash(name)) < 0 {
      assert look + [] == look;
      assert CacheOps(s.dir, e, found) == look;
    } else {
      CacheRuns.RunFromAppend(s.cache, look, PutStored(next, name), hash);
      assert CacheOps(s.dir, e, found) == look + PutStored(next, name);
    }
  }

  /** An approval that is allowed. */
  lemma ApproveSteps(s: Server, sender: string, id: int, granted: Directory, hash: string -> nat, cache: MetaCache)
    requires Decidable(s.dir, sender, id) == SUCCESS
    requires var r := s.dir.requests[id]; var meta := s.dir.files[r.filename];
      && granted == WithFile(s.dir, r.filename, meta.(acl := Grant(meta.acl, r.user, r.access)))
      && CacheRuns.RunFrom(s.cache, PutStored(granted, r.filename), hash) == Some(cache)
    ensures ServerStep(s, Approve(sender, id), hash)
         == Some((Server(granted.(requests := DropRequest(s.dir.requests, id)), cache), SUCCESS))
  {
  }

  predicate SlotAgrees(files: map<string, FileMeta>, s: Option<CacheSpec.Item<FileMeta>>) {
    s.Some? ==> s.value.key in files && files[s.value.key] == s.value.value
  }

  predicate CacheAgrees(files: map<string, FileMeta>, cache: MetaCache) {
    forall i :: 0 <= i < |cache.slots| ==> SlotAgrees(files, cache.slots[i])
  }

  /** Over every calm run whose messages were all answered, the catalogue is what it would be without a cache, every
      cached entry is the one in the trie, and looking a file up by way of the cache ends if and only if the file is
      cached or a slot is free, and then finds the same storage server as the trie does. */
  lemma CachedIsStored(es: seq<Event>, hash: string -> nat, name: string)
    requires CacheRuns.IsHash(hash, CACHE_SIZE) && CalmRun(es, hash) && ServerRun(es, hash).Some?
    ensures var (files, cache) := (ServerRun(es, hash).value.dir.files, ServerRun(es, hash).value.cache);
      && ServerRun(es, hash).value.dir == Run(es)
      && CacheAgrees(files, cache)
      && (CacheSpec.Ends(cache, name, hash(name)) <==>
            CacheRuns.HasSlot(cache.slots, name) || CacheSpec.HasFree(cache))
      && (CacheSpec.Ends(cache, name, hash(name)) ==>
            Locate(files, cache, name, hash(name)) == if name in files then files[name].ssId else -1)
  {
    var s, m := RunInTune(es, hash);
    forall i | 0 <= i < |s.cache.slots|
      ensures SlotAgrees(s.dir.files, s.cache.slots[i])
    {
      assert CacheRuns.SlotStands(s.cache.slots, m.values, i);
    }
    CacheSpec.EndsIff(s.cache, name, hash(name));
    if CacheSpec.Ends(s.cache, name, hash(name)) {
      CacheRuns.GetRepresents(s.cache, hash, m, name);
    }
  }

  /** While cache and trie agree, a lookup by way of the cache finds what the trie holds, and a message does to the
      catalogue what it would do without a cache. */
  lemma AgreementSuffices(s: Server, e: Event, hash: string -> nat)
    requires CacheAgrees(s.dir.files, s.cache)
    ensures StepFound(s.dir, e, Found(s.cache, e, hash)) == Step(s.dir, e)
  {
    if e.Use? && CacheSpec.Ends(s.cache, e.name, hash(e.name)) {
      assert SlotAgrees(s.dir.files, s.cache.slots[CacheSpec.Probe(s.cache.slots, e.name, hash(e.name), 0)]);
    }
  }

  // ----- where the agreement ends -----

  /** A deletion keeps the agreement if and only if no slot but the one that is emptied holds the name. */
  lemma DeleteAgreesIff(files: map<string, FileMeta>, cache: MetaCache, name: string, h: nat)
    requires CacheAgrees(files, cache) && CacheSpec.Ends(cache, name, h)
    ensures CacheAgrees(files - {name}, CacheSpec.Remove(cache, name, h))
       <==> forall i :: 0 <= i < |cache.slots| && i != CacheSpec.Probe(cache.slots, name, h, 0)
                        ==> cache.slots[i].None? || cache.slots[i].value.key != name
  {
    var r := CacheSpec.Remove(cache, name, h);
    forall i | 0 <= i < |cache.slots|
      ensures SlotAgrees(files - {name}, r.slots[i])
         <==> i == CacheSpec.Probe(cache.slots, name, h, 0) || cache.slots[i].None? || cache.slots[i].value.key != name
    {
      assert SlotAgrees(files, cache.slots[i]);
    }
  }

  /** Creating a file leaves cache and trie in agreement if and only if the trie takes the name. */
  lemma CreateAgreesIff(c: Directory, m: Model, sender: string, name: string, ssId: int, now: int)
    requires Agrees(c, m) && name !in c.files && ssId >= 0
    ensures var e := Create(sender, name, ssId, SUCCESS, now);
      Agrees(Step(c, e).0, Onto(m, CacheOps(c, e, None))) <==> TrieSpec.IsAscii(name)
  {
    OntoOne(m, CacheRuns.PutKey(name, NewFile(name, sender, ssId, now)));
  }

  /** A storage server that registers a known file leaves them in agreement if and only if the file is not cached or was
      on that server before. */
  lemma RegisterAgreesIff(c: Directory, m: Model, name: string, ssId: int, now: int)
    requires Agrees(c, m) && name in c.files
    ensures var e := Register(name, ssId, now);
      Agrees(Step(c, e).0, Onto(m, CacheOps(c, e, None))) <==> name !in m.values || c.files[name].ssId == ssId
  {
    assert Onto(m, []) == m;
    assert c.files[name].ssId == ssId ==> c.files[name].(ssId := ssId) == c.files[name];
  }
}
