/** Runs of a name server that has just started: one that fills the cache, after which messages are never answered,
    and one after which the cache names a storage server that a file is not on. */
module NameServerExamples {
  import opened Options
  import TrieSpec
  import opened Storage
  import opened Catalogue
  import CacheSpec
  import CacheRuns
  import opened CatalogueCache

  /** Every message of the run is answered by SUCCESS. */
  predicate Succeeds(es: seq<Event>, hash: string -> nat) {
    es == [] || (
      var front := es[..|es| - 1];
      && Succeeds(front, hash) && ServerRun(front, hash).Some?
      && var r := ServerStep(ServerRun(front, hash).value, es[|es| - 1], hash);
      r.Some? && r.value.1 == SUCCESS)
  }

  /** The messages succeed and lead a server that has just started to `s`. */
  predicate Reaches(es: seq<Event>, s: Server, hash: string -> nat) {
    Succeeds(es, hash) && ServerRun(es, hash) == Some(s)
  }

  lemma OneMore(es: seq<Event>, s: Server, e: Event, r: Server, hash: string -> nat)
    requires Reaches(es, s, hash) && ServerStep(s, e, hash) == Some((r, SUCCESS))
    ensures Reaches(es + [e], r, hash)
  {
    assert (es + [e])[..|es|] == es;
  }

  lemma NoAnswer(es: seq<Event>, s: Server, e: Event, hash: string -> nat)
    requires Reaches(es, s, hash) && ServerStep(s, e, hash).None?
    ensures ServerRun(es + [e], hash).None?
  {
    assert (es + [e])[..|es|] == es;
  }

  // ----- a full cache -----

  /** A new file can be created if and only if the cache has a free slot: otherwise the server never answers. */
  lemma NewFileAnsweredIff(s: Server, m: Model, user: string, name: string, ssId: int, now: int, hash: string -> nat)
    requires CacheRuns.IsHash(hash, CACHE_SIZE) && InTune(s, m, hash) && name !in s.dir.files && ssId >= 0
    ensures ServerStep(s, Create(user, name, ssId, SUCCESS, now), hash).Some? <==> |m.recency| < CACHE_SIZE
  {
    AnsweredIff(s, m, Create(user, name, ssId, SUCCESS, now), hash);
  }

  /** The same for reading, writing, streaming and undoing a file that is not cached. */
  lemma UncachedUseAnsweredIff(s: Server, m: Model, user: string, name: string, required: int, now: int,
                               hash: string -> nat)
    requires CacheRuns.IsHash(hash, CACHE_SIZE) && InTune(s, m, hash)
    requires name !in m.values && MayAccess(s.dir.files, name, user, required)
    ensures ServerStep(s, Use(user, name, required, now), hash).Some? <==> |m.recency| < CACHE_SIZE
  {
    AnsweredIff(s, m, Use(user, name, required, now), hash);
  }

  function Creates(user: string, names: seq<string>, ssId: int, now: int): seq<Event> {
    seq(|names|, i requires 0 <= i < |names| => Create(user, names[i], ssId, SUCCESS, now))
  }

  predicate NewNames(names: seq<string>) {
    (forall i :: 0 <= i < |names| ==> TrieSpec.IsAscii(names[i])) && NoRepeats(names)
  }

  /** Exactly these files are stored and cached. */
  ghost predicate Created(s: Server, m: Model, names: seq<string>, hash: string -> nat) {
    && InTune(s, m, hash) && |m.recency| == |names|
    && (forall k :: k in m.values <==> k in names) && (forall k :: k in s.dir.files <==> k in names)
  }

  lemma OneMoreFile(s: Server, m: Model, user: string, names: seq<string>, name: string, ssId: int, now: int,
                    hash: string -> nat) returns (r: Server, n: Model)
    requires CacheRuns.IsHash(hash, CACHE_SIZE) && Created(s, m, names, hash) && |names| < CACHE_SIZE
    requires name !in names && TrieSpec.IsAscii(name) && ssId >= 0
    ensures ServerStep(s, Create(user, name, ssId, SUCCESS, now), hash) == Some((r, SUCCESS))
    ensures Created(r, n, names + [name], hash)
  {
    var e, op := Create(user, name, ssId, SUCCESS, now), CacheRuns.PutKey(name, NewFile(name, user, ssId, now));
    AnsweredIff(s, m, e, hash);
    StepInTune(s, m, e, hash);
    OntoOne(m, op);
    CacheRuns.WithoutAbsent(m.recency, name);
    r, n := ServerStep(s, e, hash).value.0, Onto(m, CacheOps(s.dir, e, FoundIn(m, e)));
  }

  lemma CreatesApart(user: string, front: seq<string>, name: string, ssId: int, now: int)
    ensures Creates(user, front + [name], ssId, now)
         == Creates(user, front, ssId, now) + [Create(user, name, ssId, SUCCESS, now)]
  {
  }

  lemma NothingCreated(hash: string -> nat) returns (s: Server, m: Model)
    requires CacheRuns.IsHash(hash, CACHE_SIZE)
    ensures Reaches([], s, hash) && Created(s, m, [], hash)
  {
    s, m := Server(Catalogue.Run([]), CacheSpec.Empty(CACHE_SIZE)), CacheRuns.Model(map[], []);
    CacheRuns.EmptyRepresents<FileMeta>(hash, CACHE_SIZE);
  }

  lemma FrontIsNew(names: seq<string>, front: seq<string>, name: string)
    requires NewNames(names) && names == front + [name]
    ensures NewNames(front) && name !in front && TrieSpec.IsAscii(name)
  {
    assert names[|front|] == name;
    assert forall i :: 0 <= i < |front| ==> names[i] == front[i];
  }

  lemma {:induction false} FilesAreCreated(user: string, names: seq<string>, ssId: int, now: int, hash: string -> nat)
      returns (s: Server, m: Model)
    requires CacheRuns.IsHash(hash, CACHE_SIZE) && NewNames(names) && |names| <= CACHE_SIZE && ssId >= 0
    ensures Reaches(Creates(user, names, ssId, now), s, hash) && Created(s, m, names, hash)
  {
    if names == [] {
      s, m := NothingCreated(hash);
    } else {
      var front, name := names[..|names| - 1], names[|names| - 1];
      assert names == front + [name];
      FrontIsNew(names, front, name);
      var s0, m0 := FilesAreCreated(user, front, ssId, now, hash);
      s, m := OneMoreFile(s0, m0, user, front, name, ssId, now, hash);
      CreatesApart(user, front, name, ssId, now);
      OneMore(Creates(user, front, ssId, now), s0, Create(user, name, ssId, SUCCESS, now), s, hash);
    }
  }

  /** A hundred files are created, and all creations succeed. From then on no other file can be created by anyone, and a
      file that a storage server brings along cannot be used: the server searches its cache for good. */
  lemma FullCacheRun(user: string, names: seq<string>, ssId: int, now: int, hash: string -> nat, name: string,
                     other: string)
    requires CacheRuns.IsHash(hash, CACHE_SIZE) && NewNames(names) && |names| == CACHE_SIZE && ssId >= 0
    requires name !in names && TrieSpec.IsAscii(name)
    ensures var es := Creates(user, names, ssId, now); var brought := es + [Register(name, ssId, now)];
      && Succeeds(es, hash) && Succeeds(brought, hash)
      && ServerRun(es + [Create(other, name, ssId, SUCCESS, now)], hash).None?
      && ServerRun(brought + [Use("system", name, ACCESS_READ, now)], hash).None?
  {
    var es, reg := Creates(user, names, ssId, now), Register(name, ssId, now);
    var s, m := FilesAreCreated(user, names, ssId, now, hash);
    NewFileAnsweredIff(s, m, other, name, ssId, now, hash);
    NoAnswer(es, s, Create(other, name, ssId, SUCCESS, now), hash);
    AnsweredIff(s, m, reg, hash);
    StepInTune(s, m, reg, hash);
    assert Onto(m, []) == m;
    var r := ServerStep(s, reg, hash).value.0;
    OneMore(es, s, reg, r, hash);
    UncachedUseAnsweredIff(r, m, "system", name, ACCESS_READ, now, hash);
    NoAnswer(es + [reg], r, Use("system", name, ACCESS_READ, now), hash);
  }

  // ----- a stale entry -----

  type Entry = Option<CacheSpec.Item<FileMeta>>

  /** The slot behind a home slot. */
  function Second(h: nat): nat
    requires h < CACHE_SIZE
  {
    CacheSpec.Slot(h, 1, CACHE_SIZE)
  }

  /** All slots are free, except perhaps a home slot and the one behind it. */
  predicate Holds(cache: MetaCache, h: nat, x: Entry, y: Entry)
    requires h < CACHE_SIZE
  {
    cache.slots == seq(CACHE_SIZE, _ => None)[h := x][Second(h) := y]
  }

  lemma ProbeHolds(cache: MetaCache, h: nat, x: Entry, y: Entry, key: string)
    requires h < CACHE_SIZE && Holds(cache, h, x, y)
    ensures |cache.slots| == CACHE_SIZE && h != Second(h) && cache.slots[h] == x && cache.slots[Second(h)] == y
    ensures CacheSpec.Ends(cache, key, h)
    ensures CacheSpec.Stops(x, key) ==> CacheSpec.Probe(cache.slots, key, h, 0) == h
    ensures !CacheSpec.Stops(x, key) && CacheSpec.Stops(y, key) ==> CacheSpec.Probe(cache.slots, key, h, 0) == Second(h)
  {
    var third := CacheSpec.Slot(h, 2, CACHE_SIZE);
    assert third != h && third != Second(h) && cache.slots[third] == None;
    assert CacheSpec.Probe(cache.slots, key, h, 2) == third;
    assert CacheSpec.Probe(cache.slots, key, h, 1) == if CacheSpec.Stops(y, key) then Second(h) else third;
  }

  lemma PutFirst(cache: MetaCache, h: nat, x: Entry, y: Entry, key: string, value: FileMeta, hash: string -> nat)
      returns (r: MetaCache)
    requires h < CACHE_SIZE && Holds(cache, h, x, y) && hash(key) == h && CacheSpec.Stops(x, key)
    ensures CacheRuns.Step(cache, CacheRuns.PutKey(key, value), hash) == Some(r)
    ensures Holds(r, h, Some(CacheSpec.Item(key, value)), y)
  {
    ProbeHolds(cache, h, x, y, key);
    r := CacheSpec.Put(cache, key, value, h);
  }

  lemma PutSecond(cache: MetaCache, h: nat, x: Entry, key: string, value: FileMeta, hash: string -> nat)
      returns (r: MetaCache)
    requires h < CACHE_SIZE && Holds(cache, h, x, None) && hash(key) == h && !CacheSpec.Stops(x, key)
    ensures CacheRuns.Step(cache, CacheRuns.PutKey(key, value), hash) == Some(r)
    ensures Holds(r, h, x, Some(CacheSpec.Item(key, value)))
  {
    ProbeHolds(cache, h, x, None, key);
    r := CacheSpec.Put(cache, key, value, h);
  }

  lemma RemoveFirst(cache: MetaCache, h: nat, x: Entry, y: Entry, key: string, hash: string -> nat)
      returns (r: MetaCache)
    requires h < CACHE_SIZE && Holds(cache, h, x, y) && hash(key) == h && x.Some? && x.value.key == key
    ensures CacheRuns.Step(cache, CacheRuns.RemoveKey(key), hash) == Some(r) && Holds(r, h, None, y)
  {
    ProbeHolds(cache, h, x, y, key);
    r := CacheSpec.Remove(cache, key, h);
  }

  /** A message with one cache operation. */
  lemma StepOne(s: Server, e: Event, op: CacheOp, hash: string -> nat, cache: MetaCache)
    requires !e.Use? && CacheOps(s.dir, e, None) == [op] && CacheRuns.Step(s.cache, op, hash) == Some(cache)
    ensures ServerStep(s, e, hash) == Some((Server(Step(s.dir, e).0, cache), Step(s.dir, e).1))
  {
    CacheRuns.RunFromOne(s.cache, op, hash);
  }

  lemma CreateFirst(s: Server, u: string, name: string, ssId: int, now: int, y: Entry, hash: string -> nat)
      returns (r: Server)
    requires hash(name) < CACHE_SIZE && Holds(s.cache, hash(name), None, y)
    requires name !in s.dir.files && TrieSpec.IsAscii(name) && ssId >= 0
    ensures ServerStep(s, Create(u, name, ssId, SUCCESS, now), hash) == Some((r, SUCCESS))
    ensures r.dir == WithFile(s.dir, name, NewFile(name, u, ssId, now))
    ensures Holds(r.cache, hash(name), Some(CacheSpec.Item(name, NewFile(name, u, ssId, now))), y)
  {
    var e, meta := Create(u, name, ssId, SUCCESS, now), NewFile(name, u, ssId, now);
    var cache := PutFirst(s.cache, hash(name), None, y, name, meta, hash);
    StepOne(s, e, CacheRuns.PutKey(name, meta), hash, cache);
    r := Server(Step(s.dir, e).0, cache);
  }

  lemma CreateSecond(s: Server, u: string, name: string, ssId: int, now: int, x: Entry, hash: string -> nat)
      returns (r: Server)
    requires hash(name) < CACHE_SIZE && Holds(s.cache, hash(name), x, None) && !CacheSpec.Stops(x, name)
    requires name !in s.dir.files && TrieSpec.IsAscii(name) && ssId >= 0
    ensures ServerStep(s, Create(u, name, ssId, SUCCESS, now), hash) == Some((r, SUCCESS))
    ensures r.dir == WithFile(s.dir, name, NewFile(name, u, ssId, now))
    ensures Holds(r.cache, hash(name), x, Some(CacheSpec.Item(name, NewFile(name, u, ssId, now))))
  {
    var e, meta := Create(u, name, ssId, SUCCESS, now), NewFile(name, u, ssId, now);
    var cache := PutSecond(s.cache, hash(name), x, name, meta, hash);
    StepOne(s, e, CacheRuns.PutKey(name, meta), hash, cache);
    r := Server(Step(s.dir, e).0, cache);
  }

  lemma DeleteFirst(s: Server, u: string, name: string, x: Entry, y: Entry, hash: string -> nat) returns (r: Server)
    requires hash(name) < CACHE_SIZE && Holds(s.cache, hash(name), x, y) && x.Some? && x.value.key == name
    requires name in s.dir.files && s.dir.files[name].owner == u
    ensures ServerStep(s, Delete(u, name, false, SUCCESS), hash) == Some((r, SUCCESS))
    ensures r.dir == s.dir.(files := s.dir.files - {name}) && Holds(r.cache, hash(name), None, y)
  {
    var e := Delete(u, name, false, SUCCESS);
    var cache := RemoveFirst(s.cache, hash(name), x, y, name, hash);
    StepOne(s, e, CacheRuns.RemoveKey(name), hash, cache);
    r := Server(Step(s.dir, e).0, cache);
  }

  /** A use of a file that is in the slot behind a hole: it is not found, and fetched into the hole. */
  lemma UseThroughHole(s: Server, u: string, name: string, now: int, y: Entry, hash: string -> nat)
      returns (r: Server, meta: FileMeta)
    requires hash(name) < CACHE_SIZE && Holds(s.cache, hash(name), None, y)
    requires name in s.dir.files && s.dir.files[name].owner == u && s.dir.files[name].ssId >= 0
    ensures ServerStep(s, Use(u, name, ACCESS_READ, now), hash) == Some((r, SUCCESS))
    ensures r.dir == WithFile(s.dir, name, meta) && meta.owner == u
    ensures Holds(r.cache, hash(name), Some(CacheSpec.Item(name, meta)), y)
  {
    var h, old0 := hash(name), s.dir.files[name];
    meta := old0.(accessed := now, accessedBy := u);
    var dir := WithFile(s.dir, name, meta);
    ProbeHolds(s.cache, h, None, y, name);
    LookupRun(s.dir, s.cache, name, hash);
    var mid := PutFirst(s.cache, h, None, y, name, old0, hash);
    UseSteps(s, u, name, ACCESS_READ, now, hash, mid);
    var cache := PutFirst(mid, h, Some(CacheSpec.Item(name, old0)), y, name, meta, hash);
    CacheRuns.RunFromOne(mid, CacheRuns.PutKey(name, meta), hash);
    r := Server(dir, cache);
  }

  /** Two files whose names have the same home slot; the first is deleted, and the second is then used and deleted. */
  function HidingEvents(u: string, a: string, b: string, now: int): seq<Event> {
    [] + [Create(u, a, 1, SUCCESS, now)] + [Create(u, b, 1, SUCCESS, now)] + [Delete(u, a, false, SUCCESS)]
    + [Use(u, b, ACCESS_READ, now)] + [Delete(u, b, false, SUCCESS)]
  }

  /** No file is left, but the entry of the second one is still in the table, behind a hole. */
  lemma HiddenEntry(u: string, a: string, b: string, now: int, hash: string -> nat) returns (s: Server)
    requires a != b && TrieSpec.IsAscii(a) && TrieSpec.IsAscii(b) && hash(a) == hash(b) < CACHE_SIZE
    ensures Reaches(HidingEvents(u, a, b, now), s, hash) && s.dir.files == map[]
    ensures Holds(s.cache, hash(b), None, Some(CacheSpec.Item(b, NewFile(b, u, 1, now))))
  {
    var s0 := Server(Catalogue.Run([]), CacheSpec.Empty(CACHE_SIZE));
    assert Holds(s0.cache, hash(a), None, None);
    var s1 := CreateFirst(s0, u, a, 1, now, None, hash);
    var x, y := Some(CacheSpec.Item(a, NewFile(a, u, 1, now))), Some(CacheSpec.Item(b, NewFile(b, u, 1, now)));
    var s2 := CreateSecond(s1, u, b, 1, now, x, hash);
    var s3 := DeleteFirst(s2, u, a, x, y, hash);
    var s4, meta := UseThroughHole(s3, u, b, now, y, hash);
    s := DeleteFirst(s4, u, b, Some(CacheSpec.Item(b, meta)), y, hash);
    HidingReaches(u, a, b, now, hash, s0, s1, s2, s3, s4, s);
  }

  lemma HidingReaches(u: string, a: string, b: string, now: int, hash: string -> nat, s0: Server, s1: Server,
                      s2: Server, s3: Server, s4: Server, s: Server)
    requires s0 == Server(Catalogue.Run([]), CacheSpec.Empty(CACHE_SIZE))
    requires ServerStep(s0, Create(u, a, 1, SUCCESS, now), hash) == Some((s1, SUCCESS))
    requires ServerStep(s1, Create(u, b, 1, SUCCESS, now), hash) == Some((s2, SUCCESS))
    requires ServerStep(s2, Delete(u, a, false, SUCCESS), hash) == Some((s3, SUCCESS))
    requires ServerStep(s3, Use(u, b, ACCESS_READ, now), hash) == Some((s4, SUCCESS))
    requires ServerStep(s4, Delete(u, b, false, SUCCESS), hash) == Some((s, SUCCESS))
    ensures Reaches(HidingEvents(u, a, b, now), s, hash)
  {
    var es := [] + [Create(u, a, 1, SUCCESS, now)] + [Create(u, b, 1, SUCCESS, now)];
    OneMore([], s0, Create(u, a, 1, SUCCESS, now), s1, hash);
    OneMore([] + [Create(u, a, 1, SUCCESS, now)], s1, Create(u, b, 1, SUCCESS, now), s2, hash);
    OneMore(es, s2, Delete(u, a, false, SUCCESS), s3, hash);
    OneMore(es + [Delete(u, a, false, SUCCESS)], s3, Use(u, b, ACCESS_READ, now), s4, hash);
    OneMore(es + [Delete(u, a, false, SUCCESS)] + [Use(u, b, ACCESS_READ, now)], s4, Delete(u, b, false, SUCCESS), s,
            hash);
  }

  /** The first file is created again, and storage server 2 brings the second one along. All messages succeed, the
      catalogue has the second file on server 2, and a lookup by way of the cache finds it on server 1, where it was
      deleted. */
  lemma StaleRun(u: string, a: string, b: string, now: int, hash: string -> nat) returns (s: Server)
    requires a != b && TrieSpec.IsAscii(a) && TrieSpec.IsAscii(b) && hash(a) == hash(b) < CACHE_SIZE
    ensures Reaches(HidingEvents(u, a, b, now) + [Create(u, a, 1, SUCCESS, now)] + [Register(b, 2, now)], s, hash)
    ensures b in s.dir.files && s.dir.files[b].ssId == 2
    ensures CacheSpec.Ends(s.cache, b, hash(b)) && Locate(s.dir.files, s.cache, b, hash(b)) == 1
  {
    var es, reg := HidingEvents(u, a, b, now), Register(b, 2, now);
    var s0 := HiddenEntry(u, a, b, now, hash);
    var y := Some(CacheSpec.Item(b, NewFile(b, u, 1, now)));
    var s1 := CreateFirst(s0, u, a, 1, now, y, hash);
    OneMore(es, s0, Create(u, a, 1, SUCCESS, now), s1, hash);
    s := Server(Step(s1.dir, reg).0, s1.cache);
    OneMore(es + [Create(u, a, 1, SUCCESS, now)], s1, reg, s, hash);
    ProbeHolds(s.cache, hash(b), Some(CacheSpec.Item(a, NewFile(a, u, 1, now))), y, b);
  }
}
