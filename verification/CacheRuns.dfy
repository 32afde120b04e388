/** Runs of cache operations: what lookups find, in what order entries were used, and what a removal does to probing. */
module CacheRuns {
  import opened Options
  import opened CacheSpec

  /** Searching for the key of slot `i` ends at slot `i`: there is no gap on the way from its home slot, and no other
      slot with the key. */
  predicate Reached<M>(slots: seq<Option<Item<M>>>, hash: string -> nat, i: nat)
    requires i < |slots|
  {
    slots[i].Some? ==>
      var key := slots[i].value.key;
      hash(key) < |slots| && Probe(slots, key, hash(key), 0) == i
  }

  predicate AllReached<M>(slots: seq<Option<Item<M>>>, hash: string -> nat) {
    forall i :: 0 <= i < |slots| ==> Reached(slots, hash, i)
  }

  ghost predicate IsHash(hash: string -> nat, capacity: nat) {
    forall key :: hash(key) < capacity
  }

  /** Nothing stops a search on the way from `h` to slot `i`. */
  predicate Clear<M>(slots: seq<Option<Item<M>>>, key: string, h: nat, i: nat)
    requires h < |slots| && i < |slots|
  {
    forall x :: 0 <= x < Distance(h, i, |slots|) ==> !Stops(slots[Slot(h, x, |slots|)], key)
  }

  lemma ProbeIs<M>(slots: seq<Option<Item<M>>>, key: string, h: nat, i: nat)
    requires h < |slots| && i < |slots|
    ensures Probe(slots, key, h, 0) == i <==> Stops(slots[i], key) && Clear(slots, key, h, i)
  {
    ProbeIsFirst(slots, key, h, 0);
    if Stops(slots[i], key) && Clear(slots, key, h, i) {
      ProbePasses(slots, key, h, 0, Distance(h, i, |slots|));
    }
  }

  // ----- what keeps every entry reachable -----

  lemma PutKeepsReached<M>(c: Cache<M>, hash: string -> nat, key: string, value: M)
    requires IsHash(hash, |c.slots|) && AllReached(c.slots, hash) && Ends(c, key, hash(key))
    ensures AllReached(Put(c, key, value, hash(key)).slots, hash)
  {
    var slots, i := c.slots, Probe(c.slots, key, hash(key), 0);
    var slots' := slots[i := Some(Item(key, value))];
    forall j | 0 <= j < |slots'|
      ensures Reached(slots', hash, j)
    {
      if slots'[j].Some? {
        var k := slots'[j].value.key;
        assert j != i ==> Reached(slots, hash, j);
        ProbeIs(slots, k, hash(k), j);
        assert Clear(slots', k, hash(k), j) by {
          StillClear(slots, k, hash(k), j, i, Item(key, value));
        }
        ProbeIs(slots', k, hash(k), j);
      }
    }
  }

  lemma StillClear<M>(slots: seq<Option<Item<M>>>, k: string, h: nat, j: nat, i: nat, item: Item<M>)
    requires h < |slots| && j < |slots| && i < |slots| && Clear(slots, k, h, j)
    requires slots[i].None? || slots[i].value.key == item.key
    ensures Clear(slots[i := Some(item)], k, h, j)
  {
    var slots' := slots[i := Some(item)];
    forall x | 0 <= x < Distance(h, j, |slots'|)
      ensures !Stops(slots'[Slot(h, x, |slots'|)], k)
    {
      assert !Stops(slots[Slot(h, x, |slots|)], k);
    }
  }

  /** The way from the home slot of slot `j`'s key to slot `j` goes over slot `i`. */
  predicate Crosses<M>(slots: seq<Option<Item<M>>>, hash: string -> nat, j: nat, i: nat)
    requires i < |slots| && j < |slots| && slots[j].Some? && hash(slots[j].value.key) < |slots|
  {
    var h := hash(slots[j].value.key);
    Distance(h, i, |slots|) < Distance(h, j, |slots|)
  }

  lemma HoleStops<M>(slots: seq<Option<Item<M>>>, k: string, h: nat, j: nat, i: nat)
    requires h < |slots| && j < |slots| && i < |slots| && i != j && Clear(slots, k, h, j)
    ensures Clear(slots[i := None], k, h, j) <==> !(Distance(h, i, |slots|) < Distance(h, j, |slots|))
  {
    var slots' := slots[i := None];
    if Distance(h, i, |slots|) < Distance(h, j, |slots|) {
      assert Stops(slots'[Slot(h, Distance(h, i, |slots|), |slots|)], k);
    } else {
      forall x | 0 <= x < Distance(h, j, |slots'|)
        ensures !Stops(slots'[Slot(h, x, |slots'|)], k)
      {
        assert !Stops(slots[Slot(h, x, |slots|)], k);
      }
    }
  }

  lemma HoleReaches<M>(slots: seq<Option<Item<M>>>, hash: string -> nat, i: nat, j: nat)
    requires IsHash(hash, |slots|) && i < |slots| && j < |slots| && j != i && slots[j].Some? && Reached(slots, hash, j)
    ensures Reached(slots[i := None], hash, j) <==> !Crosses(slots, hash, j, i)
  {
    var k := slots[j].value.key;
    ProbeIs(slots, k, hash(k), j);
    HoleStops(slots, k, hash(k), j, i);
    ProbeIs(slots[i := None], k, hash(k), j);
  }

  /** A removal keeps every other entry reachable if and only if no other entry was reached over the removed slot. */
  lemma RemoveKeepsReachedIff<M>(c: Cache<M>, hash: string -> nat, key: string)
    requires IsHash(hash, |c.slots|) && AllReached(c.slots, hash) && Ends(c, key, hash(key))
    ensures var i := Probe(c.slots, key, hash(key), 0);
      AllReached(Remove(c, key, hash(key)).slots, hash) <==>
      (c.slots[i].Some? ==>
        forall j :: 0 <= j < |c.slots| && j != i && c.slots[j].Some? ==> !Crosses(c.slots, hash, j, i))
  {
    var slots, i := c.slots, Probe(c.slots, key, hash(key), 0);
    if slots[i].Some? {
      forall j | 0 <= j < |slots|
        ensures j != i && slots[j].Some? ==> (Reached(slots[i := None], hash, j) <==> !Crosses(slots, hash, j, i))
      {
        assert Reached(slots, hash, j);
        if j != i && slots[j].Some? {
          HoleReaches(slots, hash, i, j);
        }
      }
      HolesAgree(slots, hash, i);
    }
  }

  lemma HolesAgree<M>(slots: seq<Option<Item<M>>>, hash: string -> nat, i: nat)
    requires IsHash(hash, |slots|) && i < |slots|
    ensures AllReached(slots[i := None], hash) <==>
      forall j :: 0 <= j < |slots| && j != i && slots[j].Some? ==> Reached(slots[i := None], hash, j)
  {
    var slots' := slots[i := None];
    assert forall j :: 0 <= j < |slots| && (j == i || slots[j].None?) ==> Reached(slots', hash, j);
  }

  // ----- the reference -----

  /** A cache as its users see it: a map, and its keys, most recently used first. */
  datatype Model<M> = Model(values: map<string, M>, recency: seq<string>)

  datatype Op<M> = GetKey(key: string) | PutKey(key: string, value: M) | RemoveKey(key: string) | ClearAll

  function WithoutKey(keys: seq<string>, key: string): seq<string> {
    if keys == [] then [] else
      (if keys[0] == key then [] else [keys[0]]) + WithoutKey(keys[1..], key)
  }

  function ModelStep<M>(m: Model<M>, op: Op<M>): Model<M> {
    match op
    case GetKey(key) => if key in m.values then m.(recency := [key] + WithoutKey(m.recency, key)) else m
    case PutKey(key, value) => Model(m.values[key := value], [key] + WithoutKey(m.recency, key))
    case RemoveKey(key) => Model(m.values - {key}, WithoutKey(m.recency, key))
    case ClearAll => Model(map[], [])
  }

  function ModelRun<M>(ops: seq<Op<M>>): Model<M> {
    if ops == [] then Model(map[], []) else ModelStep(ModelRun(ops[..|ops| - 1]), ops[|ops| - 1])
  }

  /** None if the operation does not come to an end. */
  function Step<M>(c: Cache<M>, op: Op<M>, hash: string -> nat): Option<Cache<M>> {
    match op
    case GetKey(key) => if Ends(c, key, hash(key)) then Some(Get(c, key, hash(key)).0) else None
    case PutKey(key, value) => if Ends(c, key, hash(key)) then Some(Put(c, key, value, hash(key))) else None
    case RemoveKey(key) => if Ends(c, key, hash(key)) then Some(Remove(c, key, hash(key))) else None
    case ClearAll => Some(Empty(|c.slots|))
  }

  /** From the cache `c`; None if an operation does not come to an end. */
  function RunFrom<M>(c: Cache<M>, ops: seq<Op<M>>, hash: string -> nat): Option<Cache<M>> {
    if ops == [] then Some(c) else
      match RunFrom(c, ops[..|ops| - 1], hash)
      case None => None
      case Some(before) => Step(before, ops[|ops| - 1], hash)
  }

  function Run<M>(ops: seq<Op<M>>, hash: string -> nat, capacity: nat): Option<Cache<M>> {
    RunFrom(Empty(capacity), ops, hash)
  }

  lemma {:induction false} RunFromAppend<M>(c: Cache<M>, a: seq<Op<M>>, b: seq<Op<M>>, hash: string -> nat)
    requires RunFrom(c, a, hash).Some?
    ensures RunFrom(c, a + b, hash) == RunFrom(RunFrom(c, a, hash).value, b, hash)
  {
    if b == [] {
      assert a + b == a;
    } else {
      var front, op := b[..|b| - 1], b[|b| - 1];
      RunFromAppend(c, a, front, hash);
      assert (a + b)[..|a + b| - 1] == a + front && (a + b)[|a + b| - 1] == op;
    }
  }

  lemma RunFromOne<M>(c: Cache<M>, op: Op<M>, hash: string -> nat)
    ensures RunFrom(c, [op], hash) == Step(c, op, hash)
  {
    assert [op][..0] == [];
    assert RunFrom(c, [], hash) == Some(c);
  }

  /** The keys of the list. */
  function KeysOf<M>(slots: seq<Option<Item<M>>>, order: seq<nat>): (keys: seq<string>)
    ensures |keys| == |order|
  {
    seq(|order|, x requires 0 <= x < |order| =>
      if order[x] < |slots| && slots[order[x]].Some? then slots[order[x]].value.key else "")
  }

  ghost predicate SlotStands<M>(slots: seq<Option<Item<M>>>, values: map<string, M>, i: nat)
    requires i < |slots|
  {
    slots[i].Some? ==> slots[i].value.key in values && values[slots[i].value.key] == slots[i].value.value
  }

  ghost predicate HasSlot<M>(slots: seq<Option<Item<M>>>, key: string) {
    exists i :: 0 <= i < |slots| && slots[i].Some? && slots[i].value.key == key
  }

  /** The cache holds what the model holds, in the model's order. */
  ghost predicate Represents<M>(c: Cache<M>, hash: string -> nat, m: Model<M>) {
    && Structured(c) && AllReached(c.slots, hash)
    && m.recency == KeysOf(c.slots, c.order)
    && (forall i :: 0 <= i < |c.slots| ==> SlotStands(c.slots, m.values, i))
    && (forall key :: key in m.values ==> HasSlot(c.slots, key))
  }

  /** Where a search ends tells what is stored. */
  lemma ProbeFinds<M>(c: Cache<M>, hash: string -> nat, m: Model<M>, key: string)
    requires IsHash(hash, |c.slots|) && Represents(c, hash, m) && Ends(c, key, hash(key))
    ensures var s := c.slots[Probe(c.slots, key, hash(key), 0)];
      (s.Some? <==> key in m.values) && (s.Some? ==> s.value == Item(key, m.values[key]))
  {
    var i := Probe(c.slots, key, hash(key), 0);
    assert SlotStands(c.slots, m.values, i);
    if key in m.values {
      assert HasSlot(c.slots, key);
      var j :| 0 <= j < |c.slots| && c.slots[j].Some? && c.slots[j].value.key == key;
      assert Reached(c.slots, hash, j);
    }
  }

  // ----- the operations against the reference -----

  predicate AllOccupied<M>(slots: seq<Option<Item<M>>>, order: seq<nat>) {
    forall x :: 0 <= x < |order| ==> order[x] < |slots| && slots[order[x]].Some?
  }

  lemma KeysOfTail<M>(slots: seq<Option<Item<M>>>, order: seq<nat>)
    requires order != []
    ensures KeysOf(slots, order)[1..] == KeysOf(slots, order[1..])
  {
  }

  lemma KeysOfFront<M>(slots: seq<Option<Item<M>>>, i: nat, order: seq<nat>)
    requires i < |slots| && slots[i].Some?
    ensures KeysOf(slots, [i] + order) == [slots[i].value.key] + KeysOf(slots, order)
  {
  }

  /** Taking a slot out of the order takes its key out of the keys. */
  lemma {:induction false} KeysWithout<M>(slots: seq<Option<Item<M>>>, hash: string -> nat, order: seq<nat>, i: nat)
    requires AllReached(slots, hash) && AllOccupied(slots, order) && i < |slots| && slots[i].Some?
    ensures KeysOf(slots, Without(order, i)) == WithoutKey(KeysOf(slots, order), slots[i].value.key)
    decreases |order|
  {
    if order != [] {
      KeysOfTail(slots, order);
      KeysWithout(slots, hash, order[1..], i);
      assert Reached(slots, hash, order[0]) && Reached(slots, hash, i);
      KeysOfFront(slots, order[0], Without(order[1..], i));
    }
  }

  lemma {:induction false} WithoutAbsent(keys: seq<string>, key: string)
    requires key !in keys
    ensures WithoutKey(keys, key) == keys
  {
    if keys != [] {
      WithoutAbsent(keys[1..], key);
    }
  }

  lemma GetRepresents<M>(c: Cache<M>, hash: string -> nat, m: Model<M>, key: string)
    requires IsHash(hash, |c.slots|) && Represents(c, hash, m) && Ends(c, key, hash(key))
    ensures Get(c, key, hash(key)).1 == (if key in m.values then Some(m.values[key]) else None)
    ensures Represents(Get(c, key, hash(key)).0, hash, ModelStep(m, GetKey(key)))
  {
    ProbeFinds(c, hash, m, key);
    var i := Probe(c.slots, key, hash(key), 0);
    if c.slots[i].Some? {
      assert AllOccupied(c.slots, c.order) by {
        assert forall x :: 0 <= x < |c.order| ==> c.order[x] in c.order;
      }
      KeysWithout(c.slots, hash, c.order, i);
      KeysOfFront(c.slots, i, Without(c.order, i));
      ToFrontKeepsStructure(c, i);
    }
  }

  lemma KeysOfUpdate<M>(slots: seq<Option<Item<M>>>, order: seq<nat>, i: nat, item: Item<M>)
    requires i < |slots| && (i !in order || (slots[i].Some? && slots[i].value.key == item.key))
    ensures KeysOf(slots[i := Some(item)], order) == KeysOf(slots, order)
  {
  }

  lemma PutOrder<M>(c: Cache<M>, hash: string -> nat, m: Model<M>, key: string, value: M)
    requires IsHash(hash, |c.slots|) && Represents(c, hash, m) && Ends(c, key, hash(key))
    ensures var r := Put(c, key, value, hash(key));
      KeysOf(r.slots, r.order) == [key] + WithoutKey(m.recency, key)
  {
    ProbeFinds(c, hash, m, key);
    var i := Probe(c.slots, key, hash(key), 0);
    var r := Put(c, key, value, hash(key));
    if c.slots[i].Some? {
      KeysWithout(c.slots, hash, c.order, i);
      KeysOfFront(r.slots, i, Without(c.order, i));
      KeysOfUpdate(c.slots, Without(c.order, i), i, Item(key, value));
    } else {
      KeysOfFront(r.slots, i, c.order);
      KeysOfUpdate(c.slots, c.order, i, Item(key, value));
      assert forall x :: 0 <= x < |c.order| ==> c.order[x] in c.order && SlotStands(c.slots, m.values, c.order[x]);
      WithoutAbsent(m.recency, key);
    }
  }

  lemma PutRepresents<M>(c: Cache<M>, hash: string -> nat, m: Model<M>, key: string, value: M)
    requires IsHash(hash, |c.slots|) && Represents(c, hash, m) && Ends(c, key, hash(key))
    ensures Represents(Put(c, key, value, hash(key)), hash, ModelStep(m, PutKey(key, value)))
  {
    var i := Probe(c.slots, key, hash(key), 0);
    var r, n := Put(c, key, value, hash(key)), ModelStep(m, PutKey(key, value));
    PutKeepsStructure(c, key, value, hash(key));
    PutKeepsReached(c, hash, key, value);
    PutOrder(c, hash, m, key, value);
    forall j | 0 <= j < |r.slots|
      ensures SlotStands(r.slots, n.values, j)
    {
      assert SlotStands(c.slots, m.values, j);
      assert Reached(r.slots, hash, j) && Reached(r.slots, hash, i);
    }
    forall k | k in n.values
      ensures HasSlot(r.slots, k)
    {
      if k == key {
        assert r.slots[i].Some?;
      } else {
        assert HasSlot(c.slots, k);
        var j :| 0 <= j < |c.slots| && c.slots[j].Some? && c.slots[j].value.key == k;
        assert r.slots[j] == c.slots[j];
      }
    }
  }

  lemma KeysOfHole<M>(slots: seq<Option<Item<M>>>, order: seq<nat>, i: nat)
    requires i < |slots| && i !in order
    ensures KeysOf(slots[i := None], order) == KeysOf(slots, order)
  {
  }

  /** A removal that leaves every other entry reachable takes one key away. */
  lemma RemoveRepresents<M>(c: Cache<M>, hash: string -> nat, m: Model<M>, key: string)
    requires IsHash(hash, |c.slots|) && Represents(c, hash, m) && Ends(c, key, hash(key))
    requires AllReached(Remove(c, key, hash(key)).slots, hash)
    ensures Represents(Remove(c, key, hash(key)), hash, ModelStep(m, RemoveKey(key)))
  {
    ProbeFinds(c, hash, m, key);
    RemoveKeepsStructure(c, key, hash(key));
    RemoveOrder(c, hash, m, key);
    var i := Probe(c.slots, key, hash(key), 0);
    var r, n := Remove(c, key, hash(key)), ModelStep(m, RemoveKey(key));
    forall j | 0 <= j < |r.slots|
      ensures SlotStands(r.slots, n.values, j)
    {
      assert SlotStands(c.slots, m.values, j) && Reached(c.slots, hash, j);
    }
    forall k | k in n.values
      ensures HasSlot(r.slots, k)
    {
      assert HasSlot(c.slots, k);
      var j :| 0 <= j < |c.slots| && c.slots[j].Some? && c.slots[j].value.key == k;
      assert j != i && r.slots[j] == c.slots[j];
    }
  }

  lemma RemoveOrder<M>(c: Cache<M>, hash: string -> nat, m: Model<M>, key: string)
    requires IsHash(hash, |c.slots|) && Represents(c, hash, m) && Ends(c, key, hash(key))
    ensures var r := Remove(c, key, hash(key)); KeysOf(r.slots, r.order) == WithoutKey(m.recency, key)
  {
    ProbeFinds(c, hash, m, key);
    var i := Probe(c.slots, key, hash(key), 0);
    assert forall x :: 0 <= x < |c.order| ==> c.order[x] in c.order && SlotStands(c.slots, m.values, c.order[x]);
    if c.slots[i].Some? {
      KeysWithout(c.slots, hash, c.order, i);
      KeysOfHole(c.slots, Without(c.order, i), i);
    } else {
      WithoutAbsent(m.recency, key);
    }
  }

  lemma EmptyRepresents<M>(hash: string -> nat, capacity: nat)
    ensures Represents(Empty<M>(capacity), hash, Model(map[], []))
  {
  }

  /** A removal that leaves every other entry reachable, which `RemoveKeepsReachedIff` explains, or another
      operation. */
  predicate Harmless<M>(c: Cache<M>, op: Op<M>, hash: string -> nat) {
    op.RemoveKey? && Ends(c, op.key, hash(op.key)) ==> AllReached(Remove(c, op.key, hash(op.key)).slots, hash)
  }

  predicate AllHarmless<M>(ops: seq<Op<M>>, hash: string -> nat, capacity: nat) {
    ops == [] || (
      var front := ops[..|ops| - 1];
      && AllHarmless(front, hash, capacity)
      && (Run(front, hash, capacity).Some? ==> Harmless(Run(front, hash, capacity).value, ops[|ops| - 1], hash)))
  }

  /** A search ends if and only if its key is there or a slot is free. */
  lemma SearchEndsIff<M>(c: Cache<M>, hash: string -> nat, m: Model<M>, key: string)
    requires IsHash(hash, |c.slots|) && Represents(c, hash, m)
    ensures |m.recency| <= |c.slots|
    ensures Ends(c, key, hash(key)) <==> key in m.values || |m.recency| < |c.slots|
  {
    OrderCountsSlots(c);
    EndsIff(c, key, hash(key));
    if key in m.values {
      assert HasSlot(c.slots, key);
    }
    if i :| 0 <= i < |c.slots| && Stops(c.slots[i], key) && c.slots[i].Some? {
      assert SlotStands(c.slots, m.values, i);
    }
  }

  /** The operation finds its key or a free slot. */
  predicate HasRoom<M>(m: Model<M>, op: Op<M>, capacity: nat) {
    op.ClearAll? || op.key in m.values || |m.recency| < capacity
  }

  /** So does every operation of a run. */
  predicate AllHaveRoom<M>(ops: seq<Op<M>>, capacity: nat) {
    ops == [] || (
      var front := ops[..|ops| - 1];
      AllHaveRoom(front, capacity) && HasRoom(ModelRun(front), ops[|ops| - 1], capacity))
  }

  lemma StepSlots<M>(c: Cache<M>, op: Op<M>, hash: string -> nat)
    ensures Step(c, op, hash).Some? ==> |Step(c, op, hash).value.slots| == |c.slots|
  {
  }

  /** One operation ends if and only if it finds its key or a free slot, and then does to the cache what it does to the
      reference. */
  lemma OpRepresents<M>(c: Cache<M>, hash: string -> nat, m: Model<M>, op: Op<M>)
    requires IsHash(hash, |c.slots|) && Represents(c, hash, m) && Harmless(c, op, hash)
    ensures var r := Step(c, op, hash);
      && (r.Some? <==> HasRoom(m, op, |c.slots|))
      && (r.Some? ==> |r.value.slots| == |c.slots| && Represents(r.value, hash, ModelStep(m, op)))
  {
    StepSlots(c, op, hash);
    if op.ClearAll? {
      EmptyRepresents<M>(hash, |c.slots|);
    } else {
      SearchEndsIff(c, hash, m, op.key);
      if HasRoom(m, op, |c.slots|) {
        match op
        case GetKey(key) => GetRepresents(c, hash, m, key);
        case PutKey(key, value) => PutRepresents(c, hash, m, key, value);
        case RemoveKey(key) => RemoveRepresents(c, hash, m, key);
      }
    }
  }

  /** A run in which removals leave all other entries reachable comes to an end if and only if every operation finds
      its key or a free slot. Then the cache holds exactly the reference's keys and values, in most recently used
      order, each reachable without a gap. */
  lemma {:induction false} CacheIsModel<M>(ops: seq<Op<M>>, hash: string -> nat, capacity: nat)
    requires IsHash(hash, capacity) && AllHarmless(ops, hash, capacity)
    ensures var c := Run(ops, hash, capacity);
      && (c.Some? <==> AllHaveRoom(ops, capacity))
      && (c.Some? ==> |c.value.slots| == capacity && Represents(c.value, hash, ModelRun(ops)))
  {
    if ops == [] {
      EmptyRepresents<M>(hash, capacity);
    } else {
      var front, op := ops[..|ops| - 1], ops[|ops| - 1];
      CacheIsModel(front, hash, capacity);
      if Run(front, hash, capacity).Some? {
        OpRepresents(Run(front, hash, capacity).value, hash, ModelRun(front), op);
      }
    }
  }

  /** The value last put under a key since it was removed or all was cleared. */
  function LastPut<M>(ops: seq<Op<M>>, key: string): Option<M> {
    if ops == [] then None else
      match ops[|ops| - 1]
      case GetKey(_) => LastPut(ops[..|ops| - 1], key)
      case PutKey(k, value) => if k == key then Some(value) else LastPut(ops[..|ops| - 1], key)
      case RemoveKey(k) => if k == key then None else LastPut(ops[..|ops| - 1], key)
      case ClearAll => None
  }

  lemma {:induction false} ModelHoldsLastPut<M>(ops: seq<Op<M>>, key: string)
    ensures var m := ModelRun(ops);
      LastPut(ops, key) == if key in m.values then Some(m.values[key]) else None
  {
    if ops != [] {
      ModelHoldsLastPut(ops[..|ops| - 1], key);
    }
  }

  /** A lookup at the end of such a run, if it ends, returns the value last put. */
  lemma GetReturnsLastPut<M>(ops: seq<Op<M>>, hash: string -> nat, capacity: nat, key: string)
    requires IsHash(hash, capacity) && AllHarmless(ops, hash, capacity) && AllHaveRoom(ops, capacity)
    ensures var c := Run(ops, hash, capacity);
      && c.Some?
      && (Ends(c.value, key, hash(key)) <==> HasRoom(ModelRun(ops), GetKey(key), capacity))
      && (Ends(c.value, key, hash(key)) ==> Get(c.value, key, hash(key)).1 == LastPut(ops, key))
  {
    CacheIsModel(ops, hash, capacity);
    var c, m := Run(ops, hash, capacity).value, ModelRun(ops);
    SearchEndsIff(c, hash, m, key);
    if Ends(c, key, hash(key)) {
      GetRepresents(c, hash, m, key);
      ModelHoldsLastPut(ops, key);
    }
  }

  lemma ProbeThree<M>(slots: seq<Option<Item<M>>>, key: string)
    requires |slots| == 3
    ensures Probe(slots, key, 0, 0)
         == if Stops(slots[0], key) then 0 else if Stops(slots[1], key) then 1
            else if Stops(slots[2], key) then 2 else 3
  {
    assert Probe(slots, key, 0, 3) == 3;
    assert Probe(slots, key, 0, 2) == if Stops(slots[2], key) then 2 else 3;
    assert Probe(slots, key, 0, 1) == if Stops(slots[1], key) then 1 else Probe(slots, key, 0, 2);
  }

  /** Three slots, and keys that all have home slot 0. */
  function Three<M>(x: Option<Item<M>>, y: Option<Item<M>>, order: seq<nat>): Cache<M> {
    Cache([x, y, None], order)
  }

  /** A removal can hide an entry and bring an old value back: with two keys in one home slot, removing the first hides
      the second. Put again, the second gets another slot; once that one is removed and taken by a third key, the value
      from before is found. */
  lemma StaleAfterRemove<M>(a: string, b: string, d: string, old1: M, new1: M, other: M)
    requires a != b && b != d && a != d
    ensures var c1 := Three(Some(Item(a, other)), Some(Item(b, old1)), [1, 0]);
      var c2 := Three(None, Some(Item(b, old1)), [1]);
      var c3 := Three(Some(Item(b, new1)), Some(Item(b, old1)), [0, 1]);
      var c4 := Three(Some(Item(d, other)), Some(Item(b, old1)), [0, 1]);
      && (Ends(c1, a, 0) && Remove(c1, a, 0) == c2)
      && (Ends(c2, b, 0) && Get(c2, b, 0).1 == None && Put(c2, b, new1, 0) == c3)
      && (Ends(c3, b, 0) && Get(c3, b, 0).1 == Some(new1) && Remove(c3, b, 0) == c2)
      && (Ends(c2, d, 0) && Put(c2, d, other, 0) == c4)
      && (Ends(c4, b, 0) && Get(c4, b, 0).1 == Some(old1))
  {
    var c1 := Three(Some(Item(a, other)), Some(Item(b, old1)), [1, 0]);
    var c2 := Three(None, Some(Item(b, old1)), [1]);
    var c3 := Three(Some(Item(b, new1)), Some(Item(b, old1)), [0, 1]);
    var c4 := Three(Some(Item(d, other)), Some(Item(b, old1)), [0, 1]);
    ProbeThree(c1.slots, a);
    ProbeThree(c2.slots, b);
    ProbeThree(c2.slots, d);
    ProbeThree(c3.slots, b);
    ProbeThree(c4.slots, b);
    WithoutPair();
  }

  lemma WithoutPair()
    ensures Without([1, 0], 0) == [1] && Without([0, 1], 0) == [1]
  {
    assert [1, 0][1..] == [0] && [0, 1][1..] == [1];
    assert Without([0], 0) == [] && Without([1], 0) == [1];
  }

  /** Such a cache comes up: the two keys put one after the other into three free slots. */
  lemma StaleIsReachable<M>(a: string, b: string, old1: M, other: M)
    requires a != b
    ensures var c0 := Empty<M>(3);
      && Ends(c0, a, 0)
      && var c := Put(c0, a, other, 0);
      && Ends(c, b, 0) && Put(c, b, old1, 0) == Three(Some(Item(a, other)), Some(Item(b, old1)), [1, 0])
  {
    var c0 := Empty<M>(3);
    ProbeThree(c0.slots, a);
    var c := Put(c0, a, other, 0);
    assert c == Three(Some(Item(a, other)), None, [0]);
    ProbeThree(c.slots, b);
  }
}
