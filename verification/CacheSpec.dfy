/** The metadata cache: a table with linear probing, and the order in which its entries were used. */
module CacheSpec {
  import opened Options

  datatype Item<M> = Item(key: string, value: M)

  /** The slots of the table, and the numbers of the occupied ones, most recently used first. */
  datatype Cache<M> = Cache(slots: seq<Option<Item<M>>>, order: seq<nat>)

  // ----- probing -----

  /** The slot `d` places behind `h`, going round. */
  function Slot(h: nat, d: nat, capacity: nat): (i: nat)
    requires h < capacity && d < capacity
    ensures i < capacity
    ensures i == (h + d) % capacity
  {
    if h + d < capacity then h + d else
      assert (h + d) % capacity == h + d - capacity by { WrapsOnce(h + d, capacity); }
      h + d - capacity
  }

  lemma WrapsOnce(x: nat, m: nat)
    requires m <= x < 2 * m
    ensures x % m == x - m
  {
  }

  predicate Stops<M>(s: Option<Item<M>>, key: string) {
    s.None? || s.value.key == key
  }

  /** The first slot from `h` on that is free or holds the key; the number of slots if there is none. */
  function Probe<M>(slots: seq<Option<Item<M>>>, key: string, h: nat, d: nat): (i: nat)
    requires h < |slots| && d <= |slots|
    ensures i < |slots| ==> Stops(slots[i], key)
    decreases |slots| - d
  {
    if d == |slots| then |slots|
    else if Stops(slots[Slot(h, d, |slots|)], key) then Slot(h, d, |slots|)
    else Probe(slots, key, h, d + 1)
  }

  /** A search for the key comes to an end. */
  predicate Ends<M>(c: Cache<M>, key: string, h: nat) {
    h < |c.slots| && Probe(c.slots, key, h, 0) < |c.slots|
  }

  predicate HasFree<M>(c: Cache<M>) {
    exists i :: 0 <= i < |c.slots| && c.slots[i].None?
  }

  // ----- the operations -----

  function Without(order: seq<nat>, i: nat): (r: seq<nat>)
    ensures forall x :: x in r <==> x in order && x != i
  {
    if order == [] then [] else
      var rest := Without(order[1..], i);
      if order[0] == i then rest else [order[0]] + rest
  }

  function Empty<M>(capacity: nat): Cache<M> {
    Cache(seq(capacity, _ => None), [])
  }

  function Get<M>(c: Cache<M>, key: string, h: nat): (Cache<M>, Option<M>)
    requires Ends(c, key, h)
  {
    var i := Probe(c.slots, key, h, 0);
    if c.slots[i].None? then (c, None)
    else (c.(order := [i] + Without(c.order, i)), Some(c.slots[i].value.value))
  }

  function Put<M>(c: Cache<M>, key: string, value: M, h: nat): Cache<M>
    requires Ends(c, key, h)
  {
    var i := Probe(c.slots, key, h, 0);
    Cache(c.slots[i := Some(Item(key, value))],
          if c.slots[i].None? then [i] + c.order else [i] + Without(c.order, i))
  }

  function Remove<M>(c: Cache<M>, key: string, h: nat): Cache<M>
    requires Ends(c, key, h)
  {
    var i := Probe(c.slots, key, h, 0);
    if c.slots[i].None? then c else Cache(c.slots[i := None], Without(c.order, i))
  }

  // ----- structure -----

  predicate Distinct(order: seq<nat>) {
    forall i, j :: 0 <= i < j < |order| ==> order[i] != order[j]
  }

  /** The order lists each occupied slot once. */
  ghost predicate Structured<M>(c: Cache<M>) {
    && Distinct(c.order)
    && (forall i :: i in c.order <==> 0 <= i < |c.slots| && c.slots[i].Some?)
  }

  function OccupiedUpTo<M>(slots: seq<Option<Item<M>>>, n: nat): set<nat>
    requires n <= |slots|
  {
    set i: nat | i < n && slots[i].Some?
  }

  function Occupied<M>(slots: seq<Option<Item<M>>>): set<nat> {
    OccupiedUpTo(slots, |slots|)
  }

  lemma {:induction false} DistinctCount(order: seq<nat>, s: set<nat>)
    requires Distinct(order) && forall i :: i in order <==> i in s
    ensures |order| == |s|
    decreases |order|
  {
    if order == [] {
      assert s == {};
    } else {
      var rest := order[1..];
      forall i
        ensures i in rest <==> i in s - {order[0]}
      {
        assert order == [order[0]] + rest;
      }
      DistinctCount(rest, s - {order[0]});
      assert order[0] in s;
    }
  }

  /** The list is as long as there are occupied slots. */
  lemma OrderCountsSlots<M>(c: Cache<M>)
    requires Structured(c)
    ensures |c.order| == |Occupied(c.slots)| <= |c.slots|
    ensures |c.order| < |c.slots| <==> HasFree(c)
  {
    DistinctCount(c.order, Occupied(c.slots));
    CountUpTo(c.slots, |c.slots|);
  }

  lemma {:induction false} CountUpTo<M>(slots: seq<Option<Item<M>>>, n: nat)
    requires n <= |slots|
    ensures |OccupiedUpTo(slots, n)| <= n
    ensures |OccupiedUpTo(slots, n)| == n <==> forall i :: 0 <= i < n ==> slots[i].Some?
  {
    if n > 0 {
      CountUpTo(slots, n - 1);
      var s, r := OccupiedUpTo(slots, n), OccupiedUpTo(slots, n - 1);
      assert s == if slots[n - 1].Some? then r + {n - 1} else r;
    }
  }

  lemma {:induction false} WithoutIsDistinct(order: seq<nat>, i: nat)
    requires Distinct(order)
    ensures Distinct(Without(order, i))
  {
    if order != [] {
      WithoutIsDistinct(order[1..], i);
      assert order[0] !in order[1..];
    }
  }

  lemma ToFrontKeepsStructure<M>(c: Cache<M>, i: nat)
    requires Structured(c) && i < |c.slots| && c.slots[i].Some?
    ensures Structured(c.(order := [i] + Without(c.order, i)))
  {
    WithoutIsDistinct(c.order, i);
  }

  lemma PutKeepsStructure<M>(c: Cache<M>, key: string, value: M, h: nat)
    requires Structured(c) && Ends(c, key, h)
    ensures Structured(Put(c, key, value, h))
  {
    var i := Probe(c.slots, key, h, 0);
    if c.slots[i].Some? {
      ToFrontKeepsStructure(c, i);
    }
  }

  lemma RemoveKeepsStructure<M>(c: Cache<M>, key: string, h: nat)
    requires Structured(c) && Ends(c, key, h)
    ensures Structured(Remove(c, key, h))
  {
    WithoutIsDistinct(c.order, Probe(c.slots, key, h, 0));
  }

  /** Every operation, also the removal, keeps the one-to-one match between occupied slots and the list. */
  lemma OperationsKeepStructure<M>(c: Cache<M>, key: string, value: M, h: nat)
    requires Structured(c) && Ends(c, key, h)
    ensures Structured(Get(c, key, h).0)
    ensures Structured(Put(c, key, value, h))
    ensures Structured(Remove(c, key, h))
  {
    var i := Probe(c.slots, key, h, 0);
    if c.slots[i].Some? {
      ToFrontKeepsStructure(c, i);
    }
    PutKeepsStructure(c, key, value, h);
    RemoveKeepsStructure(c, key, h);
  }

  // ----- termination -----

  lemma {:induction false} ProbePasses<M>(slots: seq<Option<Item<M>>>, key: string, h: nat, d: nat, e: nat)
    requires h < |slots| && d <= e <= |slots|
    requires forall x :: d <= x < e ==> !Stops(slots[Slot(h, x, |slots|)], key)
    ensures Probe(slots, key, h, d) == Probe(slots, key, h, e)
    decreases e - d
  {
    if d < e {
      ProbePasses(slots, key, h, d + 1, e);
    }
  }

  /** How far the slot `i` is behind `h`. */
  function Distance(h: nat, i: nat, capacity: nat): (d: nat)
    requires h < capacity && i < capacity
    ensures d < capacity && Slot(h, d, capacity) == i
    ensures forall e :: 0 <= e < capacity && Slot(h, e, capacity) == i ==> e == d
  {
    if i >= h then i - h else i + capacity - h
  }

  lemma {:induction false} ProbeIsFirst<M>(slots: seq<Option<Item<M>>>, key: string, h: nat, d: nat)
    requires h < |slots| && d <= |slots|
    ensures var i := Probe(slots, key, h, d);
      if i < |slots|
      then d <= Distance(h, i, |slots|)
           && forall x :: d <= x < Distance(h, i, |slots|) ==> !Stops(slots[Slot(h, x, |slots|)], key)
      else i == |slots| && forall x :: d <= x < |slots| ==> !Stops(slots[Slot(h, x, |slots|)], key)
    decreases |slots| - d
  {
    if d < |slots| && !Stops(slots[Slot(h, d, |slots|)], key) {
      ProbeIsFirst(slots, key, h, d + 1);
    }
  }

  /** A search ends exactly if some slot is free or holds the key. */
  lemma EndsIff<M>(c: Cache<M>, key: string, h: nat)
    requires h < |c.slots|
    ensures Ends(c, key, h) <==> exists i :: 0 <= i < |c.slots| && Stops(c.slots[i], key)
  {
    ProbeIsFirst(c.slots, key, h, 0);
    if i :| 0 <= i < |c.slots| && Stops(c.slots[i], key) {
      assert Slot(h, Distance(h, i, |c.slots|), |c.slots|) == i;
    }
  }
}
