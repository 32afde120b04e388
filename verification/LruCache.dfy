/** The cache on the heap: a table of nodes that a doubly linked list threads from the most to the least recently
    used. */
module LruCache {
  import opened Options
  import opened CacheSpec
  import opened CacheRuns

  class CacheNode<M> {
    const key: string
    var value: Option<M>
    var prev: CacheNode?<M>
    var next: CacheNode?<M>
    ghost var slot: nat

    constructor (k: string, v: Option<M>)
      ensures key == k && value == v
    {
      key, value, prev, next := k, v, null, null;
    }
  }

  // ----- the linked list -----

  ghost predicate NoRepeats<M>(chain: seq<CacheNode<M>>) {
    forall i, j :: 0 <= i < j < |chain| ==> chain[i] != chain[j]
  }

  ghost predicate LinkAt<M>(chain: seq<CacheNode<M>>, i: nat)
    requires i + 1 < |chain|
    reads chain
  {
    chain[i].next == chain[i + 1] && chain[i + 1].prev == chain[i]
  }

  /** Neighbours in the chain point at each other. */
  ghost predicate Linked<M>(chain: seq<CacheNode<M>>)
    reads chain
  {
    NoRepeats(chain) && forall i {:trigger LinkAt(chain, i)} :: 0 <= i < |chain| - 1 ==> LinkAt(chain, i)
  }

  /** `remove_node`. */
  method RemoveNode<M>(node: CacheNode<M>, ghost chain: seq<CacheNode<M>>, ghost x: nat)
    requires Linked(chain) && 0 < x < |chain| - 1 && chain[x] == node
    modifies chain
    ensures Linked(chain[..x] + chain[x + 1..])
    ensures forall n :: n in chain ==> n.value == old(n.value) && n.slot == old(n.slot)
  {
    assert LinkAt(chain, x - 1) && LinkAt(chain, x);
    ghost var rest := chain[..x] + chain[x + 1..];
    node.prev.next := node.next;
    node.next.prev := node.prev;
    forall i | 0 <= i < |rest| - 1
      ensures LinkAt(rest, i)
    {
      if i < x - 1 {
        assert old(LinkAt(chain, i));
      } else if i >= x {
        assert old(LinkAt(chain, i + 1));
      }
    }
  }

  /** `add_to_head`. */
  method AddToHead<M>(head: CacheNode<M>, node: CacheNode<M>, ghost chain: seq<CacheNode<M>>)
    requires Linked(chain) && |chain| >= 2 && chain[0] == head && node !in chain
    modifies chain, node
    ensures Linked([head, node] + chain[1..])
    ensures forall n :: n in chain || n == node ==> n.value == old(n.value) && n.slot == old(n.slot)
  {
    assert LinkAt(chain, 0);
    ghost var longer := [head, node] + chain[1..];
    node.next := head.next;
    node.prev := head;
    head.next.prev := node;
    head.next := node;
    forall i | 0 <= i < |longer| - 1
      ensures LinkAt(longer, i)
    {
      if i >= 2 {
        assert old(LinkAt(chain, i - 1));
      }
    }
  }

  class LruCache<M> {
    const capacity: nat
    const hash: string -> nat
    const head: CacheNode<M>
    const tail: CacheNode<M>
    const table: array<CacheNode?<M>>
    var size: nat
    ghost var list: seq<CacheNode<M>>
    ghost var slots: seq<Option<Item<M>>>
    ghost var order: seq<nat>
    ghost var Repr: set<object>

    ghost function Chain(): seq<CacheNode<M>>
      reads this
    {
      [head] + list + [tail]
    }

    /** The node of the list sits in its slot. */
    ghost predicate NodeOk(n: CacheNode<M>)
      reads n, table
    {
      n.value.Some? && n.slot < table.Length && table[n.slot] == n
    }

    /** The slot is empty or holds a node of the list. */
    ghost predicate SlotOk(i: nat)
      requires i < table.Length == |slots|
      reads this, table, list
    {
      if table[i] == null then slots[i] == None else
        && table[i] in list && table[i].slot == i
        && slots[i].Some? && slots[i].value.key == table[i].key && Some(slots[i].value.value) == table[i].value
    }

    ghost predicate Valid()
      reads this, Repr
      ensures Valid() ==> this in Repr
    {
      && this in Repr && table in Repr && head in Repr && tail in Repr
      && (forall n :: n in list ==> n in Repr)
      && table.Length == |slots| == capacity && IsHash(hash, capacity)
      && Linked(Chain()) && size == |list| == |order|
      && (forall x :: 0 <= x < |list| ==> list[x].slot == order[x])
      && Seated()
    }

    /** Nodes and slots match. */
    ghost predicate Seated()
      requires table.Length == |slots|
      reads this, table, list
    {
      && (forall n {:trigger NodeOk(n)} :: n in list ==> NodeOk(n))
      && (forall i {:trigger SlotOk(i)} :: 0 <= i < table.Length ==> SlotOk(i))
    }

    ghost function Spec(): Cache<M>
      reads this
    {
      Cache(slots, order)
    }

    constructor (n: nat, h: string -> nat)
      requires IsHash(h, n)
      ensures Valid() && fresh(Repr) && capacity == n && hash == h && Spec() == Empty(n)
    {
      var first := new CacheNode<M>("", None);
      var last := new CacheNode<M>("", None);
      capacity, hash, size, list := n, h, 0, [];
      slots, order := seq(n, _ => None), [];
      head, tail := first, last;
      var nodes := new CacheNode?<M>[n](_ => null);
      table := nodes;
      Repr := {this, first, last, nodes};
      new;
      head.next := tail;
      tail.prev := head;
      assert LinkAt(Chain(), 0);
    }

    // ----- moving nodes -----

    lemma OrderIsDistinct()
      requires Valid()
      ensures Distinct(order)
    {
      forall x, y | 0 <= x < y < |order|
        ensures order[x] != order[y]
      {
        assert NodeOk(list[x]) && NodeOk(list[y]);
        assert Chain()[x + 1] == list[x] && Chain()[y + 1] == list[y];
      }
    }

    lemma OrderWithout(x: nat) returns (rest: seq<nat>)
      requires Valid() && x < |order|
      ensures rest == Without(order, order[x]) && |rest| == |order| - 1
      ensures forall y :: 0 <= y < |rest| ==> rest[y] == order[if y < x then y else y + 1]
    {
      OrderIsDistinct();
      WithoutAt(order, x);
      rest := TakenOut(order, x);
    }

    lemma OrderToFront(x: nat) returns (moved: seq<nat>)
      requires Valid() && x < |order|
      ensures moved == [order[x]] + Without(order, order[x]) && |moved| == |order|
      ensures forall y :: 0 <= y < |moved| ==> moved[y] == order[if y == 0 then x else if y <= x then y - 1 else y]
    {
      var rest := OrderWithout(x);
      moved := [order[x]] + rest;
    }

    /** Take the node at position `x` of the list out of the chain. */
    method Unlink(node: CacheNode<M>, ghost x: nat)
      requires Valid() && x < |list| && list[x] == node
      modifies set n | n in Chain()
      ensures Linked(ChainWithout(x)) && node !in ChainWithout(x)
      ensures forall n :: n in Chain() ==> n.value == old(n.value) && n.slot == old(n.slot)
    {
      RemoveNode(node, Chain(), x + 1);
      ghost var chain := Chain();
      assert chain[..x + 1] + chain[x + 2..] == ChainWithout(x);
      assert NoRepeats(chain) && chain[x + 1] == node;
      assert node !in chain[..x + 1] && node !in chain[x + 2..];
      assert forall n :: n in list ==> n in chain;
    }

    ghost function ChainWithout(x: nat): seq<CacheNode<M>>
      requires x < |list|
      reads this
    {
      [head] + (list[..x] + list[x + 1..]) + [tail]
    }

    method Relink(node: CacheNode<M>, ghost x: nat)
      requires Valid() && x < |list| && list[x] == node
      modifies set n | n in Chain()
      ensures Linked([head] + ([node] + (list[..x] + list[x + 1..])) + [tail])
      ensures forall n :: n in Chain() ==> n.value == old(n.value) && n.slot == old(n.slot)
      ensures (forall n :: n in list ==> n.slot == old(n.slot)) && Seated()
    {
      Unlink(node, x);
      SameMembers(list, x);
      AddToHead(head, node, ChainWithout(x));
      assert forall n :: n in list ==> n in ChainWithout(x) || n == node;
      ChainShape(head, node, list[..x] + list[x + 1..], tail);
      assert forall n :: n in list ==> n in Chain();
      forall n | n in list
        ensures NodeOk(n)
      {
        assert old(NodeOk(n));
      }
      forall i | 0 <= i < table.Length
        ensures SlotOk(i)
      {
        assert old(SlotOk(i));
      }
    }

    /** Take note of another order of the same nodes. */
    ghost method Reorder(moved: seq<CacheNode<M>>, slotsMoved: seq<nat>)
      requires table.Length == |slots| && Seated() && forall n :: n in moved <==> n in list
      modifies this`list, this`order
      ensures list == moved && order == slotsMoved && Seated()
    {
      list, order := moved, slotsMoved;
      forall i | 0 <= i < table.Length
        ensures SlotOk(i)
      {
        assert old(SlotOk(i));
      }
    }

    /** `move_to_head`. */
    method MoveToHead(node: CacheNode<M>)
      requires Valid() && node in list
      modifies Repr
      ensures Valid() && Repr == old(Repr) && slots == old(slots) && node.slot == old(node.slot)
      ensures order == [node.slot] + Without(old(order), node.slot)
    {
      ghost var x :| 0 <= x < |list| && list[x] == node;
      ghost var moved := MovedToFront(list, x);
      ghost var slotsMoved := OrderToFront(x);
      Relink(node, x);
      Reorder(moved, slotsMoved);
    }

    // ----- probing -----

    /** The loop that follows a key from its home slot to its node or to a free slot. */
    method Find(key: string) returns (i: nat)
      requires Valid() && Ends(Spec(), key, hash(key))
      ensures i == Probe(slots, key, hash(key), 0) < capacity
    {
      i := hash(key);
      ghost var d := 0;
      while table[i] != null && table[i].key != key
        invariant d < capacity && i == Slot(hash(key), d, capacity)
        invariant Probe(slots, key, hash(key), d) == Probe(slots, key, hash(key), 0)
        decreases capacity - d
      {
        assert SlotOk(i);
        NextSlot(hash(key), d, capacity);
        i := (i + 1) % capacity;
        d := d + 1;
      }
      assert SlotOk(i);
    }

    /** The first free slot from a key's home slot on. */
    method FindFree(key: string) returns (i: nat)
      requires Valid() && Ends(Spec(), key, hash(key))
      requires slots[Probe(slots, key, hash(key), 0)].None?
      ensures i == Probe(slots, key, hash(key), 0) < capacity
    {
      ghost var goal := Probe(slots, key, hash(key), 0);
      i := hash(key);
      ghost var d := 0;
      ProbeIsFirst(slots, key, hash(key), 0);
      while table[i] != null
        invariant d <= Distance(hash(key), goal, capacity) && i == Slot(hash(key), d, capacity)
        decreases capacity - d
      {
        assert SlotOk(i) && i != goal;
        NextSlot(hash(key), d, capacity);
        i := (i + 1) % capacity;
        d := d + 1;
      }
      assert SlotOk(i);
    }

    // ----- the operations -----

    /** `cache_get`. */
    method Get(key: string) returns (r: Option<M>)
      requires Valid() && Ends(Spec(), key, hash(key))
      modifies Repr
      ensures Valid() && Repr == old(Repr) && (Spec(), r) == CacheSpec.Get(old(Spec()), key, hash(key))
    {
      var i := Find(key);
      var node := table[i];
      assert SlotOk(i);
      if node == null {
        return None;
      }
      assert NodeOk(node);
      r := node.value;
      MoveToHead(node);
    }

    /** Overwrite the value of a node. */
    method Overwrite(node: CacheNode<M>, value: M)
      requires Valid() && node in list
      modifies Repr
      ensures Valid() && Repr == old(Repr) && order == old(order) && list == old(list) && node.slot == old(node.slot)
      ensures node.slot < capacity && slots == old(slots)[node.slot := Some(Item(node.key, value))]
    {
      assert NodeOk(node) && SlotOk(node.slot);
      node.value := Some(value);
      slots := slots[node.slot := Some(Item(node.key, value))];
      assert Linked(Chain()) by {
        assert old(Linked(Chain()));
        forall i | 0 <= i < |Chain()| - 1
          ensures LinkAt(Chain(), i)
        {
          assert old(LinkAt(Chain(), i));
        }
      }
      forall n | n in list
        ensures NodeOk(n)
      {
        assert old(NodeOk(n));
      }
      forall i | 0 <= i < table.Length
        ensures SlotOk(i) && (i != node.slot ==> table[i] != node)
      {
        assert old(SlotOk(i));
      }
    }

    /** A new node at the head of the list. */
    method LinkIn(key: string, value: M, i: nat) returns (node: CacheNode<M>)
      requires Valid()
      modifies set n | n in Chain()
      ensures fresh(node) && node.key == key && node.value == Some(value) && node.slot == i
      ensures Linked([head] + ([node] + list) + [tail])
      ensures forall n :: n in list ==> n.value == old(n.value) && n.slot == old(n.slot)
    {
      node := new CacheNode<M>(key, Some(value));
      node.slot := i;
      ghost var chain := Chain();
      assert forall n :: n in list ==> n in chain;
      AddToHead(head, node, chain);
      assert [head, node] + chain[1..] == [head] + ([node] + list) + [tail];
    }

    /** A new node at the head of the list and in a free slot; the other nodes stay in theirs. */
    method Seat(key: string, value: M, i: nat) returns (node: CacheNode<M>)
      requires Valid() && i < table.Length && table[i] == null
      modifies (set n | n in Chain()), table
      ensures fresh(node) && node.key == key && node.value == Some(value) && node.slot == i
      ensures Linked([head] + ([node] + list) + [tail])
      ensures table[i] == node && forall j :: 0 <= j < table.Length && j != i ==> table[j] == old(table[j])
      ensures forall n :: n in list ==> n.value == old(n.value) && n.slot == old(n.slot)
      ensures NodeOk(node) && forall n {:trigger NodeOk(n)} :: n in list ==> NodeOk(n)
    {
      node := LinkIn(key, value, i);
      table[i] := node;
      forall n | n in list
        ensures NodeOk(n)
      {
        assert old(NodeOk(n));
      }
    }

    /** Put a new node into a free slot and to the head of the list. */
    method Place(key: string, value: M, i: nat)
      requires Valid() && i < capacity && table[i] == null
      modifies Repr
      ensures Valid() && fresh(Repr - old(Repr))
      ensures slots == old(slots)[i := Some(Item(key, value))] && order == [i] + old(order)
    {
      var node := Seat(key, value, i);
      size := size + 1;
      list, order := [node] + list, [i] + order;
      slots, Repr := slots[i := Some(Item(key, value))], Repr + {node};
      forall j | 0 <= j < table.Length
        ensures SlotOk(j)
      {
        assert old(SlotOk(j));
      }
    }

    /** `cache_put`. By `SizeFits` the branch that evicts the last node is never taken. */
    method Put(key: string, value: M)
      requires Valid() && Ends(Spec(), key, hash(key))
      modifies Repr
      ensures Valid() && fresh(Repr - old(Repr)) && Spec() == CacheSpec.Put(old(Spec()), key, value, hash(key))
    {
      var i := Find(key);
      var node := table[i];
      assert SlotOk(i);
      if node != null {
        Overwrite(node, value);
        MoveToHead(node);
      } else {
        i := FindFree(key);
        Place(key, value, i);
      }
    }

    /** The list has as many nodes as there are occupied slots, so never more than the capacity. */
    lemma SizeFits()
      requires Valid()
      ensures Structured(Spec()) && size == |Occupied(slots)| <= capacity
    {
      OrderIsDistinct();
      forall i
        ensures i in order <==> 0 <= i < capacity && slots[i].Some?
      {
        if i in order {
          var x :| 0 <= x < |order| && order[x] == i;
          assert NodeOk(list[x]) && SlotOk(i);
        }
        if 0 <= i < capacity && slots[i].Some? {
          assert SlotOk(i);
          var x :| 0 <= x < |list| && list[x] == table[i];
          assert order[x] == i;
        }
      }
      OrderCountsSlots(Spec());
    }

    /** `cache_remove`: the slot is emptied, later entries stay where they are. */
    method Remove(key: string)
      requires Valid() && Ends(Spec(), key, hash(key))
      modifies Repr
      ensures Valid() && Repr == old(Repr) && Spec() == CacheSpec.Remove(old(Spec()), key, hash(key))
    {
      var i := Find(key);
      var node := table[i];
      assert SlotOk(i);
      if node != null {
        Drop(node, i);
      }
    }

    /** Unlink a node, empty its slot and count one less; the other nodes stay in theirs. */
    method Detach(node: CacheNode<M>, i: nat, ghost x: nat)
      requires Valid() && x < |list| && list[x] == node && i == node.slot < table.Length
      modifies (set n | n in Chain()), table, this`size
      ensures Linked(ChainWithout(x)) && node !in list[..x] + list[x + 1..] && size == old(size) - 1
      ensures table[i] == null && forall j :: 0 <= j < table.Length && j != i ==> table[j] == old(table[j])
      ensures forall n :: n in list ==> n.value == old(n.value) && n.slot == old(n.slot)
      ensures forall n {:trigger NodeOk(n)} :: n in list && n != node ==> NodeOk(n)
      ensures forall j {:trigger SlotOk(j)} :: 0 <= j < table.Length && j != i ==> SlotOk(j)
      ensures forall j :: 0 <= j < table.Length ==> table[j] != node
    {
      assert NodeOk(node);
      Unlink(node, x);
      table[i] := null;
      size := size - 1;
      forall n | n in list && n != node
        ensures NodeOk(n)
      {
        assert old(NodeOk(n));
      }
      forall j | 0 <= j < table.Length && j != i
        ensures SlotOk(j) && table[j] != node
      {
        assert old(SlotOk(j));
      }
    }

    /** Take note of a node and a slot that have been given up. */
    ghost method Vacate(node: CacheNode<M>, i: nat, rest: seq<CacheNode<M>>, slotsLeft: seq<nat>)
      requires i < table.Length == |slots| && table[i] == null
      requires node !in rest && forall n :: n in list <==> n == node || n in rest
      requires forall n {:trigger NodeOk(n)} :: n in list && n != node ==> NodeOk(n)
      requires forall j {:trigger SlotOk(j)} :: 0 <= j < table.Length && j != i ==> SlotOk(j)
      requires forall j :: 0 <= j < table.Length ==> table[j] != node
      modifies this`list, this`order, this`slots
      ensures list == rest && order == slotsLeft && slots == old(slots)[i := None] && Seated()
    {
      list, order, slots := rest, slotsLeft, slots[i := None];
      forall j | 0 <= j < table.Length
        ensures SlotOk(j)
      {
        assert j != i ==> old(SlotOk(j));
      }
    }

    method Drop(node: CacheNode<M>, i: nat)
      requires Valid() && node in list && i == node.slot
      modifies Repr
      ensures Valid() && Repr == old(Repr) && i < capacity
      ensures slots == old(slots)[i := None] && order == Without(old(order), i)
    {
      ghost var x :| 0 <= x < |list| && list[x] == node;
      assert NodeOk(node);
      ghost var rest := TakenOut(list, x);
      ghost var slotsLeft := OrderWithout(x);
      Detach(node, i, x);
      Vacate(node, i, rest, slotsLeft);
    }

    /** `cache_clear`. */
    method Clear()
      requires Valid()
      modifies Repr
      ensures Valid() && Repr == old(Repr) && Spec() == Empty(capacity)
    {
      assert head != tail by {
        assert NoRepeats(Chain()) && Chain()[0] == head && Chain()[|list| + 1] == tail;
      }
      head.next := tail;
      tail.prev := head;
      var i := 0;
      while i < table.Length
        invariant 0 <= i <= table.Length && head.next == tail && tail.prev == head
        invariant Repr == old(Repr) && forall j :: 0 <= j < i ==> table[j] == null
        modifies table
      {
        table[i] := null;
        i := i + 1;
      }
      list, order := [], [];
      slots := seq(capacity, _ => None);
      size := 0;
      assert LinkAt(Chain(), 0);
      assert Chain() == [head, tail];
    }
  }

  lemma {:induction false} WithoutAt(order: seq<nat>, x: nat)
    requires Distinct(order) && x < |order|
    ensures Without(order, order[x]) == order[..x] + order[x + 1..]
    decreases |order|
  {
    if x == 0 {
      WithoutNone(order[1..], order[0]);
    } else {
      WithoutAt(order[1..], x - 1);
      assert order[..x] == [order[0]] + order[1..][..x - 1];
    }
  }

  lemma {:induction false} WithoutNone(order: seq<nat>, i: nat)
    requires i !in order
    ensures Without(order, i) == order
  {
    if order != [] {
      WithoutNone(order[1..], i);
    }
  }

  lemma ChainShape<T>(head: T, node: T, middle: seq<T>, tail: T)
    ensures [head, node] + ([head] + middle + [tail])[1..] == [head] + ([node] + middle) + [tail]
  {
    assert ([head] + middle + [tail])[1..] == middle + [tail];
  }

  /** A list with the element at `x` moved to its front. */
  lemma MovedToFront<T>(list: seq<T>, x: nat) returns (moved: seq<T>)
    requires x < |list|
    ensures moved == [list[x]] + (list[..x] + list[x + 1..]) && |moved| == |list|
    ensures forall y :: 0 <= y < |list| ==> moved[y] == list[if y == 0 then x else if y <= x then y - 1 else y]
    ensures forall n :: n in moved <==> n in list
  {
    moved := [list[x]] + (list[..x] + list[x + 1..]);
    SameMembers(list, x);
  }

  /** A list without the element at `x`. */
  lemma TakenOut<T>(list: seq<T>, x: nat) returns (rest: seq<T>)
    requires x < |list|
    ensures rest == list[..x] + list[x + 1..] && |rest| == |list| - 1
    ensures forall y :: 0 <= y < |rest| ==> rest[y] == list[if y < x then y else y + 1]
    ensures forall n :: n in list <==> n == list[x] || n in rest
  {
    rest := list[..x] + list[x + 1..];
    SameMembers(list, x);
  }

  lemma SameMembers<T>(list: seq<T>, x: nat)
    requires x < |list|
    ensures forall n :: n in list <==> n in [list[x]] + (list[..x] + list[x + 1..])
  {
    assert list == list[..x] + [list[x]] + list[x + 1..];
  }

  lemma NextSlot(h: nat, d: nat, capacity: nat)
    requires h < capacity && d < capacity
    ensures (Slot(h, d, capacity) + 1) % capacity == if d + 1 < capacity then Slot(h, d + 1, capacity) else h
  {
    var i := Slot(h, d, capacity);
    if i + 1 == capacity {
      WrapsOnce(capacity, capacity);
    } else {
      assert (i + 1) % capacity == i + 1;
    }
  }
}
