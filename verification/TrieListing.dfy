/** The order in which a walk over the trie lists the stored names. */
module TrieListing {
  import opened TrieSpec

  /** Strict lexicographic order by character code. */
  predicate LexLess(a: string, b: string) {
    b != [] && (a == [] || a[0] < b[0] || (a[0] == b[0] && LexLess(a[1..], b[1..])))
  }

  predicate Sorted(names: seq<string>) {
    forall i, j :: 0 <= i < j < |names| ==> LexLess(names[i], names[j])
  }

  function Under(nodes: set<string>, p: string): set<string> {
    set q | q in nodes && p <= q
  }

  lemma UnderShrinks(nodes: set<string>, p: string, c: char)
    requires p in nodes
    ensures Under(nodes, p + [c]) < Under(nodes, p)
  {
    assert p in Under(nodes, p) && p !in Under(nodes, p + [c]);
    forall q | q in Under(nodes, p + [c])
      ensures q in Under(nodes, p)
    {
      assert p <= p + [c] <= q;
    }
  }

  /** `trie_collect_files` without a limit: the node's own name, then its children in the order of their characters. */
  function ListUnder<M>(t: Trie<M>, p: string): seq<string>
    requires p in t.nodes
    decreases Under(t.nodes, p), 1, 0
  {
    (if p in t.files then [p] else []) + ListKids(t, p, 0)
  }

  /** The names under the children from character `c` on. */
  function ListKids<M>(t: Trie<M>, p: string, c: nat): seq<string>
    requires p in t.nodes && c <= ALPHABET_SIZE
    decreases Under(t.nodes, p), 0, ALPHABET_SIZE - c
  {
    if c == ALPHABET_SIZE then [] else
      ListKid(t, p, c) + ListKids(t, p, c + 1)
  }

  function ListKid<M>(t: Trie<M>, p: string, c: nat): seq<string>
    requires p in t.nodes && c < ALPHABET_SIZE
    decreases Under(t.nodes, p), 0, 0
  {
    UnderShrinks(t.nodes, p, c as char);
    if p + [c as char] in t.nodes then ListUnder(t, p + [c as char]) else []
  }

  predicate Listed<M>(t: Trie<M>, p: string, x: string) {
    x in t.files && p <= x
  }

  /** The name goes on behind `p` with a character from `c` on. */
  predicate ListedFrom<M>(t: Trie<M>, p: string, c: nat, x: string) {
    Listed(t, p, x) && |x| > |p| && x[|p|] as int >= c
  }

  lemma {:induction false} ListUnderMembers<M>(t: Trie<M>, p: string, x: string)
    requires WellFormed(t) && p in t.nodes
    ensures x in ListUnder(t, p) <==> Listed(t, p, x)
    decreases Under(t.nodes, p), 1, 0
  {
    ListKidsMembers(t, p, 0, x);
    if p <= x && |x| == |p| {
      assert x == p;
    }
  }

  lemma {:induction false} ListKidsMembers<M>(t: Trie<M>, p: string, c: nat, x: string)
    requires WellFormed(t) && p in t.nodes && c <= ALPHABET_SIZE
    ensures x in ListKids(t, p, c) <==> ListedFrom(t, p, c, x)
    decreases Under(t.nodes, p), 0, ALPHABET_SIZE - c
  {
    if c == ALPHABET_SIZE {
      if x in t.files {
        assert x in t.nodes && IsAscii(x);
      }
    } else {
      ListKidsMembers(t, p, c + 1, x);
      ListKidMembers(t, p, c, x);
    }
  }

  lemma {:induction false} ListKidMembers<M>(t: Trie<M>, p: string, c: nat, x: string)
    requires WellFormed(t) && p in t.nodes && c < ALPHABET_SIZE
    ensures x in ListKid(t, p, c) <==> Listed(t, p, x) && |x| > |p| && x[|p|] as int == c
    decreases Under(t.nodes, p), 0, 0
  {
    var child := p + [c as char];
    assert child <= x <==> p <= x && |x| > |p| && x[|p|] as int == c by {
      if p <= x && |x| > |p| && x[|p|] as int == c {
        assert x[..|child|] == child;
      }
    }
    UnderShrinks(t.nodes, p, c as char);
    if child in t.nodes {
      ListUnderMembers(t, child, x);
    } else if Listed(t, child, x) {
      PrefixIsNode(t, child, x);
    }
  }

  lemma {:induction false} LexLessBehind(p: string, a: string, b: string)
    requires LexLess(a, b)
    ensures LexLess(p + a, p + b)
  {
    if p == "" {
      assert p + a == a && p + b == b;
    } else {
      LexLessBehind(p[1..], a, b);
      assert (p + a)[1..] == p[1..] + a && (p + b)[1..] == p[1..] + b;
    }
  }

  /** A name is less than its extensions, and names that part at a character are ordered by it. */
  lemma LexLessAt(p: string, x: string, y: string)
    requires p <= x && p <= y && |y| > |p|
    requires |x| == |p| || x[|p|] < y[|p|]
    ensures LexLess(x, y)
  {
    LexLessBehind(p, x[|p|..], y[|p|..]);
    assert p + x[|p|..] == x && p + y[|p|..] == y;
  }

  lemma SortedAppend(a: seq<string>, b: seq<string>)
    requires Sorted(a) && Sorted(b)
    requires forall x, y :: x in a && y in b ==> LexLess(x, y)
    ensures Sorted(a + b)
  {
  }

  lemma {:induction false} ListUnderIsSorted<M>(t: Trie<M>, p: string)
    requires WellFormed(t) && p in t.nodes
    ensures Sorted(ListUnder(t, p))
    decreases Under(t.nodes, p), 1, 0
  {
    ListKidsIsSorted(t, p, 0);
    var own, kids := if p in t.files then [p] else [], ListKids(t, p, 0);
    forall x, y | x in own && y in kids
      ensures LexLess(x, y)
    {
      ListKidsMembers(t, p, 0, y);
      LexLessAt(p, x, y);
    }
    SortedAppend(own, kids);
  }

  lemma {:induction false} ListKidsIsSorted<M>(t: Trie<M>, p: string, c: nat)
    requires WellFormed(t) && p in t.nodes && c <= ALPHABET_SIZE
    ensures Sorted(ListKids(t, p, c))
    decreases Under(t.nodes, p), 0, ALPHABET_SIZE - c
  {
    if c < ALPHABET_SIZE {
      ListKidsIsSorted(t, p, c + 1);
      UnderShrinks(t.nodes, p, c as char);
      if p + [c as char] in t.nodes {
        ListUnderIsSorted(t, p + [c as char]);
      }
      forall x, y | x in ListKid(t, p, c) && y in ListKids(t, p, c + 1)
        ensures LexLess(x, y)
      {
        ListKidMembers(t, p, c, x);
        ListKidsMembers(t, p, c + 1, y);
        LexLessAt(p, x, y);
      }
      SortedAppend(ListKid(t, p, c), ListKids(t, p, c + 1));
    }
  }

  function Shorter(max: nat, n: nat): nat {
    if n <= max then n else max
  }

  /** What a listing with a limit returns: the first names in strict lexicographic order, each once, as many as there
      are up to the limit; all other stored names come later in the order. */
  lemma ListingIsFirstNames<M>(t: Trie<M>, max: nat, names: seq<string>)
    requires WellFormed(t)
    requires names == ListUnder(t, "")[..Shorter(max, |ListUnder(t, "")|)]
    ensures Sorted(names) && forall x :: x in names ==> x in t.files
    ensures |names| == Shorter(max, |t.files.Keys|)
    ensures forall x, y :: x in names && y in t.files && y !in names ==> LexLess(x, y)
  {
    var all := ListUnder(t, "");
    ListUnderIsSorted(t, "");
    forall x
      ensures x in all <==> x in t.files
    {
      ListUnderMembers(t, "", x);
    }
    SortedCount(all, t.files.Keys);
    forall x, y | x in names && y in t.files && y !in names
      ensures LexLess(x, y)
    {
      var i :| 0 <= i < |names| && names[i] == x;
      var j :| 0 <= j < |all| && all[j] == y;
      assert j >= |names|;
    }
  }

  lemma {:induction false} LexLessIrreflexive(a: string)
    ensures !LexLess(a, a)
  {
    if a != "" {
      LexLessIrreflexive(a[1..]);
    }
  }

  /** A strictly sorted list of all members of a set is as long as the set. */
  lemma {:induction false} SortedCount(names: seq<string>, keys: set<string>)
    requires Sorted(names) && forall x :: x in names <==> x in keys
    ensures |names| == |keys|
    decreases |names|
  {
    if names == [] {
      assert keys == {};
    } else {
      var last, front := names[|names| - 1], names[..|names| - 1];
      forall x
        ensures x in front <==> x in keys - {last}
      {
        if x in front {
          LexLessIrreflexive(x);
        }
        assert names == front + [last];
      }
      SortedCount(front, keys - {last});
      assert last in keys;
    }
  }
}
