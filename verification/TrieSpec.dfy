/** The trie of file names as a set of nodes (one for each path of characters from the root) and a map of stored
    names. */
module TrieSpec {
  const ALPHABET_SIZE := 128

  datatype Trie<M> = Trie(nodes: set<string>, files: map<string, M>)

  predicate IsAscii(name: string) {
    forall i :: 0 <= i < |name| ==> name[i] as int < ALPHABET_SIZE
  }

  /** The characters in front of the first one that is not ASCII. */
  function AsciiPart(name: string): (p: string)
    ensures p <= name && IsAscii(p)
    ensures p == name <==> IsAscii(name)
  {
    if name == "" || name[0] as int >= ALPHABET_SIZE then "" else
      var rest := AsciiPart(name[1..]);
      assert IsAscii(name) ==> IsAscii(name[1..]);
      [name[0]] + rest
  }

  function Prefixes(name: string): set<string> {
    set i | 0 <= i <= |name| :: name[..i]
  }

  predicate Childless(nodes: set<string>, p: string) {
    forall q :: q in nodes ==> !(q != "" && q[..|q| - 1] == p)
  }

  // ----- the operations -----

  function Empty<M>(): Trie<M> {
    Trie({""}, map[])
  }

  /** `trie_insert`; a name with a character that is not ASCII is rejected, but the nodes in front of it stay. */
  function Insert<M>(t: Trie<M>, name: string, meta: M): Trie<M> {
    Trie(t.nodes + Prefixes(AsciiPart(name)), if IsAscii(name) then t.files[name := meta] else t.files)
  }

  function Update<M>(t: Trie<M>, name: string, meta: M): Trie<M> {
    if name in t.files then t.(files := t.files[name := meta]) else t
  }

  /** The unwinding of `trie_delete_helper`: from a node upwards, nodes without children that end no name go. */
  function Prune<M>(nodes: set<string>, files: map<string, M>, p: string): set<string>
    decreases |p|
  {
    if p == "" || p in files || !Childless(nodes, p) then nodes
    else Prune(nodes - {p}, files, p[..|p| - 1])
  }

  function Delete<M>(t: Trie<M>, name: string): Trie<M> {
    if name !in t.nodes then t else
      var files := t.files - {name};
      Trie(Prune(t.nodes, files, name), files)
  }

  // ----- shape -----

  predicate HasParent(nodes: set<string>, q: string) {
    q != "" ==> q[..|q| - 1] in nodes
  }

  /** Nodes are the paths from the root, and stored names are nodes. */
  predicate WellFormed<M>(t: Trie<M>) {
    && "" in t.nodes
    && (forall q {:trigger HasParent(t.nodes, q)} :: q in t.nodes ==> HasParent(t.nodes, q))
    && (forall q :: q in t.nodes ==> IsAscii(q))
    && t.files.Keys <= t.nodes
  }

  /** Some stored name goes through the node. */
  predicate Used<M>(files: map<string, M>, q: string) {
    exists k :: k in files && q <= k
  }

  /** Every node but the root lies on the path of a stored name. */
  predicate Tight<M>(t: Trie<M>) {
    forall q :: q in t.nodes ==> q == "" || Used(t.files, q)
  }

  lemma {:induction false} PrefixIsNode<M>(t: Trie<M>, p: string, q: string)
    requires WellFormed(t) && q in t.nodes && p <= q
    ensures p in t.nodes
    decreases |q|
  {
    assert HasParent(t.nodes, q);
    if p != q {
      assert p <= q[..|q| - 1];
      PrefixIsNode(t, p, q[..|q| - 1]);
    } else {
      assert p == q;
    }
  }

  /** The stored names alone determine the nodes. */
  lemma ShapeIsDetermined<M>(t: Trie<M>, q: string)
    requires WellFormed(t) && Tight(t)
    ensures q in t.nodes <==> q == "" || Used(t.files, q)
  {
    if Used(t.files, q) {
      var k :| k in t.files && q <= k;
      PrefixIsNode(t, q, k);
    }
  }

  lemma SameFilesSameTrie<M>(t: Trie<M>, u: Trie<M>)
    requires WellFormed(t) && Tight(t) && WellFormed(u) && Tight(u) && t.files == u.files
    ensures t == u
  {
    forall q
      ensures q in t.nodes <==> q in u.nodes
    {
      ShapeIsDetermined(t, q);
      ShapeIsDetermined(u, q);
    }
    assert t.nodes == u.nodes;
  }

  lemma HasChildOnPath<M>(t: Trie<M>, q: string, k: string)
    requires WellFormed(t) && k in t.nodes && q <= k && q != k
    ensures !Childless(t.nodes, q)
  {
    assert |q| < |k|;
    var child := k[..|q| + 1];
    PrefixIsNode(t, child, k);
    assert child[..|child| - 1] == q;
  }

  /** A node without children ends a stored name. */
  lemma LeavesEndNames<M>(t: Trie<M>, q: string)
    requires WellFormed(t) && Tight(t) && q in t.nodes && q != "" && Childless(t.nodes, q)
    ensures q in t.files
  {
    var k :| k in t.files && q <= k;
    if q != k {
      HasChildOnPath(t, q, k);
    }
  }

  lemma UsedAbove<M>(files: map<string, M>, q: string, p: string)
    requires q <= p && Used(files, p)
    ensures Used(files, q)
  {
    var k :| k in files && p <= k;
    assert q <= k;
  }

  lemma ProperPrefix(q: string, p: string)
    requires q <= p && q != p
    ensures p != "" && q <= p[..|p| - 1]
  {
    assert |q| < |p|;
  }

  // ----- what the operations do -----

  lemma PrefixOfPrefixes(name: string, q: string)
    ensures q in Prefixes(name) <==> q <= name
  {
    if q <= name {
      assert q == name[..|q|];
    }
  }

  lemma InsertKeepsShape<M>(t: Trie<M>, name: string, meta: M)
    requires WellFormed(t)
    ensures WellFormed(Insert(t, name, meta))
    ensures Tight(t) && IsAscii(name) ==> Tight(Insert(t, name, meta))
  {
    var r, p := Insert(t, name, meta), AsciiPart(name);
    forall q | q in r.nodes
      ensures IsAscii(q) && HasParent(r.nodes, q)
      ensures Tight(t) && IsAscii(name) && q != "" ==> Used(r.files, q)
    {
      PrefixOfPrefixes(p, q);
      assert q in t.nodes ==> HasParent(t.nodes, q);
      if q in Prefixes(p) {
        if q != "" {
          PrefixOfPrefixes(p, q[..|q| - 1]);
        }
        if IsAscii(name) {
          assert name in r.files && q <= name;
        }
      } else if Tight(t) && q != "" {
        var k :| k in t.files && q <= k;
        assert k in r.files;
      }
    }
    PrefixOfPrefixes(p, p);
  }

  /** A rejected name leaves the shape tight exactly if it has no ASCII part that would need a new node. */
  lemma RejectedNameTightIff<M>(t: Trie<M>, name: string, meta: M)
    requires WellFormed(t) && Tight(t) && !IsAscii(name)
    ensures Insert(t, name, meta).files == t.files
    ensures Tight(Insert(t, name, meta)) <==> AsciiPart(name) in t.nodes
  {
    var r, p := Insert(t, name, meta), AsciiPart(name);
    PrefixOfPrefixes(p, p);
    if p in t.nodes {
      forall q | q in Prefixes(p)
        ensures q in t.nodes
      {
        PrefixOfPrefixes(p, q);
        PrefixIsNode(t, q, p);
      }
      assert r.nodes == t.nodes;
    } else {
      ShapeIsDetermined(t, p);
      assert p in r.nodes;
    }
  }

  /** Nodes below the pruned path are used; those on it may have become useless. */
  predicate TightBut<M>(nodes: set<string>, files: map<string, M>, p: string) {
    forall q :: q in nodes ==> q <= p || Used(files, q)
  }

  lemma {:induction false} PruneIsTight<M>(nodes: set<string>, files: map<string, M>, p: string)
    requires WellFormed(Trie(nodes, files)) && p in nodes && TightBut(nodes, files, p)
    ensures var r := Trie(Prune(nodes, files, p), files); WellFormed(r) && Tight(r) && r.nodes <= nodes
    decreases |p|
  {
    if p == "" {
    } else if p in files || !Childless(nodes, p) {
      PathIsUsed(nodes, files, p);
      forall q | q in nodes
        ensures Used(files, q)
      {
        if q <= p {
          UsedAbove(files, q, p);
        }
      }
    } else {
      var up := p[..|p| - 1];
      RemoveLeaf(nodes, files, p);
      forall q | q in nodes - {p}
        ensures q <= up || Used(files, q)
      {
        if q <= p {
          ProperPrefix(q, p);
        }
      }
      PruneIsTight(nodes - {p}, files, up);
    }
  }

  lemma PathIsUsed<M>(nodes: set<string>, files: map<string, M>, p: string)
    requires TightBut(nodes, files, p) && (p in files || !Childless(nodes, p))
    ensures Used(files, p)
  {
    if p in files {
      assert p <= p;
    } else {
      var c :| c in nodes && c != "" && c[..|c| - 1] == p;
      assert !(c <= p) && p <= c;
      UsedAbove(files, p, c);
    }
  }

  lemma RemoveLeaf<M>(nodes: set<string>, files: map<string, M>, p: string)
    requires WellFormed(Trie(nodes, files)) && p in nodes && p != "" && p !in files && Childless(nodes, p)
    ensures WellFormed(Trie(nodes - {p}, files)) && p[..|p| - 1] in nodes - {p}
  {
    assert HasParent(nodes, p);
    forall q | q in nodes - {p}
      ensures HasParent(nodes - {p}, q)
    {
      assert HasParent(nodes, q);
    }
  }

  lemma {:induction false} PruneIsWellFormed<M>(nodes: set<string>, files: map<string, M>, p: string)
    requires WellFormed(Trie(nodes, files)) && p in nodes
    ensures WellFormed(Trie(Prune(nodes, files, p), files)) && Prune(nodes, files, p) <= nodes
    decreases |p|
  {
    if !(p == "" || p in files || !Childless(nodes, p)) {
      RemoveLeaf(nodes, files, p);
      PruneIsWellFormed(nodes - {p}, files, p[..|p| - 1]);
    }
  }

  /** The node lies on the way to `p`, nothing branches off from it or goes on behind `p`, and no name ends on it or
      behind it. */
  predicate OnlyServes<M>(nodes: set<string>, files: map<string, M>, p: string, q: string) {
    && q in nodes && q != "" && q <= p
    && (forall x :: x in nodes && q <= x ==> x <= p)
    && !Used(files, q)
  }

  lemma ServesUp<M>(nodes: set<string>, files: map<string, M>, p: string, up: string, q: string)
    requires WellFormed(Trie(nodes, files)) && p in nodes && p != "" && p !in files && Childless(nodes, p)
    requires up == p[..|p| - 1] && q in nodes
    ensures OnlyServes(nodes, files, p, q) <==> q == p || OnlyServes(nodes - {p}, files, up, q)
  {
    if q == p {
      LeafServes(nodes, files, p);
    } else {
      forall x | x in nodes
        ensures x <= p <==> x == p || x <= up
      {
        if x <= p && x != p {
          ProperPrefix(x, p);
        }
      }
      assert (forall x :: x in nodes && q <= x ==> x <= p)
        <==> (forall x :: x in nodes - {p} && q <= x ==> x <= up) by {
        if forall x :: x in nodes && q <= x ==> x <= p {
          forall x | x in nodes - {p} && q <= x
            ensures x <= up
          {
            assert x in nodes;
          }
        }
        if forall x :: x in nodes - {p} && q <= x ==> x <= up {
          forall x | x in nodes && q <= x
            ensures x <= p
          {
            assert x == p || x in nodes - {p};
          }
        }
      }
    }
  }

  lemma LeafServes<M>(nodes: set<string>, files: map<string, M>, p: string)
    requires WellFormed(Trie(nodes, files)) && p in nodes && p != "" && p !in files && Childless(nodes, p)
    ensures OnlyServes(nodes, files, p, p)
  {
    forall x | x in nodes && p <= x
      ensures x == p
    {
      if x != p {
        HasChildOnPath(Trie(nodes, files), p, x);
      }
    }
  }

  lemma StoppedServes<M>(nodes: set<string>, files: map<string, M>, p: string, q: string)
    requires p == "" || p in files || !Childless(nodes, p)
    ensures !OnlyServes(nodes, files, p, q)
  {
    if q <= p && p in files {
      assert Used(files, q);
    } else if q <= p && p != "" {
      var c :| c in nodes && c != "" && c[..|c| - 1] == p;
      assert q <= c && !(c <= p);
    }
  }

  lemma {:induction false} PrunedIff<M>(nodes: set<string>, files: map<string, M>, p: string, q: string)
    requires WellFormed(Trie(nodes, files)) && p in nodes && q in nodes
    ensures q in Prune(nodes, files, p) <==> !OnlyServes(nodes, files, p, q)
    decreases |p|
  {
    if p == "" || p in files || !Childless(nodes, p) {
      StoppedServes(nodes, files, p, q);
    } else {
      var up := p[..|p| - 1];
      RemoveLeaf(nodes, files, p);
      PruneIsWellFormed(nodes - {p}, files, up);
      ServesUp(nodes, files, p, up, q);
      if q != p {
        PrunedIff(nodes - {p}, files, up, q);
      }
    }
  }

  /** Which nodes a deletion frees, in any trie: those that only the deleted name needed, and no others. */
  lemma DeleteFreesIff<M>(t: Trie<M>, name: string, q: string)
    requires WellFormed(t) && q in t.nodes
    ensures q in Delete(t, name).nodes
       <==> name !in t.nodes || !OnlyServes(t.nodes, t.files - {name}, name, q)
  {
    if name in t.nodes {
      PrunedIff(t.nodes, t.files - {name}, name, q);
    }
  }

  /** Deleting takes one name away from any trie, and no node that a stored name needs; it leaves no useless node if
      there was none. */
  lemma DeleteKeepsShape<M>(t: Trie<M>, name: string)
    requires WellFormed(t)
    ensures WellFormed(Delete(t, name)) && Delete(t, name).files == t.files - {name}
    ensures Delete(t, name).nodes <= t.nodes
    ensures Tight(t) ==> Tight(Delete(t, name))
  {
    if name in t.nodes {
      PruneIsWellFormed(t.nodes, t.files - {name}, name);
      if Tight(t) {
        DeleteIsTight(t, name);
      }
    }
  }

  lemma DeleteIsTight<M>(t: Trie<M>, name: string)
    requires WellFormed(t) && Tight(t) && name in t.nodes
    ensures Tight(Delete(t, name))
  {
    var files := t.files - {name};
    forall q | q in t.nodes
      ensures q <= name || Used(files, q)
    {
      if q != "" {
        var k :| k in t.files && q <= k;
        assert k != name ==> k in files;
      }
    }
    PruneIsTight(t.nodes, files, name);
  }

  lemma Restored<M>(t: Trie<M>, r: Trie<M>, name: string, meta: M)
    requires WellFormed(t) && Tight(t) && WellFormed(r) && Tight(r)
    requires name !in t.files && r.files == t.files[name := meta] - {name}
    ensures r == t
  {
    assert r.files == t.files;
    SameFilesSameTrie(r, t);
  }

  lemma DeletedIs<M>(t: Trie<M>, name: string, files: map<string, M>) returns (r: Trie<M>)
    requires WellFormed(t) && Tight(t) && t.files == files
    ensures r == Delete(t, name) && WellFormed(r) && Tight(r) && r.files == files - {name}
  {
    DeleteKeepsShape(t, name);
    r := Delete(t, name);
  }

  /** Deleting a freshly inserted name restores the identical trie. */
  lemma DeleteUndoesInsert<M>(t: Trie<M>, name: string, meta: M)
    requires WellFormed(t) && Tight(t) && IsAscii(name) && name !in t.files
    ensures Delete(Insert(t, name, meta), name) == t
  {
    InsertKeepsShape(t, name, meta);
    var r := DeletedIs(Insert(t, name, meta), name, t.files[name := meta]);
    Restored(t, r, name, meta);
  }

  // ----- any sequence of operations -----

  datatype Op<M> = InsertName(name: string, meta: M) | UpdateName(name: string, meta: M) | DeleteName(name: string)

  function Apply<M>(t: Trie<M>, op: Op<M>): Trie<M> {
    match op
    case InsertName(name, meta) => Insert(t, name, meta)
    case UpdateName(name, meta) => Update(t, name, meta)
    case DeleteName(name) => Delete(t, name)
  }

  function Run<M>(ops: seq<Op<M>>): Trie<M> {
    if ops == [] then Empty() else Apply(Run(ops[..|ops| - 1]), ops[|ops| - 1])
  }

  datatype Stored<M> = Absent | Present(meta: M)

  /** What the last operation on a name left stored, as if each name had a cell of its own. */
  function LastStored<M>(ops: seq<Op<M>>, name: string): Stored<M> {
    if ops == [] then Absent else
      var before := LastStored(ops[..|ops| - 1], name);
      match ops[|ops| - 1]
      case InsertName(n, meta) => if n == name && IsAscii(n) then Present(meta) else before
      case UpdateName(n, meta) => if n == name && before.Present? then Present(meta) else before
      case DeleteName(n) => if n == name then Absent else before
  }

  predicate AllAscii<M>(ops: seq<Op<M>>) {
    forall i :: 0 <= i < |ops| ==> IsAscii(ops[i].name)
  }

  /** After any sequence of operations on any names, the trie holds exactly what was last stored under each name,
      where an insertion stores nothing under a name that is not ASCII. It has no useless node if all names were
      ASCII. */
  lemma {:induction false} TrieIsMap<M>(ops: seq<Op<M>>, name: string)
    ensures WellFormed(Run(ops)) && (AllAscii(ops) ==> Tight(Run(ops)))
    ensures var files := Run(ops).files;
      LastStored(ops, name) == if name in files then Present(files[name]) else Absent
  {
    if ops != [] {
      var front, op := ops[..|ops| - 1], ops[|ops| - 1];
      TrieIsMap(front, name);
      assert AllAscii(ops) ==> AllAscii(front) && IsAscii(op.name);
      var t := Run(front);
      match op
      case InsertName(n, meta) => InsertKeepsShape(t, n, meta);
      case UpdateName(n, meta) => UpdateKeepsShape(t, n, meta);
      case DeleteName(n) => DeleteKeepsShape(t, n);
    }
  }

  lemma UpdateKeepsShape<M>(t: Trie<M>, name: string, meta: M)
    requires WellFormed(t)
    ensures WellFormed(Update(t, name, meta)) && (Tight(t) ==> Tight(Update(t, name, meta)))
  {
    if Tight(t) {
      forall q | q in t.nodes && q != ""
        ensures Used(Update(t, name, meta).files, q)
      {
        var k :| k in t.files && q <= k;
        assert k in Update(t, name, meta).files;
      }
    }
  }
}
