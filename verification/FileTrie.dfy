/** The trie on the heap: nodes with an array of children, changed in place while walking down a name. */
module FileTrie {
  import opened Options
  import opened TrieSpec
  import opened TrieListing

  class TrieNode<M> {
    const children: array<TrieNode?<M>>
    var isEndOfWord: bool
    var fileMeta: Option<M>

    constructor ()
      ensures fresh(children) && children.Length == ALPHABET_SIZE
      ensures forall i :: 0 <= i < ALPHABET_SIZE ==> children[i] == null
      ensures !isEndOfWord && fileMeta == None
    {
      children := new TrieNode?<M>[ALPHABET_SIZE](_ => null);
      isEndOfWord, fileMeta := false, None;
    }
  }

  class FileTrie<M> {
    const root: TrieNode<M>
    ghost var at: map<string, TrieNode<M>>
    ghost var files: map<string, M>
    ghost var Repr: set<object>

    /** The node that a path leads to. */
    ghost function NodeAt(p: string): TrieNode?<M>
      reads this
    {
      if p in at then at[p] else null
    }

    ghost predicate NodeOk(p: string)
      requires p in at
      reads this, Repr
    {
      var n := at[p];
      && n in Repr && n.children in Repr && n.children.Length == ALPHABET_SIZE
      && n.isEndOfWord == (p in files)
      && n.fileMeta == (if p in files then Some(files[p]) else None)
    }

    /** The edge for character `c` leads to the node for the longer path. */
    ghost predicate EdgeOk(p: string, c: char)
      requires p in at && c as int < ALPHABET_SIZE
      reads this, Repr
    {
      at[p] in Repr && at[p].children in Repr && at[p].children.Length == ALPHABET_SIZE
      && at[p].children[c as int] == NodeAt(p + [c])
    }

    ghost predicate Apart(p: string, q: string)
      requires p in at && q in at
      reads this
    {
      at[p] != at[q] && at[p].children != at[q].children
    }

    ghost predicate Valid()
      reads this, Repr
      ensures Valid() ==> this in Repr
    {
      && this in Repr
      && WellFormed(Spec()) && at[""] == root
      && (forall p {:trigger NodeOk(p)} :: p in at ==> NodeOk(p))
      && (forall p, c {:trigger EdgeOk(p, c)} :: p in at && c as int < ALPHABET_SIZE ==> EdgeOk(p, c))
      && (forall p, q {:trigger Apart(p, q)} :: p in at && q in at && p != q ==> Apart(p, q))
    }

    ghost function Spec(): Trie<M>
      reads this
    {
      Trie(at.Keys, files)
    }

    constructor ()
      ensures Valid() && fresh(Repr) && Spec() == Empty()
    {
      var node := new TrieNode<M>();
      root := node;
      at, files := map["" := node], map[];
      Repr := {this, node, node.children};
    }

    /** Give a node a new child. */
    method AddChild(ghost p: string, current: TrieNode<M>, c: char) returns (node: TrieNode<M>)
      requires Valid() && p in at && at[p] == current && c as int < ALPHABET_SIZE && p + [c] !in at
      modifies Repr
      ensures Valid() && fresh(Repr - old(Repr)) && at == old(at)[p + [c] := node] && files == old(files)
    {
      assert NodeOk(p);
      node := new TrieNode();
      ghost var child := p + [c];
      ExtendWellFormed(Spec(), p, c);
      current.children[c as int] := node;
      at := at[child := node];
      Repr := Repr + {node, node.children};
      assert at.Keys == old(at.Keys) + {child};
      forall q | q in at
        ensures NodeOk(q)
      {
        assert q != child ==> old(NodeOk(q));
      }
      forall q, d: char | q in at && d as int < ALPHABET_SIZE
        ensures EdgeOk(q, d)
      {
        assert q != child ==> old(NodeOk(q)) && old(EdgeOk(q, d));
        assert q != child && q != p ==> old(Apart(p, q));
        StepsApart(q, p, c);
      }
      forall q, r | q in at && r in at && q != r
        ensures Apart(q, r)
      {
        assert q != child ==> old(NodeOk(q));
        assert r != child ==> old(NodeOk(r));
        assert q != child && r != child ==> old(Apart(q, r));
      }
    }

    /** No node that was there has moved. */
    ghost predicate Extends(before: map<string, TrieNode<M>>)
      reads this
    {
      forall p :: p in before ==> p in at && at[p] == before[p]
    }

    /** Make a node the end of a name. */
    method Store(ghost p: string, current: TrieNode<M>, meta: M)
      requires Valid() && p in at && at[p] == current
      modifies Repr
      ensures Valid() && Repr == old(Repr) && at == old(at) && files == old(files)[p := meta]
    {
      assert NodeOk(p);
      current.isEndOfWord := true;
      current.fileMeta := Some(meta);
      files := files[p := meta];
      forall q | q in at
        ensures NodeOk(q)
      {
        assert old(NodeOk(q)) && (q != p ==> old(Apart(q, p)));
      }
      forall q, c: char | q in at && c as int < ALPHABET_SIZE
        ensures EdgeOk(q, c)
      {
        assert old(NodeOk(q)) && old(EdgeOk(q, c));
      }
      forall q, r | q in at && r in at && q != r
        ensures Apart(q, r)
      {
        assert old(Apart(q, r));
      }
    }

    /** `trie_insert`. */
    method Insert(name: string, meta: M) returns (ok: bool)
      requires Valid()
      modifies Repr
      ensures Valid() && fresh(Repr - old(Repr)) && Extends(old(at))
      ensures Spec() == TrieSpec.Insert(old(Spec()), name, meta) && ok == IsAscii(name)
    {
      var current := root;
      var i := 0;
      PrefixesOfNothing(name);
      while i < |name|
        invariant 0 <= i <= |name| && Valid() && fresh(Repr - old(Repr)) && Extends(old(at))
        invariant files == old(files) && at.Keys == old(at.Keys) + Prefixes(name[..i])
        invariant name[..i] in at && at[name[..i]] == current && IsAscii(name[..i])
      {
        if name[i] as int >= ALPHABET_SIZE {
          AsciiPartIs(name, i);
          return false;
        }
        PrefixesStep(name, i);
        assert NodeOk(name[..i]) && EdgeOk(name[..i], name[i]);
        var next := current.children[name[i] as int];
        if next == null {
          current := AddChild(name[..i], current, name[i]);
        } else {
          current := next;
        }
        i := i + 1;
      }
      assert name[..i] == name;
      Store(name, current, meta);
      ok := true;
    }

    /** The walk down a name; null if it leaves the trie. */
    method Walk(name: string) returns (node: TrieNode?<M>)
      requires Valid()
      ensures node == NodeAt(name)
    {
      var current := root;
      var i := 0;
      assert name[..0] == "";
      while i < |name|
        invariant 0 <= i <= |name| && name[..i] in at && at[name[..i]] == current
      {
        assert name[..i + 1] == name[..i] + [name[i]];
        if name in at {
          PrefixIsNode(Spec(), name[..i + 1], name);
        }
        if name[i] as int >= ALPHABET_SIZE {
          return null;
        }
        assert NodeOk(name[..i]) && EdgeOk(name[..i], name[i]);
        var next := current.children[name[i] as int];
        if next == null {
          return null;
        }
        current := next;
        i := i + 1;
      }
      assert name[..i] == name;
      node := current;
    }

    /** `trie_search`: exactly what is stored under the name. */
    method Search(name: string) returns (meta: Option<M>)
      requires Valid()
      ensures meta == if name in files then Some(files[name]) else None
    {
      var node := Walk(name);
      if node == null {
        return None;
      }
      assert NodeOk(name);
      meta := if node.isEndOfWord then node.fileMeta else None;
    }

    /** `trie_update`. */
    method Update(name: string, meta: M) returns (ok: bool)
      requires Valid()
      modifies Repr
      ensures Valid() && Repr == old(Repr) && at == old(at)
      ensures Spec() == TrieSpec.Update(old(Spec()), name, meta) && ok == (name in old(files))
    {
      var node := Walk(name);
      if node == null {
        return false;
      }
      assert NodeOk(name);
      ok := node.isEndOfWord && node.fileMeta.Some?;
      if ok {
        Store(name, node, meta);
      }
    }

    /** Take the name off a node. */
    method Clear(ghost p: string, current: TrieNode<M>)
      requires Valid() && p in at && at[p] == current
      modifies Repr
      ensures Valid() && Repr == old(Repr) && at == old(at) && files == old(files) - {p}
    {
      assert NodeOk(p);
      if current.isEndOfWord {
        current.isEndOfWord := false;
        current.fileMeta := None;
      }
      files := files - {p};
      forall q | q in at
        ensures NodeOk(q)
      {
        assert old(NodeOk(q)) && (q != p ==> old(Apart(q, p)));
      }
      forall q, c: char | q in at && c as int < ALPHABET_SIZE
        ensures EdgeOk(q, c)
      {
        assert old(NodeOk(q)) && old(EdgeOk(q, c));
      }
      forall q, r | q in at && r in at && q != r
        ensures Apart(q, r)
      {
        assert old(Apart(q, r));
      }
    }

    method HasNoChildren(ghost p: string, node: TrieNode<M>) returns (b: bool)
      requires Valid() && p in at && at[p] == node
      ensures b == Childless(at.Keys, p)
    {
      assert NodeOk(p);
      var i := 0;
      while i < ALPHABET_SIZE
        invariant 0 <= i <= ALPHABET_SIZE
        invariant forall c: char :: c as int < i ==> p + [c] !in at
      {
        assert EdgeOk(p, i as char);
        if node.children[i] != null {
          assert (p + [i as char])[..|p|] == p;
          return false;
        }
        i := i + 1;
      }
      NoChildren(Spec(), p);
      b := true;
    }

    /** Cut off a leaf that ends no name. */
    method CutLeaf(ghost p: string, node: TrieNode<M>, c: char)
      requires Valid() && p in at && at[p] == node && c as int < ALPHABET_SIZE
      requires p + [c] in at && p + [c] !in files && Childless(at.Keys, p + [c])
      modifies Repr
      ensures Valid() && Repr == old(Repr) && files == old(files) && at == old(at) - {p + [c]}
    {
      assert NodeOk(p);
      ghost var child := p + [c];
      assert child[..|child| - 1] == p;
      RemoveLeaf(at.Keys, files, child);
      node.children[c as int] := null;
      at := at - {child};
      assert at.Keys == old(at.Keys) - {child};
      forall q | q in at
        ensures NodeOk(q)
      {
        assert old(NodeOk(q));
      }
      forall q, d: char | q in at && d as int < ALPHABET_SIZE
        ensures EdgeOk(q, d)
      {
        assert old(NodeOk(q)) && old(EdgeOk(q, d));
        assert q != p ==> old(Apart(p, q));
        StepsApart(q, p, c);
      }
      forall q, r | q in at && r in at && q != r
        ensures Apart(q, r)
      {
        assert old(Apart(q, r));
      }
    }

    /** What is left to prune when the helper comes back at a node. */
    ghost predicate Pruned(before: Trie<M>, name: string, p: string, gone: bool)
      reads this
    {
      && files == before.files - {name}
      && (gone ==> p in at && p !in files && Childless(at.Keys, p))
      && Prune(before.nodes, files, name) == if gone then Prune(at.Keys, files, p) else at.Keys
    }

    /** The nodes on the way down are still there. */
    ghost predicate KeepsPath(before: map<string, TrieNode<M>>, name: string, depth: nat)
      requires depth <= |name|
      reads this
    {
      forall d :: 0 <= d <= depth && name[..d] in before ==> name[..d] in at && at[name[..d]] == before[name[..d]]
    }

    /** Cut off a useless child and see whether the node itself has become useless. */
    method CutBack(ghost before: Trie<M>, name: string, ghost p: string, node: TrieNode<M>, c: char)
        returns (gone: bool)
      requires Valid() && p in at && at[p] == node && c as int < ALPHABET_SIZE && Pruned(before, name, p + [c], true)
      modifies Repr
      ensures Valid() && Repr == old(Repr) && at == old(at) - {p + [c]} && Pruned(before, name, p, gone)
    {
      assert (p + [c])[..|p + [c]| - 1] == p;
      CutLeaf(p, node, c);
      assert at.Keys == old(at.Keys) - {p + [c]};
      assert Prune(old(at.Keys), files, p + [c]) == Prune(at.Keys, files, p);
      assert NodeOk(p);
      gone := false;
      if !node.isEndOfWord {
        gone := HasNoChildren(p, node);
      }
      assert !gone ==> Prune(at.Keys, files, p) == at.Keys;
    }

    /** `trie_delete_helper`: clear the name at the end of the walk; on the way back, tell the parent to cut off a node
        that is of no use any more. */
    method DeleteHelper(node: TrieNode?<M>, name: string, depth: nat) returns (gone: bool)
      requires Valid() && depth <= |name| && node == NodeAt(name[..depth])
      modifies Repr
      ensures Valid() && Repr == old(Repr) && KeepsPath(old(at), name, depth)
      ensures if name in old(at) then Pruned(old(Spec()), name, name[..depth], gone)
              else !gone && Spec() == old(Spec())
      decreases |name| - depth
    {
      if node == null {
        if name in at {
          PrefixIsNode(Spec(), name[..depth], name);
        }
        return false;
      }
      if depth == |name| {
        assert name[..depth] == name;
        Clear(name, node);
        gone := HasNoChildren(name, node);
        return gone;
      }
      ghost var p := name[..depth];
      assert name[..depth + 1] == p + [name[depth]];
      if name[depth] as int >= ALPHABET_SIZE {
        return false;
      }
      assert NodeOk(p) && EdgeOk(p, name[depth]);
      var goneBelow := DeleteHelper(node.children[name[depth] as int], name, depth + 1);
      gone := false;
      if goneBelow {
        gone := CutBack(old(Spec()), name, p, node, name[depth]);
      }
    }

    /** `trie_delete`; whether the root is of no use is of no interest. */
    method Delete(name: string)
      requires Valid()
      modifies Repr
      ensures Valid() && Repr == old(Repr) && Spec() == TrieSpec.Delete(old(Spec()), name)
    {
      var _ := DeleteHelper(root, name, 0);
    }

    /** The buffer holds the metadata of the listed names. */
    ghost predicate Filled(buffer: array<Option<M>>, names: seq<string>)
      reads this, buffer
    {
      && |names| <= buffer.Length
      && (forall i :: 0 <= i < |names| ==> names[i] in files && buffer[i] == Some(files[names[i]]))
    }

    /** `trie_collect_files`: list what is under a node until the buffer is full. */
    method Collect(ghost p: string, node: TrieNode<M>, buffer: array<Option<M>>, count: nat, ghost names: seq<string>)
        returns (count': nat, ghost names': seq<string>)
      requires Valid() && p in at && at[p] == node && buffer !in Repr
      requires Filled(buffer, names) && count == |names|
      modifies buffer
      ensures Filled(buffer, names') && count' == |names'|
      ensures names' == First(names + ListUnder(Spec(), p), buffer.Length)
      decreases Under(at.Keys, p), 1, 0
    {
      count', names' := count, names;
      if count >= buffer.Length {
        assert First(names + ListUnder(Spec(), p), buffer.Length) == names;
        return;
      }
      assert NodeOk(p);
      if node.isEndOfWord && node.fileMeta.Some? {
        buffer[count] := node.fileMeta;
        count', names' := count + 1, names + [p];
      }
      assert names + ListUnder(Spec(), p) == names' + ListKids(Spec(), p, 0);
      count', names' := CollectKids(p, node, buffer, count', names');
    }

    method CollectKids(ghost p: string, node: TrieNode<M>, buffer: array<Option<M>>, count: nat,
                       ghost names: seq<string>)
        returns (count': nat, ghost names': seq<string>)
      requires Valid() && p in at && at[p] == node && buffer !in Repr
      requires Filled(buffer, names) && count == |names|
      modifies buffer
      ensures Filled(buffer, names') && count' == |names'|
      ensures names' == First(names + ListKids(Spec(), p, 0), buffer.Length)
      decreases Under(at.Keys, p), 0, 1
    {
      count', names' := count, names;
      var i := 0;
      while i < ALPHABET_SIZE
        invariant 0 <= i <= ALPHABET_SIZE && Valid() && Filled(buffer, names') && count' == |names'|
        invariant First(names' + ListKids(Spec(), p, i), buffer.Length)
               == First(names + ListKids(Spec(), p, 0), buffer.Length)
      {
        FirstTwice(names', ListKid(Spec(), p, i), ListKids(Spec(), p, i + 1), buffer.Length);
        count', names' := CollectKid(p, node, i, buffer, count', names');
        i := i + 1;
      }
      assert names' + [] == names';
    }

    method CollectKid(ghost p: string, node: TrieNode<M>, i: nat, buffer: array<Option<M>>, count: nat,
                      ghost names: seq<string>)
        returns (count': nat, ghost names': seq<string>)
      requires Valid() && p in at && at[p] == node && i < ALPHABET_SIZE && buffer !in Repr
      requires Filled(buffer, names) && count == |names|
      modifies buffer
      ensures Filled(buffer, names') && count' == |names'|
      ensures names' == First(names + ListKid(Spec(), p, i), buffer.Length)
      decreases Under(at.Keys, p), 0, 0
    {
      assert NodeOk(p) && EdgeOk(p, i as char);
      UnderShrinks(at.Keys, p, i as char);
      count', names' := count, names;
      if node.children[i] != null {
        count', names' := Collect(p + [i as char], node.children[i], buffer, count, names);
      } else {
        assert names + [] == names;
      }
    }

    /** `trie_get_all_files`: the metadata of the first names in strict lexicographic order, as many as fit. */
    method GetAllFiles(buffer: array<Option<M>>) returns (count: nat, ghost names: seq<string>)
      requires Valid() && buffer !in Repr
      modifies buffer
      ensures Filled(buffer, names) && count == |names| == Shorter(buffer.Length, |files.Keys|)
      ensures Sorted(names) && forall x, y :: x in names && y in files && y !in names ==> LexLess(x, y)
    {
      count, names := Collect("", root, buffer, 0, []);
      assert [] + ListUnder(Spec(), "") == ListUnder(Spec(), "");
      ListingIsFirstNames(Spec(), buffer.Length, names);
    }
  }

  lemma ExtendWellFormed<M>(t: Trie<M>, p: string, c: char)
    requires WellFormed(t) && p in t.nodes && c as int < ALPHABET_SIZE && p + [c] !in t.nodes
    ensures WellFormed(Trie(t.nodes + {p + [c]}, t.files))
    ensures forall d: char :: p + [c] + [d] !in t.nodes + {p + [c]}
  {
    var child := p + [c];
    assert child[..|child| - 1] == p;
    forall q | q in t.nodes + {child}
      ensures HasParent(t.nodes + {child}, q)
    {
      assert q in t.nodes ==> HasParent(t.nodes, q);
    }
    forall d: char
      ensures child + [d] !in t.nodes + {child}
    {
      var q := child + [d];
      assert q[..|q| - 1] == child && q != child;
      assert q in t.nodes ==> HasParent(t.nodes, q);
    }
  }

  lemma StepsApart(q: string, p: string, c: char)
    ensures forall d: char :: q + [d] == p + [c] <==> q == p && d == c
  {
    forall d: char
      ensures q + [d] == p + [c] <==> q == p && d == c
    {
      assert (q + [d])[..|q|] == q && (p + [c])[..|p|] == p;
      assert (q + [d])[|q|] == d && (p + [c])[|p|] == c;
    }
  }

  lemma PrefixesOfNothing(name: string)
    ensures name[..0] == "" && Prefixes("") == {""}
  {
    forall q
      ensures q in Prefixes("") <==> q == ""
    {
      PrefixOfPrefixes("", q);
    }
  }

  lemma PrefixesStep(name: string, i: nat)
    requires i < |name|
    ensures name[..i + 1] == name[..i] + [name[i]]
    ensures Prefixes(name[..i + 1]) == Prefixes(name[..i]) + {name[..i + 1]}
  {
    var p := name[..i + 1];
    forall q
      ensures q in Prefixes(p) <==> q in Prefixes(name[..i]) + {p}
    {
      PrefixOfPrefixes(p, q);
      PrefixOfPrefixes(name[..i], q);
      if q <= p && q != p {
        ProperPrefix(q, p);
      }
      assert q <= name[..i] ==> q <= name[..i] <= p;
    }
  }

  lemma {:induction false} AsciiPartIs(name: string, i: nat)
    requires i < |name| && IsAscii(name[..i]) && name[i] as int >= ALPHABET_SIZE
    ensures AsciiPart(name) == name[..i] && !IsAscii(name)
  {
    if i > 0 {
      assert name[..i][0] == name[0];
      assert name[1..][..i - 1] == name[..i][1..];
      AsciiPartIs(name[1..], i - 1);
      assert name[..i] == [name[0]] + name[1..][..i - 1];
    }
  }

  lemma NoChildren<M>(t: Trie<M>, p: string)
    requires WellFormed(t) && forall c: char :: c as int < ALPHABET_SIZE ==> p + [c] !in t.nodes
    ensures Childless(t.nodes, p)
  {
    forall q | q in t.nodes && q != ""
      ensures q[..|q| - 1] != p
    {
      assert IsAscii(q) && q == q[..|q| - 1] + [q[|q| - 1]];
    }
  }

  /** The first elements of a list, at most `max`. */
  function First<T>(list: seq<T>, max: nat): seq<T> {
    if |list| <= max then list else list[..max]
  }

  lemma FirstTwice<T>(a: seq<T>, b: seq<T>, c: seq<T>, max: nat)
    requires |a| <= max
    ensures First(First(a + b, max) + c, max) == First(a + (b + c), max)
    ensures First(a + [], max) == a
  {
    assert a + (b + c) == (a + b) + c;
  }
}
