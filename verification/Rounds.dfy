/** Commits of sessions that were opened on one text: what each session wrote, and what the merged file holds of it. */
module Rounds {
  import opened Text
  import opened Document
  import opened WriteSession
  import opened Commit
  import opened Session
  import opened Merge
  import opened Options

  /** The commit of a session that was opened on `base`: its copy is what these writes made of that text. */
  predicate OpenedOn(base: string, q: Queued, ws: seq<Write>) {
    && q.Valid() && q.original == |ViewOf(base)| && !(base == "" && q.index == 1)
    && RunWrites(base, q.index, ws) == Some(q.copy)
  }

  predicate AllOpenedOn(base: string, cs: seq<Queued>, wss: seq<seq<Write>>) {
    |wss| == |cs| && forall i :: 0 <= i < |cs| ==> OpenedOn(base, cs[i], wss[i])
  }

  // ----- commits behind the last sentence -----

  /** The commits of a round, those left out that opened a sentence behind the last one. */
  function Inner(cs: seq<Queued>): (r: seq<Queued>)
    ensures |r| <= |cs|
  {
    if cs == [] then []
    else (if cs[0].index < cs[0].original then [cs[0]] else []) + Inner(cs[1..])
  }

  lemma {:induction false} InnerHas(cs: seq<Queued>, q: Queued)
    ensures q in Inner(cs) <==> q in cs && q.index < q.original
  {
    if cs != [] {
      InnerHas(cs[1..], q);
      assert cs == [cs[0]] + cs[1..];
    }
  }

  lemma {:induction false} InnerIsDistinct(cs: seq<Queued>)
    requires Distinct(cs)
    ensures Distinct(Inner(cs))
  {
    if cs != [] {
      var q, rest := cs[0], cs[1..];
      assert forall i :: 0 <= i < |rest| ==> rest[i] == cs[i + 1];
      InnerIsDistinct(rest);
      forall j | 0 <= j < |Inner(rest)|
        ensures Inner(rest)[j].index != q.index
      {
        InnerHas(rest, Inner(rest)[j]);
      }
    }
  }

  lemma InnerMeans(cs: seq<Queued>, count: nat)
    requires Distinct(cs)
    requires forall i :: 0 <= i < |cs| ==> cs[i].Valid() && cs[i].original == count
    ensures SameBase(Inner(cs), count) && Distinct(Inner(cs))
  {
    InnerIsDistinct(cs);
    forall i | 0 <= i < |Inner(cs)|
      ensures Inner(cs)[i] in cs && Inner(cs)[i].index < Inner(cs)[i].original
    {
      InnerHas(cs, Inner(cs)[i]);
    }
  }

  /** Appends change nothing in a file that has sentences. */
  lemma {:induction false} InnerIsEnough(main: string, cs: seq<Queued>)
    requires forall i :: 0 <= i < |cs| ==> cs[i].Valid() && cs[i].original > 0
    ensures MergeAll(main, cs) == MergeAll(main, Inner(cs))
    decreases cs
  {
    if cs != [] {
      var q, rest := cs[0], cs[1..];
      assert forall i :: 0 <= i < |rest| ==> rest[i] == cs[i + 1];
      InnerIsEnough(MergeOne(main, q), rest);
      if q.index < q.original {
        assert ([q] + Inner(rest))[1..] == Inner(rest);
      } else {
        SkippedIff(main, q.copy, q.index, q.original);
        assert [] + Inner(rest) == Inner(rest);
      }
    }
  }

  // ----- what the blocks of a round hold -----

  lemma OwnInMiddle(base: string, q: Queued, ws: seq<Write>)
    requires OpenedOn(base, q, ws) && q.index + 1 < q.original
    ensures var all := Spliced(ViewOf(base)[q.index], ws);
      Flatten(q.Own()) <= all && (Flatten(q.Own()) == all <==> AllInside(base, q.index, ws))
  {
    var own, spill := WritesBeforeOthers(base, q.index, ws, q.copy);
    OwnOfShape(ViewOf(base), q.index, own, spill, ViewOf(q.copy));
    PrefixIff(Flatten(own), spill);
  }

  lemma PrefixIff<T>(a: seq<T>, b: seq<T>)
    ensures a <= a + b && (a == a + b <==> b == [])
  {
  }

  lemma OwnAtEnd(base: string, q: Queued, ws: seq<Write>)
    requires OpenedOn(base, q, ws) && q.index + 1 == q.original
    ensures Flatten(q.Own()) == Spliced(ViewOf(base)[q.index], ws) && AllInside(base, q.index, ws)
  {
    WritesIntoLast(base, q.index, ws, q.copy);
    LastIsInside(base, q.index, ws);
    assert q.Own() == ViewOf(q.copy)[q.index..];
  }

  /** The sentences that a session commits hold its sentence with all its writes spliced in, but for the tokens that
      spilled; nothing spilled if and only if all its writes stayed inside. */
  lemma OwnHolds(base: string, q: Queued, ws: seq<Write>)
    requires OpenedOn(base, q, ws) && q.index < q.original
    ensures var all := Spliced(ViewOf(base)[q.index], ws);
      Flatten(q.Own()) <= all && (Flatten(q.Own()) == all <==> AllInside(base, q.index, ws))
  {
    if q.index + 1 < q.original {
      OwnInMiddle(base, q, ws);
    } else {
      OwnAtEnd(base, q, ws);
    }
  }

  /** The accepted writes of the commit to sentence `k`. */
  function WritesTo(cs: seq<Queued>, wss: seq<seq<Write>>, k: nat): seq<Write>
    requires |wss| == |cs|
  {
    if cs == [] then [] else if cs[0].index == k then wss[0] else WritesTo(cs[1..], wss[1..], k)
  }

  lemma {:induction false} WritesToIs(cs: seq<Queued>, wss: seq<seq<Write>>, i: nat)
    requires |wss| == |cs| && Distinct(cs) && i < |cs|
    ensures WritesTo(cs, wss, cs[i].index) == wss[i]
    decreases i
  {
    if i > 0 {
      assert cs[1..][i - 1] == cs[i] && wss[1..][i - 1] == wss[i];
      assert Distinct(cs[1..]) by {
        assert forall j :: 0 <= j < |cs| - 1 ==> cs[1..][j] == cs[j + 1];
      }
      WritesToIs(cs[1..], wss[1..], i - 1);
    }
  }

  lemma {:induction false} NobodyWrites(cs: seq<Queued>, wss: seq<seq<Write>>, k: nat)
    requires |wss| == |cs| && forall i :: 0 <= i < |cs| ==> cs[i].index != k
    ensures WritesTo(cs, wss, k) == []
    decreases |cs|
  {
    if cs != [] {
      assert forall j :: 0 <= j < |cs| - 1 ==> cs[1..][j] == cs[j + 1];
      NobodyWrites(cs[1..], wss[1..], k);
    }
  }

  /** The sentences of a file, each with all writes of its session spliced in. */
  function WithAll(doc: Doc, cs: seq<Queued>, wss: seq<seq<Write>>): (r: Doc)
    requires |wss| == |cs|
    ensures |r| == |doc|
  {
    seq(|doc|, k requires 0 <= k < |doc| => Spliced(doc[k], WritesTo(cs, wss, k)))
  }

  /** The block of sentence `k` after the commits of an ordered round. */
  function BlockOf(doc: Doc, cs: seq<Queued>, k: nat): Doc
    requires SameBase(Inner(cs), |doc|) && k < |doc|
  {
    Replaced(Unedited(doc), Inner(cs))[k]
  }

  lemma BlockIs(doc: Doc, cs: seq<Queued>, k: nat)
    requires SameBase(Inner(cs), |doc|) && Distinct(Inner(cs)) && k < |doc|
    ensures forall q :: q in cs && q.index == k && q.index < q.original ==> q.Valid() && BlockOf(doc, cs, k) == q.Own()
    ensures (forall q :: q in cs ==> q.index != k) ==> BlockOf(doc, cs, k) == [doc[k]]
  {
    var queue := Inner(cs);
    ReplacedMeans(Unedited(doc), queue, k);
    forall q | q in cs && q.index == k && q.index < q.original
      ensures q.Valid() && BlockOf(doc, cs, k) == q.Own()
    {
      InnerHas(cs, q);
      var j :| 0 <= j < |queue| && queue[j] == q;
    }
    if forall q :: q in cs ==> q.index != k {
      forall j | 0 <= j < |queue|
        ensures queue[j].index != k
      {
        InnerHas(cs, queue[j]);
      }
    }
  }

  /** After an ordered round, each block holds its sentence with all accepted writes of its session spliced in if
      and only if those writes stayed inside, and otherwise lacks the tokens that spilled at its end. */
  lemma BlockHolds(base: string, cs: seq<Queued>, wss: seq<seq<Write>>, k: nat)
    requires base != "" && AllOpenedOn(base, cs, wss) && Distinct(cs) && k < |ViewOf(base)|
    ensures var doc := ViewOf(base); var all := WithAll(doc, cs, wss)[k];
      && SameBase(Inner(cs), |doc|) && Distinct(Inner(cs))
      && Flatten(BlockOf(doc, cs, k)) <= all
      && (Flatten(BlockOf(doc, cs, k)) == all <==> AllInside(base, k, WritesTo(cs, wss, k)))
  {
    var doc := ViewOf(base);
    InnerMeans(cs, |doc|);
    BlockIs(doc, cs, k);
    if i :| 0 <= i < |cs| && cs[i].index == k {
      WritesToIs(cs, wss, i);
      OwnHolds(base, cs[i], wss[i]);
    } else {
      NobodyWrites(cs, wss, k);
      FlattenOne(doc[k]);
    }
  }

  lemma {:induction false} FlattenBlocks(blocks: Blocks, ts: Doc)
    requires |blocks| == |ts| && forall k :: 0 <= k < |ts| ==> Flatten(blocks[k]) <= ts[k]
    ensures |Flatten(Join(blocks))| <= |Flatten(ts)|
    ensures Flatten(Join(blocks)) == Flatten(ts) <==> forall k :: 0 <= k < |ts| ==> Flatten(blocks[k]) == ts[k]
    decreases |blocks|
  {
    if blocks != [] {
      var b, rest := Flatten(blocks[0]), Flatten(Join(blocks[1..]));
      FlattenAppend(blocks[0], Join(blocks[1..]));
      assert forall k :: 0 <= k < |ts| - 1 ==> blocks[1..][k] == blocks[k + 1] && ts[1..][k] == ts[k + 1];
      FlattenBlocks(blocks[1..], ts[1..]);
      SumsAgree(b, ts[0], rest, Flatten(ts[1..]));
    }
  }

  lemma SumsAgree<T>(a: seq<T>, b: seq<T>, x: seq<T>, y: seq<T>)
    requires a <= b && |x| <= |y|
    ensures |a + x| <= |b + y|
    ensures a + x == b + y <==> a == b && x == y
  {
    if a + x == b + y {
      assert |a| == |b|;
      CancelFront(a, x, y);
    }
  }

  /** All accepted writes to the file's sentences stayed inside. */
  predicate AllStayInside(base: string, cs: seq<Queued>, wss: seq<seq<Write>>)
    requires |wss| == |cs| && base != ""
  {
    forall i :: 0 <= i < |cs| && cs[i].index < cs[i].original ==> AllInside(base, cs[i].index, wss[i])
  }

  /** The same, sentence by sentence. */
  predicate InsideAt(base: string, cs: seq<Queued>, wss: seq<seq<Write>>, k: nat)
    requires |wss| == |cs| && base != ""
  {
    AllInside(base, k, WritesTo(cs, wss, k))
  }

  lemma InsideOfCommit(base: string, cs: seq<Queued>, wss: seq<seq<Write>>, i: nat)
    requires base != "" && |wss| == |cs| && Distinct(cs) && i < |cs|
    ensures InsideAt(base, cs, wss, cs[i].index) <==> AllInside(base, cs[i].index, wss[i])
  {
    WritesToIs(cs, wss, i);
  }

  lemma InsideOfNobody(base: string, cs: seq<Queued>, wss: seq<seq<Write>>, k: nat)
    requires base != "" && |wss| == |cs| && forall i :: 0 <= i < |cs| ==> cs[i].index != k
    ensures InsideAt(base, cs, wss, k)
  {
    NobodyWrites(cs, wss, k);
  }

  lemma InsideIf(base: string, cs: seq<Queued>, wss: seq<seq<Write>>, k: nat)
    requires base != "" && AllOpenedOn(base, cs, wss) && Distinct(cs) && AllStayInside(base, cs, wss)
    requires k < |ViewOf(base)|
    ensures InsideAt(base, cs, wss, k)
  {
    if i :| 0 <= i < |cs| && cs[i].index == k {
      assert OpenedOn(base, cs[i], wss[i]);
      InsideOfCommit(base, cs, wss, i);
    } else {
      InsideOfNobody(base, cs, wss, k);
    }
  }

  lemma InsideByPlace(base: string, cs: seq<Queued>, wss: seq<seq<Write>>)
    requires base != "" && AllOpenedOn(base, cs, wss) && Distinct(cs)
    ensures AllStayInside(base, cs, wss) <==> forall k :: 0 <= k < |ViewOf(base)| ==> InsideAt(base, cs, wss, k)
  {
    if AllStayInside(base, cs, wss) {
      forall k | 0 <= k < |ViewOf(base)|
        ensures InsideAt(base, cs, wss, k)
      {
        InsideIf(base, cs, wss, k);
      }
    }
    if forall k :: 0 <= k < |ViewOf(base)| ==> InsideAt(base, cs, wss, k) {
      forall i | 0 <= i < |cs| && cs[i].index < cs[i].original
        ensures AllInside(base, cs[i].index, wss[i])
      {
        assert OpenedOn(base, cs[i], wss[i]);
        InsideOfCommit(base, cs, wss, i);
      }
    }
  }

  /** All blocks of an ordered round together. */
  lemma BlocksHold(base: string, cs: seq<Queued>, wss: seq<seq<Write>>, blocks: Blocks)
    requires base != "" && AllOpenedOn(base, cs, wss) && Distinct(cs)
    requires SameBase(Inner(cs), |ViewOf(base)|) && blocks == Replaced(Unedited(ViewOf(base)), Inner(cs))
    ensures Flatten(Join(blocks)) == Flatten(WithAll(ViewOf(base), cs, wss))
       <==> forall k :: 0 <= k < |ViewOf(base)| ==> InsideAt(base, cs, wss, k)
  {
    var ts := WithAll(ViewOf(base), cs, wss);
    forall k | 0 <= k < |ts|
      ensures Flatten(blocks[k]) <= ts[k]
      ensures Flatten(blocks[k]) == ts[k] <==> InsideAt(base, cs, wss, k)
    {
      BlockHolds(base, cs, wss, k);
    }
    FlattenBlocks(blocks, ts);
  }

  /** The commits of an ordered round leave the old file with every accepted text of every session spliced into the
      sentence that it was written to, if and only if all writes stayed inside their sessions' sentences. */
  lemma RoundHoldsIff(base: string, cs: seq<Queued>, wss: seq<seq<Write>>)
    requires base != "" && AllOpenedOn(base, cs, wss) && Distinct(cs) && Ordered(Inner(cs))
    ensures Real(Tokens(MergeAll(base, cs))) == Flatten(WithAll(ViewOf(base), cs, wss))
       <==> AllStayInside(base, cs, wss)
  {
    RoundIs(base, cs, wss);
    BlocksHold(base, cs, wss, Replaced(Unedited(ViewOf(base)), Inner(cs)));
    InsideByPlace(base, cs, wss);
  }

  /** The merged file of an ordered round, block by block. */
  lemma RoundIs(base: string, cs: seq<Queued>, wss: seq<seq<Write>>)
    requires base != "" && AllOpenedOn(base, cs, wss) && Distinct(cs) && Ordered(Inner(cs))
    ensures SameBase(Inner(cs), |ViewOf(base)|) && Distinct(Inner(cs))
    ensures var blocks := Replaced(Unedited(ViewOf(base)), Inner(cs));
      ViewOf(MergeAll(base, cs)) == Join(blocks) && Real(Tokens(MergeAll(base, cs))) == Flatten(Join(blocks))
  {
    ParseIsCut(base);
    InnerMeans(cs, |ViewOf(base)|);
    InnerIsEnough(base, cs);
    ConcurrentMerge(base, Inner(cs));
    FlattenView(Tokens(MergeAll(base, cs)));
  }

  lemma OnlyFirst(q: Queued, ws: seq<Write>)
    requires OpenedOn("", q, ws)
    ensures q.index == q.original == 0
  {
  }

  /** On an empty file there is at most one such commit, and the file becomes its copy, which holds all its writes. */
  lemma RoundOnEmptyFile(cs: seq<Queued>, wss: seq<seq<Write>>)
    requires AllOpenedOn("", cs, wss) && Distinct(cs)
    ensures |cs| <= 1
    ensures ViewOf(MergeAll("", cs)) == if cs == [] then [] else ViewOf(cs[0].copy)
    ensures Real(Tokens(MergeAll("", cs))) == if cs == [] then [] else Spliced([], wss[0])
  {
    if |cs| > 1 {
      OnlyFirst(cs[0], wss[0]);
      OnlyFirst(cs[1], wss[1]);
      assert false;
    }
    if |cs| == 1 {
      OnlyFirst(cs[0], wss[0]);
      assert cs == [cs[0]];
      MergeAllOne("", cs[0]);
      MergeIntoEmpty(cs[0].copy);
      SessionOnEmptyFile(wss[0], cs[0].copy, MergeText("", cs[0].copy, 0, 0).value);
    }
  }
}
