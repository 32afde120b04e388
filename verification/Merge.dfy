/** Commits of several sessions, one after the other. The current file is seen as one block of sentences for each
    sentence of the base that a session was opened on. */
module Merge {
  import opened Text
  import opened Document
  import opened WriteSession
  import opened Commit

  /** A queued commit: the locked index, the sentence count when the session began, and the session's copy. */
  datatype Queued = Queued(index: nat, original: nat, copy: string) {
    predicate Valid() {
      index <= original <= |ViewOf(copy)|
    }

    /** By how many sentences the session expanded the file. */
    function Growth(): int {
      |ViewOf(copy)| - original
    }

    function Own(): (own: Doc)
      requires Valid() && index < original
      ensures |own| == 1 + Growth() >= 1
    {
      OwnSentences(ViewOf(copy), index, original)
    }
  }

  predicate AllValid(queue: seq<Queued>) {
    forall i :: 0 <= i < |queue| ==> queue[i].Valid()
  }

  /** All sessions were opened when the file had `count` sentences, on one of those sentences. */
  predicate SameBase(queue: seq<Queued>, count: nat) {
    forall i :: 0 <= i < |queue| ==> queue[i].Valid() && queue[i].index < queue[i].original == count
  }

  /** The main text after one commit; a skipped commit leaves it alone. */
  function MergeOne(main: string, q: Queued): string {
    match MergeText(main, q.copy, q.index, q.original)
    case None => main
    case Some(u) => u
  }

  /** The main text after a queue of commits, first in first out. */
  function MergeAll(main: string, queue: seq<Queued>): string
    decreases queue
  {
    if queue == [] then main else MergeAll(MergeOne(main, queue[0]), queue[1..])
  }

  lemma {:induction false} MergeAllAppend(main: string, a: seq<Queued>, b: seq<Queued>)
    ensures MergeAll(main, a + b) == MergeAll(MergeAll(main, a), b)
    decreases a
  {
    if a == [] {
      assert a + b == b;
    } else {
      assert (a + b)[0] == a[0] && (a + b)[1..] == a[1..] + b;
      MergeAllAppend(MergeOne(main, a[0]), a[1..], b);
    }
  }

  lemma MergeAllOne(main: string, q: Queued)
    ensures MergeAll(main, [q]) == MergeOne(main, q)
  {
    assert [q][1..] == [];
    assert MergeAll(main, [q]) == MergeAll(MergeOne(main, q), []);
  }

  // ----- blocks -----

  type Blocks = seq<Doc>

  function Join(blocks: Blocks): Doc {
    if blocks == [] then [] else blocks[0] + Join(blocks[1..])
  }

  function Unedited(base: Doc): Blocks {
    seq(|base|, i requires 0 <= i < |base| => [base[i]])
  }

  predicate NonEmpty(blocks: Blocks) {
    forall i :: 0 <= i < |blocks| ==> blocks[i] != []
  }

  predicate AllSingle(blocks: Blocks) {
    forall i :: 0 <= i < |blocks| ==> |blocks[i]| == 1
  }

  /** Replace the sentence at position `pos` of the joined blocks. */
  function EditBlocks(blocks: Blocks, pos: nat, own: Doc): (r: Blocks)
    requires pos < |Join(blocks)|
    ensures |r| == |blocks|
  {
    if pos < |blocks[0]| then [MergeView(blocks[0], own, pos)] + blocks[1..]
    else [blocks[0]] + EditBlocks(blocks[1..], pos - |blocks[0]|, own)
  }

  lemma {:induction false} JoinUnedited(base: Doc)
    ensures Join(Unedited(base)) == base
  {
    if base != [] {
      JoinUnedited(base[1..]);
      assert Unedited(base)[1..] == Unedited(base[1..]);
    }
  }

  lemma {:induction false} JoinAppend(a: Blocks, b: Blocks)
    ensures Join(a + b) == Join(a) + Join(b)
  {
    if a == [] {
      assert a + b == b;
    } else {
      calc {
        Join(a + b);
        { assert (a + b)[0] == a[0] && (a + b)[1..] == a[1..] + b; }
        a[0] + Join(a[1..] + b);
        { JoinAppend(a[1..], b); }
        a[0] + (Join(a[1..]) + Join(b));
        Join(a) + Join(b);
      }
    }
  }

  lemma JoinThree(a: Blocks, b: Doc, c: Blocks)
    ensures Join(a + [b] + c) == Join(a) + b + Join(c)
  {
    JoinAppend(a + [b], c);
    JoinAppend(a, [b]);
    assert Join([b]) == b + Join([]);
  }

  lemma JoinAround(blocks: Blocks, k: nat)
    requires k < |blocks|
    ensures Join(blocks) == Join(blocks[..k]) + blocks[k] + Join(blocks[k + 1..])
  {
    Around(blocks, k);
    JoinThree(blocks[..k], blocks[k], blocks[k + 1..]);
  }

  lemma {:induction false} JoinLength(blocks: Blocks)
    requires NonEmpty(blocks)
    ensures |Join(blocks)| >= |blocks|
    ensures |Join(blocks)| == |blocks| <==> AllSingle(blocks)
  {
    if blocks != [] {
      JoinLength(blocks[1..]);
      assert AllSingle(blocks) <==> |blocks[0]| == 1 && AllSingle(blocks[1..]) by {
        assert forall i :: 0 <= i < |blocks| - 1 ==> blocks[1..][i] == blocks[i + 1];
      }
    }
  }

  /** Any replacement of one sentence changes one block and no other. */
  lemma {:induction false} JoinEdit(blocks: Blocks, pos: nat, own: Doc)
    requires pos < |Join(blocks)|
    ensures Join(EditBlocks(blocks, pos, own)) == MergeView(Join(blocks), own, pos)
    ensures NonEmpty(blocks) && own != [] ==> NonEmpty(EditBlocks(blocks, pos, own))
  {
    var b, rest := blocks[0], Join(blocks[1..]);
    if pos < |b| {
      var e := MergeView(b, own, pos);
      assert ([e] + blocks[1..])[1..] == blocks[1..];
      assert (b + rest)[..pos] == b[..pos] && (b + rest)[pos + 1..] == b[pos + 1..] + rest;
      assert e + rest == MergeView(b + rest, own, pos);
    } else {
      JoinEdit(blocks[1..], pos - |b|, own);
      var r := EditBlocks(blocks[1..], pos - |b|, own);
      assert ([b] + r)[1..] == r;
      assert b + MergeView(rest, own, pos - |b|) == MergeView(b + rest, own, pos);
    }
  }

  /** Replacing the last sentence of block `k`. */
  lemma {:induction false} EditAtBlock(blocks: Blocks, k: nat, own: Doc)
    requires k < |blocks| && NonEmpty(blocks)
    ensures |Join(blocks[..k])| + |blocks[k]| <= |Join(blocks)|
    ensures EditBlocks(blocks, |Join(blocks[..k])| + |blocks[k]| - 1, own)
         == blocks[k := blocks[k][..|blocks[k]| - 1] + own]
  {
    JoinAround(blocks, k);
    if k == 0 {
      assert blocks[..0] == [];
      assert MergeView(blocks[0], own, |blocks[0]| - 1) == blocks[0][..|blocks[0]| - 1] + own;
    } else {
      EditAtBlock(blocks[1..], k - 1, own);
      assert blocks[..k][1..] == blocks[1..][..k - 1] && blocks[..k][0] == blocks[0];
    }
  }

  // ----- where a commit lands -----

  /** Position of the last sentence of block `k`. */
  function LastOf(blocks: Blocks, k: nat): nat
    requires k < |blocks| && blocks[k] != []
  {
    |Join(blocks[..k])| + |blocks[k]| - 1
  }

  /** A commit lands on the last sentence of its session's block, which is the locked sentence as long as nobody
      else has split it, or behind that; it lands there exactly when every later block still has one sentence: the
      shift ascribes all growth to the sentences in front of it. */
  lemma LandsIff(blocks: Blocks, k: nat)
    requires k < |blocks| && NonEmpty(blocks)
    ensures AdjustedIndex(k, |Join(blocks)|, |blocks|) >= LastOf(blocks, k)
    ensures AdjustedIndex(k, |Join(blocks)|, |blocks|) == LastOf(blocks, k) <==> AllSingle(blocks[k + 1..])
  {
    JoinAround(blocks, k);
    JoinLength(blocks[k + 1..]);
  }

  /** The view and the blocks after one commit of any session. */
  function EditOne(blocks: Blocks, q: Queued): (r: Blocks)
    requires q.Valid()
    ensures |r| == |blocks|
  {
    var pos := AdjustedIndex(q.index, |Join(blocks)|, q.original);
    if q.index < q.original && 0 <= pos < |Join(blocks)| then EditBlocks(blocks, pos, q.Own()) else blocks
  }

  lemma MergeOneEditsBlocks(main: string, q: Queued, blocks: Blocks)
    requires q.Valid() && ViewOf(main) == Join(blocks) && NonEmpty(blocks) && blocks != []
    ensures ViewOf(MergeOne(main, q)) == Join(EditOne(blocks, q)) && NonEmpty(EditOne(blocks, q))
  {
    JoinLength(blocks);
    ParseIsCut(main);
    SkippedIff(main, q.copy, q.index, q.original);
    var pos := AdjustedIndex(q.index, |Join(blocks)|, q.original);
    if q.index < q.original && 0 <= pos {
      var u := MergeText(main, q.copy, q.index, q.original).value;
      MergeReplacesOneSentence(main, q.copy, q.index, q.original, u, pos);
      JoinEdit(blocks, pos, q.Own());
    }
  }

  function EditAll(blocks: Blocks, queue: seq<Queued>): (r: Blocks)
    requires AllValid(queue)
    ensures |r| == |blocks|
    decreases queue
  {
    if queue == [] then blocks else EditAll(EditOne(blocks, queue[0]), queue[1..])
  }

  /** Whatever sessions commit, the file remains one non-empty block for each sentence of the base. */
  lemma {:induction false} MergeAllEditsBlocks(main: string, queue: seq<Queued>, blocks: Blocks)
    requires AllValid(queue)
    requires ViewOf(main) == Join(blocks) && NonEmpty(blocks) && blocks != []
    ensures ViewOf(MergeAll(main, queue)) == Join(EditAll(blocks, queue)) && NonEmpty(EditAll(blocks, queue))
    decreases queue
  {
    if queue != [] {
      MergeOneEditsBlocks(main, queue[0], blocks);
      MergeAllEditsBlocks(MergeOne(main, queue[0]), queue[1..], EditOne(blocks, queue[0]));
    }
  }

  /** For a session opened on `base` and any commits of other sessions since: its commit lands on the last sentence of
      what its sentence has become exactly when no later sentence of the base has been split, and behind that
      otherwise. */
  lemma SessionLandsIff(base: string, queue: seq<Queued>, k: nat)
    requires k < |ViewOf(base)| && AllValid(queue)
    ensures var blocks := EditAll(Unedited(ViewOf(base)), queue);
      var pos := AdjustedIndex(k, |ViewOf(MergeAll(base, queue))|, |ViewOf(base)|);
      && blocks[k] != [] && pos >= LastOf(blocks, k)
      && (pos == LastOf(blocks, k) <==> AllSingle(blocks[k + 1..]))
  {
    var b := ViewOf(base);
    JoinUnedited(b);
    MergeAllEditsBlocks(base, queue, Unedited(b));
    LandsIff(EditAll(Unedited(b), queue), k);
  }

  // ----- sessions opened on one base -----

  /** Each locked sentence replaced by its session's sentences. */
  function Replaced(blocks: Blocks, queue: seq<Queued>): (r: Blocks)
    requires SameBase(queue, |blocks|)
    ensures |r| == |blocks|
    decreases queue
  {
    if queue == [] then blocks else Replaced(blocks[queue[0].index := queue[0].Own()], queue[1..])
  }

  predicate Distinct(queue: seq<Queued>) {
    forall i, j :: 0 <= i < j < |queue| ==> queue[i].index != queue[j].index
  }

  /** Commits in front of others in the queue must not expand sentences behind those that the others locked. */
  predicate Ordered(queue: seq<Queued>) {
    forall i, j :: 0 <= i < j < |queue| && queue[i].index > queue[j].index ==> queue[i].Growth() == 0
  }

  /** `Replaced` in plain words. */
  lemma {:induction false} ReplacedMeans(blocks: Blocks, queue: seq<Queued>, i: nat)
    requires SameBase(queue, |blocks|)
    requires Distinct(queue) && i < |blocks|
    ensures forall j :: 0 <= j < |queue| && queue[j].index == i ==> Replaced(blocks, queue)[i] == queue[j].Own()
    ensures (forall j :: 0 <= j < |queue| ==> queue[j].index != i) ==> Replaced(blocks, queue)[i] == blocks[i]
    decreases queue
  {
    if queue != [] {
      var q := queue[0];
      assert Distinct(queue[1..]);
      ReplacedMeans(blocks[q.index := q.Own()], queue[1..], i);
      assert forall j :: 0 <= j < |queue| - 1 ==> queue[1..][j] == queue[j + 1];
      if q.index == i {
        assert forall j :: 0 <= j < |queue| - 1 ==> queue[1..][j].index != i;
      }
    }
  }

  /** No block behind a sentence still to be committed, and not that sentence itself, has been split. */
  predicate Settled(blocks: Blocks, queue: seq<Queued>) {
    forall j :: 0 <= j < |queue| ==> SingleFrom(blocks, queue[j].index)
  }

  predicate SingleFrom(blocks: Blocks, k: nat) {
    forall i :: k <= i < |blocks| ==> |blocks[i]| == 1
  }

  lemma SettledAfter(blocks: Blocks, queue: seq<Queued>)
    requires queue != [] && SameBase(queue, |blocks|)
    requires Distinct(queue) && Ordered(queue) && Settled(blocks, queue)
    ensures Distinct(queue[1..]) && Ordered(queue[1..])
    ensures Settled(blocks[queue[0].index := queue[0].Own()], queue[1..])
  {
    var k := queue[0].index;
    forall j | 0 <= j < |queue[1..]|
      ensures SingleFrom(blocks[k := queue[0].Own()], queue[1..][j].index)
    {
      assert queue[1..][j] == queue[j + 1] && SingleFrom(blocks, queue[j + 1].index);
      assert queue[0].index != queue[j + 1].index;
    }
  }

  lemma EditOneIsUpdate(blocks: Blocks, q: Queued)
    requires q.Valid() && q.index < q.original == |blocks| && NonEmpty(blocks)
    requires SingleFrom(blocks, q.index)
    ensures EditOne(blocks, q) == blocks[q.index := q.Own()]
  {
    LandsIff(blocks, q.index);
    EditAtBlock(blocks, q.index, q.Own());
    assert blocks[q.index][..0] + q.Own() == q.Own();
  }

  lemma {:induction false} EditAllIsReplaced(blocks: Blocks, queue: seq<Queued>)
    requires SameBase(queue, |blocks|)
    requires Distinct(queue) && Ordered(queue) && Settled(blocks, queue) && NonEmpty(blocks)
    ensures EditAll(blocks, queue) == Replaced(blocks, queue)
    decreases queue
  {
    if queue != [] {
      var q := queue[0];
      assert SingleFrom(blocks, queue[0].index);
      EditOneIsUpdate(blocks, q);
      SettledAfter(blocks, queue);
      EditAllIsReplaced(blocks[q.index := q.Own()], queue[1..]);
    }
  }

  /** Sessions that were opened on the same base, at different sentences, and whose commits do not expand sentences
      behind those still to be committed: the final file is the base with each locked sentence replaced by its
      session's sentences and every other sentence unchanged. */
  lemma ConcurrentMerge(base: string, queue: seq<Queued>)
    requires base != ""
    requires SameBase(queue, |ViewOf(base)|)
    requires Distinct(queue) && Ordered(queue)
    ensures ViewOf(MergeAll(base, queue)) == Join(Replaced(Unedited(ViewOf(base)), queue))
  {
    var b := ViewOf(base);
    ParseIsCut(base);
    JoinUnedited(b);
    MergeAllEditsBlocks(base, queue, Unedited(b));
    EditAllIsReplaced(Unedited(b), queue);
  }

  lemma CommitLands(main: string, q: Queued, pos: int)
    requires q.Valid() && q.index < q.original
    requires pos == AdjustedIndex(q.index, |ViewOf(main)|, q.original) && 0 <= pos < |ViewOf(main)|
    ensures ViewOf(MergeOne(main, q)) == MergeView(ViewOf(main), q.Own(), pos)
  {
    ParseIsCut(main);
    SkippedIff(main, q.copy, q.index, q.original);
    MergeReplacesOneSentence(main, q.copy, q.index, q.original, MergeOne(main, q), pos);
  }

  lemma EditLast(blocks: Blocks, k: nat, own: Doc)
    requires k < |blocks| && NonEmpty(blocks)
    ensures LastOf(blocks, k) < |Join(blocks)|
    ensures MergeView(Join(blocks), own, LastOf(blocks, k))
         == Join(blocks[k := blocks[k][..|blocks[k]| - 1] + own])
  {
    EditAtBlock(blocks, k, own);
    JoinEdit(blocks, LastOf(blocks, k), own);
  }

  lemma PrefixStays(doc: Doc, kept: Doc, own: Doc, pos: nat)
    requires kept <= doc && |kept| <= pos < |doc|
    ensures kept <= MergeView(doc, own, pos)
  {
  }

  lemma JoinUpTo(blocks: Blocks, k: nat) returns (kept: Doc)
    requires k < |blocks|
    ensures kept == Join(blocks[..k + 1]) && kept <= Join(blocks)
    ensures |kept| == |Join(blocks[..k])| + |blocks[k]|
  {
    kept := Join(blocks[..k + 1]);
    assert blocks[..k + 1] == blocks[..k] + [blocks[k]];
    JoinAppend(blocks[..k], [blocks[k]]);
    assert Join([blocks[k]]) == blocks[k];
    assert blocks == blocks[..k + 1] + blocks[k + 1..];
    JoinAppend(blocks[..k + 1], blocks[k + 1..]);
  }

  /** With no growth behind it, a commit replaces the last sentence of its block. */
  lemma PlacedCommit(main: string, q: Queued, blocks: Blocks)
    requires q.Valid() && q.index < q.original == |blocks| && NonEmpty(blocks) && ViewOf(main) == Join(blocks)
    requires AllSingle(blocks[q.index + 1..])
    ensures var b := blocks[q.index];
      ViewOf(MergeOne(main, q)) == Join(blocks[q.index := b[..|b| - 1] + q.Own()])
  {
    LandsIff(blocks, q.index);
    EditLast(blocks, q.index, q.Own());
    CommitLands(main, q, LastOf(blocks, q.index));
  }

  /** Otherwise the commit leaves its own block and all in front of it as they were, and overwrites a sentence that the
      session never locked. */
  lemma MisplacedCommit(main: string, q: Queued, blocks: Blocks)
    requires q.Valid() && q.index < q.original == |blocks| && NonEmpty(blocks) && ViewOf(main) == Join(blocks)
    requires !AllSingle(blocks[q.index + 1..])
    ensures var pos := AdjustedIndex(q.index, |Join(blocks)|, |blocks|); var kept := Join(blocks[..q.index + 1]);
      && |kept| <= pos < |Join(blocks)|
      && ViewOf(MergeOne(main, q)) == MergeView(Join(blocks), q.Own(), pos)
      && kept <= ViewOf(MergeOne(main, q))
  {
    var pos := AdjustedIndex(q.index, |Join(blocks)|, |blocks|);
    LandsIff(blocks, q.index);
    JoinLength(blocks);
    var kept := JoinUpTo(blocks, q.index);
    CommitLands(main, q, pos);
    PrefixStays(Join(blocks), kept, q.Own(), pos);
  }

  // ----- two commits of any sessions -----

  /** How far the sentence of `q` is behind that of `p`, counted from the end of the file each was opened on. */
  function Offset(p: Queued, q: Queued): int {
    (q.index - q.original) - (p.index - p.original)
  }

  /** The second of two commits falls on one of the first one's sentences. */
  predicate Overwrites(p: Queued, q: Queued, i: int, j: int) {
    i <= j <= i + p.Growth()
  }

  /** Two commits of any sessions, whenever they were opened: the later one overwrites a sentence of the earlier one if
      and only if the distance of their sentences from the end of the file says so, which is known before either
      commits. */
  lemma OverwritesIff(main: string, p: Queued, q: Queued, i: int, j: int)
    requires p.Valid() && p.index < p.original && q.Valid() && q.index < q.original
    requires i == AdjustedIndex(p.index, |ViewOf(main)|, p.original) && 0 <= i < |ViewOf(main)|
    requires j == AdjustedIndex(q.index, |ViewOf(MergeOne(main, p))|, q.original)
    requires 0 <= j < |ViewOf(MergeOne(main, p))|
    ensures |ViewOf(MergeOne(main, p))| == |ViewOf(main)| + p.Growth()
    ensures ViewOf(MergeOne(MergeOne(main, p), q)) == MergeView(MergeView(ViewOf(main), p.Own(), i), q.Own(), j)
    ensures Overwrites(p, q, i, j) <==> -p.Growth() <= Offset(p, q) <= 0
  {
    CommitLands(main, p, i);
    CommitLands(MergeOne(main, p), q, j);
  }

  /** A commit that does not overwrite them leaves all sentences of the earlier one in the file; one that does takes
      exactly one of them away. */
  lemma OthersSurvive(v: Doc, own: Doc, i: nat, later: Doc, j: nat)
    requires i < |v| && own != [] && j < |MergeView(v, own, i)|
    ensures var r := MergeView(MergeView(v, own, i), later, j);
      if j < i then i - 1 + |later| + |own| <= |r| && r[i - 1 + |later|..][..|own|] == own
      else if j >= i + |own| then r[i..i + |own|] == own
      else r == v[..i] + own[..j - i] + later + own[j - i + 1..] + v[i + 1..]
  {
    var m := MergeView(v, own, i);
    var r := MergeView(m, later, j);
    if j < i {
      assert m[j + 1..][i - j - 1..][..|own|] == own;
      assert r[i - 1 + |later|..] == m[j + 1..][i - j - 1..];
    } else if j >= i + |own| {
      assert m[i..i + |own|] == own;
    } else {
      assert m[..j] == v[..i] + own[..j - i];
      assert m[j + 1..] == own[j - i + 1..] + v[i + 1..];
    }
  }

  // ----- the order is what it takes -----

  /** When commit `j` of the queue is processed, the shift finds the place of its own sentence. */
  predicate LandsHome(base: Doc, queue: seq<Queued>, j: nat)
    requires SameBase(queue, |base|) && j < |queue|
  {
    var blocks := EditAll(Unedited(base), queue[..j]);
    AdjustedIndex(queue[j].index, |Join(blocks)|, |blocks|) == |Join(blocks[..queue[j].index])|
  }

  /** No commit in front of commit `j` has expanded a sentence behind the one it locked. */
  predicate NoGrowthBehind(queue: seq<Queued>, j: nat)
    requires j < |queue|
  {
    forall i :: 0 <= i < j && queue[i].index > queue[j].index ==> queue[i].Growth() == 0
  }

  lemma LandsHomeIff(base: Doc, queue: seq<Queued>, j: nat)
    requires SameBase(queue, |base|) && Distinct(queue) && j < |queue| && Ordered(queue[..j])
    ensures LandsHome(base, queue, j) <==> NoGrowthBehind(queue, j)
  {
    var before, k := queue[..j], queue[j].index;
    var blocks := Replaced(Unedited(base), before);
    EditAllIsReplaced(Unedited(base), before);
    assert EditAll(Unedited(base), before) == blocks && NonEmpty(blocks) by {
      forall i | 0 <= i < |blocks|
        ensures blocks[i] != []
      {
        ReplacedMeans(Unedited(base), before, i);
      }
    }
    ReplacedMeans(Unedited(base), before, k);
    assert forall i :: 0 <= i < j ==> before[i] == queue[i] && queue[i].index != k;
    LandsIff(blocks, k);
    SinglesBehind(base, before, k);
  }

  lemma SinglesOnlyIf(base: Doc, queue: seq<Queued>, k: nat, i: nat)
    requires SameBase(queue, |base|) && Distinct(queue) && k < |base|
    requires AllSingle(Replaced(Unedited(base), queue)[k + 1..])
    requires i < |queue| && queue[i].index > k
    ensures queue[i].Growth() == 0
  {
    ReplacedMeans(Unedited(base), queue, queue[i].index);
    assert Replaced(Unedited(base), queue)[k + 1..][queue[i].index - k - 1] == queue[i].Own();
  }

  lemma SinglesIf(base: Doc, queue: seq<Queued>, k: nat, x: nat)
    requires SameBase(queue, |base|) && Distinct(queue) && k < x < |base|
    requires forall i :: 0 <= i < |queue| && queue[i].index > k ==> queue[i].Growth() == 0
    ensures |Replaced(Unedited(base), queue)[x]| == 1
  {
    ReplacedMeans(Unedited(base), queue, x);
    if i :| 0 <= i < |queue| && queue[i].index == x {
      assert Replaced(Unedited(base), queue)[x] == queue[i].Own();
    }
  }

  lemma SinglesBehind(base: Doc, queue: seq<Queued>, k: nat)
    requires SameBase(queue, |base|) && Distinct(queue) && k < |base|
    ensures AllSingle(Replaced(Unedited(base), queue)[k + 1..])
      <==> forall i :: 0 <= i < |queue| && queue[i].index > k ==> queue[i].Growth() == 0
  {
    var blocks := Replaced(Unedited(base), queue);
    if AllSingle(blocks[k + 1..]) {
      forall i | 0 <= i < |queue| && queue[i].index > k
        ensures queue[i].Growth() == 0
      {
        SinglesOnlyIf(base, queue, k, i);
      }
    }
    if forall i :: 0 <= i < |queue| && queue[i].index > k ==> queue[i].Growth() == 0 {
      forall x | k < x < |base|
        ensures |blocks[x]| == 1
      {
        SinglesIf(base, queue, k, x);
      }
    }
  }

  /** Every commit of the queue lands on the sentence its session locked if and only if no commit expands a sentence
      behind one that is committed later. */
  lemma AllLandIffOrdered(base: Doc, queue: seq<Queued>)
    requires SameBase(queue, |base|) && Distinct(queue)
    ensures (forall j :: 0 <= j < |queue| ==> LandsHome(base, queue, j)) <==> Ordered(queue)
  {
    if Ordered(queue) {
      forall j | 0 <= j < |queue|
        ensures LandsHome(base, queue, j)
      {
        assert Ordered(queue[..j]);
        LandsHomeIff(base, queue, j);
      }
    }
    if forall j :: 0 <= j < |queue| ==> LandsHome(base, queue, j) {
      forall j | 0 <= j < |queue| && Ordered(queue[..j])
        ensures NoGrowthBehind(queue, j)
      {
        LandsHomeIff(base, queue, j);
      }
      LandingOrders(queue, |queue|);
      assert queue[..|queue|] == queue;
    }
  }

  lemma OrderedExtend(queue: seq<Queued>, n: nat)
    requires n < |queue|
    requires Ordered(queue[..n]) && NoGrowthBehind(queue, n)
    ensures Ordered(queue[..n + 1])
  {
    var before, now := queue[..n], queue[..n + 1];
    forall i, j | 0 <= i < j < |now| && now[i].index > now[j].index
      ensures now[i].Growth() == 0
    {
      if j < n {
        assert before[i] == now[i] && before[j] == now[j];
      }
    }
  }

  lemma {:induction false} LandingOrders(queue: seq<Queued>, n: nat)
    requires n <= |queue|
    requires forall j :: 0 <= j < |queue| && Ordered(queue[..j]) ==> NoGrowthBehind(queue, j)
    ensures Ordered(queue[..n])
  {
    if n > 0 {
      LandingOrders(queue, n - 1);
      OrderedExtend(queue, n - 1);
    }
  }
}
