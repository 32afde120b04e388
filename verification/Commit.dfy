/** How one queued commit is merged into the current main file. */
module Commit {
  import opened Options
  import opened Document
  import opened PrintParse
  import opened WriteSession

  /** Where a session's sentence is looked for: its index moved by the growth of the file since the session began. */
  function AdjustedIndex(k: nat, current: nat, original: nat): int {
    k + (current - original)
  }

  /** The sentences taken from a copy: as many as the copy has more than the original, plus one, from `k` on. */
  function Taken(t: Doc, k: nat, original: nat): Doc {
    var count := 1 + |t| - original;
    if count <= 0 || k >= |t| then [] else if k + count < |t| then t[k..k + count] else t[k..]
  }

  function MergeDoc(m: Doc, t: Doc, k: nat, original: nat): Doc
    requires 0 <= AdjustedIndex(k, |m|, original) < |m|
  {
    var i := AdjustedIndex(k, |m|, original);
    m[..i] + Taken(t, k, original) + m[i + 1..]
  }

  /** The new main text, or None if the commit is skipped. A missing main file reads as the empty text. */
  function MergeText(main: string, temp: string, k: nat, original: nat): Option<string> {
    var m, t := Parse(main), Parse(temp);
    var i := AdjustedIndex(k, |m|, original);
    if |m| == 0 && original == 0 && i == 0 then Some(Print(t))
    else if i < 0 || i >= |m| then None
    else Some(Print(MergeDoc(m, t, k, original)))
  }

  /** The sentences of a copy that stand for sentence `k` of the original. */
  function OwnSentences(t: Doc, k: nat, original: nat): Doc
    requires k < original <= |t|
  {
    t[k..|t| - (original - k - 1)]
  }

  /** The same on views. */
  function MergeView(m: Doc, own: Doc, i: nat): Doc
    requires i < |m|
  {
    m[..i] + own + m[i + 1..]
  }

  /** Which commits are skipped: those that open a sentence behind the last one, and those whose sentence fell off the
      front of a file that shrank. */
  lemma SkippedIff(main: string, temp: string, k: nat, original: nat)
    requires k <= original
    ensures MergeText(main, temp, k, original).None? <==>
      if original == 0 then main != "" else k == original || |ViewOf(main)| < original - k
  {
    ParseIsCut(main);
  }

  lemma CutJoin(a: Doc, b: Doc)
    requires IsCut(a) && IsCut(b) && (b == [] || AllClosed(a))
    ensures IsCut(a + b)
  {
    var c := a + b;
    forall i | 0 <= i < |c|
      ensures OneSentence(c[i]) && (i < |c| - 1 ==> Closed(c[i]))
    {
      if i >= |a| {
        assert c[i] == b[i - |a|];
      }
    }
  }

  lemma CutSlice(doc: Doc, i: nat, j: nat)
    requires IsCut(doc) && i <= j <= |doc|
    ensures IsCut(doc[i..j])
    ensures j < |doc| ==> AllClosed(doc[i..j])
  {
    var s := doc[i..j];
    forall x | 0 <= x < |s|
      ensures OneSentence(s[x]) && (i + x < |doc| - 1 ==> Closed(s[x]))
    {
      assert s[x] == doc[i + x];
    }
  }

  lemma ClosedJoin(a: Doc, b: Doc)
    requires AllClosed(a) && AllClosed(b)
    ensures AllClosed(a + b)
  {
  }

  lemma MergeDocIsCut(m: Doc, t: Doc, k: nat, original: nat)
    requires IsCut(m) && IsCut(t) && k < original <= |t|
    requires 0 <= AdjustedIndex(k, |m|, original) < |m|
    ensures IsCut(MergeDoc(m, t, k, original))
    ensures Taken(t, k, original) == t[k..|t| - (original - k - 1)]
  {
    var i := AdjustedIndex(k, |m|, original);
    var j := |t| - (original - k - 1);
    CutSlice(m, 0, i);
    assert m[0..i] == m[..i];
    CutSlice(t, k, j);
    CutSlice(m, i + 1, |m|);
    assert m[i + 1..|m|] == m[i + 1..];
    CutJoin(m[..i], t[k..j]);
    if i + 1 < |m| {
      ClosedJoin(m[..i], t[k..j]);
    } else {
      assert m[i + 1..] == [];
    }
    CutJoin(m[..i] + t[k..j], m[i + 1..]);
  }

  lemma WellFormedMerge(m: Doc, t: Doc, k: nat, original: nat)
    requires WellFormedDoc(m) && WellFormedDoc(t)
    requires 0 <= AdjustedIndex(k, |m|, original) < |m|
    ensures WellFormedDoc(MergeDoc(m, t, k, original))
  {
  }

  lemma RealOfMerge(m: Doc, t: Doc, k: nat, original: nat, i: nat)
    requires k < original <= |t| && i == AdjustedIndex(k, |m|, original) < |m|
    ensures RealOfEach(MergeDoc(m, t, k, original))
         == MergeView(RealOfEach(m), OwnSentences(RealOfEach(t), k, original), i)
  {
    var taken := Taken(t, k, original);
    assert taken == t[k..|t| - (original - k - 1)];
    RealOfEachAppend(m[..i] + taken, m[i + 1..]);
    RealOfEachAppend(m[..i], taken);
    assert RealOfEach(m[..i]) == RealOfEach(m)[..i];
    assert RealOfEach(m[i + 1..]) == RealOfEach(m)[i + 1..];
    assert RealOfEach(taken) == RealOfEach(t)[k..|t| - (original - k - 1)];
  }

  lemma MergeIsPrintable(m: Doc, t: Doc, k: nat, original: nat)
    requires IsCut(m) && WellFormedDoc(m) && IsCut(t) && WellFormedDoc(t)
    requires k < original <= |t| && 0 <= AdjustedIndex(k, |m|, original)
    ensures ViewOf(Print(MergeDoc(m, t, k, original))) == RealOfEach(MergeDoc(m, t, k, original))
  {
    MergeDocIsCut(m, t, k, original);
    WellFormedMerge(m, t, k, original);
    PrintThenParseCut(MergeDoc(m, t, k, original));
  }

  lemma PrintOfMerge(m: Doc, t: Doc, k: nat, original: nat, u: string, i: nat)
    requires IsCut(m) && WellFormedDoc(m) && IsCut(t) && WellFormedDoc(t)
    requires k < original <= |t| && i == AdjustedIndex(k, |m|, original) < |m|
    requires u == Print(MergeDoc(m, t, k, original))
    ensures ViewOf(u) == MergeView(RealOfEach(m), OwnSentences(RealOfEach(t), k, original), i)
  {
    MergeIsPrintable(m, t, k, original);
    RealOfMerge(m, t, k, original, i);
  }

  lemma MergeTextIs(main: string, temp: string, k: nat, original: nat, u: string)
    requires k < original && MergeText(main, temp, k, original) == Some(u)
    ensures 0 <= AdjustedIndex(k, |Parse(main)|, original) < |Parse(main)|
    ensures u == Print(MergeDoc(Parse(main), Parse(temp), k, original))
  {
  }

  /** Through printing and parsing, a merge replaces exactly the sentence at the adjusted index by the session's own
      sentences, and the file grows by the session's expansion. */
  lemma MergeReplacesOneSentence(main: string, temp: string, k: nat, original: nat, u: string, i: int)
    requires k < original <= |ViewOf(temp)|
    requires i == AdjustedIndex(k, |ViewOf(main)|, original)
    requires MergeText(main, temp, k, original) == Some(u)
    ensures 0 <= i < |ViewOf(main)|
    ensures ViewOf(u) == MergeView(ViewOf(main), OwnSentences(ViewOf(temp), k, original), i)
  {
    ParseIsCut(main);
    ParseIsCut(temp);
    MergeTextIs(main, temp, k, original, u);
    PrintOfMerge(Parse(main), Parse(temp), k, original, u, i);
  }

  /** Into an empty file the whole copy goes. */
  lemma MergeIntoEmpty(temp: string)
    ensures MergeText("", temp, 0, 0).Some?
    ensures ViewOf(MergeText("", temp, 0, 0).value) == ViewOf(temp)
  {
    ParseIsCut("");
    ParseIsCut(temp);
    PrintThenParseCut(Parse(temp));
  }

  /** The copy loops of a merge fill exactly the slots that were allocated: the current count plus the expansion. */
  lemma MergeFillsExactly(m: Doc, t: Doc, k: nat, original: nat)
    requires k < original <= |t| && 0 <= AdjustedIndex(k, |m|, original)
    ensures AdjustedIndex(k, |m|, original) < |m|
    ensures |MergeDoc(m, t, k, original)| == |m| + (|t| - original)
  {
  }
}
