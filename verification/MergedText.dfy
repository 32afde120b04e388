/** What a commit makes of the text of a file, token by token: every sentence stands in the new text as the parser saw
    it, newlines included, and only blanks are added. */
module MergedText {
  import opened Text
  import opened Document
  import opened PrintParse
  import opened NormalForm
  import opened FullText
  import opened WriteSession
  import opened Commit
  import opened Merge

  // ----- no two blanks side by side -----

  lemma NoDoubleBlankJoin(a: seq<Token>, b: seq<Token>)
    requires NoDoubleBlank(a) && NoDoubleBlank(b) && Closed(a)
    ensures NoDoubleBlank(a + b)
  {
    var c := a + b;
    forall i | 0 <= i < |c| - 1
      ensures !(IsSpaceToken(c[i]) && IsSpaceToken(c[i + 1]))
    {
      if i == |a| - 1 {
        DelimIsReal(a[i]);
      } else if i >= |a| {
        assert c[i] == b[i - |a|] && c[i + 1] == b[i - |a| + 1];
      }
    }
  }

  lemma NoDoubleBlankPart(a: seq<Token>, b: seq<Token>, c: seq<Token>)
    requires NoDoubleBlank(a + b + c)
    ensures NoDoubleBlank(b)
  {
    var d := a + b + c;
    assert forall i :: 0 <= i < |b| ==> b[i] == d[|a| + i];
    forall i | 0 <= i < |b| - 1
      ensures !(IsSpaceToken(b[i]) && IsSpaceToken(b[i + 1]))
    {
      var x := |a| + i;
      assert !(IsSpaceToken(d[x]) && IsSpaceToken(d[x + 1]));
    }
  }

  lemma SliceHasNoDoubleBlank(text: string, i: nat, j: nat)
    requires i <= j <= |Parse(text)|
    ensures NoDoubleBlank(Flatten(Parse(text)[i..j]))
  {
    var doc := Parse(text);
    ParseIsCut(text);
    TokensHaveNoDoubleBlank(text);
    assert doc == doc[..i] + doc[i..j] + doc[j..];
    FlattenAppend(doc[..i] + doc[i..j], doc[j..]);
    FlattenAppend(doc[..i], doc[i..j]);
    NoDoubleBlankPart(Flatten(doc[..i]), Flatten(doc[i..j]), Flatten(doc[j..]));
  }

  lemma ThreeParts(a: Doc, b: Doc, c: Doc)
    requires NoDoubleBlank(Flatten(a)) && NoDoubleBlank(Flatten(b)) && NoDoubleBlank(Flatten(c))
    requires (b == [] && c == []) || AllClosed(a)
    requires c == [] || AllClosed(b)
    ensures NoDoubleBlank(Flatten(a + b + c))
  {
    FlattenAppend(a + b, c);
    FlattenAppend(a, b);
    if b == [] && c == [] {
      assert Flatten(a + b + c) == Flatten(a) + [] + [] == Flatten(a);
    } else {
      FlattenClosed(a);
      NoDoubleBlankJoin(Flatten(a), Flatten(b));
      if c == [] {
        assert Flatten(a) + Flatten(b) + [] == Flatten(a) + Flatten(b);
      } else {
        ClosedJoin(a, b);
        FlattenAppend(a, b);
        FlattenClosed(a + b);
        NoDoubleBlankJoin(Flatten(a) + Flatten(b), Flatten(c));
      }
    }
  }

  lemma PartsAreClosed(m: Doc, t: Doc, k: nat, original: nat, i: nat)
    requires IsCut(m) && IsCut(t) && k < original <= |t| && i == AdjustedIndex(k, |m|, original) < |m|
    ensures var j := |t| - (original - k - 1);
      && MergeDoc(m, t, k, original) == m[0..i] + t[k..j] + m[i + 1..|m|]
      && AllClosed(m[0..i]) && (i + 1 < |m| ==> AllClosed(t[k..j]))
  {
    var j := |t| - (original - k - 1);
    MergeDocIsCut(m, t, k, original);
    CutSlice(m, 0, i);
    CutSlice(t, k, j);
    assert m[0..i] == m[..i] && m[i + 1..|m|] == m[i + 1..];
  }

  lemma MergeHasNoDoubleBlank(main: string, temp: string, k: nat, original: nat, i: nat, d: Doc)
    requires k < original <= |Parse(temp)| && i == AdjustedIndex(k, |Parse(main)|, original) < |Parse(main)|
    requires d == MergeDoc(Parse(main), Parse(temp), k, original)
    ensures NoDoubleBlank(Flatten(d))
  {
    var m, t := Parse(main), Parse(temp);
    var j := |t| - (original - k - 1);
    CutIsCut(Tokens(main));
    CutIsCut(Tokens(temp));
    PartsAreClosed(m, t, k, original, i);
    SliceHasNoDoubleBlank(main, 0, i);
    SliceHasNoDoubleBlank(temp, k, j);
    SliceHasNoDoubleBlank(main, i + 1, |m|);
    ThreeParts(m[0..i], t[k..j], m[i + 1..|m|]);
  }

  // ----- the merged text -----

  /** Sentence `j` of the text is sentence `s`, printed and parsed. */
  predicate StandsIn(s: Sentence, u: string, j: nat) {
    j < |Parse(u)| && Parse(u)[j] == Reprinted(s, j == 0)
  }

  /** What `u` holds if the sentences of document `t` that belong to sentence `k` of the original take the place of
      sentence `i` of `m`: the sentences in front of it and behind it, from `m`, and between them those of `t`. */
  ghost predicate Replaces(m: Doc, t: Doc, k: nat, original: nat, i: int, u: string) {
    && k < original <= |t| && 0 <= i < |m|
    && |Parse(u)| == |m| + |t| - original
    && (forall j :: 0 <= j < i ==> StandsIn(m[j], u, j))
    && (forall j {:trigger t[j]} :: k <= j <= k + |t| - original ==> StandsIn(t[j], u, i + j - k))
    && (forall j {:trigger m[j]} :: i < j < |m| ==> StandsIn(m[j], u, j + |t| - original))
    && u == Concat(Flatten(Parse(u)))
  }

  /** What a commit makes of the text of a file. */
  ghost predicate Merged(main: string, q: Queued, u: string) {
    var m := Parse(main);
    if q.original == 0 && main == "" then u == Rewrite(q.copy)
    else if q.index >= q.original || |m| < q.original - q.index then u == main
    else Replaces(m, Parse(q.copy), q.index, q.original, q.index + |m| - q.original, u)
  }

  lemma MergeDocAt(m: Doc, t: Doc, k: nat, original: nat, i: nat, d: Doc)
    requires k < original <= |t| && i == AdjustedIndex(k, |m|, original) < |m| && d == MergeDoc(m, t, k, original)
    ensures |d| == |m| + |t| - original
    ensures forall j :: 0 <= j < i ==> d[j] == m[j]
    ensures forall j {:trigger t[j]} :: k <= j <= k + |t| - original ==> d[i + j - k] == t[j]
    ensures forall j {:trigger m[j]} :: i < j < |m| ==> d[j + |t| - original] == m[j]
  {
    var g := |t| - original;
    assert Taken(t, k, original) == t[k..k + g + 1];
    assert d == m[..i] + t[k..k + g + 1] + m[i + 1..];
  }

  lemma ReprintedStands(d: Doc, u: string)
    requires Parse(u) == AllReprinted(d, true)
    ensures forall j :: 0 <= j < |d| ==> StandsIn(d[j], u, j)
  {
    forall j | 0 <= j < |d|
      ensures StandsIn(d[j], u, j)
    {
      ReprintedAt(d, true, j);
    }
  }

  lemma ReplacesIs(m: Doc, t: Doc, k: nat, original: nat, i: nat, d: Doc, u: string)
    requires k < original <= |t| && i == AdjustedIndex(k, |m|, original) < |m| && d == MergeDoc(m, t, k, original)
    requires Parse(u) == AllReprinted(d, true) && u == Concat(Flatten(AllReprinted(d, true)))
    ensures Replaces(m, t, k, original, i, u)
  {
    MergeDocAt(m, t, k, original, i, d);
    ReprintedStands(d, u);
  }

  lemma MergedDocReplaces(main: string, temp: string, k: nat, original: nat, i: nat, u: string)
    requires k < original <= |Parse(temp)| && i == AdjustedIndex(k, |Parse(main)|, original) < |Parse(main)|
    requires u == Print(MergeDoc(Parse(main), Parse(temp), k, original))
    ensures Replaces(Parse(main), Parse(temp), k, original, i, u)
  {
    var d := MergeDoc(Parse(main), Parse(temp), k, original);
    ParseIsCut(main);
    ParseIsCut(temp);
    MergeDocIsCut(Parse(main), Parse(temp), k, original);
    WellFormedMerge(Parse(main), Parse(temp), k, original);
    MergeHasNoDoubleBlank(main, temp, k, original, i, d);
    PrintedComesBack(d);
    ReplacesIs(Parse(main), Parse(temp), k, original, i, d, u);
  }

  /** A commit, token by token: into an empty file the whole copy goes, as the server rewrites it; a commit that is
      skipped leaves the text as it was; any other one leaves every sentence in front of its place and behind it, and
      puts the session's own sentences there. Nothing but blanks is added, and no newline is lost. */
  lemma MergeIs(main: string, q: Queued)
    requires q.Valid()
    ensures Merged(main, q, MergeOne(main, q))
  {
    ParseIsCut(main);
    ParseIsCut(q.copy);
    SkippedIff(main, q.copy, q.index, q.original);
    if q.index < q.original && |Parse(main)| >= q.original - q.index {
      var u := MergeText(main, q.copy, q.index, q.original).value;
      MergeTextIs(main, q.copy, q.index, q.original, u);
      MergedDocReplaces(main, q.copy, q.index, q.original, AdjustedIndex(q.index, |Parse(main)|, q.original), u);
    }
  }
}
