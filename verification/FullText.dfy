/** What printing and parsing do to all tokens of a text, blanks and newlines included. */
module FullText {
  import opened Text
  import opened Document
  import opened PrintParse
  import opened NormalForm

  // ----- all tokens but the blanks -----

  function Solid(t: Token): seq<Token> {
    if IsSpaceToken(t) then [] else [t]
  }

  /** The words, delimiters and newlines of a token list. */
  function WithoutBlanks(ts: seq<Token>): seq<Token> {
    if ts == [] then [] else Solid(ts[0]) + WithoutBlanks(ts[1..])
  }

  lemma {:induction false} WithoutBlanksAppend(a: seq<Token>, b: seq<Token>)
    ensures WithoutBlanks(a + b) == WithoutBlanks(a) + WithoutBlanks(b)
  {
    if a == [] {
      assert a + b == b;
    } else {
      WithoutBlanksAppend(a[1..], b);
      assert (a + b)[0] == a[0] && (a + b)[1..] == a[1..] + b;
      Assoc(Solid(a[0]), WithoutBlanks(a[1..]), WithoutBlanks(b));
    }
  }

  lemma WithoutBlanksOne(t: Token)
    ensures WithoutBlanks([t]) == Solid(t)
  {
    assert [t][1..] == [];
  }

  lemma BlankRunShowsNothing(b: string, rest: string)
    requires IsSpaceToken(b) && (rest == "" || KindOf(rest[0]) != Blank)
    ensures WithoutBlanks(Tokens(b + rest)) == WithoutBlanks(Tokens(rest))
  {
    BlankStep(b, rest);
    assert IsSpaceToken(b[..Min(|b|, MAX_TOKEN)]);
  }

  lemma BlankFirstShowsNothing(x: Token, u: string)
    requires IsSpaceToken(x)
    ensures WithoutBlanks(Tokens(x + u)) == WithoutBlanks(Tokens(u))
  {
    var n := Run(u, Blank);
    var lead, rest := u[..n], u[n..];
    assert u == lead + rest;
    Assoc(x, lead, rest);
    BlankRunShowsNothing(x + lead, rest);
    if n == 0 {
      assert rest == u;
    } else {
      BlankRunShowsNothing(lead, rest);
    }
  }

  lemma SolidStep(x: Token, rest: string)
    requires WellFormed(x) && !IsSpaceToken(x) && (IsWord(x) ==> rest == "" || KindOf(rest[0]) != Letter)
    ensures WithoutBlanks(Tokens(x + rest)) == [x] + WithoutBlanks(Tokens(rest))
  {
    KindOfFirst(x);
    TokenStep(x, rest);
  }

  /** Tokenising the concatenation of tokens gives them back, whatever blanks run together. */
  lemma {:induction false} StreamOfConcat(ts: seq<Token>)
    requires AllWellFormed(ts) && Separated(ts)
    ensures WithoutBlanks(Tokens(Concat(ts))) == WithoutBlanks(ts)
  {
    if ts != [] {
      var rest := ts[1..];
      assert Separated(rest) && AllWellFormed(rest) by {
        assert forall i :: 0 <= i < |rest| ==> rest[i] == ts[i + 1];
      }
      StreamOfConcat(rest);
      assert WellFormed(ts[0]);
      if IsSpaceToken(ts[0]) {
        BlankFirstShowsNothing(ts[0], Concat(rest));
      } else {
        if rest != [] {
          assert WellFormed(ts[1]) && !(IsWord(ts[0]) && IsWord(ts[0 + 1]));
          KindOfFirst(ts[1]);
          assert Concat(rest)[0] == ts[1][0];
        }
        SolidStep(ts[0], Concat(rest));
      }
    }
  }

  lemma GapShowsNothing(gap: seq<Token>)
    requires gap == [] || gap == [" "]
    ensures WithoutBlanks(gap) == []
  {
    BlankIsSpace();
    WithoutBlanksOne(" ");
  }

  lemma {:induction false} StreamOfSentence(s: Sentence)
    ensures WithoutBlanks(SpacedSentence(s)) == WithoutBlanks(s)
  {
    if |s| > 1 {
      var gap := SentenceGap(s);
      StreamOfSentence(s[1..]);
      GapShowsNothing(gap);
      WithoutBlanksAppend([s[0]] + gap, SpacedSentence(s[1..]));
      WithoutBlanksAppend([s[0]], gap);
      WithoutBlanksOne(s[0]);
    }
  }

  lemma {:induction false} StreamOfSpaced(doc: Doc)
    ensures WithoutBlanks(Spaced(doc)) == WithoutBlanks(Flatten(doc))
  {
    if doc != [] {
      var sp, gap := SpacedSentence(doc[0]), SentenceBreak(doc);
      StreamOfSpaced(doc[1..]);
      StreamOfSentence(doc[0]);
      GapShowsNothing(gap);
      WithoutBlanksAppend(sp + gap, Spaced(doc[1..]));
      WithoutBlanksAppend(sp, gap);
      WithoutBlanksAppend(doc[0], Flatten(doc[1..]));
    }
  }

  /** Printing any document of tokens and parsing the text again keeps every word, delimiter and newline, in order. */
  lemma PrintKeepsStream(doc: Doc)
    requires WellFormedDoc(doc)
    ensures WithoutBlanks(Tokens(Print(doc))) == WithoutBlanks(Flatten(doc))
  {
    SpacedIsSeparated(doc);
    PrintIsConcat(doc);
    StreamOfConcat(Spaced(doc));
    StreamOfSpaced(doc);
  }

  // ----- where the printer puts blanks -----

  /** A blank separates the two tokens if neither is a blank, a newline or a delimiter. */
  function Between(x: Token, y: Token): string {
    if !IsSkip(x) && !IsDelimToken(x) && !IsSkip(y) && !IsDelimToken(y) then " " else ""
  }

  lemma PrintSentenceStep(a: Sentence, b: Sentence, rest: string)
    requires |a| > 1 && PrintSentence(a[1..] + b) == PrintSentence(a[1..]) + rest
    ensures PrintSentence(a + b) == PrintSentence(a) + rest
  {
    assert (a + b)[1..] == a[1..] + b && (a + b)[1] == a[1];
    Assoc(a[0] + Between(a[0], a[1]), PrintSentence(a[1..]), rest);
  }

  /** Printing a sentence piece by piece: one blank goes between two pieces if and only if neither of the tokens that
      meet there is a blank, a newline or a delimiter. */
  lemma {:induction false} PrintSentencePieces(a: Sentence, b: Sentence)
    requires a != [] && b != []
    ensures PrintSentence(a + b) == PrintSentence(a) + Between(a[|a| - 1], b[0]) + PrintSentence(b)
  {
    if |a| == 1 {
      assert (a + b)[1..] == b;
    } else {
      var gap := Between(a[|a| - 1], b[0]);
      PrintSentencePieces(a[1..], b);
      Assoc(PrintSentence(a[1..]), gap, PrintSentence(b));
      PrintSentenceStep(a, b, gap + PrintSentence(b));
      Assoc(PrintSentence(a), gap, PrintSentence(b));
    }
  }

  /** The two documents are printed with a blank between them. */
  predicate BreakBetween(a: Doc, b: Doc)
    requires a != [] && b != []
  {
    var s := a[|a| - 1];
    s != [] && !IsSkip(s[|s| - 1]) && (b[0] == [] || !IsSkip(b[0][0]))
  }

  function BreakText(doc: Doc): string {
    if NeedsBreak(doc) then " " else ""
  }

  lemma PrintFirst(s: Sentence, b: Doc)
    requires b != []
    ensures Print([s] + b) == Print([s]) + (if BreakBetween([s], b) then " " else "") + Print(b)
  {
    var one, all := [s], [s] + b;
    assert all[1..] == b && all[1] == b[0] && one[1..] == [];
    assert Print(one) == PrintSentence(s) + "" + "" == PrintSentence(s);
  }

  lemma PrintStep(a: Doc, b: Doc, rest: string)
    requires |a| > 1 && Print(a[1..] + b) == Print(a[1..]) + rest
    ensures Print(a + b) == Print(a) + rest
  {
    assert (a + b)[1..] == a[1..] + b && (a + b)[1] == a[1];
    Assoc(PrintSentence(a[0]) + BreakText(a), Print(a[1..]), rest);
  }

  /** Printing a document piece by piece: one blank goes between two pieces if and only if the first one ends in a word
      or delimiter and the second one does not start with a blank or a newline. */
  lemma {:induction false} PrintPieces(a: Doc, b: Doc)
    requires a != [] && b != []
    ensures Print(a + b) == Print(a) + (if BreakBetween(a, b) then " " else "") + Print(b)
  {
    if |a| == 1 {
      assert a == [a[0]];
      PrintFirst(a[0], b);
    } else {
      var gap := if BreakBetween(a, b) then " " else "";
      PrintPieces(a[1..], b);
      Assoc(Print(a[1..]), gap, Print(b));
      PrintStep(a, b, gap + Print(b));
      Assoc(Print(a), gap, Print(b));
    }
  }

  // ----- a parsed document, printed and parsed again -----

  /** The blank that the printer puts in front of a sentence that is not the first. */
  function Lead(s: Sentence, first: bool): seq<Token> {
    if first || s == [] || IsSkip(s[0]) then [] else [" "]
  }

  /** A sentence as it comes back: with a blank between words that touch, and one in front unless it has its own. */
  function Reprinted(s: Sentence, first: bool): Sentence {
    Lead(s, first) + SpacedSentence(s)
  }

  /** Two words of the sentence touch, which happens only where the parser chopped a long run of letters. */
  predicate Touching(s: Sentence) {
    exists i :: 0 <= i < |s| - 1 && IsWord(s[i]) && IsWord(s[i + 1])
  }

  /** If no words touch, the sentence comes back as it is, or with one blank in front. */
  lemma {:induction false} UntouchedIsKept(s: Sentence)
    requires AllWellFormed(s) && !Touching(s)
    ensures SpacedSentence(s) == s
  {
    if |s| > 1 {
      assert !Touching(s[1..]) by {
        assert forall i :: 0 <= i < |s| - 1 ==> s[1..][i] == s[i + 1];
      }
      UntouchedIsKept(s[1..]);
      assert WellFormed(s[0]) && WellFormed(s[1]) && !(IsWord(s[0]) && IsWord(s[0 + 1]));
    }
  }

  lemma {:induction false} SpacedIsOne(s: Sentence)
    requires OneSentence(s) && AllWellFormed(s)
    ensures OneSentence(SpacedSentence(s)) && (Closed(s) <==> Closed(SpacedSentence(s)))
    ensures SpacedSentence(s) != [] && SpacedSentence(s)[0] == s[0]
  {
    SpacedSentenceIsSeparated(s);
    if |s| > 1 {
      var t := s[1..];
      assert OneSentence(t) by {
        assert t[..|t| - 1] == s[..|s| - 1][1..];
      }
      SpacedIsOne(t);
      BlankIsSpace();
      var r, sp := SpacedSentence(s), SpacedSentence(t);
      assert !IsDelimToken(s[..|s| - 1][0]);
      assert r[..|r| - 1] == [s[0]] + SentenceGap(s) + sp[..|sp| - 1];
    }
  }

  lemma ReprintedIsOne(s: Sentence, first: bool)
    requires OneSentence(s) && AllWellFormed(s)
    ensures OneSentence(Reprinted(s, first)) && (Closed(s) <==> Closed(Reprinted(s, first)))
  {
    SpacedIsOne(s);
    BlankIsSpace();
    var r, sp := Reprinted(s, first), SpacedSentence(s);
    assert r[..|r| - 1] == Lead(s, first) + sp[..|sp| - 1];
  }

  function AllReprinted(doc: Doc, first: bool): (r: Doc)
    ensures |r| == |doc|
  {
    if doc == [] then [] else [Reprinted(doc[0], first)] + AllReprinted(doc[1..], false)
  }

  lemma {:induction false} ReprintedAt(doc: Doc, first: bool, j: nat)
    requires j < |doc|
    ensures AllReprinted(doc, first)[j] == Reprinted(doc[j], first && j == 0)
  {
    if j > 0 {
      ReprintedAt(doc[1..], false, j - 1);
    }
  }

  lemma RestIsCut(doc: Doc)
    requires IsCut(doc) && WellFormedDoc(doc) && doc != []
    ensures IsCut(doc[1..]) && WellFormedDoc(doc[1..]) && OneSentence(doc[0]) && AllWellFormed(doc[0])
    ensures |doc| > 1 ==> Closed(doc[0]) && doc[1] != []
  {
    assert forall i :: 0 <= i < |doc[1..]| ==> doc[1..][i] == doc[i + 1];
    assert |doc| > 1 ==> OneSentence(doc[1]);
  }

  lemma BreakIsLead(doc: Doc)
    requires IsCut(doc) && WellFormedDoc(doc) && |doc| > 1
    ensures SentenceBreak(doc) == Lead(doc[1], false)
  {
    RestIsCut(doc);
    DelimIsReal(doc[0][|doc[0]| - 1]);
  }

  lemma {:induction false} CutOfSpaced(doc: Doc, first: bool)
    requires IsCut(doc) && WellFormedDoc(doc) && doc != []
    ensures Cut(Lead(doc[0], first) + Spaced(doc)) == AllReprinted(doc, first)
  {
    RestIsCut(doc);
    var lead, sp, x := Lead(doc[0], first), SpacedSentence(doc[0]), Reprinted(doc[0], first);
    ReprintedIsOne(doc[0], first);
    CutOne(x);
    if |doc| == 1 {
      assert lead + Spaced(doc) == x;
      assert AllReprinted(doc[1..], false) == [];
    } else {
      BreakIsLead(doc);
      var gap, r := Lead(doc[1], false), Spaced(doc[1..]);
      CutOfSpaced(doc[1..], false);
      CutAppend(x, gap + r);
      Assoc(lead, sp + gap, r);
      Assoc(lead, sp, gap);
      Assoc(x, gap, r);
    }
  }

  /** A document that has been cut, with no two blanks side by side, comes back from printing and parsing sentence by
      sentence; the printed text is exactly these sentences. */
  lemma PrintedComesBack(doc: Doc)
    requires IsCut(doc) && WellFormedDoc(doc) && NoDoubleBlank(Flatten(doc))
    ensures Parse(Print(doc)) == AllReprinted(doc, true)
    ensures Print(doc) == Concat(Flatten(AllReprinted(doc, true)))
  {
    var ts := Flatten(doc);
    FlattenIsWellFormed(doc);
    CutFlatten(doc);
    SpacedCut(ts);
    WeaveIsCanonical(ts);
    PrintIsConcat(doc);
    TokensOfConcat(Spaced(doc));
    if doc == [] {
      assert Spaced(doc) == [];
    } else {
      assert Lead(doc[0], true) + Spaced(doc) == Spaced(doc);
      CutOfSpaced(doc, true);
    }
    FlattenCut(Spaced(doc));
  }

  lemma {:induction false} FlattenIsWellFormed(doc: Doc)
    requires WellFormedDoc(doc)
    ensures AllWellFormed(Flatten(doc))
  {
    if doc != [] {
      FlattenIsWellFormed(doc[1..]);
      assert AllWellFormed(doc[0]);
    }
  }
}
