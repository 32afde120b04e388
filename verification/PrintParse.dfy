/** The printer of `write_file_content`, and what printing and parsing again keep. */
module PrintParse {
  import opened Text
  import opened Document

  // ----- the printed text -----

  /** A space separates two neighbours of a sentence unless one of them is a space, a newline or a delimiter. */
  predicate NeedsGap(a: Token, b: Token) {
    !IsSkip(a) && !IsSkip(b) && !IsDelimToken(a) && !IsDelimToken(b)
  }

  function PrintSentence(s: Sentence): string {
    if s == [] then ""
    else if |s| == 1 then s[0]
    else s[0] + (if NeedsGap(s[0], s[1]) then " " else "") + PrintSentence(s[1..])
  }

  /** A space separates a sentence from the next one, unless its last token or the next sentence's first one is a
      space or a newline, or it has no token at all. */
  predicate NeedsBreak(doc: Doc) {
    && |doc| > 1 && doc[0] != [] && !IsSkip(doc[0][|doc[0]| - 1])
    && (doc[1] == [] || !IsSkip(doc[1][0]))
  }

  function Print(doc: Doc): string {
    if doc == [] then ""
    else PrintSentence(doc[0]) + (if NeedsBreak(doc) then " " else "") + Print(doc[1..])
  }

  // ----- the printed text as a token list -----

  function SpacedSentence(s: Sentence): seq<Token> {
    if |s| <= 1 then s
    else [s[0]] + SentenceGap(s) + SpacedSentence(s[1..])
  }

  function SentenceGap(s: Sentence): seq<Token>
    requires |s| > 1
  {
    if NeedsGap(s[0], s[1]) then [" "] else []
  }

  function SentenceBreak(doc: Doc): seq<Token> {
    if NeedsBreak(doc) then [" "] else []
  }

  function Spaced(doc: Doc): seq<Token> {
    if doc == [] then []
    else SpacedSentence(doc[0]) + SentenceBreak(doc) + Spaced(doc[1..])
  }

  lemma {:induction false} ConcatAppend(a: seq<Token>, b: seq<Token>)
    ensures Concat(a + b) == Concat(a) + Concat(b)
  {
    if a == [] {
      assert a + b == b;
    } else {
      calc {
        Concat(a + b);
        { assert (a + b)[0] == a[0] && (a + b)[1..] == a[1..] + b; }
        a[0] + Concat(a[1..] + b);
        { ConcatAppend(a[1..], b); }
        a[0] + (Concat(a[1..]) + Concat(b));
        Concat(a) + Concat(b);
      }
    }
  }

  lemma ConcatSingle(t: Token)
    ensures Concat([t]) == t
  {
    assert Concat([t][1..]) == "";
    assert t + "" == t;
  }

  lemma {:induction false} PrintSentenceIsConcat(s: Sentence)
    ensures PrintSentence(s) == Concat(SpacedSentence(s))
  {
    if |s| == 1 {
      assert s == [s[0]];
      ConcatSingle(s[0]);
    } else if |s| > 1 {
      var gap := SentenceGap(s);
      PrintSentenceIsConcat(s[1..]);
      ConcatSingle(s[0]);
      ConcatSingle(" ");
      ConcatAppend([s[0]], gap);
      ConcatAppend([s[0]] + gap, SpacedSentence(s[1..]));
    }
  }

  lemma {:induction false} PrintIsConcat(doc: Doc)
    ensures Print(doc) == Concat(Spaced(doc))
  {
    if doc != [] {
      var gap := SentenceBreak(doc);
      var s := SpacedSentence(doc[0]);
      PrintIsConcat(doc[1..]);
      PrintSentenceIsConcat(doc[0]);
      ConcatSingle(" ");
      ConcatAppend(s, gap);
      ConcatAppend(s + gap, Spaced(doc[1..]));
    }
  }

  // ----- reading a token list back -----

  /** No two words touch. */
  predicate Separated(ts: seq<Token>) {
    forall i :: 0 <= i < |ts| - 1 ==> !(IsWord(ts[i]) && IsWord(ts[i + 1]))
  }

  lemma SeparatedAppend(a: seq<Token>, b: seq<Token>)
    requires Separated(a) && Separated(b)
    requires a == [] || b == [] || !(IsWord(a[|a| - 1]) && IsWord(b[0]))
    ensures Separated(a + b)
  {
    var c := a + b;
    forall i | 0 <= i < |c| - 1
      ensures !(IsWord(c[i]) && IsWord(c[i + 1]))
    {
      if |a| <= i {
        assert c[i] == b[i - |a|] && c[i + 1] == b[i - |a| + 1];
      }
    }
  }

  lemma ViewOfBlankRun(b: string, rest: string)
    requires IsSpaceToken(b)
    requires rest == "" || KindOf(rest[0]) != Blank
    ensures ViewOf(b + rest) == Push([], ViewOf(rest))
  {
    BlankStep(b, rest);
    var tok := b[..Min(|b|, MAX_TOKEN)];
    assert IsSpaceToken(tok) && KindOf(tok[0]) == Blank;
    assert ([tok] + Tokens(rest))[1..] == Tokens(rest);
  }

  /** Blanks in front of a text run together with its own leading blanks. */
  lemma ViewOfBlankFirst(x: Token, u: string)
    requires IsSpaceToken(x)
    ensures ViewOf(x + u) == Push([], ViewOf(u))
  {
    var n := Run(u, Blank);
    var lead, rest := u[..n], u[n..];
    assert lead + rest == u;
    assert x + u == (x + lead) + rest;
    ViewOfBlankRun(x + lead, rest);
    if n == 0 {
      assert rest == u;
    } else {
      ViewOfBlankRun(lead, rest);
      var none: Sentence := [];
      PushPush(none, none, ViewOf(rest));
      assert none + none == none;
    }
  }

  /** Reading back the concatenation of tokens shows the same sentences, whatever blanks ran together. */
  lemma {:induction false} ViewOfConcat(ts: seq<Token>)
    requires AllWellFormed(ts) && Separated(ts)
    ensures ViewOf(Concat(ts)) == View(ts)
  {
    if ts != [] {
      var rest := ts[1..];
      assert Separated(rest) && AllWellFormed(rest) by {
        assert forall i :: 0 <= i < |rest| ==> rest[i] == ts[i + 1];
      }
      ViewOfConcat(rest);
      assert WellFormed(ts[0]);
      KindOfFirst(ts[0]);
      if IsSpaceToken(ts[0]) {
        ViewOfBlankFirst(ts[0], Concat(rest));
      } else {
        if rest != [] {
          assert WellFormed(ts[1]) && !(IsWord(ts[0]) && IsWord(ts[0 + 1]));
          KindOfFirst(ts[1]);
          assert Concat(rest)[0] == ts[1][0];
        }
        TokenStep(ts[0], Concat(rest));
        assert ([ts[0]] + Tokens(Concat(rest)))[1..] == Tokens(Concat(rest));
      }
    }
  }

  // ----- printing, then parsing -----

  lemma BlankIsSpace()
    ensures WellFormed(" ") && IsSpaceToken(" ") && !IsWord(" ") && !IsDelimToken(" ")
  {
    assert KindOf(' ') == Blank;
    assert AllOf(" ", Blank);
    assert KindOf(" "[0]) != Letter;
  }

  lemma WordIsReal(t: Token)
    requires IsWord(t)
    ensures !IsSkip(t) && !IsDelimToken(t)
  {
    assert KindOf(t[0]) == Letter;
  }

  lemma JoinIsSeparated(a: seq<Token>, gap: seq<Token>, b: seq<Token>)
    requires AllWellFormed(a) && Separated(a) && AllWellFormed(b) && Separated(b)
    requires gap == [" "] || (gap == [] && (a == [] || b == [] || !(IsWord(a[|a| - 1]) && IsWord(b[0]))))
    ensures AllWellFormed(a + gap + b) && Separated(a + gap + b)
  {
    BlankIsSpace();
    SeparatedAppend(a, gap);
    SeparatedAppend(a + gap, b);
  }

  lemma {:induction false} SpacedSentenceIsSeparated(s: Sentence)
    requires AllWellFormed(s)
    ensures AllWellFormed(SpacedSentence(s)) && Separated(SpacedSentence(s))
    ensures s == [] <==> SpacedSentence(s) == []
    ensures s != [] ==> SpacedSentence(s)[0] == s[0]
    ensures s != [] ==> SpacedSentence(s)[|SpacedSentence(s)| - 1] == s[|s| - 1]
  {
    if |s| > 1 {
      assert WellFormed(s[0]) && WellFormed(s[1]);
      var gap := SentenceGap(s);
      SpacedSentenceIsSeparated(s[1..]);
      if IsWord(s[0]) && IsWord(s[1]) {
        WordIsReal(s[0]);
        WordIsReal(s[1]);
      }
      JoinIsSeparated([s[0]], gap, SpacedSentence(s[1..]));
    }
  }

  lemma BreakSeparates(doc: Doc)
    requires |doc| > 1 && doc[0] != [] && SentenceBreak(doc) == []
    ensures IsWord(doc[0][|doc[0]| - 1]) ==> doc[1] != [] && !IsWord(doc[1][0])
  {
    var last := doc[0][|doc[0]| - 1];
    if IsWord(last) {
      WordIsReal(last);
      if doc[1] != [] && IsWord(doc[1][0]) {
        WordIsReal(doc[1][0]);
      }
    }
  }

  lemma {:induction false} SpacedIsSeparated(doc: Doc)
    requires WellFormedDoc(doc)
    ensures AllWellFormed(Spaced(doc)) && Separated(Spaced(doc))
    ensures doc != [] && doc[0] != [] ==> Spaced(doc) != [] && Spaced(doc)[0] == doc[0][0]
  {
    if doc != [] {
      var sp, gap, r := SpacedSentence(doc[0]), SentenceBreak(doc), Spaced(doc[1..]);
      assert AllWellFormed(doc[0]);
      SpacedSentenceIsSeparated(doc[0]);
      SpacedIsSeparated(doc[1..]);
      if gap == [] && sp != [] && r != [] {
        assert |doc| > 1;
        BreakSeparates(doc);
        assert IsWord(sp[|sp| - 1]) ==> r[0] == doc[1][0];
      }
      JoinIsSeparated(sp, gap, r);
    }
  }

  /** A blank in front of other tokens does not show. */
  lemma ViewSkipsBlank(ts: seq<Token>)
    ensures View([" "] + ts) == if ts == [] then [[]] else View(ts)
  {
    BlankIsSpace();
    assert ([" "] + ts)[1..] == ts;
    ViewEmpty(ts);
    if ts != [] {
      var v := View(ts);
      var none: Sentence := [];
      assert none + v[0] == v[0];
    }
  }

  lemma GapDoesNotShow(a: seq<Token>, gap: seq<Token>, x: seq<Token>, y: seq<Token>, extra: Doc)
    requires gap == [] || gap == [" "]
    requires x != [] && y != [] && View(x) == View(y) + extra
    ensures View(a + gap + x) == View(a + y) + extra
  {
    Assoc(a, gap, x);
    assert gap == [] ==> gap + x == x;
    ViewSkipsBlank(x);
    ViewCongruence(a, gap + x, y, extra);
  }

  lemma {:induction false} ViewOfSpacedSentence(s: Sentence, rest: seq<Token>)
    ensures View(SpacedSentence(s) + rest) == View(s + rest)
  {
    if |s| > 1 {
      var sp := SpacedSentence(s[1..]);
      ViewOfSpacedSentence(s[1..], rest);
      calc {
        View(SpacedSentence(s) + rest);
        { Assoc([s[0]] + SentenceGap(s), sp, rest); }
        View([s[0]] + SentenceGap(s) + (sp + rest));
        { GapDoesNotShow([s[0]], SentenceGap(s), sp + rest, s[1..] + rest, []); }
        View([s[0]] + (s[1..] + rest));
        { assert [s[0]] + (s[1..] + rest) == s + rest; }
        View(s + rest);
      }
    }
  }

  /** The printer leaves a blank behind a closed document whose last sentence has no tokens. */
  predicate EndsInBlank(doc: Doc) {
    doc != [] && doc[|doc| - 1] == [] && Flatten(doc) != [] && Closed(Flatten(doc))
  }

  function Extra(doc: Doc): Doc {
    if EndsInBlank(doc) then [[]] else []
  }

  lemma ViewOfSpacedEnd(doc: Doc, r: seq<Token>)
    requires doc != [] && Flatten(doc[1..]) == [] && View(r) == View([]) + Extra(doc[1..])
    ensures View(doc[0] + SentenceBreak(doc) + r) == View(Flatten(doc)) + Extra(doc)
  {
    assert Extra(doc[1..]) == [];
    ViewEmpty(r);
    FlattenedToNothing(doc[1..]);
    assert forall i :: 1 <= i < |doc| ==> doc[i] == doc[1..][i - 1];
    assert Flatten(doc) == doc[0] && doc[0] + SentenceBreak(doc) + r == doc[0] + SentenceBreak(doc);
    ViewOfLastBreak(doc);
  }

  lemma ViewOfSpacedFirst(doc: Doc)
    requires doc != []
    ensures View(Spaced(doc)) == View(doc[0] + SentenceBreak(doc) + Spaced(doc[1..]))
  {
    var s, gap, r := doc[0], SentenceBreak(doc), Spaced(doc[1..]);
    calc {
      View(Spaced(doc));
      { Assoc(SpacedSentence(s), gap, r); }
      View(SpacedSentence(s) + (gap + r));
      { ViewOfSpacedSentence(s, gap + r); }
      View(s + (gap + r));
      { Assoc(s, gap, r); }
      View(s + gap + r);
    }
  }

  lemma ViewOfSpacedMiddle(doc: Doc, r: seq<Token>)
    requires doc != [] && Flatten(doc[1..]) != [] && View(r) == View(Flatten(doc[1..])) + Extra(doc[1..])
    ensures View(doc[0] + SentenceBreak(doc) + r) == View(Flatten(doc)) + Extra(doc)
  {
    var f := Flatten(doc[1..]);
    ViewEmpty(r);
    ViewEmpty(f);
    GapDoesNotShow(doc[0], SentenceBreak(doc), r, f, Extra(doc[1..]));
    ExtraOfRest(doc);
  }

  lemma ExtraOfRest(doc: Doc)
    requires doc != [] && Flatten(doc[1..]) != []
    ensures Extra(doc) == Extra(doc[1..])
  {
    var f := Flatten(doc[1..]);
    var all := doc[0] + f;
    assert Flatten(doc) == all && all[|all| - 1] == f[|f| - 1];
    assert doc[1..] != [] && doc[|doc| - 1] == doc[1..][|doc| - 2];
  }

  lemma {:induction false} ViewOfSpaced(doc: Doc)
    ensures View(Spaced(doc)) == View(Flatten(doc)) + Extra(doc)
  {
    if doc != [] {
      ViewOfSpaced(doc[1..]);
      ViewOfSpacedFirst(doc);
      if Flatten(doc[1..]) == [] {
        ViewOfSpacedEnd(doc, Spaced(doc[1..]));
      } else {
        ViewOfSpacedMiddle(doc, Spaced(doc[1..]));
      }
    }
  }

  lemma ViewOfLastBreak(doc: Doc)
    requires doc != [] && forall i :: 1 <= i < |doc| ==> doc[i] == []
    requires Flatten(doc) == doc[0]
    ensures View(doc[0] + SentenceBreak(doc)) == View(doc[0]) + Extra(doc)
  {
    var s := doc[0];
    if NeedsBreak(doc) {
      ViewOfTrailingBlank(s);
    } else {
      assert s + SentenceBreak(doc) == s;
      if s != [] && IsDelimToken(s[|s| - 1]) {
        DelimIsReal(s[|s| - 1]);
      }
    }
  }

  lemma {:induction false} FlattenedToNothing(doc: Doc)
    requires Flatten(doc) == []
    ensures forall i :: 0 <= i < |doc| ==> doc[i] == []
  {
    if doc != [] {
      FlattenedToNothing(doc[1..]);
    }
  }

  lemma ViewOfTrailingBlank(s: Sentence)
    requires s != []
    ensures View(s + [" "]) == View(s) + (if Closed(s) then [[]] else [])
  {
    ViewSkipsBlank([]);
    assert [" "] + [] == [" "];
    if Closed(s) {
      ViewAppend(s, [" "]);
    } else {
      var init, last := s[..|s| - 1], [s[|s| - 1]];
      BlankIsSpace();
      ViewPush(last, [" "]);
      ViewPush(last, []);
      assert last + [] == last;
      ViewCongruence(init, last + [" "], last, []);
      assert init + last == s && init + (last + [" "]) == s + [" "];
    }
  }

  /** Printing any document of tokens and parsing the text again shows the same real tokens, cut after every
      delimiter; only a blank at the very end can count as one more sentence. */
  lemma PrintThenParse(doc: Doc)
    requires WellFormedDoc(doc)
    ensures ViewOf(Print(doc)) == View(Flatten(doc)) + Extra(doc)
    ensures Real(Tokens(Print(doc))) == Real(Flatten(doc))
  {
    SpacedIsSeparated(doc);
    PrintIsConcat(doc);
    ViewOfConcat(Spaced(doc));
    ViewOfSpaced(doc);
    FlattenView(Tokens(Print(doc)));
    FlattenView(Flatten(doc));
    FlattenAppend(View(Flatten(doc)), Extra(doc));
    FlattenOne([]);
  }

  /** A document that parsing produced keeps every sentence, and so their number. */
  lemma PrintThenParseCut(doc: Doc)
    requires WellFormedDoc(doc) && IsCut(doc)
    ensures ViewOf(Print(doc)) == RealOfEach(doc)
    ensures |Parse(Print(doc))| == |doc|
  {
    PrintThenParse(doc);
    CutFlatten(doc);
    ViewIsRealOfCut(Flatten(doc));
    ViewIsRealOfCut(Tokens(Print(doc)));
    if doc != [] {
      assert OneSentence(doc[|doc| - 1]);
    }
  }
}
