/** Small texts spelled out: what a write and a commit make of their lines, to the character. */
module TextExamples {
  import opened Options
  import opened Text
  import opened Document
  import opened PrintParse
  import opened NormalForm
  import opened FullText
  import opened Insert
  import opened WriteSession
  import opened Commit

  /** Every character is a letter but these. */
  lemma Characters(c: char)
    ensures KindOf(c) == Blank <==> c == ' ' || c == '\t' || c == '\r'
    ensures KindOf(c) == Newline <==> c == '\n'
    ensures KindOf(c) == Delimiter <==> c == '.' || c == '!' || c == '?'
  {
  }

  predicate ShortWord(t: Token) {
    IsWord(t) && |t| <= MAX_TOKEN
  }

  /** What the tokens of the examples are. */
  lemma WordFacts(t: Token)
    requires ShortWord(t)
    ensures WellFormed(t) && !IsSkip(t) && !IsDelimToken(t) && !IsSpaceToken(t) && RealOne(t) == [t]
  {
    assert KindOf(t[0]) == Letter;
  }

  lemma MarkFacts()
    ensures WellFormed(".") && !IsSkip(".") && IsDelimToken(".") && !IsSpaceToken(".") && !IsWord(".")
    ensures WellFormed("\n") && IsSkip("\n") && !IsDelimToken("\n") && !IsSpaceToken("\n") && !IsWord("\n")
    ensures WellFormed(" ") && IsSkip(" ") && !IsDelimToken(" ") && IsSpaceToken(" ") && !IsWord(" ")
    ensures RealOne(".") == ["."] && RealOne("\n") == [] && RealOne(" ") == []
  {
    assert KindOf("."[0]) == Delimiter && KindOf("\n"[0]) == Newline && KindOf(" "[0]) == Blank;
  }

  lemma Parsed(doc: Doc, ts: seq<Token>, text: string)
    requires Canonical(ts) && Concat(ts) == text && IsCut(doc) && Flatten(doc) == ts
    ensures Parse(text) == doc
  {
    TokensOfConcat(ts);
    CutFlatten(doc);
  }

  lemma ConcatFour(a: Token, b: Token, c: Token, d: Token)
    ensures Concat([a, b, c, d]) == a + b + c + d
  {
    ConcatAppend([a, b, c], [d]);
    ConcatAppend([a, b], [c]);
    ConcatAppend([a], [b]);
    ConcatSingle(a);
    ConcatSingle(b);
    ConcatSingle(c);
    ConcatSingle(d);
    assert [a, b, c, d] == [a, b, c] + [d] && [a, b, c] == [a, b] + [c] && [a, b] == [a] + [b];
  }

  lemma TwoLines(a: Token, b: Token)
    requires ShortWord(a) && ShortWord(b)
    ensures Parse(a + "\n" + b + ".") == [[a, "\n", b, "."]]
  {
    WordFacts(a);
    WordFacts(b);
    MarkFacts();
    var ts := [a, "\n", b, "."];
    ConcatFour(a, "\n", b, ".");
    assert Flatten([ts]) == ts by { FlattenOne(ts); }
    assert OneSentence(ts);
    Parsed([ts], ts, a + "\n" + b + ".");
  }

  lemma BehindFirst(a: Token, b: Token)
    requires ShortWord(a) && ShortWord(b)
    ensures |Real([a, "\n", b, "."])| == 3 && Position([a, "\n", b, "."], 2) == 1
  {
    WordFacts(a);
    WordFacts(b);
    MarkFacts();
    var s := [a, "\n", b, "."];
    assert s[1..] == ["\n", b, "."] && s[1..][1..] == [b, "."] && s[1..][1..][1..] == ["."];
    assert Real(["."]) == ["."] by { RealSingle("."); }
    assert Real([b, "."]) == [b, "."];
    assert Real(["\n", b, "."]) == [b, "."];
    assert Real(s) == [a] + Real(s[1..]);
    assert Seek(s[1..], 0) == 0;
    assert Seek(s, 1) == 1;
  }

  lemma WordInLine(a: Token, b: Token, x: Token)
    requires ShortWord(a) && ShortWord(b) && ShortWord(x)
    ensures InsertAt([[a, "\n", b, "."]], 0, 1, [x]) == [[a, x, "\n", b, "."]]
    ensures Print([[a, x, "\n", b, "."]]) == a + " " + x + "\n" + b + "."
  {
    WordFacts(a);
    WordFacts(b);
    WordFacts(x);
    MarkFacts();
    ThroughLastDelimIs([], [x]);
    assert [] + [x] == [x];
    assert [x][1..] == [] && DelimCount([x]) == 0;
    var d, s := [[a, x, "\n", b, "."]], [a, x, "\n", b, "."];
    var old0 := [a, "\n", b, "."];
    assert old0[..1] + [x] + old0[1..] == s;
    assert Replacement(old0, 1, [x]) == [s] + Empties(0) == d;
    assert InsertAt([old0], 0, 1, [x]) == [] + d + [] == d;
    PrintSentencePieces([a], [x, "\n", b, "."]);
    PrintSentencePieces([x], ["\n", b, "."]);
    PrintSentencePieces(["\n"], [b, "."]);
    PrintSentencePieces([b], ["."]);
    assert s == [a] + [x, "\n", b, "."] && s[1..] == [x] + ["\n", b, "."] && s[2..] == ["\n"] + [b, "."];
    assert PrintSentence(s) == a + " " + x + "\n" + b + ".";
    assert d[1..] == [];
  }

  lemma WordTokens(x: Token)
    requires ShortWord(x)
    ensures Tokens(x) == [x]
  {
    WordFacts(x);
    TokensOfConcat([x]);
    ConcatSingle(x);
  }

  /** A word goes right behind the word in front of it, and so in front of a line break that follows. */
  lemma WriteKeepsLines(a: Token, b: Token, x: Token)
    requires ShortWord(a) && ShortWord(b) && ShortWord(x)
    ensures WriteText(a + "\n" + b + ".", 0, Write(2, x)) == Some(a + " " + x + "\n" + b + ".")
  {
    TwoLines(a, b);
    WordTokens(x);
    BehindFirst(a, b);
    WordInLine(a, b, x);
  }

  function ThreeSentences(a: Token, b: Token, last: Sentence): Doc {
    [[a, "."], ["\n", b, "."], last]
  }

  lemma FlattenThreeSentences(a: Token, b: Token, last: Sentence)
    ensures Flatten(ThreeSentences(a, b, last)) == [a, ".", "\n", b, "."] + last
  {
    var d := ThreeSentences(a, b, last);
    FlattenOne(last);
    assert d[1..] == [["\n", b, "."], last] && d[1..][1..] == [last];
    assert Flatten(d[1..]) == ["\n", b, "."] + last;
  }

  /** Texts of three sentences, the second one on a line of its own. */
  lemma ThreeParsed(a: Token, b: Token, last: Sentence)
    requires ShortWord(a) && ShortWord(b) && Canonical(last) && OneSentence(last) && last[0] == " "
    ensures var ts := [a, ".", "\n", b, "."] + last; Canonical(ts) && Parse(Concat(ts)) == ThreeSentences(a, b, last)
  {
    WordFacts(a);
    WordFacts(b);
    MarkFacts();
    var d, front := ThreeSentences(a, b, last), [a, ".", "\n", b, "."];
    var ts := front + last;
    assert forall i :: |front| <= i < |ts| ==> ts[i] == last[i - |front|];
    FlattenThreeSentences(a, b, last);
    assert OneSentence([a, "."]) && OneSentence(["\n", b, "."]);
    Parsed(d, ts, Concat(ts));
  }

  lemma LastSentences(c: Token, x: Token)
    requires ShortWord(c) && ShortWord(x)
    ensures Canonical([" ", c, "."]) && OneSentence([" ", c, "."])
    ensures Canonical([" ", x, " ", c, "."]) && OneSentence([" ", x, " ", c, "."])
  {
    WordFacts(c);
    WordFacts(x);
    MarkFacts();
  }

  /** A commit of the third sentence leaves the line break in front of the second one where it is. */
  lemma MergeKeepsLines(a: Token, b: Token, c: Token, x: Token)
    requires ShortWord(a) && ShortWord(b) && ShortWord(c) && ShortWord(x)
    ensures var main := Concat([a, ".", "\n", b, "."] + [" ", c, "."]);
      var temp := Concat([a, ".", "\n", b, "."] + [" ", x, " ", c, "."]);
      MergeText(main, temp, 2, 3) == Some(temp)
  {
    LastSentences(c, x);
    var m, t := ThreeSentences(a, b, [" ", c, "."]), ThreeSentences(a, b, [" ", x, " ", c, "."]);
    var ts := [a, ".", "\n", b, "."] + [" ", x, " ", c, "."];
    ThreeParsed(a, b, [" ", c, "."]);
    ThreeParsed(a, b, [" ", x, " ", c, "."]);
    assert MergeDoc(m, t, 2, 3) == t;
    TokensOfConcat(ts);
    RewriteIsWeave(Concat(ts));
    Woven(a, b, c, x);
  }

  lemma Woven(a: Token, b: Token, c: Token, x: Token)
    requires ShortWord(a) && ShortWord(b) && ShortWord(c) && ShortWord(x)
    ensures var ts := [a, ".", "\n", b, "."] + [" ", x, " ", c, "."]; Weave(ts) == ts
  {
    WordFacts(a);
    WordFacts(b);
    WordFacts(c);
    WordFacts(x);
    MarkFacts();
    assert Weave([c, "."]) == [c, "."] by { assert [c, "."][1..] == ["."]; }
    WeaveCons(" ", [c, "."]);
    assert [" "] + [c, "."] == [" ", c, "."];
    WeaveCons(x, [" ", c, "."]);
    assert [x] + [" ", c, "."] == [x, " ", c, "."];
    WeaveCons(" ", [x, " ", c, "."]);
    assert [" "] + [x, " ", c, "."] == [" ", x, " ", c, "."];
    WeaveCons(".", [" ", x, " ", c, "."]);
    var r := ["."] + [" ", x, " ", c, "."];
    WeaveCons(b, r);
    WeaveCons("\n", [b] + r);
    WeaveCons(".", ["\n"] + ([b] + r));
    WeaveCons(a, ["."] + (["\n"] + ([b] + r)));
    assert [a, ".", "\n", b, "."] + [" ", x, " ", c, "."] == [a] + (["."] + (["\n"] + ([b] + r)));
  }
}
