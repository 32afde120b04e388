/** Small texts on which commits do not do what their sessions meant. */
module MergeExamples {
  import opened Options
  import opened Text
  import opened Document
  import opened PrintParse
  import opened Insert
  import opened WriteSession
  import opened Commit
  import opened Session
  import opened Merge

  // ----- texts of one-letter sentences -----

  /** The text whose sentences are single letters. */
  function Letters(cs: string): seq<Token> {
    if cs == "" then []
    else if |cs| == 1 then [[cs[0]], "."]
    else [[cs[0]], ".", " "] + Letters(cs[1..])
  }

  function Line(cs: string): string {
    if cs == "" then ""
    else if |cs| == 1 then [cs[0], '.']
    else [cs[0], '.', ' '] + Line(cs[1..])
  }

  lemma {:induction false} LineIsConcat(cs: string)
    ensures Concat(Letters(cs)) == Line(cs)
  {
    if |cs| == 1 {
      ConcatAppend([[cs[0]]], ["."]);
      ConcatSingle([cs[0]]);
      ConcatSingle(".");
      assert Letters(cs) == [[cs[0]]] + ["."];
    } else if |cs| > 1 {
      LineIsConcat(cs[1..]);
      var rest := Letters(cs[1..]);
      ConcatAppend([[cs[0]]] + ["."] + [" "], rest);
      ConcatAppend([[cs[0]]] + ["."], [" "]);
      ConcatAppend([[cs[0]]], ["."]);
      ConcatSingle([cs[0]]);
      ConcatSingle(".");
      ConcatSingle(" ");
      assert Letters(cs) == [[cs[0]]] + ["."] + [" "] + rest;
    }
  }

  function LetterSentences(cs: string): Doc {
    seq(|cs|, i requires 0 <= i < |cs| => [[cs[i]], "."])
  }

  lemma LetterKinds(c: char)
    requires KindOf(c) == Letter
    ensures WellFormed([c]) && IsWord([c]) && !IsSkip([c]) && !IsDelimToken([c]) && !IsSpaceToken([c])
    ensures WellFormed(".") && IsDelimToken(".") && !IsWord(".") && !IsSpaceToken(".") && RealOne(".") == ["."]
  {
    var t := [c];
    assert KindOf(t[0]) == Letter;
    assert KindOf("."[0]) == Delimiter;
  }

  lemma ViewOfLetter(c: char, rest: seq<Token>)
    requires KindOf(c) == Letter
    ensures View([[c], "."] + rest) == [[[c], "."]] + View(rest)
  {
    LetterKinds(c);
    var ts: seq<Token> := [[c], "."];
    ViewAppend(ts, rest);
    assert ts[1..] == ["."] && ts[1..][1..] == [];
    assert View(ts[1..]) == [["."]];
    var one: Sentence := [[c]];
    assert one + ["."] == ts;
    assert Push(one, [["."]]) == [one + ["."]] + [];
  }

  lemma CanonicalAppend(a: seq<Token>, b: seq<Token>)
    requires Canonical(a) && Canonical(b) && (a == [] || b == [] || !Fuse(a[|a| - 1], b[0]))
    ensures Canonical(a + b)
  {
    var c := a + b;
    forall i | 0 <= i < |c| - 1
      ensures !Fuse(c[i], c[i + 1])
    {
      if i >= |a| {
        assert c[i] == b[i - |a|] && c[i + 1] == b[i - |a| + 1];
      }
    }
  }

  lemma LastLetter(c: char)
    requires KindOf(c) == Letter
    ensures Canonical([[c], "."]) && View([[c], "."]) == [[[c], "."]]
  {
    LetterKinds(c);
    ViewOfLetter(c, []);
    assert [[c], "."] + [] == [[c], "."];
  }

  lemma BlankBefore(rest: seq<Token>)
    requires Canonical(rest) && rest != [] && IsWord(rest[0])
    ensures Canonical([" "] + rest) && View([" "] + rest) == View(rest)
  {
    BlankIsSpace();
    assert Canonical([" "]);
    assert KindOf(rest[0][0]) == Letter;
    CanonicalAppend([" "], rest);
    ViewSkipsBlank(rest);
  }

  lemma LetterBefore(c: char, more: seq<Token>)
    requires KindOf(c) == Letter && Canonical(more)
    ensures Canonical([[c], "."] + more) && View([[c], "."] + more) == [[[c], "."]] + View(more)
  {
    LetterKinds(c);
    LastLetter(c);
    CanonicalAppend([[c], "."], more);
    ViewOfLetter(c, more);
  }

  lemma LettersStep(c: char, rest: seq<Token>)
    requires KindOf(c) == Letter && Canonical(rest) && rest != [] && IsWord(rest[0])
    ensures Canonical([[c], ".", " "] + rest)
    ensures View([[c], ".", " "] + rest) == [[[c], "."]] + View(rest)
  {
    BlankBefore(rest);
    LetterBefore(c, [" "] + rest);
    assert [[c], ".", " "] + rest == [[c], "."] + ([" "] + rest);
  }

  lemma {:induction false} ViewOfLetters(cs: string)
    requires AllOf(cs, Letter)
    ensures Canonical(Letters(cs)) && View(Letters(cs)) == LetterSentences(cs)
    ensures cs != "" ==> Letters(cs) != [] && IsWord(Letters(cs)[0])
  {
    if cs != "" {
      LetterKinds(cs[0]);
      ViewOfLetters(cs[1..]);
      assert LetterSentences(cs) == [[[cs[0]], "."]] + LetterSentences(cs[1..]);
      if |cs| == 1 {
        LastLetter(cs[0]);
      } else {
        LettersStep(cs[0], Letters(cs[1..]));
      }
    }
  }

  lemma ViewOfLine(cs: string)
    requires AllOf(cs, Letter)
    ensures ViewOf(Line(cs)) == LetterSentences(cs)
  {
    ViewOfLetters(cs);
    LineIsConcat(cs);
    TokensOfConcat(Letters(cs));
  }

  /** The sentence of one letter. */
  function Short(c: char): Sentence {
    [[c], "."]
  }

  lemma TwoSentences(a: char, b: char)
    requires KindOf(a) == Letter && KindOf(b) == Letter
    ensures ViewOf(Line([a, b])) == [Short(a), Short(b)]
  {
    assert AllOf([a, b], Letter);
    ViewOfLine([a, b]);
    assert LetterSentences([a, b]) == [Short(a), Short(b)];
  }

  lemma InsertsLetter(c: char, n: int)
    requires KindOf(c) == Letter
    ensures Inserted(Write(n, [c])) == [[c]]
  {
    LetterKinds(c);
    assert Canonical([[c]]);
    ConcatSingle([c]);
    TokensOfConcat([[c]]);
    RealSingle([c]);
  }

  // ----- what writes leave -----

  lemma SentenceOf(front: seq<Token>, t: Token)
    requires DelimFree(front)
    ensures OneSentence(front + [t])
  {
    assert (front + [t])[..|front|] == front;
  }

  lemma OpenSentence(s: seq<Token>)
    requires DelimFree(s) && s != []
    ensures OneSentence(s)
  {
  }

  lemma RealSentence(s: Sentence)
    requires OneSentence(s) && Real(s) != []
    ensures OneSentence(Real(s))
  {
    var front, last := s[..|s| - 1], s[|s| - 1];
    assert s == front + [last];
    RealAppend(front, [last]);
    RealSingle(last);
    RealKeepsDelimFree(front);
    if RealOne(last) == [] {
      assert Real(front) + [] == Real(front);
      OpenSentence(Real(front));
    } else {
      SentenceOf(Real(front), last);
    }
  }

  /** A view without an empty sentence is cut where sentences end. */
  lemma ViewIsCut(text: string)
    requires ViewOf(text) != [] && ViewOf(text)[|ViewOf(text)| - 1] != []
    ensures IsCut(ViewOf(text))
  {
    var doc, v := Parse(text), ViewOf(text);
    ParseIsCut(text);
    forall i | 0 <= i < |v|
      ensures OneSentence(v[i]) && (i < |v| - 1 ==> Closed(v[i]))
    {
      assert OneSentence(doc[i]);
      if i < |v| - 1 {
        assert Closed(doc[i]);
        RealClosed(doc[i]);
      }
      RealSentence(doc[i]);
    }
  }

  lemma EndsOpen(v: Doc, k: nat)
    requires k < |v| && !Closed(Flatten(v[k..])) && AllClosed(v[..|v| - 1])
    ensures v[|v| - 1] != []
  {
    var front, last := v[k..|v| - 1], v[|v| - 1];
    assert v[k..] == front + [last];
    FlattenLast(front, last);
    if last == [] {
      assert Flatten(v[k..]) == Flatten(front);
      assert forall i :: 0 <= i < |front| ==> front[i] == v[..|v| - 1][k + i];
      FlattenClosed(front);
    }
  }

  lemma InnerClosed(text: string)
    requires ViewOf(text) != []
    ensures AllClosed(ViewOf(text)[..|ViewOf(text)| - 1])
  {
    forall i | 0 <= i < |ViewOf(text)| - 1
      ensures ViewOf(text)[i] != [] && Closed(ViewOf(text)[i])
    {
      ViewIsReal(text, i);
    }
  }

  lemma OpenViewIsCut(text: string, k: nat, s: seq<Token>)
    requires k < |ViewOf(text)| && Flatten(ViewOf(text)[k..]) == s && !Closed(s)
    ensures ViewOf(text)[k..] == Cut(s)
  {
    InnerClosed(text);
    EndsOpen(ViewOf(text), k);
    ViewIsCut(text);
    CutPrefix(ViewOf(text), k);
    CutFlatten(ViewOf(text)[k..]);
  }

  /** A write that leaves the last sentence open splits it where its delimiters are. */
  lemma WriteLeavesOpen(temp: string, k: nat, w: Write, u: string, s: seq<Token>)
    requires k + 1 == |ViewOf(temp)| && WriteText(temp, k, w) == Some(u)
    requires 1 <= w.word <= |ViewOf(temp)[k]| + 1
    requires s == SpliceAt(ViewOf(temp)[k], w.word - 1, Inserted(w)) && !Closed(s)
    ensures ViewOf(u) == ViewOf(temp)[..k] + Cut(s)
  {
    WriteIntoLast(temp, k, w, u);
    OpenViewIsCut(u, k, s);
    assert ViewOf(u) == ViewOf(u)[..k] + ViewOf(u)[k..];
  }

  /** A write in front of other sentences that ends where a sentence ends. */
  lemma WriteLeavesClosed(temp: string, k: nat, w: Write, u: string, s: seq<Token>)
    requires k + 1 < |ViewOf(temp)| && WriteText(temp, k, w) == Some(u)
    requires 1 <= w.word <= |ViewOf(temp)[k]| + 1
    requires s == SpliceAt(ViewOf(temp)[k], w.word - 1, Inserted(w)) && Closed(s)
    ensures ViewOf(u) == ViewOf(temp)[..k] + View(s) + ViewOf(temp)[k + 1..]
  {
    WriteBeforeOthers(temp, k, w, u);
    ThroughLastDelimIs(s, []);
    assert s + [] == s;
    assert Head(s) == s && Tail(s) == [];
    PushNothing(ViewOf(temp)[k + 1..]);
  }

  // ----- the wrong order -----

  lemma OneWrite(base: string, k: nat, w: Write) returns (u: string)
    requires k < |ViewOf(base)| && 1 <= w.word <= |ViewOf(base)[k]| + 1
    ensures !(base == "" && k == 1) && WriteText(base, k, w) == Some(u)
    ensures RunWrites(base, k, [w]) == Some(u)
  {
    WriteAcceptedIff(base, k, w);
    u := WriteText(base, k, w).value;
    assert [w][..0] == [];
    assert RunWrites(base, k, []) == Some(base);
  }

  lemma CutPair(a: Sentence, t: Token)
    requires OneSentence(a) && Closed(a) && !IsDelimToken(t)
    ensures Cut(a + [t]) == [a, [t]]
  {
    CutAppend(a, [t]);
    CutOne(a);
    CutOne([t]);
  }

  lemma ShortIsSentence(c: char)
    requires KindOf(c) == Letter
    ensures OneSentence(Short(c)) && Closed(Short(c)) && View(Short(c)) == [Short(c)]
  {
    LetterKinds(c);
    ViewOfLetter(c, []);
    assert Short(c) + [] == Short(c);
  }

  lemma SpliceBehind(own: Sentence, t: Token)
    requires !IsDelimToken(t)
    ensures SpliceAt(own, |own|, [t]) == own + [t] && !Closed(own + [t])
  {
  }

  lemma LastReplaced(v: Doc, own: Sentence, s: Sentence)
    requires v != [] && v[|v| - 1] == own
    ensures v[..|v| - 1] + [own, s] == v + [s]
  {
  }

  lemma TokenBehind(base: string, w: Write, own: Sentence, t: Token) returns (u: string)
    requires ViewOf(base) != [] && ViewOf(base)[|ViewOf(base)| - 1] == own && OneSentence(own) && Closed(own)
    requires w.word == |own| + 1 && Inserted(w) == [t] && !IsDelimToken(t)
    ensures RunWrites(base, |ViewOf(base)| - 1, [w]) == Some(u) && ViewOf(u) == ViewOf(base) + [[t]]
  {
    var k := |ViewOf(base)| - 1;
    u := OneWrite(base, k, w);
    SpliceBehind(own, t);
    WriteLeavesOpen(base, k, w, u, own + [t]);
    CutPair(own, t);
    LastReplaced(ViewOf(base), own, [t]);
  }

  /** A letter is written behind a last sentence of one letter. */
  lemma CopyWithTail(base: string, b: char, c: char) returns (u: string)
    requires KindOf(b) == KindOf(c) == Letter
    requires ViewOf(base) != [] && ViewOf(base)[|ViewOf(base)| - 1] == Short(b)
    ensures RunWrites(base, |ViewOf(base)| - 1, [Write(3, [c])]) == Some(u)
    ensures ViewOf(u) == ViewOf(base) + [[[c]]]
  {
    InsertsLetter(c, 3);
    ShortIsSentence(b);
    LetterKinds(c);
    u := TokenBehind(base, Write(3, [c]), Short(b), [c]);
  }

  lemma InsertsSentence(c: char)
    requires KindOf(c) == Letter
    ensures Inserted(Write(1, [c, '.'])) == Short(c)
  {
    var cs := [c];
    assert AllOf(cs, Letter);
    ViewOfLetters(cs);
    LineIsConcat(cs);
    TokensOfConcat(Letters(cs));
    FlattenView(Letters(cs));
    assert LetterSentences(cs) == [Short(c)];
    FlattenOne(Short(c));
  }

  /** In "a. b." the sentence "c." is written in front of the first one. */
  lemma CopyWithSentence(a: char, b: char, c: char) returns (u: string)
    requires KindOf(a) == KindOf(b) == KindOf(c) == Letter
    ensures RunWrites(Line([a, b]), 0, [Write(1, [c, '.'])]) == Some(u)
    ensures ViewOf(u) == [Short(c), Short(a), Short(b)]
  {
    TwoSentences(a, b);
    InsertsSentence(c);
    ShortIsSentence(c);
    ShortIsSentence(a);
    u := SentenceInFront(Line([a, b]), Write(1, [c, '.']), Short(c), Short(a), Short(b));
  }

  lemma SpliceInFront(a: Sentence, c: Sentence)
    requires Closed(a) && Closed(c)
    ensures SpliceAt(a, 0, c) == c + a && Closed(c + a)
  {
  }

  lemma FirstReplaced(a: Sentence, b: Sentence, c: Sentence)
    ensures [a, b][..0] + ([c] + [a]) + [a, b][1..] == [c, a, b]
  {
  }

  lemma SentenceInFront(base: string, w: Write, c: Sentence, a: Sentence, b: Sentence) returns (u: string)
    requires ViewOf(base) == [a, b] && w.word == 1 && Inserted(w) == c
    requires Closed(c) && View(c) == [c] && Closed(a) && View(a) == [a]
    ensures RunWrites(base, 0, [w]) == Some(u) && ViewOf(u) == [c, a, b]
  {
    u := OneWrite(base, 0, w);
    SpliceInFront(a, c);
    WriteLeavesClosed(base, 0, w, u, c + a);
    ViewAppend(c, a);
    FirstReplaced(a, b, c);
  }

  /** In "a. b." the letter x is written in front of the first word. */
  lemma CopyWithFront(a: char, b: char, x: char) returns (u: string)
    requires KindOf(a) == KindOf(b) == KindOf(x) == Letter
    ensures RunWrites(Line([a, b]), 0, [Write(1, [x])]) == Some(u)
    ensures ViewOf(u) == [[[x]] + Short(a), Short(b)]
  {
    var base, w := Line([a, b]), Write(1, [x]);
    TwoSentences(a, b);
    InsertsLetter(x, 1);
    u := OneWrite(base, 0, w);
    var s := [[x]] + Short(a);
    assert SpliceAt(Short(a), 0, [[x]]) == s;
    LedSentence(x, a, s);
    WriteLeavesClosed(base, 0, w, u, s);
    OneReplaced(Short(a), Short(b), s);
  }

  lemma OneReplaced(a: Sentence, b: Sentence, s: Sentence)
    ensures [a, b][..0] + [s] + [a, b][1..] == [s, b]
  {
  }

  lemma LedSentence(x: char, a: char, s: Sentence)
    requires KindOf(a) == KindOf(x) == Letter && s == [[x]] + Short(a)
    ensures OneSentence(s) && Closed(s) && View(s) == [s]
  {
    LetterKinds(a);
    LetterKinds(x);
    CutOne(s);
    ViewIsRealOfCut(s);
    assert Real(Short(a)) == Short(a) by {
      RealAppend([[a]], ["."]);
      RealSingle([a]);
      RealSingle(".");
    }
    RealAppend([[x]], Short(a));
    RealSingle([x]);
  }

  lemma FirstOfTwo(base: string, first: Queued, a: Sentence, b: Sentence, c: Sentence)
    requires ViewOf(base) == [a, b]
    requires first.index == 1 && first.original == 2 && ViewOf(first.copy) == [a, b, c]
    ensures ViewOf(MergeOne(base, first)) == [a, b, c]
  {
    FirstViews(a, b, c);
    CommitLands(base, first, 1);
  }

  lemma FirstViews(a: Sentence, b: Sentence, c: Sentence)
    ensures OwnSentences([a, b, c], 1, 2) == [b, c]
    ensures MergeView([a, b], [b, c], 1) == [a, b, c]
  {
  }

  lemma SecondOfTwo(main: string, second: Queued, a: Sentence, b: Sentence, c: Sentence, x: Sentence)
    requires ViewOf(main) == [a, b, c]
    requires second.index == 0 && second.original == 2 && ViewOf(second.copy) == [x, b]
    ensures ViewOf(MergeOne(main, second)) == [a, x, c]
  {
    SecondViews(a, b, c, x);
    CommitLands(main, second, 1);
  }

  lemma SecondViews(a: Sentence, b: Sentence, c: Sentence, x: Sentence)
    ensures OwnSentences([x, b], 0, 2) == [x]
    ensures MergeView([a, b, c], [x], 1) == [a, x, c]
  {
  }

  /** "a. b.": one session writes c behind the last sentence and commits first, another one writes x in front of the
      first sentence and commits second. The edit of sentence 0 lands on sentence 1: b is lost, a is there twice. */
  lemma WrongOrderOnText(a: char, b: char, c: char, x: char)
    requires KindOf(a) == KindOf(b) == KindOf(c) == KindOf(x) == Letter
    ensures var base := Line([a, b]);
      var first, second := RunWrites(base, 1, [Write(3, [c])]), RunWrites(base, 0, [Write(1, [x])]);
      && first.Some? && second.Some?
      && ViewOf(MergeOne(MergeOne(base, Queued(1, 2, first.value)), Queued(0, 2, second.value)))
         == [Short(a), [[x]] + Short(a), [[c]]]
  {
    var base := Line([a, b]);
    TwoSentences(a, b);
    var first := CopyWithTail(base, b, c);
    var second := CopyWithFront(a, b, x);
    FirstOfTwo(base, Queued(1, 2, first), Short(a), Short(b), [[c]]);
    SecondOfTwo(MergeOne(base, Queued(1, 2, first)), Queued(0, 2, second), Short(a), Short(b), [[c]], [[x]] + Short(a));
  }

  // ----- text behind a delimiter -----

  /** "a. b.": the letter c, written behind the delimiter of the first sentence, stands in front of b in the copy and is
      not in the file after the commit. */
  lemma SpilledOnText(a: char, b: char, c: char)
    requires KindOf(a) == KindOf(b) == KindOf(c) == Letter
    ensures var base, w := Line([a, b]), Write(3, [c]);
      var temp := RunWrites(base, 0, [w]);
      && temp.Some? && !AllInside(base, 0, [w])
      && ViewOf(temp.value) == [Short(a), [[c]] + Short(b)]
      && ViewOf(MergeOne(base, Queued(0, 2, temp.value))) == ViewOf(base) == [Short(a), Short(b)]
  {
    var base, w := Line([a, b]), Write(3, [c]);
    TwoSentences(a, b);
    var u := CopyWithSpill(a, b, c);
    NotInside(base, c);
    var q := Queued(0, 2, u);
    SpillViews(Short(a), Short(b), [[c]]);
    CommitLands(base, q, 0);
  }

  lemma SpillViews(a: Sentence, b: Sentence, c: Sentence)
    ensures OwnSentences([a, c + b], 0, 2) == [a]
    ensures MergeView([a, b], [a], 0) == [a, b]
  {
  }

  lemma CopyWithSpill(a: char, b: char, c: char) returns (u: string)
    requires KindOf(a) == KindOf(b) == KindOf(c) == Letter
    ensures RunWrites(Line([a, b]), 0, [Write(3, [c])]) == Some(u)
    ensures ViewOf(u) == [Short(a), [[c]] + Short(b)]
  {
    var base, w := Line([a, b]), Write(3, [c]);
    TwoSentences(a, b);
    InsertsLetter(c, 3);
    ShortIsSentence(a);
    u := OneWrite(base, 0, w);
    assert SpliceAt(Short(a), 2, [[c]]) == Short(a) + [[c]];
    WriteBeforeOthers(base, 0, w, u);
    SpillOf(a, c);
    PushedBehind(Short(a), Short(b), [[c]]);
  }

  lemma PushedBehind(a: Sentence, b: Sentence, c: Sentence)
    ensures [a, b][..0] + [a] + Push(c, [a, b][1..]) == [a, c + b]
  {
  }

  lemma SpillOf(a: char, c: char)
    requires KindOf(a) == KindOf(c) == Letter
    ensures Head(Short(a) + [[c]]) == Short(a) && Tail(Short(a) + [[c]]) == [[c]]
  {
    ShortIsSentence(a);
    LetterKinds(c);
    ThroughLastDelimIs(Short(a), [[c]]);
  }

  lemma NotInside(base: string, c: char)
    requires KindOf(c) == Letter && |ViewOf(base)| == 2 && |ViewOf(base)[0]| == 2
    ensures !(base == "" && 0 == 1) && !AllInside(base, 0, [Write(3, [c])])
  {
    InsertsLetter(c, 3);
    LetterKinds(c);
    ThroughLastDelimIs([], [[c]]);
    var none: seq<Token> := [];
    assert none + [[c]] == [[c]];
    assert Tail([[c]]) == [[c]];
    assert [Write(3, [c])][..0] == [];
    assert !Inside(base, 0, 2, Write(3, [c]));
    assert RunWrites(base, 0, []) == Some(base);
  }
}
