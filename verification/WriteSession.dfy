/** One write session: a copy of the file is edited at one sentence index by any number of writes. */
module WriteSession {
  import opened Options
  import opened Text
  import opened Document
  import opened PrintParse
  import opened Insert

  /** The content of one WRITE message: a 1-based word index and a text. */
  datatype Write = Write(word: int, content: string)

  /** The document that a write edits; an empty file counts as one empty sentence. */
  function Editable(text: string): Doc {
    if Parse(text) == [] then [[]] else Parse(text)
  }

  /** `write_file_ss` on the session's temporary copy: parse, insert, print. None is the error return.
      Index 1 of an empty copy cannot occur in a session. */
  function WriteText(temp: string, k: int, w: Write): Option<string>
    requires !(temp == "" && k == 1)
  {
    match InsertWord(Editable(temp), k, w.word, w.content)
    case None => None
    case Some(doc) => Some(Print(doc))
  }

  // ----- what parsed documents are made of -----

  lemma {:induction false} WellFormedCut(ts: seq<Token>)
    requires AllWellFormed(ts)
    ensures WellFormedDoc(Cut(ts))
  {
    if ts != [] {
      assert AllWellFormed(ts[1..]);
      assert WellFormed(ts[0]);
      WellFormedCut(ts[1..]);
    }
  }

  lemma ParseIsCut(text: string)
    ensures IsCut(Parse(text)) && WellFormedDoc(Parse(text))
    ensures Flatten(Parse(text)) == Tokens(text)
    ensures RealOfEach(Parse(text)) == ViewOf(text)
    ensures Parse(text) == [] <==> text == ""
  {
    CutIsCut(Tokens(text));
    WellFormedCut(Tokens(text));
    FlattenCut(Tokens(text));
    ViewIsRealOfCut(Tokens(text));
  }

  lemma WellFormedReplacement(s: Sentence, a: nat, parts: seq<Token>)
    requires a <= |s| && AllWellFormed(s) && AllWellFormed(parts)
    ensures WellFormedDoc(Replacement(s, a, parts))
  {
    var n, r := ThroughLastDelim(parts), Replacement(s, a, parts);
    assert AllWellFormed(s[..a] + parts[..n]) && AllWellFormed(parts[n..] + s[a..]);
    assert AllWellFormed(s[..a] + parts + s[a..]);
    forall i | 0 <= i < |r|
      ensures AllWellFormed(r[i])
    {
      assert i >= 2 || (i == 1 && !Splits(parts)) ==> r[i] == [];
    }
  }

  lemma WellFormedInsert(doc: Doc, k: nat, a: nat, parts: seq<Token>)
    requires k < |doc| && a <= |doc[k]| && WellFormedDoc(doc) && AllWellFormed(parts)
    ensures WellFormedDoc(InsertAt(doc, k, a, parts))
  {
    assert AllWellFormed(doc[k]);
    WellFormedReplacement(doc[k], a, parts);
  }

  lemma NoPartsNoChange(doc: Doc, k: nat, a: nat)
    requires k < |doc| && a <= |doc[k]|
    ensures InsertAt(doc, k, a, []) == doc
  {
    assert doc[k][..a] + [] + doc[k][a..] == doc[k];
    assert Replacement(doc[k], a, []) == [doc[k]];
  }

  // ----- closing delimiters and real tokens -----

  /** `ThroughLastDelim` is the only way to split a list into a closed part and one without delimiters. */
  lemma {:induction false} ThroughLastDelimIs(a: seq<Token>, b: seq<Token>)
    requires Closed(a) && DelimFree(b)
    ensures ThroughLastDelim(a + b) == |a|
  {
    if b == [] {
      assert a + b == a;
    } else {
      var c := a + b;
      assert c[|c| - 1] == b[|b| - 1];
      assert c[..|c| - 1] == a + b[..|b| - 1];
      ThroughLastDelimIs(a, b[..|b| - 1]);
    }
  }

  lemma RealClosed(a: seq<Token>)
    requires Closed(a)
    ensures Closed(Real(a))
    ensures a != [] ==> Real(a) != []
  {
    if a != [] {
      var last := a[|a| - 1];
      assert a == a[..|a| - 1] + [last];
      RealAppend(a[..|a| - 1], [last]);
      RealSingle(last);
      DelimIsReal(last);
    }
  }

  /** For a closed list the view depends on the real tokens alone. */
  lemma {:induction false} ViewOfReal(a: seq<Token>)
    requires Closed(a)
    ensures View(Real(a)) == View(a)
  {
    if a != [] {
      assert Closed(a[1..]);
      ViewOfReal(a[1..]);
      if IsSkip(a[0]) {
        if IsDelimToken(a[0]) {
          DelimIsReal(a[0]);
        }
        assert Real(a) == Real(a[1..]);
        ViewEmpty(a[1..]);
        PushNothing(View(a[1..]));
      } else {
        assert Real(a)[0] == a[0] && Real(a)[1..] == Real(a[1..]);
      }
    }
  }

  lemma PushNothing(doc: Doc)
    ensures doc != [] ==> Push([], doc) == doc
  {
    var none: Sentence := [];
    assert doc != [] ==> none + doc[0] == doc[0];
  }

  /** The real tokens through the last delimiter are those of the tokens through the last delimiter. */
  lemma RealThroughLastDelim(x: seq<Token>)
    ensures var m := ThroughLastDelim(x); var n := ThroughLastDelim(Real(x));
      Real(x[..m]) == Real(x)[..n] && Real(x[m..]) == Real(x)[n..]
  {
    var m := ThroughLastDelim(x);
    assert x == x[..m] + x[m..];
    RealAppend(x[..m], x[m..]);
    assert Closed(x[..m]);
    RealClosed(x[..m]);
    RealKeepsDelimFree(x[m..]);
    ThroughLastDelimIs(Real(x[..m]), Real(x[m..]));
  }

  // ----- one write, seen through the view -----

  lemma CutPrefix(doc: Doc, k: nat)
    requires IsCut(doc) && k <= |doc|
    ensures IsCut(doc[k..])
    ensures k < |doc| ==> IsCut(doc[..k]) && AllClosed(doc[..k])
  {
    assert forall i :: 0 <= i < |doc| - k ==> doc[k..][i] == doc[k + i];
    assert forall i :: 0 <= i < k ==> OneSentence(doc[i]);
  }

  lemma ViewOfCutDoc(doc: Doc)
    requires IsCut(doc)
    ensures View(Flatten(doc)) == RealOfEach(doc)
  {
    CutFlatten(doc);
    ViewIsRealOfCut(Flatten(doc));
  }

  /** Sentences before the edited one keep their place and their words. */
  lemma ViewOfInsert(doc: Doc, k: nat, a: nat, parts: seq<Token>)
    requires IsCut(doc) && k < |doc| && a <= |doc[k]|
    ensures View(Flatten(InsertAt(doc, k, a, parts)))
         == RealOfEach(doc)[..k] + View(doc[k][..a] + parts + doc[k][a..] + Flatten(doc[k + 1..]))
  {
    var f, x, g := Flatten(doc[..k]), doc[k][..a] + parts + doc[k][a..], Flatten(doc[k + 1..]);
    assert Flatten(InsertAt(doc, k, a, parts)) == f + (x + g) by {
      FlattenThree(doc[..k], Replacement(doc[k], a, parts), doc[k + 1..]);
      FlattenReplacement(doc[k], a, parts);
      Assoc(f, x, g);
    }
    CutPrefix(doc, k);
    FlattenClosed(doc[..k]);
    ViewAppend(f, x + g);
    ViewOfCutDoc(doc[..k]);
    assert RealOfEach(doc[..k]) == RealOfEach(doc)[..k];
  }

  /** Text in front of other sentences: what is closed stays apart, the rest joins the next sentence. */
  lemma ViewInFront(x: seq<Token>, g: seq<Token>)
    requires g != []
    ensures var n := ThroughLastDelim(Real(x));
      View(x + g) == View(Real(x)[..n]) + Push(Real(x)[n..], View(g))
  {
    var m := ThroughLastDelim(x);
    var c, d := x[..m], x[m..];
    assert x + g == c + (d + g);
    assert Closed(c);
    ViewAppend(c, d + g);
    RealThroughLastDelim(x);
    ViewOfReal(c);
    if d == [] {
      assert d + g == g;
      ViewEmpty(g);
      PushNothing(View(g));
    } else {
      ViewPush(d, g);
    }
  }

  lemma RealOfSplice(s: Sentence, w: int, parts: seq<Token>)
    requires 1 <= w <= |Real(s)| + 1
    ensures var a := Position(s, w);
      Real(s[..a] + parts + s[a..]) == SpliceAt(Real(s), w - 1, Real(parts))
  {
    var a := Position(s, w);
    PositionCounts(s, w);
    RealAppend(s[..a] + parts, s[a..]);
    RealAppend(s[..a], parts);
  }

  lemma InsertWordIsInsertAt(doc: Doc, k: nat, w: int, content: string)
    requires k <= |doc| && 1 <= w <= |Real(Grown(doc, k)[k])| + 1
    ensures InsertWord(doc, k, w, content)
         == Some(InsertAt(Grown(doc, k), k, Position(Grown(doc, k)[k], w), Tokens(content)))
  {
    if content == "" {
      NoPartsNoChange(Grown(doc, k), k, Position(Grown(doc, k)[k], w));
    }
  }

  /** The real tokens that a write puts at the end of nothing: those behind the last delimiter of `ts`. */
  function Tail(ts: seq<Token>): seq<Token> {
    ts[ThroughLastDelim(ts)..]
  }

  function Head(ts: seq<Token>): seq<Token> {
    ts[..ThroughLastDelim(ts)]
  }

  function Inserted(w: Write): seq<Token> {
    Real(Tokens(w.content))
  }

  lemma PrintOfInsert(doc: Doc, k: nat, a: nat, parts: seq<Token>)
    requires IsCut(doc) && WellFormedDoc(doc) && AllWellFormed(parts) && k < |doc| && a <= |doc[k]|
    ensures var d := InsertAt(doc, k, a, parts);
      ViewOf(Print(d))
      == RealOfEach(doc)[..k] + View(doc[k][..a] + parts + doc[k][a..] + Flatten(doc[k + 1..])) + Extra(d)
  {
    WellFormedInsert(doc, k, a, parts);
    PrintThenParse(InsertAt(doc, k, a, parts));
    ViewOfInsert(doc, k, a, parts);
  }

  lemma PrintedInsert(doc: Doc, k: nat, a: nat, parts: seq<Token>)
    requires IsCut(doc) && WellFormedDoc(doc) && AllWellFormed(parts) && k + 1 < |doc| && a <= |doc[k]|
    ensures ViewOf(Print(InsertAt(doc, k, a, parts)))
         == RealOfEach(doc)[..k] + View(doc[k][..a] + parts + doc[k][a..] + Flatten(doc[k + 1..]))
  {
    PrintOfInsert(doc, k, a, parts);
    InsertKeepsLast(doc, k, a, parts);
  }

  lemma EditedInFront(doc: Doc, k: nat, w: int, parts: seq<Token>, s: seq<Token>)
    requires IsCut(doc) && k + 1 < |doc| && 1 <= w <= |Real(doc[k])| + 1
    requires s == SpliceAt(Real(doc[k]), w - 1, Real(parts))
    ensures var a := Position(doc[k], w);
      View(doc[k][..a] + parts + doc[k][a..] + Flatten(doc[k + 1..]))
      == View(Head(s)) + Push(Tail(s), RealOfEach(doc)[k + 1..])
  {
    var a := Position(doc[k], w);
    RealOfSplice(doc[k], w, parts);
    RestOfCut(doc, k + 1);
    ViewInFront(doc[k][..a] + parts + doc[k][a..], Flatten(doc[k + 1..]));
  }

  lemma InsertBeforeOthers(doc: Doc, k: nat, w: int, parts: seq<Token>, s: seq<Token>)
    requires IsCut(doc) && WellFormedDoc(doc) && AllWellFormed(parts)
    requires k + 1 < |doc| && 1 <= w <= |Real(doc[k])| + 1
    requires s == SpliceAt(Real(doc[k]), w - 1, Real(parts))
    ensures ViewOf(Print(InsertAt(doc, k, Position(doc[k], w), parts)))
         == RealOfEach(doc)[..k] + View(Head(s)) + Push(Tail(s), RealOfEach(doc)[k + 1..])
  {
    PrintedInsert(doc, k, Position(doc[k], w), parts);
    EditedInFront(doc, k, w, parts, s);
    Assoc(RealOfEach(doc)[..k], View(Head(s)), Push(Tail(s), RealOfEach(doc)[k + 1..]));
  }

  lemma InsertKeepsLast(doc: Doc, k: nat, a: nat, parts: seq<Token>)
    requires IsCut(doc) && k + 1 < |doc| && a <= |doc[k]|
    ensures Extra(InsertAt(doc, k, a, parts)) == []
  {
    var d := InsertAt(doc, k, a, parts);
    assert d[|d| - 1] == doc[|doc| - 1] && OneSentence(doc[|doc| - 1]);
  }

  lemma RestOfCut(doc: Doc, k: nat)
    requires IsCut(doc) && k < |doc|
    ensures View(Flatten(doc[k..])) == RealOfEach(doc)[k..] && Flatten(doc[k..]) != []
  {
    CutPrefix(doc, k);
    ViewOfCutDoc(doc[k..]);
    ViewEmpty(Flatten(doc[k..]));
    assert RealOfEach(doc[k..]) == RealOfEach(doc)[k..];
  }

  /** What an accepted write does, in terms of the parsed copy and the parts of the text. */
  lemma WriteTextIs(temp: string, k: nat, w: Write, u: string) returns (doc: Doc, parts: seq<Token>)
    requires !(temp == "" && k == 1) && WriteText(temp, k, w) == Some(u)
    requires k < |Editable(temp)|
    ensures doc == Editable(temp) && WellFormedDoc(doc)
    ensures temp != "" ==> IsCut(doc) && RealOfEach(doc) == ViewOf(temp)
    ensures AllWellFormed(parts) && Real(parts) == Inserted(w)
    ensures 1 <= w.word <= |Real(doc[k])| + 1
    ensures u == Print(InsertAt(doc, k, Position(doc[k], w.word), parts))
  {
    doc, parts := Editable(temp), Tokens(w.content);
    ParseIsCut(temp);
    InsertWordIsInsertAt(doc, k, w.word, w.content);
  }

  /** The same for a sentence that the copy has. */
  lemma WriteIntoIs(temp: string, k: nat, w: Write, u: string) returns (doc: Doc, parts: seq<Token>, v: Doc)
    requires k < |ViewOf(temp)| && WriteText(temp, k, w) == Some(u)
    ensures v == ViewOf(temp)
    ensures IsCut(doc) && WellFormedDoc(doc) && RealOfEach(doc) == v
    ensures AllWellFormed(parts) && Real(parts) == Inserted(w)
    ensures k < |doc| == |v| && 1 <= w.word <= |v[k]| + 1
    ensures u == Print(InsertAt(doc, k, Position(doc[k], w.word), parts))
  {
    ParseIsCut(temp);
    v := ViewOf(temp);
    doc, parts := WriteTextIs(temp, k, w, u);
    assert v[k] == Real(doc[k]);
  }

  lemma PrintedBeforeOthers(doc: Doc, k: nat, w: int, parts: seq<Token>, s: seq<Token>, v: Doc, u: string)
    requires IsCut(doc) && WellFormedDoc(doc) && AllWellFormed(parts)
    requires k + 1 < |doc| && v == RealOfEach(doc) && 1 <= w <= |v[k]| + 1
    requires s == SpliceAt(v[k], w - 1, Real(parts))
    requires u == Print(InsertAt(doc, k, Position(doc[k], w), parts))
    ensures ViewOf(u) == v[..k] + View(Head(s)) + Push(Tail(s), v[k + 1..])
  {
    InsertBeforeOthers(doc, k, w, parts, s);
  }

  /** A write into a sentence that others follow: the text behind the last delimiter of the edited sentence joins the
      next sentence, everything else stays in the sentences that replace it. */
  lemma WriteBeforeOthers(temp: string, k: nat, w: Write, u: string)
    requires k + 1 < |ViewOf(temp)| && WriteText(temp, k, w) == Some(u)
    ensures 1 <= w.word <= |ViewOf(temp)[k]| + 1
    ensures var v := ViewOf(temp); var s := SpliceAt(v[k], w.word - 1, Inserted(w));
      ViewOf(u) == v[..k] + View(Head(s)) + Push(Tail(s), v[k + 1..])
  {
    var doc, parts, v := WriteIntoIs(temp, k, w, u);
    PrintedBeforeOthers(doc, k, w.word, parts, SpliceAt(v[k], w.word - 1, Inserted(w)), v, u);
  }

  lemma FlattenViewExtra(x: seq<Token>, d: Doc)
    ensures Flatten(View(x) + Extra(d)) == Real(x)
  {
    FlattenView(x);
    FlattenAppend(View(x), Extra(d));
    FlattenOne([]);
  }

  lemma OpenEnd(front: Doc, x: seq<Token>, d: Doc, v: Doc)
    requires v == front + View(x) + Extra(d) && x != []
    ensures |v| > |front| && v[..|front|] == front && Flatten(v[|front|..]) == Real(x)
  {
    ViewEmpty(x);
    FlattenViewExtra(x, d);
    assert v == front + (View(x) + Extra(d));
  }

  lemma InsertIntoLast(doc: Doc, k: nat, w: int, parts: seq<Token>, s: seq<Token>, v: Doc)
    requires IsCut(doc) && WellFormedDoc(doc) && AllWellFormed(parts)
    requires k + 1 == |doc| && 1 <= w <= |Real(doc[k])| + 1
    requires s == SpliceAt(Real(doc[k]), w - 1, Real(parts))
    requires v == ViewOf(Print(InsertAt(doc, k, Position(doc[k], w), parts)))
    ensures |v| >= |doc| && v[..k] == RealOfEach(doc)[..k] && Flatten(v[k..]) == s
  {
    var a := Position(doc[k], w);
    var x, front := doc[k][..a] + parts + doc[k][a..], RealOfEach(doc)[..k];
    var d := InsertAt(doc, k, a, parts);
    assert v == front + View(x) + Extra(d) by {
      PrintOfInsert(doc, k, a, parts);
      assert doc[k + 1..] == [];
      assert x + [] == x;
    }
    assert s == Real(x) by {
      RealOfSplice(doc[k], w, parts);
    }
    assert x != [] by {
      assert OneSentence(doc[k]);
      assert |x| == |doc[k]| + |parts|;
    }
    OpenEnd(front, x, d, v);
  }

  lemma InsertIntoNothing(parts: seq<Token>)
    requires AllWellFormed(parts)
    ensures Flatten(ViewOf(Print(InsertAt([[]], 0, 0, parts)))) == Real(parts)
  {
    var d := InsertAt([[]], 0, 0, parts);
    WellFormedInsert([[]], 0, 0, parts);
    PrintThenParse(d);
    FlattenReplacement([], 0, parts);
    var none: Sentence := [];
    assert none[..0] + parts + none[0..] == parts;
    assert d == Replacement([], 0, parts);
    FlattenViewExtra(parts, d);
  }

  lemma PrintedIntoLast(doc: Doc, k: nat, w: int, parts: seq<Token>, s: seq<Token>, v: Doc, u: string)
    requires IsCut(doc) && WellFormedDoc(doc) && AllWellFormed(parts)
    requires k + 1 == |doc| && v == RealOfEach(doc) && 1 <= w <= |v[k]| + 1
    requires s == SpliceAt(v[k], w - 1, Real(parts))
    requires u == Print(InsertAt(doc, k, Position(doc[k], w), parts))
    ensures |ViewOf(u)| >= |v| && ViewOf(u)[..k] == v[..k] && Flatten(ViewOf(u)[k..]) == s
  {
    InsertIntoLast(doc, k, w, parts, s, ViewOf(u));
  }

  /** A write into the last sentence: all of it stays there. */
  lemma WriteIntoLast(temp: string, k: nat, w: Write, u: string)
    requires k + 1 == |ViewOf(temp)| && WriteText(temp, k, w) == Some(u)
    ensures |ViewOf(u)| >= |ViewOf(temp)|
    ensures ViewOf(u)[..k] == ViewOf(temp)[..k]
    ensures 1 <= w.word <= |ViewOf(temp)[k]| + 1
    ensures Flatten(ViewOf(u)[k..]) == SpliceAt(ViewOf(temp)[k], w.word - 1, Inserted(w))
  {
    var doc, parts, v := WriteIntoIs(temp, k, w, u);
    PrintedIntoLast(doc, k, w.word, parts, SpliceAt(v[k], w.word - 1, Inserted(w)), v, u);
  }

  lemma WriteIntoEmpty(w: Write, u: string)
    requires WriteText("", 0, w) == Some(u)
    ensures w.word == 1 && Flatten(ViewOf(u)) == Inserted(w)
  {
    ParseIsCut("");
    var doc, parts := WriteTextIs("", 0, w, u);
    InsertIntoNothing(parts);
  }

  /** Which writes are accepted: into an existing sentence at a word index from 1 to one more than its real words, or at
      word 1 of the sentence behind the last. */
  lemma WriteAcceptedIff(temp: string, k: nat, w: Write)
    requires !(temp == "" && k == 1)
    ensures var v := ViewOf(temp);
      WriteText(temp, k, w).Some? <==>
        if k < |v| then 1 <= w.word <= |v[k]| + 1 else k == |v| && w.word == 1
  {
    ParseIsCut(temp);
    var doc := Editable(temp);
    if k <= |doc| {
      var grown := Grown(doc, k);
      assert k < |ViewOf(temp)| ==> Real(grown[k]) == ViewOf(temp)[k];
      assert k >= |ViewOf(temp)| ==> Real(grown[k]) == [];
    }
  }

  // ----- growth -----

  lemma {:induction false} SentencesOfView(ts: seq<Token>)
    ensures |View(ts)| == DelimCount(ts) + (if Closed(ts) then 0 else 1)
  {
    if ts != [] {
      SentencesOfView(ts[1..]);
      ViewEmpty(ts[1..]);
    }
  }

  lemma SpliceGrows(ts: seq<Token>, p: nat, parts: seq<Token>)
    requires p <= |ts|
    ensures |View(SpliceAt(ts, p, parts))| >= |View(ts)|
  {
    var r := SpliceAt(ts, p, parts);
    SentencesOfView(ts);
    SentencesOfView(r);
    assert ts == ts[..p] + ts[p..];
    DelimCountAppend(ts[..p], ts[p..]);
    DelimCountAppend(ts[..p] + parts, ts[p..]);
    DelimCountAppend(ts[..p], parts);
    if p < |ts| {
      assert r[|r| - 1] == ts[|ts| - 1];
    } else if parts == [] {
      assert r == ts;
    } else {
      assert r[|r| - 1] == parts[|parts| - 1];
      if Closed(r) {
        DelimCountAt(parts, |parts| - 1);
      }
    }
  }

  lemma PrintKeepsSentences(doc: Doc)
    requires WellFormedDoc(doc)
    ensures |ViewOf(Print(doc))| >= |View(Flatten(doc))|
  {
    PrintThenParse(doc);
  }

  lemma InsertGrows(doc: Doc, k: nat, a: nat, parts: seq<Token>)
    requires k < |doc| && a <= |doc[k]|
    ensures |View(Flatten(InsertAt(doc, k, a, parts)))| >= |View(Flatten(doc))|
  {
    var p := |Flatten(doc[..k])| + a;
    FlattenInsert(doc, k, a, parts, p);
    SpliceGrows(Flatten(doc), p, parts);
  }

  lemma FlattenGrown(temp: string, k: nat)
    ensures Flatten(Grown(Editable(temp), k)) == Tokens(temp)
    ensures WellFormedDoc(Grown(Editable(temp), k))
  {
    ParseIsCut(temp);
    FlattenOne([]);
    FlattenAppend(Editable(temp), [[]]);
  }

  /** No accepted write lowers the number of sentences of the copy. */
  lemma WriteGrows(temp: string, k: nat, w: Write, u: string)
    requires !(temp == "" && k == 1) && WriteText(temp, k, w) == Some(u)
    ensures |ViewOf(u)| >= |ViewOf(temp)|
  {
    var grown := Grown(Editable(temp), k);
    FlattenGrown(temp, k);
    InsertWordIsInsertAt(Editable(temp), k, w.word, w.content);
    var a, parts := Position(grown[k], w.word), Tokens(w.content);
    InsertGrows(grown, k, a, parts);
    WellFormedInsert(grown, k, a, parts);
    PrintKeepsSentences(InsertAt(grown, k, a, parts));
  }
}
