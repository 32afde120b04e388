/** What a write makes of the text of a copy, token by token. */
module WrittenText {
  import opened Options
  import opened Text
  import opened Document
  import opened PrintParse
  import opened Insert
  import opened WriteSession
  import opened FullText

  /** A list has one sentence for each delimiter, and one more if it does not end in one. */
  lemma {:induction false} DelimitersAreSentences(ts: seq<Token>)
    ensures |Cut(ts)| == DelimCount(ts) + if Closed(ts) then 0 else 1
  {
    if ts != [] {
      DelimitersAreSentences(ts[1..]);
      CutIsCut(ts[1..]);
    }
  }

  lemma SplitAtLast(x: seq<Token>, y: seq<Token>)
    requires Closed(x) && DelimFree(y)
    ensures ThroughLastDelim(x + y) == |x| && DelimCount(x + y) == |Cut(x)|
    ensures Splits(x + y) <==> x != [] && y != []
    ensures NewSentences(x + y) == |Cut(x)| + if x != [] && y != [] then 1 else 0
  {
    ThroughLastDelimIs(x, y);
    DelimCountAppend(x, y);
    DelimitersAreSentences(x);
    NoDelimiters(y);
  }

  lemma {:induction false} NoDelimiters(y: seq<Token>)
    requires DelimFree(y)
    ensures DelimCount(y) == 0
  {
    if y != [] {
      assert !IsDelimToken(y[0]);
      assert forall i :: 0 <= i < |y[1..]| ==> y[1..][i] == y[i + 1];
      NoDelimiters(y[1..]);
    }
  }

  lemma ReplacementIs(s: Sentence, a: nat, x: seq<Token>, y: seq<Token>)
      returns (own: Doc, split: bool, more: nat, r: seq<Token>)
    requires a <= |s| && Closed(x) && DelimFree(y)
    ensures own == Replacement(s, a, x + y) && |own| == 1 + more
    ensures (split <==> x != [] && y != []) && more == |Cut(x)| + (if split then 1 else 0) && (split ==> more > 0)
    ensures own[0] == if split then s[..a] + x else s[..a] + (x + y) + s[a..]
    ensures r == y + s[a..] && (split ==> own[1] == r)
    ensures forall j :: (if split then 1 else 0) < j <= more ==> own[j] == []
  {
    SplitAtLast(x, y);
    own, split, more, r := Replacement(s, a, x + y), x != [] && y != [], NewSentences(x + y), y + s[a..];
    assert (x + y)[..|x|] == x && (x + y)[|x|..] == y;
  }

  lemma Placed(doc: Doc, k: nat, own: Doc, more: nat, r: Doc)
    requires k < |doc| && |own| == more + 1 && r == doc[..k] + own + doc[k + 1..]
    ensures |r| == |doc| + more
    ensures forall j :: 0 <= j < k ==> r[j] == doc[j]
    ensures forall j {:trigger r[j]} :: k <= j <= k + more ==> r[j] == own[j - k]
    ensures forall j {:trigger r[j]} :: k + more < j < |r| ==> r[j] == doc[j - more]
  {
  }

  /** The sentences after an insertion of `x`, which is empty or ends in a delimiter, and `y`, which has none: if both
      have tokens the edited sentence ends behind `x`, and the next one has `y` and the rest of it; otherwise it stays
      one sentence. Behind that come empty sentences, one for each sentence of `x` but the last of a split. */
  lemma InsertSplits(doc: Doc, k: nat, a: nat, x: seq<Token>, y: seq<Token>) returns (r: Doc, split: bool, more: nat)
    requires k < |doc| && a <= |doc[k]| && Closed(x) && DelimFree(y)
    ensures r == InsertAt(doc, k, a, x + y) && |r| == |doc| + more
    ensures (split <==> x != [] && y != []) && more == |Cut(x)| + if split then 1 else 0
    ensures forall j :: 0 <= j < k ==> r[j] == doc[j]
    ensures r[k] == if split then doc[k][..a] + x else doc[k][..a] + (x + y) + doc[k][a..]
    ensures split ==> k + 1 < |r| && r[k + 1] == y + doc[k][a..]
    ensures forall j {:trigger r[j]} :: k + (if split then 1 else 0) < j <= k + more ==> r[j] == []
    ensures forall j {:trigger r[j]} :: k + more < j < |r| ==> r[j] == doc[j - more]
  {
    var own, rest;
    own, split, more, rest := ReplacementIs(doc[k], a, x, y);
    r := InsertAt(doc, k, a, x + y);
    Placed(doc, k, own, more, r);
  }

  /** Where the sentences of a document begin in its token stream. */
  function StartOf(doc: Doc, k: nat): nat
    requires k <= |doc|
  {
    |Flatten(doc[..k])|
  }

  lemma SentenceInStream(doc: Doc, k: nat, ts: seq<Token>)
    requires k < |doc| && Flatten(doc) == ts
    ensures StartOf(doc, k) + |doc[k]| <= |ts| && ts[StartOf(doc, k)..StartOf(doc, k) + |doc[k]|] == doc[k]
  {
    FlattenAround(doc, k);
    SliceBehind(Flatten(doc[..k]), doc[k], Flatten(doc[k + 1..]), |doc[k]|);
  }

  /** The document that a write with sentence index `k` edits: the sentences of the copy, and a new one behind them. */
  function Edited(temp: string, k: nat): Doc {
    if k < |Parse(temp)| then Parse(temp) else Parse(temp) + [[]]
  }

  lemma EditedIsGrown(temp: string, k: nat, w: Write)
    requires !(temp == "" && k == 1) && WriteText(temp, k, w).Some?
    ensures Edited(temp, k) == Grown(Editable(temp), k) && k < |Edited(temp, k)|
  {
  }

  lemma WrittenIs(temp: string, k: nat, w: Write, u: string, doc: Doc)
    requires !(temp == "" && k == 1) && WriteText(temp, k, w) == Some(u) && doc == Edited(temp, k)
    ensures k < |doc| && 1 <= w.word <= |Real(doc[k])| + 1
    ensures u == Print(InsertAt(doc, k, Position(doc[k], w.word), Tokens(w.content)))
  {
    EditedIsGrown(temp, k, w);
    if w.content == "" {
      NoPartsNoChange(doc, k, Position(doc[k], w.word));
    }
  }

  lemma EditedStream(temp: string, k: nat, w: Write, doc: Doc)
    requires !(temp == "" && k == 1) && WriteText(temp, k, w).Some? && doc == Edited(temp, k)
    ensures Flatten(doc) == Tokens(temp) && WellFormedDoc(doc)
  {
    EditedIsGrown(temp, k, w);
    FlattenGrown(temp, k);
  }

  lemma InsertedStream(doc: Doc, k: nat, a: nat, parts: seq<Token>, ts: seq<Token>)
    requires k < |doc| && a <= |doc[k]| && WellFormedDoc(doc) && AllWellFormed(parts) && Flatten(doc) == ts
    ensures StartOf(doc, k) + a <= |ts|
    ensures WithoutBlanks(Tokens(Print(InsertAt(doc, k, a, parts))))
         == WithoutBlanks(SpliceAt(ts, StartOf(doc, k) + a, parts))
  {
    FlattenInsert(doc, k, a, parts, StartOf(doc, k) + a);
    WellFormedInsert(doc, k, a, parts);
    PrintKeepsStream(InsertAt(doc, k, a, parts));
  }

  /** An accepted write, token by token: the words, delimiters and newlines of the new text are those of the copy with
      those of the content put in at one point of the sentence, which `PositionIff` fixes. The text is the printed
      document that `InsertSplits` describes. */
  lemma CopyAfterWrite(temp: string, k: nat, w: Write, u: string) returns (doc: Doc, start: nat, a: nat)
    requires !(temp == "" && k == 1) && WriteText(temp, k, w) == Some(u)
    ensures doc == Edited(temp, k) && k < |doc| && 1 <= w.word <= |Real(doc[k])| + 1
    ensures start == StartOf(doc, k) && a == Position(doc[k], w.word)
    ensures start + |doc[k]| <= |Tokens(temp)| && Tokens(temp)[start..start + |doc[k]|] == doc[k]
    ensures WithoutBlanks(Tokens(u)) == WithoutBlanks(SpliceAt(Tokens(temp), start + a, Tokens(w.content)))
    ensures u == Print(InsertAt(doc, k, a, Tokens(w.content)))
  {
    doc := Edited(temp, k);
    WrittenIs(temp, k, w, u, doc);
    a := Position(doc[k], w.word);
    start := StartOf(doc, k);
    EditedStream(temp, k, w, doc);
    PlacesInStream(doc, k, a, Tokens(w.content), Tokens(temp), start, u);
  }

  lemma PlacesInStream(doc: Doc, k: nat, a: nat, parts: seq<Token>, ts: seq<Token>, start: nat, u: string)
    requires k < |doc| && a <= |doc[k]| && WellFormedDoc(doc) && AllWellFormed(parts) && Flatten(doc) == ts
    requires start == StartOf(doc, k) && u == Print(InsertAt(doc, k, a, parts))
    ensures start + |doc[k]| <= |ts| && ts[start..start + |doc[k]|] == doc[k]
    ensures WithoutBlanks(Tokens(u)) == WithoutBlanks(SpliceAt(ts, start + a, parts))
  {
    SentenceInStream(doc, k, ts);
    InsertedStream(doc, k, a, parts, ts);
  }
}
