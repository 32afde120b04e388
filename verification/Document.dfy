/** Sentences of tokens: how a token stream is cut into sentences, how a document is printed, and the
    view of a text that survives printing and parsing again. */
module Document {
  import opened Text

  type Sentence = seq<Token>
  type Doc = seq<Sentence>

  /** The tokens that word indices count. */
  function Real(ts: seq<Token>): seq<Token> {
    if ts == [] then [] else RealOne(ts[0]) + Real(ts[1..])
  }

  function RealOne(t: Token): seq<Token> {
    if IsSkip(t) then [] else [t]
  }

  function RealOfEach(doc: Doc): (r: Doc)
    ensures |r| == |doc|
    ensures forall i :: 0 <= i < |doc| ==> r[i] == Real(doc[i])
  {
    seq(|doc|, i requires 0 <= i < |doc| => Real(doc[i]))
  }

  function Flatten(doc: Doc): seq<Token> {
    if doc == [] then [] else doc[0] + Flatten(doc[1..])
  }

  /** Put `x` in front of the first sentence, opening one if there is none. */
  function Push(x: Sentence, doc: Doc): Doc {
    if doc == [] then [x] else [x + doc[0]] + doc[1..]
  }

  /** A sentence ends after each delimiter; what follows the last one is a sentence if it is not empty. */
  function Cut(ts: seq<Token>): Doc {
    if ts == [] then []
    else if IsDelimToken(ts[0]) then [[ts[0]]] + Cut(ts[1..])
    else Push([ts[0]], Cut(ts[1..]))
  }

  /** The real tokens of each sentence of `Cut(ts)`. */
  function View(ts: seq<Token>): Doc {
    if ts == [] then []
    else if IsDelimToken(ts[0]) then [[ts[0]]] + View(ts[1..])
    else Push(RealOne(ts[0]), View(ts[1..]))
  }

  /** What `parse_file` makes of a text. */
  function Parse(text: string): Doc {
    Cut(Tokens(text))
  }

  /** The sentences of a text, blanks and newlines left out. */
  function ViewOf(text: string): Doc {
    View(Tokens(text))
  }

  /** No sentence is left open at the end of `ts`. */
  predicate Closed(ts: seq<Token>) {
    ts == [] || IsDelimToken(ts[|ts| - 1])
  }

  predicate AllClosed(doc: Doc) {
    forall i :: 0 <= i < |doc| ==> doc[i] != [] && Closed(doc[i])
  }

  predicate DelimFree(ts: seq<Token>) {
    forall i :: 0 <= i < |ts| ==> !IsDelimToken(ts[i])
  }

  /** A sentence that `Cut` can produce: its only delimiter, if any, is its last token. */
  predicate OneSentence(s: Sentence) {
    s != [] && DelimFree(s[..|s| - 1])
  }

  /** The documents that `Cut` can produce. */
  predicate IsCut(doc: Doc) {
    && (forall i :: 0 <= i < |doc| ==> OneSentence(doc[i]))
    && (forall i :: 0 <= i < |doc| - 1 ==> Closed(doc[i]))
  }

  predicate WellFormedDoc(doc: Doc) {
    forall i :: 0 <= i < |doc| ==> AllWellFormed(doc[i])
  }

  // ----- real tokens -----

  lemma {:induction false} RealAppend(a: seq<Token>, b: seq<Token>)
    ensures Real(a + b) == Real(a) + Real(b)
  {
    if a == [] {
      assert a + b == b;
    } else {
      calc {
        Real(a + b);
        { assert (a + b)[0] == a[0] && (a + b)[1..] == a[1..] + b; }
        RealOne(a[0]) + Real(a[1..] + b);
        { RealAppend(a[1..], b); }
        RealOne(a[0]) + (Real(a[1..]) + Real(b));
        (RealOne(a[0]) + Real(a[1..])) + Real(b);
        Real(a) + Real(b);
      }
    }
  }

  lemma RealSingle(t: Token)
    ensures Real([t]) == RealOne(t)
  {
    assert Real([t][1..]) == [];
  }

  lemma DelimIsReal(t: Token)
    requires IsDelimToken(t)
    ensures RealOne(t) == [t]
  {
    assert KindOf(t[0]) == Delimiter;
  }

  lemma {:induction false} RealKeepsDelimFree(ts: seq<Token>)
    ensures DelimFree(Real(ts)) <==> DelimFree(ts)
  {
    if ts != [] {
      RealKeepsDelimFree(ts[1..]);
      var h, r := RealOne(ts[0]), Real(ts[1..]);
      assert DelimFree(ts) <==> !IsDelimToken(ts[0]) && DelimFree(ts[1..]) by {
        assert forall i :: 0 <= i < |ts[1..]| ==> ts[i + 1] == ts[1..][i];
      }
      if IsDelimToken(ts[0]) {
        DelimIsReal(ts[0]);
        assert Real(ts)[0] == ts[0];
      } else {
        assert forall i :: 0 <= i < |r| ==> Real(ts)[|h| + i] == r[i];
      }
    }
  }

  lemma {:induction false} FlattenAppend(a: Doc, b: Doc)
    ensures Flatten(a + b) == Flatten(a) + Flatten(b)
  {
    if a == [] {
      assert a + b == b;
    } else {
      calc {
        Flatten(a + b);
        { assert (a + b)[0] == a[0] && (a + b)[1..] == a[1..] + b; }
        a[0] + Flatten(a[1..] + b);
        { FlattenAppend(a[1..], b); }
        a[0] + (Flatten(a[1..]) + Flatten(b));
        Flatten(a) + Flatten(b);
      }
    }
  }

  lemma FlattenOne(s: Sentence)
    ensures Flatten([s]) == s
  {
    assert Flatten([s][1..]) == [];
  }

  // ----- cutting -----

  lemma {:induction false} FlattenCut(ts: seq<Token>)
    ensures Flatten(Cut(ts)) == ts
  {
    if ts != [] {
      FlattenCut(ts[1..]);
    }
  }

  /** `View` is the real-token side of `Cut`. */
  lemma {:induction false} ViewIsRealOfCut(ts: seq<Token>)
    ensures View(ts) == RealOfEach(Cut(ts))
  {
    if ts != [] {
      ViewIsRealOfCut(ts[1..]);
      RealSingle(ts[0]);
      if IsDelimToken(ts[0]) {
        DelimIsReal(ts[0]);
      } else {
        RealOfPush(ts[0], Cut(ts[1..]));
      }
    }
  }

  lemma RealOfFirst(s: Sentence, rest: Doc)
    ensures RealOfEach([s] + rest) == [Real(s)] + RealOfEach(rest)
  {
  }

  lemma RealOfPush(t: Token, doc: Doc)
    ensures RealOfEach(Push([t], doc)) == Push(RealOne(t), RealOfEach(doc))
  {
    RealSingle(t);
    if doc != [] {
      RealAppend([t], doc[0]);
      RealOfFirst([t] + doc[0], doc[1..]);
      RealOfFirst(doc[0], doc[1..]);
      assert doc == [doc[0]] + doc[1..];
    }
  }

  lemma {:induction false} CutIsCut(ts: seq<Token>)
    ensures IsCut(Cut(ts))
    ensures |Cut(ts)| == 0 <==> ts == []
  {
    if ts != [] {
      CutIsCut(ts[1..]);
      var d := Cut(ts[1..]);
      if !IsDelimToken(ts[0]) && d != [] {
        var s := [ts[0]] + d[0];
        assert OneSentence(d[0]);
        assert s[..|s| - 1] == [ts[0]] + d[0][..|d[0]| - 1];
        assert OneSentence(s);
        assert Cut(ts) == [s] + d[1..];
      }
    }
  }

  lemma {:induction false} CutAppend(a: seq<Token>, b: seq<Token>)
    requires Closed(a)
    ensures Cut(a + b) == Cut(a) + Cut(b)
  {
    if a == [] {
      assert a + b == b;
    } else {
      assert (a + b)[1..] == a[1..] + b;
      assert Closed(a[1..]);
      CutAppend(a[1..], b);
      CutIsCut(a[1..]);
    }
  }

  lemma {:induction false} CutOne(s: Sentence)
    requires OneSentence(s)
    ensures Cut(s) == [s]
  {
    if |s| == 1 {
      assert s[1..] == [] && s == [s[0]];
    } else {
      assert s[..|s| - 1][0] == s[0];
      assert OneSentence(s[1..]) by {
        assert s[1..][..|s| - 2] == s[..|s| - 1][1..];
      }
      CutOne(s[1..]);
      assert [s[0]] + s[1..] == s;
      assert Cut(s) == Push([s[0]], [s[1..]]);
    }
  }

  /** Cut documents are fixed points: cutting their tokens again changes nothing. */
  lemma {:induction false} CutFlatten(doc: Doc)
    requires IsCut(doc)
    ensures Cut(Flatten(doc)) == doc
  {
    if doc != [] {
      CutFlatten(doc[1..]);
      CutOne(doc[0]);
      if |doc| == 1 {
        assert Flatten(doc[1..]) == [];
        assert Flatten(doc) == doc[0];
      } else {
        CutAppend(doc[0], Flatten(doc[1..]));
      }
    }
  }

  lemma {:induction false} FlattenClosed(doc: Doc)
    requires AllClosed(doc)
    ensures Closed(Flatten(doc))
    ensures Flatten(doc) == [] ==> doc == []
  {
    if doc != [] {
      FlattenClosed(doc[1..]);
    }
  }

  // ----- cutting from left to right -----

  /** The sentences that a parser has seen after `ts`: the last one is still open, and may be empty. */
  function OpenCut(ts: seq<Token>): (doc: Doc)
    ensures doc != []
  {
    if Closed(ts) then Cut(ts) + [[]] else
      CutIsCut(ts);
      Cut(ts)
  }

  function AddToLast(doc: Doc, t: Token): Doc
    requires doc != []
  {
    doc[|doc| - 1 := doc[|doc| - 1] + [t]]
  }

  lemma FlattenLast(front: Doc, last: Sentence)
    ensures Flatten(front + [last]) == Flatten(front) + last
  {
    FlattenAppend(front, [last]);
    FlattenOne(last);
  }

  lemma ExtendIsCut(front: Doc, last: Sentence, t: Token)
    requires IsCut(front + [last]) && !Closed(last)
    ensures IsCut(front + [last + [t]])
  {
    var d, d' := front + [last], front + [last + [t]];
    assert OneSentence(d[|front|]);
    assert (last + [t])[..|last|] == last == last[..|last| - 1] + [last[|last| - 1]];
    assert forall i :: 0 <= i < |front| ==> d'[i] == d[i];
  }

  lemma CutExtend(ts: seq<Token>, t: Token)
    requires !Closed(ts)
    ensures Cut(ts + [t]) == AddToLast(OpenCut(ts), t)
  {
    CutIsCut(ts);
    var d := Cut(ts);
    var front, last := d[..|d| - 1], d[|d| - 1];
    assert d == front + [last];
    assert Flatten(front) + last == ts by {
      FlattenCut(ts);
      FlattenLast(front, last);
    }
    assert OneSentence(last);
    assert ts[|ts| - 1] == last[|last| - 1];
    ExtendIsCut(front, last, t);
    FlattenLast(front, last + [t]);
    assert Flatten(front) + (last + [t]) == ts + [t];
    CutFlatten(front + [last + [t]]);
  }

  /** One more token goes to the open sentence; a delimiter closes it. */
  lemma OpenCutStep(ts: seq<Token>, t: Token)
    ensures OpenCut(ts + [t])
         == AddToLast(OpenCut(ts), t) + (if IsDelimToken(t) then [[]] else [])
  {
    if Closed(ts) {
      CutAppend(ts, [t]);
      assert [t][1..] == [];
      assert Cut([t]) == [[t]];
      var none: Sentence := [];
      assert none + [t] == [t];
      assert AddToLast(OpenCut(ts), t) == Cut(ts) + [none + [t]];
    } else {
      CutExtend(ts, t);
    }
  }

  // ----- views -----

  lemma ViewAppend(a: seq<Token>, b: seq<Token>)
    requires Closed(a)
    ensures View(a + b) == View(a) + View(b)
  {
    CutAppend(a, b);
    ViewIsRealOfCut(a);
    ViewIsRealOfCut(b);
    ViewIsRealOfCut(a + b);
    RealOfEachAppend(Cut(a), Cut(b));
  }

  lemma RealOfEachAppend(a: Doc, b: Doc)
    ensures RealOfEach(a + b) == RealOfEach(a) + RealOfEach(b)
  {
  }

  lemma {:induction false} ViewEmpty(ts: seq<Token>)
    ensures View(ts) == [] <==> ts == []
  {
  }

  /** Tokens without a delimiter join the sentence that follows them. */
  lemma {:induction false} ViewPush(a: seq<Token>, b: seq<Token>)
    requires DelimFree(a) && a != []
    ensures View(a + b) == Push(Real(a), View(b))
  {
    assert (a + b)[0] == a[0] && (a + b)[1..] == a[1..] + b;
    if |a| == 1 {
      assert a[1..] + b == b && a == [a[0]];
      RealSingle(a[0]);
    } else {
      ViewPush(a[1..], b);
      PushPush(RealOne(a[0]), Real(a[1..]), View(b));
    }
  }

  lemma PushPush(a: Sentence, b: Sentence, doc: Doc)
    ensures Push(a, Push(b, doc)) == Push(a + b, doc)
  {
    if doc != [] {
      assert a + (b + doc[0]) == (a + b) + doc[0];
    }
  }

  /** The real tokens of a text are the tokens of its view, in order. */
  lemma {:induction false} FlattenView(ts: seq<Token>)
    ensures Flatten(View(ts)) == Real(ts)
  {
    if ts != [] {
      var v := View(ts[1..]);
      FlattenView(ts[1..]);
      if IsDelimToken(ts[0]) {
        DelimIsReal(ts[0]);
        FlattenCons([ts[0]], v);
      } else {
        FlattenPush(RealOne(ts[0]), v);
      }
    }
  }

  lemma FlattenCons(s: Sentence, doc: Doc)
    ensures Flatten([s] + doc) == s + Flatten(doc)
  {
    assert ([s] + doc)[1..] == doc;
  }

  lemma FlattenPush(x: Sentence, doc: Doc)
    ensures Flatten(Push(x, doc)) == x + Flatten(doc)
  {
    if doc == [] {
      FlattenOne(x);
    } else {
      FlattenCons(x + doc[0], doc[1..]);
      assert (x + doc[0]) + Flatten(doc[1..]) == x + (doc[0] + Flatten(doc[1..]));
    }
  }

  /** What stands in front of a token list does not matter to how its own sentences differ. */
  lemma {:induction false} ViewCongruence(a: seq<Token>, x: seq<Token>, y: seq<Token>, extra: Doc)
    requires y != [] || extra == []
    requires View(x) == View(y) + extra
    ensures View(a + x) == View(a + y) + extra
  {
    if a == [] {
      assert a + x == x && a + y == y;
    } else {
      assert (a + x)[0] == a[0] && (a + x)[1..] == a[1..] + x;
      assert (a + y)[0] == a[0] && (a + y)[1..] == a[1..] + y;
      ViewCongruence(a[1..], x, y, extra);
      PushKeepsRest(RealOne(a[0]), View(a[1..] + y), extra);
    }
  }

  lemma PushKeepsRest(x: Sentence, doc: Doc, extra: Doc)
    requires doc != [] || extra == []
    ensures Push(x, doc + extra) == Push(x, doc) + extra
  {
    if extra == [] {
      assert doc + extra == doc;
    }
  }
}
