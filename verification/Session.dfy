/** A whole write session: lock a sentence, write any number of times, commit. */
module Session {
  import opened Options
  import opened Text
  import opened Document
  import opened Insert
  import opened WriteSession
  import opened Commit

  /** The copy after a run of accepted writes; None if one of them is rejected. */
  function RunWrites(base: string, k: nat, ws: seq<Write>): (r: Option<string>)
    requires !(base == "" && k == 1)
    ensures r.Some? ==> |ViewOf(r.value)| >= |ViewOf(base)|
    ensures r.Some? && base != "" ==> r.value != ""
  {
    if ws == [] then Some(base) else
      match RunWrites(base, k, ws[..|ws| - 1])
      case None => None
      case Some(temp) =>
        if temp == "" && k == 1 then assert false; None else
          var r := WriteText(temp, k, ws[|ws| - 1]);
          assert r.Some? ==> |ViewOf(r.value)| >= |ViewOf(temp)| by {
            if r.Some? { WriteGrows(temp, k, ws[|ws| - 1], r.value); }
          }
          r
  }

  /** The real tokens of one sentence with every inserted text spliced in, in the order of the writes. */
  function Spliced(s: seq<Token>, ws: seq<Write>): seq<Token> {
    if ws == [] then s else
      var before, w := Spliced(s, ws[..|ws| - 1]), ws[|ws| - 1];
      if 1 <= w.word <= |before| + 1 then SpliceAt(before, w.word - 1, Inserted(w)) else before
  }

  /** A write stays within the session's sentences if they are the last ones of the file, if they were split already,
      if it lands before the closing delimiter, or if it ends its own last sentence. */
  predicate Inside(temp: string, k: nat, original: nat, w: Write) {
    || k + 1 >= original
    || |ViewOf(temp)| > original
    || (k < |ViewOf(temp)| && w.word <= |ViewOf(temp)[k]|)
    || Tail(Inserted(w)) == []
  }

  predicate AllInside(base: string, k: nat, ws: seq<Write>)
    requires !(base == "" && k == 1)
  {
    ws == [] || (
      var before := RunWrites(base, k, ws[..|ws| - 1]);
      && AllInside(base, k, ws[..|ws| - 1])
      && before.Some?
      && Inside(before.value, k, |ViewOf(base)|, ws[|ws| - 1]))
  }

  lemma SplicedLast(s: seq<Token>, ws: seq<Write>, x: seq<Token>, w: Write)
    requires ws != [] && x == Spliced(s, ws[..|ws| - 1]) && w == ws[|ws| - 1]
    ensures Spliced(s, ws) == if 1 <= w.word <= |x| + 1 then SpliceAt(x, w.word - 1, Inserted(w)) else x
  {
  }

  /** A run of writes is a shorter run and one more write. */
  lemma LastWrite(base: string, k: nat, ws: seq<Write>, temp: string, s: seq<Token>)
      returns (front: seq<Write>, w: Write, before: string)
    requires !(base == "" && k == 1) && ws != [] && RunWrites(base, k, ws) == Some(temp)
    ensures |front| < |ws| && RunWrites(base, k, front) == Some(before)
    ensures !(before == "" && k == 1) && WriteText(before, k, w) == Some(temp)
    ensures AllInside(base, k, ws) <==> AllInside(base, k, front) && Inside(before, k, |ViewOf(base)|, w)
    ensures var x := Spliced(s, front);
      Spliced(s, ws) == if 1 <= w.word <= |x| + 1 then SpliceAt(x, w.word - 1, Inserted(w)) else x
  {
    front, w := ws[..|ws| - 1], ws[|ws| - 1];
    before := RunWrites(base, k, front).value;
    SplicedLast(s, ws, Spliced(s, front), w);
  }

  // ----- a sentence that others follow -----

  predicate AllReal(ts: seq<Token>) {
    Real(ts) == ts
  }

  /** The view of a copy: the sentences before `k` untouched, the session's own closed sentences, then the others, with
      the spilled tokens in front of the first of them. */
  predicate Shape(base: Doc, k: nat, own: Doc, spill: seq<Token>, v: Doc) {
    && k + 1 < |base|
    && own != [] && AllClosed(own)
    && v == base[..k] + own + Push(spill, base[k + 1..])
  }

  lemma {:induction false} RealIsReal(ts: seq<Token>)
    ensures AllReal(Real(ts))
  {
    if ts != [] {
      RealIsReal(ts[1..]);
      RealAppend(RealOne(ts[0]), Real(ts[1..]));
      if !IsSkip(ts[0]) {
        RealSingle(ts[0]);
      }
    }
  }

  lemma RealSplice(s: seq<Token>, p: nat, r: seq<Token>)
    requires AllReal(s) && AllReal(r) && p <= |s|
    ensures AllReal(SpliceAt(s, p, r))
  {
    assert s == s[..p] + s[p..];
    RealAppend(s[..p], s[p..]);
    RealPrefix(s[..p]);
    RealPrefix(s[p..]);
    RealAppend(s[..p] + r, s[p..]);
    RealAppend(s[..p], r);
  }

  lemma {:induction false} RealPrefix(ts: seq<Token>)
    ensures |Real(ts)| <= |ts|
    ensures |Real(ts)| == |ts| ==> AllReal(ts)
  {
    if ts != [] {
      RealPrefix(ts[1..]);
    }
  }

  lemma {:induction false} ViewIsClosed(a: seq<Token>)
    requires Closed(a)
    ensures AllClosed(View(a))
  {
    if a != [] {
      assert Closed(a[1..]);
      ViewIsClosed(a[1..]);
      ViewEmpty(a[1..]);
    }
  }

  lemma HeadIsClosed(s: seq<Token>)
    ensures Closed(Head(s)) && Head(s) + Tail(s) == s
  {
  }

  lemma DelimInHead(s: seq<Token>, i: nat)
    requires i < |s| && IsDelimToken(s[i])
    ensures Head(s) != []
  {
    assert s[0..] == s;
  }

  lemma ClosedPushed(x: seq<Token>, doc: Doc)
    requires AllClosed(doc) && doc != []
    ensures AllClosed(Push(x, doc))
  {
    var s := x + doc[0];
    assert s[|s| - 1] == doc[0][|doc[0]| - 1];
  }

  /** The tokens through the last delimiter of an edited sentence are closed sentences again. */
  lemma HeadOfEdit(own: Sentence, p: nat, r: seq<Token>, s: seq<Token>)
    requires own != [] && Closed(own) && AllReal(own) && AllReal(r) && p <= |own|
    requires s == SpliceAt(own, p, r)
    ensures View(Head(s)) != [] && AllClosed(View(Head(s)))
    ensures Flatten(View(Head(s))) + Tail(s) == s
  {
    var last := |own| - 1;
    assert s[if last < p then last else last + |r|] == own[last];
    DelimInHead(s, if last < p then last else last + |r|);
    HeadIsClosed(s);
    ViewIsClosed(Head(s));
    ViewEmpty(Head(s));
    FlattenView(Head(s));
    RealSplice(own, p, r);
    RealAppend(Head(s), Tail(s));
    RealPrefix(Head(s));
    RealPrefix(Tail(s));
  }

  lemma PushBetween(front: Doc, h: Doc, x: seq<Token>, own: Doc, rest: Doc)
    requires own != []
    ensures front + h + Push(x, own + rest) == front + (h + Push(x, own)) + rest
  {
    PushKeepsRest(x, own, rest);
    Assoc(front + h, Push(x, own), rest);
    Assoc(front, h, Push(x, own));
  }

  lemma FlattenBetween(h: Doc, x: seq<Token>, own: Doc)
    ensures Flatten(h + Push(x, own)) == Flatten(h) + x + Flatten(own)
  {
    FlattenAppend(h, Push(x, own));
    FlattenPush(x, own);
    Assoc(Flatten(h), x, Flatten(own));
  }

  /** An edited sentence comes apart into closed sentences and the tokens behind the last delimiter. */
  predicate Parted(s: seq<Token>, h: Doc, x: seq<Token>) {
    h != [] && AllClosed(h) && Flatten(h) + x == s
  }

  lemma StepSplit(base: Doc, k: nat, own: Doc, spill: seq<Token>, v: Doc, s: seq<Token>, h: Doc, x: seq<Token>)
      returns (own': Doc)
    requires Shape(base, k, own, spill, v) && |own| > 1 && Parted(s, h, x)
    ensures Shape(base, k, own', spill, v[..k] + h + Push(x, v[k + 1..]))
    ensures Flatten(own') == s + Flatten(own[1..])
    ensures |own'| > 1
  {
    var rest := Push(spill, base[k + 1..]);
    own' := h + Push(x, own[1..]);
    SliceParts(base[..k], own, rest, v);
    PushBetween(base[..k], h, x, own[1..], rest);
    FlattenBetween(h, x, own[1..]);
    assert AllClosed(own') by {
      ClosedPushed(x, own[1..]);
      ClosedJoin(h, Push(x, own[1..]));
    }
  }

  lemma StepSingle(base: Doc, k: nat, own: Doc, spill: seq<Token>, v: Doc, s: seq<Token>, h: Doc, x: seq<Token>)
    requires Shape(base, k, own, spill, v) && |own| == 1 && Parted(s, h, x)
    ensures Shape(base, k, h, x + spill, v[..k] + h + Push(x, v[k + 1..]))
  {
    var rest := Push(spill, base[k + 1..]);
    SliceParts(base[..k], own, rest, v);
    assert own[1..] + rest == rest;
    PushPush(x, spill, base[k + 1..]);
  }

  lemma TailOfEdit(own: Sentence, p: nat, r: seq<Token>, s: seq<Token>)
    requires own != [] && Closed(own) && p <= |own| && s == SpliceAt(own, p, r)
    ensures Tail(s) == if p < |own| then [] else Tail(r)
  {
    if p < |own| {
      assert s[|s| - 1] == own[|own| - 1];
    } else {
      HeadIsClosed(r);
      assert s == (own + Head(r)) + Tail(r);
      ThroughLastDelimIs(own + Head(r), Tail(r));
    }
  }

  lemma ViewIsReal(text: string, i: nat)
    requires i < |ViewOf(text)|
    ensures AllReal(ViewOf(text)[i])
    ensures i + 1 < |ViewOf(text)| ==> ViewOf(text)[i] != [] && Closed(ViewOf(text)[i])
  {
    ParseIsCut(text);
    RealIsReal(Parse(text)[i]);
    assert OneSentence(Parse(text)[i]);
    if i + 1 < |ViewOf(text)| {
      RealClosed(Parse(text)[i]);
    }
  }

  lemma SpliceFront(a: seq<Token>, b: seq<Token>, p: nat, r: seq<Token>)
    requires p <= |a|
    ensures SpliceAt(a + b, p, r) == SpliceAt(a, p, r) + b
  {
    assert (a + b)[..p] == a[..p] && (a + b)[p..] == a[p..] + b;
  }

  lemma SpliceFirst(own: Doc, spill: seq<Token>, p: nat, r: seq<Token>)
    requires own != [] && p <= |own[0]|
    ensures p <= |Flatten(own) + spill|
    ensures SpliceAt(Flatten(own) + spill, p, r) == SpliceAt(own[0], p, r) + Flatten(own[1..]) + spill
  {
    SpliceFront(Flatten(own), spill, p, r);
    SpliceFront(own[0], Flatten(own[1..]), p, r);
  }

  lemma EditStep(base: Doc, k: nat, own: Doc, spill: seq<Token>, v: Doc, s: seq<Token>, h: Doc, x: seq<Token>)
      returns (own': Doc, spill': seq<Token>)
    requires Shape(base, k, own, spill, v) && Parted(s, h, x)
    ensures Shape(base, k, own', spill', v[..k] + h + Push(x, v[k + 1..]))
    ensures Flatten(own') + spill' == s + Flatten(own[1..]) + spill
    ensures spill' == if |own| > 1 then spill else x + spill
  {
    if |own| > 1 {
      own' := StepSplit(base, k, own, spill, v, s, h, x);
      spill' := spill;
    } else {
      StepSingle(base, k, own, spill, v, s, h, x);
      own', spill' := h, x + spill;
      assert Flatten(own[1..]) == [] && s + [] == s;
      Assoc(Flatten(own'), x, spill);
    }
  }

  /** A write in front of other sentences puts the parts of the edited sentence in its place. */
  lemma WriteParts(temp: string, k: nat, w: Write, u: string) returns (h: Doc, x: seq<Token>)
    requires k + 1 < |ViewOf(temp)| && WriteText(temp, k, w) == Some(u)
    ensures 1 <= w.word <= |ViewOf(temp)[k]| + 1
    ensures var v := ViewOf(temp); var s := SpliceAt(v[k], w.word - 1, Inserted(w));
      && Parted(s, h, x) && x == Tail(s) && ViewOf(u) == v[..k] + h + Push(x, v[k + 1..])
  {
    WriteBeforeOthers(temp, k, w, u);
    ViewIsReal(temp, k);
    RealIsReal(Tokens(w.content));
    var s := SpliceAt(ViewOf(temp)[k], w.word - 1, Inserted(w));
    HeadOfEdit(ViewOf(temp)[k], w.word - 1, Inserted(w), s);
    h, x := View(Head(s)), Tail(s);
  }

  /** Tokens spill exactly when a write is not inside. */
  lemma SpillsUnlessInside(base: Doc, k: nat, own: Doc, spill: seq<Token>, temp: string, w: Write, s: seq<Token>)
    requires Shape(base, k, own, spill, ViewOf(temp))
    requires 1 <= w.word <= |own[0]| + 1 && s == SpliceAt(own[0], w.word - 1, Inserted(w))
    ensures |own| > 1 || Tail(s) == [] <==> Inside(temp, k, |base|, w)
  {
    assert ViewOf(temp)[k] == own[0] && |ViewOf(temp)| == |base| - 1 + |own|;
    TailOfEdit(own[0], w.word - 1, Inserted(w), s);
  }

  /** One more write: the session keeps its shape and its tokens gain the text. */
  lemma WriteKeepsShape(base: Doc, k: nat, own: Doc, spill: seq<Token>, temp: string, w: Write, u: string)
      returns (own': Doc, spill': seq<Token>)
    requires Shape(base, k, own, spill, ViewOf(temp)) && WriteText(temp, k, w) == Some(u)
    ensures 1 <= w.word <= |Flatten(own) + spill| + 1
    ensures Shape(base, k, own', spill', ViewOf(u))
    ensures Flatten(own') + spill' == SpliceAt(Flatten(own) + spill, w.word - 1, Inserted(w))
    ensures spill' == [] <==> spill == [] && Inside(temp, k, |base|, w)
  {
    var v := ViewOf(temp);
    assert v[k] == own[0];
    var h, x := WriteParts(temp, k, w, u);
    var s := SpliceAt(own[0], w.word - 1, Inserted(w));
    own', spill' := EditStep(base, k, own, spill, v, s, h, x);
    SpliceFirst(own, spill, w.word - 1, Inserted(w));
    SpillsUnlessInside(base, k, own, spill, temp, w, s);
  }

  lemma {:induction false} WritesBeforeOthers(base: string, k: nat, ws: seq<Write>, temp: string)
      returns (own: Doc, spill: seq<Token>)
    requires k + 1 < |ViewOf(base)| && RunWrites(base, k, ws) == Some(temp)
    ensures Shape(ViewOf(base), k, own, spill, ViewOf(temp))
    ensures Flatten(own) + spill == Spliced(ViewOf(base)[k], ws)
    ensures spill == [] <==> AllInside(base, k, ws)
    decreases |ws|
  {
    var b := ViewOf(base);
    if ws == [] {
      own, spill := [b[k]], [];
      ViewIsReal(base, k);
      FlattenOne(b[k]);
      PushNothing(b[k + 1..]);
      Around(b, k);
    } else {
      var front, w, before := LastWrite(base, k, ws, temp, b[k]);
      var own0, spill0 := WritesBeforeOthers(base, k, front, before);
      own, spill := WriteKeepsShape(b, k, own0, spill0, before, w, temp);
    }
  }

  // ----- the last sentence -----

  /** From sentence `k` on, a write is a splice of the real tokens, wherever sentences end. */
  lemma WriteSplices(temp: string, k: nat, w: Write, u: string)
    requires k < |ViewOf(temp)| && WriteText(temp, k, w) == Some(u)
    ensures k < |ViewOf(u)| && ViewOf(u)[..k] == ViewOf(temp)[..k]
    ensures 1 <= w.word <= |Flatten(ViewOf(temp)[k..])| + 1
    ensures Flatten(ViewOf(u)[k..]) == SpliceAt(Flatten(ViewOf(temp)[k..]), w.word - 1, Inserted(w))
  {
    var v := ViewOf(temp);
    if k + 1 == |v| {
      WriteIntoLast(temp, k, w, u);
      assert v[k..] == [v[k]];
      FlattenOne(v[k]);
    } else {
      WriteSplicesBefore(temp, k, w, u);
    }
  }

  lemma WriteSplicesBefore(temp: string, k: nat, w: Write, u: string)
    requires k + 1 < |ViewOf(temp)| && WriteText(temp, k, w) == Some(u)
    ensures k < |ViewOf(u)| && ViewOf(u)[..k] == ViewOf(temp)[..k]
    ensures 1 <= w.word <= |Flatten(ViewOf(temp)[k..])| + 1
    ensures Flatten(ViewOf(u)[k..]) == SpliceAt(Flatten(ViewOf(temp)[k..]), w.word - 1, Inserted(w))
  {
    var h, x := WriteParts(temp, k, w, u);
    var v := ViewOf(temp);
    EditSplices(v, k, w.word - 1, Inserted(w), SpliceAt(v[k], w.word - 1, Inserted(w)), h, x, ViewOf(u));
  }

  lemma EditSplices(v: Doc, k: nat, p: nat, r: seq<Token>, s: seq<Token>, h: Doc, x: seq<Token>, u: Doc)
    requires k + 1 < |v| && p <= |v[k]| && s == SpliceAt(v[k], p, r) && Parted(s, h, x)
    requires u == v[..k] + h + Push(x, v[k + 1..])
    ensures k < |u| && u[..k] == v[..k] && p <= |Flatten(v[k..])|
    ensures Flatten(u[k..]) == SpliceAt(Flatten(v[k..]), p, r)
  {
    var rest, f := Push(x, v[k + 1..]), Flatten(v[k + 1..]);
    assert Flatten(v[k..]) == v[k] + f by {
      FlattenCons(v[k], v[k + 1..]);
      assert [v[k]] + v[k + 1..] == v[k..];
    }
    SpliceFront(v[k], f, p, r);
    FlattenBetween(h, x, v[k + 1..]);
    assert u[k..] == h + rest;
  }

  lemma {:induction false} WritesIntoLast(base: string, k: nat, ws: seq<Write>, temp: string)
    requires k + 1 == |ViewOf(base)| && RunWrites(base, k, ws) == Some(temp)
    ensures |ViewOf(temp)| > k && ViewOf(temp)[..k] == ViewOf(base)[..k]
    ensures Flatten(ViewOf(temp)[k..]) == Spliced(ViewOf(base)[k], ws)
    decreases |ws|
  {
    if ws == [] {
      assert ViewOf(base)[k..] == [ViewOf(base)[k]];
      FlattenOne(ViewOf(base)[k]);
    } else {
      var front, w, before := LastWrite(base, k, ws, temp, ViewOf(base)[k]);
      WritesIntoLast(base, k, front, before);
      WriteSplices(before, k, w, temp);
    }
  }

  lemma {:induction false} WritesIntoEmpty(ws: seq<Write>, temp: string)
    requires RunWrites("", 0, ws) == Some(temp)
    ensures Flatten(ViewOf(temp)) == Spliced([], ws)
  {
    if ws != [] {
      var before, w := RunWrites("", 0, ws[..|ws| - 1]).value, ws[|ws| - 1];
      WritesIntoEmpty(ws[..|ws| - 1], before);
      WriteFromStart(before, w, temp);
    }
  }

  lemma WriteFromStart(temp: string, w: Write, u: string)
    requires WriteText(temp, 0, w) == Some(u)
    ensures 1 <= w.word <= |Flatten(ViewOf(temp))| + 1
    ensures Flatten(ViewOf(u)) == SpliceAt(Flatten(ViewOf(temp)), w.word - 1, Inserted(w))
  {
    if temp == "" {
      WriteIntoEmpty(w, u);
      assert SpliceAt([], 0, Inserted(w)) == Inserted(w);
    } else {
      ParseIsCut(temp);
      WriteSplices(temp, 0, w, u);
      assert ViewOf(temp)[0..] == ViewOf(temp) && ViewOf(u)[0..] == ViewOf(u);
    }
  }

  // ----- the committed file -----

  lemma {:induction false} LastIsInside(base: string, k: nat, ws: seq<Write>)
    requires k + 1 >= |ViewOf(base)| && !(base == "" && k == 1)
    requires RunWrites(base, k, ws).Some?
    ensures AllInside(base, k, ws)
  {
    if ws != [] {
      LastIsInside(base, k, ws[..|ws| - 1]);
    }
  }

  lemma FlattenShape(base: Doc, k: nat, own: Doc, spill: seq<Token>)
    requires k + 1 < |base|
    ensures Flatten(base[..k] + own + Push(spill, base[k + 1..]))
         == Flatten(base[..k]) + (Flatten(own) + spill) + Flatten(base[k + 1..])
  {
    FlattenThree(base[..k], own, Push(spill, base[k + 1..]));
    FlattenPush(spill, base[k + 1..]);
    Assoc(Flatten(base[..k]) + Flatten(own), spill, Flatten(base[k + 1..]));
    Assoc(Flatten(base[..k]), Flatten(own), spill);
  }

  /** The session's copy holds the base's real tokens with every inserted text spliced into sentence `k`. */
  lemma CopyHoldsEverything(base: string, k: nat, ws: seq<Write>, temp: string)
    requires k < |ViewOf(base)| && RunWrites(base, k, ws) == Some(temp)
    ensures Real(Tokens(temp))
         == Flatten(ViewOf(base)[..k]) + Spliced(ViewOf(base)[k], ws) + Flatten(ViewOf(base)[k + 1..])
  {
    var b, v := ViewOf(base), ViewOf(temp);
    FlattenView(Tokens(temp));
    if k + 1 < |b| {
      var own, spill := WritesBeforeOthers(base, k, ws, temp);
      FlattenShape(b, k, own, spill);
    } else {
      WritesIntoLast(base, k, ws, temp);
      assert v == v[..k] + v[k..];
      FlattenAppend(v[..k], v[k..]);
      assert b[k + 1..] == [];
    }
  }

  /** Committing on the unchanged file puts the session's sentences in the place of sentence `k`. */
  lemma CommitOnBase(base: string, k: nat, temp: string, u: string)
    requires k < |ViewOf(base)| <= |ViewOf(temp)|
    requires MergeText(base, temp, k, |ViewOf(base)|) == Some(u)
    ensures ViewOf(u) == ViewOf(base)[..k] + OwnSentences(ViewOf(temp), k, |ViewOf(base)|) + ViewOf(base)[k + 1..]
  {
    MergeReplacesOneSentence(base, temp, k, |ViewOf(base)|, u, k);
  }

  lemma SpillShows(x: seq<Token>, y: seq<Token>, spill: seq<Token>, z: seq<Token>)
    ensures x + y + z == x + (y + spill) + z <==> spill == []
  {
    if spill == [] {
      assert y + spill == y;
    } else {
      assert |x + y + z| < |x + (y + spill) + z|;
    }
  }

  lemma SpilledIsLost(b: Doc, k: nat, own: Doc, spill: seq<Token>, v: Doc, vu: Doc)
    requires Shape(b, k, own, spill, v)
    requires vu == b[..k] + own + b[k + 1..]
    ensures Flatten(vu) == Flatten(v) <==> spill == []
  {
    FlattenThree(b[..k], own, b[k + 1..]);
    FlattenShape(b, k, own, spill);
    SpillShows(Flatten(b[..k]), Flatten(own), spill, Flatten(b[k + 1..]));
  }

  lemma OwnOfShape(b: Doc, k: nat, own: Doc, spill: seq<Token>, v: Doc)
    requires Shape(b, k, own, spill, v)
    ensures |b| <= |v| && OwnSentences(v, k, |b|) == own
  {
  }

  lemma SessionInMiddle(base: string, k: nat, ws: seq<Write>, temp: string, vu: Doc)
    requires k + 1 < |ViewOf(base)| && RunWrites(base, k, ws) == Some(temp)
    requires vu == ViewOf(base)[..k] + OwnSentences(ViewOf(temp), k, |ViewOf(base)|) + ViewOf(base)[k + 1..]
    ensures Flatten(vu) == Flatten(ViewOf(temp)) <==> AllInside(base, k, ws)
  {
    var own, spill := WritesBeforeOthers(base, k, ws, temp);
    OwnOfShape(ViewOf(base), k, own, spill, ViewOf(temp));
    SpilledIsLost(ViewOf(base), k, own, spill, ViewOf(temp), vu);
  }

  lemma OwnIsRest(b: Doc, k: nat, v: Doc, vu: Doc)
    requires k + 1 == |b| <= |v| && v[..k] == b[..k]
    requires vu == b[..k] + OwnSentences(v, k, |b|) + b[k + 1..]
    ensures vu == v
  {
    assert OwnSentences(v, k, |b|) == v[k..];
    assert v == v[..k] + v[k..];
  }

  lemma SessionAtEnd(base: string, k: nat, ws: seq<Write>, temp: string, vu: Doc)
    requires k + 1 == |ViewOf(base)| && RunWrites(base, k, ws) == Some(temp)
    requires vu == ViewOf(base)[..k] + OwnSentences(ViewOf(temp), k, |ViewOf(base)|) + ViewOf(base)[k + 1..]
    ensures vu == ViewOf(temp) && AllInside(base, k, ws)
  {
    WritesIntoLast(base, k, ws, temp);
    OwnIsRest(ViewOf(base), k, ViewOf(temp), vu);
    LastIsInside(base, k, ws);
  }

  /** A session commits all it wrote exactly when every write stayed inside: then the main file has the copy's real
      tokens, otherwise the tokens that spilled into the next sentence are lost. */
  lemma SessionCommits(base: string, k: nat, ws: seq<Write>, temp: string, u: string)
    requires k < |ViewOf(base)| && RunWrites(base, k, ws) == Some(temp)
    requires MergeText(base, temp, k, |ViewOf(base)|) == Some(u)
    ensures Real(Tokens(u)) == Real(Tokens(temp)) <==> AllInside(base, k, ws)
  {
    FlattenView(Tokens(u));
    FlattenView(Tokens(temp));
    CommitOnBase(base, k, temp, u);
    if k + 1 < |ViewOf(base)| {
      SessionInMiddle(base, k, ws, temp, ViewOf(u));
    } else {
      SessionAtEnd(base, k, ws, temp, ViewOf(u));
    }
  }

  /** A session on an empty file commits all it wrote. */
  lemma SessionOnEmptyFile(ws: seq<Write>, temp: string, u: string)
    requires RunWrites("", 0, ws) == Some(temp) && MergeText("", temp, 0, 0) == Some(u)
    ensures Real(Tokens(u)) == Real(Tokens(temp)) == Spliced([], ws)
  {
    MergeIntoEmpty(temp);
    WritesIntoEmpty(ws, temp);
    FlattenView(Tokens(u));
    FlattenView(Tokens(temp));
  }
}
