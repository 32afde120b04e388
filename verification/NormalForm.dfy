/** Printing a parsed text: it settles after one round, and it gives the text back exactly when the text is tidy. */
module NormalForm {
  import opened Text
  import opened Document
  import opened PrintParse

  /** What a text becomes when a server parses it and writes it back. */
  function Rewrite(t: string): string {
    Print(Parse(t))
  }

  // ----- the printed token stream of a parsed text -----

  /** What the printer puts between two neighbouring tokens of a parsed text. */
  function Gap(a: Token, b: Token): seq<Token> {
    if !IsSkip(a) && !IsSkip(b) && (IsDelimToken(a) || !IsDelimToken(b)) then [" "] else []
  }

  function Weave(ts: seq<Token>): seq<Token> {
    if |ts| <= 1 then ts else [ts[0]] + Gap(ts[0], ts[1]) + Weave(ts[1..])
  }

  lemma CutHead(ts: seq<Token>)
    requires ts != []
    ensures Cut(ts) != [] && Cut(ts)[0] != [] && Cut(ts)[0][0] == ts[0]
  {
  }

  lemma {:induction false} SpacedCut(ts: seq<Token>)
    ensures Spaced(Cut(ts)) == Weave(ts)
  {
    if |ts| == 1 {
      assert ts[1..] == [] && ts == [ts[0]];
      assert Cut(ts) == [[ts[0]]];
      assert Spaced(Cut(ts)[1..]) == [];
    } else if |ts| > 1 {
      var d := Cut(ts[1..]);
      SpacedCut(ts[1..]);
      CutHead(ts[1..]);
      if IsDelimToken(ts[0]) {
        SpacedAfterDelimiter(ts[0], d);
      } else {
        SpacedInsideSentence(ts[0], d);
      }
    }
  }

  lemma SpacedAfterDelimiter(t: Token, d: Doc)
    requires IsDelimToken(t) && d != [] && d[0] != []
    ensures Spaced([[t]] + d) == [t] + Gap(t, d[0][0]) + Spaced(d)
  {
    var doc := [[t]] + d;
    assert doc[1..] == d && doc[1] == d[0];
    assert SentenceBreak(doc) == Gap(t, d[0][0]);
  }

  lemma SentenceWithHead(t: Token, s: Sentence)
    requires !IsDelimToken(t) && s != []
    ensures SpacedSentence([t] + s) == [t] + Gap(t, s[0]) + SpacedSentence(s)
  {
    assert ([t] + s)[1..] == s && ([t] + s)[1] == s[0];
    assert SentenceGap([t] + s) == Gap(t, s[0]);
  }

  lemma BreakWithHead(t: Token, d: Doc)
    requires d != [] && d[0] != []
    ensures SentenceBreak(Push([t], d)) == SentenceBreak(d)
  {
    var doc := Push([t], d);
    assert doc[0][|doc[0]| - 1] == d[0][|d[0]| - 1];
    assert |d| > 1 ==> doc[1] == d[1];
  }

  lemma SpacedInsideSentence(t: Token, d: Doc)
    requires !IsDelimToken(t) && d != [] && d[0] != []
    ensures Spaced(Push([t], d)) == [t] + Gap(t, d[0][0]) + Spaced(d)
  {
    var g, sp, br, r := Gap(t, d[0][0]), SpacedSentence(d[0]), SentenceBreak(d), Spaced(d[1..]);
    SentenceWithHead(t, d[0]);
    BreakWithHead(t, d);
    assert Push([t], d)[1..] == d[1..];
    assert Spaced(Push([t], d)) == [t] + g + sp + br + r;
    Assoc([t] + g, sp, br);
    Assoc([t] + g, sp + br, r);
  }

  lemma RewriteIsWeave(t: string)
    ensures Rewrite(t) == Concat(Weave(Tokens(t)))
  {
    PrintIsConcat(Parse(t));
    SpacedCut(Tokens(t));
  }

  // ----- idempotence -----

  predicate NoDoubleBlank(ts: seq<Token>) {
    forall i :: 0 <= i < |ts| - 1 ==> !(IsSpaceToken(ts[i]) && IsSpaceToken(ts[i + 1]))
  }

  lemma {:induction false} TokensHaveNoDoubleBlank(t: string)
    ensures NoDoubleBlank(Tokens(t))
  {
    if t != "" {
      var x, rest := FirstToken(t), t[Span(t)..];
      var ts := Tokens(rest);
      TokensHaveNoDoubleBlank(rest);
      KindOfFirst(x);
      if rest != "" {
        KindOfFirst(FirstToken(rest));
        assert !(IsSpaceToken(x) && IsSpaceToken(ts[0]));
      }
      assert forall i :: 1 <= i < |Tokens(t)| ==> Tokens(t)[i] == ts[i - 1];
    }
  }

  lemma {:induction false} WeaveIsCanonical(ts: seq<Token>)
    requires AllWellFormed(ts) && NoDoubleBlank(ts)
    ensures Canonical(Weave(ts))
    ensures Weave(Weave(ts)) == Weave(ts)
    ensures ts != [] ==> Weave(ts) != [] && Weave(ts)[0] == ts[0]
  {
    if |ts| > 1 {
      assert AllWellFormed(ts[1..]) && NoDoubleBlank(ts[1..]) by {
        assert forall i :: 0 <= i < |ts[1..]| ==> ts[1..][i] == ts[i + 1];
      }
      WeaveIsCanonical(ts[1..]);
      assert WellFormed(ts[0]) && !(IsSpaceToken(ts[0]) && IsSpaceToken(ts[0 + 1]));
      WeaveStep(ts[0], Weave(ts[1..]));
    }
  }

  lemma CanonicalCons(a: Token, w: seq<Token>)
    requires WellFormed(a) && Canonical(w) && (w == [] || !Fuse(a, w[0]))
    ensures Canonical([a] + w)
  {
    var u := [a] + w;
    forall i | 0 <= i < |u| - 1
      ensures !Fuse(u[i], u[i + 1])
    {
      if i > 0 {
        assert !Fuse(w[i - 1], w[i - 1 + 1]);
      }
    }
  }

  lemma WeaveCons(a: Token, w: seq<Token>)
    requires w != [] && Weave(w) == w && Gap(a, w[0]) == []
    ensures Weave([a] + w) == [a] + w
  {
    assert ([a] + w)[1..] == w && ([a] + w)[1] == w[0];
  }

  lemma WeaveStep(a: Token, w: seq<Token>)
    requires WellFormed(a) && Canonical(w) && Weave(w) == w && w != []
    requires !(IsSpaceToken(a) && IsSpaceToken(w[0]))
    ensures Canonical([a] + Gap(a, w[0]) + w)
    ensures Weave([a] + Gap(a, w[0]) + w) == [a] + Gap(a, w[0]) + w
  {
    BlankIsSpace();
    if Gap(a, w[0]) == [" "] {
      CanonicalCons(" ", w);
      WeaveCons(" ", w);
      CanonicalCons(a, [" "] + w);
      WeaveCons(a, [" "] + w);
      assert [a] + Gap(a, w[0]) + w == [a] + ([" "] + w);
    } else {
      if IsWord(a) && IsWord(w[0]) {
        WordIsReal(a);
        WordIsReal(w[0]);
      }
      CanonicalCons(a, w);
      WeaveCons(a, w);
      assert [a] + Gap(a, w[0]) + w == [a] + w;
    }
  }

  /** Writing a text back a second time changes nothing. */
  lemma RewriteIsIdempotent(t: string)
    ensures Rewrite(Rewrite(t)) == Rewrite(t)
  {
    var ts := Tokens(t);
    TokensHaveNoDoubleBlank(t);
    WeaveIsCanonical(ts);
    RewriteIsWeave(t);
    TokensOfConcat(Weave(ts));
    RewriteIsWeave(Rewrite(t));
  }

  // ----- when nothing changes -----

  /** No run of letters or blanks from position `i` on outgrows a word buffer, and a delimiter at `i` is followed by
      white space or the end. */
  predicate TidyAt(t: string, i: nat)
    requires i < |t|
  {
    && Run(t[i..], Letter) <= MAX_TOKEN
    && Run(t[i..], Blank) <= MAX_TOKEN
    && (IsDelimiter(t[i]) && i + 1 < |t| ==> KindOf(t[i + 1]) == Blank || KindOf(t[i + 1]) == Newline)
  }

  predicate Tidy(t: string) {
    forall i :: 0 <= i < |t| ==> TidyAt(t, i)
  }

  /** What `Tidy` asks of the first token of `t`. */
  predicate TidyHead(t: string)
    requires t != ""
  {
    match KindOf(t[0])
    case Letter => Run(t, Letter) <= MAX_TOKEN
    case Blank => Run(t, Blank) <= MAX_TOKEN
    case Delimiter => |t| == 1 || KindOf(t[1]) == Blank || KindOf(t[1]) == Newline
    case Newline => true
  }

  lemma RunDrop(t: string, k: Kind, i: nat)
    requires i <= Run(t, k)
    ensures Run(t[i..], k) == Run(t, k) - i
  {
    var n := Run(t, k);
    assert t[i..][..n - i] == t[..n][i..];
    RunAtLeast(t[i..], k, n - i);
  }

  lemma TidyInside(t: string, i: nat)
    requires t != "" && TidyHead(t) && i < Span(t)
    ensures TidyAt(t, i)
  {
    var n := Span(t);
    var k := KindOf(t[0]);
    if k == Letter || k == Blank {
      assert t[..n][i] == t[i];
      RunDrop(t, k, i);
      assert t[i..][0] == t[i];
    } else {
      assert t[i..] == t;
    }
  }

  lemma TidySplit(t: string)
    requires t != ""
    ensures Tidy(t) <==> TidyHead(t) && Tidy(t[Span(t)..])
  {
    var n := Span(t);
    var rest := t[n..];
    forall i | 0 <= i < |rest|
      ensures TidyAt(rest, i) <==> TidyAt(t, n + i)
    {
      assert rest[i..] == t[n + i..];
    }
    assert t[0..] == t;
    assert TidyAt(t, 0) ==> TidyHead(t);
    if TidyHead(t) && Tidy(rest) {
      forall i | 0 <= i < |t|
        ensures TidyAt(t, i)
      {
        if i < n {
          TidyInside(t, i);
        } else {
          assert TidyAt(rest, i - n);
        }
      }
    }
    if Tidy(t) {
      forall i | 0 <= i < |rest|
        ensures TidyAt(rest, i)
      {
        assert TidyAt(t, n + i);
      }
    }
  }

  function GapText(t: string): string
    requires t != ""
  {
    if t[Span(t)..] == "" then "" else Concat(Gap(FirstToken(t), FirstToken(t[Span(t)..])))
  }

  lemma RewriteStep(t: string)
    requires t != ""
    ensures Rewrite(t) == FirstToken(t) + GapText(t) + Rewrite(t[Span(t)..])
    ensures Rewrite(t)[0] == t[0]
  {
    var x, rest := FirstToken(t), t[Span(t)..];
    var ts := Tokens(rest);
    RewriteIsWeave(t);
    RewriteIsWeave(rest);
    ConcatSingle(x);
    if rest == "" {
      assert Tokens(t) == [x];
    } else {
      var g := Gap(x, ts[0]);
      assert Tokens(t)[1..] == ts && Tokens(t)[1] == FirstToken(rest);
      ConcatAppend([x] + g, Weave(ts));
      ConcatAppend([x], g);
    }
  }

  /** The head of a text is rewritten to itself exactly when the head is tidy. */
  lemma TidyHeadIsKept(t: string)
    requires t != ""
    ensures TidyHead(t) <==> FirstToken(t) == t[..Span(t)] && GapText(t) == ""
  {
    var n := Span(t);
    var x, rest := FirstToken(t), t[n..];
    KindOfFirst(x);
    ConcatSingle(" ");
    if rest != "" {
      KindOfFirst(FirstToken(rest));
      assert rest[0] == t[n];
      TidyGap(x, FirstToken(rest));
    }
  }

  lemma TidyGap(x: Token, y: Token)
    requires WellFormed(x) && WellFormed(y)
    ensures Gap(x, y) == [] <==>
      match KindOf(x[0])
      case Letter => KindOf(y[0]) != Letter
      case Delimiter => KindOf(y[0]) == Blank || KindOf(y[0]) == Newline
      case _ => true
  {
    KindOfFirst(x);
    KindOfFirst(y);
  }

  lemma LongBlankRunShrinks(t: string)
    requires t != "" && KindOf(t[0]) == Blank && Span(t) > MAX_TOKEN
    ensures Rewrite(t) != t
  {
    var n := Span(t);
    var x, rest := FirstToken(t), t[n..];
    RewriteStep(t);
    KindOfFirst(x);
    assert GapText(t) == "";
    assert x + "" == x;
    assert KindOf(t[..n][MAX_TOKEN]) == Blank && t[..n][MAX_TOKEN] == t[MAX_TOKEN];
    if rest == "" {
      assert |Rewrite(t)| == MAX_TOKEN;
    } else {
      RewriteStep(rest);
      assert Rewrite(t)[MAX_TOKEN] == rest[0];
    }
  }

  lemma GapShows(t: string)
    requires t != "" && Span(t) <= MAX_TOKEN && GapText(t) != ""
    ensures Rewrite(t) != t
  {
    var n := Span(t);
    RewriteStep(t);
    ConcatSingle(" ");
    KindOfFirst(FirstToken(t[n..]));
    assert Rewrite(t)[n] == ' ';
    assert t[n] == t[n..][0];
  }

  /** Writing a parsed text back is the identity on tidy texts and on no others. */
  lemma {:induction false} RewriteIsIdentityIffTidy(t: string)
    ensures Rewrite(t) == t <==> Tidy(t)
    decreases |t|
  {
    if t != "" {
      var n := Span(t);
      TidySplit(t);
      TidyHeadIsKept(t);
      if n > MAX_TOKEN {
        LongBlankRunShrinks(t);
      } else if GapText(t) != "" {
        GapShows(t);
      } else {
        RewriteIsIdentityIffTidy(t[n..]);
        RewriteStep(t);
        IdentitySplit(t, Rewrite(t[n..]), n);
      }
    }
  }

  lemma IdentitySplit(t: string, r: string, n: nat)
    requires n <= |t|
    ensures t[..n] + "" + r == t <==> r == t[n..]
  {
    assert t == t[..n] + t[n..];
    assert (t[..n] + "" + r)[n..] == r;
  }
}
