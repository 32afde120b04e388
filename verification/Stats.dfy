/** `get_file_stats`, and how its counts and the stored text relate to the tokens. */
module Stats {
  import opened Text
  import opened NormalForm
  import opened Tokeniser

  /** The number of maximal runs of letters. */
  function WordCount(t: string): nat
    decreases |t|
  {
    if t == "" then 0
    else if KindOf(t[0]) == Letter then 1 + WordCount(t[Run(t, Letter)..])
    else WordCount(t[1..])
  }

  /** What is still to be counted, inside a word or between words. */
  function Ahead(inWord: bool, rest: string): nat {
    if inWord then 1 + WordCount(rest[Run(rest, Letter)..]) else WordCount(rest)
  }

  lemma AheadStep(inWord: bool, rest: string)
    requires rest != ""
    ensures Ahead(inWord, rest)
         == Ahead(KindOf(rest[0]) == Letter, rest[1..]) + (if inWord && KindOf(rest[0]) != Letter then 1 else 0)
  {
    if KindOf(rest[0]) == Letter {
      assert rest[Run(rest, Letter)..] == rest[1..][Run(rest[1..], Letter)..];
    } else {
      assert rest[0..] == rest;
    }
  }

  /** Words and characters of a text; delimiters end words and are not counted as words. */
  method GetFileStats(text: string) returns (words: nat, chars: nat)
    ensures words == WordCount(text) && chars == |text|
  {
    words, chars := 0, 0;
    var inWord := false;
    assert text[0..] == text;
    while chars < |text|
      invariant 0 <= chars <= |text|
      invariant words + Ahead(inWord, text[chars..]) == WordCount(text)
    {
      var c := text[chars];
      AheadStep(inWord, text[chars..]);
      assert text[chars..][1..] == text[chars + 1..];
      chars := chars + 1;
      if KindOf(c) == Letter {
        inWord := true;
      } else if inWord {
        words := words + 1;
        inWord := false;
      }
    }
    if inWord {
      words := words + 1;
    }
  }

  function WordTokens(ts: seq<Token>): nat {
    if ts == [] then 0 else (if IsWord(ts[0]) then 1 else 0) + WordTokens(ts[1..])
  }

  lemma {:induction false} WordCountSkips(t: string, n: nat)
    requires n <= |t| && forall i :: 0 <= i < n ==> KindOf(t[i]) != Letter
    ensures WordCount(t) == WordCount(t[n..])
    decreases n
  {
    if n == 0 {
      assert t[0..] == t;
    } else {
      WordCountSkips(t[1..], n - 1);
      assert t[1..][n - 1..] == t[n..];
    }
  }

  lemma RunBeforeRest(t: string, k: Kind, n: nat, i: nat)
    requires i < n <= |t| && Run(t, k) <= MAX_TOKEN
    requires n == Run(t, k) || forall i :: 0 <= i < n ==> KindOf(t[i]) != k
    ensures Run(t[i..], k) <= MAX_TOKEN
  {
    if n == Run(t, k) {
      RunDrop(t, k, i);
    } else {
      assert t[i..][0] == t[i];
    }
  }

  lemma RunInRest(t: string, k: Kind, n: nat, i: nat)
    requires n <= i < |t|
    ensures t[n..][i - n..] == t[i..]
  {
  }

  /** Whether the runs fit is decided by the first run and the rest. */
  lemma RunsFitSplit(t: string, k: Kind, n: nat)
    requires 1 <= n <= |t| && Run(t, k) <= MAX_TOKEN
    requires n == Run(t, k) || forall i :: 0 <= i < n ==> KindOf(t[i]) != k
    ensures RunsFit(t, k) <==> RunsFit(t[n..], k)
  {
    if RunsFit(t[n..], k) {
      forall i | 0 <= i < |t|
        ensures Run(t[i..], k) <= MAX_TOKEN
      {
        if i < n {
          RunBeforeRest(t, k, n, i);
        } else {
          RunInRest(t, k, n, i);
        }
      }
    }
    if RunsFit(t, k) {
      forall i | 0 <= i < |t[n..]|
        ensures Run(t[n..][i..], k) <= MAX_TOKEN
      {
        RunInRest(t, k, n, n + i);
      }
    }
  }

  lemma WordCountChop(t: string)
    requires Run(t, Letter) > MAX_TOKEN
    ensures WordCount(t[MAX_TOKEN..]) == WordCount(t)
  {
    RunDrop(t, Letter, MAX_TOKEN);
    assert t[..Run(t, Letter)][MAX_TOKEN] == t[MAX_TOKEN];
    assert t[MAX_TOKEN..][Run(t, Letter) - MAX_TOKEN..] == t[Run(t, Letter)..];
  }

  lemma NoLetterInSpan(t: string)
    requires t != "" && KindOf(t[0]) != Letter
    ensures forall i :: 0 <= i < Span(t) ==> KindOf(t[i]) != Letter
  {
    assert forall i :: 0 <= i < Span(t) ==> t[..Span(t)][i] == t[i];
  }

  /** The word count of a text is the number of its word tokens exactly when no word is too long for one token;
      otherwise it is smaller. */
  lemma {:induction false} WordCountIsWordTokens(t: string)
    ensures WordCount(t) <= WordTokens(Tokens(t))
    ensures WordCount(t) == WordTokens(Tokens(t)) <==> RunsFit(t, Letter)
    decreases |t|
  {
    if t != "" {
      var x, n := FirstToken(t), Span(t);
      KindOfFirst(x);
      assert ([x] + Tokens(t[n..]))[1..] == Tokens(t[n..]);
      WordCountIsWordTokens(t[n..]);
      if KindOf(t[0]) != Letter {
        NoLetterInSpan(t);
        WordCountSkips(t, n);
        RunsFitSplit(t, Letter, n);
      } else if Run(t, Letter) > MAX_TOKEN {
        WordCountChop(t);
        assert t[0..] == t;
      } else {
        RunsFitSplit(t, Letter, n);
      }
    }
  }

  lemma LongRun(t: string, k: Kind)
    requires Run(t, k) > MAX_TOKEN
    ensures !RunsFit(t, k)
  {
    assert t[0..] == t;
  }

  lemma TokensStep(t: string)
    requires t != ""
    ensures Concat(Tokens(t)) == FirstToken(t) + Concat(Tokens(t[Span(t)..]))
  {
    assert ([FirstToken(t)] + Tokens(t[Span(t)..]))[1..] == Tokens(t[Span(t)..]);
  }

  lemma CoverStep(t: string, x: Token, n: nat)
    requires t != "" && n == Span(t) && x == FirstToken(t) == t[..n]
    ensures Concat(Tokens(t)) == t <==> Concat(Tokens(t[n..])) == t[n..]
  {
    TokensStep(t);
    assert t == x + t[n..];
    CancelFront(x, Concat(Tokens(t[n..])), t[n..]);
  }

  /** The tokens make up the whole text exactly when no run of blanks is too long for one token. */
  lemma {:induction false} TokensCoverText(t: string)
    ensures |Concat(Tokens(t))| <= |t|
    ensures Concat(Tokens(t)) == t <==> RunsFit(t, Blank)
    decreases |t|
  {
    if t != "" {
      TokensCoverText(t[Span(t)..]);
      TokensStep(t);
      if KindOf(t[0]) == Blank && Run(t, Blank) > MAX_TOKEN {
        LongRun(t, Blank);
      } else {
        CoverStep(t, FirstToken(t), Span(t));
        NoBlankInSpan(t);
        RunsFitSplit(t, Blank, Span(t));
      }
    }
  }

  lemma NoBlankInSpan(t: string)
    requires t != ""
    ensures KindOf(t[0]) == Blank || forall i :: 0 <= i < Span(t) ==> KindOf(t[i]) != Blank
  {
    if KindOf(t[0]) == Letter {
      assert forall i :: 0 <= i < Span(t) ==> t[..Run(t, Letter)][i] == t[i];
    }
  }
}
