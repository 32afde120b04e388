/** Characters and tokens of a stored text: what `parse_file` and `split_by_delimiters` cut a text into,
    as one function of the text, and what that function guarantees. */
module Text {

  // MAX_WORD is the size of the C word buffers, so a token holds at most MAX_WORD - 1 characters.
  const MAX_WORD := 128
  const MAX_TOKEN := MAX_WORD - 1

  type Token = string

  datatype Kind = Blank | Newline | Delimiter | Letter

  predicate IsDelimiter(c: char) {
    c == '.' || c == '!' || c == '?'
  }

  function KindOf(c: char): Kind {
    if c == ' ' || c == '\t' || c == '\r' then Blank
    else if c == '\n' then Newline
    else if IsDelimiter(c) then Delimiter
    else Letter
  }

  predicate AllOf(t: string, k: Kind) {
    forall i :: 0 <= i < |t| ==> KindOf(t[i]) == k
  }

  predicate IsSpaceToken(t: Token) {
    t != "" && AllOf(t, Blank)
  }

  predicate IsNewlineToken(t: Token) {
    t == "\n"
  }

  /** Tokens that word indices do not count. */
  predicate IsSkip(t: Token) {
    IsSpaceToken(t) || IsNewlineToken(t)
  }

  /** The C code looks at the first character only. */
  predicate IsDelimToken(t: Token) {
    t != "" && IsDelimiter(t[0])
  }

  predicate IsWord(t: Token) {
    t != "" && AllOf(t, Letter)
  }

  /** The tokens that a tokeniser can produce. */
  predicate WellFormed(t: Token) {
    && 1 <= |t| <= MAX_TOKEN
    && (IsWord(t) || IsSpaceToken(t) || IsNewlineToken(t) || (|t| == 1 && IsDelimiter(t[0])))
  }

  predicate AllWellFormed(ts: seq<Token>) {
    forall i :: 0 <= i < |ts| ==> WellFormed(ts[i])
  }

  function Min(a: nat, b: nat): nat {
    if a <= b then a else b
  }

  /** Length of the longest prefix of `t` whose characters all have kind `k`. */
  function Run(t: string, k: Kind): (n: nat)
    ensures n <= |t| && AllOf(t[..n], k)
    ensures n < |t| ==> KindOf(t[n]) != k
  {
    if t == "" || KindOf(t[0]) != k then 0 else
      var n := 1 + Run(t[1..], k);
      assert t[..n] == [t[0]] + t[1..][..n - 1];
      n
  }

  /** Number of characters that the first token of `t` consumes: a whole blank run, a letter run chopped at
      MAX_TOKEN characters, or one newline or delimiter. */
  function Span(t: string): (n: nat)
    requires t != ""
    ensures 1 <= n <= |t|
  {
    match KindOf(t[0])
    case Blank => Run(t, Blank)
    case Letter => Min(Run(t, Letter), MAX_TOKEN)
    case _ => 1
  }

  /** The first token of `t`; a blank run keeps its first MAX_TOKEN characters only. */
  function FirstToken(t: string): (tok: Token)
    requires t != ""
    ensures WellFormed(tok) && tok[0] == t[0]
  {
    t[..Min(Span(t), MAX_TOKEN)]
  }

  function Tokens(t: string): (ts: seq<Token>)
    ensures AllWellFormed(ts)
    ensures ts == [] <==> t == ""
  {
    if t == "" then [] else [FirstToken(t)] + Tokens(t[Span(t)..])
  }

  function Concat(ts: seq<Token>): string {
    if ts == [] then "" else ts[0] + Concat(ts[1..])
  }

  /** All characters that the first token consumes are of one kind. */
  lemma SpanIsOneKind(t: string)
    requires t != ""
    ensures AllOf(t[..Span(t)], KindOf(t[0]))
  {
    if KindOf(t[0]) == Letter {
      assert forall i :: 0 <= i < Span(t) ==> t[..Span(t)][i] == t[..Run(t, Letter)][i];
    }
  }

  /** The last token is of the kind of the last character. */
  lemma {:induction false} LastTokenShows(t: string)
    requires t != ""
    ensures var ts := Tokens(t); ts[|ts| - 1] != "" && KindOf(ts[|ts| - 1][0]) == KindOf(t[|t| - 1])
    decreases |t|
  {
    var n := Span(t);
    var rest := t[n..];
    if rest == "" {
      SpanIsOneKind(t);
      assert t[..n] == t;
      assert Tokens(t) == [FirstToken(t)];
    } else {
      LastTokenShows(rest);
      assert rest[|rest| - 1] == t[|t| - 1];
      assert Tokens(t)[|Tokens(t)| - 1] == Tokens(rest)[|Tokens(rest)| - 1];
    }
  }

  lemma Assoc<T>(a: seq<T>, b: seq<T>, c: seq<T>)
    ensures a + (b + c) == a + b + c
  {
  }

  lemma Around<T>(s: seq<T>, k: nat)
    requires k < |s|
    ensures s == s[..k] + [s[k]] + s[k + 1..]
  {
  }

  lemma SliceParts<T>(front: seq<T>, own: seq<T>, rest: seq<T>, v: seq<T>)
    requires v == front + own + rest && own != []
    ensures v[..|front|] == front && v[|front|] == own[0] && v[|front| + 1..] == own[1..] + rest
  {
  }

  lemma CancelFront<T>(x: seq<T>, a: seq<T>, b: seq<T>)
    ensures x + a == x + b <==> a == b
  {
    assert (x + a)[|x|..] == a && (x + b)[|x|..] == b;
  }

  lemma {:induction false} RunAtLeast(t: string, k: Kind, n: nat)
    requires n <= |t| && AllOf(t[..n], k)
    ensures Run(t, k) >= n
    ensures n == |t| || KindOf(t[n]) != k ==> Run(t, k) == n
  {
    if n > 0 {
      assert t[..n][0] == t[0];
      assert t[1..][..n - 1] == t[..n][1..];
      RunAtLeast(t[1..], k, n - 1);
    }
  }

  // ----- one step of a tokeniser -----

  /** A pending word is a token of its own as soon as it is full or the next character is no letter. */
  lemma WordStep(w: string, rest: string)
    requires IsWord(w) && |w| <= MAX_TOKEN
    requires |w| == MAX_TOKEN || rest == "" || KindOf(rest[0]) != Letter
    ensures Tokens(w + rest) == [w] + Tokens(rest)
  {
    var t := w + rest;
    assert t[..|w|] == w && t[|w|..] == rest;
    assert KindOf(t[0]) == KindOf(w[0]) == Letter;
    if |w| == MAX_TOKEN {
      RunAtLeast(t, Letter, |w|);
    } else {
      RunAtLeast(t, Letter, |w|);
    }
  }

  /** A maximal blank run becomes one token, cut off after MAX_TOKEN characters. */
  lemma BlankStep(b: string, rest: string)
    requires IsSpaceToken(b)
    requires rest == "" || KindOf(rest[0]) != Blank
    ensures Tokens(b + rest) == [b[..Min(|b|, MAX_TOKEN)]] + Tokens(rest)
  {
    var t := b + rest;
    assert t[..|b|] == b && t[|b|..] == rest;
    assert KindOf(t[0]) == KindOf(b[0]) == Blank;
    RunAtLeast(t, Blank, |b|);
    assert t[..Min(|b|, MAX_TOKEN)] == b[..Min(|b|, MAX_TOKEN)];
  }

  lemma SingleStep(c: char, rest: string)
    requires KindOf(c) == Newline || KindOf(c) == Delimiter
    ensures Tokens([c] + rest) == [[c]] + Tokens(rest)
  {
    assert ([c] + rest)[1..] == rest;
  }

  // ----- tokens and text -----

  /** Printed next to each other, the two tokens read as one. */
  predicate Fuse(a: Token, b: Token) {
    (IsSpaceToken(a) && IsSpaceToken(b)) || (IsWord(a) && IsWord(b))
  }

  /** A token list that a tokeniser leaves alone. */
  predicate Canonical(ts: seq<Token>) {
    && AllWellFormed(ts)
    && forall i :: 0 <= i < |ts| - 1 ==> !Fuse(ts[i], ts[i + 1])
  }

  lemma KindOfFirst(t: Token)
    requires WellFormed(t)
    ensures IsWord(t) <==> KindOf(t[0]) == Letter
    ensures IsSpaceToken(t) <==> KindOf(t[0]) == Blank
    ensures IsNewlineToken(t) <==> KindOf(t[0]) == Newline
    ensures IsDelimToken(t) <==> KindOf(t[0]) == Delimiter
  {
  }

  lemma TokenStep(x: Token, rest: string)
    requires WellFormed(x)
    requires IsWord(x) || IsSpaceToken(x) ==> rest == "" || KindOf(rest[0]) != KindOf(x[0])
    ensures Tokens(x + rest) == [x] + Tokens(rest)
  {
    if IsWord(x) {
      WordStep(x, rest);
    } else if IsSpaceToken(x) {
      BlankStep(x, rest);
    } else {
      assert x == [x[0]];
      SingleStep(x[0], rest);
    }
  }

  /** Tokenising is the only way to write a text as a canonical token list. */
  lemma {:induction false} TokensOfConcat(ts: seq<Token>)
    requires Canonical(ts)
    ensures Tokens(Concat(ts)) == ts
  {
    if ts != [] {
      assert Canonical(ts[1..]) by {
        assert forall i :: 0 <= i < |ts| - 1 ==> ts[1..][i] == ts[i + 1];
      }
      TokensOfConcat(ts[1..]);
      assert WellFormed(ts[0]);
      KindOfFirst(ts[0]);
      if |ts| > 1 {
        assert WellFormed(ts[1]) && !Fuse(ts[0], ts[0 + 1]);
        KindOfFirst(ts[1]);
        assert Concat(ts[1..])[0] == ts[1][0];
      }
      TokenStep(ts[0], Concat(ts[1..]));
      assert ts == [ts[0]] + ts[1..];
    }
  }
}
