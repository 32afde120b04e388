/** `insert_word_in_sentence` as a function on documents, and what it does to the token stream. */
module Insert {
  import opened Options
  import opened Text
  import opened Document

  /** Index just behind the `n`-th real token of `s`. */
  function Seek(s: Sentence, n: nat): (i: nat)
    requires n <= |Real(s)|
    ensures i <= |s|
  {
    if n == 0 then 0
    else 1 + Seek(s[1..], if IsSkip(s[0]) then n else n - 1)
  }

  /** Where text for the 1-based word index `w` goes: at the very start, at the very end, or right behind word
      `w` - 1. */
  function Position(s: Sentence, w: int): (i: nat)
    requires 1 <= w <= |Real(s)| + 1
    ensures i <= |s|
  {
    if w == 1 then 0
    else if w == |Real(s)| + 1 then |s|
    else Seek(s, w - 1)
  }

  function DelimCount(ts: seq<Token>): nat {
    if ts == [] then 0 else (if IsDelimToken(ts[0]) then 1 else 0) + DelimCount(ts[1..])
  }

  /** Length of the shortest prefix of `ts` that holds all its delimiters. */
  function ThroughLastDelim(ts: seq<Token>): (n: nat)
    ensures n <= |ts|
    ensures n > 0 ==> IsDelimToken(ts[n - 1])
    ensures DelimFree(ts[n..])
  {
    if ts == [] then 0
    else if IsDelimToken(ts[|ts| - 1]) then |ts|
    else
      var n := ThroughLastDelim(ts[..|ts| - 1]);
      assert forall i :: 0 <= i < |ts| - n ==>
        ts[n..][i] == if i == |ts| - n - 1 then ts[|ts| - 1] else ts[..|ts| - 1][n..][i];
      n
  }

  /** The sentence is split in two behind the last inserted delimiter, if more parts follow it. */
  predicate Splits(parts: seq<Token>) {
    0 < ThroughLastDelim(parts) < |parts|
  }

  /** Sentence slots that an insertion adds: one for each delimiter and one for the split. */
  function NewSentences(parts: seq<Token>): nat {
    DelimCount(parts) + (if Splits(parts) then 1 else 0)
  }

  function Empties(n: nat): Doc {
    seq(n, _ => [])
  }

  /** The sentences that take the place of sentence `s`. */
  function Replacement(s: Sentence, a: nat, parts: seq<Token>): (r: Doc)
    requires a <= |s|
    ensures |r| == 1 + NewSentences(parts)
  {
    var n := ThroughLastDelim(parts);
    if Splits(parts) then
      DelimCountPositive(parts);
      [s[..a] + parts[..n], parts[n..] + s[a..]] + Empties(NewSentences(parts) - 1)
    else [s[..a] + parts + s[a..]] + Empties(NewSentences(parts))
  }

  lemma DelimCountPositive(ts: seq<Token>)
    requires ThroughLastDelim(ts) > 0
    ensures DelimCount(ts) > 0
  {
    var n := ThroughLastDelim(ts);
    if !IsDelimToken(ts[0]) {
      assert ts[1..][n - 2] == ts[n - 1];
      DelimCountAt(ts[1..], n - 2);
    }
  }

  lemma {:induction false} DelimCountAt(ts: seq<Token>, i: nat)
    requires i < |ts| && IsDelimToken(ts[i])
    ensures DelimCount(ts) > 0
  {
    if i > 0 {
      DelimCountAt(ts[1..], i - 1);
    }
  }

  lemma {:induction false} DelimCountAppend(a: seq<Token>, b: seq<Token>)
    ensures DelimCount(a + b) == DelimCount(a) + DelimCount(b)
  {
    if a == [] {
      assert a + b == b;
    } else {
      assert (a + b)[0] == a[0] && (a + b)[1..] == a[1..] + b;
      DelimCountAppend(a[1..], b);
    }
  }

  function InsertAt(doc: Doc, k: nat, a: nat, parts: seq<Token>): Doc
    requires k < |doc| && a <= |doc[k]|
  {
    doc[..k] + Replacement(doc[k], a, parts) + doc[k + 1..]
  }

  /** Index |doc| opens a new sentence. */
  function Grown(doc: Doc, k: nat): Doc {
    if k == |doc| then doc + [[]] else doc
  }

  /** The whole operation; None stands for the error return. */
  function InsertWord(doc: Doc, k: int, w: int, content: string): Option<Doc> {
    if k < 0 || k > |doc| then None else
      var grown := Grown(doc, k);
      if w < 1 || w > |Real(grown[k])| + 1 then None
      else if content == "" then Some(grown)
      else Some(InsertAt(grown, k, Position(grown[k], w), Tokens(content)))
  }

  // ----- the insertion is a splice of the token stream -----

  function SpliceAt(ts: seq<Token>, p: nat, parts: seq<Token>): seq<Token>
    requires p <= |ts|
  {
    ts[..p] + parts + ts[p..]
  }

  lemma {:induction false} SeekCounts(s: Sentence, n: nat)
    requires n <= |Real(s)|
    ensures |Real(s[..Seek(s, n)])| == n
  {
    var i := Seek(s, n);
    if n == 0 {
      assert s[..i] == [];
    } else {
      SeekCounts(s[1..], if IsSkip(s[0]) then n else n - 1);
      assert s[..i][0] == s[0] && s[..i][1..] == s[1..][..i - 1];
      assert Real(s[..i]) == RealOne(s[0]) + Real(s[1..][..i - 1]);
    }
  }

  /** The search stops right behind the token that it looks for. */
  lemma {:induction false} SeekStops(s: Sentence, n: nat)
    requires 1 <= n <= |Real(s)|
    ensures Seek(s, n) > 0 && !IsSkip(s[Seek(s, n) - 1])
  {
    if !IsSkip(s[0]) && n == 1 {
      assert Seek(s[1..], 0) == 0;
    } else {
      SeekStops(s[1..], if IsSkip(s[0]) then n else n - 1);
    }
  }

  /** The insertion point, in terms of the sentence: at its start for word 1, at its end behind the last word, and
      otherwise right behind a word or delimiter, with exactly `w` - 1 of them in front. No other place is like that. */
  lemma PositionIff(s: Sentence, w: int, a: nat)
    requires 1 <= w <= |Real(s)| + 1 && a <= |s|
    ensures a == Position(s, w) <==>
      if w == 1 then a == 0
      else if w == |Real(s)| + 1 then a == |s|
      else a > 0 && !IsSkip(s[a - 1]) && |Real(s[..a])| == w - 1
  {
    if 1 < w <= |Real(s)| {
      SeekStops(s, w - 1);
      SeekCounts(s, w - 1);
      var b := Seek(s, w - 1);
      if a > 0 && !IsSkip(s[a - 1]) && |Real(s[..a])| == w - 1 {
        SamePlace(s, a, b);
      }
    }
  }

  lemma RealGrows(s: Sentence, a: nat, b: nat)
    requires a < b <= |s| && !IsSkip(s[b - 1])
    ensures |Real(s[..a])| < |Real(s[..b])|
  {
    assert s[..b] == s[..a] + s[a..b - 1] + [s[b - 1]];
    RealAppend(s[..a] + s[a..b - 1], [s[b - 1]]);
    RealAppend(s[..a], s[a..b - 1]);
    RealSingle(s[b - 1]);
  }

  lemma SamePlace(s: Sentence, a: nat, b: nat)
    requires 0 < a <= |s| && 0 < b <= |s| && !IsSkip(s[a - 1]) && !IsSkip(s[b - 1])
    requires |Real(s[..a])| == |Real(s[..b])|
    ensures a == b
  {
    if a < b {
      RealGrows(s, a, b);
    } else if b < a {
      RealGrows(s, b, a);
    }
  }

  /** Exactly `w` - 1 real tokens of the sentence stand before the insertion point. */
  lemma PositionCounts(s: Sentence, w: int)
    requires 1 <= w <= |Real(s)| + 1
    ensures |Real(s[..Position(s, w)])| == w - 1
    ensures Real(s) == Real(s[..Position(s, w)]) + Real(s[Position(s, w)..])
  {
    var a := Position(s, w);
    assert s == s[..a] + s[a..];
    RealAppend(s[..a], s[a..]);
    if w == 1 {
      assert s[..a] == [];
    } else if w == |Real(s)| + 1 {
      assert s[..a] == s;
    } else {
      SeekCounts(s, w - 1);
    }
  }

  lemma {:induction false} FlattenEmpties(n: nat)
    ensures Flatten(Empties(n)) == []
  {
    if n > 0 {
      assert Empties(n)[1..] == Empties(n - 1);
      FlattenEmpties(n - 1);
    }
  }

  lemma FlattenReplacement(s: Sentence, a: nat, parts: seq<Token>)
    requires a <= |s|
    ensures Flatten(Replacement(s, a, parts)) == s[..a] + parts + s[a..]
  {
    var n := ThroughLastDelim(parts);
    if Splits(parts) {
      var x, y, e := s[..a] + parts[..n], parts[n..] + s[a..], Empties(NewSentences(parts) - 1);
      FlattenEmpties(NewSentences(parts) - 1);
      FlattenAppend([x, y], e);
      assert Flatten([x, y]) == x + y by {
        FlattenOne(y);
        assert [x, y][1..] == [y];
      }
      assert parts[..n] + parts[n..] == parts;
      assert x + y == s[..a] + (parts[..n] + parts[n..]) + s[a..];
    } else {
      FlattenEmpties(NewSentences(parts));
      FlattenAppend([s[..a] + parts + s[a..]], Empties(NewSentences(parts)));
      FlattenOne(s[..a] + parts + s[a..]);
    }
  }

  lemma FlattenThree(a: Doc, b: Doc, c: Doc)
    ensures Flatten(a + b + c) == Flatten(a) + Flatten(b) + Flatten(c)
  {
    FlattenAppend(a + b, c);
    FlattenAppend(a, b);
  }

  lemma FlattenAround(doc: Doc, k: nat)
    requires k < |doc|
    ensures Flatten(doc) == Flatten(doc[..k]) + doc[k] + Flatten(doc[k + 1..])
  {
    Around(doc, k);
    FlattenThree(doc[..k], [doc[k]], doc[k + 1..]);
    FlattenOne(doc[k]);
  }

  lemma FlattenInsert(doc: Doc, k: nat, a: nat, parts: seq<Token>, p: nat)
    requires k < |doc| && a <= |doc[k]| && p == |Flatten(doc[..k])| + a
    ensures p <= |Flatten(doc)|
    ensures Flatten(InsertAt(doc, k, a, parts)) == SpliceAt(Flatten(doc), p, parts)
  {
    FlattenAround(doc, k);
    FlattenReplacement(doc[k], a, parts);
    FlattenThree(doc[..k], Replacement(doc[k], a, parts), doc[k + 1..]);
    SpliceInside(Flatten(doc[..k]), doc[k], Flatten(doc[k + 1..]), a, parts);
  }

  lemma SpliceInside(f: seq<Token>, s: seq<Token>, g: seq<Token>, a: nat, parts: seq<Token>)
    requires a <= |s|
    ensures SpliceAt(f + s + g, |f| + a, parts) == f + (s[..a] + parts + s[a..]) + g
  {
    assert (f + s + g)[..|f| + a] == f + s[..a];
    assert (f + s + g)[|f| + a..] == s[a..] + g;
  }

  lemma SplitInside(doc: Doc, k: nat, a: nat, p: nat) returns (x: seq<Token>)
    requires k < |doc| && a <= |doc[k]| && p == |Flatten(doc[..k])| + a
    ensures p <= |Flatten(doc)| && x == Flatten(doc)[|Flatten(doc[..k])|..p]
    ensures x == doc[k][..a]
  {
    FlattenAround(doc, k);
    SliceBehind(Flatten(doc[..k]), doc[k], Flatten(doc[k + 1..]), a);
    x := doc[k][..a];
  }

  lemma SliceBehind(f: seq<Token>, s: seq<Token>, g: seq<Token>, a: nat)
    requires a <= |s|
    ensures (f + s + g)[|f|..|f| + a] == s[..a]
  {
  }

  lemma WordsInFront(doc: Doc, k: nat, w: int, p: nat)
    requires k < |doc| && 1 <= w <= |Real(doc[k])| + 1
    requires p == |Flatten(doc[..k])| + Position(doc[k], w)
    ensures p <= |Flatten(doc)|
    ensures Flatten(doc)[|Flatten(doc[..k])|..p] == doc[k][..Position(doc[k], w)]
    ensures |Real(Flatten(doc)[|Flatten(doc[..k])|..p])| == w - 1
  {
    var x := SplitInside(doc, k, Position(doc[k], w), p);
    PositionCounts(doc[k], w);
  }

  /** Nothing is lost, duplicated or reordered: the token stream gains the parts at one point of sentence `k`, behind
      exactly `w` - 1 of its real tokens. */
  lemma InsertIsSplice(doc: Doc, k: nat, w: int, parts: seq<Token>, p: nat)
    requires k < |doc| && 1 <= w <= |Real(doc[k])| + 1
    requires p == |Flatten(doc[..k])| + Position(doc[k], w)
    ensures p <= |Flatten(doc)|
    ensures Flatten(InsertAt(doc, k, Position(doc[k], w), parts)) == SpliceAt(Flatten(doc), p, parts)
    ensures Flatten(doc)[|Flatten(doc[..k])|..p] == doc[k][..Position(doc[k], w)]
    ensures |Real(Flatten(doc)[|Flatten(doc[..k])|..p])| == w - 1
  {
    FlattenInsert(doc, k, Position(doc[k], w), parts, p);
    WordsInFront(doc, k, w, p);
  }

  /** Sentences before the edited one stay in place and later ones move by the number of new slots. */
  lemma InsertMovesSentences(doc: Doc, k: nat, a: nat, parts: seq<Token>, i: nat)
    requires k < |doc| && a <= |doc[k]| && i < |doc| && i != k
    ensures |InsertAt(doc, k, a, parts)| == |doc| + NewSentences(parts)
    ensures InsertAt(doc, k, a, parts)[if i < k then i else i + NewSentences(parts)] == doc[i]
  {
  }
}
