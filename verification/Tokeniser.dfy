/** The character loops: `split_by_delimiters` and `get_file_stats`, and the loop state that `parse_file` shares. */
module Tokeniser {
  import opened Text

  /** No run of kind `k` outgrows a word buffer. */
  predicate RunsFit(t: string, k: Kind) {
    forall i :: 0 <= i < |t| ==> Run(t[i..], k) <= MAX_TOKEN
  }

  // ----- the state of a tokeniser loop -----

  /** `done` and the `pending` letters are what became of the first `i` characters. */
  predicate Scanned(text: string, i: nat, done: seq<Token>, pending: string) {
    && i <= |text|
    && |pending| <= MAX_TOKEN && AllOf(pending, Letter)
    && done + Tokens(pending + text[i..]) == Tokens(text)
  }

  lemma ScanLetter(text: string, i: nat, done: seq<Token>, pending: string)
    requires Scanned(text, i, done, pending) && i < |text| && KindOf(text[i]) == Letter && |pending| < MAX_TOKEN
    ensures Scanned(text, i + 1, done, pending + [text[i]])
  {
    assert pending + [text[i]] + text[i + 1..] == pending + text[i..];
  }

  lemma ScanToken(text: string, i: nat, j: nat, done: seq<Token>, pending: string, x: Token)
    requires Scanned(text, i, done, pending) && j <= |text|
    requires Tokens(pending + text[i..]) == [x] + Tokens(text[j..])
    ensures Scanned(text, j, done + [x], "")
  {
    assert "" + text[j..] == text[j..];
    Assoc(done, [x], Tokens(text[j..]));
  }

  lemma ScanFlush(text: string, i: nat, done: seq<Token>, pending: string)
    requires Scanned(text, i, done, pending) && pending != ""
    requires |pending| == MAX_TOKEN || i == |text| || KindOf(text[i]) != Letter
    ensures Scanned(text, i, done + [pending], "")
  {
    WordStep(pending, text[i..]);
    ScanToken(text, i, i, done, pending, pending);
  }

  lemma FirstApart(text: string, i: nat)
    requires i < |text|
    ensures "" + text[i..] == [text[i]] + text[i + 1..]
  {
  }

  lemma ScanSingle(text: string, i: nat, done: seq<Token>)
    requires Scanned(text, i, done, "") && i < |text|
    requires KindOf(text[i]) == Newline || KindOf(text[i]) == Delimiter
    ensures Scanned(text, i + 1, done + [[text[i]]], "")
  {
    SingleStep(text[i], text[i + 1..]);
    FirstApart(text, i);
    ScanToken(text, i, i + 1, done, "", [text[i]]);
  }

  lemma BlanksApart(text: string, i: nat, j: nat)
    requires i <= j <= |text|
    ensures "" + text[i..] == text[i..j] + text[j..]
  {
  }

  lemma ScanBlanks(text: string, i: nat, j: nat, done: seq<Token>, spaces: Token)
    requires Scanned(text, i, done, "") && i < j <= |text| && AllOf(text[i..j], Blank)
    requires j == |text| || KindOf(text[j]) != Blank
    requires spaces == text[i..j][..Min(j - i, MAX_TOKEN)]
    ensures Scanned(text, j, done + [spaces], "")
  {
    BlanksApart(text, i, j);
    BlankStep(text[i..j], text[j..]);
    ScanToken(text, i, j, done, "", spaces);
  }

  /** Collect a run of blanks; the token keeps what fits into the buffer. */
  method CollectBlanks(text: string, i: nat) returns (spaces: Token, j: nat)
    requires i < |text| && KindOf(text[i]) == Blank
    ensures i < j <= |text| && AllOf(text[i..j], Blank) && (j == |text| || KindOf(text[j]) != Blank)
    ensures spaces == text[i..j][..Min(j - i, MAX_TOKEN)]
  {
    spaces := [text[i]];
    j := i + 1;
    while j < |text| && KindOf(text[j]) == Blank
      invariant i < j <= |text| && AllOf(text[i..j], Blank)
      invariant spaces == text[i..j][..Min(j - i, MAX_TOKEN)]
    {
      assert text[i..j + 1] == text[i..j] + [text[j]];
      if |spaces| < MAX_WORD - 1 {
        spaces := spaces + [text[j]];
      }
      j := j + 1;
    }
  }

  // ----- the word buffer -----

  function Max(a: int, b: int): int {
    if a >= b then a else b
  }

  /** The largest index of the word buffer that the loop writes on `t` when `pending` letters are buffered, -1 if it
      writes none: each letter goes behind the pending ones, a terminator behind each word, and a delimiter with its
      terminator to the start. */
  function HighestWrite(t: string, pending: nat): int {
    var flushed := if pending > 0 then pending else -1;
    if t == "" then flushed
    else match KindOf(t[0])
      case Letter => Max(pending, HighestWrite(t[1..], pending + 1))
      case Delimiter => Max(Max(flushed, 1), HighestWrite(t[1..], 0))
      case _ => Max(flushed, HighestWrite(t[1..], 0))
  }

  lemma RunsFitStep(t: string)
    requires t != ""
    ensures RunsFit(t, Letter) <==> Run(t, Letter) <= MAX_TOKEN && RunsFit(t[1..], Letter)
  {
    assert t[0..] == t;
    assert forall i :: 0 <= i < |t| - 1 ==> t[1..][i..] == t[i + 1..];
    if RunsFit(t[1..], Letter) && Run(t, Letter) <= MAX_TOKEN {
      forall i | 0 <= i < |t|
        ensures Run(t[i..], Letter) <= MAX_TOKEN
      {
        assert i > 0 ==> t[i..] == t[1..][i - 1..];
      }
    }
  }

  /** The loop stays within its buffer of 128 characters, terminators included, if and only if no word run of the
      text, nor the pending letters with the run that they begin, is longer than 127. */
  lemma {:induction false} BufferHoldsIff(t: string, pending: nat)
    ensures HighestWrite(t, pending) < MAX_WORD <==> pending + Run(t, Letter) <= MAX_TOKEN && RunsFit(t, Letter)
    decreases |t|
  {
    if t != "" {
      RunsFitStep(t);
      if KindOf(t[0]) == Letter {
        BufferHoldsIff(t[1..], pending + 1);
      } else {
        BufferHoldsIff(t[1..], 0);
      }
    }
  }

  lemma SplitStaysInBufferIff(word: string)
    ensures HighestWrite(word, 0) < MAX_WORD <==> RunsFit(word, Letter)
  {
    BufferHoldsIff(word, 0);
    if word != "" {
      RunsFitStep(word);
    }
  }

  lemma {:induction false} BlanksWriteNothing(text: string, i: nat, j: nat)
    requires i <= j <= |text| && AllOf(text[i..j], Blank)
    ensures HighestWrite(text[i..], 0) == HighestWrite(text[j..], 0) || i < j
    ensures i < j ==> Max(-1, HighestWrite(text[j..], 0)) == HighestWrite(text[i..], 0)
    decreases j - i
  {
    if i < j {
      assert text[i..j][0] == text[i] && text[i..][1..] == text[i + 1..];
      assert text[i + 1..j] == text[i..j][1..];
      BlanksWriteNothing(text, i + 1, j);
    }
  }

  lemma {:induction false} WritesAtLeast(t: string, pending: nat)
    ensures HighestWrite(t, pending) >= -1
    decreases |t|
  {
    if t != "" && KindOf(t[0]) == Letter {
      WritesAtLeast(t[1..], pending + 1);
    }
  }

  /** Store the buffered word, if there is one. */
  method FlushWord(buffer: array<char>, bufIdx: nat, parts: seq<Token>, ghost text: string, ghost i: nat)
      returns (r: seq<Token>)
    requires bufIdx < buffer.Length && Scanned(text, i, parts, buffer[..bufIdx])
    requires bufIdx == MAX_TOKEN || i == |text| || KindOf(text[i]) != Letter
    modifies buffer
    ensures Scanned(text, i, r, "")
    ensures r == if bufIdx > 0 then parts + [old(buffer[..bufIdx])] else parts
  {
    if bufIdx > 0 {
      ScanFlush(text, i, parts, buffer[..bufIdx]);
      buffer[bufIdx] := '\0';
      r := parts + [buffer[..bufIdx]];
      assert buffer[..bufIdx] == old(buffer[..bufIdx]);
    } else {
      assert buffer[..bufIdx] == "";
      r := parts;
    }
  }

  /** The token of one character; a delimiter goes through the buffer. */
  method SingleToken(c: char, buffer: array<char>) returns (x: Token)
    requires buffer.Length == MAX_WORD
    modifies buffer
    ensures x == [c]
  {
    if KindOf(c) == Delimiter {
      buffer[0], buffer[1] := c, '\0';
      x := buffer[..1];
    } else {
      x := [c];
    }
  }

  /** Store a run of blanks as one token. */
  method StoreBlanks(text: string, i: nat, parts: seq<Token>) returns (r: seq<Token>, j: nat)
    requires Scanned(text, i, parts, "") && i < |text| && KindOf(text[i]) == Blank
    ensures i < j <= |text| && Scanned(text, j, r, "") && AllOf(text[i..j], Blank)
  {
    var spaces;
    spaces, j := CollectBlanks(text, i);
    ScanBlanks(text, i, j, parts, spaces);
    r := parts + [spaces];
  }

  /** Store the token that starts at a character that is no letter. */
  method StoreOther(text: string, i: nat, parts: seq<Token>, buffer: array<char>) returns (r: seq<Token>, j: nat)
    requires Scanned(text, i, parts, "") && i < |text| && KindOf(text[i]) != Letter && buffer.Length == MAX_WORD
    modifies buffer
    ensures i < j <= |text| && Scanned(text, j, r, "")
    ensures if KindOf(text[i]) == Blank then AllOf(text[i..j], Blank) else j == i + 1
  {
    if KindOf(text[i]) == Blank {
      r, j := StoreBlanks(text, i, parts);
    } else {
      ScanSingle(text, i, parts);
      var x := SingleToken(text[i], buffer);
      r, j := parts + [x], i + 1;
    }
  }

  /** Add a letter to the buffered word. */
  method BufferLetter(text: string, i: nat, buffer: array<char>, bufIdx: nat, ghost parts: seq<Token>)
    requires i < |text| && KindOf(text[i]) == Letter
    requires bufIdx < MAX_TOKEN && buffer.Length == MAX_WORD
    requires Scanned(text, i, parts, buffer[..bufIdx])
    modifies buffer
    ensures buffer[..bufIdx + 1] == old(buffer[..bufIdx]) + [text[i]]
    ensures Scanned(text, i + 1, parts, buffer[..bufIdx + 1])
  {
    ScanLetter(text, i, parts, buffer[..bufIdx]);
    buffer[bufIdx] := text[i];
    assert buffer[..bufIdx + 1] == old(buffer[..bufIdx]) + [text[i]];
  }

  lemma RunAhead(text: string, i: nat)
    requires i < |text| && KindOf(text[i]) == Letter
    ensures Run(text[i..], Letter) == 1 + Run(text[i + 1..], Letter)
  {
    assert text[i..][1..] == text[i + 1..];
  }

  lemma RunFits(text: string, i: nat)
    requires RunsFit(text, Letter) && i <= |text|
    ensures Run(text[i..], Letter) <= MAX_TOKEN
  {
  }

  lemma NothingScanned(text: string)
    ensures Scanned(text, 0, [], "")
  {
    assert "" + text[0..] == text;
    assert [] + Tokens(text) == Tokens(text);
  }

  lemma AllScanned(text: string, done: seq<Token>)
    requires Scanned(text, |text|, done, "")
    ensures done == Tokens(text)
  {
    assert "" + text[|text|..] == "";
  }

  lemma OtherWrites(text: string, i: nat, j: nat, bufIdx: nat)
    requires i < j <= |text| && KindOf(text[i]) != Letter
    requires if KindOf(text[i]) == Blank then AllOf(text[i..j], Blank) else j == i + 1
    ensures HighestWrite(text[i..], bufIdx)
         == Max(Max(if bufIdx > 0 then bufIdx else -1, if KindOf(text[i]) == Delimiter then 1 else -1),
                HighestWrite(text[j..], 0))
  {
    assert text[i..][1..] == text[i + 1..];
    WritesAtLeast(text[j..], 0);
    WritesAtLeast(text[i + 1..], 0);
    if KindOf(text[i]) == Blank {
      assert text[i + 1..j] == text[i..j][1..];
      BlanksWriteNothing(text, i + 1, j);
    }
  }

  /** `top` is the largest index written on the first `i` characters, `bufIdx` of whose letters are pending. */
  predicate WrittenSoFar(text: string, i: nat, bufIdx: nat, top: int) {
    i <= |text| && top >= -1 && Max(top, HighestWrite(text[i..], bufIdx)) == HighestWrite(text, 0)
  }

  lemma NothingWritten(text: string)
    ensures WrittenSoFar(text, 0, 0, -1)
  {
    assert text[0..] == text;
    WritesAtLeast(text, 0);
  }

  lemma LetterWritten(text: string, i: nat, bufIdx: nat, top: int)
    requires WrittenSoFar(text, i, bufIdx, top) && i < |text| && KindOf(text[i]) == Letter
    ensures WrittenSoFar(text, i + 1, bufIdx + 1, Max(top, bufIdx))
  {
    assert text[i..][1..] == text[i + 1..];
  }

  lemma OtherWritten(text: string, i: nat, j: nat, bufIdx: nat, top: int, written: int)
    requires WrittenSoFar(text, i, bufIdx, top) && i <= j <= |text| && written >= -1
    requires HighestWrite(text[i..], bufIdx) == Max(written, HighestWrite(text[j..], 0))
    ensures WrittenSoFar(text, j, 0, Max(top, written))
  {
  }

  lemma AllWritten(text: string, bufIdx: nat, top: int)
    requires WrittenSoFar(text, |text|, bufIdx, top) && RunsFit(text, Letter)
    ensures Max(top, if bufIdx > 0 then bufIdx else -1) == HighestWrite(text, 0) < MAX_WORD
  {
    assert text[|text|..] == "";
    SplitStaysInBufferIff(text);
  }

  /** There is room in the buffer for the word that is being read, and `top` is the largest index written so far. */
  predicate Buffered(text: string, i: nat, bufIdx: nat, top: int) {
    WrittenSoFar(text, i, bufIdx, top) && bufIdx + Run(text[i..], Letter) <= MAX_TOKEN
  }

  lemma LetterBuffered(text: string, i: nat, bufIdx: nat, top: int)
    requires Buffered(text, i, bufIdx, top) && i < |text| && KindOf(text[i]) == Letter
    ensures bufIdx < MAX_TOKEN && Buffered(text, i + 1, bufIdx + 1, Max(top, bufIdx))
  {
    RunAhead(text, i);
    LetterWritten(text, i, bufIdx, top);
  }

  /** Add a letter to the word. */
  method TakeLetter(text: string, i: nat, buffer: array<char>, bufIdx: nat, ghost parts: seq<Token>, ghost top: int)
      returns (ghost top': int)
    requires Buffered(text, i, bufIdx, top) && i < |text| && KindOf(text[i]) == Letter && buffer.Length == MAX_WORD
    requires bufIdx <= MAX_TOKEN && Scanned(text, i, parts, buffer[..bufIdx])
    modifies buffer
    ensures bufIdx < MAX_TOKEN && Buffered(text, i + 1, bufIdx + 1, top')
    ensures Scanned(text, i + 1, parts, buffer[..bufIdx + 1])
  {
    LetterBuffered(text, i, bufIdx, top);
    BufferLetter(text, i, buffer, bufIdx, parts);
    top' := Max(top, bufIdx);
  }

  lemma OtherBuffered(text: string, i: nat, j: nat, bufIdx: nat, top: int, written: int)
    requires RunsFit(text, Letter) && WrittenSoFar(text, i, bufIdx, top) && i < j <= |text| && KindOf(text[i]) != Letter
    requires if KindOf(text[i]) == Blank then AllOf(text[i..j], Blank) else j == i + 1
    requires written == Max(if bufIdx > 0 then bufIdx else -1, if KindOf(text[i]) == Delimiter then 1 else -1)
    ensures Buffered(text, j, 0, Max(top, written))
  {
    OtherWrites(text, i, j, bufIdx);
    OtherWritten(text, i, j, bufIdx, top, written);
    RunFits(text, j);
  }

  /** Store the word and the token that ends it. */
  method TakeOther(text: string, i: nat, buffer: array<char>, bufIdx: nat, parts: seq<Token>, ghost top: int)
      returns (r: seq<Token>, j: nat, ghost top': int)
    requires RunsFit(text, Letter) && WrittenSoFar(text, i, bufIdx, top) && i < |text| && KindOf(text[i]) != Letter
    requires bufIdx < buffer.Length == MAX_WORD && Scanned(text, i, parts, buffer[..bufIdx])
    modifies buffer
    ensures i < j <= |text| && Scanned(text, j, r, buffer[..0]) && Buffered(text, j, 0, top')
  {
    var flushed := FlushWord(buffer, bufIdx, parts, text, i);
    r, j := StoreOther(text, i, flushed, buffer);
    top' := Max(top, Max(if bufIdx > 0 then bufIdx else -1, if KindOf(text[i]) == Delimiter then 1 else -1));
    OtherBuffered(text, i, j, bufIdx, top, Max(if bufIdx > 0 then bufIdx else -1,
                                               if KindOf(text[i]) == Delimiter then 1 else -1));
    assert buffer[..0] == "";
  }

  lemma Begun(text: string)
    requires RunsFit(text, Letter)
    ensures Scanned(text, 0, [], "") && Buffered(text, 0, 0, -1)
  {
    NothingScanned(text);
    NothingWritten(text);
    RunFits(text, 0);
  }

  /** The parts of an inserted text. The buffer must have room for every word run of the text; `top` is the largest
      index that is written. */
  method SplitByDelimiters(word: string) returns (parts: seq<Token>, ghost top: int)
    requires RunsFit(word, Letter)
    ensures parts == Tokens(word)
    ensures top == HighestWrite(word, 0) < MAX_WORD
  {
    parts, top := [], -1;
    var buffer := new char[MAX_WORD];
    var bufIdx, i := 0, 0;
    Begun(word);
    assert buffer[..0] == "";
    while i < |word|
      invariant 0 <= i <= |word| && 0 <= bufIdx <= MAX_TOKEN
      invariant Scanned(word, i, parts, buffer[..bufIdx]) && Buffered(word, i, bufIdx, top)
    {
      if KindOf(word[i]) == Letter {
        top := TakeLetter(word, i, buffer, bufIdx, parts, top);
        bufIdx, i := bufIdx + 1, i + 1;
      } else {
        parts, i, top := TakeOther(word, i, buffer, bufIdx, parts, top);
        bufIdx := 0;
      }
    }
    AllWritten(word, bufIdx, top);
    parts := FlushWord(buffer, bufIdx, parts, word, i);
    top := Max(top, if bufIdx > 0 then bufIdx else -1);
    AllScanned(word, parts);
  }
}
