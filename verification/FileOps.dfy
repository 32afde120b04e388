/** The document of `file_ops.c` as it lives on the heap: growing arrays of sentences, each a growing array of words. */
module FileOps {
  import opened Options
  import opened Arrays
  import opened Text
  import opened Document
  import opened PrintParse
  import opened Insert
  import opened Tokeniser

  const INITIAL_CAPACITY := 10

  /** One sentence: `wordCount` words in an array that doubles when it is full. */
  class WordList {
    var words: array<Token>
    var wordCount: nat

    ghost predicate Valid()
      reads this
    {
      0 < words.Length && wordCount <= words.Length
    }

    ghost function Content(): Sentence
      requires Valid()
      reads this, words
    {
      words[..wordCount]
    }

    constructor ()
      ensures Valid() && Content() == [] && fresh(words)
    {
      words := new Token[INITIAL_CAPACITY];
      wordCount := 0;
    }

    /** Make room for one more word. */
    method Reserve()
      requires Valid()
      modifies this
      ensures Valid() && wordCount == old(wordCount) < words.Length
      ensures Content() == old(Content()) && (words == old(words) || fresh(words))
    {
      if wordCount >= words.Length {
        var bigger := new Token[words.Length * 2];
        forall i | 0 <= i < wordCount {
          bigger[i] := words[i];
        }
        words := bigger;
      }
    }

    /** Insert a word in place, shifting the ones behind it. */
    method Insert(at: nat, word: Token)
      requires Valid() && at <= wordCount
      modifies this, words
      ensures Valid() && wordCount == old(wordCount) + 1 && (words == old(words) || fresh(words))
      ensures Content() == old(Content())[..at] + [word] + old(Content())[at..]
    {
      Reserve();
      ghost var before := words[..];
      ShiftUp(words, at, wordCount, 1);
      ghost var shifted := words[..];
      StoreAll(words, at, [word]);
      ShiftThenStore(before, shifted, words[..], at, wordCount, [word]);
      wordCount := wordCount + 1;
    }

    method Append(word: Token)
      requires Valid()
      modifies this, words
      ensures Valid() && (words == old(words) || fresh(words))
      ensures Content() == old(Content()) + [word]
    {
      Reserve();
      words[wordCount] := word;
      wordCount := wordCount + 1;
    }

    /** Move the words from `from` on into `next`, which must be empty, after making room there for `extra` more. */
    method MoveTail(from: nat, next: WordList, extra: nat)
      requires Valid() && next.Valid() && from <= wordCount
      requires next != this && next.words != words && next.Content() == []
      modifies this, next, next.words
      ensures Valid() && next.Valid()
      ensures words == old(words) && (next.words == old(next.words) || fresh(next.words))
      ensures Content() == old(Content())[..from] && next.Content() == old(Content())[from..]
      ensures next.words.Length >= next.wordCount + extra
    {
      var toMove := wordCount - from;
      while next.words.Length < toMove + extra
        invariant next.Valid() && next.wordCount == 0 && (next.words == old(next.words) || fresh(next.words))
        invariant Valid() && words == old(words) && next.words != words && wordCount == old(wordCount)
        invariant words[..] == old(words[..])
        decreases toMove + extra - next.words.Length
      {
        next.words := new Token[next.words.Length * 2];
      }
      var j := 0;
      while j < toMove
        invariant 0 <= j == next.wordCount <= toMove && next.Valid() && toMove + extra <= next.words.Length
        invariant next.words == old(next.words) || fresh(next.words)
        invariant Valid() && words == old(words) && next.words != words && wordCount == old(wordCount)
        invariant words[..] == old(words[..])
        invariant next.words[..j] == words[from..from + j]
      {
        next.words[next.wordCount] := words[from + j];
        next.wordCount := next.wordCount + 1;
        j := j + 1;
      }
      wordCount := from;
    }
  }

  /** The sentences of one file. Slots up to |slots| are initialised, the first `sentenceCount` of them make up the
      document. */
  class FileContent {
    var sentences: array<WordList?>
    var sentenceCount: nat
    ghost var slots: Doc
    ghost var Repr: set<object>

    ghost predicate Valid()
      reads this, Repr
      ensures Valid() ==> this in Repr
    {
      && this in Repr && sentences in Repr
      && 0 < sentences.Length && sentenceCount <= |slots| <= sentences.Length
      && (forall i :: 0 <= i < |slots| ==>
            && sentences[i] != null && sentences[i] in Repr && sentences[i].words in Repr
            && sentences[i].Valid() && sentences[i].Content() == slots[i])
      && (forall i, j :: 0 <= i < j < |slots| ==>
            sentences[i] != sentences[j] && sentences[i].words != sentences[j].words)
    }

    ghost function Document(): Doc
      requires Valid()
      reads this, Repr
    {
      slots[..sentenceCount]
    }

    constructor ()
      ensures Valid() && fresh(Repr) && slots == [] && sentenceCount == 0
    {
      sentences := new WordList?[INITIAL_CAPACITY];
      sentenceCount, slots := 0, [];
      Repr := {this, sentences};
    }

    /** Double the array of sentences. */
    method Grow()
      requires Valid()
      modifies this
      ensures Valid() && fresh(Repr - old(Repr)) && slots == old(slots) && sentenceCount == old(sentenceCount)
      ensures sentences.Length == 2 * old(sentences.Length)
    {
      var bigger := new WordList?[sentences.Length * 2];
      forall i | 0 <= i < sentences.Length {
        bigger[i] := sentences[i];
      }
      sentences := bigger;
      Repr := Repr + {bigger};
    }

    /** Initialise slot `i` with an empty sentence; slots behind it are given up. */
    method OpenSlot(i: nat)
      requires Valid() && i <= |slots| && i < sentences.Length && sentenceCount <= i + 1
      modifies Repr
      ensures Valid() && fresh(Repr - old(Repr))
      ensures slots == old(slots)[..i] + [[]] && sentenceCount == old(sentenceCount)
      ensures sentences == old(sentences)
    {
      var s := new WordList();
      sentences[i] := s;
      slots := slots[..i] + [[]];
      Repr := Repr + {s, s.words};
    }

    method AddToken(i: nat, tok: Token)
      requires Valid() && i < |slots|
      modifies Repr
      ensures Valid() && fresh(Repr - old(Repr))
      ensures slots == old(slots)[i := old(slots)[i] + [tok]] && sentenceCount == old(sentenceCount)
      ensures sentences == old(sentences)
    {
      var s := sentences[i];
      s.Append(tok);
      slots := slots[i := slots[i] + [tok]];
      Repr := Repr + {s.words};
    }

    // ----- reading a file -----

    /** The parser has stored the tokens `done`; a sole first sentence is not counted before it is closed. */
    ghost predicate Parsing(done: seq<Token>)
      reads this, Repr
    {
      Valid() && slots == OpenCut(done) && sentenceCount == if |slots| > 1 then |slots| else 0
    }

    /** Store a token in the open sentence; a delimiter opens the next one. */
    method StoreToken(ghost done: seq<Token>, tok: Token)
      requires Parsing(done)
      modifies Repr
      ensures Parsing(done + [tok]) && fresh(Repr - old(Repr))
    {
      OpenCutStep(done, tok);
      var current := if sentenceCount == 0 then 0 else sentenceCount - 1;
      AddToken(current, tok);
      if IsDelimToken(tok) {
        OpenNext(current);
      }
    }

    /** Open the sentence behind the current one, which is the last, and count both. */
    method OpenNext(current: nat)
      requires Valid() && current + 1 == |slots| && sentenceCount <= |slots|
      modifies Repr
      ensures Valid() && fresh(Repr - old(Repr))
      ensures slots == old(slots) + [[]] && sentenceCount == current + 2
    {
      if current + 2 >= sentences.Length {
        Grow();
      }
      OpenSlot(current + 1);
      sentenceCount := current + 2;
    }

    /** Store the buffered word, if there is one. */
    method StoreWord(buffer: array<char>, bufIdx: nat, ghost text: string, ghost i: nat, ghost done: seq<Token>)
        returns (ghost done': seq<Token>)
      requires Parsing(done) && buffer !in Repr
      requires bufIdx <= buffer.Length && Scanned(text, i, done, buffer[..bufIdx])
      requires bufIdx == MAX_TOKEN || i == |text| || KindOf(text[i]) != Letter
      modifies Repr
      ensures Parsing(done') && fresh(Repr - old(Repr))
      ensures Scanned(text, i, done', "")
    {
      done' := done;
      if bufIdx > 0 {
        ScanFlush(text, i, done, buffer[..bufIdx]);
        StoreToken(done, buffer[..bufIdx]);
        done' := done + [buffer[..bufIdx]];
      } else {
        assert buffer[..bufIdx] == "";
      }
    }

    /** Store the token that starts at a character that is no letter. */
    method StoreOther(text: string, i: nat, ghost done: seq<Token>) returns (j: nat, ghost done': seq<Token>)
      requires Parsing(done)
      requires Scanned(text, i, done, "") && i < |text| && KindOf(text[i]) != Letter
      modifies Repr
      ensures Parsing(done') && fresh(Repr - old(Repr))
      ensures i < j <= |text| && Scanned(text, j, done', "")
    {
      var tok;
      if KindOf(text[i]) == Blank {
        tok, j := CollectBlanks(text, i);
        ScanBlanks(text, i, j, done, tok);
      } else {
        ScanSingle(text, i, done);
        tok, j := [text[i]], i + 1;
      }
      StoreToken(done, tok);
      done' := done + [tok];
    }

    /** Count the last sentence if it has tokens. */
    method CloseLast(ghost done: seq<Token>)
      requires Parsing(done)
      modifies this
      ensures Valid() && Repr == old(Repr) && Document() == Cut(done)
    {
      var current := if sentenceCount == 0 then 0 else sentenceCount - 1;
      if sentenceCount > 0 && sentences[sentenceCount - 1].wordCount == 0 {
        sentenceCount := sentenceCount - 1;
      }
      if sentences[current].wordCount > 0 {
        sentenceCount := current + 1;
      }
      LastOfOpenCut(done);
      assert sentences[current].Content() == slots[current];
    }

    /** One turn of the loop on a letter: buffer it, and store the word when the buffer is full. */
    method TakeLetter(text: string, i: nat, word: array<char>, wordIdx: nat, ghost done: seq<Token>)
        returns (idx: nat, ghost done': seq<Token>)
      requires Parsing(done) && word !in Repr && word.Length == MAX_WORD && wordIdx < MAX_TOKEN
      requires i < |text| && KindOf(text[i]) == Letter && Scanned(text, i, done, word[..wordIdx])
      modifies Repr, word
      ensures Parsing(done') && word !in Repr && fresh(Repr - old(Repr))
      ensures idx < MAX_TOKEN && Scanned(text, i + 1, done', word[..idx])
    {
      BufferLetter(text, i, word, wordIdx, done);
      ghost var pending := word[..wordIdx + 1];
      idx, done' := StoreIfFull(text, i + 1, word, wordIdx + 1, pending, done);
    }

    /** Store the word if it fills the buffer. */
    method StoreIfFull(ghost text: string, ghost i: nat, word: array<char>, wordIdx: nat, ghost pending: string,
                       ghost done: seq<Token>)
        returns (idx: nat, ghost done': seq<Token>)
      requires Parsing(done) && word !in Repr && wordIdx <= MAX_TOKEN && word.Length == MAX_WORD
      requires pending == word[..wordIdx] && Scanned(text, i, done, pending)
      modifies Repr
      ensures Parsing(done') && word !in Repr && fresh(Repr - old(Repr))
      ensures idx < MAX_TOKEN && Scanned(text, i, done', word[..idx])
    {
      if wordIdx >= MAX_WORD - 1 {
        done' := StoreWord(word, wordIdx, text, i, done);
        assert word[..0] == "";
        idx := 0;
      } else {
        idx, done' := wordIdx, done;
      }
    }

    /** One turn of the loop on any other character: store the pending word, then the token that starts here. */
    method TakeOther(text: string, i: nat, word: array<char>, wordIdx: nat, ghost done: seq<Token>)
        returns (j: nat, ghost done': seq<Token>)
      requires Parsing(done) && word !in Repr && wordIdx <= word.Length
      requires i < |text| && KindOf(text[i]) != Letter && Scanned(text, i, done, word[..wordIdx])
      modifies Repr
      ensures Parsing(done') && word !in Repr && fresh(Repr - old(Repr))
      ensures i < j <= |text| && Scanned(text, j, done', "")
    {
      done' := StoreWord(word, wordIdx, text, i, done);
      j, done' := StoreOther(text, i, done');
    }

    /** `parse_file` on the text of a file that could be opened. */
    method ParseFile(text: string)
      requires Valid()
      modifies Repr
      ensures Valid() && fresh(Repr - old(Repr)) && Document() == Parse(text)
    {
      sentenceCount := 0;
      OpenSlot(0);
      ghost var done: seq<Token> := [];
      var word := new char[MAX_WORD];
      var wordIdx, i := 0, 0;
      NothingScanned(text);
      assert word[..0] == "";
      while i < |text|
        invariant 0 <= i <= |text| && 0 <= wordIdx < MAX_TOKEN && word !in Repr
        invariant Parsing(done) && fresh(Repr - old(Repr))
        invariant Scanned(text, i, done, word[..wordIdx])
      {
        if KindOf(text[i]) == Letter {
          wordIdx, done := TakeLetter(text, i, word, wordIdx, done);
          i := i + 1;
        } else {
          i, done := TakeOther(text, i, word, wordIdx, done);
          wordIdx := 0;
          assert word[..0] == "";
        }
      }
      done := StoreWord(word, wordIdx, text, i, done);
      AllScanned(text, done);
      CloseLast(done);
    }

    // ----- writing a file -----

    method PrintWords(i: nat) returns (out: string)
      requires Valid() && i < |slots|
      ensures out == PrintSentence(slots[i])
    {
      var s := sentences[i];
      ghost var doc := slots[i];
      out := "";
      var j := 0;
      assert doc[0..] == doc && s.wordCount == |doc|;
      while j < s.wordCount
        invariant 0 <= j <= s.wordCount
        invariant out + PrintSentence(doc[j..]) == PrintSentence(doc)
      {
        assert s.words[j] == doc[j] && doc[j..][1..] == doc[j + 1..];
        ghost var before := out;
        out := out + s.words[j];
        if j + 1 < s.wordCount {
          assert s.words[j + 1] == doc[j + 1] == doc[j..][1];
          if NeedsGap(s.words[j], s.words[j + 1]) {
            out := out + " ";
          }
        }
        PrintSentenceStep(before, doc[j..], out);
        j := j + 1;
      }
    }

    /** Whether a space goes between sentence `i` and the next one. */
    method BreakAfter(i: nat) returns (b: bool)
      requires Valid() && i < sentenceCount
      ensures b == NeedsBreak(Document()[i..])
    {
      var s := sentences[i];
      ghost var rest := Document()[i..];
      assert rest[0] == slots[i] && (|rest| > 1 ==> rest[1] == slots[i + 1]);
      b := false;
      if i + 1 < sentenceCount && s.wordCount > 0 && !IsSkip(s.words[s.wordCount - 1]) {
        var next := sentences[i + 1];
        b := next.wordCount == 0 || !IsSkip(next.words[0]);
      }
    }

    /** `write_file_content`: the text that the file holds afterwards. */
    method WriteFileContent() returns (out: string)
      requires Valid()
      ensures out == Print(Document())
    {
      out := "";
      var i := 0;
      ghost var doc := Document();
      assert doc[0..] == doc;
      while i < sentenceCount
        invariant 0 <= i <= sentenceCount
        invariant out + Print(doc[i..]) == Print(doc)
      {
        var text := PrintWords(i);
        var gap := BreakAfter(i);
        ghost var before := out;
        out := out + text;
        if gap {
          out := out + " ";
        }
        PrintStep(before, doc[i..], out);
        assert doc[i..][1..] == doc[i + 1..];
        i := i + 1;
      }
      assert out + Print([]) == out;
    }

    // ----- inserting words -----

    /** Number of words of a sentence that indices count. */
    method CountReal(i: nat) returns (n: nat)
      requires Valid() && i < |slots|
      ensures n == |Real(slots[i])|
    {
      var s := sentences[i];
      ghost var doc := slots[i];
      n := 0;
      var j := 0;
      assert doc[0..] == doc;
      while j < s.wordCount
        invariant 0 <= j <= s.wordCount
        invariant n + |Real(doc[j..])| == |Real(doc)|
      {
        assert s.words[j] == doc[j] && doc[j..][1..] == doc[j + 1..];
        if !IsSkip(s.words[j]) {
          n := n + 1;
        }
        j := j + 1;
      }
    }

    /** Index behind the first `n` real words of a sentence. */
    method FindBehind(i: nat, n: nat) returns (at: nat)
      requires Valid() && i < |slots| && 1 <= n <= |Real(slots[i])|
      ensures at == Seek(slots[i], n)
    {
      var s := sentences[i];
      ghost var doc := slots[i];
      var seen := 0;
      at := 0;
      assert doc[0..] == doc;
      while seen < n
        invariant 0 <= at <= s.wordCount && 0 <= seen <= n <= |Real(doc)|
        invariant n - seen <= |Real(doc[at..])| && at + Seek(doc[at..], n - seen) == Seek(doc, n)
        decreases s.wordCount - at
      {
        assert doc[at..] != [];
        assert s.words[at] == doc[at] && doc[at..][1..] == doc[at + 1..];
        if !IsSkip(s.words[at]) {
          seen := seen + 1;
        }
        at := at + 1;
      }
    }

    /** Where the text for word index `w` goes. */
    method FindPosition(i: nat, w: int, realWordCount: nat) returns (at: nat)
      requires Valid() && i < |slots| && realWordCount == |Real(slots[i])| && 1 <= w <= realWordCount + 1
      ensures at == Position(slots[i], w)
    {
      if w == 1 {
        at := 0;
      } else if w == realWordCount + 1 {
        at := sentences[i].wordCount;
        assert sentences[i].Content() == slots[i];
      } else {
        at := FindBehind(i, w - 1);
      }
    }

    /** Make the array of sentences large enough. */
    method Ensure(total: nat)
      requires Valid()
      modifies this
      ensures Valid() && fresh(Repr - old(Repr)) && slots == old(slots) && sentenceCount == old(sentenceCount)
      ensures total <= sentences.Length
    {
      while sentences.Length < total
        invariant Valid() && fresh(Repr - old(Repr)) && slots == old(slots) && sentenceCount == old(sentenceCount)
        decreases total - sentences.Length
      {
        Grow();
      }
    }

    /** Move the later sentences up and store the new ones in between. */
    method MoveUp(k: nat, added: seq<WordList?>, ghost refs: seq<WordList?>)
      requires k < |refs| && |refs| + |added| <= sentences.Length
      requires refs == sentences[..|refs|] && |refs| == sentenceCount
      modifies sentences
      ensures sentences[..|refs| + |added|] == refs[..k + 1] + added + refs[k + 1..]
    {
      ghost var before: seq<WordList?> := sentences[..];
      assert before[..k + 1] == refs[..k + 1] && before[k + 1..sentenceCount] == refs[k + 1..];
      ShiftUp(sentences, k + 1, sentenceCount, |added|);
      ghost var shifted: seq<WordList?> := sentences[..];
      StoreAll(sentences, k + 1, added);
      ShiftThenStore(before, shifted, sentences[..], k + 1, sentenceCount, added);
    }

    /** Put `n` new empty sentences behind sentence `k`. */
    method MakeRoom(k: nat, n: nat)
      requires Valid() && |slots| == sentenceCount && k < sentenceCount && sentenceCount + n <= sentences.Length
      modifies Repr
      ensures Valid() && fresh(Repr - old(Repr)) && sentenceCount == old(sentenceCount)
      ensures slots == old(slots)[..k + 1] + Empties(n) + old(slots)[k + 1..]
    {
      ghost var refs := sentences[..sentenceCount];
      var added, objects := NewLists(n);
      MoveUp(k, added, refs);
      ghost var before := slots;
      Repr, slots := Repr + objects, slots[..k + 1] + Empties(n) + slots[k + 1..];
      assert Lists(refs, before, Repr);
      JoinLists(refs, before, added, k, n, Repr);
      assert |slots| == |refs| + n;
      ListsAreValid(refs[..k + 1] + added + refs[k + 1..]);
    }

    lemma ListsAreValid(refs: seq<WordList?>)
      requires this in Repr && sentences in Repr && 0 < sentences.Length && sentenceCount <= |slots| <= sentences.Length
      requires refs == sentences[..|slots|] && Lists(refs, slots, Repr)
      ensures Valid()
    {
      assert forall i :: 0 <= i < |slots| ==> refs[i] == sentences[i];
    }

    /** Insert parts `from`..`to` into sentence `k`, the first one before position `at`. */
    method PlaceRun(k: nat, at: nat, parts: seq<Token>, from: nat, to: nat)
      requires Valid() && k < |slots| && at <= |slots[k]| && from <= to <= |parts|
      modifies Repr
      ensures Valid() && fresh(Repr - old(Repr)) && sentenceCount == old(sentenceCount)
      ensures slots == old(slots)[k := old(slots)[k][..at] + parts[from..to] + old(slots)[k][at..]]
    {
      var s := sentences[k];
      assert s.Content() == slots[k];
      InsertRun(s, at, parts, from, to);
      Repr := Repr + {s.words};
      slots := slots[k := slots[k][..at] + parts[from..to] + slots[k][at..]];
    }

    /** Move the words of sentence `k` from `at` on to the empty sentence behind it. */
    method SplitSentence(k: nat, at: nat, extra: nat)
      requires Valid() && k + 1 < |slots| && at <= |slots[k]| && slots[k + 1] == []
      modifies Repr
      ensures Valid() && fresh(Repr - old(Repr)) && sentenceCount == old(sentenceCount)
      ensures slots == old(slots)[k := old(slots)[k][..at]][k + 1 := old(slots)[k][at..]]
    {
      var s, next := sentences[k], sentences[k + 1];
      assert s.Content() == slots[k] && next.Content() == slots[k + 1];
      s.MoveTail(at, next, extra);
      Repr := Repr + {next.words};
      slots := slots[k := slots[k][..at]][k + 1 := slots[k][at..]];
    }

    /** Insert all parts before position `at` of sentence `k`. If more parts follow the last delimiter, the words
        behind the insertion point move to the next sentence when that delimiter is in, and the other parts go in
        front of them. */
    method PlaceParts(k: nat, at: nat, parts: seq<Token>, last: int)
      requires Valid() && k < |slots| && at <= |slots[k]| && last + 1 == ThroughLastDelim(parts)
      requires Splits(parts) ==> k + 1 < |slots| && slots[k + 1] == []
      modifies Repr
      ensures Valid() && fresh(Repr - old(Repr)) && sentenceCount == old(sentenceCount)
      ensures slots == Placed(old(slots), k, at, parts)
    {
      if 0 <= last < |parts| - 1 {
        ghost var s := slots[k];
        PlaceRun(k, at, parts, 0, last + 1);
        SplitBehind(s[..at], parts[0..last + 1], s[at..]);
        SplitSentence(k, at + last + 1, |parts| - last - 1);
        InFront(parts[last + 1..|parts|], slots[k + 1]);
        PlaceRun(k + 1, 0, parts, last + 1, |parts|);
        assert parts[0..last + 1] == parts[..last + 1] && parts[last + 1..|parts|] == parts[last + 1..];
      } else {
        PlaceRun(k, at, parts, 0, |parts|);
        assert parts[0..|parts|] == parts;
      }
    }

    /** Index `sentenceCount` opens a new empty sentence. */
    method OpenTarget(k: nat)
      requires Valid() && k <= sentenceCount
      modifies Repr
      ensures Valid() && fresh(Repr - old(Repr)) && |slots| == sentenceCount
      ensures Document() == Grown(old(Document()), k)
    {
      ghost var doc := Document();
      if k == sentenceCount {
        Ensure(sentenceCount + 1);
        OpenSlot(sentenceCount);
        sentenceCount := sentenceCount + 1;
        assert slots[..sentenceCount] == slots;
      } else {
        slots := slots[..sentenceCount];
        assert slots[..sentenceCount] == doc;
      }
    }

    /** Make room for `n` new sentences, if there are any. */
    method RoomFor(k: nat, n: nat)
      requires Valid() && |slots| == sentenceCount && k < sentenceCount
      modifies Repr
      ensures Valid() && fresh(Repr - old(Repr)) && sentenceCount == old(sentenceCount)
      ensures slots == old(slots)[..k + 1] + Empties(n) + old(slots)[k + 1..]
    {
      if n > 0 {
        Ensure(sentenceCount + n);
        MakeRoom(k, n);
      } else {
        assert slots[..k + 1] + Empties(0) + slots[k + 1..] == slots;
      }
    }

    /** Make room for `n` sentences and put the parts into sentence `k`. */
    method PlaceInRoom(k: nat, at: nat, parts: seq<Token>, last: int, n: nat)
      requires Valid() && |slots| == sentenceCount && k < |slots| && at <= |slots[k]|
      requires last + 1 == ThroughLastDelim(parts) && n == NewSentences(parts)
      modifies Repr
      ensures Valid() && fresh(Repr - old(Repr)) && sentenceCount == old(sentenceCount)
      ensures slots == InsertAt(old(slots), k, at, parts)
    {
      ghost var doc := slots;
      RoomFor(k, n);
      ghost var grown := Repr;
      PlacedIsInsertAt(doc, k, at, parts);
      if Splits(parts) {
        RoomIsEmpty(doc, k, parts);
      }
      PlaceParts(k, at, parts, last);
      assert Repr - old(Repr) <= (Repr - grown) + (grown - old(Repr));
    }

    /** Put the parts into sentence `k` and count the slots they add. */
    method PlaceAll(k: nat, at: nat, parts: seq<Token>) returns (added: nat)
      requires Valid() && |slots| == sentenceCount && k < |slots| && at <= |slots[k]|
      modifies Repr
      ensures Valid() && fresh(Repr - old(Repr))
      ensures Document() == InsertAt(old(Document()), k, at, parts) && added == NewSentences(parts)
    {
      var last, n := CountDelimiters(parts);
      assert Document() == slots;
      PlaceInRoom(k, at, parts, last, n);
      sentenceCount := sentenceCount + n;
      assert slots[..sentenceCount] == slots;
      added := n;
    }

    /** `insert_word_in_sentence`. A document of one empty sentence is not extended behind that sentence by any
        caller. */
    method InsertWordInSentence(sentIdx: int, wordIdx: int, word: string) returns (r: int)
      requires Valid() && RunsFit(word, Letter) && !(sentIdx == 1 && Document() == [[]])
      modifies Repr
      ensures Valid() && fresh(Repr - old(Repr))
      ensures r >= -1 && (r == -1 <==> InsertWord(old(Document()), sentIdx, wordIdx, word).None?)
      ensures r >= 0 <==> InsertWord(old(Document()), sentIdx, wordIdx, word) == Some(Document())
      ensures r >= 0 ==> |Document()| == |Grown(old(Document()), sentIdx)| + r
      ensures r == -1 ==> Document() == if 0 <= sentIdx then Grown(old(Document()), sentIdx) else old(Document())
    {
      if sentIdx < 0 || sentIdx > sentenceCount {
        return -1;
      }
      OpenTarget(sentIdx);
      r := InsertIntoTarget(sentIdx, wordIdx, word);
    }

    /** The insertion into a sentence that is there. */
    method InsertIntoTarget(k: nat, wordIdx: int, word: string) returns (r: int)
      requires Valid() && |slots| == sentenceCount && k < sentenceCount && RunsFit(word, Letter)
      modifies Repr
      ensures Valid() && fresh(Repr - old(Repr)) && r >= -1
      ensures r == -1 <==> !(1 <= wordIdx <= |Real(old(Document())[k])| + 1)
      ensures r == -1 ==> Document() == old(Document())
      ensures r >= 0 ==> |Document()| == |old(Document())| + r
      ensures r >= 0 ==> Document() == if word == "" then old(Document())
        else InsertAt(old(Document()), k, Position(old(Document())[k], wordIdx), Tokens(word))
    {
      ghost var doc := Document();
      assert doc == slots;
      var realWordCount := CountReal(k);
      if wordIdx < 1 || wordIdx > realWordCount + 1 {
        return -1;
      }
      var at := FindPosition(k, wordIdx, realWordCount);
      var parts, _ := SplitByDelimiters(word);
      if |parts| == 0 {
        return 0;
      }
      r := PlaceAll(k, at, parts);
    }
  }

  lemma RoomIsEmpty(doc: Doc, k: nat, parts: seq<Token>)
    requires k < |doc| && Splits(parts)
    ensures var room := doc[..k + 1] + Empties(NewSentences(parts)) + doc[k + 1..];
      k + 1 < |room| && room[k] == doc[k] && room[k + 1] == []
  {
    DelimCountPositive(parts);
  }

  lemma SplitBehind(a: seq<Token>, p: seq<Token>, b: seq<Token>)
    ensures (a + p + b)[..|a| + |p|] == a + p && (a + p + b)[|a| + |p|..] == b
  {
  }

  lemma InFront(q: seq<Token>, b: seq<Token>)
    ensures b[..0] + q + b[0..] == q + b
  {
  }

  /** The slots after the parts have been placed. */
  ghost function Placed(slots: Doc, k: nat, at: nat, parts: seq<Token>): Doc
    requires k < |slots| && at <= |slots[k]|
    requires Splits(parts) ==> k + 1 < |slots|
  {
    var n, s := ThroughLastDelim(parts), slots[k];
    if Splits(parts) then slots[k := s[..at] + parts[..n]][k + 1 := parts[n..] + s[at..]]
    else slots[k := s[..at] + parts + s[at..]]
  }

  lemma PlacedIsInsertAt(doc: Doc, k: nat, at: nat, parts: seq<Token>)
    requires k < |doc| && at <= |doc[k]|
    ensures var room := doc[..k + 1] + Empties(NewSentences(parts)) + doc[k + 1..];
      Placed(room, k, at, parts) == InsertAt(doc, k, at, parts)
  {
  }

  // ----- sequences of sentence objects -----

  ghost predicate Lists(refs: seq<WordList?>, contents: Doc, R: set<object>)
    reads R
  {
    && |refs| == |contents|
    && (forall i :: 0 <= i < |refs| ==>
          && refs[i] != null && refs[i] in R && refs[i].words in R
          && refs[i].Valid() && refs[i].Content() == contents[i])
    && (forall i, j :: 0 <= i < j < |refs| ==> refs[i] != refs[j] && refs[i].words != refs[j].words)
  }

  /** New empty sentences. */
  method NewLists(n: nat) returns (lists: seq<WordList>, ghost objects: set<object>)
    ensures |lists| == n && fresh(objects) && Lists(lists, Empties(n), objects)
  {
    lists, objects := [], {};
    while |lists| < n
      invariant |lists| <= n && fresh(objects) && Lists(lists, Empties(|lists|), objects)
    {
      var s := new WordList();
      assert Empties(|lists| + 1) == Empties(|lists|) + [[]];
      lists, objects := lists + [s], objects + {s, s.words};
    }
  }

  lemma JoinLists(refs: seq<WordList?>, contents: Doc, added: seq<WordList?>, k: nat, n: nat, R: set<object>)
    requires Lists(refs, contents, R) && Lists(added, Empties(n), R) && k < |refs|
    requires forall i, j :: 0 <= i < |refs| && 0 <= j < n ==> refs[i] != added[j] && refs[i].words != added[j].words
    ensures Lists(refs[..k + 1] + added + refs[k + 1..], contents[..k + 1] + Empties(n) + contents[k + 1..], R)
  {
  }

  lemma PrintSentenceStep(before: string, s: Sentence, out: string)
    requires s != []
    requires out == before + s[0] + (if |s| > 1 && NeedsGap(s[0], s[1]) then " " else "")
    ensures out + PrintSentence(s[1..]) == before + PrintSentence(s)
  {
    var gap := if |s| > 1 && NeedsGap(s[0], s[1]) then " " else "";
    var rest := PrintSentence(s[1..]);
    assert PrintSentence(s) == s[0] + gap + rest by {
      assert |s| == 1 ==> s[0] + "" + "" == s[0];
    }
    Assoc(before, s[0] + gap, rest);
    Assoc(before, s[0], gap);
  }

  lemma PrintStep(before: string, doc: Doc, out: string)
    requires doc != []
    requires out == before + PrintSentence(doc[0]) + (if NeedsBreak(doc) then " " else "")
    ensures out + Print(doc[1..]) == before + Print(doc)
  {
    var text, gap, rest := PrintSentence(doc[0]), if NeedsBreak(doc) then " " else "", Print(doc[1..]);
    Assoc(before, text + gap, rest);
    Assoc(before, text, gap);
  }

  lemma LastOfOpenCut(ts: seq<Token>)
    ensures var d := OpenCut(ts); Cut(ts) == if d[|d| - 1] == [] then d[..|d| - 1] else d
    ensures Closed(ts) <==> OpenCut(ts)[|OpenCut(ts)| - 1] == []
  {
    CutIsCut(ts);
    var d := Cut(ts);
    assert d != [] ==> OneSentence(d[|d| - 1]);
    assert (d + [[]])[..|d|] == d;
  }

  // ----- inserting parts into a sentence -----

  lemma CountStep(parts: seq<Token>, i: nat)
    requires i < |parts|
    ensures ThroughLastDelim(parts[..i + 1]) == if IsDelimToken(parts[i]) then i + 1 else ThroughLastDelim(parts[..i])
    ensures DelimCount(parts[..i + 1]) == DelimCount(parts[..i]) + (if IsDelimToken(parts[i]) then 1 else 0)
  {
    var p := parts[..i + 1];
    assert p[..i] == parts[..i] && p == parts[..i] + [parts[i]];
    DelimCountAppend(parts[..i], [parts[i]]);
    assert DelimCount([parts[i]]) == (if IsDelimToken(parts[i]) then 1 else 0) + DelimCount([]);
  }

  /** Index of the last delimiter, or -1, and the number of sentence slots that the parts add. */
  method CountDelimiters(parts: seq<Token>) returns (last: int, newSentences: nat)
    ensures last + 1 == ThroughLastDelim(parts) && newSentences == NewSentences(parts)
  {
    last, newSentences := -1, 0;
    var i := 0;
    while i < |parts|
      invariant 0 <= i <= |parts|
      invariant last + 1 == ThroughLastDelim(parts[..i]) && newSentences == DelimCount(parts[..i])
    {
      CountStep(parts, i);
      if IsDelimToken(parts[i]) {
        last := i;
        newSentences := newSentences + 1;
      }
      i := i + 1;
    }
    assert parts[..i] == parts;
    if 0 <= last < |parts| - 1 {
      newSentences := newSentences + 1;
    }
  }

  /** Insert parts `from`..`to` one after the other, the first one before position `at`. */
  method InsertRun(target: WordList, at: nat, parts: seq<Token>, from: nat, to: nat)
    requires target.Valid() && at <= target.wordCount && from <= to <= |parts|
    modifies target, target.words
    ensures target.Valid() && (target.words == old(target.words) || fresh(target.words))
    ensures target.Content() == old(target.Content())[..at] + parts[from..to] + old(target.Content())[at..]
  {
    ghost var s := target.Content();
    var i, actual := from, at;
    assert s[..at] + parts[from..from] + s[at..] == s;
    while i < to
      invariant from <= i <= to && actual == at + i - from
      invariant target.Valid() && (target.words == old(target.words) || fresh(target.words))
      invariant target.Content() == s[..at] + parts[from..i] + s[at..]
    {
      InsertBetween(s[..at], parts[from..i], s[at..], parts[i]);
      target.Insert(actual, parts[i]);
      assert parts[from..i + 1] == parts[from..i] + [parts[i]];
      actual := actual + 1;
      i := i + 1;
    }
  }

  lemma InsertBetween(a: seq<Token>, b: seq<Token>, c: seq<Token>, t: Token)
    ensures (a + b + c)[..|a| + |b|] + [t] + (a + b + c)[|a| + |b|..] == a + (b + [t]) + c
  {
    assert (a + b + c)[..|a| + |b|] == a + b && (a + b + c)[|a| + |b|..] == c;
  }
}
