/** The commit queue of one file: a linked list of commits, each merged on the heap into the parsed main file. */
module CommitQueues {
  import opened Options
  import opened Document
  import opened WriteSession
  import opened Commit
  import opened FileOps
  import opened Paths
  import opened Storage

  // ----- merging one commit -----

  /** Copy references from one array of sentences to another. */
  method CopyRefs(source: array<WordList?>, from: nat, to: nat, target: array<WordList?>, at: nat)
    requires source != target && from <= to <= source.Length && at + (to - from) <= target.Length
    modifies target
    ensures target[..at + (to - from)] == old(target[..at]) + source[from..to]
  {
    var i, n := from, at;
    while i < to
      invariant from <= i <= to && n == at + (i - from)
      invariant target[..n] == old(target[..at]) + source[from..i]
    {
      target[n] := source[i];
      i, n := i + 1, n + 1;
      assert source[from..i] == source[from..i - 1] + [source[i - 1]];
    }
  }

  /** A sentence of its own with the same words. */
  method CopyOf(source: WordList) returns (s: WordList)
    requires source.Valid()
    ensures fresh(s) && fresh(s.words) && s.Valid() && s.Content() == source.Content()
  {
    s := new WordList();
    var j := 0;
    while j < source.wordCount
      invariant 0 <= j <= source.wordCount && fresh(s) && fresh(s.words) && s.Valid()
      invariant s.Content() == source.Content()[..j]
    {
      s.Append(source.words[j]);
      j := j + 1;
    }
  }

  lemma ListsExtend(refs: seq<WordList?>, contents: Doc, s: WordList, R: set<object>)
    requires Lists(refs, contents, R) && s !in R && s.words !in R && s.Valid()
    ensures Lists(refs + [s], contents + [s.Content()], R + {s, s.words})
  {
  }

  /** Copy sentence `i` of a document. */
  method CopySentence(temp: FileContent, i: nat) returns (s: WordList)
    requires temp.Valid() && i < temp.sentenceCount
    ensures fresh(s) && fresh(s.words) && s.Valid() && s.Content() == temp.slots[i]
  {
    s := CopyOf(temp.sentences[i]);
  }

  /** Copy sentence `i` of a document into slot `n` of an array. */
  method StoreCopy(temp: FileContent, i: nat, target: array<WordList?>, n: nat, ghost copies: seq<WordList?>,
                   ghost contents: Doc, ghost objects: set<object>)
      returns (s: WordList, ghost objects': set<object>)
    requires temp.Valid() && target !in temp.Repr && i < temp.sentenceCount && n < target.Length
    requires Lists(copies, contents, objects) && target !in objects
    modifies target
    ensures target[..] == old(target[..])[n := s] && fresh(objects' - objects)
    ensures Lists(copies + [s], contents + [temp.slots[i]], objects')
  {
    s := CopySentence(temp, i);
    ListsExtend(copies, contents, s, objects);
    target[n] := s;
    objects' := objects + {s, s.words};
  }

  /** Copy sentences `from`..`to` of a document into an array. */
  method CopySentences(temp: FileContent, from: nat, to: nat, target: array<WordList?>, at: nat)
      returns (ghost copies: seq<WordList?>, ghost objects: set<object>)
    requires temp.Valid() && target !in temp.Repr
    requires from <= to <= temp.sentenceCount && at + (to - from) <= target.Length
    modifies target
    ensures target[..at + (to - from)] == old(target[..at]) + copies
    ensures fresh(objects) && Lists(copies, temp.slots[from..to], objects)
  {
    var i, n := from, at;
    copies, objects := [], {};
    while i < to
      invariant from <= i <= to && n == at + (i - from) && temp.Valid()
      invariant target[..n] == old(target[..at]) + copies
      invariant fresh(objects) && Lists(copies, temp.slots[from..i], objects)
    {
      var s;
      s, objects := StoreCopy(temp, i, target, n, copies, temp.slots[from..i], objects);
      copies := copies + [s];
      assert temp.slots[from..i + 1] == temp.slots[from..i] + [temp.slots[i]];
      i, n := i + 1, n + 1;
    }
  }

  /** The sentences that stay keep their objects; the ones in between are new. */
  lemma JoinMerged(refs: seq<WordList?>, contents: Doc, added: seq<WordList?>, own: Doc, k: nat, R: set<object>,
                   N: set<object>)
    requires Lists(refs, contents, R) && Lists(added, own, N) && R !! N && k < |refs|
    ensures Lists(refs[..k] + added + refs[k + 1..], contents[..k] + own + contents[k + 1..], R + N)
  {
  }

  /** Give a document another array of sentences, all of which are counted. */
  method Adopt(main: FileContent, merged: array<WordList?>, total: nat, ghost doc: Doc, ghost objects: set<object>)
    requires main.Valid() && total == |doc| <= merged.Length && 0 < merged.Length
    requires Lists(merged[..total], doc, objects)
    modifies main
    ensures main.Valid() && main.Repr == {main, merged} + objects && main.Document() == doc
    ensures main.sentences == merged && main.sentenceCount == total
  {
    main.sentences := merged;
    main.sentenceCount := total;
    main.slots := doc;
    main.Repr := {main, merged} + objects;
    main.ListsAreValid(merged[..total]);
    assert doc[..total] == doc;
  }

  lemma RefsOf(fc: FileContent)
    requires fc.Valid()
    ensures Lists(fc.sentences[..fc.sentenceCount], fc.Document(), fc.Repr)
  {
  }

  lemma OwnSlice(slots: Doc, count: nat, index: nat, original: nat)
    requires index < original <= count <= |slots|
    ensures Taken(slots[..count], index, original) == slots[index..index + (count - original) + 1]
  {
  }

  /** The first two copy loops of a merge: the sentences in front of the adjusted index, and the session's own ones. */
  method FillFront(main: FileContent, temp: FileContent, index: nat, original: nat, at: nat, merged: array<WordList?>,
                   ghost doc: Doc)
      returns (ghost own: seq<WordList?>, ghost objects: set<object>)
    requires main.Valid() && temp.Valid() && at < main.sentenceCount
    requires merged !in main.Repr && merged !in temp.Repr
    requires index < original <= temp.sentenceCount && at + (temp.sentenceCount - original) + 1 <= merged.Length
    requires doc == Taken(temp.Document(), index, original)
    modifies merged
    ensures fresh(objects) && Lists(own, doc, objects)
    ensures merged[..at + (temp.sentenceCount - original) + 1] == [] + main.sentences[0..at] + own
  {
    CopyRefs(main.sentences, 0, at, merged, 0);
    own, objects := CopySentences(temp, index, index + (temp.sentenceCount - original) + 1, merged, at);
    OwnSlice(temp.slots, temp.sentenceCount, index, original);
  }

  /** The last copy loop: the sentences behind the adjusted index fill the array up. */
  method FillBack(source: array<WordList?>, from: nat, to: nat, merged: array<WordList?>, at: nat,
                  ghost own: seq<WordList?>, ghost doc: Doc, ghost objects: set<object>)
    requires source != merged && from <= to <= source.Length && at + (to - from) == merged.Length
    requires Lists(own, doc, objects) && merged !in objects
    modifies merged
    ensures merged[..] == old(merged[..at]) + source[from..to] && Lists(own, doc, objects)
  {
    CopyRefs(source, from, to, merged, at);
    assert merged[..] == merged[..at + (to - from)];
  }

  /** All three copy loops: behind those two the sentences behind the adjusted index. They fill exactly the slots
      that were allocated. */
  method FillMerged(main: FileContent, temp: FileContent, index: nat, original: nat, adjusted: nat,
                    ghost refs: seq<WordList?>, ghost doc: Doc)
      returns (merged: array<WordList?>, ghost own: seq<WordList?>, ghost objects: set<object>)
    requires main.Valid() && temp.Valid() && adjusted < main.sentenceCount
    requires index < original <= temp.sentenceCount && adjusted == AdjustedIndex(index, main.sentenceCount, original)
    requires refs == main.sentences[..main.sentenceCount] && doc == Taken(temp.Document(), index, original)
    ensures fresh(merged) && fresh(objects) && Lists(own, doc, objects)
    ensures merged[..] == refs[..adjusted] + own + refs[adjusted + 1..]
  {
    var count := main.sentenceCount;
    var expansion := temp.sentenceCount - original;
    merged := new WordList?[count + expansion];
    assert main.sentences[0..adjusted] == refs[..adjusted];
    assert main.sentences[adjusted + 1..count] == refs[adjusted + 1..];
    own, objects := FillFront(main, temp, index, original, adjusted, merged, doc);
    ghost var filled := merged[..adjusted + expansion + 1];
    FillBack(main.sentences, adjusted + 1, count, merged, adjusted + expansion + 1, own, doc, objects);
    Glued(refs[..adjusted], own, refs[adjusted + 1..], filled);
  }

  lemma Glued<T>(front: seq<T>, own: seq<T>, back: seq<T>, filled: seq<T>)
    requires filled == [] + front + own
    ensures filled + back == front + own + back
  {
    assert [] + front == front;
  }

  /** Replace the sentence at the adjusted index by the session's own sentences. */
  method MergeInto(main: FileContent, temp: FileContent, index: nat, original: nat)
    requires main.Valid() && temp.Valid() && main !in temp.Repr
    requires index < original <= temp.sentenceCount
    requires 0 <= AdjustedIndex(index, main.sentenceCount, original)
    modifies main
    ensures main.Valid() && fresh(main.Repr - old(main.Repr)) && main.sentenceCount == main.sentences.Length
    ensures main.Document() == MergeDoc(old(main.Document()), old(temp.Document()), index, original)
  {
    ghost var m, t := main.Document(), temp.Document();
    var adjusted := index + (main.sentenceCount - original);
    MergeFillsExactly(m, t, index, original);
    var merged, own, objects := FillMerged(main, temp, index, original, adjusted, main.sentences[..main.sentenceCount],
                                            Taken(t, index, original));
    RefsOf(main);
    JoinMerged(main.sentences[..main.sentenceCount], m, own, Taken(t, index, original), adjusted, main.Repr, objects);
    Adopt(main, merged, merged.Length, MergeDoc(m, t, index, original), main.Repr + objects);
  }

  /** Merging into an empty document takes over the whole copy. */
  method TakeOver(main: FileContent, temp: FileContent)
    requires main.Valid() && temp.Valid() && main !in temp.Repr
    modifies main
    ensures main.Valid() && fresh(main.Repr - old(main.Repr)) && main.Document() == old(temp.Document())
  {
    ghost var t := temp.Document();
    var total := temp.sentenceCount;
    var merged := new WordList?[if total > 0 then total else 1];
    ghost var own, objects := CopySentences(temp, 0, total, merged, 0);
    assert own == merged[..total] && temp.slots[0..total] == t;
    Adopt(main, merged, total, t, objects);
  }

  /** Merge one commit: parse both texts, check the adjusted index, merge and print. None if the commit is skipped. */
  method MergeCommit(mainText: string, tempText: string, index: nat, original: nat) returns (merged: Option<string>)
    requires index <= original <= |ViewOf(tempText)|
    ensures merged == MergeText(mainText, tempText, index, original)
  {
    ParseIsCut(tempText);
    var main := new FileContent();
    main.ParseFile(mainText);
    var temp := new FileContent();
    temp.ParseFile(tempText);
    ghost var m := main.Document();
    var adjusted := index + (main.sentenceCount - original);
    if main.sentenceCount == 0 && original == 0 && adjusted == 0 {
      TakeOver(main, temp);
    } else if adjusted < 0 || adjusted >= main.sentenceCount {
      return None;
    } else {
      MergeInto(main, temp, index, original);
    }
    var text := main.WriteFileContent();
    merged := Some(text);
  }

  // ----- the queue -----

  class QueueNode {
    const entry: Entry
    var next: QueueNode?

    constructor (e: Entry)
      ensures entry == e && next == null
    {
      entry, next := e, null;
    }
  }

  class CommitQueue {
    const name: string
    var head: QueueNode?
    var tail: QueueNode?
    ghost var nodes: seq<QueueNode>

    ghost predicate Valid()
      reads this, nodes
    {
      && (head == null <==> nodes == []) && (tail == null <==> nodes == [])
      && (nodes != [] ==> head == nodes[0] && tail == nodes[|nodes| - 1])
      && (forall i :: 0 <= i < |nodes| ==> nodes[i].next == NodeAt(i + 1))
      && (forall i, j :: 0 <= i < j < |nodes| ==> nodes[i] != nodes[j])
    }

    ghost function NodeAt(i: nat): QueueNode?
      reads this
    {
      if i < |nodes| then nodes[i] else null
    }

    ghost function Entries(): seq<Entry>
      reads this
    {
      seq(|nodes|, i requires 0 <= i < |nodes| reads this => nodes[i].entry)
    }

    /** An empty queue. */
    predicate Idle()
      reads this
    {
      head == null && tail == null
    }

    /** Nothing is waiting. */
    ghost predicate Resting()
      reads this
    {
      Idle() && nodes == []
    }

    constructor (n: string)
      ensures name == n && Resting()
    {
      name, head, tail, nodes := n, null, null, [];
    }

    method Enqueue(e: Entry)
      requires Valid()
      modifies this, nodes
      ensures Valid() && Entries() == old(Entries()) + [e] && fresh(set n | n in nodes && n !in old(nodes))
    {
      var node := new QueueNode(e);
      if tail == null {
        head, tail := node, node;
      } else {
        tail.next := node;
        tail := node;
      }
      nodes := nodes + [node];
    }

    /** Remove the first entry. */
    method Dequeue()
      requires Valid() && head != null
      modifies this
      ensures Valid() && nodes == old(nodes)[1..] && Entries() == old(Entries())[1..]
    {
      ghost var before := nodes;
      assert nodes[0].next == NodeAt(1);
      head := head.next;
      if head == null {
        tail := null;
      }
      nodes := nodes[1..];
      assert forall i :: 0 <= i < |nodes| ==> nodes[i] == before[i + 1];
    }

    /** `process_commit_queue`: back up the main file if there is anything to do, then handle the entries first in first
        out until none is left. */
    method Process(files: Files) returns (r: Files)
      requires Valid() && Admissible(files, Entries())
      modifies this
      ensures Resting()
      ensures r == ProcessQueue(files, name, old(Entries()))
    {
      r := files;
      if head != null {
        r := BackUpFile(r, name);
      }
      while head != null
        invariant Valid() && Admissible(r, Entries())
        invariant ProcessEach(r, name, Entries()) == ProcessQueue(files, name, old(Entries()))
        decreases |nodes|
      {
        assert Entries()[0] == head.entry;
        StaysAdmissible(r, name, Entries());
        r := ProcessEntry(r, name, head.entry);
        Dequeue();
      }
    }
  }

  // ----- handling one entry -----

  /** The indices of a queued commit fit its copy, as they do for every session (see `ServerState.Inv`). */
  predicate AdmissibleOne(files: Files, e: Entry) {
    e.index <= e.original && (e.CopyPath() in files ==> e.original <= |ViewOf(files[e.CopyPath()])|)
  }

  predicate Admissible(files: Files, queue: seq<Entry>) {
    forall i :: 0 <= i < |queue| ==> AdmissibleOne(files, queue[i])
  }

  lemma StaysAdmissible(files: Files, name: string, queue: seq<Entry>)
    requires queue != [] && Admissible(files, queue)
    ensures Admissible(ProcessOne(files, name, queue[0]), queue[1..])
  {
    var next := ProcessOne(files, name, queue[0]);
    forall i | 0 <= i < |queue| - 1
      ensures AdmissibleOne(next, queue[1..][i])
    {
      assert AdmissibleOne(files, queue[i + 1]);
    }
  }

  method BackUpFile(files: Files, name: string) returns (r: Files)
    ensures r == BackUp(files, name)
    ensures forall e: Entry :: e.CopyPath() in r <==> e.CopyPath() in files
    ensures forall e: Entry :: e.CopyPath() in r ==> r[e.CopyPath()] == files[e.CopyPath()]
  {
    r := files;
    if Main(name) in files {
      r := files[Undo(name) := files[Main(name)]];
    }
  }

  /** Merge one entry's copy into the main file, or skip it; remove the copy. */
  method ProcessEntry(files: Files, name: string, e: Entry) returns (r: Files)
    requires AdmissibleOne(files, e)
    ensures r == ProcessOne(files, name, e)
  {
    if e.CopyPath() !in files {
      return files;
    }
    var mainText := if Main(name) in files then files[Main(name)] else "";
    var merged := MergeCommit(mainText, files[e.CopyPath()], e.index, e.original);
    r := files;
    if merged.Some? {
      r := r[Main(name) := merged.value];
    }
    r := r - {e.CopyPath()};
  }
}
