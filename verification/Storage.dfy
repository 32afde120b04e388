/** The files of a storage server as a map from paths to texts: undo copies, checkpoints and the commit queue. */
module Storage {
  import opened Options
  import opened Commit
  import opened Merge
  import opened Paths

  type Files = map<Path, string>

  const SUCCESS := 200
  const ERR_INVALID_INDEX := 400
  const ERR_ACCESS_DENIED := 403
  const ERR_FILE_NOT_FOUND := 404
  const ERR_INVALID_OPERATION := 405
  const ERR_FILE_EXISTS := 409
  const ERR_SENTENCE_LOCKED := 423
  const ERR_SERVER_ERROR := 500

  /** A missing file reads as the empty text. */
  function Read(files: Files, p: Path): string {
    if p in files then files[p] else ""
  }

  // ----- undo and checkpoints -----

  /** `create_undo_backup`; without a main file nothing happens. */
  function BackUp(files: Files, name: string): Files {
    if Main(name) in files then files[Undo(name) := files[Main(name)]] else files
  }

  /** `restore_from_undo` behind the check of the UNDO handler. */
  function RestoreUndo(files: Files, name: string): (Files, int) {
    if Undo(name) in files then (files[Main(name) := files[Undo(name)]] - {Undo(name)}, SUCCESS)
    else (files, ERR_INVALID_OPERATION)
  }

  function TakeCheckpoint(files: Files, name: string, tag: string): (Files, int) {
    if Checkpoint(name, tag) in files then (files, ERR_FILE_EXISTS)
    else if Main(name) !in files then (files, ERR_FILE_NOT_FOUND)
    else (files[Checkpoint(name, tag) := files[Main(name)]], SUCCESS)
  }

  function RevertTo(files: Files, name: string, tag: string): (Files, int) {
    if Checkpoint(name, tag) !in files then (files, ERR_FILE_NOT_FOUND)
    else (BackUp(files, name)[Main(name) := files[Checkpoint(name, tag)]], SUCCESS)
  }

  function CreateFile(files: Files, name: string): (Files, int) {
    if Main(name) in files then (files, ERR_FILE_EXISTS) else (files[Main(name) := ""], SUCCESS)
  }

  function DeleteFile(files: Files, name: string): (Files, int) {
    if Main(name) !in files then (files, ERR_FILE_NOT_FOUND) else (files - {Main(name), Undo(name)}, SUCCESS)
  }

  // ----- the commit queue -----

  /** One queued commit; its copy is the file `Copy(name, user, index)`. */
  datatype Entry = Entry(name: string, user: string, index: nat, original: nat) {
    function CopyPath(): Path {
      Copy(name, user, index)
    }
  }

  /** What processing one entry leaves behind: the merged main file, or the old one if the copy is missing or the
      commit is skipped; in any case the copy is gone. */
  function ProcessOne(files: Files, name: string, e: Entry): Files {
    if e.CopyPath() !in files then files else
      match MergeText(Read(files, Main(name)), files[e.CopyPath()], e.index, e.original)
      case None => files - {e.CopyPath()}
      case Some(u) => files[Main(name) := u] - {e.CopyPath()}
  }

  function ProcessEach(files: Files, name: string, queue: seq<Entry>): Files
    decreases queue
  {
    if queue == [] then files else ProcessEach(ProcessOne(files, name, queue[0]), name, queue[1..])
  }

  /** `process_commit_queue`: back up once, then process the entries first in first out. */
  function ProcessQueue(files: Files, name: string, queue: seq<Entry>): Files {
    if queue == [] then files else ProcessEach(BackUp(files, name), name, queue)
  }

  /** The queue of a file holds entries of that file for different sessions. */
  predicate QueueOf(name: string, queue: seq<Entry>) {
    && (forall i :: 0 <= i < |queue| ==> queue[i].name == name)
    && (forall i, j :: 0 <= i < j < |queue| ==> queue[i].CopyPath() != queue[j].CopyPath())
  }

  function CopyPaths(queue: seq<Entry>): set<Path> {
    set i | 0 <= i < |queue| :: queue[i].CopyPath()
  }

  /** The commits of a queue as texts. */
  function Commits(files: Files, queue: seq<Entry>): (cs: seq<Queued>)
    requires forall i :: 0 <= i < |queue| ==> queue[i].CopyPath() in files
    ensures |cs| == |queue|
  {
    seq(|queue|, i requires 0 <= i < |queue| => Queued(queue[i].index, queue[i].original, files[queue[i].CopyPath()]))
  }

  /** A file map in which the main file has been rewritten and copies have been removed. */
  function Rewritten(files: Files, name: string, text: string, gone: set<Path>): Files {
    files[Main(name) := text] - gone
  }

  /** From `files` to `r`: the main file, which may have been missing, reads as `text`, copies have been removed, and
      nothing else has changed. */
  predicate Processed(files: Files, r: Files, name: string, text: string, gone: set<Path>) {
    && Read(r, Main(name)) == text
    && (Main(name) in files ==> Main(name) in r)
    && r - {Main(name)} == files - {Main(name)} - gone
  }

  lemma ProcessedIsRewritten(files: Files, r: Files, name: string, text: string, gone: set<Path>)
    requires Processed(files, r, name, text, gone) && Main(name) in files && Main(name) !in gone
    ensures r == Rewritten(files, name, text, gone)
  {
    var x := Rewritten(files, name, text, gone);
    assert x - {Main(name)} == files - {Main(name)} - gone;
    forall p: Path
      ensures (p in r <==> p in x) && (p in r ==> r[p] == x[p])
    {
      if p != Main(name) {
        assert p in r <==> p in r - {Main(name)};
        assert p in x <==> p in x - {Main(name)};
      }
    }
  }

  lemma ProcessOneMerges(files: Files, name: string, e: Entry)
    requires e.name == name && e.CopyPath() in files
    ensures Processed(files, ProcessOne(files, name, e), name,
                      MergeOne(Read(files, Main(name)), Queued(e.index, e.original, files[e.CopyPath()])),
                      {e.CopyPath()})
  {
  }

  lemma ProcessedTwice(files: Files, next: Files, r: Files, name: string, t: string, gone: set<Path>, t': string,
                       gone': set<Path>)
    requires Processed(files, next, name, t, gone) && Processed(next, r, name, t', gone')
    ensures Processed(files, r, name, t', gone + gone')
  {
    calc {
      r - {Main(name)};
      next - {Main(name)} - gone';
      files - {Main(name)} - gone - gone';
      files - {Main(name)} - (gone + gone');
    }
  }

  lemma ProcessedKeeps(files: Files, r: Files, name: string, t: string, gone: set<Path>, p: Path)
    requires Processed(files, r, name, t, gone) && p != Main(name) && p !in gone && p in files
    ensures p in r && r[p] == files[p]
  {
    assert p in files - {Main(name)} - gone;
    assert p in r - {Main(name)};
  }

  lemma CommitsStep(files: Files, next: Files, name: string, t: string, queue: seq<Entry>)
    requires QueueOf(name, queue) && queue != []
    requires forall i :: 0 <= i < |queue| ==> queue[i].CopyPath() in files
    requires Processed(files, next, name, t, {queue[0].CopyPath()})
    ensures QueueOf(name, queue[1..])
    ensures forall i :: 0 <= i < |queue[1..]| ==> queue[1..][i].CopyPath() in next
    ensures Commits(next, queue[1..]) == Commits(files, queue)[1..]
  {
    forall i | 0 <= i < |queue[1..]|
      ensures queue[1..][i] == queue[i + 1] && queue[i + 1].CopyPath() in next
      ensures next[queue[i + 1].CopyPath()] == files[queue[i + 1].CopyPath()]
    {
      assert queue[0].CopyPath() != queue[i + 1].CopyPath();
      ProcessedKeeps(files, next, name, t, {queue[0].CopyPath()}, queue[i + 1].CopyPath());
    }
  }

  /** Processing handles every commit of the queue exactly once and in order, touches no other file, and removes all
      the copies. */
  lemma {:induction false} ProcessEachMergesAll(files: Files, name: string, queue: seq<Entry>)
    requires QueueOf(name, queue)
    requires forall i :: 0 <= i < |queue| ==> queue[i].CopyPath() in files
    ensures Processed(files, ProcessEach(files, name, queue), name,
                      MergeAll(Read(files, Main(name)), Commits(files, queue)), CopyPaths(queue))
    decreases queue
  {
    if queue == [] {
      assert CopyPaths(queue) == {};
    } else {
      var e, cs := queue[0], Commits(files, queue);
      var t, next := MergeOne(Read(files, Main(name)), cs[0]), ProcessOne(files, name, e);
      ProcessOneMerges(files, name, e);
      CommitsStep(files, next, name, t, queue);
      ProcessEachMergesAll(next, name, queue[1..]);
      ProcessedTwice(files, next, ProcessEach(files, name, queue), name, t, {e.CopyPath()}, MergeAll(t, cs[1..]),
                     CopyPaths(queue[1..]));
      CopyPathsStep(queue);
    }
  }

  lemma CopyPathsStep(queue: seq<Entry>)
    requires queue != []
    ensures CopyPaths(queue) == {queue[0].CopyPath()} + CopyPaths(queue[1..])
  {
    forall p | p in CopyPaths(queue)
      ensures p in {queue[0].CopyPath()} + CopyPaths(queue[1..])
    {
      var i :| 0 <= i < |queue| && p == queue[i].CopyPath();
      if i > 0 {
        assert queue[1..][i - 1] == queue[i];
      }
    }
    forall p | p in CopyPaths(queue[1..])
      ensures p in CopyPaths(queue)
    {
      var i :| 0 <= i < |queue[1..]| && p == queue[1..][i].CopyPath();
      assert queue[i + 1] == queue[1..][i];
    }
  }

  lemma UndoOfRewrite(files: Files, name: string, t: string, gone: set<Path>)
    requires Main(name) in files && Main(name) !in gone && Undo(name) !in gone
    ensures RestoreUndo(Rewritten(BackUp(files, name), name, t, gone), name) == (files - gone - {Undo(name)}, SUCCESS)
  {
    var r := RestoreUndo(Rewritten(BackUp(files, name), name, t, gone), name).0;
    assert r == files - gone - {Undo(name)};
  }

  /** An UNDO behind a processed queue restores the bytes from before the whole batch. */
  lemma UndoRestoresBatch(files: Files, name: string, queue: seq<Entry>)
    requires QueueOf(name, queue) && queue != [] && Main(name) in files
    requires forall i :: 0 <= i < |queue| ==> queue[i].CopyPath() in files
    ensures RestoreUndo(ProcessQueue(files, name, queue), name)
         == (files - CopyPaths(queue) - {Undo(name)}, SUCCESS)
  {
    var b := BackUp(files, name);
    var text := MergeAll(Read(b, Main(name)), Commits(b, queue));
    ProcessEachMergesAll(b, name, queue);
    ProcessedIsRewritten(b, ProcessQueue(files, name, queue), name, text, CopyPaths(queue));
    UndoOfRewrite(files, name, text, CopyPaths(queue));
  }

  /** An UNDO behind a revert restores the bytes from before it. */
  lemma UndoRestoresRevert(files: Files, name: string, tag: string)
    requires Main(name) in files && Checkpoint(name, tag) in files
    ensures RevertTo(files, name, tag).1 == SUCCESS
    ensures RevertTo(files, name, tag).0[Main(name)] == files[Checkpoint(name, tag)]
    ensures RestoreUndo(RevertTo(files, name, tag).0, name) == (files - {Undo(name)}, SUCCESS)
  {
    assert RestoreUndo(RevertTo(files, name, tag).0, name).0 == files - {Undo(name)};
  }
}
