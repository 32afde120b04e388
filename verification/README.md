# A document store for many writers, in Dafny

A model of a distributed document store: a name server that knows which storage server holds which file and who may
access it, and storage servers on which many users edit one file at a time, sentence by sentence. The model follows the
code of `file_ops.c`, `ss.c`, `trie.c`, `cache.c`, `common.c` and `nm.c`, branch by branch, and proves what the pieces
do together.

`dafny verify dfyconfig.toml` checks everything.

## How it is laid out

Code that changes things in place is modelled by classes and methods on arrays and heap nodes; each is proved against a
specification made of functions on values, and the properties are lemmas about those functions.

- **Documents.** `Text`, `Document`, `Insert` and `PrintParse` say what the tokens of a text, its sentences, an insertion
  and the printed text are. `Tokeniser`, `FileOps` and `Stats` are the loops that compute them. A text has two views: the
  full token stream, and the real tokens, which leave out blanks and newlines. Real tokens survive printing and parsing
  (`PrintParse.PrintThenParse`), and so do newlines (`FullText.PrintKeepsStream`); exact white space does only for tidy
  texts (`NormalForm.RewriteIsIdentityIffTidy`).
- **Sessions and commits.** `WriteSession` is one write through parse, insert and print; `Session` any number of them;
  `Commit` one merge; `Merge` a queue of merges; `Fate` what any queue does to each sentence. The central question is
  whether every accepted edit reaches the file and nothing else changes. The answers are equivalences:
  `Session.SessionCommits` for one session, `Merge.LandsIff`, `Merge.AllLandIffOrdered` and `Merge.OverwritesIff` for
  several. `Fate.OriginIs` says where each sentence of the final file comes from. `MergeExamples` has small texts on which
  edits go astray. `WrittenText`, `MergedText` and `TextExamples` say the same token by token, line breaks included.
- **The storage server.** `Storage` has the files as a map from paths to texts, `Paths` shows that the path names do not
  meet, `ServerState` has one step for each message, `ServerRuns` the theorems about all runs. `ServerHistory` connects
  runs with queues of commits: over any run a file is the merge of the commits in it (`ServerHistory.MainIsMerged`).
  `ServerLocks` shows that locks and sessions are the same thing in every reachable state.
  `Rounds` and `ServerRounds` are about sessions that are open at the same time and say what the file holds of their
  writes (`ServerRounds.SimultaneousEdits`). `ServerExamples` and `FullQueueExample` have runs from the start of the server
  in which edits are accepted and lost.
  `CommitQueues` and `StorageServer` are the tables, the linked queue and the handlers, proved to take exactly these steps.
- **The name server.** `TrieSpec`, `TrieListing` and `FileTrie` are the trie of names; `CacheSpec`, `CacheRuns` and
  `LruCache` the cache; `Catalogue` the access lists and requests, `CatalogueHistory` the history of messages that they
  agree with, and `NameServerRights` the same behind the cache; `CatalogueCache` the server as one machine with both,
  and the agreement of cache and trie; `NameServer` the handlers, proved to take that machine's steps;
  `NameServerExamples` runs in which it stops answering or finds files on the wrong server.
- **Messages.** `FieldCodec`, `Wire` and `Decimal` are the text form of messages.

## What the code does not do

Where a property holds only under a condition, the condition is stated exactly.

- All growth of a file is put down to sentences in front of a session's sentence (`ss.c:181-182`). A commit lands on the
  last sentence of its own block if and only if no sentence behind it has grown since its session began
  (`Merge.SessionLandsIff`). Sessions open at the same time all land if and only if none grows the file behind one that is
  committed later (`ServerRounds.SimultaneousSessions`); `ServerExamples.WrongOrderRun` is a run where it goes wrong.
- Locks exclude by index. Once the number of sentences has changed, a second user can be granted the sentence that a
  session is editing (`ServerRuns.SecondWriterIff`). Which of two commits survives is fixed by their locks
  (`ServerRuns.LaterUnlockOverwritesIff`); `ServerExamples.LostEditRun` is a run in which an edit is lost this way.
- A session that appends behind the last sentence of a non-empty file is always dropped at commit (`Commit.SkippedIff`,
  `ServerRuns.AppendIsDropped`), although the lock handler grants it; `ServerExamples.AppendRun` shows it for every text
  that ends in a delimiter or a newline.
- Text written behind the closing delimiter of a sentence that others follow joins the next sentence in the copy and is
  lost at commit (`Session.SessionCommits`, `ServerExamples.SpilledRun`).
- The table of commit queues has 100 slots, one for each file that ever had a commit, and never shrinks
  (`ss.c:85-88`). Once it is full, an unlock on any other file answers with a server error, and the session's accepted
  edits are deleted with its copy (`ss.c:463-467`, `ServerRuns.UnlockIs`, `FullQueueExample.FullQueueRun`).
- The cache of the name server has 100 slots (`nm.c:68`), every created file takes one (`nm.c:1013`), and its loops look
  for the key or a free slot without counting (`cache.c:71-83`, `cache.c:115-117`). Once 100 files are cached, any message
  about another file that goes through the cache is never answered (`CatalogueCache.AnsweredIff`,
  `NameServerExamples.FullCacheRun`). The loops hold a lock meanwhile.
- A removal from the cache leaves a hole in the probe sequence; it can hide an entry and bring back an old one
  (`CacheRuns.RemoveKeepsReachedIff`, `CacheRuns.StaleAfterRemove`); `NameServerExamples.StaleRun` is a run in which a
  lookup then finds a file on a server that it is not on.
- The decoder reads the path into a 512-character array but copies at most 255 characters (`common.c:115-118`,
  `Wire.RoundTripIff`). The comments on the encoder and decoder number the fields differently from the code; the model
  has the code's fifteen.
- The result of inserting a name into the trie is ignored when a file is created: a name that is not ASCII is cached but
  not stored (`CatalogueCache.CreateAgreesIff`).
- A request for plain write access, once approved, allows nothing (`Catalogue.ApprovedRequest`); the client asks for
  reading or for reading and writing.
- A word run of 128 or more characters in a written text overruns the word buffer (`file_ops.c:155`,
  `Tokeniser.SplitStaysInBufferIff`); the data field of a message has room for one. What the server does then is not
  defined; the theorems about sessions and runs take such a run as chopped at 127 characters, as the parser does, and say
  something about the code for contents without one.
- A word run of 128 or more characters is chopped by the parser and counted once by the statistics
  (`Stats.WordCountIsWordTokens`).

## Model

| member | source | states |
|---|---|---|
| `Tokeniser.SplitByDelimiters` | file_ops.c:47-183 | The character loop with its 128-character buffer, terminators included, returns exactly the tokens of the text, for every text whose word runs fit the buffer, and the largest index that it writes is the computed one. |
| `Tokeniser.SplitStaysInBufferIff` | file_ops.c:47-183 | For every text: the largest buffer index that the loop writes, terminators included, is inside the 128-character buffer if and only if no word run is longer than 127. |
| `FileOps.FileContent.ParseFile` | file_ops.c:185-346 | The parser, on growing heap arrays, leaves exactly the tokens of the text, cut behind each delimiter; words are chopped at 127 characters; the last sentence counts only if it has tokens. |
| `FileOps.FileContent.WriteFileContent` | file_ops.c:356-417 | The two nested print loops write exactly the printed document. |
| `Text.TokensOfConcat` | file_ops.c:207-342 | A list of tokens in which no two neighbours could fuse and no run is too long is given back by tokenising its concatenation: tokenising undoes writing. |
| `Text.WordStep` | file_ops.c:262-342 | A run of letters is a word of its own as soon as it has 127 of them or the next character is no letter. |
| `Text.BlankStep` | file_ops.c:241-260 | A whole run of blanks becomes one token, which keeps its first 127 characters. |
| `Text.SingleStep` | file_ops.c:207-240 | A newline or delimiter is a token by itself. |
| `Document.CutIsCut` | file_ops.c:207-342 | Parsed sentences are non-empty, hold a delimiter only at their end, and all but the last are closed by one. |
| `Document.CutFlatten` | file_ops.c:207-342 | Cutting undoes joining for every document that a parse can produce. |
| `PrintParse.PrintThenParse` | file_ops.c:356-417 | For every document of well-formed tokens, also with empty sentences and delimiters in mid-sentence, parsing the printed text gives back the same real tokens, cut behind each delimiter; the only extra is one empty sentence for a trailing blank. |
| `PrintParse.PrintThenParseCut` | file_ops.c:356-417 | For documents that a parse can produce, the real tokens come back sentence by sentence. |
| `NormalForm.RewriteIsIdempotent` | file_ops.c:185-417 | Parsing and printing twice gives the same text as once, for every text. |
| `NormalForm.RewriteIsIdentityIffTidy` | file_ops.c:185-417 | Parsing and printing leaves a text alone if and only if its word runs and blank runs are at most 127 long and every delimiter is followed by white space or the end. |
| `FullText.PrintKeepsStream` | file_ops.c:356-417 | Printing any document and parsing the text again keeps every word, delimiter and newline, in order. |
| `FullText.PrintSentencePieces` | file_ops.c:366-395 | Printing a sentence piece by piece: one blank goes between two pieces if and only if neither of the tokens that meet is a blank, a newline or a delimiter. |
| `FullText.PrintPieces` | file_ops.c:356-417 | Printing a document piece by piece: one blank goes between two pieces if and only if the first one ends in a word or delimiter and the second one does not start with a blank or a newline. |
| `FullText.PrintedComesBack` | file_ops.c:185-417 | A parsed document comes back from printing and parsing sentence by sentence, each as it was but for a blank between chopped words and one in front; the text is exactly these sentences. |
| `Stats.GetFileStats` | file_ops.c:686-732 | The counting loop returns the number of word runs of the text and its length. |
| `Stats.WordCountIsWordTokens` | file_ops.c:686-732 | That number is the number of word tokens of the parser if and only if no word run is longer than 127. |
| `Stats.TokensCoverText` | file_ops.c:207-342 | The tokens concatenate to the text if and only if no blank run is longer than 127. |
| `FileOps.FileContent.InsertWordInSentence` | file_ops.c:477-684 | The in-place insertion with shifting, slot opening and splitting at the last delimiter computes the specified document and return value, or -1 with the document unchanged but for an opened sentence; all indices stay within the arrays. |
| `FileOps.FileContent.InsertIntoTarget` | file_ops.c:517-683 | The part behind the index checks: the word index is accepted exactly from 1 to the number of real words plus one, and the sentence count grows by the returned number. |
| `FileOps.FileContent.PlaceInRoom` | file_ops.c:589-679 | Moving the later sentences up, inserting the parts and moving the tail to the next sentence yields the specified sentences, with room for exactly as many new slots as counted. |
| `FileOps.WordList.MoveTail` | file_ops.c:636-657 | Moving words to the next sentence loses and duplicates none, and leaves room for the parts still to come. |
| `FileOps.CountDelimiters` | file_ops.c:566-584 | The counting loop finds the last delimiter and the number of new slots. |
| `Insert.PositionIff` | file_ops.c:533-554 | The insertion point for word index w, and no other place: the start of the sentence for word 1, its end behind the last word, and otherwise right behind a word or delimiter that has exactly w - 2 others in front of it. |
| `Insert.PositionCounts` | file_ops.c:533-554 | It is preceded by exactly w - 1 real tokens of the sentence. |
| `Insert.InsertIsSplice` | file_ops.c:517-683 | For every accepted (sentence, word, text), the flat token stream afterwards is the old one with the tokens of the text inserted at one point, which has exactly w - 1 real tokens of that sentence in front of it. |
| `Insert.InsertMovesSentences` | file_ops.c:517-683 | Earlier sentences stay in place and later ones move by exactly the returned count. |
| `WrittenText.InsertSplits` | file_ops.c:556-679 | The sentences after an insertion: what is closed by the last inserted delimiter stays in the edited sentence, what is behind it opens the next one with the rest, one empty sentence follows for each further new slot, and all others are as they were. |
| `WriteSession.ParseIsCut` | file_ops.c:185-346 | What a parse guarantees: the shape of its sentences, well-formed tokens, the flat stream, and an empty document only for an empty text. |
| `WriteSession.WriteBeforeOthers` | ss.c:840-931 | A write into a sentence that others follow, through parse, insert, print and re-parse: text behind the last delimiter joins the next sentence, all other sentences stay. |
| `WriteSession.WriteIntoLast` | ss.c:840-931 | A write into the last sentence stays in it and in the sentences it opens. |
| `WriteSession.WriteIntoEmpty` | ss.c:871-900 | A write into an empty copy is accepted at word 1 only and yields the text's tokens. |
| `WriteSession.WriteAcceptedIff` | ss.c:882-900 | Exactly which writes are accepted: word indices from 1 to one more than the real words of an existing sentence, or word 1 behind the last sentence. |
| `WriteSession.WriteGrows` | ss.c:840-931 | No accepted write lowers the sentence count of the re-parsed copy. |
| `WrittenText.CopyAfterWrite` | ss.c:840-931 | An accepted write, through parse, insert, print and re-parse: the words, delimiters and newlines of the copy are the old ones with those of the content put in at that one point; and which document is printed. |
| `TextExamples.WriteKeepsLines` | ss.c:840-931 | For any words a, b and x: x written at word 2 of a text of two lines goes behind a, in front of the line break, to the character. |
| `Session.WritesBeforeOthers` | ss.c:840-931 | After any number of accepted writes to a sentence that others follow, the copy is the base with that sentence replaced by closed sentences of its own and the spilled tokens in front of the next one; nothing spills if and only if all writes stayed inside. |
| `Session.WritesIntoLast` | ss.c:840-931 | The same for the last sentence: all sentences in front are untouched and the rest is every text spliced in. |
| `Session.CopyHoldsEverything` | ss.c:840-931 | The copy's real tokens are the base's with every inserted text spliced in, nothing lost or duplicated. |
| `Session.SessionCommits` | ss.c:131-327 | Committed on the unchanged file, the main file gets the copy's real tokens if and only if every write stayed inside the session's sentences. |
| `Session.SessionOnEmptyFile` | ss.c:186-248 | A session on an empty file commits all it wrote. |
| `Commit.SkippedIff` | ss.c:181-202 | Exactly which commits are dropped: appending behind the last sentence of a non-empty file, and those whose sentence fell off a file that shrank. |
| `Commit.MergeReplacesOneSentence` | ss.c:148-302 | Through printing and re-parsing, a commit replaces exactly the sentence at the shifted index by the session's own sentences. |
| `MergedText.MergeIs` | ss.c:148-302 | A commit, token by token: into an empty file the whole copy goes, as the server rewrites it; a skipped one leaves the text; any other one leaves each sentence in front of its place and behind it as the parser saw it, newlines included, puts the session's own sentences between them, and adds nothing but single blanks; the text is exactly these sentences. |
| `TextExamples.MergeKeepsLines` | ss.c:254-287 | For any words: a commit of the third sentence leaves the line break in front of the second one, to the character. |
| `Commit.MergeFillsExactly` | ss.c:249-294 | The three copy loops fill exactly the slots that are allocated. |
| `CommitQueues.FillMerged` | ss.c:249-287 | The copy loops on heap arrays: front, session, rest, in order, filling the whole array; the session's sentences are deep copies. |
| `CommitQueues.MergeInto` | ss.c:249-294 | The main document on the heap becomes the merged document. |
| `CommitQueues.MergeCommit` | ss.c:148-302 | One queue entry from texts to text, with the index check and the empty-file case. |
| `Merge.MergeAllEditsBlocks` | ss.c:148-327 | Any queue of commits, first in first out, through the print and re-parse between them, acts on blocks of sentences, one block for each sentence of the base. |
| `Merge.LandsIff` | ss.c:181-185 | A commit's shifted index hits the last sentence of what its session's sentence has become, or one behind it; it hits that last sentence if and only if no sentence behind has grown. |
| `Merge.SessionLandsIff` | ss.c:181-185 | The same after any commits since the session was opened, also those that split or replaced the session's own sentence: the commit hits the last sentence of its block if and only if every block behind it still is one sentence. |
| `Merge.ConcurrentMerge` | ss.c:148-327 | Commits on one base with distinct indices, where every earlier commit at a larger index left the sentence count alone: the file is the base with each locked sentence replaced by its session's sentences and all others unchanged. |
| `Merge.PlacedCommit` | ss.c:181-294 | With no growth behind it, a commit replaces the last sentence of its block and nothing else. |
| `Merge.MisplacedCommit` | ss.c:181-294 | What a commit does otherwise: its own block and all in front of it stay as they were, and a sentence behind them is replaced. |
| `Merge.LandsHomeIff` | ss.c:181-185 | A commit behind an ordered queue lands on its own sentence if and only if no commit before it at a larger index grew the file. |
| `Merge.AllLandIffOrdered` | ss.c:181-185 | All commits of a queue land on their own sentences if and only if the queue is ordered that way. |
| `Merge.OverwritesIff` | ss.c:181-294 | Of two commits of any sessions, each opened at any time, the later one overwrites a sentence of the earlier one if and only if the distance of their sentences from the end of the file, known before either commits, is between minus the growth of the earlier one and zero; with the document after both. |
| `Merge.OthersSurvive` | ss.c:254-287 | A commit that does not overwrite them leaves all sentences of an earlier one in place; one that does takes exactly one of them away. |
| `Fate.OriginIs` | ss.c:148-327 | Over any queue of commits of any sessions, the final file has exactly the computed number of sentences, and each of them is a sentence of the old file or one of a commit's own; which one follows from the indices and counts of the sessions alone. |
| `Fate.FateIffOrigin` | ss.c:148-327 | A sentence of the old file survives all commits if and only if it is the origin of a sentence of the final file. |
| `Fate.OwnFateIffOrigin` | ss.c:148-327 | The same for each sentence that a commit brought along. |
| `Fate.SentenceSurvives` | ss.c:148-327 | A sentence of the old file that no commit overwrites is in the final file, at the computed place. |
| `Fate.EditSurvives` | ss.c:148-327 | A committed sentence that no later commit overwrites is in the final file, at the computed place. |
| `MergeExamples.WrongOrderOnText` | ss.c:181-185 | In "a. b.", with copies that accepted writes make: the earlier commit at the larger index adds c, and the later one, which put x in front of a, lands on b: b is lost and a is there twice. |
| `MergeExamples.SpilledOnText` | ss.c:131-327 | In "a. b.", c is written behind the delimiter of the first sentence: the write is accepted, c is in the copy, and the commit leaves the file as it was. |
| `Storage.ProcessEachMergesAll` | ss.c:148-327 | Processing handles every queued commit once, in order, removes all the copies and touches no other file; a missing main file reads as empty. |
| `Storage.UndoRestoresBatch` | file_ops.c:734-801 | An undo behind a processed queue restores the bytes from before the batch. |
| `Storage.UndoRestoresRevert` | file_ops.c:898-933 | A revert brings the saved text back, and an undo behind it the text from before. |
| `CommitQueues.CommitQueue.Enqueue` | ss.c:100-129 | Appends at the tail of the linked list. |
| `CommitQueues.CommitQueue.Process` | ss.c:131-333 | Empties the linked queue and changes the files as the specification says; head is null exactly if tail is. |
| `CommitQueues.ProcessEntry` | ss.c:148-315 | One entry on the file map: merged or dropped, the copy removed in any case. |
| `Paths.RenderIsInjective` | ss.c:355-357 | Path names of main files, undo copies, checkpoints and session copies never meet, as long as file names hold none of the derived marks. |
| `Paths.PathNames` | ss.c:355-357 | The path names, spelled out. |
| `ServerState.StepKeepsInv` | ss.c:1129-1303 | Every message keeps each session's lock held by its user, session keys distinct, one lock table per file, and every copy present with at least as many sentences as the session began with. |
| `ServerState.MayLockIff` | ss.c:1164-1219 | Which indices may be locked, in terms of the text: those of its sentences, and the one behind them if the text is empty or its last character is a delimiter or a newline. |
| `ServerState.InitKeepsLocks` | ss.c:728-760 | Growing the lock table keeps every lock, held or free, and gives the file enough of them. |
| `ServerState.AcquireIs` | ss.c:933-955 | A lock is granted unless another user holds it, and all other holders stay. |
| `ServerState.ReleaseIs` | ss.c:957-976 | Only the holder releases a lock, and that releases no other. |
| `ServerState.CommitKeepsInv` | ss.c:451-495 | A commit removes its session from the table and its copy from the files, and no other. |
| `ServerRuns.OneWriterPerLock` | ss.c:335-393 | In every reachable state, two sessions on one sentence index of a file are the same session, and its user holds the lock. |
| `ServerRuns.OthersAreRefused` | ss.c:933-955 | While a session is active, no other user is granted its lock. |
| `ServerRuns.LockGrantedIff` | ss.c:1164-1236 | A lock request is granted if and only if the index is valid, no other user holds the lock and there is a session slot. |
| `ServerLocks.LocksAreSessions` | ss.c:509-535 | In every reachable state a user holds the lock of a sentence index if and only if the user has a write session on it, and a file is reported as locked if and only if it has a session: no lock outlives its session. |
| `ServerLocks.LockIs` | ss.c:1164-1236 | A lock request: how it is answered, and the new state; a granted one starts one session on a copy of the file and adds one holder, a refused one changes no holder, no session and no file. |
| `ServerLocks.GrantedIff` | ss.c:1164-1236 | In every reachable state a lock is granted if and only if the index may be locked, no other user has a session on it, and there is a session slot. |
| `ServerLocks.SessionEnds` | ss.c:1245-1267 | An unlock or a cancel of an active session, among any number of others: the session and its copy are gone, nobody holds its index, all other sessions and holders are there; a cancel changes no other file. |
| `ServerLocks.IndexIsFreeAgain` | ss.c:1245-1267 | After that, in every reachable state, any user's lock of the index is granted if and only if the index may still be locked. |
| `ServerLocks.NothingToEnd` | ss.c:957-976 | Without a session, unlock and cancel are refused and change nothing. |
| `ServerLocks.WriteIs` | ss.c:840-931 | A write changes the copy of the sender's own session and nothing else; a text that cannot be inserted changes nothing. |
| `ServerLocks.NoSessionNoWrite` | ss.c:840-860 | Without a session nothing can be written. |
| `ServerLocks.CreateIs` | ss.c:728-760 | A file is created empty if there is none of the name; no holder changes, and its first sentence has a lock. |
| `ServerLocks.RefusedWith` | ss.c:1277-1290 | Undo, create, delete, checkpoint and revert: the status of a refusal, which changes nothing. |
| `ServerRuns.SessionsShowAsLocks` | ss.c:509-535 | A file with a write session is reported as locked. |
| `ServerRuns.StepKeepsSession` | ss.c:1129-1303 | One message of anybody leaves another's session active, and its copy changes only by a write of its own. |
| `ServerRuns.SessionIsPrivate` | ss.c:1129-1303 | Over any run of messages of all users, a session's copy is what its own accepted writes made of it, in their order. |
| `ServerRuns.UnlockIs` | ss.c:451-495 | An unlock of an active session succeeds if and only if there is a commit queue for the file or room for one. Then the copy is merged into the file as it is then, the old bytes are the undo copy, the session's copy is removed and nothing else is touched; otherwise the copy is deleted and the file stays as it was. |
| `ServerRuns.AppendIsDropped` | ss.c:181-202 | The unlock of a session behind the last sentence of a file that has sentences leaves the file's text as it was. |
| `ServerRuns.SessionEndToEnd` | ss.c:396-495 | From lock to unlock with any steps in between: the text that the accepted writes made of the file at the lock is merged into the file at the unlock if there is a commit queue, and else the file stays as it was. |
| `ServerRuns.UncontendedSession` | ss.c:396-495 | Without a commit in between, for every index that can be locked: the file stays as it was if there is no commit queue or if the session was an append to a file with sentences; otherwise it ends with its old real tokens and every accepted text spliced in, if and only if the writes stayed inside the session's sentences. |
| `ServerRuns.StepIsLocal` | ss.c:1129-1303 | A message changes only files that belong to the stored file it names, and no existing checkpoint. |
| `ServerRuns.CheckpointsNeverChange` | file_ops.c:809-839 | Over any run of commits, undos, reverts, deletions and further checkpoints, a checkpoint keeps its contents. |
| `ServerRuns.RevertBringsBack` | file_ops.c:898-933 | After any run, reverting to a tag yields the contents saved under it, and an undo takes the revert back. |
| `ServerRuns.UndoTakesUnlockBack` | ss.c:1277-1290 | An undo right after an unlock restores the bytes from before it if there was a commit queue and a main file; otherwise nothing was saved, and an older undo copy comes back if there is one. |
| `ServerRuns.SecondWriterIff` | ss.c:181-182 | While a session is active, another user is granted a lock on the sentence that it is editing if and only if the number of sentences has changed since it began, nobody holds the index where the sentence is now, and there is a session slot. |
| `ServerRuns.SecondWriterShares` | ss.c:181-182 | Then both sessions are active and mean the same sentence, whatever the number of sentences will be. |
| `ServerRuns.LaterUnlockOverwritesIff` | ss.c:181-294 | Of two active sessions of one file that unlock one after the other, the later overwrites a sentence of the earlier if and only if the distance of their sentences, fixed by the locks, is between minus the growth of the earlier one and zero. |
| `ServerHistory.MainIsMerged` | ss.c:131-333 | Over any run of messages of all users in which no undo, revert or deletion rewrites it, a file is what the commits of the run make of it, in the order of the unlocks. |
| `ServerHistory.RunEditsBlocks` | ss.c:131-333 | Over such a run the file remains one non-empty block for each sentence it had, each edited by commits alone. |
| `ServerHistory.RunOrigins` | ss.c:131-333 | Over such a run each sentence of the final file is one the file had or one a session committed, as computed from indices and counts. |
| `ServerRounds.SimultaneousSessions` | ss.c:1129-1303 | Any number of sessions of any users, open on one file at the same time, with any messages in between and committed in any order: they have different sentences, each copy is what the session's own writes, accepted in the run since its lock, made of the text at the locks, all commits land on the locked sentences if and only if none grows the file behind one that is committed later, and then the file is the old one with each locked sentence replaced by its session's sentences. |
| `ServerRounds.SimultaneousEdits` | ss.c:1129-1303 | When all of them land, the file holds its old real tokens with every text that the server accepted from these sessions spliced into the sentence that it was written to, if and only if all these writes stayed inside their sessions' sentences. |
| `Rounds.BlockHolds` | ss.c:131-327 | Sentence by sentence: after such a round the place of a sentence holds it with all accepted writes of its session spliced in, if and only if they stayed inside, and otherwise lacks tokens at its end only. |
| `Rounds.RoundHoldsIff` | ss.c:131-327 | The same for the whole file and any list of commits with the writes behind them. |
| `ServerRounds.SessionsOnEmptyFile` | ss.c:186-248 | On an empty file there is at most one such session, and the file becomes its copy, whose real tokens are all its accepted writes. |
| `ServerExamples.WrongOrderRun` | ss.c:1129-1303 | From a server that has just started: two users lock, write and unlock in "a. b."; all six messages succeed, and one sentence is lost and another doubled. |
| `ServerExamples.LostEditRun` | ss.c:1129-1303 | From a server that has just started, nine messages of three users on "a. b." that all succeed: two users hold locks on the same sentence, and the edit of the first to unlock is lost. |
| `ServerExamples.AppendRun` | ss.c:1129-1303 | From a server that has just started, for any text that ends in a delimiter or newline and any content: a lock behind the last sentence, a write and an unlock all succeed, and the file stays as it was. (Word runs of 128 and more are taken as chopped here, as in all runs.) |
| `ServerExamples.SpilledRun` | ss.c:1129-1303 | From a server that has just started: a lock, a write behind a delimiter and an unlock all succeed, and the written word is not in the file. |
| `FullQueueExample.FullQueueRun` | ss.c:72-97 | From a server that has just started, on any files: a hundred of them are locked and unlocked; then a lock and a write on another file succeed, its unlock answers with a server error, the file is as it was, and the copy with the accepted text is gone. |
| `StorageServer.StorageServer.InitFileLocks` | ss.c:728-760 | The search and growth loops compute the specified lock table. |
| `StorageServer.StorageServer.LockSentence` | ss.c:933-955 | Changes the lock table as specified. |
| `StorageServer.StorageServer.UnlockSentence` | ss.c:957-976 | Changes the lock table as specified. |
| `StorageServer.StorageServer.CheckFileLocks` | ss.c:509-535 | Reports exactly whether some sentence of the file is locked. |
| `StorageServer.StorageServer.FindSlot` | ss.c:335-369 | Finds the session's slot, or the end of the table. |
| `StorageServer.StorageServer.CompactFrom` | ss.c:371-393 | The compaction loop removes exactly one session and keeps the order of the others. |
| `StorageServer.StorageServer.StartWriteSession` | ss.c:396-449 | Adds or restarts a session on a copy of the main file, or reports a full table and changes nothing. |
| `StorageServer.StorageServer.IndexIsValid` | ss.c:1164-1219 | The index check of the lock handler, with the closing delimiter or newline needed for an append. |
| `StorageServer.StorageServer.HandleLock` | ss.c:1164-1236 | The new state and the status are those of the lock step. |
| `StorageServer.StorageServer.HandleWrite` | ss.c:840-931 | The new state and the status are those of the write step, by way of the heap document. |
| `StorageServer.StorageServer.GetCommitQueue` | ss.c:72-97 | Finds or adds the file's queue; none if the table is full. |
| `StorageServer.StorageServer.CommitWriteSession` | ss.c:451-495 | Queue, table and files change as the commit step says. |
| `StorageServer.StorageServer.HandleUnlock` | ss.c:1245-1260 | The new state and the status are those of the unlock step. |
| `StorageServer.StorageServer.HandleCancel` | ss.c:1262-1267 | The new state and the status are those of the cancel step. |
| `StorageServer.StorageServer.HandleUndo` | ss.c:1277-1290 | Takes the undo step; it succeeds if and only if there is an undo copy, whose bytes come back and which is used up; no other file changes. |
| `StorageServer.StorageServer.HandleCheckpoint` | file_ops.c:809-839 | Takes the checkpoint step; it succeeds if and only if there is a main file and the tag is new, and then the checkpoint has the bytes of the main file; no other file changes. |
| `StorageServer.StorageServer.HandleRevert` | file_ops.c:898-933 | Takes the revert step; it succeeds if and only if there is the checkpoint, whose bytes come back while those from before become the undo copy; no other file changes. |
| `StorageServer.StorageServer.HandleCreate` | ss.c:779-797 | The new state and the status are those of the create step. |
| `StorageServer.StorageServer.HandleDelete` | ss.c:799-813 | Takes the delete step; it succeeds if and only if there is a main file, which goes with its undo copy; checkpoints and session copies stay. |
| `TrieSpec.TrieIsMap` | trie.c:44-175 | After any sequence of inserts, updates and deletes of any names, the trie holds exactly what was last stored under each name, where an insert of a name that is not ASCII stores nothing; it has no useless node if all names were ASCII. |
| `TrieSpec.ShapeIsDetermined` | trie.c:44-149 | The stored names alone determine which nodes there are. |
| `TrieSpec.LeavesEndNames` | trie.c:102-142 | A node without children, other than the root, ends a stored name. |
| `TrieSpec.DeleteKeepsShape` | trie.c:102-142 | The pruning deletion takes exactly one name away from any trie and keeps its shape; it leaves no useless node if there was none. |
| `TrieSpec.DeleteFreesIff` | trie.c:102-149 | Which nodes a deletion frees in any trie: exactly those on the way to the name that no branch leaves and on or behind which no name ends. |
| `TrieSpec.DeleteUndoesInsert` | trie.c:44-149 | Deleting a freshly inserted name restores the identical trie. |
| `TrieSpec.RejectedNameTightIff` | trie.c:49-64 | A name with a character that is not ASCII stores nothing, but leaves useless nodes unless those of its ASCII part were there. |
| `FileTrie.FileTrie.Insert` | trie.c:44-74 | The walk on heap nodes inserts the name or rejects it; nodes that were there stay where they are. |
| `FileTrie.FileTrie.Search` | trie.c:76-100 | Returns exactly what is stored under the name. |
| `FileTrie.FileTrie.Update` | trie.c:151-175 | Changes the metadata of a stored name and nothing else. |
| `FileTrie.FileTrie.DeleteHelper` | trie.c:102-142 | The recursion that clears a name and cuts off useless nodes on the way back refines the pruning of the specification. |
| `FileTrie.FileTrie.Delete` | trie.c:144-149 | The heap trie becomes the specified one. |
| `FileTrie.FileTrie.Collect` | trie.c:177-191 | The recursive walk fills the buffer with the first names of the listing order until it is full. |
| `FileTrie.FileTrie.GetAllFiles` | trie.c:193-201 | Returns the metadata of exactly the first names in strict lexicographic order, each once, as many as there are up to the limit. |
| `TrieListing.ListingIsFirstNames` | trie.c:177-201 | The listing is strictly sorted, as long as the smaller of limit and count, and every stored name that is left out comes later. |
| `CacheSpec.EndsIff` | cache.c:64-163 | A search by linear probing ends if and only if some slot is free or holds the key. |
| `CacheSpec.OperationsKeepStructure` | cache.c:41-163 | Every operation, also the removal, keeps the one-to-one match between occupied slots and the list. |
| `CacheSpec.OrderCountsSlots` | cache.c:89-163 | The list is as long as there are occupied slots, and shorter than the table exactly while a slot is free. |
| `CacheRuns.PutKeepsReached` | cache.c:89-140 | A put keeps every entry reachable from its home slot without a gap. |
| `CacheRuns.RemoveKeepsReachedIff` | cache.c:142-163 | A removal keeps every other entry reachable if and only if none was reached over the removed slot. |
| `CacheRuns.SearchEndsIff` | cache.c:64-163 | A search in a cache that follows the reference ends if and only if the key is in it or a slot is free. |
| `CacheRuns.CacheIsModel` | cache.c:64-182 | A run of get, put, remove and clear in which no removal hides another entry comes to an end if and only if every operation finds its key or a free slot; then the cache holds exactly the reference's keys and values in most recently used order. |
| `CacheRuns.GetReturnsLastPut` | cache.c:64-87 | A get at the end of such a run, if it ends, returns the value last put. |
| `CacheRuns.StaleAfterRemove` | cache.c:142-163 | A concrete table where a removal hides an entry and, later, an old value of it is found. |
| `CacheRuns.StaleIsReachable` | cache.c:89-140 | That table comes up by two puts. |
| `LruCache.RemoveNode` | cache.c:41-44 | Taking a node out keeps the rest of the chain doubly linked. |
| `LruCache.AddToHead` | cache.c:46-51 | Puts a node behind the head sentinel and keeps the chain doubly linked. |
| `LruCache.LruCache.MoveToHead` | cache.c:53-56 | Moves one node to the front and leaves the table alone. |
| `LruCache.LruCache.Get` | cache.c:64-87 | The probing loop and the move to the front, as specified. |
| `LruCache.LruCache.Put` | cache.c:89-140 | Overwrites a node or places a new one in the first free slot, as specified. |
| `LruCache.LruCache.SizeFits` | cache.c:123-137 | The size never exceeds the capacity, so the evicting branch is never taken. |
| `LruCache.LruCache.Remove` | cache.c:142-163 | Empties the slot and takes the node out of the list, as specified. |
| `LruCache.LruCache.Clear` | cache.c:165-182 | Leaves an empty table and an empty list. |
| `Wire.RoundTripIff` | common.c:39-151 | For every message that the struct can hold, decoding the encoded text gives it back if and only if no string field but the data holds a bar and the path is at most 255 characters long. |
| `Wire.EncodedText` | common.c:39-73 | The text of a message: its fifteen fields in this order, numbers in decimal, with bars between them. |
| `Wire.DecodedField` | common.c:75-151 | What the decoder makes of any text: each token in its field, numbers read, texts cut to what is copied; an empty or missing token leaves the default of a blank message. |
| `Wire.EmptyText` | common.c:75-100 | An empty text is read as the blank message, field by field. |
| `Wire.EveryTextHasTokens` | common.c:75-100 | Every text is such a list of tokens. |
| `Wire.EncodedIsAccepted` | common.c:198-209 | Every encoded message has between 1 and 9503 characters and passes the receiver's length check. |
| `Wire.Deserialize` | common.c:75-151 | The decoder's loop computes the specified message for every text. |
| `FieldCodec.ReadFields` | common.c:75-151 | The loop over a pointer and a field counter, for any way of storing fields. |
| `FieldCodec.SurvivorsReturn` | common.c:39-151 | Fields that survive one by one come back together. |
| `Decimal.AtoiOfPrint` | common.c:57-71 | Reading back a printed number gives the number. |
| `Decimal.AtoiReads` | common.c:75-151 | What is read of any text: behind white space, the value of the digits up to the next other character, with their sign. |
| `Decimal.NoLeadingZero` | common.c:57-71 | Only the number 0 is printed with a 0 in front; with `AtoiOfPrint` this fixes the digits. |
| `CatalogueHistory.AccessIsHistory` | nm.c:198-225 | As long as no access list was full, the access check says what the history of creations, grants, removals and approvals says, which is read off the messages alone. |
| `CatalogueHistory.RequestsAreHistory` | nm.c:308-508 | And the waiting requests are those of the history, in its order. |
| `CatalogueHistory.SucceedsIff` | nm.c:946-1203 | And a message succeeds if and only if that history says so: who may create, delete, grant, take away, request, decide, move and use. |
| `NameServerRights.AnswersAreHistory` | nm.c:946-1203 | The same for every run of the name server with its cache, whatever the cache holds; a move or a use succeeds only for a sender whom the history gives that access. |
| `NameServerRights.ServerOwnersDecide` | nm.c:1122-1203 | In every state: if a message changes what anyone may do with a file, or removes it, its sender is the owner; a file never gets another owner. |
| `CatalogueHistory.OwnersSucceedIff` | nm.c:1122-1203 | In every state: grants and removals, deletions and decisions about requests succeed if and only if the sender owns the stored file and the rest of the message is in order. |
| `CatalogueHistory.FieldsChangeBy` | nm.c:510-593 | Folder, storage server and note of the last access of a file change by a move, a registration and a use of that file only, to what the message says. |
| `CatalogueHistory.FilesComeBy` | nm.c:946-1023 | A file comes into the catalogue by a creation or a registration, with its owner and nobody else on it. |
| `CatalogueHistory.RefusedWith` | nm.c:946-1203 | What each message is answered, with the status codes in the order in which they are checked. |
| `CatalogueHistory.RefusedChangesNothing` | nm.c:946-1203 | A message that is refused changes nothing. |
| `CatalogueHistory.RequestIsRecorded` | nm.c:318-355 | A request of a user who may not access the file is recorded behind all others, unless it waits already or the table is full. |
| `CatalogueHistory.DecisionTakesOne` | nm.c:448-454 | An approval or denial takes away exactly the request that it names and keeps the others in order. |
| `CatalogueHistory.OthersKeepRequests` | nm.c:308-508 | No other message changes the table of requests. |
| `CatalogueHistory.WaitsIff` | nm.c:308-508 | Over every run: a request waits if and only if it was made and the file's owner has neither approved nor denied it since. |
| `NameServerRights.ServerWaitsIff` | nm.c:308-508 | The same for every run of the name server with its cache. |
| `CatalogueHistory.RequestedAndApproved` | nm.c:308-465 | A user asks for access, any messages follow that decide no request and do not delete the file, and the owner approves: then the user may do what was asked, and only that. |
| `Catalogue.GrantIs` | nm.c:1161-1175 | A grant changes what one user has and nothing else, unless the list is full. |
| `Catalogue.AccessTable` | nm.c:198-225 | Which entries let a user in, by the numbers on the wire. |
| `Catalogue.RevokeIs` | nm.c:1184-1195 | A removal leaves the user without an entry and all others with theirs. |
| `Catalogue.GrantKeepsOrder` | nm.c:1161-1175 | A grant changes the user's own entry in its place or adds one behind all others. |
| `Catalogue.RevokeKeepsOrder` | nm.c:1184-1195 | A removal closes the gap and keeps the other entries in order. |
| `Catalogue.FullListDropsGrant` | nm.c:1171-1179 | A grant on a full list is answered with success and changes nothing. |
| `Catalogue.ApprovedRequest` | nm.c:432-455 | What an approved request allows: a request for plain writing, once approved, allows nothing. |
| `Catalogue.RequestsStayDistinct` | nm.c:308-361 | No request ever waits twice, over any run. |
| `CatalogueCache.AnsweredIff` | nm.c:164-181 | While cache and catalogue are in tune, a message is ever answered if and only if it leaves the cache alone, is about a cached file, or a slot of the cache is free; any other one searches the full table for good. |
| `CatalogueCache.LookupRun` | nm.c:164-181 | A lookup moves a cached file to the front, and otherwise puts what the trie has into the cache. |
| `CatalogueCache.CachedIsStored` | nm.c:164-181 | Over every run of the name server without rejected names, servers that take over cached files of others and deletions that hide another entry, as long as its messages are answered: the catalogue is what it would be without a cache, every cached entry is the stored one, and a lookup by way of the cache ends if and only if the file is cached or a slot is free, and then finds the storage server that the trie names. |
| `CatalogueCache.FewFilesAreAnswered` | nm.c:164-181 | Every message of such a run is answered if there are always fewer files than cache slots. |
| `NameServerExamples.NewFileAnsweredIff` | nm.c:946-1023 | The creation of a new file is answered if and only if the cache has a free slot. |
| `NameServerExamples.UncachedUseAnsweredIff` | nm.c:1631-1685 | So is the use of a file that is not cached. |
| `NameServerExamples.FullCacheRun` | nm.c:946-1023 | From a name server that has just started, with any hash function: a hundred files are created and all creations succeed; then no other file can be created by anyone, and one that a storage server brings along cannot be used, since the server never answers. |
| `NameServerExamples.StaleRun` | cache.c:142-163 | From a name server that has just started, for any two names with one home slot: seven messages that all succeed, two of them deletions of the second file and of the first, after which the catalogue has the second file on one storage server and a lookup finds it on another, where it was deleted. |
| `CatalogueCache.AgreementSuffices` | nm.c:1631-1685 | While cache and trie agree, a message does to the catalogue what it would do without a cache. |
| `CatalogueCache.StepAgrees` | nm.c:946-1023 | One such message keeps cache and trie in agreement. |
| `CatalogueCache.CreateAgreesIff` | nm.c:1012-1013 | Creating a file keeps the agreement if and only if the trie takes the name. |
| `CatalogueCache.RegisterAgreesIff` | nm.c:1453-1476 | A registering storage server keeps the agreement if and only if the file is not cached or was on that server before. |
| `CatalogueCache.DeleteAgreesIff` | nm.c:1097-1098 | A deletion keeps cache and trie in agreement if and only if no slot but the emptied one holds the name. |
| `NameServer.NameServer.CheckAccess` | nm.c:198-225 | The loop over the access list decides as specified. |
| `NameServer.NameServer.FindSsForFile` | nm.c:164-181 | Looks in the cache, then in the trie, and fills the cache. |
| `NameServer.NameServer.HandleCreate` | nm.c:946-1023 | Catalogue, cache and status after it are those of the server's step for the message, which `NameServerRights.AnswersAreHistory` and `CatalogueCache.CachedIsStored` are about. |
| `NameServer.NameServer.HandleDelete` | nm.c:1025-1106 | Catalogue, cache and status after it are those of the server's step for the message, which `NameServerRights.AnswersAreHistory` and `CatalogueCache.CachedIsStored` are about. |
| `NameServer.NameServer.HandleAddAccess` | nm.c:1122-1182 | Catalogue, cache and status after it are those of the server's step for the message, which `NameServerRights.AnswersAreHistory` and `CatalogueCache.CachedIsStored` are about. |
| `NameServer.NameServer.HandleRemoveAccess` | nm.c:1184-1203 | Catalogue, cache and status after it are those of the server's step for the message, which `NameServerRights.AnswersAreHistory` and `CatalogueCache.CachedIsStored` are about. |
| `NameServer.NameServer.HandleRequestAccess` | nm.c:308-361 | Takes the server's step, which `CatalogueHistory.RequestIsRecorded` describes: the request is put behind all others. |
| `NameServer.NameServer.HandleApprove` | nm.c:405-465 | Takes the server's step: grant, cache entry and the shift-down of the request table. |
| `NameServer.NameServer.HandleDeny` | nm.c:467-508 | Takes the server's step: the shift-down of the request table. |
| `NameServer.NameServer.HandleRegister` | nm.c:1453-1476 | Takes the server's step: a known file gets the server's number, an unknown one is added; the cache is not told. |
| `NameServer.NameServer.HandleMove` | nm.c:510-593 | Takes the server's step: the metadata part of a move. |
| `NameServer.NameServer.HandleUse` | nm.c:1631-1685 | Takes the server's step, whether cache and trie agree or not: the access check, the lookup, and the noting of the access in both. |
| `NameServer.RevokeEntry` | nm.c:1184-1195 | The loop that closes the gap of a removed entry. |

## Left out

- FileOps.FileContent.InsertWordInSentence: for texts whose word runs fit the 128-character buffer of `split_by_delimiters`, which assumes it; and not for sentence index 1 of a document that is one empty sentence, where the code does not count the slot it opens (`file_ops.c:511`) and which no session can reach.
- FileOps.FileContent.InsertIntoTarget: for texts whose word runs fit that buffer.
- Tokeniser.SplitByDelimiters: for word runs of at most 127 characters, which is exactly when the buffer holds them (`Tokeniser.SplitStaysInBufferIff`).
- StorageServer.StorageServer.HandleWrite: for contents whose word runs are at most 127 characters long, for the same reason; one message is one atomic step, and interleavings inside a handler are not modelled.
- Wire.RoundTripIff: numbers are in the 32-bit range and strings hold no NUL; `atoi` on numbers out of range is not modelled.
- LruCache.LruCache.Get: requires that the search ends, which by `CacheSpec.EndsIff` it does exactly if a slot is free or holds the key; otherwise the loop in the code does not terminate. The same holds for Put and Remove.
- NameServer.NameServer.HandleUse: the returned address of the storage server is left out.
- NameServer.NameServer.HandleMove: moving the real file is left out.
- NUL characters: texts and names are sequences of characters without a terminator.
- Names and paths that are cut off by fixed-size C arrays: user names of 64 characters and more, paths of 512 and more.
- The limit of 10000 files in the lock table and in the lists of storage servers.
- `malloc` and `realloc` failure, failing file operations, mutexes, and pointers into tables that have moved: each handled message is one step.
- The capacities of the array of parts inside `split_by_delimiters` and of the arrays made by merging: the model has the contents and the slots that are filled.
- Sockets, threads, heartbeats, registration of users and servers, round-robin choice, reconnection: plumbing.
- Real directories, folders, moving files between folders, the folder trie: same code shape as files and names.
- File times, sizes and the listing, viewing and streaming of files and checkpoints, whose text is formatting.
- `file_content_to_string` and `remove_tail`, which nothing reaches.
- The hash function is any function into the slots of the table; the 32-bit arithmetic of `hash_string` is left out.
- The refresh of metadata from storage servers in VIEW and INFO, which changes sizes, counts and times only.
- The client, the logger, EXEC and its foreign calls.
