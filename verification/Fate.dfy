/** What becomes of each sentence of a file, and of each sentence that a session commits, over any commits of any
    sessions: where it ends up, or that it is overwritten; and where each sentence of the final file comes from. */
module Fate {
  import opened Options
  import opened Document
  import opened WriteSession
  import opened Commit
  import opened Merge

  /** A commit puts its sentences in the place of the one that is as far from the end as its session's sentence was. */
  function FromEnd(q: Queued): (n: nat)
    requires q.Valid()
  {
    q.original - q.index
  }

  /** The commit is not skipped in a file of `count` sentences. */
  predicate Lands(q: Queued, count: nat)
    requires q.Valid()
  {
    1 <= FromEnd(q) <= count
  }

  /** The number of sentences after a queue of commits. */
  function Count(count: nat, queue: seq<Queued>): nat
    requires AllValid(queue)
  {
    if queue == [] then count else
      var before, q := Count(count, queue[..|queue| - 1]), queue[|queue| - 1];
      if Lands(q, before) then before + q.Growth() else before
  }

  /** Where a sentence goes in one commit to a file of `count` sentences, counted from the end: 1 is the last one.
      None if it is overwritten. */
  function Moved(q: Queued, count: nat, place: Option<nat>): Option<nat>
    requires q.Valid()
  {
    if place.None? || !Lands(q, count) then place
    else if place.value == FromEnd(q) then None
    else if place.value > FromEnd(q) then Some(place.value + q.Growth())
    else place
  }

  /** Where a sentence of a file of `count` sentences is after a queue of commits. */
  function FateOf(d: nat, count: nat, queue: seq<Queued>): Option<nat>
    requires AllValid(queue)
  {
    if queue == [] then Some(d) else
      var front := queue[..|queue| - 1];
      Moved(queue[|queue| - 1], Count(count, front), FateOf(d, count, front))
  }

  /** Right after its commit, sentence `y` of a session is this far from the end. */
  function OwnFromEnd(q: Queued, y: nat): nat
    requires q.Valid() && y <= q.Growth()
  {
    FromEnd(q) + q.Growth() - y
  }

  /** Where sentence `y` of commit `j` is after the queue. */
  function OwnFateOf(j: nat, y: nat, count: nat, queue: seq<Queued>): Option<nat>
    requires AllValid(queue) && j < |queue| && y <= queue[j].Growth()
  {
    var front, q := queue[..|queue| - 1], queue[|queue| - 1];
    if j < |front| then
      assert front[j] == queue[j];
      Moved(q, Count(count, front), OwnFateOf(j, y, count, front))
    else if Lands(q, Count(count, front)) then Some(OwnFromEnd(q, y))
    else None
  }

  /** A sentence of the file, counted from the end, or sentence `y` of commit `j`. */
  datatype Origin = Base(d: nat) | Own(j: nat, y: nat)

  /** Where the sentence at a place comes from after one more commit, if the one at that place came from `low`, and
      the one that the commit moved there from `high`. */
  function OriginAfter(q: Queued, count: nat, j: nat, e: nat, low: Origin, high: Origin): Origin
    requires q.Valid()
  {
    if !Lands(q, count) || e < FromEnd(q) then low
    else if e <= FromEnd(q) + q.Growth() then Own(j, FromEnd(q) + q.Growth() - e)
    else high
  }

  /** Where the sentence at a place of the final file comes from. */
  function OriginOf(e: nat, count: nat, queue: seq<Queued>): Origin
    requires AllValid(queue)
  {
    if queue == [] then Base(e) else
      var front, q := queue[..|queue| - 1], queue[|queue| - 1];
      OriginAfter(q, Count(count, front), |front|, e, OriginOf(e, count, front),
                  if e < q.Growth() then Base(e) else OriginOf(e - q.Growth(), count, front))
  }

  /** The sentence at a distance from the end. */
  function At(doc: Doc, d: nat): Sentence
    requires 1 <= d <= |doc|
  {
    doc[|doc| - d]
  }

  /** The origin is a sentence of the file, or one that a commit brought along. */
  predicate Sound(o: Origin, count: nat, queue: seq<Queued>)
    requires AllValid(queue)
  {
    match o
    case Base(d) => 1 <= d <= count
    case Own(j, y) => j < |queue| && queue[j].index < queue[j].original && y <= queue[j].Growth()
  }

  function SentenceOf(o: Origin, doc: Doc, queue: seq<Queued>): Sentence
    requires AllValid(queue) && Sound(o, |doc|, queue)
  {
    match o
    case Base(d) => At(doc, d)
    case Own(j, y) => queue[j].Own()[y]
  }

  // ----- one commit -----

  lemma OneCommit(main: string, q: Queued)
    requires q.Valid() && main != ""
    ensures MergeOne(main, q) != ""
    ensures var v := ViewOf(main);
      if Lands(q, |v|) then ViewOf(MergeOne(main, q)) == MergeView(v, q.Own(), |v| - FromEnd(q))
      else MergeOne(main, q) == main
  {
    ParseIsCut(main);
    SkippedIff(main, q.copy, q.index, q.original);
    if Lands(q, |ViewOf(main)|) {
      CommitLands(main, q, |ViewOf(main)| - FromEnd(q));
      ParseIsCut(MergeOne(main, q));
    }
  }

  /** One replacement, counted from the end. */
  lemma AtReplaced(v: Doc, own: Doc, n: nat, e: nat)
    requires 1 <= n <= |v| && own != []
    ensures var r := MergeView(v, own, |v| - n); var g := |own| - 1;
      && |r| == |v| + g
      && (1 <= e <= |r| ==>
            At(r, e) == if e < n then At(v, e) else if e <= n + g then own[n + g - e] else At(v, e - g))
  {
  }

  lemma LastApart(queue: seq<Queued>, front: seq<Queued>, q: Queued)
    requires queue != [] && front == queue[..|queue| - 1] && q == queue[|queue| - 1]
    ensures queue == front + [q]
  {
  }

  /** A queue is a shorter one and one more commit. */
  lemma LastCommit(main: string, queue: seq<Queued>, front: seq<Queued>, q: Queued)
    requires queue != [] && front == queue[..|queue| - 1] && q == queue[|queue| - 1]
    ensures MergeAll(main, queue) == MergeOne(MergeAll(main, front), q)
  {
    LastApart(queue, front, q);
    MergeAllAppend(main, front, [q]);
    MergeAllOne(MergeAll(main, front), q);
  }

  // ----- any commits -----

  /** The sentence `x` comes from `o`. */
  predicate Explains(o: Origin, v: Doc, queue: seq<Queued>, x: Sentence)
    requires AllValid(queue)
  {
    Sound(o, |v|, queue) && x == SentenceOf(o, v, queue)
  }

  lemma StillExplains(o: Origin, v: Doc, front: seq<Queued>, queue: seq<Queued>, q: Queued, x: Sentence)
    requires AllValid(queue) && AllValid(front) && queue == front + [q] && Explains(o, v, front, x)
    ensures Explains(o, v, queue, x)
  {
    assert o.Own? ==> queue[o.j] == front[o.j];
  }

  lemma OwnExplains(v: Doc, front: seq<Queued>, queue: seq<Queued>, q: Queued, y: nat)
    requires AllValid(queue) && queue == front + [q] && q.index < q.original && y <= q.Growth()
    ensures Explains(Own(|front|, y), v, queue, q.Own()[y])
  {
    assert queue[|front|] == q;
  }

  lemma OneMoreExplained(v: Doc, count: nat, front: seq<Queued>, queue: seq<Queued>, q: Queued, e: nat, low: Origin,
                         high: Origin, x: Sentence)
    requires AllValid(queue) && AllValid(front) && queue == front + [q] && q.Valid()
    requires !Lands(q, count) || e < FromEnd(q) ==> Explains(low, v, front, x)
    requires Lands(q, count) && FromEnd(q) <= e <= FromEnd(q) + q.Growth() ==> x == q.Own()[FromEnd(q) + q.Growth() - e]
    requires Lands(q, count) && e > FromEnd(q) + q.Growth() ==> Explains(high, v, front, x)
    ensures Explains(OriginAfter(q, count, |front|, e, low, high), v, queue, x)
  {
    if !Lands(q, count) || e < FromEnd(q) {
      StillExplains(low, v, front, queue, q, x);
    } else if e <= FromEnd(q) + q.Growth() {
      OwnExplains(v, front, queue, q, FromEnd(q) + q.Growth() - e);
    } else {
      StillExplains(high, v, front, queue, q, x);
    }
  }

  /** The document after a queue of commits. */
  function Edited(v: Doc, queue: seq<Queued>): (r: Doc)
    requires AllValid(queue)
    ensures |r| == Count(|v|, queue)
  {
    if queue == [] then v else
      var before, q := Edited(v, queue[..|queue| - 1]), queue[|queue| - 1];
      if Lands(q, |before|) then MergeView(before, q.Own(), |before| - FromEnd(q)) else before
  }

  lemma {:induction false} EditedIs(main: string, queue: seq<Queued>)
    requires AllValid(queue) && main != ""
    ensures MergeAll(main, queue) != "" && ViewOf(MergeAll(main, queue)) == Edited(ViewOf(main), queue)
  {
    if queue != [] {
      var front, q := queue[..|queue| - 1], queue[|queue| - 1];
      EditedIs(main, front);
      LastCommit(main, queue, front, q);
      OneCommit(MergeAll(main, front), q);
    }
  }

  lemma EditedUnfolds(v: Doc, queue: seq<Queued>, before: Doc, q: Queued) returns (doc: Doc)
    requires AllValid(queue) && queue != [] && q == queue[|queue| - 1] && before == Edited(v, queue[..|queue| - 1])
    ensures doc == Edited(v, queue)
    ensures doc == if Lands(q, |before|) then MergeView(before, q.Own(), |before| - FromEnd(q)) else before
  {
    doc := Edited(v, queue);
  }

  lemma AtMerged(before: Doc, q: Queued, doc: Doc, e: nat)
    requires q.Valid() && 1 <= e <= |doc|
    requires doc == if Lands(q, |before|) then MergeView(before, q.Own(), |before| - FromEnd(q)) else before
    ensures var n, g := FromEnd(q), q.Growth();
      if !Lands(q, |before|) || e < n then e <= |before| && At(doc, e) == At(before, e)
      else if e <= n + g then At(doc, e) == q.Own()[n + g - e]
      else e - g <= |before| && At(doc, e) == At(before, e - g)
  {
    if Lands(q, |before|) {
      AtReplaced(before, q.Own(), FromEnd(q), e);
    }
  }

  /** The sentences after one more commit. */
  lemma AtEdited(v: Doc, queue: seq<Queued>, before: Doc, q: Queued, e: nat)
    requires AllValid(queue) && queue != [] && q == queue[|queue| - 1] && before == Edited(v, queue[..|queue| - 1])
    requires 1 <= e <= |Edited(v, queue)|
    ensures var doc, n, g := Edited(v, queue), FromEnd(q), q.Growth();
      if !Lands(q, |before|) || e < n then e <= |before| && At(doc, e) == At(before, e)
      else if e <= n + g then At(doc, e) == q.Own()[n + g - e]
      else e - g <= |before| && At(doc, e) == At(before, e - g)
  {
    var doc := EditedUnfolds(v, queue, before, q);
    AtMerged(before, q, doc, e);
  }

  lemma OriginUnfolds(e: nat, count: nat, queue: seq<Queued>, front: seq<Queued>, q: Queued, low: Origin, high: Origin)
    requires AllValid(queue) && queue != [] && front == queue[..|queue| - 1] && q == queue[|queue| - 1]
    requires low == OriginOf(e, count, front)
    requires high == if e < q.Growth() then Base(e) else OriginOf(e - q.Growth(), count, front)
    ensures OriginOf(e, count, queue) == OriginAfter(q, Count(count, front), |front|, e, low, high)
  {
  }

  lemma {:induction false} AllExplained(v: Doc, queue: seq<Queued>, e: nat) returns (o: Origin)
    requires AllValid(queue)
    ensures o == OriginOf(e, |v|, queue)
    ensures 1 <= e <= |Edited(v, queue)| ==> Explains(o, v, queue, At(Edited(v, queue), e))
    decreases |queue|
  {
    if queue == [] {
      o := Base(e);
    } else {
      var front, q := queue[..|queue| - 1], queue[|queue| - 1];
      var before := Edited(v, front);
      LastApart(queue, front, q);
      var low := AllExplained(v, front, e);
      var high := Base(e);
      if e >= q.Growth() {
        high := AllExplained(v, front, e - q.Growth());
      }
      OriginUnfolds(e, |v|, queue, front, q, low, high);
      o := OriginAfter(q, |before|, |front|, e, low, high);
      if 1 <= e <= |Edited(v, queue)| {
        AtEdited(v, queue, before, q, e);
        OneMoreExplained(v, |before|, front, queue, q, e, low, high, At(Edited(v, queue), e));
      }
    }
  }

  /** Every sentence of the final file is one that was in the file, or one that a commit brought along: which one
      follows from the indices and counts of the sessions alone. */
  lemma OriginIs(main: string, queue: seq<Queued>, e: nat)
    requires AllValid(queue) && main != "" && 1 <= e <= Count(|ViewOf(main)|, queue)
    ensures var final := ViewOf(MergeAll(main, queue)); var o := OriginOf(e, |ViewOf(main)|, queue);
      && |final| == Count(|ViewOf(main)|, queue)
      && Sound(o, |ViewOf(main)|, queue)
      && At(final, e) == SentenceOf(o, ViewOf(main), queue)
  {
    EditedIs(main, queue);
    var o := AllExplained(ViewOf(main), queue, e);
  }

  /** One more commit moves sentences and origins alike. */
  lemma MovedIff(q: Queued, count: nat, j: nat, e: nat, place: Option<nat>, low: Origin, high: Origin, o: Origin)
    requires q.Valid() && (o.Own? ==> o.j != j)
    requires place == Some(e) <==> low == o
    requires e >= q.Growth() ==> (place == Some(e - q.Growth()) <==> high == o)
    ensures Moved(q, count, place) == Some(e) <==> OriginAfter(q, count, j, e, low, high) == o
  {
  }

  /** A sentence of the file survives all commits if and only if it is the origin of a place in the final file, and
      that is where its fate says. */
  lemma {:induction false} FateIffOrigin(d: nat, e: nat, count: nat, queue: seq<Queued>)
    requires AllValid(queue)
    ensures FateOf(d, count, queue) == Some(e) <==> OriginOf(e, count, queue) == Base(d)
  {
    if queue != [] {
      var front, q := queue[..|queue| - 1], queue[|queue| - 1];
      var low := OriginOf(e, count, front);
      var high := if e < q.Growth() then Base(e) else OriginOf(e - q.Growth(), count, front);
      FateIffOrigin(d, e, count, front);
      if e >= q.Growth() {
        FateIffOrigin(d, e - q.Growth(), count, front);
      }
      MovedIff(q, Count(count, front), |front|, e, FateOf(d, count, front), low, high, Base(d));
    }
  }

  lemma OwnFateUnfolds(j: nat, y: nat, count: nat, queue: seq<Queued>, front: seq<Queued>, q: Queued,
                       place: Option<nat>)
    requires AllValid(queue) && j + 1 < |queue| && front == queue[..|queue| - 1] && q == queue[|queue| - 1]
    requires y <= queue[j].Growth() && place == OwnFateOf(j, y, count, front)
    ensures OwnFateOf(j, y, count, queue) == Moved(q, Count(count, front), place)
  {
  }

  lemma OwnFateStep(j: nat, y: nat, e: nat, count: nat, queue: seq<Queued>, front: seq<Queued>, q: Queued,
                    place: Option<nat>, low: Origin, high: Origin)
    requires AllValid(queue) && j + 1 < |queue| && front == queue[..|queue| - 1] && q == queue[|queue| - 1]
    requires y <= queue[j].Growth() && place == OwnFateOf(j, y, count, front) && low == OriginOf(e, count, front)
    requires high == if e < q.Growth() then Base(e) else OriginOf(e - q.Growth(), count, front)
    requires place == Some(e) <==> low == Own(j, y)
    requires e >= q.Growth() ==> (place == Some(e - q.Growth()) <==> high == Own(j, y))
    ensures OwnFateOf(j, y, count, queue) == Some(e) <==> OriginOf(e, count, queue) == Own(j, y)
  {
    OriginUnfolds(e, count, queue, front, q, low, high);
    OwnFateUnfolds(j, y, count, queue, front, q, place);
    MovedIff(q, Count(count, front), |front|, e, place, low, high, Own(j, y));
  }

  /** The last commit itself: its sentences come from no earlier one. */
  lemma OwnFateOfLast(j: nat, y: nat, e: nat, count: nat, queue: seq<Queued>, front: seq<Queued>, q: Queued)
    requires AllValid(queue) && j + 1 == |queue| && front == queue[..|queue| - 1] && q == queue[|queue| - 1]
    requires y <= q.Growth()
    ensures OwnFateOf(j, y, count, queue) == Some(e) <==> OriginOf(e, count, queue) == Own(j, y)
  {
    NotOwn(e, count, front, j);
    if e >= q.Growth() {
      NotOwn(e - q.Growth(), count, front, j);
    }
  }

  /** The same for a sentence that a commit brought along. */
  lemma {:induction false} OwnFateIffOrigin(j: nat, y: nat, e: nat, count: nat, queue: seq<Queued>)
      returns (place: Option<nat>, o: Origin)
    requires AllValid(queue) && j < |queue| && y <= queue[j].Growth()
    ensures place == OwnFateOf(j, y, count, queue) && o == OriginOf(e, count, queue)
    ensures place == Some(e) <==> o == Own(j, y)
    decreases |queue|
  {
    var front, q := queue[..|queue| - 1], queue[|queue| - 1];
    if j < |front| {
      assert front[j] == queue[j];
      var before, low := OwnFateIffOrigin(j, y, e, count, front);
      var high := Base(e);
      if e >= q.Growth() {
        before, high := OwnFateIffOrigin(j, y, e - q.Growth(), count, front);
      }
      OwnFateStep(j, y, e, count, queue, front, q, before, low, high);
    } else {
      OwnFateOfLast(j, y, e, count, queue, front, q);
    }
    place, o := OwnFateOf(j, y, count, queue), OriginOf(e, count, queue);
  }

  /** No sentence comes from a commit that is not in the queue. */
  lemma {:induction false} NotOwn(e: nat, count: nat, queue: seq<Queued>, j: nat)
    requires AllValid(queue) && j >= |queue|
    ensures !OriginOf(e, count, queue).Own? || OriginOf(e, count, queue).j != j
  {
    if queue != [] {
      var front, q := queue[..|queue| - 1], queue[|queue| - 1];
      NotOwn(e, count, front, j);
      if e >= q.Growth() {
        NotOwn(e - q.Growth(), count, front, j);
      }
    }
  }

  lemma MovedInRange(q: Queued, count: nat, place: Option<nat>)
    requires q.Valid() && (place.Some? ==> 1 <= place.value <= count)
    ensures var next := if Lands(q, count) then count + q.Growth() else count;
      Moved(q, count, place).Some? ==> 1 <= Moved(q, count, place).value <= next
  {
  }

  lemma {:induction false} FateInRange(d: nat, count: nat, queue: seq<Queued>)
    requires AllValid(queue) && 1 <= d <= count
    ensures FateOf(d, count, queue).Some? ==> 1 <= FateOf(d, count, queue).value <= Count(count, queue)
  {
    if queue != [] {
      var front := queue[..|queue| - 1];
      FateInRange(d, count, front);
      MovedInRange(queue[|queue| - 1], Count(count, front), FateOf(d, count, front));
    }
  }

  lemma {:induction false} OwnFateInRange(j: nat, y: nat, count: nat, queue: seq<Queued>)
    requires AllValid(queue) && j < |queue| && y <= queue[j].Growth()
    ensures var fate := OwnFateOf(j, y, count, queue);
      fate.Some? ==> 1 <= fate.value <= Count(count, queue) && queue[j].index < queue[j].original
    decreases |queue|
  {
    var front, q := queue[..|queue| - 1], queue[|queue| - 1];
    if j < |front| {
      OwnFateInRange(j, y, count, front);
      MovedInRange(q, Count(count, front), OwnFateOf(j, y, count, front));
    }
  }

  /** A sentence of the file that no commit overwrites is in the final file, at the place that its fate says. */
  lemma SentenceSurvives(main: string, queue: seq<Queued>, d: nat)
    requires AllValid(queue) && main != "" && 1 <= d <= |ViewOf(main)|
    ensures var final := ViewOf(MergeAll(main, queue)); var fate := FateOf(d, |ViewOf(main)|, queue);
      fate.Some? ==> 1 <= fate.value <= |final| && At(final, fate.value) == At(ViewOf(main), d)
  {
    var fate := FateOf(d, |ViewOf(main)|, queue);
    if fate.Some? {
      FateInRange(d, |ViewOf(main)|, queue);
      FateIffOrigin(d, fate.value, |ViewOf(main)|, queue);
      OriginIs(main, queue, fate.value);
    }
  }

  /** A sentence that a session committed and no later commit overwrites is in the final file, at the place that its
      fate says. */
  lemma EditSurvives(main: string, queue: seq<Queued>, j: nat, y: nat)
    requires AllValid(queue) && main != "" && j < |queue| && y <= queue[j].Growth()
    ensures var final := ViewOf(MergeAll(main, queue)); var fate := OwnFateOf(j, y, |ViewOf(main)|, queue);
      fate.Some? ==>
        && queue[j].index < queue[j].original
        && 1 <= fate.value <= |final| && At(final, fate.value) == queue[j].Own()[y]
  {
    var fate := OwnFateOf(j, y, |ViewOf(main)|, queue);
    if fate.Some? {
      OwnFateInRange(j, y, |ViewOf(main)|, queue);
      var place, o := OwnFateIffOrigin(j, y, fate.value, |ViewOf(main)|, queue);
      OriginIs(main, queue, fate.value);
    }
  }
}
