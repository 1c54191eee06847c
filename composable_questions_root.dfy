/** The older composition engine at the root of the repository
    (composable_questions.py). It differs from src/composable_questions.py in
    two steps: find_composable_questions merges without first dropping the
    rows whose answer entity is null, and restore_questions_info keeps
    duplicate id tuples. Every other step is the one modelled in
    ComposableQuestions. */
module ComposableQuestionsRoot {
  import opened Tables
  import opened Shapes
  import opened Columns
  import opened ComposableQuestions

  /** find_composable_questions: the head rows merged with the tail rows whose
      question entity equals the head's answer entity. pandas matches a null
      key with a null key, so rows without a linked entity join as well. */
  function FindComposableQuestions(heads: seq<Fact>, tails: seq<Fact>, switch: bool): (r: seq<TwoHop>)
    ensures forall row :: row in r <==>
      row.head in (if switch then tails else heads)
      && row.tail in (if switch then heads else tails)
      && row.head.answerEntity == row.tail.questionEntity
  {
    var (hs, ts) := if switch then (tails, heads) else (heads, tails);
    var r := Join(hs, ts, (h: Fact, t: Fact) => h.answerEntity == t.questionEntity, (h: Fact, t: Fact) => TwoHop(h, t));
    assert forall row :: row in r ==> row == TwoHop(row.head, row.tail);
    r
  }

  /** The root `2hop_questions` frame. */
  function TwoHopsRoot(facts: seq<Fact>): (r: seq<TwoHop>)
    ensures forall row :: row in r <==>
      row.head in facts && row.tail in facts
      && row.head.answerEntity == row.tail.questionEntity && CycleFree(row.head, row.tail)
  {
    FilterCycle(FindComposableQuestions(facts, facts, false), (t: TwoHop) => t.head, (t: TwoHop) => t.tail)
  }

  /** On rows with a linked answer entity the two engines agree; the root one
      additionally holds the rows that join through a null entity. */
  lemma TwoHopsRootAgrees(facts: seq<Fact>, row: TwoHop)
    ensures row in TwoHops(facts) <==> row in TwoHopsRoot(facts) && row.head.answerEntity.Val?
  {
  }

  /** Two rows without a linked entity between them: the head has no answer
      entity and the tail no question entity. */
  lemma NullJoinTwoHop(facts: seq<Fact>)
    requires |facts| == 2
    requires facts[0] == Fact(0, Val("x"), Null, Val("p0")) && facts[1] == Fact(1, Null, Val("y"), Val("p1"))
    ensures TwoHop(facts[0], facts[1]) in TwoHopsRoot(facts)
    ensures TwoHop(facts[0], facts[1]) !in TwoHops(facts)
  {
    assert facts[0] in facts && facts[1] in facts;
    assert "p0" != "p1";
  }

  /** The root 2hop frame links questions through a null entity: for this fact
      table it holds a row whose head has no answer entity. */
  lemma TwoHopsRootJoinsNulls()
    ensures var facts := [Fact(0, Val("x"), Null, Val("p0")), Fact(1, Null, Val("y"), Val("p1"))];
      TwoHop(facts[0], facts[1]) in TwoHopsRoot(facts)
      && facts[0].answerEntity.Null? && facts[1].questionEntity.Null?
  {
    NullJoinTwoHop([Fact(0, Val("x"), Null, Val("p0")), Fact(1, Null, Val("y"), Val("p1"))]);
  }

  /** What the root restore_questions_info returns: one record per row of the
      frame, duplicates included. */
  function RestoreRoot<T, D>(layout: seq<Column>, rows: seq<T>, ids: T -> seq<nat>, data: seq<D>): seq<map<Column, D>>
    requires Restorable(layout, rows, ids, |data|)
  {
    Restored(QuestionIdColumns(layout), Project(rows, ids), data)
  }

  /** The root restore_questions_info: the column loop on every row's ids. */
  method RestoreQuestionsInfoRoot<T, D>(layout: seq<Column>, rows: seq<T>, ids: T -> seq<nat>, data: seq<D>)
    returns (records: seq<map<Column, D>>)
    requires Restorable(layout, rows, ids, |data|)
    ensures records == RestoreRoot(layout, rows, ids, data)
  {
    var idCols := QuestionIdColumns(layout);
    records := FillColumns(idCols, Project(rows, ids), data);
  }

  /** The root restore emits one record per row; when no id tuple repeats, it
      emits exactly what the src restore does. */
  lemma RestoreRootAgrees<T, D>(layout: seq<Column>, rows: seq<T>, ids: T -> seq<nat>, data: seq<D>)
    requires Restorable(layout, rows, ids, |data|)
    ensures QuestionIdColumns(layout) != [] ==> |RestoreRoot(layout, rows, ids, data)| == |rows|
    ensures Distinct(Project(rows, ids)) ==> RestoreRoot(layout, rows, ids, data) == Restore(layout, rows, ids, data)
  {
    if Distinct(Project(rows, ids)) {
      DedupOfDistinct(Project(rows, ids));
    }
  }

  /** The frames the root composable_questions derives: the steps after the
      first are those of the src engine, 3hop_questions_with_adjacent_head2
      included as written. */
  function ComposeRoot(facts: seq<Fact>): Frames {
    var twoHop := TwoHopsRoot(facts);
    var adjacent := AdjacentHeads(twoHop);
    var threeHop := ThreeHops(twoHop);
    Frames(twoHop, adjacent, threeHop,
      ThreeHopAdjacentHeads(adjacent, twoHop),
      ThreeHopAdjacentHead2s(adjacent, twoHop),
      FourHops(threeHop, twoHop))
  }

  lemma ComposeRootFits(facts: seq<Fact>, size: nat)
    requires forall x :: x in facts ==> x.question < size
    ensures FramesFit(ComposeRoot(facts), size)
  {
    var twoHop := TwoHopsRoot(facts);
    var adjacent := AdjacentHeads(twoHop);
    var threeHop := ThreeHops(twoHop);
    AdjacentHeadsFit(twoHop, size);
    ThreeHopsFit(twoHop, size);
    ThreeHopAdjacentHeadsFit(adjacent, twoHop, size);
    ThreeHopAdjacentHead2sFit(adjacent, twoHop, size);
    FourHopsFit(threeHop, twoHop, size);
  }

  /** The six sets under the names the root composable_questions gives them. */
  function KeyedRoot<X>(twoHop: X, adjacentHead: X, threeHop: X, threeHopAdjacentHead: X,
                        threeHopAdjacentHead2: X, fourHop: X): map<string, X> {
    map[
      "2hop_questions" := twoHop,
      "2hop_questions_with_adjacent_head" := adjacentHead,
      "3hop_questions" := threeHop,
      "3hop_questions_with_adjacent_head" := threeHopAdjacentHead,
      "3hop_questions_with_adjacent_head2" := threeHopAdjacentHead2,
      "4hop_questions" := fourHop
    ]
  }

  /** The dictionary the root composable_questions returns. */
  function OutputRoot<D>(f: Frames, data: seq<D>): map<string, seq<map<Column, D>>>
    requires FramesFit(f, |data|)
  {
    FramesRestorable(f, |data|);
    KeyedRoot(
      RestoreRoot(TwoHopLayout(), f.twoHop, TwoHopIds, data),
      RestoreRoot(AdjacentHeadLayout(), f.adjacentHead, AdjacentHeadIds, data),
      RestoreRoot(ThreeHopLayout(), f.threeHop, ThreeHopIds, data),
      RestoreRoot(ThreeHopAdjacentHeadLayout(), f.threeHopAdjacentHead, ThreeHopAdjacentHeadIds, data),
      RestoreRoot(ThreeHopAdjacentHead2Layout(), f.threeHopAdjacentHead2, ThreeHopAdjacentHead2Ids, data),
      RestoreRoot(FourHopLayout(), f.fourHop, FourHopIds, data))
  }

  lemma OutputRootIs<D>(f: Frames, data: seq<D>)
    requires FramesFit(f, |data|)
    ensures Restorable(TwoHopLayout(), f.twoHop, TwoHopIds, |data|)
    ensures Restorable(AdjacentHeadLayout(), f.adjacentHead, AdjacentHeadIds, |data|)
    ensures Restorable(ThreeHopLayout(), f.threeHop, ThreeHopIds, |data|)
    ensures Restorable(ThreeHopAdjacentHeadLayout(), f.threeHopAdjacentHead, ThreeHopAdjacentHeadIds, |data|)
    ensures Restorable(ThreeHopAdjacentHead2Layout(), f.threeHopAdjacentHead2, ThreeHopAdjacentHead2Ids, |data|)
    ensures Restorable(FourHopLayout(), f.fourHop, FourHopIds, |data|)
    ensures OutputRoot(f, data) == KeyedRoot(
      RestoreRoot(TwoHopLayout(), f.twoHop, TwoHopIds, data),
      RestoreRoot(AdjacentHeadLayout(), f.adjacentHead, AdjacentHeadIds, data),
      RestoreRoot(ThreeHopLayout(), f.threeHop, ThreeHopIds, data),
      RestoreRoot(ThreeHopAdjacentHeadLayout(), f.threeHopAdjacentHead, ThreeHopAdjacentHeadIds, data),
      RestoreRoot(ThreeHopAdjacentHead2Layout(), f.threeHopAdjacentHead2, ThreeHopAdjacentHead2Ids, data),
      RestoreRoot(FourHopLayout(), f.fourHop, FourHopIds, data))
  {
    FramesRestorable(f, |data|);
  }

  /** The root frame-building stages. The first merge names `answer_entity` as
      its left key, which a data frame built from no records does not have. */
  method ComposeFramesRoot(records: seq<Fact>) returns (r: Run<Frames>)
    ensures records == [] ==> r == KeyError("answer_entity")
    ensures records != [] ==> r == Done(ComposeRoot(records))
  {
    if records == [] {
      return KeyError("answer_entity");
    }
    var twoHop := TwoHopsRoot(records);
    var adjacent := AdjacentHeads(twoHop);
    var threeHop := ThreeHops(twoHop);
    var threeHopAdjacent := ThreeHopAdjacentHeads(adjacent, twoHop);
    var threeHopAdjacent2 := ThreeHopAdjacentHead2s(adjacent, twoHop);
    var fourHop := FilterCycleLoopV(FourHopCandidates(threeHop, twoHop), FourHopLayout(), Mid0, Mid0Id, TailOf, Mid0CopyOf);
    r := Done(Frames(twoHop, adjacent, threeHop, threeHopAdjacent, threeHopAdjacent2, fourHop));
  }

  /** The root composable_questions, without its debugging dumps. An empty
      fact table raises KeyError. */
  method ComposableQuestionsRoot<D>(records: seq<Fact>, qaData: seq<D>) returns (r: Run<map<string, seq<map<Column, D>>>>)
    requires forall x :: x in records ==> x.question < |qaData|
    ensures FramesFit(ComposeRoot(records), |qaData|)
    ensures records == [] ==> r == KeyError("answer_entity")
    ensures records != [] ==> r == Done(OutputRoot(ComposeRoot(records), qaData))
  {
    ComposeRootFits(records, |qaData|);
    var run := ComposeFramesRoot(records);
    if run.KeyError? {
      return KeyError(run.column);
    }
    var f := run.value;
    FramesRestorable(f, |qaData|);
    var r2 := RestoreQuestionsInfoRoot(TwoHopLayout(), f.twoHop, TwoHopIds, qaData);
    var r2a := RestoreQuestionsInfoRoot(AdjacentHeadLayout(), f.adjacentHead, AdjacentHeadIds, qaData);
    var r3 := RestoreQuestionsInfoRoot(ThreeHopLayout(), f.threeHop, ThreeHopIds, qaData);
    var r3a := RestoreQuestionsInfoRoot(ThreeHopAdjacentHeadLayout(), f.threeHopAdjacentHead, ThreeHopAdjacentHeadIds, qaData);
    var r3b := RestoreQuestionsInfoRoot(ThreeHopAdjacentHead2Layout(), f.threeHopAdjacentHead2, ThreeHopAdjacentHead2Ids, qaData);
    var r4 := RestoreQuestionsInfoRoot(FourHopLayout(), f.fourHop, FourHopIds, qaData);
    r := Done(KeyedRoot(r2, r2a, r3, r3a, r3b, r4));
    OutputRootIs(f, qaData);
  }
}
