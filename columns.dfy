/** Column names of the engine's data frames. A pandas column name here is an
    attribute, an optional copy digit and a role suffix: `Column(AnswerEntity, 2,
    Tail)` is `answer_entity2_tail`, `Column(Question, 0, Mid0)` is
    `question_mid0`. The three steps of the engine that look at column names
    (rename_mid_node, the suffix discovery of the loop filter and the id-column
    selection of restore_questions_info) are modelled on these names. */
module Columns {
  import opened Tables

  datatype Attr = Question | QuestionEntity | AnswerEntity | Passage

  /** The role suffixes: `_head`, `_head1`, `_head2`, `_mid`, `_mid0`, `_mid1`, `_mid2`, `_tail`. */
  datatype Role = Head | Head1 | Head2 | Mid | Mid0 | Mid1 | Mid2 | Tail

  /** `copy == 0` means the name has no copy digit. */
  datatype Column = Column(attr: Attr, copy: nat, role: Role)

  /** The four columns a fact contributes under role `r`. */
  function Group(r: Role): seq<Column> {
    [Column(Question, 0, r), Column(QuestionEntity, 0, r), Column(AnswerEntity, 0, r), Column(Passage, 0, r)]
  }

  /** The three columns the k-th copy of a glued role contributes (the fact id is shared). */
  function Copy(k: nat, r: Role): seq<Column> {
    [Column(QuestionEntity, k, r), Column(AnswerEntity, k, r), Column(Passage, k, r)]
  }

  // Column layouts of the six frames, in the order pandas' merge produces them:
  // the left frame's columns, then the right frame's columns other than a key of
  // the same name. Overlapping entity and passage columns of the right frame get
  // the copy digit `hops - 1`.

  function TwoHopLayout(): seq<Column> {
    Group(Head) + Group(Tail)
  }

  function AdjacentHeadLayout(): seq<Column> {
    Group(Head1) + Group(Tail) + Group(Head2) + Copy(2, Tail)
  }

  function ThreeHopLayout(): seq<Column> {
    Group(Head) + Group(Mid) + Copy(2, Mid) + Group(Tail)
  }

  function ThreeHopAdjacentHeadLayout(): seq<Column> {
    Group(Head1) + Group(Mid) + Group(Head2) + Copy(2, Mid) + Copy(3, Mid) + Group(Tail)
  }

  function ThreeHopAdjacentHead2Layout(): seq<Column> {
    Group(Head) + Group(Mid) + Group(Mid1) + Group(Tail) + Group(Mid2) + Copy(2, Tail)
  }

  function FourHopLayout(): seq<Column> {
    Group(Head) + Group(Mid0) + Copy(2, Mid0) + Group(Mid) + Copy(3, Mid) + Group(Tail)
  }

  /** The columns rename_mid_node renames: `question_mid`, `question_entity_mid`,
      `answer_entity_mid`, `passage_mid`, `question_entity2_mid`,
      `answer_entity2_mid` and `passage2_mid`. */
  predicate RenamedByMidNode(c: Column) {
    c.role == Mid && (c.copy == 0 || (c.copy == 2 && c.attr != Question))
  }

  /** rename_mid_node: the seven listed `*_mid` columns move to role `to`; every
      other column keeps its name and position. */
  function RenameMidNode(cols: seq<Column>, to: Role): (r: seq<Column>)
    ensures |r| == |cols|
    ensures forall i :: 0 <= i < |cols| && !RenamedByMidNode(cols[i]) ==> r[i] == cols[i]
    ensures forall i :: 0 <= i < |cols| && RenamedByMidNode(cols[i]) ==>
      r[i].role == to && r[i].attr == cols[i].attr && r[i].copy == cols[i].copy
  {
    seq(|cols|, i requires 0 <= i < |cols| =>
      if RenamedByMidNode(cols[i]) then Column(cols[i].attr, cols[i].copy, to) else cols[i])
  }

  /** Renaming the middle of a 3hop frame to `_mid0` gives the leading columns of the 4hop frame. */
  lemma RenameThreeHopMid()
    ensures RenameMidNode(ThreeHopLayout(), Mid0) == Group(Head) + Group(Mid0) + Copy(2, Mid0) + Group(Tail)
  {
    var r := RenameMidNode(ThreeHopLayout(), Mid0);
    var expected := Group(Head) + Group(Mid0) + Copy(2, Mid0) + Group(Tail);
    assert |r| == |expected| == 15;
    forall i | 0 <= i < 15
      ensures r[i] == expected[i]
    {
    }
  }

  /** The copy digits of the `question_entity*` columns of role `role`: the suffixes
      the loop filter iterates over (`col.split("question_entity")[-1]`). */
  function HeadEntityCopies(cols: seq<Column>, role: Role): set<nat> {
    set c | c in cols && c.attr == QuestionEntity && c.role == role :: c.copy
  }

  lemma HeadEntityCopiesAppend(a: seq<Column>, b: seq<Column>, role: Role)
    ensures HeadEntityCopies(a + b, role) == HeadEntityCopies(a, role) + HeadEntityCopies(b, role)
  {
  }

  lemma HeadEntityCopiesOfGroup(r: Role, role: Role)
    ensures HeadEntityCopies(Group(r), role) == if r == role then {0} else {}
  {
    if r == role {
      assert Column(QuestionEntity, 0, r) in Group(r);
    }
  }

  lemma HeadEntityCopiesOfCopy(k: nat, r: Role, role: Role)
    ensures HeadEntityCopies(Copy(k, r), role) == if r == role then {k} else {}
  {
    if r == role {
      assert Column(QuestionEntity, k, r) in Copy(k, r);
    }
  }

  /** In the 4hop frame, the loop filter visits `_mid0` and `2_mid0` and nothing else. */
  lemma FourHopMid0Copies()
    ensures HeadEntityCopies(FourHopLayout(), Mid0) == {0, 2}
  {
    var a := Group(Head) + Group(Mid0);
    HeadEntityCopiesAppend(Group(Head), Group(Mid0), Mid0);
    HeadEntityCopiesOfGroup(Head, Mid0);
    HeadEntityCopiesOfGroup(Mid0, Mid0);
    assert HeadEntityCopies(a, Mid0) == {0};
    var b := a + Copy(2, Mid0);
    HeadEntityCopiesAppend(a, Copy(2, Mid0), Mid0);
    HeadEntityCopiesOfCopy(2, Mid0, Mid0);
    assert HeadEntityCopies(b, Mid0) == {0, 2};
    var c := b + Group(Mid);
    HeadEntityCopiesAppend(b, Group(Mid), Mid0);
    HeadEntityCopiesOfGroup(Mid, Mid0);
    var d := c + Copy(3, Mid);
    HeadEntityCopiesAppend(c, Copy(3, Mid), Mid0);
    HeadEntityCopiesOfCopy(3, Mid, Mid0);
    HeadEntityCopiesAppend(d, Group(Tail), Mid0);
    HeadEntityCopiesOfGroup(Tail, Mid0);
  }

  /** The question-id columns: restore_questions_info keeps the names that start
      with "question" and do not contain "entity", i.e. the `question*` columns. */
  function QuestionIdColumns(cols: seq<Column>): seq<Column> {
    if cols == [] then []
    else (if cols[0].attr == Question then [cols[0]] else []) + QuestionIdColumns(cols[1..])
  }

  /** Exactly the `question*` columns are kept, in their order. */
  lemma {:induction false} QuestionIdColumnsMember(cols: seq<Column>, c: Column)
    ensures c in QuestionIdColumns(cols) <==> c in cols && c.attr == Question
  {
    if cols != [] {
      QuestionIdColumnsMember(cols[1..], c);
      assert c in cols <==> c == cols[0] || c in cols[1..];
    }
  }

  lemma IdColumnsOfGroup(r: Role)
    ensures QuestionIdColumns(Group(r)) == [Column(Question, 0, r)]
  {
    var g := Group(r);
    assert g[1..][1..][1..][1..] == [];
  }

  lemma IdColumnsOfCopy(k: nat, r: Role)
    ensures QuestionIdColumns(Copy(k, r)) == []
  {
    var g := Copy(k, r);
    assert g[1..][1..][1..] == [];
    assert QuestionIdColumns(g[1..][1..]) == [];
  }

  /** Selecting id columns commutes with concatenating column groups. */
  lemma {:induction false} IdColumnsAppend(a: seq<Column>, b: seq<Column>)
    ensures QuestionIdColumns(a + b) == QuestionIdColumns(a) + QuestionIdColumns(b)
  {
    if a == [] {
      assert a + b == b;
    } else {
      var here := if a[0].attr == Question then [a[0]] else [];
      assert (a + b)[0] == a[0] && (a + b)[1..] == a[1..] + b;
      assert QuestionIdColumns(a + b) == here + QuestionIdColumns(a[1..] + b);
      IdColumnsAppend(a[1..], b);
      assert here + (QuestionIdColumns(a[1..]) + QuestionIdColumns(b))
        == (here + QuestionIdColumns(a[1..])) + QuestionIdColumns(b);
    }
  }

  function IdColumn(r: Role): Column {
    Column(Question, 0, r)
  }

  /** The `2hop` frame's id columns are `question_head`, `question_tail`. */
  lemma TwoHopIdColumns()
    ensures QuestionIdColumns(TwoHopLayout()) == [IdColumn(Head), IdColumn(Tail)]
  {
    IdColumnsOfGroup(Head);
    var p0 := Group(Head);
    assert QuestionIdColumns(p0) == [IdColumn(Head)];
    IdColumnsOfGroup(Tail);
    IdColumnsAppend(p0, Group(Tail));
    var p1 := p0 + Group(Tail);
    assert QuestionIdColumns(p1) == [IdColumn(Head), IdColumn(Tail)];
  }

  /** `question_head1`, `question_tail`, `question_head2`. */
  lemma AdjacentHeadIdColumns()
    ensures QuestionIdColumns(AdjacentHeadLayout()) == [IdColumn(Head1), IdColumn(Tail), IdColumn(Head2)]
  {
    IdColumnsOfGroup(Head1);
    var p0 := Group(Head1);
    assert QuestionIdColumns(p0) == [IdColumn(Head1)];
    IdColumnsOfGroup(Tail);
    IdColumnsAppend(p0, Group(Tail));
    var p1 := p0 + Group(Tail);
    assert QuestionIdColumns(p1) == [IdColumn(Head1), IdColumn(Tail)];
    IdColumnsOfGroup(Head2);
    IdColumnsAppend(p1, Group(Head2));
    var p2 := p1 + Group(Head2);
    assert QuestionIdColumns(p2) == [IdColumn(Head1), IdColumn(Tail), IdColumn(Head2)];
    IdColumnsOfCopy(2, Tail);
    IdColumnsAppend(p2, Copy(2, Tail));
    var p3 := p2 + Copy(2, Tail);
    assert QuestionIdColumns(p3) == [IdColumn(Head1), IdColumn(Tail), IdColumn(Head2)];
  }

  /** `question_head`, `question_mid`, `question_tail`. */
  lemma ThreeHopIdColumns()
    ensures QuestionIdColumns(ThreeHopLayout()) == [IdColumn(Head), IdColumn(Mid), IdColumn(Tail)]
  {
    IdColumnsOfGroup(Head);
    var p0 := Group(Head);
    assert QuestionIdColumns(p0) == [IdColumn(Head)];
    IdColumnsOfGroup(Mid);
    IdColumnsAppend(p0, Group(Mid));
    var p1 := p0 + Group(Mid);
    assert QuestionIdColumns(p1) == [IdColumn(Head), IdColumn(Mid)];
    IdColumnsOfCopy(2, Mid);
    IdColumnsAppend(p1, Copy(2, Mid));
    var p2 := p1 + Copy(2, Mid);
    assert QuestionIdColumns(p2) == [IdColumn(Head), IdColumn(Mid)];
    IdColumnsOfGroup(Tail);
    IdColumnsAppend(p2, Group(Tail));
    var p3 := p2 + Group(Tail);
    assert QuestionIdColumns(p3) == [IdColumn(Head), IdColumn(Mid), IdColumn(Tail)];
  }

  /** `question_head1`, `question_mid`, `question_head2`, `question_tail`. */
  lemma ThreeHopAdjacentHeadIdColumns()
    ensures QuestionIdColumns(ThreeHopAdjacentHeadLayout()) == [IdColumn(Head1), IdColumn(Mid), IdColumn(Head2), IdColumn(Tail)]
  {
    IdColumnsOfGroup(Head1);
    var p0 := Group(Head1);
    assert QuestionIdColumns(p0) == [IdColumn(Head1)];
    IdColumnsOfGroup(Mid);
    IdColumnsAppend(p0, Group(Mid));
    var p1 := p0 + Group(Mid);
    assert QuestionIdColumns(p1) == [IdColumn(Head1), IdColumn(Mid)];
    IdColumnsOfGroup(Head2);
    IdColumnsAppend(p1, Group(Head2));
    var p2 := p1 + Group(Head2);
    assert QuestionIdColumns(p2) == [IdColumn(Head1), IdColumn(Mid), IdColumn(Head2)];
    IdColumnsOfCopy(2, Mid);
    IdColumnsAppend(p2, Copy(2, Mid));
    var p3 := p2 + Copy(2, Mid);
    assert QuestionIdColumns(p3) == [IdColumn(Head1), IdColumn(Mid), IdColumn(Head2)];
    IdColumnsOfCopy(3, Mid);
    IdColumnsAppend(p3, Copy(3, Mid));
    var p4 := p3 + Copy(3, Mid);
    assert QuestionIdColumns(p4) == [IdColumn(Head1), IdColumn(Mid), IdColumn(Head2)];
    IdColumnsOfGroup(Tail);
    IdColumnsAppend(p4, Group(Tail));
    var p5 := p4 + Group(Tail);
    assert QuestionIdColumns(p5) == [IdColumn(Head1), IdColumn(Mid), IdColumn(Head2), IdColumn(Tail)];
  }

  /** `question_head`, `question_mid`, `question_mid1`, `question_tail`, `question_mid2`. */
  lemma ThreeHopAdjacentHead2IdColumns()
    ensures QuestionIdColumns(ThreeHopAdjacentHead2Layout()) == [IdColumn(Head), IdColumn(Mid), IdColumn(Mid1), IdColumn(Tail), IdColumn(Mid2)]
  {
    IdColumnsOfGroup(Head);
    var p0 := Group(Head);
    assert QuestionIdColumns(p0) == [IdColumn(Head)];
    IdColumnsOfGroup(Mid);
    IdColumnsAppend(p0, Group(Mid));
    var p1 := p0 + Group(Mid);
    assert QuestionIdColumns(p1) == [IdColumn(Head), IdColumn(Mid)];
    IdColumnsOfGroup(Mid1);
    IdColumnsAppend(p1, Group(Mid1));
    var p2 := p1 + Group(Mid1);
    assert QuestionIdColumns(p2) == [IdColumn(Head), IdColumn(Mid), IdColumn(Mid1)];
    IdColumnsOfGroup(Tail);
    IdColumnsAppend(p2, Group(Tail));
    var p3 := p2 + Group(Tail);
    assert QuestionIdColumns(p3) == [IdColumn(Head), IdColumn(Mid), IdColumn(Mid1), IdColumn(Tail)];
    IdColumnsOfGroup(Mid2);
    IdColumnsAppend(p3, Group(Mid2));
    var p4 := p3 + Group(Mid2);
    assert QuestionIdColumns(p4) == [IdColumn(Head), IdColumn(Mid), IdColumn(Mid1), IdColumn(Tail), IdColumn(Mid2)];
    IdColumnsOfCopy(2, Tail);
    IdColumnsAppend(p4, Copy(2, Tail));
    var p5 := p4 + Copy(2, Tail);
    assert QuestionIdColumns(p5) == [IdColumn(Head), IdColumn(Mid), IdColumn(Mid1), IdColumn(Tail), IdColumn(Mid2)];
  }

  /** `question_head`, `question_mid0`, `question_mid`, `question_tail`. */
  lemma FourHopIdColumns()
    ensures QuestionIdColumns(FourHopLayout()) == [IdColumn(Head), IdColumn(Mid0), IdColumn(Mid), IdColumn(Tail)]
  {
    IdColumnsOfGroup(Head);
    var p0 := Group(Head);
    assert QuestionIdColumns(p0) == [IdColumn(Head)];
    IdColumnsOfGroup(Mid0);
    IdColumnsAppend(p0, Group(Mid0));
    var p1 := p0 + Group(Mid0);
    assert QuestionIdColumns(p1) == [IdColumn(Head), IdColumn(Mid0)];
    IdColumnsOfCopy(2, Mid0);
    IdColumnsAppend(p1, Copy(2, Mid0));
    var p2 := p1 + Copy(2, Mid0);
    assert QuestionIdColumns(p2) == [IdColumn(Head), IdColumn(Mid0)];
    IdColumnsOfGroup(Mid);
    IdColumnsAppend(p2, Group(Mid));
    var p3 := p2 + Group(Mid);
    assert QuestionIdColumns(p3) == [IdColumn(Head), IdColumn(Mid0), IdColumn(Mid)];
    IdColumnsOfCopy(3, Mid);
    IdColumnsAppend(p3, Copy(3, Mid));
    var p4 := p3 + Copy(3, Mid);
    assert QuestionIdColumns(p4) == [IdColumn(Head), IdColumn(Mid0), IdColumn(Mid)];
    IdColumnsOfGroup(Tail);
    IdColumnsAppend(p4, Group(Tail));
    var p5 := p4 + Group(Tail);
    assert QuestionIdColumns(p5) == [IdColumn(Head), IdColumn(Mid0), IdColumn(Mid), IdColumn(Tail)];
  }
}
