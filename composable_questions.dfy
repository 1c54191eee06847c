/** The composition engine of src/composable_questions.py: from the fact table it
    builds the six frames of composable question chains (2hop, 2hop with an
    adjacent head, 3hop, 3hop with an adjacent head, its switched variant, and
    4hop) and restores each chain to the corpus entries it is made of. */
module ComposableQuestions {
  import opened Tables
  import opened Shapes
  import opened Columns

  /*** Row conditions ***/

  /** The merge key of the first hop: the head's answer entity is linked (the
      null rows are dropped before the merge) and is the tail's question entity. */
  predicate EntityLinked(head: Fact, tail: Fact) {
    head.answerEntity.Val? && head.answerEntity == tail.questionEntity
  }

  /** The mask of filter_questions_where_head_and_tail_form_cycle for one head and
      one tail: different questions, the tail does not answer with the head's
      question entity, and the two come from different passages. */
  predicate CycleFree(head: Fact, tail: Fact) {
    head.question != tail.question && Clear(head, tail)
  }

  /** The entity and passage part of that mask, which loop_v applies to every
      copy of the head node. */
  predicate Clear(head: Fact, tail: Fact) {
    Ne(tail.answerEntity, head.questionEntity) && Ne(head.passage, tail.passage)
  }

  /** The mask of filter_identical_heads. */
  predicate DistinctHeads(row: AdjacentHead) {
    row.head1.question != row.head2.question
    && Ne(row.head1.questionEntity, row.head2.questionEntity)
    && Ne(row.head1.passage, row.head2.passage)
  }

  /*** The relational steps ***/

  /** find_init_two_hop_questions: the head rows with a linked answer entity,
      merged with the tail rows whose question entity is that answer entity.
      `switch` exchanges the two frames first. */
  function FindInitTwoHopQuestions(heads: seq<Fact>, tails: seq<Fact>, switch: bool): (r: seq<TwoHop>)
    ensures forall row :: row in r <==>
      row.head in (if switch then tails else heads)
      && row.tail in (if switch then heads else tails)
      && EntityLinked(row.head, row.tail)
  {
    var (hs, ts) := if switch then (tails, heads) else (heads, tails);
    var linked := Filter(hs, (h: Fact) => !h.answerEntity.Null?);
    var r := Join(linked, ts, (h: Fact, t: Fact) => h.answerEntity == t.questionEntity, (h: Fact, t: Fact) => TwoHop(h, t));
    assert forall row :: row in r ==> row == TwoHop(row.head, row.tail);
    r
  }

  /** filter_questions_where_head_and_tail_form_cycle, with the two roles it
      compares picked out of a row by `head` and `tail`. */
  function FilterCycle<T(==,!new)>(rows: seq<T>, head: T -> Fact, tail: T -> Fact): (r: seq<T>)
    ensures |r| <= |rows|
    ensures forall row :: row in r <==> row in rows && CycleFree(head(row), tail(row))
  {
    Filter(rows, (row: T) => CycleFree(head(row), tail(row)))
  }

  /** find_adjacent_head: every pair of 2hop rows with the same tail question,
      including a row paired with itself. The source first drops rows with a
      null tail question; fact ids are never null, so that step keeps every row. */
  function FindAdjacentHead(twoHops: seq<TwoHop>): (r: seq<AdjacentHead>)
    ensures forall row :: row in r <==>
      TwoHop(row.head1, row.tail) in twoHops
      && TwoHop(row.head2, row.tail_2) in twoHops
      && row.tail.question == row.tail_2.question
  {
    var r := Join(twoHops, twoHops,
      (a: TwoHop, b: TwoHop) => a.tail.question == b.tail.question,
      (a: TwoHop, b: TwoHop) => AdjacentHead(a.head, b.head, a.tail, b.tail));
    assert forall row | row in r :: TwoHop(row.head1, row.tail) in twoHops && TwoHop(row.head2, row.tail_2) in twoHops by {
      forall row | row in r
        ensures TwoHop(row.head1, row.tail) in twoHops && TwoHop(row.head2, row.tail_2) in twoHops
      {
        var a, b :| a in twoHops && b in twoHops && a.tail.question == b.tail.question
          && row == AdjacentHead(a.head, b.head, a.tail, b.tail);
        assert a == TwoHop(row.head1, row.tail);
        assert b == TwoHop(row.head2, row.tail_2);
      }
    }
    assert forall row: AdjacentHead | TwoHop(row.head1, row.tail) in twoHops && TwoHop(row.head2, row.tail_2) in twoHops
      && row.tail.question == row.tail_2.question :: row in r by {
      forall row: AdjacentHead | TwoHop(row.head1, row.tail) in twoHops && TwoHop(row.head2, row.tail_2) in twoHops
        && row.tail.question == row.tail_2.question
        ensures row in r
      {
        var a, b := TwoHop(row.head1, row.tail), TwoHop(row.head2, row.tail_2);
        assert AdjacentHead(a.head, b.head, a.tail, b.tail) in r;
      }
    }
    r
  }

  /** filter_identical_heads. */
  function FilterIdenticalHeads(rows: seq<AdjacentHead>): (r: seq<AdjacentHead>)
    ensures |r| <= |rows|
    ensures forall row :: row in r <==> row in rows && DistinctHeads(row)
  {
    Filter(rows, DistinctHeads)
  }

  /** find_multi_hop_questions: the inner merge of a left frame and a right frame
      on equal fact ids, the left row's last node against the right row's first.
      `glue` lays the two rows side by side; with `switch` the caller passes the
      frames in the exchanged order. */
  function FindMultiHopQuestions<L(==,!new), R(==,!new), O(==,!new)>(
    lefts: seq<L>, rights: seq<R>, leftId: L -> nat, rightId: R -> nat, glue: (L, R) -> O): (r: seq<O>)
    ensures forall o :: o in r <==>
      exists l, x :: l in lefts && x in rights && leftId(l) == rightId(x) && o == glue(l, x)
  {
    Join(lefts, rights, (l: L, x: R) => leftId(l) == rightId(x), glue)
  }

  /*** The six frames ***/

  /** `2hop`: the fact table merged with itself on answer entity = question
      entity, without the rows that close a cycle. */
  function TwoHops(facts: seq<Fact>): (r: seq<TwoHop>)
    ensures forall row :: row in r <==>
      row.head in facts && row.tail in facts
      && EntityLinked(row.head, row.tail) && CycleFree(row.head, row.tail)
  {
    FilterCycle(FindInitTwoHopQuestions(facts, facts, false), (t: TwoHop) => t.head, (t: TwoHop) => t.tail)
  }

  /** `2hop_with_adjacent_head`: two 2hop rows into the same tail question whose
      heads are different questions, entities and passages. */
  function AdjacentHeads(twoHops: seq<TwoHop>): (r: seq<AdjacentHead>)
    ensures forall row :: row in r <==>
      TwoHop(row.head1, row.tail) in twoHops
      && TwoHop(row.head2, row.tail_2) in twoHops
      && row.tail.question == row.tail_2.question
      && DistinctHeads(row)
  {
    FilterIdenticalHeads(FindAdjacentHead(twoHops))
  }

  /** `3hop`: a 2hop row continued by a 2hop row that starts at its tail
      question, without the rows whose ends close a cycle. */
  function ThreeHops(twoHops: seq<TwoHop>): (r: seq<ThreeHop>)
    ensures forall row :: row in r <==>
      TwoHop(row.head, row.mid) in twoHops
      && TwoHop(row.mid_2, row.tail) in twoHops
      && row.mid.question == row.mid_2.question
      && CycleFree(row.head, row.tail)
  {
    var joined := FindMultiHopQuestions(twoHops, twoHops,
      (l: TwoHop) => l.tail.question, (x: TwoHop) => x.head.question,
      (l: TwoHop, x: TwoHop) => ThreeHop(l.head, l.tail, x.head, x.tail));
    assert forall row | row in joined :: TwoHop(row.head, row.mid) in twoHops && TwoHop(row.mid_2, row.tail) in twoHops by {
      forall row | row in joined
        ensures TwoHop(row.head, row.mid) in twoHops && TwoHop(row.mid_2, row.tail) in twoHops
      {
        var l, x :| l in twoHops && x in twoHops && l.tail.question == x.head.question
          && row == ThreeHop(l.head, l.tail, x.head, x.tail);
        assert l == TwoHop(row.head, row.mid) && x == TwoHop(row.mid_2, row.tail);
      }
    }
    assert forall row: ThreeHop | TwoHop(row.head, row.mid) in twoHops && TwoHop(row.mid_2, row.tail) in twoHops
      && row.mid.question == row.mid_2.question :: row in joined by {
      forall row: ThreeHop | TwoHop(row.head, row.mid) in twoHops && TwoHop(row.mid_2, row.tail) in twoHops
        && row.mid.question == row.mid_2.question
        ensures row in joined
      {
        var l, x := TwoHop(row.head, row.mid), TwoHop(row.mid_2, row.tail);
        assert ThreeHop(l.head, l.tail, x.head, x.tail) in joined;
      }
    }
    FilterCycle(joined, (t: ThreeHop) => t.head, (t: ThreeHop) => t.tail)
  }

  /** `3hop_with_adjacent_head`: an adjacent-head row continued by a 2hop row
      from its shared tail, without the rows where either head closes a cycle
      with the new tail. */
  function ThreeHopAdjacentHeads(adjacent: seq<AdjacentHead>, twoHops: seq<TwoHop>): (r: seq<ThreeHopAdjacentHead>)
    ensures forall row :: row in r <==>
      AdjacentHead(row.head1, row.head2, row.mid, row.mid_2) in adjacent
      && TwoHop(row.mid_3, row.tail) in twoHops
      && row.mid.question == row.mid_3.question
      && CycleFree(row.head1, row.tail)
      && CycleFree(row.head2, row.tail)
  {
    var joined := FindMultiHopQuestions(adjacent, twoHops,
      (a: AdjacentHead) => a.tail.question, (x: TwoHop) => x.head.question,
      (a: AdjacentHead, x: TwoHop) => ThreeHopAdjacentHead(a.head1, a.head2, a.tail, a.tail_2, x.head, x.tail));
    assert forall row | row in joined ::
      AdjacentHead(row.head1, row.head2, row.mid, row.mid_2) in adjacent && TwoHop(row.mid_3, row.tail) in twoHops by {
      forall row | row in joined
        ensures AdjacentHead(row.head1, row.head2, row.mid, row.mid_2) in adjacent && TwoHop(row.mid_3, row.tail) in twoHops
      {
        var a, x :| a in adjacent && x in twoHops && a.tail.question == x.head.question
          && row == ThreeHopAdjacentHead(a.head1, a.head2, a.tail, a.tail_2, x.head, x.tail);
        assert a == AdjacentHead(row.head1, row.head2, row.mid, row.mid_2) && x == TwoHop(row.mid_3, row.tail);
      }
    }
    assert forall row: ThreeHopAdjacentHead | AdjacentHead(row.head1, row.head2, row.mid, row.mid_2) in adjacent
      && TwoHop(row.mid_3, row.tail) in twoHops && row.mid.question == row.mid_3.question :: row in joined by {
      forall row: ThreeHopAdjacentHead | AdjacentHead(row.head1, row.head2, row.mid, row.mid_2) in adjacent
        && TwoHop(row.mid_3, row.tail) in twoHops && row.mid.question == row.mid_3.question
        ensures row in joined
      {
        var a, x := AdjacentHead(row.head1, row.head2, row.mid, row.mid_2), TwoHop(row.mid_3, row.tail);
        assert ThreeHopAdjacentHead(a.head1, a.head2, a.tail, a.tail_2, x.head, x.tail) in joined;
      }
    }
    var first := FilterCycle(joined, (t: ThreeHopAdjacentHead) => t.head1, (t: ThreeHopAdjacentHead) => t.tail);
    FilterCycle(first, (t: ThreeHopAdjacentHead) => t.head2, (t: ThreeHopAdjacentHead) => t.tail)
  }

  /** `3hop_with_adjacent_head2`: find_multi_hop_questions with `switch`, so a
      2hop row comes first and continues into the first head of an
      adjacent-head row; the head must not close a cycle with the shared tail. */
  function ThreeHopAdjacentHead2s(adjacent: seq<AdjacentHead>, twoHops: seq<TwoHop>): (r: seq<ThreeHopAdjacentHead2>)
    ensures forall row :: row in r <==>
      TwoHop(row.head, row.mid) in twoHops
      && AdjacentHead(row.mid1, row.mid2, row.tail, row.tail_2) in adjacent
      && row.mid.question == row.mid1.question
      && CycleFree(row.head, row.tail)
  {
    var joined := FindMultiHopQuestions(twoHops, adjacent,
      (l: TwoHop) => l.tail.question, (a: AdjacentHead) => a.head1.question,
      (l: TwoHop, a: AdjacentHead) => ThreeHopAdjacentHead2(l.head, l.tail, a.head1, a.head2, a.tail, a.tail_2));
    assert forall row | row in joined ::
      TwoHop(row.head, row.mid) in twoHops && AdjacentHead(row.mid1, row.mid2, row.tail, row.tail_2) in adjacent by {
      forall row | row in joined
        ensures TwoHop(row.head, row.mid) in twoHops && AdjacentHead(row.mid1, row.mid2, row.tail, row.tail_2) in adjacent
      {
        var l, a :| l in twoHops && a in adjacent && l.tail.question == a.head1.question
          && row == ThreeHopAdjacentHead2(l.head, l.tail, a.head1, a.head2, a.tail, a.tail_2);
        assert l == TwoHop(row.head, row.mid) && a == AdjacentHead(row.mid1, row.mid2, row.tail, row.tail_2);
      }
    }
    assert forall row: ThreeHopAdjacentHead2 | TwoHop(row.head, row.mid) in twoHops
      && AdjacentHead(row.mid1, row.mid2, row.tail, row.tail_2) in adjacent && row.mid.question == row.mid1.question
      :: row in joined by {
      forall row: ThreeHopAdjacentHead2 | TwoHop(row.head, row.mid) in twoHops
        && AdjacentHead(row.mid1, row.mid2, row.tail, row.tail_2) in adjacent && row.mid.question == row.mid1.question
        ensures row in joined
      {
        var l, a := TwoHop(row.head, row.mid), AdjacentHead(row.mid1, row.mid2, row.tail, row.tail_2);
        assert ThreeHopAdjacentHead2(l.head, l.tail, a.head1, a.head2, a.tail, a.tail_2) in joined;
      }
    }
    FilterCycle(joined, (t: ThreeHopAdjacentHead2) => t.head, (t: ThreeHopAdjacentHead2) => t.tail)
  }

  /** The 4hop rows before loop_v: a 3hop row, its middle renamed to `mid0`,
      continued by a 2hop row from its tail, without the rows whose ends close a
      cycle. */
  function FourHopCandidates(threeHops: seq<ThreeHop>, twoHops: seq<TwoHop>): (r: seq<FourHop>)
    ensures forall row :: row in r <==>
      ThreeHop(row.head, row.mid0, row.mid0_2, row.mid) in threeHops
      && TwoHop(row.mid_3, row.tail) in twoHops
      && row.mid.question == row.mid_3.question
      && CycleFree(row.head, row.tail)
  {
    var joined := FindMultiHopQuestions(threeHops, twoHops,
      (t: ThreeHop) => t.tail.question, (x: TwoHop) => x.head.question,
      (t: ThreeHop, x: TwoHop) => FourHop(t.head, t.mid, t.mid_2, t.tail, x.head, x.tail));
    assert forall row | row in joined ::
      ThreeHop(row.head, row.mid0, row.mid0_2, row.mid) in threeHops && TwoHop(row.mid_3, row.tail) in twoHops by {
      forall row | row in joined
        ensures ThreeHop(row.head, row.mid0, row.mid0_2, row.mid) in threeHops && TwoHop(row.mid_3, row.tail) in twoHops
      {
        var t, x :| t in threeHops && x in twoHops && t.tail.question == x.head.question
          && row == FourHop(t.head, t.mid, t.mid_2, t.tail, x.head, x.tail);
        assert t == ThreeHop(row.head, row.mid0, row.mid0_2, row.mid) && x == TwoHop(row.mid_3, row.tail);
      }
    }
    assert forall row: FourHop | ThreeHop(row.head, row.mid0, row.mid0_2, row.mid) in threeHops
      && TwoHop(row.mid_3, row.tail) in twoHops && row.mid.question == row.mid_3.question :: row in joined by {
      forall row: FourHop | ThreeHop(row.head, row.mid0, row.mid0_2, row.mid) in threeHops
        && TwoHop(row.mid_3, row.tail) in twoHops && row.mid.question == row.mid_3.question
        ensures row in joined
      {
        var t, x := ThreeHop(row.head, row.mid0, row.mid0_2, row.mid), TwoHop(row.mid_3, row.tail);
        assert FourHop(t.head, t.mid, t.mid_2, t.tail, x.head, x.tail) in joined;
      }
    }
    FilterCycle(joined, (t: FourHop) => t.head, (t: FourHop) => t.tail)
  }

  /*** filter_questions_where_head_and_tail_form_cycle_loop_v ***/

  /** The rows loop_v keeps: the head node is a different question from the tail,
      and every copy of the head node listed in `copies` is clear of the tail. */
  function CycleLoopV<T(==,!new)>(rows: seq<T>, headId: T -> nat, tail: T -> Fact,
                                  copyOf: (T, nat) -> Fact, copies: set<nat>): (r: seq<T>)
    ensures |r| <= |rows|
    ensures forall row :: row in r <==>
      row in rows && headId(row) != tail(row).question && ClearOfCopies(row, tail, copyOf, copies)
  {
    var first := Filter(rows, (row: T) => headId(row) != tail(row).question);
    Filter(first, (row: T) => ClearOfCopies(row, tail, copyOf, copies))
  }

  /** Every listed copy of the head node is clear of the tail. */
  predicate ClearOfCopies<T>(row: T, tail: T -> Fact, copyOf: (T, nat) -> Fact, copies: set<nat>) {
    forall k :: k in copies ==> Clear(copyOf(row, k), tail(row))
  }

  /** loop_v itself: it drops the rows whose head question is the tail question,
      finds the copy numbers of the head node's entity columns in `cols`, and
      for each of them in turn narrows the frame to the rows where that copy is
      clear of the tail. */
  method FilterCycleLoopV<T(==,!new)>(rows: seq<T>, cols: seq<Column>, headRole: Role, headId: T -> nat,
                                      tail: T -> Fact, copyOf: (T, nat) -> Fact) returns (filtered: seq<T>)
    ensures filtered == CycleLoopV(rows, headId, tail, copyOf, HeadEntityCopies(cols, headRole))
  {
    filtered := Filter(rows, (row: T) => headId(row) != tail(row).question);
    ghost var first := filtered;
    FilterKeepsAll(first, (row: T) => ClearOfCopies(row, tail, copyOf, {}));
    var todo := HeadEntityCopies(cols, headRole);
    ghost var done: set<nat> := {};
    while todo != {}
      invariant todo + done == HeadEntityCopies(cols, headRole) && todo !! done
      invariant filtered == Filter(first, (row: T) => ClearOfCopies(row, tail, copyOf, done))
      decreases |todo|
    {
      var k :| k in todo;
      FilterThen(first,
        (row: T) => ClearOfCopies(row, tail, copyOf, done),
        (row: T) => Clear(copyOf(row, k), tail(row)),
        (row: T) => ClearOfCopies(row, tail, copyOf, done + {k}));
      filtered := Filter(filtered, (row: T) => Clear(copyOf(row, k), tail(row)));
      todo := todo - {k};
      done := done + {k};
    }
    FilterAgree(first,
      (row: T) => ClearOfCopies(row, tail, copyOf, done),
      (row: T) => ClearOfCopies(row, tail, copyOf, HeadEntityCopies(cols, headRole)));
  }

  /** The head node of a 4hop row for loop_v: `mid0`, with its two copies. */
  function Mid0Id(row: FourHop): nat {
    row.mid0.question
  }

  function TailOf(row: FourHop): Fact {
    row.tail
  }

  function Mid0CopyOf(row: FourHop, copy: nat): Fact {
    row.Mid0Copy(copy)
  }

  /** On a 4hop row, loop_v's condition over the copy numbers found in the 4hop
      layout is the condition on both copies of `mid0`. */
  lemma ClearOfMid0Copies(row: FourHop)
    ensures ClearOfCopies(row, TailOf, Mid0CopyOf, HeadEntityCopies(FourHopLayout(), Mid0))
      == (Clear(row.mid0, row.tail) && Clear(row.mid0_2, row.tail))
  {
    FourHopMid0Copies();
    assert Mid0CopyOf(row, 0) == row.mid0 && Mid0CopyOf(row, 2) == row.mid0_2;
  }

  /** `4hop`: the candidates narrowed by loop_v on the `mid0` node, whose entity
      columns in the 4hop layout carry the copy numbers 0 and 2. */
  function FourHops(threeHops: seq<ThreeHop>, twoHops: seq<TwoHop>): (r: seq<FourHop>)
    ensures forall row :: row in r <==>
      ThreeHop(row.head, row.mid0, row.mid0_2, row.mid) in threeHops
      && TwoHop(row.mid_3, row.tail) in twoHops
      && row.mid.question == row.mid_3.question
      && CycleFree(row.head, row.tail)
      && row.mid0.question != row.tail.question
      && Clear(row.mid0, row.tail)
      && Clear(row.mid0_2, row.tail)
  {
    var r := CycleLoopV(FourHopCandidates(threeHops, twoHops), Mid0Id, TailOf, Mid0CopyOf, HeadEntityCopies(FourHopLayout(), Mid0));
    assert forall row: FourHop ::
      ClearOfCopies(row, TailOf, Mid0CopyOf, HeadEntityCopies(FourHopLayout(), Mid0))
        == (Clear(row.mid0, row.tail) && Clear(row.mid0_2, row.tail)) by {
      forall row: FourHop {
        ClearOfMid0Copies(row);
      }
    }
    r
  }

  /*** restore_questions_info ***/

  /** Every id tuple has one id per id column, and every id indexes the corpus. */
  predicate TuplesFit(width: nat, tuples: seq<seq<nat>>, size: nat) {
    forall t :: t in tuples ==> |t| == width && IdsFit(t, size)
  }

  /** Every id indexes a corpus of `size` entries. */
  predicate IdsFit(ids: seq<nat>, size: nat) {
    forall k :: 0 <= k < |ids| ==> ids[k] < size
  }

  /** One output record: each id column mapped to the corpus entry its id selects. */
  function Record<D>(cols: seq<Column>, ids: seq<nat>, data: seq<D>): map<Column, D>
    requires |ids| == |cols| && IdsFit(ids, |data|)
    decreases |cols|
  {
    if cols == [] then map[]
    else
      var n := |cols| - 1;
      Record(cols[..n], ids[..n], data)[cols[n] := data[ids[n]]]
  }

  /** A record has exactly the id columns as keys, and with distinct columns
      each of them holds the corpus entry of its own id. */
  lemma {:induction false} RecordAt<D>(cols: seq<Column>, ids: seq<nat>, data: seq<D>)
    requires |ids| == |cols| && IdsFit(ids, |data|)
    ensures Record(cols, ids, data).Keys == Elements(cols)
    ensures Distinct(cols) ==> forall k :: 0 <= k < |cols| ==> Record(cols, ids, data)[cols[k]] == data[ids[k]]
    decreases |cols|
  {
    if cols != [] {
      var n := |cols| - 1;
      RecordAt(cols[..n], ids[..n], data);
      assert Elements(cols) == Elements(cols[..n]) + {cols[n]} by {
        assert cols == cols[..n] + [cols[n]];
      }
      if Distinct(cols) {
        assert Distinct(cols[..n]);
        assert forall k :: 0 <= k < n ==> cols[k] != cols[n] && cols[k] == cols[..n][k];
      }
    }
  }

  /** Filling one more column extends the record by that column. */
  lemma RecordStep<D>(cols: seq<Column>, ids: seq<nat>, data: seq<D>, k: nat)
    requires |ids| == |cols| && IdsFit(ids, |data|) && k < |cols|
    ensures Record(cols[..k + 1], ids[..k + 1], data) == Record(cols[..k], ids[..k], data)[cols[k] := data[ids[k]]]
  {
    assert cols[..k + 1][..k] == cols[..k];
    assert ids[..k + 1][..k] == ids[..k];
  }

  /** The frame's records once every id column is filled in. A frame without
      id columns has no rows at all. */
  function Restored<D>(cols: seq<Column>, tuples: seq<seq<nat>>, data: seq<D>): seq<map<Column, D>>
    requires TuplesFit(|cols|, tuples, |data|)
  {
    if cols == [] then []
    else seq(|tuples|, i requires 0 <= i < |tuples| => Record(cols, tuples[i], data))
  }

  /** The column loop of restore_questions_info: each pass maps one id column of
      every row to its corpus entry. The first assignment gives the empty frame
      its rows. */
  method FillColumns<D>(cols: seq<Column>, tuples: seq<seq<nat>>, data: seq<D>) returns (records: seq<map<Column, D>>)
    requires TuplesFit(|cols|, tuples, |data|)
    ensures records == Restored(cols, tuples, data)
  {
    records := [];
    for k := 0 to |cols|
      invariant k == 0 ==> records == []
      invariant k > 0 ==> |records| == |tuples|
      invariant k > 0 ==> forall i :: 0 <= i < |tuples| ==>
        records[i] == Record(cols[..k], tuples[i][..k], data)
    {
      var base := if k == 0 then seq(|tuples|, i => map[]) else records;
      assert forall i :: 0 <= i < |tuples| ==> tuples[i] in tuples;
      records := seq(|tuples|, i requires 0 <= i < |tuples| => base[i][cols[k] := data[tuples[i][k]]]);
      forall i | 0 <= i < |tuples|
        ensures records[i] == Record(cols[..k + 1], tuples[i][..k + 1], data)
      {
        RecordStep(cols, tuples[i], data, k);
      }
    }
    if |cols| > 0 {
      assert cols[..|cols|] == cols;
      assert forall i :: 0 <= i < |tuples| ==> tuples[i][..|cols|] == tuples[i];
    }
  }

  /** Every row has one id per id column of the layout, each indexing the corpus. */
  predicate Restorable<T>(layout: seq<Column>, rows: seq<T>, ids: T -> seq<nat>, size: nat) {
    forall i :: 0 <= i < |rows| ==> |ids(rows[i])| == |QuestionIdColumns(layout)| && IdsFit(ids(rows[i]), size)
  }

  /** `df[question_ids_cols]`: the id tuple of every row. */
  function Project<T, U>(rows: seq<T>, ids: T -> U): seq<U> {
    seq(|rows|, i requires 0 <= i < |rows| => ids(rows[i]))
  }

  /** What restore_questions_info returns: one record per distinct id tuple of
      the frame, in order of first occurrence. */
  function Restore<T, D>(layout: seq<Column>, rows: seq<T>, ids: T -> seq<nat>, data: seq<D>): seq<map<Column, D>>
    requires Restorable(layout, rows, ids, |data|)
  {
    var tuples := Dedup(Project(rows, ids));
    assert forall t :: t in tuples ==> exists i :: 0 <= i < |rows| && t == ids(rows[i]);
    Restored(QuestionIdColumns(layout), tuples, data)
  }

  /** restore_questions_info: select the id columns (those that start with
      `question` and are not entity columns), drop duplicate id tuples, and map
      every id to its corpus entry. */
  method RestoreQuestionsInfo<T, D>(layout: seq<Column>, rows: seq<T>, ids: T -> seq<nat>, data: seq<D>)
    returns (records: seq<map<Column, D>>)
    requires Restorable(layout, rows, ids, |data|)
    ensures records == Restore(layout, rows, ids, data)
  {
    var idCols := QuestionIdColumns(layout);
    var tuples := Dedup(Project(rows, ids));
    assert forall t :: t in tuples ==> exists i :: 0 <= i < |rows| && t == ids(rows[i]);
    records := FillColumns(idCols, tuples, data);
  }

  /** The i-th restored record holds the corpus entries of the i-th id tuple. */
  lemma RestoredAt<D>(cols: seq<Column>, tuples: seq<seq<nat>>, data: seq<D>, i: nat)
    requires TuplesFit(|cols|, tuples, |data|) && cols != [] && Distinct(cols) && i < |tuples|
    ensures |Restored(cols, tuples, data)| == |tuples|
    ensures Represents(cols, Restored(cols, tuples, data)[i], tuples[i], data)
  {
    assert tuples[i] in tuples;
    RecordAt(cols, tuples[i], data);
  }

  /** restore_questions_info emits one record per distinct id tuple of the frame. */
  lemma RestoreCount<T, D>(layout: seq<Column>, rows: seq<T>, ids: T -> seq<nat>, data: seq<D>)
    requires Restorable(layout, rows, ids, |data|)
    requires QuestionIdColumns(layout) != []
    ensures |Restore(layout, rows, ids, data)| == |Elements(Project(rows, ids))|
  {
    DedupCard(Project(rows, ids));
  }

  /** Every row of the frame is represented by a restored record. */
  lemma RestoreCovers<T, D>(layout: seq<Column>, rows: seq<T>, ids: T -> seq<nat>, data: seq<D>, j: nat)
    requires Restorable(layout, rows, ids, |data|)
    requires QuestionIdColumns(layout) != [] && Distinct(QuestionIdColumns(layout))
    requires j < |rows|
    ensures exists rec :: rec in Restore(layout, rows, ids, data) && Represents(QuestionIdColumns(layout), rec, ids(rows[j]), data)
  {
    var projected := Project(rows, ids);
    var tuples := Dedup(projected);
    assert forall t :: t in tuples ==> exists i :: 0 <= i < |rows| && t == ids(rows[i]);
    assert projected[j] == ids(rows[j]) && projected[j] in projected;
    var i :| 0 <= i < |tuples| && tuples[i] == ids(rows[j]);
    RestoredAt(QuestionIdColumns(layout), tuples, data, i);
    assert Restore(layout, rows, ids, data)[i] in Restore(layout, rows, ids, data);
  }

  /** Every restored record represents a row of the frame. */
  lemma RestoreSound<T, D>(layout: seq<Column>, rows: seq<T>, ids: T -> seq<nat>, data: seq<D>, i: nat)
    requires Restorable(layout, rows, ids, |data|)
    requires QuestionIdColumns(layout) != [] && Distinct(QuestionIdColumns(layout))
    requires i < |Restore(layout, rows, ids, data)|
    ensures exists j :: 0 <= j < |rows| && Represents(QuestionIdColumns(layout), Restore(layout, rows, ids, data)[i], ids(rows[j]), data)
  {
    var projected := Project(rows, ids);
    var tuples := Dedup(projected);
    assert forall t :: t in tuples ==> exists i :: 0 <= i < |rows| && t == ids(rows[i]);
    RestoredAt(QuestionIdColumns(layout), tuples, data, i);
    assert tuples[i] in tuples;
    var j :| 0 <= j < |rows| && tuples[i] == ids(rows[j]);
  }

  /** The record holds, under each id column, the corpus entry of the matching id. */
  ghost predicate Represents<D>(cols: seq<Column>, rec: map<Column, D>, ids: seq<nat>, data: seq<D>) {
    |ids| == |cols| && rec.Keys == Elements(cols)
    && forall k :: 0 <= k < |cols| ==> ids[k] < |data| && rec[cols[k]] == data[ids[k]]
  }

  /*** composable_questions ***/

  /** The six frames of one run. */
  datatype Frames = Frames(
    twoHop: seq<TwoHop>,
    adjacentHead: seq<AdjacentHead>,
    threeHop: seq<ThreeHop>,
    threeHopAdjacentHead: seq<ThreeHopAdjacentHead>,
    threeHopAdjacentHead2: seq<ThreeHopAdjacentHead2>,
    fourHop: seq<FourHop>)

  /** `3hop_with_adjacent_head2` as evidently intended: the rows whose head is
      the same question as the second adjacent head are dropped as well. */
  function ThreeHopAdjacentHead2sDistinct(adjacent: seq<AdjacentHead>, twoHops: seq<TwoHop>): (r: seq<ThreeHopAdjacentHead2>)
    ensures forall row :: row in r <==> row in ThreeHopAdjacentHead2s(adjacent, twoHops) && row.head.question != row.mid2.question
  {
    Filter(ThreeHopAdjacentHead2s(adjacent, twoHops), (row: ThreeHopAdjacentHead2) => row.head.question != row.mid2.question)
  }

  /** The frames composable_questions derives from a non-empty fact table. */
  function Compose(facts: seq<Fact>): Frames {
    var twoHop := TwoHops(facts);
    var adjacent := AdjacentHeads(twoHop);
    var threeHop := ThreeHops(twoHop);
    Frames(twoHop, adjacent, threeHop,
      ThreeHopAdjacentHeads(adjacent, twoHop),
      ThreeHopAdjacentHead2s(adjacent, twoHop),
      FourHops(threeHop, twoHop))
  }

  /** The frames as evidently intended: those of `Compose`, except that
      `3hop_with_adjacent_head2` also drops the rows that ask their head
      question twice. */
  function ComposeIntended(facts: seq<Fact>): (f: Frames)
    ensures var g := Compose(facts);
      f.twoHop == g.twoHop && f.adjacentHead == g.adjacentHead && f.threeHop == g.threeHop
      && f.threeHopAdjacentHead == g.threeHopAdjacentHead && f.fourHop == g.fourHop
    ensures forall row :: row in ComposeIntended(facts).threeHopAdjacentHead2 <==>
      row in Compose(facts).threeHopAdjacentHead2 && row.head.question != row.mid2.question
  {
    var twoHop := TwoHops(facts);
    var adjacent := AdjacentHeads(twoHop);
    Compose(facts).(threeHopAdjacentHead2 := ThreeHopAdjacentHead2sDistinct(adjacent, twoHop))
  }

  function TwoHopIds(row: TwoHop): seq<nat> { row.Ids() }
  function AdjacentHeadIds(row: AdjacentHead): seq<nat> { row.Ids() }
  function ThreeHopIds(row: ThreeHop): seq<nat> { row.Ids() }
  function ThreeHopAdjacentHeadIds(row: ThreeHopAdjacentHead): seq<nat> { row.Ids() }
  function ThreeHopAdjacentHead2Ids(row: ThreeHopAdjacentHead2): seq<nat> { row.Ids() }
  function FourHopIds(row: FourHop): seq<nat> { row.Ids() }

  /** Every fact id of every row indexes a corpus of `size` entries. */
  predicate FramesFit(f: Frames, size: nat) {
    (forall row :: row in f.twoHop ==> row.head.question < size && row.tail.question < size)
    && (forall row :: row in f.adjacentHead ==>
          row.head1.question < size && row.head2.question < size && row.tail.question < size)
    && (forall row :: row in f.threeHop ==>
          row.head.question < size && row.mid.question < size && row.tail.question < size)
    && (forall row :: row in f.threeHopAdjacentHead ==>
          row.head1.question < size && row.head2.question < size && row.mid.question < size && row.tail.question < size)
    && (forall row :: row in f.threeHopAdjacentHead2 ==>
          row.head.question < size && row.mid.question < size && row.mid1.question < size
          && row.mid2.question < size && row.tail.question < size)
    && (forall row :: row in f.fourHop ==>
          row.head.question < size && row.mid0.question < size && row.mid.question < size && row.tail.question < size)
  }

  /** Frames whose ids fit the corpus can be restored against it. */
  lemma FramesRestorable(f: Frames, size: nat)
    requires FramesFit(f, size)
    ensures Restorable(TwoHopLayout(), f.twoHop, TwoHopIds, size)
    ensures Restorable(AdjacentHeadLayout(), f.adjacentHead, AdjacentHeadIds, size)
    ensures Restorable(ThreeHopLayout(), f.threeHop, ThreeHopIds, size)
    ensures Restorable(ThreeHopAdjacentHeadLayout(), f.threeHopAdjacentHead, ThreeHopAdjacentHeadIds, size)
    ensures Restorable(ThreeHopAdjacentHead2Layout(), f.threeHopAdjacentHead2, ThreeHopAdjacentHead2Ids, size)
    ensures Restorable(FourHopLayout(), f.fourHop, FourHopIds, size)
  {
    TwoHopRestorable(f.twoHop, size);
    AdjacentHeadRestorable(f.adjacentHead, size);
    ThreeHopRestorable(f.threeHop, size);
    ThreeHopAdjacentHeadRestorable(f.threeHopAdjacentHead, size);
    ThreeHopAdjacentHead2Restorable(f.threeHopAdjacentHead2, size);
    FourHopRestorable(f.fourHop, size);
  }

  lemma TwoHopRestorable(rows: seq<TwoHop>, size: nat)
    requires forall row :: row in rows ==>
      row.head.question < size && row.tail.question < size
    ensures Restorable(TwoHopLayout(), rows, TwoHopIds, size)
  {
    TwoHopIdColumns();
    forall i | 0 <= i < |rows|
      ensures |TwoHopIds(rows[i])| == |QuestionIdColumns(TwoHopLayout())| && IdsFit(TwoHopIds(rows[i]), size)
    {
      assert rows[i] in rows;
    }
  }

  lemma AdjacentHeadRestorable(rows: seq<AdjacentHead>, size: nat)
    requires forall row :: row in rows ==>
      row.head1.question < size && row.head2.question < size && row.tail.question < size
    ensures Restorable(AdjacentHeadLayout(), rows, AdjacentHeadIds, size)
  {
    AdjacentHeadIdColumns();
    forall i | 0 <= i < |rows|
      ensures |AdjacentHeadIds(rows[i])| == |QuestionIdColumns(AdjacentHeadLayout())| && IdsFit(AdjacentHeadIds(rows[i]), size)
    {
      assert rows[i] in rows;
    }
  }

  lemma ThreeHopRestorable(rows: seq<ThreeHop>, size: nat)
    requires forall row :: row in rows ==>
      row.head.question < size && row.mid.question < size && row.tail.question < size
    ensures Restorable(ThreeHopLayout(), rows, ThreeHopIds, size)
  {
    ThreeHopIdColumns();
    forall i | 0 <= i < |rows|
      ensures |ThreeHopIds(rows[i])| == |QuestionIdColumns(ThreeHopLayout())| && IdsFit(ThreeHopIds(rows[i]), size)
    {
      assert rows[i] in rows;
    }
  }

  lemma ThreeHopAdjacentHeadRestorable(rows: seq<ThreeHopAdjacentHead>, size: nat)
    requires forall row :: row in rows ==>
      row.head1.question < size && row.head2.question < size && row.mid.question < size && row.tail.question < size
    ensures Restorable(ThreeHopAdjacentHeadLayout(), rows, ThreeHopAdjacentHeadIds, size)
  {
    ThreeHopAdjacentHeadIdColumns();
    forall i | 0 <= i < |rows|
      ensures |ThreeHopAdjacentHeadIds(rows[i])| == |QuestionIdColumns(ThreeHopAdjacentHeadLayout())| && IdsFit(ThreeHopAdjacentHeadIds(rows[i]), size)
    {
      assert rows[i] in rows;
    }
  }

  lemma ThreeHopAdjacentHead2Restorable(rows: seq<ThreeHopAdjacentHead2>, size: nat)
    requires forall row :: row in rows ==>
      row.head.question < size && row.mid.question < size && row.mid1.question < size
      && row.mid2.question < size && row.tail.question < size
    ensures Restorable(ThreeHopAdjacentHead2Layout(), rows, ThreeHopAdjacentHead2Ids, size)
  {
    ThreeHopAdjacentHead2IdColumns();
    forall i | 0 <= i < |rows|
      ensures |ThreeHopAdjacentHead2Ids(rows[i])| == |QuestionIdColumns(ThreeHopAdjacentHead2Layout())| && IdsFit(ThreeHopAdjacentHead2Ids(rows[i]), size)
    {
      assert rows[i] in rows;
    }
  }

  lemma FourHopRestorable(rows: seq<FourHop>, size: nat)
    requires forall row :: row in rows ==>
      row.head.question < size && row.mid0.question < size && row.mid.question < size && row.tail.question < size
    ensures Restorable(FourHopLayout(), rows, FourHopIds, size)
  {
    FourHopIdColumns();
    forall i | 0 <= i < |rows|
      ensures |FourHopIds(rows[i])| == |QuestionIdColumns(FourHopLayout())| && IdsFit(FourHopIds(rows[i]), size)
    {
      assert rows[i] in rows;
    }
  }

  /** The dictionary composable_questions returns. */
  function Output<D>(f: Frames, data: seq<D>): map<string, seq<map<Column, D>>>
    requires FramesFit(f, |data|)
  {
    FramesRestorable(f, |data|);
    Keyed(
      Restore(TwoHopLayout(), f.twoHop, TwoHopIds, data),
      Restore(AdjacentHeadLayout(), f.adjacentHead, AdjacentHeadIds, data),
      Restore(ThreeHopLayout(), f.threeHop, ThreeHopIds, data),
      Restore(ThreeHopAdjacentHeadLayout(), f.threeHopAdjacentHead, ThreeHopAdjacentHeadIds, data),
      Restore(ThreeHopAdjacentHead2Layout(), f.threeHopAdjacentHead2, ThreeHopAdjacentHead2Ids, data),
      Restore(FourHopLayout(), f.fourHop, FourHopIds, data))
  }

  /** The dictionary of a run, set by set. */
  lemma OutputIs<D>(f: Frames, data: seq<D>)
    requires FramesFit(f, |data|)
    ensures Restorable(TwoHopLayout(), f.twoHop, TwoHopIds, |data|)
    ensures Restorable(AdjacentHeadLayout(), f.adjacentHead, AdjacentHeadIds, |data|)
    ensures Restorable(ThreeHopLayout(), f.threeHop, ThreeHopIds, |data|)
    ensures Restorable(ThreeHopAdjacentHeadLayout(), f.threeHopAdjacentHead, ThreeHopAdjacentHeadIds, |data|)
    ensures Restorable(ThreeHopAdjacentHead2Layout(), f.threeHopAdjacentHead2, ThreeHopAdjacentHead2Ids, |data|)
    ensures Restorable(FourHopLayout(), f.fourHop, FourHopIds, |data|)
    ensures Output(f, data) == Keyed(
      Restore(TwoHopLayout(), f.twoHop, TwoHopIds, data),
      Restore(AdjacentHeadLayout(), f.adjacentHead, AdjacentHeadIds, data),
      Restore(ThreeHopLayout(), f.threeHop, ThreeHopIds, data),
      Restore(ThreeHopAdjacentHeadLayout(), f.threeHopAdjacentHead, ThreeHopAdjacentHeadIds, data),
      Restore(ThreeHopAdjacentHead2Layout(), f.threeHopAdjacentHead2, ThreeHopAdjacentHead2Ids, data),
      Restore(FourHopLayout(), f.fourHop, FourHopIds, data))
  {
    FramesRestorable(f, |data|);
  }

  /** The six sets under the names composable_questions gives them. */
  function Keyed<X>(twoHop: X, adjacentHead: X, threeHop: X, threeHopAdjacentHead: X,
                    threeHopAdjacentHead2: X, fourHop: X): map<string, X> {
    map[
      "2hop" := twoHop,
      "2hop_with_adjacent_head" := adjacentHead,
      "3hop" := threeHop,
      "3hop_with_adjacent_head" := threeHopAdjacentHead,
      "3hop_with_adjacent_head2" := threeHopAdjacentHead2,
      "4hop" := fourHop
    ]
  }

  /** Every node of every composed chain is a row of the fact table, so its id
      indexes the corpus whenever the fact table's ids do. */
  lemma ComposeFits(facts: seq<Fact>, size: nat)
    requires forall x :: x in facts ==> x.question < size
    ensures FramesFit(Compose(facts), size)
  {
    var twoHop := TwoHops(facts);
    var adjacent := AdjacentHeads(twoHop);
    var threeHop := ThreeHops(twoHop);
    TwoHopsFit(facts, size);
    AdjacentHeadsFit(twoHop, size);
    ThreeHopsFit(twoHop, size);
    ThreeHopAdjacentHeadsFit(adjacent, twoHop, size);
    ThreeHopAdjacentHead2sFit(adjacent, twoHop, size);
    FourHopsFit(threeHop, twoHop, size);
  }

  lemma TwoHopsFit(facts: seq<Fact>, size: nat)
    requires forall x :: x in facts ==> x.question < size
    ensures forall row :: row in TwoHops(facts) ==> row.head.question < size && row.tail.question < size
  {
  }

  lemma AdjacentHeadsFit(twoHops: seq<TwoHop>, size: nat)
    requires forall row :: row in twoHops ==> row.head.question < size && row.tail.question < size
    ensures forall row :: row in AdjacentHeads(twoHops) ==>
      row.head1.question < size && row.head2.question < size && row.tail.question < size
  {
  }

  lemma ThreeHopsFit(twoHops: seq<TwoHop>, size: nat)
    requires forall row :: row in twoHops ==> row.head.question < size && row.tail.question < size
    ensures forall row :: row in ThreeHops(twoHops) ==>
      row.head.question < size && row.mid.question < size && row.tail.question < size
  {
  }

  lemma ThreeHopAdjacentHeadsFit(adjacent: seq<AdjacentHead>, twoHops: seq<TwoHop>, size: nat)
    requires forall row :: row in adjacent ==>
      row.head1.question < size && row.head2.question < size && row.tail.question < size
    requires forall row :: row in twoHops ==> row.head.question < size && row.tail.question < size
    ensures forall row :: row in ThreeHopAdjacentHeads(adjacent, twoHops) ==>
      row.head1.question < size && row.head2.question < size && row.mid.question < size && row.tail.question < size
  {
  }

  lemma ThreeHopAdjacentHead2sFit(adjacent: seq<AdjacentHead>, twoHops: seq<TwoHop>, size: nat)
    requires forall row :: row in adjacent ==>
      row.head1.question < size && row.head2.question < size && row.tail.question < size
    requires forall row :: row in twoHops ==> row.head.question < size && row.tail.question < size
    ensures forall row :: row in ThreeHopAdjacentHead2s(adjacent, twoHops) ==>
      row.head.question < size && row.mid.question < size && row.mid1.question < size
      && row.mid2.question < size && row.tail.question < size
  {
  }

  lemma FourHopsFit(threeHops: seq<ThreeHop>, twoHops: seq<TwoHop>, size: nat)
    requires forall row :: row in threeHops ==>
      row.head.question < size && row.mid.question < size && row.tail.question < size
    requires forall row :: row in twoHops ==> row.head.question < size && row.tail.question < size
    ensures forall row :: row in FourHops(threeHops, twoHops) ==>
      row.head.question < size && row.mid0.question < size && row.mid.question < size && row.tail.question < size
  {
  }

  /** The outcome of a run: its value, or the KeyError pandas raises when the
      code reads a column the frame does not have. */
  datatype Run<X> = Done(value: X) | KeyError(column: string)

  /** The frame-building part of composable_questions: the joins and masks of
      every stage, with loop_v on the 4hop frame. A data frame built from no
      records has no columns, so the first stage's read of `answer_entity`
      raises. */
  method ComposeFrames(records: seq<Fact>) returns (r: Run<Frames>)
    ensures records == [] ==> r == KeyError("answer_entity")
    ensures records != [] ==> r == Done(Compose(records))
  {
    if records == [] {
      return KeyError("answer_entity");
    }
    var twoHop := TwoHops(records);
    var adjacent := AdjacentHeads(twoHop);
    var threeHop := ThreeHops(twoHop);
    var threeHopAdjacent := ThreeHopAdjacentHeads(adjacent, twoHop);
    var threeHopAdjacent2 := ThreeHopAdjacentHead2s(adjacent, twoHop);
    var fourHop := FilterCycleLoopV(FourHopCandidates(threeHop, twoHop), FourHopLayout(), Mid0, Mid0Id, TailOf, Mid0CopyOf);
    r := Done(Frames(twoHop, adjacent, threeHop, threeHopAdjacent, threeHopAdjacent2, fourHop));
  }

  /** composable_questions: derive the six frames from the fact table, narrow
      the 4hop frame with loop_v, and restore every frame to its corpus entries.
      An empty fact table raises KeyError. Writing the debugging dumps is left
      out. */
  method ComposableQuestions<D>(records: seq<Fact>, qaData: seq<D>) returns (r: Run<map<string, seq<map<Column, D>>>>)
    requires forall x :: x in records ==> x.question < |qaData|
    ensures FramesFit(Compose(records), |qaData|)
    ensures records == [] ==> r == KeyError("answer_entity")
    ensures records != [] ==> r == Done(Output(Compose(records), qaData))
  {
    ComposeFits(records, |qaData|);
    var run := ComposeFrames(records);
    if run.KeyError? {
      return KeyError(run.column);
    }
    var f := run.value;
    FramesRestorable(f, |qaData|);
    var r2 := RestoreQuestionsInfo(TwoHopLayout(), f.twoHop, TwoHopIds, qaData);
    var r2a := RestoreQuestionsInfo(AdjacentHeadLayout(), f.adjacentHead, AdjacentHeadIds, qaData);
    var r3 := RestoreQuestionsInfo(ThreeHopLayout(), f.threeHop, ThreeHopIds, qaData);
    var r3a := RestoreQuestionsInfo(ThreeHopAdjacentHeadLayout(), f.threeHopAdjacentHead, ThreeHopAdjacentHeadIds, qaData);
    var r3b := RestoreQuestionsInfo(ThreeHopAdjacentHead2Layout(), f.threeHopAdjacentHead2, ThreeHopAdjacentHead2Ids, qaData);
    var r4 := RestoreQuestionsInfo(FourHopLayout(), f.fourHop, FourHopIds, qaData);
    r := Done(Keyed(r2, r2a, r3, r3a, r3b, r4));
    OutputIs(f, qaData);
  }

  /** The intended frames fit the corpus whenever the fact table's ids do. */
  lemma ComposeIntendedFits(facts: seq<Fact>, size: nat)
    requires forall x :: x in facts ==> x.question < size
    ensures FramesFit(ComposeIntended(facts), size)
  {
    ComposeFits(facts, size);
  }

  /** No frame has a row without an id tuple to restore. */
  lemma RestoreNothing<T, D>(layout: seq<Column>, ids: T -> seq<nat>, data: seq<D>)
    ensures Restorable(layout, [], ids, |data|) && Restore(layout, [], ids, data) == []
  {
    assert Project([], ids) == [];
  }

  /** composable_questions as evidently intended: no KeyError on an empty fact
      table, which composes six empty sets, and the corrected
      `3hop_with_adjacent_head2` frame. */
  function ComposableQuestionsIntended<D>(records: seq<Fact>, qaData: seq<D>): (sets: map<string, seq<map<Column, D>>>)
    requires forall x :: x in records ==> x.question < |qaData|
    ensures sets.Keys == {"2hop", "2hop_with_adjacent_head", "3hop", "3hop_with_adjacent_head",
                          "3hop_with_adjacent_head2", "4hop"}
    ensures records == [] ==> forall name :: name in sets ==> sets[name] == []
  {
    ComposeIntendedFits(records, |qaData|);
    var f := ComposeIntended(records);
    OutputIs(f, qaData);
    KeyedNames(
      Restore(TwoHopLayout(), f.twoHop, TwoHopIds, qaData),
      Restore(AdjacentHeadLayout(), f.adjacentHead, AdjacentHeadIds, qaData),
      Restore(ThreeHopLayout(), f.threeHop, ThreeHopIds, qaData),
      Restore(ThreeHopAdjacentHeadLayout(), f.threeHopAdjacentHead, ThreeHopAdjacentHeadIds, qaData),
      Restore(ThreeHopAdjacentHead2Layout(), f.threeHopAdjacentHead2, ThreeHopAdjacentHead2Ids, qaData),
      Restore(FourHopLayout(), f.fourHop, FourHopIds, qaData));
    if records == [] then
      NothingToRestore(qaData);
      Output(f, qaData)
    else
      Output(f, qaData)
  }

  lemma KeyedNames<X>(twoHop: X, adjacentHead: X, threeHop: X, threeHopAdjacentHead: X,
                      threeHopAdjacentHead2: X, fourHop: X)
    ensures Keyed(twoHop, adjacentHead, threeHop, threeHopAdjacentHead, threeHopAdjacentHead2, fourHop).Keys
      == {"2hop", "2hop_with_adjacent_head", "3hop", "3hop_with_adjacent_head", "3hop_with_adjacent_head2", "4hop"}
  {
  }

  /** The intended run on no facts restores six empty sets. */
  lemma NothingToRestore<D>(qaData: seq<D>)
    ensures FramesFit(ComposeIntended([]), |qaData|)
    ensures forall name :: name in Output(ComposeIntended([]), qaData) ==> Output(ComposeIntended([]), qaData)[name] == []
  {
    var f := ComposeIntended([]);
    EmptyFactTableComposesNothing();
    ComposeIntendedFits([], |qaData|);
    OutputIs(f, qaData);
    RestoreNothing(TwoHopLayout(), TwoHopIds, qaData);
    RestoreNothing(AdjacentHeadLayout(), AdjacentHeadIds, qaData);
    RestoreNothing(ThreeHopLayout(), ThreeHopIds, qaData);
    RestoreNothing(ThreeHopAdjacentHeadLayout(), ThreeHopAdjacentHeadIds, qaData);
    RestoreNothing(ThreeHopAdjacentHead2Layout(), ThreeHopAdjacentHead2Ids, qaData);
    RestoreNothing(FourHopLayout(), FourHopIds, qaData);
    assert Output(f, qaData) == Keyed<seq<map<Column, D>>>([], [], [], [], [], []);
  }

  /** With no facts, no stage has a row. */
  lemma EmptyFactTableComposesNothing()
    ensures var f := ComposeIntended([]);
      f.twoHop == [] && f.adjacentHead == [] && f.threeHop == []
      && f.threeHopAdjacentHead == [] && f.threeHopAdjacentHead2 == [] && f.fourHop == []
  {
    var f := ComposeIntended([]);
    assert f.twoHop == [] by { assert forall row :: row !in TwoHops([]); }
    assert f.adjacentHead == [] && f.threeHop == [] by {
      assert forall row :: row !in AdjacentHeads([]);
      assert forall row :: row !in ThreeHops([]);
    }
    assert f.threeHopAdjacentHead == [] && f.threeHopAdjacentHead2 == [] by {
      assert forall row :: row !in ThreeHopAdjacentHeads([], []);
      assert forall row :: row !in ThreeHopAdjacentHead2s([], []);
    }
    assert f.fourHop == [] by { assert forall row :: row !in FourHops([], []); }
  }
}
