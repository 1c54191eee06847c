/** The fact table and the six path shapes the composition engine emits. Where the
    engine prefixes pandas columns with a role suffix (`question_head`,
    `answer_entity_tail`, ...), each shape here is a datatype with one field per
    role. When two relations are glued on an equal fact id, the shared role keeps
    the entity pair and passage of both sides; the field `x_k` holds the copy that
    pandas names `question_entityk_x`, `answer_entityk_x` and `passagek_x`. */
module Shapes {
  import opened Tables

  /** One row of the fact table: a (question entity, answer entity) pair of the
      corpus entry at position `question`, with that entry's passage id. */
  datatype Fact = Fact(question: nat, questionEntity: Cell, answerEntity: Cell, passage: Cell)

  /** `2hop`: head ---> tail. */
  datatype TwoHop = TwoHop(head: Fact, tail: Fact) {
    /** The fact ids in the order of the frame's question-id columns. */
    function Ids(): seq<nat> {
      [head.question, tail.question]
    }
  }

  /** `2hop_with_adjacent_head`: head1 ---> tail <--- head2. `tail` comes from the
      first 2hop row and `tail_2` from the second; they share a fact id. */
  datatype AdjacentHead = AdjacentHead(head1: Fact, head2: Fact, tail: Fact, tail_2: Fact) {
    function Ids(): seq<nat> {
      [head1.question, tail.question, head2.question]
    }

    /** The same pair of 2hop rows taken in the other order. */
    function Swap(): AdjacentHead {
      AdjacentHead(head2, head1, tail_2, tail)
    }
  }

  /** `3hop`: head ---> mid ---> tail, `mid` from the left 2hop row, `mid_2` from the right one. */
  datatype ThreeHop = ThreeHop(head: Fact, mid: Fact, mid_2: Fact, tail: Fact) {
    function Ids(): seq<nat> {
      [head.question, mid.question, tail.question]
    }
  }

  /** `3hop_with_adjacent_head`: head1 ---> mid <--- head2, then mid ---> tail.
      `mid` and `mid_2` are the two tails of the adjacent-head row, `mid_3` the
      head of the 2hop row that continues it. */
  datatype ThreeHopAdjacentHead =
    ThreeHopAdjacentHead(head1: Fact, head2: Fact, mid: Fact, mid_2: Fact, mid_3: Fact, tail: Fact)
  {
    function Ids(): seq<nat> {
      [head1.question, mid.question, head2.question, tail.question]
    }
  }

  /** `3hop_with_adjacent_head2`: head ---> mid1 ---> tail <--- mid2. `mid` is the
      tail of the leading 2hop row and `mid1` the first head of the adjacent-head
      row; the join makes their fact ids equal and both id columns are kept. */
  datatype ThreeHopAdjacentHead2 =
    ThreeHopAdjacentHead2(head: Fact, mid: Fact, mid1: Fact, mid2: Fact, tail: Fact, tail_2: Fact)
  {
    function Ids(): seq<nat> {
      [head.question, mid.question, mid1.question, tail.question, mid2.question]
    }
  }

  /** `4hop`: head ---> mid0 ---> mid ---> tail. `mid0` and `mid0_2` are the two
      copies of the middle of the 3hop row, `mid` its tail and `mid_3` the head of
      the 2hop row glued to it. */
  datatype FourHop = FourHop(head: Fact, mid0: Fact, mid0_2: Fact, mid: Fact, mid_3: Fact, tail: Fact) {
    function Ids(): seq<nat> {
      [head.question, mid0.question, mid.question, tail.question]
    }

    /** The copy of `mid0` whose columns carry the given copy number (0 for none). */
    function Mid0Copy(copy: nat): Fact {
      if copy == 2 then mid0_2 else mid0
    }
  }
}
