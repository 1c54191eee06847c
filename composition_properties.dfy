/** What the frames of src/composable_questions.py guarantee about the chains
    they hold: how the longer shapes decompose into 3hop rows, that the nodes
    of a chain are different questions (and, when every question has one
    passage, different passages), and that the adjacent-head frame is
    symmetric. */
module CompositionProperties {
  import opened Tables
  import opened Shapes
  import opened ComposableQuestions

  /** Each question of the fact table has a single passage, as the rows built
      from one corpus entry do. */
  predicate PassageConsistent(facts: seq<Fact>) {
    forall f, g :: f in facts && g in facts && f.question == g.question ==> f.passage == g.passage
  }

  /** Every row of `twoHops` links two rows of the fact table and passes the
      cycle filter: what the 2hop frame guarantees to the stages built on it. */
  predicate TwoHopsOver(facts: seq<Fact>, twoHops: seq<TwoHop>) {
    forall t :: t in twoHops ==> t.head in facts && t.tail in facts && CycleFree(t.head, t.tail)
  }

  /** The 2hop frame links rows of the fact table through a linked entity, and
      each of its rows joins two different questions from different passages. */
  lemma TwoHopLinks(facts: seq<Fact>)
    ensures TwoHopsOver(facts, TwoHops(facts))
    ensures forall t :: t in TwoHops(facts) ==> t.head.answerEntity.Val? && t.head.answerEntity == t.tail.questionEntity
  {
  }

  /** The adjacent-head frame holds every pair in both orders. */
  lemma AdjacentHeadsSymmetric(twoHops: seq<TwoHop>, row: AdjacentHead)
    ensures row in AdjacentHeads(twoHops) <==> row.Swap() in AdjacentHeads(twoHops)
  {
    assert row.Swap().Swap() == row;
  }

  /** The two heads of an adjacent-head row and their common tail are three
      different questions. */
  lemma AdjacentHeadIdsDistinct(facts: seq<Fact>, twoHops: seq<TwoHop>, row: AdjacentHead)
    requires TwoHopsOver(facts, twoHops)
    requires row in AdjacentHeads(twoHops)
    ensures Distinct(row.Ids())
  {
    assert TwoHop(row.head1, row.tail) in twoHops && TwoHop(row.head2, row.tail_2) in twoHops;
  }

  /** A 3hop row visits three different questions. */
  lemma ThreeHopIdsDistinct(facts: seq<Fact>, twoHops: seq<TwoHop>, row: ThreeHop)
    requires TwoHopsOver(facts, twoHops)
    requires row in ThreeHops(twoHops)
    ensures Distinct(row.Ids())
  {
    assert TwoHop(row.head, row.mid) in twoHops && TwoHop(row.mid_2, row.tail) in twoHops;
  }

  /** When every question has one passage, the three questions of a 3hop row
      come from pairwise different passages. */
  lemma ThreeHopPassagesDistinct(facts: seq<Fact>, twoHops: seq<TwoHop>, row: ThreeHop)
    requires PassageConsistent(facts)
    requires TwoHopsOver(facts, twoHops)
    requires row in ThreeHops(twoHops)
    ensures Ne(row.head.passage, row.mid.passage)
    ensures Ne(row.mid.passage, row.tail.passage)
    ensures Ne(row.head.passage, row.tail.passage)
  {
    assert TwoHop(row.head, row.mid) in twoHops && TwoHop(row.mid_2, row.tail) in twoHops;
    assert row.mid.passage == row.mid_2.passage;
  }

  /** A 3hop_with_adjacent_head row is two 3hop rows that share their last two
      nodes and whose heads pass filter_identical_heads. */
  lemma ThreeHopAdjacentHeadAsThreeHops(twoHops: seq<TwoHop>, row: ThreeHopAdjacentHead)
    ensures row in ThreeHopAdjacentHeads(AdjacentHeads(twoHops), twoHops) <==>
      ThreeHop(row.head1, row.mid, row.mid_3, row.tail) in ThreeHops(twoHops)
      && ThreeHop(row.head2, row.mid_2, row.mid_3, row.tail) in ThreeHops(twoHops)
      && DistinctHeads(AdjacentHead(row.head1, row.head2, row.mid, row.mid_2))
  {
  }

  /** The four questions of a 3hop_with_adjacent_head row are all different. */
  lemma ThreeHopAdjacentHeadIdsDistinct(facts: seq<Fact>, twoHops: seq<TwoHop>, row: ThreeHopAdjacentHead)
    requires TwoHopsOver(facts, twoHops)
    requires row in ThreeHopAdjacentHeads(AdjacentHeads(twoHops), twoHops)
    ensures Distinct(row.Ids())
  {
    var first := ThreeHop(row.head1, row.mid, row.mid_3, row.tail);
    var second := ThreeHop(row.head2, row.mid_2, row.mid_3, row.tail);
    assert first in ThreeHops(twoHops) && second in ThreeHops(twoHops)
      && row.head1.question != row.head2.question
      && row.mid.question == row.mid_2.question by {
      ThreeHopAdjacentHeadAsThreeHops(twoHops, row);
    }
    assert row.head1.question != row.mid.question && row.head1.question != row.tail.question
      && row.mid.question != row.tail.question by {
      ThreeHopIdsDistinct(facts, twoHops, first);
      DistinctThree(row.head1.question, row.mid.question, row.tail.question);
    }
    assert row.head2.question != row.mid_2.question && row.head2.question != row.tail.question by {
      ThreeHopIdsDistinct(facts, twoHops, second);
      DistinctThree(row.head2.question, row.mid_2.question, row.tail.question);
    }
    DistinctFour(row.head1.question, row.mid.question, row.head2.question, row.tail.question);
  }

  /** The pairwise inequalities of a three-element sequence without duplicates. */
  lemma DistinctThree(a: nat, b: nat, c: nat)
    requires Distinct([a, b, c])
    ensures a != b && a != c && b != c
  {
    assert [a, b, c][0] == a && [a, b, c][1] == b && [a, b, c][2] == c;
  }

  /** Four pairwise different values form a sequence without duplicates. */
  lemma DistinctFour(a: nat, b: nat, c: nat, d: nat)
    requires a != b && a != c && a != d && b != c && b != d && c != d
    ensures Distinct([a, b, c, d])
  {
  }

  /** A 3hop_with_adjacent_head2 row, as the source builds it, is a 3hop row
      whose tail is shared with a second 2hop row from a different head. */
  lemma ThreeHopAdjacentHead2AsThreeHop(twoHops: seq<TwoHop>, row: ThreeHopAdjacentHead2)
    ensures row in ThreeHopAdjacentHead2s(AdjacentHeads(twoHops), twoHops) <==>
      ThreeHop(row.head, row.mid, row.mid1, row.tail) in ThreeHops(twoHops)
      && TwoHop(row.mid2, row.tail_2) in twoHops
      && row.tail.question == row.tail_2.question
      && DistinctHeads(AdjacentHead(row.mid1, row.mid2, row.tail, row.tail_2))
  {
  }

  /** What the source's 3hop_with_adjacent_head2 does guarantee: the chain
      head, mid1, tail visits three different questions and mid2 differs from
      mid1 and from the tail. Nothing separates the head from mid2. */
  lemma ThreeHopAdjacentHead2Ids(facts: seq<Fact>, twoHops: seq<TwoHop>, row: ThreeHopAdjacentHead2)
    requires TwoHopsOver(facts, twoHops)
    requires row in ThreeHopAdjacentHead2s(AdjacentHeads(twoHops), twoHops)
    ensures row.mid.question == row.mid1.question
    ensures Distinct([row.head.question, row.mid1.question, row.tail.question])
    ensures row.mid2.question != row.mid1.question && row.mid2.question != row.tail.question
  {
    var chain := ThreeHop(row.head, row.mid, row.mid1, row.tail);
    assert chain in ThreeHops(twoHops) && TwoHop(row.mid2, row.tail_2) in twoHops
      && row.tail.question == row.tail_2.question
      && row.mid1.question != row.mid2.question by {
      ThreeHopAdjacentHead2AsThreeHop(twoHops, row);
    }
    assert row.mid.question == row.mid1.question && Distinct(chain.Ids()) by {
      ThreeHopIdsDistinct(facts, twoHops, chain);
    }
  }

  /** A fact table for which the source's 3hop_with_adjacent_head2 holds a row
      whose head and second adjacent head are the same question: question 0
      has two answer entities, `y` leading to question 1 and `z` leading to
      question 2, and question 1 also answers `z`. */
  function RepeatedHeadFacts(): seq<Fact> {
    [ Fact(0, Val("x"), Val("y"), Val("p0")),
      Fact(0, Val("x"), Val("z"), Val("p0")),
      Fact(1, Val("y"), Val("z"), Val("p1")),
      Fact(2, Val("z"), Val("w"), Val("p2")) ]
  }

  /** The 2hop rows of that table used by the repeated-head row. */
  lemma RepeatedHeadTwoHops(facts: seq<Fact>)
    requires |facts| == 4
    requires facts[0] == Fact(0, Val("x"), Val("y"), Val("p0")) && facts[1] == Fact(0, Val("x"), Val("z"), Val("p0"))
    requires facts[2] == Fact(1, Val("y"), Val("z"), Val("p1")) && facts[3] == Fact(2, Val("z"), Val("w"), Val("p2"))
    ensures TwoHop(facts[0], facts[2]) in TwoHops(facts)
    ensures TwoHop(facts[2], facts[3]) in TwoHops(facts)
    ensures TwoHop(facts[1], facts[3]) in TwoHops(facts)
  {
    assert TwoHop(facts[0], facts[2]) in TwoHops(facts) by {
      assert facts[0] in facts && facts[2] in facts;
      assert "z" != "x" && "p0" != "p1";
      TwoHopOf(facts, facts[0], facts[2]);
    }
    assert TwoHop(facts[2], facts[3]) in TwoHops(facts) by {
      assert facts[2] in facts && facts[3] in facts;
      assert "w" != "y" && "p1" != "p2";
      TwoHopOf(facts, facts[2], facts[3]);
    }
    assert TwoHop(facts[1], facts[3]) in TwoHops(facts) by {
      assert facts[1] in facts && facts[3] in facts;
      assert "w" != "x" && "p0" != "p2";
      TwoHopOf(facts, facts[1], facts[3]);
    }
  }

  /** Two fact rows linked through an entity and clear of each other form a 2hop row. */
  lemma TwoHopOf(facts: seq<Fact>, head: Fact, tail: Fact)
    requires head in facts && tail in facts
    requires EntityLinked(head, tail) && CycleFree(head, tail)
    ensures TwoHop(head, tail) in TwoHops(facts)
  {
  }

  lemma ThreeHopAdjacentHead2RepeatsHead()
    ensures var facts := RepeatedHeadFacts();
      var twoHops := TwoHops(facts);
      var row := ThreeHopAdjacentHead2(facts[0], facts[2], facts[2], facts[1], facts[3], facts[3]);
      row in ThreeHopAdjacentHead2s(AdjacentHeads(twoHops), twoHops)
      && row.head.question == row.mid2.question
  {
    var facts := RepeatedHeadFacts();
    var twoHops := TwoHops(facts);
    var adjacent := AdjacentHead(facts[2], facts[1], facts[3], facts[3]);
    assert TwoHop(facts[0], facts[2]) in twoHops && TwoHop(facts[2], facts[3]) in twoHops
      && TwoHop(facts[1], facts[3]) in twoHops by {
      RepeatedHeadTwoHops(facts);
    }
    assert adjacent in AdjacentHeads(twoHops) by {
      assert "y" != "x" && "p1" != "p0";
      assert DistinctHeads(adjacent);
    }
    assert CycleFree(facts[0], facts[3]) by {
      assert "w" != "x" && "p0" != "p2";
    }
    var row := ThreeHopAdjacentHead2(facts[0], facts[2], facts[2], facts[1], facts[3], facts[3]);
    assert row in ThreeHopAdjacentHead2s(AdjacentHeads(twoHops), twoHops);
  }

  /** With the correction, the four questions of the chain are all different. */
  lemma ThreeHopAdjacentHead2DistinctIds(facts: seq<Fact>, twoHops: seq<TwoHop>, row: ThreeHopAdjacentHead2)
    requires TwoHopsOver(facts, twoHops)
    requires row in ThreeHopAdjacentHead2sDistinct(AdjacentHeads(twoHops), twoHops)
    ensures Distinct([row.head.question, row.mid1.question, row.tail.question, row.mid2.question])
  {
    var adjacent := AdjacentHeads(twoHops);
    assert row in ThreeHopAdjacentHead2s(adjacent, twoHops) && row.head.question != row.mid2.question;
    assert row.head.question != row.mid1.question && row.head.question != row.tail.question
      && row.mid1.question != row.tail.question
      && row.mid2.question != row.mid1.question && row.mid2.question != row.tail.question by {
      ThreeHopAdjacentHead2Ids(facts, twoHops, row);
      DistinctThree(row.head.question, row.mid1.question, row.tail.question);
    }
    DistinctFour(row.head.question, row.mid1.question, row.tail.question, row.mid2.question);
  }
  /** composable_questions as written emits the repeated-head row; the
      intended frames do not. */
  lemma ComposeRepeatsHead()
    ensures var facts := RepeatedHeadFacts();
      var row := ThreeHopAdjacentHead2(facts[0], facts[2], facts[2], facts[1], facts[3], facts[3]);
      row in Compose(facts).threeHopAdjacentHead2 && row !in ComposeIntended(facts).threeHopAdjacentHead2
  {
    ThreeHopAdjacentHead2RepeatsHead();
  }

  /** Every row of the intended `3hop_with_adjacent_head2` frame asks four
      different questions. */
  lemma ComposeIntendedIdsDistinct(facts: seq<Fact>, row: ThreeHopAdjacentHead2)
    requires row in ComposeIntended(facts).threeHopAdjacentHead2
    ensures Distinct([row.head.question, row.mid1.question, row.tail.question, row.mid2.question])
  {
    var twoHops := TwoHops(facts);
    assert row in ThreeHopAdjacentHead2sDistinct(AdjacentHeads(twoHops), twoHops);
    ThreeHopAdjacentHead2DistinctIds(facts, twoHops, row);
  }


  /** A 4hop row is two 3hop rows overlapping in the middle hop whose ends do
      not close a cycle and whose first copy of mid0 is clear of the tail
      (loop_v's checks on the second copy are those of the second 3hop row). */
  lemma FourHopAsThreeHops(twoHops: seq<TwoHop>, row: FourHop)
    ensures row in FourHops(ThreeHops(twoHops), twoHops) <==>
      ThreeHop(row.head, row.mid0, row.mid0_2, row.mid) in ThreeHops(twoHops)
      && ThreeHop(row.mid0_2, row.mid, row.mid_3, row.tail) in ThreeHops(twoHops)
      && CycleFree(row.head, row.tail)
      && Clear(row.mid0, row.tail)
  {
  }

  /** A 4hop row visits four different questions. */
  lemma FourHopIdsDistinct(facts: seq<Fact>, twoHops: seq<TwoHop>, row: FourHop)
    requires TwoHopsOver(facts, twoHops)
    requires row in FourHops(ThreeHops(twoHops), twoHops)
    ensures Distinct(row.Ids())
  {
    FourHopAsThreeHops(twoHops, row);
    FourHopIdsOfThreeHops(facts, twoHops, row);
  }

  lemma FourHopIdsOfThreeHops(facts: seq<Fact>, twoHops: seq<TwoHop>, row: FourHop)
    requires TwoHopsOver(facts, twoHops)
    requires ThreeHop(row.head, row.mid0, row.mid0_2, row.mid) in ThreeHops(twoHops)
    requires ThreeHop(row.mid0_2, row.mid, row.mid_3, row.tail) in ThreeHops(twoHops)
    requires row.head.question != row.tail.question
    ensures Distinct(row.Ids())
  {
    var first := ThreeHop(row.head, row.mid0, row.mid0_2, row.mid);
    var second := ThreeHop(row.mid0_2, row.mid, row.mid_3, row.tail);
    assert row.head.question != row.mid0.question && row.head.question != row.mid.question
      && row.mid0.question != row.mid.question && row.mid0.question == row.mid0_2.question by {
      ThreeHopIdsDistinct(facts, twoHops, first);
      DistinctThree(row.head.question, row.mid0.question, row.mid.question);
    }
    assert row.mid0_2.question != row.tail.question && row.mid.question != row.tail.question by {
      ThreeHopIdsDistinct(facts, twoHops, second);
      DistinctThree(row.mid0_2.question, row.mid.question, row.tail.question);
    }
    DistinctFour(row.head.question, row.mid0.question, row.mid.question, row.tail.question);
  }

  /** When every question has one passage, the four questions of a 4hop row
      come from pairwise different passages. */
  lemma FourHopPassagesDistinct(facts: seq<Fact>, twoHops: seq<TwoHop>, row: FourHop)
    requires PassageConsistent(facts)
    requires TwoHopsOver(facts, twoHops)
    requires row in FourHops(ThreeHops(twoHops), twoHops)
    ensures Ne(row.head.passage, row.mid0.passage) && Ne(row.head.passage, row.mid.passage)
    ensures Ne(row.head.passage, row.tail.passage) && Ne(row.mid0.passage, row.mid.passage)
    ensures Ne(row.mid0.passage, row.tail.passage) && Ne(row.mid.passage, row.tail.passage)
  {
    FourHopAsThreeHops(twoHops, row);
    var first := ThreeHop(row.head, row.mid0, row.mid0_2, row.mid);
    var second := ThreeHop(row.mid0_2, row.mid, row.mid_3, row.tail);
    ThreeHopPassagesDistinct(facts, twoHops, first);
    ThreeHopPassagesDistinct(facts, twoHops, second);
  }
}
