/** The fact table that src/main.py hands to the composition engine, and the
    names of the files it writes the six question sets to. The entity linker is
    a parameter: given a batch of documents it returns, per document, the ids of
    the entities it linked there. */
module FactTable {
  import opened Tables
  import opened Shapes
  import opened CompositionProperties

  /** One corpus entry as read from the input JSON-lines file. */
  datatype Entry = Entry(question: string, answers: seq<string>, passageId: Cell)

  /** What building the fact table ends in: the records, the IndexError of
      `data[j]` past the end of the corpus, or the ValueError that `range`
      raises for a batch size of zero. */
  datatype Outcome = Built(records: seq<Fact>) | IndexError(position: nat) | ValueError

  /** The entity linker: the linked entity ids of every document of a batch. */
  type Linker = seq<string> -> seq<seq<Cell>>

  function Min(a: int, b: int): int {
    if a <= b then a else b
  }

  /** The answers of an entry, linked as one document: `" , ".join(answers)`. */
  function AnswerDoc(answers: seq<string>): string {
    if answers == [] then ""
    else if |answers| == 1 then answers[0]
    else answers[0] + " , " + AnswerDoc(answers[1..])
  }

  function QuestionDocs(batch: seq<Entry>): seq<string> {
    seq(|batch|, k requires 0 <= k < |batch| => batch[k].question)
  }

  function AnswerDocs(batch: seq<Entry>): seq<string> {
    seq(|batch|, k requires 0 <= k < |batch| => AnswerDoc(batch[k].answers))
  }

  /** The records of corpus entry `j`: one per pair of a question entity and an
      answer entity, question entities in the outer loop. */
  function EntryFacts(j: nat, qs: seq<Cell>, ans: seq<Cell>, passage: Cell): seq<Fact> {
    if qs == [] then []
    else
      var row := seq(|ans|, k requires 0 <= k < |ans| => Fact(j, qs[0], ans[k], passage));
      row + EntryFacts(j, qs[1..], ans, passage)
  }

  /** The records of entry `j` are exactly the pairs of one of its question
      entities and one of its answer entities, with its id and passage. */
  lemma {:induction false} EntryFactsMembers(j: nat, qs: seq<Cell>, ans: seq<Cell>, passage: Cell)
    ensures forall f :: f in EntryFacts(j, qs, ans, passage) <==>
      f.question == j && f.passage == passage && f.questionEntity in qs && f.answerEntity in ans
  {
    if qs != [] {
      var row := seq(|ans|, k requires 0 <= k < |ans| => Fact(j, qs[0], ans[k], passage));
      EntryFactsMembers(j, qs[1..], ans, passage);
      assert forall f :: f in row <==> f.question == j && f.passage == passage && f.questionEntity == qs[0] && f.answerEntity in ans by {
        forall f: Fact | f.question == j && f.passage == passage && f.questionEntity == qs[0] && f.answerEntity in ans
          ensures f in row
        {
          var k :| 0 <= k < |ans| && ans[k] == f.answerEntity;
          assert row[k] == f;
        }
      }
      assert forall c :: c in qs <==> c == qs[0] || c in qs[1..];
    }
  }

  lemma MulStep(x: nat, n: nat)
    requires x > 0
    ensures x * n == n + (x - 1) * n
  {
  }

  lemma MulBound(x: nat, y: nat, m: nat, n: nat)
    requires x < m && y < n
    ensures x * n + y < m * n
  {
    assert x * n <= (m - 1) * n by {
      if n > 0 {
        assert (m - 1) * n - x * n == (m - 1 - x) * n;
      }
    }
    MulStep(m, n);
  }

  /** Entry `j` contributes |qs| * |ans| records, none when either side has
      no linked entity. */
  lemma {:induction false} EntryFactsLength(j: nat, qs: seq<Cell>, ans: seq<Cell>, passage: Cell)
    ensures |EntryFacts(j, qs, ans, passage)| == |qs| * |ans|
  {
    if qs != [] {
      EntryFactsLength(j, qs[1..], ans, passage);
      MulStep(|qs|, |ans|);
    }
  }

  /** Record x * |ans| + y of entry `j` pairs its x-th question entity with
      its y-th answer entity: question entities are the outer loop. */
  lemma {:induction false} EntryFactAt(j: nat, qs: seq<Cell>, ans: seq<Cell>, passage: Cell, x: nat, y: nat)
    requires x < |qs| && y < |ans|
    ensures x * |ans| + y < |EntryFacts(j, qs, ans, passage)|
    ensures EntryFacts(j, qs, ans, passage)[x * |ans| + y] == Fact(j, qs[x], ans[y], passage)
  {
    EntryFactsLength(j, qs, ans, passage);
    MulBound(x, y, |qs|, |ans|);
    var row := seq(|ans|, k requires 0 <= k < |ans| => Fact(j, qs[0], ans[k], passage));
    var rest := EntryFacts(j, qs[1..], ans, passage);
    assert EntryFacts(j, qs, ans, passage) == row + rest;
    if x == 0 {
      assert x * |ans| + y == y;
    } else {
      var m := (x - 1) * |ans| + y;
      MulStep(x, |ans|);
      assert x * |ans| + y == |row| + m;
      EntryFactAt(j, qs[1..], ans, passage, x - 1, y);
      assert qs[x] == qs[1..][x - 1];
    }
  }

  /** `records.extend(...)` continued by the rest of the run, unless the rest
      raises. */
  function Then(records: seq<Fact>, rest: Outcome): Outcome {
    if rest.Built? then Built(records + rest.records) else rest
  }

  /** One outcome followed by another: the first error wins. */
  function AndThen(first: Outcome, rest: Outcome): Outcome {
    if first.Built? then Then(first.records, rest) else first
  }

  /** A run that completes completed both of its parts, and its records are
      theirs in order. */
  lemma AndThenBuilt(first: Outcome, rest: Outcome)
    requires AndThen(first, rest).Built?
    ensures first.Built? && rest.Built?
    ensures AndThen(first, rest).records == first.records + rest.records
  {
  }

  lemma ThenThen(a: seq<Fact>, b: seq<Fact>, rest: Outcome)
    ensures Then(a, Then(b, rest)) == Then(a + b, rest)
  {
    if rest.Built? {
      assert a + (b + rest.records) == (a + b) + rest.records;
    }
  }

  lemma AndThenThen(a: seq<Fact>, first: Outcome, rest: Outcome)
    ensures AndThen(Then(a, first), rest) == Then(a, AndThen(first, rest))
  {
    if first.Built? {
      ThenThen(a, first.records, rest);
    }
  }

  /** One batch step of the loop: the zipped slots of the batch at i, then the
      batches after it. */
  lemma BatchStep(data: seq<Entry>, size: nat, link: Linker, i: nat)
    requires size > 0 && i < |data|
    ensures var batch := data[i..Min(i + size, |data|)];
      var qm := link(QuestionDocs(batch));
      var am := link(AnswerDocs(batch));
      BatchFrom(data, size, link, i)
      == AndThen(ZipFrom(data, i, qm, am, Min(size, Min(|qm|, |am|)), 0), BatchFrom(data, size, link, i + size))
  {
  }

  /** The records of the zipped slots k.. of the batch that starts at corpus
      position i; `width` is where `zip` stops. */
  function ZipFrom(data: seq<Entry>, i: nat, qm: seq<seq<Cell>>, am: seq<seq<Cell>>, width: nat, k: nat): Outcome
    requires width <= |qm| && width <= |am|
    decreases width - k
  {
    if k >= width then Built([])
    else if qm[k] == [] || am[k] == [] then ZipFrom(data, i, qm, am, width, k + 1)
    else if i + k >= |data| then IndexError(i + k)
    else Then(EntryFacts(i + k, qm[k], am[k], data[i + k].passageId), ZipFrom(data, i, qm, am, width, k + 1))
  }

  /** The records of the batches that start at i, i + size, ... */
  function BatchFrom(data: seq<Entry>, size: nat, link: Linker, i: nat): Outcome
    requires size > 0
    decreases |data| - i
  {
    if i >= |data| then Built([])
    else
      var batch := data[i..Min(i + size, |data|)];
      var qm := link(QuestionDocs(batch));
      var am := link(AnswerDocs(batch));
      AndThen(ZipFrom(data, i, qm, am, Min(size, Min(|qm|, |am|)), 0), BatchFrom(data, size, link, i + size))
  }

  /** The fact table of single_file_worker: `range(0, len(data), size)` is
      empty for a negative size and raises for size zero. */
  function Records(data: seq<Entry>, size: int, link: Linker): Outcome {
    if size == 0 then ValueError
    else if size < 0 then Built([])
    else BatchFrom(data, size, link, 0)
  }

  /** The zipped loop over one batch: extends `records` entry by entry. */
  method ExtendWithBatch(records: seq<Fact>, data: seq<Entry>, i: nat, qm: seq<seq<Cell>>, am: seq<seq<Cell>>, width: nat)
    returns (out: Outcome)
    requires width <= |qm| && width <= |am|
    ensures out == Then(records, ZipFrom(data, i, qm, am, width, 0))
  {
    var extended := records;
    var k := 0;
    while k < width
      invariant 0 <= k <= width
      invariant Then(records, ZipFrom(data, i, qm, am, width, 0)) == Then(extended, ZipFrom(data, i, qm, am, width, k))
    {
      var j := i + k;
      if qm[k] != [] && am[k] != [] {
        if j >= |data| {
          return IndexError(j);
        }
        var facts := EntryFacts(j, qm[k], am[k], data[j].passageId);
        ThenThen(extended, facts, ZipFrom(data, i, qm, am, width, k + 1));
        extended := extended + facts;
      }
      k := k + 1;
    }
    out := Built(extended);
    assert extended + [] == extended;
  }

  /** The batch loop of single_file_worker. */
  method BuildRecords(data: seq<Entry>, size: int, link: Linker) returns (out: Outcome)
    ensures out == Records(data, size, link)
  {
    if size == 0 {
      return ValueError;
    }
    if size < 0 {
      return Built([]);
    }
    var records: seq<Fact> := [];
    var i: nat := 0;
    ghost var total := Records(data, size, link);
    assert total == Then([], BatchFrom(data, size, link, 0)) by {
      if total.Built? {
        assert [] + total.records == total.records;
      }
    }
    while i < |data|
      invariant total == Then(records, BatchFrom(data, size, link, i))
      decreases |data| - i
    {
      var batch := data[i..Min(i + size, |data|)];
      var qm := link(QuestionDocs(batch));
      var am := link(AnswerDocs(batch));
      var width := Min(size, Min(|qm|, |am|));
      BatchStep(data, size, link, i);
      var extended := ExtendWithBatch(records, data, i, qm, am, width);
      AndThenThen(records, ZipFrom(data, i, qm, am, width, 0), BatchFrom(data, size, link, i + size));
      if !extended.Built? {
        return extended;
      }
      records := extended.records;
      i := i + size;
    }
    out := Built(records);
    assert records + [] == records;
  }

  /** Every record names a corpus entry and carries that entry's passage id. */
  predicate Sound(data: seq<Entry>, records: seq<Fact>) {
    forall f :: f in records ==> f.question < |data| && f.passage == data[f.question].passageId
  }

  lemma SoundAppend(data: seq<Entry>, a: seq<Fact>, b: seq<Fact>)
    requires Sound(data, a) && Sound(data, b)
    ensures Sound(data, a + b)
  {
  }

  /** `records.extend(...)` of a run that completes: the rest completed too. */
  lemma ThenBuilt(records: seq<Fact>, rest: Outcome)
    requires Then(records, rest).Built?
    ensures rest.Built? && Then(records, rest).records == records + rest.records
  {
  }

  /** The records of one corpus entry name it and carry its passage. */
  lemma EntryFactsSound(data: seq<Entry>, j: nat, qs: seq<Cell>, ans: seq<Cell>)
    requires j < |data|
    ensures Sound(data, EntryFacts(j, qs, ans, data[j].passageId))
  {
    EntryFactsMembers(j, qs, ans, data[j].passageId);
  }

  /** An entry's records followed by sound records are sound. */
  lemma SoundCons(data: seq<Entry>, j: nat, qs: seq<Cell>, ans: seq<Cell>, rest: seq<Fact>)
    requires j < |data| && Sound(data, rest)
    ensures Sound(data, EntryFacts(j, qs, ans, data[j].passageId) + rest)
  {
    EntryFactsSound(data, j, qs, ans);
    SoundAppend(data, EntryFacts(j, qs, ans, data[j].passageId), rest);
  }

  /** A zipped slot with entities on both sides, inside the corpus, puts its
      entry's records in front of the later slots' records. */
  lemma ZipFromCons(data: seq<Entry>, i: nat, qm: seq<seq<Cell>>, am: seq<seq<Cell>>, width: nat, k: nat)
    requires width <= |qm| && width <= |am|
    requires k < width && qm[k] != [] && am[k] != [] && i + k < |data|
    requires ZipFrom(data, i, qm, am, width, k).Built?
    ensures ZipFrom(data, i, qm, am, width, k + 1).Built?
    ensures ZipFrom(data, i, qm, am, width, k).records
      == EntryFacts(i + k, qm[k], am[k], data[i + k].passageId) + ZipFrom(data, i, qm, am, width, k + 1).records
  {
    ThenBuilt(EntryFacts(i + k, qm[k], am[k], data[i + k].passageId), ZipFrom(data, i, qm, am, width, k + 1));
  }

  /** Every record of a zipped batch names a corpus entry and carries its passage. */
  lemma {:induction false} ZipFromSound(data: seq<Entry>, i: nat, qm: seq<seq<Cell>>, am: seq<seq<Cell>>, width: nat, k: nat)
    requires width <= |qm| && width <= |am|
    requires ZipFrom(data, i, qm, am, width, k).Built?
    ensures Sound(data, ZipFrom(data, i, qm, am, width, k).records)
    decreases width - k
  {
    if k >= width {
      assert ZipFrom(data, i, qm, am, width, k).records == [];
    } else if qm[k] == [] || am[k] == [] {
      assert ZipFrom(data, i, qm, am, width, k) == ZipFrom(data, i, qm, am, width, k + 1);
      ZipFromSound(data, i, qm, am, width, k + 1);
    } else if i + k < |data| {
      ZipFromCons(data, i, qm, am, width, k);
      ZipFromSound(data, i, qm, am, width, k + 1);
      SoundCons(data, i + k, qm[k], am[k], ZipFrom(data, i, qm, am, width, k + 1).records);
    }
  }

  lemma {:induction false} BatchFromSound(data: seq<Entry>, size: nat, link: Linker, i: nat)
    requires size > 0
    requires BatchFrom(data, size, link, i).Built?
    ensures Sound(data, BatchFrom(data, size, link, i).records)
    decreases |data| - i
  {
    if i < |data| {
      var batch := data[i..Min(i + size, |data|)];
      var qm := link(QuestionDocs(batch));
      var am := link(AnswerDocs(batch));
      var width := Min(size, Min(|qm|, |am|));
      BatchFromCons(data, size, link, i);
      ZipFromSound(data, i, qm, am, width, 0);
      BatchFromSound(data, size, link, i + size);
      SoundAppend(data, ZipFrom(data, i, qm, am, width, 0).records, BatchFrom(data, size, link, i + size).records);
    }
  }

  /** A completed run from a batch inside the corpus completed the batch's
      zip and the later batches, and its records are theirs in order. */
  lemma BatchFromCons(data: seq<Entry>, size: nat, link: Linker, i: nat)
    requires size > 0 && i < |data|
    requires BatchFrom(data, size, link, i).Built?
    ensures var batch := data[i..Min(i + size, |data|)];
      var qm := link(QuestionDocs(batch));
      var am := link(AnswerDocs(batch));
      var zip := ZipFrom(data, i, qm, am, Min(size, Min(|qm|, |am|)), 0);
      zip.Built? && BatchFrom(data, size, link, i + size).Built?
      && BatchFrom(data, size, link, i).records == zip.records + BatchFrom(data, size, link, i + size).records
  {
    var batch := data[i..Min(i + size, |data|)];
    var qm := link(QuestionDocs(batch));
    var am := link(AnswerDocs(batch));
    BatchStep(data, size, link, i);
    AndThenBuilt(ZipFrom(data, i, qm, am, Min(size, Min(|qm|, |am|)), 0), BatchFrom(data, size, link, i + size));
  }

  /** Whatever the linker returns, a fact table that is built names only corpus
      entries, each record carries its entry's passage id, and so the fact
      table meets what the composition engine asks of it. */
  lemma RecordsSound(data: seq<Entry>, size: int, link: Linker)
    requires Records(data, size, link).Built?
    ensures forall f :: f in Records(data, size, link).records ==>
      f.question < |data| && f.passage == data[f.question].passageId
    ensures PassageConsistent(Records(data, size, link).records)
  {
    if size > 0 {
      BatchFromSound(data, size, link, 0);
    }
  }

  /** A linker that links every document on its own, as `one` does, whatever
      else is in its batch. */
  ghost predicate LinksEachDocument(link: Linker, one: string -> seq<Cell>) {
    forall docs :: |link(docs)| == |docs| && forall t :: 0 <= t < |docs| ==> link(docs)[t] == one(docs[t])
  }

  /** The records of the entries a .. b - 1, in corpus order. */
  function Between(data: seq<Entry>, one: string -> seq<Cell>, a: nat, b: nat): seq<Fact>
    requires b <= |data|
    decreases b - a
  {
    if a >= b then []
    else
      var here := EntryFacts(a, one(data[a].question), one(AnswerDoc(data[a].answers)), data[a].passageId);
      here + Between(data, one, a + 1, b)
  }

  lemma {:induction false} BetweenSplit(data: seq<Entry>, one: string -> seq<Cell>, a: nat, m: nat, b: nat)
    requires a <= m <= b <= |data|
    ensures Between(data, one, a, b) == Between(data, one, a, m) + Between(data, one, m, b)
    decreases m - a
  {
    if a < m {
      BetweenSplit(data, one, a + 1, m, b);
    }
  }

  lemma {:induction false} ZipFromPerDocument(data: seq<Entry>, one: string -> seq<Cell>, i: nat,
                                              qm: seq<seq<Cell>>, am: seq<seq<Cell>>, width: nat, k: nat, from: nat, to: nat)
    requires to == i + width && to <= |data| && width <= |qm| && width <= |am|
    requires forall t :: 0 <= t < width ==> qm[t] == one(data[i + t].question)
    requires forall t :: 0 <= t < width ==> am[t] == one(AnswerDoc(data[i + t].answers))
    requires k <= width && from == i + k
    ensures ZipFrom(data, i, qm, am, width, k) == Built(Between(data, one, from, to))
    decreases width - k
  {
    if k < width {
      ZipFromPerDocument(data, one, i, qm, am, width, k + 1, from + 1, to);
      assert qm[k] == one(data[i + k].question) && am[k] == one(AnswerDoc(data[i + k].answers));
      assert i + k + 1 == from + 1;
      ZipFromPerDocumentStep(data, one, i, qm, am, width, k, to);
    }
  }

  /** One slot of a per-document zip: the entry's own records, then the rest. */
  lemma ZipFromPerDocumentStep(data: seq<Entry>, one: string -> seq<Cell>, i: nat,
                               qm: seq<seq<Cell>>, am: seq<seq<Cell>>, width: nat, k: nat, to: nat)
    requires width <= |qm| && width <= |am| && k < width && i + k < to <= |data|
    requires qm[k] == one(data[i + k].question) && am[k] == one(AnswerDoc(data[i + k].answers))
    requires ZipFrom(data, i, qm, am, width, k + 1) == Built(Between(data, one, i + k + 1, to))
    ensures ZipFrom(data, i, qm, am, width, k) == Built(Between(data, one, i + k, to))
  {
    var here := EntryFacts(i + k, qm[k], am[k], data[i + k].passageId);
    assert Between(data, one, i + k, to) == here + Between(data, one, i + k + 1, to);
    if qm[k] == [] || am[k] == [] {
      EntryFactsLength(i + k, qm[k], am[k], data[i + k].passageId);
      assert here == [];
    }
  }

  /** A batch of a per-document linker yields the records of its entries. */
  lemma ZipOfBatch(data: seq<Entry>, link: Linker, one: string -> seq<Cell>, i: nat, end: nat)
    requires LinksEachDocument(link, one)
    requires i <= end <= |data|
    ensures var batch := data[i..end];
      var qm := link(QuestionDocs(batch));
      var am := link(AnswerDocs(batch));
      |qm| == |batch| && |am| == |batch|
      && ZipFrom(data, i, qm, am, |batch|, 0) == Built(Between(data, one, i, end))
  {
    var batch := data[i..end];
    var qd := QuestionDocs(batch);
    var ad := AnswerDocs(batch);
    var qm := link(qd);
    var am := link(ad);
    assert |qm| == |batch| && forall t :: 0 <= t < |qd| ==> qm[t] == one(qd[t]);
    assert |am| == |batch| && forall t :: 0 <= t < |ad| ==> am[t] == one(ad[t]);
    forall t | 0 <= t < |batch|
      ensures qm[t] == one(data[i + t].question)
      ensures am[t] == one(AnswerDoc(data[i + t].answers))
    {
      assert batch[t] == data[i + t];
      assert qd[t] == data[i + t].question;
      assert ad[t] == AnswerDoc(data[i + t].answers);
    }
    ZipFromPerDocument(data, one, i, qm, am, |batch|, 0, i, end);
  }

  lemma {:induction false} BatchFromPerDocument(data: seq<Entry>, size: nat, link: Linker, one: string -> seq<Cell>, i: nat, from: nat)
    requires size > 0
    requires LinksEachDocument(link, one)
    requires from == Min(i, |data|)
    ensures BatchFrom(data, size, link, i) == Built(Between(data, one, from, |data|))
    decreases |data| - i
  {
    if i < |data| {
      BatchFromPerDocument(data, size, link, one, i + size, Min(i + size, |data|));
      BatchFromPerDocumentStep(data, size, link, one, i);
    } else {
      assert Between(data, one, |data|, |data|) == [];
    }
  }

  /** One batch of a per-document linker: its entries' records, then the later batches'. */
  lemma BatchFromPerDocumentStep(data: seq<Entry>, size: nat, link: Linker, one: string -> seq<Cell>, i: nat)
    requires size > 0 && i < |data|
    requires LinksEachDocument(link, one)
    requires BatchFrom(data, size, link, i + size) == Built(Between(data, one, Min(i + size, |data|), |data|))
    ensures BatchFrom(data, size, link, i) == Built(Between(data, one, i, |data|))
  {
    var end := Min(i + size, |data|);
    BatchStep(data, size, link, i);
    ZipOfBatch(data, link, one, i, end);
    BetweenSplit(data, one, i, end, |data|);
  }

  /** With a linker that links every document on its own, no entry is out of
      range and the fact table is the entries' records in corpus order,
      whatever the batch size. */
  lemma RecordsPerDocument(data: seq<Entry>, size: int, link: Linker, one: string -> seq<Cell>)
    requires size > 0
    requires LinksEachDocument(link, one)
    ensures Records(data, size, link) == Built(Between(data, one, 0, |data|))
  {
    BatchFromPerDocument(data, size, link, one, 0, 0);
  }

  /** Python `s.split(sep)`: the pieces between the occurrences of `sep`. */
  function Split(s: string, sep: char): (r: seq<string>)
    ensures |r| >= 1
    ensures forall k :: 0 <= k < |r| ==> sep !in r[k]
  {
    if s == [] then [""]
    else
      var rest := Split(s[1..], sep);
      if s[0] == sep then [""] + rest
      else [[s[0]] + rest[0]] + rest[1..]
  }

  /** Python `sep.join(parts)`. */
  function Join(parts: seq<string>, sep: char): string {
    if parts == [] then ""
    else if |parts| == 1 then parts[0]
    else parts[0] + [sep] + Join(parts[1..], sep)
  }

  /** Joining the pieces of a split gives the string back. */
  lemma {:induction false} JoinSplit(s: string, sep: char)
    ensures Join(Split(s, sep), sep) == s
  {
    if s != [] {
      var rest := Split(s[1..], sep);
      JoinSplit(s[1..], sep);
      if s[0] == sep {
        assert ([""] + rest)[1..] == rest;
      } else if |rest| > 1 {
        var parts := [[s[0]] + rest[0]] + rest[1..];
        assert parts[1..] == rest[1..];
      }
    }
  }

  lemma {:induction false} JoinSnoc(parts: seq<string>, last: string, sep: char)
    requires parts != []
    ensures Join(parts + [last], sep) == Join(parts, sep) + [sep] + last
  {
    if |parts| > 1 {
      JoinSnoc(parts[1..], last, sep);
      assert (parts + [last])[1..] == parts[1..] + [last];
    }
  }

  /** A string holds the separator exactly when its split has several pieces. */
  lemma {:induction false} SplitPieces(s: string, sep: char)
    ensures sep in s <==> |Split(s, sep)| >= 2
  {
    if s != [] {
      SplitPieces(s[1..], sep);
      assert sep in s <==> s[0] == sep || sep in s[1..];
    }
  }

  /** The last `/`-component of a path. */
  function BaseName(path: string): string {
    var parts := Split(path, '/');
    parts[|parts| - 1]
  }

  /** output_file_prefix: the base name without its last `.`-extension. */
  function OutputFilePrefix(path: string): string {
    var parts := Split(BaseName(path), '.');
    Join(parts[..|parts| - 1], '.')
  }

  /** The base name is what follows the last `/` of the path. */
  lemma BaseNameIsLast(path: string)
    ensures '/' !in BaseName(path)
    ensures |BaseName(path)| <= |path| && path[|path| - |BaseName(path)|..] == BaseName(path)
    ensures |BaseName(path)| < |path| ==> path[|path| - |BaseName(path)| - 1] == '/'
  {
    var parts := Split(path, '/');
    JoinSplit(path, '/');
    if |parts| > 1 {
      var init := parts[..|parts| - 1];
      assert parts == init + [BaseName(path)];
      JoinSnoc(init, BaseName(path), '/');
    }
  }

  /** The prefix is the base name up to its last `.`, and empty when the base
      name has no `.`. */
  lemma OutputFilePrefixShape(path: string)
    ensures '.' !in BaseName(path) ==> OutputFilePrefix(path) == ""
    ensures '.' in BaseName(path) ==> exists ext ::
      '.' !in ext && BaseName(path) == OutputFilePrefix(path) + "." + ext
  {
    var base := BaseName(path);
    var parts := Split(base, '.');
    SplitPieces(base, '.');
    JoinSplit(base, '.');
    if |parts| > 1 {
      var init := parts[..|parts| - 1];
      assert parts == init + [parts[|parts| - 1]];
      JoinSnoc(init, parts[|parts| - 1], '.');
      assert '.' !in parts[|parts| - 1];
    }
  }

  /** The file a question set is written to. */
  function OutputPath(outPath: string, prefix: string, setName: string): string {
    outPath + "/" + prefix + "_" + setName + "_composable_questions.jsonl"
  }

  /** Different question sets go to different files. */
  lemma OutputPathInjective(outPath: string, prefix: string, a: string, b: string)
    requires OutputPath(outPath, prefix, a) == OutputPath(outPath, prefix, b)
    ensures a == b
  {
    var lead := outPath + "/" + prefix + "_";
    assert OutputPath(outPath, prefix, a)[|lead|..|lead| + |a|] == a;
    assert OutputPath(outPath, prefix, b)[|lead|..|lead| + |b|] == b;
  }

  /** The files single_file_worker writes: each set under its own path. */
  function OutputFiles<X>(outPath: string, prefix: string, sets: map<string, X>): (files: map<string, X>)
    ensures forall s :: s in sets ==> OutputPath(outPath, prefix, s) in files && files[OutputPath(outPath, prefix, s)] == sets[s]
    ensures forall p :: p in files ==> exists s :: s in sets && p == OutputPath(outPath, prefix, s)
  {
    forall a, b | OutputPath(outPath, prefix, a) == OutputPath(outPath, prefix, b)
      ensures a == b
    {
      OutputPathInjective(outPath, prefix, a, b);
    }
    map s | s in sets :: OutputPath(outPath, prefix, s) := sets[s]
  }
}
