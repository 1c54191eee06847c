/** Relational building blocks shared by every composition stage: nullable cells
    with the comparison semantics of pandas, boolean-mask filters, inner joins and
    drop_duplicates. A data frame is a sequence of rows, so a row that a join can
    form in two ways appears twice, as it does in pandas. */
module Tables {

  /** A nullable cell of a data frame: an entity id or a passage id. `Null` stands
      for the None/NaN that pandas stores when nothing was linked. */
  datatype Cell = Null | Val(value: string)

  /** pandas `a != b` on two cells: any comparison with a null is "different". */
  predicate Ne(a: Cell, b: Cell) {
    a.Null? || b.Null? || a != b
  }

  /** A boolean-mask selection `df[mask]`: the rows that satisfy `keep`, in order. */
  function Filter<T(==,!new)>(s: seq<T>, keep: T -> bool): (r: seq<T>)
    ensures |r| <= |s|
    ensures forall x :: x in r <==> x in s && keep(x)
  {
    if s == [] then []
    else
      var rest := Filter(s[1..], keep);
      assert forall x :: x in s <==> x == s[0] || x in s[1..];
      if keep(s[0]) then [s[0]] + rest else rest
  }

  /** Filtering with the same predicate twice is filtering once. */
  lemma {:induction false} FilterTwice<T(!new)>(s: seq<T>, keep: T -> bool)
    ensures Filter(Filter(s, keep), keep) == Filter(s, keep)
  {
    if s != [] {
      FilterTwice(s[1..], keep);
      if keep(s[0]) {
        assert Filter(s, keep)[1..] == Filter(s[1..], keep);
      }
    }
  }

  /** Two masks that agree on every row of `s` select the same rows. */
  lemma {:induction false} FilterAgree<T(!new)>(s: seq<T>, p: T -> bool, q: T -> bool)
    requires forall x :: x in s ==> p(x) == q(x)
    ensures Filter(s, p) == Filter(s, q)
  {
    if s != [] {
      assert forall x :: x in s[1..] ==> x in s;
      FilterAgree(s[1..], p, q);
    }
  }

  /** A mask that every row satisfies selects the whole frame. */
  lemma {:induction false} FilterKeepsAll<T(!new)>(s: seq<T>, keep: T -> bool)
    requires forall x :: x in s ==> keep(x)
    ensures Filter(s, keep) == s
  {
    if s != [] {
      assert forall x :: x in s[1..] ==> x in s;
      FilterKeepsAll(s[1..], keep);
    }
  }

  /** Applying two masks one after the other is applying their conjunction. */
  lemma {:induction false} FilterThen<T(!new)>(s: seq<T>, p: T -> bool, q: T -> bool, both: T -> bool)
    requires forall x :: x in s ==> both(x) == (p(x) && q(x))
    ensures Filter(Filter(s, p), q) == Filter(s, both)
  {
    if s != [] {
      assert forall x :: x in s[1..] ==> x in s;
      FilterThen(s[1..], p, q, both);
      if p(s[0]) {
        assert Filter(s, p) == [s[0]] + Filter(s[1..], p);
        assert Filter(s, p)[1..] == Filter(s[1..], p);
      }
    }
  }

  /** A mask distributes over concatenated frames. */
  lemma {:induction false} FilterAppend<T(!new)>(a: seq<T>, b: seq<T>, keep: T -> bool)
    ensures Filter(a + b, keep) == Filter(a, keep) + Filter(b, keep)
  {
    if a == [] {
      assert a + b == b;
    } else {
      assert (a + b)[0] == a[0] && (a + b)[1..] == a[1..] + b;
      FilterAppend(a[1..], b, keep);
    }
  }

  /** The rows that the left row `l` forms with the rows of `rs`, in the order of `rs`. */
  function Matches<L, R(==,!new), O(==,!new)>(l: L, rs: seq<R>, on: (L, R) -> bool, glue: (L, R) -> O): (r: seq<O>)
    ensures forall o :: o in r <==> exists x :: x in rs && on(l, x) && o == glue(l, x)
    ensures forall x :: x in rs && on(l, x) ==> glue(l, x) in r
  {
    if rs == [] then []
    else
      var rest := Matches(l, rs[1..], on, glue);
      assert forall x :: x in rs <==> x == rs[0] || x in rs[1..];
      if on(l, rs[0]) then [glue(l, rs[0])] + rest else rest
  }

  /** An inner merge: every pair of a left row and a right row that satisfies `on`,
      glued into one row. Each left row contributes its matches in turn. */
  function Join<L(==,!new), R(==,!new), O(==,!new)>(ls: seq<L>, rs: seq<R>, on: (L, R) -> bool, glue: (L, R) -> O): (r: seq<O>)
    ensures forall o :: o in r <==> exists l, x :: l in ls && x in rs && on(l, x) && o == glue(l, x)
    ensures forall l, x :: l in ls && x in rs && on(l, x) ==> glue(l, x) in r
  {
    if ls == [] then []
    else
      var here := Matches(ls[0], rs, on, glue);
      var rest := Join(ls[1..], rs, on, glue);
      assert forall l :: l in ls <==> l == ls[0] || l in ls[1..];
      here + rest
  }

  /** No value occurs twice. */
  predicate Distinct<T(==,!new)>(s: seq<T>) {
    forall i, j :: 0 <= i < j < |s| ==> s[i] != s[j]
  }

  /** `drop_duplicates()`: the first occurrence of every value, in order of first occurrence. */
  function Dedup<T(==,!new)>(s: seq<T>): (r: seq<T>)
    ensures forall x :: x in r <==> x in s
    ensures Distinct(r)
    decreases |s|
  {
    if s == [] then []
    else
      var init := s[..|s| - 1];
      var d := Dedup(init);
      assert forall x :: x in s <==> x in init || x == s[|s| - 1];
      if s[|s| - 1] in d then d else d + [s[|s| - 1]]
  }

  /** The position of the first occurrence of `x` in `s`. */
  function IndexOf<T(==)>(s: seq<T>, x: T): (k: nat)
    requires x in s
    ensures k < |s| && s[k] == x && x !in s[..k]
  {
    if s[0] == x then 0
    else
      assert s[1..][..IndexOf(s[1..], x)] == s[1..IndexOf(s[1..], x) + 1];
      1 + IndexOf(s[1..], x)
  }

  /** The first occurrence is the only position with nothing equal before it. */
  lemma IndexOfUnique<T>(s: seq<T>, x: T, k: nat)
    requires k < |s| && s[k] == x && x !in s[..k]
    ensures IndexOf(s, x) == k
  {
  }

  /** Cutting off the last element keeps the first occurrences before it. */
  lemma IndexOfInit<T>(s: seq<T>, x: T)
    requires s != [] && x in s[..|s| - 1]
    ensures x in s && IndexOf(s, x) == IndexOf(s[..|s| - 1], x)
  {
    var k := IndexOf(s[..|s| - 1], x);
    assert s[..k] == s[..|s| - 1][..k];
    IndexOfUnique(s, x, k);
  }

  /** drop_duplicates keeps the rows in the order of their first occurrence. */
  lemma {:induction false} DedupOrder<T(!new)>(s: seq<T>, i: nat, j: nat)
    requires i < j < |Dedup(s)|
    ensures Dedup(s)[i] in s && Dedup(s)[j] in s
    ensures IndexOf(s, Dedup(s)[i]) < IndexOf(s, Dedup(s)[j])
    decreases |s|
  {
    var init := s[..|s| - 1];
    var d := Dedup(init);
    assert Dedup(s)[i] in Dedup(s) && Dedup(s)[j] in Dedup(s);
    assert Dedup(s)[i] == d[i] && d[i] in d;
    IndexOfInit(s, d[i]);
    if j < |d| {
      assert Dedup(s)[j] == d[j] && d[j] in d;
      IndexOfInit(s, d[j]);
      DedupOrder(init, i, j);
    } else {
      assert Dedup(s)[j] == s[|s| - 1] && s[|s| - 1] !in init;
      IndexOfUnique(s, s[|s| - 1], |s| - 1);
    }
  }

  /** A sequence without duplicates is left as it is. */
  lemma {:induction false} DedupOfDistinct<T(!new)>(s: seq<T>)
    requires Distinct(s)
    ensures Dedup(s) == s
    decreases |s|
  {
    if s != [] {
      var init := s[..|s| - 1];
      assert Distinct(init);
      DedupOfDistinct(init);
      assert s[|s| - 1] !in init;
      assert init + [s[|s| - 1]] == s;
    }
  }

  /** Removing duplicates twice gives the same rows as removing them once. */
  lemma DedupIdempotent<T(!new)>(s: seq<T>)
    ensures Dedup(Dedup(s)) == Dedup(s)
  {
    DedupOfDistinct(Dedup(s));
  }

  /** The values of a sequence, as a set. */
  function Elements<T(==,!new)>(s: seq<T>): set<T> {
    set x | x in s
  }

  /** A sequence without duplicates has as many elements as its set of values. */
  lemma {:induction false} DistinctCard<T(!new)>(s: seq<T>)
    requires Distinct(s)
    ensures |Elements(s)| == |s|
    decreases |s|
  {
    if s != [] {
      var init := s[..|s| - 1];
      assert Distinct(init);
      DistinctCard(init);
      assert s[|s| - 1] !in init;
      assert Elements(s) == Elements(init) + {s[|s| - 1]};
    }
  }

  /** After drop_duplicates there is exactly one row per distinct value. */
  lemma DedupCard<T(!new)>(s: seq<T>)
    ensures |Dedup(s)| == |Elements(s)|
  {
    var d := Dedup(s);
    DistinctCard(d);
    assert Elements(d) == Elements(s);
  }
}
