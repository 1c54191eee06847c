/** Named entity linking around the recognition (NER) and disambiguation (NED)
    models of src/entity_linking/nel.py. The models are parameters; what is
    modelled is the mention clean-up and the bookkeeping that packs the
    mentions of all documents into one NED batch and splits the results back
    per document. */
module EntityLinking {

  /** Python's `str.isspace`: the characters `strip()` and `split()` treat as
      whitespace. */
  predicate IsSpace(c: char) {
    c == ' ' || c == '\t' || c == '\n' || c == '\r' || c == '\U{B}' || c == '\U{C}'
    || c == '\U{1C}' || c == '\U{1D}' || c == '\U{1E}' || c == '\U{1F}' || c == '\U{85}' || c == '\U{A0}'
    || c == '\U{1680}' || ('\U{2000}' <= c <= '\U{200A}') || c == '\U{2028}' || c == '\U{2029}'
    || c == '\U{202F}' || c == '\U{205F}' || c == '\U{3000}'
  }

  /** No whitespace at all. */
  predicate Solid(w: string) {
    forall k :: 0 <= k < |w| ==> !IsSpace(w[k])
  }

  /** The length of the run of non-whitespace that starts `s`. */
  function TokenLength(s: string): (n: nat)
    ensures n <= |s| && Solid(s[..n]) && (n < |s| ==> IsSpace(s[n]))
  {
    if s == [] || IsSpace(s[0]) then 0
    else
      var n := 1 + TokenLength(s[1..]);
      assert s[..n] == [s[0]] + s[1..][..n - 1];
      n
  }

  /** Python `s.split()`: the maximal runs of non-whitespace, in order. */
  function Words(s: string): (ws: seq<string>)
    ensures forall k :: 0 <= k < |ws| ==> ws[k] != [] && Solid(ws[k])
    decreases |s|
  {
    if s == [] then []
    else if IsSpace(s[0]) then Words(s[1..])
    else
      var n := TokenLength(s);
      [s[..n]] + Words(s[n..])
  }

  function StripStart(s: string): string
    decreases |s|
  {
    if s != [] && IsSpace(s[0]) then StripStart(s[1..]) else s
  }

  function StripEnd(s: string): string
    decreases |s|
  {
    if s != [] && IsSpace(s[|s| - 1]) then StripEnd(s[..|s| - 1]) else s
  }

  /** Python `s.strip()`. */
  function Strip(s: string): string {
    StripEnd(StripStart(s))
  }

  /** Python `" ".join(words)`. */
  function JoinWords(ws: seq<string>): string {
    if ws == [] then ""
    else if |ws| == 1 then ws[0]
    else ws[0] + " " + JoinWords(ws[1..])
  }

  /** __clean_mention: strip the mention, then rejoin its words with single spaces. */
  function CleanMention(mention: string): string {
    JoinWords(Words(Strip(mention)))
  }

  /** A string as __clean_mention leaves it: no whitespace at either end, and
      inside only single spaces between non-whitespace. */
  predicate Clean(s: string) {
    (s != [] ==> !IsSpace(s[0]) && !IsSpace(s[|s| - 1]))
    && forall k :: 0 <= k < |s| && IsSpace(s[k]) ==> s[k] == ' ' && 0 < k < |s| - 1 && !IsSpace(s[k + 1])
  }

  lemma {:induction false} WordsStripStart(s: string)
    ensures Words(StripStart(s)) == Words(s)
    decreases |s|
  {
    if s != [] && IsSpace(s[0]) {
      WordsStripStart(s[1..]);
    }
  }

  /** Trailing whitespace adds no word. */
  lemma {:induction false} WordsSnocSpace(s: string, c: char)
    requires IsSpace(c)
    ensures Words(s + [c]) == Words(s)
    decreases |s|
  {
    if s == [] {
      assert Words([c]) == Words([]);
    } else if IsSpace(s[0]) {
      assert (s + [c])[1..] == s[1..] + [c];
      WordsSnocSpace(s[1..], c);
    } else {
      var n := TokenLength(s);
      assert TokenLength(s + [c]) == n by {
        TokenLengthExtend(s, c);
      }
      assert (s + [c])[..n] == s[..n];
      assert (s + [c])[n..] == s[n..] + [c];
      WordsSnocSpace(s[n..], c);
    }
  }

  lemma {:induction false} TokenLengthExtend(s: string, c: char)
    requires IsSpace(c)
    ensures TokenLength(s + [c]) == TokenLength(s)
    decreases |s|
  {
    if s != [] && !IsSpace(s[0]) {
      assert (s + [c])[1..] == s[1..] + [c];
      TokenLengthExtend(s[1..], c);
    }
  }

  lemma {:induction false} WordsStripEnd(s: string)
    ensures Words(StripEnd(s)) == Words(s)
    decreases |s|
  {
    if s != [] && IsSpace(s[|s| - 1]) {
      var init := s[..|s| - 1];
      WordsStripEnd(init);
      assert s == init + [s[|s| - 1]];
      WordsSnocSpace(init, s[|s| - 1]);
    }
  }

  /** A word followed by whitespace or nothing splits off as the first word. */
  lemma WordsConsWord(w: string, tail: string)
    requires w != [] && Solid(w)
    requires tail == [] || IsSpace(tail[0])
    ensures Words(w + tail) == [w] + Words(tail)
  {
    TokenOfSolid(w, tail);
    var s := w + tail;
    assert s[..|w|] == w;
    assert s[|w|..] == tail;
  }

  /** Splitting words joined by single spaces gives the words back. */
  lemma {:induction false} WordsOfJoin(ws: seq<string>)
    requires forall k :: 0 <= k < |ws| ==> ws[k] != [] && Solid(ws[k])
    ensures Words(JoinWords(ws)) == ws
  {
    if |ws| == 1 {
      WordsConsWord(ws[0], []);
      assert ws[0] + [] == ws[0];
    } else if |ws| > 1 {
      var rest := JoinWords(ws[1..]);
      WordsOfJoin(ws[1..]);
      WordsConsWord(ws[0], " " + rest);
      assert ws[0] + " " + rest == ws[0] + (" " + rest);
      assert (" " + rest)[1..] == rest;
    }
  }

  /** A word followed by whitespace or nothing is one token. */
  lemma {:induction false} TokenOfSolid(w: string, tail: string)
    requires w != [] && Solid(w)
    requires tail == [] || IsSpace(tail[0])
    ensures TokenLength(w + tail) == |w|
    decreases |w|
  {
    if |w| > 1 {
      assert (w + tail)[1..] == w[1..] + tail;
      TokenOfSolid(w[1..], tail);
    } else {
      assert (w + tail)[1..] == tail;
    }
  }

  /** Words joined by single spaces form a clean string. */
  lemma {:induction false} JoinWordsClean(ws: seq<string>)
    requires forall k :: 0 <= k < |ws| ==> ws[k] != [] && Solid(ws[k])
    ensures Clean(JoinWords(ws))
    ensures ws != [] ==> JoinWords(ws) != [] && !IsSpace(JoinWords(ws)[0])
  {
    if |ws| > 1 {
      var w := ws[0];
      var rest := JoinWords(ws[1..]);
      JoinWordsClean(ws[1..]);
      var s := w + " " + rest;
      forall k | 0 <= k < |s| && IsSpace(s[k])
        ensures s[k] == ' ' && 0 < k < |s| - 1 && !IsSpace(s[k + 1])
      {
        if k > |w| {
          assert s[k] == rest[k - |w| - 1];
          if k - |w| - 1 < |rest| - 1 {
            assert s[k + 1] == rest[k - |w|];
          }
        }
      }
    }
  }

  /** __clean_mention keeps the words of the mention and leaves a clean string. */
  lemma CleanMentionWords(mention: string)
    ensures Words(CleanMention(mention)) == Words(mention)
    ensures Clean(CleanMention(mention))
  {
    WordsStripStart(mention);
    WordsStripEnd(StripStart(mention));
    WordsOfJoin(Words(Strip(mention)));
    JoinWordsClean(Words(Strip(mention)));
  }

  /** Cleaning a clean mention changes nothing more. */
  lemma CleanMentionIdempotent(mention: string)
    ensures CleanMention(CleanMention(mention)) == CleanMention(mention)
  {
    var once := CleanMention(mention);
    CleanMentionWords(mention);
    WordsStripStart(mention);
    WordsStripEnd(StripStart(mention));
    WordsStripStart(once);
    WordsStripEnd(StripStart(once));
  }

  /** A mention the NER model found: its surface text, its span and its label
    (`label` is a Dafny keyword, hence `kind`). */
  datatype Mention = Mention(text: string, start: int, end: int, kind: string)

  /** A document with the mentions found in it, in order. */
  datatype MentionsOfDoc = MentionsOfDoc(text: string, entities: seq<Mention>)

  /** The NER and NED models the linker is built from: `recognize` finds the
      mentions of every document, `formatInput` builds the NED input of one
      mention, `disambiguate` resolves a batch of inputs and `formatOutput`
      turns one NED result into a linked mention. */
  datatype Models<!I, !R, E> = Models(
    recognize: seq<string> -> seq<MentionsOfDoc>,
    formatInput: (string, string, Mention) -> I,
    disambiguate: seq<I> -> seq<R>,
    formatOutput: (R, Mention) -> E)

  /** A slot of a document's result list: the NED result placed there by the
      regrouping, or the linked mention that overwrites it. */
  datatype Slot<R, E> = Raw(result: R) | Linked(entity: E)

  function Sum(s: seq<nat>): nat {
    if s == [] then 0 else Sum(s[..|s| - 1]) + s[|s| - 1]
  }

  /** The concatenation of a list of lists. */
  function Flatten<X>(gs: seq<seq<X>>): seq<X> {
    if gs == [] then [] else Flatten(gs[..|gs| - 1]) + gs[|gs| - 1]
  }

  /** `splits`: the number of mentions of every document. */
  function Splits(dm: seq<MentionsOfDoc>): (splits: seq<nat>) {
    seq(|dm|, d requires 0 <= d < |dm| => |dm[d].entities|)
  }

  /** The NED input of one mention: its cleaned text, in its document's context. */
  function MentionInput<I, R, E>(m: Models<I, R, E>, doc: MentionsOfDoc, mention: Mention): I {
    m.formatInput(CleanMention(mention.text), doc.text, mention)
  }

  /** `mentions_batch`: the NED inputs of all mentions, document by document. */
  function MentionsBatch<I, R, E>(m: Models<I, R, E>, dm: seq<MentionsOfDoc>): seq<I> {
    if dm == [] then []
    else
      var last := dm[|dm| - 1];
      MentionsBatch(m, dm[..|dm| - 1]) + seq(|last.entities|, e requires 0 <= e < |last.entities| => MentionInput(m, last, last.entities[e]))
  }

  /** Python `rs[a:b]` for 0 <= a <= b: bounds past the end are clipped. */
  function Slice<X>(rs: seq<X>, a: nat, b: nat): seq<X>
    requires a <= b
  {
    var lo := if a <= |rs| then a else |rs|;
    var hi := if b <= |rs| then b else |rs|;
    rs[lo..hi]
  }

  /** `rearranged_results`: document d gets the results from position
      splits[0] + ... + splits[d - 1] on, splits[d] of them. */
  function Regroup<X>(rs: seq<X>, splits: seq<nat>): seq<seq<X>> {
    seq(|splits|, d requires 0 <= d < |splits| => Slice(rs, Sum(splits[..d]), Sum(splits[..d]) + splits[d]))
  }

  /** The linked mentions that overwrite the regrouped results. */
  function Formatted<I, R, E>(m: Models<I, R, E>, groups: seq<seq<R>>, dm: seq<MentionsOfDoc>): (r: seq<seq<Slot<R, E>>>)
    requires |groups| == |dm| && forall d :: 0 <= d < |dm| ==> |groups[d]| <= |dm[d].entities|
    ensures |r| == |groups| && forall d :: 0 <= d < |r| ==> |r[d]| == |groups[d]|
    ensures forall d, e :: 0 <= d < |r| && 0 <= e < |r[d]| ==> r[d][e].Linked?
  {
    seq(|groups|, d requires 0 <= d < |groups| =>
      seq(|groups[d]|, e requires 0 <= e < |groups[d]| => Linked(m.formatOutput(groups[d][e], dm[d].entities[e]))))
  }

  /** The regrouped results left as they are: what is returned when there was
      nothing to disambiguate, and every group is then empty. */
  function Unformatted<R, E>(groups: seq<seq<R>>): (r: seq<seq<Slot<R, E>>>)
    ensures |r| == |groups| && forall d :: 0 <= d < |r| ==> |r[d]| == |groups[d]|
    ensures forall d, e :: 0 <= d < |r| && 0 <= e < |r[d]| ==> r[d][e].Raw?
  {
    seq(|groups|, d requires 0 <= d < |groups| => seq(|groups[d]|, e requires 0 <= e < |groups[d]| => Raw(groups[d][e])))
  }

  /** No group is longer than its split. */
  lemma RegroupBounded<X>(rs: seq<X>, splits: seq<nat>)
    ensures |Regroup(rs, splits)| == |splits|
    ensures forall d :: 0 <= d < |splits| ==> |Regroup(rs, splits)[d]| <= splits[d]
  {
  }

  /** What link_entities_in_docs returns: one list per document, never longer
      than the document's mentions, and every slot linked. */
  function LinkEntities<I, R, E>(m: Models<I, R, E>, docs: seq<string>): (r: seq<seq<Slot<R, E>>>)
    ensures |r| == |m.recognize(docs)|
    ensures forall d :: 0 <= d < |r| ==> |r[d]| <= |m.recognize(docs)[d].entities|
    ensures forall d, e :: 0 <= d < |r| && 0 <= e < |r[d]| ==> r[d][e].Linked?
  {
    var dm := m.recognize(docs);
    var batch := MentionsBatch(m, dm);
    if batch != [] then
      var groups := Regroup(m.disambiguate(batch), Splits(dm));
      RegroupBounded(m.disambiguate(batch), Splits(dm));
      Formatted(m, groups, dm)
    else
      var groups := Regroup([], Splits(dm));
      RegroupNothing<R>(Splits(dm));
      Unformatted(groups)
  }

  /** Regrouping no results gives one empty group per document. */
  lemma RegroupNothing<X>(splits: seq<nat>)
    ensures |Regroup<X>([], splits)| == |splits|
    ensures forall d :: 0 <= d < |splits| ==> Regroup<X>([], splits)[d] == []
  {
  }

  lemma SplitsPrefix(dm: seq<MentionsOfDoc>, n: nat)
    requires n <= |dm|
    ensures Splits(dm[..n]) == Splits(dm)[..n]
  {
  }

  /** The batch holds one input per mention: as many as the splits add up to. */
  lemma {:induction false} MentionsBatchCount<I, R, E>(m: Models<I, R, E>, dm: seq<MentionsOfDoc>)
    ensures |MentionsBatch(m, dm)| == Sum(Splits(dm))
    decreases |dm|
  {
    if dm != [] {
      var init := dm[..|dm| - 1];
      MentionsBatchCount(m, init);
      SplitsPrefix(dm, |dm| - 1);
    }
  }

  /** The input of mention e of document d sits in the batch right after the
      mentions of the documents before d. */
  lemma {:induction false} MentionsBatchAt<I, R, E>(m: Models<I, R, E>, dm: seq<MentionsOfDoc>, d: nat, e: nat)
    requires d < |dm| && e < |dm[d].entities|
    ensures Sum(Splits(dm)[..d]) + e < |MentionsBatch(m, dm)|
    ensures MentionsBatch(m, dm)[Sum(Splits(dm)[..d]) + e] == MentionInput(m, dm[d], dm[d].entities[e])
    decreases |dm|
  {
    var init := dm[..|dm| - 1];
    MentionsBatchCount(m, init);
    SplitsPrefix(dm, |dm| - 1);
    if d == |dm| - 1 {
      assert Splits(dm)[..d] == Splits(init);
    } else {
      MentionsBatchAt(m, init, d, e);
      assert Splits(init)[..d] == Splits(dm)[..d];
    }
  }

  /** Prefix sums never exceed the total. */
  lemma {:induction false} SumPrefix(s: seq<nat>, d: nat)
    requires d <= |s|
    ensures Sum(s[..d]) <= Sum(s)
    decreases |s|
  {
    if d < |s| {
      var init := s[..|s| - 1];
      assert s[..d] == init[..d];
      SumPrefix(init, d);
    } else {
      assert s[..d] == s;
    }
  }

  /** When there is one result per mention, document d gets exactly as many
      results as it has mentions. */
  lemma RegroupLengths<X>(rs: seq<X>, splits: seq<nat>)
    requires |rs| == Sum(splits)
    ensures forall d :: 0 <= d < |splits| ==> |Regroup(rs, splits)[d]| == splits[d]
  {
    forall d | 0 <= d < |splits|
      ensures |Regroup(rs, splits)[d]| == splits[d]
    {
      SumStep(splits, d);
      SumPrefix(splits, d + 1);
    }
  }

  lemma {:induction false} RegroupFlattenPrefix<X>(rs: seq<X>, splits: seq<nat>, d: nat)
    requires |rs| == Sum(splits) && d <= |splits|
    ensures Sum(splits[..d]) <= |rs|
    ensures Flatten(Regroup(rs, splits)[..d]) == rs[..Sum(splits[..d])]
  {
    SumPrefix(splits, d);
    if d > 0 {
      var groups := Regroup(rs, splits);
      var a := Sum(splits[..d - 1]);
      var b := Sum(splits[..d]);
      assert a <= b by {
        SumStep(splits, d - 1);
      }
      assert Flatten(groups[..d - 1]) == rs[..a] by {
        RegroupFlattenPrefix(rs, splits, d - 1);
      }
      assert groups[d - 1] == rs[a..b] by {
        SumStep(splits, d - 1);
      }
      calc {
        Flatten(groups[..d]);
        { assert groups[..d][..d - 1] == groups[..d - 1]; }
        Flatten(groups[..d - 1]) + groups[d - 1];
        rs[..a] + rs[a..b];
        { assert rs[..a] + rs[a..b] == rs[..b]; }
        rs[..b];
      }
    }
  }

  /** Regrouping one result per mention and concatenating the groups again
      gives back the NED results, in order. */
  lemma RegroupFlatten<X>(rs: seq<X>, splits: seq<nat>)
    requires |rs| == Sum(splits)
    ensures Flatten(Regroup(rs, splits)) == rs
  {
    RegroupFlattenPrefix(rs, splits, |splits|);
    assert splits[..|splits|] == splits;
    assert Regroup(rs, splits)[..|splits|] == Regroup(rs, splits);
  }

  /** Sum is zero exactly when every part is. */
  lemma {:induction false} SumZero(s: seq<nat>)
    ensures Sum(s) == 0 <==> forall k :: 0 <= k < |s| ==> s[k] == 0
    decreases |s|
  {
    if s != [] {
      SumZero(s[..|s| - 1]);
    }
  }

  /** With one result per mention, slot e of group d is the result at the
      running start of d plus e. */
  lemma RegroupAt<X>(rs: seq<X>, splits: seq<nat>, d: nat, e: nat)
    requires |rs| == Sum(splits) && d < |splits| && e < splits[d]
    ensures Sum(splits[..d]) + e < |rs|
    ensures |Regroup(rs, splits)[d]| == splits[d]
    ensures Regroup(rs, splits)[d][e] == rs[Sum(splits[..d]) + e]
  {
    SumStep(splits, d);
    SumPrefix(splits, d + 1);
  }

  /** When the NED returns one result per input, mention e of document d is
      linked from the result of its own input, and to that mention. */
  lemma LinkAligned<I, R, E>(m: Models<I, R, E>, docs: seq<string>, d: nat, e: nat)
    requires var dm := m.recognize(docs); |m.disambiguate(MentionsBatch(m, dm))| == |MentionsBatch(m, dm)|
    requires d < |m.recognize(docs)| && e < |m.recognize(docs)[d].entities|
    ensures var dm := m.recognize(docs);
      var batch := MentionsBatch(m, dm);
      var p := Sum(Splits(dm)[..d]) + e;
      p < |batch|
      && batch[p] == MentionInput(m, dm[d], dm[d].entities[e])
      && e < |LinkEntities(m, docs)[d]|
      && LinkEntities(m, docs)[d][e] == Linked(m.formatOutput(m.disambiguate(batch)[p], dm[d].entities[e]))
  {
    var dm := m.recognize(docs);
    var batch := MentionsBatch(m, dm);
    var splits := Splits(dm);
    var found := m.disambiguate(batch);
    var p := Sum(splits[..d]) + e;
    assert p < |batch| && batch[p] == MentionInput(m, dm[d], dm[d].entities[e]) by {
      MentionsBatchAt(m, dm, d, e);
    }
    assert |found| == Sum(splits) by {
      MentionsBatchCount(m, dm);
    }
    assert e < |Regroup(found, splits)[d]| && Regroup(found, splits)[d][e] == found[p] by {
      RegroupAt(found, splits, d, e);
    }
    LinkEntitiesAt(m, docs, d, e);
  }

  /** With a non-empty batch, slot e of document d is the formatted result
      that the regrouping put there. */
  lemma LinkEntitiesAt<I, R, E>(m: Models<I, R, E>, docs: seq<string>, d: nat, e: nat)
    requires MentionsBatch(m, m.recognize(docs)) != []
    requires d < |m.recognize(docs)|
    requires e < |Regroup(m.disambiguate(MentionsBatch(m, m.recognize(docs))), Splits(m.recognize(docs)))[d]|
    ensures e < |LinkEntities(m, docs)[d]|
    ensures var dm := m.recognize(docs);
      e < |dm[d].entities|
      && LinkEntities(m, docs)[d][e]
         == Linked(m.formatOutput(Regroup(m.disambiguate(MentionsBatch(m, dm)), Splits(dm))[d][e], dm[d].entities[e]))
  {
    var dm := m.recognize(docs);
    var found := m.disambiguate(MentionsBatch(m, dm));
    RegroupBounded(found, Splits(dm));
  }

  /** The NED sees an empty batch exactly when no document has a mention; the
      result is then one empty list per document. */
  lemma NoMentions<I, R, E>(m: Models<I, R, E>, docs: seq<string>)
    ensures var dm := m.recognize(docs);
      MentionsBatch(m, dm) == [] <==> forall d :: 0 <= d < |dm| ==> dm[d].entities == []
    ensures MentionsBatch(m, m.recognize(docs)) == [] ==>
      forall d :: 0 <= d < |LinkEntities(m, docs)| ==> LinkEntities(m, docs)[d] == []
  {
    var dm := m.recognize(docs);
    MentionsBatchCount(m, dm);
    SumZero(Splits(dm));
    assert forall k :: 0 <= k < |dm| ==> (Splits(dm)[k] == 0 <==> dm[k].entities == []);
  }

  /** The first loop of link_entities_in_docs: records every document's
      mention count and appends the NED input of each of its mentions. */
  method CollectMentions<I, R, E>(m: Models<I, R, E>, dm: seq<MentionsOfDoc>) returns (splits: seq<nat>, batch: seq<I>)
    ensures splits == Splits(dm)
    ensures batch == MentionsBatch(m, dm)
  {
    splits := [];
    batch := [];
    for d := 0 to |dm|
      invariant splits == Splits(dm[..d])
      invariant batch == MentionsBatch(m, dm[..d])
    {
      var doc := dm[d];
      splits := splits + [|doc.entities|];
      ghost var before := batch;
      for e := 0 to |doc.entities|
        invariant batch == before + seq(e, k requires 0 <= k < e => MentionInput(m, doc, doc.entities[k]))
      {
        batch := batch + [m.formatInput(CleanMention(doc.entities[e].text), doc.text, doc.entities[e])];
      }
      assert dm[..d + 1][..d] == dm[..d];
    }
    assert dm[..|dm|] == dm;
  }

  lemma SumStep(s: seq<nat>, d: nat)
    requires d < |s|
    ensures Sum(s[..d + 1]) == Sum(s[..d]) + s[d]
  {
    assert s[..d + 1][..d] == s[..d];
  }

  /** The regrouping loop: a `start` offset walks the results split by split. */
  method RegroupResults<X>(found: seq<X>, splits: seq<nat>) returns (groups: seq<seq<X>>)
    ensures groups == Regroup(found, splits)
  {
    var start: nat := 0;
    groups := [];
    for d := 0 to |splits|
      invariant start == Sum(splits[..d])
      invariant |groups| == d
      invariant forall t :: 0 <= t < d ==> groups[t] == Regroup(found, splits)[t]
    {
      groups := groups + [Slice(found, start, start + splits[d])];
      SumStep(splits, d);
      start := start + splits[d];
    }
  }

  /** The overwriting loop: slot e of document d becomes the linked mention
      formatted from the NED result there and the e-th mention of d. */
  method FormatResults<I, R, E>(m: Models<I, R, E>, groups: seq<seq<R>>, dm: seq<MentionsOfDoc>)
    returns (results: seq<seq<Slot<R, E>>>)
    requires |groups| == |dm| && forall d :: 0 <= d < |dm| ==> |groups[d]| <= |dm[d].entities|
    ensures results == Formatted(m, groups, dm)
  {
    results := Unformatted(groups);
    for d := 0 to |results|
      invariant |results| == |groups|
      invariant forall t :: 0 <= t < |groups| ==> |results[t]| == |groups[t]|
      invariant forall t, e :: 0 <= t < d && 0 <= e < |groups[t]| ==>
        results[t][e] == Linked(m.formatOutput(groups[t][e], dm[t].entities[e]))
      invariant forall t, e :: d <= t < |groups| && 0 <= e < |groups[t]| ==> results[t][e] == Raw(groups[t][e])
    {
      for e := 0 to |results[d]|
        invariant |results| == |groups|
        invariant forall t :: 0 <= t < |groups| ==> |results[t]| == |groups[t]|
        invariant forall t, k :: 0 <= t < d && 0 <= k < |groups[t]| ==>
          results[t][k] == Linked(m.formatOutput(groups[t][k], dm[t].entities[k]))
        invariant forall t, k :: d < t < |groups| && 0 <= k < |groups[t]| ==> results[t][k] == Raw(groups[t][k])
        invariant forall k :: 0 <= k < e ==> results[d][k] == Linked(m.formatOutput(groups[d][k], dm[d].entities[k]))
        invariant forall k :: e <= k < |groups[d]| ==> results[d][k] == Raw(groups[d][k])
      {
        var linked := m.formatOutput(results[d][e].result, dm[d].entities[e]);
        results := results[d := results[d][e := Linked(linked)]];
      }
    }
    forall t | 0 <= t < |groups|
      ensures results[t] == Formatted(m, groups, dm)[t]
    {
    }
  }

  /** link_entities_in_docs. */
  method LinkEntitiesInDocs<I, R, E>(m: Models<I, R, E>, docs: seq<string>) returns (results: seq<seq<Slot<R, E>>>)
    ensures results == LinkEntities(m, docs)
  {
    var dm := m.recognize(docs);
    var splits, batch := CollectMentions(m, dm);
    var found := if batch != [] then m.disambiguate(batch) else [];
    var groups := RegroupResults(found, splits);
    RegroupBounded(found, splits);
    if batch != [] {
      results := FormatResults(m, groups, dm);
    } else {
      results := Unformatted(groups);
    }
  }
}
