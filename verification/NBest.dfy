/** Ordering of n-best answers: buckets by confidence, a selection sort by grammar precedence in each
    bucket, and emission of whole answers until enough instances are out. */
module NBest {
  import opened Wrappers
  import opened GrammarLedger
  import opened LedgerLaws
  import opened GrammarPrecedence
  import opened GrammarTables

  /** An <instance> element; without data it stands for the input text. */
  datatype Instance = Empty | Data(id: nat, wellFormed: bool)

  datatype Interpretation =
    | Malformed
    | NoInput
    | NoMatch
    | Said(text: string, confidence: real, grammar: Option<nat>, instances: seq<Instance>)

  /** An AnswerHolder: grammarInfo is the sequence number of the matched grammar. */
  datatype Answer = Answer(text: string, confidence: real, grammarInfo: nat, doms: seq<Instance>, texts: nat)

  /** One element of lastresult$: an instance, or the input text. */
  datatype Entry = Entry(answer: Answer, instance: Instance)

  datatype Bucket = Bucket(confidence: real, answers: seq<Answer>)

  // ----- Answers and entries -----

  function WithData(s: seq<Instance>): seq<Instance> {
    if s == [] then []
    else WithData(s[..|s| - 1]) + (if s[|s| - 1].Data? then [s[|s| - 1]] else [])
  }

  function Empties(s: seq<Instance>): nat {
    if s == [] then 0 else Empties(s[..|s| - 1]) + (if s[|s| - 1].Data? then 0 else 1)
  }

  function AnswerOf(i: Interpretation, grammarInfo: nat): Answer
    requires i.Said?
  {
    Answer(i.text, i.confidence, grammarInfo, WithData(i.instances), if i.instances == [] then 1 else Empties(i.instances))
  }

  /** An answer with any instance that is only text shows none that has data. */
  function Entries(a: Answer): (r: seq<Entry>)
    ensures |r| == if a.texts > 0 then a.texts else |a.doms|
  {
    if a.texts > 0 then seq(a.texts, i => Entry(a, Empty))
    else seq(|a.doms|, i requires 0 <= i < |a.doms| => Entry(a, a.doms[i]))
  }

  function Flat(order: seq<Answer>): seq<Entry> {
    if order == [] then [] else Flat(order[..|order| - 1]) + Entries(order[|order| - 1])
  }

  predicate Settable(e: Entry) {
    e.instance.Data? ==> e.instance.wellFormed
  }

  lemma {:induction false} SomeEntry(s: seq<Instance>)
    ensures |WithData(s)| + Empties(s) == |s|
  {
    if s != [] { SomeEntry(s[..|s| - 1]); }
  }

  lemma AnswerHasEntry(i: Interpretation, g: nat)
    requires i.Said?
    ensures Entries(AnswerOf(i, g)) != []
  {
    SomeEntry(i.instances);
  }

  /** Every instance of an answer gets an entry, and an answer without instances one for its text,
      unless it has both instances with data and instances without. */
  lemma EntriesAreAll(i: Interpretation, g: nat)
    requires i.Said?
    ensures |Entries(AnswerOf(i, g))| == (if i.instances == [] then 1 else |i.instances|)
            <==> WithData(i.instances) == [] || Empties(i.instances) == 0
  {
    SomeEntry(i.instances);
  }

  /** An empty instance beside one with data: only the input text is shown. */
  lemma EmptyInstanceHidesData(g: nat, text: string, c: real)
    ensures var i := Said(text, c, Some(0), [Empty, Data(7, true)]);
            Entries(AnswerOf(i, g)) == [Entry(AnswerOf(i, g), Empty)]
  {
    var s := [Empty, Data(7, true)];
    assert s[..1] == [Empty] && [Empty][..0] == [];
    assert Empties([Empty]) == 1;
    assert Empties(s) == 1;
  }

  /** The instances of an interpretation that its answer shows: all, in order, if all have data; else
      one without data for each that has none, or one in all if there are no instances. */
  function Shown(s: seq<Instance>): seq<Instance> {
    if s == [] then [Empty] else if Empty in s then seq(multiset(s)[Empty], _ => Empty) else s
  }

  function Shows(a: Answer, s: seq<Instance>): seq<Entry> {
    seq(|s|, k requires 0 <= k < |s| => Entry(a, s[k]))
  }

  lemma {:induction false} CountEmpties(s: seq<Instance>)
    ensures Empties(s) == multiset(s)[Empty]
    ensures Empty !in s ==> WithData(s) == s
  {
    if s != [] {
      var n := |s| - 1;
      CountEmpties(s[..n]);
      assert s == s[..n] + [s[n]];
    }
  }

  /** Each instance has its own entry, with the answer, in order, when all have data; with an instance
      without data, every entry is for the input text. */
  lemma EntriesShow(i: Interpretation, g: nat)
    requires i.Said?
    ensures Entries(AnswerOf(i, g)) == Shows(AnswerOf(i, g), Shown(i.instances))
  {
    CountEmpties(i.instances);
    assert Empty in i.instances <==> multiset(i.instances)[Empty] > 0;
  }

  // ----- Order -----

  /** AnswerHolder::operator<, true as well for equals. */
  ghost predicate Less(l: Ledger, x: Answer, y: Answer) {
    x.confidence < y.confidence || (x.confidence == y.confidence && Compare(l, x.grammarInfo, y.grammarInfo) != -1)
  }

  /** x may stand before y: more confident, or as confident and not of lower precedence. */
  ghost predicate MayPrecede(l: Ledger, x: Answer, y: Answer) {
    x.confidence > y.confidence
    || (x.confidence == y.confidence
        && (Rank(l, x.grammarInfo) < Rank(l, y.grammarInfo)
            || (Rank(l, x.grammarInfo) == Rank(l, y.grammarInfo) && x.grammarInfo <= y.grammarInfo)))
  }

  ghost predicate Ordered(l: Ledger, s: seq<Answer>) {
    forall p, q :: 0 <= p < q < |s| ==> MayPrecede(l, s[p], s[q])
  }

  ghost predicate Matches(l: Ledger, s: seq<Answer>) {
    forall a :: a in s ==> EnabledNumber(l, a.grammarInfo)
  }

  ghost predicate SameConfidence(s: seq<Answer>, c: real) {
    forall a :: a in s ==> a.confidence == c
  }

  /** On answers of one confidence, the comparison the sort uses is the intended order. */
  lemma LessIsOrder(l: Ledger, x: Answer, y: Answer)
    requires Consistent(l) && EnabledNumber(l, x.grammarInfo) && EnabledNumber(l, y.grammarInfo)
    requires x.confidence == y.confidence
    ensures Less(l, x, y) <==> MayPrecede(l, x, y)
    ensures MayPrecede(l, x, y) || MayPrecede(l, y, x)
  {
    hide Consistent, Rank, EnabledNumber;
    PrecedenceIsTotal(l, x.grammarInfo, y.grammarInfo, x.grammarInfo);
  }

  /** The same of the grammars' entries: more confident, or as confident and of the same grammar or of
      one that has precedence. */
  ghost predicate Outranks(l: Ledger, x: Answer, y: Answer) {
    x.confidence > y.confidence
    || (x.confidence == y.confidence && (x.grammarInfo == y.grammarInfo || Before(l, x.grammarInfo, y.grammarInfo)))
  }

  lemma MayPrecedeIs(l: Ledger, x: Answer, y: Answer)
    requires Consistent(l) && EnabledNumber(l, x.grammarInfo) && EnabledNumber(l, y.grammarInfo)
    ensures MayPrecede(l, x, y) <==> Outranks(l, x, y)
  {
    hide Consistent, Rank, EnabledNumber, Before;
    PrecedenceIsTotal(l, x.grammarInfo, y.grammarInfo, x.grammarInfo);
    CompareIsBefore(l, x.grammarInfo, y.grammarInfo);
  }

  ghost predicate InPrecedence(l: Ledger, s: seq<Answer>) {
    forall p, q :: 0 <= p < q < |s| ==> Outranks(l, s[p], s[q])
  }

  lemma OrderedIs(l: Ledger, s: seq<Answer>)
    requires Consistent(l) && Matches(l, s)
    ensures Ordered(l, s) <==> InPrecedence(l, s)
  {
    hide Consistent, EnabledNumber, MayPrecede, Outranks;
    forall p, q | 0 <= p < q < |s| ensures MayPrecede(l, s[p], s[q]) <==> Outranks(l, s[p], s[q]) {
      MayPrecedeIs(l, s[p], s[q]);
    }
  }

  method LessThan(gm: GrammarManager, x: Answer, y: Answer) returns (r: bool)
    requires gm.Valid()
    ensures r == Less(gm.View(), x, y)
  {
    if x.confidence < y.confidence { return true; }
    if x.confidence > y.confidence { return false; }
    var c := gm.CompareGrammar(x.grammarInfo, y.grammarInfo);
    r := c != -1;
  }

  /** The selection sort of one bucket. */
  method SortBucket(gm: GrammarManager, answers: seq<Answer>, ghost c: real) returns (a: seq<Answer>)
    requires gm.Valid() && Matches(gm.View(), answers) && SameConfidence(answers, c)
    ensures multiset(a) == multiset(answers) && Ordered(gm.View(), a)
  {
    hide Consistent, Rank, EnabledNumber, Less, MayPrecede;
    a := answers;
    ghost var l := gm.View();
    var vsize := |a|;
    if vsize <= 1 { return; }
    var i := 0;
    while i < vsize
      invariant 0 <= i <= vsize == |a|
      invariant multiset(a) == multiset(answers)
      invariant forall p, q :: 0 <= p < i && p < q < vsize ==> MayPrecede(l, a[p], a[q])
    {
      InBucket(l, answers, a, c);
      var min := LeastFrom(gm, a, i, c);
      ghost var was := a;
      a := a[min := a[i]][i := a[min]];
      SwapKeeps(was, i, min);
      i := i + 1;
    }
  }

  // The inner loop: one that may precede all from i on.
  method LeastFrom(gm: GrammarManager, a: seq<Answer>, i: nat, ghost c: real) returns (min: nat)
    requires gm.Valid() && Matches(gm.View(), a) && SameConfidence(a, c) && i < |a|
    ensures i <= min < |a| && forall q :: i <= q < |a| && q != min ==> MayPrecede(gm.View(), a[min], a[q])
  {
    hide Consistent, Rank, EnabledNumber, Less, MayPrecede;
    ghost var l := gm.View();
    min := i;
    var j := i + 1;
    while j < |a|
      invariant i <= min < j <= |a|
      invariant forall q :: i <= q < j && q != min ==> MayPrecede(l, a[min], a[q])
    {
      var less := LessThan(gm, a[j], a[min]);
      LessIsOrder(l, a[j], a[min]);
      if less {
        forall q | i <= q < j && q != min ensures MayPrecede(l, a[j], a[q]) {
          PrecedesThrough(l, a[j], a[min], a[q]);
        }
        min := j;
      }
      j := j + 1;
    }
  }

  lemma PrecedesThrough(l: Ledger, x: Answer, y: Answer, z: Answer)
    requires MayPrecede(l, x, y) && MayPrecede(l, y, z)
    ensures MayPrecede(l, x, z)
  {
    hide Rank;
  }

  lemma InBucket(l: Ledger, s: seq<Answer>, a: seq<Answer>, c: real)
    requires multiset(a) == multiset(s) && Matches(l, s) && SameConfidence(s, c)
    ensures Matches(l, a) && SameConfidence(a, c)
  {
    forall x | x in a ensures x in s {
      assert x in multiset(a);
    }
  }

  lemma SwapKeeps(a: seq<Answer>, i: nat, j: nat)
    requires i < |a| && j < |a|
    ensures multiset(a[j := a[i]][i := a[j]]) == multiset(a)
  {
    var b := a[j := a[i]];
    assert multiset(b) == multiset(a) - multiset{a[j]} + multiset{a[i]};
  }

  // ----- Buckets -----

  ghost predicate Descending(m: seq<Bucket>) {
    && (forall p, q :: 0 <= p < q < |m| ==> m[p].confidence > m[q].confidence)
    && (forall p :: 0 <= p < |m| ==> m[p].answers != [] && SameConfidence(m[p].answers, m[p].confidence))
  }

  function Joined(m: seq<Bucket>): seq<Answer> {
    if m == [] then [] else Joined(m[..|m| - 1]) + m[|m| - 1].answers
  }

  lemma {:induction false} JoinedSplit(m: seq<Bucket>, n: seq<Bucket>)
    ensures Joined(m + n) == Joined(m) + Joined(n)
  {
    if n == [] {
      assert m + n == m;
    } else {
      assert (m + n)[..|m + n| - 1] == m + n[..|n| - 1];
      JoinedSplit(m, n[..|n| - 1]);
    }
  }

  lemma JoinedOne(b: Bucket)
    ensures Joined([b]) == b.answers
  {
    assert [b][..0] == [];
  }

  lemma JoinedAround(m: seq<Bucket>, b: Bucket, n: seq<Bucket>)
    ensures Joined(m + [b] + n) == Joined(m) + b.answers + Joined(n)
  {
    JoinedSplit(m, [b]);
    JoinedSplit(m + [b], n);
    JoinedOne(b);
  }

  /** Appends the answer to the bucket of its confidence, or opens that bucket in its place. */
  method AddAnswer(m: seq<Bucket>, a: Answer) returns (r: seq<Bucket>)
    requires Descending(m)
    ensures Descending(r) && multiset(Joined(r)) == multiset(Joined(m)) + multiset{a} && r != []
  {
    hide Joined, SameConfidence;
    var k := 0;
    while k < |m| && m[k].confidence > a.confidence
      invariant 0 <= k <= |m|
      invariant forall p :: 0 <= p < k ==> m[p].confidence > a.confidence
    {
      k := k + 1;
    }
    if k < |m| && m[k].confidence == a.confidence {
      r := m[k := Bucket(a.confidence, m[k].answers + [a])];
      AppendedTo(m, k, a);
    } else {
      r := m[..k] + [Bucket(a.confidence, [a])] + m[k..];
      OpenedAt(m, k, a);
      OpenedAdds(m, k, a);
    }
  }

  lemma AppendedTo(m: seq<Bucket>, k: nat, a: Answer)
    requires Descending(m) && k < |m| && m[k].confidence == a.confidence
    ensures var r := m[k := Bucket(a.confidence, m[k].answers + [a])];
            Descending(r) && multiset(Joined(r)) == multiset(Joined(m)) + multiset{a}
  {
    hide Joined;
    var b := Bucket(a.confidence, m[k].answers + [a]);
    var r := m[k := b];
    assert r == m[..k] + [b] + m[k + 1..] && m == m[..k] + [m[k]] + m[k + 1..];
    JoinedAround(m[..k], b, m[k + 1..]);
    JoinedAround(m[..k], m[k], m[k + 1..]);
  }

  lemma OpenedAt(m: seq<Bucket>, k: nat, a: Answer)
    requires Descending(m) && k <= |m| && (k < |m| ==> m[k].confidence < a.confidence)
    requires forall p :: 0 <= p < k ==> m[p].confidence > a.confidence
    ensures Descending(m[..k] + [Bucket(a.confidence, [a])] + m[k..])
  {
    hide SameConfidence;
    OneConfidence(a);
  }

  lemma OpenedAdds(m: seq<Bucket>, k: nat, a: Answer)
    requires k <= |m|
    ensures multiset(Joined(m[..k] + [Bucket(a.confidence, [a])] + m[k..])) == multiset(Joined(m)) + multiset{a}
  {
    hide Joined;
    JoinedAround(m[..k], Bucket(a.confidence, [a]), m[k..]);
    JoinedSplit(m[..k], m[k..]);
    assert m == m[..k] + m[k..];
  }

  lemma OneConfidence(a: Answer)
    ensures SameConfidence([a], a.confidence)
  {
  }

  method SortBuckets(gm: GrammarManager, m: seq<Bucket>) returns (r: seq<Bucket>)
    requires gm.Valid() && Descending(m) && Matches(gm.View(), Joined(m))
    ensures multiset(Joined(r)) == multiset(Joined(m)) && Ordered(gm.View(), Joined(r)) && Descending(r) && |r| == |m|
  {
    hide EnabledNumber, MayPrecede, Ordered, Joined, Matches, SameConfidence, Descending;
    r := m;
    ghost var l := gm.View();
    var it := 0;
    while it < |r|
      invariant 0 <= it <= |r| == |m| && Descending(r)
      invariant multiset(Joined(r)) == multiset(Joined(m))
      invariant forall p :: 0 <= p < it ==> Ordered(l, r[p].answers)
    {
      InJoined(l, m, r, it);
      BucketAgrees(r, it);
      var a := SortBucket(gm, r[it].answers, r[it].confidence);
      ReplaceBucket(r, it, a);
      r := r[it := Bucket(r[it].confidence, a)];
      it := it + 1;
    }
    JoinedOrdered(l, r);
  }

  lemma BucketAgrees(m: seq<Bucket>, i: nat)
    requires i < |m| && Descending(m)
    ensures SameConfidence(m[i].answers, m[i].confidence)
  {
    hide SameConfidence;
  }

  lemma InJoined(l: Ledger, m: seq<Bucket>, r: seq<Bucket>, i: nat)
    requires multiset(Joined(r)) == multiset(Joined(m)) && Matches(l, Joined(m)) && i < |r|
    ensures Matches(l, r[i].answers)
  {
    hide EnabledNumber;
    hide Joined;
    assert r == r[..i] + [r[i]] + r[i + 1..];
    JoinedAround(r[..i], r[i], r[i + 1..]);
    forall a | a in r[i].answers ensures a in Joined(m) {
      assert a in Joined(r);
      assert a in multiset(Joined(r));
    }
  }

  lemma ReplaceBucket(r: seq<Bucket>, i: nat, a: seq<Answer>)
    requires i < |r| && multiset(a) == multiset(r[i].answers) && Descending(r)
    ensures var s := r[i := Bucket(r[i].confidence, a)];
            multiset(Joined(s)) == multiset(Joined(r)) && Descending(s)
  {
    hide Joined;
    var b := Bucket(r[i].confidence, a);
    var s := r[i := b];
    assert r == r[..i] + [r[i]] + r[i + 1..] && s == r[..i] + [b] + r[i + 1..];
    JoinedAround(r[..i], r[i], r[i + 1..]);
    JoinedAround(r[..i], b, r[i + 1..]);
    assert |a| == |multiset(a)| == |r[i].answers|;
    forall x | x in a ensures x in r[i].answers {
      assert x in multiset(a);
    }
  }

  lemma {:induction false} JoinedOrdered(l: Ledger, m: seq<Bucket>)
    requires Descending(m) && forall p :: 0 <= p < |m| ==> Ordered(l, m[p].answers)
    ensures Ordered(l, Joined(m))
    ensures forall a :: a in Joined(m) ==> m != [] && a.confidence >= m[|m| - 1].confidence
  {
    hide Rank;
    if m != [] {
      var n := |m| - 1;
      JoinedOrdered(l, m[..n]);
      var before, last := Joined(m[..n]), m[n].answers;
      assert forall a :: a in before ==> a.confidence > m[n].confidence;
      forall p, q | 0 <= p < q < |before + last| ensures MayPrecede(l, (before + last)[p], (before + last)[q]) {
        if q < |before| {
          assert MayPrecede(l, before[p], before[q]);
        } else if p < |before| {
          assert before[p] in before && last[q - |before|] in last;
        } else {
          assert MayPrecede(l, last[p - |before|], last[q - |before|]);
        }
      }
    }
  }

  // ----- Emission -----

  /** Appends the entries of one answer: its input text as often as it has instances without data; if
      it has none of those, its instances with data, in order, up to the first that cannot be set. */
  method SetUpNBestList(a: Answer, out: seq<Entry>) returns (ok: bool, r: seq<Entry>)
    ensures a.texts > 0 ==> ok && r == out + seq(a.texts, _ => Entry(a, Empty))
    ensures a.texts == 0 && ok ==>
              && |r| == |out| + |a.doms| && r[..|out|] == out
              && forall k :: 0 <= k < |a.doms| ==> r[|out| + k] == Entry(a, a.doms[k])
    ensures ok <==> forall e :: e in Entries(a) ==> Settable(e)
    ensures ok ==> r == out + Entries(a)
    ensures !ok ==> UpToUnsettable(out, Entries(a), r)
  {
    r := out;
    ok := true;
    var pos := 0;
    if a.texts == 0 {
      while pos < |a.doms|
        invariant 0 <= pos <= |a.doms| && r == out + Entries(a)[..pos]
        invariant forall k :: 0 <= k < pos ==> Settable(Entries(a)[k])
      {
        assert Entries(a)[pos] == Entry(a, a.doms[pos]) && Entries(a)[pos] in Entries(a);
        if a.doms[pos].Data? && !a.doms[pos].wellFormed { return false, r; }
        r := r + [Entry(a, a.doms[pos])];
        pos := pos + 1;
      }
    } else {
      while pos < a.texts
        invariant 0 <= pos <= a.texts && r == out + Entries(a)[..pos]
      {
        r := r + [Entry(a, Empty)];
        pos := pos + 1;
      }
    }
  }

  /** r is out with the entries before the first unsettable one. */
  ghost predicate UpToUnsettable(out: seq<Entry>, entries: seq<Entry>, r: seq<Entry>) {
    exists n {:trigger entries[..n]} :: 0 <= n < |entries| && r == out + entries[..n] && !Settable(entries[n])
                                         && forall k :: 0 <= k < n ==> Settable(entries[k])
  }

  /** The number of leading answers that are emitted: as few as make maxnbest entries, but one. */
  ghost predicate Enough(order: seq<Answer>, k: nat, maxnbest: int) {
    && 1 <= k <= |order|
    && (k == |order| || |Flat(order[..k])| >= maxnbest)
    && forall j :: 1 <= j < k ==> |Flat(order[..j])| < maxnbest
  }

  /** What is emitted for an order: all of the leading answers, or only what precedes a failure. */
  ghost predicate Emitted(order: seq<Answer>, maxnbest: int, ok: bool, out: seq<Entry>) {
    exists k: nat :: Enough(order, k, maxnbest)
                     && (if ok then out == Flat(order[..k]) && AllSettable(out)
                         else UpToUnsettable([], Flat(order[..k]), out))
  }

  ghost predicate AllSettable(es: seq<Entry>) {
    forall e :: e in es ==> Settable(e)
  }

  lemma FlatStep(order: seq<Answer>, i: nat)
    requires i < |order|
    ensures Flat(order[..i + 1]) == Flat(order[..i]) + Entries(order[i])
  {
    assert order[..i + 1][..i] == order[..i];
  }

  // The smallest sufficient number of answers exists.
  lemma {:induction false} SomeAreEnough(order: seq<Answer>, from: nat, maxnbest: int) returns (k: nat)
    requires 1 <= from <= |order| && forall j :: 1 <= j < from ==> |Flat(order[..j])| < maxnbest
    ensures from <= k && Enough(order, k, maxnbest)
    decreases |order| - from
  {
    if from == |order| || |Flat(order[..from])| >= maxnbest {
      k := from;
    } else {
      k := SomeAreEnough(order, from + 1, maxnbest);
    }
  }

  lemma {:induction false} FlatGrows(order: seq<Answer>, i: nat, k: nat)
    requires i <= k <= |order|
    ensures Flat(order[..i]) <= Flat(order[..k])
    decreases k - i
  {
    if i < k {
      FlatGrows(order, i + 1, k);
      FlatStep(order, i);
    }
  }

  // A failure in answer i shows in what is emitted.
  lemma FailureShows(order: seq<Answer>, i: nat, maxnbest: int, out: seq<Entry>)
    requires i < |order| && AllSettable(Flat(order[..i])) && UpToUnsettable(Flat(order[..i]), Entries(order[i]), out)
    requires forall j :: 1 <= j <= i ==> |Flat(order[..j])| < maxnbest
    ensures Emitted(order, maxnbest, false, out)
  {
    hide Settable, Entries, Flat;
    var k := SomeAreEnough(order, i + 1, maxnbest);
    FlatGrows(order, i + 1, k);
    FlatStep(order, i);
    var before, own, full := Flat(order[..i]), Entries(order[i]), Flat(order[..k]);
    var n :| 0 <= n < |own| && out == before + own[..n] && !Settable(own[n]) && forall k :: 0 <= k < n ==> Settable(own[k]);
    var p := |before| + n;
    assert full[..|before + own|] == before + own;
    assert full[p] == (before + own)[p] == own[n];
    assert full[..p] == (before + own)[..p] == out;
    forall q | 0 <= q < p ensures Settable(full[q]) {
      assert full[q] == (before + own)[q];
      if q < |before| { assert before[q] in before; }
    }
    assert out == [] + full[..p];
  }

  /** Emits the answers of the ordered buckets until enough entries are out. */
  method EmitBuckets(m: seq<Bucket>, maxnbest: int) returns (ok: bool, out: seq<Entry>, best: Option<Answer>)
    requires Joined(m) != []
    requires forall a :: a in Joined(m) ==> Entries(a) != []
    ensures best == Some(Joined(m)[0]) && Emitted(Joined(m), maxnbest, ok, out)
  {
    hide Settable, Entries, Joined, Flat;
    ghost var order := Joined(m);
    out, best := [], None;
    ok := true;
    var done := false;
    ghost var i := 0;
    var it := 0;
    FlatNone(order);
    JoinedNone(m);
    while !done && it < |m|
      invariant 0 <= it <= |m| && i <= |order|
      invariant !done ==> order[..i] == Joined(m[..it])
      invariant done ==> 1 <= i && |Flat(order[..i])| >= maxnbest
      invariant Emitting(order, i, maxnbest, done, out, best)
    {
      var a := m[it].answers;
      JoinedStep(m, it);
      ghost var start := i;
      var p := 0;
      while !done && p < |a|
        invariant 0 <= p <= |a| && i == start + p && i <= |order|
        invariant done ==> 1 <= i && |Flat(order[..i])| >= maxnbest
        invariant Emitting(order, i, maxnbest, done, out, best)
      {
        assert order[i] == a[p] by { assert order[..start + |a|][start + p] == a[p]; }
        if |out| == 0 { best := Some(a[p]); }
        ghost var was := out;
        ok, out := SetUpNBestList(a[p], out);
        if !ok {
          FailureShows(order, i, maxnbest, out);
          return;
        }
        EmitOne(order, i, maxnbest, was, out, best);
        if |out| > maxnbest - 1 { done := true; }
        p := p + 1;
        i := i + 1;
      }
      it := it + 1;
    }
    assert m[..it] == m || done;
    if !done { assert order[..i] == order && i == |order|; }
    assert Enough(order, i, maxnbest);
  }

  ghost predicate Emitting(order: seq<Answer>, i: nat, maxnbest: int, done: bool, out: seq<Entry>, best: Option<Answer>) {
    && i <= |order|
    && out == Flat(order[..i]) && AllSettable(out)
    && (i == 0 <==> out == [])
    && (i > 0 ==> best == Some(order[0]))
    && (forall j :: 1 <= j < i ==> |Flat(order[..j])| < maxnbest)
    && (!done && i >= 1 ==> |Flat(order[..i])| < maxnbest)
  }

  lemma EmitOne(order: seq<Answer>, i: nat, maxnbest: int, was: seq<Entry>, out: seq<Entry>, best: Option<Answer>)
    requires i < |order| && was == Flat(order[..i]) && AllSettable(was) && (i == 0 <==> was == [])
    requires out == was + Entries(order[i]) && Entries(order[i]) != []
    requires forall e :: e in Entries(order[i]) ==> Settable(e)
    requires best == Some(order[0])
    requires forall j :: 1 <= j <= i ==> |Flat(order[..j])| < maxnbest
    ensures Emitting(order, i + 1, maxnbest, |out| >= maxnbest, out, best)
  {
    hide Settable, Entries, Flat;
    FlatStep(order, i);
  }

  lemma FlatNone(order: seq<Answer>)
    ensures Flat(order[..0]) == []
  {
  }

  lemma JoinedNone(m: seq<Bucket>)
    ensures Joined(m[..0]) == []
  {
  }

  lemma JoinedStep(m: seq<Bucket>, i: nat)
    requires i < |m|
    ensures Joined(m[..i + 1]) == Joined(m[..i]) + m[i].answers
    ensures Joined(m[..i + 1]) <= Joined(m)
  {
    hide Joined;
    JoinedPrefix(m, i + 1);
    JoinedLast(m[..i + 1]);
    assert m[..i + 1][..i] == m[..i];
  }

  lemma JoinedLast(m: seq<Bucket>)
    requires m != []
    ensures Joined(m) == Joined(m[..|m| - 1]) + m[|m| - 1].answers
  {
  }

  lemma JoinedPrefix(m: seq<Bucket>, i: nat)
    requires i <= |m|
    ensures Joined(m[..i]) <= Joined(m)
  {
    hide Joined;
    JoinedSplit(m[..i], m[i..]);
    assert m[..i] + m[i..] == m;
  }

  // ----- The whole result -----

  /** The first interpretation that ends the processing, if any, and the code it returns: n counts
      the instance elements seen before it, less one. */
  ghost function Verdict(l: Ledger, its: seq<Interpretation>, n: int): Option<int> {
    if its == [] then None
    else match its[0]
         case Malformed => Some(-1)
         case NoInput => Some(if n == -1 then 1 else 0)
         case NoMatch => Some(if n == -1 then 2 else 0)
         case Said(_, _, grammar, instances) =>
           if grammar.Some? && grammar.value in On(l) then Verdict(l, its[1..], n + |instances|) else Some(2)
  }

  /** The answers of the interpretations, each with the number of the enabled grammar it matched. */
  ghost predicate AnswersOf(l: Ledger, its: seq<Interpretation>, answers: seq<Answer>) {
    && |answers| == |its|
    && forall k :: 0 <= k < |its| ==> its[k].Said? && its[k].grammar.Some?
                                      && EnabledHolder(l, its[k].grammar.value, answers[k].grammarInfo)
                                      && answers[k] == AnswerOf(its[k], answers[k].grammarInfo)
                                      && answers[k].text == its[k].text && answers[k].confidence == its[k].confidence
  }

  /** The interpretation each answer of the order comes from. */
  ghost predicate ComesFrom(order: seq<Answer>, from: seq<nat>, its: seq<Interpretation>, answers: seq<Answer>) {
    && |from| == |order| && |answers| == |its|
    && forall p :: 0 <= p < |order| ==> from[p] < |its| && order[p] == answers[from[p]]
  }

  /** What the interpretations show, in the order of their answers. */
  ghost function ShownAll(order: seq<Answer>, from: seq<nat>, its: seq<Interpretation>): seq<Entry>
    requires |from| == |order| && forall p :: 0 <= p < |from| ==> from[p] < |its| && its[from[p]].Said?
  {
    if order == [] then []
    else
      var n := |order| - 1;
      ShownAll(order[..n], from[..n], its) + Shows(order[n], Shown(its[from[n]].instances))
  }

  lemma {:induction false} FlatIsShown(l: Ledger, order: seq<Answer>, from: seq<nat>, its: seq<Interpretation>, answers: seq<Answer>)
    requires AnswersOf(l, its, answers) && ComesFrom(order, from, its, answers)
    ensures forall p :: 0 <= p < |from| ==> from[p] < |its| && its[from[p]].Said?
    ensures Flat(order) == ShownAll(order, from, its)
  {
    hide AnswerOf, Entries, Shows, Shown, EnabledHolder;
    if order != [] {
      var n := |order| - 1;
      FlatIsShown(l, order[..n], from[..n], its, answers);
      EntriesShow(its[from[n]], order[n].grammarInfo);
    }
  }

  ghost function IndexIn(s: seq<Answer>, a: Answer): (k: nat)
    requires a in s
    ensures k < |s| && s[k] == a
  {
    var k :| 0 <= k < |s| && s[k] == a;
    k
  }

  lemma SomeOrigin(order: seq<Answer>, answers: seq<Answer>, its: seq<Interpretation>) returns (from: seq<nat>)
    requires multiset(order) == multiset(answers) && |answers| == |its|
    ensures ComesFrom(order, from, its, answers)
  {
    forall p | 0 <= p < |order| ensures order[p] in answers {
      assert order[p] in multiset(order);
    }
    from := seq(|order|, p requires 0 <= p < |order| => IndexIn(answers, order[p]));
  }

  /** Emitted without a failure is what the interpretations of the leading answers show. */
  ghost predicate EmittedShown(order: seq<Answer>, from: seq<nat>, its: seq<Interpretation>, maxnbest: int, out: seq<Entry>) {
    && |from| == |order| && (forall p :: 0 <= p < |from| ==> from[p] < |its| && its[from[p]].Said?)
    && exists k: nat :: Enough(order, k, maxnbest) && out == ShownAll(order[..k], from[..k], its)
  }

  lemma EmittedIsShown(l: Ledger, order: seq<Answer>, from: seq<nat>, its: seq<Interpretation>, answers: seq<Answer>,
                       maxnbest: int, out: seq<Entry>)
    requires AnswersOf(l, its, answers) && ComesFrom(order, from, its, answers) && Emitted(order, maxnbest, true, out)
    ensures EmittedShown(order, from, its, maxnbest, out)
  {
    hide AnswersOf, Flat, ShownAll, AllSettable;
    var k: nat :| Enough(order, k, maxnbest) && out == Flat(order[..k]) && AllSettable(out);
    FlatIsShown(l, order, from, its, answers);
    FlatIsShown(l, order[..k], from[..k], its, answers);
  }

  /** ProcessNLSML. Unless an interpretation ends it early, the answers are put in an order by
      descending confidence and then by precedence of their grammars; the shortest sufficient run of
      leading answers is emitted, whole, each with what its interpretation shows; and the best answer
      is the first. */
  method ProcessNLSML(gm: GrammarManager, its: seq<Interpretation>, maxnbest: int)
    returns (code: int, out: seq<Entry>, best: Option<Answer>, ghost answers: seq<Answer>, ghost order: seq<Answer>,
             ghost from: seq<nat>)
    requires gm.Valid()
    ensures Verdict(gm.View(), its, -1).Some? ==> code == Verdict(gm.View(), its, -1).value && out == [] && best == None
    ensures Verdict(gm.View(), its, -1).None? ==>
              && AnswersOf(gm.View(), its, answers)
              && (its == [] ==> code == -1 && out == [])
              && (its != [] ==>
                    && multiset(order) == multiset(answers) && order != []
                    && InPrecedence(gm.View(), order) && Ordered(gm.View(), order)
                    && ComesFrom(order, from, its, answers)
                    && (code == 0 ==> EmittedShown(order, from, its, maxnbest, out))
                    && (code == 0 || code == -1) && Emitted(order, maxnbest, code == 0, out)
                    && best == Some(order[0]))
  {
    hide EnabledNumber, Rank, Ordered, Descending, EnabledHolder, Entries, Emitted, Consistent, Joined, On, AnswerOf, AnswersOf, Matches, InPrecedence, ComesFrom, EmittedShown;
    ghost var l := gm.View();
    code, out, best, answers, order, from := 0, [], None, [], [], [];
    var nbest := -1;
    var answerMap: seq<Bucket> := [];
    NoBuckets();
    NoAnswers(l);
    var i := 0;
    while i < |its|
      invariant 0 <= i <= |its| && (answerMap != [] <==> i > 0)
      invariant Verdict(l, its, -1) == Verdict(l, its[i..], nbest)
      invariant AnswersOf(l, its[..i], answers)
      invariant Descending(answerMap) && multiset(Joined(answerMap)) == multiset(answers)
    {
      var it := its[i];
      assert its[i..][0] == it && its[i..][1..] == its[i + 1..];
      if it.Malformed? { return -1, [], None, answers, order, from; }
      if it.NoInput? { return if nbest == -1 then 1 else 0, [], None, answers, order, from; }
      if it.NoMatch? { return if nbest == -1 then 2 else 0, [], None, answers, order, from; }
      if it.grammar.None? { return 2, [], None, answers, order, from; }
      var number := gm.FindMatchedElement(it.grammar.value);
      if number.None? { return 2, [], None, answers, order, from; }
      var a := AnswerOf(it, number.value);
      OwnNumber(it, number.value);
      answerMap := AddAnswer(answerMap, a);
      nbest := nbest + |it.instances|;
      OneMoreAnswer(l, its, i, answers, a);
      answers := answers + [a];
      i := i + 1;
    }
    assert its[..i] == its;
    if answerMap == [] { return -1, [], None, answers, order, from; }
    AllMatch(l, its, answers, Joined(answerMap));
    var sorted := SortBuckets(gm, answerMap);
    order := Joined(sorted);
    AllMatch(l, its, answers, order);
    var ok;
    ok, out, best := EmitBuckets(sorted, maxnbest);
    code := if ok then 0 else -1;
    OrderedIs(l, order);
    assert |answers| == |its| by { AsManyAnswers(l, its, answers); }
    from := SomeOrigin(order, answers, its);
    if ok { EmittedIsShown(l, order, from, its, answers, maxnbest, out); }
  }

  lemma AsManyAnswers(l: Ledger, its: seq<Interpretation>, answers: seq<Answer>)
    requires AnswersOf(l, its, answers)
    ensures |answers| == |its|
  {
  }

  lemma OneMoreAnswer(l: Ledger, its: seq<Interpretation>, i: nat, answers: seq<Answer>, a: Answer)
    requires i < |its| && AnswersOf(l, its[..i], answers) && its[i].Said? && its[i].grammar.Some?
    requires EnabledHolder(l, its[i].grammar.value, a.grammarInfo) && a == AnswerOf(its[i], a.grammarInfo)
    ensures AnswersOf(l, its[..i + 1], answers + [a])
  {
    hide EnabledHolder, WithData, Empties;
    assert forall k :: 0 <= k < i ==> its[..i + 1][k] == its[..i][k];
  }

  lemma OwnNumber(i: Interpretation, g: nat)
    requires i.Said?
    ensures AnswerOf(i, g).grammarInfo == g
  {
  }

  lemma NoBuckets()
    ensures Descending([]) && Joined([]) == []
  {
  }

  lemma NoAnswers(l: Ledger)
    ensures AnswersOf(l, [], [])
  {
  }

  lemma AllMatch(l: Ledger, its: seq<Interpretation>, answers: seq<Answer>, order: seq<Answer>)
    requires AnswersOf(l, its, answers) && multiset(order) == multiset(answers)
    ensures Matches(l, order) && (forall a :: a in order ==> Entries(a) != []) && (its != [] ==> order != [])
  {
    hide Entries, AnswerOf;
    forall a | a in order ensures EnabledNumber(l, a.grammarInfo) && Entries(a) != [] {
      assert a in multiset(order);
      var k :| 0 <= k < |answers| && answers[k] == a;
      AnswerHasEntry(its[k], a.grammarInfo);
    }
    assert |multiset(order)| == |order| && |multiset(answers)| == |answers|;
  }
}
