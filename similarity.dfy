/** The query scorer `compute_similarity` (Assignment4.py:46-85), reading the two
  * collections as in-memory maps. The score loop (line 54) and the document
  * magnitude (line 70) run over the query tokens with their repetitions, while the
  * query magnitude (line 50) runs over the distinct terms only. */
module Similarity {
  import opened Collections
  import opened Tokenizer
  import opened InvertedIndex
  import opened Ranking

  /** One `doc_scores[doc_id] += query_vector[term] * tf` step (line 61). */
  datatype Contribution = Contribution(docId: nat, amount: nat)

  /** What `compute_similarity` returns, or the document whose content lookup
    * (line 65) finds nothing. */
  datatype Outcome = Results(entries: seq<Ranked>) | MissingDocument(docId: nat)

  /** The step of one posting for a query token of weight `weight` (lines 59-61). */
  function PostingStep(weight: nat, p: Posting): Contribution
  {
    Contribution(p.docId, weight * p.tf)
  }

  /** The steps of the inner loop (lines 57-61) for one query token of weight `weight`
    * whose posting list is `ps`: one step per posting, in list order. */
  function TermContributions(weight: nat, ps: seq<Posting>): (cs: seq<Contribution>)
    ensures |cs| == |ps|
    ensures forall m :: 0 <= m < |ps| ==> cs[m] == PostingStep(weight, ps[m])
  {
    if ps == [] then []
    else
      var last := ps[|ps| - 1];
      TermContributions(weight, ps[..|ps| - 1]) + [PostingStep(weight, last)]
  }

  /** The steps of the score loop (lines 54-61) over the tokens `ts`, each weighted by
    * its count among all the query tokens `queryTokens`. Tokens without a posting
    * list take no step. */
  function Contributions(queryTokens: seq<string>, ts: seq<string>, index: Index): seq<Contribution>
  {
    if ts == [] then []
    else
      var t := ts[|ts| - 1];
      Contributions(queryTokens, ts[..|ts| - 1], index)
        + TermContributions(Count(queryTokens, t), Lookup(index, t))
  }

  /** The score that a sequence of steps accumulates for document `d`. */
  function ScoreOf(cs: seq<Contribution>, d: nat): nat
  {
    if cs == [] then 0
    else
      var c := cs[|cs| - 1];
      ScoreOf(cs[..|cs| - 1], d) + (if c.docId == d then c.amount else 0)
  }

  /** The keys of `doc_scores` in insertion order: the documents of the steps, each at
    * its first step. */
  function ScoredDocs(cs: seq<Contribution>): (r: seq<nat>)
    ensures NoDuplicates(r)
    ensures forall d :: d in r <==> exists i :: 0 <= i < |cs| && cs[i].docId == d
  {
    if cs == [] then []
    else
      var r := ScoredDocs(cs[..|cs| - 1]);
      var d := cs[|cs| - 1].docId;
      assert forall i :: 0 <= i < |cs| - 1 ==> cs[..|cs| - 1][i] == cs[i];
      if d in r then r else r + [d]
  }

  /** `sum(val ** 2 for val in query_vector.values())` over the terms `ts`. */
  function SumOfSquaredCounts(queryTokens: seq<string>, ts: seq<string>): nat
  {
    if ts == [] then 0
    else Count(queryTokens, ts[0]) * Count(queryTokens, ts[0]) + SumOfSquaredCounts(queryTokens, ts[1..])
  }

  /** The square of `query_magnitude` (line 50): one square per distinct query term. */
  function QueryMagnitudeSq(queryTokens: seq<string>): nat
  {
    SumOfSquaredCounts(queryTokens, Distinct(queryTokens))
  }

  /** The sum of `tf ** 2` over the postings of document `d` in `ps`. */
  function SquaredFrequencies(ps: seq<Posting>, d: nat): nat
  {
    if ps == [] then 0
    else SquaredFrequencies(ps[..|ps| - 1], d)
         + (if ps[|ps| - 1].docId == d then ps[|ps| - 1].tf * ps[|ps| - 1].tf else 0)
  }

  /** The square of `doc_magnitude` (lines 67-76): over every query token, repeats
    * included, the squared frequencies of the postings of `d`. */
  function DocMagnitudeSq(ts: seq<string>, index: Index, d: nat): nat
  {
    if ts == [] then 0
    else DocMagnitudeSq(ts[..|ts| - 1], index, d) + SquaredFrequencies(Lookup(index, ts[|ts| - 1]), d)
  }

  /** Lines 78-81: `score / (query_magnitude * doc_magnitude)` when both magnitudes
    * are positive, held as its square; `0.0` otherwise. */
  function SimilarityOf(score: nat, queryMagSq: nat, docMagSq: nat): ExactSimilarity
  {
    if queryMagSq > 0 && docMagSq > 0 then ExactSimilarity(score * score, queryMagSq * docMagSq)
    else ExactSimilarity(0, 1)
  }

  /** The entry appended for document `d` (line 82). */
  function EntryFor(documents: Documents, index: Index, queryTokens: seq<string>,
                    cs: seq<Contribution>, d: nat): Ranked
    requires d in documents
  {
    var sim := SimilarityOf(ScoreOf(cs, d), QueryMagnitudeSq(queryTokens),
                            DocMagnitudeSq(queryTokens, index, d));
    Ranked(d, documents[d], sim)
  }

  /** `results` before sorting: one entry per document of `order`, in that order. */
  function Unranked(documents: Documents, index: Index, queryTokens: seq<string>,
                    cs: seq<Contribution>, order: seq<nat>): (r: seq<Ranked>)
    requires forall m :: 0 <= m < |order| ==> order[m] in documents
    ensures |r| == |order|
    ensures forall m :: 0 <= m < |order| ==> r[m] == EntryFor(documents, index, queryTokens, cs, order[m])
  {
    if order == [] then []
    else
      Unranked(documents, index, queryTokens, cs, order[..|order| - 1])
        + [EntryFor(documents, index, queryTokens, cs, order[|order| - 1])]
  }

  /** The first document of `order` that has no stored content, if any. */
  function FirstMissing(order: seq<nat>, documents: Documents): (r: Option<nat>)
    ensures r.None? <==> forall m :: 0 <= m < |order| ==> order[m] in documents
    ensures r.Some? ==> exists k :: 0 <= k < |order| && order[k] == r.value && order[k] !in documents
                                  && forall m :: 0 <= m < k ==> order[m] in documents
  {
    if order == [] then None
    else if order[0] !in documents then Some(order[0])
    else
      var r := FirstMissing(order[1..], documents);
      assert forall m :: 1 <= m < |order| ==> order[m] == order[1..][m - 1];
      if r.Some? then
        var k :| 0 <= k < |order[1..]| && order[1..][k] == r.value && order[1..][k] !in documents
                 && forall m :: 0 <= m < k ==> order[1..][m] in documents;
        assert order[k + 1] == r.value;
        r
      else r
  }

  /** The result of `compute_similarity(query)` against the stored `documents` and
    * `index`. */
  function Rank(documents: Documents, index: Index, query: string): Outcome
  {
    RankTokens(documents, index, Tokenize(query))
  }

  /** The result of `compute_similarity` for a query whose tokens are `queryTokens`. */
  function RankTokens(documents: Documents, index: Index, queryTokens: seq<string>): Outcome
  {
    var cs := Contributions(queryTokens, queryTokens, index);
    var order := ScoredDocs(cs);
    match FirstMissing(order, documents)
    case Some(d) => MissingDocument(d)
    case None => Results(SortDesc(Unranked(documents, index, queryTokens, cs, order)))
  }

  /** A document that no step names has score zero. */
  lemma {:induction false} UnscoredScore(cs: seq<Contribution>, d: nat)
    requires d !in ScoredDocs(cs)
    ensures ScoreOf(cs, d) == 0
  {
    if cs != [] {
      var init := cs[..|cs| - 1];
      assert forall i :: 0 <= i < |init| ==> init[i] == cs[i];
      UnscoredScore(init, d);
    }
  }

  lemma TermContributionsStep(weight: nat, ps: seq<Posting>, j: nat)
    requires j < |ps|
    ensures TermContributions(weight, ps[..j + 1])
         == TermContributions(weight, ps[..j]) + [PostingStep(weight, ps[j])]
  {
    assert ps[..j + 1][..j] == ps[..j];
  }

  lemma ScoreStep(cs: seq<Contribution>, c: Contribution, d: nat)
    ensures ScoreOf(cs + [c], d) == ScoreOf(cs, d) + (if c.docId == d then c.amount else 0)
  {
    assert (cs + [c])[..|cs|] == cs;
  }

  lemma ScoredStep(cs: seq<Contribution>, c: Contribution)
    ensures ScoredDocs(cs + [c])
         == if c.docId in ScoredDocs(cs) then ScoredDocs(cs) else ScoredDocs(cs) + [c.docId]
  {
    assert (cs + [c])[..|cs|] == cs;
  }

  /** The keys of `doc_scores` after a prefix of the steps are a prefix of its final
    * keys: documents keep the order in which they were first scored. */
  lemma {:induction false} ScoredDocsPrefix(cs: seq<Contribution>, k: nat)
    requires k <= |cs|
    ensures ScoredDocs(cs[..k]) <= ScoredDocs(cs)
  {
    if k < |cs| {
      var init := cs[..|cs| - 1];
      assert init[..k] == cs[..k];
      ScoredDocsPrefix(init, k);
    } else {
      assert cs[..k] == cs;
    }
  }

  /** A query token without a posting list (lines 55-56) adds no step. */
  lemma UnindexedToken(queryTokens: seq<string>, ts: seq<string>, t: string, index: Index)
    requires t !in index
    ensures Contributions(queryTokens, ts + [t], index) == Contributions(queryTokens, ts, index)
  {
    assert (ts + [t])[..|ts|] == ts;
    assert TermContributions(Count(queryTokens, t), []) == [];
  }

  lemma ContributionsStep(queryTokens: seq<string>, i: nat, index: Index)
    requires i < |queryTokens|
    ensures Contributions(queryTokens, queryTokens[..i + 1], index)
         == Contributions(queryTokens, queryTokens[..i], index)
            + TermContributions(Count(queryTokens, queryTokens[i]), Lookup(index, queryTokens[i]))
  {
    assert queryTokens[..i + 1][..i] == queryTokens[..i];
  }

  /** The dictionary `doc_scores` after the steps `cs` (lines 59-61): a document
    * not yet scored enters with score zero, then its score grows by the step's
    * amount. */
  function Scores(cs: seq<Contribution>): map<nat, nat>
  {
    if cs == [] then map[]
    else
      var before, c := Scores(cs[..|cs| - 1]), cs[|cs| - 1];
      var base := if c.docId in before then before else before[c.docId := 0];
      base[c.docId := base[c.docId] + c.amount]
  }

  lemma ScoresStep(cs: seq<Contribution>, c: Contribution)
    ensures var base := if c.docId in Scores(cs) then Scores(cs) else Scores(cs)[c.docId := 0];
      Scores(cs + [c]) == base[c.docId := base[c.docId] + c.amount]
  {
    assert (cs + [c])[..|cs|] == cs;
  }

  /** `doc_scores` holds exactly the documents some step names, each with its
    * score: the sum of the amounts of its steps. */
  lemma {:induction false} ScoresMeaning(cs: seq<Contribution>, d: nat)
    ensures d in Scores(cs) <==> d in ScoredDocs(cs)
    ensures d in Scores(cs) ==> Scores(cs)[d] == ScoreOf(cs, d)
  {
    if cs != [] {
      var init, c := cs[..|cs| - 1], cs[|cs| - 1];
      ScoresMeaning(init, d);
      ScoresMeaning(init, c.docId);
      SplitLast(cs);
      ScoredStep(init, c);
      ScoreStep(init, c, d);
      if c.docId !in ScoredDocs(init) {
        UnscoredScore(init, c.docId);
      }
    }
  }

  /** `ScoresMeaning` for every document. */
  lemma ScoresKeep(cs: seq<Contribution>)
    ensures forall d :: d in Scores(cs) <==> d in ScoredDocs(cs)
    ensures forall d :: d in Scores(cs) ==> Scores(cs)[d] == ScoreOf(cs, d)
  {
    forall d: nat {
      ScoresMeaning(cs, d);
    }
  }

  /** One step of lines 59-61 on both the dictionary and its key order. */
  lemma TallyStep(cs: seq<Contribution>, c: Contribution)
    ensures var isNew := c.docId !in Scores(cs);
      var base := if isNew then Scores(cs)[c.docId := 0] else Scores(cs);
      && Scores(cs + [c]) == base[c.docId := base[c.docId] + c.amount]
      && ScoredDocs(cs + [c]) == if isNew then ScoredDocs(cs) + [c.docId] else ScoredDocs(cs)
  {
    ScoresStep(cs, c);
    ScoredStep(cs, c);
    ScoresMeaning(cs, c.docId);
  }

  /** Lines 59-61 for one posting: a document not yet scored enters `doc_scores`
    * with score zero at the end of its key order, then its score grows by
    * `weight * tf`. */
  method AddPostingScore(docScores: map<nat, nat>, scoredOrder: seq<nat>, ghost cs: seq<Contribution>,
                         weight: nat, posting: Posting)
    returns (scores: map<nat, nat>, order: seq<nat>)
    requires docScores == Scores(cs) && scoredOrder == ScoredDocs(cs)
    ensures scores == Scores(cs + [PostingStep(weight, posting)])
    ensures order == ScoredDocs(cs + [PostingStep(weight, posting)])
  {
    var docId := posting.docId;
    TallyStep(cs, PostingStep(weight, posting));
    scores, order := docScores, scoredOrder;
    if docId !in scores {
      order := order + [docId];
      scores := scores[docId := 0];
    }
    scores := scores[docId := scores[docId] + weight * posting.tf];
  }

  /** The inner loop of lines 57-61 for one query token of weight `weight`: adds
    * `weight * tf` to the score of the document of every posting, inserting
    * documents not yet scored at the end of the insertion order. */
  method AddPostingScores(docScores: map<nat, nat>, scoredOrder: seq<nat>, ghost cs: seq<Contribution>,
                          weight: nat, postings: seq<Posting>)
    returns (scores: map<nat, nat>, order: seq<nat>)
    requires docScores == Scores(cs) && scoredOrder == ScoredDocs(cs)
    ensures scores == Scores(cs + TermContributions(weight, postings))
    ensures order == ScoredDocs(cs + TermContributions(weight, postings))
  {
    scores, order := docScores, scoredOrder;
    ghost var done := cs;
    var j := 0;
    while j < |postings|
      invariant 0 <= j <= |postings|
      invariant done == cs + TermContributions(weight, postings[..j])
      invariant scores == Scores(done) && order == ScoredDocs(done)
    {
      ghost var c := PostingStep(weight, postings[j]);
      scores, order := AddPostingScore(scores, order, done, weight, postings[j]);
      TermContributionsStep(weight, postings, j);
      ghost var added := TermContributions(weight, postings[..j]);
      SnocAssociative(cs, added, c);
      done := done + [c];
      j := j + 1;
    }
    assert postings[..j] == postings;
  }

  /** One token of the outer loop of lines 55-61: its steps follow those of the
    * tokens before it, and a token without postings adds none. */
  lemma AccumulateStep(queryTokens: seq<string>, index: Index, i: nat, weight: nat)
    requires i < |queryTokens| && weight == Count(queryTokens, queryTokens[i])
    ensures var before := Contributions(queryTokens, queryTokens[..i], index);
      var after := Contributions(queryTokens, queryTokens[..i + 1], index);
      && (queryTokens[i] in index ==> after == before + TermContributions(weight, index[queryTokens[i]]))
      && (queryTokens[i] !in index ==> after == before)
  {
    ContributionsStep(queryTokens, i, index);
    assert TermContributions(weight, []) == [];
  }

  /** Lines 52-61: the score of every document holding a posting for some query
    * token, with the documents in the order they were first scored. */
  method AccumulateScores(queryTokens: seq<string>, index: Index)
    returns (docScores: map<nat, nat>, scoredOrder: seq<nat>)
    ensures docScores == Scores(Contributions(queryTokens, queryTokens, index))
    ensures scoredOrder == ScoredDocs(Contributions(queryTokens, queryTokens, index))
  {
    var queryVector := Counter(queryTokens);
    docScores, scoredOrder := map[], [];
    ghost var cs: seq<Contribution> := [];
    var i := 0;
    while i < |queryTokens|
      invariant 0 <= i <= |queryTokens|
      invariant cs == Contributions(queryTokens, queryTokens[..i], index)
      invariant docScores == Scores(cs) && scoredOrder == ScoredDocs(cs)
    {
      var term := queryTokens[i];
      var weight := queryVector[term];
      AccumulateStep(queryTokens, index, i, weight);
      if term in index {
        docScores, scoredOrder := AddPostingScores(docScores, scoredOrder, cs, weight, index[term]);
      }
      cs := Contributions(queryTokens, queryTokens[..i + 1], index);
      i := i + 1;
    }
    assert queryTokens[..i] == queryTokens;
  }

  /** Lines 63-82: one entry per scored document, in scoring order, or the first
    * scored document whose content is missing. */
  method CollectResults(documents: Documents, index: Index, queryTokens: seq<string>,
                        docScores: map<nat, nat>, scoredOrder: seq<nat>, ghost cs: seq<Contribution>)
    returns (r: Outcome)
    requires forall d :: d in docScores <==> d in scoredOrder
    requires forall d :: d in docScores ==> docScores[d] == ScoreOf(cs, d)
    ensures r == match FirstMissing(scoredOrder, documents)
                 case Some(d) => MissingDocument(d)
                 case None => Results(Unranked(documents, index, queryTokens, cs, scoredOrder))
  {
    var queryMagnitudeSq := QueryMagnitudeSq(queryTokens);
    var results: seq<Ranked> := [];
    var k := 0;
    while k < |scoredOrder|
      invariant 0 <= k <= |scoredOrder|
      invariant forall m :: 0 <= m < k ==> scoredOrder[m] in documents
      invariant results == Unranked(documents, index, queryTokens, cs, scoredOrder[..k])
    {
      var docId := scoredOrder[k];
      if docId !in documents {
        FirstMissingAt(scoredOrder, documents, k);
        return MissingDocument(docId);
      }
      var docMagnitudeSq := DocMagnitudeSq(queryTokens, index, docId);
      var similarity := SimilarityOf(docScores[docId], queryMagnitudeSq, docMagnitudeSq);
      UnrankedStep(documents, index, queryTokens, cs, scoredOrder, k);
      results := results + [Ranked(docId, documents[docId], similarity)];
      k := k + 1;
    }
    assert scoredOrder[..k] == scoredOrder;
    r := Results(results);
  }

  /** The first document of `order` missing from `documents` is the one at `k`
    * when every earlier one is present. */
  lemma FirstMissingAt(order: seq<nat>, documents: Documents, k: nat)
    requires k < |order| && order[k] !in documents
    requires forall m :: 0 <= m < k ==> order[m] in documents
    ensures FirstMissing(order, documents) == Some(order[k])
  {
    var r := FirstMissing(order, documents);
    assert r.Some?;
    var first :| 0 <= first < |order| && order[first] == r.value && order[first] !in documents
                 && forall m :: 0 <= m < first ==> order[m] in documents;
    assert first == k;
  }

  lemma UnrankedStep(documents: Documents, index: Index, queryTokens: seq<string>,
                     cs: seq<Contribution>, order: seq<nat>, k: nat)
    requires k < |order| && forall m :: 0 <= m <= k ==> order[m] in documents
    ensures Unranked(documents, index, queryTokens, cs, order[..k + 1])
         == Unranked(documents, index, queryTokens, cs, order[..k])
            + [EntryFor(documents, index, queryTokens, cs, order[k])]
  {
    assert order[..k + 1][..k] == order[..k];
  }

  /** `compute_similarity(query)`. */
  method ComputeSimilarity(documents: Documents, index: Index, query: string) returns (r: Outcome)
    ensures r == Rank(documents, index, query)
  {
    var queryTokens := Tokenize(query);
    var docScores, scoredOrder := AccumulateScores(queryTokens, index);
    ghost var cs := Contributions(queryTokens, queryTokens, index);
    ScoresKeep(cs);
    r := CollectResults(documents, index, queryTokens, docScores, scoredOrder, cs);
    if r.Results? {
      var sorted := SortResults(r.entries);
      r := Results(sorted);
    }
  }

  /** Line 84: sorts the list `results` in place, by descending similarity. */
  method SortResults(results: seq<Ranked>) returns (sorted: seq<Ranked>)
    ensures sorted == SortDesc(results)
  {
    var a := new Ranked[|results|](m requires 0 <= m < |results| => results[m]);
    assert a[..] == results;
    SortBySimilarity(a);
    sorted := a[..];
  }

  // ---------------------------------------------------------------------------
  // Properties of the scores

  /** The summed frequency that the postings `ps` give document `d`. */
  function TfSum(ps: seq<Posting>, d: nat): nat
  {
    if ps == [] then 0
    else TfSum(ps[..|ps| - 1], d) + (if ps[|ps| - 1].docId == d then ps[|ps| - 1].tf else 0)
  }

  /** The query-weighted frequencies of document `d` over the tokens `ts`: the sum of
    * `query_vector[t] * tf` over every token `t` of `ts` and posting of `t` for `d`. */
  function WeightedTf(queryTokens: seq<string>, ts: seq<string>, index: Index, d: nat): nat
  {
    if ts == [] then 0
    else
      var t := ts[|ts| - 1];
      WeightedTf(queryTokens, ts[..|ts| - 1], index, d) + Count(queryTokens, t) * TfSum(Lookup(index, t), d)
  }

  lemma {:induction false} ScoreOfAppend(a: seq<Contribution>, b: seq<Contribution>, d: nat)
    ensures ScoreOf(a + b, d) == ScoreOf(a, d) + ScoreOf(b, d)
  {
    if b == [] {
      assert a + b == a;
    } else {
      var init := b[..|b| - 1];
      ScoreOfAppend(a, init, d);
      assert (a + b)[..|a + b| - 1] == a + init;
    }
  }

  lemma MulAdd(w: nat, x: nat, y: nat)
    ensures w * (x + y) == w * x + w * y
  {
  }

  lemma {:induction false} TermScore(weight: nat, ps: seq<Posting>, d: nat)
    ensures ScoreOf(TermContributions(weight, ps), d) == weight * TfSum(ps, d)
  {
    if ps != [] {
      var init, last := ps[..|ps| - 1], ps[|ps| - 1];
      TermScore(weight, init, d);
      var x, y := TfSum(init, d), if last.docId == d then last.tf else 0;
      var c := TermContributions(weight, ps)[|ps| - 1];
      ScoreStep(TermContributions(weight, init), c, d);
      assert TermContributions(weight, ps) == TermContributions(weight, init) + [c];
      assert TfSum(ps, d) == x + y;
      assert weight * y == if c.docId == d then c.amount else 0;
      calc {
        ScoreOf(TermContributions(weight, ps), d);
        ScoreOf(TermContributions(weight, init), d) + weight * y;
        weight * x + weight * y;
        { MulAdd(weight, x, y); }
        weight * (x + y);
      }
    }
  }

  /** The score of a document, accumulated step by step, is the sum over the query
    * tokens (repeats included) of the token's query count times the document's
    * frequency for it. */
  lemma {:induction false} ScoreIsWeightedSum(queryTokens: seq<string>, ts: seq<string>, index: Index, d: nat)
    ensures ScoreOf(Contributions(queryTokens, ts, index), d) == WeightedTf(queryTokens, ts, index, d)
  {
    if ts != [] {
      var t := ts[|ts| - 1];
      ScoreIsWeightedSum(queryTokens, ts[..|ts| - 1], index, d);
      ScoreOfAppend(Contributions(queryTokens, ts[..|ts| - 1], index),
                    TermContributions(Count(queryTokens, t), Lookup(index, t)), d);
      TermScore(Count(queryTokens, t), Lookup(index, t), d);
    }
  }

  lemma ScoredDocsAppend(a: seq<Contribution>, b: seq<Contribution>, d: nat)
    ensures d in ScoredDocs(a + b) <==> d in ScoredDocs(a) || exists i :: 0 <= i < |b| && b[i].docId == d
  {
    assert forall i :: 0 <= i < |a| ==> (a + b)[i] == a[i];
    assert forall i :: 0 <= i < |b| ==> (a + b)[|a| + i] == b[i];
    if d in ScoredDocs(a + b) {
      var i :| 0 <= i < |a + b| && (a + b)[i].docId == d;
      if i >= |a| {
        assert b[i - |a|].docId == d;
      }
    }
  }

  /** Some posting of `ps` is for document `d`. */
  predicate InPostings(ps: seq<Posting>, d: nat)
  {
    exists p :: p in ps && p.docId == d
  }

  lemma TermContributionsDocs(weight: nat, ps: seq<Posting>, d: nat)
    ensures (exists i :: 0 <= i < |TermContributions(weight, ps)| && TermContributions(weight, ps)[i].docId == d)
        <==> InPostings(ps, d)
  {
    var cs := TermContributions(weight, ps);
    assert forall i :: 0 <= i < |cs| ==> cs[i].docId == ps[i].docId;
    if InPostings(ps, d) {
      var p :| p in ps && p.docId == d;
      var m :| 0 <= m < |ps| && ps[m] == p;
      assert cs[m].docId == d;
      assert exists i :: 0 <= i < |TermContributions(weight, ps)| && TermContributions(weight, ps)[i].docId == d;
    } else {
      forall i | 0 <= i < |cs| ensures cs[i].docId != d {
        assert ps[i] in ps;
      }
    }
  }

  /** A document gets a score exactly when some token of `ts` has a posting for it. */
  lemma {:induction false} ScoredIff(queryTokens: seq<string>, ts: seq<string>, index: Index, d: nat)
    ensures d in ScoredDocs(Contributions(queryTokens, ts, index)) <==>
      exists t :: t in ts && InPostings(Lookup(index, t), d)
  {
    if ts != [] {
      var init, t := ts[..|ts| - 1], ts[|ts| - 1];
      var before := Contributions(queryTokens, init, index);
      var added := TermContributions(Count(queryTokens, t), Lookup(index, t));
      assert Contributions(queryTokens, ts, index) == before + added;
      ScoredIff(queryTokens, init, index, d);
      ScoredDocsAppend(before, added, d);
      TermContributionsDocs(Count(queryTokens, t), Lookup(index, t), d);
      SplitLast(ts);
      PostedStep(ts, init, t, index, d);
    }
  }

  lemma PostedStep(ts: seq<string>, init: seq<string>, t: string, index: Index, d: nat)
    requires ts == init + [t]
    ensures (exists u :: u in ts && InPostings(Lookup(index, u), d)) <==>
      (exists u :: u in init && InPostings(Lookup(index, u), d)) || InPostings(Lookup(index, t), d)
  {
    forall u ensures u in ts <==> u in init || u == t {
    }
  }

  lemma MulPositive(a: nat, b: nat)
    requires a >= 1 && b >= 1
    ensures a * b >= 1
  {
  }

  lemma {:induction false} TfPositive(ps: seq<Posting>, p: Posting)
    requires p in ps && p.tf >= 1
    ensures TfSum(ps, p.docId) >= 1 && SquaredFrequencies(ps, p.docId) >= 1
  {
    var init, last := ps[..|ps| - 1], ps[|ps| - 1];
    if p == last {
      MulPositive(p.tf, p.tf);
    } else {
      SplitLast(ps);
      TfPositive(init, p);
    }
  }

  /** With positive frequencies, a document that gets a score gets a positive one, and
    * a positive document magnitude. */
  lemma {:induction false} ScoredPositive(queryTokens: seq<string>, ts: seq<string>, index: Index, d: nat)
    requires forall j :: 0 <= j < |ts| ==> ts[j] in queryTokens
    requires forall t, p :: t in index && p in index[t] ==> p.tf >= 1
    requires d in ScoredDocs(Contributions(queryTokens, ts, index))
    ensures ScoreOf(Contributions(queryTokens, ts, index), d) >= 1
    ensures DocMagnitudeSq(ts, index, d) >= 1
  {
    var init, t := ts[..|ts| - 1], ts[|ts| - 1];
    var a := Contributions(queryTokens, init, index);
    var w := Count(queryTokens, t);
    ScoreOfAppend(a, TermContributions(w, Lookup(index, t)), d);
    TermScore(w, Lookup(index, t), d);
    ScoredDocsAppend(a, TermContributions(w, Lookup(index, t)), d);
    if d in ScoredDocs(a) {
      ScoredPositive(queryTokens, init, index, d);
    } else {
      TermContributionsDocs(w, Lookup(index, t), d);
      var p :| p in Lookup(index, t) && p.docId == d;
      TfPositive(Lookup(index, t), p);
      MulPositive(w, TfSum(Lookup(index, t), d));
    }
  }

  /** A non-empty query has a positive magnitude. */
  lemma QueryMagnitudePositive(queryTokens: seq<string>)
    requires queryTokens != []
    ensures QueryMagnitudeSq(queryTokens) >= 1
  {
    var terms := Distinct(queryTokens);
    assert queryTokens[0] in terms;
    MulPositive(Count(queryTokens, terms[0]), Count(queryTokens, terms[0]));
  }

  /** The state `build_inverted_index` leaves behind: every posting names a stored
    * document and has a positive frequency. */
  predicate Consistent(documents: Documents, index: Index)
  {
    forall t, p :: t in index && p in index[t] ==> p.docId in documents && p.tf >= 1
  }

  /** On a consistent store every scored document has content, so the lookup of
    * line 65 always succeeds, and every returned document has a positive score and
    * magnitude: the `0.0` fallback of line 81 is never taken. */
  lemma RankConsistent(documents: Documents, index: Index, qt: seq<string>)
    requires Consistent(documents, index)
    ensures RankTokens(documents, index, qt).Results?
    ensures var es := RankTokens(documents, index, qt).entries;
      forall i :: 0 <= i < |es| ==>
        var score := ScoreOf(Contributions(qt, qt, index), es[i].docId);
        score >= 1
        && es[i].similarity.num == score * score
        && es[i].similarity.den == QueryMagnitudeSq(qt) * DocMagnitudeSq(qt, index, es[i].docId)
  {
    var cs := Contributions(qt, qt, index);
    var order := ScoredDocs(cs);
    forall m | 0 <= m < |order| ensures order[m] in documents {
      ScoredIff(qt, qt, index, order[m]);
      var t :| t in qt && InPostings(Lookup(index, t), order[m]);
      var p :| p in Lookup(index, t) && p.docId == order[m];
    }
    RankEntries(documents, index, qt);
    RankSimilarity(documents, index, qt);
    var es := RankTokens(documents, index, qt).entries;
    forall i | 0 <= i < |es|
      ensures ScoreOf(cs, es[i].docId) >= 1 && DocMagnitudeSq(qt, index, es[i].docId) >= 1
      ensures QueryMagnitudeSq(qt) >= 1
    {
      assert Returned(es, es[i].docId);
      ScoredPositive(qt, qt, index, es[i].docId);
      QueryMagnitudePositive(qt);
    }
  }

  /** The scored documents of a query, in the order they were first scored. */
  function ScoredOrder(index: Index, queryTokens: seq<string>): seq<nat>
  {
    ScoredDocs(Contributions(queryTokens, queryTokens, index))
  }

  /** The results of a successful query are sorted by descending similarity, are a
    * permutation of the entries in scoring order, and keep that order among entries
    * of equal similarity. */
  lemma RankOrdered(documents: Documents, index: Index, qt: seq<string>)
    requires RankTokens(documents, index, qt).Results?
    ensures var u := Unranked(documents, index, qt, Contributions(qt, qt, index), ScoredOrder(index, qt));
      var es := RankTokens(documents, index, qt).entries;
      Sorted(es) && multiset(es) == multiset(u) && forall k :: WithSimilarity(es, k) == WithSimilarity(u, k)
  {
    var u := Unranked(documents, index, qt, Contributions(qt, qt, index), ScoredOrder(index, qt));
    SortDescSorted(u);
    SortDescPermutation(u);
    forall k {
      SortDescStable(u, k);
    }
  }

  /** The sorted entries `es` of the entries `u` built in the order `order` of
    * distinct documents: one entry per document, each one of the entries of `u`. */
  lemma {:induction false} PermutedEntries(u: seq<Ranked>, es: seq<Ranked>, order: seq<nat>)
    requires multiset(es) == multiset(u) && |u| == |order| && NoDuplicates(order)
    requires forall m :: 0 <= m < |order| ==> u[m].docId == order[m]
    ensures |es| == |order|
    ensures forall d :: d in order <==> exists i :: 0 <= i < |es| && es[i].docId == d
    ensures forall i :: 0 <= i < |es| ==> exists m :: 0 <= m < |u| && es[i] == u[m]
    ensures forall i, j :: 0 <= i < j < |es| ==> es[i].docId != es[j].docId
  {
    assert |es| == |multiset(es)| == |multiset(u)| == |u|;
    forall i | 0 <= i < |es| ensures exists m :: 0 <= m < |u| && es[i] == u[m] {
      assert es[i] in multiset(u);
    }
    forall d | d in order ensures exists i :: 0 <= i < |es| && es[i].docId == d {
      var m :| 0 <= m < |order| && order[m] == d;
      assert u[m] in multiset(es);
    }
    forall i, j | 0 <= i < j < |es| ensures es[i].docId != es[j].docId {
      var m :| 0 <= m < |u| && es[i] == u[m];
      var n :| 0 <= n < |u| && es[j] == u[n];
      if es[i].docId == es[j].docId {
        assert m == n;
        assert multiset(u)[u[m]] == 1 by { DistinctEntry(u, order, m); }
        RepeatedCount(es, i, j);
      }
    }
  }

  /** In entries built in the order of distinct documents, each entry occurs once. */
  lemma DistinctEntry(u: seq<Ranked>, order: seq<nat>, m: nat)
    requires |u| == |order| && NoDuplicates(order) && m < |u|
    requires forall k :: 0 <= k < |order| ==> u[k].docId == order[k]
    ensures multiset(u)[u[m]] == 1
  {
    assert NoDuplicates(u) by {
      forall i, j | 0 <= i < j < |u| ensures u[i] != u[j] {
        assert u[i].docId == order[i] && u[j].docId == order[j];
      }
    }
    NoDuplicatesCount(u, u[m]);
  }

  /** A successful query returns one entry per scored document, each with the
    * document's stored content and the similarity computed for it. */
  lemma RankEntries(documents: Documents, index: Index, qt: seq<string>)
    requires RankTokens(documents, index, qt).Results?
    ensures var cs := Contributions(qt, qt, index);
      var es := RankTokens(documents, index, qt).entries;
      && |es| == |ScoredOrder(index, qt)|
      && (forall d :: d in ScoredOrder(index, qt) <==> exists i :: 0 <= i < |es| && es[i].docId == d)
      && (forall i :: 0 <= i < |es| ==>
            es[i].docId in documents && es[i] == EntryFor(documents, index, qt, cs, es[i].docId))
      && (forall i, j :: 0 <= i < j < |es| ==> es[i].docId != es[j].docId)
  {
    var cs := Contributions(qt, qt, index);
    var order := ScoredOrder(index, qt);
    var u := Unranked(documents, index, qt, cs, order);
    var es := SortDesc(u);
    SortDescPermutation(u);
    PermutedEntries(u, es, order);
  }

  /** A query returns no result exactly when none of its tokens has postings. */
  lemma RankEmptyIff(documents: Documents, index: Index, qt: seq<string>)
    ensures RankTokens(documents, index, qt) == Results([]) <==>
      forall t :: t in qt ==> Lookup(index, t) == []
  {
    var cs := Contributions(qt, qt, index);
    var order := ScoredOrder(index, qt);
    if forall t :: t in qt ==> Lookup(index, t) == [] {
      if order != [] {
        ScoredIff(qt, qt, index, order[0]);
      }
    } else {
      var t :| t in qt && Lookup(index, t) != [];
      var p := Lookup(index, t)[0];
      assert InPostings(Lookup(index, t), p.docId);
      ScoredIff(qt, qt, index, p.docId);
      assert p.docId in order;
      if RankTokens(documents, index, qt).Results? {
        var u := Unranked(documents, index, qt, cs, order);
        SortDescPermutation(u);
        assert |SortDesc(u)| == |multiset(SortDesc(u))| == |u| > 0;
      }
    }
  }

  // ---------------------------------------------------------------------------
  // Querying the store that `build_inverted_index` leaves behind

  /** The sum of `query_vector[t] * f(t)` over the tokens `ts`, where `f(t)` is the
    * number of occurrences of `t` among the document tokens `doc`. */
  function Dot(queryTokens: seq<string>, ts: seq<string>, doc: seq<string>): nat
  {
    if ts == [] then 0
    else
      var t := ts[|ts| - 1];
      Dot(queryTokens, ts[..|ts| - 1], doc) + Count(queryTokens, t) * Count(doc, t)
  }

  /** The sum of `f(t) ** 2` over the tokens `ts`. */
  function SquaredCounts(ts: seq<string>, doc: seq<string>): nat
  {
    if ts == [] then 0
    else
      var t := ts[|ts| - 1];
      SquaredCounts(ts[..|ts| - 1], doc) + Count(doc, t) * Count(doc, t)
  }

  /** Without a posting for `d`, a posting list contributes nothing to `d`. */
  lemma {:induction false} TfOfAbsent(ps: seq<Posting>, d: nat)
    requires forall i :: 0 <= i < |ps| ==> ps[i].docId != d
    ensures TfSum(ps, d) == 0 && SquaredFrequencies(ps, d) == 0
  {
    if ps != [] {
      TfOfAbsent(ps[..|ps| - 1], d);
    }
  }

  /** In a strictly ascending posting list, the posting at `i` is the only one for
    * its document, so the list contributes exactly its frequency. */
  lemma {:induction false} TfOfAt(ps: seq<Posting>, i: nat)
    requires StrictlyAscending(ps) && i < |ps|
    ensures TfSum(ps, ps[i].docId) == ps[i].tf
    ensures SquaredFrequencies(ps, ps[i].docId) == ps[i].tf * ps[i].tf
  {
    var init := ps[..|ps| - 1];
    if i == |ps| - 1 {
      TfOfAbsent(init, ps[i].docId);
    } else {
      assert ps[i].docId < ps[|ps| - 1].docId;
      assert init[i] == ps[i];
      TfOfAt(init, i);
    }
  }

  /** Some entry of `es` is for document `d`. */
  predicate Returned(es: seq<Ranked>, d: nat)
  {
    exists i :: 0 <= i < |es| && es[i].docId == d
  }

  /** Document `d` of the tokenized corpus `docs` has one of the tokens `qt`. */
  predicate SharesToken(docs: seq<seq<string>>, qt: seq<string>, d: nat)
  {
    1 <= d <= |docs| && exists t :: t in qt && t in docs[d - 1]
  }

  /** Each entry of a successful query is for a scored document (and every scored
    * document has one), and carries that document's content. */
  lemma RankContents(documents: Documents, index: Index, qt: seq<string>)
    requires RankTokens(documents, index, qt).Results?
    ensures var es := RankTokens(documents, index, qt).entries;
      && (forall d: nat :: Returned(es, d) <==> d in ScoredOrder(index, qt))
      && (forall i :: 0 <= i < |es| ==> es[i].docId in documents && es[i].content == documents[es[i].docId])
  {
    RankEntries(documents, index, qt);
  }

  /** Each entry of a successful query carries the similarity computed for its
    * document (lines 67-81). */
  lemma RankSimilarity(documents: Documents, index: Index, qt: seq<string>)
    requires RankTokens(documents, index, qt).Results?
    ensures var es := RankTokens(documents, index, qt).entries;
      forall i :: 0 <= i < |es| ==>
        es[i].similarity == SimilarityOf(ScoreOf(Contributions(qt, qt, index), es[i].docId),
                                         QueryMagnitudeSq(qt), DocMagnitudeSq(qt, index, es[i].docId))
  {
    RankEntries(documents, index, qt);
  }

  /** In the index of a tokenized corpus, the postings of `t` give document `d`
    * exactly the number of occurrences of `t` among its tokens. */
  lemma BuiltTf(docs: seq<seq<string>>, t: string, d: nat)
    requires 1 <= d <= |docs|
    ensures var c := Count(docs[d - 1], t);
      TfSum(Lookup(IndexOfTokens(docs), t), d) == c
      && SquaredFrequencies(Lookup(IndexOfTokens(docs), t), d) == c * c
  {
    var c := Count(docs[d - 1], t);
    var ps := Lookup(IndexOfTokens(docs), t);
    if c > 0 {
      TokensPostingCorrect(docs, t, d, c);
      PostingsUpToAscending(docs, t, |docs|);
      var i :| 0 <= i < |ps| && ps[i] == Posting(d, c);
      TfOfAt(ps, i);
    } else {
      forall i | 0 <= i < |ps| ensures ps[i].docId != d {
        assert ps[i] in ps;
        TokensPostingCorrect(docs, t, ps[i].docId, ps[i].tf);
      }
      TfOfAbsent(ps, d);
    }
  }

  /** Every posting of `index` names a document of `docs` and carries the term's
    * positive count in it. */
  ghost predicate PostingsCounted(docs: seq<seq<string>>, index: Index)
  {
    forall t, p :: t in index && p in index[t] ==> PostingCounted(docs, t, p)
  }

  /** `p` names a document of `docs` and carries the positive count of `t` in it. */
  ghost predicate PostingCounted(docs: seq<seq<string>>, t: string, p: Posting)
  {
    1 <= p.docId <= |docs| && p.tf >= 1 && p.tf == Count(docs[p.docId - 1], t)
  }

  /** The postings of a term give each document of `docs` exactly the term's count
    * in it, once. */
  ghost predicate FrequenciesExact(docs: seq<seq<string>>, index: Index)
  {
    forall t, d :: 1 <= d <= |docs| ==>
      TfSum(Lookup(index, t), d) == Count(docs[d - 1], t)
      && SquaredFrequencies(Lookup(index, t), d) == Count(docs[d - 1], t) * Count(docs[d - 1], t)
  }

  /** What a query needs of an index of the tokenized corpus `docs`. */
  ghost predicate IndexesCorpus(docs: seq<seq<string>>, index: Index)
  {
    PostingsCounted(docs, index) && FrequenciesExact(docs, index)
  }

  lemma BuiltPostingsCounted(docs: seq<seq<string>>)
    ensures PostingsCounted(docs, IndexOfTokens(docs))
  {
    forall t, p | t in IndexOfTokens(docs) && p in IndexOfTokens(docs)[t]
      ensures PostingCounted(docs, t, p)
    {
      BuiltPostingCounted(docs, t, p);
    }
  }

  lemma BuiltPostingCounted(docs: seq<seq<string>>, t: string, p: Posting)
    requires t in IndexOfTokens(docs) && p in IndexOfTokens(docs)[t]
    ensures PostingCounted(docs, t, p)
  {
    TokensPostingCorrect(docs, t, p.docId, p.tf);
  }

  lemma BuiltFrequenciesExact(docs: seq<seq<string>>)
    ensures FrequenciesExact(docs, IndexOfTokens(docs))
  {
    forall t, d | 1 <= d <= |docs|
      ensures TfSum(Lookup(IndexOfTokens(docs), t), d) == Count(docs[d - 1], t)
      ensures SquaredFrequencies(Lookup(IndexOfTokens(docs), t), d)
              == Count(docs[d - 1], t) * Count(docs[d - 1], t)
    {
      BuiltTf(docs, t, d);
    }
  }

  /** The index built from a tokenized corpus indexes it. */
  lemma BuiltIndexesCorpus(docs: seq<seq<string>>)
    ensures IndexesCorpus(docs, IndexOfTokens(docs))
  {
    BuiltPostingsCounted(docs);
    BuiltFrequenciesExact(docs);
  }

  lemma {:induction false} TfSumPositive(ps: seq<Posting>, d: nat)
    requires TfSum(ps, d) >= 1
    ensures InPostings(ps, d)
  {
    var init, last := ps[..|ps| - 1], ps[|ps| - 1];
    if last.docId != d {
      TfSumPositive(init, d);
      var p :| p in init && p.docId == d;
      assert p in ps;
    }
  }

  /** In an index of `docs`, term `t` has a posting for `d` exactly when `d` is a
    * document of `docs` holding `t`. */
  lemma PostedShares(docs: seq<seq<string>>, index: Index, t: string, d: nat)
    requires IndexesCorpus(docs, index)
    ensures InPostings(Lookup(index, t), d) <==> 1 <= d <= |docs| && t in docs[d - 1]
  {
    if InPostings(Lookup(index, t), d) {
      var p :| p in Lookup(index, t) && p.docId == d;
      assert t in index;
    }
    if 1 <= d <= |docs| && t in docs[d - 1] {
      assert TfSum(Lookup(index, t), d) == Count(docs[d - 1], t);
      TfSumPositive(Lookup(index, t), d);
    }
  }

  /** In an index of `docs`, a document is scored exactly when it shares a token
    * with the query. */
  lemma IndexedScored(docs: seq<seq<string>>, index: Index, qt: seq<string>, d: nat)
    requires IndexesCorpus(docs, index)
    ensures d in ScoredOrder(index, qt) <==> SharesToken(docs, qt, d)
  {
    ScoredIff(qt, qt, index, d);
    forall t | t in qt ensures InPostings(Lookup(index, t), d) <==> 1 <= d <= |docs| && t in docs[d - 1] {
      PostedShares(docs, index, t, d);
    }
  }

  lemma {:induction false} IndexedSums(docs: seq<seq<string>>, index: Index, qt: seq<string>, ts: seq<string>, d: nat)
    requires IndexesCorpus(docs, index) && 1 <= d <= |docs|
    ensures WeightedTf(qt, ts, index, d) == Dot(qt, ts, docs[d - 1])
    ensures DocMagnitudeSq(ts, index, d) == SquaredCounts(ts, docs[d - 1])
  {
    if ts != [] {
      IndexedSums(docs, index, qt, ts[..|ts| - 1], d);
    }
  }

  /** Querying an index of `docs`: the documents returned are exactly those sharing
    * a token with the query. */
  lemma QueryIndexedDocuments(documents: Documents, docs: seq<seq<string>>, index: Index, qt: seq<string>)
    requires RankTokens(documents, index, qt).Results? && IndexesCorpus(docs, index)
    ensures var es := RankTokens(documents, index, qt).entries;
      forall d: nat :: Returned(es, d) <==> SharesToken(docs, qt, d)
  {
    RankContents(documents, index, qt);
    forall d: nat {
      IndexedScored(docs, index, qt, d);
    }
  }

  /** Querying an index of `docs`: each entry's similarity is, squared, `Dot` squared
    * over the squared magnitudes. `Dot` and `SquaredCounts` are summed over the query
    * tokens, repeats included (q²·f and q·f² per distinct term of query count q and
    * document count f); the query magnitude runs over distinct terms. */
  lemma QueryIndexedSimilarity(documents: Documents, docs: seq<seq<string>>, index: Index, qt: seq<string>)
    requires forall d: nat :: d in documents <==> 1 <= d <= |docs|
    requires IndexesCorpus(docs, index)
    ensures RankTokens(documents, index, qt).Results?
    ensures var es := RankTokens(documents, index, qt).entries;
      forall i :: 0 <= i < |es| ==>
        1 <= es[i].docId <= |docs|
        && es[i].similarity.num == Dot(qt, qt, docs[es[i].docId - 1]) * Dot(qt, qt, docs[es[i].docId - 1])
        && es[i].similarity.den == QueryMagnitudeSq(qt) * SquaredCounts(qt, docs[es[i].docId - 1])
  {
    IndexedConsistent(documents, docs, index);
    RankConsistent(documents, index, qt);
    RankContents(documents, index, qt);
    IndexedEntries(RankTokens(documents, index, qt).entries, documents, docs, index, qt);
  }

  /** Entries scored on an index of `docs`, for stored documents numbered 1 to
    * `|docs|`, have the similarities of `QueryIndexedSimilarity`. */
  lemma IndexedEntries(es: seq<Ranked>, documents: Documents, docs: seq<seq<string>>, index: Index,
                       qt: seq<string>)
    requires forall d: nat :: d in documents <==> 1 <= d <= |docs|
    requires IndexesCorpus(docs, index)
    requires forall i :: 0 <= i < |es| ==> es[i].docId in documents
    requires forall i :: 0 <= i < |es| ==>
      var score := ScoreOf(Contributions(qt, qt, index), es[i].docId);
      es[i].similarity.num == score * score
      && es[i].similarity.den == QueryMagnitudeSq(qt) * DocMagnitudeSq(qt, index, es[i].docId)
    ensures forall i :: 0 <= i < |es| ==>
      1 <= es[i].docId <= |docs|
      && es[i].similarity.num == Dot(qt, qt, docs[es[i].docId - 1]) * Dot(qt, qt, docs[es[i].docId - 1])
      && es[i].similarity.den == QueryMagnitudeSq(qt) * SquaredCounts(qt, docs[es[i].docId - 1])
  {
    forall i | 0 <= i < |es|
      ensures 1 <= es[i].docId <= |docs|
      ensures ScoreOf(Contributions(qt, qt, index), es[i].docId) == Dot(qt, qt, docs[es[i].docId - 1])
      ensures DocMagnitudeSq(qt, index, es[i].docId) == SquaredCounts(qt, docs[es[i].docId - 1])
    {
      IndexedEntry(docs, index, qt, es[i].docId);
    }
  }

  /** An index of `docs`, with the documents numbered 1 to `|docs|` stored, is
    * consistent. */
  lemma IndexedConsistent(documents: Documents, docs: seq<seq<string>>, index: Index)
    requires forall d: nat :: d in documents <==> 1 <= d <= |docs|
    requires IndexesCorpus(docs, index)
    ensures Consistent(documents, index)
  {
  }

  /** In an index of `docs`, the score of document `d` is `Dot` and its squared
    * magnitude is `SquaredCounts`, both summed over the query tokens, repeats
    * included (q²·f and q·f² per distinct term of query count q and document
    * count f). */
  lemma IndexedEntry(docs: seq<seq<string>>, index: Index, qt: seq<string>, d: nat)
    requires IndexesCorpus(docs, index) && 1 <= d <= |docs|
    ensures ScoreOf(Contributions(qt, qt, index), d) == Dot(qt, qt, docs[d - 1])
    ensures DocMagnitudeSq(qt, index, d) == SquaredCounts(qt, docs[d - 1])
  {
    ScoreIsWeightedSum(qt, qt, index, d);
    IndexedSums(docs, index, qt, qt, d);
  }

  /** Querying the documents of `corpus`, numbered from 1: each entry carries the
    * content of its document. */
  lemma QueryIndexedContents(corpus: seq<string>, documents: Documents, index: Index, qt: seq<string>)
    requires RankTokens(documents, index, qt).Results?
    requires forall d: nat :: d in documents <==> 1 <= d <= |corpus|
    requires forall d: nat :: 1 <= d <= |corpus| ==> documents[d] == corpus[d - 1]
    ensures var es := RankTokens(documents, index, qt).entries;
      forall i :: 0 <= i < |es| ==> 1 <= es[i].docId <= |corpus| && es[i].content == corpus[es[i].docId - 1]
  {
    RankContents(documents, index, qt);
  }

  /** What a query whose tokens are `qt` returns on the documents of `corpus`,
    * numbered from 1 and tokenized as `docs`: results, for exactly the documents
    * that share a token with the query, each with its content, and each one's
    * similarity being, squared, the squared dot product of the query counts (over
    * the query tokens, repeats included) with the document's counts, over the
    * squared query magnitude (over the distinct query terms) times the document's
    * squared counts (over the query tokens, repeats included). */
  ghost predicate AnswersQuery(r: Outcome, corpus: seq<string>, docs: seq<seq<string>>, qt: seq<string>)
  {
    && |docs| == |corpus|
    && r.Results?
    && (forall d: nat :: Returned(r.entries, d) <==> SharesToken(docs, qt, d))
    && (forall i :: 0 <= i < |r.entries| ==>
          var e := r.entries[i];
          1 <= e.docId <= |corpus| && e.content == corpus[e.docId - 1]
          && e.similarity.num == Dot(qt, qt, docs[e.docId - 1]) * Dot(qt, qt, docs[e.docId - 1])
          && e.similarity.den == QueryMagnitudeSq(qt) * SquaredCounts(qt, docs[e.docId - 1]))
  }

  /** Querying the documents of `corpus`, stored under the ids 1 to `|corpus|`,
    * with an index of their tokens `docs`, answers as `AnswersQuery` says. */
  lemma QueryIndexed(corpus: seq<string>, documents: Documents, docs: seq<seq<string>>, index: Index,
                     qt: seq<string>)
    requires |docs| == |corpus|
    requires forall d: nat :: d in documents <==> 1 <= d <= |corpus|
    requires forall d: nat :: 1 <= d <= |corpus| ==> documents[d] == corpus[d - 1]
    requires IndexesCorpus(docs, index)
    ensures AnswersQuery(RankTokens(documents, index, qt), corpus, docs, qt)
  {
    QueryIndexedSimilarity(documents, docs, index, qt);
    QueryIndexedDocuments(documents, docs, index, qt);
    QueryIndexedContents(corpus, documents, index, qt);
  }

  /** `QueryIndexed` for the store `build_inverted_index(corpus)` leaves behind. */
  lemma QueryStored(corpus: seq<string>, docs: seq<seq<string>>, index: Index, qt: seq<string>)
    requires |docs| == |corpus| && IndexesCorpus(docs, index)
    ensures AnswersQuery(RankTokens(Stored(corpus, |corpus|), index, qt), corpus, docs, qt)
  {
    StoredContents(corpus, |corpus|);
    QueryIndexed(corpus, Stored(corpus, |corpus|), docs, index, qt);
  }

  /** `compute_similarity(query)` after `build_inverted_index(corpus)` answers as
    * `AnswersQuery` says, the tokens of document `d` being
    * `TokenizeAll(corpus)[d - 1]`, that is, `Tokenize(corpus[d - 1])`. */
  lemma QueryBuiltIndex(corpus: seq<string>, query: string)
    ensures AnswersQuery(Rank(Stored(corpus, |corpus|), IndexOf(corpus), query),
                         corpus, TokenizeAll(corpus), Tokenize(query))
  {
    BuiltIndexesCorpus(TokenizeAll(corpus));
    QueryStored(corpus, TokenizeAll(corpus), IndexOf(corpus), Tokenize(query));
  }
}
