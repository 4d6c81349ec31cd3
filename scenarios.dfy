/** Two small stores queried end to end: one shows that a repeated query token can
  * lift the similarity above 1, the other that entries of equal similarity keep
  * the order in which their documents were first scored. */
module Scenarios {
  import opened Collections
  import opened Tokenizer
  import opened InvertedIndex
  import opened Ranking
  import opened Similarity

  lemma TokenizeRepeated()
    ensures Tokenize("a a") == ["a", "a", "a a"]
  {
    assert Normalize("a a") == "a a";
    SplitJoin(["a", "a"]);
    assert Join(["a", "a"]) == "a a";
    assert Bigrams(["a", "a"]) == ["a a"];
  }

  lemma TokenizePair()
    ensures Tokenize("b a") == ["b", "a", "b a"]
  {
    assert Normalize("b a") == "b a";
    SplitJoin(["b", "a"]);
    assert Join(["b", "a"]) == "b a";
    assert Bigrams(["b", "a"]) == ["b a"];
  }

  lemma TokenizeWord(w: string)
    requires w == "a" || w == "b"
    ensures Tokenize(w) == [w]
  {
    if w == "a" {
      assert Normalize("a") == "a";
    } else {
      assert Normalize("b") == "b";
    }
    SplitJoin([w]);
    assert Join([w]) == w;
    assert Bigrams([w]) == [];
  }

  /** Building the corpus ["a"] stores "a" as document 1 and indexes its one token. */
  lemma SingleCorpus()
    ensures Stored(["a"], 1) == map[1 := "a"]
    ensures IndexOf(["a"]) == map["a" := [Posting(1, 1)]]
  {
    TokenizeWord("a");
    var docs := TokenizeAll(["a"]);
    assert ["a"][..0] == [];
    assert docs == [["a"]];
    assert VocabularyUpTo(docs, 1) == {"a"};
    assert PostingsUpTo(docs, "a", 1) == [Posting(1, 1)];
  }

  lemma PairTokens()
    ensures TokenizeAll(["a", "b"]) == [["a"], ["b"]]
  {
    TokenizeWord("a");
    TokenizeWord("b");
    assert ["a", "b"][..1] == ["a"] && ["a"][..0] == [];
  }

  lemma PairIndex(docs: seq<seq<string>>)
    requires docs == [["a"], ["b"]]
    ensures IndexOfTokens(docs) == map["a" := [Posting(1, 1)], "b" := [Posting(2, 1)]]
  {
    assert VocabularyUpTo(docs, 1) == {"a"};
    assert VocabularyUpTo(docs, 2) == {"a", "b"};
    assert Count(["a"], "b") == 0 && Count(["b"], "a") == 0;
    assert PostingsUpTo(docs, "a", 1) == [Posting(1, 1)];
    assert PostingsUpTo(docs, "a", 2) == [Posting(1, 1)];
    assert PostingsUpTo(docs, "b", 1) == [];
    assert PostingsUpTo(docs, "b", 2) == [Posting(2, 1)];
  }

  /** Building the corpus ["a", "b"] stores them as documents 1 and 2 and indexes
    * each one's token under its id. */
  lemma PairCorpus()
    ensures Stored(["a", "b"], 2) == map[1 := "a", 2 := "b"]
    ensures IndexOf(["a", "b"]) == map["a" := [Posting(1, 1)], "b" := [Posting(2, 1)]]
  {
    PairTokens();
    PairIndex(TokenizeAll(["a", "b"]));
  }

  predicate RepeatedStore(qt: seq<string>, index: Index)
  {
    qt == ["a", "a", "a a"] && index == map["a" := [Posting(1, 1)]]
  }

  lemma RepeatedWeights(qt: seq<string>, index: Index)
    requires RepeatedStore(qt, index)
    ensures qt[0] == "a" && qt[1] == "a" && qt[2] == "a a"
    ensures Count(qt, "a") == 2 && Count(qt, "a a") == 1
    ensures Lookup(index, "a") == [Posting(1, 1)] && Lookup(index, "a a") == []
  {
  }

  lemma RepeatedFirstStep(qt: seq<string>, index: Index)
    requires RepeatedStore(qt, index)
    ensures Contributions(qt, qt[..1], index) == [Contribution(1, 2)]
  {
    RepeatedWeights(qt, index);
    assert qt[..0] == [];
    ContributionsStep(qt, 0, index);
    assert TermContributions(2, [Posting(1, 1)]) == [Contribution(1, 2)];
  }

  lemma RepeatedSecondStep(qt: seq<string>, index: Index)
    requires RepeatedStore(qt, index)
    ensures Contributions(qt, qt[..2], index) == [Contribution(1, 2), Contribution(1, 2)]
  {
    RepeatedWeights(qt, index);
    RepeatedFirstStep(qt, index);
    ContributionsStep(qt, 1, index);
    assert TermContributions(2, [Posting(1, 1)]) == [Contribution(1, 2)];
  }

  lemma RepeatedSteps(qt: seq<string>, index: Index)
    requires RepeatedStore(qt, index)
    ensures Contributions(qt, qt, index) == [Contribution(1, 2), Contribution(1, 2)]
  {
    RepeatedWeights(qt, index);
    RepeatedSecondStep(qt, index);
    ContributionsStep(qt, 2, index);
    assert TermContributions(Count(qt, qt[2]), []) == [];
    assert qt[..3] == qt[..|qt|];
  }

  lemma RepeatedQueryMagnitude(qt: seq<string>, index: Index)
    requires RepeatedStore(qt, index)
    ensures QueryMagnitudeSq(qt) == 5
  {
    RepeatedWeights(qt, index);
    assert qt[..1][..0] == [] && qt[..2][..1] == qt[..1] && qt[..1] == ["a"];
    assert Distinct(qt[..1]) == ["a"];
    assert Distinct(qt[..2]) == ["a"];
    assert Distinct(qt) == ["a", "a a"];
    assert ["a", "a a"][1..] == ["a a"];
    assert SumOfSquaredCounts(qt, ["a a"]) == 1;
  }

  lemma RepeatedDocMagnitude(qt: seq<string>, index: Index)
    requires RepeatedStore(qt, index)
    ensures DocMagnitudeSq(qt, index, 1) == 2
  {
    RepeatedWeights(qt, index);
    assert SquaredFrequencies([Posting(1, 1)], 1) == 1;
    assert qt[..1][..0] == [] && qt[..2][..1] == qt[..1];
    assert DocMagnitudeSq(qt[..1], index, 1) == 1;
    assert DocMagnitudeSq(qt[..2], index, 1) == 2;
  }

  lemma RepeatedScores(qt: seq<string>, index: Index)
    requires RepeatedStore(qt, index)
    ensures ScoredDocs(Contributions(qt, qt, index)) == [1]
    ensures ScoreOf(Contributions(qt, qt, index), 1) == 4
  {
    RepeatedSteps(qt, index);
    RepeatedTally();
  }

  /** A single step scores its document with its amount. */
  lemma SingleTally(c: Contribution)
    ensures ScoredDocs([c]) == [c.docId]
    ensures forall d :: ScoreOf([c], d) == if c.docId == d then c.amount else 0
  {
    assert [] + [c] == [c];
    ScoredStep([], c);
    forall d ensures ScoreOf([c], d) == if c.docId == d then c.amount else 0 {
      ScoreStep([], c, d);
    }
  }

  /** Two steps of amount 2 for document 1. */
  lemma RepeatedTally()
    ensures ScoredDocs([Contribution(1, 2), Contribution(1, 2)]) == [1]
    ensures ScoreOf([Contribution(1, 2), Contribution(1, 2)], 1) == 4
  {
    var c := Contribution(1, 2);
    SingleTally(c);
    assert [c] + [c] == [c, c];
    ScoredStep([c], c);
    ScoreStep([c], c, 1);
  }

  /** Query "a a" against the single document "a": the token "a" is counted twice
    * in the score (once per repetition, each time with weight 2) but once in the
    * query magnitude, so the similarity is 4 / sqrt(10), above 1. */
  lemma RepeatedQueryToken()
    ensures Rank(Stored(["a"], 1), IndexOf(["a"]), "a a")
         == Results([Ranked(1, "a", ExactSimilarity(16, 10))])
    ensures !AtLeast(ExactSimilarity(1, 1), ExactSimilarity(16, 10))
  {
    SingleCorpus();
    TokenizeRepeated();
    RepeatedRanked(map[1 := "a"], map["a" := [Posting(1, 1)]], ["a", "a", "a a"]);
  }

  lemma RepeatedRanked(documents: Documents, index: Index, qt: seq<string>)
    requires RepeatedStore(qt, index) && documents == map[1 := "a"]
    ensures RankTokens(documents, index, qt) == Results([Ranked(1, "a", ExactSimilarity(16, 10))])
  {
    RepeatedScores(qt, index);
    RepeatedEntries(documents, index, qt);
    RepeatedSorted(documents);
  }

  /** The one scored document is stored, and a single entry is already sorted. */
  lemma RepeatedSorted(documents: Documents)
    requires documents == map[1 := "a"]
    ensures FirstMissing([1], documents) == None
    ensures SortDesc([Ranked(1, "a", ExactSimilarity(16, 10))]) == [Ranked(1, "a", ExactSimilarity(16, 10))]
  {
    assert [1][0] in documents;
  }

  lemma RepeatedEntries(documents: Documents, index: Index, qt: seq<string>)
    requires RepeatedStore(qt, index) && documents == map[1 := "a"]
    ensures Unranked(documents, index, qt, Contributions(qt, qt, index), [1])
         == [Ranked(1, "a", ExactSimilarity(16, 10))]
  {
    RepeatedScores(qt, index);
    RepeatedQueryMagnitude(qt, index);
    RepeatedDocMagnitude(qt, index);
    var cs := Contributions(qt, qt, index);
    assert EntryFor(documents, index, qt, cs, 1) == Ranked(1, "a", ExactSimilarity(16, 10));
  }


  predicate PairStore(qt: seq<string>, index: Index)
  {
    qt == ["b", "a", "b a"] && index == map["a" := [Posting(1, 1)], "b" := [Posting(2, 1)]]
  }

  lemma PairWeights(qt: seq<string>, index: Index)
    requires PairStore(qt, index)
    ensures qt[0] == "b" && qt[1] == "a" && qt[2] == "b a"
    ensures Count(qt, "a") == 1 && Count(qt, "b") == 1 && Count(qt, "b a") == 1
    ensures Lookup(index, "a") == [Posting(1, 1)] && Lookup(index, "b") == [Posting(2, 1)]
    ensures Lookup(index, "b a") == []
  {
  }

  lemma PairFirstStep(qt: seq<string>, index: Index)
    requires PairStore(qt, index)
    ensures Contributions(qt, qt[..1], index) == [Contribution(2, 1)]
  {
    PairWeights(qt, index);
    assert qt[..0] == [];
    ContributionsStep(qt, 0, index);
    assert TermContributions(1, [Posting(2, 1)]) == [Contribution(2, 1)];
  }

  lemma PairSecondStep(qt: seq<string>, index: Index)
    requires PairStore(qt, index)
    ensures Contributions(qt, qt[..2], index) == [Contribution(2, 1), Contribution(1, 1)]
  {
    PairWeights(qt, index);
    PairFirstStep(qt, index);
    ContributionsStep(qt, 1, index);
    assert TermContributions(1, [Posting(1, 1)]) == [Contribution(1, 1)];
  }

  lemma PairSteps(qt: seq<string>, index: Index)
    requires PairStore(qt, index)
    ensures Contributions(qt, qt, index) == [Contribution(2, 1), Contribution(1, 1)]
  {
    PairWeights(qt, index);
    PairSecondStep(qt, index);
    ContributionsStep(qt, 2, index);
    assert TermContributions(Count(qt, qt[2]), []) == [];
    assert qt[..3] == qt[..|qt|];
  }

  lemma PairScores(qt: seq<string>, index: Index)
    requires PairStore(qt, index)
    ensures ScoredDocs(Contributions(qt, qt, index)) == [2, 1]
    ensures ScoreOf(Contributions(qt, qt, index), 1) == 1
    ensures ScoreOf(Contributions(qt, qt, index), 2) == 1
  {
    PairSteps(qt, index);
    PairTally();
  }

  /** A step of amount 1 for document 2, then one for document 1. */
  lemma PairTally()
    ensures ScoredDocs([Contribution(2, 1), Contribution(1, 1)]) == [2, 1]
    ensures ScoreOf([Contribution(2, 1), Contribution(1, 1)], 1) == 1
    ensures ScoreOf([Contribution(2, 1), Contribution(1, 1)], 2) == 1
  {
    var ca, cb := Contribution(1, 1), Contribution(2, 1);
    SingleTally(cb);
    assert [cb] + [ca] == [cb, ca];
    ScoredStep([cb], ca);
    ScoreStep([cb], ca, 1);
    ScoreStep([cb], ca, 2);
  }

  lemma PairQueryMagnitude(qt: seq<string>, index: Index)
    requires PairStore(qt, index)
    ensures QueryMagnitudeSq(qt) == 3
  {
    PairWeights(qt, index);
    assert qt[..1][..0] == [] && qt[..2][..1] == qt[..1] && qt[..1] == ["b"];
    assert Distinct(qt[..1]) == ["b"];
    assert Distinct(qt[..2]) == ["b", "a"];
    assert Distinct(qt) == ["b", "a", "b a"];
    assert ["b", "a", "b a"][1..] == ["a", "b a"] && ["a", "b a"][1..] == ["b a"];
    assert SumOfSquaredCounts(qt, ["b a"]) == 1;
    assert SumOfSquaredCounts(qt, ["a", "b a"]) == 2;
  }

  lemma DocMagnitudeSnoc(ts: seq<string>, t: string, index: Index, d: nat)
    ensures DocMagnitudeSq(ts + [t], index, d)
         == DocMagnitudeSq(ts, index, d) + SquaredFrequencies(Lookup(index, t), d)
  {
    assert (ts + [t])[..|ts|] == ts;
  }

  lemma PairDocMagnitudes(qt: seq<string>, index: Index)
    requires PairStore(qt, index)
    ensures DocMagnitudeSq(qt, index, 1) == 1 && DocMagnitudeSq(qt, index, 2) == 1
  {
    PairWeights(qt, index);
    assert SquaredFrequencies([Posting(1, 1)], 1) == 1 && SquaredFrequencies([Posting(1, 1)], 2) == 0;
    assert SquaredFrequencies([Posting(2, 1)], 2) == 1 && SquaredFrequencies([Posting(2, 1)], 1) == 0;
    assert SquaredFrequencies([], 1) == 0 && SquaredFrequencies([], 2) == 0;
    var none: seq<string> := [];
    assert none + ["b"] == ["b"] && ["b"] + ["a"] == ["b", "a"] && ["b", "a"] + ["b a"] == qt;
    DocMagnitudeSnoc(none, "b", index, 1);
    DocMagnitudeSnoc(none, "b", index, 2);
    DocMagnitudeSnoc(["b"], "a", index, 1);
    DocMagnitudeSnoc(["b"], "a", index, 2);
    DocMagnitudeSnoc(["b", "a"], "b a", index, 1);
    DocMagnitudeSnoc(["b", "a"], "b a", index, 2);
  }

  /** Query "b a" against the documents "a" (id 1) and "b" (id 2): both get the same
    * similarity, and document 2, scored first, stays first. */
  lemma TiesKeepScoringOrder()
    ensures Rank(Stored(["a", "b"], 2), IndexOf(["a", "b"]), "b a")
         == Results([Ranked(2, "b", ExactSimilarity(1, 3)), Ranked(1, "a", ExactSimilarity(1, 3))])
  {
    PairCorpus();
    TokenizePair();
    PairRanked(map[1 := "a", 2 := "b"], map["a" := [Posting(1, 1)], "b" := [Posting(2, 1)]], ["b", "a", "b a"]);
  }

  lemma PairRanked(documents: Documents, index: Index, qt: seq<string>)
    requires PairStore(qt, index) && documents == map[1 := "a", 2 := "b"]
    ensures RankTokens(documents, index, qt)
         == Results([Ranked(2, "b", ExactSimilarity(1, 3)), Ranked(1, "a", ExactSimilarity(1, 3))])
  {
    PairScores(qt, index);
    PairEntries(documents, index, qt);
    PairSorted();
    assert FirstMissing([2, 1], documents) == None;
  }

  lemma PairEntries(documents: Documents, index: Index, qt: seq<string>)
    requires PairStore(qt, index) && documents == map[1 := "a", 2 := "b"]
    ensures Unranked(documents, index, qt, Contributions(qt, qt, index), [2, 1])
         == [Ranked(2, "b", ExactSimilarity(1, 3)), Ranked(1, "a", ExactSimilarity(1, 3))]
  {
    PairScores(qt, index);
    PairQueryMagnitude(qt, index);
    PairDocMagnitudes(qt, index);
    var cs := Contributions(qt, qt, index);
    assert EntryFor(documents, index, qt, cs, 2) == Ranked(2, "b", ExactSimilarity(1, 3));
    assert EntryFor(documents, index, qt, cs, 1) == Ranked(1, "a", ExactSimilarity(1, 3));
  }

  /** Two entries of equal similarity keep their order when sorted. */
  lemma PairSorted()
    ensures SortDesc([Ranked(2, "b", ExactSimilarity(1, 3)), Ranked(1, "a", ExactSimilarity(1, 3))])
         == [Ranked(2, "b", ExactSimilarity(1, 3)), Ranked(1, "a", ExactSimilarity(1, 3))]
  {
    var r2, r1 := Ranked(2, "b", ExactSimilarity(1, 3)), Ranked(1, "a", ExactSimilarity(1, 3));
    assert [r2, r1][..1] == [r2];
    assert SortDesc([r2]) == [r2];
    assert Insert(r1, [r2]) == [r2, r1];
  }

}
