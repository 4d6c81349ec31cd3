# An n-gram search engine, modelled and verified in Dafny

`Assignment4.py` is a small search engine. Its core has three imperative or
pure pieces, and this project models each one in Dafny and proves what it
promises:

- **`preprocess_text`** (lines 19-25) is the tokenizer. It removes every
  character that is neither a word character nor whitespace, lower-cases the
  text and splits it on whitespace. It then emits the words, then the
  space-joined bigrams, then the trigrams. The module `Tokenizer` states it as
  pure functions.
- **`build_inverted_index`** (lines 28-44) numbers the documents from 1 and
  stores each one's content. For every distinct term of every document it
  appends a posting `{doc_id, tf}` to the term's list. The module
  `InvertedIndex` states it as the method `BuildInvertedIndex`, with a loop over
  the corpus that updates two maps. The inner loop over the term counts is the
  method `AddDocument`, proved against the function `AddPostings`.
  `AddDocumentStep` shows that one such update turns the index of the first `k`
  documents into that of the first `k + 1`. With it, the loop invariant of
  `BuildInvertedIndex` gives the final index `IndexOf(corpus)`.
- **`compute_similarity`** (lines 46-85) is the scorer. The module `Similarity`
  states it as the method `ComputeSimilarity` and splits it into parts:
  - `AccumulateScores` runs the nested score loops over the `doc_scores`
    dictionary and its insertion order. It is proved against `Scores` and
    `ScoredDocs` of the steps `Contributions`;
  - `CollectResults` builds the list `results`. It is proved against
    `FirstMissing` and `Unranked`;
  - `SortResults` and `Ranking.SortBySimilarity` are the in-place stable
    descending sort, as an insertion sort on an array. They are proved
    against `SortDesc`;
  - `ComputeSimilarity` chains them and is proved against `Rank`, which is
    built from those same functions.

The model keeps three behaviours of the code:
- The score loop (line 54) and the document magnitude (line 70) run over the
  query tokens with their repetitions.
- The query magnitude (line 50) runs over the distinct query terms only.
- Entries of exactly equal similarity keep the order in which their documents
  were first scored (Python's sort is stable). `ScoredDocsPrefix` states that
  this order is first-scored order.

As a consequence the similarity is not bounded by 1. `Scenarios.RepeatedQueryToken`
shows the query "a a" on the document "a" scoring 4/sqrt(10), about 1.26.

Modelling choices:
- **Similarities are exact.** A similarity is held as its square, the exact
  ratio `score * score / (query_magnitude² * doc_magnitude²)`. Comparing
  squares of non-negative numbers orders them like the numbers.
- **The collections are in-memory maps.** The two MongoDB collections become
  `Documents` (id to content) and `Index` (term to posting list). The
  `delete_many` clears of lines 29-30 become starting from empty maps.
- **The code's behaviour, not a cleaner one.** The score counts every query
  token, repeats included, and no bound of 1 is stated. Ties come out in
  first-scored order, which need not be ascending document-id order.

The end-to-end property is `Similarity.QueryBuiltIndex`. After
`build_inverted_index(corpus)`, `compute_similarity(query)` returns results for
exactly the documents that share a token with the query. Each entry carries
the document's original content. Its score `Dot` is summed over the query
tokens, repeats included: for each query token, the query's count of it times
the document's count of it. Per distinct term of query count q and document
count f this adds q²·f, not q·f. The squared document magnitude `SquaredCounts`
is summed the same way, adding q·f² per distinct term. The squared similarity
is `Dot`² divided by the squared query magnitude (over distinct terms) times
`SquaredCounts`.

## Model

A function that only computes has no contract of its own. Its row says what
it computes and names the lemmas that state its properties.

| member | source | states |
|---|---|---|
| Collections.Count | Assignment4.py:36 | The count of `x` in `s` is at most `|s|` and positive exactly when `x` occurs in `s` (a `Counter` entry). |
| Collections.Counter | Assignment4.py:36 | `Counter(tokens)` maps exactly the elements of the sequence, each to its number of occurrences, which is at least 1. |
| Collections.Distinct | Assignment4.py:48-50 | The keys of `query_vector` have the same members as the tokens, no duplicates, and are no more numerous. |
| Collections.DistinctPrefix | Assignment4.py:48-50 | The keys for a prefix of the tokens are a prefix of the keys for all of them, so the keys come in first-occurrence order. |
| Tokenizer.Lower | Assignment4.py:20 | Lower-casing turns a word character into a lower-case word character. It keeps whitespace, in both directions. |
| Tokenizer.Strip | Assignment4.py:20 | `re.sub(r"[^\w\s]", "", text)`: deletes every character that is neither a word character nor whitespace. `StripChars` and `StripAppend` state that it keeps exactly those characters, each occurrence, in order. |
| Tokenizer.LowerCase | Assignment4.py:20 | `.lower()` on the stripped text. `LowerCaseAt` states that it keeps the length and applies `Lower` at every index. |
| Tokenizer.Normalize | Assignment4.py:20 | `re.sub(r"[^\w\s]", "", text).lower()`: `LowerCase` of `Strip`. `NormalizeShape` states that the result holds only whitespace and lower-case word characters, and is all whitespace exactly when the text has no word character. |
| Tokenizer.StripChars | Assignment4.py:20 | `re.sub(r"[^\w\s]", "", text)` keeps exactly the characters of the text that are word characters or whitespace. |
| Tokenizer.StripAppend | Assignment4.py:20 | The removal works character by character: stripping a concatenation strips each part, and one character stays exactly when it is a word character or whitespace. So every kept occurrence survives, in its original order. |
| Tokenizer.LowerCaseAt | Assignment4.py:20 | `lower()` keeps the length and lower-cases each character in place. |
| Tokenizer.NormalizeShape | Assignment4.py:20 | The normalized text consists of whitespace and lower-case word characters. It is all whitespace exactly when the original has no word character. |
| Tokenizer.WordLength | Assignment4.py:21 | The first word of a text that starts with a non-space has length between 1 and the text's length, contains no whitespace, and ends at whitespace or at the end. |
| Tokenizer.Split | Assignment4.py:21 | `text.split()`: the maximal runs of non-whitespace characters, in order. `SplitOfNormalized` and `WordsShape` state that its words are non-empty lower-case word runs, and `SplitJoin` that it undoes `" ".join`. |
| Tokenizer.Join | Assignment4.py:23-24 | `" ".join(ws)`: the words separated by single spaces. `SplitJoin` states that `Split` undoes it, and `JoinIsTerm` that joining one or more words gives a term. |
| Tokenizer.Words | Assignment4.py:20-21 | `words` of line 21: `Split` of `Normalize(text)`. `WordsShape` states their shape, and `TokenCount` and `TokenLayout` are stated in terms of them. |
| Tokenizer.SplitOfNormalized | Assignment4.py:21 | `split()` of a normalized text yields only non-empty lower-case words. It yields none exactly when the text is all whitespace. |
| Tokenizer.WordsShape | Assignment4.py:20-21 | Every word is a non-empty run of lower-case word characters. A text has no words exactly when it has no word character. |
| Tokenizer.SplitJoin | Assignment4.py:21-24 | Splitting undoes `" ".join` for non-empty words without whitespace. |
| Tokenizer.Bigrams | Assignment4.py:23 | The space-joined consecutive pairs of the words. `BigramsLayout` gives their number and each one's value, and `BigramsAreTerms` their shape. |
| Tokenizer.Trigrams | Assignment4.py:24 | The space-joined consecutive triples of the words. `TrigramsLayout` gives their number and each one's value, and `TrigramsAreTerms` their shape. |
| Tokenizer.BigramsLayout | Assignment4.py:23 | There are `max(n-1, 0)` bigrams, and bigram `i` is `words[i] + " " + words[i+1]`. |
| Tokenizer.TrigramsLayout | Assignment4.py:24 | There are `max(n-2, 0)` trigrams, and trigram `i` is the space-joined triple starting at word `i`. |
| Tokenizer.JoinIsTerm | Assignment4.py:23-24 | Space-joining one or more words gives a term: lower-case word characters with single separating spaces. |
| Tokenizer.BigramsAreTerms | Assignment4.py:23 | Every bigram is a term. |
| Tokenizer.TrigramsAreTerms | Assignment4.py:24 | Every trigram is a term. |
| Tokenizer.Tokenize | Assignment4.py:19-25 | `preprocess_text(text)`: the words, then the bigrams, then the trigrams. `TokenCount`, `TokenLayout` and `TokenContents` state its length, its layout and its tokens' shape. |
| Tokenizer.TokenCount | Assignment4.py:21-25 | A text with `n` words has `n + max(n-1, 0) + max(n-2, 0)` tokens. |
| Tokenizer.TokenLayout | Assignment4.py:22-25 | Tokens `[0, n)` are the words. Token `n+i` is the bigram at `i`, and token `n+(n-1)+i` is the trigram at `i`. |
| Tokenizer.TokenContents | Assignment4.py:20-25 | Every token is a non-empty term. A text yields no tokens exactly when it has no word character (empty, whitespace-only or punctuation-only text). |
| InvertedIndex.TokenizeAll | Assignment4.py:34-35 | There is one token sequence per document. |
| InvertedIndex.TokenizeAllAt | Assignment4.py:35 | The tokens of the `i`-th document are `preprocess_text` of its content. |
| InvertedIndex.TokenizeDocument | Assignment4.py:35 | The tokens computed in the loop are those of the `k`-th document. |
| InvertedIndex.AddedStep | Assignment4.py:40-41 | Appending the posting of one more term keeps the loop invariant: "the lists of exactly the terms seen so far got their posting". |
| InvertedIndex.AddPostings | Assignment4.py:36-41 | The index after one document: `{doc_id, count}` appended to the list of each of its terms, every other list unchanged. `AddPostingsIff` and `AddDocument` tie the inner loop to it, and `AddDocumentStep` ties it to `IndexUpTo`. |
| InvertedIndex.Lookup | Assignment4.py:41 | The posting list of a term, empty when the term has none: the `defaultdict(list)` read of line 41, and the `find_one` miss of lines 55-56 and 72-73. `UnindexedToken` and `AccumulateStep` state that a missing term adds nothing to the score. |
| InvertedIndex.AddPostingsIff | Assignment4.py:40-41 | A map that appended the posting of exactly the terms of the tokens, with their counts, is `AddPostings`. |
| InvertedIndex.AddDocument | Assignment4.py:36-41 | The loop over `token_counts.items()` appends `{doc_id, count}` to the list of every distinct term of the document. It leaves every other list unchanged. |
| InvertedIndex.StoredContents | Assignment4.py:34-38 | After `k` documents, the ids stored are exactly `1..k`, and document `d` holds the original content of corpus entry `d-1`, unchanged. |
| InvertedIndex.Stored | Assignment4.py:34-38 | The documents collection after the `insert_one` calls of line 38 for the first `k` documents. `StoredContents` states its ids and contents, and `BuildInvertedIndex` returns it for the whole corpus. |
| InvertedIndex.AddDocumentStep | Assignment4.py:34-41 | One pass of the outer loop turns the index of the first `k` documents into the index of the first `k+1`. |
| InvertedIndex.BuildInvertedIndex | Assignment4.py:28-44 | Starting from empty stores, the documents end up under ids 1 to N in input order, and the index is `IndexOf(corpus)`. |
| InvertedIndex.IndexOf | Assignment4.py:32-44 | The inverted index of a corpus: for each term of some document, one posting per document that holds it, with its count, in id order. `VocabularyIff`, `PostingCorrect`, `IndexComplete`, `IndexedTerms` and `PostingOrder` state these facts. |
| InvertedIndex.VocabularyIff | Assignment4.py:32-41 | A term has a list exactly when its list is non-empty, exactly when it occurs in one of the documents. |
| InvertedIndex.PostingsUpToMembership | Assignment4.py:34-41 | `{d, c}` is in the list of `t` exactly when `c >= 1` is the number of occurrences of `t` in document `d`. |
| InvertedIndex.PostingsUpToAscending | Assignment4.py:34-41 | Every list is strictly ascending by document id. |
| InvertedIndex.TokensPostingCorrect | Assignment4.py:35-41 | Posting correctness for an index built from token sequences. |
| InvertedIndex.PostingCorrect | Assignment4.py:35-41 | Term `t` holds `{d, c}` in the built index exactly when `c >= 1` and `c` is the count of `t` in `preprocess_text` of document `d`. |
| InvertedIndex.IndexComplete | Assignment4.py:35-41 | Every token of every document is indexed, with a posting for that document carrying its exact count. |
| InvertedIndex.IndexedTerms | Assignment4.py:35-41 | The indexed terms are exactly the tokens of the documents. |
| InvertedIndex.PostingOrder | Assignment4.py:34-41 | Every list of the built index is strictly ascending by document id, so each (term, document) pair has at most one posting. |
| Ranking.AtLeastTransitive | Assignment4.py:84 | The "at least as similar" order on exact similarities is transitive. |
| Ranking.InsertPermutation | Assignment4.py:84 | Inserting into a list adds exactly the inserted entry. |
| Ranking.InsertSorted | Assignment4.py:84 | Inserting into a descending list keeps it descending. |
| Ranking.InsertAt | Assignment4.py:84 | In a descending list, inserting an entry places it after the entries at least as similar and before the rest. |
| Ranking.InsertStable | Assignment4.py:84 | Inserting an entry adds it after the existing entries of its similarity. |
| Ranking.SortDesc | Assignment4.py:84 | `results.sort(key=lambda x: x[1], reverse=True)` as a stable insertion sort on exact similarities. `SortDescPermutation`, `SortDescSorted` and `SortDescStable` state that it is a permutation, descending and stable. |
| Ranking.SortDescPermutation | Assignment4.py:84 | The sort only reorders: the result is a permutation of the list. |
| Ranking.SortDescSorted | Assignment4.py:84 | The sorted list is in descending order of similarity. |
| Ranking.SortDescStable | Assignment4.py:84 | Entries of equal similarity keep their relative order, as in Python's stable sort with `reverse=True`. |
| Ranking.PlacedIsInsert | Assignment4.py:84 | Shifting the less similar entries right and placing the new entry in the gap is `Insert`. |
| Ranking.InsertNext | Assignment4.py:84 | One insertion-sort step on the array inserts `a[i]` into the sorted prefix and leaves the rest of the array alone. |
| Ranking.SortBySimilarity | Assignment4.py:84 | The in-place sort leaves the array holding `SortDesc` of its old contents: sorted, a permutation, and stable. |
| Similarity.TermContributions | Assignment4.py:57-61 | The inner loop for one term takes one step per posting, in list order. Each step adds `query_vector[term] * tf` to its posting's document. |
| Similarity.Contributions | Assignment4.py:54-61 | The `+=` steps of the score loop, over every query token, repeats included, each weighted by the token's query count. `AccumulateStep`, `UnindexedToken` and `AccumulateScores` tie the loop to it. |
| Similarity.UnindexedToken | Assignment4.py:55-56 | A query token that is not in the index adds no step to the score loop. |
| Similarity.ScoredDocs | Assignment4.py:52-61 | The keys of `doc_scores` in insertion order have no duplicates and are exactly the documents named by some step. |
| Similarity.ScoredDocsPrefix | Assignment4.py:52-61 | The keys after a prefix of the steps are a prefix of the final keys, so documents keep the order in which they were first scored. |
| Similarity.UnscoredScore | Assignment4.py:52-61 | A document no step names has score zero. |
| Similarity.Scores | Assignment4.py:52-61 | The dictionary `doc_scores` after a sequence of steps. `ScoresMeaning` states its keys and values, and `ScoreIsWeightedSum` and `ScoredPositive` the score of each document. |
| Similarity.ScoresMeaning | Assignment4.py:52-61 | The dictionary `doc_scores` holds exactly the scored documents, each with the sum of its steps' amounts. |
| Similarity.TallyStep | Assignment4.py:59-61 | One `+=` step on `defaultdict(float)` inserts a new document at the end of the key order with 0 and then adds the amount. |
| Similarity.AddPostingScore | Assignment4.py:58-61 | The method performs that step on the dictionary and on its key order. |
| Similarity.AddPostingScores | Assignment4.py:57-61 | The inner loop over one term's postings leaves `doc_scores` and its key order as after all the term's steps. |
| Similarity.AccumulateStep | Assignment4.py:54-56 | One token of the outer loop adds the steps of its postings, when it is indexed, and none otherwise. |
| Similarity.AccumulateScores | Assignment4.py:52-61 | After the nested loops, `doc_scores` and its key order are those of the steps of every query token, repeats included. |
| Similarity.FirstMissing | Assignment4.py:64-65 | No missing document exactly when every scored document is stored. Otherwise it is the first scored document without content. |
| Similarity.FirstMissingAt | Assignment4.py:64-65 | When every earlier document is stored, the document at `k` without content is the first missing one. |
| Similarity.Unranked | Assignment4.py:63-82 | `results` before the sort holds one entry per scored document, in scoring order, each with content and similarity. |
| Similarity.CollectResults | Assignment4.py:63-82 | The loop over `doc_scores.items()` builds exactly that list. When a document's content lookup fails it reports that document instead. |
| Similarity.SortResults | Assignment4.py:84 | `results.sort(key=..., reverse=True)` leaves `SortDesc(results)`. |
| Similarity.ComputeSimilarity | Assignment4.py:46-85 | `compute_similarity(query)` returns `Rank(documents, index, query)`. |
| Similarity.Rank | Assignment4.py:46-85 | The result of `compute_similarity(query)`: `RankTokens` applied to `Tokenize(query)`. The `Rank*` lemmas are stated for `RankTokens` on any query tokens, so they hold for `Rank`. |
| Similarity.RankTokens | Assignment4.py:48-85 | Lines 48-85 on given query tokens: the scores of `Contributions`, the entries of `Unranked` in scoring order, `MissingDocument` for the first scored document with no content, then `SortDesc`. `RankOrdered`, `RankEntries`, `RankContents`, `RankSimilarity`, `RankConsistent` and `RankEmptyIff` state its order, entries, contents, similarities and emptiness. |
| Similarity.ScoreIsWeightedSum | Assignment4.py:54-61 | A document's score is the sum over the query tokens, repeats included, of `query_vector[term]` times the document's `tf` for the term. |
| Similarity.ScoredIff | Assignment4.py:54-61 | A document is scored exactly when some query token has a posting for it. |
| Similarity.ScoredPositive | Assignment4.py:54-76 | With positive frequencies, every scored document has a positive score and a positive squared magnitude. |
| Similarity.QueryMagnitudePositive | Assignment4.py:47-50 | A non-empty query has a positive squared `query_magnitude`. |
| Similarity.QueryMagnitudeSq | Assignment4.py:50 | The squared `query_magnitude`: one square per distinct query term. `QueryMagnitudePositive` states that it is positive for a non-empty query. |
| Similarity.DocMagnitudeSq | Assignment4.py:67-76 | The squared `doc_magnitude`: over every query token, repeats included, the squared tf of the document's postings. `ScoredPositive` states that it is positive for a scored document, and `IndexedEntry` that it is `SquaredCounts` on a built index. |
| Similarity.SimilarityOf | Assignment4.py:78-81 | The guarded quotient, held as its square `score²/(qm²·dm²)`, or `0.0` when a magnitude is zero. `RankConsistent` states that the fallback is never taken for a scored document. |
| Similarity.EntryFor | Assignment4.py:64-82 | The `(content, similarity)` entry appended for one document, with its id. `RankContents` and `RankSimilarity` state each result's content and similarity. |
| Similarity.RankConsistent | Assignment4.py:63-81 | On a consistent store every content lookup succeeds. Every entry has a positive score and its exact similarity, so the `0.0` fallback is never taken. |
| Similarity.RankOrdered | Assignment4.py:63-84 | The results are descending by similarity, a permutation of `results` in scoring order, and keep that order among entries of equal similarity. |
| Similarity.PermutedEntries | Assignment4.py:82-84 | Sorting entries built in the order of distinct documents yields one entry per document, each one of the built entries. |
| Similarity.RankEntries | Assignment4.py:63-84 | There is exactly one entry per scored document, no document twice, and each entry is the one computed for its document. |
| Similarity.RankContents | Assignment4.py:63-84 | Entries are for exactly the scored documents, each with its stored content. |
| Similarity.RankSimilarity | Assignment4.py:67-82 | Each entry carries the similarity of lines 67-81 for its document. |
| Similarity.RankEmptyIff | Assignment4.py:54-85 | A query returns an empty list exactly when none of its tokens has postings. |
| Similarity.TfOfAt | Assignment4.py:67-76 | In a strictly ascending list, the posting at `i` is the only one for its document. |
| Similarity.BuiltTf | Assignment4.py:35-41 | In the built index, the postings of `t` give document `d` exactly the count of `t` in its tokens, once. |
| Similarity.BuiltIndexesCorpus | Assignment4.py:28-44 | The built index has every posting counted and every frequency exact. |
| Similarity.PostedShares | Assignment4.py:54-61 | In an index of the corpus, `t` has a posting for `d` exactly when `d` is a document containing `t`. |
| Similarity.IndexedScored | Assignment4.py:54-61 | A document is scored exactly when it shares a token with the query. |
| Similarity.IndexedEntry | Assignment4.py:54-76 | A document's score is `Dot`: summed over the query tokens, repeats included, the query's count of the token times the document's count (q²·f per distinct term). Its squared magnitude is `SquaredCounts`: summed the same way, the square of the document's count (q·f² per distinct term). |
| Similarity.QueryIndexedDocuments | Assignment4.py:54-85 | The documents returned are exactly those sharing a token with the query. |
| Similarity.QueryIndexedSimilarity | Assignment4.py:50-81 | Each entry's squared similarity is `Dot`² over the squared query magnitude (distinct terms) times `SquaredCounts`, where `Dot` and `SquaredCounts` sum over the query tokens with repeats (q²·f and q·f² per distinct term). |
| Similarity.QueryIndexedContents | Assignment4.py:63-82 | Each entry carries the original content of its document. |
| Similarity.QueryIndexed | Assignment4.py:46-85 | Querying documents numbered from 1, with an index of their tokens, answers as `AnswersQuery` says. |
| Similarity.QueryStored | Assignment4.py:28-85 | The same holds on the documents store `build_inverted_index` leaves behind. |
| Similarity.QueryBuiltIndex | Assignment4.py:28-85 | `compute_similarity(query)` after `build_inverted_index(corpus)` returns the documents sharing a token with the query, with their contents and exact similarities. |
| Scenarios.TokenizeRepeated | Assignment4.py:19-25 | `preprocess_text("a a")` is `["a", "a", "a a"]`. |
| Scenarios.TokenizePair | Assignment4.py:19-25 | `preprocess_text("b a")` is `["b", "a", "b a"]`. |
| Scenarios.SingleCorpus | Assignment4.py:28-44 | Building the corpus ["a"] stores "a" as document 1 and indexes "a" with the one posting {1, 1}. |
| Scenarios.PairCorpus | Assignment4.py:28-44 | Building the corpus ["a", "b"] stores them as documents 1 and 2 and gives "a" the posting {1, 1} and "b" the posting {2, 1}. |
| Scenarios.RepeatedQueryToken | Assignment4.py:28-85 | After building the corpus ["a"], the query "a a" scores 4/sqrt(10), above 1. |
| Scenarios.TiesKeepScoringOrder | Assignment4.py:28-84 | After building the corpus ["a", "b"] ("a" is id 1, "b" is id 2), the query "b a" gives both similarity 1/sqrt(3). Document 2, scored first, stays first. |

## Left out

- The MongoDB client and collections (lines 1-9, 29-30, 38, 44, 55, 65, 72) are not modelled: the stores are in-memory maps passed in and returned. The terms collection filled at lines 43-44 is the final `Index` map, and its write order is not modelled.
- `execute_queries` and its printing (lines 87-93) are console output and are not modelled.
- The sample corpus, the query list and the top-level calls (lines 12-17, 95-105) are driver code and are not modelled. Two small scenarios stand in for them.
- `math.sqrt` and float division (lines 50, 67-81) are not modelled. A similarity is held as its exact square, `score²/(qm²·dm²)`. The float sums of lines 52-61 equal the model's naturals only while they stay below 2^53, and the model does not capture rounding beyond that.
- Ranking.SortDesc: the order and the ties are decided on exact similarities, while the program sorts rounded floats. Exact ties and near-ties can therefore come out in a different order. For example, with the documents "b b b" (id 1) and "b" (id 2) and the query "b a", both similarities are exactly 1/sqrt(3). The model keeps document 1 first. The float quotients of line 79 differ in the last bit, so the program's sort may put document 2 first.
- Tokenizer.IsWordChar: the `\w` class and `str.isspace` are modelled on ASCII only, because Unicode character classes and case mapping are library behaviour. A non-ASCII character is neither a word character nor whitespace in the model, so `Strip` deletes it: "café" becomes "caf", where the program keeps "café". A non-ASCII space such as U+00A0 is also deleted. So "a\u00a0b" becomes the single word "ab", where the program yields ["a", "b", "a b"]. `Tokenizer.Lower` likewise lower-cases ASCII only.
- Similarity.CollectResults: when a scored document has no stored content, the code fails with a `TypeError` at line 65. The model returns `MissingDocument(id)` instead. `Similarity.RankConsistent` shows this never happens on the store the index builder produces.
- Ranking.Ranked: each entry carries its document id besides the `(content, similarity)` pair of line 82, so the model can state "one entry per scored document".
- Similarity.QueryIndexedSimilarity: the similarity of `compute_similarity` is not bounded by 1, and no such bound is stated. The score sums over repeated query tokens while `query_magnitude` sums over distinct terms (see `Scenarios.RepeatedQueryToken`).
- Tokenizing the same text twice gives the same tokens, and a rebuild replaces the previous stores. Both hold by construction, because `Tokenize` is a function and `BuildInvertedIndex` starts from empty maps, so no separate lemma states them.
