/** The index builder `build_inverted_index` (Assignment4.py:28-44), with the two
  * database collections replaced by in-memory maps that start out empty (the
  * `delete_many` clears of lines 29-30). */
module InvertedIndex {
  import opened Collections
  import opened Tokenizer

  /** A posting `{"doc_id": docId, "tf": tf}`. */
  datatype Posting = Posting(docId: nat, tf: nat)

  /** The documents collection: `_id` to original content. */
  type Documents = map<nat, string>

  /** The terms collection: term to its posting list. */
  type Index = map<string, seq<Posting>>

  /** The token sequences of the documents, in corpus order. */
  function TokenizeAll(corpus: seq<string>): (docs: seq<seq<string>>)
    ensures |docs| == |corpus|
  {
    if corpus == [] then []
    else TokenizeAll(corpus[..|corpus| - 1]) + [Tokenize(corpus[|corpus| - 1])]
  }

  lemma {:induction false} TokenizeAllAt(corpus: seq<string>, i: nat)
    requires i < |corpus|
    ensures TokenizeAll(corpus)[i] == Tokenize(corpus[i])
  {
    if i < |corpus| - 1 {
      TokenizeAllAt(corpus[..|corpus| - 1], i);
    }
  }

  /** The number of occurrences of term `t` among the tokens of document `d`
    * (documents are numbered from 1). */
  function Frequency(docs: seq<seq<string>>, t: string, d: nat): nat
    requires 1 <= d <= |docs|
  {
    Count(docs[d - 1], t)
  }

  /** The posting list of `t` after the first `k` documents: one posting per document
    * in which `t` occurs, in document order. */
  function PostingsUpTo(docs: seq<seq<string>>, t: string, k: nat): seq<Posting>
    requires k <= |docs|
  {
    if k == 0 then []
    else
      var c := Frequency(docs, t, k);
      PostingsUpTo(docs, t, k - 1) + (if c > 0 then [Posting(k, c)] else [])
  }

  /** The terms of the first `k` documents. */
  function VocabularyUpTo(docs: seq<seq<string>>, k: nat): set<string>
    requires k <= |docs|
  {
    if k == 0 then {}
    else
      var tokens := docs[k - 1];
      VocabularyUpTo(docs, k - 1) + set t | t in tokens
  }

  /** The inverted index of the first `k` documents. */
  function IndexUpTo(docs: seq<seq<string>>, k: nat): Index
    requires k <= |docs|
  {
    map t | t in VocabularyUpTo(docs, k) :: PostingsUpTo(docs, t, k)
  }

  /** The inverted index of a tokenized corpus. */
  function IndexOfTokens(docs: seq<seq<string>>): Index
  {
    IndexUpTo(docs, |docs|)
  }

  /** The inverted index of a corpus. */
  function IndexOf(corpus: seq<string>): Index
  {
    IndexOfTokens(TokenizeAll(corpus))
  }

  /** The posting list of `t`, empty when `t` has none (a `defaultdict(list)` read). */
  function Lookup(index: Index, t: string): seq<Posting>
  {
    if t in index then index[t] else []
  }

  /** `index` with `{docId, count}` appended to the list of every term of `tokens`,
    * `count` being the term's number of occurrences; every other list unchanged. */
  function AddPostings(index: Index, docId: nat, tokens: seq<string>): Index
  {
    map t | t in index.Keys + (set u | u in tokens) ::
      Lookup(index, t) + (if t in tokens then [Posting(docId, Count(tokens, t))] else [])
  }

  /** `result` is `index` with `{docId, count}` appended to the list of every term
    * of `terms`, `count` being the term's number of occurrences in `tokens`. */
  ghost predicate Added(result: Index, index: Index, docId: nat, tokens: seq<string>, terms: seq<string>)
  {
    && (forall t :: t in result <==> t in index || t in terms)
    && (forall t :: t in result ==>
          result[t] == Lookup(index, t) + (if t in terms then [Posting(docId, Count(tokens, t))] else []))
  }

  /** Appending the posting of one more term, not added before, keeps `Added`. */
  lemma AddedStep(result: Index, index: Index, docId: nat, tokens: seq<string>, terms: seq<string>,
                  term: string)
    requires Added(result, index, docId, tokens, terms) && term !in terms
    ensures Added(result[term := Lookup(result, term) + [Posting(docId, Count(tokens, term))]],
                  index, docId, tokens, terms + [term])
  {
    var more := terms + [term];
    forall t ensures t in more <==> t in terms || t == term {
      assert more == terms + [term];
    }
    AddedListStep(result, index, docId, tokens, terms, term);
  }

  /** The lists after one more term's posting is appended. */
  lemma AddedListStep(result: Index, index: Index, docId: nat, tokens: seq<string>, terms: seq<string>,
                      term: string)
    requires Added(result, index, docId, tokens, terms) && term !in terms
    requires forall t :: t in terms + [term] <==> t in terms || t == term
    ensures var after := result[term := Lookup(result, term) + [Posting(docId, Count(tokens, term))]];
      forall t :: t in after ==>
        after[t] == Lookup(index, t) + (if t in terms + [term] then [Posting(docId, Count(tokens, t))] else [])
  {
    var after := result[term := Lookup(result, term) + [Posting(docId, Count(tokens, term))]];
    forall t | t in after
      ensures after[t] == Lookup(index, t) + (if t in terms + [term] then [Posting(docId, Count(tokens, t))] else [])
    {
      if t == term {
        assert Lookup(result, term) == Lookup(index, term);
      }
    }
  }

  /** Lines 36 and 40-41: appends `{docId, count}` to the list of every distinct term
    * of one document's tokens, leaving every other list as it was. */
  method AddDocument(index: Index, docId: nat, tokens: seq<string>) returns (result: Index)
    ensures result == AddPostings(index, docId, tokens)
  {
    var tokenCounts := Counter(tokens);
    var terms := Distinct(tokens);
    result := index;
    var j := 0;
    while j < |terms|
      invariant 0 <= j <= |terms|
      invariant Added(result, index, docId, tokens, terms[..j])
    {
      var term := terms[j];
      assert term !in terms[..j];
      assert term in tokens && tokenCounts[term] == Count(tokens, term);
      AddedStep(result, index, docId, tokens, terms[..j], term);
      result := result[term := Lookup(result, term) + [Posting(docId, tokenCounts[term])]];
      assert terms[..j + 1] == terms[..j] + [term];
      j := j + 1;
    }
    assert terms[..j] == terms;
    AddPostingsIff(index, docId, tokens, terms, result);
  }

  /** A map that adds the postings of exactly the terms of `tokens` is `AddPostings`. */
  lemma AddPostingsIff(index: Index, docId: nat, tokens: seq<string>, terms: seq<string>, result: Index)
    requires Added(result, index, docId, tokens, terms)
    requires forall t :: t in terms <==> t in tokens
    ensures result == AddPostings(index, docId, tokens)
  {
    assert result.Keys == AddPostings(index, docId, tokens).Keys;
  }

  /** The documents collection after the first `k` documents are stored. */
  function Stored(corpus: seq<string>, k: nat): Documents
    requires k <= |corpus|
  {
    if k == 0 then map[] else Stored(corpus, k - 1)[k := corpus[k - 1]]
  }

  /** The first `k` documents are stored under the ids 1 to `k`, each one's content
    * unchanged. */
  lemma {:induction false} StoredContents(corpus: seq<string>, k: nat)
    requires k <= |corpus|
    ensures forall d: nat :: d in Stored(corpus, k) <==> 1 <= d <= k
    ensures forall d: nat :: 1 <= d <= k ==> Stored(corpus, k)[d] == corpus[d - 1]
  {
    if k > 0 {
      StoredContents(corpus, k - 1);
    }
  }

  /** Line 34: the tokens of the `k`-th document (counting from 0). */
  method TokenizeDocument(corpus: seq<string>, k: nat) returns (tokens: seq<string>)
    requires k < |corpus|
    ensures tokens == TokenizeAll(corpus)[k]
  {
    tokens := Tokenize(corpus[k]);
    TokenizeAllAt(corpus, k);
  }

  /** `build_inverted_index(corpus)`: numbers the documents from 1 in input order and
    * stores each one's content unchanged (`Stored`), and gives every term the
    * postings of the documents it occurs in (`IndexOf`). */
  method BuildInvertedIndex(corpus: seq<string>) returns (documents: Documents, index: Index)
    ensures documents == Stored(corpus, |corpus|)
    ensures index == IndexOf(corpus)
  {
    ghost var docs := TokenizeAll(corpus);
    documents := map[];
    index := map[];
    var k := 0;
    while k < |corpus|
      invariant k <= |corpus|
      invariant documents == Stored(corpus, k)
      invariant index == IndexUpTo(docs, k)
    {
      var docId := k + 1;
      var tokens := TokenizeDocument(corpus, k);
      documents := documents[docId := corpus[k]];
      AddDocumentStep(docs, k);
      index := AddDocument(index, docId, tokens);
      k := k + 1;
    }
  }

  /** One iteration of the loop of lines 32-41: adding the postings of document
    * `k + 1` to the index of the first `k` documents gives the index of the first
    * `k + 1`. */
  lemma AddDocumentStep(docs: seq<seq<string>>, k: nat)
    requires k < |docs|
    ensures AddPostings(IndexUpTo(docs, k), k + 1, docs[k]) == IndexUpTo(docs, k + 1)
  {
    var before, after := IndexUpTo(docs, k), AddPostings(IndexUpTo(docs, k), k + 1, docs[k]);
    forall t | t in after ensures after[t] == PostingsUpTo(docs, t, k + 1) {
      if t !in before {
        VocabularyIff(docs, t, k);
      }
    }
    assert after.Keys == IndexUpTo(docs, k + 1).Keys;
  }

  // ---------------------------------------------------------------------------
  // Properties of the index

  /** A term is in the vocabulary exactly when its posting list is non-empty, exactly
    * when it occurs in one of the documents. */
  lemma {:induction false} VocabularyIff(docs: seq<seq<string>>, t: string, k: nat)
    requires k <= |docs|
    ensures t in VocabularyUpTo(docs, k) <==> PostingsUpTo(docs, t, k) != []
    ensures t in VocabularyUpTo(docs, k) <==> exists d :: 0 <= d < k && t in docs[d]
  {
    if k > 0 {
      VocabularyIff(docs, t, k - 1);
    }
  }

  /** A posting `{d, c}` is in the list of `t` exactly when `t` occurs `c >= 1`
    * times in document `d`. */
  lemma {:induction false} PostingsUpToMembership(docs: seq<seq<string>>, t: string, k: nat, p: Posting)
    requires k <= |docs|
    ensures p in PostingsUpTo(docs, t, k) <==>
      1 <= p.docId <= k && p.tf >= 1 && p.tf == Frequency(docs, t, p.docId)
  {
    if k > 0 {
      PostingsUpToMembership(docs, t, k - 1, p);
    }
  }

  predicate StrictlyAscending(ps: seq<Posting>)
  {
    forall i, j :: 0 <= i < j < |ps| ==> ps[i].docId < ps[j].docId
  }

  /** Posting lists are strictly ascending by document id, so no document has two
    * postings for one term. */
  lemma {:induction false} PostingsUpToAscending(docs: seq<seq<string>>, t: string, k: nat)
    requires k <= |docs|
    ensures StrictlyAscending(PostingsUpTo(docs, t, k))
  {
    if k > 0 {
      PostingsUpToAscending(docs, t, k - 1);
      var prev := PostingsUpTo(docs, t, k - 1);
      forall i | 0 <= i < |prev| ensures prev[i].docId < k {
        assert prev[i] in prev;
        PostingsUpToMembership(docs, t, k - 1, prev[i]);
      }
      var c := Frequency(docs, t, k);
      var ps := PostingsUpTo(docs, t, k);
      assert ps == prev + (if c > 0 then [Posting(k, c)] else []);
      forall i, j | 0 <= i < j < |ps| ensures ps[i].docId < ps[j].docId {
        assert ps[i] == prev[i];
        if j < |prev| {
          assert ps[j] == prev[j];
          assert prev[i].docId < prev[j].docId;
        } else {
          assert ps[j].docId == k;
        }
      }
    }
  }

  /** Posting correctness for a tokenized corpus. */
  lemma TokensPostingCorrect(docs: seq<seq<string>>, t: string, d: nat, c: nat)
    ensures (t in IndexOfTokens(docs) && Posting(d, c) in IndexOfTokens(docs)[t]) <==>
      (1 <= d <= |docs| && c >= 1 && c == Count(docs[d - 1], t))
  {
    PostingsUpToMembership(docs, t, |docs|, Posting(d, c));
    VocabularyIff(docs, t, |docs|);
  }

  /** Posting correctness of the built index: term `t` holds a posting `{d, c}`
    * exactly when `c >= 1` is the number of occurrences of `t` in the tokens of
    * document `d`. */
  lemma PostingCorrect(corpus: seq<string>, t: string, d: nat, c: nat)
    ensures (t in IndexOf(corpus) && Posting(d, c) in IndexOf(corpus)[t]) <==>
      (1 <= d <= |corpus| && c >= 1 && c == Count(Tokenize(corpus[d - 1]), t))
  {
    TokensPostingCorrect(TokenizeAll(corpus), t, d, c);
    if 1 <= d <= |corpus| {
      TokenizeAllAt(corpus, d - 1);
    }
  }

  /** Index completeness: every term of every document is indexed, with a posting
    * for that document carrying the term's exact count. */
  lemma IndexComplete(corpus: seq<string>, d: nat, t: string)
    requires 1 <= d <= |corpus| && t in Tokenize(corpus[d - 1])
    ensures t in IndexOf(corpus)
    ensures Posting(d, Count(Tokenize(corpus[d - 1]), t)) in IndexOf(corpus)[t]
  {
    PostingCorrect(corpus, t, d, Count(Tokenize(corpus[d - 1]), t));
  }

  /** The indexed terms are exactly the terms of the documents. */
  lemma IndexedTerms(corpus: seq<string>, t: string)
    ensures t in IndexOf(corpus) <==> exists d :: 0 <= d < |corpus| && t in Tokenize(corpus[d])
  {
    var docs := TokenizeAll(corpus);
    VocabularyIff(docs, t, |corpus|);
    forall d | 0 <= d < |corpus| ensures docs[d] == Tokenize(corpus[d]) {
      TokenizeAllAt(corpus, d);
    }
  }

  /** Each posting list of the built index is strictly ascending by document id. */
  lemma PostingOrder(corpus: seq<string>, t: string)
    requires t in IndexOf(corpus)
    ensures StrictlyAscending(IndexOf(corpus)[t])
  {
    PostingsUpToAscending(TokenizeAll(corpus), t, |corpus|);
  }
}
