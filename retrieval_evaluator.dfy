/** The consumer that stores one record per document and, once the collection
    is complete, scores every candidate against its query by cosine similarity
    and reports the mean reciprocal rank. */
module RetrievalEvaluation {
  import opened Seqs
  import opened WhitespaceSplit
  import opened DocumentVectorAnnotator
  import opened Ranking
  import opened TokenMaps
  import opened VectorScoring
  import opened CandidateSelection

  /** A Document annotation as a value: its query id, its relevance label
      (99 for the query itself, 1 relevant, 0 irrelevant), its text and the
      token list the annotator attached to it. */
  datatype Document = Document(queryId: int, relevanceValue: int, text: string, tokenList: seq<TermFreq>)

  class RetrievalEvaluator {
    /** One entry per stored document, in arrival order. */
    var qIdList: seq<int>
    var relList: seq<int>
    var textsList: seq<string>
    var tokensList: seq<map<string, int>>

    /** The four lists are parallel. */
    ghost predicate Valid()
      reads this
    {
      |qIdList| == |relList| == |textsList| == |tokensList|
    }

    /** `initialize`: four empty lists. */
    constructor ()
      ensures Valid()
      ensures qIdList == [] && relList == [] && textsList == [] && tokensList == []
    {
      qIdList, relList, textsList, tokensList := [], [], [], [];
    }

    /** `processCas`: the first document of the CAS, if there is one, is
        appended to each of the four lists. */
    method ProcessCas(cas: seq<Document>)
      requires Valid()
      modifies this
      ensures Valid()
      ensures cas == [] ==>
                qIdList == old(qIdList) && relList == old(relList)
                && textsList == old(textsList) && tokensList == old(tokensList)
      ensures cas != [] ==>
                && qIdList == old(qIdList) + [cas[0].queryId]
                && relList == old(relList) + [cas[0].relevanceValue]
                && textsList == old(textsList) + [cas[0].text]
                && tokensList == old(tokensList) + [TokensMapOf(cas[0].tokenList)]
    {
      if cas != [] {
        var doc := cas[0];
        var m := GetTokensMap(doc.tokenList);
        qIdList := qIdList + [doc.queryId];
        relList := relList + [doc.relevanceValue];
        textsList := textsList + [doc.text];
        tokensList := tokensList + [m];
      }
    }

    /** A document through the whole pipeline: the annotator attaches its
        token list, then the consumer stores it. Its token entry maps each
        token of the text to its number of occurrences. */
    method AnnotateAndStore(queryId: int, relevanceValue: int, text: string)
      requires Valid()
      modifies this
      ensures Valid()
      ensures qIdList == old(qIdList) + [queryId]
      ensures relList == old(relList) + [relevanceValue]
      ensures textsList == old(textsList) + [text]
      ensures |tokensList| == |old(tokensList)| + 1 && tokensList[..|old(tokensList)|] == old(tokensList)
      ensures forall s :: s in tokensList[|tokensList| - 1] <==> s in Split(text)
      ensures forall s :: s in tokensList[|tokensList| - 1] ==> tokensList[|tokensList| - 1][s] == Count(Split(text), s)
    {
      var tokens := CreateTermFreqVector(text);
      TokensMapCounts(Split(text), tokens);
      ProcessCas([Document(queryId, relevanceValue, text, tokens)]);
      assert tokensList[..|old(tokensList)|] == old(tokensList);
    }

    /** `computeCosineSimilarityMap`: one list per query record, in corpus
        order, holding an entry for every candidate of the query, in corpus
        order. Candidates are selected by comparing query ids by value. */
    method ComputeCosineSimilarityMap(cosine: (int, int, int) -> real) returns (lists: seq<seq<Similarity>>)
      requires Valid()
      ensures |lists| == |Queries(relList, |relList|)|
      ensures forall n :: 0 <= n < |lists| ==>
                lists[n] == Scored(qIdList, relList, tokensList, cosine, Queries(relList, |relList|)[n], |tokensList|)
    {
      lists := [];
      for i := 0 to |tokensList|
        invariant |lists| == |Queries(relList, i)|
        invariant forall n :: 0 <= n < |lists| ==>
                    lists[n] == Scored(qIdList, relList, tokensList, cosine, Queries(relList, i)[n], |tokensList|)
      {
        if relList[i] == QueryLabel {
          var cosinesMap := ScoreCandidates(cosine, i);
          lists := lists + [cosinesMap];
        }
      }
    }

    /** The inner loop of `computeCosineSimilarityMap` for the query record
        `i`: every record labelled 0 or 1 with the query's id is scored. */
    method ScoreCandidates(cosine: (int, int, int) -> real, i: nat) returns (cosinesMap: seq<Similarity>)
      requires Valid() && i < |tokensList|
      ensures cosinesMap == Scored(qIdList, relList, tokensList, cosine, i, |tokensList|)
    {
      cosinesMap := [];
      for j := 0 to |tokensList|
        invariant cosinesMap == Scored(qIdList, relList, tokensList, cosine, i, j)
      {
        if (relList[j] == 0 || relList[j] == 1) && qIdList[j] == qIdList[i] {
          var ab, a2, b2 := PairSimilarity(tokensList[i], tokensList[j]);
          cosinesMap := cosinesMap + [Similarity(i, j, cosine(ab, a2, b2), 0)];
        }
      }
    }

    /** `computeMRR`: each list is sorted by non-increasing similarity, its
        entries are ranked 1, 2, ..., and 1/rank is added up over the entries
        whose candidate is labelled relevant; the total is divided by the
        number of lists. */
    method ComputeMRR(lists: seq<seq<Similarity>>) returns (mrr: real, ranked: seq<seq<Similarity>>)
      requires |lists| > 0
      requires forall n :: 0 <= n < |lists| ==> IndexesIn(lists[n], |relList|)
      ensures |ranked| == |lists|
      ensures forall n :: 0 <= n < |ranked| ==> IndexesIn(ranked[n], |relList|)
      ensures forall n :: 0 <= n < |ranked| ==> NonIncreasing(ranked[n]) && RankedInOrder(ranked[n])
      ensures forall n :: 0 <= n < |ranked| ==> multiset(Unranked(ranked[n])) == multiset(Unranked(lists[n]))
      ensures mrr == TotalRankSum(ranked, relList) / (|lists| as real)
    {
      mrr := 0.0;
      ranked := [];
      for n := 0 to |lists|
        invariant |ranked| == n
        invariant forall m :: 0 <= m < n ==> RankedFrom(ranked[m], lists[m], relList)
        invariant mrr == TotalRankSum(ranked, relList)
      {
        var sum, r := SortAndRank(lists[n], relList);
        mrr := mrr + sum;
        assert (ranked + [r])[..n] == ranked;
        ranked := ranked + [r];
      }
      mrr := mrr / (|lists| as real);
    }

    /** `collectionProcessComplete`: the parallel lists are checked for equal
        length, the candidate lists are built and the MRR is computed over them. */
    method CollectionProcessComplete(cosine: (int, int, int) -> real) returns (consistent: bool, mrr: real, ranked: seq<seq<Similarity>>)
      requires Valid()
      requires |Queries(relList, |relList|)| > 0
      ensures consistent
      ensures |ranked| == |Queries(relList, |relList|)|
      ensures forall n :: 0 <= n < |ranked| ==> IndexesIn(ranked[n], |relList|)
      ensures forall n :: 0 <= n < |ranked| ==> NonIncreasing(ranked[n]) && RankedInOrder(ranked[n])
      ensures forall n :: 0 <= n < |ranked| ==>
                multiset(Unranked(ranked[n]))
                == multiset(Scored(qIdList, relList, tokensList, cosine, Queries(relList, |relList|)[n], |tokensList|))
      ensures mrr == TotalRankSum(ranked, relList) / (|ranked| as real)
    {
      consistent := !(|tokensList| != |relList| || |relList| != |qIdList|);
      var lists := ComputeCosineSimilarityMap(cosine);
      mrr, ranked := ComputeMRR(lists);
      forall n | 0 <= n < |lists|
        ensures Unranked(lists[n]) == lists[n]
      {
        UnrankedUnset(lists[n]);
      }
    }
  }
}
