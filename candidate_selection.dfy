/** Which records are queries, which records are the candidates of a query,
    and the list of scored entries each query is given. */
module CandidateSelection {
  import opened TermVectors
  import opened Ranking

  /** The label that marks a record as the query. */
  const QueryLabel := 99

  /** The indices of the query records among the first `n`, in corpus order. */
  function Queries(rels: seq<int>, n: nat): (r: seq<nat>)
    requires n <= |rels|
    ensures forall k :: 0 <= k < |r| ==> r[k] < n
    ensures forall p, q :: 0 <= p < q < |r| ==> r[p] < r[q]
  {
    if n == 0 then []
    else Queries(rels, n - 1) + (if rels[n - 1] == QueryLabel then [n - 1] else [])
  }

  /** They are exactly the records labelled as queries. */
  lemma {:induction false} QueriesMembers(rels: seq<int>, n: nat)
    requires n <= |rels|
    ensures forall j :: j in Queries(rels, n) <==> 0 <= j < n && rels[j] == QueryLabel
  {
    if n > 0 {
      QueriesMembers(rels, n - 1);
      var r := Queries(rels, n - 1);
      if rels[n - 1] == QueryLabel {
        assert Queries(rels, n) == r + [n - 1];
      } else {
        assert Queries(rels, n) == r;
      }
    }
  }

  /** The indices, among the first `n` records, of those labelled 0 or 1 whose
      query id is `qid`, in corpus order: the candidates of a query with that id. */
  function Candidates(qIds: seq<int>, rels: seq<int>, qid: int, n: nat): (r: seq<nat>)
    requires |qIds| == |rels| && n <= |rels|
    ensures forall k :: 0 <= k < |r| ==> r[k] < n
    ensures forall p, q :: 0 <= p < q < |r| ==> r[p] < r[q]
  {
    if n == 0 then []
    else
      Candidates(qIds, rels, qid, n - 1)
      + (if (rels[n - 1] == 0 || rels[n - 1] == 1) && qIds[n - 1] == qid then [n - 1] else [])
  }

  /** They are exactly the records labelled 0 or 1 that carry the id. */
  lemma {:induction false} CandidatesMembers(qIds: seq<int>, rels: seq<int>, qid: int, n: nat)
    requires |qIds| == |rels| && n <= |rels|
    ensures forall j :: j in Candidates(qIds, rels, qid, n) <==>
              0 <= j < n && (rels[j] == 0 || rels[j] == 1) && qIds[j] == qid
  {
    if n > 0 {
      CandidatesMembers(qIds, rels, qid, n - 1);
      var r := Candidates(qIds, rels, qid, n - 1);
      if (rels[n - 1] == 0 || rels[n - 1] == 1) && qIds[n - 1] == qid {
        assert Candidates(qIds, rels, qid, n) == r + [n - 1];
      } else {
        assert Candidates(qIds, rels, qid, n) == r;
      }
    }
  }

  /** `qIdList.get(j) == qIdList.get(i)` on two autoboxed `Integer`s: the
      same object when both come from the same cell, and otherwise only when
      the values are equal and inside the range -128..127 that
      `Integer.valueOf` caches. */
  predicate BoxedSame(qIds: seq<int>, i: nat, j: nat)
    requires i < |qIds| && j < |qIds|
  {
    i == j || (qIds[i] == qIds[j] && -128 <= qIds[i] <= 127)
  }

  /** The candidates of the query record `i` among the first `n` records as
      the selection test is written, comparing boxed query ids by reference. */
  function BoxedCandidates(qIds: seq<int>, rels: seq<int>, i: nat, n: nat): (r: seq<nat>)
    requires |qIds| == |rels| && i < |rels| && n <= |rels|
    ensures forall k :: 0 <= k < |r| ==> r[k] < n
    ensures forall p, q :: 0 <= p < q < |r| ==> r[p] < r[q]
  {
    if n == 0 then []
    else
      BoxedCandidates(qIds, rels, i, n - 1)
      + (if (rels[n - 1] == 0 || rels[n - 1] == 1) && BoxedSame(qIds, i, n - 1) then [n - 1] else [])
  }

  /** They are the records labelled 0 or 1 whose boxed id is the same object. */
  lemma {:induction false} BoxedCandidatesMembers(qIds: seq<int>, rels: seq<int>, i: nat, n: nat)
    requires |qIds| == |rels| && i < |rels| && n <= |rels|
    ensures forall j :: j in BoxedCandidates(qIds, rels, i, n) <==>
              0 <= j < n && (rels[j] == 0 || rels[j] == 1) && BoxedSame(qIds, i, j)
  {
    if n > 0 {
      BoxedCandidatesMembers(qIds, rels, i, n - 1);
      var r := BoxedCandidates(qIds, rels, i, n - 1);
      if (rels[n - 1] == 0 || rels[n - 1] == 1) && BoxedSame(qIds, i, n - 1) {
        assert BoxedCandidates(qIds, rels, i, n) == r + [n - 1];
      } else {
        assert BoxedCandidates(qIds, rels, i, n) == r;
      }
    }
  }

  /** Inside the cached range, reference comparison selects exactly the
      candidates that value comparison selects. */
  lemma {:induction false} BoxedCandidatesInCache(qIds: seq<int>, rels: seq<int>, i: nat, n: nat)
    requires |qIds| == |rels| && i < |rels| && n <= |rels| && -128 <= qIds[i] <= 127
    ensures BoxedCandidates(qIds, rels, i, n) == Candidates(qIds, rels, qIds[i], n)
  {
    if n > 0 {
      BoxedCandidatesInCache(qIds, rels, i, n - 1);
    }
  }

  /** Outside it, the relevant document of query 1000 is not a candidate of its
      own query. */
  lemma BoxedCandidatesMissLargeId()
    ensures Candidates([1000, 1000], [QueryLabel, 1], 1000, 2) == [1]
    ensures BoxedCandidates([1000, 1000], [QueryLabel, 1], 0, 2) == []
  {
    var qIds, rels := [1000, 1000], [QueryLabel, 1];
    assert Candidates(qIds, rels, 1000, 1) == [];
    assert !BoxedSame(qIds, 0, 1);
    assert BoxedCandidates(qIds, rels, 0, 1) == [];
  }

  /** The Similarity entry of the query record `i` and the candidate `j`: the
      cosine applied to the dot product and squared norms of their token maps,
      with the rank not yet set. */
  ghost function Score(toks: seq<map<string, int>>, i: nat, j: nat, cosine: (int, int, int) -> real): Similarity
    requires i < |toks| && j < |toks|
  {
    Similarity(i, j, cosine(Dot(toks[i], toks[j]), SqNorm(toks[i]), SqNorm(toks[j])), 0)
  }

  /** The entries the query record `i` is given from the first `n` records:
      one per candidate among them, each tagged with the query. */
  ghost function Scored(qIds: seq<int>, rels: seq<int>, toks: seq<map<string, int>>,
                        cosine: (int, int, int) -> real, i: nat, n: nat): (r: seq<Similarity>)
    requires |qIds| == |rels| == |toks| && i < |toks| && n <= |toks|
    ensures IndexesIn(r, n)
    ensures forall k :: 0 <= k < |r| ==> r[k].doc1Index == i && r[k].rank == 0
  {
    if n == 0 then []
    else
      Scored(qIds, rels, toks, cosine, i, n - 1)
      + (if (rels[n - 1] == 0 || rels[n - 1] == 1) && qIds[n - 1] == qIds[i] then [Score(toks, i, n - 1, cosine)] else [])
  }

  /** The entries are exactly the scores of the query's candidates, in
      candidate order. */
  lemma {:induction false} ScoredCandidates(qIds: seq<int>, rels: seq<int>, toks: seq<map<string, int>>,
                                            cosine: (int, int, int) -> real, i: nat, n: nat)
    requires |qIds| == |rels| == |toks| && i < |toks| && n <= |toks|
    ensures |Scored(qIds, rels, toks, cosine, i, n)| == |Candidates(qIds, rels, qIds[i], n)|
    ensures forall k :: 0 <= k < |Candidates(qIds, rels, qIds[i], n)| ==>
              Scored(qIds, rels, toks, cosine, i, n)[k] == Score(toks, i, Candidates(qIds, rels, qIds[i], n)[k], cosine)
  {
    if n > 0 {
      ScoredCandidates(qIds, rels, toks, cosine, i, n - 1);
      var s, c := Scored(qIds, rels, toks, cosine, i, n - 1), Candidates(qIds, rels, qIds[i], n - 1);
      var s', c' := Scored(qIds, rels, toks, cosine, i, n), Candidates(qIds, rels, qIds[i], n);
      if (rels[n - 1] == 0 || rels[n - 1] == 1) && qIds[n - 1] == qIds[i] {
        assert s' == s + [Score(toks, i, n - 1, cosine)];
        assert c' == c + [n - 1];
        forall k | 0 <= k < |c'|
          ensures s'[k] == Score(toks, i, c'[k], cosine)
        {
          if k < |c| {
            assert s'[k] == s[k] && c'[k] == c[k];
          }
        }
      } else {
        assert s' == s && c' == c;
      }
    }
  }
}
