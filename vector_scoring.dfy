/** The scoring of a (query, candidate) pair: the union vocabulary of their
    token maps, both maps as vectors over it, and the accumulators of the
    cosine similarity. */
module VectorScoring {
  import opened Seqs
  import opened TermVectors

  /** One loop of `getTokensUnion`: every key of `keys` that is not yet listed
      is appended, visiting the keys in the map's own (unspecified) order. */
  method AddMissing(res0: seq<string>, keys: set<string>) returns (res: seq<string>)
    requires Distinct(res0)
    ensures Distinct(res)
    ensures forall x :: x in res <==> x in res0 || x in keys
    ensures res0 <= res
    ensures (forall x :: x in keys ==> x !in res0) ==> |res| == |res0| + |keys|
  {
    res := res0;
    var rest := keys;
    while rest != {}
      invariant rest <= keys
      invariant Distinct(res)
      invariant forall x :: x in res <==> x in res0 || (x in keys && x !in rest)
      invariant res0 <= res
      invariant (forall x :: x in keys ==> x !in res0) ==> |res| + |rest| == |res0| + |keys|
      decreases |rest|
    {
      var ts :| ts in rest;
      if ts !in res {
        DistinctSnoc(res, ts);
        res := res + [ts];
      }
      rest := rest - {ts};
    }
  }

  /** `getTokensUnion`: the keys of the first map, then the keys of the second
      map that are not yet listed. */
  method GetTokensUnion(m1: map<string, int>, m2: map<string, int>) returns (res: seq<string>)
    ensures Distinct(res)
    ensures forall s :: s in res <==> s in m1 || s in m2
    ensures |m1.Keys| <= |res|
    ensures forall k :: 0 <= k < |res| ==> (res[k] in m1 <==> k < |m1.Keys|)
  {
    var first := AddMissing([], m1.Keys);
    res := AddMissing(first, m2.Keys);
    DistinctPrefix(res, first);
  }

  /** The inner loop of `getVector`: the map's keys are scanned for `s`, and on
      a match its weight is put into the vector under `s`. */
  method PutIfKey(m: map<string, int>, s: string, vector0: map<string, int>) returns (vector: map<string, int>, found: bool)
    ensures found <==> s in m
    ensures vector == if found then vector0[s := m[s]] else vector0
  {
    vector := vector0;
    found := false;
    var rest := m.Keys;
    while rest != {}
      invariant rest <= m.Keys
      invariant found <==> s in m.Keys - rest
      invariant vector == if found then vector0[s := m[s]] else vector0
      decreases |rest|
    {
      var t :| t in rest;
      if s == t {
        vector := vector[s := m[t]];
        found := true;
      }
      rest := rest - {t};
    }
  }

  /** `getVector`: for each term of the vocabulary, the map's weight when the
      map has the term and 0 otherwise. */
  method GetVector(m: map<string, int>, union: seq<string>) returns (vector: map<string, int>)
    ensures forall s :: s in vector <==> s in union
    ensures forall s :: s in vector ==> vector[s] == (if s in m then m[s] else 0)
    ensures vector == Aligned(m, Elems(union))
  {
    vector := map[];
    var found := false;
    for i := 0 to |union|
      invariant vector == Aligned(m, Elems(union[..i]))
    {
      var s := union[i];
      assert union[..i + 1] == union[..i] + [s];
      ElemsSnoc(union[..i], s);
      AlignedInsert(m, Elems(union[..i]), s);
      vector, found := PutIfKey(m, s, vector);
      if !found {
        vector := vector[s := 0];
      }
    }
    assert union[..|union|] == union;
  }

  /** The three accumulators of `computeCosineSimilarity`: over the query
      vector's keys, the sum of products, the sum of the query's squares and the
      sum of the document's squares. The document vector must hold every key of
      the query vector, or the unboxing of the missing weight fails. */
  method ComputeCosineSimilarity(q: map<string, int>, d: map<string, int>) returns (ab: int, a2: int, b2: int)
    requires q.Keys <= d.Keys
    ensures ab == Dot(q, d)
    ensures a2 == SqNorm(q)
    ensures b2 == Sum(q.Keys, Squares(d))
    ensures q.Keys == d.Keys ==> b2 == SqNorm(d)
  {
    ab, a2, b2 := 0, 0, 0;
    var rest := q.Keys;
    ghost var done: set<string> := {};
    while rest != {}
      invariant rest <= q.Keys && done <= q.Keys
      invariant forall x :: x in q ==> (x in done <==> x !in rest)
      invariant (ab, a2, b2) == Accumulated(q, d, done)
      decreases |rest|
    {
      var s :| s in rest;
      var ai := q[s];
      var bi := d[s];
      AccumulateStep(q, d, done, s);
      ab := ab + ai * bi;
      a2 := a2 + ai * ai;
      b2 := b2 + bi * bi;
      done := done + {s};
      rest := rest - {s};
    }
    assert done == q.Keys;
    AccumulateDone(q, d);
  }

  /** The three sums the accumulators hold once the keys `done` are visited. */
  ghost function Accumulated(q: map<string, int>, d: map<string, int>, done: set<string>): (int, int, int)
    requires q.Keys <= d.Keys && done <= q.Keys
  {
    (Sum(done, Products(q, d)), Sum(done, Squares(q)), Sum(done, Squares(d)))
  }

  /** One iteration of the accumulator loop adds the new key's terms. */
  lemma AccumulateStep(q: map<string, int>, d: map<string, int>, done: set<string>, s: string)
    requires q.Keys <= d.Keys && done <= q.Keys && s in q && s !in done
    ensures Accumulated(q, d, done + {s})
            == (Accumulated(q, d, done).0 + q[s] * d[s],
                Accumulated(q, d, done).1 + q[s] * q[s],
                Accumulated(q, d, done).2 + d[s] * d[s])
  {
    SumInsert(done, Products(q, d), s);
    SumInsert(done, Squares(q), s);
    SumInsert(done, Squares(d), s);
  }

  /** Once every key is visited the accumulators are the dot product and norms. */
  lemma AccumulateDone(q: map<string, int>, d: map<string, int>)
    requires q.Keys <= d.Keys
    ensures Accumulated(q, d, q.Keys).0 == Dot(q, d)
    ensures Accumulated(q, d, q.Keys).1 == SqNorm(q)
    ensures Accumulated(q, d, q.Keys).2 == Sum(q.Keys, Squares(d))
    ensures q.Keys == d.Keys ==> Accumulated(q, d, q.Keys).2 == SqNorm(d)
  {
    assert q.Keys * d.Keys == q.Keys;
  }

  /** The scoring of one (query, candidate) pair: the union vocabulary, both
      vectors over it, and the accumulators over those vectors, which are the
      dot product and the squared norms of the two token maps themselves. */
  method PairSimilarity(q: map<string, int>, d: map<string, int>) returns (ab: int, a2: int, b2: int)
    ensures ab == Dot(q, d)
    ensures a2 == SqNorm(q)
    ensures b2 == SqNorm(d)
  {
    var union := GetTokensUnion(q, d);
    assert q.Keys + d.Keys <= Elems(union);
    var vq := GetVector(q, union);
    var vd := GetVector(d, union);
    ab, a2, b2 := ComputeCosineSimilarity(vq, vd);
    AlignedDot(q, d, Elems(union));
    AlignedSqNorm(q, Elems(union));
    AlignedSqNorm(d, Elems(union));
  }
}
