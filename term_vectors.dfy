/** Term vectors as maps from token text to an integer weight, and the sums the
    cosine similarity is built from. A map has no order, so a sum over its keys
    is defined over a set and shown not to depend on the order of the terms. */
module TermVectors {

  /** Some element of a non-empty set. */
  ghost function Pick(ks: set<string>): string
    requires ks != {}
  {
    var k :| k in ks; k
  }

  /** The sum of `w[k]` over all `k` in `ks`. */
  ghost function Sum(ks: set<string>, w: map<string, int>): int
    requires ks <= w.Keys
    decreases |ks|
  {
    if ks == {} then 0 else var k := Pick(ks); w[k] + Sum(ks - {k}, w)
  }

  /** Products of the weights of the terms the two vectors share. */
  ghost function Products(q: map<string, int>, d: map<string, int>): (p: map<string, int>)
    ensures p.Keys == q.Keys * d.Keys
  {
    map s | s in q.Keys * d.Keys :: q[s] * d[s]
  }

  ghost function Squares(v: map<string, int>): (p: map<string, int>)
    ensures p.Keys == v.Keys
  {
    map s | s in v.Keys :: v[s] * v[s]
  }

  /** The dot product: the sum of `q[s] * d[s]` over the shared terms. */
  ghost function Dot(q: map<string, int>, d: map<string, int>): int
  {
    Sum(q.Keys * d.Keys, Products(q, d))
  }

  /** The squared Euclidean norm. */
  ghost function SqNorm(v: map<string, int>): int
  {
    Sum(v.Keys, Squares(v))
  }

  /** The vector of `m` over the vocabulary `vocab`: `m[s]` where `m` has the
      term, 0 elsewhere. */
  ghost function Aligned(m: map<string, int>, vocab: set<string>): (v: map<string, int>)
    ensures v.Keys == vocab
  {
    map s | s in vocab :: if s in m then m[s] else 0
  }

  /** Aligning on one more term puts that term's weight, or 0, into the vector. */
  lemma AlignedInsert(m: map<string, int>, vocab: set<string>, s: string)
    ensures Aligned(m, vocab + {s}) == Aligned(m, vocab)[s := if s in m then m[s] else 0]
  {
  }

  // ---------------------------------------------------------------------------
  // Sums over sets

  /** Any term can be taken out of the sum first: the sum does not depend on
      the order in which the keys are visited. */
  lemma {:induction false} SumRemove(ks: set<string>, w: map<string, int>, y: string)
    requires ks <= w.Keys && y in ks
    ensures Sum(ks, w) == w[y] + Sum(ks - {y}, w)
    decreases |ks|
  {
    var k := Pick(ks);
    if k != y {
      SumRemove(ks - {k}, w, y);
      SumRemove(ks - {y}, w, k);
      assert ks - {k} - {y} == ks - {y} - {k};
    }
  }

  /** Adding a new term to the set adds its weight. */
  lemma SumInsert(ks: set<string>, w: map<string, int>, y: string)
    requires ks + {y} <= w.Keys && y !in ks
    ensures Sum(ks + {y}, w) == Sum(ks, w) + w[y]
  {
    SumRemove(ks + {y}, w, y);
    assert ks + {y} - {y} == ks;
  }

  lemma {:induction false} SumZero(ks: set<string>, w: map<string, int>)
    requires ks <= w.Keys && forall k :: k in ks ==> w[k] == 0
    ensures Sum(ks, w) == 0
    decreases |ks|
  {
    if ks != {} {
      SumZero(ks - {Pick(ks)}, w);
    }
  }

  lemma {:induction false} SumNonNegative(ks: set<string>, w: map<string, int>)
    requires ks <= w.Keys && forall k :: k in ks ==> w[k] >= 0
    ensures Sum(ks, w) >= 0
    decreases |ks|
  {
    if ks != {} {
      SumNonNegative(ks - {Pick(ks)}, w);
    }
  }

  /** Two weight maps that agree on `ks` have the same sum over `ks`. */
  lemma {:induction false} SumCongruent(ks: set<string>, w1: map<string, int>, w2: map<string, int>)
    requires ks <= w1.Keys && ks <= w2.Keys
    requires forall k :: k in ks ==> w1[k] == w2[k]
    ensures Sum(ks, w1) == Sum(ks, w2)
    decreases |ks|
  {
    if ks != {} {
      var k := Pick(ks);
      SumCongruent(ks - {k}, w1, w2);
    }
  }

  /** Terms of weight 0 do not change a sum. */
  lemma {:induction false} SumZeroExtension(ks: set<string>, extra: set<string>, w: map<string, int>)
    requires ks + extra <= w.Keys && ks !! extra
    requires forall k :: k in extra ==> w[k] == 0
    ensures Sum(ks + extra, w) == Sum(ks, w)
    decreases |extra|
  {
    if extra != {} {
      var e := Pick(extra);
      SumRemove(ks + extra, w, e);
      assert ks + extra - {e} == ks + (extra - {e});
      SumZeroExtension(ks, extra - {e}, w);
    } else {
      assert ks + extra == ks;
    }
  }

  // ---------------------------------------------------------------------------
  // Dot products and norms

  /** The dot product is symmetric. */
  lemma DotSymmetric(q: map<string, int>, d: map<string, int>)
    ensures Dot(q, d) == Dot(d, q)
  {
    assert q.Keys * d.Keys == d.Keys * q.Keys;
    SumCongruent(q.Keys * d.Keys, Products(q, d), Products(d, q));
  }

  /** Vectors whose non-zero terms are disjoint are orthogonal. */
  lemma DotDisjointSupport(q: map<string, int>, d: map<string, int>)
    requires forall s :: s in q && s in d ==> q[s] == 0 || d[s] == 0
    ensures Dot(q, d) == 0
  {
    SumZero(q.Keys * d.Keys, Products(q, d));
  }

  /** The dot product of a vector with itself is its squared norm. */
  lemma DotSelf(v: map<string, int>)
    ensures Dot(v, v) == SqNorm(v)
  {
    assert v.Keys * v.Keys == v.Keys;
    SumCongruent(v.Keys, Products(v, v), Squares(v));
  }

  lemma SqNormNonNegative(v: map<string, int>)
    ensures SqNorm(v) >= 0
  {
    SumNonNegative(v.Keys, Squares(v));
  }

  /** Aligning two vectors on a vocabulary that covers both of them does not
      change their dot product. */
  lemma AlignedDot(q: map<string, int>, d: map<string, int>, vocab: set<string>)
    requires q.Keys + d.Keys <= vocab
    ensures Dot(Aligned(q, vocab), Aligned(d, vocab)) == Dot(q, d)
  {
    var aq, ad := Aligned(q, vocab), Aligned(d, vocab);
    var shared := q.Keys * d.Keys;
    assert aq.Keys * ad.Keys == shared + (vocab - shared);
    SumZeroExtension(shared, vocab - shared, Products(aq, ad));
    SumCongruent(shared, Products(aq, ad), Products(q, d));
  }

  /** Aligning a vector on a vocabulary that covers it does not change its norm. */
  lemma AlignedSqNorm(m: map<string, int>, vocab: set<string>)
    requires m.Keys <= vocab
    ensures SqNorm(Aligned(m, vocab)) == SqNorm(m)
  {
    var am := Aligned(m, vocab);
    assert vocab == m.Keys + (vocab - m.Keys);
    SumZeroExtension(m.Keys, vocab - m.Keys, Squares(am));
    SumCongruent(m.Keys, Squares(am), Squares(m));
  }

  /** Two texts without a common term are orthogonal once aligned. */
  lemma AlignedDisjoint(q: map<string, int>, d: map<string, int>, vocab: set<string>)
    requires q.Keys !! d.Keys
    ensures Dot(Aligned(q, vocab), Aligned(d, vocab)) == 0
  {
    DotDisjointSupport(Aligned(q, vocab), Aligned(d, vocab));
  }
}
