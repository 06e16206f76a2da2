/** Sums of real amounts over a set of keys. The frame step adds up support
    shields and breach damage over sets whose iteration order the simulator
    leaves to the runtime; a sum over a set is the same whatever the order. */
module Sums {
  /** The sum of m[k] over the keys k in S. */
  ghost function Sum<T>(m: map<T, real>, S: set<T>): real
    requires S <= m.Keys
    decreases S
  {
    if S == {} then 0.0 else var k :| k in S; m[k] + Sum(m, S - {k})
  }

  /** Any key of S may be taken out first: the sum does not depend on the order
      in which the keys are visited. */
  lemma {:induction false} SumPick<T>(m: map<T, real>, S: set<T>, k: T)
    requires S <= m.Keys && k in S
    ensures Sum(m, S) == m[k] + Sum(m, S - {k})
    decreases S
  {
    var j :| j in S && Sum(m, S) == m[j] + Sum(m, S - {j});
    if j != k {
      SumPick(m, S - {j}, k);
      SumPick(m, S - {k}, j);
      assert S - {j} - {k} == S - {k} - {j};
    }
  }

  /** Adding one more key adds its amount. */
  lemma SumAdd<T>(m: map<T, real>, S: set<T>, k: T)
    requires S <= m.Keys && k in m && k !in S
    ensures Sum(m, S + {k}) == Sum(m, S) + m[k]
  {
    SumPick(m, S + {k}, k);
    assert S + {k} - {k} == S;
  }

  /** Only the amounts on S matter. */
  lemma {:induction false} SumAgree<T>(m: map<T, real>, n: map<T, real>, S: set<T>)
    requires S <= m.Keys && S <= n.Keys
    requires forall k :: k in S ==> m[k] == n[k]
    ensures Sum(m, S) == Sum(n, S)
    decreases S
  {
    if S != {} {
      var k :| k in S;
      SumPick(m, S, k);
      SumPick(n, S, k);
      SumAgree(m, n, S - {k});
    }
  }

  /** A sum of non-negative amounts is non-negative. */
  lemma {:induction false} SumNonNegative<T>(m: map<T, real>, S: set<T>)
    requires S <= m.Keys && forall k :: k in S ==> m[k] >= 0.0
    ensures Sum(m, S) >= 0.0
    decreases S
  {
    if S != {} {
      var k :| k in S;
      SumPick(m, S, k);
      SumNonNegative(m, S - {k});
    }
  }

  /** Keys whose amount is zero contribute nothing. */
  lemma {:induction false} SumZero<T>(m: map<T, real>, S: set<T>)
    requires S <= m.Keys && forall k :: k in S ==> m[k] == 0.0
    ensures Sum(m, S) == 0.0
    decreases S
  {
    if S != {} {
      var k :| k in S;
      SumPick(m, S, k);
      SumZero(m, S - {k});
    }
  }
}
