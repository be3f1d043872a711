/** Path costs of the search. The source keeps them as Python numbers and uses
    float('inf') for "not reached yet"; here a cost is a natural number or the
    infinity sentinel, and the two operations the search applies to costs
    (adding a step, comparing) are written out with IEEE semantics:
    inf + k == inf, inf < inf is false, k < inf is true. */
module Costs {

  datatype Cost = Fin(n: nat) | Inf

  /** `x + k` for a cost `x` and a finite amount `k`: never below `x`,
      strictly above a finite `x` when `k > 0`, and infinite exactly when `x`
      is. */
  function Add(x: Cost, k: nat): (r: Cost)
    ensures Le(x, r)
    ensures x.Fin? && k > 0 ==> Lt(x, r)
    ensures r.Inf? <==> x.Inf?
  {
    match x
    case Fin(a) => Fin(a + k)
    case Inf => Inf
  }

  /** Python's `<` on the values the source stores in g and f: `inf` is
      below nothing, every finite cost is below `inf`, and no cost is below
      an equal one. */
  predicate Lt(x: Cost, y: Cost): (r: bool)
    ensures r ==> x.Fin?
    ensures x.Fin? && y.Inf? ==> r
    ensures r ==> x != y
  {
    match (x, y)
    case (Fin(a), Fin(b)) => a < b
    case (Fin(_), Inf) => true
    case (Inf, _) => false
  }

  /** Python's `<=` on the same values. */
  predicate Le(x: Cost, y: Cost)
  {
    x == y || Lt(x, y)
  }

  lemma LtIrreflexive(x: Cost)
    ensures !Lt(x, x)
  {
  }

  lemma LtTransitive(x: Cost, y: Cost, z: Cost)
    requires Lt(x, y) && Lt(y, z)
    ensures Lt(x, z)
  {
  }

  lemma LtAsymmetric(x: Cost, y: Cost)
    requires Lt(x, y)
    ensures !Lt(y, x)
  {
  }

  /** The order is total: two costs neither of which is below the other are equal. */
  lemma LtTrichotomy(x: Cost, y: Cost)
    ensures Lt(x, y) || x == y || Lt(y, x)
  {
  }
}
