/** Values over a DAG whose vertices are linear combinations of their children. */
module Computing {
  import opened Dags
  import opened Galois
  import P = Pruning

  /** The value of a vertex is the combination of its children's. */
  ghost predicate Computes<F(!new)>(f: GF<F>, g: Dag<F>, v: int -> F) {
    P.Solved(g, Combine(f), v)
  }

  ghost function Combine<F(!new)>(f: GF<F>): (seq<F>, seq<F>) -> F {
    (coefs: seq<F>, xs: seq<F>) => Dot(f, coefs, xs)
  }

  /** Two evaluations that agree on the leaves agree everywhere. */
  lemma SameFromLeaves<F(!new)>(f: GF<F>, g: Dag<F>, rank: map<int, nat>, a: int -> F, b: int -> F, v: int)
    requires Closed(g) && Ranked(g, rank) && Computes(f, g, a) && Computes(f, g, b) && v in g
    requires forall u | u in g && g[u].kind.Leaf? :: a(u) == b(u)
    ensures a(v) == b(v)
  {
    hide Dot;
    P.ValuesUnique(g, rank, Combine(f), a, b, v);
  }

  lemma ComputesIs<F(!new)>(f: GF<F>, g: Dag<F>, v: int -> F)
    requires P.Solved(g, Combine(f), v)
    ensures Computes(f, g, v)
  {}
}
