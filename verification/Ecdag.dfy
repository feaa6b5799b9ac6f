/** Construction of the repair DAG (src/ec/ECDAG.cc). */
module Ecdags {
  import opened Dags

  const REQUESTOR := 32767

  /** The header over the sub-packets of block b. */
  function HeaderOf(b: int): int {
    REQUESTOR - b
  }

  /** A mirrored DAG; ranks below clock witness that it has no cycle. */
  ghost predicate Shape<C>(g: Dag<C>, rank: map<int, nat>, clock: nat) {
    && Mirrored(g) && Ranked(g, rank) && rank.Keys == g.Keys
    && (forall v | v in rank :: rank[v] < clock)
  }

  /** The header and leaf lists fit the kinds; the vertices cs are about to get a parent. */
  ghost predicate ListsFit<C>(g: Dag<C>, headers: seq<int>, leaves: seq<int>, cs: set<int>) {
    && Distinct(headers) && Distinct(leaves)
    && (forall v :: v in leaves <==> v in g && g[v].kind.Leaf?)
    && (forall v :: v in headers <==> v in g && g[v].kind.Root?)
    && (forall v | v in g && g[v].kind.Leaf? :: g[v].children == [] && (g[v].parents != [] || v in cs))
    && (forall v | v in g && !g[v].kind.Leaf? :: g[v].kind.Root? <==> g[v].parents == [] && v !in cs)
    && (forall v | v in g :: !g[v].toDelete)
  }

  ghost predicate SameEdges<C>(a: ECNode<C>, b: ECNode<C>) {
    a.children == b.children && a.coefs == b.coefs && a.parents == b.parents
  }

  /** A header that becomes a child turns intermediate. */
  function KindAsChild(kind: Kind, isChild: bool): Kind {
    if kind.Root? && isChild then Intermediate else kind
  }

  /** Old vertices kept all but their kind, given the new children cs; new vertices are isolated leaves. */
  ghost predicate Extends<C>(g: Dag<C>, g': Dag<C>, cs: set<int>) {
    && g.Keys <= g'.Keys
    && (forall v | v in g :: SameEdges(g[v], g'[v]) && g'[v].kind == KindAsChild(g[v].kind, v in cs))
    && (forall v | v in g' && v !in g :: g'[v] == ECNode(Leaf, [], [], [], false))
  }

  lemma ExtendsItself<C>(g: Dag<C>)
    ensures Extends(g, g, {})
  {}

  lemma ExtendsTwice<C>(g: Dag<C>, g': Dag<C>, g'': Dag<C>, cs: set<int>, c: int)
    requires Extends(g, g', cs) && Extends(g', g'', {c}) && forall v | v in g' && g'[v].kind.Leaf? :: g''[v] == g'[v]
    ensures Extends(g, g'', cs + {c})
  {}

  ghost function Elements(s: seq<int>): set<int> {
    set i | 0 <= i < |s| :: s[i]
  }

  lemma ElementsNext(s: seq<int>, i: nat)
    requires i < |s|
    ensures Elements(s[..i + 1]) == Elements(s[..i]) + {s[i]}
  {
    var a, b := s[..i + 1], s[..i];
    assert forall j | 0 <= j < i :: a[j] == b[j] == s[j];
    assert a[i] == s[i];
  }

  lemma AllElements<C>(s: seq<int>, g: Dag<C>)
    requires Elements(s) <= g.Keys
    ensures forall k | 0 <= k < |s| :: s[k] in g
  {}

  lemma ShapeClosed<C>(g: Dag<C>, rank: map<int, nat>, clock: nat)
    requires Shape(g, rank, clock)
    ensures Closed(g)
  {}

  /** What Join does to the graph: one new vertex over cidx, new leaves for unknown children, and nothing
      else about how vertices are computed. */
  ghost predicate JoinAdds<C>(g: Dag<C>, g': Dag<C>, pidx: int, cidx: seq<int>, coefs: seq<C>) {
    && g'.Keys == g.Keys + Elements(cidx) + {pidx} && pidx !in g
    && g'[pidx].children == cidx && g'[pidx].coefs == coefs && g'[pidx].kind.Root?
    && (forall v | v in g :: g'[v].children == g[v].children && g'[v].coefs == g[v].coefs
          && g'[v].kind == KindAsChild(g[v].kind, v in Elements(cidx)))
    && (forall v | v in g' && v !in g && v != pidx :: g'[v].kind.Leaf?)
  }

  lemma ShapeAddLeaf<C>(g: Dag<C>, rank: map<int, nat>, clock: nat, c: int)
    requires Shape(g, rank, clock) && c !in g
    ensures Shape(g[c := ECNode(Leaf, [], [], [], false)], rank[c := clock], clock + 1)
  {
    MirroredAddLeaf(g, c);
    hide Mirrored;
  }

  lemma MirroredAddLeaf<C>(g: Dag<C>, c: int)
    requires Mirrored(g) && c !in g
    ensures Mirrored(g[c := ECNode(Leaf, [], [], [], false)])
  {
    var g' := g[c := ECNode(Leaf, [], [], [], false)];
    forall v, p | v in g' && p in g' ensures multiset(g'[v].parents)[p] == multiset(g'[p].children)[v] {
      if v == c && p != c {
        assert v !in g[p].children by { NotAChild(g, p, c); }
      }
      if p == c && v != c {
        assert p !in g[v].parents by { NotAParent(g, v, c); }
      }
    }
  }

  lemma NotAChild<C>(g: Dag<C>, p: int, c: int)
    requires Closed(g) && p in g && c !in g
    ensures c !in g[p].children
  {}

  lemma NotAParent<C>(g: Dag<C>, v: int, c: int)
    requires Closed(g) && v in g && c !in g
    ensures c !in g[v].parents
  {}

  lemma ShapeSameEdges<C>(g: Dag<C>, g': Dag<C>, rank: map<int, nat>, clock: nat)
    requires Shape(g, rank, clock) && g.Keys == g'.Keys && forall v | v in g :: SameEdges(g[v], g'[v])
    ensures Shape(g', rank, clock)
  {
    hide Mirrored, Closed;
    MirroredSameEdges(g, g');
    forall v | v in g' ensures g'[v].children == g[v].children {
      assert SameEdges(g[v], g'[v]);
    }
  }

  lemma MirroredSameEdges<C>(g: Dag<C>, g': Dag<C>)
    requires Mirrored(g) && g.Keys == g'.Keys && forall v | v in g :: SameEdges(g[v], g'[v])
    ensures Mirrored(g')
  {
    forall v | v in g' ensures g'[v].children == g[v].children && g'[v].parents == g[v].parents {
      assert SameEdges(g[v], g'[v]);
    }
  }

  /** erase(find(s, x)) on a list without repetitions. */
  function Without(s: seq<int>, x: int): seq<int> {
    if s == [] then [] else if s[0] == x then s[1..] else [s[0]] + Without(s[1..], x)
  }

  lemma {:induction false} WithoutDistinct(s: seq<int>, x: int)
    requires Distinct(s)
    ensures Distinct(Without(s, x))
    ensures forall y :: y in Without(s, x) <==> y in s && y != x
  {
    if s != [] {
      WithoutDistinct(s[1..], x);
      assert s == [s[0]] + s[1..];
      var h := s[0];
      assert h !in s[1..];
    }
  }

  class ECDAG<C> {
    var nodes: Dag<C>
    var headers: seq<int>
    var leaves: seq<int>
    var concacts: seq<int>
    ghost var rank: map<int, nat>
    ghost var clock: nat

    constructor ()
      ensures Valid() && nodes == map[] && headers == [] && leaves == [] && concacts == []
    {
      nodes, headers, leaves, concacts := map[], [], [], [];
      rank, clock := map[], 0;
    }

    ghost predicate Valid()
      reads this
    {
      Shape(nodes, rank, clock) && ListsFit(nodes, headers, leaves, {})
    }

    /** A child that Join mentions: created as a leaf, or no longer a header (src/ec/ECDAG.cc:36-58). */
    method Adopt(c: int, ghost cs: set<int>)
      requires Shape(nodes, rank, clock) && ListsFit(nodes, headers, leaves, cs)
      modifies this
      ensures Shape(nodes, rank, clock) && ListsFit(nodes, headers, leaves, cs + {c})
      ensures Extends(old(nodes), nodes, {c}) && nodes.Keys == old(nodes).Keys + {c}
      ensures forall v | v in old(nodes) && old(nodes)[v].kind.Leaf? :: v in nodes && nodes[v] == old(nodes)[v]
      ensures concacts == old(concacts)
    {
      hide Shape, ListsFit;
      if c !in nodes {
        ShapeAddLeaf(nodes, rank, clock, c);
        ListsAddLeaf(nodes, headers, leaves, cs, c);
        nodes := nodes[c := ECNode(Leaf, [], [], [], false)];
        leaves := leaves + [c];
        rank, clock := rank[c := clock], clock + 1;
      } else if c in headers {
        ListsDropHeader(nodes, headers, leaves, cs, c);
        ghost var g' := nodes[c := nodes[c].(kind := Intermediate)];
        ShapeSameEdges(nodes, g', rank, clock);
        headers := Without(headers, c);
        nodes := nodes[c := nodes[c].(kind := Intermediate)];
      } else {
        ListsKeep(nodes, headers, leaves, cs, c);
      }
    }

    method AdoptAll(cidx: seq<int>)
      requires Valid()
      modifies this
      ensures Shape(nodes, rank, clock) && ListsFit(nodes, headers, leaves, Elements(cidx))
      ensures Extends(old(nodes), nodes, Elements(cidx)) && nodes.Keys == old(nodes).Keys + Elements(cidx)
      ensures concacts == old(concacts)
    {
      hide Shape, ListsFit, Extends;
      ExtendsItself(nodes);
      assert Elements(cidx[..0]) == {};
      for i := 0 to |cidx|
        invariant Shape(nodes, rank, clock) && ListsFit(nodes, headers, leaves, Elements(cidx[..i]))
        invariant Extends(old(nodes), nodes, Elements(cidx[..i])) && nodes.Keys == old(nodes).Keys + Elements(cidx[..i])
        invariant concacts == old(concacts)
      {
        ghost var before := nodes;
        Adopt(cidx[i], Elements(cidx[..i]));
        ExtendsTwice(old(nodes), before, nodes, Elements(cidx[..i]), cidx[i]);
        ElementsNext(cidx, i);
      }
      assert cidx[..|cidx|] == cidx;
    }

    /** src/ec/ECDAG.cc:22-85; the assertion that pidx is new is the precondition. */
    method Join(pidx: int, cidx: seq<int>, coefs: seq<C>)
      requires Valid() && pidx !in nodes && pidx !in Elements(cidx)
      modifies this
      ensures Valid() && concacts == old(concacts)
      ensures JoinAdds(old(nodes), nodes, pidx, cidx, coefs)
    {
      hide Shape, ListsFit, Extends, JoinAdds;
      AdoptAll(cidx);
      ghost var g := nodes;
      AllElements(cidx, g);
      ShapeJoined(nodes, rank, clock, pidx, cidx, coefs);
      ShapeClosed(nodes, rank, clock);
      ListsJoined(nodes, headers, leaves, Elements(cidx), pidx, cidx, coefs);
      JoinAddsThese(old(nodes), nodes, pidx, cidx, coefs);
      nodes := nodes[pidx := ECNode(Root, cidx, coefs, [], false)];
      headers := headers + [pidx];
      rank, clock := rank[pidx := clock], clock + 1;
      LinkParent(pidx, cidx);
    }

    /** src/ec/ECDAG.cc:79-82: every child gets the new parent, once per mention. */
    method LinkParent(pidx: int, cidx: seq<int>)
      requires forall k | 0 <= k < |cidx| :: cidx[k] in nodes
      modifies this`nodes
      ensures nodes == Linked(old(nodes), pidx, cidx, |cidx|)
    {
      for i := 0 to |cidx|
        invariant nodes == Linked(old(nodes), pidx, cidx, i)
      {
        nodes := nodes[cidx[i] := nodes[cidx[i]].(parents := nodes[cidx[i]].parents + [pidx])];
      }
    }

    /** src/ec/ECDAG.cc:87-94; minusOne is the placeholder coefficient -1. */
    method Concact(cidx: seq<int>, minusOne: C)
      requires Valid() && REQUESTOR !in nodes && REQUESTOR !in Elements(cidx)
      modifies this
      ensures Valid() && concacts == old(concacts)
      ensures JoinAdds(old(nodes), nodes, REQUESTOR, cidx, seq(|cidx|, _ => minusOne))
    {
      Join(REQUESTOR, cidx, seq(|cidx|, _ => minusOne));
    }

    /** src/ec/ECDAG.cc:96-120: one header per block with sub-packets in cidx. As there, a header's
        coefficient list is as long as the whole of cidx. */
    method ConcactBlocks(cidx: seq<int>, n: nat, w: int, minusOne: C)
      requires Valid() && 0 < w && forall i | 0 <= i < |cidx| :: cidx[i] in nodes && 0 <= cidx[i] / w < n
      requires forall b | 0 <= b < n :: HeaderOf(b) !in nodes
      modifies this
      ensures Valid()
      ensures Concacted(old(nodes), nodes, cidx, w, n, seq(|cidx|, _ => minusOne))
    {
      hide Shape, ListsFit, JoinAdds, Elements, Group, Concacted;
      var block := Groups(cidx, n, w);
      var coefs := seq(|cidx|, _ => minusOne);
      ghost var g0 := nodes;
      NothingConcacted(g0, cidx, w, coefs);
      for i := 0 to n
        invariant Valid() && Concacted(g0, nodes, cidx, w, i, coefs)
      {
        ghost var before := nodes;
        HeaderFree(g0, nodes, cidx, w, i, coefs);
        if block[i] != [] {
          Join(HeaderOf(i), block[i], coefs);
          concacts := concacts + [HeaderOf(i)];
        }
        ConcactedNext(g0, before, nodes, cidx, w, i, coefs);
      }
    }
  }

  /** The entries of cidx in block b, in order. */
  function Group(cidx: seq<int>, w: int, b: int): seq<int>
    requires 0 < w
  {
    if cidx == [] then []
    else
      var k := |cidx| - 1;
      Group(cidx[..k], w, b) + if cidx[k] / w == b then [cidx[k]] else []
  }

  lemma {:induction false} GroupGrows(cidx: seq<int>, w: int, b: int, k: nat)
    requires 0 < w && k <= |cidx|
    ensures |Group(cidx[..k], w, b)| <= |Group(cidx, w, b)| && Group(cidx, w, b)[..|Group(cidx[..k], w, b)|] == Group(cidx[..k], w, b)
  {
    if k < |cidx| {
      var n := |cidx| - 1;
      assert cidx[..n][..k] == cidx[..k];
      GroupGrows(cidx[..n], w, b, k);
    } else {
      assert cidx[..k] == cidx;
    }
  }

  /** An entry in block b comes after as many as there are of that block before it. */
  lemma GroupPlace(cidx: seq<int>, w: int, b: int, k: nat)
    requires 0 < w && k < |cidx| && cidx[k] / w == b
    ensures |Group(cidx[..k], w, b)| < |Group(cidx, w, b)| && Group(cidx, w, b)[|Group(cidx[..k], w, b)|] == cidx[k]
  {
    GroupGrows(cidx, w, b, k + 1);
    assert cidx[..k + 1][..k] == cidx[..k];
    var a := Group(cidx[..k + 1], w, b);
    assert a == Group(cidx[..k], w, b) + [cidx[k]];
    assert Group(cidx, w, b)[..|a|][|a| - 1] == cidx[k];
  }

  lemma GroupMembers(cidx: seq<int>, w: int, b: int)
    requires 0 < w
    ensures forall x :: x in Group(cidx, w, b) <==> x in cidx && x / w == b
  {
    if cidx != [] {
      var k := |cidx| - 1;
      GroupMembers(cidx[..k], w, b);
      assert cidx == cidx[..k] + [cidx[k]];
    }
  }

  method Groups(cidx: seq<int>, n: nat, w: int) returns (block: seq<seq<int>>)
    requires 0 < w && forall i | 0 <= i < |cidx| :: 0 <= cidx[i] / w < n
    ensures |block| == n && forall b | 0 <= b < n :: block[b] == Group(cidx, w, b)
  {
    block := seq(n, _ => []);
    for i := 0 to |cidx|
      invariant |block| == n && forall b | 0 <= b < n :: block[b] == Group(cidx[..i], w, b)
    {
      var blkidx := cidx[i] / w;
      assert cidx[..i + 1][..i] == cidx[..i];
      block := block[blkidx := block[blkidx] + [cidx[i]]];
    }
    assert cidx[..|cidx|] == cidx;
  }

  /** The first i blocks have been given their header; the rest of the DAG computes as before. */
  ghost predicate Concacted<C>(g0: Dag<C>, g: Dag<C>, cidx: seq<int>, w: int, i: nat, coefs: seq<C>)
    requires 0 < w
  {
    && (forall v | v in g0 :: v in g && g[v].children == g0[v].children && g[v].coefs == g0[v].coefs
          && (g[v].kind.Leaf? <==> g0[v].kind.Leaf?))
    && (forall b | 0 <= b < i :: HeaderOf(b) in g <==> Group(cidx, w, b) != [])
    && (forall b | 0 <= b < i && HeaderOf(b) in g ::
          g[HeaderOf(b)].kind.Root? && g[HeaderOf(b)].children == Group(cidx, w, b) && g[HeaderOf(b)].coefs == coefs)
    && (forall v | v in g && v !in g0 :: REQUESTOR - i < v <= REQUESTOR)
  }

  lemma ConcactedNext<C>(g0: Dag<C>, g: Dag<C>, g': Dag<C>, cidx: seq<int>, w: int, i: nat, coefs: seq<C>)
    requires 0 < w && Concacted(g0, g, cidx, w, i, coefs) && (forall k | 0 <= k < |cidx| :: cidx[k] in g0)
    requires forall b | 0 <= b <= i :: HeaderOf(b) !in g0
    requires Group(cidx, w, i) == [] ==> g' == g
    requires Group(cidx, w, i) != [] ==> JoinAdds(g, g', HeaderOf(i), Group(cidx, w, i), coefs)
    ensures Concacted(g0, g', cidx, w, i + 1, coefs)
  {
    hide Group;
    var group := Group(cidx, w, i);
    forall v | v in Elements(group) ensures v in g0 {
      GroupInDag(g0, cidx, w, i, v);
    }
    assert HeaderOf(i) !in g0;
    if group != [] {
      forall b | 0 <= b < i && HeaderOf(b) in g' ensures HeaderOf(b) in g && HeaderOf(b) !in Elements(group) {
        assert HeaderOf(b) !in g0;
      }
      forall b | 0 <= b < i && HeaderOf(b) in g ensures HeaderOf(b) in g' && g'[HeaderOf(b)] == g[HeaderOf(b)].(parents := g'[HeaderOf(b)].parents, toDelete := g'[HeaderOf(b)].toDelete) {
        assert HeaderOf(b) !in g0;
      }
    }
  }

  lemma HeaderFree<C>(g0: Dag<C>, g: Dag<C>, cidx: seq<int>, w: int, i: nat, coefs: seq<C>)
    requires 0 < w && Concacted(g0, g, cidx, w, i, coefs) && (forall k | 0 <= k < |cidx| :: cidx[k] in g0) && HeaderOf(i) !in g0
    ensures HeaderOf(i) !in g && HeaderOf(i) !in Elements(Group(cidx, w, i))
  {
    if HeaderOf(i) in Elements(Group(cidx, w, i)) {
      GroupInDag(g0, cidx, w, i, HeaderOf(i));
    }
  }

  lemma InList<C>(s: seq<int>, g: Dag<C>, v: int)
    requires v in s && forall k | 0 <= k < |s| :: s[k] in g
    ensures v in g
  {}

  lemma NothingConcacted<C>(g: Dag<C>, cidx: seq<int>, w: int, coefs: seq<C>)
    requires 0 < w
    ensures Concacted(g, g, cidx, w, 0, coefs)
  {}

  lemma GroupInDag<C>(g0: Dag<C>, cidx: seq<int>, w: int, b: int, v: int)
    requires 0 < w && (forall k | 0 <= k < |cidx| :: cidx[k] in g0) && v in Elements(Group(cidx, w, b))
    ensures v in g0
  {
    GroupMembers(cidx, w, b);
    assert v in Group(cidx, w, b);
    InList(cidx, g0, v);
  }

  lemma ListsAddLeaf<C>(g: Dag<C>, headers: seq<int>, leaves: seq<int>, cs: set<int>, c: int)
    requires ListsFit(g, headers, leaves, cs) && c !in g
    ensures ListsFit(g[c := ECNode(Leaf, [], [], [], false)], headers, leaves + [c], cs + {c})
  {
    assert c !in leaves && c !in headers;
  }

  lemma ListsDropHeader<C>(g: Dag<C>, headers: seq<int>, leaves: seq<int>, cs: set<int>, c: int)
    requires ListsFit(g, headers, leaves, cs) && c in g && c in headers
    ensures g[c].kind.Root?
    ensures ListsFit(g[c := g[c].(kind := Intermediate)], Without(headers, c), leaves, cs + {c})
  {
    WithoutDistinct(headers, c);
  }

  lemma ListsKeep<C>(g: Dag<C>, headers: seq<int>, leaves: seq<int>, cs: set<int>, c: int)
    requires ListsFit(g, headers, leaves, cs) && c in g && c !in headers
    ensures ListsFit(g, headers, leaves, cs + {c}) && !g[c].kind.Root?
  {}

  // ---------------------------------------------------------------------------------------------
  // The second half of Join: the new parent

  /** addParentNode(rNode) on the first i children. */
  ghost function Linked<C>(g: Dag<C>, pidx: int, cidx: seq<int>, i: nat): Dag<C>
    requires i <= |cidx| && forall k | 0 <= k < |cidx| :: cidx[k] in g
    ensures Linked(g, pidx, cidx, i).Keys == g.Keys
  {
    if i == 0 then g
    else
      var h, c := Linked(g, pidx, cidx, i - 1), cidx[i - 1];
      h[c := h[c].(parents := h[c].parents + [pidx])]
  }

  lemma {:induction false} LinkedParents<C>(g: Dag<C>, pidx: int, cidx: seq<int>, i: nat, v: int)
    requires i <= |cidx| && (forall k | 0 <= k < |cidx| :: cidx[k] in g) && v in g
    ensures var h := Linked(g, pidx, cidx, i);
            && h[v] == g[v].(parents := h[v].parents)
            && |h[v].parents| >= |g[v].parents|
            && (forall p :: multiset(h[v].parents)[p] == multiset(g[v].parents)[p] + (if p == pidx then multiset(cidx[..i])[v] else 0))
  {
    if i > 0 {
      LinkedParents(g, pidx, cidx, i - 1, v);
      assert cidx[..i] == cidx[..i - 1] + [cidx[i - 1]];
    }
  }

  ghost function Joined<C>(g: Dag<C>, pidx: int, cidx: seq<int>, coefs: seq<C>): Dag<C>
    requires pidx !in g && forall k | 0 <= k < |cidx| :: cidx[k] in g
  {
    Linked(g[pidx := ECNode(Root, cidx, coefs, [], false)], pidx, cidx, |cidx|)
  }

  lemma CountsSomething<T>(s: seq<T>)
    ensures (forall x :: multiset(s)[x] == 0) ==> s == []
  {
    if s != [] { assert multiset(s)[s[0]] > 0; }
  }

  lemma JoinedVertex<C>(g: Dag<C>, pidx: int, cidx: seq<int>, coefs: seq<C>, v: int)
    requires Closed(g) && pidx !in g && (forall k | 0 <= k < |cidx| :: cidx[k] in g)
    requires v in g || v == pidx
    ensures var h := Joined(g, pidx, cidx, coefs);
            && v in h
            && (v != pidx ==> h[v] == g[v].(parents := h[v].parents))
            && (v == pidx ==> h[v] == ECNode(Root, cidx, coefs, [], false))
            && (forall p | p != pidx :: multiset(h[v].parents)[p] == if v == pidx then 0 else multiset(g[v].parents)[p])
            && multiset(h[v].parents)[pidx] == multiset(cidx)[v]
            && (v != pidx && g[v].parents != [] ==> h[v].parents != [])
  {
    var g1 := g[pidx := ECNode(Root, cidx, coefs, [], false)];
    LinkedParents(g1, pidx, cidx, |cidx|, v);
    assert cidx[..|cidx|] == cidx;
    if v != pidx {
      NotAParent(g, v, pidx);
    } else {
      assert pidx !in cidx;
      assert multiset(cidx)[pidx] == 0;
      assert forall p :: multiset(Joined(g, pidx, cidx, coefs)[v].parents)[p] == 0;
      CountsSomething(Joined(g, pidx, cidx, coefs)[v].parents);
    }
  }

  lemma MirroredJoined<C>(g: Dag<C>, pidx: int, cidx: seq<int>, coefs: seq<C>)
    requires Mirrored(g) && pidx !in g && forall k | 0 <= k < |cidx| :: cidx[k] in g
    ensures var h := Joined(g, pidx, cidx, coefs);
            h.Keys == g.Keys + {pidx} && forall v, p | v in h && p in h :: multiset(h[v].parents)[p] == multiset(h[p].children)[v]
  {
    hide Joined;
    var h := Joined(g, pidx, cidx, coefs);
    JoinedKeys(g, pidx, cidx, coefs);
    forall v, p | v in h && p in h ensures multiset(h[v].parents)[p] == multiset(h[p].children)[v] {
      JoinedVertex(g, pidx, cidx, coefs, v);
      JoinedVertex(g, pidx, cidx, coefs, p);
      if v == pidx && p != pidx { NotAChild(g, p, pidx); }
    }
  }

  lemma JoinedKeys<C>(g: Dag<C>, pidx: int, cidx: seq<int>, coefs: seq<C>)
    requires pidx !in g && forall k | 0 <= k < |cidx| :: cidx[k] in g
    ensures Joined(g, pidx, cidx, coefs).Keys == g.Keys + {pidx}
  {}

  lemma ClosedJoined<C>(g: Dag<C>, pidx: int, cidx: seq<int>, coefs: seq<C>)
    requires Closed(g) && pidx !in g && forall k | 0 <= k < |cidx| :: cidx[k] in g
    ensures Closed(Joined(g, pidx, cidx, coefs))
  {
    hide Joined;
    var h := Joined(g, pidx, cidx, coefs);
    JoinedKeys(g, pidx, cidx, coefs);
    forall v, i | v in h && 0 <= i < |h[v].parents| ensures h[v].parents[i] in h {
      JoinedVertex(g, pidx, cidx, coefs, v);
      var p := h[v].parents[i];
      assert p in multiset(h[v].parents);
      if p != pidx && v != pidx {
        assert p in g[v].parents;
      }
    }
    forall v, i | v in h && 0 <= i < |h[v].children| ensures h[v].children[i] in h {
      JoinedVertex(g, pidx, cidx, coefs, v);
    }
  }

  lemma MirroredAfter<C>(g: Dag<C>, pidx: int, cidx: seq<int>, coefs: seq<C>)
    requires Mirrored(g) && Closed(g) && pidx !in g && forall k | 0 <= k < |cidx| :: cidx[k] in g
    ensures Mirrored(Joined(g, pidx, cidx, coefs))
  {
    MirroredJoined(g, pidx, cidx, coefs);
    ClosedJoined(g, pidx, cidx, coefs);
    hide Joined, Closed;
  }

  lemma RankedChild<C>(g: Dag<C>, rank: map<int, nat>, clock: nat, pidx: int, cidx: seq<int>, coefs: seq<C>, v: int, i: nat)
    requires Closed(g) && Ranked(g, rank) && rank.Keys == g.Keys && pidx !in g && (forall u | u in rank :: rank[u] < clock)
    requires (forall k | 0 <= k < |cidx| :: cidx[k] in g) && v in Joined(g, pidx, cidx, coefs) && i < |Joined(g, pidx, cidx, coefs)[v].children|
    ensures var rank', c := rank[pidx := clock], Joined(g, pidx, cidx, coefs)[v].children[i]; v in rank' && c in rank' && rank'[c] < rank'[v]
  {
    hide Joined, Closed;
    JoinedKeys(g, pidx, cidx, coefs);
    JoinedVertex(g, pidx, cidx, coefs, v);
    if v == pidx {
      var c := cidx[i];
      assert c in g;
    }
  }

  lemma ShapeJoined<C>(g: Dag<C>, rank: map<int, nat>, clock: nat, pidx: int, cidx: seq<int>, coefs: seq<C>)
    requires Shape(g, rank, clock) && pidx !in g && forall k | 0 <= k < |cidx| :: cidx[k] in g
    ensures Shape(Joined(g, pidx, cidx, coefs), rank[pidx := clock], clock + 1)
  {
    hide Joined, Closed, Mirrored, Ranked;
    ShapeClosed(g, rank, clock);
    JoinedKeys(g, pidx, cidx, coefs);
    MirroredAfter(g, pidx, cidx, coefs);
    RankedAfter(g, rank, clock, pidx, cidx, coefs);
  }

  lemma RankedAfter<C>(g: Dag<C>, rank: map<int, nat>, clock: nat, pidx: int, cidx: seq<int>, coefs: seq<C>)
    requires Closed(g) && Ranked(g, rank) && rank.Keys == g.Keys && pidx !in g && (forall u | u in rank :: rank[u] < clock)
    requires forall k | 0 <= k < |cidx| :: cidx[k] in g
    ensures Ranked(Joined(g, pidx, cidx, coefs), rank[pidx := clock])
  {
    hide Joined, Closed;
    var h := Joined(g, pidx, cidx, coefs);
    JoinedKeys(g, pidx, cidx, coefs);
    forall v, i | v in h && 0 <= i < |h[v].children|
      ensures h[v].children[i] in rank[pidx := clock] && rank[pidx := clock][h[v].children[i]] < rank[pidx := clock][v]
    {
      RankedChild(g, rank, clock, pidx, cidx, coefs, v, i);
    }
  }

  lemma ListsJoined<C>(g: Dag<C>, headers: seq<int>, leaves: seq<int>, cs: set<int>, pidx: int, cidx: seq<int>, coefs: seq<C>)
    requires Closed(g) && ListsFit(g, headers, leaves, cs) && pidx !in g
    requires (forall k | 0 <= k < |cidx| :: cidx[k] in g) && cs == set k | 0 <= k < |cidx| :: cidx[k]
    ensures ListsFit(Joined(g, pidx, cidx, coefs), headers + [pidx], leaves, {})
  {
    hide Joined, Closed;
    var h := Joined(g, pidx, cidx, coefs);
    JoinedKeys(g, pidx, cidx, coefs);
    assert pidx !in headers && pidx !in leaves;
    forall v | v in h
      ensures v != pidx ==> h[v].kind == g[v].kind && h[v].children == g[v].children && h[v].toDelete == g[v].toDelete
      ensures v != pidx ==> (h[v].parents == [] <==> g[v].parents == [] && v !in cs)
      ensures v == pidx ==> h[v] == ECNode(Root, cidx, coefs, [], false)
    {
      JoinedVertex(g, pidx, cidx, coefs, v);
      if v != pidx {
        NotAParent(g, v, pidx);
        ParentsAfterJoin(g[v].parents, h[v].parents, pidx, cidx, v);
      }
    }
  }

  lemma ParentsAfterJoin(before: seq<int>, after: seq<int>, pidx: int, cidx: seq<int>, v: int)
    requires forall p | p != pidx :: multiset(after)[p] == multiset(before)[p]
    requires multiset(after)[pidx] == multiset(cidx)[v] && pidx !in before
    ensures after == [] <==> before == [] && v !in (set k | 0 <= k < |cidx| :: cidx[k])
  {
    CountsSomething(before);
    CountsSomething(after);
    assert v in cidx <==> multiset(cidx)[v] > 0;
    if after == [] {
      assert forall p :: multiset(after)[p] == 0;
      assert forall p :: multiset(before)[p] == 0;
    }
    if before == [] && v !in cidx {
      assert forall p :: multiset(before)[p] == 0;
      assert forall p :: multiset(after)[p] == 0;
    }
  }

  lemma JoinAddsThese<C>(g0: Dag<C>, g: Dag<C>, pidx: int, cidx: seq<int>, coefs: seq<C>)
    requires Extends(g0, g, Elements(cidx)) && g.Keys == g0.Keys + Elements(cidx) && Closed(g)
    requires pidx !in g0 && pidx !in Elements(cidx) && forall k | 0 <= k < |cidx| :: cidx[k] in g
    ensures JoinAdds(g0, Joined(g, pidx, cidx, coefs), pidx, cidx, coefs)
  {
    hide Joined;
    var h := Joined(g, pidx, cidx, coefs);
    JoinedKeys(g, pidx, cidx, coefs);
    forall v | v in h
      ensures v != pidx ==> h[v].children == g[v].children && h[v].coefs == g[v].coefs && h[v].kind == g[v].kind
      ensures v == pidx ==> h[v] == ECNode(Root, cidx, coefs, [], false)
    {
      JoinedVertex(g, pidx, cidx, coefs, v);
    }
    forall v | v in g0 ensures SameEdges(g0[v], g[v]) {}
  }
}
