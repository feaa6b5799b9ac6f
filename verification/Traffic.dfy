/** What a colouring of the repair DAG costs: the set of sub-packet shipments it causes, and
    the per-node tables that count them. */
module Traffic {
  import opened Dags

  /** Vertex to cluster node; -1 marks a vertex that is never materialised (a zero). */
  type Coloring = map<int, int>

  /** Sub-packet v is shipped from node src to node dst, once. */
  datatype Xfer = Xfer(v: int, src: int, dst: int)

  /** Per-node counters; an absent node counts zero. */
  type Table = map<int, int>

  ghost predicate Colored<C>(g: Dag<C>, col: Coloring) {
    Closed(g) && col.Keys == g.Keys
  }

  ghost function Shipments<C>(g: Dag<C>, col: Coloring): set<Xfer> {
    set v, p | v in g && v in col && p in g[v].parents && p in col && col[v] != -1 && col[p] != -1 && col[v] != col[p] ::
      Xfer(v, col[v], col[p])
  }

  ghost function InOf(t: set<Xfer>, node: int): nat {
    |set e | e in t && e.dst == node|
  }

  ghost function OutOf(t: set<Xfer>, node: int): nat {
    |set e | e in t && e.src == node|
  }

  /** The shipments of the vertices vs. */
  ghost function From(t: set<Xfer>, vs: set<int>): set<Xfer> {
    set e | e in t && e.v in vs
  }

  /** The shipments that arrive at one of the nodes. */
  ghost function Into(t: set<Xfer>, nodes: set<int>): set<Xfer> {
    set e | e in t && e.dst in nodes
  }

  lemma IntoStep(t: set<Xfer>, nodes: set<int>, c: int)
    requires c !in nodes
    ensures |Into(t, nodes + {c})| == |Into(t, nodes)| + InOf(t, c)
  {
    var here := set e | e in t && e.dst == c;
    assert Into(t, nodes + {c}) == Into(t, nodes) + here && Into(t, nodes) !! here;
  }

  /** A shortened vertex generates no traffic. */
  lemma UncoloredSendsNothing<C>(g: Dag<C>, col: Coloring, v: int)
    requires v in col && col[v] == -1
    ensures From(Shipments(g, col), {v}) == {}
  {}

  lemma FromNothing(t: set<Xfer>)
    ensures From(t, {}) == {}
  {}

  lemma AllFromColored<C>(g: Dag<C>, col: Coloring)
    ensures From(Shipments(g, col), col.Keys) == Shipments(g, col)
  {}

  lemma FromStep(t: set<Xfer>, vs: set<int>, v: int)
    requires v !in vs
    ensures From(t, vs + {v}) == From(t, vs) + From(t, {v})
    ensures From(From(t, vs), {v}) == {}
  {}

  function Get(m: Table, node: int): int {
    if node in m then m[node] else 0
  }

  /** The two tables count exactly the shipments t. */
  ghost predicate Counts(inn: Table, out: Table, t: set<Xfer>) {
    && (forall c :: Get(inn, c) == InOf(t, c))
    && (forall c :: Get(out, c) == OutOf(t, c))
  }

  /** Whether all keys of the two tables are among n nodes. */
  predicate KeysBelow(inn: Table, out: Table, n: int) {
    (forall c | c in inn :: 0 <= c < n) && (forall c | c in out :: 0 <= c < n)
  }

  /** load is the largest counter, bdwt the number of shipments. */
  ghost predicate Summarises(load: int, bdwt: int, t: set<Xfer>) {
    && bdwt == |t|
    && (forall c :: InOf(t, c) <= load && OutOf(t, c) <= load)
    && (load == 0 || exists c :: load == InOf(t, c) || load == OutOf(t, c))
  }

  lemma CountsNothing()
    ensures Counts(map[], map[], {})
  {
    forall c ensures InOf({}, c) == 0 == OutOf({}, c) {
      var i, o := set e: Xfer | e in {} && e.dst == c, set e: Xfer | e in {} && e.src == c;
      assert i == {} == o;
    }
  }

  lemma AddArrival(t: set<Xfer>, e: Xfer, c: int)
    requires e !in t
    ensures InOf(t + {e}, c) == InOf(t, c) + (if c == e.dst then 1 else 0)
  {
    var i, i' := set f | f in t && f.dst == c, set f | f in t + {e} && f.dst == c;
    if c == e.dst {
      assert i' == i + {e} && e !in i;
    } else {
      assert i' == i;
    }
  }

  lemma AddDeparture(t: set<Xfer>, e: Xfer, c: int)
    requires e !in t
    ensures OutOf(t + {e}, c) == OutOf(t, c) + (if c == e.src then 1 else 0)
  {
    var o, o' := set f | f in t && f.src == c, set f | f in t + {e} && f.src == c;
    if c == e.src {
      assert o' == o + {e} && e !in o;
    } else {
      assert o' == o;
    }
  }

  lemma AddShipment(t: set<Xfer>, e: Xfer)
    requires e !in t
    ensures forall c :: InOf(t + {e}, c) == InOf(t, c) + (if c == e.dst then 1 else 0)
    ensures forall c :: OutOf(t + {e}, c) == OutOf(t, c) + (if c == e.src then 1 else 0)
  {
    forall c
      ensures InOf(t + {e}, c) == InOf(t, c) + (if c == e.dst then 1 else 0)
      ensures OutOf(t + {e}, c) == OutOf(t, c) + (if c == e.src then 1 else 0)
    {
      AddArrival(t, e, c);
      AddDeparture(t, e, c);
    }
  }

  lemma ShipmentCounted(t: set<Xfer>, e: Xfer)
    requires e in t
    ensures InOf(t, e.dst) > 0 && OutOf(t, e.src) > 0
  {
    AddArrival(t - {e}, e, e.dst);
    AddDeparture(t - {e}, e, e.src);
    assert t - {e} + {e} == t;
  }

  /** From tables (inn0, out0) at traffic t0 to tables (inn, out) at traffic t, every counter moved by
      exactly the difference of the two from-scratch counts. */
  ghost predicate Moved(inn0: Table, out0: Table, t0: set<Xfer>, inn: Table, out: Table, t: set<Xfer>) {
    && (forall c :: Get(inn, c) - InOf(t, c) == Get(inn0, c) - InOf(t0, c))
    && (forall c :: Get(out, c) - OutOf(t, c) == Get(out0, c) - OutOf(t0, c))
  }

  lemma CountOneMore(inn: Table, out: Table, t: set<Xfer>, e: Xfer)
    requires e !in t
    ensures Moved(inn, out, t, inn[e.dst := Get(inn, e.dst) + 1], out[e.src := Get(out, e.src) + 1], t + {e})
  {
    AddShipment(t, e);
  }

  lemma CountOneLess(inn: Table, out: Table, t: set<Xfer>, e: Xfer)
    requires e in t
    ensures Moved(inn, out, t, inn[e.dst := Get(inn, e.dst) - 1], out[e.src := Get(out, e.src) - 1], t - {e})
  {
    AddShipment(t - {e}, e);
    assert t - {e} + {e} == t;
  }

  lemma MovedNot(inn: Table, out: Table, t: set<Xfer>)
    ensures Moved(inn, out, t, inn, out, t)
  {}

  lemma MovedTwice(inn0: Table, out0: Table, t0: set<Xfer>, inn1: Table, out1: Table, t1: set<Xfer>,
                   inn2: Table, out2: Table, t2: set<Xfer>)
    requires Moved(inn0, out0, t0, inn1, out1, t1) && Moved(inn1, out1, t1, inn2, out2, t2)
    ensures Moved(inn0, out0, t0, inn2, out2, t2)
  {
    hide InOf, OutOf;
  }

  /** Exact tables stay exact. */
  lemma MovedCounts(inn0: Table, out0: Table, t0: set<Xfer>, inn: Table, out: Table, t: set<Xfer>)
    requires Moved(inn0, out0, t0, inn, out, t)
    ensures Counts(inn0, out0, t0) <==> Counts(inn, out, t)
  {
    if Counts(inn0, out0, t0) {
      forall c ensures Get(inn, c) == InOf(t, c) && Get(out, c) == OutOf(t, c) {
        assert Get(inn0, c) == InOf(t0, c) && Get(out0, c) == OutOf(t0, c);
      }
    }
    if Counts(inn, out, t) {
      forall c ensures Get(inn0, c) == InOf(t0, c) && Get(out0, c) == OutOf(t0, c) {
        assert Get(inn, c) == InOf(t, c) && Get(out, c) == OutOf(t, c);
      }
    }
  }

  /** Exact tables mention every node that receives something. */
  lemma AllArrive(inn: Table, out: Table, t: set<Xfer>)
    requires Counts(inn, out, t)
    ensures Into(t, inn.Keys) == t
    ensures forall c | c !in inn :: InOf(t, c) == 0
  {
    forall e | e in t ensures e.dst in inn {
      ShipmentCounted(t, e);
      assert Get(inn, e.dst) > 0;
    }
    forall c | c !in inn ensures InOf(t, c) == 0 {
      assert Get(inn, c) == 0;
    }
  }

  /** Bookkeeping of a loop that takes the elements of a collection one by one, in any order. */
  lemma OneMoreDone<T>(all: set<T>, todo: set<T>, x: T)
    requires todo <= all && x in todo
    ensures todo - {x} <= all && all - (todo - {x}) == all - todo + {x} && x !in all - todo
  {}

  /** The nodes a colouring can charge. */
  ghost function Palette(col: Coloring): set<int> {
    set v | v in col && col[v] != -1 :: col[v]
  }

  lemma InPalette(col: Coloring, v: int)
    requires v in col && col[v] != -1
    ensures col[v] in Palette(col)
  {}

  /** Only nodes of the palette were added to the tables. */
  ghost predicate Grown(inn0: Table, out0: Table, inn: Table, out: Table, nodes: set<int>) {
    inn.Keys <= inn0.Keys + nodes && out.Keys <= out0.Keys + nodes
  }

  ghost function Pick<T>(s: set<T>): (x: T)
    requires s != {}
    ensures x in s
  {
    var x :| x in s; x
  }

  ghost function SumIn(t: set<Xfer>, nodes: set<int>): nat {
    if nodes == {} then 0 else var c := Pick(nodes); InOf(t, c) + SumIn(t, nodes - {c})
  }

  ghost function SumOut(t: set<Xfer>, nodes: set<int>): nat {
    if nodes == {} then 0 else var c := Pick(nodes); OutOf(t, c) + SumOut(t, nodes - {c})
  }

  lemma {:induction false} SumInCountsArrivals(t: set<Xfer>, nodes: set<int>)
    ensures SumIn(t, nodes) == |Into(t, nodes)|
  {
    if nodes == {} {
      assert Into(t, nodes) == {};
    } else {
      var c := Pick(nodes);
      SumInCountsArrivals(t, nodes - {c});
      IntoStep(t, nodes - {c}, c);
      assert nodes - {c} + {c} == nodes;
    }
  }

  lemma {:induction false} SumOutCountsDepartures(t: set<Xfer>, nodes: set<int>)
    ensures SumOut(t, nodes) == |set e | e in t && e.src in nodes|
  {
    var here := set e | e in t && e.src in nodes;
    if nodes == {} {
      assert here == {};
    } else {
      var c := Pick(nodes);
      SumOutCountsDepartures(t, nodes - {c});
      var a, b := set e | e in t && e.src in nodes - {c}, set e | e in t && e.src == c;
      assert here == a + b && a !! b;
    }
  }

  /** Every shipment leaves one node and enters one node: over any set of nodes that has all the
      endpoints, the in-counters and the out-counters both add up to the bandwidth. */
  lemma TrafficConserved(t: set<Xfer>, nodes: set<int>)
    requires forall e | e in t :: e.src in nodes && e.dst in nodes
    ensures SumIn(t, nodes) == |t| == SumOut(t, nodes)
  {
    SumInCountsArrivals(t, nodes);
    SumOutCountsDepartures(t, nodes);
    assert Into(t, nodes) == t == set e | e in t && e.src in nodes;
  }
}
