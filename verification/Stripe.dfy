/** Load accounting of one stripe (src/common/Stripe.cc): the tables _in and _out, the
    bandwidth and the load of a colouring, from scratch and incrementally. */
module Stripes {
  import opened Dags
  import opened Traffic
  import opened Recolouring

  method Choose<T(==)>(s: set<T>) returns (x: T)
    requires s != {}
    ensures x in s
  {
    x :| x in s;
  }

  class Stripe<C> {
    var ecdag: Dag<C>
    var coloring: Coloring
    var inn: Table
    var out: Table
    var bdwt: int
    var load: int

    constructor (g: Dag<C>, col: Coloring)
      ensures ecdag == g && coloring == col && inn == map[] && out == map[]
    {
      ecdag, coloring, inn, out, bdwt, load := g, col, map[], map[], 0, 0;
    }

    /** Every vertex of a well-formed DAG has a colour, as all callers arrange. */
    ghost predicate Ready()
      reads this`ecdag, this`coloring
    {
      Colored(ecdag, coloring)
    }

    /** The tables and totals are those of the current colouring. */
    ghost predicate Evaluated()
      reads this
    {
      && Counts(inn, out, Shipments(ecdag, coloring))
      && Summarises(load, bdwt, Shipments(ecdag, coloring))
    }

    method SetColoring(col: Coloring)
      modifies this`coloring
      ensures coloring == col
    {
      coloring := col;
    }

    /** The distinct colours of the parents of v, in order of first occurrence. */
    method ParentColors(v: int) returns (cs: seq<int>)
      requires Ready() && v in ecdag
      ensures Distinct(cs)
      ensures forall c :: c in cs <==> exists i | 0 <= i < |ecdag[v].parents| :: coloring[ecdag[v].parents[i]] == c
    {
      var parents := ecdag[v].parents;
      cs := [];
      for i := 0 to |parents|
        invariant Distinct(cs)
        invariant forall c :: c in cs <==> exists j | 0 <= j < i :: coloring[parents[j]] == c
      {
        var c := coloring[parents[i]];
        if c !in cs {
          cs := cs + [c];
        }
      }
    }

    /** The distinct colours of the children of v, -1 left out (src/ec/ECNode.cc:106-118). */
    method ChildColors(v: int) returns (cs: seq<int>)
      requires Ready() && v in ecdag
      ensures forall i | 0 <= i < |cs| :: cs[i] != -1 && ChildColor(ecdag, coloring, v, cs[i])
      ensures forall k | 0 <= k < |ecdag[v].children| :: coloring[ecdag[v].children[k]] != -1 ==>
                exists i | 0 <= i < |cs| :: cs[i] == coloring[ecdag[v].children[k]]
    {
      var children := ecdag[v].children;
      cs := [];
      for k := 0 to |children|
        invariant forall i | 0 <= i < |cs| :: cs[i] != -1 && ChildColor(ecdag, coloring, v, cs[i])
        invariant forall j | 0 <= j < k :: coloring[children[j]] != -1 ==>
                    exists i | 0 <= i < |cs| :: cs[i] == coloring[children[j]]
      {
        var c := coloring[children[k]];
        ghost var cs0 := cs;
        if c != -1 && c !in cs {
          cs := cs + [c];
          assert cs[|cs0|] == c;
        }
        forall j | 0 <= j < k && coloring[children[j]] != -1
          ensures exists i | 0 <= i < |cs| :: cs[i] == coloring[children[j]]
        {
          var i :| 0 <= i < |cs0| && cs0[i] == coloring[children[j]];
          assert cs[i] == cs0[i];
        }
      }
    }

    /** dumpLoad (src/common/Stripe.cc:538-556) prints through operator[], which inserts a zero for every node
        that it prints: afterwards the tables fit a cluster only if that many nodes do. */
    method DumpLoad(agents_num: nat)
      modifies this`inn, this`out
      ensures forall c :: Get(inn, c) == Get(old(inn), c) && Get(out, c) == Get(old(out), c)
      ensures forall c :: (c in inn <==> c in old(inn) || 0 <= c < agents_num) && (c in out <==> c in old(out) || 0 <= c < agents_num)
      ensures forall n: nat :: TablesFit(n) <==> old(TablesFit(n)) && agents_num <= n
    {
      for nodeid := 0 to agents_num
        invariant forall c :: Get(inn, c) == Get(old(inn), c) && Get(out, c) == Get(old(out), c)
        invariant forall c :: (c in inn <==> c in old(inn) || 0 <= c < nodeid) && (c in out <==> c in old(out) || 0 <= c < nodeid)
      {
        inn := inn[nodeid := Get(inn, nodeid)];
        out := out[nodeid := Get(out, nodeid)];
      }
      assert agents_num > 0 ==> agents_num - 1 in inn;
    }

    method Ship(src: int, dst: int, ghost v: int, ghost t: set<Xfer>)
      requires Xfer(v, src, dst) !in t
      modifies this`inn, this`out
      ensures Moved(old(inn), old(out), t, inn, out, t + {Xfer(v, src, dst)})
      ensures inn.Keys == old(inn).Keys + {dst} && out.Keys == old(out).Keys + {src}
    {
      hide InOf, OutOf;
      CountOneMore(inn, out, t, Xfer(v, src, dst));
      out := out[src := Get(out, src) + 1];
      inn := inn[dst := Get(inn, dst) + 1];
    }

    method Unship(src: int, dst: int, ghost v: int, ghost t: set<Xfer>)
      requires Xfer(v, src, dst) in t
      modifies this`inn, this`out
      ensures Moved(old(inn), old(out), t, inn, out, t - {Xfer(v, src, dst)})
      ensures inn.Keys == old(inn).Keys + {dst} && out.Keys == old(out).Keys + {src}
    {
      hide InOf, OutOf;
      CountOneLess(inn, out, t, Xfer(v, src, dst));
      inn := inn[dst := Get(inn, dst) - 1];
      out := out[src := Get(out, src) - 1];
    }

    /** The closing loops of evaluateColoring and changeColor over _in and _out. */
    method Summarise(ghost t: set<Xfer>)
      modifies this`bdwt, this`load
      ensures Counts(inn, out, t) ==> Summarises(load, bdwt, t)
    {
      ghost var exact := Counts(inn, out, t);
      SumIn(t);
      var todo := out.Keys;
      while todo != {}
        invariant todo <= out.Keys
        invariant exact ==> bdwt == |t| && 0 <= load && forall c :: InOf(t, c) <= load
        invariant exact ==> forall c | c in out.Keys - todo :: OutOf(t, c) <= load
        invariant exact ==> load == 0 || exists c :: load == InOf(t, c) || load == OutOf(t, c)
      {
        var c := Choose(todo);
        assert exact ==> Get(out, c) == out[c] == OutOf(t, c);
        if out[c] > load {
          load := out[c];
        }
        todo := todo - {c};
      }
      forall c | exact ensures OutOf(t, c) <= load {
        if c !in out { assert Get(out, c) == 0; }
      }
    }

    method SumIn(ghost t: set<Xfer>)
      modifies this`bdwt, this`load
      ensures Counts(inn, out, t) ==>
        && bdwt == |t| && 0 <= load && (forall c :: InOf(t, c) <= load)
        && (load == 0 || exists c :: load == InOf(t, c))
    {
      load, bdwt := 0, 0;
      ghost var exact, done: set<int> := Counts(inn, out, t), {};
      var todo := inn.Keys;
      while todo != {}
        invariant todo <= inn.Keys && done == inn.Keys - todo
        invariant exact ==> bdwt == |Into(t, done)|
        invariant exact ==> 0 <= load && forall c | c in done :: InOf(t, c) <= load
        invariant exact ==> load == 0 || exists c :: load == InOf(t, c)
      {
        var c := Choose(todo);
        assert exact ==> inn[c] == Get(inn, c) == InOf(t, c);
        IntoStep(t, done, c);
        bdwt := bdwt + inn[c];
        if inn[c] > load {
          load := inn[c];
        }
        todo, done := todo - {c}, done + {c};
      }
      if exact {
        AllArrive(inn, out, t);
        assert done == inn.Keys;
      }
    }

    /** One vertex of the from-scratch evaluation: count a shipment for every distinct colour of
        its parents that is neither its own nor -1. */
    method ShipVertex(v: int, ghost t: set<Xfer>)
      requires Ready() && v in ecdag && coloring[v] != -1
      requires Counts(inn, out, t) && From(t, {v}) == {}
      modifies this`inn, this`out
      ensures Counts(inn, out, t + From(Shipments(ecdag, coloring), {v}))
      ensures Grown(old(inn), old(out), inn, out, Palette(coloring))
    {
      hide Palette, Shipments;
      ghost var mine := From(Shipments(ecdag, coloring), {v});
      var mycolor := coloring[v];
      var cs := ParentColors(v);
      forall e
        ensures e in mine <==> e == Xfer(v, mycolor, e.dst) && mycolor != e.dst && e.dst != -1 && e.dst in cs
      {
        ShipmentIff(ecdag, coloring, e);
      }
      ghost var t' := t;
      for i := 0 to |cs|
        invariant forall e :: e in t' <==> e in t || (e in mine && exists j | 0 <= j < i :: cs[j] == e.dst)
        invariant Counts(inn, out, t')
        invariant Grown(old(inn), old(out), inn, out, Palette(coloring))
      {
        var c := cs[i];
        assert c in cs;
        InPalette(coloring, v);
        if mycolor != c && c != -1 {
          ParentInPalette(v, c);
          assert Xfer(v, mycolor, c) !in t' by {
            assert Xfer(v, mycolor, c) !in From(t, {v});
          }
          Ship(mycolor, c, v, t');
          t' := t' + {Xfer(v, mycolor, c)};
          assert Counts(inn, out, t');
        }
      }
      assert t' == t + mine;
    }

    lemma ParentInPalette(v: int, c: int)
      requires Ready() && v in ecdag && ParentColor(ecdag, coloring, v, c) && c != -1
      ensures c in Palette(coloring)
    {
      var i :| 0 <= i < |ecdag[v].parents| && coloring[ecdag[v].parents[i]] == c;
      var p := ecdag[v].parents[i];
      assert p in coloring;
      InPalette(coloring, p);
    }

    method EvaluateVertex(v: int, ghost done: set<int>)
      requires Ready() && v in ecdag && v !in done
      requires Counts(inn, out, From(Shipments(ecdag, coloring), done))
      modifies this`inn, this`out
      ensures Counts(inn, out, From(Shipments(ecdag, coloring), done + {v}))
      ensures Grown(old(inn), old(out), inn, out, Palette(coloring))
    {
      ghost var all := Shipments(ecdag, coloring);
      ghost var sofar, mine, next := From(all, done), From(all, {v}), From(all, done + {v});
      FromStep(all, done, v);
      assert next == sofar + mine;
      if coloring[v] != -1 {
        ShipVertex(v, sofar);
      } else {
        // a shortened vertex generates no traffic
        assert mine == {} && next == sofar;
      }
    }

    /** src/common/Stripe.cc:391-456. */
    method EvaluateColoring()
      requires Ready()
      modifies this`inn, this`out, this`bdwt, this`load
      ensures Ready() && Evaluated()
      ensures Grown(map[], map[], inn, out, Palette(coloring))
    {
      hide Counts, Summarises, Shipments, From, Palette;
      inn, out := map[], map[];
      ghost var all := Shipments(ecdag, coloring);
      CountsNothing();
      FromNothing(all);
      var todo := coloring.Keys;
      assert coloring.Keys - todo == {};
      while todo != {}
        invariant todo <= coloring.Keys
        invariant Counts(inn, out, From(all, coloring.Keys - todo))
        invariant Grown(map[], map[], inn, out, Palette(coloring))
      {
        var v := Choose(todo);
        OneMoreDone(coloring.Keys, todo, v);
        EvaluateVertex(v, coloring.Keys - todo);
        todo := todo - {v};
      }
      assert coloring.Keys - todo == coloring.Keys;
      AllFromColored(ecdag, coloring);
      Summarise(all);
    }

    /** First half of changeColor (src/common/Stripe.cc:124-150): idx itself changes its sender. */
    method ServeParents(idx: int, new_color: int)
      requires Recolours(ecdag, coloring, idx, new_color)
      modifies this`inn, this`out
      ensures var before, after := Shipments(ecdag, coloring), Shipments(ecdag, coloring[idx := new_color]);
              Moved(old(inn), old(out), before, inn, out, Hybrid(before, after, {idx}))
      ensures Grown(old(inn), old(out), inn, out, Palette(coloring) + {new_color})
    {
      ghost var before, after := Shipments(ecdag, coloring), Shipments(ecdag, coloring[idx := new_color]);
      hide Recolours, Moved, Split, Hybrid, Shipments, Counts;
      RecolourFacts(ecdag, coloring, idx, new_color);
      var pcs := ParentColorSet(idx);
      var todo := pcs;
      SplitNothing(before, after, idx);
      assert pcs - todo == {};
      ghost var inn0, out0 := inn, out;
      MovedNot(inn, out, before);
      while todo != {}
        invariant todo <= pcs
        invariant Moved(inn0, out0, before, inn, out, Split(before, after, idx, pcs - todo))
        invariant Grown(inn0, out0, inn, out, Palette(coloring) + {new_color})
      {
        ghost var inn1, out1, done := inn, out, pcs - todo;
        var c := Choose(todo);
        OneMoreDone(pcs, todo, c);
        ServeParent(idx, new_color, c, done);
        MovedTwice(inn0, out0, before, inn1, out1, Split(before, after, idx, done),
                   inn, out, Split(before, after, idx, done + {c}));
        todo := todo - {c};
      }
      assert pcs - todo == pcs;
      OwnDone(ecdag, coloring, idx, new_color, pcs);
    }

    method ParentColorSet(idx: int) returns (pcs: set<int>)
      requires Ready() && idx in ecdag
      ensures forall c :: c in pcs <==> ParentColor(ecdag, coloring, idx, c)
    {
      var parents := ecdag[idx].parents;
      pcs := {};
      for i := 0 to |parents|
        invariant forall c :: c in pcs <==> exists j | 0 <= j < i :: coloring[parents[j]] == c
      {
        pcs := pcs + {coloring[parents[i]]};
      }
    }

    method ServeParent(idx: int, new_color: int, c: int, ghost done: set<int>)
      requires Recolours(ecdag, coloring, idx, new_color)
      requires c !in done && ParentColor(ecdag, coloring, idx, c)
      modifies this`inn, this`out
      ensures var before, after := Shipments(ecdag, coloring), Shipments(ecdag, coloring[idx := new_color]);
              Moved(old(inn), old(out), Split(before, after, idx, done), inn, out, Split(before, after, idx, done + {c}))
      ensures Grown(old(inn), old(out), inn, out, Palette(coloring) + {new_color})
    {
      hide Palette, Shipments, InOf, OutOf, Split, Hybrid;
      ghost var before, after := Shipments(ecdag, coloring), Shipments(ecdag, coloring[idx := new_color]);
      ghost var t := Split(before, after, idx, done);
      var old_color := coloring[idx];
      OwnStep(ecdag, coloring, idx, new_color, done, c);
      if c != -1 {
        ParentInPalette(idx, c);
        if c != old_color && old_color != -1 {
          InPalette(coloring, idx);
          Unship(old_color, c, idx, t);
          t := t - {Xfer(idx, old_color, c)};
        }
        if c != new_color {
          Ship(new_color, c, idx, t);
          t := t + {Xfer(idx, new_color, c)};
        }
      }
      assert t == Split(before, after, idx, done + {c});
    }

    /** The counters of changeColor's loop over the parents of a child. */
    method CountParents(c: int, old_color: int, new_color: int) returns (count_old: nat, count_new: nat)
      requires Ready() && c in ecdag
      ensures count_old == CountColor(ecdag[c].parents, coloring, old_color)
      ensures count_new == CountColor(ecdag[c].parents, coloring, new_color)
    {
      var ps := ecdag[c].parents;
      count_old, count_new := 0, 0;
      for i := 0 to |ps|
        invariant count_old == CountColor(ps[..i], coloring, old_color)
        invariant count_new == CountColor(ps[..i], coloring, new_color)
      {
        assert ps[..i + 1][..i] == ps[..i];
        if coloring[ps[i]] == old_color {
          count_old := count_old + 1;
        }
        if coloring[ps[i]] == new_color {
          count_new := count_new + 1;
        }
      }
      assert ps[..|ps|] == ps;
    }

    /** One child in the second half of changeColor (src/common/Stripe.cc:155-227). */
    method ServeChild(idx: int, new_color: int, c: int, ghost vs: set<int>)
      requires Recolours(ecdag, coloring, idx, new_color)
      requires c in ecdag[idx].children && c in ecdag && c !in vs
      modifies this`inn, this`out
      ensures var before, after := Shipments(ecdag, coloring), Shipments(ecdag, coloring[idx := new_color]);
              Moved(old(inn), old(out), Hybrid(before, after, vs), inn, out, Hybrid(before, after, vs + {c}))
      ensures Grown(old(inn), old(out), inn, out, Palette(coloring) + {new_color})
    {
      hide Palette, Shipments, InOf, OutOf, Split, Hybrid, Mirrored, SimpleEdges, Acyclic, CountColor, Distinct;
      ghost var before, after := Shipments(ecdag, coloring), Shipments(ecdag, coloring[idx := new_color]);
      ghost var t := Hybrid(before, after, vs);
      ChildStep(ecdag, coloring, idx, new_color, vs, c);
      var old_color, child_color := coloring[idx], coloring[c];
      if child_color != -1 {
        var count_old, count_new := CountParents(c, old_color, new_color);
        InPalette(coloring, c);
        if old_color != -1 && count_old == 1 && old_color != child_color {
          InPalette(coloring, idx);
          Unship(child_color, old_color, c, t);
          t := t - {Xfer(c, child_color, old_color)};
        }
        if count_new == 0 && new_color != child_color {
          Ship(child_color, new_color, c, t);
          t := t + {Xfer(c, child_color, new_color)};
        }
      }
      assert t == Hybrid(before, after, vs + {c});
    }

    /** Second half of changeColor: the children of idx, one after the other. */
    method ServeChildren(idx: int, new_color: int)
      requires Recolours(ecdag, coloring, idx, new_color)
      modifies this`inn, this`out
      ensures var before, after := Shipments(ecdag, coloring), Shipments(ecdag, coloring[idx := new_color]);
              Moved(old(inn), old(out), Hybrid(before, after, {idx}), inn, out, after)
      ensures Grown(old(inn), old(out), inn, out, Palette(coloring) + {new_color})
    {
      hide Recolours, Moved, Hybrid, Shipments;
      ghost var before, after := Shipments(ecdag, coloring), Shipments(ecdag, coloring[idx := new_color]);
      RecolourFacts(ecdag, coloring, idx, new_color);
      var children := ecdag[idx].children;
      ghost var vs := {idx};
      ghost var inn0, out0 := inn, out;
      MovedNot(inn, out, Hybrid(before, after, vs));
      for i := 0 to |children|
        invariant vs == Upto(idx, children, i)
        invariant Moved(inn0, out0, Hybrid(before, after, {idx}), inn, out, Hybrid(before, after, vs))
        invariant Grown(inn0, out0, inn, out, Palette(coloring) + {new_color})
      {
        ghost var inn1, out1 := inn, out;
        UptoStep(idx, children, i);
        ServeChild(idx, new_color, children[i], vs);
        MovedTwice(inn0, out0, Hybrid(before, after, {idx}), inn1, out1, Hybrid(before, after, vs),
                   inn, out, Hybrid(before, after, vs + {children[i]}));
        vs := vs + {children[i]};
      }
      ChildrenDone(ecdag, coloring, idx, new_color, vs);
    }

    /** src/common/Stripe.cc:107-249: the incremental update moves every counter by exactly the
        difference of the two from-scratch evaluations, so exact tables stay exact. */
    method ChangeColor(idx: int, new_color: int)
      requires Recolours(ecdag, coloring, idx, new_color)
      modifies this`inn, this`out, this`bdwt, this`load, this`coloring
      ensures coloring == old(coloring)[idx := new_color] && Ready()
      ensures Moved(old(inn), old(out), Shipments(ecdag, old(coloring)), inn, out, Shipments(ecdag, coloring))
      ensures Counts(old(inn), old(out), Shipments(ecdag, old(coloring))) ==> Evaluated()
      ensures Grown(old(inn), old(out), inn, out, Palette(old(coloring)) + {new_color})
    {
      hide Recolours, Moved, Hybrid, Shipments, Counts, Summarises, Palette;
      ghost var before, after := Shipments(ecdag, coloring), Shipments(ecdag, coloring[idx := new_color]);
      RecolourFacts(ecdag, coloring, idx, new_color);
      load, bdwt := 0, 0;
      ServeParents(idx, new_color);
      ghost var inn1, out1 := inn, out;
      ServeChildren(idx, new_color);
      MovedTwice(old(inn), old(out), before, inn1, out1, Hybrid(before, after, {idx}), inn, out, after);
      Summarise(after);
      MovedCounts(old(inn), old(out), before, inn, out, after);
      coloring := coloring[idx := new_color];
    }

    /** Whether a table of n nodes has a row for every key of _in and _out. */
    predicate TablesFit(n: int)
      reads this`inn, this`out
    {
      KeysBelow(inn, out, n)
    }

    ghost predicate InRange(n: int)
      reads this
    {
      (forall v | v in coloring :: -1 <= coloring[v] < n) && TablesFit(n)
    }

    /** loadTable starts as a copy of the two tables. */
    method CopyTables(cluster_size: nat) returns (tab: LoadTable)
      requires InRange(cluster_size)
      ensures |tab| == cluster_size
      ensures forall c :: Get(InColumn(tab), c) == Get(inn, c) && Get(OutColumn(tab), c) == Get(out, c)
    {
      tab := seq(cluster_size, i => Load(0, 0));
      var todo := inn.Keys;
      while todo != {}
        invariant todo <= inn.Keys && |tab| == cluster_size
        invariant forall c | 0 <= c < cluster_size :: tab[c] == Load(0, if c in inn && c !in todo then inn[c] else 0)
      {
        var c := Choose(todo);
        tab := tab[c := Load(tab[c].out, inn[c])];
        todo := todo - {c};
      }
      todo := out.Keys;
      while todo != {}
        invariant todo <= out.Keys && |tab| == cluster_size
        invariant forall c | 0 <= c < cluster_size :: tab[c] == Load(if c in out && c !in todo then out[c] else 0, Get(inn, c))
      {
        var c := Choose(todo);
        tab := tab[c := Load(out[c], tab[c].inn)];
        todo := todo - {c};
      }
    }

    method PredictParent(idx: int, new_color: int, c: int, tab0: LoadTable, ghost done: set<int>) returns (tab: LoadTable)
      requires Recolours(ecdag, coloring, idx, new_color) && InRange(|tab0|) && 0 <= new_color < |tab0|
      requires c !in done && ParentColor(ecdag, coloring, idx, c)
      requires var before, after := Shipments(ecdag, coloring), Shipments(ecdag, coloring[idx := new_color]);
               Predicts(inn, out, before, tab0, Split(before, after, idx, done), multiset{}, coloring[idx])
      ensures |tab| == |tab0|
      ensures var before, after := Shipments(ecdag, coloring), Shipments(ecdag, coloring[idx := new_color]);
              Predicts(inn, out, before, tab, Split(before, after, idx, done + {c}), multiset{}, coloring[idx])
    {
      hide Recolours, Predicts, Shipments, Split;
      RecolourFacts(ecdag, coloring, idx, new_color);
      ghost var before, after := Shipments(ecdag, coloring), Shipments(ecdag, coloring[idx := new_color]);
      ghost var t := Split(before, after, idx, done);
      var old_color := coloring[idx];
      OwnStep(ecdag, coloring, idx, new_color, done, c);
      ghost var i :| 0 <= i < |ecdag[idx].parents| && coloring[ecdag[idx].parents[i]] == c;
      ghost var p := ecdag[idx].parents[i];
      assert p in coloring;
      tab := tab0;
      if c != -1 {
        if c != old_color && old_color != -1 {
          PredictLess(inn, out, before, tab, t, multiset{}, old_color, Xfer(idx, old_color, c));
          tab := Bump(tab, old_color, c, -1);
          t := t - {Xfer(idx, old_color, c)};
        }
        if c != new_color {
          PredictMore(inn, out, before, tab, t, multiset{}, old_color, Xfer(idx, new_color, c));
          tab := Bump(tab, new_color, c, 1);
          t := t + {Xfer(idx, new_color, c)};
        }
      }
      assert t == Split(before, after, idx, done + {c});
    }

    method PredictParents(idx: int, new_color: int, tab0: LoadTable) returns (tab: LoadTable)
      requires Recolours(ecdag, coloring, idx, new_color) && InRange(|tab0|) && 0 <= new_color < |tab0|
      requires Predicts(inn, out, Shipments(ecdag, coloring), tab0, Shipments(ecdag, coloring), multiset{}, coloring[idx])
      ensures |tab| == |tab0|
      ensures var before, after := Shipments(ecdag, coloring), Shipments(ecdag, coloring[idx := new_color]);
              Predicts(inn, out, before, tab, Hybrid(before, after, {idx}), multiset{}, coloring[idx])
    {
      hide Recolours, Predicts, Shipments, Split, Hybrid;
      ghost var before, after := Shipments(ecdag, coloring), Shipments(ecdag, coloring[idx := new_color]);
      RecolourFacts(ecdag, coloring, idx, new_color);
      var pcs := ParentColorSet(idx);
      var todo := pcs;
      SplitNothing(before, after, idx);
      assert pcs - todo == {};
      tab := tab0;
      while todo != {}
        invariant todo <= pcs && |tab| == |tab0|
        invariant Predicts(inn, out, before, tab, Split(before, after, idx, pcs - todo), multiset{}, coloring[idx])
      {
        var c := Choose(todo);
        OneMoreDone(pcs, todo, c);
        tab := PredictParent(idx, new_color, c, tab, pcs - todo);
        todo := todo - {c};
      }
      assert pcs - todo == pcs;
      OwnDone(ecdag, coloring, idx, new_color, pcs);
    }

    method PredictChild(idx: int, new_color: int, c: int, tab0: LoadTable, ghost vs: set<int>, ghost m0: multiset<int>)
      returns (tab: LoadTable, ghost m: multiset<int>)
      requires Recolours(ecdag, coloring, idx, new_color) && InRange(|tab0|) && 0 <= new_color < |tab0|
      requires c in ecdag[idx].children && c in ecdag && c !in vs
      requires var before, after := Shipments(ecdag, coloring), Shipments(ecdag, coloring[idx := new_color]);
               Predicts(inn, out, before, tab0, Hybrid(before, after, vs), m0, coloring[idx])
      ensures |tab| == |tab0|
      ensures m == if Loses(ecdag, coloring, idx, c) then m0 + multiset{coloring[c]} else m0
      ensures var before, after := Shipments(ecdag, coloring), Shipments(ecdag, coloring[idx := new_color]);
              Predicts(inn, out, before, tab, Hybrid(before, after, vs + {c}), m, coloring[idx])
    {
      hide Recolours, Predicts, Shipments, Hybrid;
      RecolourFacts(ecdag, coloring, idx, new_color);
      ghost var before, after := Shipments(ecdag, coloring), Shipments(ecdag, coloring[idx := new_color]);
      ghost var t := Hybrid(before, after, vs);
      ChildStep(ecdag, coloring, idx, new_color, vs, c);
      var old_color, child_color := coloring[idx], coloring[c];
      tab, m := tab0, m0;
      if child_color != -1 {
        var count_old, count_new := CountParents(c, old_color, new_color);
        if old_color != -1 && count_old == 1 && old_color != child_color {
          // the columns are exchanged here, unlike in ChangeColor
          PredictSwapped(inn, out, before, tab, t, m, old_color, Xfer(c, child_color, old_color));
          tab := Bump(tab, old_color, child_color, -1);
          t, m := t - {Xfer(c, child_color, old_color)}, m + multiset{child_color};
        }
        if count_new == 0 && new_color != child_color {
          PredictMore(inn, out, before, tab, t, m, old_color, Xfer(c, child_color, new_color));
          tab := Bump(tab, child_color, new_color, 1);
          t := t + {Xfer(c, child_color, new_color)};
        }
      }
      assert t == Hybrid(before, after, vs + {c});
    }

    method PredictChildren(idx: int, new_color: int, tab0: LoadTable) returns (tab: LoadTable, ghost m: multiset<int>)
      requires Recolours(ecdag, coloring, idx, new_color) && InRange(|tab0|) && 0 <= new_color < |tab0|
      requires var before, after := Shipments(ecdag, coloring), Shipments(ecdag, coloring[idx := new_color]);
               Predicts(inn, out, before, tab0, Hybrid(before, after, {idx}), multiset{}, coloring[idx])
      ensures |tab| == |tab0| && coloring[idx] !in m
      ensures coloring[idx] == -1 ==> m == multiset{}
      ensures m == multiset{} <==> NoneLoses(ecdag, coloring, idx)
      ensures var before, after := Shipments(ecdag, coloring), Shipments(ecdag, coloring[idx := new_color]);
              Predicts(inn, out, before, tab, after, m, coloring[idx])
    {
      hide Recolours, Predicts, Shipments, Hybrid, CountColor;
      ghost var before, after := Shipments(ecdag, coloring), Shipments(ecdag, coloring[idx := new_color]);
      RecolourFacts(ecdag, coloring, idx, new_color);
      var children := ecdag[idx].children;
      ghost var vs := {idx};
      tab, m := tab0, multiset{};
      for i := 0 to |children|
        invariant |tab| == |tab0| && vs == Upto(idx, children, i)
        invariant coloring[idx] !in m && (coloring[idx] == -1 ==> m == multiset{})
        invariant m == multiset{} <==> forall j | 0 <= j < i :: !Loses(ecdag, coloring, idx, children[j])
        invariant Predicts(inn, out, before, tab, Hybrid(before, after, vs), m, coloring[idx])
      {
        UptoStep(idx, children, i);
        tab, m := PredictChild(idx, new_color, children[i], tab, vs, m);
        vs := vs + {children[i]};
      }
      ChildrenDone(ecdag, coloring, idx, new_color, vs);
    }

    /** src/common/Stripe.cc:265-380: the table the stripe would have after changeColor(idx, new_color),
        without touching the stripe. The prediction is right if and only if no child of idx has idx as
        its last parent in the old colour: in particular whenever idx is still uncoloured. */
    method EvaluateChange(cluster_size: nat, idx: int, new_color: int) returns (tab: LoadTable)
      requires Recolours(ecdag, coloring, idx, new_color) && Ready()
      requires InRange(cluster_size) && 0 <= new_color < cluster_size
      ensures |tab| == cluster_size
      ensures Counts(inn, out, Shipments(ecdag, coloring)) ==>
        (TableIs(tab, Shipments(ecdag, coloring[idx := new_color])) <==> NoneLoses(ecdag, coloring, idx))
      ensures NoneLoses(ecdag, coloring, idx) ==>
        Moved(inn, out, Shipments(ecdag, coloring), InColumn(tab), OutColumn(tab), Shipments(ecdag, coloring[idx := new_color]))
      ensures coloring[idx] == -1 ==> NoneLoses(ecdag, coloring, idx)
    {
      hide Recolours, Predicts, Shipments, Hybrid, TableIs, Counts, CountColor, Moved, InColumn, OutColumn;
      ghost var before, after := Shipments(ecdag, coloring), Shipments(ecdag, coloring[idx := new_color]);
      RecolourFacts(ecdag, coloring, idx, new_color);
      tab := CopyTables(cluster_size);
      PredictsNothing(inn, out, before, tab, coloring[idx]);
      tab := PredictParents(idx, new_color, tab);
      ghost var m;
      tab, m := PredictChildren(idx, new_color, tab);
      if m == multiset{} { PredictsMoved(inn, out, before, tab, after, coloring[idx]); }
      if Counts(inn, out, before) {
        PredictionExact(inn, out, before, tab, after, m, coloring[idx]);
      }
    }

    /** One vertex of evalColoringGlobal: its shipments are added to the shared table. */
    method AddVertexLoad(v: int, tab0: LoadTable, ghost t: set<Xfer>) returns (tab: LoadTable)
      requires Ready() && InRange(|tab0|) && v in ecdag && coloring[v] != -1 && From(t, {v}) == {}
      ensures |tab| == |tab0|
      ensures var t' := t + From(Shipments(ecdag, coloring), {v});
              Moved(InColumn(tab0), OutColumn(tab0), t, InColumn(tab), OutColumn(tab), t')
    {
      hide Moved, InColumn, OutColumn, Bump;
      ghost var mine := From(Shipments(ecdag, coloring), {v});
      var mycolor := coloring[v];
      var cs := ParentColors(v);
      forall e
        ensures e in mine <==> e == Xfer(v, mycolor, e.dst) && mycolor != e.dst && e.dst != -1 && e.dst in cs
      {
        ShipmentIff(ecdag, coloring, e);
      }
      ghost var t' := t;
      tab := tab0;
      MovedNot(InColumn(tab), OutColumn(tab), t);
      for i := 0 to |cs|
        invariant |tab| == |tab0|
        invariant forall e :: e in t' <==> e in t || (e in mine && exists j | 0 <= j < i :: cs[j] == e.dst)
        invariant Moved(InColumn(tab0), OutColumn(tab0), t, InColumn(tab), OutColumn(tab), t')
      {
        var c := cs[i];
        assert c in cs;
        if mycolor != c && c != -1 {
          ghost var e := Xfer(v, mycolor, c);
          assert e !in t' by {
            assert e !in From(t, {v});
          }
          ParentInRange(v, c, |tab0|);
          BumpColumns(tab, mycolor, c, 1);
          CountOneMore(InColumn(tab), OutColumn(tab), t', e);
          MovedTwice(InColumn(tab0), OutColumn(tab0), t, InColumn(tab), OutColumn(tab), t',
                     InColumn(Bump(tab, mycolor, c, 1)), OutColumn(Bump(tab, mycolor, c, 1)), t' + {e});
          tab := Bump(tab, mycolor, c, 1);
          t' := t' + {e};
        }
      }
      assert t' == t + mine;
    }

    lemma ParentInRange(v: int, c: int, n: nat)
      requires Ready() && InRange(n) && v in ecdag && ParentColor(ecdag, coloring, v, c)
      ensures -1 <= c < n
    {
      var i :| 0 <= i < |ecdag[v].parents| && coloring[ecdag[v].parents[i]] == c;
      var p := ecdag[v].parents[i];
      assert p in coloring;
    }

    /** src/common/Stripe.cc:557-598: the table with this stripe's traffic added. */
    method EvalColoringGlobal(loadTable: LoadTable) returns (tab: LoadTable)
      requires Ready() && InRange(|loadTable|)
      ensures |tab| == |loadTable|
      ensures forall c | 0 <= c < |tab| :: var t := Shipments(ecdag, coloring);
                tab[c] == Load(loadTable[c].out + OutOf(t, c), loadTable[c].inn + InOf(t, c))
    {
      hide Moved, Shipments, From, InColumn, OutColumn;
      ghost var all := Shipments(ecdag, coloring);
      tab := loadTable;
      FromNothing(all);
      MovedNot(InColumn(tab), OutColumn(tab), {});
      var todo := coloring.Keys;
      assert coloring.Keys - todo == {};
      while todo != {}
        invariant todo <= coloring.Keys && |tab| == |loadTable|
        invariant Moved(InColumn(loadTable), OutColumn(loadTable), {}, InColumn(tab), OutColumn(tab), From(all, coloring.Keys - todo))
      {
        var v := Choose(todo);
        OneMoreDone(coloring.Keys, todo, v);
        FromStep(all, coloring.Keys - todo, v);
        if coloring[v] != -1 {
          ghost var inn1, out1 := InColumn(tab), OutColumn(tab);
          tab := AddVertexLoad(v, tab, From(all, coloring.Keys - todo));
          MovedTwice(InColumn(loadTable), OutColumn(loadTable), {}, inn1, out1, From(all, coloring.Keys - todo),
                     InColumn(tab), OutColumn(tab), From(all, coloring.Keys - todo + {v}));
        } else {
          UncoloredSendsNothing(ecdag, coloring, v);
          assert From(all, coloring.Keys - todo) + {} == From(all, coloring.Keys - todo);
        }
        todo := todo - {v};
      }
      assert coloring.Keys - todo == coloring.Keys;
      AllFromColored(ecdag, coloring);
      ColumnsMoved(loadTable, tab, all);
    }
  }
}
