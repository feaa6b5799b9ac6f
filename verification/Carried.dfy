/** The generated tasks carry exactly the traffic that the load accounting counts. */
module Carried {
  import opened Dags
  import opened Traffic
  import opened Recolouring
  import opened Network
  import opened Programs
  import opened Compile
  import opened Plumb

  /** The j-th destination of the i-th sub-packet of a send task; the i-th sub-packet of a recv task. */
  datatype SendEntry = SendEntry(th: Thread, i: nat, j: nat)
  datatype RecvEntry = RecvEntry(th: Thread, i: nat)

  ghost predicate IsSend<C>(tasks: TaskMap<C>, e: SendEntry) {
    && e.th in tasks && e.th.stage.Sending? && tasks[e.th].Send? && WellFormedTask(tasks[e.th])
    && e.i < |tasks[e.th].dagidx| && e.j < |tasks[e.th].sendto[e.i]|
  }

  ghost predicate IsRecv<C>(tasks: TaskMap<C>, e: RecvEntry) {
    && e.th in tasks && e.th.stage.Receiving? && tasks[e.th].Recv? && e.i < |tasks[e.th].dagidx|
  }

  /** The shipment an entry stands for. */
  ghost function Sent<C>(tasks: TaskMap<C>, e: SendEntry): Xfer
    requires IsSend(tasks, e)
  {
    Xfer(tasks[e.th].dagidx[e.i], e.th.node, tasks[e.th].sendto[e.i][e.j])
  }

  ghost function Received<C>(p: Plan<C>, tasks: TaskMap<C>, e: RecvEntry): Xfer
    requires IsRecv(tasks, e) && Compiled'(p, tasks)
  {
    var v := tasks[e.th].dagidx[e.i];
    Xfer(v, if v in p.col then p.col[v] else -1, e.th.node)
  }

  ghost predicate Compiled'<C>(p: Plan<C>, tasks: TaskMap<C>) {
    WellFormed(p) && Compiled(p, tasks)
  }

  lemma SentIsShipped<C>(p: Plan<C>, tasks: TaskMap<C>, e: SendEntry)
    requires Sane(p) && Compiled(p, tasks) && IsSend(tasks, e)
    ensures Sent(tasks, e) in Shipments(p.g, p.col)
    ensures e.th.stage.level == p.lev[Sent(tasks, e).v]
  {
    hide Shipments, Mirrored;
    var t := tasks[e.th];
    assert TaskFits(p, e.th, t);
    var v, d := t.dagidx[e.i], t.sendto[e.i][e.j];
    assert Listed(p, e.th, v) && Destinations(p, v, t.sendto[e.i]);
    assert d in t.sendto[e.i];
    RealColored(p, v);
    ShipmentIff(p.g, p.col, Sent(tasks, e));
  }

  lemma ReceivedIsShipped<C>(p: Plan<C>, tasks: TaskMap<C>, e: RecvEntry)
    requires Sane(p) && Compiled(p, tasks) && IsRecv(tasks, e)
    ensures Received(p, tasks, e) in Shipments(p.g, p.col)
    ensures e.th.stage.level == p.lev[Received(p, tasks, e).v]
  {
    hide Shipments, Mirrored;
    var t := tasks[e.th];
    assert TaskFits(p, e.th, t);
    var v := t.dagidx[e.i];
    assert Listed(p, e.th, v);
    RealColored(p, v);
    ShipmentIff(p.g, p.col, Received(p, tasks, e));
  }

  lemma ShippedIsReal<C>(p: Plan<C>, x: Xfer)
    requires Sane(p) && x in Shipments(p.g, p.col)
    ensures x.v in p.g && x.v != p.header && IsReal(p, x.v) && x.src == p.col[x.v] != x.dst && x.dst != -1
    ensures ParentColor(p.g, p.col, x.v, x.dst) && HasOther(p, x.v) && p.lev[x.v] < p.last
  {
    ShipmentIff(p.g, p.col, x);
    var j :| 0 <= j < |p.g[x.v].parents| && p.col[p.g[x.v].parents[j]] == x.dst;
    ParentHasChild(p, x.v, j);
  }

  lemma ShippedIsSent<C>(p: Plan<C>, tasks: TaskMap<C>, x: Xfer) returns (e: SendEntry)
    requires Sane(p) && Compiled(p, tasks) && x in Shipments(p.g, p.col)
    ensures IsSend(tasks, e) && Sent(tasks, e) == x
  {
    hide Shipments, Mirrored;
    ShippedIsReal(p, x);
    var th := Thread(x.src, Sending(p.lev[x.v]));
    assert Listed(p, th, x.v);
    var t := tasks[th];
    assert TaskFits(p, th, t);
    var i := PositionIn(p, th, t.dagidx, x.v);
    assert Destinations(p, t.dagidx[i], t.sendto[i]);
    assert x.dst in t.sendto[i];
    var j :| 0 <= j < |t.sendto[i]| && t.sendto[i][j] == x.dst;
    e := SendEntry(th, i, j);
  }

  lemma ShippedIsReceived<C>(p: Plan<C>, tasks: TaskMap<C>, x: Xfer) returns (e: RecvEntry)
    requires Sane(p) && Compiled(p, tasks) && x in Shipments(p.g, p.col)
    ensures IsRecv(tasks, e) && Received(p, tasks, e) == x
  {
    hide Shipments, Mirrored;
    ShippedIsReal(p, x);
    var th := Thread(x.dst, Receiving(p.lev[x.v]));
    assert Listed(p, th, x.v);
    var t := tasks[th];
    assert TaskFits(p, th, t);
    var i := PositionIn(p, th, t.dagidx, x.v);
    e := RecvEntry(th, i);
  }

  /** No shipment is sent twice. */
  lemma SentOnce<C>(p: Plan<C>, tasks: TaskMap<C>, e: SendEntry, f: SendEntry)
    requires Sane(p) && Compiled(p, tasks) && IsSend(tasks, e) && IsSend(tasks, f) && Sent(tasks, e) == Sent(tasks, f)
    ensures e == f
  {
    hide Shipments, Mirrored, Listed, ParentColor;
    SentIsShipped(p, tasks, e);
    SentIsShipped(p, tasks, f);
    assert e.th == f.th;
    assert TaskFits(p, e.th, tasks[e.th]);
  }

  lemma ReceivedOnce<C>(p: Plan<C>, tasks: TaskMap<C>, e: RecvEntry, f: RecvEntry)
    requires Sane(p) && Compiled(p, tasks) && IsRecv(tasks, e) && IsRecv(tasks, f) && Received(p, tasks, e) == Received(p, tasks, f)
    ensures e == f
  {
    hide Shipments, Mirrored, Listed;
    ReceivedIsShipped(p, tasks, e);
    ReceivedIsShipped(p, tasks, f);
    assert e.th == f.th;
    assert TaskFits(p, e.th, tasks[e.th]);
  }

  ghost function SendsFrom<C>(tasks: TaskMap<C>, node: int): set<SendEntry> {
    set th, i, j | th in tasks && th.node == node && th.stage.Sending? && tasks[th].Send? && WellFormedTask(tasks[th])
                   && 0 <= i < |tasks[th].dagidx| && 0 <= j < |tasks[th].sendto[i]| :: SendEntry(th, i, j)
  }

  ghost function RecvsAt<C>(tasks: TaskMap<C>, node: int): set<RecvEntry> {
    set th, i | th in tasks && th.node == node && th.stage.Receiving? && tasks[th].Recv? && 0 <= i < |tasks[th].dagidx| :: RecvEntry(th, i)
  }

  /** A one-to-one correspondence keeps the size. */
  lemma {:induction false} SameSize<A, B>(m: map<A, B>, image: set<B>)
    requires forall a, b | a in m && b in m && m[a] == m[b] :: a == b
    requires forall y :: y in image <==> exists a :: a in m && m[a] == y
    ensures |m.Keys| == |image|
  {
    if m.Keys == {} {
      assert image == {};
    } else {
      var a :| a in m.Keys;
      var m' := m - {a};
      forall y ensures y in image - {m[a]} <==> exists b :: b in m' && m'[b] == y {
        if b :| b in m && m[b] == y && y != m[a] { assert b in m'; }
      }
      SameSize(m', image - {m[a]});
      assert m.Keys == m'.Keys + {a};
    }
  }

  /** For each node the send-to entries of its send tasks are as many as the sub-packets the accounting
      says it sends, and the entries of its recv tasks as many as it receives. */
  lemma TasksCarryTraffic<C>(p: Plan<C>, tasks: TaskMap<C>, node: int)
    requires Sane(p) && Compiled(p, tasks)
    ensures |SendsFrom(tasks, node)| == OutOf(Shipments(p.g, p.col), node)
    ensures |RecvsAt(tasks, node)| == InOf(Shipments(p.g, p.col), node)
  {
    hide Shipments, WellFormed, ZeroesClosed, Compiled, WellFormedTask;
    var sends := map e | e in SendsFrom(tasks, node) :: Sent(tasks, e);
    var out := set x | x in Shipments(p.g, p.col) && x.src == node;
    forall x ensures x in out <==> exists e :: e in sends && sends[e] == x {
      if x in out {
        var e := ShippedIsSent(p, tasks, x);
        assert e in sends;
      }
      if e :| e in sends && sends[e] == x {
        SentIsShipped(p, tasks, e);
      }
    }
    forall e, f | e in sends && f in sends && sends[e] == sends[f] ensures e == f {
      SentOnce(p, tasks, e, f);
    }
    SameSize(sends, out);
    assert sends.Keys == SendsFrom(tasks, node);
    RecvsCarryTraffic(p, tasks, node);
  }

  lemma RecvsCarryTraffic<C>(p: Plan<C>, tasks: TaskMap<C>, node: int)
    requires Sane(p) && Compiled(p, tasks)
    ensures |RecvsAt(tasks, node)| == InOf(Shipments(p.g, p.col), node)
  {
    hide Shipments, WellFormed, ZeroesClosed, Compiled, WellFormedTask;
    var recvs := map e | e in RecvsAt(tasks, node) :: Received(p, tasks, e);
    var inn := set x | x in Shipments(p.g, p.col) && x.dst == node;
    forall x ensures x in inn <==> exists e :: e in recvs && recvs[e] == x {
      if x in inn {
        var e := ShippedIsReceived(p, tasks, x);
        assert e in recvs;
      }
      if e :| e in recvs && recvs[e] == x {
        ReceivedIsShipped(p, tasks, e);
      }
    }
    forall e, f | e in recvs && f in recvs && recvs[e] == recvs[f] ensures e == f {
      ReceivedOnce(p, tasks, e, f);
    }
    SameSize(recvs, inn);
    assert recvs.Keys == RecvsAt(tasks, node);
  }

  /** Sends and recvs match one to one by sub-packet and destination. */
  lemma SendsMatchRecvs<C>(p: Plan<C>, tasks: TaskMap<C>, e: SendEntry)
    requires Sane(p) && Compiled(p, tasks) && IsSend(tasks, e)
    ensures exists r :: IsRecv(tasks, r) && Received(p, tasks, r) == Sent(tasks, e)
    ensures forall r, r' | IsRecv(tasks, r) && IsRecv(tasks, r') && Received(p, tasks, r) == Received(p, tasks, r') == Sent(tasks, e) :: r == r'
  {
    hide Shipments, WellFormed, ZeroesClosed, Compiled, IsRecv, Received;
    SentIsShipped(p, tasks, e);
    var r := ShippedIsReceived(p, tasks, Sent(tasks, e));
    forall r, r' | IsRecv(tasks, r) && IsRecv(tasks, r') && Received(p, tasks, r) == Received(p, tasks, r') == Sent(tasks, e) ensures r == r' {
      ReceivedOnce(p, tasks, r, r');
    }
  }

  ghost function TotalSends<C>(tasks: TaskMap<C>, nodes: set<int>): nat {
    if nodes == {} then 0 else var c := Traffic.Pick(nodes); |SendsFrom(tasks, c)| + TotalSends(tasks, nodes - {c})
  }

  ghost function TotalRecvs<C>(tasks: TaskMap<C>, nodes: set<int>): nat {
    if nodes == {} then 0 else var c := Traffic.Pick(nodes); |RecvsAt(tasks, c)| + TotalRecvs(tasks, nodes - {c})
  }

  lemma {:induction false} TotalsCarried<C>(p: Plan<C>, tasks: TaskMap<C>, nodes: set<int>)
    requires Sane(p) && Compiled(p, tasks)
    ensures TotalSends(tasks, nodes) == SumOut(Shipments(p.g, p.col), nodes)
    ensures TotalRecvs(tasks, nodes) == SumIn(Shipments(p.g, p.col), nodes)
  {
    hide Shipments, WellFormed, ZeroesClosed, Compiled, SendsFrom, RecvsAt, InOf, OutOf;
    if nodes != {} {
      var c := Traffic.Pick(nodes);
      TotalsCarried(p, tasks, nodes - {c});
      TasksCarryTraffic(p, tasks, c);
    }
  }

  /** Over all nodes, the send-to entries and the entries of the recv tasks are both exactly as many as the bandwidth
      that the colouring was chosen for. */
  lemma BandwidthCarried<C>(p: Plan<C>, tasks: TaskMap<C>, load: int, bdwt: int)
    requires Sane(p) && Compiled(p, tasks) && Summarises(load, bdwt, Shipments(p.g, p.col))
    ensures TotalSends(tasks, Palette(p.col)) == bdwt == TotalRecvs(tasks, Palette(p.col))
  {
    hide Shipments, WellFormed, ZeroesClosed, Compiled, Palette, TotalSends, TotalRecvs, SumIn, SumOut;
    TotalsCarried(p, tasks, Palette(p.col));
    forall x | x in Shipments(p.g, p.col) ensures x.src in Palette(p.col) && x.dst in Palette(p.col) {
      EndsInPalette(p.g, p.col, x);
    }
    TrafficConserved(Shipments(p.g, p.col), Palette(p.col));
  }

  lemma EndsInPalette<C>(g: Dag<C>, col: Coloring, x: Xfer)
    requires x in Shipments(g, col)
    ensures x.src in Palette(col) && x.dst in Palette(col)
  {}
}
