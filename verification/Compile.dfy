/** What genRepairTasks (src/common/Stripe.cc:598-1249) makes of a coloured DAG, and why the
    resulting cluster of threads computes it. */
module Compile {
  import opened Dags
  import opened Traffic
  import opened Recolouring
  import opened Network
  import opened Programs

  /** Everything the compiler looks at. lev is the level of a vertex in the levelled topological
      sorting, last the number of the last level, header its only vertex. */
  datatype Plan<C> = Plan(g: Dag<C>, col: Coloring, lev: map<int, nat>, last: nat, header: int,
                          ecn: nat, ecw: nat, blklist: seq<string>, repaired: string)

  /** What genLeveledTopologicalSorting and the coloring callers provide. */
  ghost predicate WellFormed<C>(p: Plan<C>) {
    && Mirrored(p.g) && Colored(p.g, p.col) && p.lev.Keys == p.g.Keys
    && (forall v, i | v in p.g && 0 <= i < |p.g[v].children| :: p.lev[p.g[v].children[i]] < p.lev[v])
    && (forall v | v in p.g :: p.lev[v] == 0 <==> p.g[v].children == [])
    && p.header in p.g && 0 < p.last
    && (forall v | v in p.g :: p.lev[v] <= p.last && (p.lev[v] == p.last <==> v == p.header))
    && 0 < p.ecw
    // the sub-packets of one stored block are read on one node
    && (forall v, u | v in p.g && u in p.g && IsStored(p, v) && IsStored(p, u) && v / p.ecw == u / p.ecw :: p.col[v] == p.col[u])
    // queue keys of different sub-packets cannot be confused
    && (forall v | v in p.g && v != p.header :: Keyable(v))
    && Distinct(p.g[p.header].children)
    && p.ecn <= |p.blklist| && (forall b | 0 <= b < p.ecn :: p.blklist[b] != ZERO)
  }

  /** A leaf of a real block; a leaf beyond them is a shortened, zero one. */
  ghost predicate IsStored<C>(p: Plan<C>, v: int)
    requires v in p.g && 0 < p.ecw
  {
    p.g[v].children == [] && v / p.ecw < p.ecn
  }

  /** Vertices that some node materialises from its children or from disk. */
  ghost predicate IsReal<C>(p: Plan<C>, v: int)
    requires v in p.g && p.col.Keys == p.g.Keys && 0 < p.ecw
  {
    if p.g[v].children == [] then v / p.ecw < p.ecn else p.col[v] != -1
  }

  /** -1 is closed downward: it marks exactly the zero leaves and vertices made of nothing else. */
  ghost predicate ZeroesClosed<C>(p: Plan<C>)
    requires WellFormed(p)
  {
    && p.col[p.header] != -1
    && (forall v | v in p.g && p.g[v].children == [] :: (p.col[v] == -1 <==> v / p.ecw >= p.ecn))
    && (forall v, i | v in p.g && p.col[v] == -1 && 0 <= i < |p.g[v].children| :: p.col[p.g[v].children[i]] == -1)
  }

  /** Consumers of a vertex that have the same colour are in the same level. */
  ghost predicate OneLevelPerColor<C>(p: Plan<C>)
    requires WellFormed(p)
  {
    forall v, i, j | v in p.g && 0 <= i < |p.g[v].parents| && 0 <= j < |p.g[v].parents| ::
      p.col[p.g[v].parents[i]] == p.col[p.g[v].parents[j]] != -1 ==> p.lev[p.g[v].parents[i]] == p.lev[p.g[v].parents[j]]
  }

  /** The threads of the deployed stripe; a node runs at most one of each. */
  datatype Stage = Reading(blk: int) | Computing(level: nat) | Sending(level: nat) | Receiving(level: nat)
                 | Zeroing(level: nat) | Persisting

  datatype Thread = Thread(node: int, stage: Stage)

  type TaskMap<C> = map<Thread, Task<C>>

  ghost predicate HasOther<C>(p: Plan<C>, v: int)
    requires v in p.g && Colored(p.g, p.col)
  {
    exists i | 0 <= i < |p.g[v].parents| :: p.col[p.g[v].parents[i]] != p.col[v]
  }

  ghost function UsageOf<C>(p: Plan<C>, v: int): Usage
    requires v in p.g && Colored(p.g, p.col)
  {
    Usage(ParentColor(p.g, p.col, v, p.col[v]), HasOther(p, v))
  }

  /** Sub-packet v belongs to the list of thread th. */
  ghost predicate Listed<C>(p: Plan<C>, th: Thread, v: int)
    requires WellFormed(p)
  {
    && v in p.g
    && match th.stage
       case Reading(b) => IsStored(p, v) && v / p.ecw == b && p.col[v] == th.node
       case Computing(l) => p.lev[v] == l && 0 < l < p.last && p.col[v] == th.node != -1
       case Sending(l) => p.lev[v] == l < p.last && IsReal(p, v) && p.col[v] == th.node && HasOther(p, v)
       case Receiving(l) => p.lev[v] == l < p.last && IsReal(p, v) && p.col[v] != th.node && ParentColor(p.g, p.col, v, th.node)
       case Zeroing(l) => p.lev[v] == l < p.last && !IsReal(p, v) && th.node != -1 && ParentColor(p.g, p.col, v, th.node)
       case Persisting => v == p.header && p.col[v] == th.node
  }

  ghost predicate Lists<C>(p: Plan<C>, th: Thread, xs: seq<int>)
    requires WellFormed(p)
  {
    && xs != [] && Distinct(xs)
    && (forall i | 0 <= i < |xs| :: Listed(p, th, xs[i]))
    && (forall v | Listed(p, th, v) :: v in xs)
  }

  ghost predicate Destinations<C>(p: Plan<C>, v: int, tos: seq<int>)
    requires v in p.g && Colored(p.g, p.col)
  {
    && Distinct(tos)
    && (forall c :: c in tos <==> c != p.col[v] && ParentColor(p.g, p.col, v, c))
  }

  ghost function Dsts<C>(items: seq<ComputeItem<C>>): seq<int> {
    seq(|items|, i requires 0 <= i < |items| => items[i].dst)
  }

  /** The task of a thread, up to the order in which lists are filled. */
  ghost predicate TaskFits<C>(p: Plan<C>, th: Thread, t: Task<C>)
    requires WellFormed(p)
  {
    match th.stage
    case Reading(b) =>
      && 0 <= b < p.ecn && t.Read? && t.blk == p.blklist[b] && Lists(p, th, t.dagidx) && |t.usage| == |t.dagidx|
      && (forall i | 0 <= i < |t.dagidx| :: t.usage[i] == UsageOf(p, t.dagidx[i]))
    case Computing(_) =>
      && t.Compute? && Lists(p, th, Dsts(t.items))
      && (forall i | 0 <= i < |t.items| :: t.items[i].dst in p.g &&
            t.items[i] == ComputeItem(t.items[i].dst, p.g[t.items[i].dst].children, p.g[t.items[i].dst].coefs, UsageOf(p, t.items[i].dst)))
    case Sending(_) =>
      && t.Send? && Lists(p, th, t.dagidx) && |t.sendto| == |t.dagidx|
      && (forall i | 0 <= i < |t.dagidx| :: t.dagidx[i] in p.g && Destinations(p, t.dagidx[i], t.sendto[i]))
    case Receiving(_) => t.Recv? && Lists(p, th, t.dagidx)
    case Zeroing(_) => t.Read? && t.blk == ZERO && Lists(p, th, t.dagidx)
    case Persisting => th.node == p.col[p.header] && t == Persist(p.g[p.header].children, p.repaired)
  }

  ghost predicate Compiled<C>(p: Plan<C>, tasks: TaskMap<C>)
    requires WellFormed(p)
  {
    && (forall th | th in tasks :: TaskFits(p, th, tasks[th]))
    && (forall th, v | Listed(p, th, v) :: th in tasks)
  }

  // ---------------------------------------------------------------------------------------------
  // Who feeds and who drains a queue

  /** The thread that makes v on the node that owns it. */
  ghost function Maker<C>(p: Plan<C>, v: int): Thread
    requires WellFormed(p) && v in p.g
  {
    Thread(p.col[v], if p.lev[v] == 0 then Reading(v / p.ecw) else Computing(p.lev[v]))
  }

  ghost function ConsumerLevel<C>(p: Plan<C>, v: int, c: int): nat
    requires WellFormed(p) && v in p.g && ParentColor(p.g, p.col, v, c)
  {
    var i :| 0 <= i < |p.g[v].parents| && p.col[p.g[v].parents[i]] == c;
    p.lev[p.g[v].parents[i]]
  }

  /** The queues in use: local copies where a consumer lives, outgoing copies on the owner, incoming
      lists on every other node with a consumer. */
  ghost predicate InUse<C>(p: Plan<C>, ch: Chan)
    requires WellFormed(p)
  {
    var v := IndexOf(ch);
    && v in p.g && v != p.header
    && match ch
       case Net(c, _) => IsReal(p, v) && c != p.col[v] && ParentColor(p.g, p.col, v, c)
       case Local(c, k) =>
         if k == v then c != -1 && ParentColor(p.g, p.col, v, c)
         else k == Key(v) && IsReal(p, v) && c == p.col[v] && HasOther(p, v)
  }

  ghost function Producer<C>(p: Plan<C>, ch: Chan): Thread
    requires WellFormed(p) && InUse(p, ch)
  {
    var v := IndexOf(ch);
    match ch
    case Net(_, _) => Thread(p.col[v], Sending(p.lev[v]))
    case Local(c, k) =>
      if k != v then Maker(p, v)
      else if !IsReal(p, v) then Thread(c, Zeroing(p.lev[v]))
      else if p.col[v] == c then Maker(p, v)
      else Thread(c, Receiving(p.lev[v]))
  }

  ghost function Consumer<C>(p: Plan<C>, ch: Chan): Thread
    requires WellFormed(p) && InUse(p, ch)
  {
    var v := IndexOf(ch);
    match ch
    case Net(c, _) => Thread(c, Receiving(p.lev[v]))
    case Local(c, k) =>
      if k != v then Thread(c, Sending(p.lev[v]))
      else
        var l := ConsumerLevel(p, v, c);
        Thread(c, if l == p.last then Persisting else Computing(l))
  }

  /** Distance from the stored blocks: made, sent, received. */
  ghost function Rank<C>(p: Plan<C>, ch: Chan): nat
    requires WellFormed(p) && InUse(p, ch)
  {
    var v := IndexOf(ch);
    match ch
    case Net(_, _) => 3 * p.lev[v] + 1
    case Local(c, k) => if k != v then 3 * p.lev[v] else 3 * p.lev[v] + 2
  }

  /** Finitely many candidates for queues in use. */
  ghost function Queues<C>(p: Plan<C>): set<Chan>
    requires WellFormed(p)
  {
    (set v, u | v in p.g && u in p.g :: Chan.Net(p.col[u], v))
    + (set v, u | v in p.g && u in p.g :: Local(p.col[u], v))
    + (set v | v in p.g :: Local(p.col[v], Key(v)))
  }

  ghost function PlumbingOf<C>(p: Plan<C>): Plumbing<Thread>
    requires WellFormed(p)
  {
    Plumbing(
      map ch | ch in Queues(p) && InUse(p, ch) :: Producer(p, ch),
      map ch | ch in Queues(p) && InUse(p, ch) :: Consumer(p, ch),
      map ch | ch in Queues(p) && InUse(p, ch) :: IndexOf(ch),
      map ch | ch in Queues(p) && InUse(p, ch) :: Rank(p, ch),
      Thread(p.col[p.header], Persisting),
      RepairFile(p.col[p.header], p.repaired))
  }

  lemma InUseListed<C>(p: Plan<C>, ch: Chan)
    requires WellFormed(p) && InUse(p, ch)
    ensures ch in Queues(p)
  {
    var v := IndexOf(ch);
    match ch
    case Net(c, _) =>
      var i :| 0 <= i < |p.g[v].parents| && p.col[p.g[v].parents[i]] == c;
      var u := p.g[v].parents[i];
      assert u in p.g;
    case Local(c, k) =>
      if k == v {
        var i :| 0 <= i < |p.g[v].parents| && p.col[p.g[v].parents[i]] == c;
        var u := p.g[v].parents[i];
        assert u in p.g;
      }
  }

  lemma PlumbingKeys<C>(p: Plan<C>)
    requires WellFormed(p)
    ensures forall ch :: ch in PlumbingOf(p).prod <==> InUse(p, ch)
    ensures var pl := PlumbingOf(p); pl.prod.Keys == pl.cons.Keys == pl.carries.Keys == pl.rank.Keys
  {
    forall ch ensures ch in PlumbingOf(p).prod <==> InUse(p, ch) {
      if InUse(p, ch) { InUseListed(p, ch); }
    }
  }
}
