/** The main results on deployed repairs: every interleaving of the generated tasks computes the
    DAG and finishes, exactly when equally coloured consumers share a level. */
module Repair {
  import opened Dags
  import opened Traffic
  import opened Recolouring
  import opened Network
  import opened Programs
  import opened Compile
  import opened Plumb

  /** The cluster runs the tasks of the plan. */
  ghost predicate Runs<C, P>(net: Cluster<C, Thread, P>, p: Plan<C>, tasks: TaskMap<C>) {
    && net.progs.Keys == tasks.Keys
    && (forall th | th in tasks :: WellFormedTask(tasks[th]) && net.progs[th] == Program(th.node, tasks[th]))
  }

  /** Where the plan reads a leaf: from the file of its block, on the node that the leaf is coloured with. */
  ghost function BlockFile<C>(p: Plan<C>, v: int): File
    requires WellFormed(p) && v in p.g && IsStored(p, v)
  {
    StoredBlock(p, v);
    File(p.col[v], p.blklist[v / p.ecw])
  }

  lemma StoredBlock<C>(p: Plan<C>, v: int)
    requires WellFormed(p) && v in p.g && IsStored(p, v)
    ensures v in p.col && 0 <= v && 0 <= v / p.ecw < |p.blklist|
  {
    hide Mirrored;
    assert v != p.header && Keyable(v);
  }

  /** val solves the equations of the DAG over the stored blocks. */
  ghost predicate Solves<C, P>(p: Plan<C>, net: Cluster<C, Thread, P>, val: (int, nat) -> P)
    requires WellFormed(p)
  {
    && (forall v, r: nat | v in p.g && v != p.header && p.g[v].children != [] ::
          val(v, r) == net.pk.lin(p.g[v].coefs, Row(val, p.g[v].children, r)))
    && (forall v, r: nat | v in p.g && p.g[v].children == [] ::
          val(v, r) == if IsStored(p, v) then net.data(BlockFile(p, v), PlaceIn(net.width, r, v)) else net.pk.zero)
  }

  /** Combining zeroes gives zero. */
  ghost predicate Linear<C, P>(p: Plan<C>, pk: Packets<C, P>) {
    forall v | v in p.g :: pk.lin(p.g[v].coefs, Zeroes(pk, |p.g[v].children|)) == pk.zero
  }

  ghost function Zeroes<C, P>(pk: Packets<C, P>, n: nat): seq<P> {
    seq(n, i => pk.zero)
  }

  lemma {:induction false} ZeroesAreZero<C, P>(p: Plan<C>, net: Cluster<C, Thread, P>, val: (int, nat) -> P, v: int, r: nat)
    requires Sane(p) && Solves(p, net, val) && Linear(p, net.pk)
    requires v in p.g && v != p.header && !IsReal(p, v)
    ensures val(v, r) == net.pk.zero
    decreases p.lev[v]
  {
    if p.g[v].children != [] {
      var ps := Row(val, p.g[v].children, r);
      forall i | 0 <= i < |ps| ensures ps[i] == net.pk.zero {
        ChildHasParent(p, v, i);
        ZeroesAreZero(p, net, val, p.g[v].children[i], r);
      }
      assert ps == Zeroes(net.pk, |p.g[v].children|);
    }
  }

  /** The cluster of a deployable plan is well plumbed. */
  lemma DeployedPlumbed<C, P>(p: Plan<C>, tasks: TaskMap<C>, net: Cluster<C, Thread, P>)
    requires Deployable(p) && Compiled(p, tasks) && Runs(net, p, tasks)
    ensures Plumbed(net, PlumbingOf(p))
  {
    hide WellFormed, ZeroesClosed, OneLevelPerColor, TaskFits, Wired, Program, Count, Sound, Uphill, InUse, Producer, Consumer, Rank, Queues, Listed;
    var pl := PlumbingOf(p);
    PlumbingKeys(p);
    SinkThere(p, tasks);
    forall th | th in net.progs
      ensures net.progs[th] != [] && Sound(net.progs[th]) && Uphill(pl, net.progs[th])
      ensures forall j | 0 <= j < |net.progs[th]| :: Connected(pl, th, net.progs[th][j])
    {
      ThreadPlumbed(p, th, tasks[th]);
    }
    forall ch | ch in pl.prod
      ensures pl.prod[ch] in net.progs && Count(net.progs[pl.prod[ch]], true, ch) == 1
      ensures pl.cons[ch] in net.progs && Count(net.progs[pl.cons[ch]], false, ch) == 1
    {
      FilledOnce(p, tasks, ch);
      DrainedOnce(p, tasks, ch);
    }
  }

  lemma SinkThere<C>(p: Plan<C>, tasks: TaskMap<C>)
    requires WellFormed(p) && Compiled(p, tasks)
    ensures Thread(p.col[p.header], Persisting) in tasks
  {
    assert Listed(p, Thread(p.col[p.header], Persisting), p.header);
  }

  lemma ThreadPlumbed<C>(p: Plan<C>, th: Thread, t: Task<C>)
    requires Deployable(p) && TaskFits(p, th, t)
    ensures WellFormedTask(t) && Program(th.node, t) != [] && Sound(Program(th.node, t)) && Uphill(PlumbingOf(p), Program(th.node, t))
    ensures forall j | 0 <= j < |Program(th.node, t)| :: Connected(PlumbingOf(p), th, Program(th.node, t)[j])
  {
    hide WellFormed, ZeroesClosed, TaskFits, Program, Sound, Uphill, InUse, Producer, Consumer, Rank, Queues;
    TaskWired(p, th, t);
    var prog := Program(th.node, t);
    if t.Compute? { ComputeSound(th.node, t); } else { BlocksSound(th.node, t); }
    WiredUphill(p, th, prog);
    NotIdle(p, th, t);
    PlumbingKeys(p);
    forall j | 0 <= j < |prog| ensures Connected(PlumbingOf(p), th, prog[j]) {
      assert Wired(p, th, prog[j]);
    }
  }

  lemma FlatNonEmpty<A>(bs: seq<seq<A>>, i: nat)
    requires i < |bs| && bs[i] != []
    ensures Flat(bs) != []
  {
    if i < |bs| - 1 {
      FlatNonEmpty(bs[..|bs| - 1], i);
    }
  }

  lemma NotIdle<C>(p: Plan<C>, th: Thread, t: Task<C>)
    requires Sane(p) && TaskFits(p, th, t) && WellFormedTask(t)
    ensures Program(th.node, t) != []
  {
    hide Listed, Destinations, UsageOf, ZeroesClosed;
    if t.Compute? {
      assert |Dsts(t.items)| == |t.items|;
      FlatNonEmpty(CalcBlocks(th.node, t.items), 0);
    } else {
      if t.Persist? { assert p.lev[p.header] != 0; }
      FlatNonEmpty(Blocks(th.node, t), 0);
    }
  }

  // ---------------------------------------------------------------------------------------------
  // The arithmetic of the tasks is that of the DAG

  lemma ComputeAgrees<C, P>(p: Plan<C>, th: Thread, t: Task<C>, net: Cluster<C, Thread, P>, val: (int, nat) -> P)
    requires Sane(p) && TaskFits(p, th, t) && th.stage.Computing? && WellFormedTask(t) && Solves(p, net, val)
    ensures forall j | 0 <= j < |Program(th.node, t)| :: OpAgrees(net, val, Program(th.node, t)[j])
  {
    hide Flat, Inputs, WellFormed, TaskFits, UsageOf, Solves, Listed;
    ComputeShape(p, th, t);
    var pops, calcs := PopBlocks<C>(th.node, Inputs(t.items)), CalcBlocks(th.node, t.items);
    forall j | 0 <= j < |Flat(pops)| ensures OpAgrees(net, val, Flat(pops)[j]) {
      var b, o := FlatAt(pops, j);
    }
    forall j | 0 <= j < |Flat(calcs)| ensures OpAgrees(net, val, Flat(calcs)[j]) {
      var b, o := FlatAt(calcs, j);
      ItemFits(p, th, t, b);
      ItemAgrees(p, th, t.items[b], net, val);
    }
  }

  lemma ItemAgrees<C, P>(p: Plan<C>, th: Thread, it: ComputeItem<C>, net: Cluster<C, Thread, P>, val: (int, nat) -> P)
    requires WellFormed(p) && Listed(p, th, it.dst) && th.stage.Computing? && Solves(p, net, val)
    requires it.srcs == p.g[it.dst].children && it.coefs == p.g[it.dst].coefs
    ensures forall o | 0 <= o < |CalcBlock(th.node, it)| :: OpAgrees(net, val, CalcBlock(th.node, it)[o])
  {
    hide Mirrored;
    assert p.g[it.dst].children != [];
  }

  lemma TaskAgrees<C, P>(p: Plan<C>, th: Thread, t: Task<C>, net: Cluster<C, Thread, P>, val: (int, nat) -> P)
    requires Sane(p) && TaskFits(p, th, t) && WellFormedTask(t)
    requires Solves(p, net, val) && Linear(p, net.pk)
    ensures forall j | 0 <= j < |Program(th.node, t)| :: OpAgrees(net, val, Program(th.node, t)[j])
  {
    hide Linear, Mirrored, ZeroesClosed, Destinations, UsageOf, Listed, Solves, Flat;
    if th.stage.Computing? {
      ComputeAgrees(p, th, t, net, val);
    } else {
      forall j | 0 <= j < |Program(th.node, t)| ensures OpAgrees(net, val, Program(th.node, t)[j]) {
        var b, o := FlatAt(Blocks(th.node, t), j);
        if th.stage.Zeroing? {
          SourceAgrees(p, th, t.dagidx[b], net, val);
        } else if th.stage.Reading? {
          SourceAgrees(p, th, t.dagidx[b], net, val);
          ReadsBlock(p, th, t, b);
        }
      }
    }
  }

  /** A read task opens the file of the block that its sub-packets belong to. */
  lemma ReadsBlock<C>(p: Plan<C>, th: Thread, t: Task<C>, b: nat)
    requires WellFormed(p) && TaskFits(p, th, t) && th.stage.Reading? && b < |t.dagidx|
    ensures t.dagidx[b] in p.g && IsStored(p, t.dagidx[b]) && File(th.node, t.blk) == BlockFile(p, t.dagidx[b])
  {
    hide WellFormed, UsageOf;
    assert Listed(p, th, t.dagidx[b]);
  }

  lemma SourceAgrees<C, P>(p: Plan<C>, th: Thread, v: int, net: Cluster<C, Thread, P>, val: (int, nat) -> P)
    requires Sane(p) && Listed(p, th, v) && Solves(p, net, val) && Linear(p, net.pk)
    ensures th.stage.Zeroing? ==> forall r: nat :: net.pk.zero == val(v, r)
    ensures th.stage.Reading? ==> th.node == p.col[v] && forall r: nat :: net.data(BlockFile(p, v), PlaceIn(net.width, r, v)) == val(v, r)
  {
    if th.stage.Zeroing? {
      forall r: nat ensures net.pk.zero == val(v, r) {
        ZeroesAreZero(p, net, val, v, r);
      }
    }
  }

  lemma DeployedAgrees<C, P>(p: Plan<C>, tasks: TaskMap<C>, net: Cluster<C, Thread, P>, val: (int, nat) -> P)
    requires Sane(p) && Compiled(p, tasks) && Runs(net, p, tasks)
    requires Solves(p, net, val) && Linear(p, net.pk)
    ensures Agrees(net, val)
  {
    hide WellFormed, ZeroesClosed, TaskFits, Program, OpAgrees, Solves, Linear, Listed;
    forall th, j | th in net.progs && 0 <= j < |net.progs[th]| ensures OpAgrees(net, val, net.progs[th][j]) {
      TaskAgrees(p, th, tasks[th], net, val);
    }
  }

  // ---------------------------------------------------------------------------------------------
  // What ends up on disk

  /** The repaired block: for every packet, the header's sub-packets in order. */
  ghost function RepairedBlock<C, P>(p: Plan<C>, val: (int, nat) -> P, packets: nat): seq<P>
    requires p.header in p.g
  {
    if packets == 0 then [] else RepairedBlock(p, val, packets - 1) + Row(val, p.g[p.header].children, packets - 1)
  }

  lemma {:induction false} WrittenAppend<C, P>(a: Prog<C>, b: Prog<C>, val: (int, nat) -> P, r: nat)
    ensures Written(a + b, val, r) == Written(a, val, r) + Written(b, val, r)
  {
    if b == [] {
      assert a + b == a;
    } else {
      var n := |b| - 1;
      WrittenAppend(a, b[..n], val, r);
      assert (a + b)[..|a + b| - 1] == a + b[..n];
    }
  }

  lemma {:induction false} PersistWrites<C, P>(c: int, collect: seq<int>, block: string, val: (int, nat) -> P, r: nat)
    ensures Written(Program<C>(c, Persist(collect, block)), val, r) == Row(val, collect, r)
  {
    hide Written;
    if collect == [] {
      NothingWritten<C, P>(val, r);
    } else {
      var n := |collect| - 1;
      PersistWrites<C, P>(c, collect[..n], block, val, r);
      var bs := Blocks<C>(c, Persist(collect, block));
      assert bs[..n] == Blocks<C>(c, Persist(collect[..n], block));
      WrittenAppend(Flat(bs[..n]), bs[n], val, r);
      PersistBlockWrites<C, P>(c, block, collect[n], val, r);
      assert Row(val, collect, r) == Row(val, collect[..n], r) + [val(collect[n], r)];
    }
  }

  lemma NothingWritten<C, P>(val: (int, nat) -> P, r: nat)
    ensures Written<C, P>([], val, r) == []
  {}

  lemma PersistBlockWrites<C, P>(c: int, block: string, v: int, val: (int, nat) -> P, r: nat)
    ensures Written(PersistBlock<C>(c, block, v), val, r) == [val(v, r)]
  {
    var b := PersistBlock<C>(c, block, v);
    assert b[..1][..0] == [] && b[..|b| - 1] == b[..1];
    assert Written(b[..1], val, r) == [];
  }

  lemma {:induction false} DiskIsBlock<C, P>(p: Plan<C>, c: int, block: string, val: (int, nat) -> P, packets: nat)
    requires p.header in p.g
    ensures WrittenRounds(Program<C>(c, Persist(p.g[p.header].children, block)), val, packets) == RepairedBlock(p, val, packets)
  {
    hide Program, Written;
    if packets > 0 {
      DiskIsBlock(p, c, block, val, packets - 1);
      PersistWrites<C, P>(c, p.g[p.header].children, block, val, packets - 1);
    }
  }

  // ---------------------------------------------------------------------------------------------
  // Main theorems

  /** In every interleaving of the generated tasks all packets in queues and in hand are the DAG's
      values; the run can always be continued to the end, which comes after exactly TotalWork steps; and
      then all queues are empty and the repaired block is complete. */
  lemma RepairCorrect<C, P>(p: Plan<C>, tasks: TaskMap<C>, net: Cluster<C, Thread, P>, val: (int, nat) -> P,
                            sched: seq<Thread>, s: State<Thread, P>)
    requires Deployable(p) && Compiled(p, tasks) && Runs(net, p, tasks)
    requires Solves(p, net, val) && Linear(p, net.pk)
    requires Exec(net, sched) == Some(s)
    ensures Plumbed(net, PlumbingOf(p)) && Inv(net, PlumbingOf(p), val, s)
    ensures |sched| <= TotalWork(net) && (Finished(net, s) <==> |sched| == TotalWork(net))
    ensures !Finished(net, s) ==> exists th :: th in net.progs && CanStep(net, s, th)
    ensures Finished(net, s) ==> forall ch :: Queue(s.chans, ch) == []
    ensures Finished(net, s) ==> DiskIs(s.disk, RepairFile(p.col[p.header], p.repaired), RepairedBlock(p, val, net.pktnum))
  {
    hide WellFormed, ZeroesClosed, OneLevelPerColor, Plumbed, Agrees, Inv, CanStep, WrittenRounds, Program, Queue, Solves, Linear, RepairedBlock, PlumbingOf, Exec, TotalWork, Compiled, Runs, Finished;
    DeployedPlumbed(p, tasks, net);
    DeployedAgrees(p, tasks, net, val);
    EveryRun(net, PlumbingOf(p), val, sched, s);
    SinkProgram(p, tasks, net);
    DiskIsBlock(p, p.col[p.header], p.repaired, val, net.pktnum);
  }

  lemma SinkProgram<C, P>(p: Plan<C>, tasks: TaskMap<C>, net: Cluster<C, Thread, P>)
    requires WellFormed(p) && Compiled(p, tasks) && Runs(net, p, tasks)
    ensures p.header in p.g && p.header in p.col && PlumbingOf(p).sink in net.progs
    ensures net.progs[PlumbingOf(p).sink] == Program(p.col[p.header], Persist(p.g[p.header].children, p.repaired))
    ensures PlumbingOf(p).target == RepairFile(p.col[p.header], p.repaired)
  {
    hide Program;
    SinkThere(p, tasks);
    assert TaskFits(p, PlumbingOf(p).sink, tasks[PlumbingOf(p).sink]);
  }

  /** The thread of a node that consumes at vertex u. */
  ghost function ConsumerThread<C>(p: Plan<C>, u: int): Thread
    requires WellFormed(p) && u in p.g
  {
    Thread(p.col[u], if u == p.header then Persisting else Computing(p.lev[u]))
  }

  lemma PopsChild<C>(p: Plan<C>, tasks: TaskMap<C>, v: int, j: nat)
    requires Sane(p) && Compiled(p, tasks) && v in p.g && j < |p.g[v].parents| && p.col[p.g[v].parents[j]] != -1
    ensures var u := p.g[v].parents[j];
            u in p.g && Once(tasks, ConsumerThread(p, u), false, Local(p.col[u], v))
  {
    hide Mirrored, Program, Compiled, ZeroesClosed;
    ParentHasChild(p, v, j);
    var u := p.g[v].parents[j];
    var i :| 0 <= i < |p.g[u].children| && p.g[u].children[i] == v;
    if u == p.header { PersistOnce(p, tasks, i); } else { InputOnce(p, tasks, u, i); }
  }

  lemma OnlyProducerPushes<C, P>(p: Plan<C>, tasks: TaskMap<C>, net: Cluster<C, Thread, P>, ch: Chan, th: Thread)
    requires Sane(p) && Compiled(p, tasks) && Runs(net, p, tasks) && InUse(p, ch) && th in net.progs && th != Producer(p, ch)
    ensures Count(net.progs[th], true, ch) == 0
  {
    hide WellFormed, ZeroesClosed, TaskFits, Program, Count, Producer, InUse, Consumer, Listed;
    TaskWired(p, th, tasks[th]);
    forall j | 0 <= j < |net.progs[th]| ensures !IsOn(net.progs[th][j], true, ch) {
      assert Wired(p, th, net.progs[th][j]);
    }
    CountNone(net.progs[th], true, ch);
  }

  /** The condition on levels is needed: if two consumers of one colour are in different levels, two
      threads of that node drain a queue filled once, and no run ever finishes. */
  lemma SplitConsumersStarve<C, P>(p: Plan<C>, tasks: TaskMap<C>, net: Cluster<C, Thread, P>, sched: seq<Thread>, s: State<Thread, P>)
    requires Sane(p) && !OneLevelPerColor(p) && Compiled(p, tasks) && Runs(net, p, tasks)
    requires net.pktnum > 0 && Exec(net, sched) == Some(s)
    ensures Fits(net, s) && !Finished(net, s)
  {
    hide Mirrored, ZeroesClosed, Compiled, Program, Count, Producer, Finished, Exec, Contended, TaskFits;
    var v, i, j :| v in p.g && 0 <= i < |p.g[v].parents| && 0 <= j < |p.g[v].parents| &&
      p.col[p.g[v].parents[i]] == p.col[p.g[v].parents[j]] != -1 && p.lev[p.g[v].parents[i]] != p.lev[p.g[v].parents[j]];
    var u1, u2 := p.g[v].parents[i], p.g[v].parents[j];
    var ch := Local(p.col[u1], v);
    PopsChild(p, tasks, v, i);
    PopsChild(p, tasks, v, j);
    LocalInUse(p, v, i);
    FilledOnce(p, tasks, ch);
    ContendedQueue(p, tasks, net, ch, ConsumerThread(p, u1), ConsumerThread(p, u2));
    Starves(net, ch, Producer(p, ch), ConsumerThread(p, u1), ConsumerThread(p, u2), sched);
  }

  lemma CompletesIs<C, P>(net: Cluster<C, Thread, P>, sched: seq<Thread>)
    ensures Completes(net, sched) ==> Exec(net, sched).Some? && Fits(net, Exec(net, sched).value) && Finished(net, Exec(net, sched).value)
  {
    hide Exec, Fits, Finished;
  }

  lemma LocalInUse<C>(p: Plan<C>, v: int, j: nat)
    requires WellFormed(p) && v in p.g && j < |p.g[v].parents| && p.col[p.g[v].parents[j]] != -1
    ensures InUse(p, Local(p.col[p.g[v].parents[j]], v))
  {
    ParentHasChild(p, v, j);
    KeysApart(v, v);
  }

  lemma ContendedQueue<C, P>(p: Plan<C>, tasks: TaskMap<C>, net: Cluster<C, Thread, P>, ch: Chan, th1: Thread, th2: Thread)
    requires Sane(p) && Compiled(p, tasks) && Runs(net, p, tasks) && InUse(p, ch) && th1 != th2
    requires Once(tasks, Producer(p, ch), true, ch) && Once(tasks, th1, false, ch) && Once(tasks, th2, false, ch)
    ensures Contended(net, ch, Producer(p, ch), th1, th2)
  {
    hide WellFormed, ZeroesClosed, Program, Count, Producer, InUse, TaskFits, Listed;
    forall th | th in net.progs
      ensures net.progs[th] != [] && (th != Producer(p, ch) ==> Count(net.progs[th], true, ch) == 0)
    {
      NotIdle(p, th, tasks[th]);
      if th != Producer(p, ch) { OnlyProducerPushes(p, tasks, net, ch, th); }
    }
  }

  /** So, packets given, the deployed repair can finish if and only if equally coloured consumers share
      a level. */
  lemma FinishesIff<C, P>(p: Plan<C>, tasks: TaskMap<C>, net: Cluster<C, Thread, P>, val: (int, nat) -> P)
    requires Sane(p) && Compiled(p, tasks) && Runs(net, p, tasks) && net.pktnum > 0
    requires Solves(p, net, val) && Linear(p, net.pk)
    ensures OneLevelPerColor(p) <==> exists sched: seq<Thread> :: Completes(net, sched)
  {
    hide WellFormed, ZeroesClosed, Compiled, Solves, Linear, OneLevelPerColor, Exec, Finished, Runs, Plumbed, Inv, CanStep, Queue;
    if OneLevelPerColor(p) {
      ExecNothing(net);
      var sched := RunToEnd(p, tasks, net, val, []);
    } else {
      forall sched: seq<Thread> ensures !Completes(net, sched) {
        if Exec(net, sched).Some? {
          SplitConsumersStarve(p, tasks, net, sched, Exec(net, sched).value);
        }
      }
    }
  }

  ghost predicate Completes<C, P>(net: Cluster<C, Thread, P>, sched: seq<Thread>) {
    Exec(net, sched).Some? && Fits(net, Exec(net, sched).value) && Finished(net, Exec(net, sched).value)
  }

  lemma RunToEnd<C, P>(p: Plan<C>, tasks: TaskMap<C>, net: Cluster<C, Thread, P>, val: (int, nat) -> P, sched: seq<Thread>)
    returns (sched': seq<Thread>)
    requires Deployable(p) && Compiled(p, tasks) && Runs(net, p, tasks)
    requires Solves(p, net, val) && Linear(p, net.pk) && Exec(net, sched).Some?
    ensures sched <= sched' && Completes(net, sched')
    decreases TotalWork(net) - |sched|
  {
    hide WellFormed, ZeroesClosed, Compiled, Solves, Linear, OneLevelPerColor, Exec, Finished, Runs, Plumbed, TotalWork, Queue, CanStep;
    var s := Exec(net, sched).value;
    RepairCorrect(p, tasks, net, val, sched, s);
    if Finished(net, s) {
      sched' := sched;
    } else {
      var th :| th in net.progs && CanStep(net, s, th);
      ExecMore(net, sched, th);
      RepairCorrect(p, tasks, net, val, sched + [th], Exec(net, sched + [th]).value);
      sched' := RunToEnd(p, tasks, net, val, sched + [th]);
    }
  }

  lemma ExecNothing<C, K, P>(net: Cluster<C, K, P>)
    ensures Exec(net, []).Some?
  {}

  lemma ExecMore<C, K, P>(net: Cluster<C, K, P>, sched: seq<K>, k: K)
    requires Exec(net, sched).Some? && CanStep(net, Exec(net, sched).value, k)
    ensures Exec(net, sched + [k]).Some?
  {
    hide CanStep, Step;
    assert (sched + [k])[..|sched + [k]| - 1] == sched;
  }
}
