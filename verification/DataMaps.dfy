/** The queues an agent sets up before it starts its threads (src/common/Worker.hh:77-109,
    src/common/Worker.cc:380-451). */
module DataMaps {
  import opened Dags
  import opened Traffic
  import opened Network
  import opened Programs
  import opened Compile
  import opened Plumb
  import opened Repair

  ghost function KeysOf(v: int, u: Usage): set<int> {
    (if u.same then {v} else {}) + (if u.diff then {Key(v)} else {})
  }

  ghost function UsedKeys(vs: seq<int>, us: seq<Usage>, n: nat): set<int>
    requires n <= |vs| && n <= |us|
  {
    if n == 0 then {} else UsedKeys(vs, us, n - 1) + KeysOf(vs[n - 1], us[n - 1])
  }

  ghost function AllUsed(n: nat): seq<Usage> {
    seq(n, i => Usage(true, false))
  }

  ghost function Usages<C>(items: seq<ComputeItem<C>>): seq<Usage> {
    seq(|items|, i requires 0 <= i < |items| => items[i].usage)
  }

  /** The keys for which a task makes prepareDataMap create a queue. */
  ghost function CreatedBy<C>(t: Task<C>): set<int>
    requires WellFormedTask(t)
  {
    match t
    case Read(blk, dagidx, usage) => UsedKeys(dagidx, if blk == ZERO then AllUsed(|dagidx|) else usage, |dagidx|)
    case Recv(dagidx) => UsedKeys(dagidx, AllUsed(|dagidx|), |dagidx|)
    case Compute(items) => UsedKeys(Dsts(items), Usages(items), |items|)
    case _ => {}
  }

  lemma {:induction false} InUsedKeys(vs: seq<int>, us: seq<Usage>, n: nat, k: int)
    requires n <= |vs| && n <= |us|
    ensures k in UsedKeys(vs, us, n) <==> exists i | 0 <= i < n :: k in KeysOf(vs[i], us[i])
  {
    if n > 0 {
      InUsedKeys(vs, us, n - 1, k);
    }
  }

  /** Queues are added for the keys of keys, and nothing else changes. */
  ghost predicate Added<P>(before: map<int, seq<P>>, after: map<int, seq<P>>, keys: set<int>) {
    && after.Keys == before.Keys + keys
    && (forall k | k in after :: after[k] == if k in before then before[k] else [])
  }

  lemma AddedTwice<P>(m0: map<int, seq<P>>, m1: map<int, seq<P>>, m2: map<int, seq<P>>, k1: set<int>, k2: set<int>)
    requires Added(m0, m1, k1) && Added(m1, m2, k2)
    ensures Added(m0, m2, k1 + k2)
  {}

  class DataMap<P> {
    var datamap: map<int, seq<P>>

    constructor ()
      ensures datamap == map[]
    {
      datamap := map[];
    }

    /** insert keeps a queue that is already there. */
    method CreateQueue(key: int)
      modifies this
      ensures datamap == if key in old(datamap) then old(datamap) else old(datamap)[key := []]
    {
      if key !in datamap {
        datamap := datamap[key := []];
      }
    }

    method CreateUsed(v: int, u: Usage)
      modifies this
      ensures Added(old(datamap), datamap, KeysOf(v, u))
    {
      if u.same {
        CreateQueue(v);
      }
      if u.diff {
        var target := -1 * v;
        if v == 0 {
          target := KEY0;
        }
        CreateQueue(target);
      }
    }

    method CreateAll(vs: seq<int>)
      modifies this
      ensures Added(old(datamap), datamap, UsedKeys(vs, AllUsed(|vs|), |vs|))
    {
      hide Added;
      AddedNothing(datamap);
      for i := 0 to |vs|
        invariant Added(old(datamap), datamap, UsedKeys(vs, AllUsed(|vs|), i))
      {
        ghost var before := datamap;
        CreateQueue(vs[i]);
        AddedOne(before, vs[i]);
        AddedTwice(old(datamap), before, datamap, UsedKeys(vs, AllUsed(|vs|), i), {vs[i]});
        assert KeysOf(vs[i], Usage(true, false)) == {vs[i]};
      }
    }

    lemma AddedNothing(m: map<int, seq<P>>)
      ensures Added(m, m, {})
    {}

    lemma AddedOne(m: map<int, seq<P>>, k: int)
      ensures Added(m, if k in m then m else m[k := []], {k})
    {}

    /** src/common/Worker.cc:380-451. */
    method PrepareDataMap<C>(t: Task<C>)
      requires WellFormedTask(t)
      modifies this
      ensures Added(old(datamap), datamap, CreatedBy(t))
    {
      hide Added, KeysOf;
      AddedNothing(datamap);
      match t
      case Read(blk, dagidx, usage) =>
        if blk == ZERO {
          CreateAll(dagidx);
        } else {
          for i := 0 to |dagidx|
            invariant Added(old(datamap), datamap, UsedKeys(dagidx, usage, i))
          {
            ghost var before := datamap;
            CreateUsed(dagidx[i], usage[i]);
            AddedTwice(old(datamap), before, datamap, UsedKeys(dagidx, usage, i), KeysOf(dagidx[i], usage[i]));
          }
        }
      case Send(_, _) =>
      case Recv(dagidx) =>
        CreateAll(dagidx);
      case Compute(items) =>
        for i := 0 to |items|
          invariant Added(old(datamap), datamap, UsedKeys(Dsts(items), Usages(items), i))
        {
          ghost var before := datamap;
          CreateUsed(items[i].dst, items[i].usage);
          AddedTwice(old(datamap), before, datamap, UsedKeys(Dsts(items), Usages(items), i), KeysOf(items[i].dst, items[i].usage));
        }
      case Persist(_, _) =>
    }
  }

  ghost predicate Pushes<C>(prog: Prog<C>, ch: Chan) {
    exists j | 0 <= j < |prog| :: IsOn(prog[j], true, ch)
  }

  lemma {:induction false} FlatHas<A>(bs: seq<seq<A>>, b: nat, o: nat) returns (j: nat)
    requires b < |bs| && o < |bs[b]|
    ensures j < |Flat(bs)| && Flat(bs)[j] == bs[b][o]
  {
    var n := |bs| - 1;
    if b < n {
      j := FlatHas(bs[..n], b, o);
    } else {
      j := |Flat(bs[..n])| + o;
    }
  }

  lemma FlatPushes<C>(bs: seq<Prog<C>>, ch: Chan)
    ensures Pushes(Flat(bs), ch) <==> exists b | 0 <= b < |bs| :: Pushes(bs[b], ch)
  {
    hide Flat;
    if Pushes(Flat(bs), ch) {
      var j :| 0 <= j < |Flat(bs)| && IsOn(Flat(bs)[j], true, ch);
      var b, o := FlatAt(bs, j);
      assert Pushes(bs[b], ch);
    }
    if b :| 0 <= b < |bs| && Pushes(bs[b], ch) {
      var o :| 0 <= o < |bs[b]| && IsOn(bs[b][o], true, ch);
      var j := FlatHas(bs, b, o);
    }
  }

  lemma BlockPushes<C>(c: int, blk: string, v: int, u: Usage, tos: seq<int>, it: ComputeItem<C>, k: int)
    ensures Pushes(ReadBlock<C>(c, blk, v, u), Local(c, k)) <==> (u.same && k == v) || (u.diff && k == Key(v))
    ensures Pushes(CalcBlock(c, it), Local(c, k)) <==> (it.usage.same && k == it.dst) || (it.usage.diff && k == Key(it.dst))
    ensures Pushes(ZeroBlock<C>(c, v), Local(c, k)) <==> k == v
    ensures Pushes(RecvBlock<C>(c, v), Local(c, k)) <==> k == v
    ensures !Pushes(SendBlock<C>(c, v, tos), Local(c, k)) && !Pushes(PersistBlock<C>(c, blk, v), Local(c, k)) && !Pushes(PopBlock<C>(c, v), Local(c, k))
  {
    var r := ReadBlock<C>(c, blk, v, u);
    assert u.same ==> IsOn(r[1], true, Local(c, v));
    assert u.diff ==> IsOn(r[|r| - 1], true, Local(c, Key(v)));
    var b := CalcBlock(c, it);
    assert it.usage.diff ==> IsOn(b[1], true, Local(c, Key(it.dst)));
    assert it.usage.same ==> IsOn(b[|b| - 1], true, Local(c, it.dst));
    assert IsOn(ZeroBlock<C>(c, v)[1], true, Local(c, v)) && IsOn(RecvBlock<C>(c, v)[1], true, Local(c, v));
  }

  /** A task has queues created for exactly the local keys it pushes to. */
  lemma CreatedIffPushed<C>(c: int, t: Task<C>, k: int)
    requires WellFormedTask(t)
    ensures k in CreatedBy(t) <==> Pushes(Program(c, t), Local(c, k))
  {
    hide Flat, Inputs, ReadBlock, CalcBlock, ZeroBlock, RecvBlock, SendBlock, PersistBlock, PopBlock, Pushes;
    if t.Compute? {
      var pops, calcs := PopBlocks<C>(c, Inputs(t.items)), CalcBlocks(c, t.items);
      InUsedKeys(Dsts(t.items), Usages(t.items), |t.items|, k);
      FlatPushes(pops, Local(c, k));
      FlatPushes(calcs, Local(c, k));
      PushesAppend(Flat(pops), Flat(calcs), Local(c, k));
      forall b | 0 <= b < |pops| ensures !Pushes(pops[b], Local(c, k)) {
        BlockPushes<C>(c, "", Inputs(t.items)[b], Usage(false, false), [], ComputeItem(0, [], [], Usage(false, false)), k);
      }
      forall b | 0 <= b < |calcs| ensures Pushes(calcs[b], Local(c, k)) <==>
        (t.items[b].usage.same && k == t.items[b].dst) || (t.items[b].usage.diff && k == Key(t.items[b].dst)) {
        BlockPushes<C>(c, "", 0, Usage(false, false), [], t.items[b], k);
      }
      forall b | 0 <= b < |calcs| ensures k in KeysOf(Dsts(t.items)[b], Usages(t.items)[b]) <==> Pushes(calcs[b], Local(c, k)) {
        assert Dsts(t.items)[b] == t.items[b].dst && Usages(t.items)[b] == t.items[b].usage;
      }
    } else {
      var bs := Blocks(c, t);
      FlatPushes(bs, Local(c, k));
      BlocksPush(c, t, k);
    }
  }

  lemma PushesAppend<C>(a: Prog<C>, b: Prog<C>, ch: Chan)
    ensures Pushes(a + b, ch) <==> Pushes(a, ch) || Pushes(b, ch)
  {
    if j :| 0 <= j < |a| && IsOn(a[j], true, ch) { assert (a + b)[j] == a[j]; }
    if j :| 0 <= j < |b| && IsOn(b[j], true, ch) { assert (a + b)[|a| + j] == b[j]; }
  }

  lemma BlocksPush<C>(c: int, t: Task<C>, k: int)
    requires WellFormedTask(t) && !t.Compute?
    ensures k in CreatedBy(t) <==> exists b | 0 <= b < |Blocks(c, t)| :: Pushes(Blocks(c, t)[b], Local(c, k))
  {
    hide ReadBlock, CalcBlock, ZeroBlock, RecvBlock, SendBlock, PersistBlock, PopBlock, Pushes;
    var bs: seq<Prog<C>>, none: ComputeItem<C> := Blocks(c, t), ComputeItem(0, [], [], Usage(false, false));
    match t
    case Read(blk, dagidx, usage) =>
      InUsedKeys(dagidx, if blk == ZERO then AllUsed(|dagidx|) else usage, |dagidx|, k);
      forall b | 0 <= b < |bs| ensures Pushes(bs[b], Local(c, k)) <==>
        if blk == ZERO then k == dagidx[b] else (usage[b].same && k == dagidx[b]) || (usage[b].diff && k == Key(dagidx[b])) {
        BlockPushes<C>(c, blk, dagidx[b], if blk == ZERO then Usage(false, false) else usage[b], [], none, k);
      }
    case Send(dagidx, sendto) =>
      forall b | 0 <= b < |bs| ensures !Pushes(bs[b], Local(c, k)) {
        BlockPushes<C>(c, "", dagidx[b], Usage(false, false), sendto[b], none, k);
      }
    case Recv(dagidx) =>
      InUsedKeys(dagidx, AllUsed(|dagidx|), |dagidx|, k);
      forall b | 0 <= b < |bs| ensures Pushes(bs[b], Local(c, k)) <==> k == dagidx[b] {
        BlockPushes<C>(c, "", dagidx[b], Usage(false, false), [], none, k);
      }
    case Persist(collect, block) =>
      forall b | 0 <= b < |bs| ensures !Pushes(bs[b], Local(c, k)) {
        BlockPushes<C>(c, block, collect[b], Usage(false, false), [], none, k);
      }
  }

  /** The queues created on a node are exactly the local queues in use there, each by the one task that
      fills it: no thread meets a missing queue, no queue is created twice or stays unused. */
  lemma QueuesCreated<C>(p: Plan<C>, tasks: TaskMap<C>, th: Thread, k: int)
    requires Sane(p) && Compiled(p, tasks) && th in tasks
    ensures WellFormedTask(tasks[th])
    ensures k in CreatedBy(tasks[th]) <==> InUse(p, Local(th.node, k)) && Producer(p, Local(th.node, k)) == th
  {
    hide WellFormed, ZeroesClosed, TaskFits, InUse, Producer, Consumer, Program, Count, Listed, CreatedBy;
    TaskWired(p, th, tasks[th]);
    CreatedIffPushed(th.node, tasks[th], k);
    var ch, prog := Local(th.node, k), Program(th.node, tasks[th]);
    if Pushes(prog, ch) {
      var j :| 0 <= j < |prog| && IsOn(prog[j], true, ch);
      assert Wired(p, th, prog[j]);
    }
    if InUse(p, ch) && Producer(p, ch) == th {
      FilledOnce(p, tasks, ch);
      var j := PushPosition(prog, ch);
    }
  }
}
