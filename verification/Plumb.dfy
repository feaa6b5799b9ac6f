/** The deployed tasks form a well-plumbed cluster. */
module Plumb {
  import opened Dags
  import opened Traffic
  import opened Recolouring
  import opened Network
  import opened Programs
  import opened Compile

  ghost predicate Sane<C>(p: Plan<C>) {
    WellFormed(p) && ZeroesClosed(p)
  }

  /** A plan that the runtime can execute. */
  ghost predicate Deployable<C>(p: Plan<C>) {
    Sane(p) && OneLevelPerColor(p)
  }

  lemma ChildHasParent<C>(p: Plan<C>, u: int, i: nat)
    requires WellFormed(p) && u in p.g && i < |p.g[u].children|
    ensures var v := p.g[u].children[i];
            && v in p.g && v != p.header && p.lev[v] < p.lev[u] && ParentColor(p.g, p.col, v, p.col[u])
            && (exists j | 0 <= j < |p.g[v].parents| :: p.g[v].parents[j] == u)
  {
    var v := p.g[u].children[i];
    assert v in p.g[u].children;
    ParentIffChild(p.g, v, u);
    var j :| 0 <= j < |p.g[v].parents| && p.g[v].parents[j] == u;
  }

  lemma ParentHasChild<C>(p: Plan<C>, v: int, j: nat)
    requires WellFormed(p) && v in p.g && j < |p.g[v].parents|
    ensures var u := p.g[v].parents[j];
            && u in p.g && p.lev[v] < p.lev[u] && v != p.header && p.g[u].children != []
            && (exists i | 0 <= i < |p.g[u].children| :: p.g[u].children[i] == v)
  {
    var u := p.g[v].parents[j];
    assert u in p.g[v].parents;
    ParentIffChild(p.g, v, u);
    var i :| 0 <= i < |p.g[u].children| && p.g[u].children[i] == v;
    assert p.lev[p.g[u].children[i]] < p.lev[u];
  }

  /** A materialised vertex is coloured, and so are all its consumers. */
  lemma RealColored<C>(p: Plan<C>, v: int)
    requires WellFormed(p) && ZeroesClosed(p) && v in p.g && IsReal(p, v)
    ensures p.col[v] != -1
    ensures forall j | 0 <= j < |p.g[v].parents| :: p.col[p.g[v].parents[j]] != -1
  {
    forall j | 0 <= j < |p.g[v].parents| ensures p.col[p.g[v].parents[j]] != -1 {
      ParentHasChild(p, v, j);
      var u := p.g[v].parents[j];
      var i :| 0 <= i < |p.g[u].children| && p.g[u].children[i] == v;
    }
  }

  ghost predicate Wired<C>(p: Plan<C>, th: Thread, op: Op<C>)
    requires WellFormed(p)
  {
    match op
    case Push(ch, idx) => InUse(p, ch) && Producer(p, ch) == th && IndexOf(ch) == idx
    case Pop(ch, idx) => InUse(p, ch) && IndexOf(ch) == idx && (OneLevelPerColor(p) ==> Consumer(p, ch) == th)
    case Write(file, _) => th == Thread(p.col[p.header], Persisting) && file == RepairFile(p.col[p.header], p.repaired)
    case _ => true
  }

  ghost predicate AllWired<C>(p: Plan<C>, th: Thread, prog: Prog<C>)
    requires WellFormed(p)
  {
    forall o | 0 <= o < |prog| :: Wired(p, th, prog[o])
  }

  lemma MadeLocally<C>(p: Plan<C>, v: int)
    requires Sane(p) && v in p.g && v != p.header && IsReal(p, v)
    ensures ParentColor(p.g, p.col, v, p.col[v]) ==> Wired<C>(p, Maker(p, v), Push(Local(p.col[v], v), v))
    ensures HasOther(p, v) ==> Wired<C>(p, Maker(p, v), Push(Local(p.col[v], Key(v)), v))
  {
    hide Mirrored, OneLevelPerColor;
    RealColored(p, v);
    KeysApart(v, v);
  }

  lemma ReadWired<C>(p: Plan<C>, th: Thread, blk: string, v: int)
    requires Sane(p) && th.stage.Reading? && Listed(p, th, v)
    ensures AllWired(p, th, ReadBlock(th.node, blk, v, UsageOf(p, v)))
  {
    hide InUse, Producer, Consumer;
    MadeLocally(p, v);
  }

  lemma CalcWired<C>(p: Plan<C>, th: Thread, it: ComputeItem<C>)
    requires Sane(p) && th.stage.Computing? && Listed(p, th, it.dst) && it.usage == UsageOf(p, it.dst)
    ensures AllWired(p, th, CalcBlock(th.node, it))
  {
    hide InUse, Producer, Consumer;
    MadeLocally(p, it.dst);
  }

  lemma ZeroWired<C>(p: Plan<C>, th: Thread, v: int)
    requires Sane(p) && th.stage.Zeroing? && Listed(p, th, v)
    ensures AllWired(p, th, ZeroBlock<C>(th.node, v))
  {
    hide Mirrored, OneLevelPerColor;
    KeysApart(v, v);
  }

  lemma SendWired<C>(p: Plan<C>, th: Thread, v: int, tos: seq<int>)
    requires Sane(p) && th.stage.Sending? && Listed(p, th, v) && Destinations(p, v, tos)
    ensures AllWired(p, th, SendBlock<C>(th.node, v, tos))
  {
    hide Mirrored, OneLevelPerColor, ParentColor;
    KeysApart(v, v);
    forall j | 0 <= j < |tos| ensures Wired<C>(p, th, Push(Chan.Net(tos[j], v), v)) {
      var c := tos[j];
      assert c in tos;
    }
  }

  lemma RecvWired<C>(p: Plan<C>, th: Thread, v: int)
    requires Sane(p) && th.stage.Receiving? && Listed(p, th, v)
    ensures AllWired(p, th, RecvBlock<C>(th.node, v))
  {
    hide Mirrored, OneLevelPerColor;
    RealColored(p, v);
    KeysApart(v, v);
  }

  /** All consumers of v on a node are in the level of any one of them. */
  lemma ConsumerLevelIs<C>(p: Plan<C>, u: int, i: nat)
    requires Deployable(p) && u in p.g && i < |p.g[u].children| && p.col[u] != -1
    ensures var v := p.g[u].children[i];
            v in p.g && ParentColor(p.g, p.col, v, p.col[u]) && ConsumerLevel(p, v, p.col[u]) == p.lev[u]
  {
    ChildHasParent(p, u, i);
  }

  /** Taking the i-th child of u from the local queue of u's node is the job of u's thread. */
  lemma ChildPopWired<C>(p: Plan<C>, u: int, i: nat)
    requires Sane(p) && u in p.g && i < |p.g[u].children| && p.col[u] != -1
    ensures var v := p.g[u].children[i];
            Wired<C>(p, Thread(p.col[u], if u == p.header then Persisting else Computing(p.lev[u])), Pop(Local(p.col[u], v), v))
  {
    hide Mirrored, OneLevelPerColor, ConsumerLevel;
    ChildHasParent(p, u, i);
    if OneLevelPerColor(p) { ConsumerLevelIs(p, u, i); }
    KeysApart(p.g[u].children[i], p.g[u].children[i]);
  }

  lemma PersistWired<C>(p: Plan<C>, i: nat)
    requires Sane(p) && i < |p.g[p.header].children|
    ensures AllWired(p, Thread(p.col[p.header], Persisting), PersistBlock<C>(p.col[p.header], p.repaired, p.g[p.header].children[i]))
  {
    hide InUse, Producer, Consumer;
    ChildPopWired(p, p.header, i);
  }

  // ---------------------------------------------------------------------------------------------
  // Whole programs are wired

  lemma FlatWired<C>(p: Plan<C>, th: Thread, bs: seq<Prog<C>>)
    requires WellFormed(p) && forall b | 0 <= b < |bs| :: AllWired(p, th, bs[b])
    ensures AllWired(p, th, Flat(bs))
  {
    hide WellFormed, Wired, Flat;
    forall o | 0 <= o < |Flat(bs)| ensures Wired(p, th, Flat(bs)[o]) {
      var b, o' := FlatAt(bs, o);
      assert AllWired(p, th, bs[b]);
    }
  }

  lemma ReadTaskWired<C>(p: Plan<C>, th: Thread, t: Task<C>)
    requires Sane(p) && th.stage.Reading? && TaskFits(p, th, t)
    ensures WellFormedTask(t) && AllWired(p, th, Program(th.node, t))
  {
    hide Listed, Wired, Mirrored, UsageOf;
    forall i | 0 <= i < |t.dagidx| ensures AllWired(p, th, ReadBlock(th.node, t.blk, t.dagidx[i], t.usage[i])) {
      ReadWired(p, th, t.blk, t.dagidx[i]);
    }
    FlatWired(p, th, Blocks(th.node, t));
  }

  lemma ZeroTaskWired<C>(p: Plan<C>, th: Thread, t: Task<C>)
    requires Sane(p) && th.stage.Zeroing? && TaskFits(p, th, t)
    ensures WellFormedTask(t) && AllWired(p, th, Program(th.node, t))
  {
    hide Listed, Wired, Mirrored;
    forall i | 0 <= i < |t.dagidx| ensures AllWired(p, th, ZeroBlock<C>(th.node, t.dagidx[i])) {
      ZeroWired(p, th, t.dagidx[i]);
    }
    FlatWired(p, th, Blocks(th.node, t));
  }

  lemma SendTaskWired<C>(p: Plan<C>, th: Thread, t: Task<C>)
    requires Sane(p) && th.stage.Sending? && TaskFits(p, th, t)
    ensures WellFormedTask(t) && AllWired(p, th, Program(th.node, t))
  {
    hide Listed, Wired, Mirrored, Destinations;
    forall i | 0 <= i < |t.dagidx| ensures AllWired(p, th, SendBlock<C>(th.node, t.dagidx[i], t.sendto[i])) {
      SendWired(p, th, t.dagidx[i], t.sendto[i]);
    }
    FlatWired(p, th, Blocks(th.node, t));
  }

  lemma RecvTaskWired<C>(p: Plan<C>, th: Thread, t: Task<C>)
    requires Sane(p) && th.stage.Receiving? && TaskFits(p, th, t)
    ensures WellFormedTask(t) && AllWired(p, th, Program(th.node, t))
  {
    hide Listed, Wired, Mirrored;
    forall i | 0 <= i < |t.dagidx| ensures AllWired(p, th, RecvBlock<C>(th.node, t.dagidx[i])) {
      RecvWired(p, th, t.dagidx[i]);
    }
    FlatWired(p, th, Blocks(th.node, t));
  }

  lemma PersistTaskWired<C>(p: Plan<C>, th: Thread, t: Task<C>)
    requires Sane(p) && th.stage.Persisting? && TaskFits(p, th, t)
    ensures WellFormedTask(t) && AllWired(p, th, Program(th.node, t))
  {
    hide Listed, Wired, Mirrored;
    forall i | 0 <= i < |t.collect| ensures AllWired(p, th, PersistBlock<C>(th.node, t.block, t.collect[i])) {
      PersistWired(p, i);
    }
    FlatWired(p, th, Blocks(th.node, t));
  }

  ghost predicate Has(s: seq<int>, x: int) {
    exists i | 0 <= i < |s| :: s[i] == x
  }

  lemma {:induction false} AddNewFrom(xs: seq<int>, ys: seq<int>)
    ensures forall k | 0 <= k < |AddNew(xs, ys)| :: Has(xs, AddNew(xs, ys)[k]) || Has(ys, AddNew(xs, ys)[k])
    ensures forall i | 0 <= i < |ys| :: ys[i] in AddNew(xs, ys)
    ensures forall i | 0 <= i < |xs| :: xs[i] in AddNew(xs, ys)
    ensures Distinct(xs) ==> Distinct(AddNew(xs, ys))
  {
    if ys != [] {
      var n := |ys| - 1;
      AddNewFrom(xs, ys[..n]);
      var r, r' := AddNew(xs, ys[..n]), AddNew(xs, ys);
      forall i | 0 <= i < |ys| ensures ys[i] in r' {
        if i < n { assert ys[..n][i] in r; }
      }
      forall k | 0 <= k < |r'| ensures Has(xs, r'[k]) || Has(ys, r'[k]) {
        if k < |r| {
          var x := r[k];
          assert r'[k] == x && (Has(xs, x) || Has(ys[..n], x));
          if Has(ys[..n], x) {
            var i :| 0 <= i < |ys[..n]| && ys[..n][i] == x;
            assert ys[i] == x;
          }
        } else {
          assert ys[n] == r'[k];
        }
      }
    }
  }

  /** An input of a compute task is a child of one of its outputs. */
  lemma {:induction false} InputOf<C>(items: seq<ComputeItem<C>>, k: nat) returns (m: nat, i: nat)
    requires k < |Inputs(items)|
    ensures m < |items| && i < |items[m].srcs| && items[m].srcs[i] == Inputs(items)[k]
  {
    var n := |items| - 1;
    var x := Inputs(items)[k];
    AddNewFrom(Inputs(items[..n]), items[n].srcs);
    if Has(items[n].srcs, x) {
      i :| 0 <= i < |items[n].srcs| && items[n].srcs[i] == x;
      m := n;
    } else {
      var j :| 0 <= j < |Inputs(items[..n])| && Inputs(items[..n])[j] == x;
      m, i := InputOf(items[..n], j);
    }
  }

  lemma {:induction false} InputsCover<C>(items: seq<ComputeItem<C>>)
    ensures Distinct(Inputs(items))
    ensures forall m, i | 0 <= m < |items| && 0 <= i < |items[m].srcs| :: items[m].srcs[i] in Inputs(items)
  {
    if items != [] {
      var n := |items| - 1;
      InputsCover(items[..n]);
      AddNewFrom(Inputs(items[..n]), items[n].srcs);
      forall m, i | 0 <= m < |items| && 0 <= i < |items[m].srcs| ensures items[m].srcs[i] in Inputs(items) {
        if m < n {
          var x := items[..n][m].srcs[i];
          assert x in Inputs(items[..n]);
        }
      }
    }
  }

  lemma ItemFits<C>(p: Plan<C>, th: Thread, t: Task<C>, m: nat)
    requires WellFormed(p) && th.stage.Computing? && TaskFits(p, th, t) && m < |t.items|
    ensures t.items[m].dst in p.g && Listed(p, th, t.items[m].dst)
    ensures t.items[m].srcs == p.g[t.items[m].dst].children && t.items[m].coefs == p.g[t.items[m].dst].coefs
    ensures t.items[m].usage == UsageOf(p, t.items[m].dst)
    ensures p.lev[t.items[m].dst] == th.stage.level && p.col[t.items[m].dst] == th.node != -1 && t.items[m].dst != p.header
  {
    hide Mirrored;
    assert Dsts(t.items)[m] == t.items[m].dst;
    assert Listed(p, th, Dsts(t.items)[m]);
  }

  lemma ComputeTaskWired<C>(p: Plan<C>, th: Thread, t: Task<C>)
    requires Sane(p) && th.stage.Computing? && TaskFits(p, th, t)
    ensures WellFormedTask(t) && AllWired(p, th, Program(th.node, t))
  {
    hide Sane, WellFormed, TaskFits, Listed, Wired, Inputs;
    ComputeShape(p, th, t);
    var pops, calcs := PopBlocks<C>(th.node, Inputs(t.items)), CalcBlocks(th.node, t.items);
    forall b | 0 <= b < |pops| ensures AllWired(p, th, pops[b]) {
      var m, i := InputOf(t.items, b);
      ItemFits(p, th, t, m);
      ChildPopWired(p, t.items[m].dst, i);
    }
    forall b | 0 <= b < |calcs| ensures AllWired(p, th, calcs[b]) {
      ItemFits(p, th, t, b);
      CalcWired(p, th, t.items[b]);
    }
    FlatWired(p, th, pops);
    FlatWired(p, th, calcs);
  }

  lemma ComputeShape<C>(p: Plan<C>, th: Thread, t: Task<C>)
    requires Sane(p) && th.stage.Computing? && TaskFits(p, th, t)
    ensures WellFormed(p) && t.Compute?
  {
    hide Mirrored;
  }

  lemma TaskWired<C>(p: Plan<C>, th: Thread, t: Task<C>)
    requires Sane(p) && TaskFits(p, th, t)
    ensures WellFormedTask(t) && AllWired(p, th, Program(th.node, t))
  {
    hide Sane, TaskFits, Wired, Program;
    match th.stage
    case Reading(_) => ReadTaskWired(p, th, t);
    case Computing(_) => ComputeTaskWired(p, th, t);
    case Sending(_) => SendTaskWired(p, th, t);
    case Receiving(_) => RecvTaskWired(p, th, t);
    case Zeroing(_) => ZeroTaskWired(p, th, t);
    case Persisting => PersistTaskWired(p, th, t);
  }

  // ---------------------------------------------------------------------------------------------
  // Threads pop nearer to the stored blocks than they push

  ghost function Threshold<C>(p: Plan<C>, th: Thread): int {
    match th.stage
    case Reading(_) => 0
    case Zeroing(_) => 0
    case Computing(l) => 3 * l
    case Sending(l) => 3 * l + 1
    case Receiving(l) => 3 * l + 2
    case Persisting => 3 * p.last
  }

  lemma PopBelow<C>(p: Plan<C>, ch: Chan)
    requires WellFormed(p) && InUse(p, ch)
    ensures Rank(p, ch) < Threshold(p, Consumer(p, ch))
  {
    hide ParentColor;
    match ch
    case Net(_, _) =>
    case Local(c, k) =>
      var v := IndexOf(ch);
      if k == v {
        ConsumerAbove(p, v, c);
      }
  }

  lemma ConsumerAbove<C>(p: Plan<C>, v: int, c: int)
    requires WellFormed(p) && v in p.g && ParentColor(p.g, p.col, v, c)
    ensures p.lev[v] < ConsumerLevel(p, v, c) <= p.last
  {
    forall j | 0 <= j < |p.g[v].parents| ensures p.lev[v] < p.lev[p.g[v].parents[j]] <= p.last {
      ParentHasChild(p, v, j);
    }
  }

  lemma PushAbove<C>(p: Plan<C>, ch: Chan)
    requires WellFormed(p) && InUse(p, ch)
    ensures Threshold(p, Producer(p, ch)) <= Rank(p, ch)
  {
    hide ParentColor;
  }

  lemma WiredUphill<C>(p: Plan<C>, th: Thread, prog: Prog<C>)
    requires WellFormed(p) && OneLevelPerColor(p) && AllWired(p, th, prog)
    ensures Uphill(PlumbingOf(p), prog)
  {
    hide WellFormed, OneLevelPerColor, Producer, Consumer, Rank, InUse, Threshold, Queues;
    PlumbingKeys(p);
    forall i, j | 0 <= i < |prog| && 0 <= j < |prog| && prog[i].Pop? && prog[j].Push?
      ensures var pl := PlumbingOf(p); prog[i].ch in pl.rank && prog[j].ch in pl.rank && pl.rank[prog[i].ch] < pl.rank[prog[j].ch]
    {
      assert Wired(p, th, prog[i]) && Wired(p, th, prog[j]);
      PopBelow(p, prog[i].ch);
      PushAbove(p, prog[j].ch);
    }
  }

  // ---------------------------------------------------------------------------------------------
  // Packets are in hand before they are used

  /** A block that first gets v, from what is in have, and then only uses v. */
  lemma OneIndexSound<C>(have: set<int>, block: Prog<C>, v: int)
    requires block != [] && Defs(block[0]) == {v}
    requires forall i | 0 <= i < |Uses(block[0])| :: Uses(block[0])[i] in have
    requires forall o, i | 0 < o < |block| && 0 <= i < |Uses(block[o])| :: Uses(block[o])[i] == v
    ensures SoundFrom(have, block)
  {
    forall o, i | 0 <= o < |block| && 0 <= i < |Uses(block[o])|
      ensures Uses(block[o])[i] in have || Uses(block[o])[i] in Defined(block[..o])
    {
      if o > 0 {
        assert block[..o] == block[..1] + block[1..o];
        DefinedAppend(block[..1], block[1..o]);
        assert block[..1][..0] == [];
      }
    }
  }

  lemma BlocksSound<C>(c: int, t: Task<C>)
    requires WellFormedTask(t) && !t.Compute?
    ensures Sound(Program(c, t))
  {
    var bs: seq<Prog<C>> := Blocks(c, t);
    forall b | 0 <= b < |bs| ensures SoundFrom({}, bs[b]) {
      match t
      case Read(_, dagidx, _) => OneIndexSound({}, bs[b], dagidx[b]);
      case Send(dagidx, _) => OneIndexSound({}, bs[b], dagidx[b]);
      case Recv(dagidx) => OneIndexSound({}, bs[b], dagidx[b]);
      case Persist(collect, _) => OneIndexSound({}, bs[b], collect[b]);
    }
    SoundFlat({}, bs);
  }

  lemma {:induction false} PopsDefine<C>(c: int, xs: seq<int>)
    ensures forall i | 0 <= i < |xs| :: xs[i] in Defined(Flat(PopBlocks<C>(c, xs)))
  {
    if xs != [] {
      var n := |xs| - 1;
      PopsDefine<C>(c, xs[..n]);
      assert PopBlocks<C>(c, xs)[..n] == PopBlocks<C>(c, xs[..n]);
      DefinedAppend(Flat(PopBlocks<C>(c, xs[..n])), PopBlock<C>(c, xs[n]));
      assert PopBlock<C>(c, xs[n])[..0] == [];
      forall i | 0 <= i < |xs| ensures xs[i] in Defined(Flat(PopBlocks<C>(c, xs))) {
        if i < n { assert xs[..n][i] == xs[i]; }
      }
    }
  }

  lemma ComputeSound<C>(c: int, t: Task<C>)
    requires t.Compute?
    ensures Sound(Program(c, t))
  {
    hide Inputs, Flat;
    var xs := Inputs(t.items);
    var pops, calcs := PopBlocks<C>(c, xs), CalcBlocks(c, t.items);
    InputsCover(t.items);
    PopsDefine<C>(c, xs);
    forall b | 0 <= b < |pops| ensures SoundFrom({}, pops[b]) {
      OneIndexSound({}, pops[b], xs[b]);
    }
    SoundFlat({}, pops);
    forall b | 0 <= b < |calcs| ensures SoundFrom(Defined(Flat(pops)), calcs[b]) {
      forall i | 0 <= i < |t.items[b].srcs| ensures t.items[b].srcs[i] in Defined(Flat(pops)) {
        var x := t.items[b].srcs[i];
        assert x in xs;
      }
      OneIndexSound(Defined(Flat(pops)), calcs[b], t.items[b].dst);
    }
    SoundFlat(Defined(Flat(pops)), calcs);
    SoundAppend(Flat(pops), Flat(calcs));
  }

  // ---------------------------------------------------------------------------------------------
  // Every queue in use is filled once and drained once per round

  lemma BlocksTagged<C>(c: int, t: Task<C>, xs: seq<int>)
    requires WellFormedTask(t) && !t.Compute?
    requires xs == (if t.Persist? then t.collect else t.dagidx) && forall i | 0 <= i < |xs| :: Keyable(xs[i])
    ensures Tagged(Blocks(c, t), xs)
  {
    var bs: seq<Prog<C>> := Blocks(c, t);
    forall b: int, o: int | 0 <= b < |bs| && 0 <= o < |bs[b]| && (bs[b][o].Push? || bs[b][o].Pop?)
      ensures IndexOf(bs[b][o].ch) == xs[b]
    {
      KeysApart(xs[b], xs[b]);
    }
  }

  lemma PopsTagged<C>(c: int, xs: seq<int>)
    requires forall i | 0 <= i < |xs| :: Keyable(xs[i])
    ensures Tagged(PopBlocks<C>(c, xs), xs)
  {
    forall i | 0 <= i < |xs| ensures IndexOf(Local(c, xs[i])) == xs[i] {
      KeysApart(xs[i], xs[i]);
    }
  }

  lemma CalcsTagged<C>(c: int, items: seq<ComputeItem<C>>)
    requires forall i | 0 <= i < |items| :: Keyable(items[i].dst)
    ensures Tagged(CalcBlocks(c, items), Dsts(items))
  {
    var bs: seq<Prog<C>> := CalcBlocks(c, items);
    forall b: int, o: int | 0 <= b < |bs| && 0 <= o < |bs[b]| && (bs[b][o].Push? || bs[b][o].Pop?)
      ensures IndexOf(bs[b][o].ch) == Dsts(items)[b]
    {
      KeysApart(items[b].dst, items[b].dst);
    }
  }

  lemma ReadBlockCount<C>(c: int, blk: string, v: int, u: Usage)
    requires Keyable(v)
    ensures u.same ==> Count(ReadBlock<C>(c, blk, v, u), true, Local(c, v)) == 1
    ensures u.diff ==> Count(ReadBlock<C>(c, blk, v, u), true, Local(c, Key(v))) == 1
  {
    hide Count;
    var b := ReadBlock<C>(c, blk, v, u);
    if u.same { CountOne(b, 1, true, Local(c, v)); }
    if u.diff { CountOne(b, |b| - 1, true, Local(c, Key(v))); }
  }

  lemma CalcBlockCount<C>(c: int, it: ComputeItem<C>)
    requires Keyable(it.dst)
    ensures it.usage.same ==> Count(CalcBlock(c, it), true, Local(c, it.dst)) == 1
    ensures it.usage.diff ==> Count(CalcBlock(c, it), true, Local(c, Key(it.dst))) == 1
  {
    hide Count;
    var b := CalcBlock(c, it);
    if it.usage.diff { CountOne(b, 1, true, Local(c, Key(it.dst))); }
    if it.usage.same { CountOne(b, |b| - 1, true, Local(c, it.dst)); }
  }

  lemma SendBlockCount<C>(c: int, v: int, tos: seq<int>)
    requires Distinct(tos)
    ensures Count(SendBlock<C>(c, v, tos), false, Local(c, Key(v))) == 1
    ensures forall j | 0 <= j < |tos| :: Count(SendBlock<C>(c, v, tos), true, Chan.Net(tos[j], v)) == 1
  {
    hide Count;
    var b := SendBlock<C>(c, v, tos);
    CountOne(b, 0, false, Local(c, Key(v)));
    forall j | 0 <= j < |tos| ensures Count(b, true, Chan.Net(tos[j], v)) == 1 {
      CountOne(b, j + 1, true, Chan.Net(tos[j], v));
    }
  }

  lemma PairBlockCount<C>(c: int, block: string, v: int)
    ensures Count(ZeroBlock<C>(c, v), true, Local(c, v)) == 1
    ensures Count(RecvBlock<C>(c, v), true, Local(c, v)) == 1 == Count(RecvBlock<C>(c, v), false, Chan.Net(c, v))
    ensures Count(PersistBlock<C>(c, block, v), false, Local(c, v)) == 1 == Count(PopBlock<C>(c, v), false, Local(c, v))
  {
    hide Count;
    CountOne(ZeroBlock<C>(c, v), 1, true, Local(c, v));
    CountOne(RecvBlock<C>(c, v), 1, true, Local(c, v));
    CountOne(RecvBlock<C>(c, v), 0, false, Chan.Net(c, v));
    CountOne(PersistBlock<C>(c, block, v), 0, false, Local(c, v));
    CountOne(PopBlock<C>(c, v), 0, false, Local(c, v));
  }

  lemma PositionIn<C>(p: Plan<C>, th: Thread, xs: seq<int>, v: int) returns (i: nat)
    requires WellFormed(p) && Lists(p, th, xs) && Listed(p, th, v)
    ensures i < |xs| && xs[i] == v && Distinct(xs)
    ensures forall k | 0 <= k < |xs| :: xs[k] in p.g && Listed(p, th, xs[k])
  {
    hide Listed;
    assert v in xs;
    i :| 0 <= i < |xs| && xs[i] == v;
    forall k | 0 <= k < |xs| ensures xs[k] in p.g {
      ListedIn(p, th, xs[k]);
    }
  }

  lemma ListedIn<C>(p: Plan<C>, th: Thread, v: int)
    requires WellFormed(p) && Listed(p, th, v)
    ensures v in p.g && (!th.stage.Persisting? ==> Keyable(v) && v != p.header)
  {
    hide ParentColor, HasOther;
  }

  /** A task that handles its list one block per sub-packet uses a queue as often as the block of the
      sub-packet the queue carries. */
  lemma TaskCount<C>(p: Plan<C>, th: Thread, t: Task<C>, xs: seq<int>, v: int, push: bool, ch: Chan) returns (i: nat)
    requires WellFormed(p) && WellFormedTask(t) && !t.Compute? && !t.Persist?
    requires xs == t.dagidx && Lists(p, th, xs) && Listed(p, th, v) && IndexOf(ch) == v && !th.stage.Persisting?
    ensures i < |xs| && xs[i] == v && i < |Blocks(th.node, t)|
    ensures Count(Program(th.node, t), push, ch) == Count(Blocks(th.node, t)[i], push, ch)
  {
    hide Listed, Count;
    i := PositionIn(p, th, xs, v);
    forall k | 0 <= k < |xs| ensures Keyable(xs[k]) {
      ListedIn(p, th, xs[k]);
    }
    BlocksTagged(th.node, t, xs);
    CountTagged(Blocks(th.node, t), xs, i, push, ch);
  }

  lemma SendOnce<C>(p: Plan<C>, tasks: TaskMap<C>, v: int)
    requires Sane(p) && Compiled(p, tasks) && v in p.g && v != p.header && IsReal(p, v) && HasOther(p, v)
    ensures var th := Thread(p.col[v], Sending(p.lev[v]));
            && th in tasks && WellFormedTask(tasks[th])
            && Count(Program(th.node, tasks[th]), false, Local(p.col[v], Key(v))) == 1
            && (forall c | c != p.col[v] && ParentColor(p.g, p.col, v, c) :: Count(Program(th.node, tasks[th]), true, Chan.Net(c, v)) == 1)
  {
    hide Count, Program, Blocks, Mirrored, OneLevelPerColor;
    var th := Thread(p.col[v], Sending(p.lev[v]));
    assert Listed(p, th, v);
    var t := tasks[th];
    assert TaskFits(p, th, t);
    KeysApart(v, v);
    var i := TaskCount(p, th, t, t.dagidx, v, false, Local(p.col[v], Key(v)));
    SendBlockAt(th.node, t, i);
    SendBlockCount<C>(p.col[v], v, t.sendto[i]);
    forall c | c != p.col[v] && ParentColor(p.g, p.col, v, c) ensures Count(Program(th.node, t), true, Chan.Net(c, v)) == 1 {
      var i' := TaskCount(p, th, t, t.dagidx, v, true, Chan.Net(c, v));
      SendBlockAt(th.node, t, i');
      SendBlockCount<C>(p.col[v], v, t.sendto[i']);
      assert Destinations(p, t.dagidx[i'], t.sendto[i']);
      assert c in t.sendto[i'];
    }
  }

  lemma SendBlockAt<C>(c: int, t: Task<C>, i: nat)
    requires t.Send? && WellFormedTask(t) && i < |t.dagidx|
    ensures |Blocks(c, t)| == |t.dagidx| && Blocks(c, t)[i] == SendBlock<C>(c, t.dagidx[i], t.sendto[i])
  {}

  lemma RecvOnce<C>(p: Plan<C>, tasks: TaskMap<C>, v: int, c: int)
    requires Sane(p) && Compiled(p, tasks) && v in p.g && v != p.header && IsReal(p, v)
    requires c != p.col[v] && ParentColor(p.g, p.col, v, c)
    ensures var th := Thread(c, Receiving(p.lev[v]));
            && th in tasks && WellFormedTask(tasks[th])
            && Count(Program(c, tasks[th]), false, Chan.Net(c, v)) == 1 == Count(Program(c, tasks[th]), true, Local(c, v))
  {
    hide Count, Program, Mirrored, OneLevelPerColor;
    var th := Thread(c, Receiving(p.lev[v]));
    assert Listed(p, th, v);
    var t := tasks[th];
    assert TaskFits(p, th, t);
    KeysApart(v, v);
    PairBlockCount<C>(c, "", v);
    var i := TaskCount(p, th, t, t.dagidx, v, false, Chan.Net(c, v));
    var i' := TaskCount(p, th, t, t.dagidx, v, true, Local(c, v));
  }

  lemma ZeroOnce<C>(p: Plan<C>, tasks: TaskMap<C>, v: int, c: int)
    requires Sane(p) && Compiled(p, tasks) && v in p.g && v != p.header && !IsReal(p, v)
    requires c != -1 && ParentColor(p.g, p.col, v, c)
    ensures var th := Thread(c, Zeroing(p.lev[v]));
            && th in tasks && WellFormedTask(tasks[th]) && Count(Program(c, tasks[th]), true, Local(c, v)) == 1
  {
    hide Count, Program, Mirrored, OneLevelPerColor;
    var th := Thread(c, Zeroing(p.lev[v]));
    assert Listed(p, th, v);
    var t := tasks[th];
    assert TaskFits(p, th, t);
    KeysApart(v, v);
    PairBlockCount<C>(c, "", v);
    var i := TaskCount(p, th, t, t.dagidx, v, true, Local(c, v));
  }

  lemma ReadOnce<C>(p: Plan<C>, tasks: TaskMap<C>, v: int)
    requires Sane(p) && Compiled(p, tasks) && v in p.g && IsStored(p, v)
    ensures var th := Thread(p.col[v], Reading(v / p.ecw));
            && th in tasks && WellFormedTask(tasks[th])
            && (ParentColor(p.g, p.col, v, p.col[v]) ==> Count(Program(th.node, tasks[th]), true, Local(p.col[v], v)) == 1)
            && (HasOther(p, v) ==> Count(Program(th.node, tasks[th]), true, Local(p.col[v], Key(v))) == 1)
  {
    hide Count, Program, Mirrored, OneLevelPerColor, ParentColor, HasOther;
    var th := Thread(p.col[v], Reading(v / p.ecw));
    assert Listed(p, th, v);
    var t := tasks[th];
    assert TaskFits(p, th, t);
    KeysApart(v, v);
    ReadBlockCount<C>(p.col[v], t.blk, v, UsageOf(p, v));
    var i := TaskCount(p, th, t, t.dagidx, v, true, Local(p.col[v], v));
    var i' := TaskCount(p, th, t, t.dagidx, v, true, Local(p.col[v], Key(v)));
  }

  lemma PopsNeverPush<C>(c: int, xs: seq<int>, ch: Chan)
    ensures Count(Flat(PopBlocks<C>(c, xs)), true, ch) == 0
  {
    hide Count;
    var bs := PopBlocks<C>(c, xs);
    forall b | 0 <= b < |bs| ensures Count(bs[b], true, ch) == 0 {
      CountNone(bs[b], true, ch);
    }
    CountFlatNone(bs, true, ch);
  }

  lemma CalcsNeverPop<C>(c: int, items: seq<ComputeItem<C>>, ch: Chan)
    ensures Count(Flat(CalcBlocks(c, items)), false, ch) == 0
  {
    hide Count;
    var bs := CalcBlocks(c, items);
    forall b | 0 <= b < |bs| ensures Count(bs[b], false, ch) == 0 {
      CountNone(bs[b], false, ch);
    }
    CountFlatNone(bs, false, ch);
  }

  lemma ComputeOnce<C>(p: Plan<C>, tasks: TaskMap<C>, v: int)
    requires Sane(p) && Compiled(p, tasks) && v in p.g && v != p.header && p.lev[v] != 0 && p.col[v] != -1
    ensures var th := Thread(p.col[v], Computing(p.lev[v]));
            && th in tasks && WellFormedTask(tasks[th])
            && (ParentColor(p.g, p.col, v, p.col[v]) ==> Count(Program(th.node, tasks[th]), true, Local(p.col[v], v)) == 1)
            && (HasOther(p, v) ==> Count(Program(th.node, tasks[th]), true, Local(p.col[v], Key(v))) == 1)
  {
    hide Count, Flat, Inputs, Mirrored, OneLevelPerColor, ParentColor, HasOther;
    var th := Thread(p.col[v], Computing(p.lev[v]));
    assert Listed(p, th, v);
    var t := tasks[th];
    assert TaskFits(p, th, t);
    KeysApart(v, v);
    var i := CalcPosition(p, th, t, v);
    CalcBlockCount<C>(p.col[v], t.items[i]);
    forall ch | ch == Local(p.col[v], v) || ch == Local(p.col[v], Key(v))
      ensures Count(Program(th.node, t), true, ch) == Count(CalcBlock(th.node, t.items[i]), true, ch)
    {
      CountTagged(CalcBlocks(th.node, t.items), Dsts(t.items), i, true, ch);
      PopsNeverPush<C>(th.node, Inputs(t.items), ch);
      CountAppend(Flat(PopBlocks<C>(th.node, Inputs(t.items))), Flat(CalcBlocks(th.node, t.items)), true, ch);
    }
  }

  lemma CalcPosition<C>(p: Plan<C>, th: Thread, t: Task<C>, v: int) returns (i: nat)
    requires WellFormed(p) && th.stage.Computing? && TaskFits(p, th, t) && Listed(p, th, v)
    ensures i < |t.items| && t.items[i].dst == v && t.items[i].usage == UsageOf(p, v) && t.items[i].srcs == p.g[v].children
    ensures Distinct(Dsts(t.items)) && Tagged(CalcBlocks(th.node, t.items), Dsts(t.items))
  {
    hide Listed, UsageOf;
    i := PositionIn(p, th, Dsts(t.items), v);
    assert Dsts(t.items)[i] == t.items[i].dst;
    forall k | 0 <= k < |t.items| ensures Keyable(t.items[k].dst) {
      assert Dsts(t.items)[k] == t.items[k].dst;
      ListedIn(p, th, Dsts(t.items)[k]);
    }
    CalcsTagged(th.node, t.items);
  }

  /** A computing thread pops each child of each of its outputs once per round. */
  lemma InputOnce<C>(p: Plan<C>, tasks: TaskMap<C>, u: int, i: nat)
    requires WellFormed(p) && Compiled(p, tasks) && u in p.g && u != p.header && i < |p.g[u].children| && p.col[u] != -1
    ensures var th, v := Thread(p.col[u], Computing(p.lev[u])), p.g[u].children[i];
            && th in tasks && WellFormedTask(tasks[th])
            && Count(Program(th.node, tasks[th]), false, Local(p.col[u], v)) == 1
  {
    hide Count, Flat, Inputs, Mirrored, Listed;
    var th, v := Thread(p.col[u], Computing(p.lev[u])), p.g[u].children[i];
    ComputesListed(p, u, i);
    var t := tasks[th];
    assert TaskFits(p, th, t);
    var m := CalcPosition(p, th, t, u);
    InputsCover(t.items);
    assert t.items[m].srcs[i] in Inputs(t.items);
    var xs := Inputs(t.items);
    var k :| 0 <= k < |xs| && xs[k] == v;
    forall k | 0 <= k < |xs| ensures Keyable(xs[k]) {
      var m', i' := InputOf(t.items, k);
      ItemFits(p, th, t, m');
      ChildHasParent(p, t.items[m'].dst, i');
    }
    var ch := Local(p.col[u], v);
    KeysApart(v, v);
    PopsTagged<C>(th.node, xs);
    CountTagged(PopBlocks<C>(th.node, xs), xs, k, false, ch);
    PairBlockCount<C>(th.node, "", v);
    CalcsNeverPop(th.node, t.items, ch);
    CountAppend(Flat(PopBlocks<C>(th.node, xs)), Flat(CalcBlocks(th.node, t.items)), false, ch);
  }

  lemma ComputesListed<C>(p: Plan<C>, u: int, i: nat)
    requires WellFormed(p) && u in p.g && u != p.header && i < |p.g[u].children| && p.col[u] != -1
    ensures Listed(p, Thread(p.col[u], Computing(p.lev[u])), u)
    ensures p.g[u].children[i] in p.g && Keyable(p.g[u].children[i])
  {
    ChildHasParent(p, u, i);
  }

  /** The persisting thread pops each child of the header once per round. */
  lemma PersistOnce<C>(p: Plan<C>, tasks: TaskMap<C>, i: nat)
    requires WellFormed(p) && Compiled(p, tasks) && i < |p.g[p.header].children|
    ensures var th, v := Thread(p.col[p.header], Persisting), p.g[p.header].children[i];
            && th in tasks && WellFormedTask(tasks[th])
            && Count(Program(th.node, tasks[th]), false, Local(th.node, v)) == 1
  {
    hide Count, Mirrored;
    var th, v := Thread(p.col[p.header], Persisting), p.g[p.header].children[i];
    assert Listed(p, th, p.header);
    var t := tasks[th];
    assert TaskFits(p, th, t);
    forall k | 0 <= k < |t.collect| ensures Keyable(t.collect[k]) {
      ChildHasParent(p, p.header, k);
    }
    KeysApart(v, v);
    BlocksTagged(th.node, t, t.collect);
    CountTagged(Blocks(th.node, t), t.collect, i, false, Local(th.node, v));
    PairBlockCount<C>(th.node, t.block, v);
  }

  ghost predicate Once<C>(tasks: TaskMap<C>, th: Thread, push: bool, ch: Chan) {
    th in tasks && WellFormedTask(tasks[th]) && Count(Program(th.node, tasks[th]), push, ch) == 1
  }

  lemma FilledOnce<C>(p: Plan<C>, tasks: TaskMap<C>, ch: Chan)
    requires Sane(p) && Compiled(p, tasks) && InUse(p, ch)
    ensures Once(tasks, Producer(p, ch), true, ch)
  {
    hide Count, Program, Compiled, Mirrored, OneLevelPerColor, HasOther;
    var v := IndexOf(ch);
    match ch
    case Net(c, _) =>
      OtherByColor(p, v, c);
      SendOnce(p, tasks, v);
    case Local(c, k) =>
      if k != v {
        if p.lev[v] == 0 { ReadOnce(p, tasks, v); } else { ComputeOnce(p, tasks, v); }
      } else if !IsReal(p, v) {
        ZeroOnce(p, tasks, v, c);
      } else if p.col[v] == c {
        if p.lev[v] == 0 { ReadOnce(p, tasks, v); } else { ComputeOnce(p, tasks, v); }
      } else {
        RecvOnce(p, tasks, v, c);
      }
  }

  lemma OtherByColor<C>(p: Plan<C>, v: int, c: int)
    requires WellFormed(p) && v in p.g && c != p.col[v] && ParentColor(p.g, p.col, v, c)
    ensures HasOther(p, v)
  {}

  lemma DrainedOnce<C>(p: Plan<C>, tasks: TaskMap<C>, ch: Chan)
    requires Deployable(p) && Compiled(p, tasks) && InUse(p, ch)
    ensures Once(tasks, Consumer(p, ch), false, ch)
  {
    hide Count, Program, Compiled, Mirrored, OneLevelPerColor, HasOther;
    var v := IndexOf(ch);
    match ch
    case Net(c, _) =>
      OtherByColor(p, v, c);
      RecvOnce(p, tasks, v, c);
    case Local(c, k) =>
      if k != v {
        SendOnce(p, tasks, v);
      } else {
        var u, i := AConsumer(p, v, c);
        if u == p.header { PersistOnce(p, tasks, i); } else { InputOnce(p, tasks, u, i); }
      }
  }

  lemma AConsumer<C>(p: Plan<C>, v: int, c: int) returns (u: int, i: nat)
    requires Deployable(p) && v in p.g && c != -1 && ParentColor(p.g, p.col, v, c)
    ensures u in p.g && i < |p.g[u].children| && p.g[u].children[i] == v && p.col[u] == c
    ensures p.lev[u] == ConsumerLevel(p, v, c)
  {
    var j :| 0 <= j < |p.g[v].parents| && p.col[p.g[v].parents[j]] == c;
    u := p.g[v].parents[j];
    ParentHasChild(p, v, j);
    i :| 0 <= i < |p.g[u].children| && p.g[u].children[i] == v;
    ConsumerLevelIs(p, u, i);
  }
}
