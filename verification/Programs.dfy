/** The tasks an agent is sent (src/ec/Task.hh) and the round each of them makes its thread repeat
    (src/common/Worker.cc). */
module Programs {
  import opened Dags
  import opened Network

  /** The key under which a node keeps the copies of sub-packet 0 that it sends away
      (src/common/Worker.hh:16); for any other sub-packet d that key is -d. */
  const KEY0 := -32767

  function Key(v: int): int {
    if v == 0 then KEY0 else -v
  }

  /** Indices whose queue keys cannot be confused. */
  predicate Keyable(v: int) {
    0 <= v < 32767
  }

  /** The sub-packet a queue carries. */
  function IndexOf(ch: Chan): int {
    match ch
    case Net(_, idx) => idx
    case Local(_, key) => if key == KEY0 then 0 else if key < 0 then -key else key
  }

  lemma KeysApart(v: int, w: int)
    requires Keyable(v) && Keyable(w)
    ensures Key(v) < 0 && (Key(v) == Key(w) <==> v == w)
    ensures forall c :: IndexOf(Local(c, Key(v))) == v && IndexOf(Local(c, v)) == v && IndexOf(Chan.Net(c, v)) == v
  {}

  /** same: used on the node that makes it; diff: used on other nodes. */
  datatype Usage = Usage(same: bool, diff: bool)

  datatype ComputeItem<C> = ComputeItem(dst: int, srcs: seq<int>, coefs: seq<C>, usage: Usage)

  datatype Task<C> =
    | Read(blk: string, dagidx: seq<int>, usage: seq<Usage>)
    | Send(dagidx: seq<int>, sendto: seq<seq<int>>)
    | Recv(dagidx: seq<int>)
    | Compute(items: seq<ComputeItem<C>>)
    | Persist(collect: seq<int>, block: string)

  const ZERO := "ZERO"

  // ---------------------------------------------------------------------------------------------
  // One round of each worker function, sub-packet by sub-packet

  /** readRealBlock, one stored sub-packet (src/common/Worker.cc:627-694). */
  function ReadBlock<C>(c: int, blk: string, v: int, u: Usage): Prog<C> {
    [Load(File(c, blk), v)] + (if u.same then [Push(Local(c, v), v)] else []) + (if u.diff then [Push(Local(c, Key(v)), v)] else [])
  }

  /** readVirtBlock, one zero sub-packet (src/common/Worker.cc:723-741). */
  function ZeroBlock<C>(c: int, v: int): Prog<C> {
    [Zero(v), Push(Local(c, v), v)]
  }

  /** sendOneByOne, one sub-packet to all its destinations (src/common/Worker.cc:831-860). */
  function SendBlock<C>(c: int, v: int, tos: seq<int>): Prog<C> {
    [Pop(Local(c, Key(v)), v)] + seq(|tos|, j requires 0 <= j < |tos| => Push(Chan.Net(tos[j], v), v))
  }

  /** recvList, one sub-packet (src/common/Worker.cc:1276-1298). */
  function RecvBlock<C>(c: int, v: int): Prog<C> {
    [Pop(Chan.Net(c, v), v), Push(Local(c, v), v)]
  }

  /** computeOneByOne, one input (src/common/Worker.cc:1414-1420). */
  function PopBlock<C>(c: int, v: int): Prog<C> {
    [Pop(Local(c, v), v)]
  }

  /** computeOneByOne, one output (src/common/Worker.cc:1423-1470). */
  function CalcBlock<C>(c: int, it: ComputeItem<C>): Prog<C> {
    [Calc(it.dst, it.srcs, it.coefs)]
    + (if it.usage.diff then [Push(Local(c, Key(it.dst)), it.dst)] else [])
    + (if it.usage.same then [Push(Local(c, it.dst), it.dst)] else [])
  }

  /** Where a node puts a repaired block (src/common/Worker.cc:1774). */
  function RepairFile(c: int, block: string): File {
    File(c, block + ".repair")
  }

  /** persist, one sub-packet (src/common/Worker.cc:1789-1811). */
  function PersistBlock<C>(c: int, block: string, v: int): Prog<C> {
    [Pop(Local(c, v), v), Write(RepairFile(c, block), v)]
  }

  function Flat<A>(bs: seq<seq<A>>): seq<A> {
    if bs == [] then [] else Flat(bs[..|bs| - 1]) + bs[|bs| - 1]
  }

  /** The inputs of a compute task, each once, in order of first use (src/common/Worker.cc:1344-1362). */
  function Inputs<C>(items: seq<ComputeItem<C>>): seq<int> {
    if items == [] then [] else AddNew(Inputs(items[..|items| - 1]), items[|items| - 1].srcs)
  }

  function AddNew(xs: seq<int>, ys: seq<int>): seq<int> {
    if ys == [] then xs
    else
      var r := AddNew(xs, ys[..|ys| - 1]);
      if ys[|ys| - 1] in r then r else r + [ys[|ys| - 1]]
  }

  predicate WellFormedTask<C>(t: Task<C>) {
    match t
    case Read(blk, dagidx, usage) => blk != ZERO ==> |usage| == |dagidx|
    case Send(dagidx, sendto) => |sendto| == |dagidx|
    case _ => true
  }

  function Blocks<C>(c: int, t: Task<C>): seq<Prog<C>>
    requires WellFormedTask(t) && !t.Compute?
  {
    match t
    case Read(blk, dagidx, usage) =>
      if blk == ZERO then seq(|dagidx|, i requires 0 <= i < |dagidx| => ZeroBlock(c, dagidx[i]))
      else seq(|dagidx|, i requires 0 <= i < |dagidx| => ReadBlock(c, blk, dagidx[i], usage[i]))
    case Send(dagidx, sendto) => seq(|dagidx|, i requires 0 <= i < |dagidx| => SendBlock(c, dagidx[i], sendto[i]))
    case Recv(dagidx) => seq(|dagidx|, i requires 0 <= i < |dagidx| => RecvBlock(c, dagidx[i]))
    case Persist(collect, block) => seq(|collect|, i requires 0 <= i < |collect| => PersistBlock(c, block, collect[i]))
  }

  function PopBlocks<C>(c: int, xs: seq<int>): seq<Prog<C>> {
    seq(|xs|, i requires 0 <= i < |xs| => PopBlock(c, xs[i]))
  }

  function CalcBlocks<C>(c: int, items: seq<ComputeItem<C>>): seq<Prog<C>> {
    seq(|items|, i requires 0 <= i < |items| => CalcBlock(c, items[i]))
  }

  /** The round of a task on node c. */
  function Program<C>(c: int, t: Task<C>): Prog<C>
    requires WellFormedTask(t)
  {
    if t.Compute? then Flat(PopBlocks(c, Inputs(t.items))) + Flat(CalcBlocks(c, t.items)) else Flat(Blocks(c, t))
  }

  // ---------------------------------------------------------------------------------------------
  // Concatenated blocks

  lemma {:induction false} FlatAt<A>(bs: seq<seq<A>>, j: nat) returns (b: nat, o: nat)
    requires j < |Flat(bs)|
    ensures b < |bs| && o < |bs[b]| && Flat(bs)[j] == bs[b][o]
    ensures Flat(bs)[..j] == Flat(bs[..b]) + bs[b][..o]
  {
    var n := |bs| - 1;
    var front := Flat(bs[..n]);
    if j < |front| {
      b, o := FlatAt(bs[..n], j);
      assert bs[..n][..b] == bs[..b];
      assert Flat(bs)[..j] == front[..j];
    } else {
      b, o := n, j - |front|;
      assert Flat(bs)[..j] == front + bs[n][..o];
    }
  }

  lemma {:induction false} CountAppend<C>(a: Prog<C>, b: Prog<C>, push: bool, ch: Chan)
    ensures Count(a + b, push, ch) == Count(a, push, ch) + Count(b, push, ch)
  {
    if b == [] {
      assert a + b == a;
    } else {
      var n := |b| - 1;
      CountAppend(a, b[..n], push, ch);
      assert (a + b)[..|a + b| - 1] == a + b[..n];
    }
  }

  /** If only block i touches the queue, the concatenation uses it as often as block i does. */
  lemma {:induction false} CountFlat<C>(bs: seq<Prog<C>>, i: nat, push: bool, ch: Chan)
    requires i < |bs| && forall j | 0 <= j < |bs| && j != i :: Count(bs[j], push, ch) == 0
    ensures Count(Flat(bs), push, ch) == Count(bs[i], push, ch)
  {
    var n := |bs| - 1;
    CountAppend(Flat(bs[..n]), bs[n], push, ch);
    if i < n {
      CountFlat(bs[..n], i, push, ch);
    } else {
      CountFlatNone(bs[..n], push, ch);
    }
  }

  lemma {:induction false} CountFlatNone<C>(bs: seq<Prog<C>>, push: bool, ch: Chan)
    requires forall j | 0 <= j < |bs| :: Count(bs[j], push, ch) == 0
    ensures Count(Flat(bs), push, ch) == 0
  {
    if bs != [] {
      var n := |bs| - 1;
      CountFlatNone(bs[..n], push, ch);
      CountAppend(Flat(bs[..n]), bs[n], push, ch);
    }
  }

  lemma {:induction false} CountNone<C>(prog: Prog<C>, push: bool, ch: Chan)
    requires forall j | 0 <= j < |prog| :: !IsOn(prog[j], push, ch)
    ensures Count(prog, push, ch) == 0
  {
    if prog != [] {
      CountNone(prog[..|prog| - 1], push, ch);
    }
  }

  /** An operation on the queue at exactly one position. */
  lemma {:induction false} CountOne<C>(prog: Prog<C>, i: nat, push: bool, ch: Chan)
    requires i < |prog| && IsOn(prog[i], push, ch)
    requires forall j | 0 <= j < |prog| && j != i :: !IsOn(prog[j], push, ch)
    ensures Count(prog, push, ch) == 1
  {
    var n := |prog| - 1;
    if i < n {
      CountOne(prog[..n], i, push, ch);
    } else {
      CountNone(prog[..n], push, ch);
    }
  }

  /** Block j only touches queues that carry xs[j]. */
  ghost predicate Tagged<C>(bs: seq<Prog<C>>, xs: seq<int>) {
    && |bs| == |xs|
    && (forall j, o | 0 <= j < |bs| && 0 <= o < |bs[j]| && bs[j][o].Push? :: IndexOf(bs[j][o].ch) == xs[j])
    && (forall j, o | 0 <= j < |bs| && 0 <= o < |bs[j]| && bs[j][o].Pop? :: IndexOf(bs[j][o].ch) == xs[j])
  }

  lemma CountTagged<C>(bs: seq<Prog<C>>, xs: seq<int>, i: nat, push: bool, ch: Chan)
    requires Tagged(bs, xs) && Distinct(xs) && i < |xs| && xs[i] == IndexOf(ch)
    ensures Count(Flat(bs), push, ch) == Count(bs[i], push, ch)
  {
    forall j | 0 <= j < |bs| && j != i ensures Count(bs[j], push, ch) == 0 {
      CountNone(bs[j], push, ch);
    }
    CountFlat(bs, i, push, ch);
  }

  // ---------------------------------------------------------------------------------------------
  // Packets are in hand before they are used

  ghost predicate SoundFrom<C>(have: set<int>, prog: Prog<C>) {
    forall j, i | 0 <= j < |prog| && 0 <= i < |Uses(prog[j])| :: Uses(prog[j])[i] in have || Uses(prog[j])[i] in Defined(prog[..j])
  }

  lemma {:induction false} DefinedAppend<C>(a: Prog<C>, b: Prog<C>)
    ensures Defined(a + b) == Defined(a) + Defined(b)
  {
    if b == [] {
      assert a + b == a;
    } else {
      var n := |b| - 1;
      DefinedAppend(a, b[..n]);
      assert (a + b)[..|a + b| - 1] == a + b[..n];
    }
  }

  lemma SoundFlat<C>(have: set<int>, bs: seq<Prog<C>>)
    requires forall b | 0 <= b < |bs| :: SoundFrom(have, bs[b])
    ensures SoundFrom(have, Flat(bs))
  {
    var prog := Flat(bs);
    forall j, i | 0 <= j < |prog| && 0 <= i < |Uses(prog[j])|
      ensures Uses(prog[j])[i] in have || Uses(prog[j])[i] in Defined(prog[..j])
    {
      var b, o := FlatAt(bs, j);
      DefinedAppend(Flat(bs[..b]), bs[b][..o]);
      assert SoundFrom(have, bs[b]);
      assert Uses(bs[b][o])[i] in have || Uses(bs[b][o])[i] in Defined(bs[b][..o]);
    }
  }

  lemma SoundAppend<C>(a: Prog<C>, b: Prog<C>)
    requires SoundFrom({}, a) && SoundFrom(Defined(a), b)
    ensures Sound(a + b)
  {
    var prog := a + b;
    forall j, i | 0 <= j < |prog| && 0 <= i < |Uses(prog[j])| ensures Uses(prog[j])[i] in Defined(prog[..j]) {
      if j < |a| {
        assert prog[..j] == a[..j] && prog[j] == a[j];
      } else {
        assert prog[..j] == a + b[..j - |a|] && prog[j] == b[j - |a|];
        DefinedAppend(a, b[..j - |a|]);
      }
    }
  }
}
