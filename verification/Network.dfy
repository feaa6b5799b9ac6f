/** A network of repair threads over FIFO queues. Every thread repeats a straight-line round once
    per packet (the pktnum loops of src/common/Worker.cc); queues are the per-node BlockingQueues and
    the Redis lists between nodes. */
module Network {
  /** Local(node, key): a BlockingQueue in the DataMap of a node; Net(node, idx): the Redis list at a
      node under the key of sub-packet idx. */
  datatype Chan = Local(node: int, key: int) | Net(node: int, idx: int)

  /** A file on a node's disk. */
  datatype File = File(node: int, name: string)

  datatype Op<C> =
    | Load(file: File, idx: int)                          // pread of a stored sub-packet
    | Zero(idx: int)                                      // a fresh zero packet
    | Pop(ch: Chan, idx: int)                             // blocking
    | Calc(idx: int, srcs: seq<int>, coefs: seq<C>)       // Computation::Multi
    | Push(ch: Chan, idx: int)
    | Write(file: File, idx: int)                         // append to the repaired block

  type Prog<C> = seq<Op<C>>

  /** Packets: the foreign coding routine and the zero packet. */
  datatype Packets<!C, !P> = Packets(zero: P, lin: (seq<C>, seq<P>) -> P)

  /** Where a thread is: packet number, position in the round, packets in hand. */
  datatype Proc<P> = Proc(round: nat, pc: nat, buf: map<int, P>)

  datatype State<K, P> = State(procs: map<K, Proc<P>>, chans: map<Chan, seq<P>>, disk: map<File, seq<P>>)

  /** Packets have width sub-packets; data is what is stored, sub-packet by sub-packet of each file. */
  datatype Cluster<!C, K, !P> = Cluster(progs: map<K, Prog<C>>, pktnum: nat, pk: Packets<C, P>, width: nat, data: (File, nat) -> P)

  /** Where a file has sub-packet idx of a packet (src/common/Worker.cc:599, 662). */
  function PlaceIn(width: nat, round: nat, idx: int): nat {
    if width == 0 then 0 else round * width + idx % width
  }

  function Contents<P>(disk: map<File, seq<P>>, file: File): seq<P> {
    if file in disk then disk[file] else []
  }

  /** Nothing was written but xs to the file. */
  ghost predicate DiskIs<P>(disk: map<File, seq<P>>, file: File, xs: seq<P>) {
    Contents(disk, file) == xs && forall f | f in disk :: f == file
  }

  function Queue<P>(chans: map<Chan, seq<P>>, ch: Chan): seq<P> {
    if ch in chans then chans[ch] else []
  }

  function Init<C, K, P>(net: Cluster<C, K, P>): State<K, P> {
    State(map k | k in net.progs :: Proc(0, 0, map[]), map[], map[])
  }

  predicate Fits<C, K, P>(net: Cluster<C, K, P>, s: State<K, P>) {
    && s.procs.Keys == net.progs.Keys
    && (forall k | k in net.progs :: s.procs[k].round < net.pktnum ==> s.procs[k].pc < |net.progs[k]|)
  }

  predicate Running<C, K, P>(net: Cluster<C, K, P>, s: State<K, P>, k: K)
    requires Fits(net, s)
  {
    k in net.progs && s.procs[k].round < net.pktnum
  }

  predicate Finished<C, K, P>(net: Cluster<C, K, P>, s: State<K, P>)
    requires Fits(net, s)
  {
    forall k | k in net.progs :: !Running(net, s, k)
  }

  function CurrentOp<C, K, P>(net: Cluster<C, K, P>, s: State<K, P>, k: K): Op<C>
    requires Fits(net, s) && Running(net, s, k)
  {
    net.progs[k][s.procs[k].pc]
  }

  /** The packets an operation takes from the thread's hands. */
  function Uses<C>(op: Op<C>): seq<int> {
    match op
    case Push(_, idx) => [idx]
    case Write(_, idx) => [idx]
    case Calc(_, srcs, _) => srcs
    case _ => []
  }

  ghost predicate HasAll<P>(buf: map<int, P>, idxs: seq<int>) {
    forall i | 0 <= i < |idxs| :: idxs[i] in buf
  }

  /** Thread k can move: it is not finished, does not wait on an empty queue, and has what it needs. */
  ghost predicate CanStep<C, K, P>(net: Cluster<C, K, P>, s: State<K, P>, k: K) {
    && Fits(net, s) && Running(net, s, k)
    && (CurrentOp(net, s, k).Pop? ==> Queue(s.chans, CurrentOp(net, s, k).ch) != [])
    && HasAll(s.procs[k].buf, Uses(CurrentOp(net, s, k)))
  }

  ghost function Fetch<P>(buf: map<int, P>, srcs: seq<int>): seq<P>
    requires HasAll(buf, srcs)
  {
    seq(|srcs|, i requires 0 <= i < |srcs| => buf[srcs[i]])
  }

  /** What the operation leaves in the thread's hands. */
  ghost function NewBuf<C, K, P>(net: Cluster<C, K, P>, s: State<K, P>, k: K): map<int, P>
    requires CanStep(net, s, k)
  {
    var p := s.procs[k];
    match CurrentOp(net, s, k)
    case Load(file, idx) => p.buf[idx := net.data(file, PlaceIn(net.width, p.round, idx))]
    case Zero(idx) => p.buf[idx := net.pk.zero]
    case Pop(ch, idx) => p.buf[idx := Queue(s.chans, ch)[0]]
    case Calc(idx, srcs, coefs) => p.buf[idx := net.pk.lin(coefs, Fetch(p.buf, srcs))]
    case _ => p.buf
  }

  /** One step of thread k; after the last operation of a round its hands are emptied. */
  ghost function Step<C, K, P>(net: Cluster<C, K, P>, s: State<K, P>, k: K): (s': State<K, P>)
    requires CanStep(net, s, k)
  {
    var p, op := s.procs[k], CurrentOp(net, s, k);
    var p' := if p.pc + 1 == |net.progs[k]| then Proc(p.round + 1, 0, map[]) else Proc(p.round, p.pc + 1, NewBuf(net, s, k));
    var chans' :=
      match op
      case Pop(ch, _) => s.chans[ch := Queue(s.chans, ch)[1..]]
      case Push(ch, idx) => assert Uses(op)[0] == idx; s.chans[ch := Queue(s.chans, ch) + [p.buf[idx]]]
      case _ => s.chans;
    var disk' :=
      match op
      case Write(file, idx) => assert Uses(op)[0] == idx; s.disk[file := Contents(s.disk, file) + [p.buf[idx]]]
      case _ => s.disk;
    State(s.procs[k := p'], chans', disk')
  }

  datatype Option<T> = None | Some(value: T)

  /** The state reached by letting threads move in the order sched; None if one of them cannot. */
  ghost function Exec<C, K, P>(net: Cluster<C, K, P>, sched: seq<K>): Option<State<K, P>> {
    if sched == [] then Some(Init(net))
    else
      match Exec(net, sched[..|sched| - 1])
      case None => None
      case Some(s) => if CanStep(net, s, sched[|sched| - 1]) then Some(Step(net, s, sched[|sched| - 1])) else None
  }

  // ---------------------------------------------------------------------------------------------
  // Well-plumbed clusters

  /** Which thread feeds a queue, which one drains it, what it carries, and how far it is from the
      stored blocks. */
  datatype Plumbing<K> = Plumbing(prod: map<Chan, K>, cons: map<Chan, K>, carries: map<Chan, int>, rank: map<Chan, nat>, sink: K, target: File)

  ghost predicate IsOn<C>(op: Op<C>, push: bool, ch: Chan) {
    if push then op.Push? && op.ch == ch else op.Pop? && op.ch == ch
  }

  /** How often a program pushes to (or pops from) a queue. */
  ghost function Count<C>(prog: Prog<C>, push: bool, ch: Chan): nat {
    if prog == [] then 0
    else Count(prog[..|prog| - 1], push, ch) + (if IsOn(prog[|prog| - 1], push, ch) then 1 else 0)
  }

  ghost function Defs<C>(op: Op<C>): set<int> {
    match op
    case Load(_, idx) => {idx}
    case Zero(idx) => {idx}
    case Pop(_, idx) => {idx}
    case Calc(idx, _, _) => {idx}
    case _ => {}
  }

  ghost function Defined<C>(prog: Prog<C>): set<int> {
    if prog == [] then {} else Defined(prog[..|prog| - 1]) + Defs(prog[|prog| - 1])
  }

  /** No operation uses a packet that is not in hand yet. */
  ghost predicate Sound<C>(prog: Prog<C>) {
    forall j, i | 0 <= j < |prog| && 0 <= i < |Uses(prog[j])| :: Uses(prog[j])[i] in Defined(prog[..j])
  }

  ghost predicate Connected<C, K>(pl: Plumbing<K>, k: K, op: Op<C>) {
    match op
    case Push(ch, idx) => ch in pl.prod && pl.prod[ch] == k && ch in pl.carries && pl.carries[ch] == idx
    case Pop(ch, idx) => ch in pl.cons && pl.cons[ch] == k && ch in pl.carries && pl.carries[ch] == idx
    case Write(file, _) => k == pl.sink && file == pl.target
    case _ => true
  }

  /** Within a thread, every queue popped is nearer to the stored blocks than every queue pushed. */
  ghost predicate Uphill<C, K>(pl: Plumbing<K>, prog: Prog<C>) {
    forall i, j | 0 <= i < |prog| && 0 <= j < |prog| && prog[i].Pop? && prog[j].Push? ::
      prog[i].ch in pl.rank && prog[j].ch in pl.rank && pl.rank[prog[i].ch] < pl.rank[prog[j].ch]
  }

  ghost predicate Plumbed<C, K, P>(net: Cluster<C, K, P>, pl: Plumbing<K>) {
    && pl.prod.Keys == pl.cons.Keys == pl.carries.Keys == pl.rank.Keys
    && pl.sink in net.progs
    && (forall k | k in net.progs :: net.progs[k] != [] && Sound(net.progs[k]) && Uphill(pl, net.progs[k]))
    && (forall k, j | k in net.progs && 0 <= j < |net.progs[k]| :: Connected(pl, k, net.progs[k][j]))
    && (forall ch | ch in pl.prod :: pl.prod[ch] in net.progs && Count(net.progs[pl.prod[ch]], true, ch) == 1)
    && (forall ch | ch in pl.cons :: pl.cons[ch] in net.progs && Count(net.progs[pl.cons[ch]], false, ch) == 1)
  }

  /** val gives every sub-packet index a value per packet that agrees with storage and arithmetic. */
  ghost predicate OpAgrees<C, K, P>(net: Cluster<C, K, P>, val: (int, nat) -> P, op: Op<C>) {
    match op
    case Load(file, idx) => forall r: nat :: net.data(file, PlaceIn(net.width, r, idx)) == val(idx, r)
    case Zero(idx) => forall r: nat :: net.pk.zero == val(idx, r)
    case Calc(idx, srcs, coefs) => forall r: nat :: net.pk.lin(coefs, Row(val, srcs, r)) == val(idx, r)
    case _ => true
  }

  ghost function Row<P>(val: (int, nat) -> P, idxs: seq<int>, r: nat): seq<P> {
    seq(|idxs|, i requires 0 <= i < |idxs| => val(idxs[i], r))
  }

  ghost predicate Agrees<C, K, P>(net: Cluster<C, K, P>, val: (int, nat) -> P) {
    forall k, j | k in net.progs && 0 <= j < |net.progs[k]| :: OpAgrees(net, val, net.progs[k][j])
  }

  // ---------------------------------------------------------------------------------------------
  // The invariant

  /** Packets pushed to, or popped from, ch so far by the thread that does so. */
  ghost function Done<C, K, P>(net: Cluster<C, K, P>, s: State<K, P>, k: K, push: bool, ch: Chan): nat
    requires k in net.progs && k in s.procs && s.procs[k].pc <= |net.progs[k]|
  {
    s.procs[k].round + Count(net.progs[k][..s.procs[k].pc], push, ch)
  }

  /** The i-th packet ever popped from ch is the value of its index on packet i: the queue holds
      exactly those between the pop count and the push count. */
  ghost predicate QueueHolds<P>(q: seq<P>, val: (int, nat) -> P, idx: int, popped: nat, pushed: nat) {
    && popped <= pushed && |q| == pushed - popped
    && (forall i | 0 <= i < |q| :: q[i] == val(idx, popped + i))
  }

  ghost predicate ProcOk<C, P>(prog: Prog<C>, pktnum: nat, val: (int, nat) -> P, p: Proc<P>) {
    && p.round <= pktnum
    && (p.round < pktnum ==> p.pc < |prog|)
    && (p.round == pktnum ==> p.pc == 0)
    && (forall v :: v in p.buf <==> v in Defined(prog[..p.pc]))
    && (forall v | v in p.buf :: p.buf[v] == val(v, p.round))
  }

  /** What a program prefix writes in round r, and what whole rounds write. */
  ghost function Written<C, P>(prog: Prog<C>, val: (int, nat) -> P, r: nat): seq<P> {
    if prog == [] then []
    else Written(prog[..|prog| - 1], val, r) + (if prog[|prog| - 1].Write? then [val(prog[|prog| - 1].idx, r)] else [])
  }

  ghost function WrittenRounds<C, P>(prog: Prog<C>, val: (int, nat) -> P, rounds: nat): seq<P> {
    if rounds == 0 then [] else WrittenRounds(prog, val, rounds - 1) + Written(prog, val, rounds - 1)
  }

  ghost predicate Inv<C, K, P>(net: Cluster<C, K, P>, pl: Plumbing<K>, val: (int, nat) -> P, s: State<K, P>)
    requires Plumbed(net, pl)
  {
    && Fits(net, s)
    && (forall k | k in net.progs :: ProcOk(net.progs[k], net.pktnum, val, s.procs[k]))
    && (forall ch | ch in pl.prod ::
          QueueHolds(Queue(s.chans, ch), val, pl.carries[ch],
                     Done(net, s, pl.cons[ch], false, ch), Done(net, s, pl.prod[ch], true, ch)))
    && (forall ch | ch !in pl.prod :: Queue(s.chans, ch) == [])
    && (var prog, p := net.progs[pl.sink], s.procs[pl.sink];
        DiskIs(s.disk, pl.target, WrittenRounds(prog, val, p.round) + Written(prog[..p.pc], val, p.round)))
  }

  lemma CountNext<C>(prog: Prog<C>, n: nat, push: bool, ch: Chan)
    requires n < |prog|
    ensures Count(prog[..n + 1], push, ch) == Count(prog[..n], push, ch) + (if IsOn(prog[n], push, ch) then 1 else 0)
  {
    assert prog[..n + 1][..n] == prog[..n];
  }

  lemma {:induction false} CountGrows<C>(prog: Prog<C>, n: nat, push: bool, ch: Chan)
    requires n <= |prog|
    ensures Count(prog[..n], push, ch) <= Count(prog, push, ch)
  {
    if n < |prog| {
      var m := |prog| - 1;
      CountGrows(prog[..m], n, push, ch);
      assert prog[..m][..n] == prog[..n];
    } else {
      assert prog[..n] == prog;
    }
  }

  /** A queue used once per round has not been used before its one operation. */
  lemma UsedOnce<C>(prog: Prog<C>, n: nat, push: bool, ch: Chan)
    requires n < |prog| && IsOn(prog[n], push, ch) && Count(prog, push, ch) == 1
    ensures Count(prog[..n], push, ch) == 0
  {
    CountNext(prog, n, push, ch);
    CountGrows(prog, n + 1, push, ch);
  }

  lemma StepDone<C, K, P>(net: Cluster<C, K, P>, s: State<K, P>, k: K, k2: K, push: bool, ch: Chan)
    requires CanStep(net, s, k) && k2 in net.progs && Count(net.progs[k2], push, ch) == 1
    requires s.procs[k2].pc <= |net.progs[k2]|
    ensures var s' := Step(net, s, k);
            && s'.procs.Keys == net.progs.Keys && s'.procs[k2].pc <= |net.progs[k2]|
            && Done(net, s', k2, push, ch) ==
               Done(net, s, k2, push, ch) + (if k2 == k && IsOn(CurrentOp(net, s, k), push, ch) then 1 else 0)
  {
    hide NewBuf;
    if k2 == k {
      var prog, pc := net.progs[k], s.procs[k].pc;
      CountNext(prog, pc, push, ch);
      if pc + 1 == |prog| {
        assert prog[..pc + 1] == prog;
      }
    }
  }

  lemma FetchIsRow<P>(buf: map<int, P>, srcs: seq<int>, val: (int, nat) -> P, r: nat)
    requires HasAll(buf, srcs) && forall v | v in buf :: buf[v] == val(v, r)
    ensures Fetch(buf, srcs) == Row(val, srcs, r)
  {
    forall i | 0 <= i < |srcs| ensures Fetch(buf, srcs)[i] == Row(val, srcs, r)[i] {
      var x := srcs[i];
      assert x in buf;
    }
  }

  lemma PcInRound<C, K, P>(net: Cluster<C, K, P>, pl: Plumbing<K>, val: (int, nat) -> P, s: State<K, P>, k: K)
    requires Plumbed(net, pl) && Inv(net, pl, val, s) && k in net.progs
    ensures k in s.procs && s.procs[k].pc <= |net.progs[k]|
  {
    hide Plumbed, Queue, QueueHolds;
    assert ProcOk(net.progs[k], net.pktnum, val, s.procs[k]);
  }

  lemma QueueNow<C, K, P>(net: Cluster<C, K, P>, pl: Plumbing<K>, val: (int, nat) -> P, s: State<K, P>, ch: Chan)
    requires Plumbed(net, pl) && Inv(net, pl, val, s) && ch in pl.prod
    ensures pl.cons[ch] in s.procs && s.procs[pl.cons[ch]].pc <= |net.progs[pl.cons[ch]]|
    ensures pl.prod[ch] in s.procs && s.procs[pl.prod[ch]].pc <= |net.progs[pl.prod[ch]]|
    ensures QueueHolds(Queue(s.chans, ch), val, pl.carries[ch],
                       Done(net, s, pl.cons[ch], false, ch), Done(net, s, pl.prod[ch], true, ch))
  {
    hide Queue, QueueHolds, Done;
    PcInRound(net, pl, val, s, pl.cons[ch]);
    PcInRound(net, pl, val, s, pl.prod[ch]);
  }

  lemma QueuePopped<P>(q: seq<P>, val: (int, nat) -> P, idx: int, popped: nat, pushed: nat)
    requires QueueHolds(q, val, idx, popped, pushed) && q != []
    ensures QueueHolds(q[1..], val, idx, popped + 1, pushed)
  {}

  lemma QueuePushed<P>(q: seq<P>, val: (int, nat) -> P, idx: int, popped: nat, pushed: nat)
    requires QueueHolds(q, val, idx, popped, pushed)
    ensures QueueHolds(q + [val(idx, pushed)], val, idx, popped, pushed + 1)
  {}

  /** The queue of the current operation is this thread's, and is used once per round. */
  lemma CurrentConnected<C, K, P>(net: Cluster<C, K, P>, pl: Plumbing<K>, s: State<K, P>, k: K)
    requires Plumbed(net, pl) && CanStep(net, s, k)
    ensures var op := CurrentOp(net, s, k);
            && Connected(pl, k, op)
            && (op.Pop? ==> op.ch in pl.prod && Count(net.progs[k], false, op.ch) == 1 && Count(net.progs[k][..s.procs[k].pc], false, op.ch) == 0)
            && (op.Push? ==> op.ch in pl.prod && Count(net.progs[k], true, op.ch) == 1 && Count(net.progs[k][..s.procs[k].pc], true, op.ch) == 0)
  {
    hide Sound, Uphill, Count, Queue;
    var op, prog, pc := CurrentOp(net, s, k), net.progs[k], s.procs[k].pc;
    assert Connected(pl, k, prog[pc]);
    if op.Pop? { UsedOnce(prog, pc, false, op.ch); }
    if op.Push? { UsedOnce(prog, pc, true, op.ch); }
  }

  lemma PopHead<P>(q: seq<P>, val: (int, nat) -> P, idx: int, popped: nat, pushed: nat)
    requires QueueHolds(q, val, idx, popped, pushed) && q != []
    ensures q[0] == val(idx, popped)
  {}

  /** What a thread pops is the value of the queue's index on the packet it is working on. */
  lemma PopRight<C, K, P>(net: Cluster<C, K, P>, pl: Plumbing<K>, val: (int, nat) -> P, s: State<K, P>, k: K)
    requires Plumbed(net, pl) && Inv(net, pl, val, s) && CanStep(net, s, k) && CurrentOp(net, s, k).Pop?
    ensures var op := CurrentOp(net, s, k);
            Queue(s.chans, op.ch)[0] == val(op.idx, s.procs[k].round)
  {
    hide Plumbed, Count, Queue, Inv, QueueHolds;
    var op := CurrentOp(net, s, k);
    CurrentConnected(net, pl, s, k);
    QueueNow(net, pl, val, s, op.ch);
    PopHead(Queue(s.chans, op.ch), val, op.idx, Done(net, s, k, false, op.ch), Done(net, s, pl.prod[op.ch], true, op.ch));
  }

  lemma NewBufRight<C, K, P>(net: Cluster<C, K, P>, pl: Plumbing<K>, val: (int, nat) -> P, s: State<K, P>, k: K)
    requires Plumbed(net, pl) && Agrees(net, val) && Inv(net, pl, val, s) && CanStep(net, s, k)
    ensures forall v :: v in NewBuf(net, s, k) <==> v in s.procs[k].buf || v in Defs(CurrentOp(net, s, k))
    ensures forall v | v in NewBuf(net, s, k) :: NewBuf(net, s, k)[v] == val(v, s.procs[k].round)
  {
    hide Plumbed, Inv, Fetch, Queue, Agrees;
    var p, op := s.procs[k], CurrentOp(net, s, k);
    InHand(net, pl, val, s, k);
    if op.Pop? {
      PopRight(net, pl, val, s, k);
    } else if op.Calc? {
      FetchIsRow(p.buf, op.srcs, val, p.round);
    }
  }

  lemma InHand<C, K, P>(net: Cluster<C, K, P>, pl: Plumbing<K>, val: (int, nat) -> P, s: State<K, P>, k: K)
    requires Plumbed(net, pl) && Agrees(net, val) && Inv(net, pl, val, s) && CanStep(net, s, k)
    ensures forall v | v in s.procs[k].buf :: s.procs[k].buf[v] == val(v, s.procs[k].round)
    ensures OpAgrees(net, val, CurrentOp(net, s, k))
  {
    hide Plumbed, Queue, QueueHolds, OpAgrees;
    assert ProcOk(net.progs[k], net.pktnum, val, s.procs[k]);
  }

  lemma StepProc<C, K, P>(net: Cluster<C, K, P>, pl: Plumbing<K>, val: (int, nat) -> P, s: State<K, P>, k: K)
    requires Plumbed(net, pl) && Agrees(net, val) && Inv(net, pl, val, s) && CanStep(net, s, k)
    ensures Fits(net, Step(net, s, k))
    ensures forall k2 | k2 in net.progs :: ProcOk(net.progs[k2], net.pktnum, val, Step(net, s, k).procs[k2])
  {
    hide Plumbed, Agrees, Queue, QueueHolds, Written, WrittenRounds, NewBuf, Uses, ProcOk, Done, Fetch;
    NewBufRight(net, pl, val, s, k);
    ProcNext(net.progs[k], net.pktnum, val, s.procs[k], NewBuf(net, s, k));
  }

  lemma ProcNext<C, P>(prog: Prog<C>, pktnum: nat, val: (int, nat) -> P, p: Proc<P>, buf: map<int, P>)
    requires ProcOk(prog, pktnum, val, p) && p.round < pktnum && p.pc < |prog|
    requires forall v :: v in buf <==> v in p.buf || v in Defs(prog[p.pc])
    requires forall v | v in buf :: buf[v] == val(v, p.round)
    ensures ProcOk(prog, pktnum, val, if p.pc + 1 == |prog| then Proc(p.round + 1, 0, map[]) else Proc(p.round, p.pc + 1, buf))
  {
    assert prog[..p.pc + 1][..p.pc] == prog[..p.pc];
  }

  lemma StepChan<C, K, P>(net: Cluster<C, K, P>, s: State<K, P>, k: K, ch: Chan)
    requires CanStep(net, s, k)
    ensures var op, s' := CurrentOp(net, s, k), Step(net, s, k);
            Queue(s'.chans, ch) ==
              if op.Pop? && op.ch == ch then Queue(s.chans, ch)[1..]
              else if op.Push? && op.ch == ch then assert Uses(op)[0] == op.idx; Queue(s.chans, ch) + [s.procs[k].buf[op.idx]]
              else Queue(s.chans, ch)
  {}

  /** The pushes and pops of a queue by its two threads, after a step. */
  lemma StepCounts<C, K, P>(net: Cluster<C, K, P>, pl: Plumbing<K>, val: (int, nat) -> P, s: State<K, P>, k: K, ch: Chan)
    requires Plumbed(net, pl) && Inv(net, pl, val, s) && CanStep(net, s, k) && ch in pl.prod
    ensures ch in pl.cons && ch in pl.carries && pl.cons[ch] in net.progs && pl.prod[ch] in net.progs
    ensures pl.cons[ch] in s.procs && s.procs[pl.cons[ch]].pc <= |net.progs[pl.cons[ch]]|
    ensures pl.prod[ch] in s.procs && s.procs[pl.prod[ch]].pc <= |net.progs[pl.prod[ch]]|
    ensures var s', op := Step(net, s, k), CurrentOp(net, s, k);
            && s'.procs.Keys == net.progs.Keys
            && s'.procs[pl.cons[ch]].pc <= |net.progs[pl.cons[ch]]| && s'.procs[pl.prod[ch]].pc <= |net.progs[pl.prod[ch]]|
            && Done(net, s', pl.cons[ch], false, ch) == Done(net, s, pl.cons[ch], false, ch) + (if op.Pop? && op.ch == ch then 1 else 0)
            && Done(net, s', pl.prod[ch], true, ch) == Done(net, s, pl.prod[ch], true, ch) + (if op.Push? && op.ch == ch then 1 else 0)
  {
    hide Sound, Uphill, Queue, ProcOk, Step, Done, Inv, QueueHolds, Count;
    PcInRound(net, pl, val, s, pl.cons[ch]);
    PcInRound(net, pl, val, s, pl.prod[ch]);
    StepDone(net, s, k, pl.cons[ch], false, ch);
    StepDone(net, s, k, pl.prod[ch], true, ch);
    CurrentConnected(net, pl, s, k);
  }

  lemma StepQueue<C, K, P>(net: Cluster<C, K, P>, pl: Plumbing<K>, val: (int, nat) -> P, s: State<K, P>, k: K, ch: Chan)
    requires Plumbed(net, pl) && Agrees(net, val) && Inv(net, pl, val, s) && CanStep(net, s, k) && ch in pl.prod
    requires var s' := Step(net, s, k);
             && s'.procs.Keys == net.progs.Keys
             && s'.procs[pl.cons[ch]].pc <= |net.progs[pl.cons[ch]]| && s'.procs[pl.prod[ch]].pc <= |net.progs[pl.prod[ch]]|
    ensures var s' := Step(net, s, k);
            QueueHolds(Queue(s'.chans, ch), val, pl.carries[ch],
                       Done(net, s', pl.cons[ch], false, ch), Done(net, s', pl.prod[ch], true, ch))
  {
    hide Plumbed, Queue, Agrees, ProcOk, Step, Done, Inv, QueueHolds, Count, Connected;
    var op := CurrentOp(net, s, k);
    StepCounts(net, pl, val, s, k, ch);
    StepChan(net, s, k, ch);
    QueueNow(net, pl, val, s, ch);
    var popped, pushed := Done(net, s, pl.cons[ch], false, ch), Done(net, s, pl.prod[ch], true, ch);
    if op.Push? && op.ch == ch {
      PushRight(net, pl, val, s, k);
      QueuePushed(Queue(s.chans, ch), val, op.idx, popped, pushed);
    } else if op.Pop? && op.ch == ch {
      CurrentCarries(net, pl, s, k);
      QueuePopped(Queue(s.chans, ch), val, op.idx, popped, pushed);
    }
  }

  lemma CurrentCarries<C, K, P>(net: Cluster<C, K, P>, pl: Plumbing<K>, s: State<K, P>, k: K)
    requires Plumbed(net, pl) && CanStep(net, s, k) && CurrentOp(net, s, k).Pop?
    ensures var op := CurrentOp(net, s, k); op.ch in pl.carries && pl.carries[op.ch] == op.idx && Queue(s.chans, op.ch) != []
  {
    hide Sound, Uphill, Count, Queue;
    CurrentConnected(net, pl, s, k);
  }

  /** What a thread pushes is the value of the queue's index on the packet it is working on, and
      that packet is the next one the queue has not had. */
  lemma PushRight<C, K, P>(net: Cluster<C, K, P>, pl: Plumbing<K>, val: (int, nat) -> P, s: State<K, P>, k: K)
    requires Plumbed(net, pl) && Agrees(net, val) && Inv(net, pl, val, s) && CanStep(net, s, k) && CurrentOp(net, s, k).Push?
    ensures var op := CurrentOp(net, s, k);
            && op.idx in s.procs[k].buf && op.ch in pl.prod && pl.prod[op.ch] == k && pl.carries[op.ch] == op.idx
            && s.procs[k].pc <= |net.progs[k]|
            && s.procs[k].buf[op.idx] == val(op.idx, Done(net, s, k, true, op.ch))
  {
    hide Plumbed, Queue, Agrees, Count, QueueHolds, Inv;
    var op := CurrentOp(net, s, k);
    InHand(net, pl, val, s, k);
    CurrentConnected(net, pl, s, k);
    assert Uses(op)[0] == op.idx;
  }

  lemma WrittenNext<C, P>(prog: Prog<C>, n: nat, val: (int, nat) -> P, r: nat)
    requires n < |prog|
    ensures Written(prog[..n + 1], val, r) == Written(prog[..n], val, r) + (if prog[n].Write? then [val(prog[n].idx, r)] else [])
  {
    assert prog[..n + 1][..n] == prog[..n];
  }

  ghost function DiskAt<C, P>(prog: Prog<C>, val: (int, nat) -> P, p: Proc<P>): seq<P>
    requires p.pc <= |prog|
  {
    WrittenRounds(prog, val, p.round) + Written(prog[..p.pc], val, p.round)
  }

  lemma StepDisk<C, K, P>(net: Cluster<C, K, P>, pl: Plumbing<K>, val: (int, nat) -> P, s: State<K, P>, k: K)
    requires Plumbed(net, pl) && Agrees(net, val) && Inv(net, pl, val, s) && CanStep(net, s, k)
    requires Fits(net, Step(net, s, k)) && Step(net, s, k).procs[pl.sink].pc <= |net.progs[pl.sink]|
    ensures DiskIs(Step(net, s, k).disk, pl.target, DiskAt(net.progs[pl.sink], val, Step(net, s, k).procs[pl.sink]))
  {
    hide Plumbed, Queue, Agrees, QueueHolds, NewBuf, Count, ProcOk, DiskAt;
    var p, op, prog := s.procs[k], CurrentOp(net, s, k), net.progs[k];
    DiskNow(net, pl, val, s);
    CurrentConnected(net, pl, s, k);
    if k == pl.sink {
      InHand(net, pl, val, s, k);
      DiskStep(prog, val, p, Step(net, s, k).procs[k]);
      if op.Write? {
        assert Uses(op)[0] == op.idx;
      }
    }
  }

  lemma DiskNow<C, K, P>(net: Cluster<C, K, P>, pl: Plumbing<K>, val: (int, nat) -> P, s: State<K, P>)
    requires Plumbed(net, pl) && Inv(net, pl, val, s)
    ensures pl.sink in s.procs && s.procs[pl.sink].pc <= |net.progs[pl.sink]|
    ensures DiskIs(s.disk, pl.target, DiskAt(net.progs[pl.sink], val, s.procs[pl.sink]))
  {
    hide Queue, QueueHolds;
    PcInRound(net, pl, val, s, pl.sink);
  }

  lemma DiskStep<C, P>(prog: Prog<C>, val: (int, nat) -> P, p: Proc<P>, p': Proc<P>)
    requires p.pc < |prog|
    requires if p.pc + 1 == |prog| then p'.round == p.round + 1 && p'.pc == 0 else p'.round == p.round && p'.pc == p.pc + 1
    ensures var more := if prog[p.pc].Write? then [val(prog[p.pc].idx, p.round)] else [];
            DiskAt(prog, val, p') == DiskAt(prog, val, p) + more
  {
    WrittenNext(prog, p.pc, val, p.round);
    assert prog[..|prog|] == prog && prog[..0] == [];
  }

  lemma StepInv<C, K, P>(net: Cluster<C, K, P>, pl: Plumbing<K>, val: (int, nat) -> P, s: State<K, P>, k: K)
    requires Plumbed(net, pl) && Agrees(net, val) && Inv(net, pl, val, s) && CanStep(net, s, k)
    ensures Inv(net, pl, val, Step(net, s, k))
  {
    hide Agrees, QueueHolds, Count, Step, Queue, ProcOk, Written, WrittenRounds;
    var s' := Step(net, s, k);
    StepProc(net, pl, val, s, k);
    forall k2 | k2 in net.progs ensures s'.procs[k2].pc <= |net.progs[k2]| {
      RoundBounds(net.progs[k2], net.pktnum, val, s'.procs[k2]);
    }
    forall ch | ch in pl.prod
      ensures QueueHolds(Queue(s'.chans, ch), val, pl.carries[ch],
                         Done(net, s', pl.cons[ch], false, ch), Done(net, s', pl.prod[ch], true, ch))
    {
      StepQueue(net, pl, val, s, k, ch);
    }
    forall ch | ch !in pl.prod ensures Queue(s'.chans, ch) == [] {
      StepChan(net, s, k, ch);
      assert Connected(pl, k, net.progs[k][s.procs[k].pc]);
    }
    StepDisk(net, pl, val, s, k);
  }

  lemma RoundBounds<C, P>(prog: Prog<C>, pktnum: nat, val: (int, nat) -> P, p: Proc<P>)
    requires ProcOk(prog, pktnum, val, p)
    ensures p.pc <= |prog| && p.round <= pktnum
  {}

  // ---------------------------------------------------------------------------------------------
  // Every run

  lemma InitInv<C, K, P>(net: Cluster<C, K, P>, pl: Plumbing<K>, val: (int, nat) -> P)
    requires Plumbed(net, pl)
    ensures Inv(net, pl, val, Init(net))
  {
    hide Sound, Uphill, Connected;
    forall k | k in net.progs ensures net.progs[k][..0] == [] {}
  }

  /** Safety: in every interleaving, whatever has been pushed, popped or written so far is right. */
  lemma {:induction false} Safety<C, K, P>(net: Cluster<C, K, P>, pl: Plumbing<K>, val: (int, nat) -> P, sched: seq<K>)
    requires Plumbed(net, pl) && Agrees(net, val)
    ensures Exec(net, sched).Some? ==> Inv(net, pl, val, Exec(net, sched).value)
  {
    hide Plumbed, Agrees, Inv, Step, CanStep;
    if sched == [] {
      InitInv(net, pl, val);
    } else {
      Safety(net, pl, val, sched[..|sched| - 1]);
      if Exec(net, sched).Some? {
        StepInv(net, pl, val, Exec(net, sched[..|sched| - 1]).value, sched[|sched| - 1]);
      }
    }
  }

  lemma ReadyToUse<C, K, P>(net: Cluster<C, K, P>, pl: Plumbing<K>, val: (int, nat) -> P, s: State<K, P>, k: K)
    requires Plumbed(net, pl) && Inv(net, pl, val, s) && Running(net, s, k)
    ensures HasAll(s.procs[k].buf, Uses(CurrentOp(net, s, k)))
  {
    hide Uphill, Connected, Count, Queue, QueueHolds, Uses;
    var p, prog := s.procs[k], net.progs[k];
    assert ProcOk(prog, net.pktnum, val, p) && Sound(prog);
    forall i | 0 <= i < |Uses(prog[p.pc])| ensures Uses(prog[p.pc])[i] in p.buf {
      var v := Uses(prog[p.pc])[i];
      assert v in Defined(prog[..p.pc]);
    }
  }

  /** How near to the stored blocks the queue is that thread k waits on. */
  ghost function WaitRank<C, K, P>(net: Cluster<C, K, P>, pl: Plumbing<K>, s: State<K, P>, k: K): nat
    requires Fits(net, s) && Running(net, s, k)
  {
    var op := CurrentOp(net, s, k);
    if op.Pop? && op.ch in pl.rank then pl.rank[op.ch] else 0
  }

  ghost function RoundOf<K, P>(s: State<K, P>, k: K): nat
    requires k in s.procs
  {
    s.procs[k].round
  }

  /** A thread blocked on an empty queue waits for a thread that is in an earlier packet, or in the
      same packet and itself waiting nearer to the stored blocks, if it waits at all. */
  lemma Upstream<C, K, P>(net: Cluster<C, K, P>, pl: Plumbing<K>, val: (int, nat) -> P, s: State<K, P>, k: K) returns (k': K)
    requires Plumbed(net, pl) && Inv(net, pl, val, s) && Running(net, s, k) && !CanStep(net, s, k)
    ensures Running(net, s, k')
    ensures s.procs[k'].round < s.procs[k].round ||
            (s.procs[k'].round == s.procs[k].round && (CurrentOp(net, s, k').Pop? ==> WaitRank(net, pl, s, k') < WaitRank(net, pl, s, k)))
  {
    hide Sound, Count, Queue, ProcOk;
    ReadyToUse(net, pl, val, s, k);
    var op := CurrentOp(net, s, k);
    assert op.Pop? && Queue(s.chans, op.ch) == [];
    assert Connected(pl, k, net.progs[k][s.procs[k].pc]);
    QueueNow(net, pl, val, s, op.ch);
    UsedOnce(net.progs[k], s.procs[k].pc, false, op.ch);
    k' := pl.prod[op.ch];
    PcInRound(net, pl, val, s, k');
    var prog', pc' := net.progs[k'], s.procs[k'].pc;
    if s.procs[k'].round == s.procs[k].round && CurrentOp(net, s, k').Pop? {
      var j := PushPosition(prog', op.ch);
      assert Uphill(pl, prog');
    }
  }

  lemma {:induction false} PushPosition<C>(prog: Prog<C>, ch: Chan) returns (j: nat)
    requires Count(prog, true, ch) > 0
    ensures j < |prog| && IsOn(prog[j], true, ch)
  {
    j := |prog| - 1;
    if !IsOn(prog[j], true, ch) {
      j := PushPosition(prog[..j], ch);
    }
  }

  /** No deadlock: from any unfinished thread one finds a thread that can move. */
  lemma Progress<C, K, P>(net: Cluster<C, K, P>, pl: Plumbing<K>, val: (int, nat) -> P, s: State<K, P>, k: K) returns (mover: K)
    requires Plumbed(net, pl) && Inv(net, pl, val, s) && Running(net, s, k)
    ensures CanStep(net, s, mover)
    decreases RoundOf(s, k), CurrentOp(net, s, k).Pop?, WaitRank(net, pl, s, k)
  {
    hide Plumbed, Inv, CanStep, WaitRank;
    if CanStep(net, s, k) {
      mover := k;
    } else {
      Waiting(net, pl, val, s, k);
      var k' := Upstream(net, pl, val, s, k);
      mover := Progress(net, pl, val, s, k');
    }
  }

  lemma Waiting<C, K, P>(net: Cluster<C, K, P>, pl: Plumbing<K>, val: (int, nat) -> P, s: State<K, P>, k: K)
    requires Plumbed(net, pl) && Inv(net, pl, val, s) && Running(net, s, k) && !CanStep(net, s, k)
    ensures CurrentOp(net, s, k).Pop? && Queue(s.chans, CurrentOp(net, s, k).ch) == []
  {
    hide Plumbed, Queue, HasAll, QueueHolds, ProcOk;
    ReadyToUse(net, pl, val, s, k);
  }

  /** When all threads are done, every queue has had pktnum pushes and pktnum pops and is empty, and
      the block on disk is the sink's rows, packet by packet. */
  lemma FinalState<C, K, P>(net: Cluster<C, K, P>, pl: Plumbing<K>, val: (int, nat) -> P, s: State<K, P>)
    requires Plumbed(net, pl) && Inv(net, pl, val, s) && Finished(net, s)
    ensures forall ch :: Queue(s.chans, ch) == []
    ensures forall k | k in net.progs :: s.procs[k].round == net.pktnum && s.procs[k].pc == 0
    ensures DiskIs(s.disk, pl.target, WrittenRounds(net.progs[pl.sink], val, net.pktnum))
  {
    hide Plumbed, Connected, Queue, QueueHolds, Done, ProcOk, Inv, WrittenRounds, Written;
    forall k | k in net.progs ensures k in s.procs && s.procs[k].round == net.pktnum && s.procs[k].pc == 0 {
      ThreadEnded(net, pl, val, s, k);
    }
    forall ch ensures Queue(s.chans, ch) == [] {
      QueueEnded(net, pl, val, s, ch);
    }
    DiskEnded(net, pl, val, s);
  }

  lemma ThreadEnded<C, K, P>(net: Cluster<C, K, P>, pl: Plumbing<K>, val: (int, nat) -> P, s: State<K, P>, k: K)
    requires Plumbed(net, pl) && Inv(net, pl, val, s) && Finished(net, s) && k in net.progs
    ensures k in s.procs && s.procs[k].round == net.pktnum && s.procs[k].pc == 0
  {
    hide Plumbed, Queue, QueueHolds, Done;
    assert ProcOk(net.progs[k], net.pktnum, val, s.procs[k]) && !Running(net, s, k);
  }

  lemma QueueEnded<C, K, P>(net: Cluster<C, K, P>, pl: Plumbing<K>, val: (int, nat) -> P, s: State<K, P>, ch: Chan)
    requires Plumbed(net, pl) && Inv(net, pl, val, s) && Finished(net, s)
    ensures Queue(s.chans, ch) == []
  {
    hide Sound, Uphill, Connected, Queue, ProcOk, Finished;
    if ch in pl.prod {
      QueueNow(net, pl, val, s, ch);
      ThreadEnded(net, pl, val, s, pl.prod[ch]);
      ThreadEnded(net, pl, val, s, pl.cons[ch]);
      assert net.progs[pl.prod[ch]][..0] == [] && net.progs[pl.cons[ch]][..0] == [];
    }
  }

  lemma DiskEnded<C, K, P>(net: Cluster<C, K, P>, pl: Plumbing<K>, val: (int, nat) -> P, s: State<K, P>)
    requires Plumbed(net, pl) && Inv(net, pl, val, s) && Finished(net, s)
    ensures DiskIs(s.disk, pl.target, WrittenRounds(net.progs[pl.sink], val, net.pktnum))
  {
    hide Sound, Uphill, Connected, Queue, QueueHolds, Done, ProcOk, Finished, WrittenRounds;
    ThreadEnded(net, pl, val, s, pl.sink);
    assert net.progs[pl.sink][..0] == [];
  }

  // ---------------------------------------------------------------------------------------------
  // Termination: every step uses up one operation

  ghost function Pick<T>(s: set<T>): (x: T)
    requires s != {}
    ensures x in s
  {
    var x :| x in s; x
  }

  ghost function Times(a: nat, b: nat): nat {
    if a == 0 then 0 else b + Times(a - 1, b)
  }

  /** Operations thread k has still to execute. */
  ghost function Left<C, K, P>(net: Cluster<C, K, P>, s: State<K, P>, k: K): int
    requires k in net.progs && k in s.procs
  {
    if s.procs[k].round >= net.pktnum then 0 else Times(net.pktnum - s.procs[k].round, |net.progs[k]|) - s.procs[k].pc
  }

  ghost function LeftOver<C, K, P>(net: Cluster<C, K, P>, s: State<K, P>, ks: set<K>): int
    requires ks <= net.progs.Keys && ks <= s.procs.Keys
  {
    if ks == {} then 0 else var k := Pick(ks); Left(net, s, k) + LeftOver(net, s, ks - {k})
  }

  lemma StepLeft<C, K, P>(net: Cluster<C, K, P>, s: State<K, P>, k: K, k2: K)
    requires CanStep(net, s, k) && k2 in net.progs
    ensures k2 in Step(net, s, k).procs
    ensures Left(net, Step(net, s, k), k2) == Left(net, s, k2) - (if k2 == k then 1 else 0)
  {
    hide NewBuf;
    if k2 == k {
      var left: nat := net.pktnum - s.procs[k].round;
      assert Times(left, |net.progs[k]|) == |net.progs[k]| + Times(left - 1, |net.progs[k]|);
      assert Times(0, |net.progs[k]|) == 0;
    }
  }

  lemma {:induction false} StepLeftOver<C, K, P>(net: Cluster<C, K, P>, s: State<K, P>, k: K, ks: set<K>)
    requires CanStep(net, s, k) && ks <= net.progs.Keys
    ensures ks <= Step(net, s, k).procs.Keys
    ensures LeftOver(net, Step(net, s, k), ks) == LeftOver(net, s, ks) - (if k in ks then 1 else 0)
  {
    hide CanStep, Step, Left;
    forall k2 | k2 in ks ensures k2 in Step(net, s, k).procs {
      StepLeft(net, s, k, k2);
    }
    if ks != {} {
      var k2 := Pick(ks);
      StepLeft(net, s, k, k2);
      StepLeftOver(net, s, k, ks - {k2});
    }
  }

  lemma {:induction false} NothingOwed<C, K, P>(net: Cluster<C, K, P>, s: State<K, P>, ks: set<K>)
    requires ks <= net.progs.Keys && Fits(net, s)
    ensures LeftOver(net, s, ks) >= 0
    ensures (forall k | k in ks :: s.procs[k].round == net.pktnum) ==> LeftOver(net, s, ks) == 0
  {
    if ks != {} {
      var k := Pick(ks);
      NothingOwed(net, s, ks - {k});
    }
  }

  /** The length of every complete run: each thread executes its round pktnum times. */
  ghost function TotalWork<C, K, P>(net: Cluster<C, K, P>): int {
    LeftOver(net, Init(net), net.progs.Keys)
  }

  lemma {:induction false} RunLength<C, K, P>(net: Cluster<C, K, P>, sched: seq<K>)
    ensures Exec(net, sched).Some? ==>
      && Exec(net, sched).value.procs.Keys == net.progs.Keys
      && |sched| + LeftOver(net, Exec(net, sched).value, net.progs.Keys) == TotalWork(net)
  {
    hide CanStep, Step, LeftOver;
    if sched == [] {
    } else {
      RunLength(net, sched[..|sched| - 1]);
      if Exec(net, sched).Some? {
        var s, k := Exec(net, sched[..|sched| - 1]).value, sched[|sched| - 1];
        StepLeftOver(net, s, k, net.progs.Keys);
        StepKeys(net, s, k);
      }
    }
  }

  lemma StepKeys<C, K, P>(net: Cluster<C, K, P>, s: State<K, P>, k: K)
    requires CanStep(net, s, k)
    ensures Step(net, s, k).procs.Keys == net.progs.Keys && k in net.progs
  {
    hide NewBuf;
  }

  lemma LeftWhenUnfinished<C, K, P>(net: Cluster<C, K, P>, s: State<K, P>, k: K)
    requires Fits(net, s) && Running(net, s, k)
    ensures Left(net, s, k) > 0
  {
    assert Times(net.pktnum - s.procs[k].round, |net.progs[k]|) >= |net.progs[k]|;
  }

  lemma {:induction false} SomethingOwed<C, K, P>(net: Cluster<C, K, P>, s: State<K, P>, ks: set<K>, k: K)
    requires ks <= net.progs.Keys && Fits(net, s) && k in ks && Running(net, s, k)
    ensures LeftOver(net, s, ks) > 0
  {
    var k2 := Pick(ks);
    NothingOwed(net, s, ks - {k2});
    if k2 == k {
      LeftWhenUnfinished(net, s, k);
    } else {
      SomethingOwed(net, s, ks - {k2}, k);
      if Running(net, s, k2) { LeftWhenUnfinished(net, s, k2); }
    }
  }

  /** The main theorem on a well-plumbed cluster, for every interleaving: all packets are right, the run
      can be continued until all threads are done, that takes exactly TotalWork steps, and then every
      queue is empty and the block on disk is complete. */
  lemma EveryRun<C, K, P>(net: Cluster<C, K, P>, pl: Plumbing<K>, val: (int, nat) -> P, sched: seq<K>, s: State<K, P>)
    requires Plumbed(net, pl) && Agrees(net, val) && Exec(net, sched) == Some(s)
    ensures Inv(net, pl, val, s) && |sched| <= TotalWork(net)
    ensures Finished(net, s) <==> |sched| == TotalWork(net)
    ensures !Finished(net, s) ==> exists k :: k in net.progs && CanStep(net, s, k)
    ensures Finished(net, s) ==>
      (forall ch :: Queue(s.chans, ch) == []) && DiskIs(s.disk, pl.target, WrittenRounds(net.progs[pl.sink], val, net.pktnum))
  {
    hide Plumbed, Agrees, CanStep, Queue, LeftOver, WrittenRounds, QueueHolds, Inv;
    Safety(net, pl, val, sched);
    RunLength(net, sched);
    InvFits(net, pl, val, s);
    NothingOwed(net, s, net.progs.Keys);
    if Finished(net, s) {
      FinalState(net, pl, val, s);
    } else {
      var k :| k in net.progs && Running(net, s, k);
      SomethingOwed(net, s, net.progs.Keys, k);
      var mover := Progress(net, pl, val, s, k);
      MoverRuns(net, s, mover);
    }
  }

  lemma InvFits<C, K, P>(net: Cluster<C, K, P>, pl: Plumbing<K>, val: (int, nat) -> P, s: State<K, P>)
    requires Plumbed(net, pl) && Inv(net, pl, val, s)
    ensures Fits(net, s)
  {}

  lemma MoverRuns<C, K, P>(net: Cluster<C, K, P>, s: State<K, P>, k: K)
    requires CanStep(net, s, k)
    ensures k in net.progs
  {}

  // ---------------------------------------------------------------------------------------------
  // Two threads draining one queue

  ghost predicate Contended<C, K, P>(net: Cluster<C, K, P>, ch: Chan, p: K, k1: K, k2: K) {
    && k1 != k2 && k1 in net.progs && k2 in net.progs && p in net.progs
    && (forall k | k in net.progs :: net.progs[k] != [])
    && (forall k | k in net.progs && k != p :: Count(net.progs[k], true, ch) == 0)
    && Count(net.progs[p], true, ch) == 1
    && Count(net.progs[k1], false, ch) == 1 && Count(net.progs[k2], false, ch) == 1
  }

  ghost predicate InRounds<C, K, P>(net: Cluster<C, K, P>, s: State<K, P>) {
    && Fits(net, s)
    && (forall k | k in net.progs :: s.procs[k].pc <= |net.progs[k]| && s.procs[k].round <= net.pktnum)
    && (forall k | k in net.progs :: s.procs[k].round == net.pktnum ==> s.procs[k].pc == 0)
  }

  /** Both consumers together never get more than the one producer has pushed. */
  ghost predicate Shared<C, K, P>(net: Cluster<C, K, P>, ch: Chan, p: K, k1: K, k2: K, s: State<K, P>) {
    && InRounds(net, s) && p in net.progs && k1 in net.progs && k2 in net.progs
    && Done(net, s, k1, false, ch) + Done(net, s, k2, false, ch) + |Queue(s.chans, ch)| <= Done(net, s, p, true, ch)
  }

  lemma StepInRounds<C, K, P>(net: Cluster<C, K, P>, s: State<K, P>, k: K)
    requires InRounds(net, s) && CanStep(net, s, k) && forall k | k in net.progs :: net.progs[k] != []
    ensures InRounds(net, Step(net, s, k))
  {
    hide NewBuf;
  }

  lemma NoPush<C>(prog: Prog<C>, n: nat, ch: Chan)
    requires n < |prog| && Count(prog, true, ch) == 0
    ensures !IsOn(prog[n], true, ch)
  {
    CountNext(prog, n, true, ch);
    CountGrows(prog, n + 1, true, ch);
  }

  lemma StepShared<C, K, P>(net: Cluster<C, K, P>, ch: Chan, p: K, k1: K, k2: K, s: State<K, P>, k: K)
    requires Contended(net, ch, p, k1, k2) && Shared(net, ch, p, k1, k2, s) && CanStep(net, s, k)
    ensures Shared(net, ch, p, k1, k2, Step(net, s, k))
  {
    hide Step, Queue, Done, Count;
    StepInRounds(net, s, k);
    StepDone(net, s, k, k1, false, ch);
    StepDone(net, s, k, k2, false, ch);
    StepDone(net, s, k, p, true, ch);
    StepChan(net, s, k, ch);
    if k != p {
      NoPush(net.progs[k], s.procs[k].pc, ch);
    }
  }

  /** A queue that two threads drain but one thread fills, one packet each per round, starves one of
      them: no run of the cluster ever finishes. */
  lemma {:induction false} Starves<C, K, P>(net: Cluster<C, K, P>, ch: Chan, p: K, k1: K, k2: K, sched: seq<K>)
    requires Contended(net, ch, p, k1, k2) && net.pktnum > 0
    ensures Exec(net, sched).Some? ==>
      && Shared(net, ch, p, k1, k2, Exec(net, sched).value)
      && !Finished(net, Exec(net, sched).value)
  {
    hide Contended, CanStep, Step;
    if sched == [] {
      SharedInit(net, ch, p, k1, k2);
    } else {
      Starves(net, ch, p, k1, k2, sched[..|sched| - 1]);
      if Exec(net, sched).Some? {
        StepShared(net, ch, p, k1, k2, Exec(net, sched[..|sched| - 1]).value, sched[|sched| - 1]);
      }
    }
    if Exec(net, sched).Some? {
      SharedUnfinished(net, ch, p, k1, k2, Exec(net, sched).value);
    }
  }

  lemma SharedInit<C, K, P>(net: Cluster<C, K, P>, ch: Chan, p: K, k1: K, k2: K)
    requires Contended(net, ch, p, k1, k2)
    ensures Shared(net, ch, p, k1, k2, Init(net))
  {
    assert net.progs[k1][..0] == [] && net.progs[k2][..0] == [] && net.progs[p][..0] == [];
  }

  lemma SharedUnfinished<C, K, P>(net: Cluster<C, K, P>, ch: Chan, p: K, k1: K, k2: K, s: State<K, P>)
    requires Shared(net, ch, p, k1, k2, s) && net.pktnum > 0
    ensures !Finished(net, s)
  {
    hide Queue;
    assert net.progs[p][..0] == [];
  }
}
