/** The conventional repair of Hitchhiker-XOR+ (DecodeMultiple in src/ec/HHXORPlus.cc): lost nodes from k others. */
module HitchhikerMany {
  import opened Galois
  import opened HitchhikerDag
  import opened HitchhikerRepair
  import opened HitchhikerSpec

  /** The data nodes and the parity nodes that are used, and the lost nodes. */
  datatype Loss = Loss(data: seq<nat>, parities: seq<nat>, lost: seq<nat>) {
    function Used(i: nat): nat
      requires i < |data| + |parities|
    {
      if i < |data| then data[i] else parities[i - |data|]
    }
  }

  ghost predicate Ascending(s: seq<nat>) {
    forall i, j | 0 <= i < j < |s| :: s[i] < s[j]
  }

  ghost predicate LossFits(p: Params, x: Loss) {
    && p.Fits() && |x.data| + |x.parities| == p.k && Ascending(x.data) && Ascending(x.parities) && Ascending(x.lost)
    && (forall i | 0 <= i < |x.data| :: x.data[i] < p.k) && (forall i | 0 <= i < |x.parities| :: p.k <= x.parities[i] < p.n)
    && (forall i | 0 <= i < |x.lost| :: x.lost[i] < p.n && x.lost[i] !in x.data && x.lost[i] !in x.parities)
  }

  // ---------------------------------------------------------------------------------------------
  // The steps of the repair

  /** A symbol without its group code, a lost symbol before it is coupled, a group's code, or a coupled symbol. */
  datatype Step = FirstApart | Back(sp: nat, node: nat) | Code(g: nat) | Apart(g: nat) | FirstCouple | LaterCouple(g: nat)

  ghost predicate StepFits(p: Params, x: Loss, s: Step)
    requires p.Fits()
  {
    match s
    case FirstApart => p.k + 1 in x.parities
    case Back(sp, node) => sp < 2 && node in x.lost
    case Code(g) => 1 <= g <= p.Groups() && (p.k + g in x.lost || p.k + g in x.parities)
    case Apart(g) => 1 <= g <= p.Groups() && p.k + g in x.parities
    case FirstCouple => p.k + 1 in x.lost
    case LaterCouple(g) => 1 <= g <= p.Groups() && p.k + g in x.lost
  }

  /** Where a node's sub-packet is before the parities are coupled. */
  function PlainAt(p: Params, sp: nat, node: nat): nat
    requires p.Fits()
  {
    if node < p.k then DataAt(p, sp, node) else UncoupledAt(p, sp, node - p.k)
  }

  function UsedAt(p: Params, x: Loss, sp: nat): (r: seq<nat>)
    requires p.Fits() && |x.data| + |x.parities| == p.k
    ensures |r| == p.k && forall i | 0 <= i < p.k :: r[i] == PlainAt(p, sp, x.Used(i))
  {
    seq(p.k, i requires 0 <= i < p.k => PlainAt(p, sp, x.Used(i)))
  }

  function UsedRows<F(!new)>(p: Params, f: GF<F>, x: Loss): (m: seq<seq<F>>)
    requires |x.data| + |x.parities| == p.k
    ensures Shaped(m, p.k, p.k) && forall i | 0 <= i < p.k :: m[i] == CodeRow(p, f, x.Used(i))
  {
    seq(p.k, i requires 0 <= i < p.k => CodeRow(p, f, x.Used(i)))
  }

  ghost predicate Solvable<F(!new)>(p: Params, f: GF<F>, s: Solver<F>, x: Loss) {
    LossFits(p, x) && Shaped(s.invert(UsedRows(p, f, x)), p.k, p.k)
  }

  /** The symbol that a step computes. */
  function PlaceOf(p: Params, step: Step): nat
    requires p.Fits()
  {
    match step
    case FirstApart => UncoupledAt(p, 0, 1)
    case Back(sp, node) => PlainAt(p, sp, node)
    case Code(g) => GroupAt(p, g)
    case Apart(g) => UncoupledAt(p, 1, g)
    case FirstCouple => CodeAt(p, 0, 1)
    case LaterCouple(g) => CodeAt(p, 1, g)
  }

  ghost function SourcesOf(p: Params, x: Loss, step: Step): seq<nat>
    requires LossFits(p, x) && StepFits(p, x, step)
  {
    match step
    case FirstApart => [CodeAt(p, 0, 1), CodeAt(p, 1, 1)]
    case Back(sp, node) => UsedAt(p, x, sp)
    case Code(g) => Places(p, 0, Members(p, g))
    case Apart(g) => [CodeAt(p, 1, g), GroupAt(p, g)]
    case FirstCouple => [UncoupledAt(p, 0, 1), UncoupledAt(p, 1, 1), GroupAt(p, 1)]
    case LaterCouple(g) => [UncoupledAt(p, 1, g), GroupAt(p, g)]
  }

  ghost function CoefsOf<F(!new)>(p: Params, s: Solver<F>, f: GF<F>, x: Loss, step: Step): seq<F>
    requires Solvable(p, f, s, x) && StepFits(p, x, step)
  {
    match step
    case Back(sp, node) => VecMat(f, CodeRow(p, f, node), s.invert(UsedRows(p, f, x)), p.k)
    case Code(g) => GroupLine(p, f, g)
    case FirstCouple => [f.one, f.one, f.one]
    case _ => [f.one, f.one]
  }

  ghost function Op<F(!new)>(p: Params, s: Solver<F>, f: GF<F>, x: Loss, step: Step): Combination<F>
    requires Solvable(p, f, s, x) && StepFits(p, x, step)
  {
    Combination(PlaceOf(p, step), SourcesOf(p, x, step), CoefsOf(p, s, f, x, step))
  }

  ghost predicate AllFit(p: Params, x: Loss, steps: seq<Step>)
    requires p.Fits()
  {
    forall i | 0 <= i < |steps| :: StepFits(p, x, steps[i])
  }

  ghost function OpsOf<F(!new)>(p: Params, s: Solver<F>, f: GF<F>, x: Loss, steps: seq<Step>): (r: seq<Combination<F>>)
    requires Solvable(p, f, s, x) && AllFit(p, x, steps)
    ensures |r| == |steps| && forall i | 0 <= i < |r| :: r[i] == Op(p, s, f, x, steps[i])
  {
    seq(|steps|, i requires 0 <= i < |steps| => Op(p, s, f, x, steps[i]))
  }

  // ---------------------------------------------------------------------------------------------
  // Their order

  /** When a step is taken. */
  function Time(p: Params, x: Loss, s: Step): nat {
    match s
    case FirstApart => 1
    case Back(sp, node) => if sp == 0 then 2 + 2 * node else 4 * p.n + 2 + node
    case Code(g) => if p.k + g in x.lost then 3 + 2 * (p.k + g) else 2 * p.n + 2 + 2 * (p.k + g)
    case Apart(g) => 2 * p.n + 3 + 2 * (p.k + g)
    case FirstCouple => 5 * p.n + 2
    case LaterCouple(g) => 5 * p.n + 2 + g
  }

  function AllTime(p: Params): nat {
    6 * p.n + 3
  }

  /** When a symbol is computed, or 0 if it is not. */
  function Computed(p: Params, x: Loss, place: nat): nat
    requires p.Fits()
  {
    if place < p.n then
      if place != p.k + 1 then (if place in x.lost then 2 + 2 * place else 0) else if p.k + 1 in x.lost then 5 * p.n + 2 else 0
    else if place < 2 * p.n then
      var node := place - p.n;
      if node !in x.lost then 0 else if node <= p.k then 4 * p.n + 2 + node else 5 * p.n + 2 + (node - p.k)
    else if place == 2 * p.n then
      if p.k + 1 in x.parities then 1 else if p.k + 1 in x.lost then 2 + 2 * (p.k + 1) else 0
    else if place <= 2 * p.n + p.Groups() then
      var node := p.k + (place - 2 * p.n);
      if node in x.lost then 3 + 2 * node else if node in x.parities then 2 * p.n + 2 + 2 * node else 0
    else if place <= 2 * p.n + 2 * p.Groups() then
      var node := p.k + (place - 2 * p.n - p.Groups());
      if node in x.lost then 4 * p.n + 2 + node else if node in x.parities then 2 * p.n + 3 + 2 * node else 0
    else 0
  }

  lemma InRange(p: Params, x: Loss, node: nat)
    requires LossFits(p, x)
    ensures p.Fits()
    ensures node in x.lost ==> node < p.n && node !in x.data && node !in x.parities
    ensures node in x.data ==> node < p.k
    ensures node in x.parities ==> p.k <= node < p.n
  {}

  lemma PlainTime(p: Params, x: Loss, sp: nat, node: nat)
    requires LossFits(p, x) && sp < 2 && node < p.n
    ensures Computed(p, x, PlainAt(p, sp, node)) ==
              if node in x.lost then (if sp == 0 then 2 + 2 * node else 4 * p.n + 2 + node)
              else if node !in x.parities || node == p.k || (sp == 0 && node != p.k + 1) then 0
              else if sp == 0 then 1 else 2 * p.n + 3 + 2 * node
  {
    InRange(p, x, node);
    hide LossFits;
  }

  lemma CodeTime(p: Params, x: Loss, g: nat)
    requires LossFits(p, x) && 1 <= g <= p.Groups()
    ensures Computed(p, x, GroupAt(p, g)) ==
              if p.k + g in x.lost then 3 + 2 * (p.k + g) else if p.k + g in x.parities then 2 * p.n + 2 + 2 * (p.k + g) else 0
  {
    hide LossFits;
  }

  lemma CoupledTime(p: Params, x: Loss, g: nat)
    requires LossFits(p, x) && 1 <= g <= p.Groups()
    ensures Computed(p, x, CodeAt(p, 1, g)) == if p.k + g in x.lost then 5 * p.n + 2 + g else 0
    ensures Computed(p, x, CodeAt(p, 0, 1)) == if p.k + 1 in x.lost then 5 * p.n + 2 else 0
  {
    hide LossFits;
  }

  lemma UncoupledIsPlain(p: Params, sp: nat, g: nat)
    requires p.Fits()
    ensures UncoupledAt(p, sp, g) == PlainAt(p, sp, p.k + g)
  {}

  lemma TargetTime(p: Params, x: Loss, step: Step)
    requires LossFits(p, x) && StepFits(p, x, step)
    ensures Computed(p, x, PlaceOf(p, step)) == Time(p, x, step) && 0 < Time(p, x, step) < AllTime(p)
  {
    StepNode(p, x, step);
    if step.FirstApart? || step.Back? || step.Apart? {
      PlainTarget(p, x, step);
    } else {
      hide LossFits, Computed, CodeAt, GroupAt;
      match step
      case Code(g) => { CodeTime(p, x, g); }
      case FirstCouple => { CoupledTime(p, x, 1); }
      case LaterCouple(g) => { CoupledTime(p, x, g); }
    }
  }

  lemma PlainTarget(p: Params, x: Loss, step: Step)
    requires LossFits(p, x) && StepFits(p, x, step) && (step.FirstApart? || step.Back? || step.Apart?)
    ensures Computed(p, x, PlaceOf(p, step)) == Time(p, x, step) && 0 < Time(p, x, step) < AllTime(p)
  {
    StepNode(p, x, step);
    hide LossFits, Computed, PlainAt, UncoupledAt;
    match step
    case FirstApart => {
      UncoupledIsPlain(p, 0, 1);
      PlainTime(p, x, 0, p.k + 1);
    }
    case Back(sp, node) => { PlainTime(p, x, sp, node); }
    case Apart(g) => {
      UncoupledIsPlain(p, 1, g);
      PlainTime(p, x, 1, p.k + g);
    }
  }

  /** The node that a step works for. */
  function NodeOf(p: Params, step: Step): nat {
    match step
    case FirstApart => p.k + 1
    case Back(sp, node) => node
    case Code(g) => p.k + g
    case Apart(g) => p.k + g
    case FirstCouple => p.k + 1
    case LaterCouple(g) => p.k + g
  }

  lemma StepNode(p: Params, x: Loss, step: Step)
    requires LossFits(p, x) && StepFits(p, x, step)
    ensures var node := NodeOf(p, step); node < p.n && !(node in x.lost && node in x.parities) && (node in x.lost || node in x.parities)
    ensures p.Fits() && p.Groups() >= 2
  {
    InRange(p, x, NodeOf(p, step));
  }

  /** What a step uses is given or was computed before. */
  lemma SourceTime(p: Params, x: Loss, step: Step, i: nat)
    requires LossFits(p, x) && StepFits(p, x, step) && i < |SourcesOf(p, x, step)|
    ensures Computed(p, x, SourcesOf(p, x, step)[i]) < Time(p, x, step)
  {
    match step
    case FirstApart => { ApartTime(p, x, step, 1, i); }
    case Back(sp, node) => { BackTime(p, x, sp, node, i); }
    case Code(g) => { MemberTime(p, x, g, i); }
    case Apart(g) => { ApartTime(p, x, step, g, i); }
    case FirstCouple => { CoupleTime(p, x, step, 1, i); }
    case LaterCouple(g) => { CoupleTime(p, x, step, g, i); }
  }

  lemma ApartTime(p: Params, x: Loss, step: Step, g: nat, i: nat)
    requires LossFits(p, x) && StepFits(p, x, step) && i < 2 && (step == Apart(g) || (step == FirstApart && g == 1))
    ensures Computed(p, x, SourcesOf(p, x, step)[i]) < Time(p, x, step)
  {
    StepNode(p, x, step);
    hide LossFits, Computed, CodeAt, GroupAt;
    CoupledTime(p, x, g);
    CodeTime(p, x, g);
  }

  lemma CoupleTime(p: Params, x: Loss, step: Step, g: nat, i: nat)
    requires LossFits(p, x) && StepFits(p, x, step) && (step == LaterCouple(g) || (step == FirstCouple && g == 1)) && i < |SourcesOf(p, x, step)|
    ensures Computed(p, x, SourcesOf(p, x, step)[i]) < Time(p, x, step)
  {
    StepNode(p, x, step);
    hide LossFits, Computed, UncoupledAt, GroupAt;
    CouplesTime(p, x, g);
  }

  lemma CouplesTime(p: Params, x: Loss, g: nat)
    requires LossFits(p, x) && 1 <= g <= p.Groups() && p.k + g in x.lost && p.k + g < p.n
    ensures Computed(p, x, UncoupledAt(p, 0, g)) < 5 * p.n + 2 && Computed(p, x, UncoupledAt(p, 1, g)) < 5 * p.n + 2
    ensures Computed(p, x, GroupAt(p, g)) < 5 * p.n + 2
  {
    InRange(p, x, p.k + g);
    hide LossFits, Computed, PlainAt, UncoupledAt, GroupAt;
    UncoupledIsPlain(p, 0, g);
    UncoupledIsPlain(p, 1, g);
    PlainTime(p, x, 0, p.k + g);
    PlainTime(p, x, 1, p.k + g);
    CodeTime(p, x, g);
  }

  lemma BackTime(p: Params, x: Loss, sp: nat, node: nat, i: nat)
    requires LossFits(p, x) && StepFits(p, x, Back(sp, node)) && i < p.k
    ensures Computed(p, x, SourcesOf(p, x, Back(sp, node))[i]) < Time(p, x, Back(sp, node))
  {
    var used := x.Used(i);
    UsedIn(p, x, i);
    InRange(p, x, used);
    hide LossFits, Computed, PlainAt;
    PlainTime(p, x, sp, used);
  }

  lemma UsedIn(p: Params, x: Loss, i: nat)
    requires LossFits(p, x) && i < p.k
    ensures x.Used(i) < p.n && x.Used(i) !in x.lost && (x.Used(i) in x.data || x.Used(i) in x.parities)
  {
    if i < |x.data| { assert x.data[i] in x.data; } else { assert x.parities[i - |x.data|] in x.parities; }
    InRange(p, x, x.Used(i));
  }

  lemma MemberTime(p: Params, x: Loss, g: nat, i: nat)
    requires LossFits(p, x) && 1 <= g <= p.Groups() && i < |Members(p, g)|
    ensures Places(p, 0, Members(p, g))[i] == Members(p, g)[i] < p.k
    ensures Computed(p, x, Members(p, g)[i]) <= 2 * p.k
  {
    hide LossFits, Average, Start, End;
  }

  // ---------------------------------------------------------------------------------------------
  // One step after the other

  /** Exactly the steps before time t have been taken. */
  ghost predicate TakenUpto(p: Params, x: Loss, steps: seq<Step>, t: nat)
    requires p.Fits()
  {
    forall s :: s in steps <==> StepFits(p, x, s) && Time(p, x, s) < t
  }

  lemma UptoFits(p: Params, x: Loss, steps: seq<Step>, t: nat)
    requires p.Fits() && TakenUpto(p, x, steps, t)
    ensures AllFit(p, x, steps)
  {
    forall i | 0 <= i < |steps| ensures StepFits(p, x, steps[i]) {
      assert steps[i] in steps;
    }
  }

  /** The next step computes a symbol that was neither computed nor used. */
  lemma StepIsNew<F(!new)>(p: Params, s: Solver<F>, f: GF<F>, x: Loss, steps: seq<Step>, t: nat, step: Step)
    requires Solvable(p, f, s, x) && TakenUpto(p, x, steps, t) && StepFits(p, x, step) && t <= Time(p, x, step)
    ensures AllFit(p, x, steps) && Avoids(OpsOf(p, s, f, x, steps), PlaceOf(p, step)) && PlaceOf(p, step) !in SourcesOf(p, x, step)
  {
    UptoFits(p, x, steps, t);
    TargetTime(p, x, step);
    UsesEarlier(p, x, step, step);
    hide UsedRows, Time, Computed, PlaceOf, SourcesOf, CoefsOf, StepFits, LossFits;
    forall i | 0 <= i < |steps| ensures PlaceOf(p, steps[i]) != PlaceOf(p, step) && PlaceOf(p, step) !in SourcesOf(p, x, steps[i]) {
      assert steps[i] in steps;
      TargetTime(p, x, steps[i]);
      UsesEarlier(p, x, steps[i], step);
    }
  }

  lemma UsesEarlier(p: Params, x: Loss, earlier: Step, later: Step)
    requires LossFits(p, x) && StepFits(p, x, earlier) && StepFits(p, x, later) && Time(p, x, earlier) <= Time(p, x, later)
    ensures PlaceOf(p, later) !in SourcesOf(p, x, earlier)
  {
    InRange(p, x, 0);
    hide Time, Computed, PlaceOf, SourcesOf, StepFits, LossFits;
    TargetTime(p, x, later);
    forall i | 0 <= i < |SourcesOf(p, x, earlier)| ensures SourcesOf(p, x, earlier)[i] != PlaceOf(p, later) {
      SourceTime(p, x, earlier, i);
    }
  }

  lemma UptoNext(p: Params, x: Loss, steps: seq<Step>, t: nat, step: Step, t': nat)
    requires p.Fits() && TakenUpto(p, x, steps, t) && StepFits(p, x, step) && t <= Time(p, x, step) < t'
    requires forall s | StepFits(p, x, s) && t <= Time(p, x, s) < t' :: s == step
    ensures TakenUpto(p, x, steps + [step], t')
  {
    hide Time, StepFits;
  }

  lemma UptoSkip(p: Params, x: Loss, steps: seq<Step>, t: nat, t': nat)
    requires p.Fits() && TakenUpto(p, x, steps, t) && t <= t'
    requires forall s | StepFits(p, x, s) :: !(t <= Time(p, x, s) < t')
    ensures TakenUpto(p, x, steps, t')
  {
    hide Time, StepFits;
  }

  lemma NothingYet(p: Params, x: Loss)
    requires LossFits(p, x)
    ensures TakenUpto(p, x, [], 1)
  {
    forall s | StepFits(p, x, s) ensures Time(p, x, s) > 0 { TargetTime(p, x, s); }
  }

  /** Which step is taken at which time. */
  lemma StepAt(p: Params, x: Loss, s: Step, node: nat)
    requires LossFits(p, x) && StepFits(p, x, s) && node < p.n
    ensures Time(p, x, s) >= 1 && (Time(p, x, s) == 1 ==> s == FirstApart)
    ensures Time(p, x, s) == 2 + 2 * node ==> s == Back(0, node)
    ensures Time(p, x, s) == 3 + 2 * node ==> node > p.k && s == Code(node - p.k) && node in x.lost
    ensures Time(p, x, s) == 2 * p.n + 2 + 2 * node ==> node > p.k && s == Code(node - p.k) && node in x.parities
    ensures Time(p, x, s) == 2 * p.n + 3 + 2 * node ==> node > p.k && s == Apart(node - p.k)
    ensures Time(p, x, s) == 4 * p.n + 2 + node ==> s == Back(1, node)
    ensures Time(p, x, s) == 5 * p.n + 2 ==> s == FirstCouple
    ensures node > p.k && Time(p, x, s) == 5 * p.n + 2 + (node - p.k) ==> s == LaterCouple(node - p.k)
  {
    StepNode(p, x, s);
    hide LossFits;
  }

  lemma StepWhen(p: Params, x: Loss, s: Step)
    requires LossFits(p, x) && StepFits(p, x, s)
    ensures var t, node := Time(p, x, s), NodeOf(p, s);
            node < p.n && (t == 1 || t == 2 + 2 * node || t == 3 + 2 * node || t == 2 * p.n + 2 + 2 * node || t == 2 * p.n + 3 + 2 * node
                           || t == 4 * p.n + 2 + node || t == 5 * p.n + 2 || (node > p.k && t == 5 * p.n + 2 + (node - p.k)))
  {
    StepNode(p, x, s);
    hide LossFits;
  }

  lemma OneAt(p: Params, x: Loss, a: Step, b: Step)
    requires LossFits(p, x) && StepFits(p, x, a) && StepFits(p, x, b) && Time(p, x, a) == Time(p, x, b)
    ensures a == b
  {
    StepWhen(p, x, a);
    StepAt(p, x, a, NodeOf(p, a));
    StepAt(p, x, b, NodeOf(p, a));
    hide LossFits, Time, StepFits;
  }

  /** The step of time t is taken. */
  lemma Took(p: Params, x: Loss, steps: seq<Step>, step: Step)
    requires LossFits(p, x) && StepFits(p, x, step) && TakenUpto(p, x, steps, Time(p, x, step))
    ensures TakenUpto(p, x, steps + [step], Time(p, x, step) + 1)
  {
    hide Time, StepFits, TakenUpto;
    forall s | StepFits(p, x, s) && Time(p, x, s) == Time(p, x, step) ensures s == step {
      OneAt(p, x, s, step);
    }
    UptoNext(p, x, steps, Time(p, x, step), step, Time(p, x, step) + 1);
  }

  lemma NoneBetween(list: seq<nat>, node: nat, j: nat)
    requires Ascending(list) && node in list && j <= |list| && (j > 0 ==> list[j - 1] < node)
    ensures j < |list| && list[j] <= node
  {
    var i :| 0 <= i < |list| && list[i] == node;
  }

  /** The next node of a list, or the number of nodes. */
  function NodeFrom(p: Params, list: seq<nat>, j: nat): nat {
    if j < |list| then list[j] else p.n
  }

  function NodeAfter(list: seq<nat>, j: nat): nat
    requires j <= |list|
  {
    if j == 0 then 0 else list[j - 1] + 1
  }

  lemma LostNext(p: Params, x: Loss, node: nat, j: nat)
    requires LossFits(p, x) && j <= |x.lost| && node in x.lost && node >= NodeAfter(x.lost, j)
    ensures node >= NodeFrom(p, x.lost, j)
  {
    NoneBetween(x.lost, node, j);
  }

  lemma ParityNext(p: Params, x: Loss, node: nat, j: nat)
    requires LossFits(p, x) && j <= |x.parities| && node in x.parities && node >= NodeAfter(x.parities, j)
    ensures node >= NodeFrom(p, x.parities, j)
  {
    NoneBetween(x.parities, node, j);
  }

  // No step falls between those for one node of a list and those for the next.

  lemma FirstGap(p: Params, x: Loss, steps: seq<Step>, j: nat)
    requires LossFits(p, x) && j <= |x.lost| && TakenUpto(p, x, steps, 2 + 2 * NodeAfter(x.lost, j))
    ensures TakenUpto(p, x, steps, 2 + 2 * NodeFrom(p, x.lost, j))
  {
    LostInOrder(p, x, j);
    forall s | StepFits(p, x, s) ensures !(2 + 2 * NodeAfter(x.lost, j) <= Time(p, x, s) < 2 + 2 * NodeFrom(p, x.lost, j)) {
      StepNode(p, x, s);
      if NodeOf(p, s) in x.lost && NodeOf(p, s) >= NodeAfter(x.lost, j) { LostNext(p, x, NodeOf(p, s), j); }
      hide LossFits;
    }
    hide LossFits, Time, StepFits;
    UptoSkip(p, x, steps, 2 + 2 * NodeAfter(x.lost, j), 2 + 2 * NodeFrom(p, x.lost, j));
  }

  lemma LostInOrder(p: Params, x: Loss, j: nat)
    requires LossFits(p, x) && j <= |x.lost|
    ensures NodeAfter(x.lost, j) <= NodeFrom(p, x.lost, j) <= p.n
  {}

  lemma ParitiesInOrder(p: Params, x: Loss, j: nat)
    requires LossFits(p, x) && j <= |x.parities|
    ensures NodeAfter(x.parities, j) <= NodeFrom(p, x.parities, j) <= p.n
  {}

  lemma ApartGap(p: Params, x: Loss, steps: seq<Step>, j: nat)
    requires LossFits(p, x) && j <= |x.parities| && TakenUpto(p, x, steps, 2 * p.n + 2 + 2 * NodeAfter(x.parities, j))
    ensures TakenUpto(p, x, steps, 2 * p.n + 2 + 2 * NodeFrom(p, x.parities, j))
  {
    ParitiesInOrder(p, x, j);
    var a, b := 2 * p.n + 2 + 2 * NodeAfter(x.parities, j), 2 * p.n + 2 + 2 * NodeFrom(p, x.parities, j);
    forall s | StepFits(p, x, s) ensures !(a <= Time(p, x, s) < b) {
      StepNode(p, x, s);
      if NodeOf(p, s) in x.parities && NodeOf(p, s) >= NodeAfter(x.parities, j) { ParityNext(p, x, NodeOf(p, s), j); }
      hide LossFits;
    }
    hide LossFits, Time, StepFits;
    UptoSkip(p, x, steps, a, b);
  }

  lemma SecondGap(p: Params, x: Loss, steps: seq<Step>, j: nat)
    requires LossFits(p, x) && j <= |x.lost| && TakenUpto(p, x, steps, 4 * p.n + 2 + NodeAfter(x.lost, j))
    ensures TakenUpto(p, x, steps, 4 * p.n + 2 + NodeFrom(p, x.lost, j))
  {
    LostInOrder(p, x, j);
    var a, b := 4 * p.n + 2 + NodeAfter(x.lost, j), 4 * p.n + 2 + NodeFrom(p, x.lost, j);
    forall s | StepFits(p, x, s) ensures !(a <= Time(p, x, s) < b) {
      StepNode(p, x, s);
      if NodeOf(p, s) in x.lost && NodeOf(p, s) >= NodeAfter(x.lost, j) { LostNext(p, x, NodeOf(p, s), j); }
      hide LossFits;
    }
    hide LossFits, Time, StepFits;
    UptoSkip(p, x, steps, a, b);
  }

  /** The couples of lost parities, by node. */
  lemma CoupleGap(p: Params, x: Loss, steps: seq<Step>, j: nat)
    requires LossFits(p, x) && j <= |x.lost| && TakenUpto(p, x, steps, CoupleStart(p, NodeAfter(x.lost, j)))
    ensures TakenUpto(p, x, steps, CoupleStart(p, NodeFrom(p, x.lost, j)))
  {
    LostInOrder(p, x, j);
    var a, b := CoupleStart(p, NodeAfter(x.lost, j)), CoupleStart(p, NodeFrom(p, x.lost, j));
    forall s | StepFits(p, x, s) ensures !(a <= Time(p, x, s) < b) {
      StepNode(p, x, s);
      if NodeOf(p, s) in x.lost && NodeOf(p, s) >= NodeAfter(x.lost, j) { LostNext(p, x, NodeOf(p, s), j); }
      hide LossFits;
    }
    hide LossFits, Time, StepFits;
    UptoSkip(p, x, steps, a, b);
  }

  /** All couples of nodes below this one have been taken. */
  function CoupleStart(p: Params, node: nat): nat {
    if node <= p.k then 5 * p.n + 3 else 5 * p.n + 2 + (node - p.k)
  }

  /** A time at which nothing happens. */
  lemma Idle(p: Params, x: Loss, steps: seq<Step>, t: nat, node: nat)
    requires LossFits(p, x) && TakenUpto(p, x, steps, t) && node < p.n
    requires || (t == 1 && p.k + 1 !in x.parities) || (t == 3 + 2 * node && node <= p.k) || (t == 5 * p.n + 2 && p.k + 1 !in x.lost)
             || (t == 2 * p.n + 2 + 2 * node && node <= p.k) || (t == 2 * p.n + 3 + 2 * node && node <= p.k)
    ensures TakenUpto(p, x, steps, t + 1)
  {
    forall s | StepFits(p, x, s) ensures Time(p, x, s) != t {
      StepAt(p, x, s, node);
      hide LossFits, Time;
    }
    hide LossFits, Time, StepFits;
    UptoSkip(p, x, steps, t, t + 1);
  }

  /** In the end every step has been taken. */
  lemma AllTaken(p: Params, x: Loss, steps: seq<Step>)
    requires LossFits(p, x) && TakenUpto(p, x, steps, CoupleStart(p, p.n))
    ensures TakenUpto(p, x, steps, AllTime(p)) && forall s :: s in steps <==> StepFits(p, x, s)
  {
    forall s | StepFits(p, x, s) ensures Time(p, x, s) < CoupleStart(p, p.n) <= AllTime(p) {
      StepNode(p, x, s);
      hide LossFits;
    }
    hide LossFits, Time, StepFits;
  }

  lemma OpsMore<F(!new)>(p: Params, s: Solver<F>, f: GF<F>, x: Loss, steps: seq<Step>, step: Step)
    requires Solvable(p, f, s, x) && AllFit(p, x, steps) && AllFit(p, x, steps + [step]) && StepFits(p, x, step)
    ensures OpsOf(p, s, f, x, steps + [step]) == OpsOf(p, s, f, x, steps) + [Op(p, s, f, x, step)]
  {
    hide Op, LossFits, StepFits, UsedRows;
  }

  lemma UsedFit(p: Params, x: Loss)
    requires LossFits(p, x)
    ensures p.Fits() && |x.data| + |x.parities| == p.k
    ensures (forall i | 0 <= i < |x.data| :: x.data[i] < p.k) && (forall i | 0 <= i < |x.parities| :: p.k <= x.parities[i] < p.n)
    ensures forall i | 0 <= i < p.k :: x.Used(i) < p.n
  {}

  lemma LostFits(p: Params, x: Loss, j: nat)
    requires LossFits(p, x) && j < |x.lost|
    ensures p.Fits() && x.lost[j] in x.lost && x.lost[j] < p.n
  {}

  lemma ParityFits(p: Params, x: Loss, j: nat)
    requires LossFits(p, x) && j < |x.parities|
    ensures p.Fits() && x.parities[j] in x.parities && p.k <= x.parities[j] < p.n
  {}

  lemma LossSize(p: Params, x: Loss)
    requires LossFits(p, x)
    ensures p.Fits() && |x.data| + |x.parities| == p.k
  {}

  /** The two steps for a used parity that has a group. */
  lemma ParityFacts(p: Params, x: Loss, node: nat)
    requires LossFits(p, x) && node in x.parities && p.k <= node < p.n
    ensures p.Fits()
    ensures node > p.k ==> StepFits(p, x, Code(node - p.k)) && Time(p, x, Code(node - p.k)) == 2 * p.n + 2 + 2 * node
    ensures node > p.k ==> StepFits(p, x, Apart(node - p.k)) && Time(p, x, Apart(node - p.k)) == 2 * p.n + 3 + 2 * node
  {
    InRange(p, x, node);
    hide LossFits;
  }

  ghost predicate HasStep<F(!new)>(p: Params, s: Solver<F>, f: GF<F>, x: Loss, ops: seq<Combination<F>>, step: Step)
    requires Solvable(p, f, s, x) && StepFits(p, x, step)
  {
    exists i :: 0 <= i < |ops| && ops[i] == Op(p, s, f, x, step)
  }

  ghost predicate IsStep<F(!new)>(p: Params, s: Solver<F>, f: GF<F>, x: Loss, c: Combination<F>)
    requires Solvable(p, f, s, x)
  {
    exists step :: StepFits(p, x, step) && c == Op(p, s, f, x, step)
  }

  /** The combinations of the steps that fit, all of them and nothing else. */
  ghost predicate IsMany<F(!new)>(p: Params, s: Solver<F>, f: GF<F>, x: Loss, ops: seq<Combination<F>>)
    requires Solvable(p, f, s, x)
  {
    && (forall step | StepFits(p, x, step) :: HasStep(p, s, f, x, ops, step))
    && (forall i | 0 <= i < |ops| :: IsStep(p, s, f, x, ops[i]))
  }

  lemma ManyIf<F(!new)>(p: Params, s: Solver<F>, f: GF<F>, x: Loss, steps: seq<Step>)
    requires Solvable(p, f, s, x) && AllFit(p, x, steps) && forall step :: step in steps <==> StepFits(p, x, step)
    ensures IsMany(p, s, f, x, OpsOf(p, s, f, x, steps))
  {
    hide StepFits, UsedRows, Op;
    var ops := OpsOf(p, s, f, x, steps);
    forall step | StepFits(p, x, step) ensures HasStep(p, s, f, x, ops, step) {
      var i :| 0 <= i < |steps| && steps[i] == step;
      assert ops[i] == Op(p, s, f, x, step);
    }
    forall i | 0 <= i < |ops| ensures IsStep(p, s, f, x, ops[i]) {
      assert steps[i] in steps;
    }
  }

  lemma SolvableFits<F(!new)>(p: Params, f: GF<F>, s: Solver<F>, x: Loss)
    requires Solvable(p, f, s, x)
    ensures LossFits(p, x) && p.Fits() && |x.data| + |x.parities| == p.k && Shaped(s.invert(UsedRows(p, f, x)), p.k, p.k)
  {
    hide Ascending;
  }

  // ---------------------------------------------------------------------------------------------
  // Why the steps give the lost nodes back

  ghost predicate RowsInverted<F(!new)>(p: Params, f: GF<F>, s: Solver<F>, x: Loss)
    requires |x.data| + |x.parities| == p.k
  {
    IsInverse(f, UsedRows(p, f, x), s.invert(UsedRows(p, f, x)))
  }

  /** A sub-packet before coupling is its row applied to the data. */
  lemma PlainValue<F(!new)>(p: Params, f: GF<F>, v: nat -> F, sp: nat, node: nat)
    requires Field(f) && p.Fits() && Stripe(p, f, v) && sp < 2 && node < p.n
    ensures v(PlainAt(p, sp, node)) == Dot(f, CodeRow(p, f, node), Vals(v, DataList(p, sp)))
  {
    hide Field, Dot, UncoupledAt, Row;
    var data := Vals(v, DataList(p, sp));
    if node < p.k {
      UnitRow(f, p.k, node, data);
    } else {
      assert Meets(f, v, Uncoupled(p, f, sp, node - p.k));
    }
  }

  lemma UsedValues<F(!new)>(p: Params, f: GF<F>, v: nat -> F, x: Loss, sp: nat)
    requires Field(f) && LossFits(p, x) && Stripe(p, f, v) && sp < 2
    ensures p.Fits() && |x.data| + |x.parities| == p.k
    ensures Vals(v, UsedAt(p, x, sp)) == MatVec(f, UsedRows(p, f, x), Vals(v, DataList(p, sp)))
  {
    UsedFit(p, x);
    hide Field, Dot, LossFits, Stripe, PlainAt, CodeRow;
    forall i | 0 <= i < p.k
      ensures Vals(v, UsedAt(p, x, sp))[i] == MatVec(f, UsedRows(p, f, x), Vals(v, DataList(p, sp)))[i]
    {
      PlainValue(p, f, v, sp, x.Used(i));
    }
  }

  lemma BackMet<F(!new)>(p: Params, f: GF<F>, s: Solver<F>, v: nat -> F, x: Loss, sp: nat, node: nat)
    requires Field(f) && Solvable(p, f, s, x) && RowsInverted(p, f, s, x) && Stripe(p, f, v) && StepFits(p, x, Back(sp, node))
    ensures Meets(f, v, Op(p, s, f, x, Back(sp, node)))
  {
    InRange(p, x, node);
    UsedValues(p, f, v, x, sp);
    PlainValue(p, f, v, sp, node);
    hide Field, Dot, LossFits, Stripe, PlainAt, CodeRow, UsedRows, UsedAt, MatVec, VecMat, IsInverse;
    var data := Vals(v, DataList(p, sp));
    Solving(f, UsedRows(p, f, x), s.invert(UsedRows(p, f, x)), data, Vals(v, UsedAt(p, x, sp)), CodeRow(p, f, node), 0);
  }

  lemma FirstApartMet<F(!new)>(p: Params, f: GF<F>, s: Solver<F>, v: nat -> F, x: Loss)
    requires Field(f) && Solvable(p, f, s, x) && Stripe(p, f, v) && StepFits(p, x, FirstApart)
    ensures Meets(f, v, Op(p, s, f, x, FirstApart))
  {
    LossSize(p, x);
    assert Meets(f, v, CoupleFirst(p, f)) && Meets(f, v, Couple(p, f, 1));
    hide Field, Dot, LossFits, Stripe;
    var a, b, g := v(UncoupledAt(p, 0, 1)), v(UncoupledAt(p, 1, 1)), v(GroupAt(p, 1));
    ValsThree(v, UncoupledAt(p, 0, 1), UncoupledAt(p, 1, 1), GroupAt(p, 1));
    XorThree(f, a, b, g);
    ValsTwo(v, UncoupledAt(p, 1, 1), GroupAt(p, 1));
    XorTwo(f, b, g);
    ValsTwo(v, CodeAt(p, 0, 1), CodeAt(p, 1, 1));
    XorTwo(f, v(CodeAt(p, 0, 1)), v(CodeAt(p, 1, 1)));
    SumLaws(f, a, b, g);
    Cancels(f, a, f.add(b, g));
  }

  lemma ApartMet<F(!new)>(p: Params, f: GF<F>, s: Solver<F>, v: nat -> F, x: Loss, g: nat)
    requires Field(f) && Solvable(p, f, s, x) && Stripe(p, f, v) && StepFits(p, x, Apart(g))
    ensures Meets(f, v, Op(p, s, f, x, Apart(g)))
  {
    LossSize(p, x);
    assert Meets(f, v, Couple(p, f, g));
    hide Field, Dot, LossFits, Stripe;
    ValsTwo(v, UncoupledAt(p, 1, g), GroupAt(p, g));
    XorTwo(f, v(UncoupledAt(p, 1, g)), v(GroupAt(p, g)));
    ValsTwo(v, CodeAt(p, 1, g), GroupAt(p, g));
    XorTwo(f, v(CodeAt(p, 1, g)), v(GroupAt(p, g)));
    Cancels(f, v(UncoupledAt(p, 1, g)), v(GroupAt(p, g)));
  }

  /** A stripe meets every step. */
  lemma StepMet<F(!new)>(p: Params, f: GF<F>, s: Solver<F>, v: nat -> F, x: Loss, step: Step)
    requires Field(f) && Solvable(p, f, s, x) && RowsInverted(p, f, s, x) && Stripe(p, f, v) && StepFits(p, x, step)
    ensures Meets(f, v, Op(p, s, f, x, step))
  {
    LossSize(p, x);
    hide Field, LossFits, UsedRows, Dot, CodeRow, RowsInverted, Members, GroupLine;
    match step
    case FirstApart => { FirstApartMet(p, f, s, v, x); }
    case Back(sp, node) => { BackMet(p, f, s, v, x, sp, node); }
    case Code(g) => { StripeGroup(p, f, v, g); }
    case Apart(g) => { ApartMet(p, f, s, v, x, g); }
    case FirstCouple => {}
    case LaterCouple(g) => { assert Meets(f, v, Couple(p, f, g)); }
  }

  lemma ManyMet<F(!new)>(p: Params, f: GF<F>, s: Solver<F>, v: nat -> F, x: Loss, ops: seq<Combination<F>>)
    requires Field(f) && Solvable(p, f, s, x) && RowsInverted(p, f, s, x) && Stripe(p, f, v) && IsMany(p, s, f, x, ops)
    ensures forall i | 0 <= i < |ops| :: Meets(f, v, ops[i])
  {
    LossSize(p, x);
    hide Field, LossFits, UsedRows, Meets, RowsInverted, Op, Stripe, StepFits;
    forall i | 0 <= i < |ops| ensures Meets(f, v, ops[i]) {
      assert IsStep(p, s, f, x, ops[i]);
      var step :| StepFits(p, x, step) && ops[i] == Op(p, s, f, x, step);
      StepMet(p, f, s, v, x, step);
    }
  }

  /** The step that computes a lost sub-packet. */
  function LastStep(p: Params, sp: nat, node: nat): Step {
    if node <= p.k || (sp == 0 && node != p.k + 1) then Back(sp, node)
    else if sp == 0 then FirstCouple
    else LaterCouple(node - p.k)
  }

  /** Both sub-packets of a lost node are computed. */
  lemma LostComputed<F(!new)>(p: Params, f: GF<F>, s: Solver<F>, x: Loss, ops: seq<Combination<F>>, sp: nat, node: nat)
    requires Solvable(p, f, s, x) && IsMany(p, s, f, x, ops) && node in x.lost && sp < 2
    ensures IsTarget(ops, DataAt(p, sp, node))
  {
    InRange(p, x, node);
    var step := LastStep(p, sp, node);
    assert StepFits(p, x, step) && PlaceOf(p, step) == DataAt(p, sp, node);
    hide LossFits, UsedRows, PlaceOf, SourcesOf, CoefsOf, StepFits;
    assert HasStep(p, s, f, x, ops, step);
  }

  // ---------------------------------------------------------------------------------------------
  // What the repair reads

  ghost predicate OfUsed(p: Params, x: Loss, place: nat) {
    exists sp: nat, node: nat :: sp < 2 && (node in x.data || node in x.parities) && place == DataAt(p, sp, node)
  }

  /** A member of a group whose code is needed, though neither read for its rows nor lost. */
  ghost predicate OfMember(p: Params, x: Loss, place: nat)
    requires p.Fits()
  {
    exists g: nat :: 1 <= g <= p.Groups() && (p.k + g in x.lost || p.k + g in x.parities) && place in Members(p, g)
                     && place !in x.data && place !in x.lost
  }

  /** Both sub-packets of the k nodes used, and such members. */
  ghost predicate IsRead(p: Params, x: Loss, place: nat)
    requires p.Fits()
  {
    OfUsed(p, x, place) || OfMember(p, x, place)
  }

  lemma StepTarget<F(!new)>(p: Params, s: Solver<F>, f: GF<F>, x: Loss, ops: seq<Combination<F>>, step: Step)
    requires Solvable(p, f, s, x) && IsMany(p, s, f, x, ops) && StepFits(p, x, step)
    ensures IsTarget(ops, PlaceOf(p, step))
  {
    hide LossFits, UsedRows, PlaceOf, SourcesOf, CoefsOf, StepFits;
    assert HasStep(p, s, f, x, ops, step);
  }

  lemma StepSource<F(!new)>(p: Params, s: Solver<F>, f: GF<F>, x: Loss, ops: seq<Combination<F>>, step: Step, i: nat)
    requires Solvable(p, f, s, x) && IsMany(p, s, f, x, ops) && StepFits(p, x, step) && i < |SourcesOf(p, x, step)|
    ensures IsSource(ops, SourcesOf(p, x, step)[i])
  {
    hide LossFits, UsedRows, PlaceOf, SourcesOf, CoefsOf, StepFits;
    assert HasStep(p, s, f, x, ops, step);
  }

  lemma NotComputed<F(!new)>(p: Params, s: Solver<F>, f: GF<F>, x: Loss, ops: seq<Combination<F>>, place: nat)
    requires Solvable(p, f, s, x) && IsMany(p, s, f, x, ops) && p.Fits() && Computed(p, x, place) == 0
    ensures !IsTarget(ops, place)
  {
    hide LossFits, UsedRows, PlaceOf, SourcesOf, CoefsOf, StepFits, Computed;
    if i :| 0 <= i < |ops| && ops[i].target == place {
      assert IsStep(p, s, f, x, ops[i]);
      var step :| StepFits(p, x, step) && ops[i] == Op(p, s, f, x, step);
      TargetTime(p, x, step);
    }
  }

  /** A source that no step computes. */
  lemma SourceRead(p: Params, x: Loss, step: Step, i: nat)
    requires LossFits(p, x) && StepFits(p, x, step) && i < |SourcesOf(p, x, step)|
    requires forall other | StepFits(p, x, other) :: PlaceOf(p, other) != SourcesOf(p, x, step)[i]
    ensures p.Fits() && IsRead(p, x, SourcesOf(p, x, step)[i])
  {
    LossSize(p, x);
    StepNode(p, x, step);
    match step
    case FirstApart => { UsedAreRead(p, x, p.k + 1); }
    case Back(sp, node) => { BackRead(p, x, sp, node, i); }
    case Code(g) => { MemberRead(p, x, g, i); }
    case Apart(g) => {
      UsedAreRead(p, x, p.k + g);
      CodeTaken(p, x, g);
    }
    case FirstCouple => { CoupleComputed(p, x, 1, i); }
    case LaterCouple(g) => { CoupleComputed(p, x, g, i + 1); }
  }

  lemma DataTaken(p: Params, x: Loss, d: nat)
    requires p.Fits() && d in x.lost && d < p.k
    ensures StepFits(p, x, Back(0, d)) && PlaceOf(p, Back(0, d)) == d
  {}

  lemma CodeTaken(p: Params, x: Loss, g: nat)
    requires p.Fits() && StepFits(p, x, Apart(g))
    ensures StepFits(p, x, Code(g)) && PlaceOf(p, Code(g)) == GroupAt(p, g)
  {}

  lemma UsedAreRead(p: Params, x: Loss, node: nat)
    requires p.Fits() && (node in x.data || node in x.parities)
    ensures OfUsed(p, x, DataAt(p, 0, node)) && OfUsed(p, x, DataAt(p, 1, node))
  {
    hide DataAt;
  }

  lemma BackRead(p: Params, x: Loss, sp: nat, node: nat, i: nat)
    requires LossFits(p, x) && sp < 2 && node in x.lost && i < p.k && p.Fits() && |x.data| + |x.parities| == p.k
    requires forall other | StepFits(p, x, other) :: PlaceOf(p, other) != UsedAt(p, x, sp)[i]
    ensures IsRead(p, x, UsedAt(p, x, sp)[i])
  {
    var used := x.Used(i);
    UsedIn(p, x, i);
    InRange(p, x, used);
    UsedAreRead(p, x, used);
    if sp == 0 && used == p.k + 1 {
      assert StepFits(p, x, FirstApart);
    }
    if sp == 1 && used > p.k {
      assert StepFits(p, x, Apart(used - p.k));
    }
  }

  lemma MemberRead(p: Params, x: Loss, g: nat, i: nat)
    requires LossFits(p, x) && StepFits(p, x, Code(g)) && i < |Members(p, g)|
    requires forall other | StepFits(p, x, other) :: PlaceOf(p, other) != Places(p, 0, Members(p, g))[i]
    ensures IsRead(p, x, Places(p, 0, Members(p, g))[i])
  {
    MemberTime(p, x, g, i);
    var d := Members(p, g)[i];
    assert d in Members(p, g);
    if d in x.lost {
      DataTaken(p, x, d);
    } else if d in x.data {
      UsedAreRead(p, x, d);
    }
    hide LossFits, Members;
  }

  /** What is coupled again has been computed. */
  lemma CoupleComputed(p: Params, x: Loss, g: nat, i: nat)
    requires p.Fits() && 1 <= g <= p.Groups() && p.k + g in x.lost && i < 3
    ensures exists other :: StepFits(p, x, other) && PlaceOf(p, other) == [UncoupledAt(p, 0, g), UncoupledAt(p, 1, g), GroupAt(p, g)][i]
  {
    var other := if i < 2 then Back(i, p.k + g) else Code(g);
    assert StepFits(p, x, other);
  }

  /** What is read is a source. */
  lemma UsedSource<F(!new)>(p: Params, s: Solver<F>, f: GF<F>, x: Loss, ops: seq<Combination<F>>, sp: nat, node: nat)
    requires Solvable(p, f, s, x) && IsMany(p, s, f, x, ops) && x.lost != [] && sp < 2 && (node in x.data || node in x.parities)
    ensures IsInput(ops, DataAt(p, sp, node))
  {
    hide *;
    SolvableFits(p, f, s, x);
    UsedNotLost(p, x, sp, node);
    NotComputed(p, s, f, x, ops, DataAt(p, sp, node));
    var step, i := ReadingStep(p, x, sp, node);
    StepSource(p, s, f, x, ops, step, i);
    InputIs(ops, DataAt(p, sp, node));
  }

  lemma InputIs<F>(ops: seq<Combination<F>>, place: nat)
    requires IsSource(ops, place) && !IsTarget(ops, place)
    ensures IsInput(ops, place)
  {
    hide IsSource, IsTarget;
  }

  lemma ReadingStep(p: Params, x: Loss, sp: nat, node: nat) returns (step: Step, i: nat)
    requires LossFits(p, x) && x.lost != [] && sp < 2 && (node in x.data || node in x.parities)
    ensures p.Fits() && StepFits(p, x, step) && i < |SourcesOf(p, x, step)| && SourcesOf(p, x, step)[i] == DataAt(p, sp, node)
  {
    InRange(p, x, node);
    if sp == 0 && node == p.k + 1 {
      step, i := FirstApart, 0;
    } else if sp == 1 && node > p.k {
      step, i := Apart(node - p.k), 0;
    } else {
      i := UsedPlace(p, x, node);
      step := Back(sp, x.lost[0]);
      assert x.lost[0] in x.lost;
    }
    hide LossFits;
  }

  lemma UsedPlace(p: Params, x: Loss, node: nat) returns (i: nat)
    requires LossFits(p, x) && (node in x.data || node in x.parities)
    ensures i < p.k && |x.data| + |x.parities| == p.k && x.Used(i) == node
  {
    if node in x.data {
      i :| 0 <= i < |x.data| && x.data[i] == node;
    } else {
      var j :| 0 <= j < |x.parities| && x.parities[j] == node;
      i := |x.data| + j;
    }
  }

  lemma UsedNotLost(p: Params, x: Loss, sp: nat, node: nat)
    requires LossFits(p, x) && sp < 2 && (node in x.data || node in x.parities)
    ensures p.Fits() && node < p.n && Computed(p, x, DataAt(p, sp, node)) == 0
  {
    InRange(p, x, node);
    hide LossFits;
  }

  lemma MemberSource<F(!new)>(p: Params, s: Solver<F>, f: GF<F>, x: Loss, ops: seq<Combination<F>>, place: nat)
    requires Solvable(p, f, s, x) && IsMany(p, s, f, x, ops) && p.Fits() && OfMember(p, x, place)
    ensures IsInput(ops, place)
  {
    hide *;
    SolvableFits(p, f, s, x);
    var step, i := MemberStep(p, x, place);
    NotComputed(p, s, f, x, ops, place);
    StepSource(p, s, f, x, ops, step, i);
    InputIs(ops, place);
  }

  lemma MemberStep(p: Params, x: Loss, place: nat) returns (step: Step, i: nat)
    requires LossFits(p, x) && p.Fits() && OfMember(p, x, place)
    ensures StepFits(p, x, step) && i < |SourcesOf(p, x, step)| && SourcesOf(p, x, step)[i] == place && Computed(p, x, place) == 0
  {
    hide LossFits, Computed, Members, Average, Start, End;
    var g: nat :| 1 <= g <= p.Groups() && (p.k + g in x.lost || p.k + g in x.parities) && place in Members(p, g) && place !in x.data && place !in x.lost;
    i :| 0 <= i < |Members(p, g)| && Members(p, g)[i] == place;
    MemberTime(p, x, g, i);
    DataNotLost(p, x, place);
    step := Code(g);
  }

  lemma DataNotLost(p: Params, x: Loss, d: nat)
    requires p.Fits() && d < p.k && d !in x.lost
    ensures Computed(p, x, d) == 0
  {}

  /** The inputs of the repair are exactly what it is said to read. */
  lemma ManyInputIff<F(!new)>(p: Params, s: Solver<F>, f: GF<F>, x: Loss, ops: seq<Combination<F>>, place: nat)
    requires Solvable(p, f, s, x) && IsMany(p, s, f, x, ops) && x.lost != []
    ensures p.Fits() && (IsInput(ops, place) <==> IsRead(p, x, place))
  {
    LossSize(p, x);
    if IsInput(ops, place) {
      InputRead(p, s, f, x, ops, place);
    }
    if OfUsed(p, x, place) {
      var sp: nat, node: nat :| sp < 2 && (node in x.data || node in x.parities) && place == DataAt(p, sp, node);
      hide *;
      UsedSource(p, s, f, x, ops, sp, node);
    } else if OfMember(p, x, place) {
      hide *;
      MemberSource(p, s, f, x, ops, place);
    }
  }

  lemma InputRead<F(!new)>(p: Params, s: Solver<F>, f: GF<F>, x: Loss, ops: seq<Combination<F>>, place: nat)
    requires Solvable(p, f, s, x) && IsMany(p, s, f, x, ops) && IsInput(ops, place)
    ensures p.Fits() && IsRead(p, x, place)
  {
    LossSize(p, x);
    hide UsedRows, PlaceOf, SourcesOf, CoefsOf, StepFits, LossFits, IsRead;
    var i :| 0 <= i < |ops| && place in ops[i].sources;
    assert IsStep(p, s, f, x, ops[i]);
    var step :| StepFits(p, x, step) && ops[i] == Op(p, s, f, x, step);
    var j :| 0 <= j < |SourcesOf(p, x, step)| && SourcesOf(p, x, step)[j] == place;
    forall other | StepFits(p, x, other) ensures PlaceOf(p, other) != place {
      StepTarget(p, s, f, x, ops, other);
    }
    SourceRead(p, x, step, j);
  }

  // ---------------------------------------------------------------------------------------------
  // A single node

  /** A lost parity node, with all data nodes at hand. */
  function ParityLoss(p: Params, failed: nat): Loss {
    Loss(Upto(p.k), [], [failed])
  }

  lemma ParityLossFits(p: Params, failed: nat)
    requires p.Fits() && p.k <= failed < p.n
    ensures LossFits(p, ParityLoss(p, failed)) && ParityLoss(p, failed).data != []
    ensures forall node: nat :: node in ParityLoss(p, failed).lost <==> node == failed
  {
    var x := ParityLoss(p, failed);
    if failed in x.data {
      var i :| 0 <= i < p.k && x.data[i] == failed;
    }
    forall node: nat ensures node in x.lost <==> node == failed {}
  }

  /** The combinations that DecodeSingle joins for a failed node of any kind. */
  ghost predicate NodeOps<F(!new)>(p: Params, s: Solver<F>, f: GF<F>, failed: nat, ops: seq<Combination<F>>)
    requires p.Fits() && failed < p.n
  {
    if failed < p.k then Invertibles(p, f, s, failed) && IsRepair(p, s, f, failed, ops)
    else Solvable(p, f, s, ParityLoss(p, failed)) && IsMany(p, s, f, ParityLoss(p, failed), ops)
  }
}
