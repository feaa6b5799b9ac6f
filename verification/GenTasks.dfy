/** The task compiler itself: genRepairTasks, genLevel0, genIntermediateLevels and genLastLevel
    (src/common/Stripe.cc:598-1249). */
module GenTasks {
  import opened Dags
  import opened Traffic
  import opened Recolouring
  import opened Programs
  import opened Compile
  import E = Ecdags
  import S = Sorting

  // ---------------------------------------------------------------------------------------------
  // Lists gathered per node or per block

  /** What a gathered list is for: a stage of the node it is filed under, or the reading of the block
      it is filed under. */
  datatype Slot = ByNode(stage: Stage) | ByBlock

  ghost predicate OnList<C>(p: Plan<C>, slot: Slot, key: int, v: int) {
    && WellFormed(p) && v in p.g
    && match slot
       case ByNode(st) => Listed(p, Thread(key, st), v)
       case ByBlock => Listed(p, Thread(p.col[v], Reading(key)), v)
  }

  predicate Has(m: map<int, seq<int>>, key: int, v: int) {
    key in m && v in m[key]
  }

  /** m files exactly the vertices of vs that belong in the slot. */
  ghost predicate Buckets<C>(p: Plan<C>, m: map<int, seq<int>>, vs: seq<int>, slot: Slot) {
    && (forall k | k in m :: m[k] != [] && Distinct(m[k]))
    && (forall k, v :: Has(m, k, v) <==> v in vs && OnList(p, slot, k, v))
  }

  function At(m: map<int, seq<int>>, k: int): seq<int> {
    if k in m then m[k] else []
  }

  ghost predicate AddedTo(m: map<int, seq<int>>, m': map<int, seq<int>>, ks: seq<int>, v: int) {
    && (forall k :: k in m' <==> k in m || k in ks)
    && (forall k :: At(m', k) == At(m, k) + if k in ks then [v] else [])
  }

  method AddAll(m: map<int, seq<int>>, ks: seq<int>, v: int) returns (r: map<int, seq<int>>)
    requires Distinct(ks)
    ensures AddedTo(m, r, ks, v)
  {
    hide AddedTo, Distinct;
    r := m;
    AddedNothing(m, v);
    for i := 0 to |ks|
      invariant AddedTo(m, r, ks[..i], v)
    {
      var k := ks[i];
      AddedOne(m, r, ks, i, v);
      r := AddTo(r, k, v);
    }
    assert ks[..|ks|] == ks;
  }

  method AddTo(m: map<int, seq<int>>, k: int, v: int) returns (r: map<int, seq<int>>)
    ensures r == m[k := At(m, k) + [v]]
  {
    if k !in m {
      assert [] + [v] == [v];
      r := m[k := [v]];
    } else {
      r := m[k := m[k] + [v]];
    }
  }

  lemma AddedNothing(m: map<int, seq<int>>, v: int)
    ensures AddedTo(m, m, [], v)
    ensures forall ks: seq<int> :: AddedTo(m, m, ks[..0], v)
  {}

  lemma AddedOne(m: map<int, seq<int>>, r: map<int, seq<int>>, ks: seq<int>, i: nat, v: int)
    requires Distinct(ks) && i < |ks| && AddedTo(m, r, ks[..i], v)
    ensures AddedTo(m, r[ks[i] := At(r, ks[i]) + [v]], ks[..i + 1], v)
  {
    hide Distinct, At;
    var r' := r[ks[i] := At(r, ks[i]) + [v]];
    PrefixNext(ks, i);
    forall j ensures j in r' <==> j in m || j in ks[..i + 1] {
      AddedKey(m, r, ks[..i], j, v);
    }
    forall j ensures At(r', j) == At(m, j) + if j in ks[..i + 1] then [v] else [] {
      AddedKey(m, r, ks[..i], j, v);
      AtUpdated(r, ks[i], j, At(r, ks[i]) + [v]);
    }
  }

  lemma AddedKey(m: map<int, seq<int>>, r: map<int, seq<int>>, before: seq<int>, j: int, v: int)
    requires AddedTo(m, r, before, v)
    ensures j in r <==> j in m || j in before
    ensures At(r, j) == if j in before then At(m, j) + [v] else At(m, j)
  {
    hide At;
    assert At(m, j) + [] == At(m, j);
  }

  lemma AtUpdated(r: map<int, seq<int>>, k: int, j: int, x: seq<int>)
    ensures At(r[k := x], j) == if j == k then x else At(r, j)
  {}

  lemma PrefixNext(ks: seq<int>, i: nat)
    requires Distinct(ks) && i < |ks|
    ensures ks[i] !in ks[..i] && forall j :: j in ks[..i + 1] <==> j in ks[..i] || j == ks[i]
  {
    var k := ks[i];
    NotBefore(ks, i);
    assert ks[..i + 1] == ks[..i] + [k];
  }

  lemma NotBefore(ks: seq<int>, i: nat)
    requires Distinct(ks) && i < |ks|
    ensures ks[i] !in ks[..i]
  {}

  lemma BucketsNext<C>(p: Plan<C>, m: map<int, seq<int>>, m': map<int, seq<int>>, vs: seq<int>, v: int, ks: seq<int>, slot: Slot)
    requires Buckets(p, m, vs, slot) && v !in vs && AddedTo(m, m', ks, v)
    requires forall k :: k in ks <==> OnList(p, slot, k, v)
    ensures Buckets(p, m', vs + [v], slot)
  {
    hide OnList;
    forall k | k in m' ensures m'[k] != [] && Distinct(m'[k]) {
      assert At(m', k) == At(m, k) + if k in ks then [v] else [];
      if k in m {
        assert v !in m[k] by { assert !Has(m, k, v); }
      }
    }
    forall k, u ensures Has(m', k, u) <==> u in vs + [v] && OnList(p, slot, k, u) {
      assert At(m', k) == At(m, k) + if k in ks then [v] else [];
      assert Has(m, k, u) <==> u in vs && OnList(p, slot, k, u);
      assert Has(m, k, u) <==> u in At(m, k);
      assert Has(m', k, u) <==> u in At(m', k);
    }
  }

  lemma NoBuckets<C>(p: Plan<C>, slot: Slot)
    ensures Buckets(p, map[], [], slot)
  {}

  // ---------------------------------------------------------------------------------------------
  // One vertex

  /** The distinct colours of the parents (src/common/Stripe.cc:711-722). */
  method NodeIdList<C>(g: Dag<C>, col: Coloring, v: int) returns (cs: seq<int>)
    requires Closed(g) && Colored(g, col) && v in g
    ensures Distinct(cs) && forall c :: c in cs <==> ParentColor(g, col, v, c)
  {
    var parents := g[v].parents;
    cs := [];
    for i := 0 to |parents|
      invariant Distinct(cs)
      invariant forall c :: c in cs <==> exists j | 0 <= j < i :: col[parents[j]] == c
    {
      var c := col[parents[i]];
      if c !in cs {
        cs := cs + [c];
      }
    }
  }

  /** The distinct colours of the parents, -1 left out (src/common/Stripe.cc:903-931). */
  method ZeroIdList<C>(g: Dag<C>, col: Coloring, v: int) returns (cs: seq<int>)
    requires Closed(g) && Colored(g, col) && v in g
    ensures Distinct(cs) && forall c :: c in cs <==> c != -1 && ParentColor(g, col, v, c)
  {
    var parents := g[v].parents;
    cs := [];
    for i := 0 to |parents|
      invariant Distinct(cs)
      invariant forall c :: c in cs <==> c != -1 && exists j | 0 <= j < i :: col[parents[j]] == c
    {
      var c := col[parents[i]];
      if c == -1 {
        continue;
      }
      if c !in cs {
        cs := cs + [c];
      }
    }
  }

  /** src/common/Stripe.cc:729-738 */
  method UsageFrom(cs: seq<int>, mycolor: int) returns (u: Usage)
    ensures u.same <==> mycolor in cs
    ensures u.diff <==> exists i :: 0 <= i < |cs| && cs[i] != mycolor
  {
    var same, diff := false, false;
    for i := 0 to |cs|
      invariant same <==> mycolor in cs[..i]
      invariant diff <==> exists j :: 0 <= j < i && cs[j] != mycolor
    {
      assert cs[..i + 1] == cs[..i] + [cs[i]];
      if cs[i] == mycolor {
        same := true;
      } else {
        diff := true;
      }
      if same && diff {
        assert mycolor in cs;
        return Usage(same, diff);
      }
    }
    assert cs[..|cs|] == cs;
    u := Usage(same, diff);
  }

  /** What is gathered about the vertices that some node makes in one level. */
  datatype Prep = Prep(own: map<int, seq<int>>, usage: map<int, Usage>, sendfrom: map<int, seq<int>>,
                       sendto: map<int, seq<int>>, recvin: map<int, seq<int>>)

  ghost predicate Prepared<C>(p: Plan<C>, r: Prep, vs: seq<int>, slot: Slot, l: nat) {
    && WellFormed(p)
    && Buckets(p, r.own, vs, slot) && Buckets(p, r.sendfrom, vs, ByNode(Sending(l))) && Buckets(p, r.recvin, vs, ByNode(Receiving(l)))
    && UsagesRight(p, r.usage, vs) && SendsRight(p, r.sendto, vs)
  }

  ghost predicate UsagesRight<C>(p: Plan<C>, usage: map<int, Usage>, vs: seq<int>)
    requires WellFormed(p)
  {
    forall v | v in vs :: v in p.g && v in usage && usage[v] == UsageOf(p, v)
  }

  ghost predicate SendsRight<C>(p: Plan<C>, sendto: map<int, seq<int>>, vs: seq<int>)
    requires WellFormed(p)
  {
    forall v | v in vs && v in p.g && HasOther(p, v) :: v in sendto && Destinations(p, v, sendto[v])
  }

  lemma NothingPrepared<C>(p: Plan<C>, slot: Slot, l: nat)
    requires WellFormed(p)
    ensures Prepared(p, Prep(map[], map[], map[], map[], map[]), [], slot, l)
  {}

  /** A vertex of level l that some node makes. */
  ghost predicate RealAt<C>(p: Plan<C>, v: int, l: nat)
    requires WellFormed(p)
  {
    v in p.g && p.lev[v] == l < p.last && IsReal(p, v)
  }

  lemma SendKeys<C>(p: Plan<C>, v: int, l: nat, others: seq<int>)
    requires WellFormed(p) && RealAt(p, v, l) && Destinations(p, v, others)
    ensures others != [] <==> HasOther(p, v)
    ensures forall k :: k in (if others != [] then [p.col[v]] else []) <==> OnList(p, ByNode(Sending(l)), k, v)
    ensures forall k :: k in others <==> OnList(p, ByNode(Receiving(l)), k, v)
  {
    hide WellFormed, OnList, Destinations, HasOther, IsReal;
    RealColored(p, v, l);
    OthersIff(p, v, others);
    forall k ensures k in (if others != [] then [p.col[v]] else []) <==> OnList(p, ByNode(Sending(l)), k, v) {
      SendKey(p, v, l, k);
    }
    forall k ensures k in others <==> OnList(p, ByNode(Receiving(l)), k, v) {
      RecvKey(p, v, l, others, k);
    }
  }

  lemma RealColored<C>(p: Plan<C>, v: int, l: nat)
    requires WellFormed(p) && RealAt(p, v, l)
    ensures v in p.g && Colored(p.g, p.col)
  {
    hide Mirrored, Closed, IsReal;
  }

  lemma OthersIff<C>(p: Plan<C>, v: int, others: seq<int>)
    requires Colored(p.g, p.col) && v in p.g && Destinations(p, v, others)
    ensures others != [] <==> HasOther(p, v)
  {
    if others != [] {
      var c := others[0];
      assert c in others;
      var i :| 0 <= i < |p.g[v].parents| && p.col[p.g[v].parents[i]] == c;
    }
    if HasOther(p, v) {
      var i :| 0 <= i < |p.g[v].parents| && p.col[p.g[v].parents[i]] != p.col[v];
      var c := p.col[p.g[v].parents[i]];
      assert ParentColor(p.g, p.col, v, c);
      assert c in others;
    }
  }

  lemma SendKey<C>(p: Plan<C>, v: int, l: nat, k: int)
    requires WellFormed(p) && RealAt(p, v, l)
    ensures v in p.g && Colored(p.g, p.col) && (OnList(p, ByNode(Sending(l)), k, v) <==> HasOther(p, v) && k == p.col[v])
  {
    hide HasOther, IsReal, Mirrored, Closed;
  }

  lemma RecvKey<C>(p: Plan<C>, v: int, l: nat, others: seq<int>, k: int)
    requires WellFormed(p) && RealAt(p, v, l) && Destinations(p, v, others)
    ensures k in others <==> OnList(p, ByNode(Receiving(l)), k, v)
  {
    hide HasOther, IsReal, Mirrored, Closed, ParentColor, Distinct;
  }

  lemma UsageIs<C>(p: Plan<C>, v: int, cs: seq<int>, u: Usage)
    requires WellFormed(p) && v in p.g && forall c :: c in cs <==> ParentColor(p.g, p.col, v, c)
    requires (u.same <==> p.col[v] in cs) && (u.diff <==> exists i :: 0 <= i < |cs| && cs[i] != p.col[v])
    ensures u == UsageOf(p, v)
  {
    if u.diff {
      var j :| 0 <= j < |cs| && cs[j] != p.col[v];
      var c := cs[j];
      assert c in cs;
      var i :| 0 <= i < |p.g[v].parents| && p.col[p.g[v].parents[i]] == c;
    }
    if HasOther(p, v) {
      var i :| 0 <= i < |p.g[v].parents| && p.col[p.g[v].parents[i]] != p.col[v];
      var c := p.col[p.g[v].parents[i]];
      assert ParentColor(p.g, p.col, v, c);
      assert c in cs;
    }
  }

  lemma PreparedNext<C>(p: Plan<C>, r: Prep, r': Prep, vs: seq<int>, v: int, slot: Slot, l: nat, key: int, others: seq<int>)
    requires Prepared(p, r, vs, slot, l) && v !in vs && RealAt(p, v, l) && Destinations(p, v, others)
    requires forall k :: k in [key] <==> OnList(p, slot, k, v)
    requires AddedTo(r.own, r'.own, [key], v) && r'.usage == r.usage[v := UsageOf(p, v)]
    requires AddedTo(r.sendfrom, r'.sendfrom, if others != [] then [p.col[v]] else [], v)
    requires r'.sendto == if others != [] then r.sendto[v := others] else r.sendto
    requires AddedTo(r.recvin, r'.recvin, others, v)
    ensures Prepared(p, r', vs + [v], slot, l)
  {
    hide Buckets, AddedTo, WellFormed, OnList, Destinations, HasOther, UsageOf;
    PlanFits(p);
    SendKeys(p, v, l, others);
    BucketsNext(p, r.own, r'.own, vs, v, [key], slot);
    BucketsNext(p, r.sendfrom, r'.sendfrom, vs, v, if others != [] then [p.col[v]] else [], ByNode(Sending(l)));
    BucketsNext(p, r.recvin, r'.recvin, vs, v, others, ByNode(Receiving(l)));
  }

  /** One pass of the loops over realidx (src/common/Stripe.cc:686-771, 990-1063); key says where the
      vertex itself is filed: under its block in level 0, under its node above. */
  method PrepareOne<C>(ghost p: Plan<C>, g: Dag<C>, col: Coloring, r0: Prep, v: int, key: int, ghost vs: seq<int>, ghost slot: Slot, ghost l: nat)
    returns (r: Prep)
    requires WellFormed(p) && Prepared(p, r0, vs, slot, l) && p.g == g && p.col == col && v !in vs && RealAt(p, v, l)
    requires forall k :: k in [key] <==> OnList(p, slot, k, v)
    ensures Prepared(p, r, vs + [v], slot, l)
  {
    hide Prepared, Buckets, AddedTo, WellFormed, OnList, HasOther, UsageOf, ParentColor, RealAt, Destinations;
    PlanFits(p);
    RealInDag(p, v, l);
    var own := AddAll(r0.own, [key], v);
    var mycolor := col[v];
    var nodeidlist := NodeIdList(g, col, v);
    var usage := UsageFrom(nodeidlist, mycolor);
    UsageIs(p, v, nodeidlist, usage);
    E.WithoutDistinct(nodeidlist, mycolor);
    nodeidlist := E.Without(nodeidlist, mycolor);
    OthersAre(p, v, nodeidlist);
    var sendfrom, sendto := r0.sendfrom, r0.sendto;
    if |nodeidlist| > 0 {
      sendfrom := AddAll(sendfrom, [mycolor], v);
      sendto := sendto[v := nodeidlist];
    } else {
      AddedNothing(sendfrom, v);
    }
    var recvin := AddAll(r0.recvin, nodeidlist, v);
    r := Prep(own, r0.usage[v := usage], sendfrom, sendto, recvin);
    PreparedNext(p, r0, r, vs, v, slot, l, key, nodeidlist);
  }

  lemma OthersAre<C>(p: Plan<C>, v: int, tos: seq<int>)
    requires v in p.g && Colored(p.g, p.col) && Distinct(tos)
    requires forall c :: c in tos <==> ParentColor(p.g, p.col, v, c) && c != p.col[v]
    ensures Destinations(p, v, tos)
  {}

  lemma PlanFits<C>(p: Plan<C>)
    requires WellFormed(p)
    ensures Closed(p.g) && Colored(p.g, p.col) && 0 < p.ecw && p.lev.Keys == p.g.Keys == p.col.Keys
  {}

  lemma RealInDag<C>(p: Plan<C>, v: int, l: nat)
    requires WellFormed(p) && RealAt(p, v, l)
    ensures v in p.g && IsReal(p, v)
  {}

  // ---------------------------------------------------------------------------------------------
  // Handing tasks to nodes

  /** Tasks are issued phase by phase: reads, computations, sends, receives, zeroes of each level. */
  ghost function Phase(last: nat, st: Stage): int {
    match st
    case Reading(_) => 0
    case Computing(l) => 4 * l
    case Sending(l) => 4 * l + 1
    case Receiving(l) => 4 * l + 2
    case Zeroing(l) => 4 * l + 3
    case Persisting => 4 * last
  }

  type TaskLists<C> = map<int, seq<Task<C>>>

  /** The stages whose tasks the lists of the nodes hold, position by position. */
  type Stages = map<int, seq<Stage>>

  ghost predicate Emits<C>(p: Plan<C>, res: TaskLists<C>, who: Stages) {
    && WellFormed(p) && res.Keys == who.Keys
    && (forall c | c in res :: |res[c]| == |who[c]| && Distinct(who[c]))
    && (forall c, i | c in res && 0 <= i < |res[c]| :: TaskFits(p, Thread(c, who[c][i]), res[c][i]))
  }

  ghost predicate Issued(who: Stages, th: Thread) {
    th.node in who && th.stage in who[th.node]
  }

  /** Every thread of the phases before f has its task. */
  ghost predicate Covers<C>(p: Plan<C>, who: Stages, f: int) {
    WellFormed(p) && forall th, v | Listed(p, th, v) && Phase(p.last, th.stage) < f :: Issued(who, th)
  }

  /** Exactly the tasks of the phases before f have been issued. */
  ghost predicate Stand<C>(p: Plan<C>, res: TaskLists<C>, who: Stages, f: int) {
    && Emits(p, res, who) && Covers(p, who, f)
    && (forall c, i | c in who && 0 <= i < |who[c]| :: Phase(p.last, who[c][i]) < f)
  }

  /** The thread that a gathered list belongs to. */
  ghost function ThreadFor<C>(p: Plan<C>, slot: Slot, m: map<int, seq<int>>, k: int): Thread
    requires k in m && m[k] != [] && m[k][0] in p.col
  {
    match slot
    case ByNode(st) => Thread(k, st)
    case ByBlock => Thread(p.col[m[k][0]], Reading(k))
  }

  ghost predicate Filled<C>(p: Plan<C>, m: map<int, seq<int>>) {
    forall k | k in m :: m[k] != [] && m[k][0] in p.col
  }

  ghost predicate OfKey<C>(p: Plan<C>, slot: Slot, m: map<int, seq<int>>, k: int, th: Thread)
    requires Filled(p, m)
  {
    k in m && ThreadFor(p, slot, m, k) == th
  }

  /** Within phase f: the lists filed under done have been turned into tasks. */
  ghost predicate Mid<C>(p: Plan<C>, res: TaskLists<C>, who: Stages, f: int, slot: Slot, m: map<int, seq<int>>, done: set<int>) {
    && Filled(p, m) && Emits(p, res, who) && Covers(p, who, f)
    && (forall c, i | c in who && 0 <= i < |who[c]| :: Phase(p.last, who[c][i]) < f || exists k :: k in done && OfKey(p, slot, m, k, Thread(c, who[c][i])))
    && (forall k | k in done :: k in m && Issued(who, ThreadFor(p, slot, m, k)))
  }

  /** vs holds all vertices that concern the threads of phase f, and slot is for that phase. */
  ghost predicate Concerns<C>(p: Plan<C>, vs: seq<int>, slot: Slot, f: int) {
    && WellFormed(p)
    && (forall th, v | Listed(p, th, v) && Phase(p.last, th.stage) == f :: v in vs && FitsSlot(slot, th))
    && (slot.ByNode? ==> Phase(p.last, slot.stage) == f) && (slot.ByBlock? ==> f == 0)
  }

  ghost predicate FitsSlot(slot: Slot, th: Thread) {
    match slot
    case ByNode(st) => th.stage == st
    case ByBlock => th.stage.Reading?
  }

  lemma PhaseBegins<C>(p: Plan<C>, res: TaskLists<C>, who: Stages, f: int, slot: Slot, m: map<int, seq<int>>, vs: seq<int>)
    requires Stand(p, res, who, f) && Buckets(p, m, vs, slot)
    ensures Mid(p, res, who, f, slot, m, {})
  {
    hide Listed;
    forall k | k in m ensures m[k] != [] && m[k][0] in p.col {
      var v := m[k][0];
      assert v in m[k];
      assert Has(m, k, v);
    }
  }

  /** All vertices filed under a key are for its thread, and no others are. */
  lemma SlotLists<C>(p: Plan<C>, m: map<int, seq<int>>, vs: seq<int>, slot: Slot, f: int, k: int)
    requires Concerns(p, vs, slot, f) && Buckets(p, m, vs, slot) && Filled(p, m) && k in m
    ensures Lists(p, ThreadFor(p, slot, m, k), m[k])
    ensures Phase(p.last, ThreadFor(p, slot, m, k).stage) == f
    ensures forall v | v in m[k] :: v in vs
  {
    hide Listed, WellFormed;
    var th := ThreadFor(p, slot, m, k);
    var u := m[k][0];
    assert u in m[k];
    assert Has(m, k, u);
    forall i | 0 <= i < |m[k]| ensures Listed(p, th, m[k][i]) {
      var v := m[k][i];
      assert v in m[k];
      assert Has(m, k, v);
      if slot.ByBlock? { SameColorInBlock(p, k, u, v); }
    }
    forall v | Listed(p, th, v) ensures v in m[k] {
      ListedInDag(p, th, v);
      assert OnList(p, slot, k, v);
      assert Has(m, k, v);
    }
    forall v | v in m[k] ensures v in vs {
      assert Has(m, k, v);
    }
  }

  lemma ListedInDag<C>(p: Plan<C>, th: Thread, v: int)
    requires WellFormed(p) && Listed(p, th, v)
    ensures v in p.g && v in p.col
    ensures th.stage.Reading? ==> p.col[v] == th.node
  {}

  lemma SameColorInBlock<C>(p: Plan<C>, b: int, u: int, v: int)
    requires WellFormed(p) && OnList(p, ByBlock, b, u) && OnList(p, ByBlock, b, v)
    ensures p.col[u] == p.col[v]
  {}

  method Post<C>(res0: TaskLists<C>, c: int, t: Task<C>) returns (res: TaskLists<C>)
    ensures res == res0[c := (if c in res0 then res0[c] else []) + [t]]
  {
    if c !in res0 {
      assert [] + [t] == [t];
      res := res0[c := [t]];
    } else {
      res := res0[c := res0[c] + [t]];
    }
  }

  ghost function Add(who: Stages, th: Thread): Stages {
    who[th.node := (if th.node in who then who[th.node] else []) + [th.stage]]
  }

  lemma Posted<C>(p: Plan<C>, res: TaskLists<C>, who: Stages, f: int, slot: Slot, m: map<int, seq<int>>, done: set<int>, k: int, t: Task<C>)
    requires Mid(p, res, who, f, slot, m, done) && k in m && k !in done
    requires var th := ThreadFor(p, slot, m, k); TaskFits(p, th, t) && Phase(p.last, th.stage) == f
    ensures var th := ThreadFor(p, slot, m, k);
            Mid(p, res[th.node := (if th.node in res then res[th.node] else []) + [t]], Add(who, th), f, slot, m, done + {k})
  {
    hide TaskFits, Listed, WellFormed, Phase;
    var th := ThreadFor(p, slot, m, k);
    var who' := Add(who, th);
    var res' := res[th.node := (if th.node in res then res[th.node] else []) + [t]];
    NotIssued(p, res, who, f, slot, m, done, k);
    EmitsMore(p, res, who, th, t);
    CoversMore(p, who, f, th);
    forall c, i | c in who' && 0 <= i < |who'[c]|
      ensures Phase(p.last, who'[c][i]) < f || exists j :: j in done + {k} && OfKey(p, slot, m, j, Thread(c, who'[c][i]))
    {
      if c in who && i < |who[c]| {
        assert who'[c][i] == who[c][i];
        if Phase(p.last, who[c][i]) >= f {
          var j :| j in done && OfKey(p, slot, m, j, Thread(c, who[c][i]));
          assert j in done + {k};
        }
      } else {
        assert OfKey(p, slot, m, k, Thread(c, who'[c][i]));
        assert k in done + {k};
      }
    }
    forall j | j in done + {k} ensures j in m && Issued(who', ThreadFor(p, slot, m, j)) {
      if j in done {
        IssuedMore(who, th, ThreadFor(p, slot, m, j));
      }
    }
  }

  lemma IssuedMore(who: Stages, th: Thread, other: Thread)
    ensures Issued(who, other) ==> Issued(Add(who, th), other)
    ensures Issued(Add(who, th), th)
  {}

  lemma CoversMore<C>(p: Plan<C>, who: Stages, f: int, th: Thread)
    requires Covers(p, who, f)
    ensures Covers(p, Add(who, th), f)
  {
    forall other, v | Listed(p, other, v) && Phase(p.last, other.stage) < f ensures Issued(Add(who, th), other) {
      IssuedMore(who, th, other);
    }
  }

  lemma NotIssued<C>(p: Plan<C>, res: TaskLists<C>, who: Stages, f: int, slot: Slot, m: map<int, seq<int>>, done: set<int>, k: int)
    requires Mid(p, res, who, f, slot, m, done) && k in m && k !in done
    requires Phase(p.last, ThreadFor(p, slot, m, k).stage) == f
    ensures !Issued(who, ThreadFor(p, slot, m, k))
  {
    hide TaskFits, Listed, WellFormed, Emits, Covers;
    if Issued(who, ThreadFor(p, slot, m, k)) {
      IssuedForKey(p, res, who, f, slot, m, done, ThreadFor(p, slot, m, k));
    }
  }

  lemma IssuedForKey<C>(p: Plan<C>, res: TaskLists<C>, who: Stages, f: int, slot: Slot, m: map<int, seq<int>>, done: set<int>, th: Thread)
    requires Mid(p, res, who, f, slot, m, done) && Phase(p.last, th.stage) == f && Issued(who, th)
    ensures exists j :: j in done && OfKey(p, slot, m, j, th)
  {
    hide TaskFits, Listed, WellFormed, Emits, Covers;
    var i := S.IndexIn(who[th.node], th.stage);
  }

  lemma EmitsMore<C>(p: Plan<C>, res: TaskLists<C>, who: Stages, th: Thread, t: Task<C>)
    requires Emits(p, res, who) && TaskFits(p, th, t) && !Issued(who, th)
    ensures Emits(p, res[th.node := (if th.node in res then res[th.node] else []) + [t]], Add(who, th))
  {
    hide TaskFits, WellFormed;
    var c := th.node;
    assert c in res <==> c in who;
    var have := if c in who then who[c] else [];
    assert Distinct(have + [th.stage]);
  }

  lemma PhaseEnds<C>(p: Plan<C>, res: TaskLists<C>, who: Stages, f: int, slot: Slot, m: map<int, seq<int>>, vs: seq<int>)
    requires Mid(p, res, who, f, slot, m, m.Keys) && Buckets(p, m, vs, slot) && Concerns(p, vs, slot, f)
    ensures Stand(p, res, who, f + 1)
  {
    hide TaskFits, Listed, WellFormed, Emits;
    forall th, v | Listed(p, th, v) && Phase(p.last, th.stage) < f + 1 ensures Issued(who, th) {
      if Phase(p.last, th.stage) == f {
        ListedInDag(p, th, v);
        var k := if slot.ByBlock? then th.stage.blk else th.node;
        assert OnList(p, slot, k, v);
        assert Has(m, k, v);
        assert k in m.Keys;
        var u := m[k][0];
        assert u in m[k];
        assert Has(m, k, u);
        if slot.ByBlock? { SameColorInBlock(p, k, u, v); }
      }
    }
    forall c, i | c in who && 0 <= i < |who[c]| ensures Phase(p.last, who[c][i]) < f + 1 {
      if Phase(p.last, who[c][i]) >= f {
        var k :| k in m.Keys && OfKey(p, slot, m, k, Thread(c, who[c][i]));
        SlotPhase(p, slot, m, k, vs, f);
      }
    }
  }

  lemma SlotPhase<C>(p: Plan<C>, slot: Slot, m: map<int, seq<int>>, k: int, vs: seq<int>, f: int)
    requires Concerns(p, vs, slot, f) && Filled(p, m) && k in m
    ensures Phase(p.last, ThreadFor(p, slot, m, k).stage) == f
  {}

  // ---------------------------------------------------------------------------------------------
  // The loops that build tasks

  ghost predicate Looping<C>(p: Plan<C>, res: TaskLists<C>, who: Stages, f: int, slot: Slot, m: map<int, seq<int>>, vs: seq<int>, done: set<int>, todo: set<int>) {
    && Mid(p, res, who, f, slot, m, done) && Buckets(p, m, vs, slot) && Concerns(p, vs, slot, f)
    && done + todo == m.Keys && done !! todo
  }

  lemma LoopStart<C>(p: Plan<C>, res: TaskLists<C>, who: Stages, f: int, slot: Slot, m: map<int, seq<int>>, vs: seq<int>)
    requires Stand(p, res, who, f) && Buckets(p, m, vs, slot) && Concerns(p, vs, slot, f)
    ensures Looping(p, res, who, f, slot, m, vs, {}, m.Keys)
  {
    PhaseBegins(p, res, who, f, slot, m, vs);
  }

  lemma LoopEnd<C>(p: Plan<C>, res: TaskLists<C>, who: Stages, f: int, slot: Slot, m: map<int, seq<int>>, vs: seq<int>, done: set<int>)
    requires Looping(p, res, who, f, slot, m, vs, done, {})
    ensures Stand(p, res, who, f + 1)
  {
    assert done == m.Keys;
    PhaseEnds(p, res, who, f, slot, m, vs);
  }

  lemma LoopKey<C>(p: Plan<C>, res: TaskLists<C>, who: Stages, f: int, slot: Slot, m: map<int, seq<int>>, vs: seq<int>, done: set<int>, todo: set<int>, k: int)
    requires Looping(p, res, who, f, slot, m, vs, done, todo) && k in todo
    ensures WellFormed(p) && k in m && k !in done && m[k] != [] && m[k][0] in p.col
    ensures Lists(p, ThreadFor(p, slot, m, k), m[k]) && forall v | v in m[k] :: v in vs
    ensures forall i | 0 <= i < |m[k]| :: m[k][i] in vs
  {
    SlotLists(p, m, vs, slot, f, k);
    forall i | 0 <= i < |m[k]| ensures m[k][i] in vs {
      var v := m[k][i];
      assert v in m[k];
    }
  }

  lemma LoopNext<C>(p: Plan<C>, res: TaskLists<C>, who: Stages, f: int, slot: Slot, m: map<int, seq<int>>, vs: seq<int>, done: set<int>, todo: set<int>,
                    k: int, t: Task<C>)
    requires Looping(p, res, who, f, slot, m, vs, done, todo) && k in todo && k in m && m[k] != [] && m[k][0] in p.col && WellFormed(p)
    requires TaskFits(p, ThreadFor(p, slot, m, k), t)
    ensures var th := ThreadFor(p, slot, m, k);
            Looping(p, res[th.node := (if th.node in res then res[th.node] else []) + [t]], Add(who, th), f, slot, m, vs, done + {k}, todo - {k})
  {
    hide TaskFits, Mid, Buckets, Concerns, ThreadFor, Listed;
    SlotPhaseOf(p, res, who, f, slot, m, vs, done, k);
    Posted(p, res, who, f, slot, m, done, k, t);
  }

  lemma SlotPhaseOf<C>(p: Plan<C>, res: TaskLists<C>, who: Stages, f: int, slot: Slot, m: map<int, seq<int>>, vs: seq<int>, done: set<int>, k: int)
    requires Mid(p, res, who, f, slot, m, done) && Concerns(p, vs, slot, f) && k in m && m[k] != [] && m[k][0] in p.col
    ensures Phase(p.last, ThreadFor(p, slot, m, k).stage) == f
  {}

  function Insert(x: int, s: seq<int>): (r: seq<int>)
    ensures multiset(r) == multiset(s) + multiset{x}
  {
    if s == [] then [x]
    else if x <= s[0] then [x] + s
    else
      assert s == [s[0]] + s[1..];
      [s[0]] + Insert(x, s[1..])
  }

  /** std::sort on a list of indices. */
  function SortIds(s: seq<int>): (r: seq<int>)
    ensures multiset(r) == multiset(s)
  {
    if s == [] then []
    else
      assert s == [s[0]] + s[1..];
      Insert(s[0], SortIds(s[1..]))
  }

  lemma SortedSame<C>(p: Plan<C>, th: Thread, xs: seq<int>)
    requires WellFormed(p) && Lists(p, th, xs)
    ensures Lists(p, th, SortIds(xs)) && forall v :: v in SortIds(xs) <==> v in xs
  {
    hide Listed, WellFormed, SortIds;
    var ys := SortIds(xs);
    forall v ensures v in ys <==> v in xs && multiset(ys)[v] <= 1 {
      DistinctCount(xs, v);
      assert v in ys <==> v in multiset(ys);
      assert v in xs <==> v in multiset(xs);
    }
    forall x ensures multiset(ys)[x] <= 1 { DistinctCount(xs, x); }
    CountedDistinct(ys);
    var u := xs[0];
    assert u in xs;
    forall i | 0 <= i < |ys| ensures Listed(p, th, ys[i]) {
      var v := ys[i];
      assert v in ys;
      var j := S.IndexIn(xs, v);
    }
  }

  /** src/common/Stripe.cc:820-842 */
  method EmitReads<C>(ghost p: Plan<C>, col: Coloring, blklist: seq<string>, r: Prep, ghost vs: seq<int>, res0: TaskLists<C>, ghost who0: Stages)
    returns (res: TaskLists<C>, ghost who: Stages)
    requires Stand(p, res0, who0, 0) && Buckets(p, r.own, vs, ByBlock) && Concerns(p, vs, ByBlock, 0)
    requires WellFormed(p) && UsagesRight(p, r.usage, vs) && p.col == col && p.blklist == blklist
    ensures Stand(p, res, who, 1)
  {
    hide *;
    res, who := res0, who0;
    var m := r.own;
    LoopStart(p, res, who, 0, ByBlock, m, vs);
    var todo := m.Keys;
    ghost var done := {};
    while todo != {}
      invariant Looping(p, res, who, 0, ByBlock, m, vs, done, todo)
      decreases |todo|
    {
      var k := S.Choose(todo);
      LoopKey(p, res, who, 0, ByBlock, m, vs, done, todo, k);
      ghost var th := ThreadFor(p, ByBlock, m, k);
      BlockKey(p, m, k);
      var t := BuildRead(p, th, blklist, k, m[k], r.usage, vs);
      LoopNext(p, res, who, 0, ByBlock, m, vs, done, todo, k, t);
      res := Post(res, col[m[k][0]], t);
      who := Add(who, th);
      done, todo := done + {k}, todo - {k};
    }
    LoopEnd(p, res, who, 0, ByBlock, m, vs, done);
  }

  lemma BlockKey<C>(p: Plan<C>, m: map<int, seq<int>>, k: int)
    requires k in m && m[k] != [] && m[k][0] in p.col
    ensures ThreadFor(p, ByBlock, m, k) == Thread(p.col[m[k][0]], Reading(k))
  {}

  lemma UsageAt<C>(p: Plan<C>, usage: map<int, Usage>, vs: seq<int>, v: int)
    requires WellFormed(p) && UsagesRight(p, usage, vs) && v in vs
    ensures v in p.g && v in usage && usage[v] == UsageOf(p, v)
  {}

  lemma ReadFits<C>(p: Plan<C>, th: Thread, blk: int, xs: seq<int>, us: seq<Usage>)
    requires WellFormed(p) && th.stage == Reading(blk) && Lists(p, th, xs) && |us| == |xs|
    requires forall i | 0 <= i < |xs| :: xs[i] in p.g && us[i] == UsageOf(p, xs[i])
    ensures 0 <= blk < |p.blklist| && TaskFits<C>(p, th, Read(p.blklist[blk], xs, us))
  {
    hide WellFormed, Lists, UsageOf;
    FirstListed(p, th, xs);
    ReadBlock(p, th, xs[0]);
  }

  lemma FirstListed<C>(p: Plan<C>, th: Thread, xs: seq<int>)
    requires WellFormed(p) && Lists(p, th, xs)
    ensures xs != [] && Listed(p, th, xs[0])
  {
    hide WellFormed, Listed, Distinct;
  }

  lemma ReadBlock<C>(p: Plan<C>, th: Thread, v: int)
    requires WellFormed(p) && th.stage.Reading? && Listed(p, th, v)
    ensures 0 <= th.stage.blk < p.ecn <= |p.blklist| && p.blklist[th.stage.blk] != ZERO
  {
    hide Mirrored, Closed, Distinct;
    LeafIsKeyable(p, v);
  }

  lemma LeafIsKeyable<C>(p: Plan<C>, v: int)
    requires WellFormed(p) && v in p.g && p.g[v].children == []
    ensures 0 <= v && 0 < p.ecw && 0 <= v / p.ecw
  {
    hide Mirrored, Closed, Distinct, IsStored;
    assert p.lev[v] == 0 != p.last;
    assert v != p.header && Keyable(v);
  }

  method BuildRead<C>(ghost p: Plan<C>, ghost th: Thread, blklist: seq<string>, blk: int, xs: seq<int>, usage: map<int, Usage>, ghost vs: seq<int>)
    returns (t: Task<C>)
    requires WellFormed(p) && th.stage == Reading(blk) && Lists(p, th, xs) && UsagesRight(p, usage, vs) && p.blklist == blklist
    requires forall v | v in xs :: v in vs
    ensures TaskFits(p, th, t)
  {
    hide WellFormed, Lists, UsagesRight, UsageOf, SortIds, TaskFits;
    PlanFits(p);
    SortedSame(p, th, xs);
    var dagidxlist := SortIds(xs);
    forall i | 0 <= i < |dagidxlist| ensures dagidxlist[i] in p.g && dagidxlist[i] in usage && usage[dagidxlist[i]] == UsageOf(p, dagidxlist[i]) {
      var v := dagidxlist[i];
      assert v in dagidxlist;
      UsageAt(p, usage, vs, v);
    }
    var usagelist := [];
    for i := 0 to |dagidxlist|
      invariant |usagelist| == i && forall j | 0 <= j < i :: usagelist[j] == UsageOf(p, dagidxlist[j])
    {
      usagelist := usagelist + [usage[dagidxlist[i]]];
    }
    ReadFits(p, th, blk, dagidxlist, usagelist);
    t := Read(blklist[blk], dagidxlist, usagelist);
  }

  lemma NodeKey<C>(p: Plan<C>, m: map<int, seq<int>>, st: Stage, k: int)
    requires k in m && m[k] != [] && m[k][0] in p.col
    ensures ThreadFor(p, ByNode(st), m, k) == Thread(k, st)
  {}

  /** src/common/Stripe.cc:844-863, 1101-1120 */
  method EmitSends<C>(ghost p: Plan<C>, r: Prep, ghost vs: seq<int>, ghost l: nat, res0: TaskLists<C>, ghost who0: Stages)
    returns (res: TaskLists<C>, ghost who: Stages)
    requires Stand(p, res0, who0, 4 * l + 1) && Buckets(p, r.sendfrom, vs, ByNode(Sending(l))) && Concerns(p, vs, ByNode(Sending(l)), 4 * l + 1)
    requires WellFormed(p) && SendsRight(p, r.sendto, vs)
    ensures Stand(p, res, who, 4 * l + 2)
  {
    hide *;
    res, who := res0, who0;
    var m := r.sendfrom;
    ghost var slot := ByNode(Sending(l));
    LoopStart(p, res, who, 4 * l + 1, slot, m, vs);
    var todo := m.Keys;
    ghost var done := {};
    while todo != {}
      invariant Looping(p, res, who, 4 * l + 1, slot, m, vs, done, todo)
      decreases |todo|
    {
      var k := S.Choose(todo);
      LoopKey(p, res, who, 4 * l + 1, slot, m, vs, done, todo, k);
      NodeKey(p, m, Sending(l), k);
      var t := BuildSend(p, Thread(k, Sending(l)), l, m[k], r.sendto, vs);
      LoopNext(p, res, who, 4 * l + 1, slot, m, vs, done, todo, k, t);
      res := Post(res, k, t);
      who := Add(who, Thread(k, Sending(l)));
      done, todo := done + {k}, todo - {k};
    }
    LoopEnd(p, res, who, 4 * l + 1, slot, m, vs, done);
  }

  lemma SendAt<C>(p: Plan<C>, th: Thread, l: nat, xs: seq<int>, sendto: map<int, seq<int>>, vs: seq<int>, i: nat)
    requires WellFormed(p) && th.stage == Sending(l) && Lists(p, th, xs) && SendsRight(p, sendto, vs)
    requires i < |xs| && xs[i] in vs
    ensures xs[i] in p.g && xs[i] in sendto && Destinations(p, xs[i], sendto[xs[i]])
  {
    var v := xs[i];
    assert Listed(p, th, v);
  }

  method BuildSend<C>(ghost p: Plan<C>, ghost th: Thread, ghost l: nat, xs: seq<int>, sendto: map<int, seq<int>>, ghost vs: seq<int>)
    returns (t: Task<C>)
    requires WellFormed(p) && th.stage == Sending(l) && Lists(p, th, xs) && SendsRight(p, sendto, vs)
    requires forall i | 0 <= i < |xs| :: xs[i] in vs
    ensures TaskFits(p, th, t)
  {
    hide WellFormed, Lists, SendsRight, Destinations;
    PlanFits(p);
    forall i | 0 <= i < |xs| ensures xs[i] in p.g && xs[i] in sendto && Destinations(p, xs[i], sendto[xs[i]]) {
      SendAt(p, th, l, xs, sendto, vs, i);
    }
    var sendtolists := [];
    for i := 0 to |xs|
      invariant |sendtolists| == i && forall j | 0 <= j < i :: Destinations(p, xs[j], sendtolists[j])
    {
      sendtolists := sendtolists + [sendto[xs[i]]];
    }
    t := Send(xs, sendtolists);
  }

  /** src/common/Stripe.cc:865-879, 1122-1136 */
  method EmitRecvs<C>(ghost p: Plan<C>, r: Prep, ghost vs: seq<int>, ghost l: nat, res0: TaskLists<C>, ghost who0: Stages)
    returns (res: TaskLists<C>, ghost who: Stages)
    requires Stand(p, res0, who0, 4 * l + 2) && Buckets(p, r.recvin, vs, ByNode(Receiving(l))) && Concerns(p, vs, ByNode(Receiving(l)), 4 * l + 2)
    ensures Stand(p, res, who, 4 * l + 3)
  {
    hide *;
    res, who := res0, who0;
    var m := r.recvin;
    ghost var slot := ByNode(Receiving(l));
    LoopStart(p, res, who, 4 * l + 2, slot, m, vs);
    var todo := m.Keys;
    ghost var done := {};
    while todo != {}
      invariant Looping(p, res, who, 4 * l + 2, slot, m, vs, done, todo)
      decreases |todo|
    {
      var k := S.Choose(todo);
      LoopKey(p, res, who, 4 * l + 2, slot, m, vs, done, todo, k);
      NodeKey(p, m, Receiving(l), k);
      var t: Task<C> := Recv(m[k]);
      RecvFits(p, Thread(k, Receiving(l)), l, m[k]);
      LoopNext(p, res, who, 4 * l + 2, slot, m, vs, done, todo, k, t);
      res := Post(res, k, t);
      who := Add(who, Thread(k, Receiving(l)));
      done, todo := done + {k}, todo - {k};
    }
    LoopEnd(p, res, who, 4 * l + 2, slot, m, vs, done);
  }

  lemma RecvFits<C>(p: Plan<C>, th: Thread, l: nat, xs: seq<int>)
    requires WellFormed(p) && Lists(p, th, xs)
    ensures th.stage == Receiving(l) ==> TaskFits<C>(p, th, Recv(xs))
    ensures th.stage == Zeroing(l) ==> TaskFits<C>(p, th, Read(ZERO, xs, []))
  {
    hide WellFormed, Lists;
  }

  /** Zero sub-packets per node that uses them (src/common/Stripe.cc:895-940, 1138-1183). */
  method GatherZeroes<C>(ghost p: Plan<C>, g: Dag<C>, col: Coloring, zeroidx: seq<int>, ghost l: nat) returns (m: map<int, seq<int>>)
    requires WellFormed(p) && p.g == g && p.col == col && Distinct(zeroidx)
    requires forall i | 0 <= i < |zeroidx| :: ZeroAt(p, zeroidx[i], l)
    ensures Buckets(p, m, zeroidx, ByNode(Zeroing(l)))
  {
    hide WellFormed, Buckets, ParentColor, ZeroAt, OnList, AddedTo, Distinct;
    PlanFits(p);
    NoBuckets(p, ByNode(Zeroing(l)));
    m := map[];
    assert zeroidx[..0] == [];
    for i := 0 to |zeroidx|
      invariant Buckets(p, m, zeroidx[..i], ByNode(Zeroing(l)))
    {
      ZeroKeys(p, zeroidx[i], l);
      var nodeidlist := ZeroIdList(g, col, zeroidx[i]);
      ghost var before := m;
      m := AddAll(m, nodeidlist, zeroidx[i]);
      NotBefore(zeroidx, i);
      BucketsNext(p, before, m, zeroidx[..i], zeroidx[i], nodeidlist, ByNode(Zeroing(l)));
      assert zeroidx[..i + 1] == zeroidx[..i] + [zeroidx[i]];
    }
    assert zeroidx[..|zeroidx|] == zeroidx;
  }

  ghost predicate ZeroAt<C>(p: Plan<C>, v: int, l: nat)
    requires WellFormed(p)
  {
    v in p.g && p.lev[v] == l < p.last && !IsReal(p, v)
  }

  lemma ZeroKeys<C>(p: Plan<C>, v: int, l: nat)
    requires WellFormed(p) && ZeroAt(p, v, l)
    ensures v in p.g && forall k :: (k != -1 && ParentColor(p.g, p.col, v, k)) <==> OnList(p, ByNode(Zeroing(l)), k, v)
  {
    hide ParentColor;
  }

  /** src/common/Stripe.cc:942-962, 1185-1211 */
  method EmitZeroes<C>(ghost p: Plan<C>, m: map<int, seq<int>>, ghost vs: seq<int>, ghost l: nat, res0: TaskLists<C>, ghost who0: Stages)
    returns (res: TaskLists<C>, ghost who: Stages)
    requires Stand(p, res0, who0, 4 * l + 3) && Buckets(p, m, vs, ByNode(Zeroing(l))) && Concerns(p, vs, ByNode(Zeroing(l)), 4 * l + 3)
    ensures Stand(p, res, who, 4 * l + 4)
  {
    hide *;
    res, who := res0, who0;
    ghost var slot := ByNode(Zeroing(l));
    LoopStart(p, res, who, 4 * l + 3, slot, m, vs);
    var todo := m.Keys;
    ghost var done := {};
    while todo != {}
      invariant Looping(p, res, who, 4 * l + 3, slot, m, vs, done, todo)
      decreases |todo|
    {
      var k := S.Choose(todo);
      LoopKey(p, res, who, 4 * l + 3, slot, m, vs, done, todo, k);
      NodeKey(p, m, Zeroing(l), k);
      var t: Task<C> := Read(ZERO, m[k], []);
      RecvFits(p, Thread(k, Zeroing(l)), l, m[k]);
      LoopNext(p, res, who, 4 * l + 3, slot, m, vs, done, todo, k, t);
      res := Post(res, k, t);
      who := Add(who, Thread(k, Zeroing(l)));
      done, todo := done + {k}, todo - {k};
    }
    LoopEnd(p, res, who, 4 * l + 3, slot, m, vs, done);
  }

  /** src/common/Stripe.cc:1075-1099 */
  method EmitComputes<C>(ghost p: Plan<C>, g: Dag<C>, r: Prep, ghost vs: seq<int>, ghost l: nat, res0: TaskLists<C>, ghost who0: Stages)
    returns (res: TaskLists<C>, ghost who: Stages)
    requires Stand(p, res0, who0, 4 * l) && Buckets(p, r.own, vs, ByNode(Computing(l))) && Concerns(p, vs, ByNode(Computing(l)), 4 * l)
    requires WellFormed(p) && UsagesRight(p, r.usage, vs) && p.g == g
    ensures Stand(p, res, who, 4 * l + 1)
  {
    hide *;
    res, who := res0, who0;
    var m := r.own;
    ghost var slot := ByNode(Computing(l));
    LoopStart(p, res, who, 4 * l, slot, m, vs);
    var todo := m.Keys;
    ghost var done := {};
    while todo != {}
      invariant Looping(p, res, who, 4 * l, slot, m, vs, done, todo)
      decreases |todo|
    {
      var k := S.Choose(todo);
      LoopKey(p, res, who, 4 * l, slot, m, vs, done, todo, k);
      NodeKey(p, m, Computing(l), k);
      var t := BuildCompute(p, Thread(k, Computing(l)), l, g, m[k], r.usage, vs);
      LoopNext(p, res, who, 4 * l, slot, m, vs, done, todo, k, t);
      res := Post(res, k, t);
      who := Add(who, Thread(k, Computing(l)));
      done, todo := done + {k}, todo - {k};
    }
    LoopEnd(p, res, who, 4 * l, slot, m, vs, done);
  }

  ghost predicate ItemsUpTo<C>(p: Plan<C>, items: seq<ComputeItem<C>>, xs: seq<int>, n: nat)
    requires WellFormed(p) && n <= |xs|
  {
    |items| == n && forall j | 0 <= j < n :: xs[j] in p.g && items[j] == ComputeItem(xs[j], p.g[xs[j]].children, p.g[xs[j]].coefs, UsageOf(p, xs[j]))
  }

  lemma ComputeFits<C>(p: Plan<C>, th: Thread, l: nat, items: seq<ComputeItem<C>>, xs: seq<int>)
    requires WellFormed(p) && th.stage == Computing(l) && Lists(p, th, xs) && ItemsUpTo(p, items, xs, |xs|)
    ensures TaskFits(p, th, Compute(items))
  {
    hide WellFormed, Lists, UsageOf;
    assert Dsts(items) == xs;
  }

  method BuildCompute<C>(ghost p: Plan<C>, ghost th: Thread, ghost l: nat, g: Dag<C>, xs: seq<int>, usage: map<int, Usage>, ghost vs: seq<int>)
    returns (t: Task<C>)
    requires WellFormed(p) && th.stage == Computing(l) && Lists(p, th, xs) && UsagesRight(p, usage, vs) && p.g == g
    requires forall i | 0 <= i < |xs| :: xs[i] in vs
    ensures TaskFits(p, th, t)
  {
    hide WellFormed, Lists, UsagesRight, UsageOf, TaskFits;
    PlanFits(p);
    forall i | 0 <= i < |xs| ensures xs[i] in p.g && xs[i] in usage && usage[xs[i]] == UsageOf(p, xs[i]) {
      UsageAt(p, usage, vs, xs[i]);
    }
    var clist := [];
    for i := 0 to |xs|
      invariant ItemsUpTo(p, clist, xs, i)
    {
      var dagidx := xs[i];
      clist := clist + [ComputeItem(dagidx, g[dagidx].children, g[dagidx].coefs, usage[dagidx])];
    }
    ComputeFits(p, th, l, clist, xs);
    t := Compute(clist);
  }

  // ---------------------------------------------------------------------------------------------
  // Levels

  /** leaves lists level l of the plan. */
  ghost predicate IsLevel<C>(p: Plan<C>, leaves: seq<int>, l: nat) {
    WellFormed(p) && Distinct(leaves) && forall v :: v in leaves <==> v in p.g && p.lev[v] == l
  }

  /** Level l split into what nodes make and what is zero. */
  ghost predicate IsSplit<C>(p: Plan<C>, realidx: seq<int>, zeroidx: seq<int>, l: nat) {
    && WellFormed(p) && l < p.last && Distinct(realidx) && Distinct(zeroidx)
    && (forall v :: v in realidx <==> RealAt(p, v, l))
    && (forall v :: v in zeroidx <==> ZeroAt(p, v, l))
  }

  lemma SplitConcerns<C>(p: Plan<C>, realidx: seq<int>, zeroidx: seq<int>, l: nat)
    requires IsSplit(p, realidx, zeroidx, l)
    ensures if l == 0 then Concerns(p, realidx, ByBlock, 0) else Concerns(p, realidx, ByNode(Computing(l)), 4 * l)
    ensures Concerns(p, realidx, ByNode(Sending(l)), 4 * l + 1) && Concerns(p, realidx, ByNode(Receiving(l)), 4 * l + 2)
    ensures Concerns(p, zeroidx, ByNode(Zeroing(l)), 4 * l + 3)
  {
    hide IsSplit, Concerns;
    MakersConcerned(p, realidx, zeroidx, l);
    CarriersConcerned(p, realidx, zeroidx, l);
    ZeroersConcerned(p, realidx, zeroidx, l);
  }

  lemma MakersConcerned<C>(p: Plan<C>, realidx: seq<int>, zeroidx: seq<int>, l: nat)
    requires IsSplit(p, realidx, zeroidx, l)
    ensures if l == 0 then Concerns(p, realidx, ByBlock, 0) else Concerns(p, realidx, ByNode(Computing(l)), 4 * l)
  {
    PhasesOfLevel(p, l);
  }

  lemma CarriersConcerned<C>(p: Plan<C>, realidx: seq<int>, zeroidx: seq<int>, l: nat)
    requires IsSplit(p, realidx, zeroidx, l)
    ensures Concerns(p, realidx, ByNode(Sending(l)), 4 * l + 1) && Concerns(p, realidx, ByNode(Receiving(l)), 4 * l + 2)
  {
    PhasesOfLevel(p, l);
  }

  lemma ZeroersConcerned<C>(p: Plan<C>, realidx: seq<int>, zeroidx: seq<int>, l: nat)
    requires IsSplit(p, realidx, zeroidx, l)
    ensures Concerns(p, zeroidx, ByNode(Zeroing(l)), 4 * l + 3)
  {
    PhasesOfLevel(p, l);
  }

  lemma PhasesOfLevel<C>(p: Plan<C>, l: nat)
    requires WellFormed(p) && l < p.last
    ensures forall th, v | Listed(p, th, v) && 4 * l <= Phase(p.last, th.stage) < 4 * l + 4 ::
              match th.stage
              case Reading(_) => l == 0 && RealAt(p, v, l) && Phase(p.last, th.stage) == 0
              case Computing(k) => k == l != 0 && RealAt(p, v, l)
              case Sending(k) => k == l && RealAt(p, v, l)
              case Receiving(k) => k == l && RealAt(p, v, l)
              case Zeroing(k) => k == l && ZeroAt(p, v, l)
              case Persisting => false
  {
    hide WellFormed;
    forall th, v | Listed(p, th, v) && 4 * l <= Phase(p.last, th.stage) < 4 * l + 4
      ensures match th.stage
              case Reading(_) => l == 0 && RealAt(p, v, l) && Phase(p.last, th.stage) == 0
              case Computing(k) => k == l != 0 && RealAt(p, v, l)
              case Sending(k) => k == l && RealAt(p, v, l)
              case Receiving(k) => k == l && RealAt(p, v, l)
              case Zeroing(k) => k == l && ZeroAt(p, v, l)
              case Persisting => false
    {
      PhaseOfLevel(p, th, v, l);
    }
  }

  lemma PhaseOfLevel<C>(p: Plan<C>, th: Thread, v: int, l: nat)
    requires WellFormed(p) && l < p.last && Listed(p, th, v) && 4 * l <= Phase(p.last, th.stage) < 4 * l + 4
    ensures match th.stage
            case Reading(_) => l == 0 && RealAt(p, v, l) && Phase(p.last, th.stage) == 0
            case Computing(k) => k == l != 0 && RealAt(p, v, l)
            case Sending(k) => k == l && RealAt(p, v, l)
            case Receiving(k) => k == l && RealAt(p, v, l)
            case Zeroing(k) => k == l && ZeroAt(p, v, l)
            case Persisting => false
  {}

  /** The vertices of the level, sorted out (src/common/Stripe.cc:648-660, 993-1000). */
  method SplitLevel<C>(ghost p: Plan<C>, col: Coloring, ecn: nat, ecw: nat, leaves: seq<int>, l: nat) returns (realidx: seq<int>, zeroidx: seq<int>)
    requires IsLevel(p, leaves, l) && l < p.last && p.col == col && p.ecn == ecn && p.ecw == ecw
    ensures IsSplit(p, realidx, zeroidx, l)
  {
    hide WellFormed, IsReal, Distinct;
    LevelVertices(p, leaves, l);
    realidx, zeroidx := [], [];
    NoneTwice();
    for i := 0 to |leaves|
      invariant Distinct(realidx) && Distinct(zeroidx)
      invariant forall v :: v in realidx <==> v in leaves[..i] && RealAt(p, v, l)
      invariant forall v :: v in zeroidx <==> v in leaves[..i] && ZeroAt(p, v, l)
    {
      var dagidx := leaves[i];
      PrefixNext(leaves, i);
      RealIs(p, dagidx, l);
      if if l == 0 then dagidx / ecw < ecn else col[dagidx] != -1 {
        DistinctMore(realidx, dagidx);
        realidx := realidx + [dagidx];
      } else {
        DistinctMore(zeroidx, dagidx);
        zeroidx := zeroidx + [dagidx];
      }
    }
    assert leaves[..|leaves|] == leaves;
  }

  lemma NoneTwice()
    ensures Distinct<int>([])
  {}

  lemma DistinctMore(s: seq<int>, x: int)
    requires Distinct(s) && x !in s
    ensures Distinct(s + [x])
  {}

  lemma LevelVertices<C>(p: Plan<C>, leaves: seq<int>, l: nat)
    requires IsLevel(p, leaves, l)
    ensures WellFormed(p) && Distinct(leaves) && Colored(p.g, p.col) && 0 < p.ecw && p.lev.Keys == p.g.Keys
    ensures forall i | 0 <= i < |leaves| :: leaves[i] in p.g && p.lev[leaves[i]] == l
  {
    forall i | 0 <= i < |leaves| ensures leaves[i] in p.g && p.lev[leaves[i]] == l {
      var v := leaves[i];
      assert v in leaves;
    }
  }

  lemma RealIs<C>(p: Plan<C>, v: int, l: nat)
    requires WellFormed(p) && v in p.g && p.lev[v] == l < p.last && Colored(p.g, p.col)
    ensures RealAt(p, v, l) <==> if l == 0 then v / p.ecw < p.ecn else p.col[v] != -1
    ensures ZeroAt(p, v, l) <==> !RealAt(p, v, l)
  {}

  lemma OwnKey<C>(p: Plan<C>, v: int, l: nat, slot: Slot, key: int)
    requires WellFormed(p) && RealAt(p, v, l) && v in p.col
    requires slot == (if l == 0 then ByBlock else ByNode(Computing(l))) && key == if l == 0 then v / p.ecw else p.col[v]
    ensures forall k :: k in [key] <==> OnList(p, slot, k, v)
  {}

  /** The first half of genLevel0 and genIntermediateLevels, over realidx. */
  method PrepareLevel<C>(ghost p: Plan<C>, g: Dag<C>, col: Coloring, ecw: nat, realidx: seq<int>, ghost zeroidx: seq<int>, l: nat) returns (r: Prep)
    requires IsSplit(p, realidx, zeroidx, l) && p.g == g && p.col == col && p.ecw == ecw
    ensures WellFormed(p) && Prepared(p, r, realidx, if l == 0 then ByBlock else ByNode(Computing(l)), l)
  {
    hide *;
    ghost var slot := if l == 0 then ByBlock else ByNode(Computing(l));
    SplitParts(p, realidx, zeroidx, l);
    NothingPrepared(p, slot, l);
    r := Prep(map[], map[], map[], map[], map[]);
    assert realidx[..0] == [];
    for i := 0 to |realidx|
      invariant Prepared(p, r, realidx[..i], slot, l)
    {
      var v := realidx[i];
      PlanFits(p);
      var key := if l == 0 then v / ecw else col[v];
      OwnKey(p, v, l, slot, key);
      NotBefore(realidx, i);
      r := PrepareOne(p, g, col, r, v, key, realidx[..i], slot, l);
      assert realidx[..i + 1] == realidx[..i] + [v];
    }
    assert realidx[..|realidx|] == realidx;
  }

  lemma SplitParts<C>(p: Plan<C>, realidx: seq<int>, zeroidx: seq<int>, l: nat)
    requires IsSplit(p, realidx, zeroidx, l)
    ensures WellFormed(p) && Distinct(realidx) && Distinct(zeroidx)
    ensures forall i | 0 <= i < |realidx| :: RealAt(p, realidx[i], l) && realidx[i] in p.col
    ensures forall i | 0 <= i < |zeroidx| :: ZeroAt(p, zeroidx[i], l)
  {
    forall i | 0 <= i < |realidx| ensures RealAt(p, realidx[i], l) && realidx[i] in p.col {
      var v := realidx[i];
      assert v in realidx;
    }
    forall i | 0 <= i < |zeroidx| ensures ZeroAt(p, zeroidx[i], l) {
      var v := zeroidx[i];
      assert v in zeroidx;
    }
  }

  lemma PreparedParts<C>(p: Plan<C>, r: Prep, vs: seq<int>, slot: Slot, l: nat)
    requires WellFormed(p) && Prepared(p, r, vs, slot, l)
    ensures Buckets(p, r.own, vs, slot) && Buckets(p, r.sendfrom, vs, ByNode(Sending(l))) && Buckets(p, r.recvin, vs, ByNode(Receiving(l)))
    ensures UsagesRight(p, r.usage, vs) && SendsRight(p, r.sendto, vs)
  {}

  /** src/common/Stripe.cc:642-963 */
  method GenLevel0<C>(ghost p: Plan<C>, g: Dag<C>, col: Coloring, ecn: nat, ecw: nat, blklist: seq<string>, leaves: seq<int>,
                      res0: TaskLists<C>, ghost who0: Stages)
    returns (res: TaskLists<C>, ghost who: Stages)
    requires IsLevel(p, leaves, 0) && 0 < p.last && Stand(p, res0, who0, 0)
    requires p.g == g && p.col == col && p.ecn == ecn && p.ecw == ecw && p.blklist == blklist
    ensures Stand(p, res, who, 4)
  {
    hide *;
    var realidx, virtidx := SplitLevel(p, col, ecn, ecw, leaves, 0);
    SplitConcerns(p, realidx, virtidx, 0);
    SplitParts(p, realidx, virtidx, 0);
    var r := PrepareLevel(p, g, col, ecw, realidx, virtidx, 0);
    PreparedParts(p, r, realidx, ByBlock, 0);
    res, who := EmitReads(p, col, blklist, r, realidx, res0, who0);
    res, who := EmitSends(p, r, realidx, 0, res, who);
    res, who := EmitRecvs(p, r, realidx, 0, res, who);
    var nodeid2virdagidxlist := GatherZeroes(p, g, col, virtidx, 0);
    res, who := EmitZeroes(p, nodeid2virdagidxlist, virtidx, 0, res, who);
  }

  /** src/common/Stripe.cc:965-1212 */
  method GenIntermediateLevels<C>(ghost p: Plan<C>, g: Dag<C>, col: Coloring, ecn: nat, ecw: nat, leaves: seq<int>, l: nat,
                                  res0: TaskLists<C>, ghost who0: Stages)
    returns (res: TaskLists<C>, ghost who: Stages)
    requires IsLevel(p, leaves, l) && 0 < l < p.last && Stand(p, res0, who0, 4 * l)
    requires p.g == g && p.col == col && p.ecn == ecn && p.ecw == ecw
    ensures Stand(p, res, who, 4 * (l + 1))
  {
    hide *;
    var realidx, zeroidx := SplitLevel(p, col, ecn, ecw, leaves, l);
    SplitConcerns(p, realidx, zeroidx, l);
    SplitParts(p, realidx, zeroidx, l);
    var r := PrepareLevel(p, g, col, ecw, realidx, zeroidx, l);
    PreparedParts(p, r, realidx, ByNode(Computing(l)), l);
    res, who := EmitComputes(p, g, r, realidx, l, res0, who0);
    res, who := EmitSends(p, r, realidx, l, res, who);
    res, who := EmitRecvs(p, r, realidx, l, res, who);
    var nodeid2zerodagidxlist := GatherZeroes(p, g, col, zeroidx, l);
    res, who := EmitZeroes(p, nodeid2zerodagidxlist, zeroidx, l, res, who);
  }

  /** src/common/Stripe.cc:1214-1249 */
  method GenLastLevel<C>(ghost p: Plan<C>, g: Dag<C>, col: Coloring, repair_blockname: string, leaves: seq<int>, res0: TaskLists<C>, ghost who0: Stages)
    returns (res: TaskLists<C>, ghost who: Stages)
    requires WellFormed(p) && leaves == [p.header] && Stand(p, res0, who0, 4 * p.last)
    requires p.g == g && p.col == col && p.repaired == repair_blockname
    ensures Stand(p, res, who, 4 * p.last + 1)
  {
    hide Stand;
    var dagidx := leaves[0];
    var t: Task<C> := Persist(g[dagidx].children, repair_blockname);
    LastStand(p, res0, who0, t);
    res := Post(res0, col[dagidx], t);
    who := Add(who0, Thread(col[dagidx], Persisting));
  }

  lemma LastStand<C>(p: Plan<C>, res: TaskLists<C>, who: Stages, t: Task<C>)
    requires WellFormed(p) && Stand(p, res, who, 4 * p.last) && t == Persist(p.g[p.header].children, p.repaired)
    ensures var c := p.col[p.header];
            Stand(p, res[c := (if c in res then res[c] else []) + [t]], Add(who, Thread(c, Persisting)), 4 * p.last + 1)
  {
    hide WellFormed;
    PlanFits(p);
    HeaderInDag(p);
    var m := map[p.col[p.header] := [p.header]];
    var slot, vs := ByNode(Persisting), [p.header];
    HeaderBucket(p, m, vs);
    LastConcerns(p, vs);
    LoopStart(p, res, who, 4 * p.last, slot, m, vs);
    LoopNext(p, res, who, 4 * p.last, slot, m, vs, {}, m.Keys, p.col[p.header], t);
    assert {} + {p.col[p.header]} == m.Keys && m.Keys - {p.col[p.header]} == {};
    LoopEnd(p, res[p.col[p.header] := (if p.col[p.header] in res then res[p.col[p.header]] else []) + [t]],
      Add(who, Thread(p.col[p.header], Persisting)), 4 * p.last, slot, m, vs, m.Keys);
  }

  lemma HeaderInDag<C>(p: Plan<C>)
    requires WellFormed(p)
    ensures p.header in p.g && p.header in p.col && 0 < p.last
  {}

  lemma HeaderBucket<C>(p: Plan<C>, m: map<int, seq<int>>, vs: seq<int>)
    requires WellFormed(p) && p.header in p.g && p.header in p.col
    requires m == map[p.col[p.header] := [p.header]] && vs == [p.header]
    ensures Buckets(p, m, vs, ByNode(Persisting))
  {
    hide WellFormed;
  }

  lemma LastConcerns<C>(p: Plan<C>, vs: seq<int>)
    requires WellFormed(p) && vs == [p.header]
    ensures Concerns(p, vs, ByNode(Persisting), 4 * p.last)
  {
    hide WellFormed, Listed;
    forall th, v | Listed(p, th, v) && Phase(p.last, th.stage) == 4 * p.last ensures v in vs && FitsSlot(ByNode(Persisting), th) {
      OnlyPersisting(p, th, v);
    }
  }

  lemma OnlyPersisting<C>(p: Plan<C>, th: Thread, v: int)
    requires WellFormed(p) && Listed(p, th, v) && Phase(p.last, th.stage) == 4 * p.last
    ensures v == p.header && th.stage.Persisting?
  {
    hide Mirrored, Closed, Distinct, IsReal, IsStored, HasOther, ParentColor;
  }

  // ---------------------------------------------------------------------------------------------
  // The whole compiler

  ghost predicate Remapped(before: Coloring, after: Coloring, fail2repair: map<int, int>) {
    && after.Keys == before.Keys
    && forall v | v in before :: after[v] == if before[v] in fail2repair then fail2repair[before[v]] else before[v]
  }

  /** src/common/Stripe.cc:607-613 */
  method Remap(coloring0: Coloring, fail2repair: map<int, int>) returns (coloring: Coloring)
    ensures Remapped(coloring0, coloring, fail2repair)
  {
    coloring := coloring0;
    var todo := coloring0.Keys;
    while todo != {}
      invariant todo <= coloring0.Keys && coloring.Keys == coloring0.Keys
      invariant forall v | v in coloring0 ::
          coloring[v] == if v !in todo && coloring0[v] in fail2repair then fail2repair[coloring0[v]] else coloring0[v]
      decreases |todo|
    {
      var v := S.Choose(todo);
      var color := coloring0[v];
      if color in fail2repair {
        coloring := coloring[v := fail2repair[color]];
      }
      todo := todo - {v};
    }
  }

  /** What the compiler needs of the DAG and its colours, whatever the levels turn out to be. */
  ghost predicate Deploys<C>(g: Dag<C>, col: Coloring, header: int, ecn: nat, ecw: nat, blklist: seq<string>) {
    && Closed(g) && col.Keys == g.Keys && header in g && g[header].children != [] && Distinct(g[header].children) && 0 < ecw
    && (forall v, u | v in g && u in g && g[v].children == [] && g[u].children == [] && v / ecw < ecn && v / ecw == u / ecw :: col[v] == col[u])
    && (forall v | v in g && v != header :: Keyable(v))
    && ecn <= |blklist| && (forall b | 0 <= b < ecn :: blklist[b] != ZERO)
  }

  lemma PlanIsWellFormed<C>(p: Plan<C>, levels: seq<seq<int>>)
    requires Mirrored(p.g) && Deploys(p.g, p.col, p.header, p.ecn, p.ecw, p.blklist)
    requires p.lev.Keys == p.g.Keys && S.LevelsFit(p.g, p.lev) && S.Places(levels, p.lev)
    requires levels != [] && levels[|levels| - 1] == [p.header] && p.last == |levels| - 1
    ensures WellFormed(p)
  {
    hide Mirrored, S.Places, S.LevelsFit, Closed, Distinct;
    LevelFacts(p, levels);
    forall v, u | v in p.g && u in p.g && IsStored(p, v) && IsStored(p, u) && v / p.ecw == u / p.ecw
      ensures p.col[v] == p.col[u] {}
  }

  lemma LevelFacts<C>(p: Plan<C>, levels: seq<seq<int>>)
    requires Closed(p.g) && p.header in p.g && p.g[p.header].children != []
    requires p.lev.Keys == p.g.Keys && S.LevelsFit(p.g, p.lev) && S.Places(levels, p.lev)
    requires levels != [] && levels[|levels| - 1] == [p.header] && p.last == |levels| - 1
    ensures 0 < p.last
    ensures forall v, i | v in p.g && 0 <= i < |p.g[v].children| :: p.lev[p.g[v].children[i]] < p.lev[v]
    ensures forall v | v in p.g :: p.lev[v] == 0 <==> p.g[v].children == []
    ensures forall v | v in p.g :: p.lev[v] <= p.last && (p.lev[v] == p.last <==> v == p.header)
  {
    hide S.LevelsFit, S.LevelFits, S.Places;
    forall v | v in p.g
      ensures p.lev[v] == 0 <==> p.g[v].children == []
      ensures forall i | 0 <= i < |p.g[v].children| :: p.lev[p.g[v].children[i]] < p.lev[v]
    {
      LevelZero(p.g, p.lev, v);
    }
    forall v | v in p.g ensures p.lev[v] <= p.last && (p.lev[v] == p.last <==> v == p.header) {
      InLevel(levels, p.lev, p.last, v);
    }
  }

  lemma InLevel(levels: seq<seq<int>>, lev: map<int, nat>, k: nat, v: int)
    requires S.Places(levels, lev) && k < |levels| && v in lev
    ensures lev[v] < |levels| && (v in levels[k] <==> lev[v] == k)
  {}

  lemma LevelZero<C>(g: Dag<C>, lev: map<int, nat>, v: int)
    requires v in g && v in lev && S.LevelsFit(g, lev)
    ensures lev[v] == 0 <==> g[v].children == []
    ensures forall i | 0 <= i < |g[v].children| :: g[v].children[i] in lev && lev[g[v].children[i]] < lev[v]
  {
    assert S.LevelFits(g, lev, v);
    if g[v].children != [] {
      var c := g[v].children[0];
      assert lev[c] < lev[v];
    }
  }

  lemma LevelIs<C>(p: Plan<C>, levels: seq<seq<int>>, l: nat)
    requires WellFormed(p) && S.Places(levels, p.lev) && l < |levels|
    ensures IsLevel(p, levels[l], l)
  {
    hide WellFormed;
    PlanFits(p);
  }

  /** The tasks by thread. */
  ghost function TasksOf<C>(res: TaskLists<C>, who: Stages): TaskMap<C>
    requires res.Keys == who.Keys && forall c | c in res :: |res[c]| == |who[c]|
  {
    map th | th in ThreadsOf(who) :: TaskAt(res, who, th)
  }

  ghost function ThreadsOf(who: Stages): set<Thread> {
    set c, i | c in who && 0 <= i < |who[c]| :: Thread(c, who[c][i])
  }

  ghost function TaskAt<C>(res: TaskLists<C>, who: Stages, th: Thread): Task<C>
    requires res.Keys == who.Keys && (forall c | c in res :: |res[c]| == |who[c]|) && th in ThreadsOf(who)
  {
    var i :| 0 <= i < |who[th.node]| && who[th.node][i] == th.stage;
    res[th.node][i]
  }

  lemma AllIssued<C>(p: Plan<C>, res: TaskLists<C>, who: Stages)
    requires Stand(p, res, who, 4 * p.last + 1)
    ensures WellFormed(p) && res.Keys == who.Keys && (forall c | c in res :: |res[c]| == |who[c]|)
    ensures Compiled(p, TasksOf(res, who))
    ensures forall c, i | c in res && 0 <= i < |res[c]| :: Thread(c, who[c][i]) in TasksOf(res, who) && res[c][i] == TasksOf(res, who)[Thread(c, who[c][i])]
  {
    hide WellFormed, TaskFits, Listed;
    var tasks := TasksOf(res, who);
    forall th | th in tasks ensures TaskFits(p, th, tasks[th]) {}
    forall th, v | Listed(p, th, v) ensures th in tasks {
      LastPhase(p, th, v);
      assert Issued(who, th);
      var i := S.IndexIn(who[th.node], th.stage);
      assert Thread(th.node, who[th.node][i]) == th;
    }
    forall c, i | c in res && 0 <= i < |res[c]| ensures Thread(c, who[c][i]) in tasks && res[c][i] == tasks[Thread(c, who[c][i])] {
      OnePlace(who[c], i);
    }
  }

  lemma OnePlace<T>(s: seq<T>, i: nat)
    requires Distinct(s) && i < |s|
    ensures forall j | 0 <= j < |s| && s[j] == s[i] :: j == i
  {}

  lemma LastPhase<C>(p: Plan<C>, th: Thread, v: int)
    requires WellFormed(p) && Listed(p, th, v)
    ensures Phase(p.last, th.stage) <= 4 * p.last
  {}

  /** The loop over the levels (src/common/Stripe.cc:621-640). */
  method GenLevels<C>(ghost p: Plan<C>, g: Dag<C>, col: Coloring, ecn: nat, ecw: nat, blklist: seq<string>, repair_blockname: string,
                      topolevel: seq<seq<int>>)
    returns (taskmap: TaskLists<C>, ghost who: Stages)
    requires WellFormed(p) && S.Places(topolevel, p.lev) && p.last == |topolevel| - 1 && topolevel[p.last] == [p.header]
    requires p.g == g && p.col == col && p.ecn == ecn && p.ecw == ecw && p.blklist == blklist && p.repaired == repair_blockname
    ensures Stand(p, taskmap, who, 4 * p.last + 1)
  {
    hide *;
    var last := |topolevel| - 1;
    taskmap, who := map[], map[];
    NothingIssued(p, taskmap, who);
    HeaderInDag(p);
    LevelIs(p, topolevel, 0);
    taskmap, who := GenLevel0(p, g, col, ecn, ecw, blklist, topolevel[0], taskmap, who);
    for level := 1 to last
      invariant Stand(p, taskmap, who, 4 * level)
    {
      LevelIs(p, topolevel, level);
      taskmap, who := GenIntermediateLevels(p, g, col, ecn, ecw, topolevel[level], level, taskmap, who);
    }
    taskmap, who := GenLastLevel(p, g, col, repair_blockname, topolevel[last], taskmap, who);
  }

  /** src/common/Stripe.cc:598-640: the task lists are those of a compiled plan, each task in exactly one
      place of the list of its node. */
  method GenRepairTasks<C>(dag: E.ECDAG<C>, coloring0: Coloring, ecn: nat, ecw: nat, blklist: seq<string>, fail_blk_idx: nat,
                           fail2repair: map<int, int>)
    returns (coloring: Coloring, taskmap: TaskLists<C>, ghost p: Plan<C>, ghost who: Stages)
    requires dag.Valid() && |dag.headers| == 1 && fail_blk_idx < |blklist|
    requires forall col | Remapped(coloring0, col, fail2repair) :: Deploys(dag.nodes, col, dag.headers[0], ecn, ecw, blklist)
    ensures Remapped(coloring0, coloring, fail2repair)
    ensures p.g == dag.nodes && p.col == coloring && p.header == dag.headers[0] && p.ecn == ecn && p.ecw == ecw
    ensures p.blklist == blklist && p.repaired == blklist[fail_blk_idx] && S.LevelsFit(p.g, p.lev) && WellFormed(p)
    ensures taskmap.Keys == who.Keys && (forall c | c in taskmap :: |taskmap[c]| == |who[c]| && Distinct(who[c]))
    ensures Compiled(p, TasksOf(taskmap, who))
    ensures forall c, i | c in taskmap && 0 <= i < |taskmap[c]| ::
              Thread(c, who[c][i]) in TasksOf(taskmap, who) && taskmap[c][i] == TasksOf(taskmap, who)[Thread(c, who[c][i])]
  {
    hide *;
    ghost var lv;
    var topolevel;
    topolevel, lv := S.GenLeveledTopologicalSorting(dag);
    coloring := Remap(coloring0, fail2repair);
    var last := |topolevel| - 1;
    p := Plan(dag.nodes, coloring, lv, last, dag.headers[0], ecn, ecw, blklist, blklist[fail_blk_idx]);
    S.ValidGraph(dag);
    assert topolevel[last] == [p.header];
    PlanIsWellFormed(p, topolevel);
    taskmap, who := GenLevels(p, dag.nodes, coloring, ecn, ecw, blklist, blklist[fail_blk_idx], topolevel);
    AllIssued(p, taskmap, who);
    StandLists(p, taskmap, who, 4 * last + 1);
  }

  lemma StandLists<C>(p: Plan<C>, res: TaskLists<C>, who: Stages, f: int)
    requires Stand(p, res, who, f)
    ensures res.Keys == who.Keys && forall c | c in res :: |res[c]| == |who[c]| && Distinct(who[c])
  {}

  lemma NothingIssued<C>(p: Plan<C>, res: TaskLists<C>, who: Stages)
    requires WellFormed(p) && res == map[] && who == map[]
    ensures Stand(p, res, who, 0)
  {
    hide WellFormed;
    forall th, v | Listed(p, th, v) ensures Phase(p.last, th.stage) >= 0 {}
  }

  /** The task lists hold each thread's task in exactly one place, that of its node. */
  ghost predicate Delivers<C>(taskmap: TaskLists<C>, tasks: TaskMap<C>) {
    exists who: Stages :: ListedAs(taskmap, who, tasks)
  }

  ghost predicate ListedAs<C>(taskmap: TaskLists<C>, who: Stages, tasks: TaskMap<C>) {
    && taskmap.Keys == who.Keys && (forall c | c in taskmap :: |taskmap[c]| == |who[c]| && Distinct(who[c]))
    && (forall th :: th in tasks <==> th.node in who && th.stage in who[th.node])
    && (forall c, i | c in taskmap && 0 <= i < |taskmap[c]| :: Thread(c, who[c][i]) in tasks && taskmap[c][i] == tasks[Thread(c, who[c][i])])
  }

  lemma ListsDeliver<C>(taskmap: TaskLists<C>, who: Stages)
    requires taskmap.Keys == who.Keys && forall c | c in taskmap :: |taskmap[c]| == |who[c]| && Distinct(who[c])
    requires forall c, i | c in taskmap && 0 <= i < |taskmap[c]| ::
               Thread(c, who[c][i]) in TasksOf(taskmap, who) && taskmap[c][i] == TasksOf(taskmap, who)[Thread(c, who[c][i])]
    ensures Delivers(taskmap, TasksOf(taskmap, who))
  {
    hide TaskAt;
    var tasks := TasksOf(taskmap, who);
    forall th ensures th in tasks <==> th.node in who && th.stage in who[th.node] {
      if th.node in who && th.stage in who[th.node] {
        var i :| 0 <= i < |who[th.node]| && who[th.node][i] == th.stage;
        assert th == Thread(th.node, who[th.node][i]);
      }
    }
    assert ListedAs(taskmap, who, tasks);
  }
}
