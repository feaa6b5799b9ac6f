/** The two topological sorts of ECDAG (src/ec/ECDAG.cc:2152-2264). Iterating over an unordered_map is
    taking its keys in an arbitrary order. */
module Sorting {
  import opened Dags
  import opened Ecdags

  /** How many entries of s are in r. */
  ghost function CountIn(s: seq<int>, r: set<int>): nat {
    if s == [] then 0 else CountIn(s[..|s| - 1], r) + if s[|s| - 1] in r then 1 else 0
  }

  lemma {:induction false} CountInAll(s: seq<int>, r: set<int>)
    requires forall i | 0 <= i < |s| :: s[i] in r
    ensures CountIn(s, r) == |s|
  {
    if s != [] { CountInAll(s[..|s| - 1], r); }
  }

  lemma {:induction false} CountInNone(s: seq<int>, r: set<int>)
    ensures CountIn(s, r) == 0 <==> forall i | 0 <= i < |s| :: s[i] !in r
  {
    if s != [] {
      CountInNone(s[..|s| - 1], r);
      assert forall i | 0 <= i < |s| - 1 :: s[..|s| - 1][i] == s[i];
      assert forall i | 0 <= i < |s| :: i < |s| - 1 || s[i] == s[|s| - 1];
    }
  }

  lemma {:induction false} CountInRemove(s: seq<int>, r: set<int>, x: int)
    requires x in r
    ensures CountIn(s, r) == CountIn(s, r - {x}) + multiset(s)[x]
  {
    if s != [] {
      CountInRemove(s[..|s| - 1], r, x);
      assert s == s[..|s| - 1] + [s[|s| - 1]];
      var l := s[|s| - 1];
      assert multiset(s)[x] == multiset(s[..|s| - 1])[x] + if l == x then 1 else 0;
    }
  }

  /** inref counts, for every vertex it still holds, the child entries among the remaining vertices. */
  ghost predicate RefsRight<C>(g: Dag<C>, rest: set<int>, inref: map<int, int>) {
    && rest <= inref.Keys <= g.Keys
    && (forall v | v in inref :: inref[v] == CountIn(g[v].children, rest))
  }

  /** What has been taken is closed downward. */
  ghost predicate TakenClosed<C>(g: Dag<C>, rest: set<int>) {
    forall v, i | v in g && v !in rest && 0 <= i < |g[v].children| :: g[v].children[i] !in rest
  }

  /** outref tells which vertices have a parent. */
  ghost predicate OutRight<C>(g: Dag<C>, outref: map<int, nat>) {
    forall v | v in g :: v in outref && outref[v] != 0 <==> g[v].parents != []
  }

  method Choose<T(==)>(s: set<T>) returns (x: T)
    requires s != {}
    ensures x in s
  {
    x :| x in s;
  }

  // ---------------------------------------------------------------------------------------------
  // Reference counts

  ghost predicate Mentioned<C>(g: Dag<C>, done: set<int>, outref: map<int, nat>) {
    && (forall v | v in outref :: outref[v] > 0 && exists p :: p in done && p in g && v in g[p].children)
    && (forall p, i | p in done && p in g && 0 <= i < |g[p].children| :: g[p].children[i] in outref)
  }

  method MentionChildren(cs: seq<int>, outref0: map<int, nat>) returns (outref: map<int, nat>)
    requires forall v | v in outref0 :: outref0[v] > 0
    ensures forall v | v in outref :: outref[v] > 0 && (v in outref0 || v in cs)
    ensures outref0.Keys <= outref.Keys && forall i | 0 <= i < |cs| :: cs[i] in outref
  {
    outref := outref0;
    for i := 0 to |cs|
      invariant forall v | v in outref :: outref[v] > 0 && (v in outref0 || v in cs)
      invariant outref0.Keys <= outref.Keys && forall j | 0 <= j < i :: cs[j] in outref
    {
      var c := cs[i];
      assert c in cs;
      outref := outref[c := if c !in outref then 1 else outref[c] + 1];
    }
  }

  lemma MentionsParents<C>(g: Dag<C>, outref: map<int, nat>)
    requires Mirrored(g) && Mentioned(g, g.Keys, outref)
    ensures OutRight(g, outref)
  {
    forall v | v in g ensures v in outref && outref[v] != 0 <==> g[v].parents != [] {
      if v in outref {
        var p :| p in g.Keys && p in g && v in g[p].children;
        ParentIffChild(g, v, p);
      }
      if g[v].parents != [] {
        var p := g[v].parents[0];
        assert p in g[v].parents && p in g;
        ParentIffChild(g, v, p);
        ChildIndex(g, p, v, outref);
      }
    }
  }

  lemma ChildIndex<C>(g: Dag<C>, p: int, v: int, outref: map<int, nat>)
    requires p in g && v in g[p].children && Mentioned(g, g.Keys, outref)
    ensures v in outref
  {}

  lemma MentionsNext<C>(g: Dag<C>, done: set<int>, p: int, before: map<int, nat>, after: map<int, nat>)
    requires Mentioned(g, done, before) && p in g
    requires forall v | v in after :: after[v] > 0 && (v in before || v in g[p].children)
    requires before.Keys <= after.Keys && forall i | 0 <= i < |g[p].children| :: g[p].children[i] in after
    ensures Mentioned(g, done + {p}, after)
  {
    forall v | v in after ensures after[v] > 0 && exists q :: q in done + {p} && q in g && v in g[q].children {
      if v in before {
        var q :| q in done && q in g && v in g[q].children;
        assert q in done + {p};
      } else {
        assert p in done + {p};
      }
    }
  }

  lemma StartRight<C>(g: Dag<C>, inref: map<int, int>)
    requires Mirrored(g) && Counted(g, g.Keys, inref)
    ensures inref.Keys == g.Keys && RefsRight(g, g.Keys, inref) && TakenClosed(g, g.Keys)
  {
    forall v | v in inref ensures inref[v] == CountIn(g[v].children, g.Keys) {
      CountInAll(g[v].children, g.Keys);
    }
  }

  ghost predicate Counted<C>(g: Dag<C>, done: set<int>, inref: map<int, int>) {
    inref.Keys == done <= g.Keys && forall v | v in inref :: inref[v] == |g[v].children|
  }

  lemma NothingCounted<C>(g: Dag<C>)
    ensures Counted(g, {}, map[]) && Mentioned(g, {}, map[])
  {}

  method CountOne<C>(g: Dag<C>, v: int, inref0: map<int, int>, outref0: map<int, nat>, ghost done: set<int>)
    returns (inref: map<int, int>, outref: map<int, nat>)
    requires v in g && Counted(g, done, inref0) && Mentioned(g, done, outref0)
    ensures Counted(g, done + {v}, inref) && Mentioned(g, done + {v}, outref)
  {
    outref := MentionChildren(g[v].children, outref0);
    MentionsNext(g, done, v, outref0, outref);
    inref := inref0[v := |g[v].children|];
  }

  method CountRefs<C>(g: Dag<C>) returns (inref: map<int, int>, outref: map<int, nat>)
    requires Mirrored(g)
    ensures inref.Keys == g.Keys && RefsRight(g, g.Keys, inref) && TakenClosed(g, g.Keys) && OutRight(g, outref)
  {
    hide *;
    inref, outref := map[], map[];
    var todo := g.Keys;
    NothingCounted(g);
    ghost var done := {};
    while todo != {}
      invariant done + todo == g.Keys && Counted(g, done, inref) && Mentioned(g, done, outref)
      decreases |todo|
    {
      var v := Choose(todo);
      inref, outref := CountOne(g, v, inref, outref, done);
      todo := todo - {v};
      done := done + {v};
    }
    assert done == g.Keys;
    assert Counted(g, done, inref);
    StartRight(g, inref);
    MentionsParents(g, outref);
  }

  // ---------------------------------------------------------------------------------------------
  // Releasing the parents of a vertex

  lemma Occurs<T>(s: seq<T>, i: nat)
    requires i < |s|
    ensures s[i] in s && multiset(s[..i + 1]) == multiset(s[..i])[s[i] := multiset(s[..i])[s[i]] + 1]
    ensures forall x :: x in s[..i + 1] <==> x in s[..i] || x == s[i]
  {
    assert s[..i + 1] == s[..i] + [s[i]];
  }

  method LowerParents(parents: seq<int>, inref0: map<int, int>) returns (inref: map<int, int>, freed: seq<int>)
    requires forall i | 0 <= i < |parents| :: parents[i] in inref0 && inref0[parents[i]] > 0
    ensures inref.Keys == inref0.Keys && forall p | p in inref :: inref[p] == inref0[p] - multiset(parents)[p]
    ensures Distinct(freed) && forall p :: p in freed <==> p in parents && p in inref && inref[p] <= 0
  {
    inref, freed := inref0, [];
    for i := 0 to |parents|
      invariant inref.Keys == inref0.Keys && forall p | p in inref :: inref[p] == inref0[p] - multiset(parents[..i])[p]
      invariant Distinct(freed) && forall p :: p in freed <==> p in parents[..i] && p in inref && inref[p] <= 0
    {
      var p := parents[i];
      Occurs(parents, i);
      inref := inref[p := inref[p] - 1];
      if inref[p] == 0 {
        freed := freed + [p];
      }
    }
    assert parents[..|parents|] == parents;
  }

  lemma Released<C>(g: Dag<C>, rest: set<int>, v: int, inref0: map<int, int>, inref: map<int, int>)
    requires Mirrored(g) && RefsRight(g, rest, inref0) && v in rest
    requires inref.Keys == inref0.Keys && forall p | p in inref :: inref[p] == inref0[p] - multiset(g[v].parents)[p]
    ensures RefsRight(g, rest - {v}, inref)
  {
    forall p | p in inref ensures inref[p] == CountIn(g[p].children, rest - {v}) {
      CountInRemove(g[p].children, rest, v);
      assert v in g;
    }
  }

  lemma WaitingParents<C>(g: Dag<C>, rest: set<int>, v: int, inref: map<int, int>)
    requires Mirrored(g) && RefsRight(g, rest, inref) && v in rest
    requires inref.Keys == g.Keys || TakenClosed(g, rest)
    ensures forall i | 0 <= i < |g[v].parents| :: g[v].parents[i] in inref && inref[g[v].parents[i]] > 0
  {
    forall i | 0 <= i < |g[v].parents| ensures g[v].parents[i] in inref && inref[g[v].parents[i]] > 0 {
      var p := g[v].parents[i];
      assert p in g[v].parents && p in g && v in g;
      ParentIffChild(g, v, p);
      StillWaits(g, rest, v, p, inref);
    }
  }

  lemma StillWaits<C>(g: Dag<C>, rest: set<int>, v: int, p: int, inref: map<int, int>)
    requires Closed(g) && RefsRight(g, rest, inref) && v in rest && p in g && v in g[p].children
    requires inref.Keys == g.Keys || TakenClosed(g, rest)
    ensures p in inref && inref[p] > 0
  {
    var i := IndexIn(g[p].children, v);
    assert g[p].children[i] in rest;
    assert p in inref;
    CountInNone(g[p].children, rest);
  }

  lemma IndexIn<T>(s: seq<T>, x: T) returns (i: nat)
    requires x in s
    ensures i < |s| && s[i] == x
  {
    i :| 0 <= i < |s| && s[i] == x;
  }

  /** Take v out: every parent waits for it no more. A vertex no one refers to is skipped. */
  method Release<C>(g: Dag<C>, v: int, inref0: map<int, int>, outref: map<int, nat>, ghost rest: set<int>)
    returns (inref: map<int, int>, freed: seq<int>)
    requires Mirrored(g) && OutRight(g, outref) && RefsRight(g, rest, inref0) && v in rest && v in g
    requires inref0.Keys == g.Keys || TakenClosed(g, rest)
    ensures inref.Keys == inref0.Keys && RefsRight(g, rest - {v}, inref)
    ensures Distinct(freed) && forall p :: p in freed <==> p in g[v].parents && p in inref && inref[p] <= 0
  {
    hide *;
    inref, freed := inref0, [];
    NoParents(g, v, outref);
    WaitingParents(g, rest, v, inref0);
    if v in outref && outref[v] != 0 {
      inref, freed := LowerParents(g[v].parents, inref0);
    } else {
      NothingTwice();
    }
    Released(g, rest, v, inref0, inref);
  }

  lemma NothingTwice()
    ensures Distinct<int>([])
  {}

  lemma NoParents<C>(g: Dag<C>, v: int, outref: map<int, nat>)
    requires OutRight(g, outref) && v in g
    ensures v in outref && outref[v] != 0 <==> g[v].parents != []
  {}

  // ---------------------------------------------------------------------------------------------
  // genLeveledTopologicalSorting

  /** A vertex sits at level 0 when it has no children, and one above its highest child otherwise. */
  ghost predicate LevelFits<C>(g: Dag<C>, lv: map<int, nat>, v: int)
    requires v in g && v in lv
  {
    && (forall i | 0 <= i < |g[v].children| :: g[v].children[i] in lv && lv[g[v].children[i]] < lv[v])
    && (lv[v] > 0 ==> exists i :: 0 <= i < |g[v].children| && g[v].children[i] in lv && lv[g[v].children[i]] == lv[v] - 1)
  }

  ghost predicate LevelsFit<C>(g: Dag<C>, lv: map<int, nat>) {
    lv.Keys <= g.Keys && forall v | v in lv :: LevelFits(g, lv, v)
  }

  /** levels lists every vertex once, at its level, with no level empty. */
  ghost predicate Places(levels: seq<seq<int>>, lv: map<int, nat>) {
    && (forall k | 0 <= k < |levels| :: levels[k] != [] && Distinct(levels[k]))
    && (forall k, v | 0 <= k < |levels| :: v in levels[k] <==> v in lv && lv[v] == k)
    && (forall v | v in lv :: lv[v] < |levels|)
  }

  /** The levels are determined by the graph. */
  lemma {:induction false} LevelsUnique<C>(g: Dag<C>, a: map<int, nat>, b: map<int, nat>, v: int)
    requires LevelsFit(g, a) && LevelsFit(g, b) && a.Keys == b.Keys && v in a
    ensures a[v] == b[v]
    decreases a[v]
  {
    assert LevelFits(g, a, v) && LevelFits(g, b, v);
    forall i | 0 <= i < |g[v].children| ensures a[g[v].children[i]] == b[g[v].children[i]] {
      LevelsUnique(g, a, b, g[v].children[i]);
    }
    var kids := g[v].children;
    if a[v] > 0 {
      var i :| 0 <= i < |kids| && kids[i] in a && a[kids[i]] == a[v] - 1;
      assert b[kids[i]] < b[v];
    }
    if b[v] > 0 {
      var i :| 0 <= i < |kids| && kids[i] in b && b[kids[i]] == b[v] - 1;
      assert a[kids[i]] < a[v];
    }
  }

  /** With a sole header, the last level is that header alone. */
  lemma SoleHeaderLast<C>(g: Dag<C>, lv: map<int, nat>, levels: seq<seq<int>>, header: int)
    requires Mirrored(g) && LevelsFit(g, lv) && lv.Keys == g.Keys && Places(levels, lv)
    requires header in g && forall v | v in g :: g[v].parents == [] <==> v == header
    ensures levels != [] && levels[|levels| - 1] == [header]
  {
    hide Mirrored, LevelsFit, Distinct;
    PlacedAt(levels, lv, header);
    var top := levels[|levels| - 1];
    forall i | 0 <= i < |top| ensures top[i] == header {
      TopPlaced(levels, lv, i);
      NothingAbove(g, lv, |levels|, top[i]);
    }
    hide Places;
    OnlyOne(top, header);
  }

  lemma PlacedAt(levels: seq<seq<int>>, lv: map<int, nat>, v: int)
    requires Places(levels, lv) && v in lv
    ensures lv[v] < |levels| && levels[|levels| - 1] != [] && Distinct(levels[|levels| - 1])
  {
    hide Distinct;
  }

  lemma TopPlaced(levels: seq<seq<int>>, lv: map<int, nat>, i: nat)
    requires Places(levels, lv) && levels != [] && i < |levels[|levels| - 1]|
    ensures var v := levels[|levels| - 1][i]; v in lv && lv[v] == |levels| - 1
    ensures forall u | u in lv :: lv[u] < |levels|
  {
    hide Distinct;
    var v := levels[|levels| - 1][i];
    assert v in levels[|levels| - 1];
  }

  lemma OnlyOne<T>(s: seq<T>, x: T)
    requires s != [] && Distinct(s) && forall i | 0 <= i < |s| :: s[i] == x
    ensures s == [x]
  {
    if |s| > 1 { FirstTwoDiffer(s); }
  }

  lemma FirstTwoDiffer<T>(s: seq<T>)
    requires Distinct(s) && |s| > 1
    ensures s[0] != s[1]
  {}

  lemma NothingAbove<C>(g: Dag<C>, lv: map<int, nat>, n: nat, v: int)
    requires Mirrored(g) && LevelsFit(g, lv) && lv.Keys == g.Keys && v in g && lv[v] == n - 1
    requires forall u | u in lv :: lv[u] < n
    ensures g[v].parents == []
  {
    if g[v].parents != [] {
      var p := g[v].parents[0];
      assert p in g[v].parents && p in g;
      ParentIffChild(g, v, p);
      ChildLower(g, lv, p, v);
    }
  }

  lemma ChildLower<C>(g: Dag<C>, lv: map<int, nat>, p: int, v: int)
    requires LevelsFit(g, lv) && p in g && p in lv && v in g[p].children
    ensures v in lv && lv[v] < lv[p]
  {
    assert LevelFits(g, lv, p);
  }

  ghost predicate Assigned<C>(g: Dag<C>, rest: set<int>, lv: map<int, nat>) {
    lv.Keys == g.Keys - rest
  }

  /** Every vertex that is left waits for one of the last level or for another one that is left. */
  ghost predicate Frontier<C>(g: Dag<C>, rest: set<int>, lv: map<int, nat>, k: nat) {
    k > 0 ==> forall v | v in rest && v in g :: WaitsFor(g, v, rest, lv, k)
  }

  ghost predicate WaitsFor<C>(g: Dag<C>, v: int, rest: set<int>, lv: map<int, nat>, k: nat)
    requires v in g
  {
    exists i :: 0 <= i < |g[v].children| && (g[v].children[i] in rest || (g[v].children[i] in lv && lv[g[v].children[i]] == k - 1))
  }

  ghost predicate LevelState<C>(g: Dag<C>, rest: set<int>, lv: map<int, nat>, levels: seq<seq<int>>) {
    Assigned(g, rest, lv) && LevelsFit(g, lv) && Places(levels, lv) && Frontier(g, rest, lv, |levels|)
  }

  ghost function Lift(lv: map<int, nat>, vs: seq<int>, k: nat): map<int, nat> {
    lv + (map i | 0 <= i < |vs| :: vs[i] := k)
  }

  ghost predicate ZeroesOf(inref: map<int, int>, vs: seq<int>) {
    Distinct(vs) && forall v :: v in vs <==> v in inref && inref[v] == 0
  }

  method ZeroRefs(inref: map<int, int>) returns (vs: seq<int>)
    ensures ZeroesOf(inref, vs)
  {
    vs := [];
    var todo := inref.Keys;
    while todo != {}
      invariant todo <= inref.Keys && Distinct(vs)
      invariant forall v :: v in vs <==> v in inref && v !in todo && inref[v] == 0
      decreases |todo|
    {
      var v := Choose(todo);
      if inref[v] == 0 {
        vs := vs + [v];
      }
      todo := todo - {v};
    }
  }

  lemma {:induction false} SomeReady<C>(g: Dag<C>, rank: map<int, nat>, rest: set<int>, inref: map<int, int>, v: int) returns (u: int)
    requires Closed(g) && Ranked(g, rank) && RefsRight(g, rest, inref) && v in rest && v in g
    ensures u in rest && u in inref && inref[u] == 0
    decreases rank[v]
  {
    if inref[v] == 0 {
      u := v;
    } else {
      CountInNone(g[v].children, rest);
      var i :| 0 <= i < |g[v].children| && g[v].children[i] in rest;
      u := SomeReady(g, rank, rest, inref, g[v].children[i]);
    }
  }

  lemma TakenClosedNext<C>(g: Dag<C>, rest0: set<int>, rest: set<int>, inref: map<int, int>, v: int)
    requires TakenClosed(g, rest) && RefsRight(g, rest0, inref) && rest <= rest0
    requires v in rest && v in inref && inref[v] == 0
    ensures TakenClosed(g, rest - {v})
  {
    CountInNone(g[v].children, rest0);
  }

  /** Remove the vertices of one level from inref (src/ec/ECDAG.cc:2188-2208). */
  method TakeLevel<C>(g: Dag<C>, level: seq<int>, inref0: map<int, int>, outref: map<int, nat>, ghost rest0: set<int>)
    returns (inref: map<int, int>, ghost rest: set<int>)
    requires Mirrored(g) && OutRight(g, outref) && RefsRight(g, rest0, inref0) && TakenClosed(g, rest0)
    requires inref0.Keys == rest0 <= g.Keys && ZeroesOf(inref0, level)
    ensures inref.Keys == rest && RefsRight(g, rest, inref) && TakenClosed(g, rest)
    ensures rest == rest0 - Elements(level)
  {
    hide *;
    inref, rest := inref0, rest0;
    NoElements(level);
    for j := 0 to |level|
      invariant inref.Keys == rest && RefsRight(g, rest, inref) && TakenClosed(g, rest)
      invariant rest == rest0 - Elements(level[..j])
    {
      LevelMember(inref0, level, j);
      TakenClosedNext(g, rest0, rest, inref0, level[j]);
      inref, rest := TakeOne(g, level[j], inref, outref, rest);
      ElementsNext(level, j);
    }
    assert level[..|level|] == level;
  }

  lemma NoElements(s: seq<int>)
    ensures Elements(s[..0]) == {}
  {}

  lemma LevelMember(inref: map<int, int>, level: seq<int>, j: nat)
    requires ZeroesOf(inref, level) && j < |level|
    ensures level[j] in inref && inref[level[j]] == 0 && level[j] !in Elements(level[..j])
  {
    var v := level[j];
    assert v in level;
  }

  method TakeOne<C>(g: Dag<C>, v: int, inref0: map<int, int>, outref: map<int, nat>, ghost rest0: set<int>)
    returns (inref: map<int, int>, ghost rest: set<int>)
    requires Mirrored(g) && OutRight(g, outref) && RefsRight(g, rest0, inref0) && TakenClosed(g, rest0)
    requires inref0.Keys == rest0 <= g.Keys && v in rest0
    ensures inref.Keys == rest == rest0 - {v} && RefsRight(g, rest, inref)
  {
    hide Mirrored, OutRight, RefsRight, TakenClosed;
    var freed;
    inref, freed := Release(g, v, inref0, outref, rest0);
    rest := rest0 - {v};
    RefsWithout(g, rest, inref, v);
    inref := inref - {v};
  }

  lemma RefsWithout<C>(g: Dag<C>, rest: set<int>, inref: map<int, int>, v: int)
    requires RefsRight(g, rest, inref) && v !in rest
    ensures RefsRight(g, rest, inref - {v})
  {}

  lemma LevelTaken<C>(g: Dag<C>, rest0: set<int>, inref: map<int, int>, level: seq<int>, rest: set<int>, lv: map<int, nat>, levels: seq<seq<int>>)
    requires Closed(g) && LevelState(g, rest0, lv, levels) && inref.Keys == rest0 <= g.Keys
    requires RefsRight(g, rest0, inref) && TakenClosed(g, rest0) && ZeroesOf(inref, level) && level != []
    requires rest == rest0 - Elements(level)
    ensures LevelState(g, rest, Lift(lv, level, |levels|), levels + [level])
  {
    hide Frontier, LevelsFit, Places, Assigned, RefsRight, ZeroesOf, TakenClosed;
    LevelsFitNext(g, rest0, inref, level, lv, levels);
    FrontierNext(g, rest0, inref, level, rest, lv, |levels|);
    AssignedNext(g, rest0, inref, level, rest, lv, |levels|);
    PlacesNext(levels, level, lv, Lift(lv, level, |levels|));
  }

  lemma AssignedNext<C>(g: Dag<C>, rest0: set<int>, inref: map<int, int>, level: seq<int>, rest: set<int>, lv: map<int, nat>, k: nat)
    requires Assigned(g, rest0, lv) && inref.Keys == rest0 <= g.Keys && ZeroesOf(inref, level) && rest == rest0 - Elements(level)
    ensures Assigned(g, rest, Lift(lv, level, k))
    ensures Distinct(level) && forall i | 0 <= i < |level| :: level[i] !in lv
    ensures forall v :: v in Lift(lv, level, k) <==> v in lv || v in level
    ensures forall v | v in Lift(lv, level, k) :: Lift(lv, level, k)[v] == if v in level then k else lv[v]
  {
    Lifted(lv, level, k);
    forall i | 0 <= i < |level| ensures level[i] in inref {
      var v := level[i];
      assert v in level;
    }
    assert (map i | 0 <= i < |level| :: level[i] := k).Keys == Elements(level);
  }

  lemma InElements(s: seq<int>, v: int)
    ensures v in s <==> v in Elements(s)
  {
    if v in s { var i := IndexIn(s, v); }
  }

  lemma LevelsFitNext<C>(g: Dag<C>, rest0: set<int>, inref: map<int, int>, level: seq<int>, lv: map<int, nat>, levels: seq<seq<int>>)
    requires Closed(g) && LevelState(g, rest0, lv, levels) && inref.Keys == rest0 <= g.Keys
    requires RefsRight(g, rest0, inref) && ZeroesOf(inref, level)
    ensures LevelsFit(g, Lift(lv, level, |levels|))
  {
    hide Frontier, LevelFits, RefsRight;
    var lv' := Lift(lv, level, |levels|);
    Lifted(lv, level, |levels|);
    assert forall u | u in lv :: u !in inref && u !in level;
    forall v | v in lv' ensures v in g && LevelFits(g, lv', v) {
      if v in level {
        assert v in inref && inref[v] == 0;
        NewFits(g, rest0, inref, lv, lv', level, v, |levels|);
      } else {
        OldFits(g, lv, lv', v);
      }
    }
  }

  lemma FrontierNext<C>(g: Dag<C>, rest0: set<int>, inref: map<int, int>, level: seq<int>, rest: set<int>, lv: map<int, nat>, k: nat)
    requires inref.Keys == rest0 <= g.Keys && RefsRight(g, rest0, inref) && ZeroesOf(inref, level)
    requires rest == rest0 - Elements(level)
    ensures Frontier(g, rest, Lift(lv, level, k), k + 1)
  {
    var lv' := Lift(lv, level, k);
    Lifted(lv, level, k);
    forall v | v in rest && v in g ensures WaitsFor(g, v, rest, lv', k + 1) {
      InElements(level, v);
      assert v in inref && inref[v] != 0;
      StillWaiting(g, rest0, inref, level, rest, lv', k, v);
    }
  }

  lemma Lifted(lv: map<int, nat>, vs: seq<int>, k: nat)
    ensures forall v :: v in Lift(lv, vs, k) <==> v in lv || v in vs
    ensures forall v | v in Lift(lv, vs, k) :: Lift(lv, vs, k)[v] == if v in vs then k else lv[v]
  {
    var m := map i | 0 <= i < |vs| :: vs[i] := k;
    forall v ensures v in m <==> v in vs {
      if v in vs {
        var i := IndexIn(vs, v);
        assert vs[i] in m;
      }
    }
  }

  lemma OldFits<C>(g: Dag<C>, lv: map<int, nat>, lv': map<int, nat>, v: int)
    requires LevelsFit(g, lv) && v in lv && forall u | u in lv :: u in lv' && lv'[u] == lv[u]
    ensures v in g && LevelFits(g, lv', v)
  {
    assert LevelFits(g, lv, v);
    forall i | 0 <= i < |g[v].children| ensures var c := g[v].children[i]; c in lv && lv[c] < lv[v] && c in lv' && lv'[c] == lv[c] {}
  }

  lemma NewFits<C>(g: Dag<C>, rest: set<int>, inref: map<int, int>, lv: map<int, nat>, lv': map<int, nat>, level: seq<int>, v: int, k: nat)
    requires Closed(g) && Assigned(g, rest, lv) && Frontier(g, rest, lv, k) && RefsRight(g, rest, inref) && v in rest && v in g
    requires v in inref && inref[v] == 0 && v in lv' && lv'[v] == k && (forall u | u in lv :: lv[u] < k)
    requires ZeroesOf(inref, level) && inref.Keys == rest
    requires forall u | u in lv :: u in lv' && lv'[u] == if u in level then k else lv[u]
    ensures LevelFits(g, lv', v)
  {
    var kids := g[v].children;
    CountInNone(kids, rest);
    forall i | 0 <= i < |kids| ensures kids[i] in lv && kids[i] in lv' && lv'[kids[i]] == lv[kids[i]] < k {
      var c := kids[i];
      assert c in g && c !in rest;
      assert c in lv && c !in inref;
    }
    if k > 0 {
      assert WaitsFor(g, v, rest, lv, k);
      var i :| 0 <= i < |kids| && (kids[i] in rest || (kids[i] in lv && lv[kids[i]] == k - 1));
      assert lv'[kids[i]] == lv'[v] - 1;
    }
  }

  lemma StillWaiting<C>(g: Dag<C>, rest0: set<int>, inref: map<int, int>, level: seq<int>, rest: set<int>, lv': map<int, nat>, k: nat, v: int)
    requires RefsRight(g, rest0, inref) && v in g && v in inref && inref[v] != 0
    requires forall x | x in rest0 && x !in level :: x in rest
    requires forall i | 0 <= i < |level| :: level[i] in lv' && lv'[level[i]] == k
    ensures WaitsFor(g, v, rest, lv', k + 1)
  {
    CountInNone(g[v].children, rest0);
    var i :| 0 <= i < |g[v].children| && g[v].children[i] in rest0;
    var c := g[v].children[i];
    if c in level {
      var j := IndexIn(level, c);
    }
  }

  lemma PlacesNext(levels: seq<seq<int>>, level: seq<int>, lv: map<int, nat>, lv': map<int, nat>)
    requires Places(levels, lv) && level != [] && Distinct(level)
    requires forall i | 0 <= i < |level| :: level[i] !in lv
    requires forall v :: v in lv' <==> v in lv || v in level
    requires forall v | v in lv' :: lv'[v] == if v in level then |levels| else lv[v]
    ensures Places(levels + [level], lv')
  {
    var levels' := levels + [level];
    forall k, v | 0 <= k < |levels'| ensures v in levels'[k] <==> v in lv' && lv'[v] == k {
      if v in level {
        var i := IndexIn(level, v);
        assert v !in lv;
      }
      if k < |levels| {
        assert levels'[k] == levels[k];
      }
    }
  }

  /** One round: the vertices without references become a level (src/ec/ECDAG.cc:2183-2208). */
  method NextLevel<C>(g: Dag<C>, ghost rank: map<int, nat>, inref0: map<int, int>, outref: map<int, nat>, levels0: seq<seq<int>>,
                      ghost rest0: set<int>, ghost lv0: map<int, nat>)
    returns (inref: map<int, int>, levels: seq<seq<int>>, ghost rest: set<int>, ghost lv: map<int, nat>)
    requires Mirrored(g) && Closed(g) && Ranked(g, rank) && OutRight(g, outref) && inref0.Keys == rest0 <= g.Keys && |inref0| != 0
    requires RefsRight(g, rest0, inref0) && TakenClosed(g, rest0) && LevelState(g, rest0, lv0, levels0)
    ensures inref.Keys == rest <= g.Keys && |rest| < |rest0|
    ensures RefsRight(g, rest, inref) && TakenClosed(g, rest) && LevelState(g, rest, lv, levels)
  {
    hide *;
    var level := ZeroRefs(inref0);
    LevelNonempty(g, rank, rest0, inref0, level);
    inref, rest := TakeLevel(g, level, inref0, outref, rest0);
    LevelTaken(g, rest0, inref0, level, rest, lv0, levels0);
    Smaller(rest0, level, rest);
    lv := Lift(lv0, level, |levels0|);
    levels := levels0 + [level];
  }

  /** src/ec/ECDAG.cc:2152-2212. lv says where each vertex went. */
  method GenLeveledTopologicalSorting<C>(dag: ECDAG<C>) returns (toret: seq<seq<int>>, ghost lv: map<int, nat>)
    requires dag.Valid()
    ensures lv.Keys == dag.nodes.Keys && LevelsFit(dag.nodes, lv) && Places(toret, lv)
    ensures |dag.headers| == 1 ==> toret != [] && toret[|toret| - 1] == dag.headers
  {
    hide *;
    var g := dag.nodes;
    ghost var rank := dag.rank;
    ValidGraph(dag);
    toret, lv := [], map[];
    var inref, outref := CountRefs(g);
    ghost var rest := g.Keys;
    NothingPlaced(g);
    while true
      invariant inref.Keys == rest <= g.Keys
      invariant RefsRight(g, rest, inref) && TakenClosed(g, rest) && LevelState(g, rest, lv, toret)
      decreases |rest|
    {
      if |inref| == 0 {
        break;
      }
      inref, toret, rest, lv := NextLevel(g, rank, inref, outref, toret, rest, lv);
    }
    assert inref.Keys == {};
    AllPlaced(g, rest, lv, toret);
    LastLevel(dag, lv, toret);
  }

  lemma LastLevel<C>(dag: ECDAG<C>, lv: map<int, nat>, levels: seq<seq<int>>)
    requires dag.Valid() && lv.Keys == dag.nodes.Keys && LevelsFit(dag.nodes, lv) && Places(levels, lv)
    ensures |dag.headers| == 1 ==> levels != [] && levels[|levels| - 1] == dag.headers
  {
    hide *;
    if |dag.headers| == 1 {
      ValidGraph(dag);
      SoleHeader(dag);
      SoleHeaderLast(dag.nodes, lv, levels, dag.headers[0]);
    }
  }

  lemma ValidGraph<C>(dag: ECDAG<C>)
    requires dag.Valid()
    ensures Mirrored(dag.nodes) && Closed(dag.nodes) && Ranked(dag.nodes, dag.rank)
  {}

  lemma SoleHeader<C>(dag: ECDAG<C>)
    requires dag.Valid() && |dag.headers| == 1
    ensures dag.headers[0] in dag.nodes && forall v | v in dag.nodes :: dag.nodes[v].parents == [] <==> v == dag.headers[0]
  {
    assert dag.headers == [dag.headers[0]];
    assert forall v :: v in dag.headers <==> v == dag.headers[0];
  }

  lemma NothingPlaced<C>(g: Dag<C>)
    ensures LevelState(g, g.Keys, map[], [])
  {}

  lemma LevelNonempty<C>(g: Dag<C>, rank: map<int, nat>, rest: set<int>, inref: map<int, int>, level: seq<int>)
    requires Closed(g) && Ranked(g, rank) && RefsRight(g, rest, inref) && inref.Keys == rest <= g.Keys
    requires |inref| != 0 && ZeroesOf(inref, level)
    ensures level != [] && level[0] in rest
  {
    assert inref.Keys != {};
    var v := PickFrom(inref.Keys);
    var u := SomeReady(g, rank, rest, inref, v);
    assert u in level;
    var w := level[0];
    assert w in level;
  }

  lemma PickFrom<T>(s: set<T>) returns (x: T)
    requires s != {}
    ensures x in s
  {
    x :| x in s;
  }

  lemma Smaller(rest0: set<int>, level: seq<int>, rest: set<int>)
    requires level != [] && level[0] in rest0
    requires rest == rest0 - Elements(level)
    ensures |rest| < |rest0|
  {
    var v := level[0];
    assert v in Elements(level);
    Subset(rest, rest0 - {v});
  }

  lemma Subset<T>(a: set<T>, b: set<T>)
    requires a <= b
    ensures |a| <= |b|
  {
    if a != {} {
      var x := PickFrom(a);
      Subset(a - {x}, b - {x});
    }
  }

  lemma AllPlaced<C>(g: Dag<C>, rest: set<int>, lv: map<int, nat>, levels: seq<seq<int>>)
    requires LevelState(g, rest, lv, levels) && rest == {}
    ensures lv.Keys == g.Keys && LevelsFit(g, lv) && Places(levels, lv)
  {}

  // ---------------------------------------------------------------------------------------------
  // genTopoIdxs

  /** Children that are neither leaf nor header come earlier in the list. */
  ghost predicate Ordered<C>(g: Dag<C>, topo: seq<int>) {
    forall i, k | 0 <= i < |topo| && topo[i] in g && 0 <= k < |g[topo[i]].children| ::
      ComesBefore(g, topo, i, g[topo[i]].children[k])
  }

  ghost predicate ComesBefore<C>(g: Dag<C>, topo: seq<int>, i: nat, c: int)
    requires i <= |topo|
  {
    c in g && (g[c].kind.Intermediate? ==> c in topo[..i])
  }

  ghost predicate ListsDone<C>(g: Dag<C>, rest: set<int>, topo: seq<int>) {
    && Distinct(topo) && Ordered(g, topo)
    && forall v :: v in topo <==> v in g && v !in rest && g[v].kind.Intermediate?
  }

  ghost predicate ReadyQueue(rest: set<int>, inref: map<int, int>, queue: seq<int>) {
    Distinct(queue) && forall v :: v in queue <==> v in rest && v in inref && inref[v] == 0
  }

  lemma QueueNext<C>(g: Dag<C>, rest: set<int>, inref0: map<int, int>, queue: seq<int>, inref: map<int, int>, freed: seq<int>)
    requires Mirrored(g) && inref0.Keys == inref.Keys == g.Keys && rest <= g.Keys && TakenClosed(g, rest)
    requires queue != [] && ReadyQueue(rest, inref0, queue) && RefsRight(g, rest, inref0) && RefsRight(g, rest - {queue[0]}, inref)
    requires queue[0] in g && Distinct(freed) && forall p :: p in freed <==> p in g[queue[0]].parents && p in inref && inref[p] <= 0
    ensures ReadyQueue(rest - {queue[0]}, inref, queue[1..] + freed)
  {
    hide Mirrored, RefsRight, TakenClosed;
    var u, q := queue[0], queue[1..];
    assert queue == [u] + q;
    assert u in queue;
    forall v | v in g
      ensures v in freed ==> v in rest && v != u && inref0[v] > 0 && inref[v] == 0
      ensures v in rest && v != u && inref0[v] == 0 ==> inref[v] == 0
      ensures v in rest && v != u && inref0[v] != 0 && inref[v] == 0 ==> v in freed
    {
      CountsFall(g, rest, u, v, inref0, inref);
    }
    FirstOnce(queue);
    DistinctJoin(q, freed);
  }

  lemma FirstOnce<T>(s: seq<T>)
    requires s != [] && Distinct(s)
    ensures Distinct(s[1..]) && s[0] !in s[1..]
  {}

  lemma DistinctJoin(a: seq<int>, b: seq<int>)
    requires Distinct(a) && Distinct(b) && forall x | x in b :: x !in a
    ensures Distinct(a + b)
  {
    var s := a + b;
    forall i, j | 0 <= i < j < |s| ensures s[i] != s[j] {
      if i < |a| <= j {
        var x := s[j];
        assert b[j - |a|] == x;
        assert x in b && a[i] in a;
      }
    }
  }

  lemma CountsFall<C>(g: Dag<C>, rest: set<int>, u: int, v: int, inref0: map<int, int>, inref: map<int, int>)
    requires Mirrored(g) && inref0.Keys == inref.Keys == g.Keys && u in rest && u in g && v in g && TakenClosed(g, rest)
    requires RefsRight(g, rest, inref0) && RefsRight(g, rest - {u}, inref) && inref0[u] == 0
    ensures v in g[u].parents ==> v in rest && v != u && inref0[v] > 0
    ensures 0 <= inref[v] <= inref0[v]
    ensures inref0[v] != inref[v] ==> v in g[u].parents
  {
    CountInRemove(g[v].children, rest, u);
    if v in g[u].parents {
      ParentIffChild(g, u, v);
      StillWaits(g, rest, u, v, inref0);
      var i := IndexIn(g[v].children, u);
      assert g[v].children[i] in rest;
    }
    if u in g[v].children {
      ParentIffChild(g, u, v);
    }
  }

  lemma DoneNext<C>(g: Dag<C>, rest: set<int>, inref: map<int, int>, v: int, topo: seq<int>)
    requires Closed(g) && ListsDone(g, rest, topo) && RefsRight(g, rest, inref) && v in rest && v in g && v in inref && inref[v] == 0
    ensures ListsDone(g, rest - {v}, if g[v].kind.Intermediate? then topo + [v] else topo)
  {
    if g[v].kind.Intermediate? {
      var topo' := topo + [v];
      CountInNone(g[v].children, rest);
      forall i, k | 0 <= i < |topo'| && topo'[i] in g && 0 <= k < |g[topo'[i]].children|
        ensures ComesBefore(g, topo', i, g[topo'[i]].children[k])
      {
        if i < |topo| {
          assert ComesBefore(g, topo, i, g[topo[i]].children[k]);
          assert topo'[..i] == topo[..i];
        } else {
          var c := g[v].children[k];
          assert c in g && c !in rest;
          assert topo'[..i] == topo;
        }
      }
      forall j | 0 <= j < |topo| ensures topo[j] != v {
        var u := topo[j];
        assert u in topo;
      }
    }
  }

  lemma KindsListed<C>(dag: ECDAG<C>, v: int)
    requires dag.Valid() && v in dag.nodes
    ensures v !in dag.headers && v !in dag.leaves <==> dag.nodes[v].kind.Intermediate?
  {}

  method TakeFirst<C>(dag: ECDAG<C>, queue0: seq<int>, inref0: map<int, int>, outref: map<int, nat>, topo0: seq<int>, ghost rest0: set<int>)
    returns (queue: seq<int>, inref: map<int, int>, topo: seq<int>, ghost rest: set<int>)
    requires dag.Valid() && OutRight(dag.nodes, outref) && inref0.Keys == dag.nodes.Keys && rest0 <= dag.nodes.Keys
    requires RefsRight(dag.nodes, rest0, inref0) && TakenClosed(dag.nodes, rest0)
    requires ReadyQueue(rest0, inref0, queue0) && queue0 != [] && ListsDone(dag.nodes, rest0, topo0)
    ensures inref.Keys == dag.nodes.Keys && rest <= dag.nodes.Keys && |rest| < |rest0|
    ensures RefsRight(dag.nodes, rest, inref) && TakenClosed(dag.nodes, rest)
    ensures ReadyQueue(rest, inref, queue) && ListsDone(dag.nodes, rest, topo)
  {
    hide *;
    var idx := queue0[0];
    ValidGraph(dag);
    FirstReady(rest0, inref0, queue0);
    topo := ListOne(dag, idx, topo0, rest0, inref0);
    TakenClosedNext(dag.nodes, rest0, rest0, inref0, idx);
    var freed;
    inref, freed := Release(dag.nodes, idx, inref0, outref, rest0);
    QueueNext(dag.nodes, rest0, inref0, queue0, inref, freed);
    queue := queue0[1..] + freed;
    rest := rest0 - {idx};
    OneFewer(rest0, idx);
  }

  lemma OneFewer<T>(s: set<T>, x: T)
    requires x in s
    ensures |s - {x}| < |s|
  {}

  /** src/ec/ECDAG.cc:2247-2249: idx is listed unless it is a header or a leaf. */
  method ListOne<C>(dag: ECDAG<C>, idx: int, topo0: seq<int>, ghost rest: set<int>, ghost inref: map<int, int>) returns (topo: seq<int>)
    requires dag.Valid() && Closed(dag.nodes) && ListsDone(dag.nodes, rest, topo0) && RefsRight(dag.nodes, rest, inref)
    requires idx in rest && idx in dag.nodes && idx in inref && inref[idx] == 0
    ensures ListsDone(dag.nodes, rest - {idx}, topo)
  {
    hide *;
    topo := topo0;
    KindsListed(dag, idx);
    DoneNext(dag.nodes, rest, inref, idx, topo);
    if idx !in dag.headers && idx !in dag.leaves {
      topo := topo + [idx];
    }
  }

  lemma FirstReady(rest: set<int>, inref: map<int, int>, queue: seq<int>)
    requires ReadyQueue(rest, inref, queue) && queue != []
    ensures queue[0] in rest && queue[0] in inref && inref[queue[0]] == 0
  {
    var v := queue[0];
    assert v in queue;
  }

  /** src/ec/ECDAG.cc:2214-2264: every vertex that is neither leaf nor header, once, after its children. */
  method GenTopoIdxs<C>(dag: ECDAG<C>) returns (topo: seq<int>)
    requires dag.Valid()
    ensures Distinct(topo) && Ordered(dag.nodes, topo)
    ensures forall v :: v in topo <==> v in dag.nodes && dag.nodes[v].kind.Intermediate?
    ensures (forall v | v in dag.nodes && !dag.nodes[v].kind.Leaf? :: dag.nodes[v].children != []) ==> TopoOrder(dag.nodes, topo)
  {
    hide *;
    ValidGraph(dag);
    topo := [];
    var inref, outref := CountRefs(dag.nodes);
    ghost var rest := dag.nodes.Keys;
    var queue := ZeroRefs(inref);
    StartQueue(dag.nodes, inref, queue);
    while |queue| > 0
      invariant inref.Keys == dag.nodes.Keys && rest <= dag.nodes.Keys
      invariant RefsRight(dag.nodes, rest, inref) && TakenClosed(dag.nodes, rest)
      invariant ReadyQueue(rest, inref, queue) && ListsDone(dag.nodes, rest, topo)
      decreases |rest|
    {
      queue, inref, topo, rest := TakeFirst(dag, queue, inref, outref, topo, rest);
    }
    AllTaken(dag, rest, inref, queue, topo);
  }

  lemma StartQueue<C>(g: Dag<C>, inref: map<int, int>, queue: seq<int>)
    requires inref.Keys == g.Keys && ZeroesOf(inref, queue)
    ensures ReadyQueue(g.Keys, inref, queue) && ListsDone(g, g.Keys, [])
  {}

  lemma NoneWaits<C>(g: Dag<C>, rank: map<int, nat>, rest: set<int>, inref: map<int, int>, queue: seq<int>)
    requires Closed(g) && Ranked(g, rank) && RefsRight(g, rest, inref) && rest <= g.Keys && ReadyQueue(rest, inref, queue)
    ensures queue == [] ==> rest == {}
  {
    if rest != {} {
      var v := PickFrom(rest);
      var u := SomeReady(g, rank, rest, inref, v);
      assert u in queue;
    }
  }

  lemma AllTaken<C>(dag: ECDAG<C>, rest: set<int>, inref: map<int, int>, queue: seq<int>, topo: seq<int>)
    requires dag.Valid() && inref.Keys == dag.nodes.Keys && rest <= dag.nodes.Keys && RefsRight(dag.nodes, rest, inref)
    requires ReadyQueue(rest, inref, queue) && queue == [] && ListsDone(dag.nodes, rest, topo)
    ensures Distinct(topo) && Ordered(dag.nodes, topo)
    ensures forall v :: v in topo <==> v in dag.nodes && dag.nodes[v].kind.Intermediate?
    ensures (forall v | v in dag.nodes && !dag.nodes[v].kind.Leaf? :: dag.nodes[v].children != []) ==> TopoOrder(dag.nodes, topo)
  {
    hide Shape, ListsFit, RefsRight, Ordered;
    ValidGraph(dag);
    NoneWaits(dag.nodes, dag.rank, rest, inref, queue);
    if forall v | v in dag.nodes && !dag.nodes[v].kind.Leaf? :: dag.nodes[v].children != [] {
      TopoOrdered(dag, topo);
    }
  }

  lemma TopoOrdered<C>(dag: ECDAG<C>, topo: seq<int>)
    requires dag.Valid() && Distinct(topo) && Ordered(dag.nodes, topo)
    requires forall v :: v in topo <==> v in dag.nodes && dag.nodes[v].kind.Intermediate?
    requires forall v | v in dag.nodes && !dag.nodes[v].kind.Leaf? :: dag.nodes[v].children != []
    ensures TopoOrder(dag.nodes, topo)
  {
    hide Shape, Ordered;
    var g := dag.nodes;
    forall i | 0 <= i < |topo| ensures topo[i] in g && g[topo[i]].children != [] {
      var v := topo[i];
      assert v in topo;
    }
    forall i, k | 0 <= i < |topo| && 0 <= k < |g[topo[i]].children| ensures DoneBefore(g, topo, i, g[topo[i]].children[k]) {
      OneBefore(dag, topo, i, k);
    }
  }

  lemma OneBefore<C>(dag: ECDAG<C>, topo: seq<int>, i: nat, k: nat)
    requires dag.Valid() && Ordered(dag.nodes, topo)
    requires i < |topo| && topo[i] in dag.nodes && k < |dag.nodes[topo[i]].children|
    ensures DoneBefore(dag.nodes, topo, i, dag.nodes[topo[i]].children[k])
  {
    var g := dag.nodes;
    var v := topo[i];
    var c := g[v].children[k];
    assert ComesBefore(g, topo, i, c);
    assert c in g[v].children;
    ParentIffChild(g, c, v);
    if g[c].kind.Intermediate? {
      var j := IndexIn(topo[..i], c);
      assert topo[j] == c;
    }
  }
}
