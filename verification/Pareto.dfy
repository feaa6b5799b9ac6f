/** The search for the frontier of (load, bandwidth) over all colourings (genPareto in src/Naive_homo.cc). */
module Pareto {
  import opened Dags
  import opened Traffic
  import opened Stripes

  /** A solution as genPareto uses it (src/single/PRSolution.hh): colours of the intermediate vertices. */
  datatype Sol = Sol(solution: seq<nat>, load: int, bdwt: int, searched: bool)

  predicate Dominates(a: Sol, b: Sol) {
    (a.load < b.load && a.bdwt <= b.bdwt) || (a.load == b.load && a.bdwt < b.bdwt)
  }

  /** At least as good in both respects. */
  predicate Covers(a: Sol, b: Sol) {
    a.load <= b.load && a.bdwt <= b.bdwt
  }

  /** src/Naive_homo.cc:28-48 */
  method Dominate(a: Sol, b: Sol) returns (r: bool)
    ensures r <==> Dominates(a, b)
    ensures r <==> Covers(a, b) && !Covers(b, a)
  {
    if a.load < b.load {
      return a.bdwt <= b.bdwt;
    } else if a.load > b.load {
      return false;
    } else {
      return a.bdwt < b.bdwt;
    }
  }

  type Table = map<int, Sol>

  ghost function Members(ids: seq<int>): set<int> {
    set i | 0 <= i < |ids| :: ids[i]
  }

  /** The list in order: load rises, bandwidth falls. */
  ghost predicate Sorted(tab: Table, ids: seq<int>) {
    && (forall i | 0 <= i < |ids| :: ids[i] in tab)
    && (forall i, j | 0 <= i < j < |ids| :: tab[ids[i]].load < tab[ids[j]].load && tab[ids[i]].bdwt > tab[ids[j]].bdwt)
  }

  // ---------------------------------------------------------------------------------------------
  // The doubly linked list in two maps

  const HEAD := -1
  const TAIL := -2

  ghost function Node(ids: seq<int>, i: int): int
    requires -1 <= i <= |ids|
  {
    if i == -1 then HEAD else if i == |ids| then TAIL else ids[i]
  }

  ghost predicate Linked(pareto: map<int, int>, prev: map<int, int>, ids: seq<int>) {
    && Distinct(ids) && (forall i | 0 <= i < |ids| :: 0 <= ids[i])
    && pareto.Keys == {HEAD} + Members(ids) && prev.Keys == {TAIL} + Members(ids)
    && (forall i | -1 <= i < |ids| :: LinkAt(pareto, prev, ids, i))
  }

  ghost predicate LinkAt(pareto: map<int, int>, prev: map<int, int>, ids: seq<int>, i: int)
    requires -1 <= i < |ids|
  {
    && Node(ids, i) in pareto && pareto[Node(ids, i)] == Node(ids, i + 1)
    && Node(ids, i + 1) in prev && prev[Node(ids, i + 1)] == Node(ids, i)
  }

  /** New links over the list in which alpha takes the place of positions k to j. */
  lemma SpliceLinked(pareto: map<int, int>, prev: map<int, int>, ids: seq<int>, k: nat, j: nat, alpha: int,
                     pareto': map<int, int>, prev': map<int, int>, ids': seq<int>)
    requires Linked(pareto, prev, ids) && k <= j <= |ids| && (alpha !in ids || (k < j && alpha == ids[k])) && 0 <= alpha
    requires pareto'.Keys == pareto.Keys - Members(ids[k..j]) + {alpha} && prev'.Keys == prev.Keys - Members(ids[k..j]) + {alpha}
    requires ids' == ids[..k] + [alpha] + ids[j..] && forall i | -1 <= i < |ids'| :: LinkAt(pareto', prev', ids', i)
    ensures Linked(pareto', prev', ids')
  {
    hide LinkAt;
    MembersSplit(ids, k, j, alpha);
    assert HEAD !in Members(ids) && TAIL !in Members(ids);
    hide Members;
    forall i | 0 <= i < |ids'| ensures 0 <= ids'[i] {
      assert ids'[i] == if i < k then ids[i] else if i == k then alpha else ids[i - k - 1 + j];
    }
  }

  lemma MembersOne(ids: seq<int>, k: nat)
    requires k < |ids|
    ensures Members(ids[k..k]) == {} && Members(ids[k..k + 1]) == {ids[k]}
    ensures k + 1 < |ids| ==> Members(ids[k..k + 2]) == {ids[k], ids[k + 1]}
  {
    assert ids[k..k + 1] == [ids[k]];
    if k + 1 < |ids| { assert ids[k..k + 2] == [ids[k], ids[k + 1]]; }
  }

  /** alpha goes between positions k - 1 and k. */
  lemma LinkInsert(pareto: map<int, int>, prev: map<int, int>, ids: seq<int>, k: nat, alpha: int)
    requires Linked(pareto, prev, ids) && k <= |ids| && 0 <= alpha && alpha !in ids
    ensures var before, after := Node(ids, k - 1), Node(ids, k);
            Linked(pareto[before := alpha][alpha := after], prev[alpha := before][after := alpha], ids[..k] + [alpha] + ids[k..])
  {
    hide Linked, Node;
    var before, after := Node(ids, k - 1), Node(ids, k);
    var pareto', prev' := pareto[before := alpha][alpha := after], prev[alpha := before][after := alpha];
    LinkThere(pareto, prev, ids, k - 1);
    assert Members(ids[k..k]) == {};
    var ids' := ids[..k] + [alpha] + ids[k..];
    forall i | -1 <= i < |ids'| ensures LinkAt(pareto', prev', ids', i) {
      LinkInsertAt(pareto, prev, ids, k, alpha, i);
    }
    SpliceLinked(pareto, prev, ids, k, k, alpha, pareto', prev', ids');
  }

  lemma LinkInsertAt(pareto: map<int, int>, prev: map<int, int>, ids: seq<int>, k: nat, alpha: int, i: int)
    requires Linked(pareto, prev, ids) && k <= |ids| && 0 <= alpha && alpha !in ids && -1 <= i <= |ids|
    ensures var before, after := Node(ids, k - 1), Node(ids, k);
            LinkAt(pareto[before := alpha][alpha := after], prev[alpha := before][after := alpha], ids[..k] + [alpha] + ids[k..], i)
  {
    hide Linked, Members, Node;
    NodeInserted(ids, k, alpha, i);
    NodeInserted(ids, k, alpha, i + 1);
    NodeFresh(ids, alpha, k - 1);
    if i != k - 1 && i != k {
      var at := if i < k then i else i - 1;
      LinkThere(pareto, prev, ids, at);
      NodeFresh(ids, alpha, at);
      NodesDiffer(pareto, prev, ids, at, k - 1);
      NodesDiffer(pareto, prev, ids, at + 1, k);
    }
  }

  lemma NodesDiffer(pareto: map<int, int>, prev: map<int, int>, ids: seq<int>, i: int, j: int)
    requires Linked(pareto, prev, ids) && -1 <= i <= |ids| && -1 <= j <= |ids|
    ensures i != j ==> Node(ids, i) != Node(ids, j)
  {}

  lemma NodeInserted(ids: seq<int>, k: nat, alpha: int, i: int)
    requires k <= |ids| && -1 <= i <= |ids| + 1
    ensures Node(ids[..k] + [alpha] + ids[k..], i) == if i < k then Node(ids, i) else if i == k then alpha else Node(ids, i - 1)
  {}

  /** alpha takes the place of position k. */
  lemma LinkReplace(pareto: map<int, int>, prev: map<int, int>, ids: seq<int>, k: nat, alpha: int)
    requires Linked(pareto, prev, ids) && k < |ids| && 0 <= alpha && alpha !in ids
    ensures var before, after := Node(ids, k - 1), Node(ids, k + 1);
            Linked(pareto[before := alpha][alpha := after] - {ids[k]}, prev[alpha := before][after := alpha] - {ids[k]},
                   ids[..k] + [alpha] + ids[k + 1..])
  {
    hide Linked, Members, Node;
    var before, after := Node(ids, k - 1), Node(ids, k + 1);
    var pareto', prev' := pareto[before := alpha][alpha := after] - {ids[k]}, prev[alpha := before][after := alpha] - {ids[k]};
    LinkThere(pareto, prev, ids, k - 1);
    LinkThere(pareto, prev, ids, k);
    NodeAt(ids, k);
    NodesDiffer(pareto, prev, ids, k - 1, k);
    NodesDiffer(pareto, prev, ids, k + 1, k);
    MembersOne(ids, k);
    var ids' := ids[..k] + [alpha] + ids[k + 1..];
    forall i | -1 <= i < |ids'| ensures LinkAt(pareto', prev', ids', i) {
      LinkReplaceAt(pareto, prev, ids, k, alpha, i);
    }
    SpliceLinked(pareto, prev, ids, k, k + 1, alpha, pareto', prev', ids');
  }

  lemma LinkReplaceAt(pareto: map<int, int>, prev: map<int, int>, ids: seq<int>, k: nat, alpha: int, i: int)
    requires Linked(pareto, prev, ids) && k < |ids| && 0 <= alpha && alpha !in ids && -1 <= i < |ids|
    ensures var before, after := Node(ids, k - 1), Node(ids, k + 1);
            LinkAt(pareto[before := alpha][alpha := after] - {ids[k]}, prev[alpha := before][after := alpha] - {ids[k]},
                   ids[..k] + [alpha] + ids[k + 1..], i)
  {
    hide Linked, Members, Node;
    NodeReplaced(ids, k, alpha, i);
    NodeReplaced(ids, k, alpha, i + 1);
    LinkThere(pareto, prev, ids, i);
    NodeFresh(ids, alpha, i);
    NodeFresh(ids, alpha, k);
    NodeAt(ids, k);
    NodesDiffer(pareto, prev, ids, i, k);
    NodesDiffer(pareto, prev, ids, i + 1, k);
    NodesDiffer(pareto, prev, ids, i, k - 1);
    NodesDiffer(pareto, prev, ids, i + 1, k + 1);
    NodesDiffer(pareto, prev, ids, k - 1, k);
    NodesDiffer(pareto, prev, ids, k + 1, k);
  }

  lemma NodeAt(ids: seq<int>, k: nat)
    requires k < |ids|
    ensures Node(ids, k) == ids[k]
  {}

  lemma NodeReplaced(ids: seq<int>, k: nat, alpha: int, i: int)
    requires k < |ids| && -1 <= i <= |ids|
    ensures Node(ids[..k] + [alpha] + ids[k + 1..], i) == if i == k then alpha else Node(ids, i)
  {}

  lemma LinkThere(pareto: map<int, int>, prev: map<int, int>, ids: seq<int>, i: int)
    requires Linked(pareto, prev, ids) && -1 <= i < |ids|
    ensures LinkAt(pareto, prev, ids, i)
  {}

  /** Position k + 1 is taken out after position k. */
  lemma LinkRemove(pareto: map<int, int>, prev: map<int, int>, ids: seq<int>, k: nat)
    requires Linked(pareto, prev, ids) && k + 1 < |ids|
    ensures var after := Node(ids, k + 2);
            Linked(pareto[ids[k] := after] - {ids[k + 1]}, prev[after := ids[k]] - {ids[k + 1]}, ids[..k + 1] + ids[k + 2..])
  {
    hide Linked, Members, Node;
    var after := Node(ids, k + 2);
    var pareto', prev' := pareto[ids[k] := after] - {ids[k + 1]}, prev[after := ids[k]] - {ids[k + 1]};
    LinkThere(pareto, prev, ids, k - 1);
    LinkThere(pareto, prev, ids, k);
    LinkThere(pareto, prev, ids, k + 1);
    NodeAt(ids, k);
    NodeAt(ids, k + 1);
    NodesDiffer(pareto, prev, ids, k, k + 1);
    NodesDiffer(pareto, prev, ids, k + 2, k + 1);
    MembersOne(ids, k);
    var ids' := ids[..k + 1] + ids[k + 2..];
    assert ids' == ids[..k] + [ids[k]] + ids[k + 2..];
    forall i | -1 <= i < |ids'| ensures LinkAt(pareto', prev', ids', i) {
      LinkRemoveAt(pareto, prev, ids, k, i);
    }
    Positive(pareto, prev, ids, k);
    SpliceLinked(pareto, prev, ids, k, k + 2, ids[k], pareto', prev', ids');
  }

  lemma Positive(pareto: map<int, int>, prev: map<int, int>, ids: seq<int>, k: nat)
    requires Linked(pareto, prev, ids) && k < |ids|
    ensures 0 <= ids[k]
  {}

  lemma LinkRemoveAt(pareto: map<int, int>, prev: map<int, int>, ids: seq<int>, k: nat, i: int)
    requires Linked(pareto, prev, ids) && k + 1 < |ids| && -1 <= i < |ids| - 1
    ensures var after := Node(ids, k + 2);
            LinkAt(pareto[ids[k] := after] - {ids[k + 1]}, prev[after := ids[k]] - {ids[k + 1]}, ids[..k + 1] + ids[k + 2..], i)
  {
    NodesApart(ids);
    LinkThere(pareto, prev, ids, if i <= k then i else i + 1);
    hide Linked, Members;
    var ids' := ids[..k + 1] + ids[k + 2..];
    assert Node(ids', i) == if i <= k then Node(ids, i) else Node(ids, i + 1);
    assert Node(ids', i + 1) == if i + 1 <= k then Node(ids, i + 1) else Node(ids, i + 2);
  }

  lemma NodeFresh(ids: seq<int>, alpha: int, i: int)
    requires 0 <= alpha && alpha !in ids && -1 <= i < |ids|
    ensures Node(ids, i) != alpha && Node(ids, i + 1) != alpha
  {}

  lemma NodesApart(ids: seq<int>)
    requires Distinct(ids) && forall i | 0 <= i < |ids| :: 0 <= ids[i]
    ensures forall i, j | -1 <= i < j <= |ids| :: Node(ids, i) != Node(ids, j)
  {}

  /** Replacing positions k to j by alpha. */
  lemma MembersSplit(ids: seq<int>, k: nat, j: nat, alpha: int)
    requires Distinct(ids) && k <= j <= |ids| && (alpha !in ids || (k < j && alpha == ids[k]))
    ensures var ids' := ids[..k] + [alpha] + ids[j..];
            Distinct(ids') && Members(ids') == Members(ids) - Members(ids[k..j]) + {alpha}
    ensures Members(ids[k..j]) <= Members(ids) && alpha in Members(ids[..k] + [alpha] + ids[j..])
  {
    var ids' := ids[..k] + [alpha] + ids[j..];
    forall i | 0 <= i < |ids'| ensures ids'[i] == (if i < k then ids[i] else if i == k then alpha else ids[i - k - 1 + j]) {}
    forall i | 0 <= i < |ids| ensures ids[i] in Members(ids') || ids[i] in Members(ids[k..j]) {
      if i < k { assert ids'[i] == ids[i]; }
      else if i < j { assert ids[k..j][i - k] == ids[i]; }
      else { assert ids'[i - j + k + 1] == ids[i]; }
    }
    assert ids'[k] == alpha;
    forall i, l | 0 <= i < |ids'| && 0 <= l < j - k ensures i != k ==> ids'[i] != ids[k..j][l] {}
  }

  // ---------------------------------------------------------------------------------------------
  // One neighbour against the curve

  ghost function Spliced(ids: seq<int>, k: nat, j: nat, alpha: int): seq<int>
    requires k <= j <= |ids|
  {
    ids[..k] + [alpha] + ids[j..]
  }

  /** Where the walk of alpha along the curve ids stands after i members. Not yet in the list: all of them
      have lower load and higher bandwidth. In the list: it stands after the first k, it dominated those
      from k to j, and the others have higher load and lower bandwidth. */
  datatype Walk = Before(i: nat) | Inside(i: nat, k: nat, j: nat)

  ghost predicate Consistent(tab: Table, ids: seq<int>, a: Sol, w: Walk)
    requires Sorted(tab, ids)
  {
    && w.i <= |ids|
    && match w
       case Before(i) => forall l | 0 <= l < i :: tab[ids[l]].load < a.load && tab[ids[l]].bdwt > a.bdwt
       case Inside(i, k, j) =>
         && k <= j <= i
         && (forall l | 0 <= l < k :: tab[ids[l]].load < a.load && tab[ids[l]].bdwt > a.bdwt)
         && (forall l | k <= l < j :: Dominates(a, tab[ids[l]]))
         && (forall l | j <= l < i :: tab[ids[l]].load > a.load && tab[ids[l]].bdwt < a.bdwt)
         && (forall l | i <= l < |ids| :: tab[ids[l]].load > a.load)
  }

  ghost function Current(ids: seq<int>, w: Walk, alpha: int): seq<int>
    requires w.Inside? ==> w.k <= w.j <= |ids|
  {
    match w
    case Before(_) => ids
    case Inside(_, k, j) => Spliced(ids, k, j, alpha)
  }

  ghost function Dropped(ids: seq<int>, w: Walk): seq<int>
    requires w.Inside? ==> w.k <= w.j <= |ids|
  {
    match w
    case Before(_) => []
    case Inside(_, k, j) => ids[k..j]
  }

  ghost predicate Walking(tab: Table, ids: seq<int>, alpha: int, w: Walk, pareto: map<int, int>, prev: map<int, int>, next: int, drops: seq<int>) {
    && Sorted(tab, ids) && alpha in tab && Consistent(tab, ids, tab[alpha], w)
    && Linked(pareto, prev, Current(ids, w, alpha)) && next == Node(ids, w.i) && drops == Dropped(ids, w)
  }

  /** Position of member i in the list as it is now. */
  ghost function Position(w: Walk): nat
    requires w.Inside? ==> w.j <= w.i
  {
    if w.Inside? then w.i - w.j + w.k + 1 else w.i
  }

  lemma AtPosition(tab: Table, ids: seq<int>, alpha: int, w: Walk, pareto: map<int, int>, prev: map<int, int>, next: int, drops: seq<int>)
    requires Walking(tab, ids, alpha, w, pareto, prev, next, drops) && w.i < |ids| && alpha !in ids && 0 <= alpha
    ensures next in tab && tab[next] == tab[ids[w.i]] && next == ids[w.i] && next in pareto && next in prev && next != TAIL
    ensures pareto[next] == Node(ids, w.i + 1)
    ensures alpha in prev <==> w.Inside?
    ensures w.Before? ==> prev[next] == Node(ids, w.i - 1)
  {
    WalkBounds(tab, ids, alpha, w, pareto, prev, next, drops);
    WalkParts(tab, ids, alpha, w, pareto, prev, next, drops);
    hide Sorted, Consistent, Linked, Walking;
    var cur := Current(ids, w, alpha);
    CurrentAt(ids, w, alpha);
    Neighbours(pareto, prev, cur, Position(w));
    InPrev(pareto, prev, cur, alpha);
  }

  lemma CurrentAt(ids: seq<int>, w: Walk, alpha: int)
    requires w.i < |ids| && (w.Inside? ==> w.k <= w.j <= w.i) && alpha !in ids
    ensures var cur, q := Current(ids, w, alpha), Position(w);
            q < |cur| && cur[q] == ids[w.i] && Node(cur, q + 1) == Node(ids, w.i + 1) && (alpha in cur <==> w.Inside?)
            && (w.Before? ==> cur == ids && q == w.i)
  {
    if w.Inside? {
      hide Current, Position;
      AfterInside(ids, w, alpha);
    }
  }

  lemma AfterInside(ids: seq<int>, w: Walk, alpha: int)
    requires w.i < |ids| && w.Inside? && w.k <= w.j <= w.i
    ensures var cur, q := Current(ids, w, alpha), Position(w);
            q < |cur| && cur[q] == ids[w.i] && Node(cur, q + 1) == Node(ids, w.i + 1) && alpha in cur
  {
    assert Current(ids, w, alpha)[w.k] == alpha;
  }

  lemma Neighbours(pareto: map<int, int>, prev: map<int, int>, ids: seq<int>, q: int)
    requires Linked(pareto, prev, ids) && 0 <= q < |ids|
    ensures 0 <= ids[q] && ids[q] in pareto && ids[q] in prev
    ensures pareto[ids[q]] == Node(ids, q + 1) && prev[ids[q]] == Node(ids, q - 1)
  {
    assert LinkAt(pareto, prev, ids, q) && LinkAt(pareto, prev, ids, q - 1);
  }

  lemma InPrev(pareto: map<int, int>, prev: map<int, int>, ids: seq<int>, x: int)
    requires Linked(pareto, prev, ids) && 0 <= x
    ensures x in prev <==> x in ids
  {}

  lemma WalkBounds(tab: Table, ids: seq<int>, alpha: int, w: Walk, pareto: map<int, int>, prev: map<int, int>, next: int, drops: seq<int>)
    requires Walking(tab, ids, alpha, w, pareto, prev, next, drops)
    ensures w.i <= |ids| && (w.Inside? ==> w.k <= w.j <= w.i) && forall l | 0 <= l < |ids| :: ids[l] in tab
  {
    hide Linked;
  }

  /** Once in the list, what lies ahead has higher load; and lower bandwidth after the first such member. */
  lemma Ahead(tab: Table, ids: seq<int>, a: Sol, w: Walk)
    requires Sorted(tab, ids) && Consistent(tab, ids, a, w) && w.i < |ids|
    ensures w.Inside? ==> tab[ids[w.i]].load > a.load
    ensures w.Inside? && w.j < w.i ==> tab[ids[w.i]].bdwt < a.bdwt
  {
    if w.Inside? && w.j < w.i {
      assert tab[ids[w.i - 1]].bdwt > tab[ids[w.i]].bdwt;
    }
  }

  /** The walk after one more member, as far as loads and bandwidths go. */
  lemma StillConsistent(tab: Table, ids: seq<int>, a: Sol, w: Walk)
    requires Sorted(tab, ids) && Consistent(tab, ids, a, w) && w.i < |ids|
    ensures Dominates(a, tab[ids[w.i]]) ==> Consistent(tab, ids, a, Inside(w.i + 1, if w.Before? then w.i else w.k, w.i + 1))
    ensures Dominates(a, tab[ids[w.i]]) && w.Inside? ==> w.j == w.i
    ensures !Dominates(a, tab[ids[w.i]]) && a.load < tab[ids[w.i]].load ==>
              Consistent(tab, ids, a, if w.Before? then Inside(w.i + 1, w.i, w.i) else w.(i := w.i + 1))
    ensures !Dominates(tab[ids[w.i]], a) && a.load > tab[ids[w.i]].load ==>
              w.Before? && Consistent(tab, ids, a, if w.i + 1 == |ids| then Inside(|ids|, |ids|, |ids|) else Before(w.i + 1))
  {
    Ahead(tab, ids, a, w);
  }

  lemma SpliceNext(ids: seq<int>, k: nat, j: nat, alpha: int)
    requires k <= j < |ids|
    ensures var cur := Spliced(ids, k, j, alpha);
            |cur| > k + 1 && cur[k] == alpha && cur[k + 1] == ids[j] && cur[..k + 1] + cur[k + 2..] == Spliced(ids, k, j + 1, alpha)
            && Node(cur, k + 2) == Node(ids, j + 1)
    ensures ids[k..j] + [ids[j]] == ids[k..j + 1]
  {}

  lemma WalkParts(tab: Table, ids: seq<int>, alpha: int, w: Walk, pareto: map<int, int>, prev: map<int, int>, next: int, drops: seq<int>)
    requires Walking(tab, ids, alpha, w, pareto, prev, next, drops)
    ensures Sorted(tab, ids) && alpha in tab && Consistent(tab, ids, tab[alpha], w) && (w.Inside? ==> w.k <= w.j <= w.i) && w.i <= |ids|
    ensures Linked(pareto, prev, Current(ids, w, alpha)) && next == Node(ids, w.i) && drops == Dropped(ids, w)
  {
    hide Linked, Sorted;
  }

  lemma WalkWhole(tab: Table, ids: seq<int>, alpha: int, w: Walk, pareto: map<int, int>, prev: map<int, int>, next: int, drops: seq<int>)
    requires Sorted(tab, ids) && alpha in tab && Consistent(tab, ids, tab[alpha], w) && w.i <= |ids| && (w.Inside? ==> w.k <= w.j <= |ids|)
    requires Linked(pareto, prev, Current(ids, w, alpha)) && next == Node(ids, w.i) && drops == Dropped(ids, w)
    ensures Walking(tab, ids, alpha, w, pareto, prev, next, drops)
  {
    hide Linked, Sorted, Consistent;
  }

  lemma WalkDominatesFirst(tab: Table, ids: seq<int>, alpha: int, w: Walk, pareto: map<int, int>, prev: map<int, int>, beta: int, drops: seq<int>)
    requires Walking(tab, ids, alpha, w, pareto, prev, beta, drops) && w.i < |ids| && alpha !in ids && 0 <= alpha
    requires beta in tab && Dominates(tab[alpha], tab[beta]) && w.Before?
    ensures var before, next := Node(ids, w.i - 1), Node(ids, w.i + 1);
            Walking(tab, ids, alpha, Inside(w.i + 1, w.i, w.i + 1), pareto[before := alpha][alpha := next] - {beta},
                    prev[alpha := before][next := alpha] - {beta}, next, drops + [beta])
  {
    hide Linked, Sorted, Consistent, Walking, Dominates, Spliced;
    WalkParts(tab, ids, alpha, w, pareto, prev, beta, drops);
    StillConsistent(tab, ids, tab[alpha], w);
    var before, next := Node(ids, w.i - 1), Node(ids, w.i + 1);
    LinkReplace(pareto, prev, ids, w.i, alpha);
    SplicedIs(ids, w.i, w.i + 1, alpha);
    SpliceNext(ids, w.i, w.i, alpha);
    WalkWhole(tab, ids, alpha, Inside(w.i + 1, w.i, w.i + 1), pareto[before := alpha][alpha := next] - {beta},
      prev[alpha := before][next := alpha] - {beta}, next, drops + [beta]);
  }

  lemma WalkDominatesMore(tab: Table, ids: seq<int>, alpha: int, w: Walk, pareto: map<int, int>, prev: map<int, int>, beta: int, drops: seq<int>)
    requires Walking(tab, ids, alpha, w, pareto, prev, beta, drops) && w.i < |ids| && alpha !in ids && 0 <= alpha
    requires beta in tab && Dominates(tab[alpha], tab[beta]) && w.Inside?
    ensures var next := Node(ids, w.i + 1);
            Walking(tab, ids, alpha, Inside(w.i + 1, w.k, w.i + 1), pareto[alpha := next] - {beta},
                    prev[next := alpha] - {beta}, next, drops + [beta])
  {
    hide Linked, Sorted, Consistent, Walking, Dominates, Spliced;
    WalkParts(tab, ids, alpha, w, pareto, prev, beta, drops);
    StillConsistent(tab, ids, tab[alpha], w);
    var next := Node(ids, w.i + 1);
    SpliceNext(ids, w.k, w.j, alpha);
    LinkRemove(pareto, prev, Spliced(ids, w.k, w.j, alpha), w.k);
    WalkWhole(tab, ids, alpha, Inside(w.i + 1, w.k, w.i + 1), pareto[alpha := next] - {beta},
      prev[next := alpha] - {beta}, next, drops + [beta]);
  }

  lemma WalkDominates(tab: Table, ids: seq<int>, alpha: int, w: Walk, pareto: map<int, int>, prev: map<int, int>, beta: int, drops: seq<int>)
    requires Walking(tab, ids, alpha, w, pareto, prev, beta, drops) && w.i < |ids| && alpha !in ids && 0 <= alpha
    requires beta in tab && Dominates(tab[alpha], tab[beta])
    ensures var before, next := Node(ids, w.i - 1), Node(ids, w.i + 1);
            var w' := Inside(w.i + 1, if w.Before? then w.i else w.k, w.i + 1);
            Walking(tab, ids, alpha, w',
                    (if w.Before? then pareto[before := alpha] else pareto)[alpha := next] - {beta},
                    (if w.Before? then prev[alpha := before] else prev)[next := alpha] - {beta}, next, drops + [beta])
  {
    hide Walking, Dominates;
    if w.Before? {
      WalkDominatesFirst(tab, ids, alpha, w, pareto, prev, beta, drops);
    } else {
      WalkDominatesMore(tab, ids, alpha, w, pareto, prev, beta, drops);
    }
  }

  lemma SplicedIs(ids: seq<int>, k: nat, j: nat, alpha: int)
    requires k <= j <= |ids|
    ensures Spliced(ids, k, j, alpha) == ids[..k] + [alpha] + ids[j..]
    ensures Spliced(ids, |ids|, |ids|, alpha) == ids[..|ids|] + [alpha] + ids[|ids|..]
    ensures ids[k..k] == [] == ids[|ids|..|ids|]
  {}

  lemma WalkLeft(tab: Table, ids: seq<int>, alpha: int, w: Walk, pareto: map<int, int>, prev: map<int, int>, beta: int, drops: seq<int>)
    requires Walking(tab, ids, alpha, w, pareto, prev, beta, drops) && w.i < |ids| && alpha !in ids && 0 <= alpha
    requires beta in tab && !Dominates(tab[alpha], tab[beta]) && tab[alpha].load < tab[beta].load
    ensures var before, next := Node(ids, w.i - 1), Node(ids, w.i + 1);
            if w.Before? then
              Walking(tab, ids, alpha, Inside(w.i + 1, w.i, w.i), pareto[before := alpha][alpha := beta], prev[alpha := before][beta := alpha], next, drops)
            else Walking(tab, ids, alpha, w.(i := w.i + 1), pareto, prev, next, drops)
  {
    hide Linked, Sorted, Consistent, Walking, Dominates, Spliced;
    WalkParts(tab, ids, alpha, w, pareto, prev, beta, drops);
    assert beta == ids[w.i];
    StillConsistent(tab, ids, tab[alpha], w);
    SplicedIs(ids, w.i, w.i, alpha);
    var before, next := Node(ids, w.i - 1), Node(ids, w.i + 1);
    if w.Before? {
      LinkInsert(pareto, prev, ids, w.i, alpha);
      WalkWhole(tab, ids, alpha, Inside(w.i + 1, w.i, w.i), pareto[before := alpha][alpha := beta], prev[alpha := before][beta := alpha], next, drops);
    } else {
      WalkWhole(tab, ids, alpha, w.(i := w.i + 1), pareto, prev, next, drops);
    }
  }

  lemma WalkRight(tab: Table, ids: seq<int>, alpha: int, w: Walk, pareto: map<int, int>, prev: map<int, int>, beta: int, drops: seq<int>)
    requires Walking(tab, ids, alpha, w, pareto, prev, beta, drops) && w.i < |ids| && alpha !in ids && 0 <= alpha
    requires beta in tab && !Dominates(tab[beta], tab[alpha]) && tab[alpha].load > tab[beta].load
    ensures var next := Node(ids, w.i + 1);
            if next == TAIL then
              Walking(tab, ids, alpha, Inside(|ids|, |ids|, |ids|), pareto[beta := alpha][alpha := TAIL], prev[alpha := beta][TAIL := alpha], next, drops)
              && w.i + 1 == |ids|
            else Walking(tab, ids, alpha, Before(w.i + 1), pareto, prev, next, drops) && w.i + 1 < |ids|
  {
    hide Linked, Sorted, Consistent, Walking, Dominates, Spliced;
    WalkParts(tab, ids, alpha, w, pareto, prev, beta, drops);
    assert beta == ids[w.i];
    StillConsistent(tab, ids, tab[alpha], w);
    TailIsLast(pareto, prev, ids, w.i);
    if w.i + 1 == |ids| {
      SplicedIs(ids, |ids|, |ids|, alpha);
      LinkInsert(pareto, prev, ids, |ids|, alpha);
      WalkWhole(tab, ids, alpha, Inside(|ids|, |ids|, |ids|), pareto[beta := alpha][alpha := TAIL], prev[alpha := beta][TAIL := alpha], TAIL, drops);
    } else {
      WalkWhole(tab, ids, alpha, Before(w.i + 1), pareto, prev, Node(ids, w.i + 1), drops);
    }
  }

  lemma TailIsLast(pareto: map<int, int>, prev: map<int, int>, ids: seq<int>, i: nat)
    requires Linked(pareto, prev, ids) && i < |ids|
    ensures Node(ids, i + 1) == TAIL <==> i + 1 == |ids|
  {}

  /** src/Naive_homo.cc:243-300: one member of the curve. */
  method WalkStep(ghost tab: Table, ghost ids: seq<int>, alpha_id: int, alpha: Sol, beta_id: int, beta: Sol, ghost w0: Walk,
                  pareto0: map<int, int>, prev0: map<int, int>, drops0: seq<int>)
    returns (pareto: map<int, int>, prev: map<int, int>, drops: seq<int>, next_id: int, stop: bool, ghost w: Walk)
    requires Walking(tab, ids, alpha_id, w0, pareto0, prev0, beta_id, drops0) && w0.i < |ids| && alpha_id !in ids && 0 <= alpha_id
    requires alpha_id in tab && tab[alpha_id] == alpha && beta_id in tab && tab[beta_id] == beta
    ensures !stop ==> Walking(tab, ids, alpha_id, w, pareto, prev, next_id, drops) && w.i == w0.i + 1
    ensures !stop && w.i == |ids| ==> w.Inside?
    ensures stop ==> w0.Before? && pareto == pareto0 && prev == prev0 && drops == [alpha_id] && Covers(beta, alpha)
  {
    AtPosition(tab, ids, alpha_id, w0, pareto0, prev0, beta_id, drops0);
    hide Linked, Sorted, LinkAt, Walking, Consistent;
    DropsBefore(tab, ids, alpha_id, w0, pareto0, prev0, beta_id, drops0);
    pareto, prev, drops, stop, w := pareto0, prev0, drops0, false, w0;
    next_id := pareto[beta_id];
    var prev_id := prev[beta_id];
    var below := Dominate(beta, alpha);
    var above := Dominate(alpha, beta);
    if below {
      drops, stop := drops + [alpha_id], true;
    } else if above {
      WalkDominates(tab, ids, alpha_id, w0, pareto0, prev0, beta_id, drops0);
      w := Inside(w0.i + 1, if w0.Before? then w0.i else w0.k, w0.i + 1);
      if alpha_id !in prev {
        pareto := pareto[prev_id := alpha_id];
        prev := prev[alpha_id := prev_id];
      }
      pareto := pareto[alpha_id := next_id];
      prev := prev[next_id := alpha_id];
      pareto := pareto - {beta_id};
      prev := prev - {beta_id};
      drops := drops + [beta_id];
    } else {
      if alpha.load < beta.load {
        WalkLeft(tab, ids, alpha_id, w0, pareto0, prev0, beta_id, drops0);
        if alpha_id !in prev {
          pareto := pareto[prev_id := alpha_id];
          prev := prev[alpha_id := prev_id];
          pareto := pareto[alpha_id := beta_id];
          prev := prev[beta_id := alpha_id];
          w := Inside(w0.i + 1, w0.i, w0.i);
        } else {
          w := w0.(i := w0.i + 1);
        }
      } else if alpha.load > beta.load {
        WalkRight(tab, ids, alpha_id, w0, pareto0, prev0, beta_id, drops0);
        if next_id == TAIL {
          pareto := pareto[beta_id := alpha_id];
          prev := prev[alpha_id := beta_id];
          pareto := pareto[alpha_id := TAIL];
          prev := prev[TAIL := alpha_id];
          w := Inside(|ids|, |ids|, |ids|);
        } else {
          w := Before(w0.i + 1);
        }
      } else {
        drops, stop := drops + [alpha_id], true;
      }
    }
  }

  lemma DropsBefore(tab: Table, ids: seq<int>, alpha: int, w: Walk, pareto: map<int, int>, prev: map<int, int>, next: int, drops: seq<int>)
    requires Walking(tab, ids, alpha, w, pareto, prev, next, drops)
    ensures w.Before? ==> drops == []
  {}

  /** x is no better than some member of the list. */
  ghost predicate CoveredBy(tab: Table, ids: seq<int>, x: int) {
    x in tab && exists i :: 0 <= i < |ids| && ids[i] in tab && Covers(tab[ids[i]], tab[x])
  }

  /** x is worse than some member of the list. */
  ghost predicate WorseThan(tab: Table, ids: seq<int>, x: int) {
    x in tab && exists i :: 0 <= i < |ids| && ids[i] in tab && Dominates(tab[ids[i]], tab[x])
  }

  /** The curve after candidates have been compared with it: each old member (start) and each candidate is on
      it or was dropped, old members only for a better one. */
  ghost predicate Settled(tab: Table, start: set<int>, candidates: set<int>, ids: seq<int>, dropped: seq<int>) {
    && Sorted(tab, ids) && ids != []
    && Members(ids) + Members(dropped) == start + candidates && Members(ids) !! Members(dropped)
    && (forall l | 0 <= l < |dropped| :: CoveredBy(tab, ids, dropped[l]) && (dropped[l] in start ==> WorseThan(tab, ids, dropped[l])))
  }

  lemma WalkSettles(tab: Table, ids: seq<int>, alpha: int, w: Walk, pareto: map<int, int>, prev: map<int, int>, next: int, drops: seq<int>)
    requires Walking(tab, ids, alpha, w, pareto, prev, next, drops) && w.Inside? && w.i == |ids| && alpha !in ids
    ensures Settled(tab, Members(ids), {alpha}, Current(ids, w, alpha), drops)
  {
    WalkParts(tab, ids, alpha, w, pareto, prev, next, drops);
    hide Linked, Walking, Consistent, Sorted, Members, CoveredBy, WorseThan;
    var cur := Current(ids, w, alpha);
    SortedDistinct(tab, ids);
    MembersSplit(ids, w.k, w.j, alpha);
    CurrentSorted(tab, ids, alpha, w);
    DroppedWorse(tab, ids, alpha, w);
    NotMember(ids, alpha);
  }

  lemma CurrentSorted(tab: Table, ids: seq<int>, alpha: int, w: Walk)
    requires Sorted(tab, ids) && alpha in tab && Consistent(tab, ids, tab[alpha], w) && w.Inside? && w.i == |ids|
    ensures Sorted(tab, Current(ids, w, alpha))
  {
    var cur := Current(ids, w, alpha);
    forall l | 0 <= l < |cur| ensures cur[l] == if l < w.k then ids[l] else if l == w.k then alpha else ids[l - w.k - 1 + w.j] {}
    hide Current;
  }

  lemma DroppedWorse(tab: Table, ids: seq<int>, alpha: int, w: Walk)
    requires Sorted(tab, ids) && alpha in tab && Consistent(tab, ids, tab[alpha], w) && w.Inside?
    ensures var cur, drops := Current(ids, w, alpha), Dropped(ids, w);
            forall l | 0 <= l < |drops| :: CoveredBy(tab, cur, drops[l]) && WorseThan(tab, cur, drops[l])
  {
    var cur, drops := Current(ids, w, alpha), Dropped(ids, w);
    hide Sorted, Current, Dropped;
    CurrentHas(ids, w, alpha);
    forall l | 0 <= l < |drops| ensures CoveredBy(tab, cur, drops[l]) && WorseThan(tab, cur, drops[l]) {
      assert Dominates(tab[cur[w.k]], tab[drops[l]]);
    }
  }

  lemma CurrentHas(ids: seq<int>, w: Walk, alpha: int)
    requires w.Inside? && w.k <= w.j <= |ids|
    ensures w.k < |Current(ids, w, alpha)| && Current(ids, w, alpha)[w.k] == alpha
    ensures Dropped(ids, w) == ids[w.k..w.j] && forall l | 0 <= l < w.j - w.k :: Dropped(ids, w)[l] == ids[w.k + l]
  {}

  lemma SortedDistinct(tab: Table, ids: seq<int>)
    requires Sorted(tab, ids)
    ensures Distinct(ids)
  {}

  lemma NotMember(ids: seq<int>, x: int)
    ensures x in ids <==> x in Members(ids)
  {
    if x in ids {
      var i :| 0 <= i < |ids| && ids[i] == x;
    }
  }

  /** Everything that sol_map holds is right, and it holds the curve. */
  ghost predicate Holds(tab: Table, sol_map: Table, ids: seq<int>) {
    && (forall x | x in sol_map :: x in tab && sol_map[x] == tab[x])
    && (forall i | 0 <= i < |ids| :: ids[i] in sol_map)
  }

  /** src/Naive_homo.cc:221-306: one neighbour. */
  method CompareWithCurve(ghost tab: Table, ghost ids0: seq<int>, alpha_id: int, alpha: Sol, pareto0: map<int, int>, prev0: map<int, int>, sol_map0: Table)
    returns (pareto: map<int, int>, prev: map<int, int>, sol_map: Table, drops: seq<int>, ghost ids: seq<int>)
    requires Linked(pareto0, prev0, ids0) && Sorted(tab, ids0) && ids0 != [] && alpha_id !in ids0 && 0 <= alpha_id
    requires alpha_id in tab && tab[alpha_id] == alpha && Holds(tab, sol_map0, ids0)
    ensures Linked(pareto, prev, ids) && Settled(tab, Members(ids0), {alpha_id}, ids, drops)
    ensures Holds(tab, sol_map, ids) && sol_map.Keys <= sol_map0.Keys + {alpha_id}
  {
    hide Linked, Sorted, Settled, Walking, Members, LinkAt;
    pareto, prev, sol_map, drops := pareto0, prev0, sol_map0, [];
    ghost var w := Before(0);
    WalkStarts(tab, ids0, alpha_id, pareto, prev);
    var next_id := pareto[HEAD];
    while next_id != TAIL
      invariant Walking(tab, ids0, alpha_id, w, pareto, prev, next_id, drops) && (w.i == |ids0| ==> w.Inside?)
      invariant Holds(tab, sol_map, ids0) && sol_map.Keys <= sol_map0.Keys + {alpha_id} && (w.Inside? ==> alpha_id in sol_map)
      decreases |ids0| - w.i
    {
      WalkGoesOn(tab, ids0, alpha_id, w, pareto, prev, next_id, drops);
      AtPosition(tab, ids0, alpha_id, w, pareto, prev, next_id, drops);
      var stop;
      ghost var w0, beta_id, drops1 := w, next_id, drops;
      ghost var pareto1, prev1 := pareto, prev;
      pareto, prev, drops, next_id, stop, w := WalkStep(tab, ids0, alpha_id, alpha, next_id, sol_map[next_id], w, pareto, prev, drops);
      if stop {
        ids := ids0;
        DropSettles(tab, ids0, alpha_id, w0, pareto1, prev1, beta_id, drops1);
        return;
      }
      if alpha_id !in sol_map && alpha_id in prev {
        sol_map := sol_map[alpha_id := alpha];
      }
      InsideIsListed(tab, ids0, alpha_id, w, pareto, prev, next_id, drops);
    }
    WalkOver(tab, ids0, alpha_id, w, pareto, prev, next_id, drops);
    WalkSettles(tab, ids0, alpha_id, w, pareto, prev, next_id, drops);
    WalkBounds(tab, ids0, alpha_id, w, pareto, prev, next_id, drops);
    ids := Current(ids0, w, alpha_id);
    CurrentLinked(tab, ids0, alpha_id, w, pareto, prev, next_id, drops);
  }

  lemma WalkStarts(tab: Table, ids: seq<int>, alpha: int, pareto: map<int, int>, prev: map<int, int>)
    requires Linked(pareto, prev, ids) && Sorted(tab, ids) && alpha in tab
    ensures HEAD in pareto && Walking(tab, ids, alpha, Before(0), pareto, prev, pareto[HEAD], [])
  {
    assert LinkAt(pareto, prev, ids, -1);
  }

  lemma WalkGoesOn(tab: Table, ids: seq<int>, alpha: int, w: Walk, pareto: map<int, int>, prev: map<int, int>, next: int, drops: seq<int>)
    requires Walking(tab, ids, alpha, w, pareto, prev, next, drops) && next != TAIL
    ensures w.i < |ids| && next == ids[w.i]
  {
    hide Linked;
  }

  lemma WalkOver(tab: Table, ids: seq<int>, alpha: int, w: Walk, pareto: map<int, int>, prev: map<int, int>, next: int, drops: seq<int>)
    requires Walking(tab, ids, alpha, w, pareto, prev, next, drops) && next == TAIL && alpha !in ids && 0 <= alpha
    ensures w.i == |ids|
  {
    WalkBounds(tab, ids, alpha, w, pareto, prev, next, drops);
    if w.i < |ids| { AtPosition(tab, ids, alpha, w, pareto, prev, next, drops); }
  }

  lemma InsideIsListed(tab: Table, ids: seq<int>, alpha: int, w: Walk, pareto: map<int, int>, prev: map<int, int>, next: int, drops: seq<int>)
    requires Walking(tab, ids, alpha, w, pareto, prev, next, drops) && alpha !in ids && 0 <= alpha
    ensures w.Inside? ==> alpha in prev
  {
    WalkBounds(tab, ids, alpha, w, pareto, prev, next, drops);
    InPrev(pareto, prev, Current(ids, w, alpha), alpha);
    hide Linked;
    if w.Inside? { assert Current(ids, w, alpha)[w.k] == alpha; }
  }

  lemma CurrentLinked(tab: Table, ids: seq<int>, alpha: int, w: Walk, pareto: map<int, int>, prev: map<int, int>, next: int, drops: seq<int>)
    requires Walking(tab, ids, alpha, w, pareto, prev, next, drops)
    ensures Linked(pareto, prev, Current(ids, w, alpha))
    ensures forall x | x in Current(ids, w, alpha) :: x in ids || x == alpha
    ensures forall i | 0 <= i < |Current(ids, w, alpha)| :: Current(ids, w, alpha)[i] in ids || Current(ids, w, alpha)[i] == alpha
  {
    hide Linked;
  }

  lemma OneMember(x: int)
    ensures Members([x]) == {x}
  {
    var s := [x];
    assert s[0] == x;
    assert forall i | 0 <= i < |s| :: s[i] == x;
    assert Members(s) == {s[0]};
  }

  lemma DropSettles(tab: Table, ids: seq<int>, alpha: int, w: Walk, pareto: map<int, int>, prev: map<int, int>, beta: int, drops: seq<int>)
    requires Walking(tab, ids, alpha, w, pareto, prev, beta, drops) && w.Before? && w.i < |ids| && beta == ids[w.i] && alpha !in ids
    requires beta in tab && Covers(tab[beta], tab[alpha])
    ensures Settled(tab, Members(ids), {alpha}, ids, [alpha]) && Linked(pareto, prev, ids)
  {
    hide Linked;
    NotMember(ids, alpha);
    OneMember(alpha);
    assert CoveredBy(tab, ids, [alpha][0]);
  }

  // ---------------------------------------------------------------------------------------------
  // All neighbours of one solution

  lemma SettledMore(tab: Table, start: set<int>, done: set<int>, mid: seq<int>, dropped: seq<int>, alpha: int, ids: seq<int>, drops: seq<int>)
    requires Settled(tab, start, done, mid, dropped) && Settled(tab, Members(mid), {alpha}, ids, drops) && alpha !in start + done
    ensures Settled(tab, start, done + {alpha}, ids, dropped + drops)
  {
    hide Sorted;
    var all := dropped + drops;
    MembersJoin(dropped, drops);
    forall l | 0 <= l < |all| ensures CoveredBy(tab, ids, all[l]) && (all[l] in start ==> WorseThan(tab, ids, all[l])) {
      if l < |dropped| {
        assert all[l] == dropped[l];
        StillCovered(tab, Members(mid), alpha, mid, ids, drops, dropped[l]);
      } else {
        var x := drops[l - |dropped|];
        assert all[l] == x;
        assert x in Members(drops);
      }
    }
    forall l | 0 <= l < |dropped| ensures dropped[l] !in Members(mid) && dropped[l] != alpha {
      assert dropped[l] in Members(dropped);
    }
  }

  lemma MembersJoin(a: seq<int>, b: seq<int>)
    ensures Members(a + b) == Members(a) + Members(b)
  {
    var s := a + b;
    forall i | 0 <= i < |a| ensures a[i] in Members(s) { assert s[i] == a[i]; }
    forall i | 0 <= i < |b| ensures b[i] in Members(s) { assert s[|a| + i] == b[i]; }
  }

  lemma StillCovered(tab: Table, start: set<int>, alpha: int, mid: seq<int>, ids: seq<int>, drops: seq<int>, x: int)
    requires Settled(tab, start, {alpha}, ids, drops) && start == Members(mid)
    ensures CoveredBy(tab, mid, x) ==> CoveredBy(tab, ids, x)
    ensures WorseThan(tab, mid, x) ==> WorseThan(tab, ids, x)
  {
    hide Sorted;
    if CoveredBy(tab, mid, x) {
      var i :| 0 <= i < |mid| && mid[i] in tab && Covers(tab[mid[i]], tab[x]);
      var j := Better(tab, start, {alpha}, ids, drops, mid[i]);
    }
    if WorseThan(tab, mid, x) {
      var i :| 0 <= i < |mid| && mid[i] in tab && Dominates(tab[mid[i]], tab[x]);
      var j := Better(tab, start, {alpha}, ids, drops, mid[i]);
    }
  }

  /** Whatever took part is covered by the curve. */
  lemma Better(tab: Table, start: set<int>, candidates: set<int>, ids: seq<int>, dropped: seq<int>, x: int) returns (j: nat)
    requires Settled(tab, start, candidates, ids, dropped) && x in start + candidates
    ensures x in tab && j < |ids| && ids[j] in tab && Covers(tab[ids[j]], tab[x])
  {
    if x in Members(ids) {
      j :| 0 <= j < |ids| && ids[j] == x;
      assert ids[j] in tab;
    } else {
      assert x in Members(dropped);
      var l :| 0 <= l < |dropped| && dropped[l] == x;
      assert CoveredBy(tab, ids, dropped[l]);
      j :| 0 <= j < |ids| && ids[j] in tab && Covers(tab[ids[j]], tab[x]);
    }
  }

  method Choose<T(==)>(s: set<T>) returns (x: T)
    requires s != {}
    ensures x in s
  {
    x :| x in s;
  }

  ghost predicate Pruning(tab: Table, start: set<int>, done: set<int>, ids: seq<int>, dropped: seq<int>,
                          pareto: map<int, int>, prev: map<int, int>, sol_map: Table) {
    && Linked(pareto, prev, ids) && Settled(tab, start, done, ids, dropped) && Holds(tab, sol_map, ids) && sol_map.Keys <= start + done
  }

  method PruneOne(ghost tab: Table, ghost start: set<int>, ghost done: set<int>, ghost ids0: seq<int>, alpha_id: int, alpha: Sol,
                  pareto0: map<int, int>, prev0: map<int, int>, sol_map0: Table, dropped0: seq<int>)
    returns (pareto: map<int, int>, prev: map<int, int>, sol_map: Table, dropped: seq<int>, ghost ids: seq<int>)
    requires Pruning(tab, start, done, ids0, dropped0, pareto0, prev0, sol_map0)
    requires alpha_id in tab && tab[alpha_id] == alpha && 0 <= alpha_id && alpha_id !in start + done
    ensures Pruning(tab, start, done + {alpha_id}, ids, dropped, pareto, prev, sol_map)
  {
    hide Linked, Sorted, Settled, Holds, Members;
    SettledSorted(tab, start, done, ids0, dropped0, alpha_id);
    var drops;
    pareto, prev, sol_map, drops, ids := CompareWithCurve(tab, ids0, alpha_id, alpha, pareto0, prev0, sol_map0);
    SettledMore(tab, start, done, ids0, dropped0, alpha_id, ids, drops);
    dropped := dropped0 + drops;
  }

  /** src/Naive_homo.cc:213-310 */
  method PruneNeighbours(ghost tab: Table, ghost ids0: seq<int>, neighbors: Table, pareto0: map<int, int>, prev0: map<int, int>, sol_map0: Table)
    returns (pareto: map<int, int>, prev: map<int, int>, sol_map: Table, dropped: seq<int>, ghost ids: seq<int>)
    requires Linked(pareto0, prev0, ids0) && Sorted(tab, ids0) && ids0 != [] && Holds(tab, sol_map0, ids0) && sol_map0.Keys <= Members(ids0)
    requires forall x | x in neighbors :: x in tab && tab[x] == neighbors[x] && 0 <= x && x !in Members(ids0)
    ensures Pruning(tab, Members(ids0), neighbors.Keys, ids, dropped, pareto, prev, sol_map)
  {
    hide Linked, Sorted, Settled, Holds, Members, Pruning;
    pareto, prev, sol_map, dropped, ids := pareto0, prev0, sol_map0, [], ids0;
    ghost var start, done := Members(ids0), {};
    NothingPruned(tab, ids0, pareto0, prev0, sol_map0);
    var todo := neighbors.Keys;
    while todo != {}
      invariant done + todo == neighbors.Keys && done !! todo && start == Members(ids0)
      invariant Pruning(tab, start, done, ids, dropped, pareto, prev, sol_map)
      decreases |todo|
    {
      var alpha_id := Choose(todo);
      pareto, prev, sol_map, dropped, ids := PruneOne(tab, start, done, ids, alpha_id, neighbors[alpha_id], pareto, prev, sol_map, dropped);
      done := done + {alpha_id};
      todo := todo - {alpha_id};
    }
    assert done == neighbors.Keys;
  }

  lemma NothingPruned(tab: Table, ids: seq<int>, pareto: map<int, int>, prev: map<int, int>, sol_map: Table)
    requires Linked(pareto, prev, ids) && Sorted(tab, ids) && ids != [] && Holds(tab, sol_map, ids) && sol_map.Keys <= Members(ids)
    ensures Pruning(tab, Members(ids), {}, ids, [], pareto, prev, sol_map)
  {
    hide Linked, Sorted, Settled, Holds, Members;
    NothingSettled(tab, ids);
  }

  lemma NothingSettled(tab: Table, ids: seq<int>)
    requires Sorted(tab, ids) && ids != []
    ensures Settled(tab, Members(ids), {}, ids, [])
  {}

  lemma SettledSorted(tab: Table, start: set<int>, done: set<int>, ids: seq<int>, dropped: seq<int>, x: int)
    requires Settled(tab, start, done, ids, dropped)
    ensures Sorted(tab, ids) && ids != [] && Members(ids) <= start + done && (x !in start + done ==> x !in ids)
  {
    hide Sorted;
    NotMember(ids, x);
  }

  /** src/Naive_homo.cc:312-345 */
  method RemoveDropped(dropped: seq<int>, neighbors0: Table, sol_map0: Table, unsearched0: set<int>)
    returns (neighbors: Table, sol_map: Table, unsearched: set<int>)
    ensures neighbors == neighbors0 - Members(dropped) && sol_map == sol_map0 - Members(dropped) && unsearched == unsearched0 - Members(dropped)
  {
    neighbors, sol_map, unsearched := neighbors0, sol_map0, unsearched0;
    assert Members(dropped[..0]) == {};
    for i := 0 to |dropped|
      invariant neighbors == neighbors0 - Members(dropped[..i]) && sol_map == sol_map0 - Members(dropped[..i])
      invariant unsearched == unsearched0 - Members(dropped[..i])
    {
      var drop_idx := dropped[i];
      MembersPrefix(dropped, i);
      if drop_idx in neighbors {
        neighbors := neighbors - {drop_idx};
      }
      if drop_idx in sol_map {
        sol_map := sol_map - {drop_idx};
      }
      if drop_idx in unsearched {
        unsearched := unsearched - {drop_idx};
      }
    }
    assert dropped[..|dropped|] == dropped;
  }

  lemma MembersPrefix(s: seq<int>, i: nat)
    requires i < |s|
    ensures Members(s[..i + 1]) == Members(s[..i]) + {s[i]}
  {
    assert s[..i + 1] == s[..i] + [s[i]];
    MembersJoin(s[..i], [s[i]]);
    OneMember(s[i]);
  }

  ghost predicate Merged(sol_map: Table, sol_map0: Table, neighbors: Table, done: set<int>) {
    && sol_map.Keys == sol_map0.Keys + done && done <= neighbors.Keys
    && (forall x | x in sol_map :: sol_map[x] == if x in sol_map0 then sol_map0[x] else neighbors[x])
  }

  lemma NothingMerged(sol_map: Table, neighbors: Table)
    ensures Merged(sol_map, sol_map, neighbors, {})
  {}

  lemma MergedNext(sol_map: Table, sol_map0: Table, neighbors: Table, done: set<int>, x: int)
    requires Merged(sol_map, sol_map0, neighbors, done) && x in neighbors && x !in done
    ensures Merged(if x in sol_map then sol_map else sol_map[x := neighbors[x]], sol_map0, neighbors, done + {x})
  {}

  lemma OneMore<T>(all: set<T>, done: set<T>, todo: set<T>, base: set<T>, x: T)
    requires done + todo == all && done !! todo && x in todo
    ensures done + {x} + (todo - {x}) == all && done + {x} !! todo - {x} && x in all && x !in done && |todo - {x}| < |todo|
    ensures base + done + {x} == base + (done + {x})
  {}

  /** src/Naive_homo.cc:347-357 */
  method AddRemaining(neighbors: Table, sol_map0: Table, unsearched0: set<int>) returns (sol_map: Table, unsearched: set<int>)
    ensures unsearched == unsearched0 + neighbors.Keys && Merged(sol_map, sol_map0, neighbors, neighbors.Keys)
  {
    NothingMerged(sol_map0, neighbors);
    hide Merged;
    sol_map, unsearched := sol_map0, unsearched0;
    ghost var done: set<int> := {};
    var todo := neighbors.Keys;
    while todo != {}
      invariant done + todo == neighbors.Keys && done !! todo
      invariant unsearched == unsearched0 + done && Merged(sol_map, sol_map0, neighbors, done)
      decreases |todo|
    {
      var add_idx := Choose(todo);
      OneMore(neighbors.Keys, done, todo, unsearched0, add_idx);
      unsearched := unsearched + {add_idx};
      sol_map := AddOne(neighbors, sol_map0, sol_map, add_idx, done);
      done := done + {add_idx};
      todo := todo - {add_idx};
    }
    assert done == neighbors.Keys;
  }

  method AddOne(neighbors: Table, ghost sol_map0: Table, sol_map1: Table, add_idx: int, ghost done: set<int>) returns (sol_map: Table)
    requires Merged(sol_map1, sol_map0, neighbors, done) && add_idx in neighbors && add_idx !in done
    ensures Merged(sol_map, sol_map0, neighbors, done + {add_idx})
  {
    MergedNext(sol_map1, sol_map0, neighbors, done, add_idx);
    hide Merged;
    sol_map := sol_map1;
    if add_idx !in sol_map {
      sol_map := sol_map[add_idx := neighbors[add_idx]];
    }
  }

  // ---------------------------------------------------------------------------------------------
  // The search

  /** What is searched: colours below m for the vertices itm_idx, the others being coloured already. */
  datatype Problem<C> = Problem(g: Dag<C>, coloring: Coloring, itm_idx: seq<int>, m: nat)

  ghost predicate WellPosed<C>(pb: Problem<C>) {
    Closed(pb.g) && pb.coloring.Keys + Members(pb.itm_idx) == pb.g.Keys
  }

  /** No later place of the first n has the same vertex. */
  ghost predicate LastPlace(itm_idx: seq<int>, n: nat, i: int)
    requires 0 <= i < n <= |itm_idx|
  {
    forall j | i < j < n :: itm_idx[j] != itm_idx[i]
  }

  /** col gives every listed vertex the colour that s has in its place, and all others the colour they have. */
  ghost predicate StandsFor(coloring: Coloring, itm_idx: seq<int>, s: seq<nat>, col: Coloring)
    requires |s| <= |itm_idx|
  {
    && col.Keys == coloring.Keys + Members(itm_idx[..|s|])
    && (forall i | 0 <= i < |s| && LastPlace(itm_idx, |s|, i) :: itm_idx[i] in col && col[itm_idx[i]] == s[i])
    && (forall v | v in coloring && v !in Members(itm_idx[..|s|]) :: v in col && col[v] == coloring[v])
  }

  lemma StandsForNothing(coloring: Coloring, itm_idx: seq<int>)
    ensures StandsFor(coloring, itm_idx, [], coloring)
  {
    assert Members(itm_idx[..0]) == {};
  }

  lemma StandsForMore(coloring: Coloring, itm_idx: seq<int>, s: seq<nat>, n: nat, col: Coloring)
    requires n < |s| <= |itm_idx| && StandsFor(coloring, itm_idx, s[..n], col)
    ensures StandsFor(coloring, itm_idx, s[..n + 1], col[itm_idx[n] := s[n]])
  {
    hide Members;
    MembersPrefix(itm_idx, n);
    assert itm_idx[n] in Members(itm_idx[..n + 1]);
    var col' := col[itm_idx[n] := s[n]];
    forall i | 0 <= i < n + 1 && LastPlace(itm_idx, n + 1, i) ensures itm_idx[i] in col' && col'[itm_idx[i]] == s[..n + 1][i] {
      if i < n {
        assert LastPlace(itm_idx, n, i) && itm_idx[n] != itm_idx[i];
        assert s[..n][i] == s[i];
      }
    }
  }

  /** The colouring of the whole DAG that a solution stands for. */
  ghost function Full(coloring: Coloring, itm_idx: seq<int>, s: seq<nat>): (col: Coloring)
    requires |s| <= |itm_idx|
    ensures StandsFor(coloring, itm_idx, s, col)
  {
    if s == [] then
      StandsForNothing(coloring, itm_idx);
      coloring
    else
      var n := |s| - 1;
      var before := Full(coloring, itm_idx, s[..n]);
      StandsForMore(coloring, itm_idx, s, n, before);
      assert s[..n + 1] == s;
      before[itm_idx[n] := s[n]]
  }

  lemma {:induction false} LastPlaceOf(itm_idx: seq<int>, n: nat, v: int) returns (i: nat)
    requires n <= |itm_idx| && v in Members(itm_idx[..n])
    ensures i < n && itm_idx[i] == v && LastPlace(itm_idx, n, i)
  {
    var k :| 0 <= k < n && itm_idx[..n][k] == v;
    if itm_idx[n - 1] == v {
      i := n - 1;
    } else {
      assert itm_idx[..n - 1][k] == v;
      i := LastPlaceOf(itm_idx, n - 1, v);
    }
  }

  /** There is only one such colouring. */
  lemma StandsForOne(coloring: Coloring, itm_idx: seq<int>, s: seq<nat>, a: Coloring, b: Coloring)
    requires |s| <= |itm_idx| && StandsFor(coloring, itm_idx, s, a) && StandsFor(coloring, itm_idx, s, b)
    ensures a == b
  {
    hide Members;
    forall v | v in a ensures v in b && a[v] == b[v] {
      if v in Members(itm_idx[..|s|]) {
        var i := LastPlaceOf(itm_idx, |s|, v);
      }
    }
  }

  ghost predicate IsSolution<C>(pb: Problem<C>, s: seq<nat>) {
    |s| == |pb.itm_idx| && forall i | 0 <= i < |s| :: s[i] < pb.m
  }

  datatype Point = Point(load: int, bdwt: int)

  ghost predicate HasLoad(t: set<Xfer>, load: int) {
    Summarises(load, |t|, t)
  }

  ghost function PointOf<C>(pb: Problem<C>, s: seq<nat>): Point
    requires |s| <= |pb.itm_idx|
  {
    var t := Shipments(pb.g, Full(pb.coloring, pb.itm_idx, s));
    Point(if exists l :: HasLoad(t, l) then (var l :| HasLoad(t, l); l) else 0, |t|)
  }

  lemma LoadUnique(t: set<Xfer>, a: int, b: int)
    requires HasLoad(t, a) && HasLoad(t, b)
    ensures a == b
  {
    NonNegative(t, a);
    NonNegative(t, b);
  }

  lemma NonNegative(t: set<Xfer>, a: int)
    requires HasLoad(t, a)
    ensures 0 <= a
  {
    assert 0 <= InOf(t, 0) <= a;
  }

  /** pt is what the DAG's traffic comes to if the listed vertices have the colours s and all others keep theirs: the
      largest counter, and the number of shipments. */
  ghost predicate Rated<C>(pb: Problem<C>, s: seq<nat>, pt: Point) {
    |s| <= |pb.itm_idx| && exists col :: StandsFor(pb.coloring, pb.itm_idx, s, col) && Summarises(pt.load, pt.bdwt, Shipments(pb.g, col))
  }

  /** A solution has one rating. */
  lemma RatedOnce<C>(pb: Problem<C>, s: seq<nat>, pt: Point)
    requires Rated(pb, s, pt)
    ensures |s| <= |pb.itm_idx| && pt == PointOf(pb, s)
  {
    hide Shipments, StandsFor, Full;
    var col :| StandsFor(pb.coloring, pb.itm_idx, s, col) && Summarises(pt.load, pt.bdwt, Shipments(pb.g, col));
    StandsForOne(pb.coloring, pb.itm_idx, s, col, Full(pb.coloring, pb.itm_idx, s));
    FoundLoad(pb, s, pt.load, pt.bdwt);
  }

  ghost predicate Genuine<C>(pb: Problem<C>, sol: Sol) {
    IsSolution(pb, sol.solution) && Point(sol.load, sol.bdwt) == PointOf(pb, sol.solution) && Rated(pb, sol.solution, Point(sol.load, sol.bdwt))
  }

  /** src/Naive_homo.cc:93-107; the load and bandwidth found are those of the solution. */
  method EvaluateColoring<C>(ghost pb: Problem<C>, stripe: Stripe<C>, curres: seq<nat>, coloring: Coloring, itm_idx: seq<int>)
    returns (load: int, bdwt: int)
    requires WellPosed(pb) && pb.g == stripe.ecdag && pb.coloring == coloring && pb.itm_idx == itm_idx && IsSolution(pb, curres)
    modifies stripe`coloring, stripe`inn, stripe`out, stripe`bdwt, stripe`load
    ensures Point(load, bdwt) == PointOf(pb, curres) && Rated(pb, curres, Point(load, bdwt))
  {
    hide Shipments, Counts, Members, Grown, StandsFor, PointOf;
    var coloring_res := coloring;
    StandsForNothing(coloring, itm_idx);
    assert curres[..0] == [];
    for ii := 0 to |curres|
      invariant StandsFor(coloring, itm_idx, curres[..ii], coloring_res)
    {
      StandsForMore(coloring, itm_idx, curres, ii, coloring_res);
      coloring_res := coloring_res[itm_idx[ii] := curres[ii]];
    }
    assert curres[..|curres|] == curres && itm_idx[..|curres|] == itm_idx;
    StandsForKeys(coloring, itm_idx, curres, coloring_res);
    stripe.SetColoring(coloring_res);
    stripe.EvaluateColoring();
    load, bdwt := stripe.load, stripe.bdwt;
    assert Rated(pb, curres, Point(load, bdwt));
    RatedOnce(pb, curres, Point(load, bdwt));
  }

  lemma StandsForKeys(coloring: Coloring, itm_idx: seq<int>, s: seq<nat>, col: Coloring)
    requires |s| <= |itm_idx| && StandsFor(coloring, itm_idx, s, col)
    ensures col.Keys == coloring.Keys + Members(itm_idx[..|s|])
  {}

  lemma FoundLoad<C>(pb: Problem<C>, s: seq<nat>, load: int, bdwt: int)
    requires |s| <= |pb.itm_idx| && Summarises(load, bdwt, Shipments(pb.g, Full(pb.coloring, pb.itm_idx, s)))
    ensures Point(load, bdwt) == PointOf(pb, s)
  {
    var t := Shipments(pb.g, Full(pb.coloring, pb.itm_idx, s));
    hide Summarises, Shipments;
    assert bdwt == |t| by { BandwidthIs(load, bdwt, t); }
    assert HasLoad(t, load);
    var l :| HasLoad(t, l) && l == PointOf(pb, s).load;
    LoadUnique(t, l, load);
  }

  lemma BandwidthIs(load: int, bdwt: int, t: set<Xfer>)
    requires Summarises(load, bdwt, t)
    ensures bdwt == |t|
  {}

  /** b is a with the colour of one vertex changed. */
  ghost predicate Neighbour(a: seq<nat>, b: seq<nat>) {
    exists i, c :: Recoloured(a, b, i, c)
  }

  ghost predicate Recoloured(a: seq<nat>, b: seq<nat>, i: int, c: nat) {
    0 <= i < |a| && c != a[i] && b == a[i := c]
  }

  function Changed(s: seq<nat>, i: int, c: nat): seq<nat>
    requires 0 <= i < |s|
  {
    s[i := c]
  }

  /** The new solutions so far: fresh, genuine, unsearched, and every recolouring up to (i, j) is there. */
  ghost predicate Generated<C>(pb: Problem<C>, s: seq<nat>, first: int, next: int, neighbors: Table, i: nat, j: nat)
    requires IsSolution(pb, s)
  {
    && first <= next && (forall x | x in neighbors :: first <= x < next && Genuine(pb, neighbors[x]) && !neighbors[x].searched)
    && (forall l, c: nat | 0 <= l < |s| && c < pb.m && c != s[l] && (l < i || (l == i && c < j)) :: Present(neighbors, Changed(s, l, c)))
  }

  ghost predicate Present(neighbors: Table, s: seq<nat>) {
    exists x :: x in neighbors && neighbors[x].solution == s
  }

  lemma GeneratedOne<C>(pb: Problem<C>, s: seq<nat>, first: int, next: int, neighbors: Table, i: nat, j: nat, sol: Sol)
    requires IsSolution(pb, s) && Generated(pb, s, first, next, neighbors, i, j) && i < |s| && j < pb.m
    requires sol.solution == s[i := j] && Genuine(pb, sol) && !sol.searched
    ensures Generated(pb, s, first, next + 1, neighbors[next := sol], i, j + 1)
  {
    hide Genuine;
    var n' := neighbors[next := sol];
    forall l, c: nat | 0 <= l < |s| && c < pb.m && c != s[l] && (l < i || (l == i && c < j + 1)) ensures Present(n', Changed(s, l, c)) {
      if l == i && c == j {
        assert next in n' && n'[next].solution == Changed(s, l, c);
      } else {
        assert Present(neighbors, Changed(s, l, c));
        var x :| x in neighbors && neighbors[x].solution == Changed(s, l, c);
        assert x in n' && n'[x].solution == Changed(s, l, c);
      }
    }
  }

  lemma GeneratedSkip<C>(pb: Problem<C>, s: seq<nat>, first: int, next: int, neighbors: Table, i: nat, j: nat)
    requires IsSolution(pb, s) && Generated(pb, s, first, next, neighbors, i, j) && i < |s|
    ensures j == s[i] ==> Generated(pb, s, first, next, neighbors, i, j + 1)
    ensures j == pb.m ==> Generated(pb, s, first, next, neighbors, i + 1, 0)
  {
    hide Genuine, Present;
  }

  /** src/Naive_homo.cc:170-206 */
  method GenNeighbours<C>(ghost pb: Problem<C>, stripe: Stripe<C>, coloring: Coloring, itm_idx: seq<int>, m: nat, solution: seq<nat>, SOL_ID0: int)
    returns (neighbors: Table, SOL_ID: int)
    requires WellPosed(pb) && pb == Problem(stripe.ecdag, coloring, itm_idx, m) && IsSolution(pb, solution)
    modifies stripe`coloring, stripe`inn, stripe`out, stripe`bdwt, stripe`load
    ensures Generated(pb, solution, SOL_ID0, SOL_ID, neighbors, |solution|, 0)
  {
    hide Generated, WellPosed, PointOf;
    var itm_color := solution;
    neighbors, SOL_ID := map[], SOL_ID0;
    NothingGenerated(pb, solution, SOL_ID);
    for i := 0 to |solution|
      invariant itm_color == solution && Generated(pb, solution, SOL_ID0, SOL_ID, neighbors, i, 0)
      invariant stripe.ecdag == pb.g
    {
      var old_color := itm_color[i];
      for j := 0 to m
        invariant |itm_color| == |solution| && itm_color[i := old_color] == solution && stripe.ecdag == pb.g
        invariant Generated(pb, solution, SOL_ID0, SOL_ID, neighbors, i, j)
      {
        GeneratedSkip(pb, solution, SOL_ID0, SOL_ID, neighbors, i, j);
        if j == old_color {
          continue;
        }
        itm_color := itm_color[i := j];
        assert itm_color == solution[i := j];
        var load, bdwt := EvaluateColoring(pb, stripe, itm_color, coloring, itm_idx);
        var neighbor_sol := Sol(itm_color, load, bdwt, false);
        GeneratedOne(pb, solution, SOL_ID0, SOL_ID, neighbors, i, j, neighbor_sol);
        neighbors := neighbors[SOL_ID := neighbor_sol];
        SOL_ID := SOL_ID + 1;
      }
      GeneratedSkip(pb, solution, SOL_ID0, SOL_ID, neighbors, i, m);
      itm_color := itm_color[i := old_color];
    }
  }

  lemma NothingGenerated<C>(pb: Problem<C>, s: seq<nat>, first: int)
    requires IsSolution(pb, s)
    ensures Generated(pb, s, first, first, map[], 0, 0)
  {}

  lemma AllGenerated<C>(pb: Problem<C>, s: seq<nat>, first: int, next: int, neighbors: Table, b: seq<nat>)
    requires IsSolution(pb, s) && Generated(pb, s, first, next, neighbors, |s|, 0) && IsSolution(pb, b) && Neighbour(s, b)
    ensures Present(neighbors, b)
  {
    hide Genuine, Present;
    var i, c :| Recoloured(s, b, i, c);
    assert b[i] == c && b == Changed(s, i, c);
  }

  /** The curve, its solutions and the pool of those not searched yet. */
  ghost predicate CurveOk<C>(pb: Problem<C>, ids: seq<int>, sol_map: Table, unsearched: set<int>, next: int) {
    && Sorted(sol_map, ids) && ids != [] && sol_map.Keys == Members(ids) && unsearched <= sol_map.Keys
    && (forall x | x in sol_map :: Genuine(pb, sol_map[x]) && 0 <= x < next && (x in unsearched <==> !sol_map[x].searched))
  }

  ghost function Place(sol: Sol): Point {
    Point(sol.load, sol.bdwt)
  }

  predicate AsGood(a: Point, b: Point) {
    a.load <= b.load && a.bdwt <= b.bdwt
  }

  predicate Beats(a: Point, b: Point) {
    AsGood(a, b) && a != b
  }

  /** What some member of the curve covers beats no member of the curve. */
  lemma NothingBetter<C>(pb: Problem<C>, sol_map: Table, ids: seq<int>, s: seq<nat>, i: nat)
    requires Sorted(sol_map, ids) && Known(pb, sol_map, ids, s) && i < |ids|
    ensures !Beats(PointOf(pb, s), Place(sol_map[ids[i]]))
  {
    var c :| 0 <= c < |ids| && ids[c] in sol_map && AsGood(Place(sol_map[ids[c]]), PointOf(pb, s));
    if c < i { assert sol_map[ids[c]].load < sol_map[ids[i]].load; }
    if i < c { assert sol_map[ids[i]].load < sol_map[ids[c]].load; }
  }

  /** Some member of the curve is at least as good as s. */
  ghost predicate Known<C>(pb: Problem<C>, sol_map: Table, ids: seq<int>, s: seq<nat>) {
    && IsSolution(pb, s) && Rated(pb, s, PointOf(pb, s))
    && exists i :: 0 <= i < |ids| && ids[i] in sol_map && AsGood(Place(sol_map[ids[i]]), PointOf(pb, s))
  }

  /** Some member of the curve is at least as good as what s comes to, and none is worse. */
  ghost predicate Judged<C>(pb: Problem<C>, sol_map: Table, ids: seq<int>, s: seq<nat>) {
    exists pt :: Rated(pb, s, pt) && Matched(sol_map, ids, pt) && Unbeaten(sol_map, ids, pt)
  }

  ghost predicate Matched(sol_map: Table, ids: seq<int>, pt: Point) {
    exists i :: 0 <= i < |ids| && ids[i] in sol_map && AsGood(Place(sol_map[ids[i]]), pt)
  }

  ghost predicate Unbeaten(sol_map: Table, ids: seq<int>, pt: Point) {
    forall i | 0 <= i < |ids| && ids[i] in sol_map :: !Beats(pt, Place(sol_map[ids[i]]))
  }

  lemma KnownIsJudged<C>(pb: Problem<C>, sol_map: Table, ids: seq<int>, s: seq<nat>)
    requires Sorted(sol_map, ids) && Known(pb, sol_map, ids, s)
    ensures IsSolution(pb, s) && Judged(pb, sol_map, ids, s)
  {
    hide Rated, PointOf, Sorted;
    forall i | 0 <= i < |ids| && ids[i] in sol_map ensures !Beats(PointOf(pb, s), Place(sol_map[ids[i]])) {
      NothingBetter(pb, sol_map, ids, s, i);
    }
    assert Matched(sol_map, ids, PointOf(pb, s)) && Unbeaten(sol_map, ids, PointOf(pb, s));
  }

  /** Everything evaluated is covered by the curve, and all neighbours of searched members were evaluated. */
  ghost predicate Explored<C>(pb: Problem<C>, sol_map: Table, ids: seq<int>, evaluated: set<seq<nat>>) {
    && (forall s | s in evaluated :: Known(pb, sol_map, ids, s))
    && (forall x, b | x in sol_map && sol_map[x].searched && Neighbour(sol_map[x].solution, b) && IsSolution(pb, b) :: b in evaluated)
  }

  /** A point that was searched is still on the curve, searched, or has been beaten. */
  ghost predicate Settles(sol_map: Table, ids: seq<int>, pt: Point) {
    exists i :: 0 <= i < |ids| && ids[i] in sol_map && Closes(sol_map[ids[i]], pt)
  }

  ghost predicate Closes(sol: Sol, pt: Point) {
    AsGood(Place(sol), pt) && (Place(sol) == pt ==> sol.searched)
  }

  ghost predicate AllSettled(sol_map: Table, ids: seq<int>, pts: set<Point>) {
    forall pt | pt in pts :: Settles(sol_map, ids, pt)
  }

  /** A point is searched at most once. */
  lemma NewPoint<C>(pb: Problem<C>, ids: seq<int>, sol_map: Table, unsearched: set<int>, next: int, pts: set<Point>, x: int)
    requires CurveOk(pb, ids, sol_map, unsearched, next) && AllSettled(sol_map, ids, pts) && x in unsearched
    ensures x in sol_map && Place(sol_map[x]) !in pts
  {
    hide Genuine;
    assert x in Members(ids);
    var j :| 0 <= j < |ids| && ids[j] == x;
    forall i | 0 <= i < |ids| && ids[i] in sol_map ensures !Closes(sol_map[ids[i]], Place(sol_map[x])) {
      OpenOnCurve(sol_map, ids, i, j);
    }
    assert !Settles(sol_map, ids, Place(sol_map[x]));
  }

  lemma OpenOnCurve(sol_map: Table, ids: seq<int>, i: nat, j: nat)
    requires Sorted(sol_map, ids) && i < |ids| && j < |ids| && !sol_map[ids[j]].searched
    ensures !Closes(sol_map[ids[i]], Place(sol_map[ids[j]]))
  {}

  ghost function Solutions(v: nat, m: nat): set<seq<nat>> {
    if v == 0 then {[]} else set s, c | s in Solutions(v - 1, m) && c in Colours(m) :: s + [c]
  }

  ghost function Colours(m: nat): set<nat> {
    if m == 0 then {} else Colours(m - 1) + {m - 1}
  }

  lemma {:induction false} InColours(m: nat, c: nat)
    ensures c in Colours(m) <==> c < m
  {
    if m > 0 { InColours(m - 1, c); }
  }

  lemma {:induction false} InSolutions(v: nat, m: nat, s: seq<nat>)
    requires |s| == v && forall i | 0 <= i < v :: s[i] < m
    ensures s in Solutions(v, m)
  {
    if v > 0 {
      var s', c := s[..v - 1], s[v - 1];
      InSolutions(v - 1, m, s');
      InColours(m, c);
      assert s == s' + [c];
    }
  }

  ghost function Points<C>(pb: Problem<C>): set<Point> {
    set s | s in Solutions(|pb.itm_idx|, pb.m) && |s| <= |pb.itm_idx| :: PointOf(pb, s)
  }

  lemma SearchMeasure<C>(pb: Problem<C>, pts: set<Point>, sol: Sol)
    requires pts <= Points(pb) && Genuine(pb, sol) && Place(sol) !in pts
    ensures pts + {Place(sol)} <= Points(pb) && |pts| < |Points(pb)|
  {
    hide Rated, PointOf;
    InSolutions(|pb.itm_idx|, pb.m, sol.solution);
    assert Place(sol) == PointOf(pb, sol.solution);
    assert Place(sol) in Points(pb);
    SubsetSize(pts + {Place(sol)}, Points(pb));
  }

  lemma SubsetSize<T>(a: set<T>, b: set<T>)
    requires a <= b
    ensures |a| <= |b|
  {
    if a != {} {
      var x :| x in a;
      SubsetSize(a - {x}, b - {x});
    }
  }

  /** src/Naive_homo.cc:154-170 */
  method FindUnsearched(ghost ids: seq<int>, pareto: map<int, int>, ghost prev: map<int, int>, sol_map: Table) returns (find: bool, sol_id: int)
    requires Linked(pareto, prev, ids) && forall i | 0 <= i < |ids| :: ids[i] in sol_map
    ensures find ==> sol_id in sol_map && !sol_map[sol_id].searched
    ensures !find ==> forall i | 0 <= i < |ids| :: sol_map[ids[i]].searched
  {
    find, sol_id := false, HEAD;
    ghost var i: int := -1;
    assert LinkAt(pareto, prev, ids, -1);
    while pareto[sol_id] != TAIL
      invariant -1 <= i < |ids| || (i == -1 && ids == [])
      invariant sol_id == Node(ids, i) && sol_id in pareto && pareto[sol_id] == Node(ids, i + 1)
      invariant forall l | 0 <= l <= i :: sol_map[ids[l]].searched
      decreases |ids| - i
    {
      sol_id := pareto[sol_id];
      i := i + 1;
      assert LinkAt(pareto, prev, ids, i);
      if sol_map[sol_id].searched {
        continue;
      }
      find := true;
      break;
    }
  }

  /** Everything that happened to the solutions in one round. */
  ghost predicate Round<C>(pb: Problem<C>, ids0: seq<int>, sol_map0: Table, unsearched0: set<int>, sol_id: int, neighbors: Table,
                           tab: Table, ids: seq<int>, dropped: seq<int>, sol_map: Table, unsearched: set<int>, first: int, next: int) {
    && CurveOk(pb, ids0, sol_map0, unsearched0, first) && sol_id in unsearched0
    && Generated(pb, sol_map0[sol_id].solution, first, next, neighbors, |sol_map0[sol_id].solution|, 0)
    && tab == sol_map0[sol_id := sol_map0[sol_id].(searched := true)] + neighbors
    && Settled(tab, Members(ids0), neighbors.Keys, ids, dropped)
    && sol_map.Keys == Members(ids) && (forall x | x in sol_map :: x in tab && sol_map[x] == tab[x])
    && unsearched == (unsearched0 - {sol_id} + neighbors.Keys) - Members(dropped)
  }

  lemma RoundCurve<C>(pb: Problem<C>, ids0: seq<int>, sol_map0: Table, unsearched0: set<int>, sol_id: int, neighbors: Table,
                      tab: Table, ids: seq<int>, dropped: seq<int>, sol_map: Table, unsearched: set<int>, first: int, next: int)
    requires 0 <= first && (sol_id in sol_map0 ==> IsSolution(pb, sol_map0[sol_id].solution)) && sol_id in sol_map0
    requires Round(pb, ids0, sol_map0, unsearched0, sol_id, neighbors, tab, ids, dropped, sol_map, unsearched, first, next)
    ensures CurveOk(pb, ids, sol_map, unsearched, next)
  {
    hide Genuine, Present, CoveredBy, WorseThan, Sorted, IsSolution;
    SortedSame(tab, sol_map, ids);
    forall x | x in sol_map ensures Genuine(pb, sol_map[x]) && 0 <= x < next && (x in unsearched <==> !sol_map[x].searched) {
      RoundMember(pb, ids0, sol_map0, unsearched0, sol_id, neighbors, tab, ids, dropped, sol_map, unsearched, first, next, x);
    }
    assert unsearched <= sol_map.Keys;
  }

  lemma SortedSame(tab: Table, sol_map: Table, ids: seq<int>)
    requires Sorted(tab, ids) && sol_map.Keys == Members(ids) && forall x | x in sol_map :: x in tab && sol_map[x] == tab[x]
    ensures Sorted(sol_map, ids)
  {
    forall i | 0 <= i < |ids| ensures ids[i] in sol_map && sol_map[ids[i]] == tab[ids[i]] {
      var x := ids[i];
      assert x in Members(ids);
      assert x in sol_map && sol_map[x] == tab[x];
    }
  }

  lemma RoundMember<C>(pb: Problem<C>, ids0: seq<int>, sol_map0: Table, unsearched0: set<int>, sol_id: int, neighbors: Table,
                       tab: Table, ids: seq<int>, dropped: seq<int>, sol_map: Table, unsearched: set<int>, first: int, next: int, x: int)
    requires 0 <= first && sol_id in sol_map0 && IsSolution(pb, sol_map0[sol_id].solution) && x in sol_map
    requires Round(pb, ids0, sol_map0, unsearched0, sol_id, neighbors, tab, ids, dropped, sol_map, unsearched, first, next)
    ensures Genuine(pb, sol_map[x]) && 0 <= x < next && (x in unsearched <==> !sol_map[x].searched)
  {
    hide Genuine, Present, CoveredBy, WorseThan, Sorted, IsSolution;
    assert x in Members(ids) && x !in Members(dropped);
    GenuineSearched(pb, sol_map0[sol_id]);
  }

  lemma GenuineSearched<C>(pb: Problem<C>, sol: Sol)
    ensures Genuine(pb, sol) ==> Genuine(pb, sol.(searched := true))
  {}

  /** A member of the old curve, or a candidate, has a member of the new curve at least as good. */
  lemma RoundCovers<C>(pb: Problem<C>, ids0: seq<int>, sol_map0: Table, unsearched0: set<int>, sol_id: int, neighbors: Table,
                       tab: Table, ids: seq<int>, dropped: seq<int>, sol_map: Table, unsearched: set<int>, first: int, next: int, x: int)
    returns (j: nat)
    requires 0 <= first && sol_id in sol_map0 && IsSolution(pb, sol_map0[sol_id].solution)
    requires Round(pb, ids0, sol_map0, unsearched0, sol_id, neighbors, tab, ids, dropped, sol_map, unsearched, first, next)
    requires x in Members(ids0) || x in neighbors
    ensures x in tab && j < |ids| && ids[j] in sol_map && Covers(sol_map[ids[j]], tab[x])
    ensures x in Members(ids0) ==> (x in Members(ids) && ids[j] == x) || Dominates(sol_map[ids[j]], tab[x])
  {
    hide Genuine, Present, Sorted, IsSolution, CoveredBy;
    if x in Members(ids) {
      j :| 0 <= j < |ids| && ids[j] == x;
    } else if x in Members(ids0) {
      assert x in Members(dropped);
      var l :| 0 <= l < |dropped| && dropped[l] == x;
      assert WorseThan(tab, ids, dropped[l]);
      j :| 0 <= j < |ids| && ids[j] in tab && Dominates(tab[ids[j]], tab[x]);
    } else {
      j := Better(tab, Members(ids0), neighbors.Keys, ids, dropped, x);
    }
    var c := ids[j];
    assert c in Members(ids);
  }

  lemma RoundExplored<C>(pb: Problem<C>, ids0: seq<int>, sol_map0: Table, unsearched0: set<int>, sol_id: int, neighbors: Table,
                         tab: Table, ids: seq<int>, dropped: seq<int>, sol_map: Table, unsearched: set<int>, first: int, next: int,
                         evaluated: set<seq<nat>>)
    requires 0 <= first && sol_id in sol_map0 && IsSolution(pb, sol_map0[sol_id].solution) && Explored(pb, sol_map0, ids0, evaluated)
    requires Round(pb, ids0, sol_map0, unsearched0, sol_id, neighbors, tab, ids, dropped, sol_map, unsearched, first, next)
    ensures Explored(pb, sol_map, ids, evaluated + set x | x in neighbors :: neighbors[x].solution)
  {
    hide Sorted, Generated, Neighbour, Settled, Covers, Rated, PointOf;
    var evaluated' := evaluated + set x | x in neighbors :: neighbors[x].solution;
    forall s | s in evaluated' ensures Known(pb, sol_map, ids, s) {
      if s in evaluated {
        assert Known(pb, sol_map0, ids0, s);
        var i :| 0 <= i < |ids0| && ids0[i] in sol_map0 && AsGood(Place(sol_map0[ids0[i]]), PointOf(pb, s));
        assert ids0[i] in Members(ids0);
        var j := RoundCovers(pb, ids0, sol_map0, unsearched0, sol_id, neighbors, tab, ids, dropped, sol_map, unsearched, first, next, ids0[i]);
        OldPlace(pb, ids0, sol_map0, unsearched0, sol_id, neighbors, tab, ids, dropped, sol_map, unsearched, first, next, ids0[i]);
        KnownBy(pb, sol_map, ids, s, j, tab[ids0[i]]);
      } else {
        var x :| x in neighbors && neighbors[x].solution == s;
        var j := RoundCovers(pb, ids0, sol_map0, unsearched0, sol_id, neighbors, tab, ids, dropped, sol_map, unsearched, first, next, x);
        NewGenuine(pb, sol_map0[sol_id].solution, first, next, neighbors, x);
        KnownBy(pb, sol_map, ids, s, j, tab[x]);
      }
    }
    forall x, b | x in sol_map && sol_map[x].searched && Neighbour(sol_map[x].solution, b) && IsSolution(pb, b) ensures b in evaluated' {
      RoundSearched(pb, ids0, sol_map0, unsearched0, sol_id, neighbors, tab, ids, dropped, sol_map, unsearched, first, next, x);
      if x == sol_id {
        AllGenerated(pb, sol_map0[sol_id].solution, first, next, neighbors, b);
        var y :| y in neighbors && neighbors[y].solution == b;
      }
    }
  }

  /** The new table says about an old member what the old one said, but for the flag. */
  lemma OldPlace<C>(pb: Problem<C>, ids0: seq<int>, sol_map0: Table, unsearched0: set<int>, sol_id: int, neighbors: Table,
                    tab: Table, ids: seq<int>, dropped: seq<int>, sol_map: Table, unsearched: set<int>, first: int, next: int, x: int)
    requires 0 <= first && sol_id in sol_map0 && IsSolution(pb, sol_map0[sol_id].solution) && x in sol_map0
    requires Round(pb, ids0, sol_map0, unsearched0, sol_id, neighbors, tab, ids, dropped, sol_map, unsearched, first, next)
    ensures x in tab && Place(tab[x]) == Place(sol_map0[x]) && tab[x].solution == sol_map0[x].solution
    ensures tab[x].searched <==> sol_map0[x].searched || x == sol_id
    ensures x !in neighbors && 0 <= x < first
  {
    hide Genuine, Present, Sorted, IsSolution, CoveredBy, WorseThan;
  }

  /** Only the searched solution was marked. */
  lemma RoundSearched<C>(pb: Problem<C>, ids0: seq<int>, sol_map0: Table, unsearched0: set<int>, sol_id: int, neighbors: Table,
                         tab: Table, ids: seq<int>, dropped: seq<int>, sol_map: Table, unsearched: set<int>, first: int, next: int, x: int)
    requires 0 <= first && sol_id in sol_map0 && IsSolution(pb, sol_map0[sol_id].solution) && x in sol_map && sol_map[x].searched
    requires Round(pb, ids0, sol_map0, unsearched0, sol_id, neighbors, tab, ids, dropped, sol_map, unsearched, first, next)
    ensures x in sol_map0 && sol_map[x].solution == sol_map0[x].solution && (x == sol_id || sol_map0[x].searched)
  {
    hide Genuine, Present, Sorted, IsSolution, CoveredBy, WorseThan;
  }

  lemma NewGenuine<C>(pb: Problem<C>, s: seq<nat>, first: int, next: int, neighbors: Table, x: int)
    requires IsSolution(pb, s) && Generated(pb, s, first, next, neighbors, |s|, 0) && x in neighbors
    ensures Genuine(pb, neighbors[x])
  {
    hide Present, Genuine;
  }

  lemma KnownBy<C>(pb: Problem<C>, sol_map: Table, ids: seq<int>, s: seq<nat>, j: nat, witness': Sol)
    requires IsSolution(pb, s) && Rated(pb, s, PointOf(pb, s)) && j < |ids| && ids[j] in sol_map && Covers(sol_map[ids[j]], witness') && AsGood(Place(witness'), PointOf(pb, s))
    ensures Known(pb, sol_map, ids, s)
  {
    assert AsGood(Place(sol_map[ids[j]]), PointOf(pb, s));
  }

  lemma RoundSettled<C>(pb: Problem<C>, ids0: seq<int>, sol_map0: Table, unsearched0: set<int>, sol_id: int, neighbors: Table,
                        tab: Table, ids: seq<int>, dropped: seq<int>, sol_map: Table, unsearched: set<int>, first: int, next: int, pts: set<Point>)
    requires 0 <= first && sol_id in sol_map0 && IsSolution(pb, sol_map0[sol_id].solution) && AllSettled(sol_map0, ids0, pts)
    requires Round(pb, ids0, sol_map0, unsearched0, sol_id, neighbors, tab, ids, dropped, sol_map, unsearched, first, next)
    ensures AllSettled(sol_map, ids, pts + {Place(sol_map0[sol_id])})
  {
    hide Sorted, IsSolution, Generated, Settled, Genuine;
    forall pt | pt in pts + {Place(sol_map0[sol_id])} ensures Settles(sol_map, ids, pt) {
      var x;
      if pt in pts {
        assert Settles(sol_map0, ids0, pt);
        var i :| 0 <= i < |ids0| && ids0[i] in sol_map0 && Closes(sol_map0[ids0[i]], pt);
        x := ids0[i];
      } else {
        x := sol_id;
      }
      assert x in Members(ids0);
      var j := RoundCovers(pb, ids0, sol_map0, unsearched0, sol_id, neighbors, tab, ids, dropped, sol_map, unsearched, first, next, x);
      OldPlace(pb, ids0, sol_map0, unsearched0, sol_id, neighbors, tab, ids, dropped, sol_map, unsearched, first, next, x);
      assert Closes(tab[x], pt);
      var c := ids[j];
      assert c in sol_map && sol_map[c] == tab[c];
      assert Closes(sol_map[ids[j]], pt);
    }
  }

  /** The search as it stands between two rounds. */
  ghost predicate Searching<C>(pb: Problem<C>, ids: seq<int>, pareto: map<int, int>, prev: map<int, int>, sol_map: Table, unsearched: set<int>,
                               next: int, evaluated: set<seq<nat>>, pts: set<Point>) {
    && Linked(pareto, prev, ids) && CurveOk(pb, ids, sol_map, unsearched, next) && 0 <= next
    && Explored(pb, sol_map, ids, evaluated) && AllSettled(sol_map, ids, pts) && pts <= Points(pb)
  }

  /** src/Naive_homo.cc:150-358: one round of the outer loop. */
  method SearchOne<C>(ghost pb: Problem<C>, stripe: Stripe<C>, coloring: Coloring, itm_idx: seq<int>, m: nat, ghost ids0: seq<int>,
                      pareto0: map<int, int>, prev0: map<int, int>, sol_map0: Table, unsearched0: set<int>, SOL_ID0: int,
                      ghost evaluated0: set<seq<nat>>, ghost pts0: set<Point>)
    returns (pareto: map<int, int>, prev: map<int, int>, sol_map: Table, unsearched: set<int>, SOL_ID: int,
             ghost ids: seq<int>, ghost evaluated: set<seq<nat>>, ghost pts: set<Point>)
    requires WellPosed(pb) && pb == Problem(stripe.ecdag, coloring, itm_idx, m)
    requires Searching(pb, ids0, pareto0, prev0, sol_map0, unsearched0, SOL_ID0, evaluated0, pts0) && unsearched0 != {}
    modifies stripe`coloring, stripe`inn, stripe`out, stripe`bdwt, stripe`load
    ensures Searching(pb, ids, pareto, prev, sol_map, unsearched, SOL_ID, evaluated, pts)
    ensures evaluated0 <= evaluated && |pts| == |pts0| + 1 && |pts0| < |Points(pb)|
  {
    hide *;
    SearchingParts(pb, ids0, pareto0, prev0, sol_map0, unsearched0, SOL_ID0, evaluated0, pts0);
    var find, sol_id := FindUnsearched(ids0, pareto0, prev0, sol_map0);
    if !find {
      sol_id := Choose(unsearched0);
    }
    PoolMember(pb, ids0, sol_map0, unsearched0, SOL_ID0, sol_id);
    var sol := sol_map0[sol_id];
    var neighbors;
    neighbors, SOL_ID := GenNeighbours(pb, stripe, coloring, itm_idx, m, sol.solution, SOL_ID0);
    NewPoint(pb, ids0, sol_map0, unsearched0, SOL_ID0, pts0, sol_id);
    SearchMeasure(pb, pts0, sol);
    var sol_map1 := sol_map0[sol_id := sol.(searched := true)];
    unsearched := unsearched0 - {sol_id};
    ghost var tab := sol_map1 + neighbors;
    TableOfRound(pb, ids0, sol_map0, unsearched0, SOL_ID0, sol_id, neighbors, SOL_ID);
    var dropped;
    var sol_map2;
    pareto, prev, sol_map2, dropped, ids := PruneNeighbours(tab, ids0, neighbors, pareto0, prev0, sol_map1);
    PruningSettled(tab, Members(ids0), neighbors.Keys, ids, dropped, pareto, prev, sol_map2);
    var neighbors3, sol_map3, unsearched3 := RemoveDropped(dropped, neighbors, sol_map2, unsearched);
    sol_map, unsearched := AddRemaining(neighbors3, sol_map3, unsearched3);
    RoundIs(pb, ids0, sol_map0, unsearched0, sol_id, neighbors, tab, ids, dropped, pareto, prev, sol_map2, sol_map, unsearched, SOL_ID0, SOL_ID);
    RoundCurve(pb, ids0, sol_map0, unsearched0, sol_id, neighbors, tab, ids, dropped, sol_map, unsearched, SOL_ID0, SOL_ID);
    RoundExplored(pb, ids0, sol_map0, unsearched0, sol_id, neighbors, tab, ids, dropped, sol_map, unsearched, SOL_ID0, SOL_ID, evaluated0);
    RoundSettled(pb, ids0, sol_map0, unsearched0, sol_id, neighbors, tab, ids, dropped, sol_map, unsearched, SOL_ID0, SOL_ID, pts0);
    evaluated := evaluated0 + set x | x in neighbors :: neighbors[x].solution;
    pts := pts0 + {Place(sol)};
    SearchingWhole(pb, ids, pareto, prev, sol_map, unsearched, SOL_ID, evaluated, pts);
  }

  lemma SearchingParts<C>(pb: Problem<C>, ids: seq<int>, pareto: map<int, int>, prev: map<int, int>, sol_map: Table, unsearched: set<int>,
                          next: int, evaluated: set<seq<nat>>, pts: set<Point>)
    requires Searching(pb, ids, pareto, prev, sol_map, unsearched, next, evaluated, pts)
    ensures Linked(pareto, prev, ids) && CurveOk(pb, ids, sol_map, unsearched, next) && 0 <= next
    ensures Explored(pb, sol_map, ids, evaluated) && AllSettled(sol_map, ids, pts) && pts <= Points(pb)
    ensures forall i | 0 <= i < |ids| :: ids[i] in sol_map
  {
    hide Genuine, Linked, Explored, AllSettled, Points;
  }

  lemma SearchingWhole<C>(pb: Problem<C>, ids: seq<int>, pareto: map<int, int>, prev: map<int, int>, sol_map: Table, unsearched: set<int>,
                          next: int, evaluated: set<seq<nat>>, pts: set<Point>)
    requires Linked(pareto, prev, ids) && CurveOk(pb, ids, sol_map, unsearched, next) && 0 <= next
    requires Explored(pb, sol_map, ids, evaluated) && AllSettled(sol_map, ids, pts) && pts <= Points(pb)
    ensures Searching(pb, ids, pareto, prev, sol_map, unsearched, next, evaluated, pts)
  {
    hide CurveOk, Linked, Explored, AllSettled, Points;
  }

  /** The unsearched solutions are those of the curve, so the search of the curve finds one. */
  lemma PoolMember<C>(pb: Problem<C>, ids: seq<int>, sol_map: Table, unsearched: set<int>, next: int, x: int)
    requires CurveOk(pb, ids, sol_map, unsearched, next)
    ensures x in unsearched || (x in sol_map && !sol_map[x].searched) ==>
              x in unsearched && x in sol_map && IsSolution(pb, sol_map[x].solution) && Genuine(pb, sol_map[x])
    ensures (forall i | 0 <= i < |ids| :: sol_map[ids[i]].searched) ==> unsearched == {}
  {
    hide Sorted;
    if x in unsearched || (x in sol_map && !sol_map[x].searched) {
      assert Genuine(pb, sol_map[x]);
    }
    if forall i | 0 <= i < |ids| :: sol_map[ids[i]].searched {
      forall y | y in sol_map ensures sol_map[y].searched {
        assert y in Members(ids);
        var i :| 0 <= i < |ids| && ids[i] == y;
      }
      if unsearched != {} { var y := PickFrom(unsearched); }
    }
  }

  lemma PickFrom<T>(s: set<T>) returns (x: T)
    requires s != {}
    ensures x in s
  {
    x :| x in s;
  }

  lemma TableOfRound<C>(pb: Problem<C>, ids: seq<int>, sol_map: Table, unsearched: set<int>, first: int, sol_id: int, neighbors: Table, next: int)
    requires CurveOk(pb, ids, sol_map, unsearched, first) && 0 <= first && sol_id in unsearched && sol_id in sol_map
    requires IsSolution(pb, sol_map[sol_id].solution) && Generated(pb, sol_map[sol_id].solution, first, next, neighbors, |sol_map[sol_id].solution|, 0)
    ensures var sol_map1 := sol_map[sol_id := sol_map[sol_id].(searched := true)];
            var tab := sol_map1 + neighbors;
            Sorted(tab, ids) && Holds(tab, sol_map1, ids) && ids != [] && sol_map1.Keys <= Members(ids)
    ensures var tab := sol_map[sol_id := sol_map[sol_id].(searched := true)] + neighbors;
            forall x | x in neighbors :: x in tab && tab[x] == neighbors[x] && 0 <= x && x !in Members(ids)
    ensures first <= next
  {
    hide Genuine, Present, IsSolution;
    var tab := sol_map[sol_id := sol_map[sol_id].(searched := true)] + neighbors;
    forall x | x in sol_map ensures x in tab && tab[x].load == sol_map[x].load && tab[x].bdwt == sol_map[x].bdwt && x !in neighbors {}
  }

  lemma PruningSettled(tab: Table, start: set<int>, done: set<int>, ids: seq<int>, dropped: seq<int>,
                       pareto: map<int, int>, prev: map<int, int>, sol_map: Table)
    requires Pruning(tab, start, done, ids, dropped, pareto, prev, sol_map)
    ensures Linked(pareto, prev, ids) && Settled(tab, start, done, ids, dropped) && Holds(tab, sol_map, ids) && sol_map.Keys <= start + done
  {}

  lemma RoundIs<C>(pb: Problem<C>, ids0: seq<int>, sol_map0: Table, unsearched0: set<int>, sol_id: int, neighbors: Table,
                   tab: Table, ids: seq<int>, dropped: seq<int>, pareto: map<int, int>, prev: map<int, int>, sol_map2: Table,
                   sol_map: Table, unsearched: set<int>, first: int, next: int)
    requires CurveOk(pb, ids0, sol_map0, unsearched0, first) && sol_id in unsearched0 && sol_id in sol_map0 && IsSolution(pb, sol_map0[sol_id].solution)
    requires Generated(pb, sol_map0[sol_id].solution, first, next, neighbors, |sol_map0[sol_id].solution|, 0)
    requires tab == sol_map0[sol_id := sol_map0[sol_id].(searched := true)] + neighbors
    requires Settled(tab, Members(ids0), neighbors.Keys, ids, dropped) && Holds(tab, sol_map2, ids) && sol_map2.Keys <= Members(ids0) + neighbors.Keys
    requires Merged(sol_map, sol_map2 - Members(dropped), neighbors - Members(dropped), (neighbors - Members(dropped)).Keys)
    requires unsearched == (unsearched0 - {sol_id} - Members(dropped)) + (neighbors - Members(dropped)).Keys
    ensures Round(pb, ids0, sol_map0, unsearched0, sol_id, neighbors, tab, ids, dropped, sol_map, unsearched, first, next)
  {
    hide Genuine, Generated, IsSolution, CurveOk, Sorted, CoveredBy, WorseThan;
    HeldMembers(tab, sol_map2, ids);
    assert (neighbors - Members(dropped)).Keys == neighbors.Keys - Members(dropped);
    assert (sol_map2 - Members(dropped)).Keys == sol_map2.Keys - Members(dropped);
  }

  lemma HeldMembers(tab: Table, sol_map: Table, ids: seq<int>)
    requires Holds(tab, sol_map, ids)
    ensures Members(ids) <= sol_map.Keys
  {}

  /** src/Naive_homo.cc:109-359, from any initial solution: the search ends with a curve from which no change
      of one vertex's colour leads to anything better. */
  method GenPareto<C>(stripe: Stripe<C>, itm_idx: seq<int>, m: nat, coloring: Coloring, initial: seq<nat>)
    returns (pareto_curve: map<int, int>, sol_map: Table, ghost prev_curve: map<int, int>, ghost ids: seq<int>, ghost evaluated: set<seq<nat>>)
    requires WellPosed(Problem(stripe.ecdag, coloring, itm_idx, m)) && IsSolution(Problem(stripe.ecdag, coloring, itm_idx, m), initial)
    modifies stripe`coloring, stripe`inn, stripe`out, stripe`bdwt, stripe`load
    ensures var pb := Problem(stripe.ecdag, coloring, itm_idx, m);
            && Linked(pareto_curve, prev_curve, ids) && ids != [] && Sorted(sol_map, ids) && sol_map.Keys == Members(ids)
            && (forall i | 0 <= i < |ids| :: IsSolution(pb, sol_map[ids[i]].solution) && Rated(pb, sol_map[ids[i]].solution, Place(sol_map[ids[i]])))
            && initial in evaluated && (forall s | s in evaluated :: IsSolution(pb, s) && Judged(pb, sol_map, ids, s))
            && (forall i, b | 0 <= i < |ids| && Neighbour(sol_map[ids[i]].solution, b) && IsSolution(pb, b) :: b in evaluated)
  {
    hide *;
    ghost var pb := Problem(stripe.ecdag, coloring, itm_idx, m);
    var load, bdwt := EvaluateColoring(pb, stripe, initial, coloring, itm_idx);
    var init_sol := Sol(initial, load, bdwt, false);
    var SOL_ID := 1;
    pareto_curve := map[HEAD := 0, 0 := TAIL];
    var prev := map[TAIL := 0, 0 := HEAD];
    sol_map := map[0 := init_sol];
    var unsearched := {0};
    ids, evaluated := [0], {initial};
    ghost var pts := {};
    GenuineIf(pb, init_sol);
    StartSearch(pb, init_sol, pareto_curve, prev, sol_map);
    while |unsearched| > 0
      invariant Searching(pb, ids, pareto_curve, prev, sol_map, unsearched, SOL_ID, evaluated, pts)
      invariant initial in evaluated && pb == Problem(stripe.ecdag, coloring, itm_idx, m)
      decreases |Points(pb)| - |pts|
    {
      pareto_curve, prev, sol_map, unsearched, SOL_ID, ids, evaluated, pts :=
        SearchOne(pb, stripe, coloring, itm_idx, m, ids, pareto_curve, prev, sol_map, unsearched, SOL_ID, evaluated, pts);
    }
    assert unsearched == {};
    prev_curve := prev;
    SearchOver(pb, ids, pareto_curve, prev, sol_map, unsearched, SOL_ID, evaluated, pts);
  }

  lemma StartSearch<C>(pb: Problem<C>, sol: Sol, pareto: map<int, int>, prev: map<int, int>, sol_map: Table)
    requires Genuine(pb, sol) && !sol.searched && sol_map == map[0 := sol]
    requires pareto == map[HEAD := 0, 0 := TAIL] && prev == map[TAIL := 0, 0 := HEAD]
    ensures Searching(pb, [0], pareto, prev, sol_map, {0}, 1, {sol.solution}, {})
  {
    hide Rated, PointOf, Members;
    OneMember(0);
    assert LinkAt(pareto, prev, [0], -1) && LinkAt(pareto, prev, [0], 0);
    assert [0][0] in sol_map && AsGood(Place(sol_map[[0][0]]), PointOf(pb, sol.solution));
  }

  lemma GenuineIf<C>(pb: Problem<C>, sol: Sol)
    requires IsSolution(pb, sol.solution) && Point(sol.load, sol.bdwt) == PointOf(pb, sol.solution)
    requires Rated(pb, sol.solution, Point(sol.load, sol.bdwt))
    ensures Genuine(pb, sol)
  {
    hide Rated, PointOf, IsSolution;
  }

  lemma GenuineRated<C>(pb: Problem<C>, sol: Sol)
    requires Genuine(pb, sol)
    ensures IsSolution(pb, sol.solution) && Rated(pb, sol.solution, Place(sol))
  {
    hide Rated, PointOf, IsSolution;
  }

  lemma SearchOver<C>(pb: Problem<C>, ids: seq<int>, pareto: map<int, int>, prev: map<int, int>, sol_map: Table, unsearched: set<int>,
                      next: int, evaluated: set<seq<nat>>, pts: set<Point>)
    requires Searching(pb, ids, pareto, prev, sol_map, unsearched, next, evaluated, pts) && unsearched == {}
    ensures Linked(pareto, prev, ids) && ids != [] && Sorted(sol_map, ids) && sol_map.Keys == Members(ids)
    ensures forall i | 0 <= i < |ids| :: IsSolution(pb, sol_map[ids[i]].solution) && Rated(pb, sol_map[ids[i]].solution, Place(sol_map[ids[i]]))
    ensures forall s | s in evaluated :: IsSolution(pb, s) && Judged(pb, sol_map, ids, s)
    ensures forall i, b | 0 <= i < |ids| && Neighbour(sol_map[ids[i]].solution, b) && IsSolution(pb, b) :: b in evaluated
  {
    hide Linked, Genuine, Neighbour, IsSolution, Known, Points, AllSettled, Sorted, Rated, Judged, PointOf;
    forall s | s in evaluated ensures IsSolution(pb, s) && Judged(pb, sol_map, ids, s) {
      KnownIsJudged(pb, sol_map, ids, s);
    }
    forall i | 0 <= i < |ids|
      ensures ids[i] in sol_map && sol_map[ids[i]].searched && IsSolution(pb, sol_map[ids[i]].solution)
      ensures Rated(pb, sol_map[ids[i]].solution, Place(sol_map[ids[i]]))
    {
      var x := ids[i];
      assert x in Members(ids);
      assert x in sol_map && Genuine(pb, sol_map[x]);
      GenuineRated(pb, sol_map[x]);
    }
    forall i, b | 0 <= i < |ids| && Neighbour(sol_map[ids[i]].solution, b) && IsSolution(pb, b) ensures b in evaluated {
      var x := ids[i];
      assert x in sol_map && sol_map[x].searched;
    }
  }
}
