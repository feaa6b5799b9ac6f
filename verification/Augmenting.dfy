/** The flow search of src/sol/FlowGraph.cc on its residual matrix (175-270). */
module Augmenting {
  import opened Dags
  import opened Flows

  const INT_MAX := 0x7FFF_FFFF

  ghost function Rows(a: array2<int>): (m: Matrix)
    reads a
    ensures |m| == a.Length0 && forall u | 0 <= u < a.Length0 :: |m[u]| == a.Length1
    ensures forall u, v | 0 <= u < a.Length0 && 0 <= v < a.Length1 :: m[u][v] == a[u, v]
  {
    seq(a.Length0, u requires 0 <= u < a.Length0 reads a =>
      seq(a.Length1, v requires 0 <= v < a.Length1 reads a => a[u, v]))
  }

  /** The parent entries spell the path out backwards. */
  ghost predicate Chained(parent: seq<int>, path: seq<int>) {
    && (forall i | 0 <= i < |path| :: 0 <= path[i] < |parent|)
    && (forall i | 0 < i < |path| :: parent[path[i]] == path[i - 1])
  }

  /** A simple path that the parents record. */
  ghost predicate Recorded(res: Matrix, n: nat, parent: seq<int>, path: seq<int>, s: int, x: int) {
    IsPath(res, n, path, s, x) && Distinct(path) && Chained(parent, path)
  }

  /** A recorded path to every vertex visited. */
  ghost predicate Tree(res: Matrix, n: nat, s: int, parent: seq<int>, trail: map<int, seq<int>>) {
    && trail.Keys <= All(n) && s in trail && |parent| == n
    && (forall x | 0 <= x < n && x in trail :: Recorded(res, n, parent, trail[x], s, x) && Within(trail[x], trail))
  }

  ghost predicate Within(path: seq<int>, trail: map<int, seq<int>>) {
    forall i | 0 <= i < |path| :: path[i] in trail
  }

  lemma PathGrows(res: Matrix, n: nat, parent: seq<int>, path: seq<int>, s: int, u: nat, v: nat, trail: map<int, seq<int>>)
    requires Recorded(res, n, parent, path, s, u) && Within(path, trail) && v !in trail && |parent| == n && u < n && v < n && res[u][v] > 0
    ensures Recorded(res, n, parent[v := u], path + [v], s, v) && Recorded(res, n, parent[v := u], path, s, u)
  {
    var path' := path + [v];
    assert forall i | 0 <= i < |path| :: path'[i] == path[i] && path[i] != v;
  }

  lemma OtherPath(res: Matrix, n: nat, parent: seq<int>, path: seq<int>, s: int, x: int, u: int, v: nat, trail: map<int, seq<int>>)
    requires Recorded(res, n, parent, path, s, x) && Within(path, trail) && v !in trail && v < |parent|
    ensures Recorded(res, n, parent[v := u], path, s, x)
  {
    assert forall i | 0 <= i < |path| :: path[i] != v;
  }

  lemma TreeGrows(res: Matrix, n: nat, s: int, parent: seq<int>, trail: map<int, seq<int>>, u: nat, v: nat)
    requires Tree(res, n, s, parent, trail) && u < n && v < n && u in trail && v !in trail && Square(res, n) && res[u][v] > 0
    ensures Tree(res, n, s, parent[v := u], trail[v := trail[u] + [v]])
    ensures Recorded(res, n, parent[v := u], trail[u] + [v], s, v)
  {
    var trail', parent' := trail[v := trail[u] + [v]], parent[v := u];
    PathGrows(res, n, parent, trail[u], s, u, v, trail);
    forall x | 0 <= x < n && x in trail' ensures Recorded(res, n, parent', trail'[x], s, x) && Within(trail'[x], trail') {
      if x != v { OtherPath(res, n, parent, trail[x], s, x, u, v, trail); }
      hide Recorded;
    }
    hide Recorded, Within;
  }

  /** Whatever has something left from a finished vertex has been visited. */
  ghost predicate Closing(res: Matrix, n: nat, done: set<int>, visited: set<int>)
    requires Square(res, n)
  {
    forall x, w | 0 <= x < n && 0 <= w < n && x in done && res[x][w] > 0 :: w in visited
  }

  /** The queue holds the visited vertices that are not finished. */
  ghost predicate Queued(n: nat, q: seq<int>, done: set<int>, visited: set<int>) {
    && Distinct(q) && (forall i | 0 <= i < |q| :: 0 <= q[i] < n && q[i] in visited && q[i] !in done)
    && done <= visited && (forall x | 0 <= x < n && x in visited && x !in done :: x in q)
  }

  lemma Popped(n: nat, q: seq<int>, done: set<int>, visited: set<int>)
    requires Queued(n, q, done, visited) && q != []
    ensures Queued(n, q[1..], done + {q[0]}, visited) && q[0] !in done
  {
    var u := q[0];
    forall x | 0 <= x < n && x in visited && x !in done + {u} ensures x in q[1..] {
      var i :| 0 <= i < |q| && q[i] == x;
      assert q[1..][i - 1] == x;
    }
    assert u in visited;
  }

  lemma Pushed(n: nat, q: seq<int>, done: set<int>, visited: set<int>, v: nat)
    requires Queued(n, q, done, visited) && v < n && v !in visited
    ensures Queued(n, q + [v], done, visited + {v})
  {
    var q' := q + [v];
    assert q'[|q|] == v;
    forall x | 0 <= x < n && x in visited && x !in done ensures x in q' {
      var i :| 0 <= i < |q| && q[i] == x;
      assert q'[i] == x;
    }
  }

  lemma Finished(res: Matrix, n: nat, done: set<int>, visited: set<int>)
    requires Square(res, n) && Closing(res, n, done, visited) && Queued(n, [], done, visited)
    ensures Sealed(res, n, visited)
  {}

  /** A side with s and not t that nothing left leads out of. */
  ghost predicate Separates(res: Matrix, n: nat, side: set<int>, s: int, t: int) {
    Square(res, n) && side <= All(n) && s in side && t !in side && Sealed(res, n, side)
  }

  lemma NoPath(res: Matrix, n: nat, side: set<int>, s: int, t: int)
    requires Separates(res, n, side, s, t)
    ensures !exists path :: IsPath(res, n, path, s, t)
  {
    forall path | IsPath(res, n, path, s, t) ensures false {
      SealedIn(res, n, side, path, s, t);
    }
  }

  /** The state of the breadth-first search. */
  ghost predicate Searched(res: Matrix, n: nat, s: int, t: int, parent: seq<int>, visited: seq<int>, q: seq<int>, done: set<int>, trail: map<int, seq<int>>) {
    && Square(res, n) && Tree(res, n, s, parent, trail) && t !in trail
    && |visited| == n && (forall x | 0 <= x < n :: visited[x] == if x in trail then 1 else 0)
    && Queued(n, q, done, trail.Keys)
  }

  lemma SearchStarts(res: Matrix, n: nat, s: nat, t: nat, parent: seq<int>, visited: seq<int>)
    requires Square(res, n) && s < n && t < n && s != t && |parent| == |visited| == n
    requires forall x | 0 <= x < n :: visited[x] == if x == s then 1 else 0
    ensures Searched(res, n, s, t, parent, visited, [s], {}, map[s := [s]])
  {
    assert [s][0] == s;
    assert Recorded(res, n, parent, [s], s, s);
  }

  lemma SearchPops(res: Matrix, n: nat, s: int, t: int, parent: seq<int>, visited: seq<int>, q: seq<int>, done: set<int>, trail: map<int, seq<int>>)
    requires Searched(res, n, s, t, parent, visited, q, done, trail) && q != []
    ensures Searched(res, n, s, t, parent, visited, q[1..], done + {q[0]}, trail)
    ensures 0 <= q[0] < n && q[0] in trail && q[0] !in done && done + {q[0]} <= All(n)
  {
    Popped(n, q, done, trail.Keys);
    hide Recorded, Within;
  }

  lemma SearchVisits(res: Matrix, n: nat, s: int, t: int, parent: seq<int>, visited: seq<int>, q: seq<int>, done: set<int>, trail: map<int, seq<int>>,
                     u: nat, v: nat)
    requires Searched(res, n, s, t, parent, visited, q, done, trail) && u < n && v < n && u in trail && res[u][v] > 0 && visited[v] == 0
    ensures v != t ==> Searched(res, n, s, t, parent[v := u], visited[v := 1], q + [v], done, trail[v := trail[u] + [v]])
    ensures Recorded(res, n, parent[v := u], trail[u] + [v], s, v) && v !in trail
  {
    hide Tree, Recorded, Queued;
    assert v !in trail;
    TreeGrows(res, n, s, parent, trail, u, v);
    Pushed(n, q, done, trail.Keys, v);
    assert trail[v := trail[u] + [v]].Keys == trail.Keys + {v};
  }

  lemma ClosingGrows(res: Matrix, n: nat, done: set<int>, small: set<int>, large: set<int>)
    requires Square(res, n) && Closing(res, n, done, small) && small <= large
    ensures Closing(res, n, done, large)
  {}

  /** src/sol/FlowGraph.cc:226-270 */
  method Bfs(res: array2<int>, n: nat, s: nat, t: nat, parent: array<int>) returns (find: bool, ghost path: seq<int>, ghost side: set<int>)
    requires res.Length0 == res.Length1 == parent.Length == n && s < n && t < n && s != t
    modifies parent
    ensures find ==> Recorded(Rows(res), n, parent[..], path, s, t)
    ensures !find ==> Separates(Rows(res), n, side, s, t)
    ensures find <==> exists p :: IsPath(Rows(res), n, p, s, t)
  {
    ghost var m := Rows(res);
    find, path, side := false, [], {};
    var visited := new int[n](_ => 0);
    var q := [s];
    visited[s] := 1;
    parent[s] := -1;
    ghost var trail: map<int, seq<int>>, done: set<int> := map[s := [s]], {};
    SearchStarts(m, n, s, t, parent[..], visited[..]);
    hide Searched, Recorded, Sealed, Closing, Rows;
    assert Closing(m, n, done, trail.Keys) by { NothingCloses(m, n, trail.Keys); }
    while |q| > 0
      invariant Rows(res) == m && !find && Searched(m, n, s, t, parent[..], visited[..], q, done, trail)
      invariant done <= All(n) && Closing(m, n, done, trail.Keys)
      decreases |All(n) - done|
    {
      SearchPops(m, n, s, t, parent[..], visited[..], q, done, trail);
      var u := q[0];
      q := q[1..];
      ghost var done0 := done;
      done := done + {u};
      FewerLeft(All(n), done0, u);
      find, q, trail, path := VisitFrom(res, n, s, t, parent, visited, u, q, done0, trail);
      if find {
        assert IsPath(m, n, path, s, t) by { RecordedPath(m, n, parent[..], path, s, t); }
        return;
      }
    }
    side := trail.Keys;
    SearchEnds(m, n, s, t, parent[..], visited[..], done, trail);
    NoPath(m, n, side, s, t);
  }

  lemma NothingCloses(res: Matrix, n: nat, visited: set<int>)
    requires Square(res, n)
    ensures Closing(res, n, {}, visited)
  {}

  lemma FewerLeft<T>(all: set<T>, done: set<T>, x: T)
    requires x in all && x !in done
    ensures |all - (done + {x})| < |all - done|
  {
    assert all - done == all - (done + {x}) + {x};
  }

  lemma RecordedPath(res: Matrix, n: nat, parent: seq<int>, path: seq<int>, s: int, x: int)
    requires Recorded(res, n, parent, path, s, x)
    ensures IsPath(res, n, path, s, x) && Distinct(path) && Chained(parent, path)
  {}

  lemma SearchEnds(res: Matrix, n: nat, s: int, t: int, parent: seq<int>, visited: seq<int>, done: set<int>, trail: map<int, seq<int>>)
    requires Searched(res, n, s, t, parent, visited, [], done, trail) && Closing(res, n, done, trail.Keys)
    ensures Separates(res, n, trail.Keys, s, t)
  {
    Finished(res, n, done, trail.Keys);
    hide Recorded, Within, Closing;
  }

  /** The vertices next to u that are not visited, up to the sink. */
  method VisitFrom(res: array2<int>, n: nat, s: nat, t: nat, parent: array<int>, visited: array<int>, u: nat, q0: seq<int>,
                   ghost done: set<int>, ghost trail0: map<int, seq<int>>)
    returns (find: bool, q: seq<int>, ghost trail: map<int, seq<int>>, ghost path: seq<int>)
    requires res.Length0 == res.Length1 == parent.Length == visited.Length == n && s < n && t < n && u < n && parent != visited
    requires Searched(Rows(res), n, s, t, parent[..], visited[..], q0, done + {u}, trail0) && u in trail0
    requires Closing(Rows(res), n, done, trail0.Keys)
    modifies parent, visited
    ensures find ==> Recorded(Rows(res), n, parent[..], path, s, t)
    ensures !find ==> Searched(Rows(res), n, s, t, parent[..], visited[..], q, done + {u}, trail)
                      && Closing(Rows(res), n, done + {u}, trail.Keys)
  {
    ghost var m := Rows(res);
    find, q, trail, path := false, q0, trail0, [];
    hide Searched, Recorded, Closing, Rows;
    for v := 0 to n
      invariant Rows(res) == m && !find && u in trail
      invariant Searched(m, n, s, t, parent[..], visited[..], q, done + {u}, trail) && trail0.Keys <= trail.Keys
      invariant forall w | 0 <= w < v :: m[u][w] > 0 ==> w in trail
    {
      VisitedIs(m, n, s, t, parent[..], visited[..], q, done + {u}, trail, v);
      if res[u, v] > 0 && visited[v] == 0 {
        SearchVisits(m, n, s, t, parent[..], visited[..], q, done + {u}, trail, u, v);
        if v == t {
          path := trail[u] + [v];
          ghost var before := parent[..];
          parent[v] := u;
          assert parent[..] == before[v := u];
          find := true;
          return;
        }
        q := q + [v];
        ghost var before, marks := parent[..], visited[..];
        parent[v] := u;
        visited[v] := 1;
        trail := trail[v := trail[u] + [v]];
        assert parent[..] == before[v := u] && visited[..] == marks[v := 1];
      }
    }
    ClosingGrows(m, n, done, trail0.Keys, trail.Keys);
    ClosesOne(m, n, done, trail.Keys, u);
  }

  lemma VisitedIs(res: Matrix, n: nat, s: int, t: int, parent: seq<int>, visited: seq<int>, q: seq<int>, done: set<int>, trail: map<int, seq<int>>, v: nat)
    requires Searched(res, n, s, t, parent, visited, q, done, trail) && v < n
    ensures |visited| == n && (visited[v] == 0 <==> v !in trail)
  {
    hide Tree, Queued;
  }

  lemma ClosesOne(res: Matrix, n: nat, done: set<int>, visited: set<int>, u: nat)
    requires Square(res, n) && Closing(res, n, done, visited) && u < n && forall w | 0 <= w < n :: res[u][w] > 0 ==> w in visited
    ensures Closing(res, n, done + {u}, visited)
  {}

  // ---------------------------------------------------------------------------------------------
  // Augmenting

  /** The path still has room for the amount on its first k edges. */
  ghost predicate Roomy(res: Matrix, n: nat, path: seq<int>, k: nat, amount: int) {
    && Square(res, n) && k < |path| && (forall i | 0 <= i < |path| :: 0 <= path[i] < n)
    && (forall i | 0 < i <= k :: amount <= res[path[i - 1]][path[i]])
  }

  /** Some edge of the path has no room for more than this. */
  ghost predicate Tight(res: Matrix, n: nat, path: seq<int>, amount: int) {
    && Square(res, n) && (forall i | 0 <= i < |path| :: 0 <= path[i] < n)
    && exists i :: 0 < i < |path| && amount == res[path[i - 1]][path[i]]
  }

  /** src/sol/FlowGraph.cc:199-203: the least residual of the path's edges, or the largest int if that is less. */
  method PathFlow(res: array2<int>, n: nat, t: nat, parent: array<int>, ghost path: seq<int>) returns (path_flow: int)
    requires res.Length0 == res.Length1 == parent.Length == n && t < n && Recorded(Rows(res), n, parent[..], path, 0, t)
    ensures 0 < path_flow <= INT_MAX && Roomy(Rows(res), n, path, |path| - 1, path_flow)
    ensures path_flow == INT_MAX || Tight(Rows(res), n, path, path_flow)
  {
    ghost var m, up := Rows(res), parent[..];
    path_flow := INT_MAX;
    ghost var k := |path| - 1;
    var v := t;
    while v != 0
      invariant 0 <= k < |path| && v == path[k] && 0 < path_flow <= INT_MAX
      invariant path_flow == INT_MAX || Tight(m, n, path, path_flow)
      invariant forall i | k < i < |path| :: path_flow <= m[path[i - 1]][path[i]]
      decreases k
    {
      assert up[path[k]] == path[k - 1] && m[path[k - 1]][path[k]] > 0;
      var u := parent[v];
      path_flow := if path_flow <= res[u, v] then path_flow else res[u, v];
      v, k := u, k - 1;
    }
    assert path[0] == path[k];
  }

  /** One edge of the path: what stays true, and where the flow has got to. */
  lemma PushStep(cap: Matrix, m0: Matrix, m: Matrix, n: nat, path: seq<int>, k: nat, amount: int, t: nat)
    requires Residual(cap, m, n) && Square(m0, n) && Roomy(m, n, path, k, amount) && 0 <= amount && 0 < k && Distinct(path) && t < n
    requires forall x | 0 <= x < n :: Shifted(cap, m0, m, n, x, path[k], t, amount)
    ensures var u, v := path[k - 1], path[k];
            u != v && Residual(cap, Push(m, n, u, v, amount), n) && Roomy(Push(m, n, u, v, amount), n, path, k - 1, amount)
            && forall x | 0 <= x < n :: Shifted(cap, m0, Push(m, n, u, v, amount), n, x, u, t, amount)
  {
    var u, v := path[k - 1], path[k];
    var m' := Push(m, n, u, v, amount);
    assert amount <= m[u][v];
    PushResidual(cap, m, n, u, v, amount);
    forall i | 0 < i <= k - 1 ensures amount <= m'[path[i - 1]][path[i]] {
      assert amount <= m[path[i - 1]][path[i]] && path[i] != v && path[i - 1] != v;
    }
    forall x | 0 <= x < n ensures Shifted(cap, m0, m', n, x, u, t, amount) {
      assert Shifted(cap, m0, m, n, x, v, t, amount);
      PushSums(cap, m, n, u, v, amount, x);
    }
  }

  /** What leaves x is more by the amount at v and less by it at t. */
  ghost predicate Shifted(cap: Matrix, m0: Matrix, m: Matrix, n: nat, x: nat, v: int, t: int, amount: int)
    requires Square(cap, n) && Square(m0, n) && Square(m, n) && x < n
  {
    Sum(NetRow(cap[x], m[x])) == Sum(NetRow(cap[x], m0[x])) + (if x == v then amount else 0) - (if x == t then amount else 0)
  }

  /** src/sol/FlowGraph.cc:208-212; the flow grows by path_flow. */
  method Augment(res: array2<int>, n: nat, parent: array<int>, path_flow: int, ghost cap: Matrix, ghost path: seq<int>)
    requires res.Length0 == res.Length1 == parent.Length == n && n >= 2 && Recorded(Rows(res), n, parent[..], path, 0, n - 1)
    requires Conserves(cap, Rows(res), n) && 0 < path_flow && Roomy(Rows(res), n, path, |path| - 1, path_flow)
    modifies res
    ensures Conserves(cap, Rows(res), n)
    ensures Value(Net(cap, Rows(res), n)) == old(Value(Net(cap, Rows(res), n))) + path_flow
  {
    ghost var m0 := Rows(res);
    ghost var k := |path| - 1;
    RecordedPath(m0, n, parent[..], path, 0, n - 1);
    var t := n - 1;
    var v := t;
    forall x | 0 <= x < n ensures Shifted(cap, m0, m0, n, x, v, t, path_flow) {}
    hide Sum, Shifted, Roomy, Residual, Recorded, IsPath, Conserves, Rows;
    ConservesResidual(cap, m0, n);
    PathEnds(m0, n, path, 0, n - 1);
    while v != 0
      invariant 0 <= k < |path| && v == path[k] && Square(Rows(res), n)
      invariant Residual(cap, Rows(res), n) && Roomy(Rows(res), n, path, k, path_flow)
      invariant forall x | 0 <= x < n :: Shifted(cap, m0, Rows(res), n, x, v, t, path_flow)
      decreases k
    {
      ChainStep(parent[..], path, k, 0);
      var u := parent[v];
      AugmentEdge(res, n, u, v, path_flow, cap, m0, path, k, t);
      v, k := u, k - 1;
    }
    AllShifted(cap, m0, Rows(res), n, path_flow, t);
  }

  /** src/sol/FlowGraph.cc:210-211 */
  method AugmentEdge(res: array2<int>, n: nat, u: nat, v: nat, path_flow: int,
                     ghost cap: Matrix, ghost m0: Matrix, ghost path: seq<int>, ghost k: nat, ghost t: nat)
    requires res.Length0 == res.Length1 == n && u < n && v < n && t < n && 0 < k < |path| && u == path[k - 1] && v == path[k]
    requires Residual(cap, Rows(res), n) && Square(m0, n) && Distinct(path) && 0 <= path_flow && Roomy(Rows(res), n, path, k, path_flow)
    requires forall x | 0 <= x < n :: Shifted(cap, m0, Rows(res), n, x, v, t, path_flow)
    modifies res
    ensures Residual(cap, Rows(res), n) && Roomy(Rows(res), n, path, k - 1, path_flow)
    ensures forall x | 0 <= x < n :: Shifted(cap, m0, Rows(res), n, x, u, t, path_flow)
  {
    ghost var m := Rows(res);
    PushStep(cap, m0, m, n, path, k, path_flow, t);
    hide Sum, Shifted, Roomy, Residual;
    res[u, v] := res[u, v] - path_flow;
    res[v, u] := res[v, u] + path_flow;
    RowsPushed(m, Rows(res), n, u, v, path_flow);
  }

  lemma ConservesResidual(cap: Matrix, res: Matrix, n: nat)
    requires Conserves(cap, res, n)
    ensures Residual(cap, res, n) && Square(cap, n) && Square(res, n)
  {
    hide Sum;
  }

  lemma PathEnds(res: Matrix, n: nat, path: seq<int>, s: int, t: int)
    requires IsPath(res, n, path, s, t)
    ensures path != [] && path[0] == s && path[|path| - 1] == t && forall i | 0 <= i < |path| :: 0 <= path[i] < n
  {}

  lemma ChainStep(parent: seq<int>, path: seq<int>, k: nat, s: int)
    requires Chained(parent, path) && k < |path| && path[0] == s && path[k] != s
    ensures k > 0 && parent[path[k]] == path[k - 1]
  {}

  lemma RowsPushed(m: Matrix, m': Matrix, n: nat, u: nat, v: nat, amount: int)
    requires Square(m, n) && Square(m', n) && u < n && v < n && u != v
    requires forall a, b | 0 <= a < n && 0 <= b < n ::
               m'[a][b] == if a == u && b == v then m[a][b] - amount else if a == v && b == u then m[a][b] + amount else m[a][b]
    ensures m' == Push(m, n, u, v, amount)
  {
    var p := Push(m, n, u, v, amount);
    forall a | 0 <= a < n ensures m'[a] == p[a] {
      assert forall b | 0 <= b < n :: m'[a][b] == p[a][b];
    }
    hide Push;
  }

  lemma AllShifted(cap: Matrix, m0: Matrix, m: Matrix, n: nat, amount: int, t: nat)
    requires Conserves(cap, m0, n) && Residual(cap, m, n) && n >= 2 && t == n - 1
    requires forall x | 0 <= x < n :: Shifted(cap, m0, m, n, x, 0, t, amount)
    ensures Conserves(cap, m, n) && Value(Net(cap, m, n)) == Value(Net(cap, m0, n)) + amount
  {
    hide Sum;
    forall u | 0 < u < n - 1 ensures Sum(NetRow(cap[u], m[u])) == 0 {
      assert Shifted(cap, m0, m, n, u, 0, t, amount);
    }
    assert Shifted(cap, m0, m, n, 0, 0, t, amount);
  }

  /** No flow is worth more than all that may leave the source. */
  lemma ValueBound(cap: Matrix, res: Matrix, n: nat)
    requires Conserves(cap, res, n) && n >= 1
    ensures Value(Net(cap, res, n)) <= Sum(cap[0])
  {
    SumMonotone(NetRow(cap[0], res[0]), cap[0]);
  }

  /** src/sol/FlowGraph.cc:175-224: the flow grows to a maximum one, and the visited vertices are a minimum cut. */
  method MaxFlow(res: array2<int>, n: nat, ghost cap: Matrix) returns (max_flow: int, ghost side: set<int>)
    requires res.Length0 == res.Length1 == n && n >= 2 && Conserves(cap, Rows(res), n)
    modifies res
    ensures Conserves(cap, Rows(res), n)
    ensures Value(Net(cap, Rows(res), n)) == old(Value(Net(cap, Rows(res), n))) + max_flow
    ensures IsCut(side, n) && Value(Net(cap, Rows(res), n)) == CutCapacity(cap, n, side)
    ensures forall g | IsFlow(cap, g, n) :: Value(g) <= Value(Net(cap, Rows(res), n))
  {
    hide Sum, Conserves, Sealed, IsFlow, Recorded, Rows, FlowIs, IsPath, Square, Net, Value, CutCapacity, IsCut, Separates;
    var parent := new int[n];
    max_flow := 0;
    ghost var start := FlowStarts(cap, Rows(res), n);
    ghost var room := Room(cap, Rows(res), n, start);
    var find;
    ghost var path;
    find, path, side := Bfs(res, n, 0, n - 1, parent);
    while find
      invariant FlowIs(cap, Rows(res), n, start + max_flow) && max_flow <= room
      invariant find ==> Recorded(Rows(res), n, parent[..], path, 0, n - 1)
      invariant !find ==> Separates(Rows(res), n, side, 0, n - 1)
      decreases room - max_flow
    {
      var path_flow := AugmentOnce(res, n, parent, cap, path, start + max_flow);
      max_flow := max_flow + path_flow;
      ghost var room' := Room(cap, Rows(res), n, start + max_flow);
      find, path, side := Bfs(res, n, 0, n - 1, parent);
    }
    FullCut(cap, Rows(res), n, side, start + max_flow);
  }

  /** src/sol/FlowGraph.cc:195-216 */
  method AugmentOnce(res: array2<int>, n: nat, parent: array<int>, ghost cap: Matrix, ghost path: seq<int>, ghost value: int) returns (path_flow: int)
    requires res.Length0 == res.Length1 == parent.Length == n && n >= 2 && Recorded(Rows(res), n, parent[..], path, 0, n - 1)
    requires FlowIs(cap, Rows(res), n, value)
    modifies res
    ensures 0 < path_flow && FlowIs(cap, Rows(res), n, value + path_flow)
  {
    path_flow := PathFlow(res, n, n - 1, parent, path);
    Augment(res, n, parent, path_flow, cap, path);
    hide Conserves, Rows;
  }

  /** The residuals stand for a flow of this value. */
  ghost predicate FlowIs(cap: Matrix, res: Matrix, n: nat, value: int) {
    n >= 2 && Conserves(cap, res, n) && Value(Net(cap, res, n)) == value
  }

  lemma FlowStarts(cap: Matrix, res: Matrix, n: nat) returns (value: int)
    requires Conserves(cap, res, n) && n >= 2
    ensures FlowIs(cap, res, n, value) && value == Value(Net(cap, res, n))
  {
    value := Value(Net(cap, res, n));
  }

  /** How much more may flow. */
  lemma Room(cap: Matrix, res: Matrix, n: nat, value: int) returns (room: int)
    requires FlowIs(cap, res, n, value)
    ensures 0 <= room && Square(cap, n) && room == Sum(cap[0]) - value
  {
    ValueBound(cap, res, n);
    room := Sum(cap[0]) - value;
  }

  lemma FullCut(cap: Matrix, res: Matrix, n: nat, side: set<int>, value: int)
    requires FlowIs(cap, res, n, value) && Separates(res, n, side, 0, n - 1)
    ensures Conserves(cap, res, n) && Square(cap, n) && Square(res, n) && Value(Net(cap, res, n)) == value
    ensures IsCut(side, n) && value == CutCapacity(cap, n, side)
    ensures forall g | IsFlow(cap, g, n) :: Value(g) <= value
  {
    hide Sum, IsFlow;
    NetIsFlow(cap, res, n);
    SealedSaturated(cap, res, n, side);
    MaxFlowMinCut(cap, Net(cap, res, n), n, side);
  }
}
