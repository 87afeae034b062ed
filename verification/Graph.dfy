/**
 Dependency graphs of a task sequence: vertex `u` has an edge to `v` when task `u`
 depends on task `v`, that is, when `v` occurs in row `u` of the dependency matrix.
 */
module Graph {

  type Matrix = seq<seq<nat>>

  /** The matrix can be indexed for every one of `n` tasks and names no other task. */
  predicate InRange(adj: Matrix, n: nat) {
    && n <= |adj|
    && forall u :: 0 <= u < n ==> forall v :: v in adj[u] ==> v < n
  }

  predicate Edge(adj: Matrix, u: nat, v: nat) {
    u < |adj| && v in adj[u]
  }

  /** A non-empty walk along edges between the vertices `0..n`. */
  ghost predicate IsPath(adj: Matrix, n: nat, p: seq<nat>) {
    && |p| >= 1
    && p[0] < n
    && forall k :: 0 <= k < |p| - 1 ==> Edge(adj, p[k], p[k + 1])
  }

  /** `v` is a direct or indirect prerequisite of `u`. */
  ghost predicate Reaches(adj: Matrix, n: nat, u: nat, v: nat) {
    exists p :: IsPath(adj, n, p) && |p| >= 2 && p[0] == u && p[|p| - 1] == v
  }

  /** Some task is a direct or indirect prerequisite of itself; self-loops count. */
  ghost predicate Cyclic(adj: Matrix, n: nat) {
    exists u :: Reaches(adj, n, u, u)
  }

  predicate Distinct<T(==)>(s: seq<T>) {
    forall i, j :: 0 <= i < j < |s| ==> s[i] != s[j]
  }

  /** Every vertex of `order` comes after all of its successors, and occurs once. */
  predicate Postorder(adj: Matrix, n: nat, order: seq<nat>) {
    && n <= |adj|
    && Distinct(order)
    && (forall k :: 0 <= k < |order| ==> order[k] < n)
    && forall k :: 0 <= k < |order| ==> forall v :: v in adj[order[k]] ==> v in order[..k]
  }

  predicate IsPermutation(order: seq<nat>, n: nat) {
    && |order| == n
    && Distinct(order)
    && (forall k :: 0 <= k < |order| ==> order[k] < n)
    && forall v :: 0 <= v < n ==> v in order
  }

  ghost function Vertices(n: nat): (s: set<nat>)
    ensures |s| == n
    ensures forall v: nat :: v in s <==> v < n
  {
    if n == 0 then {} else Vertices(n - 1) + {n - 1}
  }

  ghost function Elements<T>(s: seq<T>): set<T> {
    set x | x in s
  }

  lemma {:induction false} DistinctSize<T>(s: seq<T>)
    requires Distinct(s)
    ensures |Elements(s)| == |s|
  {
    if s == [] {
    } else {
      var t := s[..|s| - 1];
      DistinctSize(t);
      assert s == t + [s[|s| - 1]];
      assert Elements(s) == Elements(t) + {s[|s| - 1]};
      assert s[|s| - 1] !in t;
    }
  }

  /** A duplicate-free enumeration of all the vertices has exactly `n` entries. */
  lemma CoveringIsPermutation(order: seq<nat>, n: nat)
    requires Distinct(order)
    requires forall k :: 0 <= k < |order| ==> order[k] < n
    requires forall v :: 0 <= v < n ==> v in order
    ensures IsPermutation(order, n)
  {
    DistinctSize(order);
    assert Elements(order) == Vertices(n);
  }

  function IndexOf<T(==)>(s: seq<T>, x: T): (k: nat)
    requires x in s
    ensures k < |s| && s[k] == x
  {
    if s[0] == x then 0 else 1 + IndexOf(s[1..], x)
  }

  /** `done` holds the first `k` entries of `order`. */
  ghost predicate Covers(done: set<nat>, order: seq<nat>, k: nat)
    requires k <= |order|
  {
    forall v: nat :: v in done <==> v in order[..k]
  }

  /** The next entry of a postorder is new, and its successors have been covered. */
  lemma NextEntry(adj: Matrix, n: nat, order: seq<nat>, done: set<nat>, k: nat)
    requires Postorder(adj, n, order) && k < |order| && Covers(done, order, k)
    ensures order[k] < n && order[k] !in done && forall d :: d in adj[order[k]] ==> d in done
    ensures Covers(done + {order[k]}, order, k + 1)
  {
    assert order[..k + 1] == order[..k] + [order[k]];
  }

  lemma AllCovered(order: seq<nat>, n: nat, done: set<nat>)
    requires IsPermutation(order, n) && Covers(done, order, |order|)
    ensures forall v :: 0 <= v < n ==> v in done
  {
    assert order[..|order|] == order;
  }

  function Permuted<T>(s: seq<T>, order: seq<nat>): (r: seq<T>)
    requires forall k :: 0 <= k < |order| ==> order[k] < |s|
    ensures |r| == |order|
  {
    seq(|order|, k requires 0 <= k < |order| => s[order[k]])
  }

  /** Without its largest entry, a permutation permutes one vertex less. */
  lemma WithoutLast(order: seq<nat>, m: nat, j: nat)
    requires IsPermutation(order, m + 1) && j < |order| && order[j] == m
    ensures IsPermutation(order[..j] + order[j + 1..], m)
  {
    var rest := order[..j] + order[j + 1..];
    assert forall k :: 0 <= k < m ==> rest[k] == order[if k < j then k else k + 1];
    forall v | 0 <= v < m
      ensures v in rest
    {
      var i := IndexOf(order, v);
      assert rest[if i < j then i else i - 1] == v;
    }
  }

  /** Position `j` holds the last element; the rest is permuted among itself. */
  lemma PermutedSplit<T>(s: seq<T>, order: seq<nat>, j: nat)
    requires |s| > 0 && j < |order| && order[j] == |s| - 1
    requires forall k :: 0 <= k < |order| ==> order[k] < |s| && (k != j ==> order[k] < |s| - 1)
    ensures var q := Permuted(s[..|s| - 1], order[..j] + order[j + 1..]);
      Permuted(s, order) == q[..j] + [s[|s| - 1]] + q[j..]
  {
  }

  lemma InsertedMultiset<T>(q: seq<T>, j: nat, x: T)
    requires j <= |q|
    ensures multiset(q[..j] + [x] + q[j..]) == multiset(q) + multiset{x}
  {
    assert q == q[..j] + q[j..];
  }

  lemma LastIsLargest(order: seq<nat>, m: nat, j: nat)
    requires IsPermutation(order, m + 1) && j < |order| && order[j] == m
    ensures forall k :: 0 <= k < |order| ==> order[k] < m + 1 && (k != j ==> order[k] < m)
  {
    forall k | 0 <= k < |order| && k != j
      ensures order[k] != m
    {
      assert if k < j then order[k] != order[j] else order[j] != order[k];
    }
  }

  /** A permutation loses and duplicates nothing. */
  lemma {:induction false} PermutedMultiset<T>(s: seq<T>, order: seq<nat>)
    requires IsPermutation(order, |s|)
    ensures multiset(Permuted(s, order)) == multiset(s)
  {
    if s == [] {
      assert Permuted(s, order) == [];
    } else {
      var m := |s| - 1;
      var j := IndexOf(order, m);
      var rest := order[..j] + order[j + 1..];
      WithoutLast(order, m, j);
      LastIsLargest(order, m, j);
      PermutedMultiset(s[..m], rest);
      PermutedSplit(s, order, j);
      InsertedMultiset(Permuted(s[..m], rest), j, s[m]);
      assert s == s[..m] + [s[m]];
    }
  }

  /** Along a walk that starts in a postorder, positions strictly decrease. */
  lemma {:induction false} WalkDescends(adj: Matrix, n: nat, order: seq<nat>, p: seq<nat>)
    requires Postorder(adj, n, order)
    requires IsPath(adj, n, p) && p[0] in order
    ensures p[|p| - 1] in order
    ensures |p| >= 2 ==> IndexOf(order, p[|p| - 1]) < IndexOf(order, p[0])
  {
    if |p| >= 2 {
      var k := IndexOf(order, p[0]);
      assert Edge(adj, p[0], p[1]);
      assert p[1] in order[..k];
      var j := IndexOf(order[..k], p[1]);
      assert order[j] == p[1];
      assert IndexOf(order, p[1]) == j;
      assert IsPath(adj, n, p[1..]) by {
        forall i | 0 <= i < |p[1..]| - 1
          ensures Edge(adj, p[1..][i], p[1..][i + 1])
        {
          assert Edge(adj, p[i + 1], p[i + 2]);
        }
      }
      WalkDescends(adj, n, order, p[1..]);
    }
  }

  /** An enumeration of all vertices that lists prerequisites first excludes cycles. */
  lemma PostorderExcludesCycles(adj: Matrix, n: nat, order: seq<nat>)
    requires Postorder(adj, n, order)
    requires forall v :: 0 <= v < n ==> v in order
    ensures !Cyclic(adj, n)
  {
    forall p | IsPath(adj, n, p) && |p| >= 2 && p[0] == p[|p| - 1]
      ensures false
    {
      WalkDescends(adj, n, order, p);
    }
  }

  /** An edge from the end of a walk back into the walk closes a cycle. */
  lemma BackEdgeClosesCycle(adj: Matrix, n: nat, path: seq<nat>, v: nat)
    requires IsPath(adj, n, path) && (forall k :: 0 <= k < |path| ==> path[k] < n)
    requires Edge(adj, path[|path| - 1], v) && v in path
    ensures Cyclic(adj, n)
  {
    var k := IndexOf(path, v);
    var p := path[k..] + [v];
    forall i | 0 <= i < |p| - 1
      ensures Edge(adj, p[i], p[i + 1])
    {
      if i + 1 < |path| - k {
        assert Edge(adj, path[k + i], path[k + i + 1]);
      }
    }
    assert IsPath(adj, n, p);
    assert Reaches(adj, n, v, v);
  }

  /** A self-loop is a cycle. */
  lemma SelfLoopIsCycle(adj: Matrix, n: nat, u: nat)
    requires u < n && Edge(adj, u, u)
    ensures Cyclic(adj, n)
  {
    assert IsPath(adj, n, [u, u]);
    assert Reaches(adj, n, u, u);
  }

  lemma NoSelfLoop(adj: Matrix, n: nat, u: nat)
    requires u < n <= |adj| && !Cyclic(adj, n)
    ensures u !in adj[u]
  {
    if Edge(adj, u, u) {
      SelfLoopIsCycle(adj, n, u);
    }
  }

  // ----- depth-first search -----

  ghost function Unvisited(visited: seq<bool>): set<nat> {
    set v: nat | v < |visited| && !visited[v]
  }

  /**
   The state of a depth-first search: `path` leads from the root to the current vertex,
   `finished` lists the vertices whose visit is over, and nothing else has been visited.
   */
  ghost predicate SearchState(adj: Matrix, n: nat, visited: seq<bool>, path: seq<nat>, finished: seq<nat>) {
    && InRange(adj, n)
    && |visited| == n
    && (path == [] || IsPath(adj, n, path))
    && (forall k :: 0 <= k < |path| ==> path[k] < n)
    && (forall k :: 0 <= k < |finished| ==> finished[k] < n)
    && Distinct(finished)
    && (forall v :: v in path ==> v !in finished)
    && forall v :: 0 <= v < n ==> (visited[v] <==> v in path || v in finished)
  }

  /** Entering an unvisited vertex next to the end of the path extends the path. */
  lemma EnterVertex(adj: Matrix, n: nat, visited: seq<bool>, path: seq<nat>, finished: seq<nat>, v: nat)
    requires SearchState(adj, n, visited, path, finished)
    requires v < n && !visited[v] && (path == [] || Edge(adj, path[|path| - 1], v))
    ensures SearchState(adj, n, visited[v := true], path + [v], finished)
    ensures v !in path
    ensures Unvisited(visited[v := true]) < Unvisited(visited)
  {
    var p := path + [v];
    forall k | 0 <= k < |p| - 1
      ensures Edge(adj, p[k], p[k + 1])
    {
      if k + 1 < |path| {
        assert Edge(adj, path[k], path[k + 1]);
      }
    }
    assert v in Unvisited(visited) && v !in Unvisited(visited[v := true]);
  }

  /** Leaving the end of the path moves it to the finished vertices. */
  lemma LeaveVertex(adj: Matrix, n: nat, visited: seq<bool>, path: seq<nat>, finished: seq<nat>, v: nat)
    requires SearchState(adj, n, visited, path + [v], finished) && v !in path && v < n
    ensures SearchState(adj, n, visited, path, finished + [v])
    ensures Postorder(adj, n, finished) && (forall s :: s in adj[v] ==> s in finished)
            ==> Postorder(adj, n, finished + [v])
  {
    var p := path + [v];
    assert p[|p| - 1] == v && v in p;
    assert forall k :: 0 <= k < |path| ==> path[k] == p[k];
    if path != [] {
      forall k | 0 <= k < |path| - 1
        ensures Edge(adj, path[k], path[k + 1])
      {
        assert Edge(adj, p[k], p[k + 1]);
      }
    }
    var f := finished + [v];
    forall k | 0 <= k < |f|
      ensures Postorder(adj, n, finished) && (forall s :: s in adj[v] ==> s in finished)
              ==> forall s :: s in adj[f[k]] ==> s in f[..k]
    {
      assert f[..k] == finished[..k];
    }
  }

  // ----- where a depth-first search in turn puts the vertices -----

  /** Every edge leads to a smaller vertex: the vertices are listed prerequisites first as they are. */
  predicate Downward(adj: Matrix, n: nat)
    requires n <= |adj|
  {
    forall i :: 0 <= i < n ==> DownwardRow(adj, i)
  }

  predicate DownwardRow(adj: Matrix, i: nat)
    requires i < |adj|
  {
    forall d :: d in adj[i] ==> d < i
  }

  ghost predicate Wanted(adj: Matrix, n: nat, v: nat)
    requires n <= |adj|
  {
    exists u :: 0 <= u < n && v in adj[u]
  }

  /** The row still leads somewhere new. */
  ghost predicate LeadsOn(adj: Matrix, u: nat, row: seq<nat>, visited: seq<bool>) {
    exists d :: d in row && d != u && d < |visited| && !visited[d]
  }

  /**
   What a visit of `u` adds: nothing but `u` when all it needs has been visited, and otherwise
   first something else that is needed.
   */
  ghost predicate Grown(adj: Matrix, n: nat, u: nat, leadsOn: bool, stack: seq<nat>, stack': seq<nat>)
    requires n <= |adj|
  {
    && stack <= stack'
    && if leadsOn then |stack| < |stack'| && stack'[|stack|] != u && Wanted(adj, n, stack'[|stack|])
       else stack' == stack + [u]
  }

  /** Position `i` holds `i`, or something else that is needed if row `i` does not lead downward. */
  ghost predicate TurnOf(adj: Matrix, n: nat, i: nat, stack: seq<nat>)
    requires i < n <= |adj|
  {
    && i < |stack|
    && if DownwardRow(adj, i) then stack[i] == i else stack[i] != i && Wanted(adj, n, stack[i])
  }

  /** As long as the rows lead downward the vertices come in turn; before the first that does not, another comes. */
  ghost predicate VisitsInTurn(adj: Matrix, n: nat, order: seq<nat>)
    requires n <= |adj|
  {
    forall i :: 0 <= i < n && Downward(adj, i) ==> TurnOf(adj, n, i, order)
  }

  /** `VisitsInTurn` for the first `m` vertices, while the search goes on. */
  ghost predicate InTurn(adj: Matrix, n: nat, m: nat, stack: seq<nat>)
    requires m <= n <= |adj|
  {
    && (forall i :: 0 <= i < m && Downward(adj, i) ==> TurnOf(adj, n, i, stack))
    && (Downward(adj, m) ==> |stack| == m)
  }

  lemma InTurnIsIdentity(adj: Matrix, n: nat, m: nat, stack: seq<nat>)
    requires m <= n <= |adj| && InTurn(adj, n, m, stack) && Downward(adj, m)
    ensures |stack| == m && forall k :: 0 <= k < m ==> stack[k] == k
  {
    forall k | 0 <= k < m
      ensures stack[k] == k
    {
      assert Downward(adj, k) && DownwardRow(adj, k) && TurnOf(adj, n, k, stack);
    }
  }

  /** After the vertices before `m` in turn, a row leads on exactly if it does not lead downward. */
  lemma LeadsOnIffUpward(adj: Matrix, n: nat, m: nat, visited: seq<bool>, stack: seq<nat>)
    requires m < n && SearchState(adj, n, visited, [], stack) && m !in adj[m]
    requires |stack| == m && forall k :: 0 <= k < m ==> stack[k] == k
    ensures !visited[m] && (LeadsOn(adj, m, adj[m], visited) <==> !DownwardRow(adj, m))
  {
    forall d | 0 <= d < n
      ensures visited[d] <==> d < m
    {
      assert d < m ==> stack[d] == d;
    }
    if !DownwardRow(adj, m) {
      var d :| d in adj[m] && d >= m;
      assert d != m && !visited[d];
    }
  }

  /** Visiting the next vertex, unless it has been visited, keeps the turns. */
  lemma NextInTurn(adj: Matrix, n: nat, m: nat, visited: seq<bool>, stack: seq<nat>, stack': seq<nat>)
    requires m < n && SearchState(adj, n, visited, [], stack) && InTurn(adj, n, m, stack)
    requires m !in adj[m]
    requires if visited[m] then stack' == stack
             else Grown(adj, n, m, LeadsOn(adj, m, adj[m], visited), stack, stack')
    ensures InTurn(adj, n, m + 1, stack')
  {
    assert stack <= stack';
    if Downward(adj, m) {
      InTurnIsIdentity(adj, n, m, stack);
      LeadsOnIffUpward(adj, n, m, visited, stack);
      hide LeadsOn, SearchState, DownwardRow;
      assert TurnOf(adj, n, m, stack');
    }
    hide SearchState, LeadsOn, DownwardRow, Grown, Wanted;
    forall i | 0 <= i < m && Downward(adj, i)
      ensures TurnOf(adj, n, i, stack')
    {
      assert TurnOf(adj, n, i, stack);
    }
    assert Downward(adj, m + 1) ==> Downward(adj, m) && DownwardRow(adj, m);
  }

  lemma TurnsBegin(adj: Matrix, n: nat)
    requires n <= |adj|
    ensures InTurn(adj, n, 0, []) && Postorder(adj, n, [])
  {
  }

  lemma TurnsDone(adj: Matrix, n: nat, stack: seq<nat>)
    requires n <= |adj|
    ensures InTurn(adj, n, n, stack) ==> VisitsInTurn(adj, n, stack)
  {
  }

  /** Every vertex that something leads to keeps its position. */
  predicate KeepsPrerequisites(adj: Matrix, n: nat, order: seq<nat>)
    requires InRange(adj, n) && n <= |order|
  {
    forall i :: 0 <= i < n ==> forall d :: d in adj[i] ==> order[d] == d
  }

  /** A search in turn keeps the prerequisites in place exactly when there is nothing to sort. */
  lemma KeepsPrerequisitesIffDownward(adj: Matrix, n: nat, order: seq<nat>)
    requires InRange(adj, n) && IsPermutation(order, n) && VisitsInTurn(adj, n, order)
    ensures KeepsPrerequisites(adj, n, order) <==> Downward(adj, n)
    ensures Downward(adj, n) ==> order == seq(n, i => i)
  {
    if Downward(adj, n) {
      assert InTurn(adj, n, n, order);
      InTurnIsIdentity(adj, n, n, order);
    } else {
      var i := FirstUpward(adj, n, 0);
      assert TurnOf(adj, n, i, order);
      var v := order[i];
      var u :| 0 <= u < n && v in adj[u];
      assert order[v] != v;
    }
  }

  lemma {:induction false} FirstUpward(adj: Matrix, n: nat, from: nat) returns (i: nat)
    requires n <= |adj| && from <= n && !Downward(adj, n) && Downward(adj, from)
    ensures i < n && !DownwardRow(adj, i) && Downward(adj, i)
    decreases n - from
  {
    i := from;
    if from < n && DownwardRow(adj, from) {
      i := FirstUpward(adj, n, from + 1);
    }
  }
}
