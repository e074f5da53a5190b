/** Paths and cycles of a directed graph given by adjacency lists. */
module Digraph {
  import opened Seqs

  type uint32 = x: int | 0 <= x < 0x1_0000_0000

  /** Adjacency lists; a node without an entry has no successors, and a list may repeat a successor. */
  type Adjacency = map<uint32, seq<uint32>>

  function Succs(next: Adjacency, v: uint32): seq<uint32> {
    if v in next then next[v] else []
  }

  predicate Edge(next: Adjacency, u: uint32, v: uint32) {
    v in Succs(next, u)
  }

  ghost predicate IsPath(next: Adjacency, p: seq<uint32>) {
    p != [] && forall i, j :: 0 <= i && j == i + 1 && j < |p| ==> Edge(next, p[i], p[j])
  }

  ghost predicate IsCycle(next: Adjacency, c: seq<uint32>) {
    |c| >= 2 && IsPath(next, c) && c[0] == c[|c| - 1]
  }

  ghost predicate PathBetween(next: Adjacency, p: seq<uint32>, u: uint32, v: uint32) {
    IsPath(next, p) && p[0] == u && p[|p| - 1] == v
  }

  /** Some path from v runs into a cycle. */
  ghost predicate ReachesCycle(next: Adjacency, v: uint32) {
    exists p, c :: IsCycle(next, c) && PathBetween(next, p, v, c[0])
  }

  /** Some path leads from a cycle to v. */
  ghost predicate BehindCycle(next: Adjacency, v: uint32) {
    exists p, c :: IsCycle(next, c) && PathBetween(next, p, c[0], v)
  }

  /** u lies strictly before v: a path with at least one edge leads from u to v. */
  ghost predicate Ancestor(next: Adjacency, u: uint32, v: uint32) {
    exists p :: |p| >= 2 && PathBetween(next, p, u, v)
  }

  ghost predicate Acyclic(ids: seq<uint32>, next: Adjacency) {
    forall v :: v in ids ==> !ReachesCycle(next, v)
  }

  lemma PathPrefix(next: Adjacency, p: seq<uint32>, k: nat)
    requires IsPath(next, p) && 1 <= k <= |p|
    ensures IsPath(next, p[..k])
  {
  }

  lemma PathSuffix(next: Adjacency, p: seq<uint32>, k: nat)
    requires IsPath(next, p) && k < |p|
    ensures IsPath(next, p[k..])
  {
  }

  lemma PathSnoc(next: Adjacency, p: seq<uint32>, v: uint32)
    requires p == [] || (IsPath(next, p) && Edge(next, p[|p| - 1], v))
    ensures IsPath(next, p + [v])
  {
  }

  lemma PathCons(next: Adjacency, v: uint32, p: seq<uint32>)
    requires IsPath(next, p) && Edge(next, v, p[0])
    ensures IsPath(next, [v] + p)
  {
  }

  /** Every successor of a listed node is listed before it. */
  ghost predicate DescendsInto(next: Adjacency, finished: seq<uint32>) {
    forall i, v :: 0 <= i < |finished| && Edge(next, finished[i], v) ==> v in finished[..i]
  }

  /** A path out of a listed node goes down the list by at least one place per edge. */
  lemma {:induction false} PathDescends(next: Adjacency, finished: seq<uint32>, p: seq<uint32>, i: nat)
    returns (j: nat)
    requires DescendsInto(next, finished)
    requires IsPath(next, p) && i < |finished| && p[0] == finished[i]
    ensures j + |p| - 1 <= i && finished[j] == p[|p| - 1]
    decreases |p|
  {
    if |p| == 1 {
      j := i;
    } else {
      assert Edge(next, p[0], p[1]);
      var k: nat :| k < i && finished[k] == p[1];
      PathSuffix(next, p, 1);
      j := PathDescends(next, finished, p[1..], k);
    }
  }

  lemma FinishedReachesNoCycle(next: Adjacency, finished: seq<uint32>, v: uint32)
    requires DescendsInto(next, finished) && Distinct(finished)
    requires v in finished
    ensures !ReachesCycle(next, v)
  {
    if ReachesCycle(next, v) {
      var p, c :| IsCycle(next, c) && PathBetween(next, p, v, c[0]);
      var i: nat :| i < |finished| && finished[i] == v;
      var j := PathDescends(next, finished, p, i);
      var k := PathDescends(next, finished, c, j);
      assert false;
    }
  }

  /** An edge from the end of a path back onto it closes a cycle that the start of the path reaches. */
  lemma ClosesCycle(next: Adjacency, path: seq<uint32>, v: uint32)
    requires IsPath(next, path) && v in path && Edge(next, path[|path| - 1], v)
    ensures ReachesCycle(next, path[0])
  {
    var k: nat :| k < |path| && path[k] == v;
    PathSuffix(next, path, k);
    PathSnoc(next, path[k..], v);
    PathPrefix(next, path, k + 1);
    assert IsCycle(next, path[k..] + [v]);
    assert PathBetween(next, path[..k + 1], path[0], (path[k..] + [v])[0]);
  }

  /** A path that meets a node twice has a cycle on it, which leads to its end. */
  lemma RepeatIsCycle(next: Adjacency, p: seq<uint32>, i: nat, j: nat)
    requires IsPath(next, p) && i < j < |p| && p[i] == p[j]
    ensures BehindCycle(next, p[|p| - 1])
  {
    var c := p[..j + 1][i..];
    PathPrefix(next, p, j + 1);
    PathSuffix(next, p[..j + 1], i);
    PathSuffix(next, p, j);
    assert c[0] == p[i] && c[|c| - 1] == p[j];
    assert IsCycle(next, c);
    var q := p[j..];
    assert q[0] == p[j] && q[|q| - 1] == p[|p| - 1];
    assert PathBetween(next, q, c[0], p[|p| - 1]);
  }

  lemma EdgeExtendsAncestor(next: Adjacency, u: uint32, x: uint32, v: uint32)
    requires Edge(next, u, x) && (x == v || Ancestor(next, x, v))
    ensures Ancestor(next, u, v)
  {
    if Ancestor(next, x, v) {
      var p :| |p| >= 2 && PathBetween(next, p, x, v);
      PathCons(next, u, p);
      assert ([u] + p)[|p|] == p[|p| - 1];
      assert PathBetween(next, [u] + p, u, v);
    } else {
      assert PathBetween(next, [u, x], u, v);
    }
  }

  ghost predicate HasSource(next: Adjacency, nodes: set<uint32>, x: uint32) {
    exists u :: u in nodes && Edge(next, u, x)
  }

  /** Each of these nodes has a predecessor among them. */
  ghost predicate Sourceless(next: Adjacency, nodes: set<uint32>) {
    forall x {:trigger HasSource(next, nodes, x)} :: x in nodes ==> HasSource(next, nodes, x)
  }

  lemma {:induction false} WalkBack(next: Adjacency, nodes: set<uint32>, v: uint32, n: nat) returns (p: seq<uint32>)
    requires v in nodes && Sourceless(next, nodes)
    ensures |p| == n + 1 && IsPath(next, p) && p[n] == v
    ensures forall x :: x in p ==> x in nodes
  {
    if n == 0 {
      p := [v];
    } else {
      var q := WalkBack(next, nodes, v, n - 1);
      assert q[0] in q;
      assert HasSource(next, nodes, q[0]);
      var u :| u in nodes && Edge(next, u, q[0]);
      PathCons(next, u, q);
      p := [u] + q;
    }
  }

  /** Among finitely many nodes, each with a predecessor among them, every one has a cycle behind it. */
  lemma SourcelessIsBehindCycle(next: Adjacency, nodes: set<uint32>, v: uint32)
    requires v in nodes && Sourceless(next, nodes)
    ensures BehindCycle(next, v)
  {
    var p := WalkBack(next, nodes, v, |nodes|);
    if Distinct(p) {
      DistinctFits(p, nodes);
    }
    var i, j :| 0 <= i < j < |p| && p[i] == p[j];
    RepeatIsCycle(next, p, i, j);
  }

  /** When edges join listed nodes only, it does not matter whether cycles are sought forwards or backwards. */
  lemma AcyclicIff(ids: seq<uint32>, next: Adjacency)
    requires forall u, v :: Edge(next, u, v) ==> u in ids && v in ids
    ensures Acyclic(ids, next) <==> forall v :: v in ids ==> !BehindCycle(next, v)
  {
    if v :| v in ids && ReachesCycle(next, v) {
      var p, c :| IsCycle(next, c) && PathBetween(next, p, v, c[0]);
      assert Edge(next, c[0], c[1]);
      assert PathBetween(next, [c[0]], c[0], c[0]);
      assert BehindCycle(next, c[0]);
    }
    if v :| v in ids && BehindCycle(next, v) {
      var p, c :| IsCycle(next, c) && PathBetween(next, p, c[0], v);
      assert Edge(next, c[0], c[1]);
      assert PathBetween(next, [c[0]], c[0], c[0]);
      assert ReachesCycle(next, c[0]);
    }
  }

  /** All nodes of the graph: the listed ones and every endpoint of an edge. */
  ghost function Mentioned(ids: seq<uint32>, next: Adjacency): (nodes: set<uint32>)
    ensures forall v :: v in ids ==> v in nodes
    ensures forall u, v :: Edge(next, u, v) ==> u in nodes && v in nodes
  {
    (set v | v in ids) + next.Keys + set u, v | u in next && v in next[u] :: v
  }

  /** A depth-first search stands at the end of path and has fully explored the nodes of finished. */
  ghost predicate Exploration(next: Adjacency, universe: set<uint32>, path: seq<uint32>, finished: seq<uint32>) {
    && (path == [] || IsPath(next, path))
    && Distinct(path) && Distinct(finished)
    && (forall v :: v in path ==> v !in finished)
    && DescendsInto(next, finished)
    && (forall v :: v in path || v in finished ==> v in universe)
    && (forall u, v :: u in universe && Edge(next, u, v) ==> v in universe)
  }

  lemma ExplorationEnters(next: Adjacency, universe: set<uint32>, path: seq<uint32>, finished: seq<uint32>, v: uint32)
    requires Exploration(next, universe, path, finished)
    requires v in universe && v !in path && v !in finished
    requires path == [] || Edge(next, path[|path| - 1], v)
    ensures Exploration(next, universe, path + [v], finished)
  {
    PathSnoc(next, path, v);
  }

  lemma ExplorationLeaves(next: Adjacency, universe: set<uint32>, path: seq<uint32>, finished: seq<uint32>, v: uint32)
    requires Exploration(next, universe, path + [v], finished)
    requires forall w :: Edge(next, v, w) ==> w in finished
    ensures Exploration(next, universe, path, finished + [v])
  {
    var longer := path + [v];
    assert longer[|path|] == v;
    assert v in longer;
    if path != [] {
      PathPrefix(next, longer, |path|);
      assert longer[..|path|] == path;
    }
    assert forall i :: 0 <= i < |path| ==> longer[i] == path[i];
    forall w | w in path
      ensures w !in finished + [v]
    {
      assert w in longer;
    }
    forall i, w | 0 <= i < |finished + [v]| && Edge(next, (finished + [v])[i], w)
      ensures w in (finished + [v])[..i]
    {
      assert (finished + [v])[..i] == finished[..i];
      if i == |finished| {
        assert finished[..i] == finished;
      }
    }
  }
}
