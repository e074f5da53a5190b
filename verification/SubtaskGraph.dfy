/** Building the graph of a problem's subtasks, and verifying a problem (model/dag.go, resource/check.go). */
module SubtaskGraph {
  import opened Digraph
  import opened Dag
  import opened Kahn
  import opened KahnTheory
  import opened Problems
  import opened Seqs

  /** An edge leads from a subtask to each of its dependencies; a repeated id keeps its last entry. */
  function DependencyEdges(subtasks: seq<Subtask>): Adjacency {
    if subtasks == [] then map[]
    else
      var last := subtasks[|subtasks| - 1];
      DependencyEdges(subtasks[..|subtasks| - 1])[last.id := last.dependencies]
  }

  function SubtaskById(subtasks: seq<Subtask>): map<uint32, Subtask> {
    if subtasks == [] then map[]
    else
      var last := subtasks[|subtasks| - 1];
      SubtaskById(subtasks[..|subtasks| - 1])[last.id := last]
  }

  /** Every dependency, as often as some subtask lists it. */
  ghost function AllDependencies(subtasks: seq<Subtask>): multiset<uint32> {
    if subtasks == [] then multiset{}
    else AllDependencies(subtasks[..|subtasks| - 1]) + multiset(subtasks[|subtasks| - 1].dependencies)
  }

  lemma OneMoreSubtask(subtasks: seq<Subtask>, i: nat)
    requires i < |subtasks|
    ensures var s, before, upTo := subtasks[i], subtasks[..i], subtasks[..i + 1];
            && Ids(upTo) == Ids(before) + [s.id]
            && DependencyEdges(upTo) == DependencyEdges(before)[s.id := s.dependencies]
            && SubtaskById(upTo) == SubtaskById(before)[s.id := s]
            && AllDependencies(upTo) == AllDependencies(before) + multiset(s.dependencies)
  {
    assert subtasks[..i + 1][..i] == subtasks[..i];
  }

  /** Counts one more incoming edge for each occurrence in nexts. */
  method CountTargets(nexts: seq<uint32>, before: map<uint32, int>, ghost edges: multiset<uint32>)
    returns (indeg: map<uint32, int>)
    requires Counts(before, edges)
    ensures Counts(indeg, edges + multiset(nexts))
  {
    indeg := before;
    ghost var counted := edges;
    for j := 0 to |nexts|
      invariant counted == edges + multiset(nexts[..j]) && Counts(indeg, counted)
    {
      TakeOneMore(nexts, j);
      CountsOneMore(indeg, counted, nexts[j]);
      indeg := indeg[nexts[j] := InOf(indeg, nexts[j]) + 1];
      counted := counted + multiset{nexts[j]};
    }
    TakeAll(nexts);
  }

  method NewSubtaskGraph(p: Problem) returns (g: Graph<Subtask>)
    ensures fresh(g) && g.zero == NO_SUBTASK
    ensures g.IDs == Ids(p.subtasks)
    ensures g.Models == SubtaskById(p.subtasks)
    ensures g.Next == DependencyEdges(p.subtasks)
    ensures Counts(g.In, AllDependencies(p.subtasks))
  {
    var ids: seq<uint32>, models: map<uint32, Subtask> := [], map[];
    var indeg: map<uint32, int>, next: Adjacency := map[], map[];
    ghost var counted: multiset<uint32> := multiset{};
    for i := 0 to |p.subtasks|
      invariant ids == Ids(p.subtasks[..i])
      invariant models == SubtaskById(p.subtasks[..i]) && next == DependencyEdges(p.subtasks[..i])
      invariant counted == AllDependencies(p.subtasks[..i]) && Counts(indeg, counted)
    {
      var s := p.subtasks[i];
      OneMoreSubtask(p.subtasks, i);
      next := next[s.id := s.dependencies];
      models := models[s.id := s];
      ids := ids + [s.id];
      indeg := CountTargets(s.dependencies, indeg, counted);
      counted := counted + multiset(s.dependencies);
    }
    TakeAll(p.subtasks);
    g := new Graph<Subtask>(NO_SUBTASK);
    g.IDs, g.Models, g.In, g.Next := ids, models, indeg, next;
  }

  /** Refuses a problem exactly when its dependencies run into a cycle. */
  method VerifyProblem(p: Problem) returns (admitted: bool)
    ensures admitted <==> Acyclic(Ids(p.subtasks), DependencyEdges(p.subtasks))
  {
    var g := NewSubtaskGraph(p);
    admitted := g.IsDAG();
  }

  lemma {:induction false} EdgesOfSubtask(subtasks: seq<Subtask>, i: nat)
    requires DistinctIds(subtasks) && i < |subtasks|
    ensures Succs(DependencyEdges(subtasks), subtasks[i].id) == subtasks[i].dependencies
    ensures subtasks[i].id in SubtaskById(subtasks) && SubtaskById(subtasks)[subtasks[i].id] == subtasks[i]
  {
    var n := |subtasks| - 1;
    if i < n {
      EdgesOfSubtask(subtasks[..n], i);
    }
  }

  lemma {:induction false} EdgesStartAtSubtasks(subtasks: seq<Subtask>)
    ensures DependencyEdges(subtasks).Keys == ToSet(Ids(subtasks))
    ensures SubtaskById(subtasks).Keys == ToSet(Ids(subtasks))
  {
    if subtasks != [] {
      var n := |subtasks| - 1;
      EdgesStartAtSubtasks(subtasks[..n]);
      assert Ids(subtasks) == Ids(subtasks[..n]) + [subtasks[n].id];
    }
  }

  lemma {:induction false} TargetsCongruent(ids: seq<uint32>, next: Adjacency, next': Adjacency)
    requires forall v :: v in ids ==> Succs(next, v) == Succs(next', v)
    ensures Targets(ids, next) == Targets(ids, next')
  {
    if ids != [] {
      TargetsCongruent(ids[1..], next, next');
    }
  }

  lemma {:induction false} TargetsAreDependencies(subtasks: seq<Subtask>)
    requires DistinctIds(subtasks)
    ensures Targets(Ids(subtasks), DependencyEdges(subtasks)) == AllDependencies(subtasks)
  {
    if subtasks != [] {
      var n := |subtasks| - 1;
      var earlier, next := Ids(subtasks[..n]), DependencyEdges(subtasks);
      TargetsAreDependencies(subtasks[..n]);
      TargetsCongruent(earlier, next, DependencyEdges(subtasks[..n]));
      TargetsSnoc(earlier, next, subtasks[n].id);
      assert Ids(subtasks) == earlier + [subtasks[n].id];
    }
  }

  /** The graph of a problem meets the traversal's needs exactly for distinct ids and existing dependencies. */
  lemma SubtaskGraphWellFormedIff(subtasks: seq<Subtask>, indeg: map<uint32, int>)
    requires Counts(indeg, AllDependencies(subtasks))
    ensures WellFormed(Ids(subtasks), indeg, DependencyEdges(subtasks))
            <==> DistinctIds(subtasks) && DependenciesExist(subtasks)
  {
    var ids, next := Ids(subtasks), DependencyEdges(subtasks);
    assert Distinct(ids) <==> DistinctIds(subtasks) by {
      assert forall i :: 0 <= i < |ids| ==> ids[i] == subtasks[i].id;
      assert Distinct(ids) ==> forall i, j :: 0 <= i < j < |ids| ==> ids[i] != ids[j];
    }
    if DistinctIds(subtasks) {
      TargetsAreDependencies(subtasks);
      DependencyEdgesIff(subtasks);
    }
  }

  lemma DependencyEdgesIff(subtasks: seq<Subtask>)
    requires DistinctIds(subtasks)
    ensures forall u, v :: Edge(DependencyEdges(subtasks), u, v)
                           <==> exists s :: s in subtasks && s.id == u && v in s.dependencies
    ensures (forall u, v :: Edge(DependencyEdges(subtasks), u, v) ==> u in Ids(subtasks) && v in Ids(subtasks))
            <==> DependenciesExist(subtasks)
  {
    var ids, next := Ids(subtasks), DependencyEdges(subtasks);
    forall s | s in subtasks
      ensures s.id in ids && Succs(next, s.id) == s.dependencies
    {
      var i: nat :| i < |subtasks| && subtasks[i] == s;
      EdgesOfSubtask(subtasks, i);
      assert ids[i] == s.id;
    }
    forall u, v | Edge(next, u, v)
      ensures exists s :: s in subtasks && s.id == u && v in s.dependencies
    {
      EdgesStartAtSubtasks(subtasks);
      var i: nat :| i < |ids| && ids[i] == u;
      assert subtasks[i] in subtasks && subtasks[i].id == u;
    }
    if forall u, v :: Edge(next, u, v) ==> u in ids && v in ids {
      forall s, v | s in subtasks && v in s.dependencies
        ensures v in ids
      {
        assert Edge(next, s.id, v);
      }
    }
  }

  lemma {:induction false} TargetsAddEdge(ids: seq<uint32>, next: Adjacency, a: uint32, b: uint32)
    requires Distinct(ids)
    ensures Targets(ids, next[a := Succs(next, a) + [b]])
         == Targets(ids, next) + if a in ids then multiset{b} else multiset{}
  {
    if ids != [] {
      TargetsAddEdge(ids[1..], next, a, b);
      assert a in ids <==> a == ids[0] || a in ids[1..];
    }
  }

  lemma EdgeAdded(next: Adjacency, a: uint32, b: uint32, u: uint32, v: uint32)
    ensures Edge(next[a := Succs(next, a) + [b]], u, v) <==> Edge(next, u, v) || (u == a && v == b)
  {
  }

  /** Adding an edge between listed nodes keeps the counters equal to the in-degrees. */
  lemma AddEdgeKeepsWellFormed(ids: seq<uint32>, indeg: map<uint32, int>, next: Adjacency, a: uint32, b: uint32)
    requires WellFormed(ids, indeg, next) && a in ids && b in ids
    ensures WellFormed(ids, indeg[b := InOf(indeg, b) + 1], next[a := Succs(next, a) + [b]])
  {
    var next' := next[a := Succs(next, a) + [b]];
    TargetsAddEdge(ids, next, a, b);
    CountsOneMore(indeg, Targets(ids, next), b);
    forall u, v | Edge(next', u, v)
      ensures u in ids && v in ids
    {
      EdgeAdded(next, a, b, u, v);
    }
  }

  /** Some subtask depends on v. */
  ghost predicate IsDependency(subtasks: seq<Subtask>, v: uint32) {
    exists s :: s in subtasks && v in s.dependencies
  }

  lemma {:induction false} DependenciesCounted(subtasks: seq<Subtask>, v: uint32)
    ensures AllDependencies(subtasks)[v] > 0 <==> IsDependency(subtasks, v)
  {
    if subtasks != [] {
      var n := |subtasks| - 1;
      DependenciesCounted(subtasks[..n], v);
      assert forall s :: s in subtasks <==> s in subtasks[..n] || s == subtasks[n];
      assert v in subtasks[n].dependencies <==> multiset(subtasks[n].dependencies)[v] > 0;
    }
  }

  /** The nodes of the graph: the subtasks and the dependencies that are missing among them. */
  ghost predicate IsNode(subtasks: seq<Subtask>, v: uint32) {
    v in Ids(subtasks) || IsDependency(subtasks, v)
  }

  /** The missing dependencies, listed. */
  ghost predicate AreMissing(subtasks: seq<Subtask>, missing: seq<uint32>) {
    Distinct(missing) && forall v :: v in missing <==> IsDependency(subtasks, v) && v !in Ids(subtasks)
  }

  lemma MissingDependencies(subtasks: seq<Subtask>) returns (missing: seq<uint32>)
    ensures AreMissing(subtasks, missing)
  {
    missing := ListSet(set v | v in AllDependencies(subtasks) && v !in Ids(subtasks));
    forall v
      ensures v in missing <==> IsDependency(subtasks, v) && v !in Ids(subtasks)
    {
      DependenciesCounted(subtasks, v);
    }
  }

  /** With the missing dependencies listed too, the graph meets the traversal's needs for distinct ids alone. */
  lemma ExtendedGraph(subtasks: seq<Subtask>, indeg: map<uint32, int>, missing: seq<uint32>)
    requires DistinctIds(subtasks) && Counts(indeg, AllDependencies(subtasks)) && AreMissing(subtasks, missing)
    ensures WellFormed(Ids(subtasks) + missing, indeg, DependencyEdges(subtasks))
    ensures forall v :: v in missing ==> InOf(indeg, v) > 0
    ensures forall v :: v in Ids(subtasks) + missing <==> IsNode(subtasks, v)
  {
    var ids, next := Ids(subtasks), DependencyEdges(subtasks);
    DistinctIdsDistinct(subtasks);
    DistinctConcat(ids, missing);
    EdgesStartAtSubtasks(subtasks);
    TargetsAreDependencies(subtasks);
    TargetsOfLeaves(ids, missing, next);
    DependencyEdgesIff(subtasks);
    forall v | v in missing
      ensures InOf(indeg, v) > 0
    {
      DependenciesCounted(subtasks, v);
      assert CountsAt(indeg, AllDependencies(subtasks), v);
    }
    forall u, v | Edge(next, u, v)
      ensures u in ids + missing && v in ids + missing
    {
      assert IsDependency(subtasks, v);
      assert u in ToSet(ids);
    }
  }

  lemma DistinctIdsDistinct(subtasks: seq<Subtask>)
    requires DistinctIds(subtasks)
    ensures Distinct(Ids(subtasks))
  {
    assert forall i :: 0 <= i < |subtasks| ==> Ids(subtasks)[i] == subtasks[i].id;
  }
}
