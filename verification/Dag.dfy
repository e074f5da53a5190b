/** The subtask graph (model/dag.go): cycle test, gated traversal and construction. */
module Dag {
  import opened Digraph
  import opened Seqs
  import opened Kahn

  function IsSet(m: map<uint32, bool>, v: uint32): bool {
    v in m && m[v]
  }

  /** Exactly the listed nodes are marked. */
  ghost predicate Marks(m: map<uint32, bool>, s: seq<uint32>) {
    forall v :: IsSet(m, v) <==> v in s
  }

  lemma MarksSnoc(m: map<uint32, bool>, s: seq<uint32>, v: uint32)
    requires Marks(m, s)
    ensures Marks(m[v := true], s + [v])
  {
  }

  /** The maps vis and stk of a depth-first search that stands at the end of path. */
  ghost predicate Searching(next: Adjacency, universe: set<uint32>, vis: map<uint32, bool>, stk: map<uint32, bool>,
                            path: seq<uint32>, finished: seq<uint32>) {
    && Marks(stk, path)
    && Marks(vis, path + finished)
    && Exploration(next, universe, path, finished)
  }

  lemma SearchEnters(next: Adjacency, universe: set<uint32>, vis: map<uint32, bool>, stk: map<uint32, bool>,
                     path: seq<uint32>, finished: seq<uint32>, v: uint32)
    requires Searching(next, universe, vis, stk, path, finished)
    requires v in universe && !IsSet(vis, v)
    requires path == [] || Edge(next, path[|path| - 1], v)
    ensures Searching(next, universe, vis[v := true], stk[v := true], path + [v], finished)
  {
    assert v !in path + finished;
    assert forall w :: w in path + [v] + finished <==> w == v || w in path + finished;
    ExplorationEnters(next, universe, path, finished, v);
  }

  lemma SearchLeaves(next: Adjacency, universe: set<uint32>, vis: map<uint32, bool>, stk: map<uint32, bool>,
                     path: seq<uint32>, finished: seq<uint32>, v: uint32)
    requires Searching(next, universe, vis, stk, path + [v], finished)
    requires forall w :: w in Succs(next, v) ==> w in finished
    ensures Searching(next, universe, vis, stk[v := false], path, finished + [v])
  {
    var longer := path + [v];
    assert longer[|path|] == v;
    ExplorationLeaves(next, universe, path, finished, v);
    forall i | 0 <= i < |path|
      ensures longer[i] == path[i] != v
    {
      assert longer[i] != longer[|path|];
    }
    assert forall w :: w in longer <==> w == v || w in path;
    assert forall w :: w in longer + finished <==> w in path + (finished + [v]);
  }

  /** The nodes not yet entered, which bounds the depth of the search. */
  ghost function Unexplored(universe: set<uint32>, path: seq<uint32>, finished: seq<uint32>): set<uint32> {
    universe - set v | v in path + finished
  }

  lemma UnexploredShrinks(universe: set<uint32>, path: seq<uint32>, finished: seq<uint32>, v: uint32,
                          finished': seq<uint32>)
    requires v in universe && v !in path + finished
    requires finished <= finished'
    ensures Unexplored(universe, path + [v], finished') < Unexplored(universe, path, finished)
  {
    assert v in path + [v] + finished';
    assert forall w :: w in path + finished ==> w in path + [v] + finished';
    assert v in Unexplored(universe, path, finished);
  }

  /** The state that the closure isCyclic captures: the maps vis and stk, and ghost views of them. */
  class CycleSearch {
    const next: Adjacency
    var vis: map<uint32, bool>
    var stk: map<uint32, bool>
    ghost var path: seq<uint32>      // the nodes being explored, outermost first
    ghost var finished: seq<uint32>  // the nodes fully explored, in the order of finishing
    ghost const universe: set<uint32>

    ghost predicate Valid()
      reads this
    {
      Searching(next, universe, vis, stk, path, finished)
    }

    constructor (next: Adjacency, ghost universe: set<uint32>)
      requires forall u, v :: u in universe && Edge(next, u, v) ==> v in universe
      ensures Valid() && path == [] && finished == []
      ensures this.next == next && this.universe == universe
    {
      this.next := next;
      this.universe := universe;
      vis, stk := map[], map[];
      path, finished := [], [];
    }

    /** Explores node; the answer is true exactly when the exploration closes a cycle. */
    method IsCyclic(node: uint32) returns (cyclic: bool)
      requires Valid()
      requires node in universe && !IsSet(vis, node)
      requires path == [] || Edge(next, path[|path| - 1], node)
      modifies this
      ensures cyclic ==> ReachesCycle(next, (old(path) + [node])[0])
      ensures !cyclic ==> Valid() && path == old(path) && old(finished) <= finished && node in finished
      decreases Unexplored(universe, path, finished)
    {
      ghost var outer, done := path, finished;
      SearchEnters(next, universe, vis, stk, path, finished, node);
      stk := stk[node := true];
      vis := vis[node := true];
      path := path + [node];
      var successors := Succs(next, node);
      for i := 0 to |successors|
        invariant Valid() && path == outer + [node] && done <= finished
        invariant forall v :: v in successors[..i] ==> v in finished
      {
        var nxt := successors[i];
        TakeOneMore(successors, i);
        assert Edge(next, node, nxt);
        if IsSet(stk, nxt) {
          ClosesCycle(next, path, nxt);
          return true;
        }
        if !IsSet(vis, nxt) {
          UnexploredShrinks(universe, outer, done, node, finished);
          var deeper := IsCyclic(nxt);
          if deeper {
            return true;
          }
        }
      }
      TakeAll(successors);
      SearchLeaves(next, universe, vis, stk, outer, finished, node);
      stk := stk[node := false];
      path, finished := outer, finished + [node];
      return false;
    }
  }

  function Lookup<T>(models: map<uint32, T>, zero: T, v: uint32): T {
    if v in models then models[v] else zero
  }

  /** The answers are those that f gives, call by call. */
  ghost predicate AnsweredBy<T>(f: (seq<uint32>, T) -> bool, models: map<uint32, T>, zero: T,
                                order: seq<uint32>, answers: seq<bool>) {
    && |order| == |answers|
    && forall k :: 0 <= k < |order| ==> answers[k] == f(order[..k], Lookup(models, zero, order[k]))
  }

  lemma AnsweredBySnoc<T>(f: (seq<uint32>, T) -> bool, models: map<uint32, T>, zero: T,
                          order: seq<uint32>, answers: seq<bool>, id: uint32, pass: bool)
    requires AnsweredBy(f, models, zero, order, answers)
    requires pass == f(order, Lookup(models, zero, id))
    ensures AnsweredBy(f, models, zero, order + [id], answers + [pass])
  {
    var order' := order + [id];
    forall k | 0 <= k < |order'|
      ensures order'[..k] == if k < |order| then order[..k] else order
    {
    }
  }

  class Graph<T> {
    var IDs: seq<uint32>
    var Models: map<uint32, T>
    var In: map<uint32, int>
    var Next: Adjacency
    const zero: T  // the zero value of T, which a look-up of a missing id returns

    constructor (zero: T)
      ensures IDs == [] && Models == map[] && In == map[] && Next == map[] && this.zero == zero
    {
      IDs, Models, In, Next, this.zero := [], map[], map[], map[], zero;
    }

    method AddEdge(a: uint32, b: uint32)
      modifies this`Next, this`In
      ensures Next == old(Next)[a := Succs(old(Next), a) + [b]]
      ensures In == old(In)[b := InOf(old(In), b) + 1]
    {
      if a !in Next {
        Next := Next[a := []];
      }
      Next := Next[a := Next[a] + [b]];
      In := In[b := InOf(In, b) + 1];
    }

    /** True exactly when no cycle can be reached from IDs; edges may lead outside IDs. */
    method IsDAG() returns (acyclic: bool)
      ensures acyclic <==> Acyclic(IDs, Next)
    {
      var search := new CycleSearch(Next, Mentioned(IDs, Next));
      for i := 0 to |IDs|
        invariant search.Valid() && search.path == [] && search.next == Next
        invariant search.universe == Mentioned(IDs, Next) && fresh(search)
        invariant forall j :: 0 <= j < i ==> IDs[j] in search.finished
      {
        if !IsSet(search.vis, IDs[i]) {
          var cyclic := search.IsCyclic(IDs[i]);
          if cyclic {
            return false;
          }
        }
      }
      forall v | v in IDs
        ensures !ReachesCycle(Next, v)
      {
        FinishedReachesNoCycle(Next, search.finished, v);
      }
      return true;
    }

    /** Takes the edges to nexts away and lets the nodes that have none left enter the queue. */
    method Release(nexts: seq<uint32>, waiting: seq<uint32>,
                   ghost in0: map<uint32, int>, ghost visited: multiset<uint32>, ghost before: multiset<uint32>)
      returns (queue: seq<uint32>)
      requires Balanced(IDs, in0, In, visited, waiting, before)
      modifies this`In
      ensures Releasing(IDs, in0, In, visited, waiting, queue, before, nexts)
      ensures |Positive(In)| + |queue| == |Positive(old(In))| + |waiting|
    {
      queue := waiting;
      ReleasingStarts(IDs, in0, In, visited, waiting, before, nexts);
      for i := 0 to |nexts|
        invariant Releasing(IDs, in0, In, visited, waiting, queue, before, nexts[..i])
        invariant |Positive(In)| + |queue| == |Positive(old(In))| + |waiting|
      {
        var nxt := nexts[i];
        ReleasingStep(IDs, in0, In, visited, waiting, queue, before, nexts, i);
        In := In[nxt := InOf(In, nxt) - 1];
        if In[nxt] == 0 {
          queue := queue + [nxt];
        }
      }
      TakeAll(nexts);
    }

    /**
     * Visits nodes in the order of a first-in first-out queue and calls f on each; f may answer from everything it
     * saw before, so it gets the nodes of its earlier calls. The out-parameter order lists the calls.
     */
    method Traverse(f: (seq<uint32>, T) -> bool)
      returns (vis: map<uint32, bool>, order: seq<uint32>, ghost answers: seq<bool>)
      modifies this`In
      ensures KahnRun(IDs, old(In), Next, order, answers)
      ensures order == EntryOrder(IDs, old(In), Next, order, answers)
      ensures AnsweredBy(f, Models, zero, order, answers)
      ensures Marks(vis, order)
      ensures Dropped(old(In), In, Released(Next, order, answers))
    {
      ghost var in0 := In;
      var queue: seq<uint32> := [];
      vis, order, answers := map[], [], [];
      for i := 0 to |IDs|
        invariant In == in0 && queue == Sources(IDs[..i], in0)
      {
        TakeOneMore(IDs, i);
        assert IDs[..i + 1][..i] == IDs[..i];
        if InOf(In, IDs[i]) == 0 {
          queue := queue + [IDs[i]];
        }
      }
      TakeAll(IDs);
      TraversalStarts(IDs, In, Next, queue);

      while queue != []
        invariant Traversing(IDs, in0, In, Next, order, answers, queue)
        invariant AnsweredBy(f, Models, zero, order, answers)
        invariant Marks(vis, order)
        decreases |Positive(In)| + |queue|
      {
        ghost var waiting, before := queue, In;
        var id := queue[0];
        queue := queue[1..];
        MarksSnoc(vis, order, id);
        vis := vis[id := true];
        var pass := f(order, Lookup(Models, zero, id));
        AnsweredBySnoc(f, Models, zero, order, answers, id, pass);
        if pass {
          ghost var released := Released(Next, order, answers);
          VisitStarts(IDs, in0, In, multiset(order), waiting, released);
          queue := Release(Succs(Next, id), queue, in0, multiset(order) + multiset{id}, released);
        }
        TraversalStep(IDs, in0, before, In, Next, order, answers, waiting, queue, pass);
        order, answers := order + [id], answers + [pass];
      }
      TraversalEnds(IDs, in0, In, Next, order, answers);
    }
  }
}
