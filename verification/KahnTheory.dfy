/** Graph-theoretic consequences of a gated traversal of a graph whose counters are its in-degrees. */
module KahnTheory {
  import opened Digraph
  import opened Kahn
  import opened Seqs

  /** All edge occurrences that leave the listed nodes, named by their targets. */
  ghost function Targets(ids: seq<uint32>, next: Adjacency): multiset<uint32> {
    if ids == [] then multiset{} else multiset(Succs(next, ids[0])) + Targets(ids[1..], next)
  }

  /** As Targets, for the listed nodes that belong to sources. */
  ghost function TargetsFrom(ids: seq<uint32>, next: Adjacency, sources: set<uint32>): multiset<uint32> {
    if ids == [] then multiset{}
    else (if ids[0] in sources then multiset(Succs(next, ids[0])) else multiset{})
         + TargetsFrom(ids[1..], next, sources)
  }

  /** What a traversal needs: no repeated node, no edge to or from an unlisted node, counters equal to in-degrees. */
  ghost predicate WellFormed(ids: seq<uint32>, indeg: map<uint32, int>, next: Adjacency) {
    && Distinct(ids)
    && (forall u, v :: Edge(next, u, v) ==> u in ids && v in ids)
    && Counts(indeg, Targets(ids, next))
  }

  /** The nodes whose call was answered with true. */
  ghost function Passed(order: seq<uint32>, answers: seq<bool>): set<uint32>
    requires |order| == |answers|
  {
    set k | 0 <= k < |order| && answers[k] :: order[k]
  }

  ghost predicate AllPassed(next: Adjacency, v: uint32, passed: set<uint32>) {
    forall u :: Edge(next, u, v) ==> u in passed
  }

  // ----- counting edges

  lemma {:induction false} TargetsFromAdd(ids: seq<uint32>, next: Adjacency, sources: set<uint32>, u: uint32)
    requires Distinct(ids) && u !in sources
    ensures TargetsFrom(ids, next, sources + {u})
         == TargetsFrom(ids, next, sources) + if u in ids then multiset(Succs(next, u)) else multiset{}
  {
    if ids != [] {
      TargetsFromAdd(ids[1..], next, sources, u);
      assert u in ids <==> u == ids[0] || u in ids[1..];
    }
  }

  lemma {:induction false} TargetsFromFull(ids: seq<uint32>, next: Adjacency, sources: set<uint32>, v: uint32)
    ensures TargetsFrom(ids, next, sources)[v] <= Targets(ids, next)[v]
    ensures TargetsFrom(ids, next, sources)[v] == Targets(ids, next)[v]
            <==> forall u :: u in ids && Edge(next, u, v) ==> u in sources
  {
    if ids != [] {
      TargetsFromFull(ids[1..], next, sources, v);
      assert multiset(Succs(next, ids[0]))[v] > 0 <==> Edge(next, ids[0], v);
      assert forall u :: u in ids <==> u == ids[0] || u in ids[1..];
    }
  }

  lemma {:induction false} ReleasedIsTargetsFrom(ids: seq<uint32>, next: Adjacency,
                                                 order: seq<uint32>, answers: seq<bool>)
    requires |order| == |answers|
    requires Distinct(ids) && Distinct(order)
    requires forall v :: v in order ==> v in ids
    ensures Released(next, order, answers) == TargetsFrom(ids, next, Passed(order, answers))
  {
    if order == [] {
      assert Passed(order, answers) == {};
      TargetsFromNone(ids, next);
    } else {
      var n := |order| - 1;
      var before := Passed(order[..n], answers[..n]);
      ReleasedIsTargetsFrom(ids, next, order[..n], answers[..n]);
      PassedSnoc(order, answers);
      if answers[n] {
        TargetsFromAdd(ids, next, before, order[n]);
      }
    }
  }

  lemma PassedSnoc(order: seq<uint32>, answers: seq<bool>)
    requires |order| == |answers| > 0 && Distinct(order)
    ensures var n := |order| - 1;
            var before := Passed(order[..n], answers[..n]);
            order[n] !in before && Passed(order, answers) == if answers[n] then before + {order[n]} else before
  {
  }

  lemma {:induction false} TargetsFromNone(ids: seq<uint32>, next: Adjacency)
    ensures TargetsFrom(ids, next, {}) == multiset{}
  {
    if ids != [] {
      TargetsFromNone(ids[1..], next);
    }
  }

  lemma {:induction false} TargetsHasEdge(ids: seq<uint32>, next: Adjacency, v: uint32)
    ensures Targets(ids, next)[v] > 0 <==> exists u :: u in ids && Edge(next, u, v)
  {
    if ids != [] {
      TargetsHasEdge(ids[1..], next, v);
      assert multiset(Succs(next, ids[0]))[v] > 0 <==> Edge(next, ids[0], v);
      assert forall u :: u in ids <==> u == ids[0] || u in ids[1..];
    }
  }

  // ----- the order of the calls

  lemma CallsAreListed(ids: seq<uint32>, in0: map<uint32, int>, next: Adjacency,
                       order: seq<uint32>, answers: seq<bool>)
    requires WellFormed(ids, in0, next) && KahnRun(ids, in0, next, order, answers)
    ensures Distinct(order)
    ensures forall v :: v in order ==> v in ids
  {
    forall v
      ensures multiset(order)[v] <= 1
      ensures v in order ==> v in ids
    {
      DistinctMultiplicity(ids, v);
      assert CountsAt(in0, Targets(ids, next), v);
      assert v in order ==> multiset(order)[v] > 0;
      TargetsHasEdge(ids, next, v);
    }
    MultiplicityDistinct(order);
  }

  /** All edge occurrences into v are released exactly when all its predecessors have passed. */
  lemma ReleasedFullyIff(ids: seq<uint32>, in0: map<uint32, int>, next: Adjacency,
                         order: seq<uint32>, answers: seq<bool>, v: uint32)
    requires WellFormed(ids, in0, next) && |order| == |answers| && Distinct(order)
    requires forall u :: u in order ==> u in ids
    ensures Released(next, order, answers)[v] <= InOf(in0, v)
    ensures Released(next, order, answers)[v] == InOf(in0, v) <==> AllPassed(next, v, Passed(order, answers))
  {
    ReleasedIsTargetsFrom(ids, next, order, answers);
    TargetsFromFull(ids, next, Passed(order, answers), v);
    assert CountsAt(in0, Targets(ids, next), v);
  }

  /**
   * A node is called at most once, and when it is called every direct predecessor has been called and has answered
   * true.
   */
  lemma CallOrder(ids: seq<uint32>, in0: map<uint32, int>, next: Adjacency, order: seq<uint32>, answers: seq<bool>)
    requires WellFormed(ids, in0, next) && KahnRun(ids, in0, next, order, answers)
    ensures Distinct(order)
    ensures forall v :: v in order ==> v in ids
    ensures forall k :: 0 <= k < |order| ==> AllPassed(next, order[k], Passed(order[..k], answers[..k]))
  {
    CallsAreListed(ids, in0, next, order, answers);
    forall k | 0 <= k < |order|
      ensures AllPassed(next, order[k], Passed(order[..k], answers[..k]))
    {
      ReleasedFullyIff(ids, in0, next, order[..k], answers[..k], order[k]);
      assert Ready(ids, in0, order[k], Released(next, order[..k], answers[..k])[order[k]]);
    }
  }

  /** The calls are exactly the listed nodes all of whose direct predecessors were called and answered true. */
  lemma CallsAreFixpoint(ids: seq<uint32>, in0: map<uint32, int>, next: Adjacency,
                         order: seq<uint32>, answers: seq<bool>)
    requires WellFormed(ids, in0, next) && KahnRun(ids, in0, next, order, answers)
    ensures forall v :: v in order <==> v in ids && AllPassed(next, v, Passed(order, answers))
  {
    CallsAreListed(ids, in0, next, order, answers);
    forall v
      ensures v in order <==> v in ids && AllPassed(next, v, Passed(order, answers))
    {
      CalledOnceReleased(ids, in0, next, order, answers, v);
    }
  }

  lemma CalledOnceReleased(ids: seq<uint32>, in0: map<uint32, int>, next: Adjacency,
                           order: seq<uint32>, answers: seq<bool>, v: uint32)
    requires WellFormed(ids, in0, next) && KahnRun(ids, in0, next, order, answers) && Distinct(order)
    requires forall u :: u in order ==> u in ids
    ensures v in order <==> v in ids && AllPassed(next, v, Passed(order, answers))
  {
    ReleasedFullyIff(ids, in0, next, order, answers, v);
    DistinctMultiplicity(ids, v);
    DistinctMultiplicity(order, v);
    TargetsHasEdge(ids, next, v);
    assert CountsAt(in0, Targets(ids, next), v);
    assert multiset(order)[v] == Entries(ids, in0, v, Released(next, order, answers)[v]);
  }

  // ----- callbacks that answer by node alone

  ghost predicate AnswersByNode(a: uint32 -> bool, order: seq<uint32>, answers: seq<bool>) {
    |order| == |answers| && forall k :: 0 <= k < |order| ==> answers[k] == a(order[k])
  }

  /** All direct predecessors of v belong to nodes and answer true. */
  ghost predicate AllowedBy(next: Adjacency, a: uint32 -> bool, v: uint32, nodes: set<uint32>) {
    forall u :: Edge(next, u, v) ==> u in nodes && a(u)
  }

  /** Every listed node that is allowed by nodes belongs to them. */
  ghost predicate ClosedUnder(ids: seq<uint32>, next: Adjacency, a: uint32 -> bool, nodes: set<uint32>) {
    forall v {:trigger AllowedBy(next, a, v, nodes)} :: v in ids && AllowedBy(next, a, v, nodes) ==> v in nodes
  }

  ghost function ToSet(s: seq<uint32>): set<uint32> {
    set v | v in s
  }

  lemma PassedByNode(a: uint32 -> bool, order: seq<uint32>, answers: seq<bool>, u: uint32)
    requires AnswersByNode(a, order, answers)
    ensures u in Passed(order, answers) <==> u in order && a(u)
  {
  }

  lemma CallsAreClosed(ids: seq<uint32>, in0: map<uint32, int>, next: Adjacency, order: seq<uint32>,
                       answers: seq<bool>, a: uint32 -> bool)
    requires WellFormed(ids, in0, next) && KahnRun(ids, in0, next, order, answers)
    requires AnswersByNode(a, order, answers)
    ensures ClosedUnder(ids, next, a, ToSet(order))
  {
    CallsAreFixpoint(ids, in0, next, order, answers);
    forall v | v in ids && AllowedBy(next, a, v, ToSet(order))
      ensures v in order
    {
      forall u | Edge(next, u, v)
        ensures u in Passed(order, answers)
      {
        PassedByNode(a, order, answers, u);
      }
      assert AllPassed(next, v, Passed(order, answers));
    }
  }

  lemma CallSources(ids: seq<uint32>, in0: map<uint32, int>, next: Adjacency, order: seq<uint32>,
                    answers: seq<bool>, a: uint32 -> bool, k: nat, u: uint32)
    requires WellFormed(ids, in0, next) && KahnRun(ids, in0, next, order, answers)
    requires AnswersByNode(a, order, answers) && k < |order| && Edge(next, u, order[k])
    ensures u in order[..k] && a(u)
  {
    CallOrder(ids, in0, next, order, answers);
    assert AllPassed(next, order[k], Passed(order[..k], answers[..k]));
    assert AnswersByNode(a, order[..k], answers[..k]);
    PassedByNode(a, order[..k], answers[..k], u);
  }

  lemma {:induction false} CallsAreWithin(ids: seq<uint32>, in0: map<uint32, int>, next: Adjacency,
                                          order: seq<uint32>, answers: seq<bool>, a: uint32 -> bool,
                                          nodes: set<uint32>, k: nat)
    requires WellFormed(ids, in0, next) && KahnRun(ids, in0, next, order, answers)
    requires AnswersByNode(a, order, answers) && ClosedUnder(ids, next, a, nodes)
    requires k <= |order|
    ensures forall j :: 0 <= j < k ==> order[j] in nodes
  {
    if k > 0 {
      CallsAreWithin(ids, in0, next, order, answers, a, nodes, k - 1);
      CallsAreListed(ids, in0, next, order, answers);
      var v := order[k - 1];
      forall u | Edge(next, u, v)
        ensures u in nodes && a(u)
      {
        CallSources(ids, in0, next, order, answers, a, k - 1, u);
      }
      assert v in ids && AllowedBy(next, a, v, nodes);
    }
  }

  /** The called nodes are the least set closed under the release rule. */
  lemma CallsAreLeast(ids: seq<uint32>, in0: map<uint32, int>, next: Adjacency, order: seq<uint32>,
                      answers: seq<bool>, a: uint32 -> bool)
    requires WellFormed(ids, in0, next) && KahnRun(ids, in0, next, order, answers)
    requires AnswersByNode(a, order, answers)
    ensures ClosedUnder(ids, next, a, ToSet(order))
    ensures forall nodes :: ClosedUnder(ids, next, a, nodes) ==> ToSet(order) <= nodes
  {
    CallsAreClosed(ids, in0, next, order, answers, a);
    forall nodes | ClosedUnder(ids, next, a, nodes)
      ensures ToSet(order) <= nodes
    {
      CallsAreWithin(ids, in0, next, order, answers, a, nodes, |order|);
    }
  }

  /** Neither the order of ids nor the order or multiplicity within adjacency lists changes which nodes are called. */
  lemma CallsIgnoreListOrder(ids: seq<uint32>, in0: map<uint32, int>, next: Adjacency,
                             order: seq<uint32>, answers: seq<bool>,
                             ids': seq<uint32>, in0': map<uint32, int>, next': Adjacency,
                             order': seq<uint32>, answers': seq<bool>, a: uint32 -> bool)
    requires WellFormed(ids, in0, next) && KahnRun(ids, in0, next, order, answers)
    requires WellFormed(ids', in0', next') && KahnRun(ids', in0', next', order', answers')
    requires AnswersByNode(a, order, answers) && AnswersByNode(a, order', answers')
    requires forall v :: v in ids <==> v in ids'
    requires forall u, v :: Edge(next, u, v) <==> Edge(next', u, v)
    ensures ToSet(order) == ToSet(order')
    ensures |order| == |order'|
  {
    CallsWithinOther(ids, in0, next, order, answers, ids', in0', next', order', answers', a);
    CallsWithinOther(ids', in0', next', order', answers', ids, in0, next, order, answers, a);
    CallsAreListed(ids, in0, next, order, answers);
    CallsAreListed(ids', in0', next', order', answers');
    DistinctSize(order);
    DistinctSize(order');
  }

  lemma CallsWithinOther(ids: seq<uint32>, in0: map<uint32, int>, next: Adjacency,
                         order: seq<uint32>, answers: seq<bool>,
                         ids': seq<uint32>, in0': map<uint32, int>, next': Adjacency,
                         order': seq<uint32>, answers': seq<bool>, a: uint32 -> bool)
    requires WellFormed(ids, in0, next) && KahnRun(ids, in0, next, order, answers)
    requires WellFormed(ids', in0', next') && KahnRun(ids', in0', next', order', answers')
    requires AnswersByNode(a, order, answers) && AnswersByNode(a, order', answers')
    requires forall v :: v in ids <==> v in ids'
    requires forall u, v :: Edge(next, u, v) <==> Edge(next', u, v)
    ensures ToSet(order) <= ToSet(order')
  {
    CallsAreClosed(ids', in0', next', order', answers', a);
    ClosedIgnoresListOrder(ids, next, ids', next', a, ToSet(order'));
    CallsAreWithin(ids, in0, next, order, answers, a, ToSet(order'), |order|);
  }

  lemma ClosedIgnoresListOrder(ids: seq<uint32>, next: Adjacency, ids': seq<uint32>, next': Adjacency,
                               a: uint32 -> bool, nodes: set<uint32>)
    requires forall v :: v in ids <==> v in ids'
    requires forall u, v :: Edge(next, u, v) <==> Edge(next', u, v)
    requires ClosedUnder(ids', next', a, nodes)
    ensures ClosedUnder(ids, next, a, nodes)
  {
    forall v | v in ids && AllowedBy(next, a, v, nodes)
      ensures v in nodes
    {
      assert AllowedBy(next', a, v, nodes);
    }
  }

  lemma {:induction false} DistinctSize(s: seq<uint32>)
    requires Distinct(s)
    ensures |ToSet(s)| == |s|
  {
    if s != [] {
      DistinctSize(s[1..]);
      assert ToSet(s) == {s[0]} + ToSet(s[1..]);
    }
  }

  /** All ancestors of v answer true and no cycle leads to v. */
  ghost predicate SoundPast(next: Adjacency, a: uint32 -> bool, v: uint32) {
    && !BehindCycle(next, v)
    && forall u :: Ancestor(next, u, v) ==> a(u)
  }

  lemma SoundPastFromPredecessors(next: Adjacency, a: uint32 -> bool, v: uint32)
    requires forall w :: Edge(next, w, v) ==> a(w) && SoundPast(next, a, w)
    ensures SoundPast(next, a, v)
  {
    forall u | Ancestor(next, u, v)
      ensures a(u)
    {
      var p :| |p| >= 2 && PathBetween(next, p, u, v);
      var w := p[|p| - 2];
      assert Edge(next, w, v);
      PathPrefix(next, p, |p| - 1);
      assert PathBetween(next, p[..|p| - 1], u, w);
    }
    if BehindCycle(next, v) {
      var p, c :| IsCycle(next, c) && PathBetween(next, p, c[0], v);
      var q := if |p| == 1 then c else p;
      var w := q[|q| - 2];
      assert Edge(next, w, v);
      PathPrefix(next, q, |q| - 1);
      assert PathBetween(next, q[..|q| - 1], c[0], w);
    }
  }

  lemma {:induction false} CalledHasSoundPast(ids: seq<uint32>, in0: map<uint32, int>, next: Adjacency,
                                              order: seq<uint32>, answers: seq<bool>, a: uint32 -> bool, k: nat)
    requires WellFormed(ids, in0, next) && KahnRun(ids, in0, next, order, answers)
    requires AnswersByNode(a, order, answers) && k < |order|
    ensures SoundPast(next, a, order[k])
  {
    forall w | Edge(next, w, order[k])
      ensures a(w) && SoundPast(next, a, w)
    {
      CallSources(ids, in0, next, order, answers, a, k, w);
      var j: nat :| j < k && order[j] == w;
      CalledHasSoundPast(ids, in0, next, order, answers, a, j);
    }
    SoundPastFromPredecessors(next, a, order[k]);
  }

  lemma UncalledHasUncalledSource(ids: seq<uint32>, in0: map<uint32, int>, next: Adjacency,
                                  order: seq<uint32>, answers: seq<bool>, a: uint32 -> bool, x: uint32)
    returns (u: uint32)
    requires WellFormed(ids, in0, next) && KahnRun(ids, in0, next, order, answers)
    requires AnswersByNode(a, order, answers)
    requires x in ids && x !in order
    ensures Edge(next, u, x) && u in ids && (u !in order || !a(u))
  {
    CallsAreFixpoint(ids, in0, next, order, answers);
    assert !AllPassed(next, x, Passed(order, answers));
    u :| Edge(next, u, x) && u !in Passed(order, answers);
    PassedByNode(a, order, answers, u);
  }

  lemma UncalledIsBehindCycle(ids: seq<uint32>, in0: map<uint32, int>, next: Adjacency,
                              order: seq<uint32>, answers: seq<bool>, a: uint32 -> bool, v: uint32)
    requires WellFormed(ids, in0, next) && KahnRun(ids, in0, next, order, answers)
    requires AnswersByNode(a, order, answers)
    requires v in ids && v !in order && forall u :: Ancestor(next, u, v) ==> a(u)
    ensures BehindCycle(next, v)
  {
    var uncalled := set x | x in ids && x !in order && (x == v || Ancestor(next, x, v));
    forall x | x in uncalled
      ensures HasSource(next, uncalled, x)
    {
      var u := UncalledHasUncalledSource(ids, in0, next, order, answers, a, x);
      EdgeExtendsAncestor(next, u, x, v);
    }
    SourcelessIsBehindCycle(next, uncalled, v);
  }

  /**
   * Exactly which nodes are called: those whose ancestors all answer true and that no cycle leads to. In particular no
   * node of a cycle is ever released.
   */
  lemma CalledIff(ids: seq<uint32>, in0: map<uint32, int>, next: Adjacency,
                  order: seq<uint32>, answers: seq<bool>, a: uint32 -> bool, v: uint32)
    requires WellFormed(ids, in0, next) && KahnRun(ids, in0, next, order, answers)
    requires AnswersByNode(a, order, answers)
    ensures v in order <==> v in ids && SoundPast(next, a, v)
  {
    CallOrder(ids, in0, next, order, answers);
    if v in order {
      var k: nat :| k < |order| && order[k] == v;
      CalledHasSoundPast(ids, in0, next, order, answers, a, k);
    } else if v in ids && forall u :: Ancestor(next, u, v) ==> a(u) {
      UncalledIsBehindCycle(ids, in0, next, order, answers, a, v);
    }
  }

  /** The two algorithms agree: a traversal never refused calls every node exactly if the search finds no cycle. */
  lemma TraversalAgreesWithSearch(ids: seq<uint32>, in0: map<uint32, int>, next: Adjacency,
                                  order: seq<uint32>, answers: seq<bool>)
    requires WellFormed(ids, in0, next) && KahnRun(ids, in0, next, order, answers)
    requires forall k :: 0 <= k < |answers| ==> answers[k]
    ensures (forall v :: v in ids ==> v in order) <==> Acyclic(ids, next)
  {
    forall v
      ensures v in order <==> v in ids && !BehindCycle(next, v)
    {
      CalledIff(ids, in0, next, order, answers, u => true, v);
    }
    AcyclicIff(ids, next);
  }

  // ----- edges to nodes that are not listed

  lemma {:induction false} TargetsSnoc(ids: seq<uint32>, next: Adjacency, v: uint32)
    ensures Targets(ids + [v], next) == Targets(ids, next) + multiset(Succs(next, v))
  {
    if ids != [] {
      TargetsSnoc(ids[1..], next, v);
      assert (ids + [v])[1..] == ids[1..] + [v];
    } else {
      assert ([] + [v])[1..] == [];
    }
  }

  lemma {:induction false} TargetsOfLeaves(ids: seq<uint32>, leaves: seq<uint32>, next: Adjacency)
    requires forall v :: v in leaves ==> Succs(next, v) == []
    ensures Targets(ids + leaves, next) == Targets(ids, next)
  {
    if leaves == [] {
      assert ids + leaves == ids;
    } else {
      var n := |leaves| - 1;
      TargetsOfLeaves(ids, leaves[..n], next);
      TargetsSnoc(ids + leaves[..n], next, leaves[n]);
      assert ids + leaves == ids + leaves[..n] + [leaves[n]];
    }
  }

  /** It makes no difference to a traversal whether a node that some edge leads to is listed. */
  lemma ListingLeaves(ids: seq<uint32>, leaves: seq<uint32>, in0: map<uint32, int>, next: Adjacency,
                      order: seq<uint32>, answers: seq<bool>)
    requires KahnRun(ids, in0, next, order, answers)
    requires forall v :: v in leaves ==> InOf(in0, v) > 0
    ensures KahnRun(ids + leaves, in0, next, order, answers)
  {
    forall k | 0 <= k < |order|
      ensures Ready(ids + leaves, in0, order[k], Released(next, order[..k], answers[..k])[order[k]])
    {
      assert Ready(ids, in0, order[k], Released(next, order[..k], answers[..k])[order[k]]);
    }
    forall v
      ensures multiset(order)[v] == Entries(ids + leaves, in0, v, Released(next, order, answers)[v])
    {
      assert multiset(ids + leaves) == multiset(ids) + multiset(leaves);
    }
  }
}
