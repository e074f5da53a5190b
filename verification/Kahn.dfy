/** What a gated first-in first-out traversal computes, stated on its record of calls and answers. */
module Kahn {
  import opened Digraph
  import opened Seqs

  function InOf(indeg: map<uint32, int>, v: uint32): int {
    if v in indeg then indeg[v] else 0
  }

  /** The counters count these edge occurrences, named by their targets. */
  ghost predicate Counts(indeg: map<uint32, int>, edges: multiset<uint32>) {
    forall v {:trigger CountsAt(indeg, edges, v)} :: CountsAt(indeg, edges, v)
  }

  ghost predicate CountsAt(indeg: map<uint32, int>, edges: multiset<uint32>, v: uint32) {
    InOf(indeg, v) == edges[v]
  }

  lemma CountsOneMore(indeg: map<uint32, int>, edges: multiset<uint32>, b: uint32)
    requires Counts(indeg, edges)
    ensures Counts(indeg[b := InOf(indeg, b) + 1], edges + multiset{b})
  {
    var indeg', edges' := indeg[b := InOf(indeg, b) + 1], edges + multiset{b};
    forall v
      ensures CountsAt(indeg', edges', v)
    {
      assert CountsAt(indeg, edges, v) && CountsAt(indeg, edges, b);
    }
  }

  function Positive(indeg: map<uint32, int>): set<uint32> {
    set v | v in indeg && indeg[v] > 0
  }

  /** The edge occurrences, named by their targets, that the calls answered with true have released. */
  ghost function Released(next: Adjacency, order: seq<uint32>, answers: seq<bool>): multiset<uint32>
    requires |order| == |answers|
  {
    if order == [] then multiset{}
    else
      Released(next, order[..|order| - 1], answers[..|order| - 1])
      + if answers[|order| - 1] then multiset(Succs(next, order[|order| - 1])) else multiset{}
  }

  lemma ReleasedSnoc(next: Adjacency, order: seq<uint32>, answers: seq<bool>, id: uint32, pass: bool)
    requires |order| == |answers|
    ensures Released(next, order + [id], answers + [pass])
         == Released(next, order, answers) + if pass then multiset(Succs(next, id)) else multiset{}
  {
    assert (order + [id])[..|order|] == order && (answers + [pass])[..|order|] == answers;
  }

  /** Every counter has dropped by the number of edge occurrences released. */
  ghost predicate Dropped(in0: map<uint32, int>, now: map<uint32, int>, released: multiset<uint32>) {
    forall v :: InOf(now, v) == InOf(in0, v) - released[v]
  }

  /** How often v has entered the queue once r of its incoming edge occurrences are released. */
  ghost function Entries(ids: seq<uint32>, in0: map<uint32, int>, v: uint32, r: nat): nat {
    if InOf(in0, v) == 0 then multiset(ids)[v]
    else if 0 < InOf(in0, v) <= r then 1 else 0
  }

  /** v may be visited once r of its incoming edge occurrences are released. */
  ghost predicate Ready(ids: seq<uint32>, in0: map<uint32, int>, v: uint32, r: nat) {
    (InOf(in0, v) == 0 && v in ids) || 0 < InOf(in0, v) <= r
  }

  /** Every call was ready when it was made. */
  ghost predicate CallsReady(ids: seq<uint32>, in0: map<uint32, int>, next: Adjacency,
                             order: seq<uint32>, answers: seq<bool>)
    requires |order| == |answers|
  {
    forall k :: 0 <= k < |order| ==> Ready(ids, in0, order[k], Released(next, order[..k], answers[..k])[order[k]])
  }

  /** The calls in order, with these answers, are a complete traversal. Nothing is assumed about the graph. */
  ghost predicate KahnRun(ids: seq<uint32>, in0: map<uint32, int>, next: Adjacency,
                          order: seq<uint32>, answers: seq<bool>) {
    && |order| == |answers|
    && CallsReady(ids, in0, next, order, answers)
    && (forall v :: multiset(order)[v] == Entries(ids, in0, v, Released(next, order, answers)[v]))
  }

  /** Where v stands after these visits and releases: its counter, its entries into the queue, its readiness. */
  ghost predicate Account(ids: seq<uint32>, in0: map<uint32, int>, now: map<uint32, int>,
                          visited: multiset<uint32>, queue: seq<uint32>, released: multiset<uint32>, v: uint32) {
    && visited[v] + multiset(queue)[v] == Entries(ids, in0, v, released[v])
    && (v in queue ==> Ready(ids, in0, v, released[v]))
    && InOf(now, v) == InOf(in0, v) - released[v]
  }

  /** The counters and the queue after these visits and releases. */
  ghost predicate Balanced(ids: seq<uint32>, in0: map<uint32, int>, now: map<uint32, int>,
                           visited: multiset<uint32>, queue: seq<uint32>, released: multiset<uint32>) {
    forall v {:trigger Account(ids, in0, now, visited, queue, released, v)} ::
      Account(ids, in0, now, visited, queue, released, v)
  }

  lemma QueueStarts(ids: seq<uint32>, in0: map<uint32, int>, queue: seq<uint32>,
                    visited: multiset<uint32>, released: multiset<uint32>)
    requires forall v :: multiset(queue)[v] == if InOf(in0, v) == 0 then multiset(ids)[v] else 0
    requires visited == multiset{} && released == multiset{}
    ensures Balanced(ids, in0, in0, visited, queue, released)
  {
  }

  lemma VisitStarts(ids: seq<uint32>, in0: map<uint32, int>, now: map<uint32, int>,
                    visited: multiset<uint32>, queue: seq<uint32>, released: multiset<uint32>)
    requires queue != [] && Balanced(ids, in0, now, visited, queue, released)
    ensures Balanced(ids, in0, now, visited + multiset{queue[0]}, queue[1..], released)
    ensures Ready(ids, in0, queue[0], released[queue[0]])
  {
    HeadFirst(queue);
    forall v
      ensures Account(ids, in0, now, visited + multiset{queue[0]}, queue[1..], released, v)
      ensures v == queue[0] ==> Ready(ids, in0, v, released[v])
    {
      assert Account(ids, in0, now, visited, queue, released, v);
    }
  }

  lemma QueueEnds(ids: seq<uint32>, in0: map<uint32, int>, now: map<uint32, int>,
                  visited: multiset<uint32>, released: multiset<uint32>)
    requires Balanced(ids, in0, now, visited, [], released)
    ensures forall v :: visited[v] == Entries(ids, in0, v, released[v])
    ensures forall v :: InOf(now, v) == InOf(in0, v) - released[v]
  {
    forall v
      ensures visited[v] == Entries(ids, in0, v, released[v])
      ensures InOf(now, v) == InOf(in0, v) - released[v]
    {
      assert Account(ids, in0, now, visited, [], released, v);
    }
  }

  /** Releasing one more edge occurrence, into nxt, keeps the balance. */
  lemma ReleaseStep(ids: seq<uint32>, in0: map<uint32, int>, now: map<uint32, int>,
                    visited: multiset<uint32>, queue: seq<uint32>, released: multiset<uint32>, nxt: uint32)
    requires Balanced(ids, in0, now, visited, queue, released)
    ensures var now' := now[nxt := InOf(now, nxt) - 1];
            var queue' := if now'[nxt] == 0 then queue + [nxt] else queue;
            && Balanced(ids, in0, now', visited, queue', released + multiset{nxt})
            && |Positive(now')| + |queue'| == |Positive(now)| + |queue|
  {
    var now' := now[nxt := InOf(now, nxt) - 1];
    var queue' := if now'[nxt] == 0 then queue + [nxt] else queue;
    assert Account(ids, in0, now, visited, queue, released, nxt);
    assert Positive(now') == if now'[nxt] == 0 then Positive(now) - {nxt} else Positive(now);
    forall v
      ensures Account(ids, in0, now', visited, queue', released + multiset{nxt}, v)
    {
      assert Account(ids, in0, now, visited, queue, released, v);
    }
  }

  lemma CallsReadySnoc(ids: seq<uint32>, in0: map<uint32, int>, next: Adjacency,
                       order: seq<uint32>, answers: seq<bool>, id: uint32, pass: bool)
    requires |order| == |answers| && CallsReady(ids, in0, next, order, answers)
    requires Ready(ids, in0, id, Released(next, order, answers)[id])
    ensures CallsReady(ids, in0, next, order + [id], answers + [pass])
  {
    var order', answers' := order + [id], answers + [pass];
    forall k | 0 <= k < |order'|
      ensures Ready(ids, in0, order'[k], Released(next, order'[..k], answers'[..k])[order'[k]])
    {
      if k == |order| {
        assert order'[..k] == order && answers'[..k] == answers;
      } else {
        assert order'[..k] == order[..k] && answers'[..k] == answers[..k];
      }
    }
  }

  // ----- the order of the queue

  function Sources(ids: seq<uint32>, in0: map<uint32, int>): seq<uint32> {
    if ids == [] then []
    else Sources(ids[..|ids| - 1], in0) + if InOf(in0, ids[|ids| - 1]) == 0 then [ids[|ids| - 1]] else []
  }

  /** Those of nexts that lose their last incoming edge here, when released edges are gone already. */
  ghost function Arrivals(in0: map<uint32, int>, released: multiset<uint32>, nexts: seq<uint32>): seq<uint32> {
    if nexts == [] then []
    else
      var n := |nexts| - 1;
      Arrivals(in0, released, nexts[..n])
      + if InOf(in0, nexts[n]) == (released + multiset(nexts))[nexts[n]] then [nexts[n]] else []
  }

  /** Everything that enters the queue during these calls, in the order of entering. */
  ghost function EntryOrder(ids: seq<uint32>, in0: map<uint32, int>, next: Adjacency,
                            order: seq<uint32>, answers: seq<bool>): seq<uint32>
    requires |order| == |answers|
  {
    if order == [] then Sources(ids, in0)
    else
      var n := |order| - 1;
      EntryOrder(ids, in0, next, order[..n], answers[..n])
      + if answers[n] then Arrivals(in0, Released(next, order[..n], answers[..n]), Succs(next, order[n])) else []
  }

  lemma EntryOrderSnoc(ids: seq<uint32>, in0: map<uint32, int>, next: Adjacency,
                       order: seq<uint32>, answers: seq<bool>, id: uint32, pass: bool)
    requires |order| == |answers|
    ensures EntryOrder(ids, in0, next, order + [id], answers + [pass])
         == EntryOrder(ids, in0, next, order, answers)
            + if pass then Arrivals(in0, Released(next, order, answers), Succs(next, id)) else []
  {
    assert (order + [id])[..|order|] == order && (answers + [pass])[..|order|] == answers;
  }

  /** Part of the edges to nexts, those to done, are taken away, after the others in before. */
  ghost predicate Releasing(ids: seq<uint32>, in0: map<uint32, int>, now: map<uint32, int>, visited: multiset<uint32>,
                            waiting: seq<uint32>, queue: seq<uint32>, before: multiset<uint32>, done: seq<uint32>) {
    && Balanced(ids, in0, now, visited, queue, before + multiset(done))
    && queue == waiting + Arrivals(in0, before, done)
  }

  lemma ReleasingStarts(ids: seq<uint32>, in0: map<uint32, int>, now: map<uint32, int>, visited: multiset<uint32>,
                        waiting: seq<uint32>, before: multiset<uint32>, nexts: seq<uint32>)
    requires Balanced(ids, in0, now, visited, waiting, before)
    ensures Releasing(ids, in0, now, visited, waiting, waiting, before, nexts[..0])
  {
    assert before + multiset(nexts[..0]) == before;
    assert waiting + [] == waiting;
  }

  lemma ReleasingStep(ids: seq<uint32>, in0: map<uint32, int>, now: map<uint32, int>, visited: multiset<uint32>,
                      waiting: seq<uint32>, queue: seq<uint32>, before: multiset<uint32>, nexts: seq<uint32>, i: nat)
    requires i < |nexts| && Releasing(ids, in0, now, visited, waiting, queue, before, nexts[..i])
    ensures var now' := now[nexts[i] := InOf(now, nexts[i]) - 1];
            var queue' := if now'[nexts[i]] == 0 then queue + [nexts[i]] else queue;
            && Releasing(ids, in0, now', visited, waiting, queue', before, nexts[..i + 1])
            && |Positive(now')| + |queue'| == |Positive(now)| + |queue|
  {
    var nxt, released := nexts[i], before + multiset(nexts[..i]);
    var enter := if InOf(now, nxt) - 1 == 0 then [nxt] else [];
    ReleaseStep(ids, in0, now, visited, queue, released, nxt);
    assert Account(ids, in0, now, visited, queue, released, nxt);
    TakeOneMore(nexts, i);
    assert released + multiset{nxt} == before + multiset(nexts[..i + 1]);
    assert nexts[..i + 1][..i] == nexts[..i];
    ConcatAssociative(waiting, Arrivals(in0, before, nexts[..i]), enter);
    assert queue + [] == queue;
  }

  /** The state between two visits. */
  ghost predicate Traversing(ids: seq<uint32>, in0: map<uint32, int>, now: map<uint32, int>, next: Adjacency,
                             order: seq<uint32>, answers: seq<bool>, queue: seq<uint32>) {
    && |order| == |answers|
    && CallsReady(ids, in0, next, order, answers)
    && Balanced(ids, in0, now, multiset(order), queue, Released(next, order, answers))
    && order + queue == EntryOrder(ids, in0, next, order, answers)
  }

  lemma {:induction false} SourcesCount(ids: seq<uint32>, in0: map<uint32, int>, v: uint32)
    ensures multiset(Sources(ids, in0))[v] == if InOf(in0, v) == 0 then multiset(ids)[v] else 0
  {
    if ids != [] {
      var n := |ids| - 1;
      SourcesCount(ids[..n], in0, v);
      assert ids == ids[..n] + [ids[n]];
    }
  }

  lemma TraversalStarts(ids: seq<uint32>, in0: map<uint32, int>, next: Adjacency, queue: seq<uint32>)
    requires queue == Sources(ids, in0)
    ensures Traversing(ids, in0, in0, next, [], [], queue)
  {
    forall v {
      SourcesCount(ids, in0, v);
    }
    QueueStarts(ids, in0, queue, multiset([]), multiset{});
    assert [] + queue == queue;
  }

  /** One visit: the first of the queue is called, and a true answer releases the edges to its successors. */
  lemma TraversalStep(ids: seq<uint32>, in0: map<uint32, int>, before: map<uint32, int>, now: map<uint32, int>,
                      next: Adjacency, order: seq<uint32>, answers: seq<bool>,
                      queue: seq<uint32>, queue': seq<uint32>, pass: bool)
    requires queue != [] && Traversing(ids, in0, before, next, order, answers, queue)
    requires var released := Released(next, order, answers);
             if pass then Releasing(ids, in0, now, multiset(order) + multiset{queue[0]}, queue[1..], queue', released,
                                    Succs(next, queue[0]))
             else now == before && queue' == queue[1..]
    ensures Traversing(ids, in0, now, next, order + [queue[0]], answers + [pass], queue')
  {
    var id, released := queue[0], Released(next, order, answers);
    VisitStarts(ids, in0, before, multiset(order), queue, released);
    CallsReadySnoc(ids, in0, next, order, answers, id, pass);
    ReleasedSnoc(next, order, answers, id, pass);
    EntryOrderSnoc(ids, in0, next, order, answers, id, pass);
    HeadFirst(queue);
    ConcatAssociative(order, [id], queue[1..]);
    if pass {
      ConcatAssociative(order + [id], queue[1..], Arrivals(in0, released, Succs(next, id)));
    } else {
      assert released + multiset{} == released;
      assert order + queue + [] == order + queue;
    }
    assert multiset(order + [id]) == multiset(order) + multiset{id};
  }

  lemma TraversalEnds(ids: seq<uint32>, in0: map<uint32, int>, now: map<uint32, int>, next: Adjacency,
                      order: seq<uint32>, answers: seq<bool>)
    requires Traversing(ids, in0, now, next, order, answers, [])
    ensures KahnRun(ids, in0, next, order, answers)
    ensures order == EntryOrder(ids, in0, next, order, answers)
    ensures Dropped(in0, now, Released(next, order, answers))
  {
    QueueEnds(ids, in0, now, multiset(order), Released(next, order, answers));
    assert order + [] == order;
  }
}
