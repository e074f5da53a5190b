/** The order of calls in a gated first-in first-out traversal (model/dag.go, Traverse), told without a queue. */
module Fifo {
  import opened Digraph
  import opened Kahn
  import opened Seqs

  lemma {:induction false} ArrivalsCount(in0: map<uint32, int>, released: multiset<uint32>, nexts: seq<uint32>,
                                         v: uint32)
    ensures multiset(Arrivals(in0, released, nexts))[v]
         == if released[v] < InOf(in0, v) <= (released + multiset(nexts))[v] then 1 else 0
  {
    if nexts != [] {
      var n := |nexts| - 1;
      ArrivalsCount(in0, released, nexts[..n], v);
      TakeOneMore(nexts, n);
      TakeAll(nexts);
    }
  }

  /** What has entered the queue, and how often, depends on the edges released alone. */
  lemma {:induction false} EntryCount(ids: seq<uint32>, in0: map<uint32, int>, next: Adjacency, order: seq<uint32>,
                                      answers: seq<bool>, v: uint32)
    requires |order| == |answers|
    ensures multiset(EntryOrder(ids, in0, next, order, answers))[v]
         == Entries(ids, in0, v, Released(next, order, answers)[v])
  {
    if order == [] {
      SourcesCount(ids, in0, v);
    } else {
      var n := |order| - 1;
      EntryCount(ids, in0, next, order[..n], answers[..n], v);
      if answers[n] {
        ArrivalsCount(in0, Released(next, order[..n], answers[..n]), Succs(next, order[n]), v);
      }
    }
  }

  lemma {:induction false} ArrivalsGrow(in0: map<uint32, int>, released: multiset<uint32>, nexts: seq<uint32>, m: nat)
    requires m <= |nexts|
    ensures Arrivals(in0, released, nexts[..m]) <= Arrivals(in0, released, nexts)
    decreases |nexts|
  {
    if m < |nexts| {
      var n := |nexts| - 1;
      ArrivalsGrow(in0, released, nexts[..n], m);
      assert nexts[..n][..m] == nexts[..m];
    } else {
      TakeAll(nexts);
    }
  }

  lemma {:induction false} EntriesGrow(ids: seq<uint32>, in0: map<uint32, int>, next: Adjacency, order: seq<uint32>,
                                       answers: seq<bool>, c: nat)
    requires |order| == |answers| && c <= |order|
    ensures EntryOrder(ids, in0, next, order[..c], answers[..c]) <= EntryOrder(ids, in0, next, order, answers)
    decreases |order|
  {
    if c < |order| {
      var n := |order| - 1;
      EntriesGrow(ids, in0, next, order[..n], answers[..n], c);
      assert order[..n][..c] == order[..c] && answers[..n][..c] == answers[..c];
    } else {
      TakeAll(order);
      TakeAll(answers);
    }
  }

  /** The edges released by the first c calls and, during the next one, to the first m successors. */
  ghost function ReleasedBy(next: Adjacency, order: seq<uint32>, answers: seq<bool>, c: nat, m: nat): multiset<uint32>
    requires |order| == |answers| && c < |order| && m <= |Succs(next, order[c])|
  {
    Released(next, order[..c], answers[..c]) + multiset(Succs(next, order[c])[..m])
  }

  /** What has entered the queue by then, in order. */
  ghost function EnteredBy(ids: seq<uint32>, in0: map<uint32, int>, next: Adjacency, order: seq<uint32>,
                           answers: seq<bool>, c: nat, m: nat): seq<uint32>
    requires |order| == |answers| && c < |order| && m <= |Succs(next, order[c])|
  {
    EntryOrder(ids, in0, next, order[..c], answers[..c])
    + Arrivals(in0, Released(next, order[..c], answers[..c]), Succs(next, order[c])[..m])
  }

  lemma EnteredCount(ids: seq<uint32>, in0: map<uint32, int>, next: Adjacency, order: seq<uint32>, answers: seq<bool>,
                     c: nat, m: nat, v: uint32)
    requires |order| == |answers| && c < |order| && m <= |Succs(next, order[c])|
    ensures multiset(EnteredBy(ids, in0, next, order, answers, c, m))[v]
         == Entries(ids, in0, v, ReleasedBy(next, order, answers, c, m)[v])
  {
    EntryCount(ids, in0, next, order[..c], answers[..c], v);
    ArrivalsCount(in0, Released(next, order[..c], answers[..c]), Succs(next, order[c])[..m], v);
  }

  lemma EnteredFirst(ids: seq<uint32>, in0: map<uint32, int>, next: Adjacency, order: seq<uint32>, answers: seq<bool>,
                     c: nat, m: nat)
    requires |order| == |answers| && c < |order| && m <= |Succs(next, order[c])| && answers[c]
    ensures EnteredBy(ids, in0, next, order, answers, c, m) <= EntryOrder(ids, in0, next, order, answers)
  {
    var released := Released(next, order[..c], answers[..c]);
    assert order[..c + 1][..c] == order[..c] && answers[..c + 1][..c] == answers[..c];
    ArrivalsGrow(in0, released, Succs(next, order[c]), m);
    assert EnteredBy(ids, in0, next, order, answers, c, m)
        <= EntryOrder(ids, in0, next, order[..c + 1], answers[..c + 1]);
    EntriesGrow(ids, in0, next, order, answers, c + 1);
  }

  /** An element beyond a prefix occurs less often in the prefix. */
  lemma OccursBeyond<T>(prefix: seq<T>, s: seq<T>, j: nat)
    requires prefix <= s && |prefix| <= j < |s|
    ensures multiset(prefix)[s[j]] < multiset(s)[s[j]]
  {
    assert s == prefix + s[|prefix|..];
    assert s[j] == s[|prefix|..][j - |prefix|];
    assert s[j] in multiset(s[|prefix|..]);
  }

  lemma {:induction false} ReleasedGrows(next: Adjacency, order: seq<uint32>, answers: seq<bool>, c: nat)
    requires |order| == |answers| && c <= |order|
    ensures Released(next, order[..c], answers[..c]) <= Released(next, order, answers)
    decreases |order|
  {
    if c < |order| {
      var n := |order| - 1;
      ReleasedGrows(next, order[..n], answers[..n], c);
      assert order[..n][..c] == order[..c] && answers[..n][..c] == answers[..c];
    } else {
      TakeAll(order);
      TakeAll(answers);
    }
  }

  lemma ReleasedByGrows(next: Adjacency, order: seq<uint32>, answers: seq<bool>, c: nat, m: nat, v: uint32)
    requires |order| == |answers| && c < |order| && m <= |Succs(next, order[c])| && answers[c]
    ensures ReleasedBy(next, order, answers, c, m)[v] <= Released(next, order, answers)[v]
  {
    var nexts := Succs(next, order[c]);
    assert order[..c + 1][..c] == order[..c] && answers[..c + 1][..c] == answers[..c];
    ReleasedGrows(next, order, answers, c + 1);
    TakeDrop(nexts, m);
    assert multiset(nexts) == multiset(nexts[..m]) + multiset(nexts[m..]);
  }

  /**
   * First in, first out, for every graph and all answers: whatever is ready once the edges to the first m successors of
   * the c-th call are released is called before everything that is not.
   */
  lemma FirstReadyFirstCalled(ids: seq<uint32>, in0: map<uint32, int>, next: Adjacency, order: seq<uint32>,
                              answers: seq<bool>, c: nat, m: nat, i: nat, j: nat)
    requires KahnRun(ids, in0, next, order, answers) && order == EntryOrder(ids, in0, next, order, answers)
    requires c < |order| && m <= |Succs(next, order[c])| && answers[c] && i < j < |order|
    requires Ready(ids, in0, order[j], ReleasedBy(next, order, answers, c, m)[order[j]])
    ensures Ready(ids, in0, order[i], ReleasedBy(next, order, answers, c, m)[order[i]])
  {
    var entered := EnteredBy(ids, in0, next, order, answers, c, m);
    EnteredFirst(ids, in0, next, order, answers, c, m);
    EnteredCount(ids, in0, next, order, answers, c, m, order[j]);
    ReleasedByGrows(next, order, answers, c, m, order[j]);
    if j >= |entered| {
      OccursBeyond(entered, order, j);
    }
    EnteredCount(ids, in0, next, order, answers, c, m, order[i]);
    assert order[i] == entered[i] && entered[i] in multiset(entered);
  }
}
