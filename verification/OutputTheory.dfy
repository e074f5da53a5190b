/** Which outputs a run hands to the uploader (worker/worker.go, judgeOnDAG). */
module OutputTheory {
  import opened Digraph
  import opened Judging
  import opened Problems
  import opened Scoring
  import opened Seqs
  import Upload

  /** The case was judged and its output exceeds the limit of the record. */
  predicate IsLong(verdicts: Verdicts, limit: nat, o: Output) {
    var v := verdicts(o.subtask, o.testCase);
    v.Judged? && v.outputSize > limit
  }

  lemma {:induction false} OutputsOfSubtask(s: Subtask, verdicts: Verdicts, limit: nat, k: nat)
    ensures Distinct(OutputsOf(s, verdicts, limit, k))
    ensures forall o :: o in OutputsOf(s, verdicts, limit, k)
                        <==> o.subtask == s.id && o.testCase < k && IsLong(verdicts, limit, o)
  {
    if k > 0 {
      OutputsOfSubtask(s, verdicts, limit, k - 1);
      var o := Output(s.id, k - 1);
      if IsLong(verdicts, limit, o) {
        DistinctConcat(OutputsOf(s, verdicts, limit, k - 1), [o]);
      }
    }
  }

  /** o belongs to a judged case of a judged subtask and is too long for the record. */
  ghost predicate HandedOver(subtasks: seq<Subtask>, verdicts: Verdicts, limit: nat, order: seq<uint32>, o: Output) {
    && o.subtask in order
    && o.testCase < Clean(Find(subtasks, o.subtask), verdicts, 0)
    && IsLong(verdicts, limit, o)
  }

  /** The uploader gets every long output of a judged case, once, and nothing else. */
  lemma OutputsIff(subtasks: seq<Subtask>, verdicts: Verdicts, limit: nat, order: seq<uint32>)
    requires Judgeable(subtasks) && JudgingOrder(subtasks, verdicts, order)
    ensures Distinct(AllOutputs(subtasks, verdicts, limit, order))
    ensures forall o :: o in AllOutputs(subtasks, verdicts, limit, order)
                        <==> HandedOver(subtasks, verdicts, limit, order, o)
  {
    RunVisits(subtasks, verdicts, order);
    OutputsUpTo(subtasks, verdicts, limit, order, |order|);
    TakeAll(order);
  }

  lemma {:induction false} OutputsUpTo(subtasks: seq<Subtask>, verdicts: Verdicts, limit: nat, order: seq<uint32>,
                                       k: nat)
    requires Distinct(order) && forall id :: id in order ==> Find(subtasks, id).id == id
    requires k <= |order|
    ensures Distinct(AllOutputs(subtasks, verdicts, limit, order[..k]))
    ensures forall o :: o in AllOutputs(subtasks, verdicts, limit, order[..k])
                        <==> HandedOver(subtasks, verdicts, limit, order[..k], o)
  {
    if k > 0 {
      var s := Find(subtasks, order[k - 1]);
      var n := Clean(s, verdicts, 0);
      var before, here := AllOutputs(subtasks, verdicts, limit, order[..k - 1]), OutputsOf(s, verdicts, limit, n);
      OutputsUpTo(subtasks, verdicts, limit, order, k - 1);
      OneMoreJudged(subtasks, verdicts, limit, order, k - 1);
      OutputsOfSubtask(s, verdicts, limit, n);
      forall o
        ensures o in before ==> o !in here
        ensures o in before + here <==> HandedOver(subtasks, verdicts, limit, order[..k], o)
      {
        assert o in before <==> HandedOver(subtasks, verdicts, limit, order[..k - 1], o);
        assert order[k - 1] !in order[..k - 1];
      }
      DistinctConcat(before, here);
    }
  }

  /** Outputs of one subtask, in the order of its cases. */
  ghost predicate Ascending(id: uint32, k: nat, outputs: seq<Output>) {
    && (forall i :: 0 <= i < |outputs| ==> outputs[i].subtask == id && outputs[i].testCase < k)
    && forall i, j :: 0 <= i < j < |outputs| ==> outputs[i].testCase < outputs[j].testCase
  }

  lemma {:induction false} OutputsAscend(s: Subtask, verdicts: Verdicts, limit: nat, k: nat)
    ensures Ascending(s.id, k, OutputsOf(s, verdicts, limit, k))
  {
    if k > 0 {
      OutputsAscend(s, verdicts, limit, k - 1);
      var before := OutputsOf(s, verdicts, limit, k - 1);
      assert Ascending(s.id, k, before) && Ascending(s.id, k, before + [Output(s.id, k - 1)]);
      assert before + [] == before;
    }
  }

  /** a belongs to an earlier case of the same subtask, or to a subtask that was called before that of b. */
  ghost predicate Precedes(order: seq<uint32>, a: Output, b: Output) {
    || (a.subtask == b.subtask && a.testCase < b.testCase)
    || exists i, j :: 0 <= i < j < |order| && order[i] == a.subtask && order[j] == b.subtask
  }

  ghost predicate Ordered(order: seq<uint32>, outputs: seq<Output>) {
    && (forall i :: 0 <= i < |outputs| ==> outputs[i].subtask in order)
    && forall i, j :: 0 <= i < j < |outputs| ==> Precedes(order, outputs[i], outputs[j])
  }

  lemma OrderedConcat(order: seq<uint32>, outputs: seq<Output>, id: uint32, k: nat, more: seq<Output>)
    requires Ordered(order, outputs) && Ascending(id, k, more)
    ensures Ordered(order + [id], outputs + more)
  {
    var order', all := order + [id], outputs + more;
    assert order'[|order|] == id;
    forall i | 0 <= i < |all|
      ensures all[i].subtask in order'
    {
      assert i < |outputs| ==> outputs[i].subtask in order;
    }
    forall i, j | 0 <= i < j < |all|
      ensures Precedes(order', all[i], all[j])
    {
      if j < |outputs| {
        assert Precedes(order, outputs[i], outputs[j]);
        PrecedesLater(order, id, outputs[i], outputs[j]);
      } else if i < |outputs| {
        var k: nat :| k < |order| && order[k] == outputs[i].subtask;
        assert order'[k] == all[i].subtask && order'[|order|] == all[j].subtask;
      }
    }
  }

  lemma PrecedesLater(order: seq<uint32>, id: uint32, a: Output, b: Output)
    requires Precedes(order, a, b)
    ensures Precedes(order + [id], a, b)
  {
    if !(a.subtask == b.subtask && a.testCase < b.testCase) {
      var i, j :| 0 <= i < j < |order| && order[i] == a.subtask && order[j] == b.subtask;
      assert (order + [id])[i] == a.subtask && (order + [id])[j] == b.subtask;
    }
  }

  lemma {:induction false} OutputsOrdered(subtasks: seq<Subtask>, verdicts: Verdicts, limit: nat, order: seq<uint32>)
    requires forall id :: id in order ==> Find(subtasks, id).id == id
    ensures Ordered(order, AllOutputs(subtasks, verdicts, limit, order))
  {
    if order != [] {
      var n := |order| - 1;
      var s := Find(subtasks, order[n]);
      var k := Clean(s, verdicts, 0);
      OutputsOrdered(subtasks, verdicts, limit, order[..n]);
      OutputsAscend(s, verdicts, limit, k);
      OrderedConcat(order[..n], AllOutputs(subtasks, verdicts, limit, order[..n]), order[n], k,
                    OutputsOf(s, verdicts, limit, k));
      TakeOneMore(order, n);
      TakeAll(order);
    }
  }

  /** The uploader gets the outputs in the order of calls, and within a subtask in the order of cases. */
  lemma OutputsInOrder(subtasks: seq<Subtask>, verdicts: Verdicts, limit: nat, order: seq<uint32>)
    requires !Crashes(subtasks, order)
    ensures Ordered(order, AllOutputs(subtasks, verdicts, limit, order))
  {
    forall id | id in order
      ensures Find(subtasks, id).id == id
    {
      FindListed(subtasks, id);
    }
    OutputsOrdered(subtasks, verdicts, limit, order);
  }

  /**
   * When an uncancelled run returns, exactly the long outputs of judged cases have been dealt with, each once, and each
   * is stored unless six attempts at it failed.
   */
  lemma ReturnedUploadedAll(subtasks: seq<Subtask>, verdicts: Verdicts, limit: nat, order: seq<uint32>,
                            s: Upload.Handshake)
    requires Judgeable(subtasks) && JudgingOrder(subtasks, verdicts, order)
    requires Upload.Reachable(AllOutputs(subtasks, verdicts, limit, order), s)
    requires s.judge == Upload.Returned && !s.cancelled
    ensures Distinct(Upload.Outputs(s.processed))
    ensures forall o :: o in Upload.Outputs(s.processed) <==> HandedOver(subtasks, verdicts, limit, order, o)
    ensures forall i :: 0 <= i < |s.processed| ==>
              (s.processed[i].stored <==> s.processed[i].failures < 6)
  {
    var outputs := AllOutputs(subtasks, verdicts, limit, order);
    Upload.ReturnedProcessedAll(outputs, s);
    OutputsIff(subtasks, verdicts, limit, order);
    forall i | 0 <= i < |s.processed|
      ensures s.processed[i].stored <==> s.processed[i].failures < 6
    {
      Upload.StoredUnlessFailed(outputs, s, i);
    }
  }
}
