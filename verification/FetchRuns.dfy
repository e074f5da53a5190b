/** Runs of the fetch pool that do occur (resource/manager.go): a success on every store, and one with a spoilt file. */
module FetchRuns {
  import opened FetchPool
  import opened Lines
  import opened Seqs
  import opened Storage

  /** The caller feeds; todo is still to be fetched, results have been received, all workers are idle. */
  function Between(job: Job, todo: set<string>, results: seq<string>, store: Store): Pool {
    Init(job, store).(flow := Flow(todo, [], Idlers(), [], results, []))
  }

  function Idlers(): (workers: seq<Worker>)
    ensures |workers| == CONCURRENCY && forall i :: 0 <= i < CONCURRENCY ==> workers[i] == Idle
  {
    seq(CONCURRENCY, i => Idle)
  }

  lemma {:induction false} RunConcat(job: Job, s: Pool, first: seq<Action>, last: seq<Action>)
    requires IsRun(job, s, first) && IsRun(job, After(job, s, first), last)
    ensures IsRun(job, s, first + last)
    ensures After(job, s, first + last) == After(job, After(job, s, first), last)
    decreases |first|
  {
    if first == [] {
      assert first + last == last;
    } else {
      RunConcat(job, Apply(job, s, first[0]), first[1..], last);
      assert (first + last)[1..] == first[1..] + last;
    }
  }

  lemma RunOne(job: Job, s: Pool, a: Action)
    requires Enabled(job, s, a)
    ensures IsRun(job, s, [a]) && After(job, s, [a]) == Apply(job, s, a)
  {
    assert [a][1..] == [];
    assert After(job, Apply(job, s, a), []) == Apply(job, s, a);
  }

  /** One action more. */
  lemma RunSnoc(job: Job, s: Pool, actions: seq<Action>, a: Action)
    requires IsRun(job, s, actions) && Enabled(job, After(job, s, actions), a)
    ensures IsRun(job, s, actions + [a])
    ensures After(job, s, actions + [a]) == Apply(job, After(job, s, actions), a)
  {
    RunOne(job, After(job, s, actions), a);
    RunConcat(job, s, actions, [a]);
  }

  function Zeros(n: nat): (data: Text)
    ensures |data| == n
  {
    seq(n, i => 0)
  }

  /** The backend sends as many bytes, and the operating system plays along, except perhaps in taking a file back. */
  function Willing(job: Job, store: Store, key: string, size: nat, rollbackOk: bool): SaveIO {
    SaveIO(if job.dir in store.dirs then Present else Missing, true,
           if job.layout.ProbPath(job.dir, key) in store.files then AlreadyThere else Created, Zeros(size), true,
           rollbackOk)
  }

  function Declared(job: Job, key: string): nat {
    if SizeOf(job, key) < 0 then 0 else SizeOf(job, key)
  }

  /** The pool after the first worker has taken this key from the caller. */
  function Begun(job: Job, todo: set<string>, results: seq<string>, store: Store, key: string, retries: nat): Pool {
    Init(job, store).(flow := Flow(todo - {key}, [], Idlers()[0 := Fetching(key, retries)], [], results, []))
  }

  lemma Begin(job: Job, todo: set<string>, results: seq<string>, store: Store, key: string)
    requires key in todo && key in job.sizes
    ensures var s := Between(job, todo, results, store);
            && IsRun(job, s, [Feed(key), Take(0)])
            && After(job, s, [Feed(key), Take(0)]) == Begun(job, todo, results, store, key, MAX_RETRIES)
  {
    var s := Between(job, todo, results, store);
    assert |job.sizes| > 0 by {
      assert key in job.sizes.Keys;
    }
    RunOne(job, s, Feed(key));
    RunSnoc(job, s, [Feed(key)], Take(0));
    assert [Feed(key)] + [Take(0)] == [Feed(key), Take(0)];
  }

  lemma Complete(job: Job, todo: set<string>, results: seq<string>, store: Store, key: string, retries: nat, io: SaveIO)
    requires Realistic(job.layout, store, job.dir, key, io)
    requires Save(job.layout, store, job.dir, key, SizeOf(job, key), io).1
    ensures var s, actions := Begun(job, todo, results, store, key, retries),
                              [Attempt(0, true, io, false), Send(0), Receive];
            && IsRun(job, s, actions)
            && After(job, s, actions) == Between(job, todo - {key}, results + [key],
                                                 Save(job.layout, store, job.dir, key, SizeOf(job, key), io).0)
  {
    var s, a := Begun(job, todo, results, store, key, retries), Attempt(0, true, io, false);
    var s1 := Apply(job, s, a);
    assert s1.flow.workers == Idlers()[0 := Sending(key)];
    var s2 := Apply(job, s1, Send(0));
    assert s2.flow.workers == Idlers() && s2.flow.resChan == [key];
    RunOne(job, s, a);
    RunSnoc(job, s, [a], Send(0));
    RunSnoc(job, s, [a] + [Send(0)], Receive);
    assert [a] + [Send(0)] + [Receive] == [a, Send(0), Receive];
  }

  /** One key is fetched at the first attempt. */
  lemma FetchOne(job: Job, todo: set<string>, results: seq<string>, store: Store, key: string)
    returns (actions: seq<Action>, store': Store)
    requires key in todo && key in job.sizes
    ensures IsRun(job, Between(job, todo, results, store), actions)
    ensures After(job, Between(job, todo, results, store), actions)
         == Between(job, todo - {key}, results + [key], store')
  {
    var io := Willing(job, store, key, Declared(job, key), true);
    store' := Save(job.layout, store, job.dir, key, SizeOf(job, key), io).0;
    Begin(job, todo, results, store, key);
    Complete(job, todo, results, store, key, MAX_RETRIES, io);
    actions := [Feed(key), Take(0)] + [Attempt(0, true, io, false), Send(0), Receive];
    RunConcat(job, Between(job, todo, results, store), [Feed(key), Take(0)],
              [Attempt(0, true, io, false), Send(0), Receive]);
  }

  lemma {:induction false} FetchAll(job: Job, todo: set<string>, results: seq<string>, store: Store)
    returns (actions: seq<Action>, results': seq<string>, store': Store)
    requires todo <= job.sizes.Keys
    ensures IsRun(job, Between(job, todo, results, store), actions)
    ensures After(job, Between(job, todo, results, store), actions) == Between(job, {}, results', store')
    decreases |todo|
  {
    if todo == {} {
      actions, results', store' := [], results, store;
    } else {
      var key :| key in todo;
      var first, last, between;
      first, between := FetchOne(job, todo, results, store, key);
      last, results', store' := FetchAll(job, todo - {key}, results + [key], between);
      actions := first + last;
      RunConcat(job, Between(job, todo, results, store), first, last);
    }
  }

  // ----- the end

  /** The keys are closed and the first i workers have left. */
  function Leaving(job: Job, results: seq<string>, store: Store, i: nat): Pool
    requires i <= CONCURRENCY
  {
    Init(job, store).(flow := Flow({}, [], Leavers(i), [], results, []), main := Waiting, keyClosed := true)
  }

  function Leavers(i: nat): (workers: seq<Worker>)
    requires i <= CONCURRENCY
    ensures |workers| == CONCURRENCY
    ensures forall j :: 0 <= j < CONCURRENCY ==> workers[j] == if j < i then Exited else Idle
  {
    seq(CONCURRENCY, j => if j < i then Exited else Idle)
  }

  lemma {:induction false} LeaveAll(job: Job, results: seq<string>, store: Store, i: nat) returns (actions: seq<Action>)
    requires i <= CONCURRENCY
    ensures IsRun(job, Leaving(job, results, store, i), actions)
    ensures After(job, Leaving(job, results, store, i), actions) == Leaving(job, results, store, CONCURRENCY)
    decreases CONCURRENCY - i
  {
    if i == CONCURRENCY {
      actions := [];
    } else {
      var s := Leaving(job, results, store, i);
      assert Leavers(i)[i := Exited] == Leavers(i + 1);
      assert Apply(job, s, Quit(i)) == Leaving(job, results, store, i + 1);
      var rest := LeaveAll(job, results, store, i + 1);
      RunOne(job, s, Quit(i));
      RunConcat(job, s, [Quit(i)], rest);
      actions := [Quit(i)] + rest;
    }
  }

  lemma WindUp(job: Job, results: seq<string>, store: Store) returns (actions: seq<Action>)
    ensures IsRun(job, Leaving(job, results, store, CONCURRENCY), actions)
    ensures var s := After(job, Leaving(job, results, store, CONCURRENCY), actions);
            s.main.Done? && s.flow.keyChan == [] && s.flow.abandoned == []
            && (s.main.ok ==> s.store == Submit(job.layout, store, job.dir, results))
  {
    var s := Leaving(job, results, store, CONCURRENCY);
    RunOne(job, s, WaitDone);
    RunSnoc(job, s, [WaitDone], CloseRes);
    RunSnoc(job, s, [WaitDone] + [CloseRes], FinishReceiving);
    RunSnoc(job, s, [WaitDone] + [CloseRes] + [FinishReceiving], TakeFin);
    RunSnoc(job, s, [WaitDone] + [CloseRes] + [FinishReceiving] + [TakeFin], Check);
    actions := [WaitDone] + [CloseRes] + [FinishReceiving] + [TakeFin] + [Check];
  }

  /** Once everything is fetched, the caller and the workers can bring the run to its end. */
  lemma Finish(job: Job, results: seq<string>, store: Store) returns (actions: seq<Action>)
    ensures IsRun(job, Between(job, {}, results, store), actions)
    ensures var s := After(job, Between(job, {}, results, store), actions);
            s.main.Done? && s.flow.keyChan == [] && s.flow.abandoned == []
            && (s.main.ok ==> s.store == Submit(job.layout, store, job.dir, results))
  {
    var s := Between(job, {}, results, store);
    assert Leavers(0) == Idlers();
    assert Apply(job, s, CloseKeys) == Leaving(job, results, store, 0);
    var leaving := LeaveAll(job, results, store, 0);
    var ending := WindUp(job, results, store);
    RunOne(job, s, CloseKeys);
    RunConcat(job, s, [CloseKeys], leaving);
    RunConcat(job, s, [CloseKeys] + leaving, ending);
    actions := [CloseKeys] + leaving + ending;
  }

  /** Any part that is left can be fetched to a successful end, without loss of what has been received. */
  lemma CanEnd(job: Job, store0: Store, done: seq<Action>, todo: set<string>, results: seq<string>, store: Store)
    returns (actions: seq<Action>)
    requires IsRun(job, Init(job, store0), done) && todo <= job.sizes.Keys
    requires After(job, Init(job, store0), done) == Between(job, todo, results, store)
    ensures IsRun(job, Init(job, store0), done + actions)
    ensures After(job, Init(job, store0), done + actions).main == Done(true)
  {
    var fetching, results', store' := FetchAll(job, todo, results, store);
    var ending := Finish(job, results', store');
    RunConcat(job, Init(job, store0), done, fetching);
    RunConcat(job, Init(job, store0), done + fetching, ending);
    actions := fetching + ending;
    ConcatAssociative(done, fetching, ending);
    Outcome(job, store0, done + actions);
  }

  /** On every store there is a run that succeeds. */
  lemma SuccessIsPossible(job: Job, store: Store) returns (actions: seq<Action>)
    ensures IsRun(job, Init(job, store), actions)
    ensures After(job, Init(job, store), actions).main == Done(true)
  {
    assert Init(job, store).flow.workers == Idlers();
    assert IsRun(job, Init(job, store), []) && After(job, Init(job, store), []) == Init(job, store);
    actions := CanEnd(job, store, [], job.sizes.Keys, [], store);
    assert [] + actions == actions;
  }

  // ----- a file of the wrong size

  /** The first attempt leaves one byte too many behind, the second takes that for the finished file. */
  lemma FetchBadly(job: Job, store: Store, key: string) returns (actions: seq<Action>, store': Store)
    requires key in job.sizes && SizeOf(job, key) >= 0
    requires job.layout.ProbPath(job.dir, key) !in store.files
    ensures IsRun(job, Init(job, store), actions)
    ensures After(job, Init(job, store), actions) == Between(job, job.sizes.Keys - {key}, [key], store')
    ensures HasShort(job, store', key)
  {
    var keys := job.sizes.Keys;
    var bad := Willing(job, store, key, Declared(job, key) + 1, false);
    var a := Attempt(0, true, bad, false);
    var between := Save(job.layout, store, job.dir, key, SizeOf(job, key), bad).0;
    var good := Willing(job, between, key, 0, true);
    var s := Between(job, keys, [], store);
    assert Init(job, store) == s;
    Begin(job, keys, [], store, key);
    var begun := Begun(job, keys, [], store, key, MAX_RETRIES);
    assert Idlers()[0 := Fetching(key, MAX_RETRIES)][0 := Fetching(key, MAX_RETRIES - 1)]
        == Idlers()[0 := Fetching(key, MAX_RETRIES - 1)];
    assert Apply(job, begun, a) == Begun(job, keys, [], between, key, MAX_RETRIES - 1);
    RunSnoc(job, s, [Feed(key), Take(0)], a);
    Complete(job, keys, [], between, key, MAX_RETRIES - 1, good);
    store' := Save(job.layout, between, job.dir, key, SizeOf(job, key), good).0;
    var last := [Attempt(0, true, good, false), Send(0), Receive];
    RunConcat(job, s, [Feed(key), Take(0)] + [a], last);
    actions := [Feed(key), Take(0)] + [a] + last;
    assert [] + [key] == [key];
  }

  /** A fetch can succeed with a file of the wrong size, for every job that declares one. */
  lemma SuccessWithShortFile(job: Job, store: Store, key: string) returns (actions: seq<Action>)
    requires key in job.sizes && SizeOf(job, key) >= 0
    requires GoodDigest(job.layout.sha1) && "" !in job.sizes && job.layout.ProbPath(job.dir, key) !in store.files
    ensures IsRun(job, Init(job, store), actions)
    ensures var s := After(job, Init(job, store), actions);
            s.main == Done(true) && HasShort(job, s.store, key)
  {
    var first, between := FetchBadly(job, store, key);
    var last := CanEnd(job, store, first, job.sizes.Keys - {key}, [key], between);
    actions := first + last;
    RunSplits(job, Init(job, store), first, last);
    InitOk(job, store);
    RunOk(job, store, Init(job, store), first);
    ShortRun(job, store, After(job, Init(job, store), first), last, key);
  }

  lemma {:induction false} RunSplits(job: Job, s: Pool, first: seq<Action>, last: seq<Action>)
    requires IsRun(job, s, first + last)
    ensures IsRun(job, s, first) && IsRun(job, After(job, s, first), last)
    ensures After(job, s, first + last) == After(job, After(job, s, first), last)
    decreases |first|
  {
    if first == [] {
      assert first + last == last;
    } else {
      assert (first + last)[1..] == first[1..] + last;
      RunSplits(job, Apply(job, s, first[0]), first[1..], last);
    }
  }
}
