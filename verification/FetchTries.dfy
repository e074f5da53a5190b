/** How often the fetch pool tries (resource/manager.go, fetchWorker), and how many keys it tries at once. */
module FetchTries {
  import opened FetchPool
  import opened FetchRuns
  import opened Seqs
  import opened Storage

  /** An attempt at this key that does not succeed. */
  ghost predicate Fails(job: Job, s: Pool, a: Action, key: string) {
    && a.Attempt? && a.i < |s.flow.workers| && s.flow.workers[a.i].Fetching? && s.flow.workers[a.i].key == key
    && !Succeeds(job, s, a)
  }

  /** The failed attempts at this key in a run. */
  ghost function FailedAttempts(job: Job, s: Pool, actions: seq<Action>, key: string): nat
    requires IsRun(job, s, actions)
    decreases |actions|
  {
    if actions == [] then 0
    else FailedAttempts(job, Apply(job, s, actions[0]), actions[1..], key)
         + if Fails(job, s, actions[0], key) then 1 else 0
  }

  /** Some attempt at this key is the last one because the pool has been cancelled. */
  ghost predicate LosesPatience(job: Job, s: Pool, actions: seq<Action>, key: string)
    requires IsRun(job, s, actions)
    decreases |actions|
  {
    actions != []
    && ((Fails(job, s, actions[0], key) && actions[0].giveUp)
        || LosesPatience(job, Apply(job, s, actions[0]), actions[1..], key))
  }

  ghost predicate IsTrying(f: Flow, key: string, i: int) {
    0 <= i < |f.workers| && f.workers[i].Fetching? && f.workers[i].key == key
  }

  /** What is known after so many failed attempts at this key. */
  ghost predicate TriesOk(f: Flow, key: string, failed: nat, impatient: bool) {
    && (forall i :: IsTrying(f, key, i) ==> !impatient && failed + f.workers[i].retries == 5)
    && (key in f.todo || key in f.keyChan ==> failed == 0)
    && (key in f.abandoned <==> impatient || failed == 6)
    && failed <= 6
  }

  lemma {:induction false} HeldOnce(workers: seq<Worker>, i: nat, j: nat, key: string)
    requires i < j < |workers| && Holds(workers[i], key) && Holds(workers[j], key)
    ensures Held(workers, key) >= 2
  {
    if i > 0 {
      HeldOnce(workers[1..], i - 1, j - 1, key);
    } else {
      HeldBySome(workers[1..], j - 1, key);
    }
  }

  /** While a worker tries a key, the key is nowhere else. */
  lemma TryingAlone(job: Job, f: Flow, key: string, i: nat)
    requires Conserved(job, f) && IsTrying(f, key, i)
    ensures key !in f.todo && key !in f.keyChan && key !in f.abandoned
    ensures forall j :: IsTrying(f, key, j) ==> j == i
  {
    assert ConservedAt(job, f, key);
    HeldBySome(f.workers, i, key);
    assert key in f.keyChan <==> Count(f.keyChan, key) > 0;
    assert key in f.abandoned <==> Count(f.abandoned, key) > 0;
    forall j | IsTrying(f, key, j)
      ensures j == i
    {
      if j < i {
        HeldOnce(f.workers, j, i, key);
      } else if i < j {
        HeldOnce(f.workers, i, j, key);
      }
    }
  }

  lemma AttemptTries(job: Job, f: Flow, i: nat, saved: bool, giveUp: bool, key: string, failed: nat, impatient: bool)
    requires Conserved(job, f) && TriesOk(f, key, failed, impatient) && IsTrying(f, key, i)
    ensures TriesOk(Tried(f, i, saved, giveUp), key, if saved then failed else failed + 1,
                    impatient || (!saved && giveUp))
  {
    TryingAlone(job, f, key, i);
    var f' := Tried(f, i, saved, giveUp);
    forall j | IsTrying(f', key, j)
      ensures j == i
    {
      if j != i {
        assert IsTrying(f, key, j);
      }
    }
    assert key in f'.abandoned <==> f'.abandoned != f.abandoned;
  }

  lemma OtherTries(f: Flow, i: nat, saved: bool, giveUp: bool, key: string, failed: nat, impatient: bool)
    requires i < |f.workers| && f.workers[i].Fetching? && f.workers[i].key != key
    requires TriesOk(f, key, failed, impatient)
    ensures TriesOk(Tried(f, i, saved, giveUp), key, failed, impatient)
  {
    assert forall j :: IsTrying(Tried(f, i, saved, giveUp), key, j) ==> IsTrying(f, key, j) && j != i;
  }

  lemma TakenTries(job: Job, f: Flow, i: nat, key: string, failed: nat, impatient: bool)
    requires Conserved(job, f) && TriesOk(f, key, failed, impatient)
    requires i < |f.workers| && f.workers[i] == Idle && f.keyChan != []
    ensures TriesOk(Taken(f, i), key, failed, impatient)
  {
    var f' := Taken(f, i);
    assert ConservedAt(job, f, key);
    assert key in f.keyChan <==> Count(f.keyChan, key) > 0;
    assert key in f.abandoned <==> Count(f.abandoned, key) > 0;
    assert forall j :: IsTrying(f', key, j) && j != i ==> IsTrying(f, key, j);
    assert f.keyChan[0] in f.keyChan;
  }

  lemma QuietTries(job: Job, s: Pool, a: Action, saved: bool, key: string, failed: nat, impatient: bool)
    requires Enabled(job, s, a) && !a.Take? && !a.Attempt? && TriesOk(s.flow, key, failed, impatient)
    ensures TriesOk(NextFlow(job, s, a, saved), key, failed, impatient)
  {
    var f' := NextFlow(job, s, a, saved);
    assert forall j :: IsTrying(f', key, j) ==> IsTrying(s.flow, key, j);
  }

  lemma TriedStep(job: Job, s: Pool, a: Action, key: string, failed: nat, impatient: bool)
    requires a.Attempt? && Enabled(job, s, a) && Conserved(job, s.flow) && TriesOk(s.flow, key, failed, impatient)
    ensures TriesOk(Apply(job, s, a).flow, key, if Fails(job, s, a, key) then failed + 1 else failed,
                    impatient || (Fails(job, s, a, key) && a.giveUp))
  {
    if s.flow.workers[a.i].key == key {
      AttemptTries(job, s.flow, a.i, Succeeds(job, s, a), a.giveUp, key, failed, impatient);
    } else {
      OtherTries(s.flow, a.i, Succeeds(job, s, a), a.giveUp, key, failed, impatient);
    }
  }

  lemma TriesStep(job: Job, s: Pool, a: Action, key: string, failed: nat, impatient: bool)
    requires Enabled(job, s, a) && Conserved(job, s.flow) && TriesOk(s.flow, key, failed, impatient)
    ensures TriesOk(Apply(job, s, a).flow, key, if Fails(job, s, a, key) then failed + 1 else failed,
                    impatient || (Fails(job, s, a, key) && a.giveUp))
  {
    if a.Attempt? {
      TriedStep(job, s, a, key, failed, impatient);
    } else if a.Take? {
      TakenTries(job, s.flow, a.i, key, failed, impatient);
    } else {
      QuietTries(job, s, a, Succeeds(job, s, a), key, failed, impatient);
    }
  }

  lemma {:induction false} TriesRun(job: Job, store0: Store, s: Pool, actions: seq<Action>, key: string, failed: nat,
                                    impatient: bool)
    requires PoolOk(job, store0, s) && IsRun(job, s, actions) && TriesOk(s.flow, key, failed, impatient)
    ensures TriesOk(After(job, s, actions).flow, key, failed + FailedAttempts(job, s, actions, key),
                    impatient || LosesPatience(job, s, actions, key))
    decreases |actions|
  {
    if actions != [] {
      var a := actions[0];
      TriesStep(job, s, a, key, failed, impatient);
      StepOk(job, store0, s, a);
      TriesRun(job, store0, Apply(job, s, a), actions[1..], key, if Fails(job, s, a, key) then failed + 1 else failed,
               impatient || (Fails(job, s, a, key) && a.giveUp));
    }
  }

  /** In every interleaving a key is given up exactly after six failed attempts, or at one during a cancellation. */
  lemma GivenUpIff(job: Job, store: Store, actions: seq<Action>, key: string)
    requires IsRun(job, Init(job, store), actions)
    ensures key in After(job, Init(job, store), actions).flow.abandoned
            <==> FailedAttempts(job, Init(job, store), actions, key) == 6
                 || LosesPatience(job, Init(job, store), actions, key)
    ensures FailedAttempts(job, Init(job, store), actions, key) <= 6
  {
    InitOk(job, store);
    TriesRun(job, store, Init(job, store), actions, key, 0, false);
  }

  lemma {:induction false} AbandonedGrows(job: Job, s: Pool, actions: seq<Action>)
    requires IsRun(job, s, actions)
    ensures s.flow.abandoned <= After(job, s, actions).flow.abandoned
    decreases |actions|
  {
    if actions != [] {
      AbandonedGrows(job, Apply(job, s, actions[0]), actions[1..]);
    }
  }

  /** Without a cancellation the attempt that breaks the pool is the sixth. */
  lemma BreakingAttempt(job: Job, s: Pool, a: Action, key: string, failed: nat)
    requires Enabled(job, s, a) && Conserved(job, s.flow) && TriesOk(s.flow, key, failed, false)
    requires !s.cancelled && s.flow.abandoned == [] && a != Cancel && Apply(job, s, a).cancelled
    ensures var f := Apply(job, s, a).flow;
            f.abandoned != [] && (f.abandoned[0] == key ==> Fails(job, s, a, key) && failed == 5)
  {
    TriesStep(job, s, a, key, failed, false);
  }

  lemma {:induction false} FirstGivenUp(job: Job, store0: Store, s: Pool, actions: seq<Action>, key: string,
                                        failed: nat)
    requires PoolOk(job, store0, s) && IsRun(job, s, actions) && TriesOk(s.flow, key, failed, false)
    requires Cancel !in actions && !s.cancelled
    ensures var f := After(job, s, actions).flow;
            f.abandoned != [] && f.abandoned[0] == key ==> failed + FailedAttempts(job, s, actions, key) == 6
    decreases |actions|
  {
    if actions != [] {
      var a := actions[0];
      var s' := Apply(job, s, a);
      TriesStep(job, s, a, key, failed, false);
      StepOk(job, store0, s, a);
      if s'.cancelled {
        BreakingAttempt(job, s, a, key, failed);
        AbandonedGrows(job, s', actions[1..]);
        if s'.flow.abandoned[0] == key {
          TriesRun(job, store0, s', actions[1..], key, failed + 1, false);
        }
      } else {
        FirstGivenUp(job, store0, s', actions[1..], key, if Fails(job, s, a, key) then failed + 1 else failed);
      }
    }
  }

  /** Unless it is cancelled from outside, a fetch fails only after six failed attempts at the key given up first. */
  lemma FailureTakesSix(job: Job, store: Store, actions: seq<Action>)
    requires IsRun(job, Init(job, store), actions) && Cancel !in actions
    ensures var s := After(job, Init(job, store), actions);
            s.main == Done(false) ==>
              && s.flow.abandoned != []
              && FailedAttempts(job, Init(job, store), actions, s.flow.abandoned[0]) == 6
  {
    var s := After(job, Init(job, store), actions);
    InitOk(job, store);
    if s.main == Done(false) {
      RunOk(job, store, Init(job, store), actions);
      Outcome(job, store, actions);
      CancelledByFailure(job, Init(job, store), actions);
      FirstGivenUp(job, store, Init(job, store), actions, s.flow.abandoned[0], 0);
    }
  }

  /** Without a cancellation from outside, only a failed worker cancels. */
  lemma {:induction false} CancelledByFailure(job: Job, s: Pool, actions: seq<Action>)
    requires IsRun(job, s, actions) && Cancel !in actions && (s.cancelled ==> s.flow.abandoned != [])
    ensures After(job, s, actions).cancelled ==> After(job, s, actions).flow.abandoned != []
    decreases |actions|
  {
    if actions != [] {
      CancelledByFailure(job, Apply(job, s, actions[0]), actions[1..]);
    }
  }

  // ----- how many at once

  /** The keys that workers are fetching. */
  function InWork(workers: seq<Worker>): set<string> {
    if workers == [] then {}
    else (if workers[0].Fetching? then {workers[0].key} else {}) + InWork(workers[1..])
  }

  lemma {:induction false} InWorkFits(workers: seq<Worker>)
    ensures |InWork(workers)| <= |workers|
  {
    if workers != [] {
      InWorkFits(workers[1..]);
    }
  }

  lemma {:induction false} InWorkIsHeld(workers: seq<Worker>, key: string)
    requires key in InWork(workers)
    ensures Held(workers, key) > 0
  {
    if !Holds(workers[0], key) {
      InWorkIsHeld(workers[1..], key);
    }
  }

  lemma SubsetFits(part: set<string>, whole: set<string>)
    requires part <= whole
    ensures |part| <= |whole|
  {
    assert whole == part + (whole - part);
  }

  lemma AtMostTen(job: Job, store: Store, actions: seq<Action>)
    requires IsRun(job, Init(job, store), actions)
    ensures var n := |InWork(After(job, Init(job, store), actions).flow.workers)|;
            n <= 10 && n <= |job.sizes|
  {
    InitOk(job, store);
    RunOk(job, store, Init(job, store), actions);
    var f := After(job, Init(job, store), actions).flow;
    InWorkFits(f.workers);
    forall key | key in InWork(f.workers)
      ensures key in job.sizes.Keys
    {
      InWorkIsHeld(f.workers, key);
      assert ConservedAt(job, f, key);
    }
    SubsetFits(InWork(f.workers), job.sizes.Keys);
  }

  /** The first workers are fetching these keys. */
  function Busy(keys: seq<string>): (workers: seq<Worker>)
    requires |keys| <= CONCURRENCY
    ensures |workers| == CONCURRENCY
  {
    seq(CONCURRENCY, i requires 0 <= i < CONCURRENCY => if i < |keys| then Fetching(keys[i], MAX_RETRIES) else Idle)
  }

  function BusyPool(job: Job, store: Store, keys: seq<string>): Pool
    requires |keys| <= CONCURRENCY
  {
    Init(job, store).(flow := Flow(job.sizes.Keys - (set key | key in keys), [], Busy(keys), [], [], []))
  }

  lemma {:induction false} GetBusy(job: Job, store: Store, keys: seq<string>) returns (actions: seq<Action>)
    requires |keys| <= CONCURRENCY && Distinct(keys) && forall key :: key in keys ==> key in job.sizes
    ensures IsRun(job, Init(job, store), actions)
    ensures After(job, Init(job, store), actions) == BusyPool(job, store, keys)
  {
    if keys == [] {
      actions := [];
      assert Init(job, store).flow.workers == Busy([]);
    } else {
      var n := |keys| - 1;
      var before := GetBusy(job, store, keys[..n]);
      OneMoreBusy(job, store, keys, n);
      RunSnoc(job, Init(job, store), before, Feed(keys[n]));
      RunSnoc(job, Init(job, store), before + [Feed(keys[n])], Take(n));
      actions := before + [Feed(keys[n])] + [Take(n)];
    }
  }

  lemma OneMoreBusy(job: Job, store: Store, keys: seq<string>, n: nat)
    requires |keys| == n + 1 <= CONCURRENCY && Distinct(keys) && forall key :: key in keys ==> key in job.sizes
    ensures var s := BusyPool(job, store, keys[..n]);
            && Enabled(job, s, Feed(keys[n])) && Enabled(job, Apply(job, s, Feed(keys[n])), Take(n))
            && Apply(job, Apply(job, s, Feed(keys[n])), Take(n)) == BusyPool(job, store, keys)
  {
    var s := BusyPool(job, store, keys[..n]);
    assert keys[n] in job.sizes.Keys && |job.sizes.Keys| > 0;
    assert keys[n] !in keys[..n];
    assert (set key | key in keys) == (set key | key in keys[..n]) + {keys[n]};
    var fed := Apply(job, s, Feed(keys[n]));
    assert fed.flow.keyChan == [keys[n]] && fed.flow.workers == Busy(keys[..n]);
    assert Busy(keys[..n])[n := Fetching(keys[n], MAX_RETRIES)] == Busy(keys);
    assert [keys[n]][1..] == [];
  }

  lemma {:induction false} InWorkOfBusy(workers: seq<Worker>, key: string, i: nat)
    requires i < |workers| && workers[i].Fetching? && workers[i].key == key
    ensures key in InWork(workers)
  {
    if i > 0 {
      InWorkOfBusy(workers[1..], key, i - 1);
    }
  }

  lemma {:induction false} InWorkComesFrom(workers: seq<Worker>, keys: seq<string>)
    requires forall w :: w in workers && w.Fetching? ==> w.key in keys
    ensures forall key :: key in InWork(workers) ==> key in keys
  {
    if workers != [] {
      InWorkComesFrom(workers[1..], keys);
    }
  }

  lemma BusyInWork(keys: seq<string>)
    requires |keys| <= CONCURRENCY && Distinct(keys)
    ensures |InWork(Busy(keys))| == |keys|
  {
    forall key
      ensures key in keys <==> key in InWork(Busy(keys))
    {
      if key in keys {
        var i: nat :| i < |keys| && keys[i] == key;
        InWorkOfBusy(Busy(keys), key, i);
      }
      InWorkComesFrom(Busy(keys), keys);
    }
    AllOnce(keys, InWork(Busy(keys)));
  }

  /** So many keys can be in work at the same time exactly if there are so many, and no more than ten. */
  lemma AtOnceIff(job: Job, store: Store, n: nat)
    ensures (exists actions :: IsRun(job, Init(job, store), actions)
                               && |InWork(After(job, Init(job, store), actions).flow.workers)| == n)
            <==> n <= 10 && n <= |job.sizes|
  {
    if n <= 10 && n <= |job.sizes| {
      var all := ListSet(job.sizes.Keys);
      AllOnce(all, job.sizes.Keys);
      var actions := GetBusy(job, store, all[..n]);
      BusyInWork(all[..n]);
    }
    forall actions | IsRun(job, Init(job, store), actions)
      ensures |InWork(After(job, Init(job, store), actions).flow.workers)| <= 10
      ensures |InWork(After(job, Init(job, store), actions).flow.workers)| <= |job.sizes|
    {
      AtMostTen(job, store, actions);
    }
  }
}
