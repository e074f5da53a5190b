/**
 * The pool that fetches a problem's resources (resource/manager.go): ten workers between two bounded channels, a
 * receiver, and the caller that feeds, waits and checks. Actions interleave in any order the channels allow.
 */
module FetchPool {
  import opened Lines
  import opened Paths
  import opened Seqs
  import opened Storage

  const CONCURRENCY: nat := 10
  const MAX_RETRIES: nat := 5

  datatype Worker = Idle | Fetching(key: string, retries: nat) | Sending(key: string) | Exited

  /** How far fetchRes has got; Done carries whether it returned without an error. */
  datatype Main = Feeding | Waiting | ClosingRes | AwaitingReceiver | Checking | Done(ok: bool)

  /** What is fetched where; sizes has one entry per requested key. */
  datatype Job = Job(layout: Layout, dir: string, sizes: map<string, int>)

  /** The keys on their way: unfed, in the key channel, with workers, in the result channel, received, given up. */
  datatype Flow = Flow(todo: set<string>, keyChan: seq<string>, workers: seq<Worker>, resChan: seq<string>,
                       results: seq<string>, abandoned: seq<string>)

  datatype Pool = Pool(flow: Flow, main: Main, receiving: bool, finRecv: bool, keyClosed: bool, resClosed: bool,
                       cancelled: bool, failed: bool, store: Store)

  /** One action of one participant; an attempt comes with what the backend and the operating system answer. */
  datatype Action =
    | Feed(key: string) | CloseKeys | WaitDone | CloseRes | TakeFin | Check
    | Take(i: nat) | Attempt(i: nat, fetched: bool, io: SaveIO, giveUp: bool) | Send(i: nat) | Quit(i: nat)
    | Receive | FinishReceiving
    | Cancel

  function Init(job: Job, store: Store): Pool {
    Pool(Flow(job.sizes.Keys, [], seq(CONCURRENCY, i => Idle), [], [], []),
         Feeding, true, false, false, false, false, false, store)
  }

  predicate AllExited(workers: seq<Worker>) {
    forall i :: 0 <= i < |workers| ==> workers[i] == Exited
  }

  ghost predicate Enabled(job: Job, s: Pool, a: Action) {
    var f := s.flow;
    match a
    case Feed(key) => s.main == Feeding && key in f.todo && !s.keyClosed && |f.keyChan| < |job.sizes|
    case CloseKeys => s.main == Feeding && f.todo == {}
    case WaitDone => s.main == Waiting && AllExited(f.workers)
    case CloseRes => s.main == ClosingRes
    case TakeFin => s.main == AwaitingReceiver && s.finRecv
    case Check => s.main == Checking
    case Take(i) => i < |f.workers| && f.workers[i] == Idle && f.keyChan != []
    case Attempt(i, fetched, io, giveUp) =>
      && i < |f.workers| && f.workers[i].Fetching?
      && Realistic(job.layout, s.store, job.dir, f.workers[i].key, io)
      && (giveUp ==> s.cancelled)
    case Send(i) => i < |f.workers| && f.workers[i].Sending? && !s.resClosed && |f.resChan| < CONCURRENCY
    case Quit(i) =>
      i < |f.workers| && f.workers[i] == Idle && (s.cancelled || (s.keyClosed && f.keyChan == []))
    case Receive => s.receiving && f.resChan != []
    case FinishReceiving => s.receiving && f.resChan == [] && s.resClosed && !s.finRecv
    case Cancel => !s.cancelled
  }

  // ----- how keys move

  function Fed(f: Flow, key: string): Flow {
    f.(todo := f.todo - {key}, keyChan := f.keyChan + [key])
  }

  function Taken(f: Flow, i: nat): Flow
    requires i < |f.workers| && f.keyChan != []
  {
    f.(workers := f.workers[i := Fetching(f.keyChan[0], MAX_RETRIES)], keyChan := f.keyChan[1..])
  }

  /** After an attempt: a saved key is sent on; a failed one is retried while retries and patience last. */
  function Tried(f: Flow, i: nat, saved: bool, giveUp: bool): Flow
    requires i < |f.workers| && f.workers[i].Fetching?
  {
    var Fetching(key, retries) := f.workers[i];
    if saved then f.(workers := f.workers[i := Sending(key)])
    else if retries > 0 && !giveUp then f.(workers := f.workers[i := Fetching(key, retries - 1)])
    else f.(workers := f.workers[i := Exited], abandoned := f.abandoned + [key])
  }

  function Sent(f: Flow, i: nat): Flow
    requires i < |f.workers| && f.workers[i].Sending?
  {
    f.(workers := f.workers[i := Idle], resChan := f.resChan + [f.workers[i].key])
  }

  function Left(f: Flow, i: nat): Flow
    requires i < |f.workers|
  {
    f.(workers := f.workers[i := Exited])
  }

  function Received(f: Flow): Flow
    requires f.resChan != []
  {
    f.(results := f.results + [f.resChan[0]], resChan := f.resChan[1..])
  }

  function SizeOf(job: Job, key: string): int {
    if key in job.sizes then job.sizes[key] else -1
  }

  /** One attempt fetches, then saves; the flag says whether both went well. */
  function SaveAttempt(job: Job, store: Store, key: string, fetched: bool, io: SaveIO): (Store, bool) {
    if fetched then Save(job.layout, store, job.dir, key, SizeOf(job, key), io) else (store, false)
  }

  /** Whether the attempt that is this action succeeds. */
  predicate Succeeds(job: Job, s: Pool, a: Action) {
    a.Attempt? && a.i < |s.flow.workers| && s.flow.workers[a.i].Fetching?
    && SaveAttempt(job, s.store, s.flow.workers[a.i].key, a.fetched, a.io).1
  }

  ghost function NextFlow(job: Job, s: Pool, a: Action, saved: bool): Flow
    requires Enabled(job, s, a)
  {
    match a
    case Feed(key) => Fed(s.flow, key)
    case Take(i) => Taken(s.flow, i)
    case Attempt(i, _, _, giveUp) => Tried(s.flow, i, saved, giveUp)
    case Send(i) => Sent(s.flow, i)
    case Quit(i) => Left(s.flow, i)
    case Receive => Received(s.flow)
    case _ => s.flow
  }

  predicate AllReceived(job: Job, s: Pool) {
    !s.failed && |job.sizes| == |s.flow.results|
  }

  ghost function NextMain(job: Job, s: Pool, a: Action): Main {
    match a
    case CloseKeys => Waiting
    case WaitDone => ClosingRes
    case CloseRes => AwaitingReceiver
    case TakeFin => Checking
    case Check => Done(AllReceived(job, s))
    case _ => s.main
  }

  /** Attempts write files; the final check submits the received keys to the index. */
  ghost function NextStore(job: Job, s: Pool, a: Action): Store
    requires Enabled(job, s, a)
  {
    match a
    case Attempt(i, fetched, io, _) => SaveAttempt(job, s.store, s.flow.workers[i].key, fetched, io).0
    case Check => if AllReceived(job, s) then Submit(job.layout, s.store, job.dir, s.flow.results) else s.store
    case _ => s.store
  }

  /** A worker whose key cannot be fetched leaves with an error, which cancels the others. */
  ghost predicate Breaks(s: Pool, a: Action, saved: bool) {
    a.Attempt? && a.i < |s.flow.workers| && s.flow.workers[a.i].Fetching?
    && Tried(s.flow, a.i, saved, a.giveUp).workers[a.i] == Exited
  }

  ghost function Apply(job: Job, s: Pool, a: Action): Pool
    requires Enabled(job, s, a)
  {
    var saved := Succeeds(job, s, a);
    Pool(NextFlow(job, s, a, saved), NextMain(job, s, a),
         s.receiving && !a.FinishReceiving?, (s.finRecv || a.FinishReceiving?) && !a.TakeFin?,
         s.keyClosed || a.CloseKeys?, s.resClosed || a.CloseRes?,
         s.cancelled || a.Cancel? || Breaks(s, a, saved), s.failed || Breaks(s, a, saved), NextStore(job, s, a))
  }

  /** A run: each action is possible when its turn comes. */
  ghost predicate IsRun(job: Job, s: Pool, actions: seq<Action>)
    decreases |actions|
  {
    actions == [] || (Enabled(job, s, actions[0]) && IsRun(job, Apply(job, s, actions[0]), actions[1..]))
  }

  ghost function After(job: Job, s: Pool, actions: seq<Action>): Pool
    requires IsRun(job, s, actions)
    decreases |actions|
  {
    if actions == [] then s else After(job, Apply(job, s, actions[0]), actions[1..])
  }

  // ----- where the keys are

  predicate Holds(w: Worker, key: string) {
    (w.Fetching? || w.Sending?) && w.key == key
  }

  function Held(workers: seq<Worker>, key: string): nat {
    if workers == [] then 0 else (if Holds(workers[0], key) then 1 else 0) + Held(workers[1..], key)
  }

  function Count(s: seq<string>, key: string): nat {
    multiset(s)[key]
  }

  lemma CountEnds(s: seq<string>, x: string, key: string)
    ensures Count(s + [x], key) == Count(s, key) + if key == x then 1 else 0
    ensures s != [] ==> Count(s, key) == Count(s[1..], key) + if key == s[0] then 1 else 0
  {
    if s != [] {
      HeadFirst(s);
    }
  }

  lemma {:induction false} HeldUpdate(workers: seq<Worker>, i: nat, w: Worker, key: string)
    requires i < |workers|
    ensures Held(workers[i := w], key) + (if Holds(workers[i], key) then 1 else 0)
         == Held(workers, key) + (if Holds(w, key) then 1 else 0)
  {
    var workers' := workers[i := w];
    if i > 0 {
      HeldUpdate(workers[1..], i - 1, w, key);
      assert workers'[1..] == workers[1..][i - 1 := w];
    } else {
      assert workers'[1..] == workers[1..];
    }
  }

  lemma {:induction false} HeldByNone(workers: seq<Worker>, key: string)
    requires AllExited(workers)
    ensures Held(workers, key) == 0
  {
    if workers != [] {
      HeldByNone(workers[1..], key);
    }
  }

  /** In how many places a key is. */
  ghost function Places(f: Flow, key: string): nat {
    (if key in f.todo then 1 else 0) + Count(f.keyChan, key) + Held(f.workers, key)
    + Count(f.resChan, key) + Count(f.results, key) + Count(f.abandoned, key)
  }

  lemma FedPlaces(f: Flow, k: string, key: string)
    requires k in f.todo
    ensures Places(Fed(f, k), key) == Places(f, key)
  {
    CountEnds(f.keyChan, k, key);
  }

  lemma TakenPlaces(f: Flow, i: nat, key: string)
    requires i < |f.workers| && f.workers[i] == Idle && f.keyChan != []
    ensures Places(Taken(f, i), key) == Places(f, key)
  {
    HeldUpdate(f.workers, i, Fetching(f.keyChan[0], MAX_RETRIES), key);
    CountEnds(f.keyChan, "", key);
  }

  lemma TriedPlaces(f: Flow, i: nat, saved: bool, giveUp: bool, key: string)
    requires i < |f.workers| && f.workers[i].Fetching?
    ensures Places(Tried(f, i, saved, giveUp), key) == Places(f, key)
  {
    HeldUpdate(f.workers, i, Tried(f, i, saved, giveUp).workers[i], key);
    CountEnds(f.abandoned, f.workers[i].key, key);
  }

  lemma SentPlaces(f: Flow, i: nat, key: string)
    requires i < |f.workers| && f.workers[i].Sending?
    ensures Places(Sent(f, i), key) == Places(f, key)
  {
    HeldUpdate(f.workers, i, Idle, key);
    CountEnds(f.resChan, f.workers[i].key, key);
  }

  lemma LeftPlaces(f: Flow, i: nat, key: string)
    requires i < |f.workers| && f.workers[i] == Idle
    ensures Places(Left(f, i), key) == Places(f, key)
  {
    HeldUpdate(f.workers, i, Exited, key);
  }

  lemma ReceivedPlaces(f: Flow, key: string)
    requires f.resChan != []
    ensures Places(Received(f), key) == Places(f, key)
  {
    CountEnds(f.resChan, "", key);
    CountEnds(f.results, f.resChan[0], key);
  }

  /** No action loses or doubles a key. */
  lemma PlacesStep(job: Job, s: Pool, a: Action, saved: bool, key: string)
    requires Enabled(job, s, a)
    ensures Places(NextFlow(job, s, a, saved), key) == Places(s.flow, key)
  {
    match a
    case Feed(k) => FedPlaces(s.flow, k, key);
    case Take(i) => TakenPlaces(s.flow, i, key);
    case Attempt(i, _, _, giveUp) => TriedPlaces(s.flow, i, saved, giveUp, key);
    case Send(i) => SentPlaces(s.flow, i, key);
    case Quit(i) => LeftPlaces(s.flow, i, key);
    case Receive => ReceivedPlaces(s.flow, key);
    case _ =>
  }

  // ----- what every interleaving keeps

  ghost predicate ConservedAt(job: Job, f: Flow, key: string) {
    Places(f, key) == if key in job.sizes then 1 else 0
  }

  /** Each requested key is in exactly one place, and no other key is anywhere. */
  ghost predicate Conserved(job: Job, f: Flow) {
    forall key {:trigger ConservedAt(job, f, key)} :: ConservedAt(job, f, key)
  }

  predicate Closing(m: Main) {
    !m.Feeding? && !m.Waiting?
  }

  predicate ResultsClosed(m: Main) {
    m.AwaitingReceiver? || m.Checking? || m.Done?
  }

  ghost predicate WorkersOk(job: Job, s: Pool) {
    var workers := s.flow.workers;
    && |workers| == CONCURRENCY
    && (forall i :: 0 <= i < |workers| && workers[i].Fetching? ==> workers[i].retries <= MAX_RETRIES)
    && (Closing(s.main) ==> AllExited(workers))
    && (forall i :: 0 <= i < |workers| && workers[i] == Exited ==>
          s.cancelled || (s.keyClosed && s.flow.keyChan == []))
  }

  ghost predicate CallerOk(job: Job, s: Pool) {
    && (s.keyClosed <==> s.main != Feeding)
    && (s.flow.todo == {} || s.main == Feeding)
    && |s.flow.todo| + |s.flow.keyChan| <= |job.sizes|
    && (s.main.Done? ==> s.main.ok == AllReceived(job, s))
    && (s.failed <==> s.flow.abandoned != [])
    && (s.failed ==> s.cancelled)
  }

  ghost predicate ReceiverOk(s: Pool) {
    && (s.resClosed <==> ResultsClosed(s.main))
    && (s.receiving || (s.resClosed && s.flow.resChan == []))
    && (s.finRecv <==> !s.receiving && s.main == AwaitingReceiver)
    && (s.main.Checking? || s.main.Done? ==> !s.receiving)
  }

  ghost predicate OnDisk(job: Job, store: Store, key: string) {
    job.dir in store.dirs && job.layout.ProbPath(job.dir, key) in store.files
  }

  /** The disk only grows, what was saved is there, and the index is touched by a successful end alone. */
  ghost predicate StoreOk(job: Job, store0: Store, s: Pool) {
    var grown := store0.(files := s.store.files, dirs := s.store.dirs);
    && KeepsFiles(store0, s.store)
    && s.store == (if s.main == Done(true) then Submit(job.layout, grown, job.dir, s.flow.results) else grown)
    && (forall i :: 0 <= i < |s.flow.workers| && s.flow.workers[i].Sending? ==>
          OnDisk(job, s.store, s.flow.workers[i].key))
    && (forall key :: key in s.flow.resChan || key in s.flow.results ==> OnDisk(job, s.store, key))
  }

  ghost predicate PoolOk(job: Job, store0: Store, s: Pool) {
    Conserved(job, s.flow) && WorkersOk(job, s) && CallerOk(job, s) && ReceiverOk(s) && StoreOk(job, store0, s)
  }

  lemma {:induction false} NoneHeld(workers: seq<Worker>, key: string)
    requires forall i :: 0 <= i < |workers| ==> workers[i] == Idle
    ensures Held(workers, key) == 0
  {
    if workers != [] {
      NoneHeld(workers[1..], key);
    }
  }

  lemma InitOk(job: Job, store: Store)
    ensures PoolOk(job, store, Init(job, store))
  {
    forall key
      ensures ConservedAt(job, Init(job, store).flow, key)
    {
      NoneHeld(Init(job, store).flow.workers, key);
    }
  }

  lemma ConservedStep(job: Job, s: Pool, a: Action)
    requires Enabled(job, s, a) && Conserved(job, s.flow)
    ensures Conserved(job, Apply(job, s, a).flow)
  {
    var f := Apply(job, s, a).flow;
    forall key
      ensures ConservedAt(job, f, key)
    {
      PlacesStep(job, s, a, Succeeds(job, s, a), key);
      assert ConservedAt(job, s.flow, key);
    }
  }

  lemma WorkersStep(job: Job, s: Pool, a: Action)
    requires Enabled(job, s, a) && WorkersOk(job, s) && CallerOk(job, s)
    ensures WorkersOk(job, Apply(job, s, a))
  {
  }

  lemma CallerStep(job: Job, s: Pool, a: Action)
    requires Enabled(job, s, a) && WorkersOk(job, s) && CallerOk(job, s) && ReceiverOk(s)
    ensures CallerOk(job, Apply(job, s, a))
  {
  }

  lemma ReceiverStep(job: Job, s: Pool, a: Action)
    requires Enabled(job, s, a) && ReceiverOk(s) && CallerOk(job, s) && WorkersOk(job, s)
    ensures ReceiverOk(Apply(job, s, a))
  {
  }

  lemma {:induction false} SubmitKeepsDisk(l: Layout, st: Store, dir: string, keys: seq<string>)
    ensures var st' := Submit(l, st, dir, keys);
            st'.files == st.files && st'.dirs == st.dirs && st'.tmpFiles == st.tmpFiles
  {
    if keys != [] {
      SubmitKeepsDisk(l, st, dir, keys[..|keys| - 1]);
    }
  }

  lemma SaveAttemptEffect(job: Job, store: Store, key: string, fetched: bool, io: SaveIO)
    requires Realistic(job.layout, store, job.dir, key, io)
    ensures var (store', saved) := SaveAttempt(job, store, key, fetched, io);
            SameIndex(store, store') && KeepsFiles(store, store') && (saved ==> OnDisk(job, store', key))
  {
    SaveEffect(job.layout, store, job.dir, key, SizeOf(job, key), io);
  }

  lemma StaysOnDisk(job: Job, store: Store, store': Store, key: string)
    requires KeepsFiles(store, store') && OnDisk(job, store, key)
    ensures OnDisk(job, store', key)
  {
  }

  lemma AttemptStoreStep(job: Job, store0: Store, s: Pool, a: Action)
    requires a.Attempt? && Enabled(job, s, a) && StoreOk(job, store0, s) && WorkersOk(job, s)
    ensures StoreOk(job, store0, Apply(job, s, a))
  {
    var key, s' := s.flow.workers[a.i].key, Apply(job, s, a);
    SaveAttemptEffect(job, s.store, key, a.fetched, a.io);
    forall i | 0 <= i < |s'.flow.workers| && s'.flow.workers[i].Sending?
      ensures OnDisk(job, s'.store, s'.flow.workers[i].key)
    {
      if i != a.i {
        StaysOnDisk(job, s.store, s'.store, s.flow.workers[i].key);
      }
    }
    forall k | k in s'.flow.resChan || k in s'.flow.results
      ensures OnDisk(job, s'.store, k)
    {
      StaysOnDisk(job, s.store, s'.store, k);
    }
  }

  lemma CheckStoreStep(job: Job, store0: Store, s: Pool)
    requires Enabled(job, s, Check) && StoreOk(job, store0, s)
    ensures StoreOk(job, store0, Apply(job, s, Check))
  {
    SubmitKeepsDisk(job.layout, s.store, job.dir, s.flow.results);
  }

  lemma OtherStoreStep(job: Job, store0: Store, s: Pool, a: Action)
    requires !a.Attempt? && !a.Check?
    requires Enabled(job, s, a) && StoreOk(job, store0, s) && WorkersOk(job, s) && ReceiverOk(s)
    ensures StoreOk(job, store0, Apply(job, s, a))
  {
  }

  lemma StepOk(job: Job, store0: Store, s: Pool, a: Action)
    requires Enabled(job, s, a) && PoolOk(job, store0, s)
    ensures PoolOk(job, store0, Apply(job, s, a))
  {
    ConservedStep(job, s, a);
    WorkersStep(job, s, a);
    CallerStep(job, s, a);
    ReceiverStep(job, s, a);
    if a.Attempt? {
      AttemptStoreStep(job, store0, s, a);
    } else if a.Check? {
      CheckStoreStep(job, store0, s);
    } else {
      OtherStoreStep(job, store0, s, a);
    }
  }

  lemma {:induction false} RunOk(job: Job, store0: Store, s: Pool, actions: seq<Action>)
    requires PoolOk(job, store0, s) && IsRun(job, s, actions)
    ensures PoolOk(job, store0, After(job, s, actions))
    decreases |actions|
  {
    if actions != [] {
      StepOk(job, store0, s, actions[0]);
      RunOk(job, store0, Apply(job, s, actions[0]), actions[1..]);
    }
  }

  // ----- progress

  /** Feeding never blocks and no participant ever sends on a closed channel. */
  lemma SendsArePossible(job: Job, store: Store, actions: seq<Action>)
    requires IsRun(job, Init(job, store), actions)
    ensures var s := After(job, Init(job, store), actions);
            && (s.main == Feeding ==> forall key :: key in s.flow.todo ==> Enabled(job, s, Feed(key)))
            && ((exists w :: w in s.flow.workers && w.Sending?) ==> !s.resClosed)
  {
    InitOk(job, store);
    RunOk(job, store, Init(job, store), actions);
    var s := After(job, Init(job, store), actions);
    assert forall key :: key in s.flow.todo ==> |s.flow.todo| > 0;
  }

  /** Until fetchRes returns some participant can act, cancelled or not. */
  lemma NeverStuck(job: Job, store: Store, actions: seq<Action>)
    requires IsRun(job, Init(job, store), actions)
    requires !After(job, Init(job, store), actions).main.Done?
    ensures exists a :: a != Cancel && Enabled(job, After(job, Init(job, store), actions), a)
  {
    InitOk(job, store);
    RunOk(job, store, Init(job, store), actions);
    var a := SomeAction(job, store, After(job, Init(job, store), actions));
  }

  lemma SomeAction(job: Job, store0: Store, s: Pool) returns (a: Action)
    requires PoolOk(job, store0, s) && !s.main.Done?
    ensures a != Cancel && Enabled(job, s, a)
  {
    match s.main
    case Feeding =>
      if s.flow.todo == {} {
        a := CloseKeys;
      } else {
        var key :| key in s.flow.todo;
        assert |s.flow.todo| > 0;
        a := Feed(key);
      }
    case Waiting =>
      if AllExited(s.flow.workers) {
        a := WaitDone;
      } else {
        var i: nat :| i < |s.flow.workers| && s.flow.workers[i] != Exited;
        a := SomeWorkerAction(job, s, i);
      }
    case ClosingRes => a := CloseRes;
    case AwaitingReceiver =>
      a := if s.finRecv then TakeFin else if s.flow.resChan != [] then Receive else FinishReceiving;
    case Checking => a := Check;
  }

  lemma SomeWorkerAction(job: Job, s: Pool, i: nat) returns (a: Action)
    requires CallerOk(job, s) && ReceiverOk(s) && s.main == Waiting
    requires i < |s.flow.workers| && s.flow.workers[i] != Exited
    ensures a != Cancel && Enabled(job, s, a)
  {
    match s.flow.workers[i]
    case Idle => a := if s.flow.keyChan != [] then Take(i) else Quit(i);
    case Fetching(_, _) => a := Attempt(i, false, SaveIO(Unreadable, false, Refused, [], false, false), false);
    case Sending(_) => a := if |s.flow.resChan| < CONCURRENCY then Send(i) else Receive;
  }

  function WorkerWeight(w: Worker): nat {
    match w
    case Idle => 1
    case Fetching(_, retries) => 5 + retries
    case Sending(_) => 4
    case Exited => 0
  }

  function WorkersWeight(workers: seq<Worker>): nat {
    if workers == [] then 0 else WorkerWeight(workers[0]) + WorkersWeight(workers[1..])
  }

  lemma {:induction false} WorkersWeightUpdate(workers: seq<Worker>, i: nat, w: Worker)
    requires i < |workers|
    ensures WorkersWeight(workers[i := w]) + WorkerWeight(workers[i]) == WorkersWeight(workers) + WorkerWeight(w)
  {
    var workers' := workers[i := w];
    if i > 0 {
      WorkersWeightUpdate(workers[1..], i - 1, w);
      assert workers'[1..] == workers[1..][i - 1 := w];
    } else {
      assert workers'[1..] == workers[1..];
    }
  }

  function FlowMeasure(f: Flow): nat {
    12 * |f.todo| + 11 * |f.keyChan| + WorkersWeight(f.workers) + 2 * |f.resChan|
  }

  function MainMeasure(m: Main): nat {
    match m
    case Feeding => 5
    case Waiting => 4
    case ClosingRes => 3
    case AwaitingReceiver => 2
    case Checking => 1
    case Done(_) => 0
  }

  function Measure(s: Pool): nat {
    FlowMeasure(s.flow) + MainMeasure(s.main) + (if s.receiving then 1 else 0) + (if s.cancelled then 0 else 1)
  }

  lemma TriedMeasure(f: Flow, i: nat, saved: bool, giveUp: bool)
    requires i < |f.workers| && f.workers[i].Fetching?
    ensures FlowMeasure(Tried(f, i, saved, giveUp)) < FlowMeasure(f)
  {
    WorkersWeightUpdate(f.workers, i, Tried(f, i, saved, giveUp).workers[i]);
  }

  lemma TakenMeasure(f: Flow, i: nat)
    requires i < |f.workers| && f.workers[i] == Idle && f.keyChan != []
    ensures FlowMeasure(Taken(f, i)) < FlowMeasure(f)
  {
    WorkersWeightUpdate(f.workers, i, Fetching(f.keyChan[0], MAX_RETRIES));
  }

  lemma FlowMeasureStep(job: Job, s: Pool, a: Action, saved: bool)
    requires Enabled(job, s, a)
    ensures var f := NextFlow(job, s, a, saved);
            f == s.flow || FlowMeasure(f) < FlowMeasure(s.flow)
    ensures a.Feed? || a.Take? || a.Attempt? || a.Send? || a.Quit? || a.Receive? ==>
              FlowMeasure(NextFlow(job, s, a, saved)) < FlowMeasure(s.flow)
  {
    match a
    case Take(i) => TakenMeasure(s.flow, i);
    case Attempt(i, _, _, giveUp) => TriedMeasure(s.flow, i, saved, giveUp);
    case Send(i) => WorkersWeightUpdate(s.flow.workers, i, Idle);
    case Quit(i) => WorkersWeightUpdate(s.flow.workers, i, Exited);
    case _ =>
  }

  /** Every action of every participant brings the end nearer. */
  lemma MeasureStep(job: Job, s: Pool, a: Action)
    requires Enabled(job, s, a)
    ensures Measure(Apply(job, s, a)) < Measure(s)
  {
    FlowMeasureStep(job, s, a, Succeeds(job, s, a));
  }

  lemma {:induction false} RunLength(job: Job, s: Pool, actions: seq<Action>)
    requires IsRun(job, s, actions)
    ensures |actions| + Measure(After(job, s, actions)) <= Measure(s)
    decreases |actions|
  {
    if actions != [] {
      MeasureStep(job, s, actions[0]);
      RunLength(job, Apply(job, s, actions[0]), actions[1..]);
    }
  }

  /** A bound on all runs: twelve actions per key and a few more. */
  lemma RunsAreBounded(job: Job, store: Store, actions: seq<Action>)
    requires IsRun(job, Init(job, store), actions)
    ensures |actions| <= 12 * |job.sizes| + 17
  {
    RunLength(job, Init(job, store), actions);
    IdleWeight(Init(job, store).flow.workers);
  }

  lemma {:induction false} IdleWeight(workers: seq<Worker>)
    requires forall i :: 0 <= i < |workers| ==> workers[i] == Idle
    ensures WorkersWeight(workers) == |workers|
  {
    if workers != [] {
      IdleWeight(workers[1..]);
    }
  }

  // ----- what a run writes

  /** Only this job's directory was created, and only files of requested keys. */
  ghost predicate WritesOwn(job: Job, store0: Store, store: Store) {
    && store.dirs <= store0.dirs + {job.dir}
    && forall path :: path in store.files && path !in store0.files ==> IsRequested(job, path)
  }

  ghost predicate IsRequested(job: Job, path: Path) {
    exists key :: key in job.sizes && path == job.layout.ProbPath(job.dir, key)
  }

  lemma HeldIsRequested(job: Job, f: Flow, i: nat)
    requires Conserved(job, f) && i < |f.workers| && f.workers[i].Fetching?
    ensures f.workers[i].key in job.sizes
  {
    var key := f.workers[i].key;
    HeldBySome(f.workers, i, key);
    assert ConservedAt(job, f, key);
  }

  lemma WritesOwnStep(job: Job, store0: Store, s: Pool, a: Action)
    requires PoolOk(job, store0, s) && Enabled(job, s, a) && WritesOwn(job, store0, s.store)
    ensures WritesOwn(job, store0, Apply(job, s, a).store)
  {
    if a.Attempt? {
      var key := s.flow.workers[a.i].key;
      HeldIsRequested(job, s.flow, a.i);
      SaveEffect(job.layout, s.store, job.dir, key, SizeOf(job, key), a.io);
      assert IsRequested(job, job.layout.ProbPath(job.dir, key));
    } else if a.Check? {
      SubmitKeepsDisk(job.layout, s.store, job.dir, s.flow.results);
    }
  }

  lemma {:induction false} RunWritesOwn(job: Job, store0: Store, s: Pool, actions: seq<Action>)
    requires PoolOk(job, store0, s) && IsRun(job, s, actions) && WritesOwn(job, store0, s.store)
    ensures WritesOwn(job, store0, After(job, s, actions).store)
    decreases |actions|
  {
    if actions != [] {
      StepOk(job, store0, s, actions[0]);
      WritesOwnStep(job, store0, s, actions[0]);
      RunWritesOwn(job, store0, Apply(job, s, actions[0]), actions[1..]);
    }
  }

  /** Fewer or more bytes than declared. */
  predicate Short(job: Job, key: string, data: Text) {
    SizeOf(job, key) >= 0 && |data| != SizeOf(job, key)
  }

  /** An attempt that creates the file with the wrong size and cannot take it back. */
  ghost predicate LeavesShort(job: Job, s: Pool, a: Action, key: string) {
    && a.Attempt? && a.i < |s.flow.workers| && s.flow.workers[a.i].Fetching? && s.flow.workers[a.i].key == key
    && a.fetched && (a.io.lstat == Present || (a.io.lstat == Missing && a.io.mkdirOk))
    && a.io.open == Created && Short(job, key, a.io.data) && !a.io.rollbackOk
  }

  ghost predicate LeavesShortIn(job: Job, s: Pool, actions: seq<Action>, key: string)
    requires IsRun(job, s, actions)
    decreases |actions|
  {
    actions != []
    && (LeavesShort(job, s, actions[0], key) || LeavesShortIn(job, Apply(job, s, actions[0]), actions[1..], key))
  }

  ghost predicate HasShort(job: Job, store: Store, key: string) {
    var path := job.layout.ProbPath(job.dir, key);
    path in store.files && Short(job, key, store.files[path])
  }

  lemma ShortStep(job: Job, s: Pool, a: Action, key: string)
    requires Enabled(job, s, a) && GoodDigest(job.layout.sha1) && key != ""
    requires a.Attempt? ==> s.flow.workers[a.i].key != ""
    ensures var path, store' := job.layout.ProbPath(job.dir, key), Apply(job, s, a).store;
            && (path in s.store.files ==> path in store'.files && store'.files[path] == s.store.files[path])
            && (path in s.store.files ==> !LeavesShort(job, s, a, key))
            && (path !in s.store.files ==> (HasShort(job, store', key) <==> LeavesShort(job, s, a, key)))
  {
    if a.Attempt? {
      var k := s.flow.workers[a.i].key;
      SaveEffect(job.layout, s.store, job.dir, k, SizeOf(job, k), a.io);
      OwnPath(job, k, key);
    } else if a.Check? {
      SubmitKeepsDisk(job.layout, s.store, job.dir, s.flow.results);
    }
  }

  lemma OwnPath(job: Job, key: string, key': string)
    requires GoodDigest(job.layout.sha1) && key != "" && key' != ""
    ensures job.layout.ProbPath(job.dir, key) == job.layout.ProbPath(job.dir, key') <==> key == key'
  {
    var path, path' := job.layout.ProbPath(job.dir, key), job.layout.ProbPath(job.dir, key');
    assert path[|path| - 1] == job.layout.sha1(key) && path'[|path'| - 1] == job.layout.sha1(key');
  }

  /** A file that a run adds has the wrong size exactly if some attempt left it behind. */
  lemma {:induction false} ShortRun(job: Job, store0: Store, s: Pool, actions: seq<Action>, key: string)
    requires PoolOk(job, store0, s) && IsRun(job, s, actions)
    requires GoodDigest(job.layout.sha1) && "" !in job.sizes && key != ""
    ensures var path, store' := job.layout.ProbPath(job.dir, key), After(job, s, actions).store;
            && (path in s.store.files ==> path in store'.files && store'.files[path] == s.store.files[path])
            && (path in s.store.files ==> !LeavesShortIn(job, s, actions, key))
            && (path !in s.store.files ==> (HasShort(job, store', key) <==> LeavesShortIn(job, s, actions, key)))
    decreases |actions|
  {
    if actions != [] {
      var a := actions[0];
      if a.Attempt? {
        HeldIsRequested(job, s.flow, a.i);
      }
      ShortStep(job, s, a, key);
      StepOk(job, store0, s, a);
      ShortRun(job, store0, Apply(job, s, a), actions[1..], key);
    }
  }

  /**
   * After a successful fetch every requested file is there, and one that was not before has its declared size exactly
   * unless an attempt left it behind with another: a later attempt takes that file for a finished one.
   */
  lemma FetchedSizes(job: Job, store0: Store, actions: seq<Action>, key: string)
    requires IsRun(job, Init(job, store0), actions)
    requires After(job, Init(job, store0), actions).main == Done(true)
    requires GoodDigest(job.layout.sha1) && "" !in job.sizes && key in job.sizes
    requires job.layout.ProbPath(job.dir, key) !in store0.files
    ensures var path, store := job.layout.ProbPath(job.dir, key), After(job, Init(job, store0), actions).store;
            path in store.files
            && (Short(job, key, store.files[path]) <==> LeavesShortIn(job, Init(job, store0), actions, key))
  {
    InitOk(job, store0);
    ShortRun(job, store0, Init(job, store0), actions, key);
    Outcome(job, store0, actions);
    assert OnDisk(job, After(job, Init(job, store0), actions).store, key);
  }

  lemma {:induction false} HeldBySome(workers: seq<Worker>, i: nat, key: string)
    requires i < |workers| && Holds(workers[i], key)
    ensures Held(workers, key) > 0
  {
    if i > 0 {
      HeldBySome(workers[1..], i - 1, key);
    }
  }

  lemma NoPlaces(job: Job, f: Flow, key: string)
    requires job.sizes == map[] && Conserved(job, f)
    ensures Count(f.results, key) == 0 && Held(f.workers, key) == 0
  {
    assert ConservedAt(job, f, key);
  }

  lemma NothingUnderWay(job: Job, store0: Store, s: Pool, a: Action)
    requires job.sizes == map[] && PoolOk(job, store0, s) && Enabled(job, s, a)
    ensures !a.Attempt? && s.flow.results == []
  {
    if a.Attempt? {
      HeldBySome(s.flow.workers, a.i, s.flow.workers[a.i].key);
      NoPlaces(job, s.flow, s.flow.workers[a.i].key);
    }
    if s.flow.results != [] {
      NoPlaces(job, s.flow, s.flow.results[0]);
    }
  }

  /** A pool without keys to fetch never touches the store. */
  lemma {:induction false} EmptyPoolIsIdle(job: Job, store0: Store, s: Pool, actions: seq<Action>)
    requires job.sizes == map[] && PoolOk(job, store0, s) && s.store == store0 && IsRun(job, s, actions)
    ensures After(job, s, actions).store == store0
    decreases |actions|
  {
    if actions != [] {
      var a := actions[0];
      NothingUnderWay(job, store0, s, a);
      StepOk(job, store0, s, a);
      EmptyPoolIsIdle(job, store0, Apply(job, s, a), actions[1..]);
    }
  }

  // ----- how a run ends

  lemma SubsetOfSameSize(s: seq<string>, keys: set<string>)
    requires Distinct(s) && |s| == |keys|
    requires forall x :: x in s ==> x in keys
    ensures forall key :: key in keys ==> key in s
  {
    forall key | key in keys
      ensures key in s
    {
      if key !in s {
        DistinctFits(s, keys - {key});
      }
    }
  }

  /** When the caller has the last word, nothing is under way any more. */
  lemma PlacesAtEnd(job: Job, store0: Store, s: Pool, key: string)
    requires PoolOk(job, store0, s) && s.main.Done?
    ensures Count(s.flow.keyChan, key) + Count(s.flow.results, key) + Count(s.flow.abandoned, key)
         == if key in job.sizes then 1 else 0
  {
    HeldByNone(s.flow.workers, key);
    assert ConservedAt(job, s.flow, key);
  }

  lemma ResultsAreRequested(job: Job, store0: Store, s: Pool)
    requires PoolOk(job, store0, s) && s.main.Done?
    ensures Distinct(s.flow.results) && forall key :: key in s.flow.results ==> key in job.sizes
  {
    forall key
      ensures multiset(s.flow.results)[key] <= 1
      ensures key in s.flow.results ==> key in job.sizes
    {
      PlacesAtEnd(job, store0, s, key);
      assert key in s.flow.results ==> Count(s.flow.results, key) > 0;
    }
    MultiplicityDistinct(s.flow.results);
  }

  /**
   * fetchRes succeeds exactly when no key was given up or left in the channel. It then has received every requested
   * key once, and submits them; otherwise the index is untouched. Without cancellation it succeeds.
   */
  lemma Outcome(job: Job, store0: Store, actions: seq<Action>)
    requires IsRun(job, Init(job, store0), actions)
    requires After(job, Init(job, store0), actions).main.Done?
    ensures var s := After(job, Init(job, store0), actions);
            && KeepsFiles(store0, s.store) && WritesOwn(job, store0, s.store)
            && (s.main.ok <==> s.flow.keyChan == [] && s.flow.abandoned == [])
            && (!s.cancelled ==> s.main.ok)
            && (!s.main.ok ==> SameIndex(store0, s.store))
            && (s.main.ok ==>
                  && multiset(s.flow.results) == multiset(job.sizes.Keys)
                  && (forall key :: key in job.sizes ==> OnDisk(job, s.store, key))
                  && s.store == Submit(job.layout, store0.(files := s.store.files, dirs := s.store.dirs), job.dir,
                                       s.flow.results))
  {
    InitOk(job, store0);
    RunOk(job, store0, Init(job, store0), actions);
    RunWritesOwn(job, store0, Init(job, store0), actions);
    OutcomeOf(job, store0, After(job, Init(job, store0), actions));
  }

  lemma OutcomeOf(job: Job, store0: Store, s: Pool)
    requires PoolOk(job, store0, s) && s.main.Done?
    ensures s.main.ok <==> s.flow.keyChan == [] && s.flow.abandoned == []
    ensures !s.cancelled ==> s.main.ok
    ensures s.main.ok ==> multiset(s.flow.results) == multiset(job.sizes.Keys)
    ensures s.main.ok ==> forall key :: key in job.sizes ==> OnDisk(job, s.store, key)
  {
    ResultsAreRequested(job, store0, s);
    if s.main.ok {
      SubsetOfSameSize(s.flow.results, job.sizes.Keys);
    }
    forall key
      ensures s.main.ok ==> multiset(s.flow.results)[key] == multiset(job.sizes.Keys)[key]
      ensures s.main.ok ==> key !in s.flow.keyChan
      ensures s.flow.keyChan == [] && s.flow.abandoned == [] ==> (key in job.sizes ==> key in s.flow.results)
    {
      PlacesAtEnd(job, store0, s, key);
      assert key in s.flow.keyChan ==> Count(s.flow.keyChan, key) > 0;
    }
    if s.flow.keyChan == [] && s.flow.abandoned == [] {
      AllOnce(s.flow.results, job.sizes.Keys);
    }
    assert s.flow.keyChan != [] ==> s.flow.keyChan[0] in s.flow.keyChan;
    assert s.flow.workers[0] == Exited;
  }

  lemma AllOnce(s: seq<string>, keys: set<string>)
    requires Distinct(s)
    requires forall x :: x in s <==> x in keys
    ensures |s| == |keys|
  {
    DistinctFits(s, keys);
    SetFits(s, keys);
  }

  lemma {:induction false} SetFits(s: seq<string>, keys: set<string>)
    requires forall key :: key in keys ==> key in s
    ensures |keys| <= |s|
  {
    if s != [] {
      forall key | key in keys - {s[0]}
        ensures key in s[1..]
      {
      }
      SetFits(s[1..], keys - {s[0]});
    } else {
      assert keys == {};
    }
  }
}
