/** The resource manager as an object (resource/manager.go): it keeps the cache state step by step. */
module ResourceManager {
  import opened Cache
  import opened Digraph
  import opened FetchPool
  import opened Problems
  import opened Seqs
  import opened Storage
  import opened SubtaskGraph

  class Manager {
    const fs: FileStore
    var problems: map<string, Entry>
    ghost var handles: multiset<string>  // the unlock functions still to be called, by entry
    ghost var broken: set<string>        // the entries whose directory could not be removed whole

    ghost function View(): State
      reads this, fs
    {
      State(problems, fs.View(), handles, broken)
    }

    ghost predicate Valid()
      reads this, fs
    {
      CacheOk(fs.layout, View())
    }

    constructor (fs: FileStore)
      requires fs.Valid() && fs.tmpFiles == map[] && fs.probFiles == map[] && fs.shaToKey == map[]
      ensures this.fs == fs && Valid() && View() == Empty(fs.files, fs.dirs)
    {
      this.fs := fs;
      problems, handles, broken := map[], multiset{}, {};
    }

    /** Collects the resources of a problem; a key that is listed twice keeps its last size. */
    method CollectKeys(p: Problem) returns (keys: map<string, int>)
      ensures keys == Resources(p)
    {
      keys := map[];
      for i := 0 to |p.subtasks|
        invariant keys == SubtaskResources(p, p.subtasks[..i])
      {
        var cases := p.subtasks[i].testCases;
        ghost var before := keys;
        for j := 0 to |cases|
          invariant keys == CaseResources(p, cases[..j], before)
        {
          TakeOneMore(cases, j);
          assert cases[..j + 1][..j] == cases[..j];
          keys := keys[cases[j].inputKey := AsInt64(cases[j].inputSize)];
          if p.kind != SPECIAL {
            keys := keys[cases[j].outputKey := AsInt64(cases[j].outputSize)];
          }
        }
        TakeAll(cases);
        TakeOneMore(p.subtasks, i);
        assert p.subtasks[..i + 1][..i] == p.subtasks[..i];
      }
      TakeAll(p.subtasks);
      if p.kind == SPECIAL {
        keys := keys[p.spjBinaryKey := -1];
      }
      keys := keys - {""};
    }

    /** Fetches all resources with the pool, whose run ends in end, and indexes them if none is missing. */
    method FetchRes(p: Problem, end: Pool) returns (ok: bool)
      requires fs.Valid() && IsEnd(fs.layout, fs.View(), p, end)
      modifies fs
      ensures fs.View() == end.store && ok == (end.main == Done(true))
    {
      var keys := CollectKeys(p);
      var job := Job(fs.layout, KeyOf(fs.layout.sha1, p), keys);
      ghost var before := fs.View();
      FetchLeaves(fs.layout, before, p, end);
      fs.files, fs.dirs := end.store.files, end.store.dirs;
      KeepingFilesKeepsIndex(fs.layout, before, fs.View());
      if end.main != Done(true) {
        return false;
      }
      EndIsSubmitted(fs.layout, before, p, end);
      forall res | res in end.flow.results
        ensures Saved(fs.layout, fs.View(), job.dir, res)
      {
        assert OnDisk(job, fs.View(), res) && res in Resources(p);
      }
      fs.SubmitResourceKeys(job.dir, end.flow.results);
      return true;
    }

    /** Prepares a problem that is not cached yet, and locks it. */
    method PrepareThenLock(id: string, version: string, remote: Remote, end: Pool) returns (answer: Answer)
      requires Valid() && Legal(fs.layout, View(), Op.PrepareThenLock(id, version, remote, end))
      modifies this, fs
      ensures Valid()
      ensures (View(), answer) == Prepare(fs.layout, old(View()), id, version, remote, end)
    {
      PrepareOk(fs.layout, View(), id, version, remote, end);
      var key := EntryKey(fs.layout.sha1, id, version);
      if key !in problems {
        if remote.Unreachable? {
          return Rejected;
        }
        key := KeyOf(fs.layout.sha1, remote.problem);
      }
      if key !in problems {
        var ok := AddEntry(remote.problem, end);
        if !ok {
          return Rejected;
        }
      }
      AddHandle(key);
      return Prepared(key, problems[key].problem);
    }

    /** Counts one more lock, for an unlock function that is handed out. */
    method AddHandle(key: string)
      requires key in problems
      modifies this`problems, this`handles
      ensures View() == Locked(old(View()), key)
    {
      problems := problems[key := problems[key].(locks := problems[key].locks + 1)];
      handles := handles + multiset{key};
    }

    /** Verifies a problem, fetches its resources and caches it, unlocked. */
    method AddEntry(p: Problem, end: Pool) returns (ok: bool)
      requires fs.Valid()
      requires Acyclic(Ids(p.subtasks), DependencyEdges(p.subtasks)) ==>
                 IsEnd(fs.layout, fs.View(), p, end)
      modifies this, fs
      ensures ok == (Acyclic(Ids(p.subtasks), DependencyEdges(p.subtasks)) && end.main == Done(true))
      ensures View() == if ok then WithFetched(fs.layout, old(View()), p, end)
                        else if Acyclic(Ids(p.subtasks), DependencyEdges(p.subtasks))
                        then old(View()).(store := end.store)
                        else old(View())
    {
      var admitted := VerifyProblem(p);
      if !admitted {
        return false;
      }
      ok := FetchRes(p, end);
      if !ok {
        return false;
      }
      problems := problems[KeyOf(fs.layout.sha1, p) := FromProblem(p)];
    }

    /**
     * Counts one lock less on the problem's entry, if there is one. As the call of an outstanding unlock function it
     * keeps the cache consistent; a superfluous call is possible too.
     */
    method Unlock(p: Problem)
      modifies this`problems, this`handles
      ensures View() == Cache.Unlock(old(View()), KeyOf(fs.layout.sha1, p))
      ensures old(Valid()) && KeyOf(fs.layout.sha1, p) in old(handles) ==> Valid()
    {
      ghost var before := View();
      var key := KeyOf(fs.layout.sha1, p);
      if key in problems {
        problems := problems[key := problems[key].(locks := problems[key].locks - 1)];
      }
      handles := handles - multiset{key};
      UnlockKeeps(fs.layout, before, key);
    }

    /** Evicts one entry unless it is locked; the answer is false when its files could not be removed. */
    method EvictEntry(prob: string, io: EvictIO) returns (ok: bool)
      requires Valid() && RealisticListing(fs.layout, fs.View(), prob, io)
      modifies this, fs
      ensures Valid() && View() == EvictOne(fs.layout, old(View()), prob, io)
      ensures ok <==> (prob in old(problems) && old(problems)[prob].locks <= 0 ==> io.readOk && io.removeOk)
    {
      EvictOneOk(fs.layout, View(), prob, io);
      if prob !in problems || problems[prob].locks > 0 {
        return true;
      }
      KeyIsPlain(fs.layout, View(), prob);
      var evicted := fs.EvictProblem(prob, io);
      if !evicted {
        broken := if io.readOk then broken + {prob} else broken;
        return false;
      }
      problems := problems - {prob};
      broken := broken - {prob};
      return true;
    }

    /** Evicts every unlocked problem, visiting the entries in some order. */
    method EvictAll(order: seq<string>, ios: map<string, EvictIO>) returns (ok: bool)
      requires Valid() && LegalEviction(fs.layout, View(), order, ios)
      modifies this, fs
      ensures Valid() && View() == Cache.EvictAll(fs.layout, old(View()), order, ios)
      ensures ok <==> forall key :: key in order && key in old(problems) && old(problems)[key].locks <= 0 ==>
                        ios[key].readOk && ios[key].removeOk
    {
      ghost var start := View();
      ok := true;
      for i := 0 to |order|
        invariant Valid() && View() == Cache.EvictAll(fs.layout, start, order[..i], ios)
        invariant ok <==> forall key :: key in order[..i] && key in start.problems && start.problems[key].locks <= 0 ==>
                            ios[key].readOk && ios[key].removeOk
      {
        EvictionGoesOn(fs.layout, start, order, ios, i);
        var evicted := EvictEntry(order[i], ios[order[i]]);
        ok := ok && evicted;
        assert forall key :: key in order[..i + 1] <==> key in order[..i] || key == order[i];
      }
      TakeAll(order);
    }
  }

  /** Entry i is untouched by the evictions before it, and its directory still lists what it did. */
  lemma EvictionGoesOn(l: Layout, start: State, order: seq<string>, ios: map<string, EvictIO>, i: nat)
    requires CacheOk(l, start) && LegalEviction(l, start, order, ios) && i < |order|
    ensures var now := Cache.EvictAll(l, start, order[..i], ios);
            && RealisticListing(l, now.store, order[i], ios[order[i]])
            && Cache.EvictAll(l, start, order[..i + 1], ios) == EvictOne(l, now, order[i], ios[order[i]])
            && (order[i] in now.problems <==> order[i] in start.problems)
            && (order[i] in now.problems ==> now.problems[order[i]] == start.problems[order[i]])
  {
    EvictAllOk(l, start, order[..i], ios);
    EvictAllTakes(l, start, order[..i], ios);
    assert order[i] !in order[..i];
    TakeOneMore(order, i);
    assert order[..i + 1][..i] == order[..i];
  }
}
