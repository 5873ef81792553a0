/** The daemon's rebuild bookkeeping, kept per index in dictionaries (daemon/server.py, Daemon). */
module RebuildDaemon {
  import opened Coalescing
  import opened Options
  import opened RebuildModel

  type Key = nat

  function At<V>(m: map<Key, V>, k: Key): Option<V> { if k in m then Some(m[k]) else None }

  /** Two dictionaries differ at most at one key. */
  ghost predicate SameBut<V>(m: map<Key, V>, n: map<Key, V>, k: Key) {
    forall j :: j != k ==> (j in m <==> j in n) && (j in m ==> m[j] == n[j])
  }

  ghost predicate SameSetBut(a: set<Key>, b: set<Key>, k: Key) { forall j :: j != k ==> (j in a <==> j in b) }

  type Task = w: Watcher | !w.NoWatcher? witness Waiting

  /** Coalesce paths into the key's capped set. */
  method MergeChanges(pending: map<Key, Changes>, k: Key, paths: Changes) returns (merged: map<Key, Changes>)
    ensures merged == pending[k := Merged(At(pending, k), paths)]
  {
    merged := if k in pending then pending else pending[k := Paths({})];
    var changes := merged[k];
    if changes.Everything? || paths.Everything? {
      merged := merged[k := Everything];
      return;
    }
    changes := Paths(changes.files + paths.files);
    merged := merged[k := changes];
    if |changes.files| > MAX_CHANGED_PATHS {
      merged := merged[k := Everything];
    }
  }

  /** What callers asked and were told, and what passes have begun and ended, for one key. */
  datatype Ledger = Ledger(begun: seq<Changes>, done: seq<Changes>, refreshes: nat, waiting: map<nat, Request>,
                           told: map<nat, (Request, Outcome)>, nextId: nat)

  class Daemon {
    var loaded: set<Key>
    var watchChanges: map<Key, Changes>
    var changedAt: map<Key, real>
    var watchTasks: map<Key, Task>
    var rebuildTasks: map<Key, Job>
    var rebuildChanges: map<Key, Changes>
    var rebuildScope: map<Key, Changes>
    var rebuildGraph: set<Key>
    var rebuilding: set<Key>
    var ledger: map<Key, Ledger>

    function Past(k: Key): Ledger
      reads this
    {
      if k in ledger then ledger[k] else Ledger([], [], 0, map[], map[], 0)
    }

    /** One key's state in the model. */
    function View(k: Key): Root
      reads this
    {
      Root(k in loaded, At(watchChanges, k), At(changedAt, k), if k in watchTasks then watchTasks[k] else NoWatcher,
           At(rebuildTasks, k), At(rebuildChanges, k), At(rebuildScope, k), k in rebuildGraph, k in rebuilding,
           Past(k).begun, Past(k).done, Past(k).refreshes, Past(k).waiting, Past(k).told, Past(k).nextId)
    }

    /** Whatever a task of one key does, the other keys' entries stay as they were. */
    twostate predicate OthersKept(k: Key)
      reads this
    {
      && SameSetBut(old(loaded), loaded, k) && SameBut(old(watchChanges), watchChanges, k)
      && SameBut(old(changedAt), changedAt, k) && SameBut(old(watchTasks), watchTasks, k)
      && SameBut(old(rebuildTasks), rebuildTasks, k) && SameBut(old(rebuildChanges), rebuildChanges, k)
      && SameBut(old(rebuildScope), rebuildScope, k) && SameSetBut(old(rebuildGraph), rebuildGraph, k)
      && SameSetBut(old(rebuilding), rebuilding, k) && SameBut(old(ledger), ledger, k)
    }

    constructor ()
      ensures forall k :: View(k) == Fresh
    {
      loaded, watchChanges, changedAt, watchTasks := {}, map[], map[], map[];
      rebuildTasks, rebuildChanges, rebuildScope := map[], map[], map[];
      rebuildGraph, rebuilding := {}, {};
      ledger := map[];
    }

    method Loads(k: Key)
      modifies this
      ensures View(k) == Load(old(View(k))) && OthersKept(k)
    {
      loaded := loaded + {k};
    }

    method Note(k: Key, paths: Changes, now: real)
      modifies this
      ensures View(k) == NoteChange(old(View(k)), paths, now) && OthersKept(k)
    {
      if k !in loaded { return; }
      changedAt := changedAt[k := now];
      watchChanges := MergeChanges(watchChanges, k, paths);
      if k !in watchTasks { watchTasks := watchTasks[k := Waiting]; }
    }

    /** The job's entries go. */
    method DropJob(k: Key)
      modifies this`rebuildTasks, this`rebuildChanges, this`rebuildScope, this`rebuilding, this`rebuildGraph
      ensures rebuildTasks == old(rebuildTasks) - {k} && rebuildChanges == old(rebuildChanges) - {k}
      ensures rebuildScope == old(rebuildScope) - {k} && rebuilding == old(rebuilding) - {k}
      ensures rebuildGraph == old(rebuildGraph) - {k}
    {
      rebuildTasks := rebuildTasks - {k};
      rebuildChanges := rebuildChanges - {k};
      rebuildScope := rebuildScope - {k};
      rebuilding := rebuilding - {k};
      rebuildGraph := rebuildGraph - {k};
    }

    method AnswerWaiters(k: Key, outcome: Outcome)
      modifies this`ledger
      ensures ledger == old(ledger)[k := old(Past(k)).(waiting := map[],
                                                       told := Answers(old(Past(k)).told, old(Past(k)).waiting, outcome))]
    {
      var past := Past(k);
      ledger := ledger[k := past.(waiting := map[], told := Answers(past.told, past.waiting, outcome))];
    }

    /** However the job ends, its waiters hear the outcome and its entries go. */
    method Finish(k: Key, outcome: Outcome)
      modifies this
      ensures View(k) == End(old(View(k)), outcome) && OthersKept(k)
    {
      DropJob(k);
      AnswerWaiters(k, outcome);
    }

    /** Hand a change set to the job there is, unless that job rescans everything already. */
    method Join(k: Key, paths: Changes)
      modifies this`rebuildChanges
      ensures rebuildChanges ==
                if (paths.Everything? && At(rebuildScope, k) == Some(Everything)) || paths == Paths({}) then old(rebuildChanges)
                else old(rebuildChanges)[k := Merged(old(At(rebuildChanges, k)), paths)]
    {
      if paths.Everything? {
        if !(k in rebuildScope && rebuildScope[k].Everything?) {
          rebuildChanges := MergeChanges(rebuildChanges, k, Everything);
        }
      } else if paths.files != {} {
        rebuildChanges := MergeChanges(rebuildChanges, k, paths);
      }
    }

    method StartOrJoin(k: Key, java: bool, paths: Changes)
      modifies this`rebuildGraph, this`rebuildTasks, this`rebuildChanges
      ensures View(k) == Hand(old(View(k)), java, paths) && OthersKept(k)
    {
      if java { rebuildGraph := rebuildGraph + {k}; }
      if k !in rebuildTasks {
        rebuildTasks := rebuildTasks[k := Job(Starting, java, paths, Rebuilt)];
      } else {
        Join(k, paths);
      }
    }

    /** Note the caller: answered at once when the index is not loaded, else waiting. */
    method Enter(k: Key, r: Request)
      modifies this`ledger
      ensures SameBut(old(ledger), ledger, k)
      ensures var s := old(View(k)).(nextId := r.id + 1);
              View(k) == if k in loaded then s.(waiting := s.waiting[r.id := r]) else s.(told := s.told[r.id := (r, Skipped)])
    {
      var past := Past(k);
      ledger := ledger[k := if k in loaded then past.(nextId := r.id + 1, waiting := past.waiting[r.id := r])
                            else past.(nextId := r.id + 1, told := past.told[r.id := (r, Skipped)])];
    }

    /** The synchronous part of `rebuild`; the caller then waits for the job under the returned number. */
    method Rebuild(k: Key, java: bool, paths: Changes) returns (id: nat)
      modifies this
      ensures id == old(View(k)).nextId
      ensures View(k) == Ask(old(View(k)), java, paths) && OthersKept(k)
    {
      ghost var s := View(k);
      id := Past(k).nextId;
      var r := Request(id, paths, java, SharesFullRescan(View(k), paths), |Past(k).begun|, |Past(k).done|, Past(k).refreshes);
      assert Ask(s, java, paths) == if !s.resident then s.(nextId := id + 1, told := s.told[id := (r, Skipped)])
                                    else Hand(s.(nextId := id + 1, waiting := s.waiting[id := r]), java, paths);
      Enter(k, r);
      if k in loaded { StartOrJoin(k, java, paths); }
    }

    /** The loop's head with an index pass due. */
    method LoopHead(k: Key, java: bool, paths: Changes, now: real)
      requires k in rebuildTasks
      modifies this
      ensures View(k) == Head(old(View(k)), java, paths, now) && OthersKept(k)
    {
      if k in watchTasks && now < (if k in changedAt then changedAt[k] else 0.0) + QUIET_SECONDS {
        watchChanges := MergeChanges(watchChanges, k, paths);
        Finish(k, Skipped);
        return;
      }
      BeginPass(k, java, paths);
    }

    method BeginPass(k: Key, java: bool, paths: Changes)
      requires k in rebuildTasks
      modifies this
      ensures View(k) == PassBegins(old(View(k)), java, paths) && OthersKept(k)
    {
      var past := Past(k);
      rebuilding := rebuilding + {k};
      rebuildScope := rebuildScope[k := paths];
      ledger := ledger[k := past.(begun := past.begun + [paths])];
      rebuildTasks := rebuildTasks[k := Job(Indexing(java || k in rebuildGraph), java, paths, rebuildTasks[k].result)];
    }

    method RefreshGraph(k: Key)
      requires k in rebuildTasks
      modifies this
      ensures View(k) == BeginRefresh(old(View(k))) && OthersKept(k)
    {
      var past := Past(k);
      rebuildGraph := rebuildGraph - {k};
      ledger := ledger[k := past.(refreshes := past.refreshes + 1)];
      rebuildTasks := rebuildTasks[k := rebuildTasks[k].(phase := Graphing)];
    }

    method GraphOnlyPass(k: Key)
      requires k in rebuildTasks
      modifies this
      ensures View(k) == BeginRefresh(old(View(k)).(rebuilding := true, scope := Some(Everything))) && OthersKept(k)
    {
      rebuilding := rebuilding + {k};
      rebuildScope := rebuildScope[k := Everything];
      RefreshGraph(k);
    }

    /** The end of a pass: follow up on what was asked for meanwhile, or finish. */
    method FollowUp(k: Key, now: real)
      requires k in rebuildTasks
      modifies this
      ensures View(k) == AfterPass(old(View(k)), now) && OthersKept(k)
    {
      rebuilding := rebuilding - {k};
      if k in rebuildChanges {
        var changes := rebuildChanges[k];
        rebuildChanges := rebuildChanges - {k};
        LoopHead(k, true, changes, now);
      } else if k in rebuildGraph {
        GraphOnlyPass(k);
      } else {
        Finish(k, Finished(rebuildTasks[k].result));
      }
    }

    method Begins(k: Key, now: real)
      modifies this
      ensures View(k) == JobStarts(old(View(k)), now) && OthersKept(k)
    {
      if k in rebuildTasks && rebuildTasks[k].phase.Starting? {
        LoopHead(k, rebuildTasks[k].java, rebuildTasks[k].paths, now);
      }
    }

    method PassDone(k: Key, result: PassResult)
      requires k in rebuildTasks
      modifies this`ledger, this`rebuildTasks
      ensures View(k) == PassEnds(old(View(k)), result) && OthersKept(k)
    {
      var past := Past(k);
      ledger := ledger[k := past.(done := past.done + [rebuildTasks[k].paths])];
      rebuildTasks := rebuildTasks[k := rebuildTasks[k].(result := result)];
    }

    method PassIndexed(k: Key, result: PassResult, now: real)
      modifies this
      ensures View(k) == IndexEnds(old(View(k)), result, now) && OthersKept(k)
    {
      if k in rebuildTasks && rebuildTasks[k].phase.Indexing? {
        PassDone(k, result);
        if rebuildTasks[k].phase.graphFollows || k in rebuildGraph {
          RefreshGraph(k);
        } else {
          FollowUp(k, now);
        }
      }
    }

    method GraphRefreshed(k: Key, now: real)
      modifies this
      ensures View(k) == GraphEnds(old(View(k)), now) && OthersKept(k)
    {
      if k in rebuildTasks && rebuildTasks[k].phase.Graphing? { FollowUp(k, now); }
    }

    method Raises(k: Key, outOfMemory: bool)
      modifies this
      ensures View(k) == PassRaises(old(View(k)), outOfMemory) && OthersKept(k)
    {
      if k in rebuildTasks && !rebuildTasks[k].phase.Starting? {
        Finish(k, if outOfMemory then Deferred else Failed);
      }
    }

    /** The watcher's quiet window is over: it takes what it gathered and waits for a rebuild of it. */
    method WatcherWakes(k: Key, java: bool, now: real)
      modifies this
      ensures View(k) == WatcherAsks(old(View(k)), java, now) && OthersKept(k)
    {
      if k in loaded && k in watchTasks && watchTasks[k].Waiting? && k in changedAt && now >= changedAt[k] + QUIET_SECONDS {
        var paths := if k in watchChanges then watchChanges[k] else Paths({});
        watchChanges := watchChanges - {k};
        var id := Past(k).nextId;
        HandOver(k, id, java || paths.Everything?, paths);
      }
    }

    method HandOver(k: Key, id: nat, java: bool, paths: Changes)
      requires id == View(k).nextId
      modifies this
      ensures View(k) == Ask(old(View(k)).(watcher := Asking(id)), java, paths) && OthersKept(k)
    {
      watchTasks := watchTasks[k := Asking(id)];
      var asked := Rebuild(k, java, paths);
    }

    method RetryEverything(k: Key, now: real)
      modifies this`watchTasks, this`watchChanges, this`changedAt
      ensures View(k) == old(View(k)).(watcher := Waiting, changes := Some(Everything), changedAt := Some(now + DEFER_SECONDS))
      ensures OthersKept(k)
    {
      watchChanges := watchChanges[k := Everything];
      changedAt := changedAt[k := now + DEFER_SECONDS];
      watchTasks := watchTasks[k := Waiting];
    }

    /** The watcher's rebuild answered: retry everything later, wait for what was noted meanwhile, or end. */
    method WatcherReturns(k: Key, now: real)
      modifies this
      ensures View(k) == WatcherHears(old(View(k)), now) && OthersKept(k)
    {
      if k in watchTasks && watchTasks[k].Asking? && watchTasks[k].id in Past(k).told {
        var outcome := Past(k).told[watchTasks[k].id].1;
        if outcome.Deferred? || outcome.Failed? || outcome == Finished(PutOff) {
          RetryEverything(k, now);
        } else if k in watchChanges {
          watchTasks := watchTasks[k := Waiting];
        } else {
          StopWatching(k);
        }
      }
    }

    method StopWatching(k: Key)
      modifies this`watchTasks, this`watchChanges, this`changedAt
      ensures View(k) == old(View(k)).(watcher := NoWatcher, changes := None, changedAt := None) && OthersKept(k)
    {
      watchTasks := watchTasks - {k};
      watchChanges := watchChanges - {k};
      changedAt := changedAt - {k};
    }

    /** The index left the cache. */
    method OnEvict(k: Key)
      modifies this
      ensures View(k) == Evict(old(View(k))) && OthersKept(k)
    {
      if k !in loaded { return; }
      loaded := loaded - {k};
      StopWatching(k);
      if k !in rebuilding { Finish(k, Skipped); }
    }
  }
}
