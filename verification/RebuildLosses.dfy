/** Which steps can lose an edit: one a caller named, or one the watcher noted (daemon/server.py, Daemon.rebuild,
    _run_rebuild, _watch_rebuild and _on_evict). */
module RebuildLosses {
  import opened Coalescing
  import opened Options
  import opened RebuildAnswers
  import opened RebuildModel

  // ---- edits a caller named ---------------------------------------------------------------------

  predicate Named(r: Request, w: Want) { !r.shared && Wants(r.asked, w) }

  /** A pass begun since rescans it, or the watcher holds it. */
  ghost predicate Kept(s: Root, since: nat, w: Want) { Rescanned(s.begun, since, w) || Holds(s.changes, w) }

  ghost predicate AllKept(s: Root, r: Request) { forall w :: Named(r, w) ==> Kept(s, r.since, w) }

  predicate Fits(asked: Changes, c: Changes) { c.Everything? || (asked.Paths? && asked.files <= c.files) }

  /** What can be seen before a step that answers the caller: a first step must hand back what it named, a raise must
      find every joined edit of it with an earlier pass or with the watcher, an eviction keeps nothing. */
  ghost predicate StepKeeps(s: Root, e: Event, r: Request)
    requires s.job.Some?
  {
    match e
    case Started => r.shared || Fits(r.asked, Merged(s.changes, s.job.value.paths))
    case Raised(_) => forall w :: Named(r, w) && Holds(s.joined, w) ==> Kept(s, r.since, w)
    case Evicted => r.shared || r.asked == Paths({})
    case _ => true
  }

  lemma WantsFit(asked: Changes, c: Changes)
    ensures (forall w :: Wants(asked, w) ==> Gives(c, w)) <==> Fits(asked, c)
  {
    if !Fits(asked, c) {
      if asked.Everything? {
        assert Wants(asked, WholeTree) && !Gives(c, WholeTree);
      } else {
        var f :| f in asked.files && f !in c.files;
        assert Wants(asked, OneFile(f)) && !Gives(c, OneFile(f));
      }
    }
  }

  /** Nothing was begun yet for a caller of a job that has not begun. */
  lemma NothingBegunYet(s: Root, r: Request, w: Want)
    requires Serves(s, r) && s.job.Some? && s.job.value.phase.Starting?
    ensures !Rescanned(s.begun, r.since, w)
  {}

  lemma FirstSkipKeeps(s: Root, now: real, id: nat)
    requires Inv(s) && id in s.waiting && s.job.Some? && s.job.value.phase.Starting? && StillChanging(s, now)
    ensures AllKept(JobStarts(s, now), s.waiting[id]) <==> StepKeeps(s, Started, s.waiting[id])
  {
    var t, r := JobStarts(s, now), s.waiting[id];
    var kept := Merged(s.changes, s.job.value.paths);
    assert t.changes == Some(kept) && t.begun == s.begun;
    WantsFit(r.asked, kept);
    forall w ensures Kept(t, r.since, w) <==> Gives(kept, w) { NothingBegunYet(s, r, w); }
    if !r.shared { assert forall w :: Named(r, w) <==> Wants(r.asked, w); }
  }

  /** A skip after a pass hands back all that joined, which is all that was not begun. */
  lemma LaterSkipKeeps(s: Root, now: real, r: Request)
    requires Serves(s, r) && s.job.Some? && !s.job.value.phase.Starting?
    ensures AllKept(AfterPass(s, now), r) || AfterPass(s, now).job.Some?
  {
    var t := AfterPass(s, now);
    if t.job.None? {
      forall w | Named(r, w) ensures Kept(t, r.since, w) {
        assert Owed(s, r, w);
        if s.joined.Some? { MergedGives(s.changes, s.joined.value, w); }
      }
    }
  }

  lemma RaiseKeeps(s: Root, outOfMemory: bool, id: nat)
    requires Inv(s) && id in s.waiting && s.job.Some? && !s.job.value.phase.Starting?
    ensures AllKept(PassRaises(s, outOfMemory), s.waiting[id]) <==> StepKeeps(s, Raised(outOfMemory), s.waiting[id])
  {
    var t, r := PassRaises(s, outOfMemory), s.waiting[id];
    forall w ensures Kept(t, r.since, w) <==> Kept(s, r.since, w) {}
    forall w | Named(r, w) ensures Owed(s, r, w) { assert Serves(s, r); }
  }

  lemma EvictionKeeps(s: Root, id: nat)
    requires Inv(s) && id in s.waiting && s.resident && !s.rebuilding
    ensures s.job.Some? && (AllKept(Evict(s), s.waiting[id]) <==> StepKeeps(s, Evicted, s.waiting[id]))
  {
    var t, r := Evict(s), s.waiting[id];
    forall w ensures !Kept(t, r.since, w) { NothingBegunYet(s, r, w); }
    if !r.shared && r.asked != Paths({}) {
      if r.asked.Everything? {
        assert Named(r, WholeTree);
      } else {
        var f :| f in r.asked.files;
        assert Named(r, OneFile(f));
      }
    }
  }

  predicate JobStep(e: Event) { e.Started? || e.Indexed? || e.Refreshed? || e.Raised? || e.Evicted? }

  lemma AskAnswersNobody(s: Root, java: bool, paths: Changes, id: nat)
    requires id in s.waiting
    ensures id in Ask(s, java, paths).waiting
  {}

  /** Only the job's own steps and an eviction answer anyone who waits. */
  lemma OthersAnswerNobody(s: Root, e: Event, now: real, id: nat)
    requires id in s.waiting && !JobStep(e)
    ensures id in Step(s, e, now).waiting
  {
    match e
    case Asked(java, paths) => AskAnswersNobody(s, java, paths, id);
    case Woken(java) => WakingAnswersNobody(s, java, now, id);
    case _ =>
  }

  lemma WakingAnswersNobody(s: Root, java: bool, now: real, id: nat)
    requires id in s.waiting
    ensures id in WatcherAsks(s, java, now).waiting
  {}

  lemma PassEndKeeps(s: Root, e: Event, now: real, id: nat)
    requires Inv(s) && id in s.waiting && id !in Step(s, e, now).waiting && (e.Indexed? || e.Refreshed?)
    ensures s.job.Some? && AllKept(Step(s, e, now), s.waiting[id])
  {
    match e
    case Indexed(result) =>
      PassEndServes(s, result, s.waiting[id]);
      LaterSkipKeeps(PassEnds(s, result), now, s.waiting[id]);
    case Refreshed => LaterSkipKeeps(s, now, s.waiting[id]);
  }

  /** In every reachable state, for every step and every caller it answers: all the caller named is in a pass begun since
      its call or with the watcher, if and only if the step is none of three that keep less. */
  lemma AnsweredEditsAreKept(s: Root, e: Event, now: real, id: nat)
    requires Reachable(s) && id in s.waiting && id !in Step(s, e, now).waiting
    ensures s.job.Some? && (AllKept(Step(s, e, now), s.waiting[id]) <==> StepKeeps(s, e, s.waiting[id]))
  {
    ReachableInv(s);
    if !JobStep(e) {
      OthersAnswerNobody(s, e, now, id);
    } else {
      match e
      case Started => FirstSkipKeeps(s, now, id);
      case Raised(outOfMemory) => RaiseKeeps(s, outOfMemory, id);
      case Evicted => EvictionKeeps(s, id);
      case _ => PassEndKeeps(s, e, now, id);
    }
  }

  lemma PassEndServes(s: Root, result: PassResult, r: Request)
    requires Serves(s, r) && s.job.Some? && !s.job.value.phase.Starting?
    ensures Serves(PassEnds(s, result), r)
  {
    forall w | Wants(r.asked, w) && Owed(s, r, w) ensures Owed(PassEnds(s, result), r, w) {}
  }

  // ---- edits the watcher noted ---------------------------------------------------------------------

  /** The watcher heard that its rebuild came to nothing, and will rescan everything. */
  predicate FullRetry(s: Root) { s.watcher.Asking? && s.watcher.id in s.told && Retries(s.told[s.watcher.id].1) }

  /** The watcher waits for a job that holds this. */
  predicate WithJob(s: Root, w: Want) {
    && s.watcher.Asking? && s.watcher.id in s.waiting && s.job.Some?
    && ((s.job.value.phase.Starting? && Gives(s.job.value.paths, w)) || Holds(s.joined, w))
  }

  /** A noted edit that is not lost: rescanned since, with the watcher, with the job, or covered by a full rescan to come. */
  ghost predicate Safe(s: Root, w: Want, since: nat) {
    since <= |s.begun| && (Rescanned(s.begun, since, w) || Holds(s.changes, w) || FullRetry(s) || WithJob(s, w))
  }

  predicate WatcherWakes(s: Root, now: real) {
    s.resident && s.watcher.Waiting? && s.changedAt.Some? && now >= s.changedAt.value + QUIET_SECONDS
  }

  /** The steps that can lose a noted edit: a first step that hands back other paths, a full rescan shared with a pass
      already begun, an eviction. */
  predicate Loses(s: Root, e: Event, now: real, w: Want) {
    match e
    case Started =>
      && s.job.Some? && s.job.value.phase.Starting? && StillChanging(s, now) && !FullRetry(s)
      && !Gives(Merged(s.changes, s.job.value.paths), w)
    case Woken(_) =>
      WatcherWakes(s, now) && s.changes == Some(Everything) && SharesFullRescan(s, Everything) && !Holds(s.joined, w)
    case Evicted => s.resident
    case _ => false
  }

  /** A noted edit is safe at once. */
  lemma NotedIsSafe(s: Root, paths: Changes, now: real, w: Want)
    requires s.resident && Gives(paths, w)
    ensures Safe(NoteChange(s, paths, now), w, |s.begun|)
  {
    MergedGives(s.changes, paths, w);
  }

  lemma EndSafety(s: Root, outcome: Outcome, w: Want, since: nat)
    requires Inv(s) && since <= |s.begun|
    ensures Retries(outcome) && WithJob(s, w) ==> Safe(End(s, outcome), w, since)
    ensures Rescanned(s.begun, since, w) || Holds(s.changes, w) || FullRetry(s) ==> Safe(End(s, outcome), w, since)
    ensures Safe(End(s, outcome), w, since) && !Retries(outcome) ==>
              Rescanned(s.begun, since, w) || Holds(s.changes, w) || FullRetry(s)
  {}

  lemma BeginSafety(s: Root, java: bool, paths: Changes, w: Want, since: nat)
    requires s.job.Some? && since <= |s.begun|
    requires Gives(paths, w) || Rescanned(s.begun, since, w) || Holds(s.changes, w) || FullRetry(s)
             || (WithJob(s, w) && Holds(s.joined, w))
    ensures Safe(PassBegins(s, java, paths), w, since)
  {
    var t := PassBegins(s, java, paths);
    if Rescanned(s.begun, since, w) { RescannedLater(s.begun, [paths], since, w); }
    if Gives(paths, w) { assert t.begun[|s.begun|] == paths; }
  }

  /** A skip keeps what was rescanned or covered by a full rescan to come, and what it merges for the watcher. */
  lemma SkipSafety(s: Root, paths: Changes, w: Want, since: nat)
    requires since <= |s.begun| && forall id :: id in s.waiting ==> id !in s.told
    ensures Safe(End(s.(changes := Some(Merged(s.changes, paths))), Skipped), w, since) <==>
            Rescanned(s.begun, since, w) || Gives(Merged(s.changes, paths), w) || FullRetry(s)
  {}

  lemma HeadSafety(s: Root, java: bool, paths: Changes, now: real, w: Want, since: nat)
    requires s.job.Some? && since <= |s.begun| && forall id :: id in s.waiting ==> id !in s.told
    requires Gives(paths, w) || Rescanned(s.begun, since, w) || Holds(s.changes, w) || FullRetry(s)
    ensures Safe(Head(s, java, paths, now), w, since)
  {
    if StillChanging(s, now) {
      MergedGives(s.changes, paths, w);
      SkipSafety(s, paths, w, since);
    } else {
      BeginSafety(s, java, paths, w, since);
    }
  }

  lemma AfterPassSafety(s: Root, now: real, w: Want, since: nat)
    requires Inv(s) && s.job.Some? && !s.job.value.phase.Starting? && Safe(s, w, since)
    ensures Safe(AfterPass(s, now), w, since)
  {
    var u := s.(rebuilding := false);
    if s.joined.Some? {
      HeadSafety(u.(joined := None), true, s.joined.value, now, w, since);
    } else if !s.graphMark {
      EndSafety(s, Finished(s.job.value.result), w, since);
      assert End(u, Finished(s.job.value.result)) == End(s, Finished(s.job.value.result));
    }
  }

  lemma PassEndSafety(s: Root, e: Event, now: real, w: Want, since: nat)
    requires Inv(s) && Safe(s, w, since) && (e.Indexed? || e.Refreshed?)
    ensures Safe(Step(s, e, now), w, since)
  {
    match e
    case Indexed(result) =>
      if s.job.Some? && s.job.value.phase.Indexing? {
        var u := PassEnds(s, result);
        if !(u.job.value.phase.graphFollows || u.graphMark) { IndexedSafety(s, result, now, w, since); }
      }
    case Refreshed =>
      if s.job.Some? && s.job.value.phase.Graphing? { AfterPassSafety(s, now, w, since); }
  }

  lemma IndexedSafety(s: Root, result: PassResult, now: real, w: Want, since: nat)
    requires Inv(s) && Safe(s, w, since) && s.job.Some? && s.job.value.phase.Indexing?
    ensures Safe(AfterPass(PassEnds(s, result), now), w, since)
  {
    var u := PassEnds(s, result);
    forall id | id in u.waiting ensures Serves(u, u.waiting[id]) { PassEndServes(s, result, s.waiting[id]); }
    if u.joined.Some? {
      HeadSafety(u.(rebuilding := false, joined := None), true, u.joined.value, now, w, since);
    }
  }

  lemma FirstStepSafety(s: Root, now: real, w: Want, since: nat)
    requires Inv(s) && Safe(s, w, since) && s.job.Some? && s.job.value.phase.Starting?
    ensures Safe(JobStarts(s, now), w, since) <==> !Loses(s, Started, now, w) || Rescanned(s.begun, since, w)
  {
    if StillChanging(s, now) {
      MergedGives(s.changes, s.job.value.paths, w);
      SkipSafety(s, s.job.value.paths, w, since);
    } else {
      BeginSafety(s, s.job.value.java, s.job.value.paths, w, since);
    }
  }

  /** What the watcher hands over is with the job, unless a full rescan is shared with a pass already begun. */
  lemma HandedOverSafety(s: Root, java: bool, paths: Changes, w: Want, since: nat)
    requires Inv(s) && Safe(s, w, since) && s.resident && s.watcher.Waiting? && s.changes == Some(paths)
    ensures Safe(Ask(s.(changes := None, watcher := Asking(s.nextId)), java, paths), w, since) <==>
            !(paths.Everything? && SharesFullRescan(s, Everything) && !Holds(s.joined, w)) || Rescanned(s.begun, since, w)
  {
    var t := Ask(s.(changes := None, watcher := Asking(s.nextId)), java, paths);
    assert t.begun == s.begun && t.changes.None? && s.nextId in t.waiting && s.nextId !in t.told;
    assert Safe(t, w, since) <==> Rescanned(s.begun, since, w) || WithJob(t, w);
    MergedGives(s.joined, paths, w);
  }

  lemma WakeSafety(s: Root, java: bool, now: real, w: Want, since: nat)
    requires Inv(s) && Safe(s, w, since)
    ensures Safe(WatcherAsks(s, java, now), w, since) <==> !Loses(s, Woken(java), now, w) || Rescanned(s.begun, since, w)
  {
    if WatcherWakes(s, now) && s.changes.Some? { HandedOverSafety(s, java || s.changes.value.Everything?, s.changes.value, w, since); }
  }

  lemma AskKeepsTheJobs(s: Root, java: bool, paths: Changes, w: Want)
    requires Inv(s) && WithJob(s, w)
    ensures WithJob(Ask(s, java, paths), w)
  {
    MergedGives(s.joined, paths, w);
  }

  lemma AskSafety(s: Root, java: bool, paths: Changes, w: Want, since: nat)
    requires Inv(s) && Safe(s, w, since)
    ensures Safe(Ask(s, java, paths), w, since)
  {
    if WithJob(s, w) { AskKeepsTheJobs(s, java, paths, w); }
  }

  /** In every reachable state, a noted edit that is safe stays so exactly when the step is none of the three that lose
      it, or it was rescanned already. */
  lemma NotedEditStaysSafe(s: Root, e: Event, now: real, w: Want, since: nat)
    requires Reachable(s) && Safe(s, w, since)
    ensures Safe(Step(s, e, now), w, since) <==> !Loses(s, e, now, w) || Rescanned(s.begun, since, w)
  {
    ReachableInv(s);
    match e
    case Started => if s.job.Some? && s.job.value.phase.Starting? { FirstStepSafety(s, now, w, since); }
    case Woken(java) => WakeSafety(s, java, now, w, since);
    case Asked(java, paths) => AskSafety(s, java, paths, w, since);
    case Indexed(_) => PassEndSafety(s, e, now, w, since);
    case Refreshed => PassEndSafety(s, e, now, w, since);
    case Raised(outOfMemory) => EndSafety(s, if outOfMemory then Deferred else Failed, w, since);
    case Noted(paths) => if s.changes.Some? { MergedGives(s.changes, paths, w); }
    case _ =>
  }

  /** From the moment it is noted, an edit is safe after any run without a losing step. */
  lemma {:induction false} NotedEditsAreSafe(s: Root, events: seq<(Event, real)>, w: Want, since: nat)
    requires Reachable(s) && Safe(s, w, since)
    requires forall i :: 0 <= i < |events| ==> !Loses(Run(s, events[..i]), events[i].0, events[i].1, w)
    ensures Reachable(Run(s, events)) && Safe(Run(s, events), w, since)
    decreases |events|
  {
    if events != [] {
      var before, last := events[..|events| - 1], events[|events| - 1];
      forall i | 0 <= i < |before| ensures !Loses(Run(s, before[..i]), before[i].0, before[i].1, w) {
        assert before[..i] == events[..i];
      }
      NotedEditsAreSafe(s, before, w, since);
      NotedEditStaysSafe(Run(s, before), last.0, last.1, w, since);
      StepIsReachable(Run(s, before), last.0, last.1);
    }
  }

  // ---- runs that lose something -------------------------------------------------------------------

  /** A loaded root whose watcher has gathered one edit. */
  lemma OneEditGathered() returns (s: Root)
    ensures Reachable(s) && s == Fresh.(resident := true, changes := Some(Paths({2})), changedAt := Some(0.0), watcher := Waiting)
  {
    assert Run(Fresh, []) == Fresh;
    s := Step(Fresh, Loaded, 0.0);
    StepIsReachable(Fresh, Loaded, 0.0);
    StepIsReachable(s, Noted(Paths({2})), 0.0);
    assert Merged(None, Paths({2})) == Paths({2}) by { assert {} + {2} == {2}; }
    s := Step(s, Noted(Paths({2})), 0.0);
  }

  /** The watcher's batch joins a job that somebody started and that has not begun its first pass. */
  lemma BatchJoinsAStartingJob() returns (s: Root)
    ensures Reachable(s) && s.resident && s.changes == None && s.watcher == Asking(1) && s.nextId == 2
    ensures s.job == Some(Job(Starting, false, Paths({1}), Rebuilt)) && s.begun == []
    ensures 1 in s.waiting && s.waiting[1].asked == Paths({2}) && s.joined.Some?
  {
    s := OneEditGathered();
    StepIsReachable(s, Asked(false, Paths({1})), 5.0);
    s := Step(s, Asked(false, Paths({1})), 5.0);
    StepIsReachable(s, Woken(false), 5.0);
    s := Step(s, Woken(false), 5.0);
  }

  /** Such a skip can lose an edit the watcher saw: its batch joins a job that has not started, another edit arrives,
      and the job finds the tree still changing and hands back only the paths it was started with. */
  lemma WatcherCanLoseAnEdit() returns (s: Root)
    ensures Reachable(s) && s.job.None? && s.joined.None? && s.begun == [] && !Holds(s.changes, OneFile(2))
    ensures 1 in s.told && s.told[1].0.asked == Paths({2}) && s.told[1].1 == Skipped
  {
    s := BatchJoinsAStartingJob();
    StepIsReachable(s, Noted(Paths({3})), 5.0);
    s := Step(s, Noted(Paths({3})), 5.0);
    assert s.changes == Some(Merged(None, Paths({3})));
    assert s.changes == Some(Paths({3})) by { assert {} + {3} == {3}; }
    StepIsReachable(s, Started, 5.0);
    s := Step(s, Started, 5.0);
    assert s.changes == Some(Paths({1, 3})) by { assert {3} + {1} == {1, 3} && |{1, 3}| == 2; }
  }

  /** A job that somebody started rescans everything. */
  lemma FullRescanRuns() returns (s: Root)
    ensures Reachable(s) && s.resident && s.changes == None && s.watcher == NoWatcher && s.joined == None
    ensures s.job == Some(Job(Indexing(false), false, Everything, Rebuilt)) && s.scope == Some(Everything)
    ensures s.begun == [Everything] && s.nextId == 1 && !s.graphMark
  {
    assert Run(Fresh, []) == Fresh;
    s := Step(Fresh, Loaded, 0.0);
    StepIsReachable(Fresh, Loaded, 0.0);
    StepIsReachable(s, Asked(false, Everything), 0.0);
    s := Step(s, Asked(false, Everything), 0.0);
    StepIsReachable(s, Started, 0.0);
    s := Step(s, Started, 0.0);
  }

  /** The watcher, told of a change to everything meanwhile, shares it. */
  lemma WatcherSharesTheRescan() returns (s: Root)
    ensures Reachable(s) && s.resident && s.changes == None && s.watcher == Asking(1) && s.joined == None
    ensures s.job == Some(Job(Indexing(false), false, Everything, Rebuilt)) && s.graphMark && s.begun == [Everything]
    ensures 1 in s.waiting && s.waiting[1].asked == Everything && s.waiting[1].since == 1
  {
    s := FullRescanRuns();
    StepIsReachable(s, Noted(Everything), 1.0);
    s := Step(s, Noted(Everything), 1.0);
    StepIsReachable(s, Woken(false), 3.0);
    s := Step(s, Woken(false), 3.0);
  }

  lemma SharedRescanFinishes() returns (s: Root)
    ensures Reachable(s) && s.job.None? && s.changes == None && s.watcher == Asking(1) && s.begun == [Everything]
    ensures 1 in s.told && s.told[1].0.asked == Everything && s.told[1].0.since == 1 && s.told[1].1 == Finished(Rebuilt)
  {
    s := WatcherSharesTheRescan();
    StepIsReachable(s, Indexed(Rebuilt), 4.0);
    s := Step(s, Indexed(Rebuilt), 4.0);
    StepIsReachable(s, Refreshed, 5.0);
    s := Step(s, Refreshed, 5.0);
  }

  /** Sharing can lose edits too: all of them noted after the pass began, handed over as a full rescan, and the watcher
      hears that it finished. */
  lemma SharedRescanCanLoseAnEdit() returns (s: Root)
    ensures Reachable(s) && s.job.None? && s.begun == [Everything] && s.watcher == NoWatcher
    ensures 1 in s.told && s.told[1].0.asked == Everything && s.told[1].0.since == 1 && s.told[1].1 == Finished(Rebuilt)
    ensures !Safe(s, WholeTree, 1)
  {
    s := SharedRescanFinishes();
    StepIsReachable(s, Heard, 5.0);
    s := Step(s, Heard, 5.0);
  }
}
