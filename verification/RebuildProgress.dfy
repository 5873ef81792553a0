/** Nothing gets stuck: from any state the tasks' own steps lead to where every caller is answered and every gathered edit
    is in a pass (daemon/server.py, Daemon._run_rebuild and _watch_rebuild). */
module RebuildProgress {
  import opened Coalescing
  import opened Options
  import opened RebuildAnswers
  import opened RebuildModel
  import opened RebuildResults

  /** A moment by which the tree is quiet. */
  function Quiet(s: Root): real { (if s.changedAt.Some? then s.changedAt.value else 0.0) + 2.0 }

  /** How much a job has still to do, if nobody asks anything more. */
  function PassesLeft(s: Root): nat { if s.joined.Some? then 1 else 0 }

  function RefreshesLeft(s: Root): nat { if s.graphMark then 1 else 0 }

  function PhasesLeft(s: Root): nat {
    if s.job.None? then 0
    else match s.job.value.phase case Starting => 3 case Indexing(_) => 2 case Graphing => 1
  }

  /** The step the job waits for. */
  function JobsOwn(s: Root): Event
    requires s.job.Some?
  {
    match s.job.value.phase case Starting => Started case Indexing(_) => Indexed(Rebuilt) case Graphing => Refreshed
  }

  /** A step of the job itself or of the watcher, and every pass ends well. */
  predicate OwnStep(e: Event) { e in {Started, Indexed(Rebuilt), Refreshed, Heard, Woken(false)} }

  /** What the job's own steps leave alone: the watcher and what it holds; nobody asks, and no answer is lost. */
  ghost predicate JobOnly(s: Root, t: Root) {
    && t.resident == s.resident && t.changes == s.changes && t.changedAt == s.changedAt && t.watcher == s.watcher
    && t.nextId == s.nextId && s.begun <= t.begun
    && (forall id :: id in s.told && id !in s.waiting ==> id in t.told && t.told[id] == s.told[id])
    && (forall id :: id in s.waiting ==> Kept(t, id, s.waiting[id]))
    && (t.job.Some? ==> t.waiting == s.waiting)
  }

  /** The caller waits on, or heard that its rebuild finished. */
  predicate Kept(t: Root, id: nat, r: Request) {
    if t.job.Some? then id in t.waiting && t.waiting[id] == r
    else id in t.told && t.told[id].0 == r && t.told[id].1.Finished?
  }

  lemma StartGoesOn(s: Root)
    requires s.job.Some? && s.job.value.phase.Starting?
    ensures var t := Step(s, Started, Quiet(s));
            JobOnly(s, t) && t.job.Some? && t.job.value.phase.Indexing? && PassesLeft(t) == PassesLeft(s) && RefreshesLeft(t) == RefreshesLeft(s)
    ensures Step(s, Started, Quiet(s)).begun == s.begun + [s.job.value.paths]
  {}

  lemma AfterPassGoesOn(s: Root)
    requires Inv(s) && s.job.Some? && !s.job.value.phase.Starting?
    ensures var t := AfterPass(s, Quiet(s));
            && JobOnly(s, t)
            && (t.job.Some? ==>
                  || PassesLeft(t) < PassesLeft(s)
                  || (PassesLeft(t) == PassesLeft(s) && RefreshesLeft(t) < RefreshesLeft(s) && t.job.value.phase.Graphing?))
  {}

  lemma IndexGoesOn(s: Root)
    requires Inv(s) && s.job.Some? && s.job.value.phase.Indexing?
    ensures var t := Step(s, Indexed(Rebuilt), Quiet(s));
            && JobOnly(s, t)
            && (t.job.Some? ==>
                  || PassesLeft(t) < PassesLeft(s)
                  || (PassesLeft(t) == PassesLeft(s) && RefreshesLeft(t) <= RefreshesLeft(s) && t.job.value.phase.Graphing?))
  {
    var u := PassEnds(s, Rebuilt);
    if !(u.job.value.phase.graphFollows || u.graphMark) {
      forall id | id in u.waiting ensures Serves(u, u.waiting[id]) {
        forall w | Wants(u.waiting[id].asked, w) && Owed(s, u.waiting[id], w) ensures Owed(u, u.waiting[id], w) {}
      }
      AnsweredLater(s, u, []);
      AfterPassGoesOn(u);
    }
  }

  /** The job comes to its end by its own steps, and everyone who waited hears that it finished. */
  lemma {:induction false} JobCanEnd(s: Root) returns (events: Trace)
    requires Inv(s)
    ensures Run(s, events).job.None? && JobOnly(s, Run(s, events)) && Inv(Run(s, events))
    ensures forall i :: 0 <= i < |events| ==> OwnStep(events[i].0)
    decreases PassesLeft(s), RefreshesLeft(s), PhasesLeft(s)
  {
    if s.job.None? {
      events := [];
    } else {
      var t := Step(s, JobsOwn(s), Quiet(s));
      StepKeepsInv(s, JobsOwn(s), Quiet(s));
      match s.job.value.phase {
        case Starting => StartGoesOn(s);
        case Indexing(_) => IndexGoesOn(s);
        case Graphing => AfterPassGoesOn(s);
      }
      var rest := JobCanEnd(t);
      RunGoesOn(s, [], JobsOwn(s), Quiet(s));
      RunConcat(s, [] + [(JobsOwn(s), Quiet(s))], rest);
      events := [] + [(JobsOwn(s), Quiet(s))] + rest;
      JobOnlyTwice(s, t, Run(t, rest));
    }
  }

  lemma JobOnlyTwice(s: Root, t: Root, u: Root)
    requires Inv(s) && Inv(t) && JobOnly(s, t) && JobOnly(t, u) && s.job.Some? && u.job.None?
    ensures JobOnly(s, u)
  {}

  /** Every caller waiting can still hear that its rebuild finished, by the job's own steps. */
  lemma EveryCallerCanBeServed(s: Root, id: nat) returns (events: Trace)
    requires Reachable(s) && id in s.waiting
    ensures forall i :: 0 <= i < |events| ==> OwnStep(events[i].0)
    ensures var t := Run(s, events);
            id in t.told && t.told[id].1.Finished? && Conserved(s.waiting[id], t.begun, t.refreshes)
  {
    ReachableInv(s);
    events := JobCanEnd(s);
    var t := Run(s, events);
    assert Kept(t, id, s.waiting[id]);
    assert Answered(t, id);
  }

  // ---- the watcher -----------------------------------------------------------------------------

  lemma {:induction false} WatcherIsKnown(events: Trace)
    ensures var s := Run(Fresh, events); s.watcher.Asking? ==> s.watcher.id < s.nextId
    decreases |events|
  {
    if events != [] {
      WatcherIsKnown(events[..|events| - 1]);
      var s, last := Run(Fresh, events[..|events| - 1]), events[|events| - 1];
      StepRemembers(s, last.0, last.1);
      WatcherAskedLately(s, last.0, last.1);
    }
  }

  lemma WatcherAskedLately(s: Root, e: Event, now: real)
    ensures Step(s, e, now).watcher.Asking? ==> Step(s, e, now).watcher == s.watcher || Step(s, e, now).watcher.id == s.nextId < Step(s, e, now).nextId
  {
    match e
    case Started => if s.job.Some? { HeadLeavesWatcher(s, s.job.value.java, s.job.value.paths, now); }
    case Indexed(result) => if s.job.Some? { AfterPassLeavesWatcher(PassEnds(s, result), now); }
    case Refreshed => if s.job.Some? { AfterPassLeavesWatcher(s, now); }
    case _ =>
  }

  lemma HeadLeavesWatcher(s: Root, java: bool, paths: Changes, now: real)
    requires s.job.Some?
    ensures Head(s, java, paths, now).watcher == s.watcher
  {}

  lemma AfterPassLeavesWatcher(s: Root, now: real)
    requires s.job.Some?
    ensures AfterPass(s, now).watcher == s.watcher
  {}

  /** The watcher hears its answer and waits again, still holding the edit. */
  lemma HearsOn(t: Root, w: Want)
    requires Inv(t) && t.job.None? && Holds(t.changes, w) && (t.watcher.Asking? ==> t.watcher.id in t.told)
    ensures var u := Step(t, Heard, 0.0);
            && u.job.None? && Holds(u.changes, w) && u.watcher == Waiting && u.resident && u.changedAt.Some?
            && u.begun == t.begun
  {}

  /** It hands over what it holds once the tree is quiet, and the new job begins a pass over that. */
  lemma HandsOver(u: Root, w: Want)
    requires u.job.None? && Holds(u.changes, w) && u.watcher == Waiting && u.resident && u.changedAt.Some?
    ensures var v := Step(Step(u, Woken(false), Quiet(u)), Started, Quiet(u));
            v.begun == u.begun + [u.changes.value]
  {}

  /** Whatever the watcher holds can still come into a pass, by its own and the job's steps. */
  lemma GatheredEditCanBeRescanned(s: Root, w: Want) returns (events: Trace)
    requires Reachable(s) && Holds(s.changes, w)
    ensures forall i :: 0 <= i < |events| ==> OwnStep(events[i].0)
    ensures Rescanned(Run(s, events).begun, |s.begun|, w)
  {
    ReachableInv(s);
    events := JobCanEnd(s);
    var t := Run(s, events);
    var past: Trace :| Run(Fresh, past) == s;
    WatcherIsKnown(past);
    if s.watcher.Asking? {
      RunKnows(past, s.watcher.id);
      assert s.watcher.id in s.waiting ==> Kept(t, s.watcher.id, s.waiting[s.watcher.id]);
    }
    HearsOn(t, w);
    var u := Step(t, Heard, 0.0);
    HandsOver(u, w);
    RunGoesOn(s, events, Heard, 0.0);
    events := events + [(Heard, 0.0)];
    RunGoesOn(s, events, Woken(false), Quiet(u));
    events := events + [(Woken(false), Quiet(u))];
    RunGoesOn(s, events, Started, Quiet(u));
    events := events + [(Started, Quiet(u))];
    var v := Run(s, events);
    assert v.begun == u.begun + [u.changes.value] && Gives(v.begun[|u.begun|], w);
  }

  /** The watcher hands over at the first wake-up two seconds or more after the last edit, and never before. */
  lemma WatcherWaitsForQuiet(s: Root, paths: Changes, at: real, java: bool, now: real)
    requires Reachable(s) && s.resident && s.watcher in {NoWatcher, Waiting}
    ensures var t := Step(s, Noted(paths), at);
            var u := Step(t, Woken(java), now);
            && (now < at + 2.0 ==> u == t)
            && (now >= at + 2.0 ==> u.watcher == Asking(t.nextId) && u.changes.None? && t.nextId in u.waiting
                                    && Some(u.waiting[t.nextId].asked) == t.changes)
  {
    ReachableInv(s);
  }
}
