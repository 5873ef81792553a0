/** When a caller of a full rescan is really answered by one (daemon/server.py, Daemon.rebuild and _run_rebuild). */
module RebuildAnswers {
  import opened Coalescing
  import opened Options
  import opened RebuildModel

  lemma ReachableInv(s: Root)
    requires Reachable(s)
    ensures Inv(s)
  {
    var events :| Run(Fresh, events) == s;
    RunKeepsInv(Fresh, events);
  }

  // ---- full rescans --------------------------------------------------------------------------

  /** An index pass over everything ended after the call. */
  ghost predicate RescanEnded(s: Root, r: Request) {
    exists k :: r.doneSince <= k < |s.done| && s.done[k].Everything?
  }

  predicate DueByPass(s: Root) {
    s.job.Some? && !s.job.value.phase.Graphing? && s.job.value.paths.Everything?
  }

  /** One ended already, is running or about to, or follows. */
  ghost predicate RescanDue(s: Root, r: Request) {
    RescanEnded(s, r) || DueByPass(s) || s.joined == Some(Everything)
  }

  /** The caller still waits with its rescan due, or heard something; if it heard that its rebuild finished, it had one. */
  ghost predicate Promised(s: Root, r: Request) {
    && r.id < s.nextId && r.doneSince <= |s.done|
    && ((r.id in s.waiting && s.waiting[r.id] == r && RescanDue(s, r))
        || (r.id !in s.waiting && r.id in s.told && s.told[r.id].0 == r && (s.told[r.id].1.Finished? ==> RescanEnded(s, r))))
  }

  lemma EndedLater(s: Root, t: Root, r: Request)
    requires RescanEnded(s, r) && s.done <= t.done
    ensures RescanEnded(t, r)
  {
    var k :| r.doneSince <= k < |s.done| && s.done[k].Everything?;
    assert t.done[k] == s.done[k];
  }

  /** Everyone waiting hears the outcome. */
  lemma EndPromises(s: Root, outcome: Outcome, r: Request)
    requires r.id < s.nextId && r.doneSince <= |s.done| && r.id in s.waiting && s.waiting[r.id] == r
    requires outcome.Finished? ==> RescanEnded(s, r)
    ensures Promised(End(s, outcome), r)
  {
    if outcome.Finished? { EndedLater(s, End(s, outcome), r); }
  }

  lemma HeadPromises(s: Root, java: bool, paths: Changes, now: real, r: Request)
    requires s.job.Some? && r.id < s.nextId && r.doneSince <= |s.done|
    requires r.id in s.waiting && s.waiting[r.id] == r
    requires RescanEnded(s, r) || paths.Everything? || s.joined == Some(Everything)
    ensures Promised(Head(s, java, paths, now), r)
  {
    if StillChanging(s, now) {
      EndPromises(s.(changes := Some(Merged(s.changes, paths))), Skipped, r);
    } else if RescanEnded(s, r) {
      EndedLater(s, PassBegins(s, java, paths), r);
    }
  }

  lemma AfterPassPromises(s: Root, now: real, r: Request)
    requires s.job.Some? && r.id < s.nextId && r.doneSince <= |s.done|
    requires r.id in s.waiting && s.waiting[r.id] == r && (RescanEnded(s, r) || s.joined == Some(Everything))
    ensures Promised(AfterPass(s, now), r)
  {
    var t, u := AfterPass(s, now), s.(rebuilding := false);
    if s.joined.Some? {
      if RescanEnded(s, r) { EndedLater(s, u.(joined := None), r); }
      HeadPromises(u.(joined := None), true, s.joined.value, now, r);
    } else {
      EndedLater(s, t, r);
    }
  }

  lemma IndexEndsPromises(s: Root, result: PassResult, now: real, r: Request)
    requires Promised(s, r) && r.id in s.waiting && s.job.Some? && s.job.value.phase.Indexing?
    ensures Promised(IndexEnds(s, result, now), r)
  {
    var u := PassEnds(s, result);
    if RescanEnded(s, r) { EndedLater(s, u, r); }
    else if s.job.value.paths.Everything? { assert u.done[|s.done|].Everything?; }
    if u.job.value.phase.graphFollows || u.graphMark {
      if RescanEnded(u, r) { EndedLater(u, BeginRefresh(u), r); }
    } else {
      AfterPassPromises(u, now, r);
    }
  }

  lemma QuietStepPromises(s: Root, t: Root, r: Request)
    requires Promised(s, r) && t.done == s.done && s.nextId <= t.nextId && t.job == s.job
    requires s.joined == Some(Everything) ==> t.joined == Some(Everything)
    requires r.id in s.waiting ==> r.id in t.waiting && t.waiting[r.id] == s.waiting[r.id]
    requires r.id !in s.waiting ==> r.id !in t.waiting && r.id in t.told && t.told[r.id] == s.told[r.id]
    ensures Promised(t, r)
  {
    if RescanEnded(s, r) { EndedLater(s, t, r); }
  }

  lemma EvictionPromises(s: Root, r: Request)
    requires Inv(s) && Promised(s, r) && r.id in s.waiting
    ensures Promised(Evict(s), r)
  {
    var u := s.(resident := false, changes := None, changedAt := None, watcher := NoWatcher);
    if s.resident && !s.rebuilding { EndPromises(u, Skipped, r); } else { QuietStepPromises(s, Evict(s), r); }
  }

  lemma JobStepPromises(s: Root, e: Event, now: real, r: Request)
    requires Inv(s) && Promised(s, r) && r.id in s.waiting && s.job.Some?
    requires e.Started? || e.Indexed? || e.Refreshed? || e.Raised?
    ensures Promised(Step(s, e, now), r)
  {
    match e
    case Started => if s.job.value.phase.Starting? { HeadPromises(s, s.job.value.java, s.job.value.paths, now, r); }
    case Indexed(result) => if s.job.value.phase.Indexing? { IndexEndsPromises(s, result, now, r); }
    case Refreshed => if s.job.value.phase.Graphing? { AfterPassPromises(s, now, r); }
    case Raised(outOfMemory) =>
      if !s.job.value.phase.Starting? { EndPromises(s, if outOfMemory then Deferred else Failed, r); }
  }

  lemma StepPromises(s: Root, e: Event, now: real, r: Request)
    requires Inv(s) && Promised(s, r)
    ensures Promised(Step(s, e, now), r)
  {
    if r.id !in s.waiting {
      AnsweredStaysAnswered(s, e, now, r);
    } else if e.Started? || e.Indexed? || e.Refreshed? || e.Raised? {
      JobStepPromises(s, e, now, r);
    } else {
      match e
      case Evicted => EvictionPromises(s, r);
      case Asked(java, paths) => AskedPromises(s, java, paths, r);
      case Woken(java) => WokenPromises(s, java, now, r);
      case _ => WatchersOwnPromises(s, e, now, r);
    }
  }

  lemma WatchersOwnPromises(s: Root, e: Event, now: real, r: Request)
    requires Inv(s) && Promised(s, r) && r.id in s.waiting && WatchersOwn(e)
    ensures Promised(Step(s, e, now), r)
  {
    QuietStepPromises(s, Step(s, e, now), r);
  }

  lemma AskedPromises(s: Root, java: bool, paths: Changes, r: Request)
    requires Inv(s) && Promised(s, r) && r.id in s.waiting
    ensures Promised(Ask(s, java, paths), r)
  {
    QuietStepPromises(s, Ask(s, java, paths), r);
  }

  lemma WokenPromises(s: Root, java: bool, now: real, r: Request)
    requires Inv(s) && Promised(s, r) && r.id in s.waiting
    ensures Promised(WatcherAsks(s, java, now), r)
  {
    QuietStepPromises(s, WatcherAsks(s, java, now), r);
  }

  /** What was told is not told again, and what ended stays ended. */
  lemma AnsweredStaysAnswered(s: Root, e: Event, now: real, r: Request)
    requires Inv(s) && Promised(s, r) && r.id !in s.waiting
    ensures Promised(Step(s, e, now), r)
  {
    StepRemembers(s, e, now);
    if RescanEnded(s, r) { EndedLater(s, Step(s, e, now), r); }
  }

  lemma {:induction false} RunPromises(s: Root, events: seq<(Event, real)>, r: Request)
    requires Inv(s) && Promised(s, r)
    ensures Promised(Run(s, events), r)
    decreases |events|
  {
    if events != [] {
      var before, last := events[..|events| - 1], events[|events| - 1];
      RunPromises(s, before, r);
      RunKeepsInv(s, before);
      StepPromises(Run(s, before), last.0, last.1, r);
    }
  }

  /** If the caller was told that its rebuild finished, an index pass over everything ended since it asked. */
  ghost predicate AnsweredByRescan(s: Root, id: nat) {
    id in s.told && s.told[id].1.Finished? ==> RescanEnded(s, s.told[id].0)
  }

  /** Whatever happens after a call for a full rescan. */
  ghost predicate AlwaysRescans(s: Root, java: bool) {
    forall events :: AnsweredByRescan(Run(Ask(s, java, Everything), events), s.nextId)
  }

  /** What a caller of a full rescan can look at before the call: nothing rescans everything yet, the index pass that
      does still runs, or one more follows. */
  predicate WillRescan(s: Root) {
    !SharesFullRescan(s, Everything) || s.job.value.phase.Indexing? || s.joined == Some(Everything)
  }

  /** A full rescan asked for is answered by one exactly then. */
  lemma FullRescanIsAnswered(s: Root, java: bool)
    requires Reachable(s) && s.resident
    ensures AlwaysRescans(s, java) <==> WillRescan(s)
  {
    ReachableInv(s);
    if WillRescan(s) {
      WillRescanPromises(s, java);
    } else {
      var events := AnsweredWithout(s, java);
      assert !AnsweredByRescan(Run(Ask(s, java, Everything), events), s.nextId);
    }
  }

  lemma WillRescanPromises(s: Root, java: bool)
    requires Inv(s) && s.resident && WillRescan(s)
    ensures AlwaysRescans(s, java)
  {
    var t := Ask(s, java, Everything);
    AskKeepsInv(s, java, Everything);
    AskPromises(s, java);
    forall events ensures AnsweredByRescan(Run(t, events), s.nextId) {
      RunPromises(t, events, t.waiting[s.nextId]);
      RunKeepsInv(t, events);
    }
  }

  lemma AskPromises(s: Root, java: bool)
    requires Inv(s) && s.resident && WillRescan(s)
    ensures s.nextId in Ask(s, java, Everything).waiting && Ask(s, java, Everything).waiting[s.nextId].id == s.nextId
    ensures Promised(Ask(s, java, Everything), Ask(s, java, Everything).waiting[s.nextId])
  {}

  /** A run that answers the caller without indexing everything for it: the graph refresh ends, and what follows is
      narrower or only a refresh. */
  lemma AnsweredWithout(s: Root, java: bool) returns (events: seq<(Event, real)>)
    requires Inv(s) && s.resident && !WillRescan(s)
    ensures !AnsweredByRescan(Run(Ask(s, java, Everything), events), s.nextId)
  {
    var t := Ask(s, java, Everything);
    if t.joined.Some? {
      events := AnsweredAfterNarrowPass(t, s.nextId);
    } else if t.graphMark {
      events := AnsweredAfterGraphPass(t, s.nextId);
    } else {
      RunGoesOn(t, [], Refreshed, 0.0);
      GraphPassEnds(t, 0.0);
      events := [] + [(Refreshed, 0.0)];
    }
  }

  /** A caller that asked since the last pass ended, during a graph refresh. */
  ghost predicate AskedLately(t: Root, id: nat) {
    && t.job.Some? && t.job.value.phase.Graphing?
    && id in t.waiting && t.waiting[id].doneSince == |t.done|
  }

  lemma AnsweredAfterGraphPass(t: Root, id: nat) returns (events: seq<(Event, real)>)
    requires AskedLately(t, id) && t.joined.None? && t.graphMark
    ensures !AnsweredByRescan(Run(t, events), id)
  {
    RunGoesOn(t, [], Refreshed, 0.0);
    events := [] + [(Refreshed, 0.0)];
    RunGoesOn(t, events, Refreshed, 0.0);
    GraphPassEnds(Run(t, events), 0.0);
    events := events + [(Refreshed, 0.0)];
  }

  lemma {:induction false} RunConcat(s: Root, first: seq<(Event, real)>, rest: seq<(Event, real)>)
    ensures Run(s, first + rest) == Run(Run(s, first), rest)
    decreases |rest|
  {
    if rest == [] {
      assert first + rest == first;
    } else {
      RunConcat(s, first, rest[..|rest| - 1]);
      assert (first + rest)[..|first + rest| - 1] == first + rest[..|rest| - 1];
    }
  }

  lemma AnsweredAfterNarrowPass(t: Root, id: nat) returns (events: seq<(Event, real)>)
    requires AskedLately(t, id) && t.joined.Some? && t.joined.value.Paths?
    ensures !AnsweredByRescan(Run(t, events), id)
  {
    var quiet := (if t.changedAt.Some? then t.changedAt.value else 0.0) + QUIET_SECONDS;
    RunGoesOn(t, [], Refreshed, quiet);
    NarrowPassFollows(t, quiet);
    var rest := NarrowPassAnswers(GraphEnds(t, quiet), id);
    RunConcat(t, [] + [(Refreshed, quiet)], rest);
    events := [] + [(Refreshed, quiet)] + rest;
  }

  lemma NarrowPassAnswers(u: Root, id: nat) returns (events: seq<(Event, real)>)
    requires u.job.Some? && u.job.value.phase == Indexing(true) && u.job.value.paths.Paths? && u.joined.None?
    requires id in u.waiting && u.waiting[id].doneSince == |u.done|
    ensures !AnsweredByRescan(Run(u, events), id)
  {
    RunGoesOn(u, [], Indexed(Rebuilt), 0.0);
    NarrowPassEnds(u, Rebuilt, 0.0);
    events := [] + [(Indexed(Rebuilt), 0.0)];
    RunGoesOn(u, events, Refreshed, 0.0);
    GraphPassEnds(IndexEnds(u, Rebuilt, 0.0), 0.0);
    events := events + [(Refreshed, 0.0)];
  }

  lemma NarrowPassFollows(t: Root, now: real)
    requires t.job.Some? && t.job.value.phase.Graphing? && t.joined.Some? && !StillChanging(t, now)
    ensures var u := GraphEnds(t, now);
            && u.job.Some? && u.job.value.phase == Indexing(true) && u.job.value.paths == t.joined.value
            && u.joined.None? && u.waiting == t.waiting && u.done == t.done
  {}

  lemma NarrowPassEnds(u: Root, result: PassResult, now: real)
    requires u.job.Some? && u.job.value.phase == Indexing(true) && u.joined.None?
    ensures var v := IndexEnds(u, result, now);
            && v.job.Some? && v.job.value.phase.Graphing? && v.joined.None? && !v.graphMark
            && v.waiting == u.waiting && v.done == u.done + [u.job.value.paths]
  {}

  lemma GraphPassEnds(v: Root, now: real)
    requires v.job.Some? && v.job.value.phase.Graphing? && v.joined.None? && !v.graphMark
    ensures var x := GraphEnds(v, now);
            && x.done == v.done
            && forall id :: id in v.waiting ==> id in x.told && x.told[id] == (v.waiting[id], Finished(v.job.value.result))
  {}

  /** A pass over one path whose graph refresh has begun, another refresh asked for meanwhile. */
  lemma AnotherRefreshAsked() returns (s: Root)
    ensures Reachable(s) && s.resident && s.graphMark && s.joined == None && s.nextId == 2 && s.begun == [Paths({1})]
    ensures s.job == Some(Job(Graphing, true, Paths({1}), Rebuilt)) && s.done == [Paths({1})]
  {
    assert Run(Fresh, []) == Fresh;
    s := Step(Fresh, Loaded, 0.0);
    StepIsReachable(Fresh, Loaded, 0.0);
    StepIsReachable(s, Asked(true, Paths({1})), 0.0);
    s := Step(s, Asked(true, Paths({1})), 0.0);
    StepIsReachable(s, Started, 0.0);
    s := Step(s, Started, 0.0);
    StepIsReachable(s, Indexed(Rebuilt), 0.0);
    s := Step(s, Indexed(Rebuilt), 0.0);
    StepIsReachable(s, Asked(true, Paths({})), 0.0);
    s := Step(s, Asked(true, Paths({})), 0.0);
  }

  /** Sharing can answer a full rescan with no index pass at all: the running pass may refresh only the graph. */
  lemma FullRescanCanShareAGraphOnlyPass() returns (s: Root)
    ensures Reachable(s) && 2 in s.told && s.told[2].0.asked == Everything && s.told[2].1 == Finished(Rebuilt)
    ensures s.begun == [Paths({1})] && s.told[2].0.since == 1
  {
    s := AnotherRefreshAsked();
    StepIsReachable(s, Refreshed, 0.0);
    s := Step(s, Refreshed, 0.0);
    StepIsReachable(s, Asked(false, Everything), 0.0);
    s := Step(s, Asked(false, Everything), 0.0);
    assert s.waiting[2].shared && s.joined == None;
    StepIsReachable(s, Refreshed, 0.0);
    s := Step(s, Refreshed, 0.0);
  }
}
