/** One watched root's rebuilds, step by step between awaits (daemon/server.py, Daemon). */
module RebuildModel {

  import opened Coalescing
  import opened Options

  const QUIET_SECONDS: real := 2.0
  const DEFER_SECONDS: real := 28.0

  // ---- the state -------------------------------------------------------------------

  /** How an index pass ended: with a new generation, put off for want of memory, with nothing to do, or refused. */
  datatype PassResult = Rebuilt | PutOff | Unneeded | Refused

  /** What a caller hears: the last pass's result, or why there is none. */
  datatype Outcome = Finished(result: PassResult) | Skipped | Deferred | Failed

  /** A call of `rebuild` that joined a job: what it asked for, and how many passes had begun, how many had ended and how
      many refreshes had begun by then. */
  datatype Request = Request(id: nat, asked: Changes, java: bool, shared: bool, since: nat, doneSince: nat, refreshSince: nat)

  /** What the job does until its next await. */
  datatype Phase = Starting | Indexing(graphFollows: bool) | Graphing

  datatype Job = Job(phase: Phase, java: bool, paths: Changes, result: PassResult)

  datatype Watcher = NoWatcher | Waiting | Asking(id: nat)

  datatype Root = Root(
    resident: bool,
    changes: Option<Changes>,
    changedAt: Option<real>,
    watcher: Watcher,
    job: Option<Job>,
    joined: Option<Changes>,
    scope: Option<Changes>,
    graphMark: bool,
    rebuilding: bool,
    // what happened so far: index passes begun and ended, by their scopes, graph refreshes begun, callers waiting and answered
    begun: seq<Changes>,
    done: seq<Changes>,
    refreshes: nat,
    waiting: map<nat, Request>,
    told: map<nat, (Request, Outcome)>,
    nextId: nat)

  const Fresh: Root :=
    Root(false, None, None, NoWatcher, None, None, None, false, false, [], [], 0, map[], map[], 0)

  // ---- the steps -----------------------------------------------------------------------

  function Load(s: Root): Root { s.(resident := true) }

  /** A resident root's change set grows, its quiet window begins anew, and its watcher is awake. */
  function NoteChange(s: Root, paths: Changes, now: real): Root {
    if !s.resident then s
    else s.(changes := Some(Merged(s.changes, paths)), changedAt := Some(now),
            watcher := if s.watcher.NoWatcher? then Waiting else s.watcher)
  }

  predicate SharesFullRescan(s: Root, paths: Changes) { s.job.Some? && paths.Everything? && s.scope == Some(Everything) }

  /** Start a job, or hand the change set to the one there is. */
  function Hand(s: Root, java: bool, paths: Changes): Root {
    var t := s.(graphMark := s.graphMark || java);
    if s.job.None? then t.(job := Some(Job(Starting, java, paths, Rebuilt)))
    else if SharesFullRescan(s, paths) || paths == Paths({}) then t
    else t.(joined := Some(Merged(s.joined, paths)))
  }

  /** The part of `rebuild` before it waits: a root that is not resident is skipped at once. */
  function Ask(s: Root, java: bool, paths: Changes): Root {
    var r := Request(s.nextId, paths, java, SharesFullRescan(s, paths), |s.begun|, |s.done|, s.refreshes);
    var s := s.(nextId := s.nextId + 1);
    if !s.resident then s.(told := s.told[r.id := (r, Skipped)])
    else Hand(s.(waiting := s.waiting[r.id := r]), java, paths)
  }

  /** Everyone waiting is told the outcome. */
  function Answers(told: map<nat, (Request, Outcome)>, waiting: map<nat, Request>, outcome: Outcome)
    : map<nat, (Request, Outcome)>
  {
    told + map id | id in waiting :: (waiting[id], outcome)
  }

  /** The job ends: everyone waiting is told, and everything the job kept is dropped. */
  function End(s: Root, outcome: Outcome): Root {
    s.(job := None, joined := None, scope := None, graphMark := false, rebuilding := false, waiting := map[],
       told := Answers(s.told, s.waiting, outcome))
  }

  predicate StillChanging(s: Root, now: real) {
    !s.watcher.NoWatcher? && now < (if s.changedAt.Some? then s.changedAt.value else 0.0) + QUIET_SECONDS
  }

  /** A graph refresh begins; its mark is consumed before it, so one set meanwhile asks for another. */
  function BeginRefresh(s: Root): Root
    requires s.job.Some?
  {
    s.(graphMark := false, refreshes := s.refreshes + 1, job := Some(s.job.value.(phase := Graphing)))
  }

  function PassBegins(s: Root, java: bool, paths: Changes): Root
    requires s.job.Some?
  {
    s.(rebuilding := true, scope := Some(paths), begun := s.begun + [paths],
       job := Some(Job(Indexing(java || s.graphMark), java, paths, s.job.value.result)))
  }

  /** The head of the job's loop with an index pass due: skip a tree still changing, else begin the pass. */
  function Head(s: Root, java: bool, paths: Changes, now: real): Root
    requires s.job.Some?
  {
    if StillChanging(s, now) then
      End(s.(changes := Some(Merged(s.changes, paths))), Skipped)
    else PassBegins(s, java, paths)
  }

  /** A pass is over: run what was asked for meanwhile, or finish. */
  function AfterPass(s: Root, now: real): Root
    requires s.job.Some?
  {
    var s := s.(rebuilding := false);
    if s.joined.Some? then Head(s.(joined := None), true, s.joined.value, now)
    else if s.graphMark then BeginRefresh(s.(rebuilding := true, scope := Some(Everything)))
    else End(s, Finished(s.job.value.result))
  }

  /** The job's first step. */
  function JobStarts(s: Root, now: real): Root {
    if s.job.Some? && s.job.value.phase.Starting? then Head(s, s.job.value.java, s.job.value.paths, now) else s
  }

  function PassEnds(s: Root, result: PassResult): Root
    requires s.job.Some?
  {
    s.(done := s.done + [s.job.value.paths], job := Some(s.job.value.(result := result)))
  }

  function IndexEnds(s: Root, result: PassResult, now: real): Root {
    if s.job.Some? && s.job.value.phase.Indexing? then
      var s := PassEnds(s, result);
      if s.job.value.phase.graphFollows || s.graphMark then BeginRefresh(s) else AfterPass(s, now)
    else s
  }

  function GraphEnds(s: Root, now: real): Root {
    if s.job.Some? && s.job.value.phase.Graphing? then AfterPass(s, now) else s
  }

  /** A running pass raises: out of memory defers, anything else fails. */
  function PassRaises(s: Root, outOfMemory: bool): Root {
    if s.job.Some? && !s.job.value.phase.Starting? then End(s, if outOfMemory then Deferred else Failed) else s
  }

  /** The quiet window is over: the watcher hands what it gathered to a rebuild. */
  function WatcherAsks(s: Root, java: bool, now: real): Root {
    if s.resident && s.watcher.Waiting? && s.changedAt.Some? && now >= s.changedAt.value + QUIET_SECONDS then
      var paths := if s.changes.Some? then s.changes.value else Paths({});
      Ask(s.(changes := None, watcher := Asking(s.nextId)), java || paths.Everything?, paths)
    else s
  }

  /** Whether the watcher rescans everything later after hearing this. */
  predicate Retries(outcome: Outcome) { outcome.Deferred? || outcome.Failed? || outcome == Finished(PutOff) }

  function WatcherHears(s: Root, now: real): Root {
    if s.watcher.Asking? && s.watcher.id in s.told then
      if Retries(s.told[s.watcher.id].1) then
        s.(changes := Some(Everything), changedAt := Some(now + DEFER_SECONDS), watcher := Waiting)
      else if s.changes.None? then s.(watcher := NoWatcher, changedAt := None)
      else s.(watcher := Waiting)
    else s
  }

  /** The root leaves the cache: its watcher stops, and a job no pass of which runs is cancelled. */
  function Evict(s: Root): Root {
    if !s.resident then s
    else
      var s := s.(resident := false, changes := None, changedAt := None, watcher := NoWatcher);
      if s.rebuilding then s else End(s, Skipped)
  }

  datatype Event =
    | Loaded
    | Noted(paths: Changes)
    | Asked(java: bool, paths: Changes)
    | Started
    | Indexed(result: PassResult)
    | Refreshed
    | Raised(outOfMemory: bool)
    | Woken(java: bool)
    | Heard
    | Evicted

  /** One step of some task, at some time; a step whose task is not there does nothing. */
  function Step(s: Root, e: Event, now: real): Root {
    match e
    case Loaded => Load(s)
    case Noted(paths) => NoteChange(s, paths, now)
    case Asked(java, paths) => Ask(s, java, paths)
    case Started => JobStarts(s, now)
    case Indexed(result) => IndexEnds(s, result, now)
    case Refreshed => GraphEnds(s, now)
    case Raised(outOfMemory) => PassRaises(s, outOfMemory)
    case Woken(java) => WatcherAsks(s, java, now)
    case Heard => WatcherHears(s, now)
    case Evicted => Evict(s)
  }

  /** Any interleaving of watcher, joiners, job and evictions, at any times. */
  function Run(s: Root, events: seq<(Event, real)>): Root
    decreases |events|
  {
    if events == [] then s
    else
      var last := events[|events| - 1];
      Step(Run(s, events[..|events| - 1]), last.0, last.1)
  }

  ghost predicate Reachable(s: Root) { exists events :: Run(Fresh, events) == s }

  lemma RunGoesOn(s: Root, events: seq<(Event, real)>, e: Event, now: real)
    ensures Run(s, events + [(e, now)]) == Step(Run(s, events), e, now)
  {
    var more := events + [(e, now)];
    assert more[..|more| - 1] == events;
  }

  lemma StepIsReachable(s: Root, e: Event, now: real)
    requires Reachable(s)
    ensures Reachable(Step(s, e, now))
  {
    var events :| Run(Fresh, events) == s;
    RunGoesOn(Fresh, events, e, now);
  }

  // ---- conservation ---------------------------------------------------------------------

  /** A pass begun no earlier than the request rescans this. */
  ghost predicate Rescanned(begun: seq<Changes>, since: nat, w: Want) {
    exists i :: since <= i < |begun| && Gives(begun[i], w)
  }

  /** What a finished job owes a caller: passes begun after the call rescan what it named, and a refresh follows. */
  ghost predicate Conserved(r: Request, begun: seq<Changes>, refreshes: nat) {
    && (!r.shared ==> forall w :: Wants(r.asked, w) ==> Rescanned(begun, r.since, w))
    && (r.java ==> r.refreshSince < refreshes)
  }

  /** What a job still holds for a caller. */
  ghost predicate Owed(s: Root, r: Request, w: Want) {
    || Rescanned(s.begun, r.since, w)
    || (s.job.Some? && s.job.value.phase.Starting? && Gives(s.job.value.paths, w))
    || Holds(s.joined, w)
  }

  ghost predicate Serves(s: Root, r: Request) {
    && r.id < s.nextId && r.since <= |s.begun| && r.doneSince <= |s.done| && r.refreshSince <= s.refreshes
    && (s.job.Some? && s.job.value.phase.Starting? ==> r.since == |s.begun|)
    && (!r.shared ==> forall w :: Wants(r.asked, w) ==> Owed(s, r, w))
    && (r.java ==> s.graphMark || r.refreshSince < s.refreshes)
  }

  ghost predicate Answered(s: Root, id: nat) {
    id in s.told && s.told[id].0.id == id
    && (s.told[id].1.Finished? ==> Conserved(s.told[id].0, s.begun, s.refreshes))
  }

  /** Which fields go with which phase of the job and of the watcher. */
  ghost predicate Shaped(s: Root) {
    && (s.job.None? ==> s.waiting == map[] && s.joined.None? && s.scope.None? && !s.graphMark && !s.rebuilding)
    && (s.job.Some? ==> (s.rebuilding <==> !s.job.value.phase.Starting?))
    && (s.job.Some? && s.job.value.phase.Starting? ==> s.scope.None? && s.resident)
    && (s.job.Some? && s.job.value.phase.Indexing? ==> PassRuns(s, s.job.value.paths))
    && WatcherShaped(s)
  }

  /** The last pass begun is an index pass over these paths, and still runs. */
  ghost predicate PassRuns(s: Root, paths: Changes) {
    s.scope == Some(paths) && s.begun != [] && s.begun[|s.begun| - 1] == paths
  }

  ghost predicate WatcherShaped(s: Root) {
    && (!s.watcher.NoWatcher? ==> s.resident && s.changedAt.Some?)
    && (s.watcher.NoWatcher? ==> s.changes.None?)
  }

  /** Everyone waiting is still served. */
  ghost predicate AllServed(s: Root) {
    forall id :: id in s.waiting ==> id !in s.told && s.waiting[id].id == id && Serves(s, s.waiting[id])
  }

  /** Everyone answered got a true answer. */
  ghost predicate AllAnswered(s: Root) {
    forall id :: id in s.told ==> id < s.nextId && Answered(s, id)
  }

  ghost predicate Inv(s: Root) { Shaped(s) && AllServed(s) && AllAnswered(s) }

  lemma RescannedLater(begun: seq<Changes>, more: seq<Changes>, since: nat, w: Want)
    requires Rescanned(begun, since, w)
    ensures Rescanned(begun + more, since, w)
  {
    var i :| since <= i < |begun| && Gives(begun[i], w);
    assert (begun + more)[i] == begun[i];
  }

  /** More passes begun, more refreshes begun: nothing conserved is lost. */
  lemma ConservedLater(r: Request, begun: seq<Changes>, refreshes: nat, more: seq<Changes>, refreshes': nat)
    requires Conserved(r, begun, refreshes) && refreshes <= refreshes'
    ensures Conserved(r, begun + more, refreshes')
  {
    if !r.shared {
      forall w | Wants(r.asked, w) ensures Rescanned(begun + more, r.since, w) {
        RescannedLater(begun, more, r.since, w);
      }
    }
  }

  lemma AnsweredLater(s: Root, t: Root, more: seq<Changes>)
    requires AllAnswered(s) && t.told == s.told && t.begun == s.begun + more
    requires s.refreshes <= t.refreshes && s.nextId <= t.nextId
    ensures AllAnswered(t)
  {
    forall id | id in t.told ensures Answered(t, id) {
      assert Answered(s, id);
      if t.told[id].1.Finished? { ConservedLater(t.told[id].0, s.begun, s.refreshes, more, t.refreshes); }
    }
  }

  /** Ending a job answers everyone waiting; when it finished, they are owed nothing more. */
  lemma EndKeepsInv(s: Root, outcome: Outcome)
    requires WatcherShaped(s) && AllServed(s) && AllAnswered(s)
    requires outcome.Finished? ==> s.job.Some? && !s.job.value.phase.Starting? && s.joined.None? && !s.graphMark
    ensures Inv(End(s, outcome))
  {}

  /** Beginning a pass keeps everyone served, if it rescans everything the job held that it does not keep. */
  lemma PassServes(s: Root, t: Root, r: Request, scope: Changes)
    requires Serves(s, r) && t.begun == s.begun + [scope] && t.refreshes == s.refreshes
    requires t.graphMark == s.graphMark && t.nextId == s.nextId && t.done == s.done && t.job.Some? && !t.job.value.phase.Starting?
    requires forall w :: (s.job.Some? && s.job.value.phase.Starting? && Gives(s.job.value.paths, w)) || Holds(s.joined, w)
               ==> Gives(scope, w) || Holds(t.joined, w)
    ensures Serves(t, r)
  {
    if !r.shared {
      forall w | Wants(r.asked, w) ensures Owed(t, r, w) {
        assert Owed(s, r, w);
        if Rescanned(s.begun, r.since, w) {
          RescannedLater(s.begun, [scope], r.since, w);
        } else if Gives(scope, w) {
          assert t.begun[|s.begun|] == scope;
        }
      }
    }
  }

  /** The head of the loop, from a state `s` whose held changes are the pass's paths and what stays joined. */
  lemma HeadKeepsInv(s: Root, before: Root, java: bool, paths: Changes, now: real)
    requires Inv(before) && before.job.Some?
    requires s == before.(joined := s.joined, rebuilding := s.rebuilding)
    requires forall w :: (before.job.value.phase.Starting? && Gives(before.job.value.paths, w)) || Holds(before.joined, w)
               ==> Gives(paths, w) || Holds(s.joined, w)
    ensures Inv(Head(s, java, paths, now))
  {
    var t := Head(s, java, paths, now);
    if StillChanging(s, now) {
      SkipKeepsInv(s, before, paths);
    } else {
      forall id | id in t.waiting ensures Serves(t, t.waiting[id]) { PassServes(before, t, t.waiting[id], paths); }
      AnsweredLater(before, t, [paths]);
    }
  }

  lemma SkipKeepsInv(s: Root, before: Root, paths: Changes)
    requires Inv(before) && s == before.(joined := s.joined, rebuilding := s.rebuilding) && !s.watcher.NoWatcher?
    ensures Inv(End(s.(changes := Some(Merged(s.changes, paths))), Skipped))
  {}

  /** A refresh keeps everyone served, under whatever scope. */
  lemma RefreshKeepsInv(s: Root, scope: Option<Changes>)
    requires Inv(s) && s.job.Some? && !s.job.value.phase.Starting?
    ensures Inv(BeginRefresh(s.(scope := scope)))
  {}

  lemma AfterPassKeepsInv(s: Root, now: real)
    requires Inv(s) && s.job.Some? && !s.job.value.phase.Starting?
    ensures Inv(AfterPass(s, now))
  {
    var u := s.(rebuilding := false);
    if s.joined.Some? {
      HeadKeepsInv(u.(joined := None), s, true, s.joined.value, now);
    } else if s.graphMark {
      RefreshKeepsInv(s, Some(Everything));
      assert u.(rebuilding := true, scope := Some(Everything)) == s.(scope := Some(Everything));
    } else {
      EndKeepsInv(s, Finished(s.job.value.result));
      assert End(u, Finished(s.job.value.result)) == End(s, Finished(s.job.value.result));
    }
  }

  /** The call itself is served by the job it starts or by what it hands to the job there is. */
  lemma AskServesTheCaller(s: Root, java: bool, paths: Changes)
    requires Shaped(s) && s.resident
    ensures s.nextId in Ask(s, java, paths).waiting
    ensures Serves(Ask(s, java, paths), Ask(s, java, paths).waiting[s.nextId])
  {
    var t := Ask(s, java, paths);
    var r := t.waiting[s.nextId];
    forall w | Wants(paths, w) && !r.shared ensures Owed(t, r, w) { MergedGives(s.joined, paths, w); }
  }

  /** Nobody already waiting is served less. */
  lemma AskServesTheOthers(s: Root, java: bool, paths: Changes, r: Request)
    requires Shaped(s) && Serves(s, r) && s.resident && s.job.Some?
    ensures Serves(Ask(s, java, paths), r)
  {}

  lemma RefusalKeepsInv(s: Root, java: bool, paths: Changes)
    requires Inv(s) && !s.resident
    ensures Inv(Ask(s, java, paths))
  {}

  lemma AskKeepsInv(s: Root, java: bool, paths: Changes)
    requires Inv(s)
    ensures Inv(Ask(s, java, paths))
  {
    if !s.resident {
      RefusalKeepsInv(s, java, paths);
    } else {
      var t := Ask(s, java, paths);
      assert s.begun + [] == s.begun;
      AnsweredLater(s, t, []);
      AskServesTheCaller(s, java, paths);
      forall id | id in t.waiting ensures id !in t.told && t.waiting[id].id == id && Serves(t, t.waiting[id]) {
        if id != s.nextId { AskServesTheOthers(s, java, paths, s.waiting[id]); }
      }
    }
  }

  /** Steps that touch only the watcher and its change set. */
  lemma QuietStepKeepsInv(s: Root, t: Root)
    requires Inv(s) && WatcherShaped(t)
    requires t == s.(resident := t.resident, changes := t.changes, changedAt := t.changedAt, watcher := t.watcher)
    requires s.job.Some? && s.job.value.phase.Starting? ==> t.resident
    ensures Inv(t)
  {}

  lemma StepKeepsInv(s: Root, e: Event, now: real)
    requires Inv(s)
    ensures Inv(Step(s, e, now))
  {
    match e
    case Loaded => QuietStepKeepsInv(s, Load(s));
    case Noted(paths) => QuietStepKeepsInv(s, NoteChange(s, paths, now));
    case Asked(java, paths) => AskKeepsInv(s, java, paths);
    case Started =>
      if s.job.Some? && s.job.value.phase.Starting? {
        HeadKeepsInv(s, s, s.job.value.java, s.job.value.paths, now);
      }
    case Indexed(result) => IndexEndsKeepsInv(s, result, now);
    case Refreshed =>
      if s.job.Some? && s.job.value.phase.Graphing? { AfterPassKeepsInv(s, now); }
    case Raised(outOfMemory) =>
      if s.job.Some? && !s.job.value.phase.Starting? { EndKeepsInv(s, if outOfMemory then Deferred else Failed); }
    case Woken(java) => WatcherAsksKeepsInv(s, java, now);
    case Heard => QuietStepKeepsInv(s, WatcherHears(s, now));
    case Evicted =>
      var t := s.(resident := false, changes := None, changedAt := None, watcher := NoWatcher);
      if s.rebuilding || !s.resident {
        QuietStepKeepsInv(s, Evict(s));
      } else {
        EndKeepsInv(s, Skipped);
        QuietStepKeepsInv(End(s, Skipped), End(t, Skipped));
      }
  }

  lemma IndexEndsKeepsInv(s: Root, result: PassResult, now: real)
    requires Inv(s)
    ensures Inv(IndexEnds(s, result, now))
  {
    if s.job.Some? && s.job.value.phase.Indexing? {
      var t := PassEnds(s, result);
      assert s.begun + [] == s.begun;
      AnsweredLater(s, t, []);
      forall id | id in t.waiting ensures Serves(t, t.waiting[id]) {
        forall w | Wants(t.waiting[id].asked, w) && Owed(s, t.waiting[id], w) ensures Owed(t, t.waiting[id], w) {}
      }
      if t.job.value.phase.graphFollows || t.graphMark { RefreshKeepsInv(t, t.scope); } else { AfterPassKeepsInv(t, now); }
    }
  }

  lemma WatcherAsksKeepsInv(s: Root, java: bool, now: real)
    requires Inv(s)
    ensures Inv(WatcherAsks(s, java, now))
  {
    if s.resident && s.watcher.Waiting? && s.changedAt.Some? && now >= s.changedAt.value + QUIET_SECONDS {
      var paths := if s.changes.Some? then s.changes.value else Paths({});
      var t := s.(changes := None, watcher := Asking(s.nextId));
      QuietStepKeepsInv(s, t);
      AskKeepsInv(t, java || paths.Everything?, paths);
    }
  }

  /** Every interleaving keeps every caller's request. */
  lemma {:induction false} RunKeepsInv(s: Root, events: seq<(Event, real)>)
    requires Inv(s)
    ensures Inv(Run(s, events))
    decreases |events|
  {
    if events != [] {
      var last := events[|events| - 1];
      RunKeepsInv(s, events[..|events| - 1]);
      StepKeepsInv(Run(s, events[..|events| - 1]), last.0, last.1);
    }
  }

  /** Edit conservation: whoever is told a rebuild finished had every named path in the scope of a pass begun after
      the call, and a graph refresh begun after the call if one was asked for. */
  lemma FinishedMeansConserved(s: Root, id: nat)
    requires Reachable(s) && id in s.told && s.told[id].1.Finished?
    ensures Conserved(s.told[id].0, s.begun, s.refreshes)
  {
    var events :| Run(Fresh, events) == s;
    RunKeepsInv(Fresh, events);
    assert Answered(s, id);
  }

  predicate Known(s: Root, id: nat) { id in s.told || id in s.waiting }

  /** A caller once told keeps its answer. */
  ghost predicate KeepsAnswers(s: Root, t: Root) {
    forall id :: id in s.told && id !in s.waiting && id < s.nextId ==> id in t.told && t.told[id] == s.told[id] && id !in t.waiting
  }

  /** No step forgets a caller, an answer, or a pass that ended. */
  ghost predicate Remembers(s: Root, t: Root) {
    && s.nextId <= t.nextId && s.done <= t.done && KeepsAnswers(s, t)
    && forall id: nat :: Known(s, id) || s.nextId <= id < t.nextId ==> Known(t, id)
  }

  lemma EndRemembers(s: Root, outcome: Outcome)
    ensures Remembers(s, End(s, outcome))
  {}

  lemma HeadRemembers(s: Root, java: bool, paths: Changes, now: real)
    requires s.job.Some?
    ensures Remembers(s, Head(s, java, paths, now))
  {
    if StillChanging(s, now) {
      EndRemembers(s.(changes := Some(Merged(s.changes, paths))), Skipped);
    } else {
      assert PassBegins(s, java, paths).done == s.done;
    }
  }

  lemma AfterPassRemembers(s: Root, now: real)
    requires s.job.Some?
    ensures Remembers(s, AfterPass(s, now))
  {}

  lemma AskRemembers(s: Root, java: bool, paths: Changes)
    ensures Remembers(s, Ask(s, java, paths))
  {}

  lemma PassEndRemembers(s: Root, e: Event, now: real)
    requires e.Started? || e.Indexed? || e.Refreshed?
    ensures Remembers(s, Step(s, e, now))
  {
    if s.job.Some? {
      match e
      case Started => HeadRemembers(s, s.job.value.java, s.job.value.paths, now);
      case Indexed(result) => AfterPassRemembers(PassEnds(s, result), now);
      case Refreshed => AfterPassRemembers(s, now);
    }
  }

  lemma WatcherRemembers(s: Root, java: bool, now: real)
    ensures Remembers(s, WatcherAsks(s, java, now))
  {}

  predicate WatchersOwn(e: Event) { e.Loaded? || e.Noted? || e.Heard? }

  lemma QuietRemembers(s: Root, e: Event, now: real)
    requires WatchersOwn(e)
    ensures Remembers(s, Step(s, e, now))
  {}

  lemma EvictionRemembers(s: Root)
    ensures Remembers(s, Evict(s))
  {
    EndRemembers(s.(resident := false, changes := None, changedAt := None, watcher := NoWatcher), Skipped);
  }

  lemma StepRemembers(s: Root, e: Event, now: real)
    ensures Remembers(s, Step(s, e, now))
  {
    if WatchersOwn(e) {
      QuietRemembers(s, e, now);
    } else {
      match e
      case Asked(java, paths) => AskRemembers(s, java, paths);
      case Raised(outOfMemory) => EndRemembers(s, if outOfMemory then Deferred else Failed);
      case Woken(java) => WatcherRemembers(s, java, now);
      case Evicted => EvictionRemembers(s);
      case _ => PassEndRemembers(s, e, now);
    }
  }

  lemma {:induction false} RunKnows(events: seq<(Event, real)>, id: nat)
    ensures id < Run(Fresh, events).nextId ==> Known(Run(Fresh, events), id)
    decreases |events|
  {
    if events != [] {
      var last := events[|events| - 1];
      RunKnows(events[..|events| - 1], id);
      StepRemembers(Run(Fresh, events[..|events| - 1]), last.0, last.1);
    }
  }

  /** Nobody is forgotten: every call was answered or waits on a job that still serves it. */
  lemma EveryCallIsAccounted(s: Root, id: nat)
    requires Reachable(s) && id < s.nextId
    ensures id in s.told || (id in s.waiting && s.job.Some? && Serves(s, s.waiting[id]))
  {
    var events :| Run(Fresh, events) == s;
    RunKeepsInv(Fresh, events);
    RunKnows(events, id);
  }
}
