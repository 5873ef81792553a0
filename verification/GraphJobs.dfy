/** Graph construction jobs: one per root, each draining the change sets that arrive while it works
    (daemon/graph_jobs.py, _start and _build). */
module GraphJobs {
  import opened Coalescing
  import opened Options

  type Place = nat

  const QUEUE_LIMIT := 8

  /** A caller that joined a job: what it asked to have rescanned, nothing for one that only joins, and when. */
  datatype Joiner = Joiner(root: Place, asked: Option<Changes>, since: nat)

  datatype Pass = Pass(root: Place, scope: Changes)

  /** `jobs` says of each job whether its worker runs; `begun` lists the worker passes of all roots. */
  datatype Jobs = Jobs(ready: set<Place>, jobs: map<Place, bool>, paths: map<Place, Changes>,
                       pending: map<Place, Changes>, begun: seq<Pass>,
                       waiting: map<nat, Joiner>, told: map<nat, (Joiner, bool)>, nextId: nat)

  const Idle: Jobs := Jobs({}, map[], map[], map[], [], map[], map[], 0)

  datatype Answer = Joined(id: nat) | Published | Busy | NotFound

  function Pending(s: Jobs, root: Place): Option<Changes> { if root in s.pending then Some(s.pending[root]) else None }

  function Admits(s: Jobs, root: Place, refresh: bool, isDir: bool): Answer {
    if root in s.jobs then Joined(s.nextId)
    else if |s.jobs| >= QUEUE_LIMIT then if root in s.ready && !refresh then Published else Busy
    else if root !in s.ready && !isDir then NotFound
    else Joined(s.nextId)
  }

  /** A joined call without `refresh` adds nothing; a refused one changes nothing. */
  function Start(s: Jobs, root: Place, refresh: bool, changed: Changes, isDir: bool): Jobs {
    if !Admits(s, root, refresh, isDir).Joined? then s
    else
      var starts := root !in s.jobs;
      var j := Joiner(root, if starts || refresh then Some(changed) else None, |s.begun|);
      var s := s.(nextId := s.nextId + 1, waiting := s.waiting[s.nextId := j]);
      if starts then s.(jobs := s.jobs[root := false], paths := s.paths[root := changed])
      else if refresh then s.(pending := s.pending[root := Merged(Pending(s, root), changed)])
      else s
  }

  function WorkerStarts(s: Jobs, root: Place): Jobs {
    if root in s.jobs && root in s.paths && !s.jobs[root] then
      s.(jobs := s.jobs[root := true], begun := s.begun + [Pass(root, s.paths[root])])
    else s
  }

  /** The job goes, and everyone who joined it hears whether it finished. */
  function End(s: Jobs, root: Place, finished: bool): Jobs {
    s.(jobs := s.jobs - {root}, paths := s.paths - {root}, pending := s.pending - {root},
       waiting := map id | id in s.waiting && s.waiting[id].root != root :: s.waiting[id],
       told := s.told + map id | id in s.waiting && s.waiting[id].root == root :: (s.waiting[id], finished))
  }

  function WorkerEnds(s: Jobs, root: Place): Jobs {
    if root in s.jobs && s.jobs[root] then
      var s := s.(ready := s.ready + {root});
      if root !in s.pending then End(s, root, true)
      else s.(jobs := s.jobs[root := false], paths := s.paths[root := s.pending[root]], pending := s.pending - {root})
    else s
  }

  /** The pass raises, while queued or at work; a root that was removed is not ready any more. */
  function Fails(s: Jobs, root: Place, dropped: bool): Jobs {
    if root in s.jobs then End(if dropped then s.(ready := s.ready - {root}) else s, root, false) else s
  }

  datatype Event =
    | Asked(root: Place, refresh: bool, changed: Changes, isDir: bool)
    | Began(root: Place)
    | Ended(root: Place)
    | Raised(root: Place, dropped: bool)
    | FoundStored(root: Place)

  function Step(s: Jobs, e: Event): Jobs {
    match e
    case Asked(root, refresh, changed, isDir) => Start(s, root, refresh, changed, isDir)
    case Began(root) => WorkerStarts(s, root)
    case Ended(root) => WorkerEnds(s, root)
    case Raised(root, dropped) => Fails(s, root, dropped)
    case FoundStored(root) => s.(ready := s.ready + {root})
  }

  function Run(events: seq<Event>): Jobs
    decreases |events|
  {
    if events == [] then Idle else Step(Run(events[..|events| - 1]), events[|events| - 1])
  }

  // ---- coverage ------------------------------------------------------------------------

  /** A worker pass of the root, begun no earlier than the change set was accepted, rescans this. */
  ghost predicate Rescans(begun: seq<Pass>, j: Joiner, w: Want) {
    exists i :: j.since <= i < |begun| && begun[i].root == j.root && Gives(begun[i].scope, w)
  }

  ghost predicate Covered(j: Joiner, begun: seq<Pass>) {
    j.asked.Some? ==> forall w :: Wants(j.asked.value, w) ==> Rescans(begun, j, w)
  }

  ghost predicate Due(s: Jobs, j: Joiner, w: Want) {
    || Rescans(s.begun, j, w)
    || (j.root in s.jobs && !s.jobs[j.root] && j.root in s.paths && Gives(s.paths[j.root], w))
    || Holds(Pending(s, j.root), w)
  }

  ghost predicate Serves(s: Jobs, j: Joiner) {
    && j.root in s.jobs && j.since <= |s.begun|
    && (j.asked.Some? ==> forall w :: Wants(j.asked.value, w) ==> Due(s, j, w))
  }

  ghost predicate Shaped(s: Jobs) {
    && |s.jobs| <= QUEUE_LIMIT
    && (forall root :: root in s.jobs <==> root in s.paths)
    && (forall root :: root in s.pending ==> root in s.jobs)
  }

  ghost predicate AllServed(s: Jobs) { forall id :: id in s.waiting ==> Serves(s, s.waiting[id]) }

  ghost predicate AllCovered(s: Jobs) {
    forall id :: id in s.told && s.told[id].1 ==> Covered(s.told[id].0, s.begun)
  }

  ghost predicate Numbered(s: Jobs) {
    forall id: nat :: id < s.nextId <==> id in s.told || id in s.waiting
  }

  ghost predicate Inv(s: Jobs) { Shaped(s) && AllServed(s) && AllCovered(s) && Numbered(s) }

  /** An accepted change set is due from the job it starts or from what it adds to the job there is. */
  lemma StartServesTheCaller(s: Jobs, root: Place, refresh: bool, changed: Changes, isDir: bool)
    requires Shaped(s) && Admits(s, root, refresh, isDir).Joined?
    ensures var t := Start(s, root, refresh, changed, isDir); s.nextId in t.waiting && Serves(t, t.waiting[s.nextId])
  {}

  lemma StartServesTheOthers(s: Jobs, root: Place, refresh: bool, changed: Changes, isDir: bool, j: Joiner)
    requires Shaped(s) && Serves(s, j) && Admits(s, root, refresh, isDir).Joined?
    ensures Serves(Start(s, root, refresh, changed, isDir), j)
  {
    var t := Start(s, root, refresh, changed, isDir);
    if j.asked.Some? {
      forall w | Wants(j.asked.value, w) ensures Due(t, j, w) {
        assert Due(s, j, w);
        MergedGives(Pending(s, root), changed, w);
      }
    }
  }

  lemma StartTellsNobody(s: Jobs, root: Place, refresh: bool, changed: Changes, isDir: bool)
    ensures var t := Start(s, root, refresh, changed, isDir);
            t.told == s.told && t.begun == s.begun && t.waiting.Keys <= s.waiting.Keys + {s.nextId}
    ensures var t := Start(s, root, refresh, changed, isDir);
            forall id :: id in t.waiting && id != s.nextId ==> t.waiting[id] == s.waiting[id]
  {}

  lemma StartKeepsShape(s: Jobs, root: Place, refresh: bool, changed: Changes, isDir: bool)
    requires Shaped(s) && Numbered(s)
    ensures Shaped(Start(s, root, refresh, changed, isDir)) && Numbered(Start(s, root, refresh, changed, isDir))
  {}

  lemma StartKeepsInv(s: Jobs, root: Place, refresh: bool, changed: Changes, isDir: bool)
    requires Inv(s)
    ensures Inv(Start(s, root, refresh, changed, isDir))
  {
    var t := Start(s, root, refresh, changed, isDir);
    StartKeepsShape(s, root, refresh, changed, isDir);
    StartTellsNobody(s, root, refresh, changed, isDir);
    if Admits(s, root, refresh, isDir).Joined? {
      forall id | id in t.waiting ensures Serves(t, t.waiting[id]) {
        if id == s.nextId {
          StartServesTheCaller(s, root, refresh, changed, isDir);
        } else {
          assert Serves(s, s.waiting[id]);
          StartServesTheOthers(s, root, refresh, changed, isDir, s.waiting[id]);
        }
      }
    }
  }

  lemma RescansLater(s: Jobs, p: Pass, j: Joiner, w: Want)
    requires Rescans(s.begun, j, w)
    ensures Rescans(s.begun + [p], j, w)
  {
    var i :| j.since <= i < |s.begun| && s.begun[i].root == j.root && Gives(s.begun[i].scope, w);
    assert (s.begun + [p])[i] == s.begun[i];
  }

  lemma CoveredLater(s: Jobs, p: Pass, j: Joiner)
    requires Covered(j, s.begun)
    ensures Covered(j, s.begun + [p])
  {
    if j.asked.Some? {
      forall w | Wants(j.asked.value, w) ensures Rescans(s.begun + [p], j, w) { RescansLater(s, p, j, w); }
    }
  }

  /** What the pass begins over is rescanned by it; what was rescanned or pending stays so. */
  lemma WorkerStartsServes(s: Jobs, root: Place, j: Joiner)
    requires Serves(s, j) && WorkerStarts(s, root) != s
    ensures Serves(WorkerStarts(s, root), j)
  {
    var t, p := WorkerStarts(s, root), Pass(root, s.paths[root]);
    assert t.begun == s.begun + [p] && t.begun[|s.begun|] == p;
    if j.asked.Some? {
      forall w | Wants(j.asked.value, w) ensures Due(t, j, w) {
        assert Due(s, j, w);
        if Rescans(s.begun, j, w) { RescansLater(s, p, j, w); }
      }
    }
  }

  lemma WorkerStartsKeepsInv(s: Jobs, root: Place)
    requires Inv(s)
    ensures Inv(WorkerStarts(s, root))
  {
    var t := WorkerStarts(s, root);
    if t != s {
      forall id | id in t.waiting ensures Serves(t, t.waiting[id]) {
        assert Serves(s, s.waiting[id]);
        WorkerStartsServes(s, root, s.waiting[id]);
      }
      forall id | id in t.told && t.told[id].1 ensures Covered(t.told[id].0, t.begun) {
        CoveredLater(s, Pass(root, s.paths[root]), t.told[id].0);
      }
      assert t.jobs.Keys == s.jobs.Keys;
    }
  }

  /** A job at work with nothing pending has begun passes over everything it was asked for. */
  lemma NothingPendingMeansCovered(s: Jobs, j: Joiner)
    requires Serves(s, j) && s.jobs[j.root] && j.root !in s.pending
    ensures Covered(j, s.begun)
  {}

  lemma EndKeepsShape(s: Jobs, root: Place, finished: bool)
    requires Shaped(s) && Numbered(s) && root in s.jobs
    ensures Shaped(End(s, root, finished)) && Numbered(End(s, root, finished))
  {}

  lemma EndServesTheOthers(s: Jobs, root: Place, finished: bool, j: Joiner)
    requires Serves(s, j) && j.root != root
    ensures Serves(End(s, root, finished), j)
  {
    var t := End(s, root, finished);
    if j.asked.Some? {
      forall w | Wants(j.asked.value, w) ensures Due(t, j, w) { assert Due(s, j, w); }
    }
  }

  lemma EndServesAll(s: Jobs, root: Place, finished: bool)
    requires AllServed(s)
    ensures AllServed(End(s, root, finished))
  {
    var t := End(s, root, finished);
    forall id | id in t.waiting ensures Serves(t, t.waiting[id]) {
      assert t.waiting[id] == s.waiting[id] && Serves(s, s.waiting[id]);
      EndServesTheOthers(s, root, finished, s.waiting[id]);
    }
  }

  lemma EndCoversAll(s: Jobs, root: Place, finished: bool)
    requires AllServed(s) && AllCovered(s) && root in s.jobs
    requires finished ==> s.jobs[root] && root !in s.pending
    ensures AllCovered(End(s, root, finished))
  {
    var t := End(s, root, finished);
    forall id | id in t.told && t.told[id].1 ensures Covered(t.told[id].0, t.begun) {
      if id in s.waiting && s.waiting[id].root == root {
        assert Serves(s, s.waiting[id]);
        NothingPendingMeansCovered(s, s.waiting[id]);
      }
    }
  }

  lemma EndKeepsInv(s: Jobs, root: Place, finished: bool)
    requires Inv(s) && root in s.jobs
    requires finished ==> s.jobs[root] && root !in s.pending
    ensures Inv(End(s, root, finished))
  {
    EndKeepsShape(s, root, finished);
    EndServesAll(s, root, finished);
    EndCoversAll(s, root, finished);
  }

  /** Which roots are ready does not matter to what is due. */
  lemma ReadinessKeepsInv(s: Jobs, ready: set<Place>)
    requires Inv(s)
    ensures Inv(s.(ready := ready))
  {}

  lemma WorkerEndsKeepsInv(s: Jobs, root: Place)
    requires Inv(s)
    ensures Inv(WorkerEnds(s, root))
  {
    if root in s.jobs && s.jobs[root] {
      if root !in s.pending {
        ReadinessKeepsInv(s, s.ready + {root});
        EndKeepsInv(s.(ready := s.ready + {root}), root, true);
      } else {
        var t := WorkerEnds(s, root);
        forall id | id in t.waiting ensures Serves(t, t.waiting[id]) {}
        assert t.jobs.Keys == s.jobs.Keys;
      }
    }
  }

  lemma StepKeepsInv(s: Jobs, e: Event)
    requires Inv(s)
    ensures Inv(Step(s, e))
  {
    match e
    case Asked(root, refresh, changed, isDir) => StartKeepsInv(s, root, refresh, changed, isDir);
    case Began(root) => WorkerStartsKeepsInv(s, root);
    case Ended(root) => WorkerEndsKeepsInv(s, root);
    case Raised(root, dropped) =>
      if root in s.jobs {
        ReadinessKeepsInv(s, s.ready - {root});
        EndKeepsInv(if dropped then s.(ready := s.ready - {root}) else s, root, false);
      }
    case FoundStored(root) => ReadinessKeepsInv(s, s.ready + {root});
  }

  lemma {:induction false} RunKeepsInv(events: seq<Event>)
    ensures Inv(Run(events))
    decreases |events|
  {
    if events != [] {
      RunKeepsInv(events[..|events| - 1]);
      StepKeepsInv(Run(events[..|events| - 1]), events[|events| - 1]);
    }
  }

  /** Single flight and full coverage: never more jobs than the queue holds, one to a root; every accepted change set
      is answered or still due from a job of its root, and when that job finishes, worker passes begun after it
      was accepted have rescanned all of it. */
  lemma EveryChangeSetIsCovered(events: seq<Event>, id: nat)
    requires id < Run(events).nextId
    ensures var s := Run(events);
            && |s.jobs| <= 8
            && (id in s.waiting ==> Serves(s, s.waiting[id]))
            && (id !in s.waiting ==> id in s.told && (s.told[id].1 ==> Covered(s.told[id].0, s.begun)))
  {
    RunKeepsInv(events);
  }

  /** In any run a call joins its root's job, or starts one, unless eight other roots have jobs; then the published graph
      answers a call that asks for no refresh, and any other call is refused. A root that is no directory and has no graph
      starts no job. */
  lemma CallIsAnswered(events: seq<Event>, root: Place, refresh: bool, changed: Changes, isDir: bool)
    ensures var s := Run(events);
            var t := Step(s, Asked(root, refresh, changed, isDir));
            var full := root !in s.jobs && |s.jobs| == 8;
            match Admits(s, root, refresh, isDir)
            case Joined(id) =>
              && !full && (root in s.jobs || root in s.ready || isDir)
              && id == s.nextId && id in t.waiting && t.waiting[id].root == root && root in t.jobs
              && t.waiting[id].asked == (if root in s.jobs && !refresh then None else Some(changed))
            case Published => full && !refresh && root in s.ready && t == s
            case Busy => full && (refresh || root !in s.ready) && t == s
            case NotFound => root !in s.jobs && !full && root !in s.ready && !isDir && t == s
  {
    RunKeepsInv(events);
  }

  // ---- how jobs end ----------------------------------------------------------------------------

  /** In any run, a caller stops waiting exactly when its root's job ends: it is told that the job finished when a pass ended
      with nothing left pending, and that it did not when a pass raised. */
  lemma AnswersAreTrue(events: seq<Event>, e: Event, id: nat)
    requires id in Run(events).waiting
    ensures var s, t := Run(events), Step(Run(events), e);
            var root := s.waiting[id].root;
            var finished := e == Ended(root) && root in s.jobs && s.jobs[root] && root !in s.pending;
            var raised := e.Raised? && e.root == root;
            && root in s.jobs
            && (id in t.waiting <==> !finished && !raised)
            && (finished || raised ==> id in t.told && t.told[id] == (s.waiting[id], finished) && root !in t.jobs)
  {
    RunKeepsInv(events);
    assert Serves(Run(events), Run(events).waiting[id]);
  }

  lemma RunGoesOn(events: seq<Event>, e: Event)
    ensures Run(events + [e]) == Step(Run(events), e)
  {
    assert (events + [e])[..|events|] == events;
  }

  /** A pass of the root begins or ends. */
  predicate Works(e: Event, root: Place) { e == Began(root) || e == Ended(root) }

  /** What a root's own passes do to the callers waiting on it. */
  ghost predicate StillServed(s: Jobs, t: Jobs, root: Place) {
    forall id :: id in s.waiting && s.waiting[id].root == root ==>
      if root in t.jobs then id in t.waiting && t.waiting[id] == s.waiting[id]
      else id in t.told && t.told[id] == (s.waiting[id], true)
  }

  lemma BeganServes(s: Jobs, root: Place)
    requires Inv(s) && root in s.jobs && !s.jobs[root]
    ensures var t := Step(s, Began(root));
            root in t.jobs && t.jobs[root] && t.pending == s.pending && t.waiting == s.waiting
  {}

  lemma EndedServes(s: Jobs, root: Place)
    requires Inv(s) && root in s.jobs && s.jobs[root]
    ensures var t := Step(s, Ended(root));
            && StillServed(s, t, root)
            && if root in s.pending then root in t.jobs && root !in t.pending else root !in t.jobs
  {}

  /** One pass of a job: it ends the job, or what was pending is what is left to do. */
  lemma OnePass(events: seq<Event>, root: Place) returns (more: seq<Event>)
    requires root in Run(events).jobs
    ensures forall i :: 0 <= i < |more| ==> Works(more[i], root)
    ensures StillServed(Run(events), Run(events + more), root)
    ensures var t := Run(events + more);
            if root in Run(events).pending then root in t.jobs && root !in t.pending else root !in t.jobs
  {
    RunKeepsInv(events);
    if Run(events).jobs[root] {
      more := [Ended(root)];
      RunGoesOn(events, Ended(root));
      EndedServes(Run(events), root);
    } else {
      more := [Began(root), Ended(root)];
      RunGoesOn(events, Began(root));
      BeganServes(Run(events), root);
      RunKeepsInv(events + [Began(root)]);
      RunGoesOn(events + [Began(root)], Ended(root));
      EndedServes(Run(events + [Began(root)]), root);
      assert events + more == events + [Began(root)] + [Ended(root)];
    }
  }

  lemma ServedTwice(s: Jobs, t: Jobs, u: Jobs, root: Place)
    requires StillServed(s, t, root) && StillServed(t, u, root) && root in t.jobs && root !in u.jobs
    ensures StillServed(s, u, root)
  {}

  /** No job runs for ever of itself: its own passes bring it to an end, and everyone waiting on it hears that it finished. */
  lemma JobCanEnd(events: seq<Event>, root: Place) returns (more: seq<Event>)
    requires root in Run(events).jobs
    ensures forall i :: 0 <= i < |more| ==> Works(more[i], root)
    ensures root !in Run(events + more).jobs && StillServed(Run(events), Run(events + more), root)
  {
    more := OnePass(events, root);
    if root in Run(events).pending {
      var rest := OnePass(events + more, root);
      ServedTwice(Run(events), Run(events + more), Run(events + more + rest), root);
      PassesInTurn(events, more, rest);
      more := more + rest;
    }
  }

  lemma PassesInTurn(events: seq<Event>, first: seq<Event>, rest: seq<Event>)
    ensures Run(events + (first + rest)) == Run(events + first + rest)
  {
    assert events + (first + rest) == events + first + rest;
  }

  /** A pass of the root ended at this event, or its graph was found on the disk. */
  predicate Publishes(events: seq<Event>, i: nat, root: Place) {
    i < |events|
    && (events[i] == FoundStored(root)
        || (events[i] == Ended(root) && root in Run(events[..i]).jobs && Run(events[..i]).jobs[root]))
  }

  /** A pass of the root raised because the root was removed. */
  predicate Removes(events: seq<Event>, i: nat, root: Place) {
    i < |events| && events[i] == Raised(root, true) && root in Run(events[..i]).jobs
  }

  lemma {:induction false} SamePrefix(events: seq<Event>, i: nat, root: Place)
    requires i < |events| - 1
    ensures Publishes(events, i, root) == Publishes(events[..|events| - 1], i, root)
    ensures Removes(events, i, root) == Removes(events[..|events| - 1], i, root)
  {
    assert events[..|events| - 1][..i] == events[..i];
  }

  ghost predicate PublishedAt(events: seq<Event>, i: nat, root: Place) {
    Publishes(events, i, root) && forall j :: i < j < |events| ==> !Removes(events, j, root)
  }

  lemma ReadyStep(s: Jobs, e: Event, root: Place)
    ensures root in Step(s, e).ready <==>
            || e == FoundStored(root) || (e == Ended(root) && root in s.jobs && s.jobs[root])
            || (root in s.ready && !(e == Raised(root, true) && root in s.jobs))
  {
    match e
    case Asked(other, refresh, changed, isDir) => assert Start(s, other, refresh, changed, isDir).ready == s.ready;
    case Began(_) =>
    case Ended(_) =>
    case Raised(_, _) =>
    case FoundStored(_) =>
  }

  lemma PublishedStep(events: seq<Event>, root: Place)
    requires events != []
    ensures var before, n := events[..|events| - 1], |events| - 1;
            (exists i: nat :: PublishedAt(events, i, root)) <==>
            Publishes(events, n, root) || (!Removes(events, n, root) && exists i: nat :: PublishedAt(before, i, root))
  {
    var before, n := events[..|events| - 1], |events| - 1;
    if i: nat :| PublishedAt(events, i, root) {
      if i < n {
        SamePrefix(events, i, root);
        forall j | i < j < n ensures !Removes(before, j, root) { SamePrefix(events, j, root); }
        assert PublishedAt(before, i, root);
      }
    }
    if Publishes(events, n, root) {
      assert PublishedAt(events, n, root);
    } else if !Removes(events, n, root) {
      if i: nat :| PublishedAt(before, i, root) {
        SamePrefix(events, i, root);
        forall j | i < j < |events| ensures !Removes(events, j, root) { if j < n { SamePrefix(events, j, root); } }
        assert PublishedAt(events, i, root);
      }
    }
  }

  /** In any run, a root's graph is ready exactly when a pass of it has ended, or its graph was found on the disk, and it was
      not removed since. */
  lemma {:induction false} ReadyMeansPublished(events: seq<Event>, root: Place)
    ensures root in Run(events).ready <==> exists i: nat :: PublishedAt(events, i, root)
    decreases |events|
  {
    if events != [] {
      var before := events[..|events| - 1];
      ReadyMeansPublished(before, root);
      ReadyStep(Run(before), events[|events| - 1], root);
      PublishedStep(events, root);
    }
  }

  // ---- the bookkeeping as the daemon keeps it --------------------------------------------

  class GraphJobTable {
    var ready: set<Place>
    var jobs: map<Place, bool>
    var paths: map<Place, Changes>
    var pending: map<Place, Changes>
    ghost var begun: seq<Pass>
    ghost var waiting: map<nat, Joiner>
    ghost var told: map<nat, (Joiner, bool)>
    var nextId: nat

    ghost function View(): Jobs
      reads this
    {
      Jobs(ready, jobs, paths, pending, begun, waiting, told, nextId)
    }

    constructor ()
      ensures View() == Idle
    {
      ready, jobs, paths, pending, begun, waiting, told, nextId := {}, map[], map[], map[], [], map[], map[], 0;
    }

    method AddPending(root: Place, changed: Changes)
      modifies this`pending
      ensures pending == old(pending)[root := Merged(Pending(old(View()), root), changed)]
    {
      var held := if root in pending then pending[root] else Paths({});
      if held.Everything? || changed.Everything? {
        pending := pending[root := Everything];
      } else {
        var files := held.files + changed.files;
        pending := pending[root := if |files| > MAX_CHANGED_PATHS then Everything else Paths(files)];
      }
    }

    method StartJob(root: Place, refresh: bool, changed: Changes, isDir: bool) returns (answer: Answer)
      modifies this
      ensures answer == Admits(old(View()), root, refresh, isDir)
      ensures View() == Start(old(View()), root, refresh, changed, isDir)
    {
      answer := Joined(nextId);
      ghost var j := Joiner(root, if root !in jobs || refresh then Some(changed) else None, |begun|);
      if root !in jobs {
        if |jobs| >= QUEUE_LIMIT {
          return if root in ready && !refresh then Published else Busy;
        }
        if root !in ready && !isDir { return NotFound; }
        paths := paths[root := changed];
        jobs := jobs[root := false];
      } else if refresh {
        AddPending(root, changed);
      }
      waiting := waiting[nextId := j];
      nextId := nextId + 1;
    }

    method Drop(root: Place, finished: bool)
      modifies this
      ensures View() == End(old(View()), root, finished)
    {
      ghost var was := View();
      jobs := jobs - {root};
      paths := paths - {root};
      pending := pending - {root};
      told := End(was, root, finished).told;
      waiting := End(was, root, finished).waiting;
    }

    method BeginPass(root: Place)
      requires root in jobs && root in paths && !jobs[root]
      modifies this
      ensures View() == Step(old(View()), Began(root))
    {
      jobs := jobs[root := true];
      begun := begun + [Pass(root, paths[root])];
    }

    /** A worker pass is published: go round again for what arrived meanwhile, or be done. */
    method EndPass(root: Place)
      requires root in jobs && jobs[root]
      modifies this
      ensures View() == Step(old(View()), Ended(root))
    {
      ready := ready + {root};
      if root !in pending {
        Drop(root, true);
        return;
      }
      paths := paths[root := pending[root]];
      pending := pending - {root};
      jobs := jobs[root := false];
    }

    method NoteStored(root: Place)
      modifies this`ready
      ensures View() == Step(old(View()), FoundStored(root))
    {
      ready := ready + {root};
    }

    method FailPass(root: Place, dropped: bool)
      requires root in jobs
      modifies this
      ensures View() == Step(old(View()), Raised(root, dropped))
    {
      if dropped { ready := ready - {root}; }
      Drop(root, false);
    }
  }
}
