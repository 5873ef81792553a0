/** What the callers of a rebuild are told of its passes, said of the events alone, and what the watcher makes of it
    (daemon/server.py, Daemon._run_rebuild and _watch_rebuild). */
module RebuildResults {
  import opened Coalescing
  import opened Options
  import opened RebuildAnswers
  import opened RebuildLosses
  import opened RebuildModel

  type Trace = seq<(Event, real)>

  ghost function After(events: Trace, n: nat): Root
    requires n <= |events|
  {
    Run(Fresh, events[..n])
  }

  /** The n-th event is the end of an index pass. */
  ghost predicate EndsPass(events: Trace, n: nat) {
    && n < |events| && events[n].0.Indexed?
    && After(events, n).job.Some? && After(events, n).job.value.phase.Indexing?
  }

  /** Before the n-th event there is a job. */
  ghost predicate Running(events: Trace, n: nat) { n <= |events| && After(events, n).job.Some? }

  /** The last end before `m`, with everything running in between. */
  ghost predicate LastOf(ends: nat -> bool, runs: nat -> bool, n: nat, m: nat) {
    && n < m && ends(n) && (forall k: nat :: n < k < m ==> !ends(k)) && (forall k: nat :: n < k <= m ==> runs(k))
  }

  ghost function Ends(events: Trace): nat -> bool { (n: nat) => EndsPass(events, n) }

  ghost function Runs(events: Trace): nat -> bool { (n: nat) => Running(events, n) }

  /** The last index pass to end by the m-th event, of the job that is there then. */
  ghost predicate LastPass(events: Trace, n: nat, m: nat) { m <= |events| && LastOf(Ends(events), Runs(events), n, m) }

  /** While the graph is refreshed, the job holds what its last index pass ended with. */
  ghost predicate HoldsResult(events: Trace, s: Root) {
    s.job.Some? && s.job.value.phase.Graphing? ==> exists n: nat :: ResultOf(events, n, s.job.value.result)
  }

  ghost predicate ResultOf(events: Trace, n: nat, result: PassResult) {
    LastPass(events, n, |events|) && n < |events| && events[n].0 == Indexed(result)
  }

  lemma LastStays(ends: nat -> bool, runs: nat -> bool, ends': nat -> bool, runs': nat -> bool, n: nat, m: nat)
    requires LastOf(ends, runs, n, m) && !ends'(m) && runs'(m + 1)
    requires forall k: nat :: k < m ==> ends'(k) == ends(k)
    requires forall k: nat :: k <= m ==> runs'(k) == runs(k)
    ensures LastOf(ends', runs', n, m + 1)
  {}

  lemma LastSame(ends: nat -> bool, runs: nat -> bool, ends': nat -> bool, runs': nat -> bool, n: nat, m: nat)
    requires LastOf(ends, runs, n, m)
    requires forall k: nat :: k < m ==> ends'(k) == ends(k)
    requires forall k: nat :: k <= m ==> runs'(k) == runs(k)
    ensures LastOf(ends', runs', n, m)
  {}

  /** What a prefix shows is what the whole run shows there. */
  lemma PrefixShows(events: Trace, m: nat)
    requires m <= |events|
    ensures forall k: nat :: k < m ==> Ends(events)(k) == Ends(events[..m])(k)
    ensures forall k: nat :: k <= m ==> Runs(events)(k) == Runs(events[..m])(k)
  {
    forall k: nat | k <= m ensures events[..m][..k] == events[..k] {}
  }

  lemma LastPassGoesOn(events: Trace, m: nat, n: nat)
    requires m < |events| && LastPass(events[..m], n, m) && !EndsPass(events, m) && Running(events, m + 1)
    ensures LastPass(events, n, m + 1)
  {
    PrefixShows(events, m);
    LastStays(Ends(events[..m]), Runs(events[..m]), Ends(events), Runs(events), n, m);
  }

  predicate EndsIndexing(s: Root, e: Event) { e.Indexed? && s.job.Some? && s.job.value.phase.Indexing? }

  predicate Refreshing(s: Root) { s.job.Some? && s.job.value.phase.Graphing? }

  /** A refresh follows the pass that ends, with its result, or goes on with the one the job had. */
  lemma RefreshingFrom(s: Root, e: Event, now: real)
    requires Refreshing(Step(s, e, now))
    ensures if EndsIndexing(s, e) then Step(s, e, now).job.value.result == e.result
            else Refreshing(s) && Step(s, e, now).job.value.result == s.job.value.result
  {}

  /** Whoever hears that its rebuild finished hears the result of the pass that ends, or the one the job had. */
  lemma FinishedFrom(s: Root, e: Event, now: real, id: nat)
    requires Inv(s) && id in s.waiting && id in Step(s, e, now).told && Step(s, e, now).told[id].1.Finished?
    ensures if EndsIndexing(s, e) then Step(s, e, now).told[id].1 == Finished(e.result)
            else Refreshing(s) && Step(s, e, now).told[id].1 == Finished(s.job.value.result)
  {
    assert id !in s.told;
    match e
    case Indexed(result) => if EndsIndexing(s, e) { AfterPassFinishes(PassEnds(s, result), now, id); }
    case Refreshed => if Refreshing(s) { AfterPassFinishes(s, now, id); }
    case _ =>
  }

  lemma AfterPassFinishes(s: Root, now: real, id: nat)
    requires s.job.Some? && id !in s.told && id in AfterPass(s, now).told && AfterPass(s, now).told[id].1.Finished?
    ensures AfterPass(s, now).told[id].1 == Finished(s.job.value.result)
  {}

  /** One step keeps it, from any state. */
  lemma StepHoldsResult(events: Trace, s: Root, t: Root)
    requires events != [] && HoldsResult(events[..|events| - 1], s)
    requires t == Step(s, events[|events| - 1].0, events[|events| - 1].1)
    requires EndsPass(events, |events| - 1) <==> EndsIndexing(s, events[|events| - 1].0)
    requires Running(events, |events|) <==> t.job.Some?
    ensures HoldsResult(events, t)
  {
    var m := |events| - 1;
    if Refreshing(t) {
      RefreshingFrom(s, events[m].0, events[m].1);
      if EndsIndexing(s, events[m].0) {
        assert Ends(events)(m) && Runs(events)(m + 1);
        assert ResultOf(events, m, t.job.value.result);
      } else {
        var n: nat :| ResultOf(events[..m], n, s.job.value.result);
        LastPassGoesOn(events, m, n);
        assert ResultOf(events, n, t.job.value.result);
      }
    }
  }

  lemma {:induction false} RunHoldsResult(events: Trace)
    ensures HoldsResult(events, Run(Fresh, events))
    decreases |events|
  {
    if events != [] {
      var m := |events| - 1;
      RunHoldsResult(events[..m]);
      assert events[..m] + [events[m]] == events && events[..|events|] == events;
      RunGoesOn(Fresh, events[..m], events[m].0, events[m].1);
      StepHoldsResult(events, Run(Fresh, events[..m]), Run(Fresh, events));
    } else {
      assert Run(Fresh, events) == Fresh;
    }
  }

  /** The m-th event tells the caller that its rebuild finished; the n-th was the end of the last index pass of its job. */
  ghost predicate AnsweredBy(events: Trace, id: nat, n: nat, m: nat) {
    && m < |events| && id in After(events, m).waiting
    && id in After(events, m + 1).told && After(events, m + 1).told[id].1.Finished?
    && EndsPass(events, n) && (n == m || (LastPass(events, n, m) && !EndsPass(events, m)))
  }

  lemma StepAt(events: Trace, m: nat)
    requires m < |events|
    ensures After(events, m + 1) == Step(After(events, m), events[m].0, events[m].1)
    ensures Inv(After(events, m)) && HoldsResult(events[..m], After(events, m))
  {
    assert events[..m + 1] == events[..m] + [events[m]];
    RunGoesOn(Fresh, events[..m], events[m].0, events[m].1);
    RunKeepsInv(Fresh, events[..m]);
    RunHoldsResult(events[..m]);
  }

  lemma PassesOfPrefix(events: Trace, m: nat, n: nat)
    requires m <= |events| && LastPass(events[..m], n, m)
    ensures LastPass(events, n, m)
  {
    PrefixShows(events, m);
    LastSame(Ends(events[..m]), Runs(events[..m]), Ends(events), Runs(events), n, m);
  }

  /** When somebody hears that its rebuild finished, its job had a last index pass. */
  lemma AnswerHasPass(events: Trace, id: nat, m: nat) returns (n: nat)
    requires m < |events| && id in After(events, m).waiting
    requires id in After(events, m + 1).told && After(events, m + 1).told[id].1.Finished?
    ensures AnsweredBy(events, id, n, m) && After(events, m + 1).told[id].1 == Finished(events[n].0.result)
  {
    var s := After(events, m);
    StepAt(events, m);
    FinishedFrom(s, events[m].0, events[m].1, id);
    if EndsIndexing(s, events[m].0) {
      n := m;
    } else {
      n :| ResultOf(events[..m], n, s.job.value.result);
      PassesOfPrefix(events, m, n);
      assert Ends(events)(n) && events[..m][n] == events[n];
    }
  }

  lemma OnePass(events: Trace, id: nat, n: nat, other: nat, m: nat)
    requires AnsweredBy(events, id, n, m) && AnsweredBy(events, id, other, m)
    ensures n == other
  {}

  predicate Told(s: Root, id: nat, answer: (Request, Outcome)) { id in s.told && s.told[id] == answer }

  lemma ToldIsOver(s: Root, id: nat)
    requires Inv(s)
    ensures id in s.told ==> id !in s.waiting && id < s.nextId
  {}

  lemma StepKeepsTold(s: Root, e: Event, now: real, id: nat, answer: (Request, Outcome))
    requires Inv(s) && Told(s, id, answer)
    ensures Told(Step(s, e, now), id, answer)
  {
    ToldIsOver(s, id);
    StepRemembers(s, e, now);
  }

  /** What was once told stays told. */
  lemma {:induction false} TellingLasts(events: Trace, id: nat, m: nat, k: nat, answer: (Request, Outcome))
    requires m <= k <= |events| && Told(After(events, m), id, answer)
    ensures Told(After(events, k), id, answer)
    decreases k
  {
    if m < k {
      TellingLasts(events, id, m, k - 1, answer);
      StepAt(events, k - 1);
      StepKeepsTold(After(events, k - 1), events[k - 1].0, events[k - 1].1, id, answer);
    }
  }

  /** The step at which a caller heard its answer: it waited before, or was refused at once. */
  lemma {:induction false} ToldAt(events: Trace, id: nat, k: nat) returns (m: nat)
    requires k <= |events| && id in After(events, k).told && After(events, k).told[id].1.Finished?
    ensures m < k && id in After(events, m).waiting
    ensures id in After(events, m + 1).told && After(events, m + 1).told[id] == After(events, k).told[id]
    decreases k
  {
    assert events[..0] == [];
    if k > 0 {
      StepAt(events, k - 1);
      if id in After(events, k - 1).told {
        StepKeepsTold(After(events, k - 1), events[k - 1].0, events[k - 1].1, id, After(events, k - 1).told[id]);
        m := ToldAt(events, id, k - 1);
      } else {
        FinishedWaited(After(events, k - 1), events[k - 1].0, events[k - 1].1, id);
        m := k - 1;
      }
    }
  }

  lemma FinishedWaited(s: Root, e: Event, now: real, id: nat)
    requires id !in s.told && id in Step(s, e, now).told && Step(s, e, now).told[id].1.Finished?
    ensures id in s.waiting
  {
    match e
    case Indexed(result) => if EndsIndexing(s, e) { AfterPassTells(PassEnds(s, result), now, id); }
    case Refreshed => if Refreshing(s) { AfterPassTells(s, now, id); }
    case Started => if s.job.Some? { HeadTells(s, s.job.value.java, s.job.value.paths, now, id); }
    case _ =>
  }

  lemma HeadTells(s: Root, java: bool, paths: Changes, now: real, id: nat)
    requires s.job.Some?
    ensures id in Head(s, java, paths, now).told ==> id in s.told || id in s.waiting
  {}

  lemma AfterPassTells(s: Root, now: real, id: nat)
    requires s.job.Some?
    ensures id in AfterPass(s, now).told ==> id in s.told || id in s.waiting
  {}

  /** In any run, a caller told that its rebuild finished was told the result of the last index pass of its job to end
      before it heard. */
  lemma ToldIsLastResult(events: Trace, id: nat) returns (n: nat, m: nat)
    requires var s := Run(Fresh, events); id in s.told && s.told[id].1.Finished?
    ensures AnsweredBy(events, id, n, m) && Run(Fresh, events).told[id].1 == Finished(events[n].0.result)
  {
    assert events[..|events|] == events;
    m := ToldAt(events, id, |events|);
    n := AnswerHasPass(events, id, m);
  }

  /** And whichever pass that was, no other result is told. */
  lemma NoOtherResult(events: Trace, id: nat, n: nat, m: nat)
    requires AnsweredBy(events, id, n, m)
    ensures var s := Run(Fresh, events); id in s.told && s.told[id].1 == Finished(events[n].0.result)
  {
    var other := AnswerHasPass(events, id, m);
    OnePass(events, id, n, other, m);
    assert events[..|events|] == events;
    TellingLasts(events, id, m + 1, |events|, After(events, m + 1).told[id]);
  }

  /** A caller waits on a job when its index is loaded, and otherwise hears at once that its call was skipped. */
  lemma CallWaitsOrIsSkipped(s: Root, java: bool, paths: Changes, now: real)
    requires Reachable(s)
    ensures var t, id := Step(s, Asked(java, paths), now), s.nextId;
            if s.resident then t.job.Some? && id in t.waiting && t.waiting[id].asked == paths && t.waiting[id].java == java
            else id in t.told && t.told[id].1 == Skipped && id !in t.waiting && t.job == s.job
  {
    ReachableInv(s);
  }

  predicate TreeMoves(s: Root, now: real) { !s.watcher.NoWatcher? && s.changedAt.Some? && now < s.changedAt.value + 2.0 }

  /** Why a caller hears what it hears: out of memory or another error of the pass, a tree still changing when a pass would
      begin, an eviction before one did, or else that its rebuild finished. */
  lemma AnswerTellsWhy(s: Root, e: Event, now: real, id: nat)
    requires Reachable(s) && id in s.waiting && id !in Step(s, e, now).waiting
    ensures id in Step(s, e, now).told && Step(s, e, now).told[id].0 == s.waiting[id]
    ensures var outcome := Step(s, e, now).told[id].1;
            match e
            case Raised(outOfMemory) => outcome == if outOfMemory then Deferred else Failed
            case Evicted => outcome == Skipped
            case Started => outcome == Skipped && TreeMoves(s, now)
            case _ => (e.Indexed? || e.Refreshed?) && (outcome.Finished? || (outcome == Skipped && TreeMoves(s, now)))
  {
    ReachableInv(s);
    if !JobStep(e) {
      OthersAnswerNobody(s, e, now, id);
    } else {
      match e
      case Started => HeadAnswers(s, s.job.value.java, s.job.value.paths, now, id);
      case Indexed(result) => if EndsIndexing(s, e) { AfterPassAnswers(PassEnds(s, result), now, id); }
      case Refreshed => AfterPassAnswers(s, now, id);
      case Raised(outOfMemory) => EndAnswers(s, if outOfMemory then Deferred else Failed, id);
      case Evicted => EndAnswers(s.(resident := false, changes := None, changedAt := None, watcher := NoWatcher), Skipped, id);
    }
  }

  lemma EndAnswers(s: Root, outcome: Outcome, id: nat)
    requires id in s.waiting
    ensures id in End(s, outcome).told && End(s, outcome).told[id] == (s.waiting[id], outcome)
  {}

  lemma HeadAnswers(s: Root, java: bool, paths: Changes, now: real, id: nat)
    requires s.job.Some? && WatcherShaped(s) && id in s.waiting && id !in Head(s, java, paths, now).waiting
    ensures TreeMoves(s, now) && id in Head(s, java, paths, now).told && Head(s, java, paths, now).told[id] == (s.waiting[id], Skipped)
  {}

  lemma AfterPassAnswers(s: Root, now: real, id: nat)
    requires s.job.Some? && WatcherShaped(s) && id in s.waiting && id !in AfterPass(s, now).waiting
    ensures id in AfterPass(s, now).told && AfterPass(s, now).told[id].0 == s.waiting[id]
    ensures AfterPass(s, now).told[id].1.Finished? || (TreeMoves(s, now) && AfterPass(s, now).told[id].1 == Skipped)
  {}

  predicate Unsuccessful(outcome: Outcome) { outcome == Deferred || outcome == Failed || outcome == Finished(PutOff) }

  /** What the watcher does about such an answer: the whole tree is what it holds, and it hands that over 30 seconds later
      and no sooner. */
  ghost predicate RescansLater(t: Root, now: real) {
    && t.changes == Some(Everything) && t.watcher == Waiting
    && (forall java, later :: later < now + 30.0 ==> Step(t, Woken(java), later) == t)
    && (forall java, later :: later >= now + 30.0 ==> Asks(t, Step(t, Woken(java), later)))
  }

  predicate Asks(t: Root, u: Root) {
    u.watcher == Asking(t.nextId) && t.nextId in u.waiting && u.waiting[t.nextId].asked == Everything
  }

  /** After an unsuccessful rebuild the watcher rescans everything later; after any other it waits on with what it holds, or
      stops when that is nothing. */
  lemma WatcherRescansLater(s: Root, now: real)
    requires Reachable(s) && s.watcher.Asking? && s.watcher.id in s.told
    ensures Unsuccessful(s.told[s.watcher.id].1) ==> RescansLater(Step(s, Heard, now), now)
    ensures !Unsuccessful(s.told[s.watcher.id].1) ==>
              && Step(s, Heard, now).changes == s.changes
              && Step(s, Heard, now).watcher == (if s.changes.Some? then Waiting else NoWatcher)
  {
    ReachableInv(s);
    var t := Step(s, Heard, now);
    if Unsuccessful(s.told[s.watcher.id].1) {
      forall java, later ensures later < now + 30.0 ==> Step(t, Woken(java), later) == t {}
      forall java, later | later >= now + 30.0 ensures Asks(t, Step(t, Woken(java), later)) {}
    }
  }

  /** A watcher hears that the last index pass of its job was put off: it rescans everything later. */
  lemma PutOffIsRetried(events: Trace, n: nat, m: nat, now: real)
    requires var s := Run(Fresh, events); s.watcher.Asking? && AnsweredBy(events, s.watcher.id, n, m) && events[n].0.result == PutOff
    ensures RescansLater(Step(Run(Fresh, events), Heard, now), now)
  {
    NoOtherResult(events, Run(Fresh, events).watcher.id, n, m);
    WatcherRescansLater(Run(Fresh, events), now);
  }
}
