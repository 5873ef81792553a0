/** Bounded concurrent reads whose permits stay with the work (daemon/admission.py). The semaphore is asyncio's: first
    in, first out, a released permit going straight to the first waiter. */
module ReadAdmission {

  type Id = nat

  /** `waiting` are the semaphore's pending waiters; `granted` have a permit and have not resumed, `doomed` among them
      timed out since; `expired` timed out while pending and have not resumed; `active` reads run. */
  datatype Reads = Reads(free: nat, waiting: seq<Id>, granted: set<Id>, doomed: set<Id>, expired: set<Id>,
                         queued: nat, active: set<Id>, nextId: Id)

  datatype Limits = Limits(slots: nat, queueLimit: nat)

  function Opened(l: Limits): Reads { Reads(l.slots, [], {}, {}, {}, 0, {}, 0) }

  /** A full waiting room. */
  predicate NoRoom(s: Reads, l: Limits) { |s.active| >= l.slots && s.queued >= l.queueLimit }

  /** No permit without queueing: none is free, or somebody is ahead. */
  predicate MustWait(s: Reads) { s.free == 0 || s.waiting != [] || s.granted != {} }

  function Wake(s: Reads): Reads
    requires s.free > 0
  {
    if s.waiting == [] then s
    else s.(free := s.free - 1, granted := s.granted + {s.waiting[0]}, waiting := s.waiting[1..])
  }

  function WakeAll(s: Reads): Reads
    decreases |s.waiting|
  {
    if s.free == 0 || s.waiting == [] then s else WakeAll(Wake(s))
  }

  function Enter(s: Reads, l: Limits): Reads {
    if NoRoom(s, l) then s
    else
      var t := s.(nextId := s.nextId + 1);
      if MustWait(s) then t.(queued := s.queued + 1, waiting := s.waiting + [s.nextId])
      else t.(free := s.free - 1, active := s.active + {s.nextId})
  }

  function Without(waiting: seq<Id>, id: Id): seq<Id> {
    if waiting == [] then [] else if waiting[0] == id then waiting[1..] else [waiting[0]] + Without(waiting[1..], id)
  }

  /** The client's deadline passes: while it queues it stops waiting, while its read runs nothing happens to the read. */
  function Expire(s: Reads, id: Id): Reads {
    if id in s.waiting then s.(waiting := Without(s.waiting, id), expired := s.expired + {id})
    else if id in s.granted then s.(doomed := s.doomed + {id})
    else s
  }

  /** A waiter runs again: it starts its read, or gives its permit back, or just leaves; then it wakes whom it can. */
  function Resume(s: Reads, id: Id): Reads {
    if s.queued == 0 then s
    else if id in s.granted then
      var t := s.(granted := s.granted - {id}, doomed := s.doomed - {id}, queued := s.queued - 1);
      if id in s.doomed then WakeAll(t.(free := t.free + 1)) else WakeAll(t.(active := t.active + {id}))
    else if id in s.expired then WakeAll(s.(expired := s.expired - {id}, queued := s.queued - 1))
    else s
  }

  function Finish(s: Reads, id: Id): Reads {
    if id !in s.active then s else Wake(s.(active := s.active - {id}, free := s.free + 1))
  }

  datatype Event = Entered | Expired(id: Id) | Resumed(id: Id) | Finished(id: Id)

  function Step(s: Reads, e: Event, l: Limits): Reads {
    match e
    case Entered => Enter(s, l)
    case Expired(id) => Expire(s, id)
    case Resumed(id) => Resume(s, id)
    case Finished(id) => Finish(s, id)
  }

  function Run(events: seq<Event>, l: Limits): Reads
    decreases |events|
  {
    if events == [] then Opened(l) else Step(Run(events[..|events| - 1], l), events[|events| - 1], l)
  }

  // ---- what every interleaving keeps ----------------------------------------------------------

  predicate Distinct(waiting: seq<Id>) { waiting == [] || (waiting[0] !in waiting[1..] && Distinct(waiting[1..])) }

  /** Each read is in one place only. */
  ghost predicate Placed(s: Reads) {
    && Distinct(s.waiting) && s.doomed <= s.granted
    && (forall id :: id in s.waiting ==> id !in s.granted && id !in s.expired && id !in s.active && id < s.nextId)
    && (forall id :: id in s.granted ==> id !in s.expired && id !in s.active && id < s.nextId)
    && (forall id :: id in s.expired ==> id !in s.active && id < s.nextId)
    && (forall id :: id in s.active ==> id < s.nextId)
  }

  /** Permits: free, granted to a waiter that has not started, or with a running read. */
  ghost predicate Conserved(s: Reads, l: Limits) {
    && s.free + |s.granted| + |s.active| == l.slots
    && s.queued == |s.waiting| + |s.granted| + |s.expired|
  }

  /** A permit lies free beside a waiter only while another one that was granted has not resumed: that one will wake it. */
  ghost predicate NoLostWakeUp(s: Reads) { s.free > 0 && s.waiting != [] ==> s.granted != {} }

  ghost predicate Inv(s: Reads, l: Limits) { Placed(s) && Conserved(s, l) && NoLostWakeUp(s) }

  lemma WakeKeeps(s: Reads, l: Limits)
    requires Placed(s) && Conserved(s, l) && s.free > 0
    ensures Placed(Wake(s)) && Conserved(Wake(s), l)
    ensures s.free == 1 ==> NoLostWakeUp(Wake(s))
  {
    if s.waiting != [] { assert forall id :: id in s.waiting[1..] ==> id in s.waiting && id != s.waiting[0]; }
  }

  /** After waking everyone it can, nobody waits beside a free permit. */
  lemma {:induction false} WakeAllKeeps(s: Reads, l: Limits)
    requires Placed(s) && Conserved(s, l)
    ensures Inv(WakeAll(s), l) && (WakeAll(s).free == 0 || WakeAll(s).waiting == [])
    decreases |s.waiting|
  {
    if s.free > 0 && s.waiting != [] {
      WakeKeeps(s, l);
      WakeAllKeeps(Wake(s), l);
    }
  }

  lemma {:induction false} AppendDistinct(waiting: seq<Id>, id: Id)
    requires Distinct(waiting) && id !in waiting
    ensures Distinct(waiting + [id])
  {
    if waiting != [] {
      AppendDistinct(waiting[1..], id);
      assert (waiting + [id])[1..] == waiting[1..] + [id];
    }
  }

  lemma {:induction false} WithoutOne(waiting: seq<Id>, id: Id)
    requires Distinct(waiting) && id in waiting
    ensures Distinct(Without(waiting, id)) && |Without(waiting, id)| == |waiting| - 1
    ensures forall x :: x in Without(waiting, id) <==> x in waiting && x != id
  {
    if waiting[0] != id { WithoutOne(waiting[1..], id); }
  }

  lemma EnterKeeps(s: Reads, l: Limits)
    requires Inv(s, l)
    ensures Inv(Enter(s, l), l)
  {
    AppendDistinct(s.waiting, s.nextId);
  }

  lemma ExpireKeeps(s: Reads, l: Limits, id: Id)
    requires Inv(s, l)
    ensures Inv(Expire(s, id), l)
  {
    if id in s.waiting { WithoutOne(s.waiting, id); }
  }

  /** A granted waiter starts its read. */
  lemma StartKeeps(s: Reads, l: Limits, id: Id)
    requires Inv(s, l) && id in s.granted && id !in s.doomed && s.queued > 0
    ensures Inv(Resume(s, id), l)
  {
    WakeAllKeeps(s.(granted := s.granted - {id}, doomed := s.doomed - {id}, queued := s.queued - 1,
                    active := s.active + {id}), l);
  }

  /** A granted waiter whose deadline passed gives the permit back. */
  lemma GiveBackKeeps(s: Reads, l: Limits, id: Id)
    requires Inv(s, l) && id in s.granted && id in s.doomed && s.queued > 0
    ensures Inv(Resume(s, id), l)
  {
    WakeAllKeeps(s.(granted := s.granted - {id}, doomed := s.doomed - {id}, queued := s.queued - 1, free := s.free + 1), l);
  }

  /** A waiter whose deadline passed while it was pending leaves. */
  lemma LeaveKeeps(s: Reads, l: Limits, id: Id)
    requires Inv(s, l) && id in s.expired && id !in s.granted && s.queued > 0
    ensures Inv(Resume(s, id), l)
  {
    WakeAllKeeps(s.(expired := s.expired - {id}, queued := s.queued - 1), l);
  }

  lemma ResumeKeeps(s: Reads, l: Limits, id: Id)
    requires Inv(s, l)
    ensures Inv(Resume(s, id), l)
  {
    if s.queued > 0 && id in s.granted {
      if id in s.doomed { GiveBackKeeps(s, l, id); } else { StartKeeps(s, l, id); }
    } else if s.queued > 0 && id in s.expired {
      LeaveKeeps(s, l, id);
    }
  }

  lemma FinishKeeps(s: Reads, l: Limits, id: Id)
    requires Inv(s, l)
    ensures Inv(Finish(s, id), l)
  {
    if id in s.active { WakeKeeps(s.(active := s.active - {id}, free := s.free + 1), l); }
  }

  lemma {:induction false} RunKeepsInv(events: seq<Event>, l: Limits)
    ensures Inv(Run(events, l), l)
    decreases |events|
  {
    if events != [] {
      var s := Run(events[..|events| - 1], l);
      RunKeepsInv(events[..|events| - 1], l);
      match events[|events| - 1]
      case Entered => EnterKeeps(s, l);
      case Expired(id) => ExpireKeeps(s, l, id);
      case Resumed(id) => ResumeKeeps(s, l, id);
      case Finished(id) => FinishKeeps(s, l, id);
    }
  }

  /** In any interleaving every permit is free, granted or with a running read, so running reads never exceed the slots;
      and a client's deadline, passing while its read runs, frees nothing. */
  lemma PermitsAreConserved(events: seq<Event>, l: Limits, id: Id)
    ensures var s := Run(events, l);
            && s.free + |s.granted| + |s.active| == l.slots && |s.active| <= l.slots
            && (id in s.active ==> Expire(s, id) == s)
            && (s.free > 0 && s.waiting != [] ==> s.granted != {})
  {
    RunKeepsInv(events, l);
  }

  // ---- the waiting room ---------------------------------------------------------------------------

  /** In any run, a newcomer to a full queue queues all the same exactly while a waiter has been granted a permit and has
      not resumed: at every other moment it is refused, or starts at once. */
  lemma QueueOverrun(events: seq<Event>, l: Limits)
    requires Run(events, l).queued >= l.queueLimit
    ensures var s := Run(events, l); Enter(s, l).queued > s.queued <==> s.granted != {}
  {
    RunKeepsInv(events, l);
    var s := Run(events, l);
    if s.granted != {} {
      var id :| id in s.granted;
      assert |s.granted| > 0;
    }
  }

  /** One slot, one place to wait: a read ran, another waited, the first finished. */
  lemma OneGranted() returns (events: seq<Event>)
    ensures Run(events, Limits(1, 1)) == Reads(0, [], {1}, {}, {}, 1, {}, 2)
  {
    var l := Limits(1, 1);
    var a, b := [Entered], [Entered, Entered];
    assert a[..0] == [] && b[..1] == a;
    assert Run(a, l) == Reads(0, [], {}, {}, {}, 0, {0}, 1);
    assert Run(b, l) == Reads(0, [1], {}, {}, {}, 1, {0}, 2);
    events := AfterFinish(b, l);
  }

  lemma AfterFinish(b: seq<Event>, l: Limits) returns (events: seq<Event>)
    requires Run(b, l) == Reads(0, [1], {}, {}, {}, 1, {0}, 2)
    ensures Run(events, l) == Reads(0, [], {1}, {}, {}, 1, {}, 2)
  {
    events := b + [Finished(0)];
    assert events[..|b|] == b;
    assert Run(b, l).active - {0} == {};
  }

  /** Nothing bounds the overrun: with one slot and one place to wait, any number can queue before the waiter starts. */
  lemma {:induction false} AnyNumberCanQueue(n: nat) returns (events: seq<Event>)
    ensures var s := Run(events, Limits(1, 1)); s.queued == n + 1 && s.active == {} && s.granted == {1} && s.free == 0
    decreases n
  {
    if n == 0 {
      events := OneGranted();
    } else {
      var before := AnyNumberCanQueue(n - 1);
      events := before + [Entered];
      assert events[..|before|] == before;
    }
  }

  // ---- who starts, and when --------------------------------------------------------------------

  /** Waiters in the order they came. */
  ghost predicate InTurn(waiting: seq<Id>) { forall i, j :: 0 <= i < j < |waiting| ==> waiting[i] < waiting[j] }

  lemma {:induction false} WithoutInTurn(waiting: seq<Id>, id: Id)
    requires InTurn(waiting)
    ensures InTurn(Without(waiting, id)) && forall x :: x in Without(waiting, id) ==> x in waiting
  {
    if waiting != [] && waiting[0] != id {
      forall i, j | 0 <= i < j < |waiting[1..]| ensures waiting[1..][i] < waiting[1..][j] { assert waiting[i + 1] < waiting[j + 1]; }
      WithoutInTurn(waiting[1..], id);
      var rest := Without(waiting[1..], id);
      forall j | 0 <= j < |rest| ensures waiting[0] < rest[j] {
        assert rest[j] in waiting[1..];
        var k :| 0 <= k < |waiting[1..]| && waiting[1..][k] == rest[j];
        assert waiting[0] < waiting[k + 1];
      }
    }
  }

  function Those(ids: seq<Id>): set<Id> { set x | x in ids }

  function Ahead(waiting: seq<Id>, left: nat): set<Id>
    requires left <= |waiting|
  {
    Those(waiting[..|waiting| - left])
  }

  /** Waiters taken from the front of the line, and granted. */
  ghost predicate Woken(waiting: seq<Id>, granted: set<Id>, t: Reads) {
    && |t.waiting| <= |waiting| && t.waiting == waiting[|waiting| - |t.waiting|..]
    && t.granted == granted + Ahead(waiting, |t.waiting|)
  }

  lemma {:induction false} WakeAllTakesFirst(s: Reads)
    ensures Woken(s.waiting, s.granted, WakeAll(s))
    ensures WakeAll(s).active == s.active && WakeAll(s).expired == s.expired && WakeAll(s).doomed == s.doomed
    ensures WakeAll(s).nextId == s.nextId
    decreases |s.waiting|
  {
    if s.free > 0 && s.waiting != [] {
      WakeAllTakesFirst(Wake(s));
      OneMoreTaken(s.waiting, s.granted, WakeAll(s));
    }
  }

  lemma OneMoreTaken(waiting: seq<Id>, granted: set<Id>, t: Reads)
    requires waiting != [] && Woken(waiting[1..], granted + {waiting[0]}, t)
    ensures Woken(waiting, granted, t)
  {
    var n := |waiting| - |t.waiting|;
    assert waiting[1..][n - 1..] == waiting[n..] && waiting[..n] == [waiting[0]] + waiting[1..][..n - 1];
    assert Ahead(waiting, |t.waiting|) == {waiting[0]} + Ahead(waiting[1..], |t.waiting|);
  }

  /** A waiter that resumes: where it goes, and whom it wakes. */
  lemma Resuming(s: Reads, id: Id)
    requires s.queued > 0 && (id in s.granted || id in s.expired)
    ensures var t := Resume(s, id);
            && Woken(s.waiting, if id in s.granted then s.granted - {id} else s.granted, t)
            && t.active == (if id in s.granted && id !in s.doomed then s.active + {id} else s.active)
            && t.doomed == (if id in s.granted then s.doomed - {id} else s.doomed) && t.nextId == s.nextId
  {
    if id in s.granted {
      var t := s.(granted := s.granted - {id}, doomed := s.doomed - {id}, queued := s.queued - 1);
      WakeAllTakesFirst(if id in s.doomed then t.(free := t.free + 1) else t.(active := t.active + {id}));
    } else {
      WakeAllTakesFirst(s.(expired := s.expired - {id}, queued := s.queued - 1));
    }
  }

  predicate Resumes(s: Reads, e: Event) { e.Resumed? && s.queued > 0 && (e.id in s.granted || e.id in s.expired) }

  lemma StepKeepsTurns(s: Reads, e: Event, l: Limits)
    requires InTurn(s.waiting) && forall id :: id in s.waiting ==> id < s.nextId
    ensures InTurn(Step(s, e, l).waiting)
  {
    if e.Expired? { WithoutInTurn(s.waiting, e.id); }
    if Resumes(s, e) { Resuming(s, e.id); }
    if e.Entered? && !NoRoom(s, l) && MustWait(s) { AppendInTurn(s.waiting, s.nextId); }
  }

  lemma AppendInTurn(waiting: seq<Id>, id: Id)
    requires InTurn(waiting) && forall x :: x in waiting ==> x < id
    ensures InTurn(waiting + [id])
  {
    forall i, j | 0 <= i < j < |waiting + [id]| ensures (waiting + [id])[i] < (waiting + [id])[j] {
      assert waiting[i] in waiting;
    }
  }

  lemma {:induction false} RunKeepsTurns(events: seq<Event>, l: Limits)
    ensures InTurn(Run(events, l).waiting)
    decreases |events|
  {
    if events != [] {
      RunKeepsTurns(events[..|events| - 1], l);
      RunKeepsInv(events[..|events| - 1], l);
      StepKeepsTurns(Run(events[..|events| - 1], l), events[|events| - 1], l);
    }
  }

  lemma AheadIsEarlier(waiting: seq<Id>, left: nat, id: Id, other: Id)
    requires InTurn(waiting) && left <= |waiting| && id in Ahead(waiting, left) && other in waiting[|waiting| - left..]
    ensures id in waiting && id < other
  {
    var n := |waiting| - left;
    var i :| 0 <= i < n && waiting[..n][i] == id;
    var j :| 0 <= j < left && waiting[n..][j] == other;
    assert waiting[i] < waiting[n + j];
  }

  /** First come, first served: in any run, whoever is newly granted a permit waited, and came before all that go on waiting. */
  lemma GrantsInOrder(events: seq<Event>, l: Limits, e: Event, id: Id, other: Id)
    requires id in Step(Run(events, l), e, l).granted && id !in Run(events, l).granted
    requires other in Step(Run(events, l), e, l).waiting
    ensures id in Run(events, l).waiting && id < other
  {
    var s := Run(events, l);
    RunKeepsTurns(events, l);
    if Resumes(s, e) {
      Resuming(s, e.id);
      AheadIsEarlier(s.waiting, |Step(s, e, l).waiting|, id, other);
    } else {
      assert e.Finished? && e.id in s.active && s.waiting != [] && id == s.waiting[0];
      var j :| 0 <= j < |s.waiting[1..]| && s.waiting[1..][j] == other;
      assert s.waiting[0] < s.waiting[j + 1];
    }
  }

  /** A running read goes on until it finishes by itself. */
  lemma RunsUntilFinished(s: Reads, e: Event, l: Limits, id: Id)
    requires id in s.active
    ensures id in Step(s, e, l).active <==> e != Finished(id)
  {
    if Resumes(s, e) { Resuming(s, e.id); }
  }

  /** It can only leave. */
  predicate Late(s: Reads, id: Id) {
    id < s.nextId && id !in s.waiting && id !in s.active && (id in s.granted ==> id in s.doomed)
  }

  lemma StepKeepsLate(s: Reads, e: Event, l: Limits, id: Id)
    requires Placed(s) && Late(s, id)
    ensures Late(Step(s, e, l), id)
  {
    if Resumes(s, e) {
      Resuming(s, e.id);
      assert id !in Ahead(s.waiting, |Step(s, e, l).waiting|);
    }
    if e.Expired? && e.id in s.waiting { WithoutOne(s.waiting, e.id); }
  }

  /** In any run, a read whose deadline passed while it queued never starts. */
  lemma {:induction false} TimedOutNeverStarts(events: seq<Event>, l: Limits, i: nat, id: Id)
    requires i < |events| && events[i] == Expired(id)
    requires id in Run(events[..i], l).waiting || id in Run(events[..i], l).granted
    ensures Late(Run(events, l), id) && id !in Run(events, l).active
    decreases |events|
  {
    var before := events[..|events| - 1];
    RunKeepsInv(before, l);
    if i == |before| {
      if id in Run(before, l).waiting { WithoutOne(Run(before, l).waiting, id); }
    } else {
      assert before[..i] == events[..i];
      TimedOutNeverStarts(before, l, i, id);
      StepKeepsLate(Run(before, l), events[|events| - 1], l, id);
    }
  }

  // ---- nobody waits for ever ---------------------------------------------------------------------

  lemma RunGoesOn(events: seq<Event>, e: Event, l: Limits)
    ensures Run(events + [e], l) == Step(Run(events, l), e, l)
  {
    assert (events + [e])[..|events|] == events;
  }

  predicate Queues(s: Reads, id: Id) { id in s.waiting || (id in s.granted && id !in s.doomed) }

  /** One step on: a granted waiter resumes, or a read finishes. */
  predicate MovesOn(e: Event) { e.Resumed? || e.Finished? }

  lemma GrantedAreQueued(s: Reads, l: Limits)
    requires Conserved(s, l) && s.granted != {}
    ensures s.queued > 0
  {
    var x :| x in s.granted;
    assert |s.granted| > 0;
  }

  lemma {:induction false} WakingCounts(s: Reads)
    ensures 2 * |WakeAll(s).waiting| + |WakeAll(s).granted| <= 2 * |s.waiting| + |s.granted|
    decreases |s.waiting|
  {
    if s.free > 0 && s.waiting != [] { WakingCounts(Wake(s)); }
  }

  /** What is still to happen before the line is empty. */
  function Line(s: Reads): nat { 2 * |s.waiting| + |s.granted| }

  lemma ResumingMovesOn(s: Reads, l: Limits, id: Id, from: Id)
    requires Inv(s, l) && id in s.waiting && from in s.granted
    ensures Queues(Step(s, Resumed(from), l), id) && Line(Step(s, Resumed(from), l)) < Line(s)
  {
    GrantedAreQueued(s, l);
    Resuming(s, from);
    StaysInLine(s.waiting, |Resume(s, from).waiting|, id);
    ResumingShortens(s, from);
  }

  lemma ResumingShortens(s: Reads, from: Id)
    requires s.queued > 0 && from in s.granted
    ensures Line(Resume(s, from)) < Line(s)
  {
    var t := s.(granted := s.granted - {from}, doomed := s.doomed - {from}, queued := s.queued - 1);
    assert |t.granted| == |s.granted| - 1;
    WakingCounts(if from in s.doomed then t.(free := t.free + 1) else t.(active := t.active + {from}));
  }

  lemma StaysInLine(waiting: seq<Id>, left: nat, id: Id)
    requires left <= |waiting| && id in waiting
    ensures id in waiting[|waiting| - left..] || id in Ahead(waiting, left)
  {
    var n := |waiting| - left;
    var i :| 0 <= i < |waiting| && waiting[i] == id;
    if i < n { assert waiting[..n][i] == id; } else { assert waiting[n..][i - n] == id; }
  }

  lemma FinishingMovesOn(s: Reads, l: Limits, id: Id, from: Id)
    requires Inv(s, l) && id in s.waiting && from in s.active
    ensures Queues(Step(s, Finished(from), l), id) && Line(Step(s, Finished(from), l)) < Line(s)
  {}

  lemma GrantedStarts(s: Reads, l: Limits, id: Id)
    requires Inv(s, l) && id in s.granted && id !in s.doomed
    ensures id in Step(s, Resumed(id), l).active
  {
    GrantedAreQueued(s, l);
    Resuming(s, id);
  }

  lemma NextToMove(s: Reads, l: Limits, id: Id) returns (e: Event)
    requires l.slots >= 1 && Inv(s, l) && id in s.waiting
    ensures MovesOn(e) && Queues(Step(s, e, l), id) && Line(Step(s, e, l)) < Line(s)
  {
    if s.granted != {} {
      var from :| from in s.granted;
      e := Resumed(from);
      ResumingMovesOn(s, l, id, from);
    } else {
      assert |s.active| > 0;
      var from :| from in s.active;
      e := Finished(from);
      FinishingMovesOn(s, l, id, from);
    }
  }

  /** Nobody waits for ever: in any run, every queued read starts if granted waiters resume and running reads finish. */
  lemma {:induction false} QueuedReadCanStart(events: seq<Event>, l: Limits, id: Id) returns (more: seq<Event>)
    requires l.slots >= 1 && Queues(Run(events, l), id)
    ensures forall i :: 0 <= i < |more| ==> MovesOn(more[i])
    ensures id in Run(events + more, l).active
    decreases Line(Run(events, l))
  {
    RunKeepsInv(events, l);
    if id in Run(events, l).granted {
      more := [Resumed(id)];
      RunGoesOn(events, Resumed(id), l);
      GrantedStarts(Run(events, l), l, id);
    } else {
      var e := NextToMove(Run(events, l), l, id);
      RunGoesOn(events, e, l);
      var rest := QueuedReadCanStart(events + [e], l, id);
      more := [e] + rest;
      assert events + more == events + [e] + rest;
    }
  }

  // ---- the admission as the daemon keeps it ---------------------------------------------------

  class Admission {
    const limits: Limits
    var queued: nat
    var active: set<Id>
    var free: nat
    var waiting: seq<Id>
    var granted: set<Id>
    var doomed: set<Id>
    var expired: set<Id>
    var nextId: Id

    function View(): Reads
      reads this
    {
      Reads(free, waiting, granted, doomed, expired, queued, active, nextId)
    }

    constructor (limits: Limits)
      requires limits.slots >= 1
      ensures View() == Opened(limits) && this.limits == limits
    {
      this.limits := limits;
      queued, active, free, waiting := 0, {}, limits.slots, [];
      granted, doomed, expired, nextId := {}, {}, {}, 0;
    }

    /** Queue for a permit, or take a free one and start at once; refuse when the waiting room is full. */
    method Queue() returns (busy: bool)
      modifies this
      ensures busy == NoRoom(old(View()), limits)
      ensures View() == Step(old(View()), Entered, limits)
    {
      if |active| >= limits.slots && queued >= limits.queueLimit { return true; }
      if free == 0 || waiting != [] || granted != {} {
        queued := queued + 1;
        waiting := waiting + [nextId];
      } else {
        free := free - 1;
        active := active + {nextId};
      }
      nextId := nextId + 1;
      return false;
    }

    /** Wake waiters while permits are free. */
    method WakeWaiters()
      modifies this`free, this`waiting, this`granted
      ensures View() == WakeAll(old(View()))
    {
      while free > 0 && waiting != []
        invariant WakeAll(View()) == WakeAll(old(View()))
        decreases |waiting|
      {
        free := free - 1;
        granted := granted + {waiting[0]};
        waiting := waiting[1..];
      }
    }

    /** A client's deadline passes. */
    method DeadlinePasses(id: Id)
      modifies this`waiting, this`expired, this`doomed
      ensures View() == Step(old(View()), Expired(id), limits)
    {
      if id in waiting {
        waiting := Without(waiting, id);
        expired := expired + {id};
      } else if id in granted {
        doomed := doomed + {id};
      }
    }

    /** A granted waiter's task runs again: it starts its read, or gives the permit back if its deadline passed. */
    method AcquireEnds(id: Id)
      requires id in granted && queued > 0
      modifies this
      ensures View() == Step(old(View()), Resumed(id), limits)
    {
      queued := queued - 1;
      var late := id in doomed;
      granted, doomed := granted - {id}, doomed - {id};
      if late {
        free := free + 1;
      } else {
        active := active + {id};
      }
      WakeWaiters();
    }

    /** A waiter whose deadline passed before any permit came runs again, and leaves. */
    method AcquireExpires(id: Id)
      requires id in expired && id !in granted && queued > 0
      modifies this
      ensures View() == Step(old(View()), Resumed(id), limits)
    {
      queued := queued - 1;
      expired := expired - {id};
      WakeWaiters();
    }

    /** The work itself ended: its permit goes to the first waiter, or is free. */
    method Release(id: Id)
      requires id in active
      modifies this
      ensures View() == Step(old(View()), Finished(id), limits)
    {
      active := active - {id};
      free := free + 1;
      if waiting != [] {
        free := free - 1;
        granted := granted + {waiting[0]};
        waiting := waiting[1..];
      }
    }
  }
}
