/** The single worker turn: a priority lock whose waiters can be cancelled at any moment
    (daemon/graph_jobs.py, _turn and _pass_turn). */
module TurnLock {

  /** A waiter as it lies in the heap. */
  datatype Entry = Entry(priority: nat, order: nat)

  /** Where a task stands: its future is pending, cancelled, or granted but not yet resumed (perhaps cancelled since);
      or it runs with the turn. A task that left is not listed. */
  datatype Turn = Pending(priority: nat) | Cancelled | Granted(doomed: bool) | Holding

  datatype Lock = Lock(held: bool, turns: seq<Entry>, tasks: map<nat, Turn>, nextOrder: nat)

  const Open: Lock := Lock(false, [], map[], 0)

  predicate Before(a: Entry, b: Entry) { a.priority < b.priority || (a.priority == b.priority && a.order < b.order) }

  /** The heap lists its entries in the order it pops them. */
  function Push(turns: seq<Entry>, e: Entry): seq<Entry> {
    if turns == [] then [e] else if Before(e, turns[0]) then [e] + turns else [turns[0]] + Push(turns[1..], e)
  }

  predicate Live(tasks: map<nat, Turn>, order: nat) { order in tasks && tasks[order].Pending? }

  /** Entries whose task does not wait any more are dropped on the way to the first that does. */
  function PassTurn(s: Lock): Lock
    decreases |s.turns|
  {
    if s.turns == [] then s.(held := false)
    else
      var order, rest := s.turns[0].order, s.(turns := s.turns[1..]);
      if Live(s.tasks, order) then rest.(tasks := s.tasks[order := Granted(false)]) else PassTurn(rest)
  }

  // ---- the steps, each the stretch of one task between two awaits -----------------------

  function Arrive(s: Lock, priority: nat): Lock {
    var t := s.(nextOrder := s.nextOrder + 1);
    if s.held then
      t.(turns := Push(s.turns, Entry(priority, s.nextOrder)), tasks := s.tasks[s.nextOrder := Pending(priority)])
    else t.(held := true, tasks := s.tasks[s.nextOrder := Holding])
  }

  /** Cancelling a task cancels the future it waits for; a future that has its result keeps it, and that waiter is
      cancelled when it resumes. */
  function Cancel(s: Lock, task: nat): Lock {
    if task !in s.tasks then s
    else if s.tasks[task].Pending? then s.(tasks := s.tasks[task := Cancelled])
    else if s.tasks[task].Granted? then s.(tasks := s.tasks[task := Granted(true)])
    else s
  }

  function Resume(s: Lock, task: nat): Lock {
    if task !in s.tasks then s
    else
      var gone := s.(tasks := s.tasks - {task});
      match s.tasks[task]
      case Cancelled => gone
      case Granted(true) => PassTurn(gone)
      case Granted(false) => s.(tasks := s.tasks[task := Holding])
      case _ => s
  }

  /** The holder's block ends, normally or not. */
  function Leave(s: Lock, task: nat): Lock {
    if task in s.tasks && s.tasks[task].Holding? then PassTurn(s.(tasks := s.tasks - {task})) else s
  }

  datatype Event = Arrived(priority: nat) | Cancels(task: nat) | Resumed(task: nat) | Left(task: nat)

  function Step(s: Lock, e: Event): Lock {
    match e
    case Arrived(priority) => Arrive(s, priority)
    case Cancels(task) => Cancel(s, task)
    case Resumed(task) => Resume(s, task)
    case Left(task) => Leave(s, task)
  }

  function Run(events: seq<Event>): Lock
    decreases |events|
  {
    if events == [] then Open else Step(Run(events[..|events| - 1]), events[|events| - 1])
  }

  // ---- what every interleaving keeps --------------------------------------------------------

  predicate HasTurn(s: Lock, task: nat) { task in s.tasks && (s.tasks[task].Granted? || s.tasks[task].Holding?) }

  /** The heap pops least (priority, arrival) first, and an entry's task neither has the turn nor wants it at another priority. */
  ghost predicate Sorted(turns: seq<Entry>) { forall i, j :: 0 <= i < j < |turns| ==> Before(turns[i], turns[j]) }

  ghost predicate EntryFits(s: Lock, e: Entry) {
    && e.order < s.nextOrder && !HasTurn(s, e.order)
    && (Live(s.tasks, e.order) ==> s.tasks[e.order] == Pending(e.priority))
  }

  ghost predicate Heaped(s: Lock) {
    && Sorted(s.turns)
    && (forall e :: e in s.turns ==> EntryFits(s, e))
    && (forall task :: Live(s.tasks, task) ==> Entry(s.tasks[task].priority, task) in s.turns)
    && (forall task :: task in s.tasks ==> task < s.nextOrder)
  }

  /** At most one task has the turn, and the turn is marked held exactly when one does. */
  ghost predicate Exclusive(s: Lock) {
    && (forall a, b :: HasTurn(s, a) && HasTurn(s, b) ==> a == b)
    && (s.held <==> exists a :: HasTurn(s, a))
  }

  /** A free turn leaves nothing waiting. */
  ghost predicate Inv(s: Lock) { Heaped(s) && Exclusive(s) && (!s.held ==> s.turns == []) }

  lemma {:induction false} PushKeepsSorted(turns: seq<Entry>, e: Entry)
    requires Sorted(turns) && forall x :: x in turns ==> x.order != e.order
    ensures Sorted(Push(turns, e))
    ensures forall x :: x in Push(turns, e) <==> x == e || x in turns
  {
    if turns != [] {
      forall x ensures x in turns <==> x == turns[0] || x in turns[1..] {}
      if Before(e, turns[0]) {
        forall i | 0 <= i < |turns| ensures Before(e, turns[i]) {
          assert i > 0 ==> Before(turns[0], turns[i]);
        }
      } else {
        PushKeepsSorted(turns[1..], e);
        forall x | x in Push(turns[1..], e) ensures Before(turns[0], x) {
          if x != e {
            var i :| 0 <= i < |turns[1..]| && turns[1..][i] == x;
            assert turns[i + 1] == x;
          }
        }
      }
    }
  }

  predicate Waits(s: Lock, task: nat) { task in s.tasks && s.tasks[task].Pending? }

  /** The waiter the turn must go to: of least priority among all that wait, and of those the first to have come. */
  ghost predicate NextInLine(s: Lock, task: nat) {
    && Waits(s, task)
    && forall other :: Waits(s, other) && other != task ==>
         || s.tasks[task].priority < s.tasks[other].priority
         || (s.tasks[task].priority == s.tasks[other].priority && task < other)
  }

  /** Granting the turn to the first entry's live task. */
  lemma GrantKeepsInv(s: Lock)
    requires Heaped(s) && s.held && (forall a :: !HasTurn(s, a)) && s.turns != [] && Live(s.tasks, s.turns[0].order)
    ensures Inv(PassTurn(s)) && NextInLine(s, s.turns[0].order)
  {
    var first, t := s.turns[0], PassTurn(s);
    assert EntryFits(s, first);
    forall e | e in s.turns && e != first ensures Before(first, e) && e.order != first.order {
      var i :| 0 <= i < |s.turns| && s.turns[i] == e;
      assert EntryFits(s, e);
    }
    forall i, j | 0 <= i < j < |t.turns| ensures Before(t.turns[i], t.turns[j]) {
      assert t.turns[i] == s.turns[i + 1] && t.turns[j] == s.turns[j + 1];
    }
    forall e | e in t.turns ensures EntryFits(t, e) {
      var i :| 0 <= i < |t.turns| && t.turns[i] == e;
      assert e == s.turns[i + 1] && Before(s.turns[0], s.turns[i + 1]) && EntryFits(s, e);
    }
    assert HasTurn(t, first.order);
    forall a | HasTurn(t, a) ensures a == first.order { assert a != first.order ==> !HasTurn(s, a); }
    forall e | e in s.turns && e != first ensures e in t.turns {}
  }

  lemma DroppingADeadEntry(s: Lock)
    requires Heaped(s) && s.turns != [] && !Live(s.tasks, s.turns[0].order)
    ensures Heaped(s.(turns := s.turns[1..]))
  {
    var rest := s.(turns := s.turns[1..]);
    forall i, j | 0 <= i < j < |rest.turns| ensures Before(rest.turns[i], rest.turns[j]) {
      assert rest.turns[i] == s.turns[i + 1] && rest.turns[j] == s.turns[j + 1];
    }
    forall e | e in rest.turns ensures EntryFits(rest, e) { assert EntryFits(s, e); }
    forall e | e in s.turns && e != s.turns[0] ensures e in rest.turns {}
  }

  /** The turn went to the live waiter of least (priority, arrival), or is free because nobody waits; nobody else's
      standing changed. */
  ghost predicate HandedOver(s: Lock, t: Lock) {
    || (t.held && exists task :: NextInLine(s, task) && t.tasks == s.tasks[task := Granted(false)])
    || (!t.held && t.tasks == s.tasks && forall task :: !Waits(s, task))
  }

  lemma {:induction false} PassTurnHandsOver(s: Lock)
    requires Heaped(s) && s.held && forall a :: !HasTurn(s, a)
    ensures Inv(PassTurn(s)) && HandedOver(s, PassTurn(s))
    decreases |s.turns|
  {
    var t := PassTurn(s);
    if s.turns == [] {
      forall a ensures !HasTurn(t, a) { assert !HasTurn(s, a); }
    } else if Live(s.tasks, s.turns[0].order) {
      GrantKeepsInv(s);
    } else {
      var rest := s.(turns := s.turns[1..]);
      DroppingADeadEntry(s);
      forall a ensures !HasTurn(rest, a) { assert !HasTurn(s, a); }
      PassTurnHandsOver(rest);
      forall task ensures NextInLine(rest, task) <==> NextInLine(s, task) {}
    }
  }

  // ---- every interleaving --------------------------------------------------------------

  lemma ArriveKeepsInv(s: Lock, priority: nat)
    requires Inv(s)
    ensures Inv(Arrive(s, priority))
  {
    var t, e := Arrive(s, priority), Entry(priority, s.nextOrder);
    if s.held {
      forall x | x in s.turns ensures x.order != e.order { assert EntryFits(s, x); }
      PushKeepsSorted(s.turns, e);
      forall x | x in t.turns ensures EntryFits(t, x) { assert x != e ==> EntryFits(s, x); }
      forall a ensures HasTurn(t, a) <==> HasTurn(s, a) {}
    } else {
      forall a ensures HasTurn(t, a) <==> a == s.nextOrder { assert !HasTurn(s, a); }
      assert HasTurn(t, s.nextOrder);
    }
  }

  lemma CancelKeepsInv(s: Lock, task: nat)
    requires Inv(s)
    ensures Inv(Cancel(s, task))
  {
    var t := Cancel(s, task);
    forall x | x in t.turns ensures EntryFits(t, x) { assert EntryFits(s, x); }
    forall a ensures HasTurn(t, a) <==> HasTurn(s, a) {}
  }

  /** Whoever has the turn and goes passes it on, be it at the end of its block or cancelled as it was granted. */
  lemma GivingUpTheTurn(s: Lock, task: nat)
    requires Inv(s) && HasTurn(s, task)
    ensures Inv(PassTurn(s.(tasks := s.tasks - {task})))
    ensures HandedOver(s.(tasks := s.tasks - {task}), PassTurn(s.(tasks := s.tasks - {task})))
  {
    var t := s.(tasks := s.tasks - {task});
    forall a ensures !HasTurn(t, a) { assert HasTurn(t, a) ==> HasTurn(s, a); }
    PassTurnHandsOver(t);
  }

  lemma ResumeKeepsInv(s: Lock, task: nat)
    requires Inv(s)
    ensures Inv(Resume(s, task))
  {
    if task in s.tasks {
      var t := Resume(s, task);
      match s.tasks[task]
      case Cancelled =>
        forall a ensures HasTurn(t, a) <==> HasTurn(s, a) {}
      case Granted(true) => GivingUpTheTurn(s, task);
      case Granted(false) =>
        forall x | x in t.turns ensures EntryFits(t, x) { assert EntryFits(s, x); }
        forall a ensures HasTurn(t, a) <==> HasTurn(s, a) {}
      case _ =>
    }
  }

  lemma StepKeepsInv(s: Lock, e: Event)
    requires Inv(s)
    ensures Inv(Step(s, e))
  {
    match e
    case Arrived(priority) => ArriveKeepsInv(s, priority);
    case Cancels(task) => CancelKeepsInv(s, task);
    case Resumed(task) => ResumeKeepsInv(s, task);
    case Left(task) => if task in s.tasks && s.tasks[task].Holding? { GivingUpTheTurn(s, task); }
  }

  lemma {:induction false} RunKeepsInv(events: seq<Event>)
    ensures Inv(Run(events))
    decreases |events|
  {
    if events != [] {
      RunKeepsInv(events[..|events| - 1]);
      StepKeepsInv(Run(events[..|events| - 1]), events[|events| - 1]);
    }
  }

  /** After any interleaving of arrivals, cancellations, resumptions and ends: nobody else has the turn while one does,
      it is marked held exactly while one does, and a task waits only while another one has it. */
  lemma TurnIsExclusiveAndNeverLost(events: seq<Event>, a: nat, b: nat)
    ensures var s := Run(events);
            && (HasTurn(s, a) && HasTurn(s, b) ==> a == b)
            && (s.held <==> exists c :: HasTurn(s, c))
            && (Live(s.tasks, a) ==> exists c :: HasTurn(s, c))
  {
    RunKeepsInv(events);
  }

  /** In any run, a task newly granted the turn was the next in line just before the step, and only a task that gave the
      turn up in that very step made it so. */
  lemma GrantsFollowTheLine(events: seq<Event>, e: Event, task: nat)
    requires var s, t := Run(events), Step(Run(events), e); HasTurn(t, task) && !HasTurn(s, task)
    ensures var s := Run(events);
            (e.Arrived? && !s.held && task == s.nextOrder)
            || (NextInLine(s, task) && exists from :: HasTurn(s, from) && (e == Left(from) || e == Resumed(from)))
  {
    RunKeepsInv(events);
    var s := Run(events);
    match e
    case Arrived(priority) =>
    case Cancels(other) =>
    case Resumed(from) => if from in s.tasks && s.tasks[from] == Granted(true) { LineAfterGiving(s, from, task); }
    case Left(from) => if from in s.tasks && s.tasks[from].Holding? { LineAfterGiving(s, from, task); }
  }

  lemma LineAfterGiving(s: Lock, from: nat, task: nat)
    requires Inv(s) && HasTurn(s, from) && !HasTurn(s, task)
    requires HasTurn(PassTurn(s.(tasks := s.tasks - {from})), task)
    ensures NextInLine(s, task)
  {
    var t := s.(tasks := s.tasks - {from});
    GivingUpTheTurn(s, from);
    assert !HasTurn(t, task);
    forall other ensures Live(t.tasks, other) <==> Live(s.tasks, other) {}
    assert NextInLine(t, task);
  }

  function Without(s: Lock, task: nat): Lock { s.(tasks := s.tasks - {task}) }

  /** The priorities tasks came with, in the order they came. */
  function Arrivals(events: seq<Event>): seq<nat>
    decreases |events|
  {
    if events == [] then []
    else
      var before, last := Arrivals(events[..|events| - 1]), events[|events| - 1];
      if last.Arrived? then before + [last.priority] else before
  }

  lemma {:induction false} PassTurnPromotes(s: Lock, task: nat)
    ensures PassTurn(s).nextOrder == s.nextOrder
    ensures Waits(PassTurn(s), task) ==> Waits(s, task) && PassTurn(s).tasks[task] == s.tasks[task]
    decreases |s.turns|
  {
    if s.turns != [] && !Live(s.tasks, s.turns[0].order) { PassTurnPromotes(s.(turns := s.turns[1..]), task); }
  }

  /** In any run a waiting task waits with the priority it came with, and the tasks are numbered as they came. */
  lemma {:induction false} WaitsAsItCame(events: seq<Event>, task: nat)
    ensures Run(events).nextOrder == |Arrivals(events)|
    ensures Waits(Run(events), task) ==> task < |Arrivals(events)| && Run(events).tasks[task] == Pending(Arrivals(events)[task])
    decreases |events|
  {
    if events != [] {
      var before, last := events[..|events| - 1], events[|events| - 1];
      WaitsAsItCame(before, task);
      match last
      case Resumed(from) => PassTurnPromotes(Without(Run(before), from), task);
      case Left(from) => PassTurnPromotes(Without(Run(before), from), task);
      case _ =>
    }
  }

  // ---- the turn is given up ------------------------------------------------------------------

  /** In any run: at the end of its block a task goes and the turn is handed over, and so it is when a task resumes that was
      granted the turn and cancelled; one that was not cancelled has the turn then, and one cancelled before goes. */
  lemma TurnIsGivenUp(events: seq<Event>, from: nat)
    requires from in Run(events).tasks
    ensures var s := Run(events);
            match s.tasks[from]
            case Holding => HandedOver(Without(s, from), Step(s, Left(from)))
            case Granted(true) => HandedOver(Without(s, from), Step(s, Resumed(from)))
            case Granted(false) => Step(s, Resumed(from)) == s.(tasks := s.tasks[from := Holding])
            case Cancelled => Step(s, Resumed(from)) == Without(s, from)
            case Pending(_) => Step(s, Resumed(from)) == s == Step(s, Left(from))
    ensures var s, t := Run(events), Step(Run(events), Left(from)); s.tasks[from] == Holding ==> from !in t.tasks
    ensures var s, t := Run(events), Step(Run(events), Resumed(from)); s.tasks[from] == Granted(true) ==> from !in t.tasks
  {
    RunKeepsInv(events);
    if HasTurn(Run(events), from) { GivingUpTheTurn(Run(events), from); }
  }

  /** Cancelled before its block began, or gone. */
  predicate Doomed(s: Lock, task: nat) {
    task < s.nextOrder && (task in s.tasks ==> s.tasks[task] == Cancelled || s.tasks[task] == Granted(true))
  }

  lemma PassTurnKeepsDoomed(s: Lock, task: nat)
    requires Doomed(s, task)
    ensures Doomed(PassTurn(s), task)
    decreases |s.turns|
  {
    if s.turns != [] && !Live(s.tasks, s.turns[0].order) { PassTurnKeepsDoomed(s.(turns := s.turns[1..]), task); }
  }

  lemma StepKeepsDoomed(s: Lock, e: Event, task: nat)
    requires Doomed(s, task)
    ensures Doomed(Step(s, e), task)
  {
    match e
    case Resumed(from) => if from in s.tasks { PassTurnKeepsDoomed(Without(s, from), task); }
    case Left(from) => PassTurnKeepsDoomed(Without(s, from), task);
    case _ =>
  }

  /** In any run, a task cancelled before its block began never holds the turn. */
  lemma {:induction false} CancelledNeverHolds(events: seq<Event>, i: nat, task: nat)
    requires i < |events| && events[i] == Cancels(task)
    requires task in Run(events[..i]).tasks && !Run(events[..i]).tasks[task].Holding?
    ensures Doomed(Run(events), task) && (task in Run(events).tasks ==> !Run(events).tasks[task].Holding?)
    decreases |events|
  {
    var before := events[..|events| - 1];
    if i == |before| {
      RunKeepsInv(before);
    } else {
      assert before[..i] == events[..i];
      CancelledNeverHolds(before, i, task);
      StepKeepsDoomed(Run(before), events[|events| - 1], task);
    }
  }

  lemma RunGoesOn(events: seq<Event>, e: Event)
    ensures Run(events + [e]) == Step(Run(events), e)
  {
    assert (events + [e])[..|events|] == events;
  }

  predicate WaitsOrGranted(s: Lock, task: nat) { task in s.tasks && (s.tasks[task].Pending? || s.tasks[task] == Granted(false)) }

  predicate GivesWay(e: Event) { e.Resumed? || e.Left? }

  lemma {:induction false} PassTurnDrops(s: Lock, task: nat)
    requires Waits(s, task)
    ensures |PassTurn(s).turns| <= |s.turns| && (s.turns != [] ==> |PassTurn(s).turns| < |s.turns|)
    ensures WaitsOrGranted(PassTurn(s), task)
    decreases |s.turns|
  {
    if s.turns != [] && !Live(s.tasks, s.turns[0].order) { PassTurnDrops(s.(turns := s.turns[1..]), task); }
  }

  /** One round: whoever has the turn takes it up if it was only granted, and gives it up. */
  lemma OneRound(events: seq<Event>, task: nat) returns (more: seq<Event>)
    requires Waits(Run(events), task)
    ensures forall i :: 0 <= i < |more| ==> GivesWay(more[i])
    ensures var t := Run(events + more);
            && |t.turns| < |Run(events).turns| && WaitsOrGranted(t, task)
  {
    var s := Run(events);
    RunKeepsInv(events);
    assert Entry(s.tasks[task].priority, task) in s.turns;
    var c :| HasTurn(s, c);
    PassTurnDrops(Without(s, c), task);
    if s.tasks[c] == Holding {
      more := [Left(c)];
      RunGoesOn(events, Left(c));
    } else if s.tasks[c] == Granted(true) {
      more := [Resumed(c)];
      RunGoesOn(events, Resumed(c));
    } else {
      RunGoesOn(events, Resumed(c));
      RunGoesOn(events + [Resumed(c)], Left(c));
      more := [Resumed(c), Left(c)];
      assert events + more == events + [Resumed(c)] + [Left(c)];
      assert Without(Step(s, Resumed(c)), c) == Without(s, c);
    }
  }

  /** Nobody waits for ever: from any state of any run, tasks taking and giving up their turns bring it to every waiter. */
  lemma {:induction false} WaiterGetsTheTurn(events: seq<Event>, task: nat) returns (more: seq<Event>)
    requires Waits(Run(events), task)
    ensures forall i :: 0 <= i < |more| ==> GivesWay(more[i])
    ensures task in Run(events + more).tasks && Run(events + more).tasks[task] == Holding
    decreases |Run(events).turns|
  {
    var round := OneRound(events, task);
    if Waits(Run(events + round), task) {
      var rest := WaiterGetsTheTurn(events + round, task);
      more := round + rest;
      assert events + more == events + round + rest;
    } else {
      RunGoesOn(events + round, Resumed(task));
      more := round + [Resumed(task)];
      assert events + more == events + round + [Resumed(task)];
    }
  }

  // ---- the lock as the daemon keeps it ---------------------------------------------------

  class GraphTurns {
    var turnHeld: bool
    var turns: seq<Entry>
    var turnOrder: nat
    var tasks: map<nat, Turn>

    function View(): Lock
      reads this
    {
      Lock(turnHeld, turns, tasks, turnOrder)
    }

    constructor ()
      ensures View() == Open
    {
      turnHeld, turns, turnOrder, tasks := false, [], 0, map[];
    }

    /** Pop until a live waiter takes the turn; nobody left frees it. */
    method HandOn()
      modifies this`turnHeld, this`turns, this`tasks
      ensures View() == PassTurn(old(View()))
    {
      while turns != []
        invariant PassTurn(View()) == PassTurn(old(View()))
        decreases |turns|
      {
        var waiter := turns[0].order;
        turns := turns[1..];
        if Live(tasks, waiter) {
          tasks := tasks[waiter := Granted(false)];
          return;
        }
      }
      turnHeld := false;
    }

    method TakeOrQueue(priority: nat) returns (task: nat)
      modifies this
      ensures View() == Step(old(View()), Arrived(priority)) && task == old(turnOrder)
    {
      task := turnOrder;
      turnOrder := turnOrder + 1;
      if turnHeld {
        turns := Push(turns, Entry(priority, task));
        tasks := tasks[task := Pending(priority)];
      } else {
        turnHeld := true;
        tasks := tasks[task := Holding];
      }
    }

    /** Somebody cancels a task: a pending future is cancelled at once, a granted one only when its task resumes. */
    method CancelTask(task: nat)
      modifies this`tasks
      ensures View() == Step(old(View()), Cancels(task))
    {
      if task !in tasks { return; }
      if tasks[task].Pending? {
        tasks := tasks[task := Cancelled];
      } else if tasks[task].Granted? {
        tasks := tasks[task := Granted(true)];
      }
    }

    /** The waiting task runs again: with the turn, or with its cancellation, granted or not. */
    method Wake(task: nat)
      modifies this
      ensures View() == Step(old(View()), Resumed(task))
    {
      if task !in tasks { return; }
      var standing := tasks[task];
      if standing == Granted(false) {
        tasks := tasks[task := Holding];
      } else if standing == Granted(true) {
        tasks := tasks - {task};
        HandOn();
      } else if standing.Cancelled? {
        tasks := tasks - {task};
      }
    }

    method Exit(task: nat)
      requires task in tasks && tasks[task].Holding?
      modifies this
      ensures View() == Step(old(View()), Left(task))
    {
      tasks := tasks - {task};
      HandOn();
    }
  }
}
