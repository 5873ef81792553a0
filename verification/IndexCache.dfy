/** Resident indexes: least recently used slots, and lane overlays that go with their base (index_cache.py, IndexCache). */
module IndexCache {
  import opened Lists
  import opened Options

  type Key = nat

  /** `order` lists the keys of `tasks`, oldest use first; `laneBases` gives the base of each overlay's key. */
  datatype Cache = Cache(order: seq<Key>, tasks: map<Key, nat>, lastUsed: map<Key, nat>, laneBases: map<Key, Key>,
                         nextTask: nat)

  const Empty: Cache := Cache([], map[], map[], map[], 0)

  // ---- what an eviction takes with it ------------------------------------------------------

  /** Nothing outside the set overlays something inside it. */
  ghost predicate Closed(laneBases: map<Key, Key>, s: set<Key>) {
    forall x :: x in laneBases && laneBases[x] in s ==> x in s
  }

  /** The key and everything overlaying it, at any depth: what lies in every closed set around the key. */
  ghost function Gone(laneBases: map<Key, Key>, k: Key): set<Key> {
    set x | x in laneBases.Keys + {k} && forall s: set<Key> :: k in s && Closed(laneBases, s) ==> x in s
  }

  lemma GoneIsLeast(laneBases: map<Key, Key>, k: Key)
    ensures k in Gone(laneBases, k) && Closed(laneBases, Gone(laneBases, k))
    ensures forall s :: k in s && Closed(laneBases, s) ==> Gone(laneBases, k) <= s
  {}

  function Outside(gone: set<Key>): Key -> bool { x => x !in gone }

  function Without(c: Cache, gone: set<Key>): Cache {
    Cache(Filter(c.order, Outside(gone)), c.tasks - gone, c.lastUsed - gone, c.laneBases - gone, c.nextTask)
  }

  ghost function EvictKey(c: Cache, k: Key): Cache { Without(c, Gone(c.laneBases, k)) }

  /** No overlay of an evicted key stays registered. */
  lemma EvictionLeavesNoOrphan(c: Cache, k: Key, x: Key)
    requires x in EvictKey(c, k).laneBases
    ensures EvictKey(c, k).laneBases[x] !in Gone(c.laneBases, k) && x !in Gone(c.laneBases, k)
  {}

  // ---- the cache's own invariant --------------------------------------------------------------

  /** Distinct keys, oldest use first. */
  ghost predicate ByUse(order: seq<Key>, used: map<Key, nat>) {
    order == [] ||
    (&& order[0] in used && order[0] !in order[1..]
     && (forall x :: x in order[1..] ==> x in used && used[order[0]] <= used[x])
     && ByUse(order[1..], used))
  }

  function IsFull(laneBases: map<Key, Key>): Key -> bool { x => x !in laneBases }

  /** Indexes of their own, oldest use first; overlays cost no slot. */
  function FullKeys(c: Cache): seq<Key> { Filter(c.order, IsFull(c.laneBases)) }

  ghost predicate Inv(c: Cache, now: nat) {
    && ByUse(c.order, c.lastUsed)
    && (forall x :: x in c.order <==> x in c.tasks)
    && (forall x :: x in c.tasks <==> x in c.lastUsed)
    && (forall x :: x in c.laneBases ==> x in c.tasks)
    && (forall x :: x in c.lastUsed ==> c.lastUsed[x] <= now)
    && (forall x :: x in c.tasks ==> c.tasks[x] < c.nextTask)
  }

  lemma {:induction false} FilterByUse(order: seq<Key>, used: map<Key, nat>, keep: Key -> bool, used': map<Key, nat>)
    requires ByUse(order, used)
    requires forall x :: x in order && keep(x) ==> x in used && x in used' && used'[x] == used[x]
    ensures ByUse(Filter(order, keep), used')
  {
    if order != [] {
      FilterByUse(order[1..], used, keep, used');
      FilterMembers(order[1..], keep);
    }
  }

  lemma {:induction false} AppendByUse(order: seq<Key>, used: map<Key, nat>, k: Key)
    requires ByUse(order, used) && k !in order && k in used && forall x :: x in order ==> x in used && used[x] <= used[k]
    ensures ByUse(order + [k], used)
  {
    if order != [] {
      AppendByUse(order[1..], used, k);
      assert (order + [k])[1..] == order[1..] + [k];
    }
  }

  lemma EvictKeepsInv(c: Cache, k: Key, now: nat)
    requires Inv(c, now)
    ensures Inv(EvictKey(c, k), now)
  {
    var gone := Gone(c.laneBases, k);
    FilterByUse(c.order, c.lastUsed, Outside(gone), c.lastUsed - gone);
    FilterMembers(c.order, Outside(gone));
  }

  // ---- slots -------------------------------------------------------------------------------------

  lemma EvictFullKey(c: Cache, k: Key)
    requires k !in c.laneBases
    ensures FullKeys(EvictKey(c, k)) == Filter(FullKeys(c), Outside({k}))
  {
    var gone, t := Gone(c.laneBases, k), EvictKey(c, k);
    var both := (x: Key) => x !in c.laneBases && x != k;
    FilterFused(c.order, Outside(gone), IsFull(t.laneBases), both);
    FilterFused(c.order, IsFull(c.laneBases), Outside({k}), both);
  }

  ghost function EvictEach(c: Cache, victims: seq<Key>): Cache
    decreases |victims|
  {
    if victims == [] then c else EvictEach(EvictKey(c, victims[0]), victims[1..])
  }

  /** How many slots a new index must free first. */
  function Excess(full: nat, maxSize: nat): nat { if full < maxSize then 0 else if maxSize == 0 then full else full + 1 - maxSize }

  ghost function MakeRoom(c: Cache, maxSize: nat): Cache {
    EvictEach(c, FullKeys(c)[..Excess(|FullKeys(c)|, maxSize)])
  }

  lemma EvictOldest(c: Cache, now: nat)
    requires Inv(c, now) && FullKeys(c) != []
    ensures FullKeys(EvictKey(c, FullKeys(c)[0])) == FullKeys(c)[1..]
  {
    var full := FullKeys(c);
    var v := full[0];
    FilterMembers(c.order, IsFull(c.laneBases));
    FilterByUse(c.order, c.lastUsed, IsFull(c.laneBases), c.lastUsed);
    EvictFullKey(c, v);
    assert Filter(full, Outside({v})) == Filter(full[1..], Outside({v}));
    FilterAll(full[1..], Outside({v}));
  }

  /** Evicting the oldest own indexes, each with its overlays, leaves the newer ones in their order. */
  lemma {:induction false} EvictingTheOldest(c: Cache, n: nat, now: nat)
    requires Inv(c, now) && n <= |FullKeys(c)|
    ensures Inv(EvictEach(c, FullKeys(c)[..n]), now)
    ensures FullKeys(EvictEach(c, FullKeys(c)[..n])) == FullKeys(c)[n..]
    decreases n
  {
    if n > 0 {
      EvictOldest(c, now);
      EvictKeepsInv(c, FullKeys(c)[0], now);
      EvictionsOfTheRest(c, FullKeys(c), n);
      EvictingTheOldest(EvictKey(c, FullKeys(c)[0]), n - 1, now);
    }
  }

  lemma EvictionsOfTheRest(c: Cache, full: seq<Key>, n: nat)
    requires 0 < n <= |full|
    ensures EvictEach(c, full[..n]) == EvictEach(EvictKey(c, full[0]), full[1..][..n - 1])
    ensures full[1..][n - 1..] == full[n..]
  {
    assert full[..n][1..] == full[1..][..n - 1];
  }

  lemma {:induction false} EvictionsOnlyRemove(c: Cache, victims: seq<Key>, x: Key)
    requires x in EvictEach(c, victims).tasks
    ensures x in c.tasks
    decreases |victims|
  {
    if victims != [] { EvictionsOnlyRemove(EvictKey(c, victims[0]), victims[1..], x); }
  }

  lemma {:induction false} EarlierIsOlder(order: seq<Key>, used: map<Key, nat>, i: nat, j: nat)
    requires ByUse(order, used) && i < j < |order|
    ensures order[i] in used && order[j] in used && used[order[i]] <= used[order[j]] && order[i] != order[j]
  {
    if i == 0 {
      assert order[j] in order[1..];
    } else {
      EarlierIsOlder(order[1..], used, i - 1, j - 1);
    }
  }

  /** The victims of a new index are the least recently used own indexes. */
  lemma VictimsAreLeastRecentlyUsed(c: Cache, maxSize: nat, now: nat, victim: nat, survivor: nat)
    requires Inv(c, now)
    requires victim < Excess(|FullKeys(c)|, maxSize) <= survivor < |FullKeys(c)|
    ensures var full := FullKeys(c);
            && FullKeys(MakeRoom(c, maxSize)) == full[Excess(|full|, maxSize)..]
            && full[victim] in c.lastUsed && full[survivor] in c.lastUsed
            && c.lastUsed[full[victim]] <= c.lastUsed[full[survivor]]
  {
    EvictingTheOldest(c, Excess(|FullKeys(c)|, maxSize), now);
    FilterByUse(c.order, c.lastUsed, IsFull(c.laneBases), c.lastUsed);
    FilterMembers(c.order, IsFull(c.laneBases));
    EarlierIsOlder(FullKeys(c), c.lastUsed, victim, survivor);
  }

  /** Room for one more, and no more than that. */
  lemma RoomForOne(c: Cache, maxSize: nat, now: nat)
    requires Inv(c, now) && 1 <= maxSize
    ensures |FullKeys(MakeRoom(c, maxSize))| == if |FullKeys(c)| < maxSize then |FullKeys(c)| else maxSize - 1
    ensures |FullKeys(c)| < maxSize ==> MakeRoom(c, maxSize) == c
  {
    EvictingTheOldest(c, Excess(|FullKeys(c)|, maxSize), now);
  }

  // ---- the steps between awaits --------------------------------------------------------------

  function MoveToEnd(order: seq<Key>, k: Key): seq<Key> { Filter(order, Outside({k})) + [k] }

  /** The key is the most recently used one, under a task. */
  function Place(c: Cache, k: Key, task: nat, now: nat): Cache {
    c.(order := MoveToEnd(c.order, k), tasks := c.tasks[k := task], lastUsed := c.lastUsed[k := now],
       nextTask := if task == c.nextTask then task + 1 else c.nextTask)
  }

  /** Serve a resident index, or make room and start building it. */
  ghost function GetExact(c: Cache, k: Key, maxSize: nat, now: nat): Cache {
    if k in c.tasks then Place(c, k, c.tasks[k], now)
    else
      var room := MakeRoom(c, maxSize);
      Place(room, k, room.nextTask, now)
  }

  /** Serve a lane's overlay on its base, planning it again when it is stale or new. */
  function GetOverlay(c: Cache, k: Key, base: Key, stale: bool, now: nat): Cache {
    Place(c.(laneBases := c.laneBases[k := base]), k, if k in c.tasks && !stale then c.tasks[k] else c.nextTask, now)
  }

  function Replace(c: Cache, k: Key): Cache {
    if k !in c.tasks then c else c.(tasks := c.tasks[k := c.nextTask], nextTask := c.nextTask + 1)
  }

  /** A build fails, or a stored index is found stale: out it goes, unless the key has another task by now. */
  ghost function Fails(c: Cache, k: Key, task: nat): Cache {
    if k in c.tasks && c.tasks[k] == task then EvictKey(c, k) else c
  }

  datatype Event =
    | Exact(key: Key)
    | Overlay(key: Key, base: Key, stale: bool)
    | Replaced(key: Key)
    | Failed(key: Key, task: nat)
    | Evicted(key: Key)

  ghost function Step(c: Cache, e: Event, maxSize: nat, now: nat): Cache {
    match e
    case Exact(k) => GetExact(c, k, maxSize, now)
    case Overlay(k, base, stale) => GetOverlay(c, k, base, stale, now)
    case Replaced(k) => Replace(c, k)
    case Failed(k, task) => Fails(c, k, task)
    case Evicted(k) => EvictKey(c, k)
  }

  datatype Timed = Timed(event: Event, elapsed: nat)

  /** Each event comes some time after the one before it. */
  function Clock(events: seq<Timed>): nat
    decreases |events|
  {
    if events == [] then 0 else Clock(events[..|events| - 1]) + events[|events| - 1].elapsed
  }

  ghost function Run(events: seq<Timed>, maxSize: nat): Cache
    decreases |events|
  {
    if events == [] then Empty
    else Step(Run(events[..|events| - 1], maxSize), events[|events| - 1].event, maxSize, Clock(events))
  }

  // ---- every interleaving ----------------------------------------------------------------------

  /** Own indexes, counted. */
  ghost function Slots(c: Cache): set<Key> { set x | x in c.tasks && x !in c.laneBases }

  lemma {:induction false} CountByUse(order: seq<Key>, used: map<Key, nat>, s: set<Key>)
    requires ByUse(order, used) && forall x :: x in s <==> x in order
    ensures |s| == |order|
  {
    if order != [] {
      CountByUse(order[1..], used, s - {order[0]});
      assert s == s - {order[0]} + {order[0]};
    } else {
      assert s == {};
    }
  }

  lemma FullKeysFillSlots(c: Cache, now: nat)
    requires Inv(c, now)
    ensures |FullKeys(c)| == |Slots(c)|
  {
    FilterByUse(c.order, c.lastUsed, IsFull(c.laneBases), c.lastUsed);
    FilterMembers(c.order, IsFull(c.laneBases));
    CountByUse(FullKeys(c), c.lastUsed, Slots(c));
  }

  lemma {:induction false} FewerThan(a: set<Key>, b: set<Key>)
    requires a <= b
    ensures |a| <= |b|
  {
    if a != {} {
      var x :| x in a;
      FewerThan(a - {x}, b - {x});
    }
  }

  lemma PlaceKeepsOrder(c: Cache, k: Key, task: nat, now: nat)
    requires ByUse(c.order, c.lastUsed) && forall x :: x in c.order ==> x in c.lastUsed && c.lastUsed[x] <= now
    ensures ByUse(Place(c, k, task, now).order, Place(c, k, task, now).lastUsed)
    ensures forall x :: x in Place(c, k, task, now).order <==> x == k || x in c.order
  {
    var used := c.lastUsed[k := now];
    FilterMembers(c.order, Outside({k}));
    FilterByUse(c.order, c.lastUsed, Outside({k}), used);
    AppendByUse(Filter(c.order, Outside({k})), used, k);
  }

  /** The invariant, and no more own indexes than slots. */
  ghost predicate Kept(c: Cache, maxSize: nat, now: nat) { Inv(c, now) && |Slots(c)| <= maxSize }

  lemma PlaceKeepsInv(c: Cache, k: Key, task: nat, was: nat, now: nat)
    requires Inv(c.(laneBases := c.laneBases - {k}), was) && was <= now && task <= c.nextTask
    ensures Inv(Place(c, k, task, now), now)
  {
    PlaceKeepsOrder(c, k, task, now);
  }

  lemma LaterKeepsInv(c: Cache, was: nat, now: nat)
    requires Inv(c, was) && was <= now
    ensures Inv(c, now)
  {}

  lemma ServingKeepsInv(c: Cache, k: Key, maxSize: nat, was: nat, now: nat)
    requires Kept(c, maxSize, was) && was <= now && k in c.tasks
    ensures Kept(Place(c, k, c.tasks[k], now), maxSize, now)
  {
    PlaceKeepsInv(c, k, c.tasks[k], was, now);
    assert Place(c, k, c.tasks[k], now).tasks.Keys == c.tasks.Keys;
  }

  lemma RoomIsMade(c: Cache, maxSize: nat, now: nat)
    requires Kept(c, maxSize, now) && 1 <= maxSize
    ensures Kept(MakeRoom(c, maxSize), maxSize - 1, now)
  {
    FullKeysFillSlots(c, now);
    EvictingTheOldest(c, Excess(|FullKeys(c)|, maxSize), now);
    FullKeysFillSlots(MakeRoom(c, maxSize), now);
  }

  lemma SlotTaken(c: Cache, k: Key, now: nat)
    ensures |Slots(Place(c, k, c.nextTask, now))| <= |Slots(c)| + 1
  {
    FewerThan(Slots(Place(c, k, c.nextTask, now)), Slots(c) + {k});
  }

  lemma FillingASlot(c: Cache, k: Key, maxSize: nat, was: nat, now: nat)
    requires 1 <= maxSize && Kept(c, maxSize - 1, was) && was <= now && k !in c.tasks
    ensures Kept(Place(c, k, c.nextTask, now), maxSize, now)
  {
    PlaceKeepsInv(c, k, c.nextTask, was, now);
    SlotTaken(c, k, now);
  }

  lemma GetExactKeepsInv(c: Cache, k: Key, maxSize: nat, was: nat, now: nat)
    requires Kept(c, maxSize, was) && was <= now && 1 <= maxSize
    ensures Kept(GetExact(c, k, maxSize, now), maxSize, now)
  {
    if k in c.tasks {
      ServingKeepsInv(c, k, maxSize, was, now);
    } else {
      RoomIsMade(c, maxSize, was);
      if k in MakeRoom(c, maxSize).tasks {
        EvictionsOnlyRemove(c, FullKeys(c)[..Excess(|FullKeys(c)|, maxSize)], k);
      }
      FillingASlot(MakeRoom(c, maxSize), k, maxSize, was, now);
    }
  }

  /** An overlay takes no slot; an own index that becomes one gives its slot back. */
  lemma GetOverlayKeepsInv(c: Cache, k: Key, base: Key, stale: bool, maxSize: nat, was: nat, now: nat)
    requires Kept(c, maxSize, was) && was <= now
    ensures Kept(GetOverlay(c, k, base, stale, now), maxSize, now)
  {
    var b := c.(laneBases := c.laneBases[k := base]);
    assert b.laneBases - {k} == c.laneBases - {k};
    PlaceKeepsInv(b, k, if k in c.tasks && !stale then c.tasks[k] else c.nextTask, was, now);
    FewerThan(Slots(GetOverlay(c, k, base, stale, now)), Slots(c));
  }

  lemma EvictKeepsSlots(c: Cache, k: Key, maxSize: nat, was: nat, now: nat)
    requires Kept(c, maxSize, was) && was <= now
    ensures Kept(EvictKey(c, k), maxSize, now)
  {
    EvictKeepsInv(c, k, was);
    LaterKeepsInv(EvictKey(c, k), was, now);
    FewerThan(Slots(EvictKey(c, k)), Slots(c));
  }

  /** Replacing never brings an evicted key back, nor changes any key's place or use. */
  lemma ReplaceResurrectsNothing(c: Cache, k: Key, maxSize: nat, was: nat, now: nat)
    requires Kept(c, maxSize, was) && was <= now
    ensures Kept(Replace(c, k), maxSize, now)
    ensures var t := Replace(c, k);
            t.tasks.Keys == c.tasks.Keys && t.order == c.order && t.lastUsed == c.lastUsed && t.laneBases == c.laneBases
    ensures var t := Replace(c, k);
            && (forall x :: x in c.tasks && x != k ==> t.tasks[x] == c.tasks[x])
            && (k in c.tasks ==> forall x :: x in c.tasks ==> t.tasks[k] != c.tasks[x])
  {
    LaterKeepsInv(c, was, now);
    assert Replace(c, k).tasks.Keys == c.tasks.Keys;
  }

  lemma StepKeepsInv(c: Cache, e: Event, maxSize: nat, was: nat, now: nat)
    requires Kept(c, maxSize, was) && was <= now && 1 <= maxSize
    ensures Kept(Step(c, e, maxSize, now), maxSize, now)
  {
    match e
    case Exact(k) => GetExactKeepsInv(c, k, maxSize, was, now);
    case Overlay(k, base, stale) => GetOverlayKeepsInv(c, k, base, stale, maxSize, was, now);
    case Replaced(k) => ReplaceResurrectsNothing(c, k, maxSize, was, now);
    case Failed(k, task) => EvictKeepsSlots(c, k, maxSize, was, now); LaterKeepsInv(c, was, now);
    case Evicted(k) => EvictKeepsSlots(c, k, maxSize, was, now);
  }

  lemma {:induction false} RunKeepsInv(events: seq<Timed>, maxSize: nat)
    requires 1 <= maxSize
    ensures Kept(Run(events, maxSize), maxSize, Clock(events))
    decreases |events|
  {
    if events != [] {
      var before := events[..|events| - 1];
      RunKeepsInv(before, maxSize);
      StepKeepsInv(Run(before, maxSize), events[|events| - 1].event, maxSize, Clock(before), Clock(events));
    }
  }

  ghost predicate NeverOver(maxSize: nat) { forall events :: |FullKeys(Run(events, maxSize))| <= maxSize }

  /** Whatever is asked, built, replaced, failed and evicted, in any order, the slots hold exactly when there is one. */
  lemma SlotsNeverOverrun(maxSize: nat)
    ensures NeverOver(maxSize) <==> 1 <= maxSize
  {
    if 1 <= maxSize {
      forall events ensures |FullKeys(Run(events, maxSize))| <= maxSize {
        RunKeepsInv(events, maxSize);
        FullKeysFillSlots(Run(events, maxSize), Clock(events));
      }
    } else {
      var events := [Timed(Exact(7), 0)];
      assert events[..0] == [];
      assert Run(events, maxSize) == Place(Empty, 7, 0, 0);
      assert FullKeys(Run(events, maxSize)) == [7];
    }
  }

  // ---- what the steps do for their key --------------------------------------------------------

  predicate Uses(e: Event, k: Key) { (e.Exact? || e.Overlay?) && e.key == k }

  /** The i-th event is the last that asked for the key. */
  ghost predicate LastUseAt(events: seq<Timed>, i: nat, k: Key) {
    i < |events| && Uses(events[i].event, k) && forall j :: i < j < |events| ==> !Uses(events[j].event, k)
  }

  lemma {:induction false} EvictionsKeepUses(c: Cache, victims: seq<Key>, x: Key)
    requires x in EvictEach(c, victims).lastUsed
    ensures x in c.lastUsed && EvictEach(c, victims).lastUsed[x] == c.lastUsed[x]
    decreases |victims|
  {
    if victims != [] { EvictionsKeepUses(EvictKey(c, victims[0]), victims[1..], x); }
  }

  lemma StepKeepsUses(c: Cache, e: Event, maxSize: nat, now: nat, k: Key)
    requires k in Step(c, e, maxSize, now).lastUsed
    ensures if Uses(e, k) then Step(c, e, maxSize, now).lastUsed[k] == now
            else k in c.lastUsed && Step(c, e, maxSize, now).lastUsed[k] == c.lastUsed[k]
  {
    if e.Exact? && !Uses(e, k) && e.key !in c.tasks {
      EvictionsKeepUses(c, FullKeys(c)[..Excess(|FullKeys(c)|, maxSize)], k);
    }
  }

  /** In any run a resident key's use time is when it was last asked for. */
  lemma {:induction false} LastUsedIsLastUse(events: seq<Timed>, maxSize: nat, k: Key) returns (i: nat)
    requires k in Run(events, maxSize).lastUsed
    ensures LastUseAt(events, i, k) && Run(events, maxSize).lastUsed[k] == Clock(events[..i + 1])
    decreases |events|
  {
    var before, last := events[..|events| - 1], events[|events| - 1];
    StepKeepsUses(Run(before, maxSize), last.event, maxSize, Clock(events), k);
    if Uses(last.event, k) {
      i := |before|;
      assert events[..i + 1] == events;
    } else {
      i := LastUsedIsLastUse(before, maxSize, k);
      LastUseStays(events, i, k);
    }
  }

  lemma LastUseStays(events: seq<Timed>, i: nat, k: Key)
    requires events != [] && LastUseAt(events[..|events| - 1], i, k) && !Uses(events[|events| - 1].event, k)
    ensures LastUseAt(events, i, k) && Clock(events[..|events| - 1][..i + 1]) == Clock(events[..i + 1])
  {
    assert events[..|events| - 1][..i + 1] == events[..i + 1];
  }

  /** No key is under that task. */
  predicate IsNew(c: Cache, task: nat) { forall x :: x in c.tasks ==> c.tasks[x] != task }

  lemma {:induction false} EvictionsKeepTasks(c: Cache, victims: seq<Key>)
    ensures EvictEach(c, victims).nextTask == c.nextTask
    decreases |victims|
  {
    if victims != [] { EvictionsKeepTasks(EvictKey(c, victims[0]), victims[1..]); }
  }

  /** In any run, a key asked for is resident then, as the last to go: under the task it had, or under a new one when it was
      not resident or its overlay is stale. */
  lemma AskedIsResident(events: seq<Timed>, maxSize: nat, e: Event, now: nat)
    requires 1 <= maxSize && (e.Exact? || e.Overlay?)
    ensures var c, t, k := Run(events, maxSize), Step(Run(events, maxSize), e, maxSize, now), e.key;
            && k in t.tasks && t.order != [] && t.order[|t.order| - 1] == k
            && (if k in c.tasks && !(e.Overlay? && e.stale) then t.tasks[k] == c.tasks[k] else IsNew(c, t.tasks[k]))
            && (e.Overlay? ==> k in t.laneBases && t.laneBases[k] == e.base)
  {
    var c := Run(events, maxSize);
    RunKeepsInv(events, maxSize);
    EvictionsKeepTasks(c, FullKeys(c)[..Excess(|FullKeys(c)|, maxSize)]);
  }

  /** A failed build's task is gone, with all that overlays its key; where the key has another task by now nothing changes. */
  lemma FailedBuildIsGone(c: Cache, k: Key, task: nat, maxSize: nat, now: nat)
    ensures var t := Step(c, Failed(k, task), maxSize, now);
            && !(k in t.tasks && t.tasks[k] == task)
            && (k in c.tasks && c.tasks[k] == task ==> k !in t.tasks && k !in t.order && k !in t.lastUsed && k !in t.laneBases)
            && (k in c.tasks && c.tasks[k] != task ==> t == c)
            && (forall x :: x in t.laneBases ==> t.laneBases[x] != k || t == c)
  {
    if k in c.tasks && c.tasks[k] == task {
      GoneIsLeast(c.laneBases, k);
      FilterMembers(c.order, Outside(Gone(c.laneBases, k)));
    }
  }

  // ---- the cache as the process keeps it -------------------------------------------------

  /** Part of a cascade: what went so far takes its own overlays along, but for the key's direct overlays still listed. */
  ghost predicate Cascading(laneBases: map<Key, Key>, k: Key, gone: set<Key>, overlays: set<Key>) {
    && k in gone && gone <= Gone(laneBases, k)
    && (forall x :: x in overlays ==> x in laneBases && laneBases[x] == k && x != k)
    && (forall x :: x in laneBases && laneBases[x] in gone ==> x in gone || x in overlays)
  }

  /** The overlays an eviction may still meet. */
  ghost function Rest(laneBases: map<Key, Key>, k: Key): set<Key> { set x | x in laneBases && x != k }

  lemma RestShrinks(laneBases: map<Key, Key>, k: Key, gone: set<Key>, overlay: Key)
    requires k in gone && overlay in laneBases && overlay != k
    ensures Rest(laneBases - gone, overlay) < Rest(laneBases, k)
  {
    assert overlay in Rest(laneBases, k) && overlay !in Rest(laneBases - gone, overlay);
  }

  lemma CascadeGrows(laneBases: map<Key, Key>, k: Key, gone: set<Key>, overlays: set<Key>, overlay: Key)
    requires Cascading(laneBases, k, gone, overlays) && overlay in overlays
    ensures Cascading(laneBases, k, gone + Gone(laneBases - gone, overlay), overlays - {overlay})
  {
    var rest := laneBases - gone;
    var more := gone + Gone(rest, overlay);
    GoneIsLeast(laneBases, k);
    GoneIsLeast(rest, overlay);
    assert Closed(rest, Gone(laneBases, k));
    forall x | x in laneBases && laneBases[x] in more ensures x in more || x in overlays - {overlay} {
      if laneBases[x] !in gone && x !in gone { assert x in rest && rest[x] in Gone(rest, overlay); }
    }
  }

  lemma CascadeEnds(laneBases: map<Key, Key>, k: Key, gone: set<Key>)
    requires Cascading(laneBases, k, gone, {})
    ensures gone == Gone(laneBases, k)
  {}

  /** Two removals are one. */
  lemma RemovedTwice(c: Cache, gone: set<Key>, more: set<Key>)
    ensures Without(Without(c, gone), more) == Without(c, gone + more)
  {
    FilterFused(c.order, Outside(gone), Outside(more), Outside(gone + more));
    assert c.tasks - gone - more == c.tasks - (gone + more);
    assert c.lastUsed - gone - more == c.lastUsed - (gone + more);
    assert c.laneBases - gone - more == c.laneBases - (gone + more);
  }

  class ResidentIndexes {
    const maxSize: nat
    var order: seq<Key>
    var tasks: map<Key, nat>
    var lastUsed: map<Key, nat>
    var laneBases: map<Key, Key>
    var nextTask: nat

    function View(): Cache
      reads this
    {
      Cache(order, tasks, lastUsed, laneBases, nextTask)
    }

    constructor (maxSize: nat)
      ensures View() == Empty && this.maxSize == maxSize
    {
      this.maxSize := maxSize;
      order, tasks, lastUsed, laneBases, nextTask := [], map[], map[], map[], 0;
    }

    method Pop(k: Key)
      modifies this
      ensures View() == Without(old(View()), {k})
    {
      order := Filter(order, Outside({k}));
      tasks := tasks - {k};
      lastUsed := lastUsed - {k};
      laneBases := laneBases - {k};
    }

    /** Evict one index, and every lane overlay built on it, and on those. */
    method Evict(k: Key)
      modifies this
      ensures View() == EvictKey(old(View()), k)
      decreases Rest(laneBases, k)
    {
      ghost var was, gone := View(), {k};
      Pop(k);
      var overlays := set x | x in laneBases && laneBases[x] == k;
      while overlays != {}
        invariant View() == Without(was, gone) && Cascading(was.laneBases, k, gone, overlays)
        decreases overlays
      {
        var overlay :| overlay in overlays;
        CascadeGrows(was.laneBases, k, gone, overlays, overlay);
        RemovedTwice(was, gone, Gone(was.laneBases - gone, overlay));
        RestShrinks(was.laneBases, k, gone, overlay);
        Evict(overlay);
        overlays := overlays - {overlay};
        gone := gone + Gone(was.laneBases - gone, overlay);
      }
      CascadeEnds(was.laneBases, k, gone);
    }

    method EvictOldestFull()
      modifies this
      ensures View() == MakeRoom(old(View()), maxSize)
    {
      var full := FullKeys(View());
      var n := Excess(|full|, maxSize);
      var i := 0;
      while i < n
        invariant i <= n
        invariant EvictEach(View(), full[i..n]) == EvictEach(old(View()), full[..n])
      {
        assert full[i..n][0] == full[i] && full[i..n][1..] == full[i + 1..n];
        Evict(full[i]);
        i := i + 1;
      }
    }

    method Use(k: Key, task: nat, now: nat)
      requires task <= nextTask
      modifies this
      ensures View() == Place(old(View()), k, task, now)
    {
      tasks := tasks[k := task];
      order := MoveToEnd(order, k);
      lastUsed := lastUsed[k := now];
      if task == nextTask { nextTask := task + 1; }
    }

    method Exactly(k: Key, now: nat)
      requires forall x :: x in tasks ==> tasks[x] < nextTask
      modifies this
      ensures View() == GetExact(old(View()), k, maxSize, now)
    {
      if k in tasks {
        Use(k, tasks[k], now);
      } else {
        EvictOldestFull();
        Use(k, nextTask, now);
      }
    }

    method OverlayOn(k: Key, base: Key, stale: bool, now: nat)
      requires forall x :: x in tasks ==> tasks[x] < nextTask
      modifies this
      ensures View() == GetOverlay(old(View()), k, base, stale, now)
    {
      laneBases := laneBases[k := base];
      Use(k, if k in tasks && !stale then tasks[k] else nextTask, now);
    }

    method SwapIn(k: Key)
      modifies this
      ensures View() == Replace(old(View()), k)
    {
      if k !in tasks { return; }
      tasks := tasks[k := nextTask];
      nextTask := nextTask + 1;
    }

    method BuildFailed(k: Key, task: nat)
      modifies this
      ensures View() == Fails(old(View()), k, task)
    {
      if k in tasks && tasks[k] == task { Evict(k); }
    }
  }
}
