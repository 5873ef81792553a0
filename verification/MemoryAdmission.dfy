/** Making room in private memory by evicting idle indexes (daemon/server.py, Daemon._admit). */
module MemoryAdmission {
  import opened IndexCache
  import opened Lists
  import opened Options

  /** What in-flight queries hold: their own keys, and the bases they read through. */
  function Busy(laneBases: map<Key, Key>, queries: set<Key>): set<Key> {
    queries + set q | q in queries && q in laneBases :: laneBases[q]
  }

  /** What must stay while work goes on: a kept key, keys being rebuilt, keys in use by queries. */
  datatype Work = Work(keep: Option<Key>, rebuilding: set<Key>, queries: set<Key>)

  predicate Spared(laneBases: map<Key, Key>, w: Work, k: Key) {
    w.keep == Some(k) || k in w.rebuilding || k in Busy(laneBases, w.queries)
  }

  // ---- what the cascade of one eviction can reach ------------------------------------------

  /** With a key, everything it overlays, at any depth. */
  ghost predicate HoldsItsBases(laneBases: map<Key, Key>, held: set<Key>) {
    forall x :: x in held && x in laneBases ==> laneBases[x] in held
  }

  /** Evicting keys outside a set leaves the set alone exactly when the set holds its own bases. */
  lemma EvictionsSpare(laneBases: map<Key, Key>, held: set<Key>)
    ensures (forall v :: v !in held ==> Gone(laneBases, v) !! held) <==> HoldsItsBases(laneBases, held)
  {
    if HoldsItsBases(laneBases, held) {
      forall v | v !in held ensures Gone(laneBases, v) !! held { EvictionSpares(laneBases, held, v); }
    } else {
      var x :| x in held && x in laneBases && laneBases[x] !in held;
      GoneIsLeast(laneBases, laneBases[x]);
      assert x in Gone(laneBases, laneBases[x]) && x in held;
    }
  }

  lemma EvictionSpares(laneBases: map<Key, Key>, held: set<Key>, v: Key)
    requires HoldsItsBases(laneBases, held) && v !in held
    ensures Gone(laneBases, v) !! held
  {
    var others := laneBases.Keys + {v} - held;
    assert Closed(laneBases, others);
    GoneIsLeast(laneBases, v);
  }

  /** What queries hold is out of reach of every eviction exactly when no query reads through an overlay whose own base
      is held by no query. */
  lemma QueriesAreOutOfReach(laneBases: map<Key, Key>, queries: set<Key>)
    ensures var busy := Busy(laneBases, queries);
            (forall v :: v !in busy ==> Gone(laneBases, v) !! busy) <==>
            (forall q :: q in queries && q in laneBases && laneBases[q] in laneBases ==> laneBases[laneBases[q]] in busy)
  {
    var busy := Busy(laneBases, queries);
    EvictionsSpare(laneBases, busy);
    if forall q :: q in queries && q in laneBases && laneBases[q] in laneBases ==> laneBases[laneBases[q]] in busy {
      forall x | x in busy && x in laneBases ensures laneBases[x] in busy {
        if x !in queries { var q :| q in queries && q in laneBases && laneBases[q] == x; }
      }
    }
  }

  // ---- the loop -------------------------------------------------------------------------------

  predicate Evictable(c: Cache, w: Work, ready: set<Key>, k: Key) { k in ready && !Spared(c.laneBases, w, k) }

  function FirstEvictable(order: seq<Key>, c: Cache, w: Work, ready: set<Key>): Option<Key> {
    if order == [] then None
    else if Evictable(c, w, ready, order[0]) then Some(order[0])
    else FirstEvictable(order[1..], c, w, ready)
  }

  datatype Admission = Admission(cache: Cache, ok: bool, victims: seq<Key>)

  lemma {:induction false} FirstIsInOrder(order: seq<Key>, c: Cache, w: Work, ready: set<Key>)
    ensures match FirstEvictable(order, c, w, ready)
            case Some(v) => v in order && Evictable(c, w, ready, v)
            case None => forall x :: x in order ==> !Evictable(c, w, ready, x)
  {
    if order != [] { FirstIsInOrder(order[1..], c, w, ready); }
  }

  lemma {:induction false} FilterDropsOne(s: seq<Key>, keep: Key -> bool, x: Key)
    requires x in s && !keep(x)
    ensures |Filter(s, keep)| < |s|
  {
    FilterMembers(s[1..], keep);
    if keep(s[0]) { FilterDropsOne(s[1..], keep, x); }
  }

  lemma EvictionShrinks(c: Cache, v: Key)
    requires v in c.order
    ensures |EvictKey(c, v).order| < |c.order|
  {
    GoneIsLeast(c.laneBases, v);
    FilterDropsOne(c.order, Outside(Gone(c.laneBases, v)), v);
  }

  /** Evict the first evictable key, as long as memory reads as over the ceiling; `over(i)` is the reading after i evictions. */
  ghost function Admit(c: Cache, w: Work, ready: set<Key>, over: nat -> bool, i: nat): Admission
    decreases |c.order|
  {
    if !over(i) then Admission(c, true, [])
    else
      match FirstEvictable(c.order, c, w, ready)
      case None => Admission(c, false, [])
      case Some(v) =>
        FirstIsInOrder(c.order, c, w, ready);
        EvictionShrinks(c, v);
        var rest := Admit(EvictKey(c, v), w, ready, over, i + 1);
        rest.(victims := [v] + rest.victims)
  }

  /** Room was made, reading by reading, or nothing more could go. */
  lemma {:induction false} AdmitStopsInTime(c: Cache, w: Work, ready: set<Key>, over: nat -> bool, i: nat)
    ensures var a := Admit(c, w, ready, over, i);
            && (forall j :: i <= j < i + |a.victims| ==> over(j))
            && (a.ok <==> !over(i + |a.victims|))
            && (!a.ok ==> forall x :: x in a.cache.order ==> !Evictable(a.cache, w, ready, x))
    decreases |c.order|
  {
    FirstIsInOrder(c.order, c, w, ready);
    if over(i) {
      match FirstEvictable(c.order, c, w, ready)
      case None =>
      case Some(v) =>
        EvictionShrinks(c, v);
        AdmitStopsInTime(EvictKey(c, v), w, ready, over, i + 1);
    }
  }

  lemma {:induction false} VictimsWereFree(c: Cache, w: Work, ready: set<Key>, over: nat -> bool, i: nat, v: Key)
    requires v in Admit(c, w, ready, over, i).victims
    ensures v in c.order && v in ready && w.keep != Some(v) && v !in w.rebuilding && v !in w.queries
    decreases |c.order|
  {
    FirstIsInOrder(c.order, c, w, ready);
    var first := FirstEvictable(c.order, c, w, ready).value;
    if v != first {
      EvictionShrinks(c, first);
      VictimsWereFree(EvictKey(c, first), w, ready, over, i + 1, v);
      FilterMembers(c.order, Outside(Gone(c.laneBases, first)));
    }
  }

  /** What an admission comes to: idle, unheld indexes went while memory read as over the ceiling, and it fails only when
      every index left is not idle, or is kept, rebuilt, in use, or read through by one in use. */
  lemma AdmissionMeans(c: Cache, w: Work, ready: set<Key>, over: nat -> bool)
    ensures var a := Admit(c, w, ready, over, 0);
            && (forall v :: v in a.victims ==> v in ready && w.keep != Some(v) && v !in w.rebuilding && v !in w.queries)
            && (forall j :: 0 <= j < |a.victims| ==> over(j))
            && (if over(|a.victims|) then !a.ok && forall x :: x in a.cache.order ==>
                  || x !in ready || w.keep == Some(x) || x in w.rebuilding || x in w.queries
                  || exists q :: q in w.queries && q in a.cache.laneBases && a.cache.laneBases[q] == x
                else a.ok)
  {
    var a := Admit(c, w, ready, over, 0);
    AdmitStopsInTime(c, w, ready, over, 0);
    forall v | v in a.victims ensures v in ready && w.keep != Some(v) && v !in w.rebuilding && v !in w.queries {
      VictimsWereFree(c, w, ready, over, 0, v);
    }
    forall x | x in a.cache.order && !a.ok
      ensures || x !in ready || w.keep == Some(x) || x in w.rebuilding || x in w.queries
              || exists q :: q in w.queries && q in a.cache.laneBases && a.cache.laneBases[q] == x
    {
      assert !Evictable(a.cache, w, ready, x);
    }
  }

  // ---- what admission leaves alone ------------------------------------------------------------

  /** The keys are those of the resident indexes, and only these overlay anything. */
  ghost predicate Listed(c: Cache) {
    && (forall x :: x in c.order <==> x in c.tasks)
    && (forall x :: x in c.laneBases ==> x in c.tasks)
  }

  lemma ReachableCachesAreListed(events: seq<Timed>, maxSize: nat)
    requires 1 <= maxSize
    ensures Listed(Run(events, maxSize))
  {
    RunKeepsInv(events, maxSize);
  }

  lemma EvictionKeepsListed(c: Cache, v: Key)
    requires Listed(c)
    ensures Listed(EvictKey(c, v))
  {
    FilterMembers(c.order, Outside(Gone(c.laneBases, v)));
  }

  /** Work holds this key, or a query of the set reads through it. */
  ghost predicate WorkHolds(laneBases: map<Key, Key>, w: Work, held: set<Key>, x: Key) {
    || w.keep == Some(x) || x in w.rebuilding || x in w.queries
    || exists q :: q in w.queries && q in held && q in laneBases && laneBases[q] == x
  }

  /** A set that holds its own bases, work holding each resident key of it. */
  ghost predicate OutOfReach(c: Cache, w: Work, held: set<Key>) {
    && HoldsItsBases(c.laneBases, held)
    && (forall x :: x in held && x in c.tasks ==> WorkHolds(c.laneBases, w, held, x))
  }

  lemma EvictionKeepsOutOfReach(c: Cache, w: Work, held: set<Key>, v: Key)
    requires OutOfReach(c, w, held) && v in c.tasks && !Spared(c.laneBases, w, v)
    ensures Gone(c.laneBases, v) !! held && OutOfReach(EvictKey(c, v), w, held)
  {
    EvictionSpares(c.laneBases, held, v);
  }

  /** Whatever else is rebuilt or kept, admission neither evicts nor replaces anything of such a set. */
  lemma {:induction false} AdmitSparesWork(
      c: Cache, w: Work, ready: set<Key>, over: nat -> bool, i: nat, held: set<Key>, k: Key)
    requires Listed(c) && OutOfReach(c, w, held) && k in held && k in c.tasks
    ensures k in Admit(c, w, ready, over, i).cache.tasks
    ensures Admit(c, w, ready, over, i).cache.tasks[k] == c.tasks[k]
    decreases |c.order|
  {
    FirstIsInOrder(c.order, c, w, ready);
    if over(i) {
      match FirstEvictable(c.order, c, w, ready)
      case None =>
      case Some(v) =>
        EvictionShrinks(c, v);
        EvictionKeepsListed(c, v);
        EvictionKeepsOutOfReach(c, w, held, v);
        AdmitSparesWork(EvictKey(c, v), w, ready, over, i + 1, held, k);
    }
  }

  /** Everything a key reads through: its base, that one's base, and so on. */
  function Chain(laneBases: map<Key, Key>, k: Key): (r: set<Key>)
    ensures k in r
    decreases |laneBases|
  {
    if k in laneBases then {k} + Chain(laneBases - {k}, laneBases[k]) else {k}
  }

  lemma {:induction false} ChainHoldsItsBases(laneBases: map<Key, Key>, k: Key)
    ensures HoldsItsBases(laneBases, Chain(laneBases, k))
    decreases |laneBases|
  {
    if k in laneBases {
      var rest := laneBases - {k};
      ChainHoldsItsBases(rest, laneBases[k]);
      forall x | x in Chain(laneBases, k) && x in laneBases ensures laneBases[x] in Chain(laneBases, k) {
        if x != k { assert x in rest && rest[x] in Chain(rest, laneBases[k]); }
      }
    }
  }

  /** Evicting anything a key reads through takes the key along. */
  lemma {:induction false} ChainCascades(laneBases: map<Key, Key>, k: Key, x: Key)
    requires x in Chain(laneBases, k)
    ensures k in Gone(laneBases, x)
    decreases |laneBases|
  {
    if x != k {
      var rest := laneBases - {k};
      ChainCascades(rest, laneBases[k], x);
      forall s: set<Key> | x in s && Closed(laneBases, s) ensures k in s {
        assert Closed(rest, s);
        assert laneBases[k] in s;
      }
    }
  }

  /** Everything resident that a query reads through, at any depth, is held by work. */
  ghost predicate QueriesHeld(c: Cache, w: Work) {
    forall q, x :: q in w.queries && x in Chain(c.laneBases, q) && x in c.tasks ==> Spared(c.laneBases, w, x)
  }

  ghost predicate QueriesStay(c: Cache, w: Work, t: Cache) {
    forall k :: k in Busy(c.laneBases, w.queries) && k in c.tasks ==> k in t.tasks && t.tasks[k] == c.tasks[k]
  }

  ghost predicate AlwaysStay(c: Cache, w: Work) {
    forall ready, over :: QueriesStay(c, w, Admit(c, w, ready, over, 0).cache)
  }

  /** Memory admission is safe for queries: whichever indexes are idle and however memory reads, what queries hold and
      read through stays as it is, if and only if all they read through, at any depth, is held. */
  lemma QueriesSurviveAdmission(c: Cache, w: Work)
    requires Listed(c)
    ensures AlwaysStay(c, w) <==> QueriesHeld(c, w)
  {
    if QueriesHeld(c, w) {
      var held := Chains(c.laneBases, w.queries);
      ChainsAreOutOfReach(c, w);
      forall ready, over ensures QueriesStay(c, w, Admit(c, w, ready, over, 0).cache) {
        forall k | k in Busy(c.laneBases, w.queries) && k in c.tasks
          ensures k in Admit(c, w, ready, over, 0).cache.tasks && Admit(c, w, ready, over, 0).cache.tasks[k] == c.tasks[k]
        {
          AdmitSparesWork(c, w, ready, over, 0, held, k);
        }
      }
    } else {
      var q, x :| q in w.queries && x in Chain(c.laneBases, q) && x in c.tasks && !Spared(c.laneBases, w, x);
      IdleBaseTakesTheQuery(c, w, q, x);
      assert !QueriesStay(c, w, Admit(c, w, {x}, i => i == 0, 0).cache);
    }
  }

  ghost function Chains(laneBases: map<Key, Key>, queries: set<Key>): set<Key> {
    set q, x | q in queries && x in Chain(laneBases, q) :: x
  }

  lemma ChainsHoldTheirBases(laneBases: map<Key, Key>, queries: set<Key>)
    ensures HoldsItsBases(laneBases, Chains(laneBases, queries))
    ensures queries <= Chains(laneBases, queries) && Busy(laneBases, queries) <= Chains(laneBases, queries)
  {
    var held := Chains(laneBases, queries);
    forall q | q in queries ensures q in held { assert q in Chain(laneBases, q); }
    forall x | x in held && x in laneBases ensures laneBases[x] in held {
      var q :| q in queries && x in Chain(laneBases, q);
      ChainHoldsItsBases(laneBases, q);
    }
  }

  lemma ChainsAreOutOfReach(c: Cache, w: Work)
    requires QueriesHeld(c, w)
    ensures OutOfReach(c, w, Chains(c.laneBases, w.queries))
    ensures Busy(c.laneBases, w.queries) <= Chains(c.laneBases, w.queries)
  {
    var held := Chains(c.laneBases, w.queries);
    ChainsHoldTheirBases(c.laneBases, w.queries);
    forall x | x in held && x in c.tasks ensures WorkHolds(c.laneBases, w, held, x) {
      var q :| q in w.queries && x in Chain(c.laneBases, q);
      assert Spared(c.laneBases, w, x);
    }
  }

  /** One idle index below a query, evicted when memory reads over the ceiling once. */
  lemma IdleBaseTakesTheQuery(c: Cache, w: Work, q: Key, x: Key)
    requires Listed(c) && q in w.queries && x in Chain(c.laneBases, q) && x in c.tasks && !Spared(c.laneBases, w, x)
    ensures q in c.tasks && q !in Admit(c, w, {x}, i => i == 0, 0).cache.tasks
  {
    FirstIsInOrder(c.order, c, w, {x});
    ChainCascades(c.laneBases, q, x);
    EvictionShrinks(c, x);
    assert q in Gone(c.laneBases, x) && q != x;
    assert FirstEvictable(c.order, c, w, {x}) == Some(x);
    assert Admit(c, w, {x}, i => i == 0, 0).cache == Admit(EvictKey(c, x), w, {x}, i => i == 0, 1).cache;
  }

  /** A key that may be evicted and comes before none that may is among the oldest. */
  lemma {:induction false} FirstIsOldest(order: seq<Key>, c: Cache, w: Work, ready: set<Key>, x: Key)
    requires ByUse(order, c.lastUsed) && x in order && Evictable(c, w, ready, x)
    ensures FirstEvictable(order, c, w, ready).Some?
    ensures var v := FirstEvictable(order, c, w, ready).value;
            v in c.lastUsed && x in c.lastUsed && c.lastUsed[v] <= c.lastUsed[x]
  {
    if !Evictable(c, w, ready, order[0]) { FirstIsOldest(order[1..], c, w, ready, x); }
  }

  /** Victims go least recently used first: whatever idle index is left was used no earlier than any victim. */
  lemma {:induction false} VictimsAreOldest(c: Cache, w: Work, ready: set<Key>, over: nat -> bool, i: nat, now: nat,
                                             v: Key, x: Key)
    requires Inv(c, now)
    requires v in Admit(c, w, ready, over, i).victims
    requires x in Admit(c, w, ready, over, i).cache.order && Evictable(c, w, ready, x)
    ensures v in c.lastUsed && x in c.lastUsed && c.lastUsed[v] <= c.lastUsed[x]
    decreases |c.order|
  {
    FirstIsInOrder(c.order, c, w, ready);
    var first := FirstEvictable(c.order, c, w, ready).value;
    var t := EvictKey(c, first);
    GoneIsLeast(c.laneBases, first);
    FilterDropsOne(c.order, Outside(Gone(c.laneBases, first)), first);
    LeftoversWereThere(t, w, ready, over, i + 1, x);
    FilterMembers(c.order, Outside(Gone(c.laneBases, first)));
    FirstIsOldest(c.order, c, w, ready, x);
    if v != first {
      assert Busy(t.laneBases, w.queries) <= Busy(c.laneBases, w.queries);
      EvictKeepsInv(c, first, now);
      VictimsAreOldest(t, w, ready, over, i + 1, now, v, x);
    }
  }

  lemma {:induction false} LeftoversWereThere(c: Cache, w: Work, ready: set<Key>, over: nat -> bool, i: nat, x: Key)
    requires x in Admit(c, w, ready, over, i).cache.order
    ensures x in c.order
    decreases |c.order|
  {
    FirstIsInOrder(c.order, c, w, ready);
    if over(i) {
      match FirstEvictable(c.order, c, w, ready)
      case None =>
      case Some(v) =>
        EvictionShrinks(c, v);
        LeftoversWereThere(EvictKey(c, v), w, ready, over, i + 1, x);
        FilterMembers(c.order, Outside(Gone(c.laneBases, v)));
    }
  }

  /** The daemon's loop: it ends, and leaves the cache as the admission says. */
  method AdmitWork(cache: ResidentIndexes, w: Work, ready: set<Key>, over: nat -> bool) returns (ok: bool)
    modifies cache
    ensures cache.View() == Admit(old(cache.View()), w, ready, over, 0).cache
    ensures ok == Admit(old(cache.View()), w, ready, over, 0).ok
  {
    var i := 0;
    while over(i)
      invariant Admit(cache.View(), w, ready, over, i).cache == Admit(old(cache.View()), w, ready, over, 0).cache
      invariant Admit(cache.View(), w, ready, over, i).ok == Admit(old(cache.View()), w, ready, over, 0).ok
      decreases |cache.order|
    {
      var victim := FirstEvictable(cache.order, cache.View(), w, ready);
      if victim.None? { return false; }
      FirstIsInOrder(cache.order, cache.View(), w, ready);
      EvictionShrinks(cache.View(), victim.value);
      cache.Evict(victim.value);
      i := i + 1;
    }
    return true;
  }

  // ---- reachable caches admission is not safe for ------------------------------------------------

  lemma OneOverlay() returns (events: seq<Timed>)
    ensures Run(events, 1) == Cache([3, 2], map[3 := 0, 2 := 1], map[3 := 0, 2 := 0], map[2 := 3], 2) && Clock(events) == 0
  {
    var a := [Timed(Exact(3), 0)];
    events := [Timed(Exact(3), 0), Timed(Overlay(2, 3, false), 0)];
    assert a[..0] == [] && events[..1] == a;
    assert Run(a, 1) == Cache([3], map[3 := 0], map[3 := 0], map[], 1);
  }

  /** A base, an overlay on it, and an overlay on that one. */
  lemma OverlayOnOverlay() returns (events: seq<Timed>)
    ensures var c := Run(events, 1);
            c.order == [3, 2, 1] && c.laneBases == map[2 := 3, 1 := 2] && c.tasks.Keys == {1, 2, 3} && Listed(c)
  {
    var before := OneOverlay();
    events := before + [Timed(Overlay(1, 2, false), 0)];
    assert events[..|before|] == before;
    assert Run(events, 1) == GetOverlay(Run(before, 1), 1, 2, false, 0);
  }

  /** There a query of the upper overlay loses its index: the lowest base is idle, and its eviction takes both along. */
  lemma DeepOverlayCanBeEvicted() returns (events: seq<Timed>)
    ensures var c := Run(events, 1);
            1 in c.tasks && 1 !in Admit(c, Work(None, {}, {1}), {3}, i => i == 0, 0).cache.tasks
  {
    events := OverlayOnOverlay();
    var c := Run(events, 1);
    assert 3 in Chain(c.laneBases, 1) by { assert (c.laneBases - {1})[2] == 3 && 3 in Chain(c.laneBases - {1} - {2}, 3); }
    IdleBaseTakesTheQuery(c, Work(None, {}, {1}), 1, 3);
  }

  /** An overlay being rebuilt, or kept, is not safe either: only queries protect the base they read through. */
  lemma RebuildingOverlayCanBeEvicted() returns (events: seq<Timed>)
    ensures var c := Run(events, 1);
            2 in c.tasks && 2 !in Admit(c, Work(Some(2), {2}, {}), {3}, i => i == 0, 0).cache.tasks
  {
    events := OverlayOnOverlay();
    var c := Run(events, 1);
    var w := Work(Some(2), {2}, {});
    FirstIsInOrder(c.order, c, w, {3});
    GoneIsLeast(c.laneBases, 3);
    EvictionShrinks(c, 3);
    assert c.laneBases[2] == 3 && 2 in Gone(c.laneBases, 3);
    assert Admit(c, w, {3}, i => i == 0, 0).cache == Admit(EvictKey(c, 3), w, {3}, i => i == 0, 1).cache;
  }
}
