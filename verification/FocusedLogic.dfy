/** The focused logic run: a walk outward from the focus bodies (dedup/detect.py, _FocusedNeighbours). */
module FocusedLogic {
  import opened Lists
  import opened Options
  import opened DedupModel
  import opened UnionFind
  import opened LogicClones
  import opened LogicGroups

  /** The other body stands in the holder's row, at the threshold or above. */
  ghost predicate Offered(s: Space, holder: nat, other: nat)
    requires holder < |s.rows|
  {
    exists k :: 0 <= k < |s.rows[holder]| && s.rows[holder][k].0 == other && s.rows[holder][k].1 >= s.threshold
  }

  lemma OfferedIsCandidate(s: Space, holder: nat, other: nat)
    requires holder < |s.rows| && holder != other && Offered(s, holder, other)
    ensures Candidate(s, PairOf(holder, other))
  {
    var k :| 0 <= k < |s.rows[holder]| && s.rows[holder][k].0 == other && s.rows[holder][k].1 >= s.threshold;
    assert IsSpot(s, PairOf(holder, other), (holder, k));
  }

  predicate NearLengths(candidates: seq<Unit>, x: nat, y: nat)
    requires x < |candidates| && y < |candidates|
  {
    -MAX_SKELETON_DISTANCE <= |candidates[x].skeleton| - |candidates[y].skeleton| <= MAX_SKELETON_DISTANCE
  }

  ghost predicate IsNear(candidates: seq<Unit>, s: Space, x: nat, y: nat)
    requires ValidSpace(s, |candidates|) && x < |candidates|
  {
    y < |candidates| && y != x && NearLengths(candidates, y, x) && s.similar[x][y] >= s.threshold - SIMILARITY_SLACK
  }

  lemma OneMoreListed(s: seq<nat>, k: nat)
    requires k < |s|
    ensures ToSet(s[..k + 1]) == ToSet(s[..k]) + {s[k]}
  {
    assert s[..k + 1] == s[..k] + [s[k]];
  }

  /** A cache over the space: `rows` only grows, `similar` holds what the current step of the walk needs. */
  class FocusedNeighbours {
    const candidates: seq<Unit>
    const space: Space
    var rows: map<nat, Row>
    var similar: map<nat, seq<real>>

    ghost predicate Valid()
      reads this
    {
      && ValidSpace(space, |candidates|)
      && similar.Keys <= rows.Keys
      && (forall i :: i in rows ==> i < |candidates| && rows[i] == space.rows[i])
      && (forall i :: i in similar ==> i < |candidates| && similar[i] == space.similar[i])
    }

    /** Whether every one of these bodies has its neighbour row computed. */
    ghost predicate HasRows(bodies: set<nat>)
      reads this`rows
    {
      forall x :: x in bodies ==> x in rows
    }

    /** Whether every one of these bodies still has its full similarity row. */
    ghost predicate HasSimilar(bodies: set<nat>)
      reads this`similar
    {
      forall x :: x in bodies ==> x in similar
    }

    constructor (candidates: seq<Unit>, space: Space)
      requires ValidSpace(space, |candidates|)
      ensures Valid() && this.candidates == candidates && this.space == space && rows == map[] && similar == map[]
    {
      this.candidates, this.space := candidates, space;
      rows, similar := map[], map[];
    }

    /** Afterwards both caches cover the indices, and everything they covered before. */
    method Compute(indices: set<nat>)
      requires Valid() && forall i :: i in indices ==> i < |candidates|
      modifies this`rows, this`similar
      ensures Valid() && rows.Keys == old(rows.Keys) + indices && similar.Keys == old(similar.Keys) + indices
    {
      var missing := indices - similar.Keys;
      var todo := Ascending(|candidates|, missing);
      AscendingIndices(|candidates|, missing);
      for k := 0 to |todo|
        invariant Valid()
        invariant rows.Keys == old(rows.Keys) + ToSet(todo[..k])
        invariant similar.Keys == old(similar.Keys) + ToSet(todo[..k])
      {
        OneMoreListed(todo, k);
        assert todo[k] in missing;
        ComputeOne(todo[k]);
      }
      assert todo[..|todo|] == todo && ToSet(todo) == missing;
    }

    method ComputeOne(index: nat)
      requires Valid() && index < |candidates|
      modifies this`rows, this`similar
      ensures Valid() && rows.Keys == old(rows.Keys) + {index} && similar.Keys == old(similar.Keys) + {index}
    {
      rows := rows[index := space.rows[index]];
      similar := similar[index := space.similar[index]];
    }

    /** Only `similar` shrinks, to the indices. */
    method KeepOnly(indices: set<nat>)
      requires Valid()
      modifies this`similar
      ensures Valid() && similar.Keys == old(similar.Keys) * indices
    {
      similar := map i | i in similar && i in indices :: similar[i];
    }

    /** A superset of the bodies whose rows offer this one: the slack and the length bound rule out no accepted pair. */
    function Near(index: nat): (near: seq<nat>)
      requires Valid() && index in similar
      reads this
      ensures forall y: nat :: y in near <==> IsNear(candidates, space, index, y)
    {
      var row := similar[index];
      var near := (y: nat) =>
        y < |candidates| && y < |row| && row[y] >= space.threshold - SIMILARITY_SLACK
        && index < |candidates| && y != index && NearLengths(candidates, y, index);
      FilterMembers(Range(|candidates|), near);
      Filter(Range(|candidates|), near)
    }

    /** As a set, the bodies `Offered` relates this one to, itself excepted. */
    function Forward(index: nat): (offered: seq<nat>)
      requires Valid() && index in rows
      reads this
      ensures forall y :: y in offered <==> y != index && Offered(space, index, y)
    {
      var keep := (e: (nat, real)) => e.0 != index && e.1 >= space.threshold;
      FilterMembers(rows[index], keep);
      var kept := Filter(rows[index], keep);
      var others := Map((e: (nat, real)) => e.0, kept);
      assert forall y :: y in others <==> y != index && Offered(space, index, y) by {
        forall y | y in others ensures y != index && Offered(space, index, y) {
          var k :| 0 <= k < |others| && others[k] == y;
          assert kept[k] in rows[index];
        }
        forall y | y != index && Offered(space, index, y) ensures y in others {
          var k :| 0 <= k < |rows[index]| && rows[index][k].0 == y && rows[index][k].1 >= space.threshold;
          assert rows[index][k] in kept;
          var l :| 0 <= l < |kept| && kept[l] == rows[index][k];
          assert others[l] == y;
        }
      }
      others
    }

    /** `Offered`, read from the cached row. */
    predicate Offers(holder: nat, index: nat)
      requires Valid() && holder in rows
      reads this
      ensures Offers(holder, index) <==> Offered(space, holder, index)
    {
      exists k :: 0 <= k < |rows[holder]| && rows[holder][k].0 == index && rows[holder][k].1 >= space.threshold
    }

    /** Where one holder's row yields another body. */
    method SpotsIn(holder: nat, other: nat) returns (spots: seq<Spot>)
      requires Valid() && holder in rows && holder != other
      ensures forall a :: a in spots <==> a.0 == holder && IsSpot(space, PairOf(holder, other), a)
    {
      spots := [];
      var row := rows[holder];
      for rank := 0 to |row|
        invariant forall a :: a in spots <==> a.0 == holder && a.1 < rank && IsSpot(space, PairOf(holder, other), a)
      {
        var (neighbour, similarity) := row[rank];
        if neighbour == other && similarity >= space.threshold {
          spots := spots + [(holder, rank)];
        }
      }
    }

    /** The least spot of the pair over both holders' rows. */
    method FoundAt(left: nat, right: nat) returns (spot: Spot)
      requires Valid() && left in rows && right in rows && left < right && Candidate(space, (left, right))
      ensures IsFirst(space, (left, right), spot)
    {
      var one := SpotsIn(left, right);
      var other := SpotsIn(right, left);
      var spots := one + other;
      assert forall a :: a in spots <==> IsSpot(space, (left, right), a);
      ghost var some :| IsSpot(space, (left, right), some);
      assert some in spots;
      spot := LeastSpot(spots);
    }
  }

  method LeastSpot(spots: seq<Spot>) returns (least: Spot)
    requires spots != []
    ensures least in spots && forall a :: a in spots ==> !SpotBefore(a, least)
  {
    least := spots[0];
    for k := 1 to |spots|
      invariant least in spots && forall j :: 0 <= j < k ==> !SpotBefore(spots[j], least)
    {
      if SpotBefore(spots[k], least) { least := spots[k]; }
    }
  }

  // ---- the walk ------------------------------------------------------------

  /** The accepted pairs of a whole run. */
  ghost function AcceptedPairs(candidates: seq<Unit>, s: Space): set<Pair>
    requires ValidSpace(s, |candidates|)
  {
    PairsOf(WholeReasons(candidates, s))
  }

  ghost predicate Judges(candidates: seq<Unit>, x: nat, y: nat) {
    var p := PairOf(x, y);
    p.0 < |candidates| && p.1 < |candidates| && Judged(candidates[p.0], candidates[p.1]).Some?
  }

  /** A pair is accepted when either row offers the other body and the structural check passes. */
  lemma AcceptedAre(candidates: seq<Unit>, s: Space, x: nat, y: nat)
    requires ValidSpace(s, |candidates|) && x < |candidates| && y < |candidates|
    ensures PairOf(x, y) in AcceptedPairs(candidates, s) <==> Candidate(s, PairOf(x, y)) && Judges(candidates, x, y)
  {
    var p := PairOf(x, y);
    DiscoveryMembers(s, 0, 0, p);
    forall q | q in Discovery(s, 0, 0) ensures q.0 < q.1 < |s.rows| { DiscoveryInRange(s, q); }
    AcceptedArePairs(candidates, Discovery(s, 0, 0));
    if Candidate(s, p) {
      var a :| IsSpot(s, p, a);
      var first := FirstExists(s, p, a);
    }
  }

  lemma AcceptedInRange(candidates: seq<Unit>, s: Space, p: Pair)
    requires ValidSpace(s, |candidates|) && p in AcceptedPairs(candidates, s)
    ensures p.0 < p.1 < |candidates| && p == PairOf(p.0, p.1)
  {
    forall q | q in Discovery(s, 0, 0) ensures q.0 < q.1 < |s.rows| { DiscoveryInRange(s, q); }
    AcceptedArePairs(candidates, Discovery(s, 0, 0));
  }

  /** Judge the bodies one walked body's row offers, keeping the accepted pairs. */
  method JudgeOffered(candidates: seq<Unit>, index: nat, offered: seq<nat>) returns (found: set<Pair>)
    requires index < |candidates| && forall y :: y in offered ==> y < |candidates|
    ensures forall p: Pair :: p in found <==>
              exists y :: y in offered && p == PairOf(index, y) && Judges(candidates, index, y)
  {
    found := {};
    for k := 0 to |offered|
      invariant forall p: Pair :: p in found <==>
        exists y :: y in offered[..k] && p == PairOf(index, y) && Judges(candidates, index, y)
    {
      var p := PairOf(index, offered[k]);
      assert offered[k] in offered;
      var reason := Accepted(candidates[p.0], candidates[p.1]);
      assert offered[..k + 1] == offered[..k] + [offered[k]];
      if reason.Some? { found := found + {p}; }
    }
    assert offered[..|offered|] == offered;
  }

  /** The near bodies whose own row must still be asked. */
  method JudgeNear(candidates: seq<Unit>, index: nat, near: seq<nat>, offered: seq<nat>)
    returns (pending: seq<(nat, nat)>)
    requires index < |candidates| && forall y :: y in near ==> y < |candidates|
    ensures forall e :: e in pending <==>
              e.0 == index && e.1 in near && e.1 !in offered && Judges(candidates, index, e.1)
  {
    pending := [];
    for k := 0 to |near|
      invariant forall e :: e in pending <==>
        e.0 == index && e.1 in near[..k] && e.1 !in offered && Judges(candidates, index, e.1)
    {
      assert near[k] in near && near[..k + 1] == near[..k] + [near[k]];
      if near[k] !in offered {
        var p := PairOf(index, near[k]);
        var reason := Accepted(candidates[p.0], candidates[p.1]);
        if reason.Some? { pending := pending + [(index, near[k])]; }
      }
    }
    assert near[..|near|] == near;
  }

  /** What one step owes each body it walks: its accepted pairs found outright, or still to be confirmed. */
  ghost predicate Gathered(
      candidates: seq<Unit>, s: Space, x: nat, found: set<Pair>, pending: seq<(nat, nat)>)
    requires ValidSpace(s, |candidates|)
  {
    && x < |candidates|
    && (forall y: nat :: y != x && Offered(s, x, y) && Judges(candidates, x, y) ==> PairOf(x, y) in found)
    && (forall y: nat :: IsNear(candidates, s, x, y) && !Offered(s, x, y) && Judges(candidates, x, y) ==>
          (x, y) in pending)
  }

  ghost predicate Sound(
      candidates: seq<Unit>, s: Space, frontier: set<nat>, found: set<Pair>, pending: seq<(nat, nat)>)
    requires ValidSpace(s, |candidates|)
  {
    && (forall p :: p in found ==> p in AcceptedPairs(candidates, s) && (p.0 in frontier || p.1 in frontier))
    && (forall e :: e in pending ==>
          e.0 in frontier && e.0 < |candidates| && e.1 < |candidates| && e.0 != e.1 && Judges(candidates, e.0, e.1))
  }

  lemma OfferedIsAccepted(candidates: seq<Unit>, s: Space, x: nat, y: nat)
    requires ValidSpace(s, |candidates|) && x < |candidates| && y < |candidates| && x != y
    requires (Offered(s, x, y) || Offered(s, y, x)) && Judges(candidates, x, y)
    ensures PairOf(x, y) in AcceptedPairs(candidates, s)
  {
    if Offered(s, x, y) { OfferedIsCandidate(s, x, y); } else { OfferedIsCandidate(s, y, x); }
    AcceptedAre(candidates, s, x, y);
  }

  /** Walk every body of the frontier: accepted forward pairs, and the pairs to confirm from the other side. */
  method Gather(candidates: seq<Unit>, space: FocusedNeighbours, frontier: seq<nat>)
    returns (found: set<Pair>, pending: seq<(nat, nat)>)
    requires space.Valid() && space.candidates == candidates
    requires forall x :: x in frontier ==> x in space.rows && x in space.similar
    ensures Sound(candidates, space.space, ToSet(frontier), found, pending)
    ensures forall x :: x in frontier ==> Gathered(candidates, space.space, x, found, pending)
  {
    found, pending := {}, [];
    ghost var s := space.space;
    for k := 0 to |frontier|
      invariant Sound(candidates, s, ToSet(frontier), found, pending)
      invariant forall x :: x in frontier[..k] ==> Gathered(candidates, s, x, found, pending)
    {
      var index := frontier[k];
      assert index in frontier && frontier[..k + 1] == frontier[..k] + [index];
      var offered := space.Forward(index);
      forall y | y in offered ensures y < |candidates| { assert Offered(s, index, y); }
      var more := JudgeOffered(candidates, index, offered);
      var asked := JudgeNear(candidates, index, space.Near(index), offered);
      forall p | p in more ensures p in AcceptedPairs(candidates, s) && (p.0 == index || p.1 == index) {
        var y :| y in offered && p == PairOf(index, y) && Judges(candidates, index, y);
        OfferedIsAccepted(candidates, s, index, y);
      }
      found := found + more;
      pending := pending + asked;
    }
    assert frontier[..|frontier|] == frontier;
  }

  /** Keep the pending pairs whose other side's own row offers them. */
  method Confirm(candidates: seq<Unit>, space: FocusedNeighbours, pending: seq<(nat, nat)>)
    returns (confirmed: set<Pair>)
    requires space.Valid() && forall e :: e in pending ==> e.1 in space.rows
    ensures forall p: Pair :: p in confirmed <==>
              exists e :: e in pending && p == PairOf(e.0, e.1) && Offered(space.space, e.1, e.0)
  {
    confirmed := {};
    for k := 0 to |pending|
      invariant forall p: Pair :: p in confirmed <==>
        exists e :: e in pending[..k] && p == PairOf(e.0, e.1) && e.1 < |space.space.rows| && Offered(space.space, e.1, e.0)
    {
      var (index, other) := pending[k];
      assert pending[k] in pending && pending[..k + 1] == pending[..k] + [pending[k]];
      if space.Offers(other, index) { confirmed := confirmed + {PairOf(index, other)}; }
    }
    assert pending[..|pending|] == pending;
  }

  ghost function Incident(pairs: set<Pair>, bodies: set<nat>): set<Pair> {
    set p | p in pairs && (p.0 in bodies || p.1 in bodies)
  }

  /** Forward rows plus confirmed reverse rows find exactly the accepted pairs of the walked bodies. */
  lemma StepFindsIncident(
      candidates: seq<Unit>, s: Space, frontier: set<nat>, found: set<Pair>, pending: seq<(nat, nat)>,
      confirmed: set<Pair>)
    requires ValidSpace(s, |candidates|) && SymmetricWithinSlack(s, |candidates|)
    requires forall x :: x in frontier ==> x < |candidates|
    requires Sound(candidates, s, frontier, found, pending)
    requires forall x :: x in frontier ==> Gathered(candidates, s, x, found, pending)
    requires forall p: Pair :: p in confirmed <==>
               exists e :: e in pending && p == PairOf(e.0, e.1) && Offered(s, e.1, e.0)
    ensures found + confirmed == Incident(AcceptedPairs(candidates, s), frontier)
  {
    var acc := AcceptedPairs(candidates, s);
    forall p | p in confirmed ensures p in Incident(acc, frontier) {
      var e :| e in pending && p == PairOf(e.0, e.1) && Offered(s, e.1, e.0);
      OfferedIsAccepted(candidates, s, e.0, e.1);
    }
    forall p | p in Incident(acc, frontier) ensures p in found + confirmed {
      AcceptedInRange(candidates, s, p);
      var x, y := if p.0 in frontier then p.0 else p.1, if p.0 in frontier then p.1 else p.0;
      AcceptedPairIsFound(candidates, s, x, y, found, pending);
      if (x, y) in pending && Offered(s, y, x) { assert p == PairOf((x, y).0, (x, y).1); }
    }
  }

  lemma AcceptedPairIsFound(
      candidates: seq<Unit>, s: Space, x: nat, y: nat, found: set<Pair>, pending: seq<(nat, nat)>)
    requires ValidSpace(s, |candidates|) && SymmetricWithinSlack(s, |candidates|)
    requires x < |candidates| && y < |candidates| && PairOf(x, y) in AcceptedPairs(candidates, s)
    requires Gathered(candidates, s, x, found, pending)
    ensures PairOf(x, y) in found || ((x, y) in pending && Offered(s, y, x))
  {
    AcceptedAre(candidates, s, x, y);
    if !Offered(s, x, y) {
      var k :| 0 <= k < |s.rows[y]| && s.rows[y][k].0 == x && s.rows[y][k].1 >= s.threshold;
      var p := PairOf(x, y);
      AcceptedPairsHaveNearLengths(candidates[p.0], candidates[p.1]);
      assert IsNear(candidates, s, x, y);
    }
  }

  /** Every body a set of pairs names. */
  function Ends(pairs: set<Pair>): set<nat> { (set p | p in pairs :: p.0) + (set p | p in pairs :: p.1) }

  /** Confirming pending pairs adds no body whose rows were not computed already. */
  lemma ConfirmedEnds(s: Space, frontier: set<nat>, found: set<Pair>, pending: seq<(nat, nat)>, confirmed: set<Pair>)
    requires forall e :: e in pending ==> e.0 in frontier && e.1 < |s.rows|
    requires forall p: Pair :: p in confirmed <==>
               exists e :: e in pending && p == PairOf(e.0, e.1) && Offered(s, e.1, e.0)
    ensures Ends(found + confirmed) <= frontier + Ends(found) + set e | e in pending :: e.1
  {}

  /** One walk step: every accepted pair with a body of the frontier. */
  method Step(candidates: seq<Unit>, space: FocusedNeighbours, frontier: seq<nat>, reached: set<nat>)
    returns (found: set<Pair>)
    requires space.Valid() && space.candidates == candidates && SymmetricWithinSlack(space.space, |candidates|)
    requires forall x :: x in frontier ==> x in space.similar
    requires space.HasRows(reached) && ToSet(frontier) <= reached
    modifies space
    ensures space.Valid()
    ensures found == Incident(AcceptedPairs(candidates, space.space), ToSet(frontier))
    ensures space.HasRows(reached + Ends(found))
    ensures space.HasSimilar(Ends(found) - reached)
  {
    var pending: seq<(nat, nat)>;
    found, pending := Gather(candidates, space, frontier);
    var others := set e | e in pending :: e.1;
    ghost var s := space.space;
    forall x | x in Ends(found) + others ensures x < |candidates| {
      if p :| p in found && (x == p.0 || x == p.1) { AcceptedInRange(candidates, s, p); }
    }
    space.Compute((Ends(found) + others) - reached);
    var confirmed := Confirm(candidates, space, pending);
    StepFindsIncident(candidates, s, ToSet(frontier), found, pending, confirmed);
    ConfirmedEnds(s, ToSet(frontier), found, pending, confirmed);
    found := found + confirmed;
  }

  /** Each recorded pair with the reason the structural check gives it. */
  ghost predicate Reasoned(candidates: seq<Unit>, reasons: map<Pair, PairReason>) {
    forall p :: p in reasons ==> HasReason(candidates, p, reasons[p])
  }

  ghost predicate HasReason(candidates: seq<Unit>, p: Pair, reason: PairReason) {
    p.0 < |candidates| && p.1 < |candidates| && Judged(candidates[p.0], candidates[p.1]) == Some(reason)
  }

  method ReasonOf(candidates: seq<Unit>, p: Pair) returns (reason: PairReason)
    requires p.0 <= p.1 && Judges(candidates, p.0, p.1)
    ensures HasReason(candidates, p, reason)
  {
    var judged := Accepted(candidates[p.0], candidates[p.1]);
    reason := judged.value;
  }

  /** The reason of each found pair, added to those the walk already holds. */
  method Record(candidates: seq<Unit>, found: set<Pair>, reasons: map<Pair, PairReason>)
    returns (more: map<Pair, PairReason>)
    requires forall p :: p in found ==> p.0 <= p.1 && Judges(candidates, p.0, p.1)
    requires Reasoned(candidates, reasons)
    ensures more.Keys == reasons.Keys + found && Reasoned(candidates, more)
  {
    more := reasons;
    var todo := found;
    while todo != {}
      invariant todo <= found
      invariant forall p :: p in more <==> p in reasons || (p in found && p !in todo)
      invariant Reasoned(candidates, more)
      decreases todo
    {
      var p :| p in todo;
      var reason := ReasonOf(candidates, p);
      more := more[p := reason];
      todo := todo - {p};
    }
    assert more.Keys == reasons.Keys + found;
  }

  /** Reached from the focus by accepted pairs. */
  ghost predicate ReachedFrom(pairs: set<Pair>, focus: set<nat>, x: nat) {
    exists f :: f in focus && Connected(pairs, f, x)
  }

  lemma StepReaches(pairs: set<Pair>, focus: set<nat>, x: nat, y: nat)
    requires ReachedFrom(pairs, focus, x) && PairOf(x, y) in pairs
    ensures ReachedFrom(pairs, focus, y)
  {
    var f :| f in focus && Connected(pairs, f, x);
    assert Linked(pairs, x, y);
    ConnectedByPair(pairs, x, y);
    ConnectedTransitive(pairs, f, x, y);
  }

  /** Where the walk stands: what it reached, what it has yet to walk, and the pairs of what it walked. */
  ghost predicate Walked(pairs: set<Pair>, focus: set<nat>, reached: set<nat>, ahead: set<nat>, found: set<Pair>) {
    && focus <= reached && ahead <= reached
    && found == Incident(pairs, reached - ahead) && Ends(found) <= reached
    && forall x :: x in reached ==> ReachedFrom(pairs, focus, x)
  }

  lemma EndsAreReached(pairs: set<Pair>, focus: set<nat>, reached: set<nat>, found: set<Pair>)
    requires forall x :: x in reached ==> ReachedFrom(pairs, focus, x)
    requires found <= Incident(pairs, reached) && forall p :: p in pairs ==> p.0 <= p.1
    ensures forall x :: x in Ends(found) ==> ReachedFrom(pairs, focus, x)
  {
    forall x | x in Ends(found) ensures ReachedFrom(pairs, focus, x) {
      var p :| p in found && (x == p.0 || x == p.1);
      var y := if x == p.0 then p.1 else p.0;
      if x !in reached {
        assert y in reached && PairOf(y, x) == p;
        StepReaches(pairs, focus, y, x);
      }
    }
  }

  lemma WalkStep(
      pairs: set<Pair>, focus: set<nat>, reached: set<nat>, ahead: set<nat>, old_: set<Pair>, found: set<Pair>)
    requires Walked(pairs, focus, reached, ahead, old_) && found == Incident(pairs, ahead)
    requires forall p :: p in pairs ==> p.0 <= p.1
    ensures Walked(pairs, focus, reached + (Ends(found) - reached), Ends(found) - reached, old_ + found)
  {
    var newly := Ends(found) - reached;
    assert (reached - ahead) + ahead == reached == (reached + newly) - newly;
    EndsAreReached(pairs, focus, reached, found);
  }

  lemma WalkStart(pairs: set<Pair>, focus: set<nat>)
    ensures Walked(pairs, focus, focus, focus, {})
  {
    forall x | x in focus ensures ReachedFrom(pairs, focus, x) { ConnectedReflexive(pairs, x); }
    assert Incident(pairs, focus - focus) == {};
  }

  /** Nothing left to walk: no accepted pair leaves the reached bodies, and those are the focus bodies' groups. */
  lemma WalkEnds(pairs: set<Pair>, focus: set<nat>, reached: set<nat>, found: set<Pair>, x: nat)
    requires Walked(pairs, focus, reached, {}, found)
    ensures x in reached <==> ReachedFrom(pairs, focus, x)
    ensures forall p :: p in pairs ==> (p.0 in reached <==> p.1 in reached)
  {
    assert reached - {} == reached;
    forall p | p in pairs ensures p.0 in reached <==> p.1 in reached {
      if p in found { assert p.0 in Ends(found) && p.1 in Ends(found); }
    }
    if ReachedFrom(pairs, focus, x) {
      var f :| f in focus && Connected(pairs, f, x);
      var path :| Path(pairs, path, f, x);
      ConnectedStays(pairs, reached, path, f, x);
    }
  }

  lemma AtMost(s: set<nat>, n: nat)
    requires forall x :: x in s ==> x < n
    ensures |s| <= n
  {
    if n == 0 {
      assert s == {};
    } else {
      AtMost(s - {n - 1}, n - 1);
    }
  }

  lemma Growth(reached: set<nat>, newly: set<nat>, n: nat)
    requires reached !! newly && forall x :: x in reached + newly ==> x < n
    ensures |reached| <= |reached + newly| <= n
    ensures newly != {} ==> |reached| < |reached + newly|
  {
    AtMost(reached + newly, n);
    assert |reached + newly| == |reached| + |newly|;
  }

  lemma AcceptedShape(candidates: seq<Unit>, s: Space)
    requires ValidSpace(s, |candidates|)
    ensures forall p :: p in AcceptedPairs(candidates, s) ==> p.0 < p.1 < |candidates| && Judges(candidates, p.0, p.1)
  {
    forall p | p in AcceptedPairs(candidates, s) ensures p.0 < p.1 < |candidates| && Judges(candidates, p.0, p.1) {
      AcceptedInRange(candidates, s, p);
      AcceptedAre(candidates, s, p.0, p.1);
    }
  }

  lemma AscendingSet(size: nat, members: set<nat>)
    requires forall x :: x in members ==> x < size
    ensures ToSet(Ascending(size, members)) == members
    ensures Ascending(size, members) == [] ==> members == {}
    ensures members == {} ==> Ascending(size, members) == []
  {
    AscendingIndices(size, members);
    var nodes := Ascending(size, members);
    if nodes != [] { assert nodes[0] in members; }
  }

  /** Walk outward from the focus bodies to the whole of their groups, with every accepted pair inside them. */
  method Walk(candidates: seq<Unit>, space: FocusedNeighbours, focus: set<nat>, ghost acc: set<Pair>)
    returns (reached: set<nat>, reasons: map<Pair, PairReason>)
    requires space.Valid() && space.candidates == candidates && SymmetricWithinSlack(space.space, |candidates|)
    requires acc == AcceptedPairs(candidates, space.space) && forall x :: x in focus ==> x < |candidates|
    modifies space
    ensures space.Valid() && space.HasRows(reached) && Reasoned(candidates, reasons)
    ensures Walked(acc, focus, reached, {}, reasons.Keys)
  {
    reached, reasons := focus, map[];
    var frontier := Start(space, focus);
    WalkStart(acc, focus);
    while frontier != []
      invariant space.Valid() && space.HasRows(reached) && Reasoned(candidates, reasons)
      invariant space.HasSimilar(ToSet(frontier))
      invariant Walked(acc, focus, reached, ToSet(frontier), reasons.Keys)
      decreases |candidates| - |reached|, |frontier|
    {
      var newly: set<nat>;
      newly, reached, reasons := Advance(candidates, space, focus, acc, frontier, reached, reasons);
      frontier := MoveOn(space, newly);
    }
    assert ToSet(frontier) == {};
  }

  /** The focus bodies in order, their rows computed. */
  method Start(space: FocusedNeighbours, focus: set<nat>) returns (frontier: seq<nat>)
    requires space.Valid() && forall x :: x in focus ==> x < |space.candidates|
    modifies space
    ensures space.Valid() && ToSet(frontier) == focus && space.HasRows(focus) && space.HasSimilar(focus)
  {
    frontier := Ascending(|space.candidates|, focus);
    AscendingSet(|space.candidates|, focus);
    space.Compute(focus);
  }

  /** Release what was walked; the next frontier is what was newly reached, in order. */
  method MoveOn(space: FocusedNeighbours, newly: set<nat>) returns (frontier: seq<nat>)
    requires space.Valid() && space.HasSimilar(newly)
    modifies space`similar
    ensures space.Valid() && ToSet(frontier) == newly && space.HasSimilar(newly)
    ensures newly == {} ==> frontier == []
  {
    space.KeepOnly(newly);
    frontier := Ascending(|space.candidates|, newly);
    AscendingSet(|space.candidates|, newly);
  }

  /** One turn of the walk: judge the frontier, record what it found, and return the bodies newly reached. */
  method Advance(
      candidates: seq<Unit>, space: FocusedNeighbours, ghost focus: set<nat>, ghost acc: set<Pair>, frontier: seq<nat>,
      reached: set<nat>, reasons: map<Pair, PairReason>)
    returns (newly: set<nat>, reached': set<nat>, more: map<Pair, PairReason>)
    requires space.Valid() && space.candidates == candidates && SymmetricWithinSlack(space.space, |candidates|)
    requires acc == AcceptedPairs(candidates, space.space)
    requires space.HasRows(reached) && Reasoned(candidates, reasons) && space.HasSimilar(ToSet(frontier))
    requires Walked(acc, focus, reached, ToSet(frontier), reasons.Keys)
    modifies space
    ensures space.Valid() && space.HasRows(reached') && Reasoned(candidates, more)
    ensures space.HasSimilar(newly)
    ensures Walked(acc, focus, reached', newly, more.Keys)
    ensures |reached| <= |reached'| <= |candidates| && (newly == {} || |reached| < |reached'|)
  {
    var found := Step(candidates, space, frontier, reached);
    AcceptedShape(candidates, space.space);
    WalkStep(acc, focus, reached, ToSet(frontier), reasons.Keys, found);
    NewlyGrows(reached, found, |candidates|);
    more := Record(candidates, found, reasons);
    newly := Ends(found) - reached;
    reached' := reached + newly;
  }

  lemma NewlyGrows(reached: set<nat>, found: set<Pair>, n: nat)
    requires forall x :: x in reached ==> x < n
    requires forall p :: p in found ==> p.0 < n && p.1 < n
    ensures var newly := Ends(found) - reached;
            |reached| <= |reached + newly| <= n && (newly == {} || |reached| < |reached + newly|)
  {
    Growth(reached, Ends(found) - reached, n);
  }
}
