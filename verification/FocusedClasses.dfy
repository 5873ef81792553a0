/** The focused logic answer is the whole run's, restricted to the groups holding a focus body (dedup/detect.py). */
module FocusedClasses {
  import opened Lists
  import opened Options
  import opened DedupModel
  import opened UnionFind
  import opened LogicClones
  import opened LogicGroups
  import opened FocusedLogic

  function Keys(reasons: Reasons): seq<Pair> { Map((r: (Pair, PairReason)) => r.0, reasons) }

  // ---- the order pairs are listed in ---------------------------------------

  ghost predicate Placed(s: Space, keys: seq<Pair>, spots: seq<Spot>) {
    && |keys| == |spots|
    && (forall i :: 0 <= i < |keys| ==> IsFirst(s, keys[i], spots[i]))
    && forall i, j :: 0 <= i < j < |keys| ==> SpotBefore(spots[i], spots[j])
  }

  lemma PlacedIsFoundOrder(s: Space, keys: seq<Pair>, spots: seq<Spot>)
    requires Placed(s, keys, spots)
    ensures InFoundOrder(s, keys)
  {}

  lemma PlacedInsert(s: Space, keys: seq<Pair>, spots: seq<Spot>, p: Pair, at: Spot, k: nat)
    requires Placed(s, keys, spots) && p !in keys && IsFirst(s, p, at)
    requires k <= |keys| && (forall i :: 0 <= i < k ==> !SpotBefore(at, spots[i])) && (k < |keys| ==> SpotBefore(at, spots[k]))
    ensures Placed(s, keys[..k] + [p] + keys[k..], spots[..k] + [at] + spots[k..])
  {
    forall i | 0 <= i < k ensures SpotBefore(spots[i], at) {
      assert keys[i] in keys && IsFirst(s, keys[i], spots[i]);
      OneSpotOnePair(s, keys[i], spots[i], p, at);
    }
    forall i | k <= i < |spots| ensures SpotBefore(at, spots[i]) {}
  }

  lemma OneSpotOnePair(s: Space, p: Pair, a: Spot, q: Pair, b: Spot)
    requires IsSpot(s, p, a) && IsSpot(s, q, b)
    ensures a == b ==> p == q
  {}

  /** Sort the pairs of a walk the way a whole run finds them. */
  method SortFound(space: FocusedNeighbours, pairs: set<Pair>) returns (keys: seq<Pair>)
    requires space.Valid() && space.HasRows(Ends(pairs))
    requires forall p :: p in pairs ==> p.0 < p.1 && Candidate(space.space, p)
    ensures InFoundOrder(space.space, keys) && forall p :: p in keys <==> p in pairs
  {
    keys := [];
    var spots: seq<Spot> := [];
    var todo := pairs;
    while todo != {}
      invariant todo <= pairs && Placed(space.space, keys, spots)
      invariant forall p :: p in keys <==> p in pairs && p !in todo
      decreases todo
    {
      var p :| p in todo;
      assert p.0 in Ends(pairs) && p.1 in Ends(pairs);
      var at := space.FoundAt(p.0, p.1);
      keys, spots := Place(space.space, keys, spots, p, at);
      todo := todo - {p};
    }
    PlacedIsFoundOrder(space.space, keys, spots);
  }

  method Place(ghost s: Space, keys: seq<Pair>, spots: seq<Spot>, p: Pair, at: Spot)
    returns (keys': seq<Pair>, spots': seq<Spot>)
    requires Placed(s, keys, spots) && p !in keys && IsFirst(s, p, at)
    ensures Placed(s, keys', spots') && forall q :: q in keys' <==> q in keys || q == p
  {
    var k := PlaceOf(spots, at);
    PlacedInsert(s, keys, spots, p, at, k);
    keys', spots' := keys[..k] + [p] + keys[k..], spots[..k] + [at] + spots[k..];
    assert keys == keys[..k] + keys[k..];
  }

  method PlaceOf(spots: seq<Spot>, at: Spot) returns (k: nat)
    ensures k <= |spots| && (forall i :: 0 <= i < k ==> !SpotBefore(at, spots[i]))
    ensures k < |spots| ==> SpotBefore(at, spots[k])
  {
    k := 0;
    while k < |spots| && !SpotBefore(at, spots[k])
      invariant k <= |spots| && forall i :: 0 <= i < k ==> !SpotBefore(at, spots[i])
    {
      k := k + 1;
    }
  }

  // ---- the classes a focused run owes ---------------------------------------

  ghost predicate HoldsFocus(b: seq<nat>, focus: set<nat>) { exists x :: x in b && x in focus }

  /** The whole run's logic classes whose group holds a focus body. */
  ghost function FocusedAnswer(candidates: seq<Unit>, focus: set<nat>, s: Space): seq<CloneClass>
    requires ValidSpace(s, |candidates|)
  {
    if |candidates| < 2 then []
    else
      var reasons := WholeReasons(candidates, s);
      var groups := Groups(Range(|candidates|), reasons);
      GroupsWithin(Range(|candidates|), reasons, |candidates|);
      FilterMembers(groups, b => HoldsFocus(b, focus));
      ClassesFrom(candidates, Filter(groups, b => HoldsFocus(b, focus)), reasons)
  }

  /** The walk's sorted pairs are the whole run's yielded pairs, those inside the reached groups. */
  lemma SortedIsYielded(candidates: seq<Unit>, s: Space, reached: set<nat>, keys: seq<Pair>)
    requires ValidSpace(s, |candidates|) && InFoundOrder(s, keys)
    requires forall p :: p in keys <==> p in Incident(AcceptedPairs(candidates, s), reached)
    ensures keys == Filter(Discovery(s, 0, 0), p => p in Incident(AcceptedPairs(candidates, s), reached))
  {
    var keep := (p: Pair) => p in Incident(AcceptedPairs(candidates, s), reached);
    var all := Discovery(s, 0, 0);
    DiscoveryOrdered(s, 0, 0);
    FoundOrderFilter(s, all, keep);
    FilterMembers(all, keep);
    forall q | q in all ensures q.0 < q.1 < |s.rows| { DiscoveryInRange(s, q); }
    AcceptedArePairs(candidates, all);
    FoundOrderIsUnique(s, keys, Filter(all, keep));
  }

  ghost predicate InRange(pairs: seq<Pair>, size: nat) { forall p :: p in pairs ==> p.0 < size && p.1 < size }

  /** Each listed pair with the reason the structural check gives it is what the structural check lists. */
  lemma {:induction false} ListedReasons(candidates: seq<Unit>, reasons: Reasons)
    requires InRange(Keys(reasons), |candidates|)
    requires forall r :: r in reasons ==> HasReason(candidates, r.0, r.1)
    ensures reasons == AcceptedReasons(candidates, Keys(reasons))
  {
    if reasons != [] {
      assert reasons[0] in reasons && Keys(reasons)[0] == reasons[0].0 && Keys(reasons)[1..] == Keys(reasons[1..]);
      assert HasReason(candidates, reasons[0].0, reasons[0].1);
      ListedReasons(candidates, reasons[1..]);
      assert reasons == [reasons[0]] + reasons[1..];
    }
  }

  /** Inside a reached group, the listed reasons are the whole run's. */
  lemma {:induction false} ReasonsInsideReached(
      candidates: seq<Unit>, pairs: seq<Pair>, keep: Pair -> bool, bucket: seq<nat>)
    requires InRange(pairs, |candidates|)
    requires forall p :: p in pairs && Judged(candidates[p.0], candidates[p.1]).Some? && p.0 in bucket && p.1 in bucket
               ==> keep(p)
    ensures InRange(Filter(pairs, keep), |candidates|)
    ensures ReasonsInside(AcceptedReasons(candidates, Filter(pairs, keep)), bucket) ==
            ReasonsInside(AcceptedReasons(candidates, pairs), bucket)
  {
    FilterMembers(pairs, keep);
    if pairs != [] {
      var p := pairs[0];
      assert p in pairs;
      ReasonsInsideReached(candidates, pairs[1..], keep, bucket);
      AcceptedHead(candidates, pairs);
      if keep(p) {
        assert Filter(pairs, keep)[1..] == Filter(pairs[1..], keep);
        AcceptedHead(candidates, Filter(pairs, keep));
      }
    }
  }

  /** How the first pair shows in the reasons, and in the reasons inside a group. */
  lemma AcceptedHead(candidates: seq<Unit>, pairs: seq<Pair>)
    requires pairs != [] && InRange(pairs, |candidates|)
    ensures pairs[0] in pairs
    ensures var p, rest := pairs[0], AcceptedReasons(candidates, pairs[1..]);
            var reason := Judged(candidates[p.0], candidates[p.1]);
            && AcceptedReasons(candidates, pairs) == (if reason.Some? then [(p, reason.value)] + rest else rest)
            && forall bucket :: ReasonsInside(AcceptedReasons(candidates, pairs), bucket) ==
                 (if reason.Some? && p.0 in bucket && p.1 in bucket then [reason.value] else [])
                 + ReasonsInside(rest, bucket)
  {}

  lemma {:induction false} ClassesUnderReasons(
      candidates: seq<Unit>, buckets: seq<seq<nat>>, one: Reasons, other: Reasons)
    requires forall b :: b in buckets ==> Within(b, |candidates|) && ReasonsInside(one, b) == ReasonsInside(other, b)
    ensures ClassesFrom(candidates, buckets, one) == ClassesFrom(candidates, buckets, other)
  {
    if buckets != [] {
      assert buckets[0] in buckets;
      ClassesUnderReasons(candidates, buckets[1..], one, other);
    }
  }

  /** Between reached bodies, the pairs inside the reached groups join exactly what all accepted pairs join. */
  lemma ConnectedWithin(pairs: set<Pair>, reached: set<nat>, x: nat, y: nat)
    requires x in reached && forall p :: p in pairs ==> (p.0 in reached <==> p.1 in reached)
    ensures Connected(Incident(pairs, reached), x, y) <==> Connected(pairs, x, y)
  {
    if Connected(pairs, x, y) {
      var path :| Path(pairs, path, x, y);
      ConnectedStays(pairs, reached, path, x, y);
      forall i | 0 <= i < |path| - 1 ensures Linked(Incident(pairs, reached), path[i], path[i + 1]) {
        assert Linked(pairs, path[i], path[i + 1]) && path[i] in reached;
      }
      assert Path(Incident(pairs, reached), path, x, y);
    }
    if Connected(Incident(pairs, reached), x, y) { ConnectedGrows(Incident(pairs, reached), pairs, x, y); }
  }

  /** The groups of the reached bodies are the whole run's groups that hold a focus body. */
  lemma ReachedGroups(size: nat, pairs: set<Pair>, focus: set<nat>, reached: set<nat>, inside: set<Pair>)
    requires inside == Incident(pairs, reached) && Walked(pairs, focus, reached, {}, inside)
    requires forall x :: x in focus || x in reached ==> x < size
    ensures Buckets(Ascending(size, reached), Joined(inside)) ==
            Filter(Buckets(Range(size), Joined(pairs)), b => HoldsFocus(b, focus))
  {
    var keep := (x: nat) => x in reached;
    forall x ensures x in reached <==> ReachedFrom(pairs, focus, x) { WalkEnds(pairs, focus, reached, inside, x); }
    InsideJoinsAlike(size, pairs, focus, reached, inside);
    GroupsHoldFocus(size, pairs, focus, keep);
    assert Ascending(size, reached) == Filter(Range(size), keep);
  }

  /** On the reached bodies, the pairs inside them and all the pairs have the same groups. */
  lemma InsideJoinsAlike(size: nat, pairs: set<Pair>, focus: set<nat>, reached: set<nat>, inside: set<Pair>)
    requires inside == Incident(pairs, reached) && Walked(pairs, focus, reached, {}, inside)
    requires forall x :: x in reached ==> x < size
    ensures Buckets(Ascending(size, reached), Joined(inside)) == Buckets(Ascending(size, reached), Joined(pairs))
  {
    WalkEnds(pairs, focus, reached, inside, 0);
    AscendingIndices(size, reached);
    forall x, y | x in Ascending(size, reached) && y in Ascending(size, reached)
      ensures Joined(inside)(x, y) <==> Joined(pairs)(x, y) {
      ConnectedWithin(pairs, reached, x, y);
    }
    BucketsSame(Ascending(size, reached), Joined(inside), Joined(pairs));
  }

  lemma GroupsHoldFocus(size: nat, pairs: set<Pair>, focus: set<nat>, keep: nat -> bool)
    requires forall x :: keep(x) <==> ReachedFrom(pairs, focus, x)
    requires forall x :: x in focus ==> x < size
    ensures Buckets(Filter(Range(size), keep), Joined(pairs)) ==
            Filter(Buckets(Range(size), Joined(pairs)), b => HoldsFocus(b, focus))
  {
    JoinedIsEquivalence(pairs);
    forall x: nat, y: nat | Joined(pairs)(x, y) ensures keep(x) <==> keep(y) {
      ReachedTogether(pairs, focus, x, y);
    }
    var groups := Buckets(Range(size), Joined(pairs));
    var heads := (b: seq<nat>) => b != [] && keep(b[0]);
    BucketsRestrict(Range(size), Joined(pairs), keep, heads);
    forall b | b in groups ensures heads(b) <==> HoldsFocus(b, focus) {
      GroupHoldsFocus(size, pairs, focus, b);
    }
    FilterSame(groups, heads, b => HoldsFocus(b, focus));
  }

  lemma ReachedTogether(pairs: set<Pair>, focus: set<nat>, x: nat, y: nat)
    requires Connected(pairs, x, y)
    ensures ReachedFrom(pairs, focus, x) <==> ReachedFrom(pairs, focus, y)
  {
    ConnectedSymmetric(pairs, x, y);
    forall f | f in focus && Connected(pairs, f, x) ensures Connected(pairs, f, y) { ConnectedTransitive(pairs, f, x, y); }
    forall f | f in focus && Connected(pairs, f, y) ensures Connected(pairs, f, x) { ConnectedTransitive(pairs, f, y, x); }
  }

  lemma GroupHoldsFocus(size: nat, pairs: set<Pair>, focus: set<nat>, b: seq<nat>)
    requires b in Buckets(Range(size), Joined(pairs)) && forall x :: x in focus ==> x < size
    ensures b != [] && (ReachedFrom(pairs, focus, b[0]) <==> HoldsFocus(b, focus))
  {
    JoinedIsEquivalence(pairs);
    BucketMembers(Range(size), Joined(pairs), b);
    if f :| f in focus && Connected(pairs, f, b[0]) {
      ConnectedSymmetric(pairs, f, b[0]);
      assert f in b;
    }
    if x :| x in b && x in focus {
      ConnectedSymmetric(pairs, b[0], x);
    }
  }

  /** A walk's sorted pairs carry, inside any reached group, the whole run's reasons in the whole run's order. */
  lemma WalkGivesReasons(
      candidates: seq<Unit>, s: Space, reached: set<nat>, keys: seq<Pair>, ordered: Reasons, bucket: seq<nat>)
    requires ValidSpace(s, |candidates|) && InFoundOrder(s, keys)
    requires forall p :: p in keys <==> p in Incident(AcceptedPairs(candidates, s), reached)
    requires Keys(ordered) == keys && forall r :: r in ordered ==> HasReason(candidates, r.0, r.1)
    requires forall x :: x in bucket ==> x in reached
    ensures ReasonsInside(ordered, bucket) == ReasonsInside(WholeReasons(candidates, s), bucket)
  {
    var all, acc := Discovery(s, 0, 0), AcceptedPairs(candidates, s);
    var keep := (p: Pair) => p in Incident(acc, reached);
    SortedIsYielded(candidates, s, reached, keys);
    forall q | q in all ensures q.0 < q.1 < |candidates| { DiscoveryInRange(s, q); }
    FilterMembers<Pair>(all, keep);
    ListedReasons(candidates, ordered);
    AcceptedArePairs(candidates, all);
    ReasonsInsideReached(candidates, all, keep, bucket);
  }

  /** A finished walk's classes are the whole run's classes holding a focus body: members, order and reasons. */
  lemma WalkGivesAnswer(
      candidates: seq<Unit>, focus: set<nat>, s: Space, reached: set<nat>, keys: seq<Pair>, ordered: Reasons)
    requires ValidSpace(s, |candidates|) && |candidates| >= 2
    requires forall x :: x in focus || x in reached ==> x < |candidates|
    requires Walked(AcceptedPairs(candidates, s), focus, reached, {}, ToSet(keys)) && InFoundOrder(s, keys)
    requires Keys(ordered) == keys && forall r :: r in ordered ==> HasReason(candidates, r.0, r.1)
    ensures forall x :: x in Ascending(|candidates|, reached) ==> x < |candidates|
    ensures LogicClassesOf(candidates, Ascending(|candidates|, reached), ordered) == FocusedAnswer(candidates, focus, s)
  {
    var whole, nodes := WholeReasons(candidates, s), Ascending(|candidates|, reached);
    assert reached - {} == reached;
    AscendingIndices(|candidates|, reached);
    KeysArePairs(ordered);
    ReachedGroups(|candidates|, PairsOf(whole), focus, reached, PairsOf(ordered));
    var groups := Groups(nodes, ordered);
    GroupsWithin(nodes, ordered, |candidates|);
    JoinedIsEquivalence(PairsOf(ordered));
    forall b | b in groups ensures ReasonsInside(ordered, b) == ReasonsInside(whole, b) {
      BucketMembers(nodes, Joined(PairsOf(ordered)), b);
      WalkGivesReasons(candidates, s, reached, keys, ordered, b);
    }
    ClassesUnderReasons(candidates, groups, ordered, whole);
  }

  lemma KeysArePairs(reasons: Reasons)
    ensures ToSet(Keys(reasons)) == PairsOf(reasons)
  {}

  /** With no focus there is nothing to hold one. */
  lemma NoFocusNoClasses(candidates: seq<Unit>, s: Space)
    requires ValidSpace(s, |candidates|)
    ensures FocusedAnswer(candidates, {}, s) == []
    ensures forall x :: !ReachedFrom(AcceptedPairs(candidates, s), {}, x)
  {
    if |candidates| >= 2 {
      var groups := Groups(Range(|candidates|), WholeReasons(candidates, s));
      FilterNone(groups, b => HoldsFocus(b, {}));
    }
  }

  /** The reasons of the sorted pairs, in their order. */
  method ReasonsInOrder(candidates: seq<Unit>, keys: seq<Pair>, reasons: map<Pair, PairReason>)
    returns (ordered: Reasons)
    requires Reasoned(candidates, reasons) && forall p :: p in keys ==> p in reasons
    ensures Keys(ordered) == keys && forall r :: r in ordered ==> HasReason(candidates, r.0, r.1)
  {
    ordered := seq(|keys|, i requires 0 <= i < |keys| => assert keys[i] in keys; (keys[i], reasons[keys[i]]));
    forall r | r in ordered ensures HasReason(candidates, r.0, r.1) {
      var i :| 0 <= i < |ordered| && ordered[i] == r;
      assert keys[i] in keys;
    }
  }

  /** The focused computation meets its specification, and its two counts are those of the reached groups. */
  method FocusedLogicClasses(candidates: seq<Unit>, focus: set<nat>, s: Space)
    returns (classes: seq<CloneClass>, pairs: nat, walked: nat, ghost reached: set<nat>)
    requires ValidSpace(s, |candidates|) && SymmetricWithinSlack(s, |candidates|)
    requires forall x :: x in focus ==> x < |candidates|
    ensures classes == FocusedAnswer(candidates, focus, s)
    ensures |candidates| >= 2 ==> forall x :: x in reached <==> ReachedFrom(AcceptedPairs(candidates, s), focus, x)
    ensures |candidates| >= 2 ==> pairs == |Incident(AcceptedPairs(candidates, s), reached)|
    ensures walked == |reached|
  {
    NoFocusNoClasses(candidates, s);
    if |candidates| < 2 || focus == {} {
      return [], 0, 0, {};
    }
    var space := new FocusedNeighbours(candidates, s);
    ghost var acc := AcceptedPairs(candidates, s);
    var found, reasons := Walk(candidates, space, focus, acc);
    classes := OrderedClasses(candidates, focus, space, found, reasons);
    pairs, walked, reached := |reasons.Keys|, |found|, found;
    WalkReaches(acc, focus, found, reasons.Keys);
  }

  /** A walk that is over has found all there is in the groups it reached. */
  lemma WalkReaches(pairs: set<Pair>, focus: set<nat>, reached: set<nat>, found: set<Pair>)
    requires Walked(pairs, focus, reached, {}, found)
    ensures found == Incident(pairs, reached) && forall x :: x in reached <==> ReachedFrom(pairs, focus, x)
  {
    assert reached - {} == reached;
    forall x ensures x in reached <==> ReachedFrom(pairs, focus, x) { WalkEnds(pairs, focus, reached, found, x); }
  }

  /** Put the walk's pairs in the order a whole run finds them and group the reached bodies. */
  method OrderedClasses(
      candidates: seq<Unit>, ghost focus: set<nat>, space: FocusedNeighbours, found: set<nat>,
      reasons: map<Pair, PairReason>)
    returns (classes: seq<CloneClass>)
    requires |candidates| >= 2 && space.Valid() && space.candidates == candidates && space.HasRows(found)
    requires Reasoned(candidates, reasons) && forall x :: x in focus ==> x < |candidates|
    requires Walked(AcceptedPairs(candidates, space.space), focus, found, {}, reasons.Keys)
    ensures classes == FocusedAnswer(candidates, focus, space.space)
  {
    WalkedPairs(candidates, space.space, focus, found, reasons.Keys);
    var ordered := SortedReasons(candidates, space, reasons);
    WalkGivesAnswer(candidates, focus, space.space, found, Keys(ordered), ordered);
    classes := LogicGroups.LogicGroups(candidates, found, ordered);
  }

  /** The walk's pairs and reasons, sorted the way a whole run finds them. */
  method SortedReasons(candidates: seq<Unit>, space: FocusedNeighbours, reasons: map<Pair, PairReason>)
    returns (ordered: Reasons)
    requires space.Valid() && space.HasRows(Ends(reasons.Keys)) && Reasoned(candidates, reasons)
    requires forall p :: p in reasons ==> p.0 < p.1 && Candidate(space.space, p)
    ensures InFoundOrder(space.space, Keys(ordered))
    ensures ToSet(Keys(ordered)) == PairsOf(ordered) == reasons.Keys
    ensures forall r :: r in ordered ==> HasReason(candidates, r.0, r.1)
  {
    var keys := SortFound(space, reasons.Keys);
    ordered := ReasonsInOrder(candidates, keys, reasons);
    KeysArePairs(ordered);
    assert ToSet(keys) == reasons.Keys;
  }

  lemma WalkedPairs(candidates: seq<Unit>, s: Space, focus: set<nat>, found: set<nat>, pairs: set<Pair>)
    requires ValidSpace(s, |candidates|) && Walked(AcceptedPairs(candidates, s), focus, found, {}, pairs)
    ensures forall p :: p in pairs ==> p.0 < p.1 && Candidate(s, p) && p.0 in found && p.1 in found
  {
    forall p | p in pairs ensures p.0 < p.1 && Candidate(s, p) && p.0 in found && p.1 in found {
      AcceptedInRange(candidates, s, p);
      AcceptedAre(candidates, s, p.0, p.1);
      assert p.0 in Ends(pairs) && p.1 in Ends(pairs);
    }
  }
}
