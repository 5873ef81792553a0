/** What the logic classes of a whole run are, said of bodies, similarities and single edits alone (dedup/detect.py,
    logic_classes). */
module LogicReported {
  import opened Lists
  import opened Options
  import opened EditDistance
  import opened DedupModel
  import opened UnionFind
  import opened LogicClones
  import opened LogicGroups
  import opened CopiesReported

  /** The one body's row lists the other at the threshold or above. */
  ghost predicate Near(s: Space, x: nat, y: nat) {
    x < |s.rows| && exists k :: 0 <= k < |s.rows[x]| && s.rows[x][k].0 == y && s.rows[x][k].1 >= s.threshold
  }

  /** Two bodies one of which is near the other, and alike in structure. */
  ghost predicate Related(candidates: seq<Unit>, s: Space, p: Pair) {
    p.0 < p.1 < |candidates| && (Near(s, p.0, p.1) || Near(s, p.1, p.0)) && Alike(candidates[p.0], candidates[p.1])
  }

  ghost function RelatedPairs(candidates: seq<Unit>, s: Space): set<Pair> {
    set x: nat, y: nat | x < |candidates| && y < |candidates| && Related(candidates, s, (x, y)) :: (x, y)
  }

  // ---- the accepted pairs --------------------------------------------------------------------

  lemma CandidateIsNear(s: Space, p: Pair)
    requires ValidSpace(s, |s.rows|)
    ensures Candidate(s, p) <==> p.0 < p.1 && (Near(s, p.0, p.1) || Near(s, p.1, p.0))
  {
    if a: Spot :| IsSpot(s, p, a) { assert s.rows[a.0][a.1].0 != a.0; }
    if p.0 < p.1 && Near(s, p.0, p.1) {
      var k :| 0 <= k < |s.rows[p.0]| && s.rows[p.0][k].0 == p.1 && s.rows[p.0][k].1 >= s.threshold;
      assert IsSpot(s, p, (p.0, k));
    }
    if p.0 < p.1 && Near(s, p.1, p.0) {
      var k :| 0 <= k < |s.rows[p.1]| && s.rows[p.1][k].0 == p.0 && s.rows[p.1][k].1 >= s.threshold;
      assert IsSpot(s, p, (p.1, k));
    }
  }

  lemma YieldedIsCandidate(s: Space, p: Pair)
    ensures p in Discovery(s, 0, 0) <==> Candidate(s, p)
  {
    DiscoveryMembers(s, 0, 0, p);
    if Candidate(s, p) {
      var a :| IsSpot(s, p, a);
      var first := FirstExists(s, p, a);
      assert !SpotBefore(first, (0, 0));
    }
  }

  lemma AcceptedAreRelated(candidates: seq<Unit>, s: Space)
    requires ValidSpace(s, |candidates|)
    ensures PairsOf(WholeReasons(candidates, s)) == RelatedPairs(candidates, s)
  {
    var pairs := Discovery(s, 0, 0);
    forall p | p in pairs ensures p.0 < p.1 < |candidates| { DiscoveryInRange(s, p); }
    AcceptedArePairs(candidates, pairs);
    forall p: Pair ensures p in PairsOf(WholeReasons(candidates, s)) <==> p in RelatedPairs(candidates, s) {
      YieldedIsCandidate(s, p);
      CandidateIsNear(s, p);
      if p.0 < |candidates| && p.1 < |candidates| { AcceptedAreAlike(candidates[p.0], candidates[p.1]); }
    }
  }

  // ---- the groups ----------------------------------------------------------------------------

  /** The bodies connected to one of them by related pairs, in increasing order, at least two. */
  ghost predicate Component(candidates: seq<Unit>, s: Space, b: seq<nat>) {
    && |b| >= 2 && (forall i, j :: 0 <= i < j < |b| ==> b[i] < b[j])
    && forall y: nat :: y in b <==> y < |candidates| && Connected(RelatedPairs(candidates, s), b[0], y)
  }

  ghost predicate Increasing(nodes: seq<nat>) { forall i, j :: 0 <= i < j < |nodes| ==> nodes[i] < nodes[j] }

  function Less(): (nat, nat) -> bool { (x: nat, y: nat) => x < y }

  function TwoOrMore(): seq<nat> -> bool { (b: seq<nat>) => |b| >= 2 }

  ghost function Components(candidates: seq<Unit>, s: Space): seq<seq<nat>>
    requires ValidSpace(s, |candidates|)
  {
    Filter(Groups(Range(|candidates|), WholeReasons(candidates, s)), TwoOrMore())
  }

  lemma GroupIsComponent(candidates: seq<Unit>, s: Space, b: seq<nat>)
    requires ValidSpace(s, |candidates|) && b in Components(candidates, s)
    ensures Component(candidates, s, b)
  {
    var nodes, pairs := Range(|candidates|), PairsOf(WholeReasons(candidates, s));
    AcceptedAreRelated(candidates, s);
    FilterMembers(Groups(nodes, WholeReasons(candidates, s)), TwoOrMore());
    JoinedIsEquivalence(pairs);
    BucketMembers(nodes, Joined(pairs), b);
    BucketIncreases(nodes, Joined(pairs), b);
    forall y: nat ensures y in b <==> y < |candidates| && Connected(RelatedPairs(candidates, s), b[0], y) {
      assert y in b <==> y in nodes && Joined(pairs)(b[0], y);
    }
  }

  lemma BucketIncreases(nodes: seq<nat>, same: (nat, nat) -> bool, b: seq<nat>)
    requires Equivalence(same) && Increasing(nodes) && b in Buckets(nodes, same)
    ensures Increasing(b)
  {
    BucketMembers(nodes, same, b);
    var alike := (y: nat) => same(b[0], y);
    BucketIsClass(nodes, same, b, alike);
    FilterIncreasing(nodes, alike);
  }

  /** Two connected bodies are in a group. */
  lemma ConnectedAreGrouped(candidates: seq<Unit>, s: Space, x: nat, y: nat) returns (b: seq<nat>)
    requires ValidSpace(s, |candidates|) && x < |candidates| && y < |candidates| && x != y
    requires Connected(RelatedPairs(candidates, s), x, y)
    ensures b in Components(candidates, s) && x in b && y in b
  {
    var nodes, pairs := Range(|candidates|), PairsOf(WholeReasons(candidates, s));
    AcceptedAreRelated(candidates, s);
    FilterMembers(Groups(nodes, WholeReasons(candidates, s)), TwoOrMore());
    JoinedIsEquivalence(pairs);
    b := BucketHoldsBoth(nodes, Joined(pairs), x, y);
    HoldsTwo(b, x, y);
  }

  lemma HoldsTwo(b: seq<nat>, x: nat, y: nat)
    requires x in b && y in b && x != y
    ensures |b| >= 2
  {}

  // ---- the classes ---------------------------------------------------------------------------

  function Bodies(candidates: seq<Unit>, b: seq<nat>): seq<Unit>
    requires forall x :: x in b ==> x < |candidates|
  {
    seq(|b|, i requires 0 <= i < |b| => assert b[i] in b; candidates[b[i]])
  }

  /** The related pairs inside a group, as a whole run finds them. */
  ghost predicate PairsFound(candidates: seq<Unit>, s: Space, b: seq<nat>, pairs: seq<Pair>) {
    InFoundOrder(s, pairs) && forall p :: p in pairs <==> p in RelatedPairs(candidates, s) && p.0 in b && p.1 in b
  }

  /** Up to six reasons, explaining the first pairs found. */
  ghost predicate FirstReasons(candidates: seq<Unit>, reasons: seq<PairReason>, pairs: seq<Pair>) {
    && |reasons| == (if |pairs| < 6 then |pairs| else 6)
    && forall k :: 0 <= k < |reasons| ==>
         pairs[k].0 < |candidates| && pairs[k].1 < |candidates|
         && Explains(reasons[k], candidates[pairs[k].0], candidates[pairs[k].1])
  }

  ghost predicate ReportsGroup(candidates: seq<Unit>, s: Space, b: seq<nat>, c: CloneClass) {
    && (forall x :: x in b ==> x < |candidates|)
    && multiset(c.members) == multiset(Bodies(candidates, b))
    && PlainClass(c.(reasons := []), Logic)
    && exists pairs :: PairsFound(candidates, s, b, pairs) && FirstReasons(candidates, c.reasons, pairs)
  }

  lemma ClassesCons(candidates: seq<Unit>, buckets: seq<seq<nat>>, reasons: Reasons, c: CloneClass)
    requires buckets != [] && forall b :: b in buckets ==> Within(b, |candidates|)
    requires c == ClassFrom(candidates, buckets[0], reasons)
    ensures forall b :: b in buckets[1..] ==> Within(b, |candidates|)
    ensures ClassesFrom(candidates, buckets, reasons) ==
            (if |buckets[0]| < 2 then [] else [c]) + ClassesFrom(candidates, buckets[1..], reasons)
  {}

  /** The class is the group's. */
  ghost predicate IsClassOf(candidates: seq<Unit>, reasons: Reasons, b: seq<nat>, c: CloneClass) {
    Within(b, |candidates|) && c == ClassFrom(candidates, b, reasons)
  }

  ghost predicate AllClassesOf(candidates: seq<Unit>, reasons: Reasons, groups: seq<seq<nat>>, classes: seq<CloneClass>) {
    |groups| == |classes| && forall i :: 0 <= i < |groups| ==> IsClassOf(candidates, reasons, groups[i], classes[i])
  }

  lemma OneClassMore(candidates: seq<Unit>, reasons: Reasons, b: seq<nat>, c: CloneClass, groups: seq<seq<nat>>, classes: seq<CloneClass>)
    requires IsClassOf(candidates, reasons, b, c) && AllClassesOf(candidates, reasons, groups, classes)
    ensures AllClassesOf(candidates, reasons, [b] + groups, [c] + classes)
  {
    forall i | 0 <= i < |[b] + groups| ensures IsClassOf(candidates, reasons, ([b] + groups)[i], ([c] + classes)[i]) {
      if i > 0 { assert IsClassOf(candidates, reasons, groups[i - 1], classes[i - 1]); }
    }
  }

  lemma {:induction false} ClassesAreFiltered(candidates: seq<Unit>, buckets: seq<seq<nat>>, reasons: Reasons)
    requires forall b :: b in buckets ==> Within(b, |candidates|)
    ensures AllClassesOf(candidates, reasons, Filter(buckets, TwoOrMore()), ClassesFrom(candidates, buckets, reasons))
  {
    if buckets != [] {
      assert buckets[0] in buckets;
      var c := ClassFrom(candidates, buckets[0], reasons);
      ClassesCons(candidates, buckets, reasons, c);
      ClassesAreFiltered(candidates, buckets[1..], reasons);
      if |buckets[0]| >= 2 {
        OneClassMore(candidates, reasons, buckets[0], c, Filter(buckets[1..], TwoOrMore()), ClassesFrom(candidates, buckets[1..], reasons));
      }
    }
  }

  ghost function InsideOf(candidates: seq<Unit>, b: seq<nat>): Pair -> bool {
    (p: Pair) => p.0 < |candidates| && p.1 < |candidates| && p.0 in b && p.1 in b
                 && Judged(candidates[p.0], candidates[p.1]).Some?
  }

  /** The reasons chosen for a group are those of the accepted pairs inside it, in order. */
  lemma {:induction false} ReasonsOfPairs(candidates: seq<Unit>, pairs: seq<Pair>, b: seq<nat>)
    requires forall p :: p in pairs ==> p.0 < |candidates| && p.1 < |candidates|
    ensures var inside := Filter<Pair>(pairs, InsideOf(candidates, b));
            var chosen := ReasonsInside(AcceptedReasons(candidates, pairs), b);
            |chosen| == |inside| && forall k :: 0 <= k < |chosen| ==>
              inside[k].0 < |candidates| && inside[k].1 < |candidates|
              && Judged(candidates[inside[k].0], candidates[inside[k].1]) == Some(chosen[k])
  {
    if pairs != [] {
      var p, rest := pairs[0], AcceptedReasons(candidates, pairs[1..]);
      ReasonsOfPairs(candidates, pairs[1..], b);
      assert p in pairs;
      var reason := Judged(candidates[p.0], candidates[p.1]);
      if reason.Some? {
        assert AcceptedReasons(candidates, pairs) == [(p, reason.value)] + rest;
        assert AcceptedReasons(candidates, pairs)[1..] == rest;
      } else {
        assert AcceptedReasons(candidates, pairs) == rest;
      }
    }
  }

  lemma ClassReportsGroup(candidates: seq<Unit>, s: Space, b: seq<nat>)
    requires ValidSpace(s, |candidates|) && Within(b, |candidates|)
    ensures ReportsGroup(candidates, s, b, ClassFrom(candidates, b, WholeReasons(candidates, s)))
  {
    var c := ClassFrom(candidates, b, WholeReasons(candidates, s));
    var members := Map(i requires 0 <= i < |candidates| => candidates[i], b);
    assert members == Bodies(candidates, b);
    MinTokensIsLeast(CloneOf(Logic, members, c.reasons).members);
    assert c == CloneOf(Logic, members, c.reasons);
    InsideAreRelated(candidates, s, b);
    ReasonsAreFirst(candidates, s, b);
  }

  lemma ReasonsAreFirst(candidates: seq<Unit>, s: Space, b: seq<nat>)
    requires ValidSpace(s, |candidates|) && Within(b, |candidates|)
    ensures FirstReasons(candidates, ClassFrom(candidates, b, WholeReasons(candidates, s)).reasons,
                         Filter<Pair>(Discovery(s, 0, 0), InsideOf(candidates, b)))
  {
    var pairs := Discovery(s, 0, 0);
    var inside := Filter<Pair>(pairs, InsideOf(candidates, b));
    forall p | p in pairs ensures p.0 < p.1 < |candidates| { DiscoveryInRange(s, p); }
    ReasonsOfPairs(candidates, pairs, b);
    forall k | 0 <= k < |inside|
      ensures Explains(ReasonsInside(AcceptedReasons(candidates, pairs), b)[k], candidates[inside[k].0], candidates[inside[k].1])
    {
      AcceptedAreAlike(candidates[inside[k].0], candidates[inside[k].1]);
    }
  }

  lemma InsideAreRelated(candidates: seq<Unit>, s: Space, b: seq<nat>)
    requires ValidSpace(s, |candidates|)
    ensures PairsFound(candidates, s, b, Filter<Pair>(Discovery(s, 0, 0), InsideOf(candidates, b)))
  {
    var pairs := Discovery(s, 0, 0);
    DiscoveryOrdered(s, 0, 0);
    FoundOrderFilter(s, pairs, InsideOf(candidates, b));
    FilterMembers(pairs, InsideOf(candidates, b));
    forall p: Pair ensures p in pairs && InsideOf(candidates, b)(p) <==>
                           p in RelatedPairs(candidates, s) && p.0 in b && p.1 in b {
      InsideIsRelated(candidates, s, b, p);
    }
  }

  lemma InsideIsRelated(candidates: seq<Unit>, s: Space, b: seq<nat>, p: Pair)
    requires ValidSpace(s, |candidates|)
    ensures p in Discovery(s, 0, 0) && InsideOf(candidates, b)(p) <==>
            p in RelatedPairs(candidates, s) && p.0 in b && p.1 in b
  {
    YieldedIsCandidate(s, p);
    CandidateIsNear(s, p);
    if p.0 < |candidates| && p.1 < |candidates| { AcceptedAreAlike(candidates[p.0], candidates[p.1]); }
    if p in Discovery(s, 0, 0) { DiscoveryInRange(s, p); }
  }

  lemma ComponentsAreGroups(candidates: seq<Unit>, s: Space)
    requires ValidSpace(s, |candidates|)
    ensures Pairwise(Components(candidates, s), HeadsRelated(Less()))
    ensures |candidates| >= 2 ==>
              AllClassesOf(candidates, WholeReasons(candidates, s), Components(candidates, s), WholeLogicClasses(candidates, s))
  {
    var nodes, reasons := Range(|candidates|), WholeReasons(candidates, s);
    GroupsWithin(nodes, reasons, |candidates|);
    ClassesAreFiltered(candidates, Groups(nodes, reasons), reasons);
    JoinedIsEquivalence(PairsOf(reasons));
    BucketHeadsInOrder(nodes, Joined(PairsOf(reasons)), Less());
    PairwiseFilter(Groups(nodes, reasons), TwoOrMore(), HeadsRelated(Less()));
  }

  ghost predicate Together(groups: seq<seq<nat>>, x: nat, y: nat) {
    exists i :: 0 <= i < |groups| && x in groups[i] && y in groups[i]
  }

  /** The logic classes of a whole run: one for every group of two or more bodies connected by pairs of which one is near the
      other and both are alike, in the order of the groups' first bodies; each holds its group's bodies and up to six
      reasons, explaining the first related pairs found in it. */
  lemma LogicClassesAreComponents(candidates: seq<Unit>, s: Space) returns (groups: seq<seq<nat>>)
    requires ValidSpace(s, |candidates|)
    ensures |groups| == |WholeLogicClasses(candidates, s)|
    ensures forall i :: 0 <= i < |groups| ==> Component(candidates, s, groups[i])
    ensures forall i :: 0 <= i < |groups| ==> ReportsGroup(candidates, s, groups[i], WholeLogicClasses(candidates, s)[i])
    ensures forall i, j :: 0 <= i < j < |groups| ==> groups[i] != [] && groups[j] != [] && groups[i][0] < groups[j][0]
    ensures forall x: nat, y: nat :: x < |candidates| && y < |candidates| && x != y ==>
              Connected(RelatedPairs(candidates, s), x, y) ==> Together(groups, x, y)
  {
    if |candidates| < 2 {
      groups := [];
    } else {
      groups := Components(candidates, s);
      ComponentsAreGroups(candidates, s);
      forall i | 0 <= i < |groups|
        ensures Component(candidates, s, groups[i]) && ReportsGroup(candidates, s, groups[i], WholeLogicClasses(candidates, s)[i])
      {
        assert groups[i] in groups;
        assert IsClassOf(candidates, WholeReasons(candidates, s), groups[i], WholeLogicClasses(candidates, s)[i]);
        GroupIsComponent(candidates, s, groups[i]);
        ClassReportsGroup(candidates, s, groups[i]);
      }
      forall i, j | 0 <= i < j < |groups| ensures groups[i] != [] && groups[j] != [] && groups[i][0] < groups[j][0] {
        assert HeadsRelated(Less())(groups[i], groups[j]);
      }
      forall x: nat, y: nat | x < |candidates| && y < |candidates| && x != y && Connected(RelatedPairs(candidates, s), x, y)
        ensures Together(groups, x, y)
      {
        var b := ConnectedAreGrouped(candidates, s, x, y);
        var i :| 0 <= i < |groups| && groups[i] == b;
      }
    }
  }
}
