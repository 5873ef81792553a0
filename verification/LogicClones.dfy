/** The logic classes of a whole run: neighbour pairs, the structural check, connected groups (dedup/detect.py). */
module LogicClones {
  import opened Lists
  import opened Options
  import opened DedupModel
  import opened UnionFind

  /** One body's nearest bodies, nearest first, each with its similarity. */
  type Row = seq<(nat, real)>

  /** The neighbour rows and full similarity rows of one run's bodies. */
  datatype Space = Space(threshold: real, rows: seq<Row>, similar: seq<seq<real>>)

  const SIMILARITY_SLACK: real := 0.0001
  const MAX_REASONS := 6

  ghost predicate ValidSpace(s: Space, size: nat) {
    && |s.rows| == |s.similar| == size
    && (forall h :: 0 <= h < size ==> |s.similar[h]| == size)
    && (forall h, k :: 0 <= h < size && 0 <= k < |s.rows[h]| ==> s.rows[h][k].0 < size)
    && (forall h, k, l :: 0 <= h < size && 0 <= k < l < |s.rows[h]| ==> s.rows[h][k].0 != s.rows[h][l].0)
  }

  /** Two products of one pair round at most the slack apart. */
  ghost predicate SymmetricWithinSlack(s: Space, size: nat)
    requires ValidSpace(s, size)
  {
    forall h, k :: 0 <= h < size && 0 <= k < |s.rows[h]| ==>
      s.rows[h][k].1 - s.similar[s.rows[h][k].0][h] <= SIMILARITY_SLACK
  }

  // ---- where a pair is found -------------------------------------------

  type Spot = (nat, nat)

  predicate SpotBefore(a: Spot, b: Spot) { a.0 < b.0 || (a.0 == b.0 && a.1 < b.1) }

  function PairOf(x: nat, y: nat): Pair { if x <= y then (x, y) else (y, x) }

  /** A spot of a pair: a holder's row offers the other body at the threshold there. */
  ghost predicate IsSpot(s: Space, p: Pair, a: Spot) {
    && a.0 < |s.rows| && a.1 < |s.rows[a.0]|
    && s.rows[a.0][a.1].0 != a.0 && s.rows[a.0][a.1].1 >= s.threshold
    && p == PairOf(a.0, s.rows[a.0][a.1].0)
  }

  /** The earliest spot of a pair: the earliest query, then the neighbour's rank in it. */
  ghost predicate IsFirst(s: Space, p: Pair, a: Spot) {
    IsSpot(s, p, a) && forall b :: IsSpot(s, p, b) ==> !SpotBefore(b, a)
  }

  /** Whether either body's row offers the other at the threshold. */
  ghost predicate Candidate(s: Space, p: Pair) { exists a :: IsSpot(s, p, a) }

  lemma {:induction false} FirstExists(s: Space, p: Pair, a: Spot) returns (first: Spot)
    requires IsSpot(s, p, a)
    ensures IsFirst(s, p, first)
    decreases a.0, a.1
  {
    if b :| IsSpot(s, p, b) && SpotBefore(b, a) {
      first := FirstExists(s, p, b);
    } else {
      first := a;
    }
  }

  // ---- the pairs a whole run yields -------------------------------------

  /** The pairs from spot (h, k) on, each at its earliest spot. */
  ghost function Discovery(s: Space, h: nat, k: nat): seq<Pair>
    requires h <= |s.rows| && (h < |s.rows| ==> k <= |s.rows[h]|)
    decreases |s.rows| - h, if h < |s.rows| then |s.rows[h]| - k else 0
  {
    if h == |s.rows| then []
    else if k == |s.rows[h]| then Discovery(s, h + 1, 0)
    else
      var p := PairOf(h, s.rows[h][k].0);
      (if IsFirst(s, p, (h, k)) then [p] else []) + Discovery(s, h, k + 1)
  }

  ghost predicate FirstFrom(s: Space, p: Pair, at: Spot) { exists a :: IsFirst(s, p, a) && !SpotBefore(a, at) }

  lemma {:induction false} DiscoveryMembers(s: Space, h: nat, k: nat, p: Pair)
    requires h <= |s.rows| && (h < |s.rows| ==> k <= |s.rows[h]|)
    ensures p in Discovery(s, h, k) <==> FirstFrom(s, p, (h, k))
    decreases |s.rows| - h, if h < |s.rows| then |s.rows[h]| - k else 0
  {
    if h < |s.rows| {
      if k == |s.rows[h]| {
        DiscoveryMembers(s, h + 1, 0, p);
        forall a | IsFirst(s, p, a) ensures SpotBefore(a, (h, k)) <==> SpotBefore(a, (h + 1, 0)) {}
      } else {
        DiscoveryMembers(s, h, k + 1, p);
        forall a | IsFirst(s, p, a) ensures !SpotBefore(a, (h, k)) <==> (a == (h, k) || !SpotBefore(a, (h, k + 1))) {}
      }
    }
  }

  ghost predicate InFoundOrder(s: Space, pairs: seq<Pair>) {
    && (forall p :: p in pairs ==> Candidate(s, p))
    && forall i, j, a, b :: 0 <= i < j < |pairs| && IsFirst(s, pairs[i], a) && IsFirst(s, pairs[j], b) ==> SpotBefore(a, b)
  }

  lemma {:induction false} DiscoveryOrdered(s: Space, h: nat, k: nat)
    requires h <= |s.rows| && (h < |s.rows| ==> k <= |s.rows[h]|)
    ensures InFoundOrder(s, Discovery(s, h, k))
    decreases |s.rows| - h, if h < |s.rows| then |s.rows[h]| - k else 0
  {
    if h < |s.rows| {
      if k == |s.rows[h]| {
        DiscoveryOrdered(s, h + 1, 0);
      } else {
        DiscoveryOrdered(s, h, k + 1);
        var p, rest := PairOf(h, s.rows[h][k].0), Discovery(s, h, k + 1);
        if IsFirst(s, p, (h, k)) {
          forall j, b | 0 <= j < |rest| && IsFirst(s, rest[j], b) ensures SpotBefore((h, k), b) {
            DiscoveryMembers(s, h, k + 1, rest[j]);
          }
          FoundOrderCons(s, p, (h, k), rest);
        }
      }
    }
  }

  lemma FoundOrderCons(s: Space, p: Pair, at: Spot, rest: seq<Pair>)
    requires IsFirst(s, p, at) && InFoundOrder(s, rest)
    requires forall j, b :: 0 <= j < |rest| && IsFirst(s, rest[j], b) ==> SpotBefore(at, b)
    ensures InFoundOrder(s, [p] + rest)
  {}

  lemma FoundOrderTail(s: Space, pairs: seq<Pair>)
    requires InFoundOrder(s, pairs) && pairs != []
    ensures InFoundOrder(s, pairs[1..]) && pairs[0] !in pairs[1..]
  {
    assert pairs[0] in pairs && Candidate(s, pairs[0]);
    var spot :| IsSpot(s, pairs[0], spot);
    var first := FirstExists(s, pairs[0], spot);
    assert forall j :: 1 <= j < |pairs| ==> pairs[j] != pairs[0];
  }

  lemma SameMembersSameEmptiness<T>(one: seq<T>, other: seq<T>)
    requires forall x :: x in one <==> x in other
    ensures one == [] <==> other == []
  {
    if one != [] { assert one[0] in other; }
    if other != [] { assert other[0] in one; }
  }

  lemma HeadIsFirst(s: Space, pairs: seq<Pair>, p: Pair, a: Spot, b: Spot)
    requires InFoundOrder(s, pairs) && p in pairs && IsFirst(s, pairs[0], a) && IsFirst(s, p, b)
    ensures p == pairs[0] || SpotBefore(a, b)
  {}

  /** One order, one list: pairs in found order are determined by which pairs they are. */
  lemma {:induction false} FoundOrderIsUnique(s: Space, one: seq<Pair>, other: seq<Pair>)
    requires InFoundOrder(s, one) && InFoundOrder(s, other)
    requires forall p :: p in one <==> p in other
    ensures one == other
    decreases |one|
  {
    SameMembersSameEmptiness(one, other);
    if one != [] {
      assert one[0] in other && other[0] in one;
      var spot :| IsSpot(s, one[0], spot);
      var a := FirstExists(s, one[0], spot);
      var spot' :| IsSpot(s, other[0], spot');
      var b := FirstExists(s, other[0], spot');
      HeadIsFirst(s, one, other[0], a, b);
      HeadIsFirst(s, other, one[0], b, a);
      FoundOrderTail(s, one);
      FoundOrderTail(s, other);
      assert one == [one[0]] + one[1..] && other == [other[0]] + other[1..];
      forall p ensures p in one[1..] <==> p in other[1..] {
        assert p in one <==> p == one[0] || p in one[1..];
        assert p in other <==> p == other[0] || p in other[1..];
      }
      FoundOrderIsUnique(s, one[1..], other[1..]);
    }
  }

  lemma {:induction false} FoundOrderFilter(s: Space, pairs: seq<Pair>, keep: Pair -> bool)
    requires InFoundOrder(s, pairs)
    ensures InFoundOrder(s, Filter(pairs, keep))
  {
    if pairs != [] {
      FoundOrderTail(s, pairs);
      FoundOrderFilter(s, pairs[1..], keep);
      FilterMembers(pairs[1..], keep);
      var rest := Filter(pairs[1..], keep);
      assert pairs[0] in pairs && Candidate(s, pairs[0]);
      var spot :| IsSpot(s, pairs[0], spot);
      var at := FirstExists(s, pairs[0], spot);
      forall j, b | 0 <= j < |rest| && IsFirst(s, rest[j], b) ensures SpotBefore(at, b) {
        assert rest[j] in pairs[1..];
      }
      FoundOrderCons(s, pairs[0], at, rest);
    }
  }

  /** The pairs already yielded when the scan stands at a spot. */
  ghost predicate SeenBefore(s: Space, seen: set<Pair>, at: Spot) {
    forall p :: p in seen <==> exists a :: IsFirst(s, p, a) && SpotBefore(a, at)
  }

  lemma SeenStep(s: Space, seen: set<Pair>, h: nat, k: nat)
    requires h < |s.rows| && k < |s.rows[h]| && SeenBefore(s, seen, (h, k))
    ensures var p := PairOf(h, s.rows[h][k].0);
            && (IsFirst(s, p, (h, k)) <==> IsSpot(s, p, (h, k)) && p !in seen)
            && SeenBefore(s, if IsFirst(s, p, (h, k)) then seen + {p} else seen, (h, k + 1))
  {
    var p := PairOf(h, s.rows[h][k].0);
    if IsSpot(s, p, (h, k)) { var first := FirstExists(s, p, (h, k)); }
    forall q, a | IsFirst(s, q, a) ensures SpotBefore(a, (h, k + 1)) <==> SpotBefore(a, (h, k)) || a == (h, k) {}
  }

  /** One spot of the scan: its pair is yielded when the row offers it and nothing yielded it before. */
  lemma ScanStep(s: Space, seen: set<Pair>, found: seq<Pair>, h: nat, k: nat)
    requires h < |s.rows| && k < |s.rows[h]| && SeenBefore(s, seen, (h, k))
    ensures var p := PairOf(h, s.rows[h][k].0);
            if s.rows[h][k].0 == h || s.rows[h][k].1 < s.threshold || p in seen
            then found + Discovery(s, h, k) == found + Discovery(s, h, k + 1) && SeenBefore(s, seen, (h, k + 1))
            else found + Discovery(s, h, k) == found + [p] + Discovery(s, h, k + 1)
                 && SeenBefore(s, seen + {p}, (h, k + 1))
  {
    SeenStep(s, seen, h, k);
  }

  /** One query's row of a whole run: the pairs it yields first. */
  method ScanRow(s: Space, query: nat, seen: set<Pair>) returns (found: seq<Pair>, seen': set<Pair>)
    requires query < |s.rows| && SeenBefore(s, seen, (query, 0))
    ensures found + Discovery(s, query + 1, 0) == Discovery(s, query, 0)
    ensures SeenBefore(s, seen', (query + 1, 0))
  {
    var row := s.rows[query];
    found, seen' := [], seen;
    ghost var all := Discovery(s, query, 0);
    for rank := 0 to |row|
      invariant found + Discovery(s, query, rank) == all
      invariant SeenBefore(s, seen', (query, rank))
    {
      var (neighbour, similarity) := row[rank];
      ScanStep(s, seen', found, query, rank);
      if neighbour == query || similarity < s.threshold {
        continue;
      }
      var pair := PairOf(query, neighbour);
      if pair in seen' {
        continue;
      }
      seen' := seen' + {pair};
      found := found + [pair];
    }
  }

  /** The pairs a whole run yields, in the order it yields them. */
  method NeighbourPairs(s: Space) returns (pairs: seq<Pair>)
    ensures pairs == Discovery(s, 0, 0)
  {
    pairs := [];
    var seen: set<Pair> := {};
    for query := 0 to |s.rows|
      invariant pairs + Discovery(s, query, 0) == Discovery(s, 0, 0)
      invariant SeenBefore(s, seen, (query, 0))
    {
      var found: seq<Pair>;
      found, seen := ScanRow(s, query, seen);
      pairs := pairs + found;
    }
  }
}
