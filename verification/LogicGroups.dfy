/** Accepted pairs folded into logic classes (dedup/detect.py, _logic_groups and logic_classes). */
module LogicGroups {
  import opened Lists
  import opened Options
  import opened DedupModel
  import opened UnionFind
  import opened LogicClones

  /** The pair reasons in the order they were found: a dictionary, so each pair once. */
  type Reasons = seq<(Pair, PairReason)>

  function PairsOf(reasons: Reasons): set<Pair> { set r | r in reasons :: r.0 }

  function Range(n: nat): (r: seq<nat>)
    ensures |r| == n && forall i :: 0 <= i < n ==> r[i] == i
    ensures forall x: nat :: x in r <==> x < n
  {
    var r: seq<nat> := seq(n, i => i);
    assert forall x: nat :: x in r <==> x < n by {
      forall x: nat | x < n ensures x in r { assert r[x] == x; }
      forall x | x in r ensures x < n { var i :| 0 <= i < |r| && r[i] == x; }
    }
    r
  }

  /** A set of indices below a size, sorted. */
  function Ascending(size: nat, members: set<nat>): seq<nat> { Filter(Range(size), x => x in members) }

  /** The relation whose classes are reported: the equivalence closure of the accepted pairs. */
  ghost function Joined(pairs: set<Pair>): (nat, nat) -> bool { (x: nat, y: nat) => Connected(pairs, x, y) }

  lemma JoinedIsEquivalence(pairs: set<Pair>)
    ensures Equivalence(Joined(pairs))
  {
    forall x: nat ensures Connected(pairs, x, x) { ConnectedReflexive(pairs, x); }
    forall x: nat, y: nat | Connected(pairs, x, y) ensures Connected(pairs, y, x) { ConnectedSymmetric(pairs, x, y); }
    forall x: nat, y: nat, z: nat | Connected(pairs, x, y) && Connected(pairs, y, z) ensures Connected(pairs, x, z) {
      ConnectedTransitive(pairs, x, y, z);
    }
  }

  // ---- what the classes are ---------------------------------------------

  function ReasonsInside(reasons: Reasons, bucket: seq<nat>): seq<PairReason> {
    if reasons == [] then []
    else
      (if reasons[0].0.0 in bucket && reasons[0].0.1 in bucket then [reasons[0].1] else [])
      + ReasonsInside(reasons[1..], bucket)
  }

  predicate Within(bucket: seq<nat>, size: nat) { bucket != [] && forall x :: x in bucket ==> x < size }

  function ClassFrom(candidates: seq<Unit>, bucket: seq<nat>, reasons: Reasons): CloneClass
    requires Within(bucket, |candidates|)
  {
    var chosen := ReasonsInside(reasons, bucket);
    CloneOf(Logic, Map(i requires 0 <= i < |candidates| => candidates[i], bucket),
            if |chosen| <= MAX_REASONS then chosen else chosen[..MAX_REASONS])
  }

  function ClassesFrom(candidates: seq<Unit>, buckets: seq<seq<nat>>, reasons: Reasons): seq<CloneClass>
    requires forall b :: b in buckets ==> Within(b, |candidates|)
  {
    if buckets == [] then []
    else
      (if |buckets[0]| < 2 then [] else [ClassFrom(candidates, buckets[0], reasons)])
      + ClassesFrom(candidates, buckets[1..], reasons)
  }

  ghost function Groups(nodes: seq<nat>, reasons: Reasons): seq<seq<nat>> { Buckets(nodes, Joined(PairsOf(reasons))) }

  lemma GroupsWithin(nodes: seq<nat>, reasons: Reasons, size: nat)
    requires forall x :: x in nodes ==> x < size
    ensures forall b :: b in Groups(nodes, reasons) ==> Within(b, size)
  {
    var same := Joined(PairsOf(reasons));
    JoinedIsEquivalence(PairsOf(reasons));
    forall b | b in Groups(nodes, reasons) ensures Within(b, size) {
      BucketMembers(nodes, same, b);
    }
  }

  /** The classes of some bodies under some accepted pairs: the connected groups of two or more, in body order. */
  ghost function LogicClassesOf(candidates: seq<Unit>, nodes: seq<nat>, reasons: Reasons): seq<CloneClass>
    requires forall x :: x in nodes ==> x < |candidates|
  {
    GroupsWithin(nodes, reasons, |candidates|);
    ClassesFrom(candidates, Groups(nodes, reasons), reasons)
  }

  // ---- how they are computed --------------------------------------------

  /** The disjoint sets after the first pairs: two offsets share a representative when their bodies are joined. */
  ghost predicate Agrees(rep: seq<nat>, nodes: seq<nat>, pairs: set<Pair>) {
    |rep| == |nodes| && forall a, b :: 0 <= a < |nodes| && 0 <= b < |nodes| ==>
      (rep[a] == rep[b] <==> Connected(pairs, nodes[a], nodes[b]))
  }

  lemma UnionAgrees(rep: seq<nat>, rep': seq<nat>, nodes: seq<nat>, pairs: set<Pair>, l: nat, r: nat)
    requires Agrees(rep, nodes, pairs) && l < |nodes| && r < |nodes| && |rep'| == |rep|
    requires forall k :: 0 <= k < |rep| ==> rep'[k] == if rep[k] == rep[r] then rep[l] else rep[k]
    ensures Agrees(rep', nodes, pairs + {(nodes[l], nodes[r])})
  {
    var more := pairs + {(nodes[l], nodes[r])};
    forall a, b | 0 <= a < |nodes| && 0 <= b < |nodes| ensures rep'[a] == rep'[b] <==> Connected(more, nodes[a], nodes[b]) {
      ConnectedWithPair(pairs, nodes[l], nodes[r], nodes[a], nodes[b]);
    }
  }

  /** Fold every accepted pair into the disjoint sets. */
  method FoldPairs(nodes: seq<nat>, position: map<nat, nat>, reasons: Reasons) returns (finder: DisjointSets)
    requires forall k :: 0 <= k < |nodes| ==> nodes[k] in position && position[nodes[k]] == k
    requires forall x :: x in position ==> position[x] < |nodes| && nodes[position[x]] == x
    requires forall p :: p in PairsOf(reasons) ==> p.0 in position && p.1 in position
    ensures fresh(finder) && finder.Valid() && |finder.parent| == |nodes|
    ensures Agrees(finder.rep, nodes, PairsOf(reasons))
  {
    finder := new DisjointSets(|nodes|);
    forall a, b | 0 <= a < |nodes| && 0 <= b < |nodes| ensures Connected({}, nodes[a], nodes[b]) <==> a == b {
      OnlyReflexiveWithoutPairs(nodes[a], nodes[b]);
      assert position[nodes[a]] == a && position[nodes[b]] == b;
    }
    assert PairsOf(reasons[..0]) == {};
    for i := 0 to |reasons|
      invariant fresh(finder) && finder.Valid() && |finder.parent| == |nodes|
      invariant Agrees(finder.rep, nodes, PairsOf(reasons[..i]))
    {
      var (left, right) := reasons[i].0;
      assert reasons[i] in reasons && reasons[i].0 in PairsOf(reasons);
      ghost var before := finder.rep;
      finder.Union(position[left], position[right]);
      UnionAgrees(before, finder.rep, nodes, PairsOf(reasons[..i]), position[left], position[right]);
      assert reasons[..i + 1] == reasons[..i] + [reasons[i]];
      assert PairsOf(reasons[..i + 1]) == PairsOf(reasons[..i]) + {(left, right)};
    }
    assert reasons[..|reasons|] == reasons;
  }

  /** Which group the next body belongs to: the one whose representative it has, if any. */
  lemma GroupOfNext(
      nodes: seq<nat>, k: nat, rep: seq<nat>, pairs: set<Pair>, order: seq<nat>, groups: map<nat, seq<nat>>)
    returns (at: nat)
    requires k < |nodes| && Agrees(rep, nodes, pairs)
    requires Filled(order, groups, Buckets(nodes[..k], Joined(pairs)))
    requires RootsOfGroups(nodes, rep, order, Buckets(nodes[..k], Joined(pairs)))
    ensures at <= |order| && forall i :: 0 <= i < |order| ==> (order[i] == rep[k] <==> i == at)
    ensures Buckets(nodes[..k + 1], Joined(pairs)) == Grown(Buckets(nodes[..k], Joined(pairs)), nodes[k], at)
  {
    var old_ := Buckets(nodes[..k], Joined(pairs));
    if i :| 0 <= i < |order| && order[i] == rep[k] { at := i; } else { at := |order|; }
    forall i | 0 <= i < |old_| ensures old_[i] != [] && (Joined(pairs)(old_[i][0], nodes[k]) <==> i == at) {
      var a :| 0 <= a < |nodes| && nodes[a] == old_[i][0] && rep[a] == order[i];
      assert rep[a] == rep[k] <==> Connected(pairs, nodes[a], nodes[k]);
    }
    assert nodes[..k + 1] == nodes[..k] + [nodes[k]];
    BucketsGrow(nodes[..k], nodes[k], Joined(pairs), at);
  }

  lemma RootsGrow(nodes: seq<nat>, rep: seq<nat>, order: seq<nat>, buckets: seq<seq<nat>>, k: nat, at: nat)
    requires |rep| == |nodes| && k < |nodes| && RootsOfGroups(nodes, rep, order, buckets)
    ensures RootsOfGroups(nodes, rep, if at < |order| then order else order + [rep[k]], Grown(buckets, nodes[k], at))
  {}

  /** Each group's key is the representative of its first body. */
  ghost predicate RootsOfGroups(nodes: seq<nat>, rep: seq<nat>, order: seq<nat>, buckets: seq<seq<nat>>)
    requires |rep| == |nodes|
  {
    && |order| == |buckets|
    && (forall i :: 0 <= i < |buckets| ==> buckets[i] != [])
    && forall i :: 0 <= i < |buckets| ==>
         exists a :: 0 <= a < |nodes| && nodes[a] == buckets[i][0] && rep[a] == order[i]
  }

  /** Group every body under its representative. */
  method GroupNodes(nodes: seq<nat>, position: map<nat, nat>, finder: DisjointSets, ghost pairs: set<Pair>)
    returns (order: seq<nat>, groups: map<nat, seq<nat>>)
    requires forall k :: 0 <= k < |nodes| ==> nodes[k] in position && position[nodes[k]] == k
    requires finder.Valid() && |finder.parent| == |nodes| && Agrees(finder.rep, nodes, pairs)
    modifies finder`parent
    ensures Filled(order, groups, Buckets(nodes, Joined(pairs)))
  {
    order, groups := [], map[];
    ghost var rep := finder.rep;
    for k := 0 to |nodes|
      invariant finder.Valid() && |finder.parent| == |nodes| && finder.rep == rep
      invariant Filled(order, groups, Buckets(nodes[..k], Joined(pairs)))
      invariant RootsOfGroups(nodes, rep, order, Buckets(nodes[..k], Joined(pairs)))
    {
      var index := nodes[k];
      var root := finder.Find(position[index]);
      ghost var at := GroupOfNext(nodes, k, rep, pairs, order, groups);
      RootsGrow(nodes, rep, order, Buckets(nodes[..k], Joined(pairs)), k, at);
      order, groups := Append(order, groups, root, index, Buckets(nodes[..k], Joined(pairs)), at);
    }
    assert nodes[..|nodes|] == nodes;
  }

  lemma {:induction false} ClassesFromAppend(candidates: seq<Unit>, buckets: seq<seq<nat>>, b: seq<nat>, reasons: Reasons)
    requires forall c :: c in buckets + [b] ==> Within(c, |candidates|)
    ensures forall c :: c in buckets ==> Within(c, |candidates|)
    ensures ClassesFrom(candidates, buckets + [b], reasons) ==
            ClassesFrom(candidates, buckets, reasons) + if |b| < 2 then [] else [ClassFrom(candidates, b, reasons)]
  {
    forall c | c in buckets ensures Within(c, |candidates|) { assert c in buckets + [b]; }
    if buckets == [] {
      assert [] + [b] == [b];
    } else {
      assert (buckets + [b])[1..] == buckets[1..] + [b];
      ClassesFromAppend(candidates, buckets[1..], b, reasons);
    }
  }

  /** Union-find over the members' positions computes the connected groups that `LogicClassesOf` specifies. */
  method LogicGroups(candidates: seq<Unit>, members: set<nat>, reasons: Reasons) returns (classes: seq<CloneClass>)
    requires forall x :: x in members ==> x < |candidates|
    requires forall p :: p in PairsOf(reasons) ==> p.0 in members && p.1 in members
    ensures forall x :: x in Ascending(|candidates|, members) ==> x < |candidates|
    ensures classes == LogicClassesOf(candidates, Ascending(|candidates|, members), reasons)
  {
    var nodes := Ascending(|candidates|, members);
    AscendingIndices(|candidates|, members);
    var position := map x | x in members :: IndexIn(nodes, x);
    var finder := FoldPairs(nodes, position, reasons);
    var order, groups := GroupNodes(nodes, position, finder, PairsOf(reasons));
    GroupsWithin(nodes, reasons, |candidates|);
    classes := ClassesOfGroups(candidates, order, groups, Groups(nodes, reasons), reasons);
  }

  method ClassesOfGroups(
      candidates: seq<Unit>, order: seq<nat>, groups: map<nat, seq<nat>>, ghost buckets: seq<seq<nat>>, reasons: Reasons)
    returns (classes: seq<CloneClass>)
    requires Filled(order, groups, buckets) && forall b :: b in buckets ==> Within(b, |candidates|)
    ensures classes == ClassesFrom(candidates, buckets, reasons)
  {
    classes := [];
    for i := 0 to |order|
      invariant forall b :: b in buckets[..i] ==> Within(b, |candidates|)
      invariant classes == ClassesFrom(candidates, buckets[..i], reasons)
    {
      var indices := groups[order[i]];
      assert indices == buckets[i] && buckets[..i + 1] == buckets[..i] + [buckets[i]];
      ClassesFromAppend(candidates, buckets[..i], buckets[i], reasons);
      if |indices| < 2 {
        continue;
      }
      classes := classes + [ClassFrom(candidates, indices, reasons)];
    }
    assert buckets[..|order|] == buckets;
  }

  function IndexIn(nodes: seq<nat>, x: nat): (k: nat)
    requires x in nodes
    ensures k < |nodes| && nodes[k] == x
  {
    if nodes[0] == x then 0 else 1 + IndexIn(nodes[1..], x)
  }

  /** The sorted members: each once, in increasing order. */
  lemma AscendingIndices(size: nat, members: set<nat>)
    requires forall x :: x in members ==> x < size
    ensures var nodes := Ascending(size, members);
            && (forall x :: x in nodes <==> x in members)
            && (forall i, j :: 0 <= i < j < |nodes| ==> nodes[i] < nodes[j])
  {
    var keep := (x: nat) => x in members;
    FilterMembers(Range(size), keep);
    FilterIncreasing(Range(size), keep);
    assert Ascending(size, members) == Filter(Range(size), keep);
  }

  lemma FilterIncreasing(s: seq<nat>, keep: nat -> bool)
    requires forall i, j :: 0 <= i < j < |s| ==> s[i] < s[j]
    ensures forall i, j :: 0 <= i < j < |Filter(s, keep)| ==> Filter(s, keep)[i] < Filter(s, keep)[j]
  {
    if s != [] {
      FilterIncreasing(s[1..], keep);
      FilterMembers(s[1..], keep);
      var rest := Filter(s[1..], keep);
      forall j | 0 <= j < |rest| ensures s[0] < rest[j] { assert rest[j] in s[1..]; }
    }
  }

  // ---- the whole run -----------------------------------------------------

  /** The reasons dictionary a whole run fills: every yielded pair the structural check accepts. */
  ghost function AcceptedReasons(candidates: seq<Unit>, pairs: seq<Pair>): Reasons
    requires forall p :: p in pairs ==> p.0 < |candidates| && p.1 < |candidates|
  {
    if pairs == [] then []
    else
      var p := pairs[0];
      var reason := Judged(candidates[p.0], candidates[p.1]);
      (if reason.Some? then [(p, reason.value)] else []) + AcceptedReasons(candidates, pairs[1..])
  }

  lemma DiscoveryInRange(s: Space, p: Pair)
    requires ValidSpace(s, |s.rows|) && p in Discovery(s, 0, 0)
    ensures p.0 < p.1 < |s.rows|
  {
    DiscoveryMembers(s, 0, 0, p);
  }

  ghost function WholeReasons(candidates: seq<Unit>, s: Space): Reasons
    requires ValidSpace(s, |candidates|)
  {
    assert forall p :: p in Discovery(s, 0, 0) ==> p.0 < |s.rows| && p.1 < |s.rows| by {
      forall p | p in Discovery(s, 0, 0) ensures p.0 < p.1 < |s.rows| { DiscoveryInRange(s, p); }
    }
    AcceptedReasons(candidates, Discovery(s, 0, 0))
  }

  /** Every logic class of a workspace, as a whole run reports them. */
  ghost function WholeLogicClasses(candidates: seq<Unit>, s: Space): seq<CloneClass>
    requires ValidSpace(s, |candidates|)
  {
    if |candidates| < 2 then [] else LogicClassesOf(candidates, Range(|candidates|), WholeReasons(candidates, s))
  }

  lemma AcceptedStep(candidates: seq<Unit>, pairs: seq<Pair>, i: nat, reason: Option<PairReason>)
    requires i < |pairs| && pairs[i] in pairs && forall p :: p in pairs ==> p.0 < |candidates| && p.1 < |candidates|
    requires reason == Judged(candidates[pairs[i].0], candidates[pairs[i].1])
    ensures AcceptedReasons(candidates, pairs[i..]) ==
            (if reason.Some? then [(pairs[i], reason.value)] else []) + AcceptedReasons(candidates, pairs[i + 1..])
  {}

  lemma AppendInTheMiddle<T>(before: seq<T>, middle: seq<T>, after: seq<T>)
    ensures before + (middle + after) == (before + middle) + after
  {}

  /** Check every yielded pair structurally, keeping the accepted ones in order. */
  method AcceptPairs(candidates: seq<Unit>, pairs: seq<Pair>) returns (reasons: Reasons)
    requires forall p :: p in pairs ==> p.0 < |candidates| && p.1 < |candidates|
    ensures reasons == AcceptedReasons(candidates, pairs)
  {
    reasons := [];
    ghost var all := AcceptedReasons(candidates, pairs);
    for i := 0 to |pairs|
      invariant reasons + AcceptedReasons(candidates, pairs[i..]) == all
    {
      var (left, right) := pairs[i];
      assert pairs[i] in pairs;
      var reason := Accepted(candidates[left], candidates[right]);
      AcceptedStep(candidates, pairs, i, reason);
      ghost var kept := if reason.Some? then [(pairs[i], reason.value)] else [];
      AppendInTheMiddle(reasons, kept, AcceptedReasons(candidates, pairs[i + 1..]));
      if reason.Some? {
        reasons := reasons + [(pairs[i], reason.value)];
      }
    }
  }

  lemma AcceptedArePairs(candidates: seq<Unit>, pairs: seq<Pair>)
    requires forall p :: p in pairs ==> p.0 < |candidates| && p.1 < |candidates|
    ensures forall p :: p in PairsOf(AcceptedReasons(candidates, pairs)) <==>
              p in pairs && Judged(candidates[p.0], candidates[p.1]).Some?
  {}

  /** The logic classes of a whole run, from bodies whose vectors are already compared. */
  method LogicClasses(candidates: seq<Unit>, s: Space) returns (classes: seq<CloneClass>)
    requires ValidSpace(s, |candidates|)
    ensures classes == WholeLogicClasses(candidates, s)
  {
    if |candidates| < 2 {
      return [];
    }
    var pairs := NeighbourPairs(s);
    forall p | p in pairs ensures p.0 < p.1 < |candidates| { DiscoveryInRange(s, p); }
    var reasons := AcceptPairs(candidates, pairs);
    AcceptedArePairs(candidates, pairs);
    var everyone := set i | i in Range(|candidates|);
    classes := LogicGroups(candidates, everyone, reasons);
    FilterAll(Range(|candidates|), x => x in everyone);
  }
}
