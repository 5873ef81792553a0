/** Connectivity by index pairs, and the disjoint sets that compute it (dedup/detect.py, _UnionFind). */
module UnionFind {

  type Pair = (nat, nat)

  // ---- the equivalence closure of a set of pairs -----------------------

  ghost predicate Linked(pairs: set<Pair>, x: nat, y: nat) {
    (x, y) in pairs || (y, x) in pairs
  }

  ghost predicate Path(pairs: set<Pair>, path: seq<nat>, x: nat, y: nat) {
    && path != [] && path[0] == x && path[|path| - 1] == y
    && forall i :: 0 <= i < |path| - 1 ==> Linked(pairs, path[i], path[i + 1])
  }

  /** Related by the equivalence closure of the pairs. */
  ghost predicate Connected(pairs: set<Pair>, x: nat, y: nat) {
    exists path :: Path(pairs, path, x, y)
  }

  lemma ConnectedByPair(pairs: set<Pair>, x: nat, y: nat)
    requires Linked(pairs, x, y)
    ensures Connected(pairs, x, y)
  {
    assert Path(pairs, [x, y], x, y);
  }

  lemma ConnectedReflexive(pairs: set<Pair>, x: nat)
    ensures Connected(pairs, x, x)
  {
    assert Path(pairs, [x], x, x);
  }

  lemma ConnectedSymmetric(pairs: set<Pair>, x: nat, y: nat)
    requires Connected(pairs, x, y)
    ensures Connected(pairs, y, x)
  {
    var path :| Path(pairs, path, x, y);
    var back := seq(|path|, i requires 0 <= i < |path| => path[|path| - 1 - i]);
    forall i | 0 <= i < |back| - 1 ensures Linked(pairs, back[i], back[i + 1]) {
      var j := |path| - 2 - i;
      assert Linked(pairs, path[j], path[j + 1]);
    }
    assert Path(pairs, back, y, x);
  }

  lemma ConnectedTransitive(pairs: set<Pair>, x: nat, y: nat, z: nat)
    requires Connected(pairs, x, y) && Connected(pairs, y, z)
    ensures Connected(pairs, x, z)
  {
    var one :| Path(pairs, one, x, y);
    var two :| Path(pairs, two, y, z);
    assert Path(pairs, one + two[1..], x, z);
  }

  lemma ConnectedGrows(pairs: set<Pair>, more: set<Pair>, x: nat, y: nat)
    requires pairs <= more && Connected(pairs, x, y)
    ensures Connected(more, x, y)
  {
    var path :| Path(pairs, path, x, y);
    forall i | 0 <= i < |path| - 1 ensures Linked(more, path[i], path[i + 1]) {
      assert Linked(pairs, path[i], path[i + 1]);
    }
    assert Path(more, path, x, y);
  }

  /** A set no pair leaves holds the whole of every path that starts in it. */
  lemma {:induction false} ConnectedStays(pairs: set<Pair>, inside: set<nat>, path: seq<nat>, x: nat, y: nat)
    requires forall p :: p in pairs ==> (p.0 in inside <==> p.1 in inside)
    requires x in inside && Path(pairs, path, x, y)
    ensures y in inside && forall i :: 0 <= i < |path| ==> path[i] in inside
    decreases |path|
  {
    if |path| > 1 {
      assert Linked(pairs, path[0], path[1]);
      ConnectedStays(pairs, inside, path[1..], path[1], y);
      forall i | 0 <= i < |path| ensures path[i] in inside {
        if i > 0 { assert path[i] == path[1..][i - 1]; }
      }
    }
  }

  ghost predicate JoinedBy(pairs: set<Pair>, l: nat, r: nat, x: nat, y: nat) {
    || Connected(pairs, x, y)
    || (Connected(pairs, x, l) && Connected(pairs, r, y))
    || (Connected(pairs, x, r) && Connected(pairs, l, y))
  }

  lemma {:induction false} PathThroughPair(pairs: set<Pair>, l: nat, r: nat, path: seq<nat>, x: nat, y: nat)
    requires Path(pairs + {(l, r)}, path, x, y)
    ensures JoinedBy(pairs, l, r, x, y)
    decreases |path|
  {
    if |path| == 1 {
      ConnectedReflexive(pairs, x);
    } else {
      var z := path[1];
      assert Linked(pairs + {(l, r)}, path[0], path[1]);
      assert Path(pairs + {(l, r)}, path[1..], z, y);
      PathThroughPair(pairs, l, r, path[1..], z, y);
      if Linked(pairs, x, z) {
        ConnectedByPair(pairs, x, z);
        JoinedAfter(pairs, l, r, x, z, y);
      } else if (x, z) == (l, r) {
        ConnectedReflexive(pairs, l);
      } else {
        ConnectedReflexive(pairs, r);
      }
    }
  }

  lemma JoinedAfter(pairs: set<Pair>, l: nat, r: nat, x: nat, z: nat, y: nat)
    requires Connected(pairs, x, z) && JoinedBy(pairs, l, r, z, y)
    ensures JoinedBy(pairs, l, r, x, y)
  {
    if Connected(pairs, z, y) { ConnectedTransitive(pairs, x, z, y); }
    if Connected(pairs, z, l) { ConnectedTransitive(pairs, x, z, l); }
    if Connected(pairs, z, r) { ConnectedTransitive(pairs, x, z, r); }
  }

  /** Adding one pair relates exactly what it joins. */
  lemma ConnectedWithPair(pairs: set<Pair>, l: nat, r: nat, x: nat, y: nat)
    ensures Connected(pairs + {(l, r)}, x, y) <==> JoinedBy(pairs, l, r, x, y)
  {
    var more := pairs + {(l, r)};
    if Connected(more, x, y) {
      var path :| Path(more, path, x, y);
      PathThroughPair(pairs, l, r, path, x, y);
    }
    if Connected(pairs, x, y) { ConnectedGrows(pairs, more, x, y); }
    if Connected(pairs, x, l) && Connected(pairs, r, y) {
      ConnectedGrows(pairs, more, x, l);
      ConnectedGrows(pairs, more, r, y);
      ConnectedByPair(more, l, r);
      ConnectedTransitive(more, x, l, r);
      ConnectedTransitive(more, x, r, y);
    }
    if Connected(pairs, x, r) && Connected(pairs, l, y) {
      ConnectedGrows(pairs, more, x, r);
      ConnectedGrows(pairs, more, l, y);
      ConnectedByPair(more, r, l);
      ConnectedTransitive(more, x, r, l);
      ConnectedTransitive(more, x, l, y);
    }
  }

  lemma OnlyReflexiveWithoutPairs(x: nat, y: nat)
    ensures Connected({}, x, y) <==> x == y
  {
    ConnectedReflexive({}, x);
    if Connected({}, x, y) {
      var path :| Path({}, path, x, y);
      ConnectedStays({}, {x}, path, x, y);
    }
  }

  // ---- the disjoint sets ------------------------------------------------

  /** One index of a parent array, its representative, and a height that grows towards it. */
  ghost predicate Node(parent: seq<nat>, rep: seq<nat>, height: seq<nat>, top: nat, i: nat)
    requires i < |parent| == |rep| == |height|
  {
    && parent[i] < |parent| && rep[i] < |parent| && height[i] <= top
    && rep[parent[i]] == rep[i] && rep[rep[i]] == rep[i]
    && (parent[i] == i <==> rep[i] == i)
    && (parent[i] != i ==> height[i] < height[parent[i]])
  }

  ghost predicate Forest(parent: seq<nat>, rep: seq<nat>, height: seq<nat>, top: nat) {
    && |parent| == |rep| == |height|
    && forall i :: 0 <= i < |parent| ==> Node(parent, rep, height, top, i)
  }

  /** Pointing an index at its grandparent changes no representative. */
  lemma HalvingKeepsForest(parent: seq<nat>, rep: seq<nat>, height: seq<nat>, top: nat, i: nat)
    requires Forest(parent, rep, height, top) && i < |parent| && parent[i] != i
    ensures Node(parent, rep, height, top, i) && Node(parent, rep, height, top, parent[i])
    ensures Forest(parent[i := parent[parent[i]]], rep, height, top)
  {
    var up := parent[i];
    assert Node(parent, rep, height, top, i) && Node(parent, rep, height, top, up);
    var halved := parent[i := parent[up]];
    forall k | 0 <= k < |halved| ensures Node(halved, rep, height, top, k) {
      assert Node(parent, rep, height, top, k);
    }
  }

  /** Pointing one root at another merges their sets and no others. */
  lemma LinkingKeepsForest(
      parent: seq<nat>, rep: seq<nat>, height: seq<nat>, top: nat, left: nat, right: nat,
      rep': seq<nat>, height': seq<nat>, top': nat)
    requires Forest(parent, rep, height, top) && left < |parent| && right < |parent| && left != right
    requires parent[left] == left && parent[right] == right
    requires |rep'| == |rep| && forall k :: 0 <= k < |rep| ==> rep'[k] == if rep[k] == right then left else rep[k]
    requires height' == height[left := if height[left] > height[right] then height[left] else height[right] + 1]
    requires top' == if height'[left] > top then height'[left] else top
    ensures Forest(parent[right := left], rep', height', top')
  {
    var linked := parent[right := left];
    assert Node(parent, rep, height, top, left) && Node(parent, rep, height, top, right);
    forall k | 0 <= k < |linked| ensures Node(linked, rep', height', top', k) {
      assert Node(parent, rep, height, top, k);
      assert Node(parent, rep, height, top, rep[k]);
    }
  }

  /** Disjoint sets over indices: a parent array with path halving and no ranks. */
  class DisjointSets {
    var parent: seq<nat>
    ghost var rep: seq<nat>
    ghost var height: seq<nat>
    ghost var top: nat

    ghost predicate Valid()
      reads this
    {
      Forest(parent, rep, height, top)
    }

    constructor (size: nat)
      ensures Valid() && |parent| == size && forall i :: 0 <= i < size ==> rep[i] == i
    {
      parent := seq(size, i => i);
      rep := seq(size, i => i);
      height := seq(size, i => 0);
      top := 0;
    }

    /** `rep` is left alone, so halving is invisible but for `parent`. */
    method Find(index: nat) returns (root: nat)
      requires Valid() && index < |parent|
      modifies this`parent
      ensures Valid() && |parent| == old(|parent|)
      ensures root == rep[index] && root < |parent| && parent[root] == root
    {
      root := index;
      assert Node(parent, rep, height, top, root);
      while parent[root] != root
        invariant Valid() && |parent| == old(|parent|)
        invariant root < |parent| && rep[root] == rep[index] && Node(parent, rep, height, top, root)
        decreases top - height[root]
      {
        HalvingKeepsForest(parent, rep, height, top, root);
        parent := parent[root := parent[parent[root]]];
        root := parent[root];
        assert Node(parent, rep, height, top, root);
      }
    }

    /** Merge two sets; the left one's representative speaks for both. */
    method Union(left: nat, right: nat)
      requires Valid() && left < |parent| && right < |parent|
      modifies this
      ensures Valid() && |parent| == old(|parent|)
      ensures forall k :: 0 <= k < |parent| ==>
                rep[k] == if old(rep[k]) == old(rep[right]) then old(rep[left]) else old(rep[k])
    {
      var leftRoot := Find(left);
      assert Node(parent, rep, height, top, leftRoot);
      var rightRoot := Find(right);
      assert Node(parent, rep, height, top, leftRoot);
      if leftRoot != rightRoot {
        ghost var was, heights, most := rep, height, top;
        rep := seq(|was|, k requires 0 <= k < |was| => if was[k] == rightRoot then leftRoot else was[k]);
        height := heights[leftRoot := if heights[leftRoot] > heights[rightRoot] then heights[leftRoot] else heights[rightRoot] + 1];
        top := if height[leftRoot] > most then height[leftRoot] else most;
        LinkingKeepsForest(parent, was, heights, most, leftRoot, rightRoot, rep, height, top);
        parent := parent[rightRoot := leftRoot];
      }
    }
  }
}
