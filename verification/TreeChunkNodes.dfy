/** Which nodes the chunks of a tree are made of, and so how long a chunk can get (chunking/core.py, _merge_node_inner and
    _merge_adjacent_chunks). */
module TreeChunkNodes {
  import opened Chunking
  import opened TreeChunking

  // ---- nodes of a tree -------------------------------------------------------------------------

  /** The node lies in the tree below `n`, itself included, at this depth. */
  ghost predicate Occurs(m: Node, d: nat, n: Node, depth: nat)
    decreases n
  {
    (m == n && d == depth) || OccursAmong(m, d, n.children, depth + 1)
  }

  ghost predicate OccursAmong(m: Node, d: nat, children: seq<Node>, depth: nat)
    decreases children
  {
    children != [] && (Occurs(m, d, children[0], depth) || OccursAmong(m, d, children[1..], depth))
  }

  /** A leaf, shorter than 50 bytes, or deeper than 500 levels. */
  predicate Whole(m: Node, d: nat) { m.children == [] || m.end - m.start < 50 || d > 500 }

  function Leaves(n: Node): seq<Node>
    decreases n
  {
    if n.children == [] then [n] else LeavesAmong(n.children)
  }

  function LeavesAmong(nodes: seq<Node>): seq<Node>
    decreases nodes
  {
    if nodes == [] then [] else Leaves(nodes[0]) + LeavesAmong(nodes[1..])
  }

  lemma {:induction false} LeavesConcat(a: seq<Node>, b: seq<Node>)
    ensures LeavesAmong(a + b) == LeavesAmong(a) + LeavesAmong(b)
    decreases |a|
  {
    if a == [] {
      assert a + b == b;
    } else {
      assert (a + b)[1..] == a[1..] + b;
      LeavesConcat(a[1..], b);
    }
  }

  lemma {:induction false} OccursInRest(m: Node, d: nat, children: seq<Node>, k: nat, depth: nat)
    requires k <= |children| && OccursAmong(m, d, children[k..], depth)
    ensures OccursAmong(m, d, children, depth)
    decreases k
  {
    if k == 0 {
      assert children[0..] == children;
    } else {
      assert children[1..][k - 1..] == children[k..];
      OccursInRest(m, d, children[1..], k - 1, depth);
    }
  }

  lemma {:induction false} OccursBeforeOrIn(m: Node, d: nat, children: seq<Node>, k: nat, depth: nat)
    requires k <= |children| && OccursAmong(m, d, children, depth)
    ensures OccursAmong(m, d, children[k..], depth) || exists i :: 0 <= i < k && Occurs(m, d, children[i], depth)
    decreases k
  {
    if k == 0 {
      assert children[0..] == children;
    } else if !Occurs(m, d, children[0], depth) {
      assert children[1..][k - 1..] == children[k..];
      OccursBeforeOrIn(m, d, children[1..], k - 1, depth);
      if i :| 0 <= i < k - 1 && Occurs(m, d, children[1..][i], depth) { assert children[i + 1] == children[1..][i]; }
    }
  }

  // ---- whole nodes stay whole --------------------------------------------------------------------

  lemma {:induction false} NodeInside(m: Node, d: nat, n: Node, depth: nat)
    requires WellFormed(n) && Occurs(m, d, n, depth)
    ensures n.start <= m.start <= m.end <= n.end
    decreases n
  {
    if !(m == n && d == depth) { NodeInsideSome(m, d, n.children, depth + 1, n.start, n.end); }
  }

  lemma {:induction false} NodeInsideSome(m: Node, d: nat, children: seq<Node>, depth: nat, lo: nat, hi: nat)
    requires ChildrenFit(children, lo, hi) && OccursAmong(m, d, children, depth)
    ensures lo <= m.start <= m.end <= hi
    decreases children
  {
    if Occurs(m, d, children[0], depth) {
      NodeInside(m, d, children[0], depth);
      ChildrenBound(children[1..], children[0].end, hi);
    } else {
      NodeInsideSome(m, d, children[1..], depth, children[0].end, hi);
    }
  }

  lemma {:induction false} ChildrenBound(children: seq<Node>, lo: nat, hi: nat)
    requires ChildrenFit(children, lo, hi)
    ensures lo <= hi
    decreases |children|
  {
    if children != [] { ChildrenBound(children[1..], children[0].end, hi); }
  }

  /** A node that may not be split, or any node below the top that fits. */
  ghost predicate Kept(m: Node, d: nat, limit: int, n: Node, depth: nat) {
    || (Occurs(m, d, n, depth) && Whole(m, d))
    || (OccursAmong(m, d, n.children, depth + 1) && m.end - m.start <= limit)
  }

  /** A leaf, a short node and a node too deep each lie whole in one chunk of the split, and so does a node that fits. */
  lemma {:induction false} SplitHoldsKept(n: Node, limit: int, depth: nat, m: Node, d: nat)
    requires WellFormed(n) && Kept(m, d, limit, n, depth)
    ensures Holds(Split(n, limit, depth), Bound(m))
    decreases n
  {
    NodeInside(m, d, n, depth);
    if Unsplittable(n, depth) {
      assert Split(n, limit, depth)[0] == Bound(n);
    } else {
      RunsHoldKept(n.children, limit, depth, n.start, n.end, m, d);
    }
  }

  lemma {:induction false} RunsHoldKept(children: seq<Node>, limit: int, depth: nat, lo: nat, hi: nat, m: Node, d: nat)
    requires ChildrenFit(children, lo, hi) && OccursAmong(m, d, children, depth + 1) && (Whole(m, d) || m.end - m.start <= limit)
    ensures Holds(SplitRuns(children, limit, depth), Bound(m))
    decreases children
  {
    if Length(Bound(children[0])) > limit {
      if Occurs(m, d, children[0], depth + 1) {
        SplitHoldsKept(children[0], limit, depth + 1, m, d);
      } else {
        RunsHoldKept(children[1..], limit, depth, children[0].end, hi, m, d);
      }
      HoldsEither(Split(children[0], limit, depth + 1), SplitRuns(children[1..], limit, depth), Bound(m));
    } else {
      var k := Siblings(children, limit);
      var run := Chunk(children[0].start, children[k - 1].end);
      RestFits(children, lo, hi, k);
      OccursBeforeOrIn(m, d, children, k, depth + 1);
      if OccursAmong(m, d, children[k..], depth + 1) {
        RunsHoldKept(children[k..], limit, depth, children[k - 1].end, hi, m, d);
      } else {
        RunHoldsNode(children, lo, hi, k, m, d, depth + 1);
        assert [run][0] == run;
      }
      HoldsEither([run], SplitRuns(children[k..], limit, depth), Bound(m));
      FirstRun(children, k, children[k..], run, limit, depth);
    }
  }

  lemma RunHoldsNode(children: seq<Node>, lo: nat, hi: nat, k: nat, m: Node, d: nat, depth: nat)
    requires ChildrenFit(children, lo, hi) && 1 <= k <= |children|
    requires exists i :: 0 <= i < k && Occurs(m, d, children[i], depth)
    ensures children[0].start <= m.start && m.end <= children[k - 1].end
  {
    var i :| 0 <= i < k && Occurs(m, d, children[i], depth);
    RestFits(children, lo, hi, k);
    NodeInside(m, d, children[i], depth);
    ChildrenAreLaid(children, lo, hi);
    LaidCut(Bounds(children), lo, hi, k);
    assert Bounds(children)[i] == Bound(children[i]);
  }

  /** Chunking a tree never cuts a leaf, a node shorter than 50 bytes, a node deeper than 500 levels, or any node below the
      root no longer than the limit. */
  lemma ChunksCutNoNodeThatFits(root: Node, limit: int, m: Node, d: nat)
    requires WellFormed(root) && Occurs(m, d, root, 0)
    requires m.children == [] || m.end - m.start < 50 || d > 500 || (d > 0 && m.end - m.start <= limit)
    ensures exists i :: 0 <= i < |TreeChunks(root, limit)|
              && TreeChunks(root, limit)[i].start <= m.start && m.end <= TreeChunks(root, limit)[i].end
  {
    var raw := Split(root, limit, 0);
    SplitHoldsKept(root, limit, 0, m, d);
    SplitIsLaid(root, limit, 0);
    MergedIsLaid(raw, limit, root.start, root.end);
    var r :| 0 <= r < |raw| && raw[r].start <= m.start && m.end <= raw[r].end;
    assert Holds(TreeChunks(root, limit), raw[r]);
    var i :| 0 <= i < |TreeChunks(root, limit)|
      && TreeChunks(root, limit)[i].start <= raw[r].start && raw[r].end <= TreeChunks(root, limit)[i].end;
  }

  // ---- the nodes of a chunk ------------------------------------------------------------------------

  function Bytes(nodes: seq<Node>): int {
    if nodes == [] then 0 else nodes[0].end - nodes[0].start + Bytes(nodes[1..])
  }

  function Flat(groups: seq<seq<Node>>): seq<Node> { if groups == [] then [] else groups[0] + Flat(groups[1..]) }

  /** Nodes in order, disjoint, from one offset to another; at most the gaps between them are not theirs. */
  ghost predicate Ordered(nodes: seq<Node>, lo: nat, hi: nat) {
    if nodes == [] then lo <= hi
    else lo <= nodes[0].start <= nodes[0].end <= hi && Ordered(nodes[1..], nodes[0].end, hi)
  }

  ghost predicate SpansNodes(c: Chunk, nodes: seq<Node>) {
    nodes != [] && c.start == nodes[0].start && c.end == nodes[|nodes| - 1].end && Ordered(nodes, c.start, c.end)
  }

  /** The nodes come to no more than the limit, or are one node that may not be split. */
  ghost predicate Sized(nodes: seq<Node>, limit: int, n: Node, depth: nat) {
    Bytes(nodes) <= limit || (|nodes| == 1 && exists d :: Occurs(nodes[0], d, n, depth) && Whole(nodes[0], d))
  }

  ghost predicate SizedAmong(nodes: seq<Node>, limit: int, children: seq<Node>, depth: nat) {
    Bytes(nodes) <= limit || (|nodes| == 1 && exists d :: OccursAmong(nodes[0], d, children, depth) && Whole(nodes[0], d))
  }

  lemma {:induction false} FlatConcat(a: seq<seq<Node>>, b: seq<seq<Node>>)
    ensures Flat(a + b) == Flat(a) + Flat(b)
  {
    if a == [] {
      assert a + b == b;
    } else {
      assert (a + b)[1..] == a[1..] + b;
      FlatConcat(a[1..], b);
    }
  }

  lemma {:induction false} OrderedPrefix(children: seq<Node>, lo: nat, hi: nat, k: nat)
    requires ChildrenFit(children, lo, hi) && 1 <= k <= |children|
    ensures Ordered(children[..k], children[0].start, children[k - 1].end)
    decreases |children|
  {
    if k > 1 {
      OrderedPrefix(children[1..], children[0].end, hi, k - 1);
      assert children[..k][1..] == children[1..][..k - 1];
      OrderedWider(children[1..][..k - 1], children[1].start, children[k - 1].end, children[0].end);
    } else {
      assert children[..1][1..] == [];
    }
  }

  lemma OrderedWider(nodes: seq<Node>, from: nat, hi: nat, lo: nat)
    requires Ordered(nodes, from, hi) && lo <= from
    ensures Ordered(nodes, lo, hi)
  {}

  lemma {:induction false} BytesOfPrefix(children: seq<Node>, k: nat)
    requires k <= |children|
    ensures Bytes(children[..k]) == Total(Bounds(children)[..k])
  {
    if k > 0 {
      BytesOfPrefix(children[1..], k - 1);
      assert children[..k][1..] == children[1..][..k - 1];
      assert Bounds(children)[..k][1..] == Bounds(children[1..])[..k - 1];
    }
  }

  /** The nodes of a run: siblings that fit together, or the first alone. */
  lemma RunOfNodes(children: seq<Node>, lo: nat, hi: nat, limit: int, depth: nat)
    requires ChildrenFit(children, lo, hi) && children != [] && Length(Bound(children[0])) <= limit
    ensures var k := Siblings(children, limit);
            SpansNodes(Chunk(children[0].start, children[k - 1].end), children[..k]) && Bytes(children[..k]) <= limit
  {
    var k := Siblings(children, limit);
    OrderedPrefix(children, lo, hi, k);
    BytesOfPrefix(children, k);
    FirstFits(Bounds(children), limit);
    if k == 1 { assert children[..1] == [children[0]] && children[..1][1..] == []; }
  }

  /** Nodes that leave no gap. */
  ghost predicate Tight(nodes: seq<Node>, lo: nat, hi: nat) {
    if nodes == [] then lo == hi else lo == nodes[0].start && Tight(nodes[1..], nodes[0].end, hi)
  }

  /** Every node's children fill it. */
  ghost predicate Full(n: Node)
    decreases n
  {
    n.children == [] || (Tight(n.children, n.start, n.end) && AllFull(n.children))
  }

  ghost predicate AllFull(children: seq<Node>)
    decreases children
  {
    children == [] || (Full(children[0]) && AllFull(children[1..]))
  }

  lemma {:induction false} TightConcat(a: seq<Node>, b: seq<Node>, lo: nat, mid: nat, hi: nat)
    requires Tight(a, lo, mid) && Tight(b, mid, hi)
    ensures Tight(a + b, lo, hi)
  {
    if a == [] {
      assert a + b == b;
    } else {
      assert (a + b)[1..] == a[1..] + b;
      TightConcat(a[1..], b, a[0].end, mid, hi);
    }
  }

  lemma {:induction false} TightCut(nodes: seq<Node>, lo: nat, hi: nat, k: nat)
    requires Tight(nodes, lo, hi) && 1 <= k <= |nodes|
    ensures Tight(nodes[..k], lo, nodes[k - 1].end) && Tight(nodes[k..], nodes[k - 1].end, hi)
    decreases k
  {
    if k == 1 {
      assert nodes[..1][1..] == [];
    } else {
      TightCut(nodes[1..], nodes[0].end, hi, k - 1);
      assert nodes[..k][1..] == nodes[1..][..k - 1] && nodes[1..][k - 1..] == nodes[k..];
    }
  }

  lemma {:induction false} FullRest(children: seq<Node>, k: nat)
    requires AllFull(children) && k <= |children|
    ensures AllFull(children[k..])
    decreases k
  {
    if k == 0 {
      assert children[0..] == children;
    } else {
      FullRest(children[1..], k - 1);
      assert children[1..][k - 1..] == children[k..];
    }
  }

  /** The chunks of a split, group by group of nodes. */
  lemma {:induction false} SplitNodes(n: Node, limit: int, depth: nat) returns (groups: seq<seq<Node>>)
    requires WellFormed(n)
    ensures |groups| == |Split(n, limit, depth)|
    ensures forall i :: 0 <= i < |groups| ==> SpansNodes(Split(n, limit, depth)[i], groups[i]) && Sized(groups[i], limit, n, depth)
    ensures LeavesAmong(Flat(groups)) == Leaves(n) && (Full(n) ==> Tight(Flat(groups), n.start, n.end))
    decreases n
  {
    if Unsplittable(n, depth) {
      groups := [[n]];
      assert Flat(groups[1..]) == [] && Flat(groups) == [n] && [n][1..] == [];
      assert LeavesAmong([n]) == Leaves(n);
      assert Occurs(n, depth, n, depth) && Whole(n, depth);
      assert Sized([n], limit, n, depth) && Ordered([n], n.start, n.end);
      assert |Split(n, limit, depth)| == 1 && Split(n, limit, depth)[0] == Bound(n);
    } else {
      groups := RunNodes(n.children, limit, depth, n.start, n.end);
      assert Split(n, limit, depth) == SplitRuns(n.children, limit, depth);
      forall i | 0 <= i < |groups| ensures Sized(groups[i], limit, n, depth) {
        assert SizedAmong(groups[i], limit, n.children, depth + 1);
      }
    }
  }

  /** What the nodes of some siblings' chunks are. */
  ghost predicate NodesOf(groups: seq<seq<Node>>, chunks: seq<Chunk>, limit: int, children: seq<Node>, depth: nat) {
    && |groups| == |chunks|
    && (forall i :: 0 <= i < |groups| ==> SpansNodes(chunks[i], groups[i]) && SizedAmong(groups[i], limit, children, depth))
    && LeavesAmong(Flat(groups)) == LeavesAmong(children)
  }

  ghost predicate NoGaps(groups: seq<seq<Node>>, children: seq<Node>, lo: nat, hi: nat) {
    Tight(children, lo, hi) && AllFull(children) ==> Tight(Flat(groups), lo, hi)
  }

  lemma OversizedNodes(children: seq<Node>, limit: int, depth: nat, first: seq<seq<Node>>, rest: seq<seq<Node>>,
                       chunks: seq<Chunk>, more: seq<Chunk>)
    requires children != [] && |first| == |chunks| && LeavesAmong(Flat(first)) == Leaves(children[0])
    requires forall i :: 0 <= i < |first| ==> SpansNodes(chunks[i], first[i]) && Sized(first[i], limit, children[0], depth)
    requires NodesOf(rest, more, limit, children[1..], depth)
    ensures NodesOf(first + rest, chunks + more, limit, children, depth)
  {
    FlatConcat(first, rest);
    LeavesConcat(Flat(first), Flat(rest));
    forall i | 0 <= i < |first + rest|
      ensures SpansNodes((chunks + more)[i], (first + rest)[i]) && SizedAmong((first + rest)[i], limit, children, depth)
    {
      if i < |first| {
        assert Sized(first[i], limit, children[0], depth);
      } else {
        assert SizedAmong(rest[i - |first|], limit, children[1..], depth);
      }
    }
  }

  lemma SiblingNodes(children: seq<Node>, limit: int, depth: nat, k: nat, rest: seq<seq<Node>>, run: Chunk, more: seq<Chunk>)
    requires 1 <= k <= |children| && SpansNodes(run, children[..k]) && Bytes(children[..k]) <= limit
    requires NodesOf(rest, more, limit, children[k..], depth)
    ensures NodesOf([children[..k]] + rest, [run] + more, limit, children, depth)
  {
    var groups := [children[..k]] + rest;
    assert groups[1..] == rest && children == children[..k] + children[k..];
    LeavesConcat(children[..k], Flat(rest));
    LeavesConcat(children[..k], children[k..]);
    forall i | 0 <= i < |groups|
      ensures SpansNodes(([run] + more)[i], groups[i]) && SizedAmong(groups[i], limit, children, depth)
    {
      if i > 0 { SizedInRest(rest[i - 1], limit, children, k, depth); }
    }
  }

  lemma SiblingsTight(children: seq<Node>, k: nat, rest: seq<seq<Node>>, lo: nat, hi: nat)
    requires 1 <= k <= |children| && Tight(children, lo, hi)
    requires Tight(children[k..], children[k - 1].end, hi) ==> Tight(Flat(rest), children[k - 1].end, hi)
    ensures Tight(Flat([children[..k]] + rest), lo, hi)
  {
    TightCut(children, lo, hi, k);
    TightConcat(children[..k], Flat(rest), lo, children[k - 1].end, hi);
    assert ([children[..k]] + rest)[1..] == rest;
  }

  lemma {:induction false} RunNodes(children: seq<Node>, limit: int, depth: nat, lo: nat, hi: nat) returns (groups: seq<seq<Node>>)
    requires ChildrenFit(children, lo, hi)
    ensures NodesOf(groups, SplitRuns(children, limit, depth), limit, children, depth + 1) && NoGaps(groups, children, lo, hi)
    decreases children
  {
    if children == [] {
      groups := [];
    } else if Length(Bound(children[0])) > limit {
      var first := SplitNodes(children[0], limit, depth + 1);
      var rest := RunNodes(children[1..], limit, depth, children[0].end, hi);
      OversizedNodes(children, limit, depth + 1, first, rest, Split(children[0], limit, depth + 1), SplitRuns(children[1..], limit, depth));
      groups := first + rest;
      if Tight(children, lo, hi) && AllFull(children) {
        FlatConcat(first, rest);
        TightConcat(Flat(first), Flat(rest), lo, children[0].end, hi);
      }
    } else {
      var k := Siblings(children, limit);
      RestFits(children, lo, hi, k);
      var rest := RunNodes(children[k..], limit, depth, children[k - 1].end, hi);
      RunOfNodes(children, lo, hi, limit, depth);
      var run := Chunk(children[0].start, children[k - 1].end);
      SiblingNodes(children, limit, depth + 1, k, rest, run, SplitRuns(children[k..], limit, depth));
      FirstRun(children, k, children[k..], run, limit, depth);
      groups := [children[..k]] + rest;
      if Tight(children, lo, hi) && AllFull(children) {
        FullRest(children, k);
        SiblingsTight(children, k, rest, lo, hi);
      }
    }
  }

  lemma SizedInRest(nodes: seq<Node>, limit: int, children: seq<Node>, k: nat, depth: nat)
    requires k <= |children| && SizedAmong(nodes, limit, children[k..], depth)
    ensures SizedAmong(nodes, limit, children, depth)
  {
    if Bytes(nodes) > limit {
      var d :| OccursAmong(nodes[0], d, children[k..], depth) && Whole(nodes[0], d);
      OccursInRest(nodes[0], d, children, k, depth);
    }
  }

  // ---- the nodes of a merged chunk -------------------------------------------------------------------

  lemma {:induction false} BytesConcat(a: seq<Node>, b: seq<Node>)
    ensures Bytes(a + b) == Bytes(a) + Bytes(b)
  {
    if a == [] {
      assert a + b == b;
    } else {
      assert (a + b)[1..] == a[1..] + b;
      BytesConcat(a[1..], b);
    }
  }

  lemma {:induction false} BytesFit(nodes: seq<Node>, lo: nat, hi: nat)
    requires Ordered(nodes, lo, hi)
    ensures Bytes(nodes) <= hi - lo
  {
    if nodes != [] { BytesFit(nodes[1..], nodes[0].end, hi); }
  }

  lemma {:induction false} OrderedConcat(a: seq<Node>, b: seq<Node>, lo: nat, mid: nat, from: nat, hi: nat)
    requires Ordered(a, lo, mid) && Ordered(b, from, hi) && mid <= from
    ensures Ordered(a + b, lo, hi)
  {
    BytesFit(b, from, hi);
    if a == [] {
      assert a + b == b;
      OrderedStart(b, from, hi);
      OrderedWider(b, from, hi, lo);
    } else {
      assert (a + b)[1..] == a[1..] + b;
      OrderedConcat(a[1..], b, a[0].end, mid, from, hi);
      OrderedStart(a[1..], a[0].end, mid);
      OrderedStart(b, from, hi);
    }
  }

  lemma {:induction false} OrderedStart(nodes: seq<Node>, lo: nat, hi: nat)
    requires Ordered(nodes, lo, hi)
    ensures lo <= hi
  {
    if nodes != [] { OrderedStart(nodes[1..], nodes[0].end, hi); }
  }

  /** Neighbouring chunks' nodes together: they span from the first to the last, and come to no more than the chunks do. */
  lemma JoinTwo(first: Chunk, nodes: seq<Node>, rest: Chunk, others: seq<Node>)
    requires SpansNodes(first, nodes) && SpansNodes(rest, others) && first.end <= rest.start
    ensures SpansNodes(Chunk(first.start, rest.end), nodes + others) && Bytes(nodes + others) == Bytes(nodes) + Bytes(others)
  {
    OrderedConcat(nodes, others, first.start, first.end, rest.start, rest.end);
    BytesConcat(nodes, others);
  }

  ghost predicate AllSpanned(chunks: seq<Chunk>, groups: seq<seq<Node>>) {
    |groups| == |chunks| && forall i :: 0 <= i < |groups| ==> SpansNodes(chunks[i], groups[i])
  }

  /** Neighbouring chunks' nodes together: they span from the first to the last, and come to no more than the chunks do. */
  lemma {:induction false} JoinNodes(chunks: seq<Chunk>, groups: seq<seq<Node>>, lo: nat, hi: nat, k: nat)
    requires Laid(chunks, lo, hi) && AllSpanned(chunks, groups) && 1 <= k <= |chunks|
    ensures SpansNodes(Chunk(chunks[0].start, chunks[k - 1].end), Flat(groups[..k]))
    ensures Bytes(Flat(groups[..k])) <= Total(chunks[..k])
    decreases k
  {
    BytesFit(groups[0], chunks[0].start, chunks[0].end);
    if k == 1 {
      assert groups[..1][1..] == [] && Flat(groups[..1]) == groups[0] && chunks[..1][1..] == [];
    } else {
      assert AllSpanned(chunks[1..], groups[1..]);
      JoinNodes(chunks[1..], groups[1..], chunks[0].end, hi, k - 1);
      assert groups[..k][1..] == groups[1..][..k - 1] && chunks[..k][1..] == chunks[1..][..k - 1];
      JoinTwo(chunks[0], groups[0], Chunk(chunks[1].start, chunks[k - 1].end), Flat(groups[1..][..k - 1]));
    }
  }

  ghost predicate AllSized(nodes: seq<seq<Node>>, limit: int, root: Node) {
    forall i :: 0 <= i < |nodes| ==> Sized(nodes[i], limit, root, 0)
  }

  /** Merging joins the chunks' nodes. */
  lemma {:induction false} MergeNodes(chunks: seq<Chunk>, nodes: seq<seq<Node>>, limit: int, lo: nat, hi: nat, root: Node)
    returns (groups: seq<seq<Node>>)
    requires Laid(chunks, lo, hi) && AllSpanned(chunks, nodes) && AllSized(nodes, limit, root)
    ensures Flat(groups) == Flat(nodes)
    ensures AllSpanned(Merged(chunks, limit), groups) && AllSized(groups, limit, root)
    decreases |chunks|
  {
    if chunks == [] {
      groups := [];
    } else {
      var k := First(chunks, limit);
      LaidCut(chunks, lo, hi, k);
      assert AllSpanned(chunks[k..], nodes[k..]) && AllSized(nodes[k..], limit, root);
      var rest := MergeNodes(chunks[k..], nodes[k..], limit, chunks[k - 1].end, hi, root);
      groups := [Flat(nodes[..k])] + rest;
      FirstMerged(chunks, limit, k);
      FirstGroup(chunks, nodes, limit, lo, hi, root, k);
      FlatRest(nodes, k, rest);
    }
  }

  lemma FirstGroup(chunks: seq<Chunk>, nodes: seq<seq<Node>>, limit: int, lo: nat, hi: nat, root: Node, k: nat)
    requires Laid(chunks, lo, hi) && AllSpanned(chunks, nodes) && AllSized(nodes, limit, root)
    requires chunks != [] && k == First(chunks, limit)
    ensures SpansNodes(Chunk(chunks[0].start, chunks[k - 1].end), Flat(nodes[..k])) && Sized(Flat(nodes[..k]), limit, root, 0)
  {
    JoinNodes(chunks, nodes, lo, hi, k);
    FirstFits(chunks, limit);
    FirstSized(chunks, nodes, limit, k, root);
  }

  lemma FlatRest(nodes: seq<seq<Node>>, k: nat, rest: seq<seq<Node>>)
    requires k <= |nodes| && Flat(rest) == Flat(nodes[k..])
    ensures Flat([Flat(nodes[..k])] + rest) == Flat(nodes)
  {
    assert ([Flat(nodes[..k])] + rest)[1..] == rest && nodes == nodes[..k] + nodes[k..];
    FlatConcat(nodes[..k], nodes[k..]);
  }

  lemma FirstMerged(chunks: seq<Chunk>, limit: int, k: nat)
    requires chunks != [] && k == First(chunks, limit)
    ensures Merged(chunks, limit) == [Chunk(chunks[0].start, chunks[k - 1].end)] + Merged(chunks[k..], limit)
  {
    assert chunks[0..] == chunks;
    OneMerged(chunks, 0, k, limit);
  }

  lemma FirstSized(chunks: seq<Chunk>, nodes: seq<seq<Node>>, limit: int, k: nat, root: Node)
    requires 1 <= k <= |nodes| == |chunks| && Sized(nodes[0], limit, root, 0)
    requires Bytes(Flat(nodes[..k])) <= Total(chunks[..k]) && (k == 1 || Total(chunks[..k]) <= limit)
    ensures Sized(Flat(nodes[..k]), limit, root, 0)
  {
    if k == 1 { assert nodes[..1][1..] == [] && Flat(nodes[..1]) == nodes[0]; }
  }

  /** Every chunk of a tree spans whole nodes of it, and together these hold each leaf once, in order; the nodes of a chunk
      come to no more than the limit, unless they are one leaf, one node shorter than 50 bytes or one deeper than 500. */
  lemma ChunksAreNodes(root: Node, limit: int) returns (groups: seq<seq<Node>>)
    requires WellFormed(root)
    ensures |groups| == |TreeChunks(root, limit)|
    ensures forall i :: 0 <= i < |groups| ==> SpansNodes(TreeChunks(root, limit)[i], groups[i]) && Sized(groups[i], limit, root, 0)
    ensures LeavesAmong(Flat(groups)) == Leaves(root) && (Full(root) ==> Tight(Flat(groups), root.start, root.end))
  {
    var nodes := SplitNodes(root, limit, 0);
    SplitIsLaid(root, limit, 0);
    groups := MergeNodes(Split(root, limit, 0), nodes, limit, root.start, root.end, root);
  }

  // ---- how long a chunk gets -------------------------------------------------------------------------

  lemma {:induction false} TightBytes(nodes: seq<Node>, lo: nat, hi: nat)
    requires Tight(nodes, lo, hi)
    ensures Bytes(nodes) == hi - lo
  {
    if nodes != [] { TightBytes(nodes[1..], nodes[0].end, hi); }
  }

  /** A part of tight nodes is tight. */
  lemma {:induction false} GroupIsTight(groups: seq<seq<Node>>, lo: nat, hi: nat, i: nat)
    requires Tight(Flat(groups), lo, hi) && i < |groups| && forall j :: 0 <= j < |groups| ==> groups[j] != []
    ensures Bytes(groups[i]) == groups[i][|groups[i]| - 1].end - groups[i][0].start
    decreases i
  {
    var k := |groups[0]|;
    assert Flat(groups)[..k] == groups[0] && Flat(groups)[k..] == Flat(groups[1..]) && Flat(groups)[k - 1] == groups[0][k - 1];
    TightCut(Flat(groups), lo, hi, k);
    if i == 0 {
      TightBytes(groups[0], lo, groups[0][k - 1].end);
    } else {
      assert groups[i] == groups[1..][i - 1];
      GroupIsTight(groups[1..], groups[0][k - 1].end, hi, i - 1);
    }
  }

  /** In a tree without gaps a chunk longer than the limit is one leaf, one node shorter than 50 bytes or one deeper than 500. */
  lemma LongChunksAreWhole(root: Node, limit: int, i: nat)
    requires WellFormed(root) && Full(root) && i < |TreeChunks(root, limit)|
    requires TreeChunks(root, limit)[i].end - TreeChunks(root, limit)[i].start > limit
    ensures exists m, d :: Occurs(m, d, root, 0) && (m.children == [] || m.end - m.start < 50 || d > 500)
              && TreeChunks(root, limit)[i] == Chunk(m.start, m.end)
  {
    var groups := ChunksAreNodes(root, limit);
    assert SpansNodes(TreeChunks(root, limit)[i], groups[i]) && Sized(groups[i], limit, root, 0);
    GroupIsTight(groups, root.start, root.end, i);
    var d :| Occurs(groups[i][0], d, root, 0) && Whole(groups[i][0], d);
  }

  /** Between nodes, bytes are not counted: two leaves of five bytes each make one chunk of sixty under a limit of ten. */
  lemma GapsMakeChunksLong() returns (root: Node)
    ensures WellFormed(root) && root.children != [] && root.end - root.start >= 50
    ensures TreeChunks(root, 10) == [Chunk(0, 60)]
  {
    var one, other := Node(0, 5, []), Node(55, 60, []);
    root := Node(0, 60, [one, other]);
    assert root.children[1..] == [other] && [other][1..] == [];
    assert WellFormed(one) && WellFormed(other) && ChildrenFit([], 60, 60) && ChildrenFit([other], 5, 60);
    var bounds := [Chunk(0, 5), Chunk(55, 60)];
    assert Bounds([other]) == [Chunk(55, 60)] && Bounds(root.children) == bounds;
    assert bounds[1..] == [Chunk(55, 60)] && bounds[1..][1..] == [];
    assert Fit(bounds[1..], 5, 10) == 1;
    FirstRun(root.children, 2, [], Chunk(0, 60), 10, 0);
    assert |Split(root, 10, 0)| == 1 && Split(root, 10, 0)[0] == Chunk(0, 60);
    FirstMerged(Split(root, 10, 0), 10, 1);
  }
}
