/** Splitting a parse tree into chunks (chunking/core.py, _merge_node_inner and _merge_node). */
module TreeChunking {
  import opened Chunking

  const RECURSION_DEPTH := 500
  const MIN_CHUNK_SIZE := 50

  datatype Node = Node(start: nat, end: nat, children: seq<Node>)

  function Bound(n: Node): Chunk { Chunk(n.start, n.end) }

  function Bounds(children: seq<Node>): (r: seq<Chunk>)
    ensures |r| == |children| && forall i :: 0 <= i < |children| ==> r[i] == Bound(children[i])
  {
    if children == [] then [] else [Bound(children[0])] + Bounds(children[1..])
  }

  predicate Unsplittable(n: Node, depth: nat) {
    n.children == [] || depth > RECURSION_DEPTH || n.end - n.start < MIN_CHUNK_SIZE
  }

  /** The chunks of one node: itself, or those of its children in runs that fit. */
  function Split(n: Node, limit: int, depth: nat): seq<Chunk>
    decreases n
  {
    if Unsplittable(n, depth) then [Bound(n)] else SplitRuns(n.children, limit, depth)
  }

  /** How many siblings fit beside the first child, itself included. */
  function Siblings(children: seq<Node>, limit: int): (k: nat)
    requires children != []
    ensures 1 <= k <= |children|
  {
    First(Bounds(children), limit)
  }

  /** An oversized child is split on its own; any other takes along the siblings that fit beside it. */
  function SplitRuns(children: seq<Node>, limit: int, depth: nat): seq<Chunk>
    decreases children
  {
    if children == [] then []
    else if Length(Bound(children[0])) > limit then
      Split(children[0], limit, depth + 1) + SplitRuns(children[1..], limit, depth)
    else
      var k := Siblings(children, limit);
      [Chunk(children[0].start, children[k - 1].end)] + SplitRuns(children[k..], limit, depth)
  }

  // ---- trees ----------------------------------------------------------------------------------

  /** Children ordered, disjoint and inside their parent, at every level. */
  ghost predicate WellFormed(n: Node)
    decreases n
  {
    n.start <= n.end && ChildrenFit(n.children, n.start, n.end)
  }

  ghost predicate ChildrenFit(children: seq<Node>, lo: nat, hi: nat)
    decreases children
  {
    if children == [] then lo <= hi
    else
      && lo <= children[0].start && WellFormed(children[0]) && children[0].end <= hi
      && ChildrenFit(children[1..], children[0].end, hi)
  }

  ghost predicate LeafOf(leaf: Node, n: Node)
    decreases n
  {
    if n.children == [] then leaf == n else LeafAmong(leaf, n.children)
  }

  ghost predicate LeafAmong(leaf: Node, children: seq<Node>)
    decreases children
  {
    children != [] && (LeafOf(leaf, children[0]) || LeafAmong(leaf, children[1..]))
  }

  lemma {:induction false} ChildrenAreLaid(children: seq<Node>, lo: nat, hi: nat)
    requires ChildrenFit(children, lo, hi)
    ensures Laid(Bounds(children), lo, hi)
    decreases |children|
  {
    if children != [] { ChildrenAreLaid(children[1..], children[0].end, hi); }
  }

  /** What follows the first siblings still fits. */
  lemma {:induction false} RestFits(children: seq<Node>, lo: nat, hi: nat, k: nat)
    requires ChildrenFit(children, lo, hi) && 1 <= k <= |children|
    ensures ChildrenFit(children[k..], children[k - 1].end, hi)
    ensures forall i :: 0 <= i < k ==> WellFormed(children[i])
    decreases |children|
  {
    if k > 1 {
      RestFits(children[1..], children[0].end, hi, k - 1);
      assert children[1..][k - 1..] == children[k..];
      assert forall i :: 1 <= i < k ==> children[i] == children[1..][i - 1];
    }
  }

  lemma {:induction false} LeafInside(leaf: Node, n: Node)
    requires WellFormed(n) && LeafOf(leaf, n)
    ensures n.start <= leaf.start <= leaf.end <= n.end
    decreases n
  {
    if n.children != [] { LeafInsideSome(leaf, n.children, n.start, n.end); }
  }

  lemma {:induction false} LeafInsideSome(leaf: Node, children: seq<Node>, lo: nat, hi: nat)
    requires ChildrenFit(children, lo, hi) && LeafAmong(leaf, children)
    ensures lo <= leaf.start <= leaf.end <= hi
    ensures exists i :: 0 <= i < |children| && LeafOf(leaf, children[i])
    decreases children
  {
    if LeafOf(leaf, children[0]) {
      LeafInside(leaf, children[0]);
    } else {
      LeafInsideSome(leaf, children[1..], children[0].end, hi);
      var i :| 0 <= i < |children[1..]| && LeafOf(leaf, children[1..][i]);
      assert children[i + 1] == children[1..][i];
    }
  }

  lemma {:induction false} LeafAmongRest(leaf: Node, children: seq<Node>, k: nat)
    requires k <= |children| && LeafAmong(leaf, children)
    ensures LeafAmong(leaf, children[k..]) || exists i :: 0 <= i < k && LeafOf(leaf, children[i])
    decreases k
  {
    if k == 0 {
      assert children[0..] == children;
    } else if !LeafOf(leaf, children[0]) {
      LeafAmongRest(leaf, children[1..], k - 1);
      assert children[1..][k - 1..] == children[k..];
      if i :| 0 <= i < k - 1 && LeafOf(leaf, children[1..][i]) { assert children[i + 1] == children[1..][i]; }
    }
  }

  // ---- splitting loses and duplicates nothing ---------------------------------------------------

  lemma {:induction false} SplitIsLaid(n: Node, limit: int, depth: nat)
    requires WellFormed(n)
    ensures Split(n, limit, depth) != [] && Laid(Split(n, limit, depth), n.start, n.end)
    decreases n
  {
    if !Unsplittable(n, depth) { RunsAreLaid(n.children, limit, depth, n.start, n.end); }
  }

  lemma {:induction false} RunsAreLaid(children: seq<Node>, limit: int, depth: nat, lo: nat, hi: nat)
    requires ChildrenFit(children, lo, hi)
    ensures Laid(SplitRuns(children, limit, depth), lo, hi)
    ensures children != [] ==> SplitRuns(children, limit, depth) != []
    decreases children
  {
    if children != [] {
      if Length(Bound(children[0])) > limit {
        SplitIsLaid(children[0], limit, depth + 1);
        RunsAreLaid(children[1..], limit, depth, children[0].end, hi);
        LaidWider(Split(children[0], limit, depth + 1), lo, children[0].start, children[0].end);
        LaidConcat(Split(children[0], limit, depth + 1), SplitRuns(children[1..], limit, depth), lo, children[0].end, hi);
      } else {
        var k := First(Bounds(children), limit);
        ChildrenAreLaid(children, lo, hi);
        LaidCut(Bounds(children), lo, hi, k);
        RestFits(children, lo, hi, k);
        RunsAreLaid(children[k..], limit, depth, children[k - 1].end, hi);
        assert SplitRuns(children, limit, depth)[1..] == SplitRuns(children[k..], limit, depth);
      }
    }
  }

  lemma HoldsEither(a: seq<Chunk>, b: seq<Chunk>, c: Chunk)
    requires Holds(a, c) || Holds(b, c)
    ensures Holds(a + b, c)
  {
    if i :| 0 <= i < |a| && a[i].start <= c.start && c.end <= a[i].end {
      assert (a + b)[i] == a[i];
    } else {
      var j :| 0 <= j < |b| && b[j].start <= c.start && c.end <= b[j].end;
      assert (a + b)[|a| + j] == b[j];
    }
  }

  /** Every leaf lies whole in one chunk of the split. */
  lemma {:induction false} SplitHoldsLeaf(n: Node, limit: int, depth: nat, leaf: Node)
    requires WellFormed(n) && LeafOf(leaf, n)
    ensures Holds(Split(n, limit, depth), Bound(leaf))
    decreases n
  {
    LeafInside(leaf, n);
    if Unsplittable(n, depth) {
      assert Split(n, limit, depth)[0] == Bound(n);
    } else {
      RunsHoldLeaf(n.children, limit, depth, n.start, n.end, leaf);
    }
  }

  lemma {:induction false} RunsHoldLeaf(children: seq<Node>, limit: int, depth: nat, lo: nat, hi: nat, leaf: Node)
    requires ChildrenFit(children, lo, hi) && LeafAmong(leaf, children)
    ensures Holds(SplitRuns(children, limit, depth), Bound(leaf))
    decreases children
  {
    if Length(Bound(children[0])) > limit {
      if LeafOf(leaf, children[0]) {
        SplitHoldsLeaf(children[0], limit, depth + 1, leaf);
      } else {
        RunsHoldLeaf(children[1..], limit, depth, children[0].end, hi, leaf);
      }
      HoldsEither(Split(children[0], limit, depth + 1), SplitRuns(children[1..], limit, depth), Bound(leaf));
    } else {
      var k := First(Bounds(children), limit);
      var run := [Chunk(children[0].start, children[k - 1].end)];
      RestFits(children, lo, hi, k);
      LeafAmongRest(leaf, children, k);
      if LeafAmong(leaf, children[k..]) {
        RunsHoldLeaf(children[k..], limit, depth, children[k - 1].end, hi, leaf);
      } else {
        RunHoldsLeaf(children, lo, hi, k, leaf);
        assert run[0] == Chunk(children[0].start, children[k - 1].end);
      }
      HoldsEither(run, SplitRuns(children[k..], limit, depth), Bound(leaf));
    }
  }

  lemma RunHoldsLeaf(children: seq<Node>, lo: nat, hi: nat, k: nat, leaf: Node)
    requires ChildrenFit(children, lo, hi) && 1 <= k <= |children|
    requires exists i :: 0 <= i < k && LeafOf(leaf, children[i])
    ensures children[0].start <= leaf.start && leaf.end <= children[k - 1].end
  {
    var i :| 0 <= i < k && LeafOf(leaf, children[i]);
    RestFits(children, lo, hi, k);
    LeafInside(leaf, children[i]);
    ChildrenAreLaid(children, lo, hi);
    LaidCut(Bounds(children), lo, hi, k);
    assert Bounds(children)[i] == Bound(children[i]);
  }

  ghost function TreeChunks(root: Node, limit: int): seq<Chunk> { Merged(Split(root, limit, 0), limit) }

  predicate InChunk(chunks: seq<Chunk>, i: int, offset: nat) { 0 <= i < |chunks| && chunks[i].start <= offset < chunks[i].end }

  /** Chunking a tree: the chunks are ordered, disjoint and inside the root, and every byte of every leaf lies in
      exactly one of them. */
  lemma EveryLeafByteInOneChunk(root: Node, limit: int, leaf: Node, offset: nat)
    requires WellFormed(root) && LeafOf(leaf, root) && leaf.start <= offset < leaf.end
    ensures Laid(TreeChunks(root, limit), root.start, root.end)
    ensures exists i :: InChunk(TreeChunks(root, limit), i, offset)
    ensures forall i, j :: InChunk(TreeChunks(root, limit), i, offset) && InChunk(TreeChunks(root, limit), j, offset) ==> i == j
  {
    var raw, chunks := Split(root, limit, 0), TreeChunks(root, limit);
    SplitIsLaid(root, limit, 0);
    SplitHoldsLeaf(root, limit, 0, leaf);
    MergedIsLaid(raw, limit, root.start, root.end);
    var r :| 0 <= r < |raw| && raw[r].start <= leaf.start && leaf.end <= raw[r].end;
    assert Holds(chunks, raw[r]);
    var i :| 0 <= i < |chunks| && chunks[i].start <= raw[r].start && raw[r].end <= chunks[i].end;
    assert InChunk(chunks, i, offset);
    forall i, j | InChunk(chunks, i, offset) && InChunk(chunks, j, offset) ensures i == j {
      if i < j { LaidApart(chunks, root.start, root.end, i, j); }
      if j < i { LaidApart(chunks, root.start, root.end, j, i); }
    }
  }

  // ---- the split as it is computed --------------------------------------------------------------

  method SplitNode(n: Node, limit: int, depth: nat) returns (groups: seq<Chunk>)
    ensures groups == Split(n, limit, depth)
    decreases n
  {
    if n.children == [] || depth > RECURSION_DEPTH || n.end - n.start < MIN_CHUNK_SIZE {
      return [Chunk(n.start, n.end)];
    }
    groups := [];
    var children, index := n.children, 0;
    while index < |children|
      invariant index <= |children|
      invariant SplitRuns(children, limit, depth) == groups + SplitRuns(children[index..], limit, depth)
    {
      var run, next := NextRun(children, index, limit, depth);
      groups := groups + run;
      index := next;
    }
  }

  method NextRun(children: seq<Node>, index: nat, limit: int, depth: nat) returns (run: seq<Chunk>, next: nat)
    requires index < |children|
    ensures index < next <= |children|
    ensures SplitRuns(children[index..], limit, depth) == run + SplitRuns(children[next..], limit, depth)
    decreases children
  {
    var child := children[index];
    if child.end - child.start > limit {
      run := SplitNode(child, limit, depth + 1);
      next := index + 1;
      OversizedChild(children, index, limit, depth);
    } else {
      next := FillGroup(children, index, limit);
      run := [Chunk(child.start, children[next - 1].end)];
      TailOfTail(children, index, next);
      FirstRun(children[index..], next - index, children[next..], run[0], limit, depth);
    }
  }

  lemma OversizedChild(children: seq<Node>, index: nat, limit: int, depth: nat)
    requires index < |children| && Length(Bound(children[index])) > limit
    ensures SplitRuns(children[index..], limit, depth) ==
            Split(children[index], limit, depth + 1) + SplitRuns(children[index + 1..], limit, depth)
  {
    assert children[index..][1..] == children[index + 1..];
  }

  /** A run takes every sibling that still fits: no more of them come to the limit or less. */
  lemma SiblingsTakeAll(children: seq<Node>, lo: nat, hi: nat, limit: int, m: nat)
    requires ChildrenFit(children, lo, hi) && 1 <= m <= |children| && Total(Bounds(children[..m])) <= limit
    ensures m <= Siblings(children, limit)
  {
    BoundsOfPrefix(children, m);
    ChildrenAreProper(children, lo, hi);
    FirstTakesAll(Bounds(children), limit, m);
  }

  lemma {:induction false} BoundsOfPrefix(children: seq<Node>, m: nat)
    requires m <= |children|
    ensures Bounds(children[..m]) == Bounds(children)[..m]
  {}

  lemma {:induction false} ChildrenAreProper(children: seq<Node>, lo: nat, hi: nat)
    requires ChildrenFit(children, lo, hi)
    ensures AllProper(Bounds(children))
    decreases |children|
  {
    if children != [] { ChildrenAreProper(children[1..], children[0].end, hi); }
  }

  /** A run of siblings, with the children after it and the chunk it makes. */
  lemma FirstRun(children: seq<Node>, k: nat, rest: seq<Node>, run: Chunk, limit: int, depth: nat)
    requires children != [] && Length(Bound(children[0])) <= limit && k == Siblings(children, limit)
    requires rest == children[k..] && run == Chunk(children[0].start, children[k - 1].end)
    ensures SplitRuns(children, limit, depth) == [run] + SplitRuns(rest, limit, depth)
  {
    var after := SplitRuns(rest, limit, depth);
    assert SplitRuns(children, limit, depth) == [run] + after;
  }

  lemma TailOfTail(children: seq<Node>, index: nat, next: nat)
    requires index < next <= |children|
    ensures children[index..][next - index..] == children[next..]
    ensures children[index..][0] == children[index] && children[index..][next - index - 1] == children[next - 1]
  {}

  lemma BoundsOfTail(children: seq<Node>, k: nat)
    requires k <= |children|
    ensures Bounds(children)[k..] == Bounds(children[k..])
  {}

  /** The group from a child on ends where the greedy first group of its tail does. */
  method FillGroup(children: seq<Node>, from: nat, limit: int) returns (index: nat)
    requires from < |children|
    ensures from < index <= |children| && index - from == First(Bounds(children[from..]), limit)
  {
    ghost var bounds := Bounds(children);
    index := from + 1;
    var length := children[from].end - children[from].start;
    GroupStarts(bounds, limit, from);
    while index < |children| && length + children[index].end - children[index].start <= limit
      invariant InGroup(bounds, limit, from, index, length)
    {
      GroupGrows(bounds, limit, from, index, length);
      length := length + children[index].end - children[index].start;
      index := index + 1;
    }
    GroupIsFull(bounds, limit, from, index, length);
    BoundsOfTail(children, from);
  }

  method ChunkTree(root: Node, limit: int) returns (chunks: seq<Chunk>)
    requires WellFormed(root)
    ensures chunks == TreeChunks(root, limit)
  {
    var raw := SplitNode(root, limit, 0);
    SplitIsLaid(root, limit, 0);
    chunks := MergeAdjacent(raw, limit);
  }
}
