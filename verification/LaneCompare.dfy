/** Which files of a lane are its base's, byte for byte (lane.py, LaneScope and LaneComparer). */
module LaneCompare {
  import opened GitRoots
  import opened Lists
  import opened Options

  // ---- the innermost checkout ----------------------------------------------------------------

  /** A checkout, by its prefix below the root, holds what lies below it; the root itself holds everything. */
  predicate Under(prefix: Place, relative: Place) { prefix == [] || (prefix <= relative && prefix != relative) }

  /** What sorting by length, longest first, comes to: no checkout precedes one inside it. */
  ghost predicate LongestFirst(prefixes: seq<Place>) {
    forall i, j :: 0 <= i < j < |prefixes| ==> !(prefixes[i] < prefixes[j])
  }

  function Innermost(prefixes: seq<Place>, relative: Place): (p: Option<Place>)
    ensures p.Some? ==> p.value in prefixes && Under(p.value, relative)
  {
    if prefixes == [] then None
    else if Under(prefixes[0], relative) then Some(prefixes[0])
    else Innermost(prefixes[1..], relative)
  }

  /** The first match is the innermost: every other checkout holding the path holds it too. */
  lemma {:induction false} InnermostIsDeepest(prefixes: seq<Place>, relative: Place)
    requires LongestFirst(prefixes)
    ensures match Innermost(prefixes, relative)
            case Some(p) =>
              && p in prefixes && (p == [] || p < relative)
              && forall q :: q in prefixes && (q == [] || q < relative) ==> |q| <= |p| && q <= p
            case None => forall q :: q in prefixes ==> q != [] && !(q < relative)
  {
    if prefixes != [] {
      var p, rest := prefixes[0], prefixes[1..];
      if Under(p, relative) {
        forall q | q in prefixes && Under(q, relative) ensures q <= p {
          var i :| 0 <= i < |prefixes| && prefixes[i] == q;
          assert !(p < q);
          assert p == relative[..|p|] && q == relative[..|q|];
        }
      } else {
        InnermostIsDeepest(rest, relative);
        forall q | q in prefixes && Under(q, relative) ensures q in rest {}
      }
    }
  }

  /** Only the innermost checkout counts, and a path under none is the lane's. */
  method Holds(checkouts: seq<Place>, held: set<Place>, relative: Place) returns (r: bool)
    ensures r <==> Innermost(checkouts, relative).None? || Innermost(checkouts, relative).value in held
  {
    var i := 0;
    while i < |checkouts|
      invariant i <= |checkouts| && Innermost(checkouts, relative) == Innermost(checkouts[i..], relative)
    {
      assert checkouts[i..][1..] == checkouts[i + 1..];
      if Under(checkouts[i], relative) { return checkouts[i] in held; }
      i := i + 1;
    }
    return true;
  }

  // ---- comparing ---------------------------------------------------------------------------------

  /** A file's bytes are only compared. */
  type Blob = nat

  type Tree = Place -> Option<Blob>

  /** What git knows of one matched checkout: the paths tracked in the lane and in the base, and the commit the base is at. */
  datatype Checkout = Checkout(tracked: set<Place>, baseTracked: set<Place>, head: map<Place, Blob>)

  /** The lane: two roots, what git knows of each matched checkout where it could tell, and the files of the two trees. */
  datatype Lane = Lane(root: Place, base: Place, prefixes: seq<Place>, checkouts: map<Place, Option<Checkout>>,
                       laneFiles: Tree, baseFiles: Tree)

  function Committed(head: map<Place, Blob>, inside: Place): Option<Blob> {
    if inside in head then Some(head[inside]) else None
  }

  /** What one comparison of a working tree with a commit lists: the tracked paths where they differ, and every committed
      path that is tracked no more, whatever file is there. */
  function DiffNames(tracked: set<Place>, head: map<Place, Blob>, tree: Tree, prefix: Place): set<Place> {
    (set p | p in tracked && tree(prefix + p) != Committed(head, p)) + (head.Keys - tracked)
  }

  datatype RepoState = RepoState(tracked: set<Place>, differing: set<Place>)

  /** Both trees are compared with the base's commit, the lane's and the base's own. */
  function StateOf(lane: Lane, prefix: Place, g: Checkout): RepoState {
    RepoState(g.tracked, DiffNames(g.tracked, g.head, lane.laneFiles, prefix) + DiffNames(g.baseTracked, g.head, lane.baseFiles, prefix))
  }

  /** Every matched checkout's state, asked for once. */
  function States(lane: Lane): map<Place, Option<RepoState>> {
    map p | p in lane.checkouts ::
      if lane.checkouts[p].Some? then Some(StateOf(lane, p, lane.checkouts[p].value)) else None
  }

  /** The state that speaks for a path, with the path inside its checkout. */
  function Asked(lane: Lane, relative: Place): Option<(Place, Checkout)> {
    match Innermost(lane.prefixes, relative)
    case None => None
    case Some(p) =>
      if p in lane.checkouts && lane.checkouts[p].Some? && relative[|p|..] in lane.checkouts[p].value.tracked then
        Some((p, lane.checkouts[p].value))
      else None
  }

  const PROBE: Name := "_"

  function SameDirectory(hasGit: Place -> bool, lane: Lane, directory: Place): bool {
    CapsulePath(hasGit, lane.root + directory + [PROBE], directory + [PROBE])
    == CapsulePath(hasGit, lane.base + directory + [PROBE], directory + [PROBE])
  }

  /** What git said of a path: nothing when no checkout holds it, git failed there, or it is not tracked. */
  function Judged(lane: Lane, states: map<Place, Option<RepoState>>, relative: Place): Option<bool> {
    match Innermost(lane.prefixes, relative)
    case None => None
    case Some(p) =>
      if p !in states || states[p].None? then None
      else
        var state, inside := states[p].value, relative[|p|..];
        if inside in state.tracked then Some(inside !in state.differing) else None
  }

  predicate SameBytes(lane: Lane, relative: Place) {
    lane.laneFiles(relative).Some? && lane.laneFiles(relative) == lane.baseFiles(relative)
  }

  function Same(hasGit: Place -> bool, lane: Lane, relative: Place): bool
    requires relative != []
  {
    SameDirectory(hasGit, lane, Parent(relative)) &&
    match Judged(lane, States(lane), relative)
    case Some(same) => same
    case None => SameBytes(lane, relative)
  }

  ghost predicate SameCapsulePath(hasGit: Place -> bool, lane: Lane, relative: Place)
    requires relative != []
  {
    CapsulePath(hasGit, lane.root + relative, relative) == CapsulePath(hasGit, lane.base + relative, relative)
  }

  /** The file is in both trees as the base's commit has it, and if it is committed the base still tracks it; a file the
      base neither committed nor tracks is not looked at. */
  predicate AsCommitted(lane: Lane, relative: Place) {
    match Asked(lane, relative)
    case None => false
    case Some((p, g)) =>
      var inside := relative[|p|..];
      && lane.laneFiles(relative) == Committed(g.head, inside)
      && (inside in g.head ==> inside in g.baseTracked)
      && (inside in g.baseTracked ==> lane.baseFiles(relative) == Committed(g.head, inside))
  }

  /** Git is asked of a path exactly when its checkout tracks it, and the union of the two comparisons leaves it out
      exactly when both trees have it as committed and neither dropped it. */
  lemma GitsWord(lane: Lane, relative: Place)
    ensures Judged(lane, States(lane), relative).Some? <==> Asked(lane, relative).Some?
    ensures Judged(lane, States(lane), relative) == Some(true) <==> AsCommitted(lane, relative)
  {
    if Asked(lane, relative).Some? {
      var (p, g) := Asked(lane, relative).value;
      assert p + relative[|p|..] == relative;
    }
  }

  /** An existing file that both trees have as committed has the same bytes in both. */
  lemma CommittedAlikeIsAlike(lane: Lane, relative: Place)
    requires AsCommitted(lane, relative) && lane.laneFiles(relative).Some?
    ensures SameBytes(lane, relative)
  {}

  lemma DirectoryDecides(hasGit: Place -> bool, lane: Lane, relative: Place)
    requires relative != []
    ensures SameDirectory(hasGit, lane, Parent(relative)) <==> SameCapsulePath(hasGit, lane, relative)
  {
    var directory, name := Parent(relative), relative[|relative| - 1];
    assert relative == directory + [name];
    assert lane.root + relative == lane.root + directory + [name] && lane.base + relative == lane.base + directory + [name];
    ProbeDecides(hasGit, lane.root, lane.base, directory, PROBE, name);
  }

  /** A path called the same has the base's capsule path, and the base's bytes exactly when the lane has a file there.
      A file of the lane is called the same, where git was not asked, exactly when bytes and capsule path are; where it
      was, exactly when both trees also have it as the base's commit does. */
  lemma SameMeansSame(hasGit: Place -> bool, lane: Lane, relative: Place)
    requires relative != []
    ensures Same(hasGit, lane, relative) ==>
            SameCapsulePath(hasGit, lane, relative) && (SameBytes(lane, relative) <==> lane.laneFiles(relative).Some?)
    ensures lane.laneFiles(relative).Some? ==>
            (Same(hasGit, lane, relative) <==>
             && SameBytes(lane, relative) && SameCapsulePath(hasGit, lane, relative)
             && (Asked(lane, relative).Some? ==> AsCommitted(lane, relative)))
  {
    DirectoryDecides(hasGit, lane, relative);
    GitsWord(lane, relative);
    if AsCommitted(lane, relative) && lane.laneFiles(relative).Some? { CommittedAlikeIsAlike(lane, relative); }
  }

  /** A tracked path with no file in the lane can be called the same though the base has a file there that it does not
      track: neither comparison lists it. */
  lemma MissingFileCanBeSame() returns (lane: Lane)
    ensures Judged(lane, States(lane), ["a"]) == Some(true) && !SameBytes(lane, ["a"]) && lane.baseFiles(["a"]) == Some(1)
  {
    var g := Checkout({["a"]}, {}, map[]);
    lane := Lane(["l"], ["b"], [[]], map[[] := Some(g)], p => None, p => Some(1));
    var whole: Place := [];
    assert Under(whole, ["a"]) && Innermost([whole], ["a"]) == Some(whole);
    assert ["a"][|whole|..] == ["a"];
    assert Asked(lane, ["a"]) == Some((whole, g));
    GitsWord(lane, ["a"]);
  }

  datatype Sides = Sides(same: seq<Place>, differing: seq<Place>)

  function Partitioned(hasGit: Place -> bool, lane: Lane, relatives: seq<Place>): Sides
    requires [] !in relatives
    decreases |relatives|
  {
    if relatives == [] then Sides([], [])
    else
      var last := relatives[|relatives| - 1];
      var sides := Partitioned(hasGit, lane, relatives[..|relatives| - 1]);
      if Same(hasGit, lane, last) then sides.(same := sides.same + [last]) else sides.(differing := sides.differing + [last])
  }

  /** Every path lands on its own side, once. */
  lemma {:induction false} PartitionLosesNothing(hasGit: Place -> bool, lane: Lane, relatives: seq<Place>)
    requires [] !in relatives
    ensures var sides := Partitioned(hasGit, lane, relatives);
            multiset(relatives) == multiset(sides.same) + multiset(sides.differing)
    decreases |relatives|
  {
    if relatives != [] {
      var before := Partitioned(hasGit, lane, relatives[..|relatives| - 1]);
      var sides := Partitioned(hasGit, lane, relatives);
      PartitionLosesNothing(hasGit, lane, relatives[..|relatives| - 1]);
      ArrivesSomewhere(relatives, before.same, before.differing, sides.same, sides.differing);
    }
  }

  lemma {:induction false} PartitionJudges(hasGit: Place -> bool, lane: Lane, relatives: seq<Place>)
    requires [] !in relatives
    ensures var sides := Partitioned(hasGit, lane, relatives);
            && (forall r :: r in sides.same ==> r != [] && Same(hasGit, lane, r))
            && (forall r :: r in sides.differing ==> r != [] && !Same(hasGit, lane, r))
    decreases |relatives|
  {
    if relatives != [] { PartitionJudges(hasGit, lane, relatives[..|relatives| - 1]); }
  }

  class LaneComparer {
    const lane: Lane
    const lanePaths: RepoRelativePaths
    const basePaths: RepoRelativePaths
    const hasGit: Place -> bool
    var states: map<Place, Option<RepoState>>
    var sameDirs: map<Place, bool>

    ghost predicate Valid()
      reads this, lanePaths, basePaths
    {
      && lanePaths != basePaths && lanePaths.hasGit == hasGit && basePaths.hasGit == hasGit
      && lanePaths.Valid() && basePaths.Valid() && states == States(lane)
      && forall d :: d in sameDirs ==> sameDirs[d] == SameDirectory(hasGit, lane, d)
    }

    constructor (hasGit: Place -> bool, lane: Lane)
      ensures Valid() && this.lane == lane && this.hasGit == hasGit && fresh(lanePaths) && fresh(basePaths)
    {
      this.lane, this.hasGit := lane, hasGit;
      states := States(lane);
      sameDirs := map[];
      lanePaths := new RepoRelativePaths(hasGit);
      basePaths := new RepoRelativePaths(hasGit);
    }

    /** One probe per directory, remembered. */
    method SameCapsuleDir(directory: Place) returns (same: bool)
      requires Valid()
      modifies this`sameDirs, lanePaths`roots, basePaths`roots
      ensures Valid() && same == SameDirectory(hasGit, lane, directory)
    {
      if directory in sameDirs { return sameDirs[directory]; }
      var probe := directory + [PROBE];
      assert lane.root + directory + [PROBE] == lane.root + probe && lane.base + directory + [PROBE] == lane.base + probe;
      var one := lanePaths.PathFor(lane.root + probe, probe);
      var other := basePaths.PathFor(lane.base + probe, probe);
      same := one == other;
      sameDirs := sameDirs[directory := same];
    }

    method SameFile(relative: Place) returns (same: bool)
      requires Valid() && relative != []
      modifies this`sameDirs, lanePaths`roots, basePaths`roots
      ensures Valid() && same == Same(hasGit, lane, relative)
    {
      var directory := SameCapsuleDir(Parent(relative));
      if !directory { return false; }
      var judged := Judged(lane, states, relative);
      same := if judged.Some? then judged.value else SameBytes(lane, relative);
    }

    /** The memos fill up on the way; the answer is the specification's. */
    method Partition(relatives: seq<Place>) returns (same: seq<Place>, differing: seq<Place>)
      requires Valid() && [] !in relatives
      modifies this`sameDirs, lanePaths`roots, basePaths`roots
      ensures Valid() && Sides(same, differing) == Partitioned(hasGit, lane, relatives)
    {
      same, differing := [], [];
      var i := 0;
      while i < |relatives|
        invariant i <= |relatives| && Valid()
        invariant Sides(same, differing) == Partitioned(hasGit, lane, relatives[..i])
      {
        var r := SameFile(relatives[i]);
        assert relatives[..i + 1][..i] == relatives[..i];
        if r { same := same + [relatives[i]]; } else { differing := differing + [relatives[i]]; }
        i := i + 1;
      }
      assert relatives[..|relatives|] == relatives;
    }
  }
}
