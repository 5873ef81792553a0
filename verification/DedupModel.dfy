/** Units, clone classes and the structural check between two bodies (dedup/model.py, dedup/structure.py). */
module DedupModel {
  import opened Lists
  import opened Options
  import opened Sorting
  import opened EditDistance

  /** A hash is only ever compared. */
  type Hash = string

  datatype Unit = Unit(
    file: string, startLine: nat, endLine: nat, tokens: nat, exactHash: Hash, renamedHash: Hash,
    skeleton: seq<Token>, calls: seq<string>, isBody: bool, hasText: bool)

  datatype CloneKind = Exact | Renamed | Logic | Holed | Idiom | Reimplements | Vocabulary

  datatype Demotion = Rebound | Unreachable

  /** Why a pair was accepted; its text is rendered from the two units and the distance. */
  datatype PairReason = PairReason(left: string, right: string, distance: nat)

  datatype CloneClass = CloneClass(
    kind: CloneKind, members: seq<Unit>, tokens: nat, reasons: seq<PairReason>, inferred: bool,
    demoted: Option<Demotion>)

  // ---- locations --------------------------------------------------------

  function Digits(n: nat): (s: string)
    ensures s != [] && ':' !in s
  {
    var last := ['0' + (n % 10) as char];
    if n < 10 then last else Digits(n / 10) + last
  }

  /** The number a run of digits stands for. */
  function Value(s: string): nat
    requires forall i :: 0 <= i < |s| ==> '0' <= s[i] <= '9'
    decreases |s|
  {
    if s == [] then 0 else 10 * Value(s[..|s| - 1]) + (s[|s| - 1] - '0') as nat
  }

  lemma {:induction false} DigitsAreTheNumber(n: nat)
    ensures (forall i :: 0 <= i < |Digits(n)| ==> '0' <= Digits(n)[i] <= '9') && Value(Digits(n)) == n
  {
    if n >= 10 {
      DigitsAreTheNumber(n / 10);
      var last := '0' + (n % 10) as char;
      assert Digits(n) == Digits(n / 10) + [last] && Digits(n)[..|Digits(n)| - 1] == Digits(n / 10);
    } else {
      assert Digits(n)[..0] == [];
    }
  }

  /** The text that names a unit: its file, a colon, and one line or a span of lines. */
  function Location(u: Unit): string {
    if u.startLine == u.endLine then u.file + ":" + Digits(u.startLine)
    else u.file + ":" + Digits(u.startLine) + "-" + Digits(u.endLine)
  }

  // ---- clone classes ----------------------------------------------------

  function MinTokens(members: seq<Unit>): nat
    requires members != []
  {
    if |members| == 1 then members[0].tokens
    else
      var rest := MinTokens(members[1..]);
      if members[0].tokens < rest then members[0].tokens else rest
  }

  predicate MemberLe(a: Unit, b: Unit) {
    if a.file == b.file then a.startLine <= b.startLine else StringLe(a.file, b.file)
  }

  lemma MemberOrder()
    ensures TotalPreorder(MemberLe)
  {
    forall a, b ensures MemberLe(a, b) || MemberLe(b, a) { StringLeTotal(a.file, b.file); }
    forall a, b, c | MemberLe(a, b) && MemberLe(b, c) ensures MemberLe(a, c) {
      StringLeTotal(a.file, b.file);
      StringLeTotal(b.file, c.file);
      if a.file != b.file && b.file != c.file { StringLeTransitive(a.file, b.file, c.file); }
    }
  }

  /** The members sorted by file and line, the smallest of them giving the class its size. */
  function CloneOf(kind: CloneKind, members: seq<Unit>, reasons: seq<PairReason>): (c: CloneClass)
    requires members != []
    ensures c.members != [] && |c.members| == |members|
    ensures forall u :: u in c.members <==> u in members
    ensures multiset(c.members) == multiset(members)
    ensures Ordered(c.members, MemberLe)
  {
    MemberOrder();
    SortIsOrdered(members, MemberLe);
    SortKeeps(members, MemberLe);
    var ordered := Sort(members, MemberLe);
    CloneClass(kind, ordered, MinTokens(ordered), reasons, false, None)
  }

  function FilesOf(members: seq<Unit>): set<string> { set u | u in members :: u.file }

  const SPREAD_PER_FILE := 3

  predicate RankedByMass(kind: CloneKind) { !kind.Idiom? && !kind.Vocabulary? }

  function Score(c: CloneClass): nat {
    var files := |FilesOf(c.members)|;
    if RankedByMass(c.kind) then c.tokens * |c.members| * files
    else (if |c.members| < SPREAD_PER_FILE * files then |c.members| else SPREAD_PER_FILE * files) * files
  }

  /** Code-evidenced classes first, then inferred, then demoted ones. */
  function Level(c: CloneClass): nat {
    match c.demoted
    case Some(Rebound) => 2
    case Some(Unreachable) => 3
    case None => if c.inferred then 1 else 0
  }

  /** Some member lies in one of the files. */
  predicate Touches(c: CloneClass, files: set<string>) {
    exists u :: u in c.members && u.file in files
  }

  // ---- the structural check --------------------------------------------

  const MAX_SKELETON_DISTANCE := 2
  const MIN_CALL_JACCARD: real := 0.6

  datatype Verdict = ControlFlowDiffers | CallOverlapBelow(overlap: real) | Close(distance: nat)

  function ToSet<T>(s: seq<T>): set<T> { set x | x in s }

  function Jaccard(left: set<string>, right: set<string>): (r: real)
  {
    if left == {} && right == {} then 1.0
    else
      var union := left + right;
      |left * right| as real / |union| as real
  }

  lemma UnionIsLarger<T>(small: set<T>, big: set<T>)
    requires small <= big
    ensures |small| <= |big|
  {
    if small != {} {
      var x :| x in small;
      UnionIsLarger(small - {x}, big - {x});
    }
  }

  /** The overlap is a fraction, whole exactly when the two sets are equal. */
  lemma JaccardIsOverlap(left: set<string>, right: set<string>)
    ensures 0.0 <= Jaccard(left, right) <= 1.0
    ensures Jaccard(left, right) == 1.0 <==> left == right
  {
    var shared, union := left * right, left + right;
    UnionIsLarger(shared, union);
    if left != right {
      var x :| x in union && x !in shared;
      UnionIsLarger(shared, union - {x});
    } else {
      assert shared == union == left;
    }
    if union != {} { Fraction(|shared|, |union|); }
  }

  lemma Fraction(part: nat, whole: nat)
    requires part <= whole && whole > 0
    ensures 0.0 <= part as real / whole as real <= 1.0 && (part as real / whole as real == 1.0 <==> part == whole)
  {}

  ghost function CheckedPair(left: Unit, right: Unit): Verdict {
    var distance := Distance(left.skeleton, right.skeleton);
    var overlap := Jaccard(ToSet(left.calls), ToSet(right.calls));
    if distance > MAX_SKELETON_DISTANCE then ControlFlowDiffers
    else if overlap < MIN_CALL_JACCARD then CallOverlapBelow(overlap)
    else Close(distance)
  }

  /** Decide whether two neighbours are structurally close, by the true edit distance. */
  method CheckPair(left: Unit, right: Unit) returns (v: Verdict)
    ensures v == CheckedPair(left, right)
  {
    var distance := EditDistance.EditDistance(left.skeleton, right.skeleton, MAX_SKELETON_DISTANCE);
    if distance > MAX_SKELETON_DISTANCE {
      return ControlFlowDiffers;
    }
    var overlap := Jaccard(ToSet(left.calls), ToSet(right.calls));
    if overlap < MIN_CALL_JACCARD {
      return CallOverlapBelow(overlap);
    }
    v := Close(distance);
  }

  /** None for pairs that share a hash, whatever their structure; else the distance when the verdict is close. */
  ghost function Judged(one: Unit, other: Unit): Option<PairReason> {
    if one.exactHash == other.exactHash || one.renamedHash == other.renamedHash then None
    else
      match CheckedPair(one, other)
      case Close(distance) => Some(PairReason(Location(one), Location(other), distance))
      case _ => None
  }

  method Accepted(one: Unit, other: Unit) returns (reason: Option<PairReason>)
    ensures reason == Judged(one, other)
  {
    if one.exactHash == other.exactHash || one.renamedHash == other.renamedHash {
      return None;
    }
    var verdict := CheckPair(one, other);
    reason := if verdict.Close? then Some(PairReason(Location(one), Location(other), verdict.distance)) else None;
  }

  /** Dropping neighbours whose skeleton lengths differ past the limit loses no pair the check accepts. */
  lemma AcceptedPairsHaveNearLengths(one: Unit, other: Unit)
    requires Judged(one, other).Some?
    ensures -MAX_SKELETON_DISTANCE <= |one.skeleton| - |other.skeleton| <= MAX_SKELETON_DISTANCE
  {
    DistanceAtLeastLengths(one.skeleton, other.skeleton, |one.skeleton|, |other.skeleton|);
  }

  lemma OverlapIsSixTenths(left: set<string>, right: set<string>)
    ensures Jaccard(left, right) >= MIN_CALL_JACCARD <==> 10 * |left * right| >= 6 * |left + right|
  {
    if left == {} && right == {} {
      assert left * right == {} && left + right == {};
    } else {
      var shared, union := |left * right|, |left + right|;
      assert left + right != {} && union > 0;
      assert shared as real / union as real >= 0.6 <==> shared as real >= 0.6 * union as real;
    }
  }

  /** No hash in common, at most two single edits between the skeletons, and of all the names called at least six tenths
      called by both. */
  ghost predicate Alike(one: Unit, other: Unit) {
    && one.exactHash != other.exactHash && one.renamedHash != other.renamedHash
    && WithinEdits(one.skeleton, other.skeleton, 2)
    && var a, b := set x | x in one.calls, set x | x in other.calls; 10 * |a * b| >= 6 * |a + b|
  }

  /** Both places, and the fewest single edits between the skeletons. */
  ghost predicate Explains(r: PairReason, one: Unit, other: Unit) {
    && r.left == Location(one) && r.right == Location(other)
    && WithinEdits(one.skeleton, other.skeleton, r.distance)
    && (r.distance > 0 ==> !WithinEdits(one.skeleton, other.skeleton, r.distance - 1))
  }

  /** A pair is accepted exactly when the units are alike, and the reason explains it. */
  lemma AcceptedAreAlike(one: Unit, other: Unit)
    ensures Judged(one, other).Some? <==> Alike(one, other)
    ensures Judged(one, other).Some? ==> Explains(Judged(one, other).value, one, other)
  {
    var distance := Distance(one.skeleton, other.skeleton);
    assert ToSet(one.calls) == (set x | x in one.calls) && ToSet(other.calls) == (set x | x in other.calls);
    OverlapIsSixTenths(ToSet(one.calls), ToSet(other.calls));
    DistanceIsFewestEdits(one.skeleton, other.skeleton, 2);
    DistanceIsFewestEdits(one.skeleton, other.skeleton, distance);
    if distance > 0 { DistanceIsFewestEdits(one.skeleton, other.skeleton, distance - 1); }
  }
}
