/** The indexes stored side by side for one root: which one answers, which ones a wider sibling makes superfluous, and
    whether a stored one may be built on (cache.py). */
module StoredVariants {
  import opened Lists
  import opened Options

  /** Content types, and the fields two builds must share, are only compared. */
  type Content = set<nat>

  datatype Identity = Identity(embedder: nat, capsules: nat, chunkSize: nat, version: nat, exclude: nat)

  /** A stored index: the content its folder names and the content its metadata names, how it was built, and when it was
      saved; no time when the metadata holds none that can be read. */
  datatype Variant = Variant(path: nat, content: Content, named: Option<Content>, build: Identity, saved: Option<real>)

  datatype Request = Request(embedder: nat, capsules: nat, chunkSize: nat, version: nat)

  predicate WrittenSince(wider: Variant, narrower: Variant) {
    wider.saved.Some? && narrower.saved.Some? && wider.saved.value >= narrower.saved.value
  }

  predicate Matches(v: Variant, r: Request) {
    && v.named == Some(v.content) && v.build.version == r.version && v.build.embedder == r.embedder
    && v.build.chunkSize == r.chunkSize && v.build.capsules == r.capsules
  }

  // ---- retiring -------------------------------------------------------------------------------

  /** A wider sibling of the same build, in the current format, saved at or after it. */
  predicate Covers(w: Variant, v: Variant, current: nat) {
    v.content < w.content && WrittenSince(w, v) && v.build == w.build && w.build.version == current
  }

  predicate Covered(v: Variant, variants: seq<Variant>, current: nat) {
    exists i :: 0 <= i < |variants| && Covers(variants[i], v, current)
  }

  function IsCovered(variants: seq<Variant>, current: nat): Variant -> bool {
    (v: Variant) => Covered(v, variants, current)
  }

  function Survives(variants: seq<Variant>, current: nat): Variant -> bool {
    (v: Variant) => !Covered(v, variants, current)
  }

  function Retired(variants: seq<Variant>, current: nat): seq<Variant> { Filter(variants, IsCovered(variants, current)) }

  function Surviving(variants: seq<Variant>, current: nat): seq<Variant> { Filter(variants, Survives(variants, current)) }

  /** Every retired index is strictly contained in a surviving one of the same build, saved at or after it. */
  lemma {:induction false} SomeCoverSurvives(variants: seq<Variant>, current: nat, v: Variant, all: Content) returns (u: Variant)
    requires Covered(v, variants, current)
    requires forall i :: 0 <= i < |variants| ==> variants[i].content <= all
    ensures u in Surviving(variants, current) && Covers(u, v, current)
    decreases all - v.content
  {
    var i :| 0 <= i < |variants| && Covers(variants[i], v, current);
    var w := variants[i];
    if Covered(w, variants, current) {
      var x :| x in w.content && x !in v.content;
      assert x in all - v.content && x !in all - w.content;
      u := SomeCoverSurvives(variants, current, w, all);
    } else {
      u := w;
      FilterMembers(variants, Survives(variants, current));
    }
  }

  function AllContent(variants: seq<Variant>): Content { set i, x | 0 <= i < |variants| && x in variants[i].content :: x }

  // ---- answering --------------------------------------------------------------------------------

  /** A stored index that may answer a request. */
  predicate Answers(v: Variant, wanted: Content, r: Request) { wanted <= v.content && Matches(v, r) }

  function CanAnswer(wanted: Content, r: Request): Variant -> bool { (v: Variant) => Answers(v, wanted, r) }

  function FirstExact(compatible: seq<Variant>, wanted: Content): Option<Variant> {
    if compatible == [] then None
    else if compatible[0].content == wanted then Some(compatible[0])
    else FirstExact(compatible[1..], wanted)
  }

  /** The last one, from the widest down, that is no older than the exact one. */
  function LastCurrent(compatible: seq<Variant>, exact: Option<Variant>): Option<Variant>
    decreases |compatible|
  {
    if compatible == [] then None
    else
      var last := compatible[|compatible| - 1];
      if exact.None? || WrittenSince(last, exact.value) then Some(last)
      else LastCurrent(compatible[..|compatible| - 1], exact)
  }

  /** The widest compatible content no older than the exact match, if there is one. */
  function CoveringContent(variants: seq<Variant>, wanted: Content, r: Request): Content {
    var compatible := Filter(variants, CanAnswer(wanted, r));
    var pick := LastCurrent(compatible, FirstExact(compatible, wanted));
    if pick.Some? then pick.value.content else wanted
  }

  ghost predicate Served(variants: seq<Variant>, wanted: Content, r: Request) {
    exists v :: v in variants && Answers(v, wanted, r)
  }

  lemma {:induction false} PickIsCompatible(compatible: seq<Variant>, exact: Option<Variant>)
    ensures match LastCurrent(compatible, exact)
            case Some(v) => v in compatible
            case None => exact.None? ==> compatible == []
    decreases |compatible|
  {
    if compatible != [] { PickIsCompatible(compatible[..|compatible| - 1], exact); }
  }

  lemma {:induction false} ExactIsExact(compatible: seq<Variant>, wanted: Content)
    ensures FirstExact(compatible, wanted).Some? ==>
      FirstExact(compatible, wanted).value in compatible && FirstExact(compatible, wanted).value.content == wanted
  {
    if compatible != [] { ExactIsExact(compatible[1..], wanted); }
  }

  /** When something stored can answer, the chosen content is that of something stored that can. */
  lemma ChosenContentIsStored(variants: seq<Variant>, wanted: Content, r: Request) returns (v: Variant)
    requires Served(variants, wanted, r)
    ensures v in variants && Answers(v, wanted, r) && v.content == CoveringContent(variants, wanted, r)
  {
    var compatible := Filter(variants, CanAnswer(wanted, r));
    var exact := FirstExact(compatible, wanted);
    FilterMembers(variants, CanAnswer(wanted, r));
    PickIsCompatible(compatible, exact);
    ExactIsExact(compatible, wanted);
    var u :| u in variants && Answers(u, wanted, r);
    assert u in compatible;
    var pick := LastCurrent(compatible, exact);
    v := if pick.Some? then pick.value else exact.value;
  }

  /** Narrower contents first. */
  ghost predicate NarrowFirst(variants: seq<Variant>) {
    forall i, j :: 0 <= i < j < |variants| ==> |variants[i].content| <= |variants[j].content|
  }

  /** Current enough to answer instead of an index of just the wanted content. */
  ghost predicate AsCurrent(v: Variant, exact: Variant) {
    v.saved.Some? && exact.saved.Some? && v.saved.value >= exact.saved.value
  }

  lemma {:induction false} LastCurrentIsLast(compatible: seq<Variant>, exact: Option<Variant>, j: nat)
    requires j < |compatible| && (exact.Some? ==> AsCurrent(compatible[j], exact.value))
    ensures exists i :: j <= i < |compatible| && LastCurrent(compatible, exact) == Some(compatible[i])
    decreases |compatible|
  {
    var last := compatible[|compatible| - 1];
    if !(exact.None? || WrittenSince(last, exact.value)) { LastCurrentIsLast(compatible[..|compatible| - 1], exact, j); }
  }

  lemma {:induction false} FilterNarrowFirst(variants: seq<Variant>, keep: Variant -> bool)
    requires NarrowFirst(variants)
    ensures NarrowFirst(Filter(variants, keep))
  {
    var narrower := (a: Variant, b: Variant) => |a.content| <= |b.content|;
    PairwiseFilter(variants, keep, narrower);
    forall i, j | 0 <= i < j < |Filter(variants, keep)|
      ensures |Filter(variants, keep)[i].content| <= |Filter(variants, keep)[j].content|
    {
      assert narrower(Filter(variants, keep)[i], Filter(variants, keep)[j]);
    }
  }

  lemma {:induction false} PickIsCurrent(compatible: seq<Variant>, exact: Option<Variant>)
    ensures LastCurrent(compatible, exact).Some? && exact.Some? ==> AsCurrent(LastCurrent(compatible, exact).value, exact.value)
    decreases |compatible|
  {
    if compatible != [] { PickIsCurrent(compatible[..|compatible| - 1], exact); }
  }

  /** The choice: with no index of just the wanted content that can answer, the widest that can; with one, the widest saved at
      or after it, and itself when none is. */
  lemma ChosenIsWidest(variants: seq<Variant>, wanted: Content, r: Request, v: Variant)
    requires NarrowFirst(variants) && v in variants && Answers(v, wanted, r)
    ensures var exact := FirstExact(Filter(variants, CanAnswer(wanted, r)), wanted);
            var chosen := CoveringContent(variants, wanted, r);
            && (exact.None? ==> |v.content| <= |chosen|)
            && (exact.Some? && AsCurrent(v, exact.value) ==> |v.content| <= |chosen|)
            && (exact.Some? && chosen != wanted ==> exists u ::
                  u in variants && Answers(u, wanted, r) && u.content == chosen && AsCurrent(u, exact.value))
            && (exact.None? ==> v.content != wanted)
  {
    var compatible := Filter(variants, CanAnswer(wanted, r));
    var exact := FirstExact(compatible, wanted);
    FilterMembers(variants, CanAnswer(wanted, r));
    FilterNarrowFirst(variants, CanAnswer(wanted, r));
    PickIsCompatible(compatible, exact);
    PickIsCurrent(compatible, exact);
    NoExactMissed(compatible, wanted);
    assert v in compatible;
    var j :| 0 <= j < |compatible| && compatible[j] == v;
    if exact.None? || AsCurrent(v, exact.value) { LastCurrentIsLast(compatible, exact, j); }
  }

  lemma {:induction false} NoExactMissed(compatible: seq<Variant>, wanted: Content)
    ensures FirstExact(compatible, wanted).None? ==> forall v :: v in compatible ==> v.content != wanted
  {
    if compatible != [] { NoExactMissed(compatible[1..], wanted); }
  }

  /** Which stored indexes are retired: those beside which lies one of strictly more content, built alike in every respect and
      in the current format, saved no earlier. */
  lemma RetiredMeans(variants: seq<Variant>, current: nat, v: Variant)
    ensures v in Retired(variants, current) <==> v in variants && exists w ::
              && w in variants && v.content < w.content && v.build == w.build && w.build.version == current
              && v.saved.Some? && w.saved.Some? && v.saved.value <= w.saved.value
  {
    FilterMembers(variants, IsCovered(variants, current));
    if v in variants && Covered(v, variants, current) {
      var i :| 0 <= i < |variants| && Covers(variants[i], v, current);
      assert variants[i] in variants;
    }
  }

  /** Metadata that names its own folder's content: only such an index can ever answer. */
  predicate Usable(v: Variant) { v.named == Some(v.content) }

  predicate SameBuild(u: Variant, v: Variant) {
    && u.build.embedder == v.build.embedder && u.build.capsules == v.build.capsules
    && u.build.chunkSize == v.build.chunkSize && u.build.version == v.build.version
  }

  /** Each usable index about to be retired leaves a usable one of its build that holds all its content. */
  ghost predicate LeavesHeirs(variants: seq<Variant>, current: nat) {
    forall v :: v in Retired(variants, current) && Usable(v) ==> HasHeir(v, Surviving(variants, current))
  }

  ghost predicate HasHeir(v: Variant, left: seq<Variant>) {
    exists u :: u in left && Usable(u) && SameBuild(u, v) && v.content <= u.content
  }

  ghost predicate KeepsAnswering(variants: seq<Variant>, current: nat) {
    forall wanted, r: Request :: r.version == current && Served(variants, wanted, r) ==> Served(Surviving(variants, current), wanted, r)
  }

  /** Were an index without an heir retired, a request for just its content would be uncovered. */
  lemma HeirIsNeeded(variants: seq<Variant>, current: nat, v: Variant)
    requires KeepsAnswering(variants, current) && v in Retired(variants, current) && Usable(v)
    ensures HasHeir(v, Surviving(variants, current))
  {
    FilterMembers(variants, IsCovered(variants, current));
    assert Covered(v, variants, current) && v.build.version == current;
    var r := Request(v.build.embedder, v.build.capsules, v.build.chunkSize, current);
    assert Answers(v, v.content, r) && Served(variants, v.content, r);
    var u :| u in Surviving(variants, current) && Answers(u, v.content, r);
  }

  lemma HeirAnswers(variants: seq<Variant>, current: nat, wanted: Content, r: Request)
    requires LeavesHeirs(variants, current) && r.version == current && Served(variants, wanted, r)
    ensures Served(Surviving(variants, current), wanted, r)
  {
    FilterMembers(variants, Survives(variants, current));
    FilterMembers(variants, IsCovered(variants, current));
    var v :| v in variants && Answers(v, wanted, r);
    if v in Retired(variants, current) {
      var u :| u in Surviving(variants, current) && Usable(u) && SameBuild(u, v) && v.content <= u.content;
      assert Answers(u, wanted, r);
    }
  }

  /** Retiring uncovers no request, whatever was stored, if and only if each usable index it removes leaves an heir. */
  lemma RetiringKeepsAnswers(variants: seq<Variant>, current: nat)
    ensures KeepsAnswering(variants, current) <==> LeavesHeirs(variants, current)
  {
    if LeavesHeirs(variants, current) {
      forall wanted, r: Request | r.version == current && Served(variants, wanted, r)
        ensures Served(Surviving(variants, current), wanted, r)
      {
        HeirAnswers(variants, current, wanted, r);
      }
    }
    if KeepsAnswering(variants, current) {
      forall v | v in Retired(variants, current) && Usable(v) ensures HasHeir(v, Surviving(variants, current)) {
        HeirIsNeeded(variants, current, v);
      }
    }
  }

  /** So it is whenever every surviving cover of a usable index is usable itself: coverage does not look at that. */
  lemma UsableCoversAreHeirs(variants: seq<Variant>, current: nat)
    requires forall u, v :: u in Surviving(variants, current) && v in Retired(variants, current) && Usable(v) && Covers(u, v, current)
               ==> Usable(u)
    ensures LeavesHeirs(variants, current)
  {
    FilterMembers(variants, IsCovered(variants, current));
    forall v | v in Retired(variants, current) && Usable(v) ensures HasHeir(v, Surviving(variants, current)) {
      var u := SomeCoverSurvives(variants, current, v, AllContent(variants));
    }
  }

  /** And then what is chosen is stored, and survived. */
  lemma ChosenContentSurvives(variants: seq<Variant>, wanted: Content, r: Request) returns (v: Variant)
    requires LeavesHeirs(variants, r.version) && Served(variants, wanted, r)
    ensures v in Surviving(variants, r.version) && Answers(v, wanted, r)
    ensures v.content == CoveringContent(Surviving(variants, r.version), wanted, r)
  {
    RetiringKeepsAnswers(variants, r.version);
    v := ChosenContentIsStored(Surviving(variants, r.version), wanted, r);
  }

  /** An index nothing can use may retire one that was in use. */
  lemma RetiringCanUncover() returns (variants: seq<Variant>)
    ensures !KeepsAnswering(variants, 7)
  {
    var build := Identity(1, 2, 3, 7, 4);
    var v, w := Variant(0, {1}, Some({1}), build, Some(0.0)), Variant(1, {1, 2}, None, build, Some(1.0));
    variants := [v, w];
    assert variants[1] == w && Covers(w, v, 7) && Covered(v, variants, 7);
    FilterMembers(variants, Survives(variants, 7));
    FilterMembers(variants, IsCovered(variants, 7));
    assert v in Retired(variants, 7) && Usable(v);
    RetiringKeepsAnswers(variants, 7);
  }

  /** The two loops over the stored variants. */
  method CoveredVariants(variants: seq<Variant>, current: nat) returns (covered: seq<nat>)
    ensures covered == Map((v: Variant) => v.path, Retired(variants, current))
  {
    ghost var pathOf := (v: Variant) => v.path;
    covered := [];
    var i := 0;
    while i < |variants|
      invariant i <= |variants|
      invariant covered == Map(pathOf, Filter(variants[..i], IsCovered(variants, current)))
    {
      var j, found := 0, false;
      while j < |variants| && !found
        invariant j <= |variants|
        invariant found <==> exists k :: 0 <= k < j && Covers(variants[k], variants[i], current)
      {
        found := Covers(variants[j], variants[i], current);
        j := j + 1;
      }
      ListedNext(variants, i, current);
      if found { covered := covered + [variants[i].path]; }
      i := i + 1;
    }
    assert variants[..|variants|] == variants;
  }

  lemma ListedNext(variants: seq<Variant>, i: nat, current: nat)
    requires i < |variants|
    ensures var before := Map((v: Variant) => v.path, Filter(variants[..i], IsCovered(variants, current)));
            Map((v: Variant) => v.path, Filter(variants[..i + 1], IsCovered(variants, current)))
            == if Covered(variants[i], variants, current) then before + [variants[i].path] else before
  {
    TakeNext(variants, i);
    FilterConcat(variants[..i], [variants[i]], IsCovered(variants, current));
  }

  // ---- building on a stored index -----------------------------------------------------------------

  type Path = nat

  /** A manifest entry: a file's path and where its chunks lie. */
  datatype Entry = Entry(path: Path, start: nat, count: nat)

  function PathsOf(manifest: seq<Entry>): seq<Path> {
    if manifest == [] then [] else seq(manifest[0].count, i => manifest[0].path) + PathsOf(manifest[1..])
  }

  /** Chunks' identities: their file and their number in the file. */
  function Ids(e: Entry): seq<(Path, nat)> { seq(e.count, k => (e.path, k)) }

  function IdsOf(manifest: seq<Entry>): seq<(Path, nat)> {
    if manifest == [] then [] else Ids(manifest[0]) + IdsOf(manifest[1..])
  }

  /** Each entry starts where the one before it ends. */
  ghost predicate Consecutive(manifest: seq<Entry>, from: nat) {
    manifest == [] || (manifest[0].start == from && Consecutive(manifest[1..], from + manifest[0].count))
  }

  /** A slice that may run past the end, as the language's do. */
  function Sliced(paths: seq<Path>, from: nat, to: nat): seq<Path> {
    if from >= |paths| || to <= from then [] else if to >= |paths| then paths[from..] else paths[from..to]
  }

  /** The stored chunks are the manifest's: its entries tile them in order, each chunk is under its own file's path, and
      the lexical index lists exactly their identities. */
  ghost predicate Reusable(manifest: seq<Entry>, paths: seq<Path>, order: seq<(Path, nat)>) {
    Consecutive(manifest, 0) && paths == PathsOf(manifest) && order == IdsOf(manifest)
  }

  /** What is left to compare from an entry on, after the chunks and identities of the entries before it. */
  ghost predicate Left(paths: seq<Path>, order: seq<(Path, nat)>, rest: seq<Entry>, from: nat, expected: seq<(Path, nat)>) {
    && Consecutive(rest, from) && from <= |paths| && paths[from..] == PathsOf(rest)
    && order == expected + IdsOf(rest)
  }

  predicate AllUnder(stored: seq<Path>, path: Path) { forall k :: 0 <= k < |stored| ==> stored[k] == path }

  method MayReuse(manifest: seq<Entry>, paths: seq<Path>, order: seq<(Path, nat)>) returns (ok: bool)
    ensures ok <==> Reusable(manifest, paths, order)
  {
    var nextStart: nat, i := 0, 0;
    var expected: seq<(Path, nat)> := [];
    assert paths[0..] == paths && manifest[0..] == manifest && [] + IdsOf(manifest) == IdsOf(manifest);
    while i < |manifest|
      invariant i <= |manifest|
      invariant Reusable(manifest, paths, order) <==> Left(paths, order, manifest[i..], nextStart, expected)
    {
      var e := manifest[i];
      assert manifest[i..][1..] == manifest[i + 1..];
      if e.start != nextStart || !AllUnder(Sliced(paths, e.start, e.start + e.count), e.path) {
        EntryStops(paths, order, manifest[i..], nextStart, expected);
        return false;
      }
      EntryGoesOn(paths, order, manifest[i..], nextStart, expected);
      expected := expected + Ids(e);
      nextStart := nextStart + e.count;
      i := i + 1;
    }
    ok := nextStart == |paths| && order == expected;
    assert expected + [] == expected;
  }

  lemma PathsAt(paths: seq<Path>, rest: seq<Entry>, from: nat, k: nat)
    requires rest != [] && from <= |paths| && paths[from..] == PathsOf(rest) && k < rest[0].count
    ensures from + k < |paths| && paths[from + k] == rest[0].path
  {
    assert PathsOf(rest)[k] == rest[0].path;
    assert paths[from..][k] == paths[from + k];
  }

  lemma EntryStops(paths: seq<Path>, order: seq<(Path, nat)>, rest: seq<Entry>, from: nat, expected: seq<(Path, nat)>)
    requires rest != []
    requires rest[0].start != from || !AllUnder(Sliced(paths, from, from + rest[0].count), rest[0].path)
    ensures !Left(paths, order, rest, from, expected)
  {
    if Left(paths, order, rest, from, expected) {
      var stored := Sliced(paths, from, from + rest[0].count);
      var k :| 0 <= k < |stored| && stored[k] != rest[0].path;
      PathsAt(paths, rest, from, k);
      assert false;
    }
  }

  lemma EntryGoesOn(paths: seq<Path>, order: seq<(Path, nat)>, rest: seq<Entry>, from: nat, expected: seq<(Path, nat)>)
    requires rest != [] && rest[0].start == from && AllUnder(Sliced(paths, from, from + rest[0].count), rest[0].path)
    ensures Left(paths, order, rest, from, expected) <==>
            Left(paths, order, rest[1..], from + rest[0].count, expected + Ids(rest[0]))
  {
    assert expected + IdsOf(rest) == expected + Ids(rest[0]) + IdsOf(rest[1..]);
    PathsGoOn(paths, rest, from);
  }

  /** Once an entry's slice is under its path, what is stored from it on is right exactly when the slice is whole and what
      is stored after it is. */
  lemma PathsGoOn(paths: seq<Path>, rest: seq<Entry>, from: nat)
    requires rest != [] && AllUnder(Sliced(paths, from, from + rest[0].count), rest[0].path)
    ensures from <= |paths| && paths[from..] == PathsOf(rest) <==>
            from + rest[0].count <= |paths| && paths[from + rest[0].count..] == PathsOf(rest[1..])
  {
    var count := rest[0].count;
    var mine := seq(count, i => rest[0].path);
    if from + count <= |paths| {
      assert Sliced(paths, from, from + count) == paths[from..from + count] by { if count == 0 { assert paths[from..from] == []; } }
      assert paths[from..from + count] == mine;
      assert paths[from..] == mine + paths[from + count..];
      SamePrefix(mine, paths[from + count..], PathsOf(rest[1..]));
    }
  }

  lemma SamePrefix(mine: seq<Path>, one: seq<Path>, other: seq<Path>)
    ensures mine + one == mine + other <==> one == other
  {
    assert (mine + one)[|mine|..] == one && (mine + other)[|mine|..] == other;
  }
}
