/** The clone kinds of a whole run and of a focused run, and why they agree (dedup/detect.py). */
module FocusRun {
  import opened Lists
  import opened Options
  import opened Sorting
  import opened DedupModel
  import opened LogicClones
  import opened LogicGroups
  import opened FocusedClasses
  import opened Ranking

  // ---- exact and renamed classes ------------------------------------------------

  function HashOf(kind: CloneKind, u: Unit): Hash { if kind.Exact? then u.exactHash else u.renamedHash }

  ghost function SameHash(kind: CloneKind): (Unit, Unit) -> bool { (a, b) => HashOf(kind, a) == HashOf(kind, b) }

  /** A reported hash group: copied, and for a renamed class spanning two exact streams. */
  predicate Reported(kind: CloneKind, b: seq<Unit>) {
    |b| >= 2 && (kind.Renamed? ==> |set u | u in b :: u.exactHash| >= 2)
  }

  function HashClasses(kind: CloneKind, buckets: seq<seq<Unit>>): seq<CloneClass> {
    if buckets == [] then []
    else (if Reported(kind, buckets[0]) then [CloneOf(kind, buckets[0], [])] else []) + HashClasses(kind, buckets[1..])
  }

  /** The exact or the renamed classes of some units: hash groups in order of first appearance. */
  ghost function LiteralClasses(kind: CloneKind, units: seq<Unit>): seq<CloneClass> {
    HashClasses(kind, Buckets(units, SameHash(kind)))
  }

  /** Group units by hash and report the groups that are copies. */
  method GroupLiterals(kind: CloneKind, units: seq<Unit>) returns (classes: seq<CloneClass>)
    ensures classes == LiteralClasses(kind, units)
  {
    var groups := GroupBy(units, u => HashOf(kind, u), SameHash(kind));
    classes := HashClasses(kind, groups);
  }

  // ---- the literal universe --------------------------------------------------------

  /** One file's index row; its hashes are those of the units its extraction gives. */
  datatype FileRow = FileRow(path: string, units: seq<Unit>)

  ghost predicate ValidRows(rows: seq<FileRow>) {
    forall r, u :: r in rows && u in r.units ==> u.file == r.path
  }

  function AllUnits(rows: seq<FileRow>): seq<Unit> {
    if rows == [] then [] else rows[0].units + AllUnits(rows[1..])
  }

  function Copies(kind: CloneKind, units: seq<Unit>, h: Hash): nat {
    |Filter(units, u => HashOf(kind, u) == h)|
  }

  /** Hashes of units in the focus that some second unit has as well. */
  function Repeated(kind: CloneKind, units: seq<Unit>, focus: set<string>): set<Hash> {
    set u | u in units && u.file in focus && Copies(kind, units, HashOf(kind, u)) >= 2 :: HashOf(kind, u)
  }

  /** The same, read off the index rows: a row is in the focus by its path. */
  function RepeatedInRows(kind: CloneKind, rows: seq<FileRow>, focus: set<string>): set<Hash> {
    set r, u | r in rows && u in r.units && r.path in focus && Copies(kind, AllUnits(rows), HashOf(kind, u)) >= 2
      :: HashOf(kind, u)
  }

  lemma AllUnitsMembers(rows: seq<FileRow>)
    ensures forall u :: u in AllUnits(rows) <==> exists r :: r in rows && u in r.units
  {}

  lemma RepeatedByPath(kind: CloneKind, rows: seq<FileRow>, focus: set<string>)
    requires ValidRows(rows)
    ensures RepeatedInRows(kind, rows, focus) == Repeated(kind, AllUnits(rows), focus)
  {
    AllUnitsMembers(rows);
  }

  /** Either of the unit's two hashes is among the repeated ones. */
  predicate InUniverse(u: Unit, exact: set<Hash>, renamed: set<Hash>) {
    u.exactHash in exact || u.renamedHash in renamed
  }

  /** Parse again only the files holding a hit, keeping their hit units in scan order. */
  method ParseHits(rows: seq<FileRow>, hit: Unit -> bool) returns (kept: seq<Unit>)
    ensures kept == Filter(AllUnits(rows), hit)
  {
    kept := [];
    for k := 0 to |rows|
      invariant kept + Filter(AllUnits(rows[k..]), hit) == Filter(AllUnits(rows), hit)
    {
      UniverseStep(rows, k, hit);
      if exists u :: u in rows[k].units && hit(u) {
        kept := kept + Filter(rows[k].units, hit);
      } else {
        FilterNone(rows[k].units, hit);
      }
    }
  }

  /** Every unit sharing a repeated focus hash, parsed from the files that hold one. */
  method LiteralUniverse(rows: seq<FileRow>, focus: set<string>) returns (universe: seq<Unit>)
    requires ValidRows(rows)
    ensures var all := AllUnits(rows);
            universe == Filter(all, u => InUniverse(u, Repeated(Exact, all, focus), Repeated(Renamed, all, focus)))
  {
    ghost var table := AllUnits(rows);
    var exact, renamed := RepeatedInRows(Exact, rows, focus), RepeatedInRows(Renamed, rows, focus);
    RepeatedByPath(Exact, rows, focus);
    RepeatedByPath(Renamed, rows, focus);
    universe := ParseHits(rows, u => InUniverse(u, exact, renamed));
    FilterSame(table, u => InUniverse(u, exact, renamed),
               u => InUniverse(u, Repeated(Exact, table, focus), Repeated(Renamed, table, focus)));
  }

  lemma UniverseStep(rows: seq<FileRow>, k: nat, hit: Unit -> bool)
    requires k < |rows|
    ensures Filter(AllUnits(rows[k..]), hit) == Filter(rows[k].units, hit) + Filter(AllUnits(rows[k + 1..]), hit)
  {
    assert rows[k..][1..] == rows[k + 1..];
    FilterConcat(rows[k].units, AllUnits(rows[k + 1..]), hit);
  }

  // ---- the focused literal answer is the whole run's -------------------------------

  ghost function Keeping(kind: CloneKind, hashes: set<Hash>): Unit -> bool { u => HashOf(kind, u) in hashes }

  ghost function Touching(files: set<string>): CloneClass -> bool { c => Touches(c, files) }

  lemma SameHashIsEquivalence(kind: CloneKind)
    ensures Equivalence(SameHash(kind))
  {}

  /** A hash group holds every unit of its hash. */
  lemma GroupIsHashGroup(kind: CloneKind, units: seq<Unit>, b: seq<Unit>)
    requires b in Buckets(units, SameHash(kind))
    ensures b != [] && (forall u :: u in b ==> u in units && HashOf(kind, u) == HashOf(kind, b[0]))
    ensures |b| == Copies(kind, units, HashOf(kind, b[0]))
  {
    SameHashIsEquivalence(kind);
    BucketMembers(units, SameHash(kind), b);
    var h := HashOf(kind, b[0]);
    BucketIsClass(units, SameHash(kind), b, y => HashOf(kind, y) == h);
  }

  /** A reported group that touches the focus has a hash repeated in the focus. */
  lemma TouchingHashRepeats(
      kind: CloneKind, all: seq<Unit>, hit: Unit -> bool, b: seq<Unit>, files: set<string>)
    requires b in Buckets(Filter(all, hit), SameHash(kind))
    requires Reported(kind, b) && Touches(CloneOf(kind, b, []), files)
    ensures HashOf(kind, b[0]) in Repeated(kind, all, files)
  {
    GroupIsHashGroup(kind, Filter(all, hit), b);
    var h := HashOf(kind, b[0]);
    FewerAfterFilter(all, hit, y => HashOf(kind, y) == h);
    FilterMembers(all, hit);
    FocusMember(kind, b, files, all, h);
  }

  lemma FocusMember(kind: CloneKind, b: seq<Unit>, files: set<string>, all: seq<Unit>, h: Hash)
    requires b != [] && Touches(CloneOf(kind, b, []), files) && Copies(kind, all, h) >= 2
    requires forall u :: u in b ==> u in all && HashOf(kind, u) == h
    ensures h in Repeated(kind, all, files)
  {}

  lemma FewerAfterFilter<T>(s: seq<T>, one: T -> bool, other: T -> bool)
    ensures |Filter(Filter(s, one), other)| <= |Filter(s, other)|
  {}

  /** Dropping the groups that cannot touch the focus drops none of the touching classes. */
  lemma {:induction false} DropUntouching(
      kind: CloneKind, buckets: seq<seq<Unit>>, heads: seq<Unit> -> bool, files: set<string>)
    requires forall b :: b in buckets && Reported(kind, b) && Touches(CloneOf(kind, b, []), files) ==> heads(b)
    ensures Filter(HashClasses(kind, Filter(buckets, heads)), Touching(files)) ==
            Filter(HashClasses(kind, buckets), Touching(files))
  {
    if buckets != [] {
      var b, rest := buckets[0], buckets[1..];
      assert b in buckets;
      DropUntouching(kind, rest, heads, files);
      var shown := if Reported(kind, b) then [CloneOf(kind, b, [])] else [];
      FilterConcat(shown, HashClasses(kind, rest), Touching(files));
      FilterConcat(shown, HashClasses(kind, Filter(rest, heads)), Touching(files));
      if heads(b) {
        assert Filter(buckets, heads)[1..] == Filter(rest, heads);
      } else {
        FilterNone(shown, Touching(files));
      }
    }
  }

  /** Restricted to units whose hash repeats in the focus, any filter keeping those gives the same touching classes. */
  lemma TouchingClassesOf(kind: CloneKind, all: seq<Unit>, hit: Unit -> bool, files: set<string>)
    requires forall u :: u in all && HashOf(kind, u) in Repeated(kind, all, files) ==> hit(u)
    ensures var keep := Keeping(kind, Repeated(kind, all, files));
            Filter(LiteralClasses(kind, Filter(all, hit)), Touching(files)) ==
            Filter(LiteralClasses(kind, Filter(all, keep)), Touching(files))
  {
    var some := Filter(all, hit);
    var keep := Keeping(kind, Repeated(kind, all, files));
    var heads := (b: seq<Unit>) => b != [] && keep(b[0]);
    var buckets := Buckets(some, SameHash(kind));
    SameHashIsEquivalence(kind);
    BucketsRestrict(some, SameHash(kind), keep, heads);
    FilterFused(all, hit, keep, keep);
    forall b | b in buckets && Reported(kind, b) && Touches(CloneOf(kind, b, []), files) ensures heads(b) {
      TouchingHashRepeats(kind, all, hit, b, files);
    }
    DropUntouching(kind, buckets, heads, files);
  }

  /** The literal universe is complete for every class touching the focus. */
  lemma UniverseIsComplete(kind: CloneKind, all: seq<Unit>, hit: Unit -> bool, files: set<string>)
    requires forall u :: u in all && HashOf(kind, u) in Repeated(kind, all, files) ==> hit(u)
    ensures Filter(LiteralClasses(kind, Filter(all, hit)), Touching(files)) ==
            Filter(LiteralClasses(kind, all), Touching(files))
  {
    TouchingClassesOf(kind, all, hit, files);
    TouchingClassesOf(kind, all, u => true, files);
    FilterAll(all, u => true);
  }

  // ---- logic classes ------------------------------------------------------------------

  /** Whole bodies that carry their source text. */
  predicate IsCandidate(u: Unit) { u.isBody && u.hasText }

  /** The indices of the candidates in the focus files. */
  function FocusBodies(candidates: seq<Unit>, files: set<string>): set<nat> {
    set i: nat | i < |candidates| && candidates[i].file in files
  }

  lemma {:induction false} ClassesTouching(
      candidates: seq<Unit>, buckets: seq<seq<nat>>, reasons: Reasons, files: set<string>, holds: seq<nat> -> bool)
    requires forall b :: b in buckets ==>
               Within(b, |candidates|) && (holds(b) <==> HoldsFocus(b, FocusBodies(candidates, files)))
    ensures forall b :: b in Filter(buckets, holds) ==> Within(b, |candidates|)
    ensures ClassesFrom(candidates, Filter(buckets, holds), reasons) ==
            Filter(ClassesFrom(candidates, buckets, reasons), Touching(files))
  {
    FilterMembers(buckets, holds);
    if buckets != [] {
      var b, rest := buckets[0], buckets[1..];
      assert b in buckets;
      ClassesTouching(candidates, rest, reasons, files, holds);
      var shown := if |b| < 2 then [] else [ClassFrom(candidates, b, reasons)];
      ClassTouches(candidates, b, reasons, files);
      FilterConcat(shown, ClassesFrom(candidates, rest, reasons), Touching(files));
      assert Filter(shown, Touching(files)) == if holds(b) then shown else [];
      if holds(b) { assert Filter(buckets, holds)[1..] == Filter(rest, holds); }
    }
  }

  lemma ClassTouches(candidates: seq<Unit>, b: seq<nat>, reasons: Reasons, files: set<string>)
    requires Within(b, |candidates|)
    ensures Touches(ClassFrom(candidates, b, reasons), files) <==> HoldsFocus(b, FocusBodies(candidates, files))
  {
    var members := Map(i requires 0 <= i < |candidates| => candidates[i], b);
    if x :| x in b && x in FocusBodies(candidates, files) {
      var k :| 0 <= k < |b| && b[k] == x;
      assert members[k] in members && members[k] in ClassFrom(candidates, b, reasons).members;
    }
    if u :| u in ClassFrom(candidates, b, reasons).members && u.file in files {
      assert u in members;
      var k :| 0 <= k < |members| && members[k] == u;
      assert b[k] in b && b[k] in FocusBodies(candidates, files);
    }
  }

  /** The groups holding a focus body are the classes touching the focus files. */
  lemma FocusedAnswerTouches(candidates: seq<Unit>, s: Space, files: set<string>)
    requires ValidSpace(s, |candidates|)
    ensures FocusedAnswer(candidates, FocusBodies(candidates, files), s) ==
            Filter(WholeLogicClasses(candidates, s), Touching(files))
  {
    if |candidates| >= 2 {
      var reasons := WholeReasons(candidates, s);
      var groups := Groups(Range(|candidates|), reasons);
      GroupsWithin(Range(|candidates|), reasons, |candidates|);
      ClassesTouching(candidates, groups, reasons, files, b => HoldsFocus(b, FocusBodies(candidates, files)));
    }
  }

  // ---- whole and focused runs -----------------------------------------------------------

  ghost function Candidates(rows: seq<FileRow>): seq<Unit> { Filter(AllUnits(rows), u => IsCandidate(u)) }

  ghost function LiteralAnswer(kind: CloneKind, kinds: set<CloneKind>, units: seq<Unit>, minFiles: int): seq<CloneClass> {
    if kind in kinds then Ranked(LiteralClasses(kind, units), minFiles) else []
  }

  ghost function LogicAnswer(kinds: set<CloneKind>, candidates: seq<Unit>, s: Space, minFiles: int): seq<CloneClass>
    requires ValidSpace(s, |candidates|)
  {
    if Logic in kinds then Ranked(WholeLogicClasses(candidates, s), minFiles) else []
  }

  /** The clone kinds a run asked for, each ranked on its own, in the report's order. */
  ghost function WholeAnswer(rows: seq<FileRow>, kinds: set<CloneKind>, minFiles: int, s: Space): seq<CloneClass>
    requires ValidSpace(s, |Candidates(rows)|)
  {
    LiteralAnswer(Exact, kinds, AllUnits(rows), minFiles)
    + (LiteralAnswer(Renamed, kinds, AllUnits(rows), minFiles) + LogicAnswer(kinds, Candidates(rows), s, minFiles))
  }

  lemma HashClassesHaveMembers(kind: CloneKind, buckets: seq<seq<Unit>>)
    ensures forall c :: c in HashClasses(kind, buckets) ==> c.members != []
  {}

  lemma LogicClassesHaveMembers(candidates: seq<Unit>, buckets: seq<seq<nat>>, reasons: Reasons)
    requires forall b :: b in buckets ==> Within(b, |candidates|)
    ensures forall c :: c in ClassesFrom(candidates, buckets, reasons) ==> c.members != []
  {}

  lemma WholeLogicHasMembers(candidates: seq<Unit>, s: Space)
    requires ValidSpace(s, |candidates|)
    ensures forall c :: c in WholeLogicClasses(candidates, s) ==> c.members != []
  {
    if |candidates| >= 2 {
      GroupsWithin(Range(|candidates|), WholeReasons(candidates, s), |candidates|);
      LogicClassesHaveMembers(candidates, Groups(Range(|candidates|), WholeReasons(candidates, s)), WholeReasons(candidates, s));
    }
  }

  /** The reference: every kind over all units, nothing restricted to a focus. */
  method WholeCloneRun(rows: seq<FileRow>, kinds: set<CloneKind>, minFiles: int, s: Space) returns (classes: seq<CloneClass>)
    requires ValidSpace(s, |Candidates(rows)|)
    ensures classes == WholeAnswer(rows, kinds, minFiles, s)
  {
    var units := AllUnits(rows);
    var exact := WholeLiterals(Exact, kinds, units, minFiles);
    var renamed := WholeLiterals(Renamed, kinds, units, minFiles);
    var logic := WholeLogic(kinds, Filter(units, u => IsCandidate(u)), minFiles, s);
    classes := exact + (renamed + logic);
  }

  method WholeLiterals(kind: CloneKind, kinds: set<CloneKind>, units: seq<Unit>, minFiles: int)
    returns (ranked: seq<CloneClass>)
    ensures ranked == LiteralAnswer(kind, kinds, units, minFiles)
  {
    if kind !in kinds {
      return [];
    }
    var found := GroupLiterals(kind, units);
    HashClassesHaveMembers(kind, Buckets(units, SameHash(kind)));
    ranked := Rank(found, minFiles);
  }

  method WholeLogic(kinds: set<CloneKind>, candidates: seq<Unit>, minFiles: int, s: Space)
    returns (ranked: seq<CloneClass>)
    requires ValidSpace(s, |candidates|)
    ensures ranked == LogicAnswer(kinds, candidates, s, minFiles)
  {
    if Logic !in kinds {
      return [];
    }
    var found := LogicClasses(candidates, s);
    WholeLogicHasMembers(candidates, s);
    ranked := Rank(found, minFiles);
  }

  /** The touching classes of the literal universe, ranked: the touching part of the whole run's ranking. */
  method FocusLiterals(
      kind: CloneKind, kinds: set<CloneKind>, universe: seq<Unit>, ghost all: seq<Unit>, ghost hit: Unit -> bool,
      minFiles: int, focus: set<string>)
    returns (ranked: seq<CloneClass>)
    requires kind in kinds ==> universe == Filter(all, hit)
    requires forall u :: u in all && HashOf(kind, u) in Repeated(kind, all, focus) ==> hit(u)
    ensures ranked == Filter(LiteralAnswer(kind, kinds, all, minFiles), Touching(focus))
  {
    if kind !in kinds {
      return [];
    }
    var found := GroupLiterals(kind, universe);
    HashClassesHaveMembers(kind, Buckets(universe, SameHash(kind)));
    var touching := Filter(found, c => Touches(c, focus));
    FilterMembers(found, c => Touches(c, focus));
    ranked := Rank(touching, minFiles);
    UniverseIsComplete(kind, all, hit, focus);
    FilterSame(found, c => Touches(c, focus), Touching(focus));
    TouchingRank(LiteralClasses(kind, all), minFiles, focus);
  }

  lemma TouchingRank(classes: seq<CloneClass>, minFiles: int, files: set<string>)
    ensures Ranked(Filter(classes, Touching(files)), minFiles) == Filter(Ranked(classes, minFiles), Touching(files))
  {
    RankCommutesWithFocus(classes, minFiles, files);
    FilterSame(classes, Touching(files), c => Touches(c, files));
    FilterSame(Ranked(classes, minFiles), Touching(files), c => Touches(c, files));
  }

  /** The focused answer of the clone kinds: exactly the whole run's classes with a member under the focus. */
  method FocusedCloneRun(rows: seq<FileRow>, kinds: set<CloneKind>, minFiles: int, focus: set<string>, s: Space)
    returns (classes: seq<CloneClass>)
    requires ValidRows(rows) && ValidSpace(s, |Candidates(rows)|) && SymmetricWithinSlack(s, |Candidates(rows)|)
    ensures classes == Filter(WholeAnswer(rows, kinds, minFiles, s), Touching(focus))
  {
    var exact, renamed := FocusedLiterals(rows, kinds, minFiles, focus);
    var logic := FocusedLogic(kinds, Filter(AllUnits(rows), u => IsCandidate(u)), minFiles, focus, s);
    classes := exact + (renamed + logic);
    FilterConcat(LiteralAnswer(Renamed, kinds, AllUnits(rows), minFiles), LogicAnswer(kinds, Candidates(rows), s, minFiles),
                 Touching(focus));
    FilterConcat(LiteralAnswer(Exact, kinds, AllUnits(rows), minFiles),
                 LiteralAnswer(Renamed, kinds, AllUnits(rows), minFiles) + LogicAnswer(kinds, Candidates(rows), s, minFiles),
                 Touching(focus));
  }

  method FocusedLiterals(rows: seq<FileRow>, kinds: set<CloneKind>, minFiles: int, focus: set<string>)
    returns (exact: seq<CloneClass>, renamed: seq<CloneClass>)
    requires ValidRows(rows)
    ensures exact == Filter(LiteralAnswer(Exact, kinds, AllUnits(rows), minFiles), Touching(focus))
    ensures renamed == Filter(LiteralAnswer(Renamed, kinds, AllUnits(rows), minFiles), Touching(focus))
  {
    ghost var all := AllUnits(rows);
    ghost var hit := (u: Unit) => InUniverse(u, Repeated(Exact, all, focus), Repeated(Renamed, all, focus));
    var universe: seq<Unit> := [];
    if Exact in kinds || Renamed in kinds {
      universe := LiteralUniverse(rows, focus);
      FilterSame(all, hit, u => InUniverse(u, Repeated(Exact, all, focus), Repeated(Renamed, all, focus)));
    }
    exact := FocusLiterals(Exact, kinds, universe, all, hit, minFiles, focus);
    renamed := FocusLiterals(Renamed, kinds, universe, all, hit, minFiles, focus);
  }

  method FocusedLogic(kinds: set<CloneKind>, candidates: seq<Unit>, minFiles: int, focus: set<string>, s: Space)
    returns (ranked: seq<CloneClass>)
    requires ValidSpace(s, |candidates|) && SymmetricWithinSlack(s, |candidates|)
    ensures ranked == Filter(LogicAnswer(kinds, candidates, s, minFiles), Touching(focus))
  {
    if Logic !in kinds {
      return [];
    }
    var chosen := FocusBodies(candidates, focus);
    var found, pairs, walked, _ := FocusedLogicClasses(candidates, chosen, s);
    FocusedAnswerTouches(candidates, s, focus);
    WholeLogicHasMembers(candidates, s);
    FilterMembers(WholeLogicClasses(candidates, s), Touching(focus));
    ranked := Rank(found, minFiles);
    TouchingRank(WholeLogicClasses(candidates, s), minFiles, focus);
  }
}
