/** What a clone run reports, end to end: every copy spread over enough files is shown, and nothing else is (dedup/detect.py,
    _whole_run). */
module CloneReport {
  import opened Lists
  import opened Options
  import opened DedupModel
  import opened UnionFind
  import opened LogicClones
  import opened LogicGroups
  import opened Ranking
  import opened FocusRun
  import opened CopiesReported
  import opened LogicReported

  /** The class has, in the unit's file, a member over all its lines and of at least its tokens. */
  ghost predicate Shows(c: CloneClass, u: Unit) {
    exists o :: o in c.members && o.file == u.file && o.startLine <= u.startLine && u.endLine <= o.endLine && u.tokens <= o.tokens
  }

  ghost predicate ShowsAll(c: CloneClass, units: seq<Unit>, mine: Unit -> bool) {
    forall u :: u in units && mine(u) ==> Shows(c, u)
  }

  function Spread(units: seq<Unit>, mine: Unit -> bool): nat { |set u | u in units && mine(u) :: u.file| }

  /** Whatever ranking drops for being contained, the class that contains it shows. */
  lemma RankShows(classes: seq<CloneClass>, minFiles: int, c: CloneClass) returns (k: CloneClass)
    requires c in classes && |set u | u in c.members :: u.file| >= minFiles
    ensures k in Ranked(classes, minFiles) && k in classes && forall u :: u in c.members ==> Shows(k, u)
  {
    var ranked := Ranked(classes, minFiles);
    RankDropsTheContained(classes, minFiles, c);
    if c in ranked {
      k := c;
    } else {
      k :| k in ranked && |k.members| >= |c.members| && forall m :: m in c.members ==>
        exists o :: o in k.members && o.file == m.file && o.startLine <= m.startLine && m.endLine <= o.endLine && m.tokens <= o.tokens;
      RankDropsTheContained(classes, minFiles, k);
    }
  }

  lemma ClassSpreads(c: CloneClass, units: seq<Unit>, mine: Unit -> bool)
    requires HoldsJust(c, units, mine)
    ensures forall u :: u in c.members <==> u in units && mine(u)
    ensures |set u | u in c.members :: u.file| == Spread(units, mine)
  {
    forall u ensures u in c.members <==> u in units && mine(u) {
      assert u in c.members <==> multiset(c.members)[u] > 0;
      assert u in units <==> multiset(units)[u] > 0;
    }
    assert (set u | u in c.members :: u.file) == (set u | u in units && mine(u) :: u.file);
  }

  lemma CopiesAreShown(kind: CloneKind, units: seq<Unit>, mine: Unit -> bool, minFiles: int) returns (k: CloneClass)
    requires HasClass(LiteralClasses(kind, units), units, mine) && Spread(units, mine) >= minFiles
    ensures k in Ranked(LiteralClasses(kind, units), minFiles) && k in LiteralClasses(kind, units) && ShowsAll(k, units, mine)
  {
    var c :| c in LiteralClasses(kind, units) && HoldsJust(c, units, mine);
    ClassSpreads(c, units, mine);
    k := RankShows(LiteralClasses(kind, units), minFiles, c);
  }

  /** Two units of one exact hash, in enough files: a run asked for exact copies reports a class that shows every unit of
      that hash. */
  lemma ExactCopiesAreReported(rows: seq<FileRow>, kinds: set<CloneKind>, minFiles: int, s: Space, h: Hash)
    returns (c: CloneClass)
    requires ValidSpace(s, |Candidates(rows)|) && Exact in kinds
    requires Twice(AllUnits(rows), WithExact(h)) && Spread(AllUnits(rows), WithExact(h)) >= minFiles
    ensures c in WholeAnswer(rows, kinds, minFiles, s) && c.kind == Exact && ShowsAll(c, AllUnits(rows), WithExact(h))
  {
    ExactClassesAreCopies(AllUnits(rows), h);
    c := CopiesAreShown(Exact, AllUnits(rows), WithExact(h), minFiles);
  }

  /** Two units of one renamed hash that differ in the exact one, in enough files: a run asked for renamed copies reports a
      class that shows every unit of that renamed hash. */
  lemma RenamedCopiesAreReported(rows: seq<FileRow>, kinds: set<CloneKind>, minFiles: int, s: Space, h: Hash)
    returns (c: CloneClass)
    requires ValidSpace(s, |Candidates(rows)|) && Renamed in kinds
    requires TwoStreams(AllUnits(rows), WithRenamed(h)) && Spread(AllUnits(rows), WithRenamed(h)) >= minFiles
    ensures c in WholeAnswer(rows, kinds, minFiles, s) && c.kind == Renamed && ShowsAll(c, AllUnits(rows), WithRenamed(h))
  {
    RenamedClassesAreCopies(AllUnits(rows), h);
    c := CopiesAreShown(Renamed, AllUnits(rows), WithRenamed(h), minFiles);
  }

  lemma SameComponent(candidates: seq<Unit>, s: Space, b: seq<nat>, d: seq<nat>)
    requires Component(candidates, s, b) && Component(candidates, s, d) && b[0] in d
    ensures forall y :: y in b ==> y in d
  {
    var pairs := RelatedPairs(candidates, s);
    forall y | y in b ensures y in d { ConnectedTransitive(pairs, d[0], b[0], y); }
  }

  lemma ComponentIsReported(candidates: seq<Unit>, s: Space, b: seq<nat>) returns (d: seq<nat>, c: CloneClass)
    requires ValidSpace(s, |candidates|) && Component(candidates, s, b)
    ensures c in WholeLogicClasses(candidates, s) && ReportsGroup(candidates, s, d, c) && forall y :: y in b ==> y in d
  {
    var groups := LogicClassesAreComponents(candidates, s);
    assert b[0] in b && b[1] in b && b[0] != b[1];
    assert Together(groups, b[0], b[1]);
    var i :| 0 <= i < |groups| && b[0] in groups[i] && b[1] in groups[i];
    d, c := groups[i], WholeLogicClasses(candidates, s)[i];
    SameComponent(candidates, s, b, d);
  }

  lemma ReportHolds(candidates: seq<Unit>, s: Space, d: seq<nat>, c: CloneClass, x: nat)
    requires ReportsGroup(candidates, s, d, c) && x in d
    ensures x < |candidates| && candidates[x] in c.members
  {
    var k :| 0 <= k < |d| && d[k] == x;
    assert Bodies(candidates, d)[k] in multiset(Bodies(candidates, d));
    assert candidates[x] in multiset(c.members);
  }

  function FilesAt(candidates: seq<Unit>, b: seq<nat>): set<string>
    requires forall x :: x in b ==> x < |candidates|
  {
    set x | x in b :: candidates[x].file
  }

  lemma LogicIsKept(rows: seq<FileRow>, kinds: set<CloneKind>, minFiles: int, s: Space, c: CloneClass)
    requires ValidSpace(s, |Candidates(rows)|) && Logic in kinds && c in Ranked(WholeLogicClasses(Candidates(rows), s), minFiles)
    requires c in WholeLogicClasses(Candidates(rows), s)
    ensures c in WholeAnswer(rows, kinds, minFiles, s) && c.kind == Logic
  {
    var groups := LogicClassesAreComponents(Candidates(rows), s);
    var j :| 0 <= j < |groups| && WholeLogicClasses(Candidates(rows), s)[j] == c;
    assert ReportsGroup(Candidates(rows), s, groups[j], c);
  }

  /** A group of connected related bodies, in enough files: a run asked for logic clones reports a class that shows every
      body of the group. */
  lemma RelatedBodiesAreReported(rows: seq<FileRow>, kinds: set<CloneKind>, minFiles: int, s: Space, b: seq<nat>)
    returns (c: CloneClass)
    requires ValidSpace(s, |Candidates(rows)|) && Logic in kinds
    requires Component(Candidates(rows), s, b) && |FilesAt(Candidates(rows), b)| >= minFiles
    ensures c in WholeAnswer(rows, kinds, minFiles, s) && c.kind == Logic
    ensures forall x :: x in b ==> Shows(c, Candidates(rows)[x])
  {
    var candidates := Candidates(rows);
    var d, whole := ComponentIsReported(candidates, s, b);
    forall x | x in b ensures candidates[x] in whole.members { ReportHolds(candidates, s, d, whole, x); }
    UnionIsLarger(FilesAt(candidates, b), set u | u in whole.members :: u.file);
    c := RankShows(WholeLogicClasses(candidates, s), minFiles, whole);
    LogicIsKept(rows, kinds, minFiles, s, c);
  }

  /** Nothing else is reported: each class is of a kind asked for, in enough files, and is exactly the copies of one hash or
      one group of related bodies. */
  lemma NothingElseIsReported(rows: seq<FileRow>, kinds: set<CloneKind>, minFiles: int, s: Space, c: CloneClass)
    requires ValidSpace(s, |Candidates(rows)|) && c in WholeAnswer(rows, kinds, minFiles, s)
    ensures c.kind in kinds && |set u | u in c.members :: u.file| >= minFiles
    ensures || ExactCopies(c, AllUnits(rows)) || RenamedCopies(c, AllUnits(rows))
            || exists b :: Component(Candidates(rows), s, b) && ReportsGroup(Candidates(rows), s, b, c)
  {
    if c in LiteralAnswer(Exact, kinds, AllUnits(rows), minFiles) {
      LiteralIsSound(Exact, kinds, AllUnits(rows), minFiles, c);
    } else if c in LiteralAnswer(Renamed, kinds, AllUnits(rows), minFiles) {
      LiteralIsSound(Renamed, kinds, AllUnits(rows), minFiles, c);
    } else {
      LogicIsSound(kinds, Candidates(rows), s, minFiles, c);
    }
  }

  lemma LiteralIsSound(kind: CloneKind, kinds: set<CloneKind>, units: seq<Unit>, minFiles: int, c: CloneClass)
    requires kind in {Exact, Renamed} && c in LiteralAnswer(kind, kinds, units, minFiles)
    ensures c.kind == kind && kind in kinds && |set u | u in c.members :: u.file| >= minFiles
    ensures if kind == Exact then ExactCopies(c, units) else RenamedCopies(c, units)
  {
    RankDropsTheContained(LiteralClasses(kind, units), minFiles, c);
    if kind == Exact { ExactClassIsCopies(units, c); } else { RenamedClassIsCopies(units, c); }
  }

  lemma LogicIsSound(kinds: set<CloneKind>, candidates: seq<Unit>, s: Space, minFiles: int, c: CloneClass)
    requires ValidSpace(s, |candidates|) && c in LogicAnswer(kinds, candidates, s, minFiles)
    ensures c.kind == Logic && Logic in kinds && |set u | u in c.members :: u.file| >= minFiles
    ensures exists b :: Component(candidates, s, b) && ReportsGroup(candidates, s, b, c)
  {
    RankDropsTheContained(WholeLogicClasses(candidates, s), minFiles, c);
    var groups := LogicClassesAreComponents(candidates, s);
    var j :| 0 <= j < |groups| && WholeLogicClasses(candidates, s)[j] == c;
    assert ReportsGroup(candidates, s, groups[j], c);
  }

  /** The compared bodies are the whole bodies that carry their text, in scan order. */
  lemma CandidatesAreBodies(rows: seq<FileRow>, u: Unit)
    ensures multiset(Candidates(rows))[u] == if u.isBody && u.hasText then multiset(AllUnits(rows))[u] else 0
    ensures u in AllUnits(rows) <==> exists r :: r in rows && u in r.units
  {
    FilterCounts(AllUnits(rows), u => IsCandidate(u), u);
    AllUnitsMembers(rows);
  }

  function Section(kind: CloneKind): nat { if kind == Exact then 0 else if kind == Renamed then 1 else 2 }

  /** The report comes in sections: exact copies, then renamed ones, then logic clones. */
  lemma ReportIsInSections(rows: seq<FileRow>, kinds: set<CloneKind>, minFiles: int, s: Space, i: nat, j: nat)
    requires ValidSpace(s, |Candidates(rows)|) && i <= j < |WholeAnswer(rows, kinds, minFiles, s)|
    ensures Section(WholeAnswer(rows, kinds, minFiles, s)[i].kind) <= Section(WholeAnswer(rows, kinds, minFiles, s)[j].kind)
  {
    var units, candidates := AllUnits(rows), Candidates(rows);
    var exact, renamed := LiteralAnswer(Exact, kinds, units, minFiles), LiteralAnswer(Renamed, kinds, units, minFiles);
    var logic := LogicAnswer(kinds, candidates, s, minFiles);
    forall c | c in exact ensures c.kind == Exact { LiteralIsSound(Exact, kinds, units, minFiles, c); }
    forall c | c in renamed ensures c.kind == Renamed { LiteralIsSound(Renamed, kinds, units, minFiles, c); }
    forall c | c in logic ensures c.kind == Logic { LogicIsSound(kinds, candidates, s, minFiles, c); }
    InSections(exact, renamed, logic, i, j);
  }

  lemma InSections(exact: seq<CloneClass>, renamed: seq<CloneClass>, logic: seq<CloneClass>, i: nat, j: nat)
    requires (forall c :: c in exact ==> c.kind == Exact) && (forall c :: c in renamed ==> c.kind == Renamed)
    requires (forall c :: c in logic ==> c.kind == Logic) && i <= j < |exact + (renamed + logic)|
    ensures Section((exact + (renamed + logic))[i].kind) <= Section((exact + (renamed + logic))[j].kind)
  {}
}
