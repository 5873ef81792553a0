/** Ranking clone classes and pruning the covered ones (dedup/detect.py, _Kept and rank). */
module Ranking {
  import opened Lists
  import opened Options
  import opened Sorting
  import opened DedupModel

  // ---- the order ------------------------------------------------------------

  function HeadLocation(c: CloneClass): string { if c.members == [] then "" else Location(c.members[0]) }

  /** Standing first, then the heavier class, then the first member's location. */
  predicate RankLe(a: CloneClass, b: CloneClass) {
    || Level(a) < Level(b)
    || (Level(a) == Level(b) && Score(a) > Score(b))
    || (Level(a) == Level(b) && Score(a) == Score(b) && StringLe(HeadLocation(a), HeadLocation(b)))
  }

  lemma RankOrder()
    ensures TotalPreorder(RankLe)
  {
    forall a, b ensures RankLe(a, b) || RankLe(b, a) { StringLeTotal(HeadLocation(a), HeadLocation(b)); }
    forall a, b, c | RankLe(a, b) && RankLe(b, c) ensures RankLe(a, c) {
      if StringLe(HeadLocation(a), HeadLocation(b)) && StringLe(HeadLocation(b), HeadLocation(c)) {
        StringLeTransitive(HeadLocation(a), HeadLocation(b), HeadLocation(c));
      }
    }
  }

  // ---- covering ----------------------------------------------------------------

  /** One member encloses another: its lines, and at least its tokens. */
  predicate Encloses(outer: Unit, inner: Unit) {
    && outer.file == inner.file && outer.startLine <= inner.startLine && inner.endLine <= outer.endLine
    && outer.tokens >= inner.tokens
  }

  ghost predicate Inside(outer: CloneClass, m: Unit) { exists o :: o in outer.members && Encloses(o, m) }

  /** An at least equally copied class whose members enclose every member of this one. */
  ghost predicate Covers(outer: CloneClass, c: CloneClass) {
    |outer.members| >= |c.members| && forall m :: m in c.members ==> Inside(outer, m)
  }

  ghost predicate Covered(kept: seq<CloneClass>, c: CloneClass) { exists k :: k in kept && Covers(k, c) }

  /** What survives, class by class in rank order. */
  ghost function Prune(ordered: seq<CloneClass>, minFiles: int, kept: seq<CloneClass>): seq<CloneClass>
    decreases |ordered|
  {
    if ordered == [] then kept
    else
      var c := ordered[0];
      Prune(ordered[1..], minFiles,
            if |FilesOf(c.members)| < minFiles || Covered(kept, c) then kept else kept + [c])
  }

  ghost function Ranked(classes: seq<CloneClass>, minFiles: int): seq<CloneClass> {
    Prune(Sort(classes, RankLe), minFiles, [])
  }

  // ---- ranking commutes with the focus filter ----------------------------------

  /** A class that covers one touching some files touches them too: covering members lie in the same files. */
  lemma CoverTouches(outer: CloneClass, c: CloneClass, files: set<string>)
    requires Covers(outer, c) && Touches(c, files)
    ensures Touches(outer, files)
  {}

  lemma CoveredAmongTouching(kept: seq<CloneClass>, c: CloneClass, files: set<string>)
    requires Touches(c, files)
    ensures Covered(kept, c) <==> Covered(Filter(kept, k => Touches(k, files)), c)
  {
    FilterMembers(kept, k => Touches(k, files));
    forall k | k in kept && Covers(k, c) ensures Touches(k, files) { CoverTouches(k, c, files); }
  }

  lemma {:induction false} PruneFilter(
      ordered: seq<CloneClass>, minFiles: int, kept: seq<CloneClass>, files: set<string>, touching: CloneClass -> bool)
    requires forall c :: touching(c) <==> Touches(c, files)
    ensures Filter(Prune(ordered, minFiles, kept), touching) ==
            Prune(Filter(ordered, touching), minFiles, Filter(kept, touching))
    decreases |ordered|
  {
    if ordered != [] {
      var c := ordered[0];
      var drops := |FilesOf(c.members)| < minFiles || Covered(kept, c);
      PruneFilter(ordered[1..], minFiles, if drops then kept else kept + [c], files, touching);
      FilterConcat(kept, [c], touching);
      assert Filter([c], touching) == if touching(c) then [c] else [];
      if touching(c) {
        CoveredAmongTouching(kept, c, files);
        FilterSame(kept, touching, k => Touches(k, files));
        assert Filter(ordered, touching)[1..] == Filter(ordered[1..], touching);
      } else {
        assert Filter(kept, touching) + [] == Filter(kept, touching);
      }
    }
  }

  /** Ranking the touching classes is the touching part of ranking them all. */
  lemma RankCommutesWithFocus(classes: seq<CloneClass>, minFiles: int, files: set<string>)
    ensures Ranked(Filter(classes, c => Touches(c, files)), minFiles) ==
            Filter(Ranked(classes, minFiles), c => Touches(c, files))
  {
    var touching := (c: CloneClass) => Touches(c, files);
    RankOrder();
    SortFilter(classes, RankLe, touching);
    PruneFilter(Sort(classes, RankLe), minFiles, [], files, touching);
  }

  // ---- what ranking keeps ---------------------------------------------------------

  /** No class of a pruned list is covered by one before it, and none spans too few files. */
  ghost predicate Irredundant(kept: seq<CloneClass>, minFiles: int) {
    && (forall i :: 0 <= i < |kept| ==> |FilesOf(kept[i].members)| >= minFiles)
    && forall i :: 0 <= i < |kept| ==> !Covered(kept[..i], kept[i])
  }

  lemma {:induction false} PruneKeeps(ordered: seq<CloneClass>, minFiles: int, kept: seq<CloneClass>, c: CloneClass)
    requires Irredundant(kept, minFiles)
    ensures Irredundant(Prune(ordered, minFiles, kept), minFiles)
    ensures kept <= Prune(ordered, minFiles, kept)
    ensures c in Prune(ordered, minFiles, kept) ==> c in kept || c in ordered
    ensures c in ordered && |FilesOf(c.members)| >= minFiles && c !in Prune(ordered, minFiles, kept) ==>
              Covered(Prune(ordered, minFiles, kept), c)
    decreases |ordered|
  {
    if ordered != [] {
      var head := ordered[0];
      var drops := |FilesOf(head.members)| < minFiles || Covered(kept, head);
      var kept' := if drops then kept else kept + [head];
      assert Irredundant(kept', minFiles) by {
        forall i | 0 <= i < |kept'| ensures !Covered(kept'[..i], kept'[i]) {
          assert kept'[..i] == if i < |kept| then kept[..i] else kept;
        }
      }
      PruneKeeps(ordered[1..], minFiles, kept', c);
      var result := Prune(ordered, minFiles, kept);
      forall k | k in kept' ensures k in result {
        var i :| 0 <= i < |kept'| && kept'[i] == k;
        assert result[i] == k;
      }
    }
  }

  lemma {:induction false} PruneOrders(ordered: seq<CloneClass>, minFiles: int, kept: seq<CloneClass>)
    requires Ordered(kept, RankLe) && Ordered(ordered, RankLe)
    requires forall k, c :: k in kept && c in ordered ==> RankLe(k, c)
    ensures Ordered(Prune(ordered, minFiles, kept), RankLe)
    decreases |ordered|
  {
    if ordered != [] {
      var c := ordered[0];
      PruneOrders(ordered[1..], minFiles,
                  if |FilesOf(c.members)| < minFiles || Covered(kept, c) then kept else kept + [c]);
    }
  }

  /** Ranking drops a class exactly when it spans too few files or a surviving class covers it, and orders the rest. */
  lemma RankIsComplete(classes: seq<CloneClass>, minFiles: int, c: CloneClass)
    ensures Ordered(Ranked(classes, minFiles), RankLe)
    ensures Irredundant(Ranked(classes, minFiles), minFiles)
    ensures c in Ranked(classes, minFiles) ==> c in classes && |FilesOf(c.members)| >= minFiles
    ensures c in classes && |FilesOf(c.members)| >= minFiles ==>
              c in Ranked(classes, minFiles) || Covered(Ranked(classes, minFiles), c)
  {
    RankOrder();
    SortIsOrdered(classes, RankLe);
    SortKeeps(classes, RankLe);
    PruneOrders(Sort(classes, RankLe), minFiles, []);
    PruneKeeps(Sort(classes, RankLe), minFiles, [], c);
  }

  // ---- the order and the cover, on the classes' own fields ---------------------------------------

  /** Code-evidenced, inferred, rebound, unreachable: the second class stands no higher than the first. */
  predicate StandsNoLower(a: CloneClass, b: CloneClass) {
    && (b.demoted.None? && !b.inferred ==> a.demoted.None? && !a.inferred)
    && (b.demoted.None? && b.inferred ==> a.demoted.None?)
    && (b.demoted == Some(Rebound) ==> a.demoted != Some(Unreachable))
  }

  predicate SameStanding(a: CloneClass, b: CloneClass) {
    a.demoted == b.demoted && (a.demoted.None? ==> a.inferred == b.inferred)
  }

  /** Idioms and vocabulary are weighed by their sites, every other kind by what is copied. */
  predicate ManySites(c: CloneClass) { c.kind == Idiom || c.kind == Vocabulary }

  /** Of two ranked classes the first never stands lower. At the same standing, copied classes come by tokens times members
      times files, many-site classes by members, counted up to three for each file, times files; ties go by location. */
  lemma RankFollowsWeight(classes: seq<CloneClass>, minFiles: int, i: nat, j: nat)
    requires i < j < |Ranked(classes, minFiles)|
    ensures var a, b := Ranked(classes, minFiles)[i], Ranked(classes, minFiles)[j];
            var files, files' := |set u | u in a.members :: u.file|, |set u | u in b.members :: u.file|;
            var mass, mass' := a.tokens * |a.members| * files, b.tokens * |b.members| * files';
            var sites := if |a.members| <= 3 * files then |a.members| else 3 * files;
            var sites' := if |b.members| <= 3 * files' then |b.members| else 3 * files';
            var tie := (a.members != [] && b.members != [] ==> StringLe(Location(a.members[0]), Location(b.members[0])));
            && StandsNoLower(a, b)
            && (SameStanding(a, b) && !ManySites(a) && !ManySites(b) ==> mass > mass' || (mass == mass' && tie))
            && (SameStanding(a, b) && ManySites(a) && ManySites(b) ==>
                  sites * files > sites' * files' || (sites * files == sites' * files' && tie))
  {
    var a, b := Ranked(classes, minFiles)[i], Ranked(classes, minFiles)[j];
    RankIsComplete(classes, minFiles, a);
    assert RankLe(a, b);
    assert (set u | u in a.members :: u.file) == FilesOf(a.members) && (set u | u in b.members :: u.file) == FilesOf(b.members);
  }

  /** Among the kept classes, one copied at least as often has for this member one in the same file, over all its lines and
      of at least its tokens. */
  ghost predicate Contained(kept: seq<CloneClass>, c: CloneClass) {
    exists k :: k in kept && |k.members| >= |c.members| && forall m :: m in c.members ==>
      exists o :: o in k.members && o.file == m.file && o.startLine <= m.startLine && m.endLine <= o.endLine && m.tokens <= o.tokens
  }

  lemma ContainedIsCovered(kept: seq<CloneClass>, c: CloneClass)
    ensures Contained(kept, c) <==> Covered(kept, c)
  {
    if Covered(kept, c) {
      var k :| k in kept && Covers(k, c);
      forall m | m in c.members
        ensures exists o :: o in k.members && o.file == m.file && o.startLine <= m.startLine && m.endLine <= o.endLine && m.tokens <= o.tokens
      {
        assert Inside(k, m);
        var o :| o in k.members && Encloses(o, m);
      }
    }
    if Contained(kept, c) {
      var k :| k in kept && |k.members| >= |c.members| && forall m :: m in c.members ==>
        exists o :: o in k.members && o.file == m.file && o.startLine <= m.startLine && m.endLine <= o.endLine && m.tokens <= o.tokens;
      forall m | m in c.members ensures Inside(k, m) {
        var o :| o in k.members && o.file == m.file && o.startLine <= m.startLine && m.endLine <= o.endLine && m.tokens <= o.tokens;
        assert Encloses(o, m);
      }
      assert Covers(k, c);
    }
  }

  /** A class is dropped only for spanning too few files or being contained in a kept class, and no kept class spans too
      few files or is contained in one before it. */
  lemma RankDropsTheContained(classes: seq<CloneClass>, minFiles: int, c: CloneClass)
    ensures var ranked := Ranked(classes, minFiles);
            && (c in ranked ==> c in classes && |set u | u in c.members :: u.file| >= minFiles)
            && (c in classes && |set u | u in c.members :: u.file| >= minFiles ==> c in ranked || Contained(ranked, c))
            && forall i :: 0 <= i < |ranked| ==> !Contained(ranked[..i], ranked[i])
  {
    var ranked := Ranked(classes, minFiles);
    RankIsComplete(classes, minFiles, c);
    assert (set u | u in c.members :: u.file) == FilesOf(c.members);
    ContainedIsCovered(ranked, c);
    forall i | 0 <= i < |ranked| ensures !Contained(ranked[..i], ranked[i]) { ContainedIsCovered(ranked[..i], ranked[i]); }
  }

  // ---- the computation ---------------------------------------------------------------

  type Span = (nat, nat, nat)

  function SpanOf(u: Unit): Span { (u.startLine, u.endLine, u.tokens) }

  /** A class's member spans, by file. */
  ghost predicate Spanned(spans: map<string, seq<Span>>, members: seq<Unit>) {
    && (forall f :: f in spans <==> f in FilesOf(members))
    && forall f, x :: f in spans ==> (x in spans[f] <==> exists u :: u in members && u.file == f && SpanOf(u) == x)
  }

  method SpansOf(members: seq<Unit>) returns (spans: map<string, seq<Span>>)
    ensures Spanned(spans, members)
  {
    spans := map[];
    for i := 0 to |members|
      invariant Spanned(spans, members[..i])
    {
      var u := members[i];
      ghost var before := spans;
      var held := if u.file in spans then spans[u.file] else [];
      spans := spans[u.file := held + [SpanOf(u)]];
      SpannedStep(before, members, i, spans);
    }
    assert members[..|members|] == members;
  }

  lemma SpannedStep(before: map<string, seq<Span>>, members: seq<Unit>, i: nat, spans: map<string, seq<Span>>)
    requires i < |members| && Spanned(before, members[..i])
    requires var u := members[i];
             spans == before[u.file := (if u.file in before then before[u.file] else []) + [SpanOf(u)]]
    ensures Spanned(spans, members[..i + 1])
  {}

  function IndicesOf(byFile: map<string, seq<nat>>, f: string): seq<nat> { if f in byFile then byFile[f] else [] }

  ghost predicate HoldsFile(classes: seq<CloneClass>, i: nat, f: string) {
    i < |classes| && f in FilesOf(classes[i].members)
  }

  ghost predicate IndexedAt(byFile: map<string, seq<nat>>, classes: seq<CloneClass>, f: string, i: nat) {
    i in IndicesOf(byFile, f) <==> HoldsFile(classes, i, f)
  }

  /** The classes with a member in each file. */
  ghost predicate Indexed(byFile: map<string, seq<nat>>, classes: seq<CloneClass>) {
    forall f, i :: IndexedAt(byFile, classes, f, i)
  }

  lemma IndexedStep(
      before: map<string, seq<nat>>, classes: seq<CloneClass>, c: CloneClass, after: map<string, seq<nat>>,
      f: string, i: nat)
    requires IndexedAt(before, classes, f, i)
    requires IndicesOf(after, f) == IndicesOf(before, f) + if f in FilesOf(c.members) then [|classes|] else []
    ensures IndexedAt(after, classes + [c], f, i)
  {}

  ghost predicate AllSpanned(spans: seq<map<string, seq<Span>>>, classes: seq<CloneClass>) {
    |spans| == |classes| && forall i :: 0 <= i < |classes| ==> Spanned(spans[i], classes[i].members)
  }

  /** A kept class that is copied often enough and encloses the first members of another. */
  ghost predicate CoversFirst(classes: seq<CloneClass>, i: nat, c: CloneClass, n: nat)
    requires n <= |c.members|
  {
    i < |classes| && |classes[i].members| >= |c.members| && forall j :: 0 <= j < n ==> Inside(classes[i], c.members[j])
  }

  lemma CoveredIsCoversAll(classes: seq<CloneClass>, c: CloneClass)
    ensures Covered(classes, c) <==> exists i :: CoversFirst(classes, i, c, |c.members|)
  {
    if i: nat :| CoversFirst(classes, i, c, |c.members|) {
      assert classes[i] in classes && Covers(classes[i], c);
    }
    if k :| k in classes && Covers(k, c) {
      var i :| 0 <= i < |classes| && classes[i] == k;
      assert CoversFirst(classes, i, c, |c.members|);
    }
  }

  lemma NarrowsOn(classes: seq<CloneClass>, c: CloneClass, n: nat, candidates: seq<nat>, still: seq<nat>)
    requires n < |c.members| && forall i :: i in candidates <==> CoversFirst(classes, i, c, n)
    requires forall i :: i in still <==> i in candidates && i < |classes| && Inside(classes[i], c.members[n])
    ensures forall i :: i in still <==> CoversFirst(classes, i, c, n + 1)
  {}

  /** The kept classes with two indexes over them: spans by class and file, and classes by file. */
  class Kept {
    var classes: seq<CloneClass>
    var spans: seq<map<string, seq<Span>>>
    var byFile: map<string, seq<nat>>

    ghost predicate Valid()
      reads this
    {
      AllSpanned(spans, classes) && Indexed(byFile, classes)
    }

    constructor ()
      ensures Valid() && classes == []
    {
      classes, spans, byFile := [], [], map[];
    }

    /** Keep one class. */
    method Add(c: CloneClass)
      requires Valid()
      modifies this
      ensures Valid() && classes == old(classes) + [c]
    {
      var index := |classes|;
      var held := SpansOf(c.members);
      ghost var before := byFile;
      byFile := map f | f in byFile.Keys + held.Keys :: IndicesOf(byFile, f) + if f in held then [index] else [];
      forall f, i ensures IndexedAt(byFile, classes + [c], f, i) {
        assert IndexedAt(before, classes, f, i);
        IndexedStep(before, classes, c, byFile, f, i);
      }
      classes, spans := classes + [c], spans + [held];
    }

    /** Whether a kept class has a member enclosing this one. */
    function EnclosedBy(index: nat, m: Unit): (r: bool)
      requires Valid() && index < |classes|
      reads this
      ensures r <==> Inside(classes[index], m)
    {
      var held := if m.file in spans[index] then spans[index][m.file] else [];
      var r := exists k :: 0 <= k < |held| && held[k].0 <= m.startLine && m.endLine <= held[k].1 && held[k].2 >= m.tokens;
      assert r <==> Inside(classes[index], m) by {
        assert Spanned(spans[index], classes[index].members);
        if k :| 0 <= k < |held| && held[k].0 <= m.startLine && m.endLine <= held[k].1 && held[k].2 >= m.tokens {
          assert held[k] in spans[index][m.file];
        }
        if o :| o in classes[index].members && Encloses(o, m) {
          assert o.file in FilesOf(classes[index].members) && SpanOf(o) in held;
          var k :| 0 <= k < |held| && held[k] == SpanOf(o);
        }
      }
      r
    }

    /** The indexed search decides `Covered` over the kept classes. */
    method IsCovered(c: CloneClass) returns (covered: bool)
      requires Valid() && c.members != []
      ensures covered <==> Covered(classes, c)
    {
      CoveredIsCoversAll(classes, c);
      var candidates := Starting(c);
      for k := 1 to |c.members|
        invariant forall i :: i in candidates <==> CoversFirst(classes, i, c, k)
      {
        if candidates == [] {
          assert forall i: nat :: CoversFirst(classes, i, c, |c.members|) ==> CoversFirst(classes, i, c, k);
          return false;
        }
        var still := Narrow(candidates, c.members[k]);
        NarrowsOn(classes, c, k, candidates, still);
        candidates := still;
      }
      if candidates != [] { assert candidates[0] in candidates; }
      covered := candidates != [];
    }

    /** The kept classes copied often enough and enclosing the first member, looked up by its file. */
    method Starting(c: CloneClass) returns (candidates: seq<nat>)
      requires Valid() && c.members != []
      ensures forall i :: i in candidates <==> CoversFirst(classes, i, c, 1)
    {
      var first := c.members[0];
      var indexed := IndicesOf(byFile, first.file);
      candidates := [];
      for k := 0 to |indexed|
        invariant forall i :: i in candidates <==> i in indexed[..k] && CoversFirst(classes, i, c, 1)
      {
        var index := indexed[k];
        assert index in indexed && indexed[..k + 1] == indexed[..k] + [index] && IndexedAt(byFile, classes, first.file, index);
        if |classes[index].members| >= |c.members| && EnclosedBy(index, first) { candidates := candidates + [index]; }
      }
      assert indexed[..|indexed|] == indexed;
      forall i: nat | CoversFirst(classes, i, c, 1) ensures i in indexed {
        assert Inside(classes[i], first);
        var o :| o in classes[i].members && Encloses(o, first);
        assert IndexedAt(byFile, classes, first.file, i);
      }
    }

    /** The candidates that enclose one more member. */
    method Narrow(candidates: seq<nat>, m: Unit) returns (still: seq<nat>)
      requires Valid() && forall i :: i in candidates ==> i < |classes|
      ensures forall i :: i in still <==> i in candidates && i < |classes| && Inside(classes[i], m)
    {
      still := [];
      for k := 0 to |candidates|
        invariant forall i :: i in still <==> i in candidates[..k] && i < |classes| && Inside(classes[i], m)
      {
        var index := candidates[k];
        assert index in candidates && candidates[..k + 1] == candidates[..k] + [index];
        if EnclosedBy(index, m) { still := still + [index]; }
      }
      assert candidates[..|candidates|] == candidates;
    }
  }

  /** The loop over the sorted classes computes `Ranked`. */
  method Rank(classes: seq<CloneClass>, minFiles: int) returns (ranked: seq<CloneClass>)
    requires forall c :: c in classes ==> c.members != []
    ensures ranked == Ranked(classes, minFiles)
  {
    var ordered := Sort(classes, RankLe);
    SortKeeps(classes, RankLe);
    var kept := new Kept();
    for i := 0 to |ordered|
      invariant fresh(kept) && kept.Valid()
      invariant Prune(ordered[i..], minFiles, kept.classes) == Ranked(classes, minFiles)
    {
      var c := ordered[i];
      assert c in ordered && ordered[i..][0] == c && ordered[i..][1..] == ordered[i + 1..];
      if |FilesOf(c.members)| < minFiles {
        continue;
      }
      var covered := kept.IsCovered(c);
      if covered {
        continue;
      }
      kept.Add(c);
    }
    ranked := kept.classes;
  }
}
