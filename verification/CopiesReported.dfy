/** What the exact and renamed classes of a run are, said of units and hashes alone (dedup/detect.py, exact_classes,
    renamed_classes and rank; dedup/model.py, CloneClass). */
module CopiesReported {
  import opened Lists
  import opened Options
  import opened Sorting
  import opened DedupModel
  import opened LogicClones
  import opened LogicGroups
  import opened Ranking
  import opened FocusRun

  function WithExact(h: Hash): Unit -> bool { (u: Unit) => u.exactHash == h }

  function WithRenamed(h: Hash): Unit -> bool { (u: Unit) => u.renamedHash == h }

  /** Two units of the list, maybe equal ones. */
  ghost predicate Twice(units: seq<Unit>, mine: Unit -> bool) {
    exists i, j :: 0 <= i < j < |units| && mine(units[i]) && mine(units[j])
  }

  ghost predicate TwoStreams(units: seq<Unit>, mine: Unit -> bool) {
    exists u, v :: u in units && v in units && mine(u) && mine(v) && u.exactHash != v.exactHash
  }

  /** The class holds these units and no others, each as often as the list does. */
  ghost predicate HoldsJust(c: CloneClass, units: seq<Unit>, mine: Unit -> bool) {
    forall u :: multiset(c.members)[u] == if mine(u) then multiset(units)[u] else 0
  }

  /** Its kind, its least member as its size, its members by file and line, and nothing else said of it. */
  ghost predicate PlainClass(c: CloneClass, kind: CloneKind) {
    && c.kind == kind && c.reasons == [] && !c.inferred && c.demoted.None? && c.members != []
    && (forall u :: u in c.members ==> c.tokens <= u.tokens) && (exists u :: u in c.members && u.tokens == c.tokens)
    && InFileOrder(c.members)
  }

  ghost predicate InFileOrder(members: seq<Unit>) {
    forall i, j :: 0 <= i < j < |members| ==>
      if members[i].file == members[j].file then members[i].startLine <= members[j].startLine
      else StringLe(members[i].file, members[j].file)
  }

  // ---- the parts of a class ------------------------------------------------------------------

  lemma {:induction false} MinTokensIsLeast(members: seq<Unit>)
    requires members != []
    ensures forall u :: u in members ==> MinTokens(members) <= u.tokens
    ensures exists u :: u in members && u.tokens == MinTokens(members)
  {
    if |members| > 1 {
      MinTokensIsLeast(members[1..]);
      var u :| u in members[1..] && u.tokens == MinTokens(members[1..]);
      assert members[0] in members && u in members;
    } else {
      assert members[0] in members;
    }
  }

  lemma CloneOfIsPlain(kind: CloneKind, b: seq<Unit>)
    requires b != []
    ensures PlainClass(CloneOf(kind, b, []), kind) && multiset(CloneOf(kind, b, []).members) == multiset(b)
  {
    MinTokensIsLeast(CloneOf(kind, b, []).members);
  }

  lemma {:induction false} FilterCounts(units: seq<Unit>, mine: Unit -> bool, u: Unit)
    ensures multiset(Filter(units, mine))[u] == if mine(u) then multiset(units)[u] else 0
  {
    if units != [] {
      FilterCounts(units[1..], mine, u);
      assert units == [units[0]] + units[1..];
    }
  }

  lemma {:induction false} FilterTwiceTwo(units: seq<Unit>, mine: Unit -> bool)
    ensures |Filter(units, mine)| >= 2 <==> Twice(units, mine)
  {
    if units != [] {
      FilterTwiceTwo(units[1..], mine);
      FilterMembers(units[1..], mine);
      if i, j :| 0 <= i < j < |units| && mine(units[i]) && mine(units[j]) {
        assert units[j] == units[1..][j - 1] && units[j] in units[1..];
        if i > 0 { assert units[i] == units[1..][i - 1]; }
      }
      if i, j :| 0 <= i < j < |units[1..]| && mine(units[1..][i]) && mine(units[1..][j]) {
        assert mine(units[i + 1]) && mine(units[j + 1]);
      }
      if mine(units[0]) && Filter(units[1..], mine) != [] {
        var x := Filter(units[1..], mine)[0];
        assert x in units[1..] && mine(x);
        var j :| 0 <= j < |units[1..]| && units[1..][j] == x;
        assert mine(units[0]) && mine(units[j + 1]);
      }
    }
  }

  // ---- the classes of a list of groups ----------------------------------------------------------

  lemma {:induction false} ClassesOfBuckets(kind: CloneKind, buckets: seq<seq<Unit>>, c: CloneClass)
    ensures c in HashClasses(kind, buckets) <==> exists b :: b in buckets && Reported(kind, b) && c == CloneOf(kind, b, [])
  {
    if buckets != [] {
      ClassesOfBuckets(kind, buckets[1..], c);
      assert buckets == [buckets[0]] + buckets[1..];
    }
  }

  ghost function HashesDiffer(kind: CloneKind): (CloneClass, CloneClass) -> bool {
    (c: CloneClass, d: CloneClass) =>
      forall u, v :: u in c.members && v in d.members ==> HashOf(kind, u) != HashOf(kind, v)
  }

  ghost function UnlikeHash(kind: CloneKind): (Unit, Unit) -> bool { (a, b) => HashOf(kind, a) != HashOf(kind, b) }

  ghost predicate OneHash(kind: CloneKind, b: seq<Unit>) {
    b != [] && forall u :: u in b ==> HashOf(kind, u) == HashOf(kind, b[0])
  }

  /** Groups of pairwise different hashes give classes of pairwise different hashes. */
  lemma {:induction false} ClassesApart(kind: CloneKind, buckets: seq<seq<Unit>>)
    requires forall b :: b in buckets ==> OneHash(kind, b)
    requires Pairwise(buckets, HeadsRelated(UnlikeHash(kind)))
    ensures Pairwise(HashClasses(kind, buckets), HashesDiffer(kind))
  {
    if buckets != [] {
      var rest := HashClasses(kind, buckets[1..]);
      forall i, j | 0 <= i < j < |buckets[1..]| ensures HeadsRelated(UnlikeHash(kind))(buckets[1..][i], buckets[1..][j]) {
        assert HeadsRelated(UnlikeHash(kind))(buckets[i + 1], buckets[j + 1]);
      }
      ClassesApart(kind, buckets[1..]);
      if Reported(kind, buckets[0]) {
        forall c | c in rest ensures HashesDiffer(kind)(CloneOf(kind, buckets[0], []), c) { LaterDiffers(kind, buckets, c); }
        PairwiseCons(CloneOf(kind, buckets[0], []), rest, HashesDiffer(kind));
      } else {
        assert HashClasses(kind, buckets) == rest;
      }
    }
  }

  lemma LaterDiffers(kind: CloneKind, buckets: seq<seq<Unit>>, c: CloneClass)
    requires buckets != [] && buckets[0] != [] && c in HashClasses(kind, buckets[1..])
    requires forall b :: b in buckets ==> OneHash(kind, b)
    requires Pairwise(buckets, HeadsRelated(UnlikeHash(kind)))
    ensures HashesDiffer(kind)(CloneOf(kind, buckets[0], []), c)
  {
    ClassesOfBuckets(kind, buckets[1..], c);
    var b :| b in buckets[1..] && Reported(kind, b) && c == CloneOf(kind, b, []);
    var i :| 0 <= i < |buckets[1..]| && buckets[1..][i] == b;
    assert buckets[i + 1] == b && OneHash(kind, b) && OneHash(kind, buckets[0]);
    assert HeadsRelated(UnlikeHash(kind))(buckets[0], buckets[i + 1]);
  }

  lemma LiteralsApart(kind: CloneKind, units: seq<Unit>)
    ensures Pairwise(LiteralClasses(kind, units), HashesDiffer(kind))
  {
    var buckets := Buckets(units, SameHash(kind));
    SameHashIsEquivalence(kind);
    BucketsDiffer(units, SameHash(kind), UnlikeHash(kind));
    forall b | b in buckets ensures OneHash(kind, b) { BucketMembers(units, SameHash(kind), b); }
    ClassesApart(kind, buckets);
  }

  /** The group of a hash, if any unit has it. */
  lemma BucketOfHash(kind: CloneKind, units: seq<Unit>, mine: Unit -> bool, u: Unit) returns (b: seq<Unit>)
    requires u in units && forall y :: mine(y) <==> HashOf(kind, y) == HashOf(kind, u)
    ensures b in Buckets(units, SameHash(kind)) && b == Filter(units, mine)
  {
    SameHashIsEquivalence(kind);
    BucketsCover(units, SameHash(kind), u);
    b :| b in Buckets(units, SameHash(kind)) && u in b;
    BucketMembers(units, SameHash(kind), b);
    BucketIsClass(units, SameHash(kind), b, mine);
  }

  /** Which groups are reported, by what they hold. */
  lemma ReportedMeans(kind: CloneKind, units: seq<Unit>, mine: Unit -> bool)
    ensures Reported(kind, Filter(units, mine)) <==> Twice(units, mine) && (kind.Renamed? ==> TwoStreams(units, mine))
  {
    var b := Filter(units, mine);
    FilterTwiceTwo(units, mine);
    FilterMembers(units, mine);
    TwoHashes(b);
    if u, v :| u in b && v in b && u.exactHash != v.exactHash { assert TwoStreams(units, mine); }
  }

  lemma TwoHashes(b: seq<Unit>)
    ensures |set u | u in b :: u.exactHash| >= 2 <==> exists u, v :: u in b && v in b && u.exactHash != v.exactHash
  {
    var streams := set u | u in b :: u.exactHash;
    if |streams| >= 2 {
      var one :| one in streams;
      assert |streams - {one}| >= 1;
      var other :| other in streams - {one};
    }
    if u, v :| u in b && v in b && u.exactHash != v.exactHash { UnionIsLarger({u.exactHash, v.exactHash}, streams); }
  }

  // ---- what the classes are ---------------------------------------------------------------------

  ghost predicate HasClass(classes: seq<CloneClass>, units: seq<Unit>, mine: Unit -> bool) {
    exists c :: c in classes && HoldsJust(c, units, mine)
  }

  lemma ClassOfHash(kind: CloneKind, units: seq<Unit>, mine: Unit -> bool, h: Hash)
    requires forall y :: mine(y) <==> HashOf(kind, y) == h
    ensures HasClass(LiteralClasses(kind, units), units, mine) <==> Twice(units, mine) && (kind.Renamed? ==> TwoStreams(units, mine))
  {
    ReportedMeans(kind, units, mine);
    if Twice(units, mine) {
      var i, j :| 0 <= i < j < |units| && mine(units[i]) && mine(units[j]);
      var b := BucketOfHash(kind, units, mine, units[i]);
      if Reported(kind, b) {
        ClassesOfBuckets(kind, Buckets(units, SameHash(kind)), CloneOf(kind, b, []));
        forall u ensures multiset(CloneOf(kind, b, []).members)[u] == if mine(u) then multiset(units)[u] else 0 {
          FilterCounts(units, mine, u);
        }
        assert HoldsJust(CloneOf(kind, b, []), units, mine);
      }
    }
    if c :| c in LiteralClasses(kind, units) && HoldsJust(c, units, mine) { ClassIsReported(kind, units, mine, h, c); }
  }

  lemma ClassIsReported(kind: CloneKind, units: seq<Unit>, mine: Unit -> bool, h: Hash, c: CloneClass)
    requires forall y :: mine(y) <==> HashOf(kind, y) == h
    requires c in LiteralClasses(kind, units) && HoldsJust(c, units, mine)
    ensures Reported(kind, Filter(units, mine))
  {
    var b := GroupBehind(kind, units, c);
    var u := c.members[0];
    assert u in multiset(c.members) && mine(u);
    assert u in multiset(b) && u in b;
    GroupIsHashGroup(kind, units, b);
    SameHashIsEquivalence(kind);
    BucketIsClass(units, SameHash(kind), b, mine);
  }

  lemma GroupBehind(kind: CloneKind, units: seq<Unit>, c: CloneClass) returns (b: seq<Unit>)
    requires c in LiteralClasses(kind, units)
    ensures b in Buckets(units, SameHash(kind)) && Reported(kind, b) && c == CloneOf(kind, b, [])
    ensures c.members != [] && PlainClass(c, kind) && multiset(c.members) == multiset(b)
  {
    ClassesOfBuckets(kind, Buckets(units, SameHash(kind)), c);
    b :| b in Buckets(units, SameHash(kind)) && Reported(kind, b) && c == CloneOf(kind, b, []);
    CloneOfIsPlain(kind, b);
  }

  /** Every class is the class of its members' hash. */
  lemma ClassHoldsItsHash(kind: CloneKind, units: seq<Unit>, mine: Unit -> bool, c: CloneClass)
    requires c in LiteralClasses(kind, units)
    requires c.members != [] ==> forall y :: mine(y) <==> HashOf(kind, y) == HashOf(kind, c.members[0])
    ensures PlainClass(c, kind) && HoldsJust(c, units, mine)
  {
    var b := GroupBehind(kind, units, c);
    assert c.members[0] in multiset(c.members) && c.members[0] in b;
    GroupIsHashGroup(kind, units, b);
    SameHashIsEquivalence(kind);
    BucketIsClass(units, SameHash(kind), b, mine);
    forall u ensures multiset(c.members)[u] == if mine(u) then multiset(units)[u] else 0 { FilterCounts(units, mine, u); }
  }

  lemma StreamsAreTwo(units: seq<Unit>, mine: Unit -> bool)
    ensures TwoStreams(units, mine) ==> Twice(units, mine)
  {
    if TwoStreams(units, mine) {
      var u, v :| u in units && v in units && mine(u) && mine(v) && u.exactHash != v.exactHash;
      var i :| 0 <= i < |units| && units[i] == u;
      var j :| 0 <= j < |units| && units[j] == v;
      if i < j { assert mine(units[i]) && mine(units[j]); } else { assert j < i && mine(units[j]) && mine(units[i]); }
    }
  }

  ghost predicate ExactHashesDiffer(c: CloneClass, d: CloneClass) {
    forall u, v :: u in c.members && v in d.members ==> u.exactHash != v.exactHash
  }

  ghost predicate ExactCopies(c: CloneClass, units: seq<Unit>) {
    PlainClass(c, Exact) && HoldsJust(c, units, WithExact(c.members[0].exactHash))
  }

  lemma ExactClassIsCopies(units: seq<Unit>, c: CloneClass)
    requires c in LiteralClasses(Exact, units)
    ensures ExactCopies(c, units)
  {
    var b := GroupBehind(Exact, units, c);
    ClassHoldsItsHash(Exact, units, WithExact(c.members[0].exactHash), c);
  }

  /** Exact classes: one for every hash that two units have, holding all of them and nothing else, and no other class. */
  lemma ExactClassesAreCopies(units: seq<Unit>, h: Hash)
    ensures HasClass(LiteralClasses(Exact, units), units, WithExact(h)) <==> Twice(units, WithExact(h))
    ensures forall c :: c in LiteralClasses(Exact, units) ==> ExactCopies(c, units)
    ensures forall i, j :: 0 <= i < j < |LiteralClasses(Exact, units)| ==>
              ExactHashesDiffer(LiteralClasses(Exact, units)[i], LiteralClasses(Exact, units)[j])
  {
    var classes := LiteralClasses(Exact, units);
    ClassOfHash(Exact, units, WithExact(h), h);
    forall c | c in classes ensures ExactCopies(c, units) { ExactClassIsCopies(units, c); }
    LiteralsApart(Exact, units);
    forall i, j | 0 <= i < j < |classes| ensures ExactHashesDiffer(classes[i], classes[j]) {
      assert HashesDiffer(Exact)(classes[i], classes[j]);
    }
  }

  ghost predicate RenamedHashesDiffer(c: CloneClass, d: CloneClass) {
    forall u, v :: u in c.members && v in d.members ==> u.renamedHash != v.renamedHash
  }

  ghost predicate RenamedCopies(c: CloneClass, units: seq<Unit>) {
    PlainClass(c, Renamed) && HoldsJust(c, units, WithRenamed(c.members[0].renamedHash))
  }

  lemma RenamedClassIsCopies(units: seq<Unit>, c: CloneClass)
    requires c in LiteralClasses(Renamed, units)
    ensures RenamedCopies(c, units)
  {
    var b := GroupBehind(Renamed, units, c);
    ClassHoldsItsHash(Renamed, units, WithRenamed(c.members[0].renamedHash), c);
  }

  /** Renamed classes: one for every renamed hash that two units have which differ in their exact hash, holding all units
      of that renamed hash and nothing else, and no other class. */
  lemma RenamedClassesAreCopies(units: seq<Unit>, h: Hash)
    ensures HasClass(LiteralClasses(Renamed, units), units, WithRenamed(h)) <==> TwoStreams(units, WithRenamed(h))
    ensures forall c :: c in LiteralClasses(Renamed, units) ==> RenamedCopies(c, units)
    ensures forall i, j :: 0 <= i < j < |LiteralClasses(Renamed, units)| ==>
              RenamedHashesDiffer(LiteralClasses(Renamed, units)[i], LiteralClasses(Renamed, units)[j])
  {
    var classes := LiteralClasses(Renamed, units);
    ClassOfHash(Renamed, units, WithRenamed(h), h);
    StreamsAreTwo(units, WithRenamed(h));
    forall c | c in classes ensures RenamedCopies(c, units) { RenamedClassIsCopies(units, c); }
    LiteralsApart(Renamed, units);
    forall i, j | 0 <= i < j < |classes| ensures RenamedHashesDiffer(classes[i], classes[j]) {
      assert HashesDiffer(Renamed)(classes[i], classes[j]);
    }
  }
}
