/** The block regions a template's statements open and close (hwk.py, _Scanner and TemplateFacts.block_at). */
module TemplateBlocks {
  import opened Options
  import opened Sorting

  datatype Block = Block(name: string, start: nat, end: nat)

  /** Nested, apart, or meeting in one line only. */
  predicate Laminar(a: Block, b: Block) {
    || (a.start <= b.start && b.end <= a.end) || (b.start <= a.start && a.end <= b.end)
    || a.end <= b.start || b.end <= a.start
  }

  /** An open block and one already closed: the closed one began no earlier, or ended no later than the open one began. */
  predicate Beside(open: (string, nat), closed: Block) { open.1 <= closed.start || closed.end <= open.1 }

  ghost predicate AllLaminar(blocks: seq<Block>) {
    forall a, b :: a in blocks && b in blocks ==> Laminar(a, b)
  }

  ghost predicate AllBeside(open: seq<(string, nat)>, blocks: seq<Block>) {
    forall o, b :: o in open && b in blocks ==> Beside(o, b)
  }

  /** Opened in the order of their lines. */
  ghost predicate Stacked(open: seq<(string, nat)>) {
    forall i, j :: 0 <= i < j < |open| ==> open[i].1 <= open[j].1
  }

  predicate StartLe(a: Block, b: Block) { a.start <= b.start }

  // ---- reading statements ---------------------------------------------------------------------

  /** A statement that opens a block, unless it names none, or one that closes the innermost open block. */
  datatype Statement = Opening(name: string, line: nat) | Closing(line: nat)

  /** The regions closed so far, and the blocks still open, innermost last. */
  datatype Reading = Reading(blocks: seq<Block>, open: seq<(string, nat)>)

  function Take(s: Reading, statement: Statement): Reading {
    match statement
    case Opening(name, line) => if name == "" then s else s.(open := s.open + [(name, line)])
    case Closing(line) =>
      if s.open == [] then s
      else
        var last := s.open[|s.open| - 1];
        Reading(s.blocks + [Block(last.0, last.1, line)], s.open[..|s.open| - 1])
  }

  function TakeAll(statements: seq<Statement>): Reading
    decreases |statements|
  {
    if statements == [] then Reading([], [])
    else Take(TakeAll(statements[..|statements| - 1]), statements[|statements| - 1])
  }

  lemma TakeGoesOn(statements: seq<Statement>, last: Statement)
    ensures TakeAll(statements + [last]) == Take(TakeAll(statements), last)
  {
    assert (statements + [last])[..|statements|] == statements;
  }

  function Leftovers(open: seq<(string, nat)>, lineCount: nat): seq<Block> {
    seq(|open|, i requires 0 <= i < |open| => Block(open[i].0, open[i].1, lineCount))
  }

  /** A template's regions, the blocks never closed running to its end. */
  function Regions(statements: seq<Statement>, lineCount: nat): seq<Block> {
    var s := TakeAll(statements);
    Sort(s.blocks + Leftovers(s.open, lineCount), StartLe)
  }

  /** Statements in the order of their lines, none past the last line. */
  ghost predicate InLineOrder(statements: seq<Statement>, lineCount: nat) {
    && (forall i, j :: 0 <= i < j < |statements| ==> statements[i].line <= statements[j].line)
    && (forall i :: 0 <= i < |statements| ==> statements[i].line <= lineCount)
  }

  // ---- regions never cross --------------------------------------------------------------------

  /** Everything read lies within the lines reached, and no two regions cross. */
  ghost predicate Ready(s: Reading, reached: nat) {
    && Stacked(s.open) && AllLaminar(s.blocks) && AllBeside(s.open, s.blocks)
    && (forall o :: o in s.open ==> o.1 <= reached)
    && (forall b :: b in s.blocks ==> b.start <= b.end <= reached)
  }

  lemma TakeKeepsReady(s: Reading, reached: nat, statement: Statement)
    requires Ready(s, reached) && reached <= statement.line
    ensures Ready(Take(s, statement), statement.line)
  {
    if statement.Closing? && s.open != [] { ClosingIsLaminar(s.open, s.blocks, statement.line); }
  }

  lemma {:induction false} TakeAllIsReady(statements: seq<Statement>, lineCount: nat)
    requires InLineOrder(statements, lineCount)
    ensures Ready(TakeAll(statements), if statements == [] then 0 else statements[|statements| - 1].line)
    decreases |statements|
  {
    if statements != [] {
      var before, last := statements[..|statements| - 1], statements[|statements| - 1];
      TakeAllIsReady(before, lineCount);
      TakeKeepsReady(TakeAll(before), if before == [] then 0 else before[|before| - 1].line, last);
    }
  }

  lemma ClosingIsLaminar(open: seq<(string, nat)>, blocks: seq<Block>, line: nat)
    requires open != [] && Stacked(open) && AllLaminar(blocks) && AllBeside(open, blocks)
    requires (forall o :: o in open ==> o.1 <= line) && (forall b :: b in blocks ==> b.start <= b.end <= line)
    ensures var last := open[|open| - 1];
            var more := blocks + [Block(last.0, last.1, line)];
            AllLaminar(more) && AllBeside(open[..|open| - 1], more) && Stacked(open[..|open| - 1])
  {
    var last := open[|open| - 1];
    var closed := Block(last.0, last.1, line);
    forall b | b in blocks ensures Laminar(b, closed) && Laminar(closed, b) { assert Beside(last, b); }
    forall o | o in open[..|open| - 1] ensures Beside(o, closed) {
      var i :| 0 <= i < |open| - 1 && open[i] == o;
    }
  }

  /** Blocks never closed hold, or come after, every region: with them no two regions cross either. */
  lemma RegionsAreLaminar(s: Reading, reached: nat, lineCount: nat)
    requires Ready(s, reached) && reached <= lineCount
    ensures var regions := Sort(s.blocks + Leftovers(s.open, lineCount), StartLe);
            && AllLaminar(regions) && Ordered(regions, StartLe)
            && (forall b :: b in regions ==> b.start <= b.end <= lineCount)
  {
    var left := Leftovers(s.open, lineCount);
    SortKeeps(s.blocks + left, StartLe);
    SortIsOrdered(s.blocks + left, StartLe);
    forall b | b in left ensures b.end == lineCount && (b.name, b.start) in s.open {
      var i :| 0 <= i < |left| && left[i] == b;
      assert (b.name, b.start) == s.open[i];
    }
    forall a, b | a in s.blocks + left && b in left ensures Laminar(a, b) && Laminar(b, a) {
      if a in s.blocks { assert Beside((b.name, b.start), a); }
    }
  }

  /** Whatever a template holds, its regions are nested, apart, or meet in one line only, and sorted by start. */
  lemma RegionsNeverCross(statements: seq<Statement>, lineCount: nat)
    requires InLineOrder(statements, lineCount)
    ensures AllLaminar(Regions(statements, lineCount)) && Ordered(Regions(statements, lineCount), StartLe)
    ensures forall b :: b in Regions(statements, lineCount) ==> b.start <= b.end <= lineCount
  {
    TakeAllIsReady(statements, lineCount);
    RegionsAreLaminar(TakeAll(statements), if statements == [] then 0 else statements[|statements| - 1].line, lineCount);
  }

  // ---- regions are matched statements ---------------------------------------------------------

  /** What becomes of an opened block: it is still open around so many others, or was closed on a line. */
  datatype Fate = Around(inside: nat) | Closed(line: nat)

  /** One statement more: it opens another block inside, or closes the innermost one. */
  function After(fate: Fate, statement: Statement): Fate {
    match (fate, statement)
    case (Closed(line), _) => fate
    case (Around(inside), Opening(name, _)) => if name == "" then fate else Around(inside + 1)
    case (Around(inside), Closing(line)) => if inside == 0 then Closed(line) else Around(inside - 1)
  }

  /** The fate of the block that statement i opens, by counting the statements after it. */
  function FateOf(statements: seq<Statement>, i: nat): Fate
    requires i < |statements|
    decreases |statements|
  {
    var before, last := statements[..|statements| - 1], statements[|statements| - 1];
    if i == |before| then Around(0) else After(FateOf(before, i), last)
  }

  predicate Opens(statements: seq<Statement>, i: nat) {
    i < |statements| && statements[i].Opening? && statements[i].name != ""
  }

  /** From the opening statement to the one that closes it, or to the end of the template. */
  function RegionOf(statements: seq<Statement>, i: nat, lineCount: nat): Block
    requires Opens(statements, i)
  {
    var fate := FateOf(statements, i);
    Block(statements[i].name, statements[i].line, if fate.Closed? then fate.line else lineCount)
  }

  /** An opened block is where its fate says: on the stack that deep, or among the regions. */
  ghost predicate Kept(statements: seq<Statement>, s: Reading, i: nat)
    requires Opens(statements, i)
  {
    match FateOf(statements, i)
    case Around(inside) =>
      inside < |s.open| && s.open[|s.open| - 1 - inside] == (statements[i].name, statements[i].line)
    case Closed(line) => Block(statements[i].name, statements[i].line, line) in s.blocks
  }

  ghost predicate OpenedBy(statements: seq<Statement>, i: nat, inside: nat) {
    Opens(statements, i) && FateOf(statements, i) == Around(inside)
  }

  ghost predicate SomeOpenedBy(statements: seq<Statement>, inside: nat) { exists i: nat :: OpenedBy(statements, i, inside) }

  ghost predicate ClosedFrom(statements: seq<Statement>, i: nat, b: Block) {
    Opens(statements, i) && FateOf(statements, i).Closed? && b == RegionOf(statements, i, 0)
  }

  /** Every opened block is kept, and nothing else is. */
  ghost predicate Matched(statements: seq<Statement>, s: Reading) {
    && (forall i: nat :: Opens(statements, i) ==> Kept(statements, s, i))
    && (forall d: nat :: d < |s.open| ==> SomeOpenedBy(statements, d))
    && (forall b :: b in s.blocks ==> exists i: nat :: ClosedFrom(statements, i, b))
  }

  lemma OpeningMatches(statements: seq<Statement>, s: Reading, name: string, line: nat)
    requires Matched(statements, s) && name != ""
    ensures Matched(statements + [Opening(name, line)], Take(s, Opening(name, line)))
  {
    var n, more, t := |statements|, statements + [Opening(name, line)], Take(s, Opening(name, line));
    assert more[..n] == statements;
    forall i: nat | Opens(more, i) ensures Kept(more, t, i) {
      if i < n { assert Kept(statements, s, i); }
    }
    forall d: nat | d < |t.open| ensures SomeOpenedBy(more, d) {
      if d == 0 {
        assert OpenedBy(more, n, 0);
      } else {
        assert SomeOpenedBy(statements, d - 1);
        var i: nat :| OpenedBy(statements, i, d - 1);
        assert OpenedBy(more, i, d);
      }
    }
    RegionsStay(statements, s, Opening(name, line));
  }

  /** A region stays the closed block it is, whatever is read next. */
  lemma RegionsStay(statements: seq<Statement>, s: Reading, last: Statement)
    requires Matched(statements, s)
    ensures forall b :: b in s.blocks ==> exists i: nat :: ClosedFrom(statements + [last], i, b)
  {
    var more := statements + [last];
    assert more[..|statements|] == statements;
    forall b | b in s.blocks ensures exists i: nat :: ClosedFrom(more, i, b) {
      var i: nat :| ClosedFrom(statements, i, b);
      assert ClosedFrom(more, i, b);
    }
  }

  /** What opens nothing and closes nothing changes no fate. */
  lemma IdleMatches(statements: seq<Statement>, s: Reading, last: Statement)
    requires Matched(statements, s) && Take(s, last) == s && (last.Opening? ==> last.name == "")
    ensures Matched(statements + [last], s)
  {
    var n, more := |statements|, statements + [last];
    assert more[..n] == statements;
    forall i: nat | Opens(more, i) ensures Kept(more, s, i) { assert Kept(statements, s, i); }
    forall d: nat | d < |s.open| ensures SomeOpenedBy(more, d) {
      assert SomeOpenedBy(statements, d);
      var i: nat :| OpenedBy(statements, i, d);
      assert OpenedBy(more, i, d);
    }
    RegionsStay(statements, s, last);
  }

  lemma ClosingMatches(statements: seq<Statement>, s: Reading, line: nat)
    requires Matched(statements, s) && s.open != []
    ensures Matched(statements + [Closing(line)], Take(s, Closing(line)))
  {
    var n, more, t := |statements|, statements + [Closing(line)], Take(s, Closing(line));
    var last := s.open[|s.open| - 1];
    assert more[..n] == statements;
    forall i: nat | Opens(more, i) ensures Kept(more, t, i) { assert Kept(statements, s, i); }
    forall d: nat | d < |t.open| ensures SomeOpenedBy(more, d) {
      assert SomeOpenedBy(statements, d + 1);
      var i: nat :| OpenedBy(statements, i, d + 1);
      assert OpenedBy(more, i, d);
    }
    RegionsStay(statements, s, Closing(line));
    assert SomeOpenedBy(statements, 0);
    var i: nat :| OpenedBy(statements, i, 0);
    assert Kept(statements, s, i) && ClosedFrom(more, i, Block(last.0, last.1, line));
  }

  lemma {:induction false} ReadingMatches(statements: seq<Statement>)
    ensures Matched(statements, TakeAll(statements))
    decreases |statements|
  {
    if statements != [] {
      var before, last := statements[..|statements| - 1], statements[|statements| - 1];
      ReadingMatches(before);
      assert before + [last] == statements;
      match last
      case Opening(name, line) =>
        if name == "" { IdleMatches(before, TakeAll(before), last); } else { OpeningMatches(before, TakeAll(before), name, line); }
      case Closing(line) =>
        if TakeAll(before).open == [] { IdleMatches(before, TakeAll(before), last); } else { ClosingMatches(before, TakeAll(before), line); }
    }
  }

  lemma RegionsHold(s: Reading, lineCount: nat, b: Block)
    ensures b in Sort(s.blocks + Leftovers(s.open, lineCount), StartLe) <==> b in s.blocks || b in Leftovers(s.open, lineCount)
  {
    SortKeeps(s.blocks + Leftovers(s.open, lineCount), StartLe);
  }

  lemma RegionIsMatched(statements: seq<Statement>, lineCount: nat, b: Block) returns (i: nat)
    requires b in Regions(statements, lineCount)
    ensures Opens(statements, i) && b == RegionOf(statements, i, lineCount)
  {
    var s := TakeAll(statements);
    ReadingMatches(statements);
    RegionsHold(s, lineCount, b);
    if b in s.blocks {
      i :| ClosedFrom(statements, i, b);
    } else {
      var k :| 0 <= k < |s.open| && Leftovers(s.open, lineCount)[k] == b;
      assert SomeOpenedBy(statements, |s.open| - 1 - k);
      i :| OpenedBy(statements, i, |s.open| - 1 - k);
      assert Kept(statements, s, i);
    }
  }

  lemma MatchedIsRegion(statements: seq<Statement>, lineCount: nat, i: nat)
    requires Opens(statements, i)
    ensures RegionOf(statements, i, lineCount) in Regions(statements, lineCount)
  {
    var s := TakeAll(statements);
    ReadingMatches(statements);
    assert Kept(statements, s, i);
    RegionsHold(s, lineCount, RegionOf(statements, i, lineCount));
    if FateOf(statements, i).Around? {
      assert Leftovers(s.open, lineCount)[|s.open| - 1 - FateOf(statements, i).inside] == RegionOf(statements, i, lineCount);
    }
  }

  /** The regions found with a stack are exactly those from each opening statement to the one that closes it by counting,
      or to the end. */
  lemma RegionsAreMatched(statements: seq<Statement>, lineCount: nat, b: Block)
    ensures b in Regions(statements, lineCount) <==>
            exists i: nat :: Opens(statements, i) && b == RegionOf(statements, i, lineCount)
  {
    if b in Regions(statements, lineCount) { var i := RegionIsMatched(statements, lineCount, b); }
    if i: nat :| Opens(statements, i) && b == RegionOf(statements, i, lineCount) { MatchedIsRegion(statements, lineCount, i); }
  }

  function Openings(statements: seq<Statement>): nat
    decreases |statements|
  {
    if statements == [] then 0
    else
      var last := statements[|statements| - 1];
      Openings(statements[..|statements| - 1]) + if last.Opening? && last.name != "" then 1 else 0
  }

  /** Each opening statement gives one region, even where several give the same. */
  lemma {:induction false} OneRegionEach(statements: seq<Statement>, lineCount: nat)
    ensures |Regions(statements, lineCount)| == |TakeAll(statements).blocks| + |TakeAll(statements).open| == Openings(statements)
    decreases |statements|
  {
    var s := TakeAll(statements);
    SortKeeps(s.blocks + Leftovers(s.open, lineCount), StartLe);
    if statements != [] { OneRegionEach(statements[..|statements| - 1], lineCount); }
  }

  // ---- the scanner ----------------------------------------------------------------------------

  class Scanner {
    const lineCount: nat
    var blocks: seq<Block>
    var openBlocks: seq<(string, nat)>

    function View(): Reading
      reads this
    {
      Reading(blocks, openBlocks)
    }

    constructor (lineCount: nat)
      ensures View() == Reading([], []) && this.lineCount == lineCount
    {
      this.lineCount := lineCount;
      blocks, openBlocks := [], [];
    }

    method KeywordBlock(name: string, line: nat)
      modifies this
      ensures View() == Take(old(View()), Opening(name, line))
    {
      if name != "" { openBlocks := openBlocks + [(name, line)]; }
    }

    /** The last opened block becomes a region; with none open nothing changes. */
    method KeywordEndBlock(line: nat)
      modifies this
      ensures View() == Take(old(View()), Closing(line))
    {
      if openBlocks != [] {
        var last := openBlocks[|openBlocks| - 1];
        openBlocks := openBlocks[..|openBlocks| - 1];
        blocks := blocks + [Block(last.0, last.1, line)];
      }
    }

    /** The end of the template closes what is still open. */
    method Finish()
      modifies this`blocks
      ensures blocks == Sort(old(blocks) + Leftovers(openBlocks, lineCount), StartLe)
    {
      var i, left := 0, Leftovers(openBlocks, lineCount);
      while i < |openBlocks|
        invariant i <= |openBlocks| && blocks == old(blocks) + left[..i]
      {
        blocks := blocks + [Block(openBlocks[i].0, openBlocks[i].1, lineCount)];
        i := i + 1;
      }
      assert left[..i] == left;
      blocks := Sort(blocks, StartLe);
    }

    method Run(statements: seq<Statement>)
      requires View() == Reading([], [])
      modifies this
      ensures blocks == Regions(statements, lineCount)
    {
      for i := 0 to |statements|
        invariant View() == TakeAll(statements[..i])
      {
        assert statements[..i + 1] == statements[..i] + [statements[i]];
        TakeGoesOn(statements[..i], statements[i]);
        match statements[i]
        case Opening(name, line) => KeywordBlock(name, line);
        case Closing(line) => KeywordEndBlock(line);
      }
      assert statements[..|statements|] == statements;
      Finish();
    }
  }

  // ---- the block of a line --------------------------------------------------------------------

  predicate Contains(b: Block, line: nat) { b.start <= line <= b.end }

  method BlockAt(blocks: seq<Block>, line: nat) returns (r: Option<Block>)
    ensures r.Some? <==> exists b :: b in blocks && Contains(b, line)
    ensures r.Some? ==> r.value in blocks && Contains(r.value, line)
    ensures r.Some? ==> forall b :: b in blocks && Contains(b, line) ==> r.value.end - r.value.start <= b.end - b.start
  {
    r := None;
    var i := 0;
    while i < |blocks|
      invariant i <= |blocks|
      invariant r.Some? <==> exists k :: 0 <= k < i && Contains(blocks[k], line)
      invariant r.Some? ==> r.value in blocks && Contains(r.value, line)
      invariant r.Some? ==>
        forall k :: 0 <= k < i && Contains(blocks[k], line) ==> r.value.end - r.value.start <= blocks[k].end - blocks[k].start
    {
      if Contains(blocks[i], line) && (r.None? || blocks[i].end - blocks[i].start < r.value.end - r.value.start) {
        r := Some(blocks[i]);
      }
      i := i + 1;
    }
  }

  /** The narrowest block of a line lies inside every other block of the line, but for one it only meets in that line. */
  lemma NarrowestIsInnermost(blocks: seq<Block>, line: nat, narrowest: Block, other: Block)
    requires AllLaminar(blocks) && narrowest in blocks && other in blocks && Contains(narrowest, line) && Contains(other, line)
    requires narrowest.end - narrowest.start <= other.end - other.start
    ensures (other.start <= narrowest.start && narrowest.end <= other.end)
            || (narrowest.end == line == other.start) || (other.end == line == narrowest.start)
  {}

  predicate Nested(a: Block, b: Block) { (a.start <= b.start && b.end <= a.end) || (b.start <= a.start && a.end <= b.end) }

  predicate Apart(a: Block, b: Block) { a.end < b.start || b.end < a.start }

  /** By lines alone, any two regions are nested or apart. */
  ghost predicate NestedOrApart(blocks: seq<Block>) { forall a, b :: a in blocks && b in blocks ==> Nested(a, b) || Apart(a, b) }

  /** No region of several lines ends on the line another one of several lines begins on. */
  ghost predicate NoneMeet(blocks: seq<Block>) {
    forall a, b :: a in blocks && b in blocks && a.start < a.end && b.start < b.end ==> a.end != b.start
  }

  lemma NestedOrMeeting(blocks: seq<Block>)
    requires AllLaminar(blocks) && forall b :: b in blocks ==> b.start <= b.end
    ensures NestedOrApart(blocks) <==> NoneMeet(blocks)
  {}

  /** The block that statement i opens is closed on a later line, and there statement j opens one that goes on past it. */
  ghost predicate Meet(statements: seq<Statement>, lineCount: nat, i: nat, j: nat) {
    && Opens(statements, i) && Opens(statements, j) && FateOf(statements, i).Closed?
    && statements[i].line < FateOf(statements, i).line == statements[j].line < RegionOf(statements, j, lineCount).end
  }

  /** A template's regions are nested or apart by lines exactly when no block of several lines is closed on a line where
      another of several lines opens. */
  lemma NestedUnlessTheyMeet(statements: seq<Statement>, lineCount: nat)
    requires InLineOrder(statements, lineCount)
    ensures NestedOrApart(Regions(statements, lineCount)) <==> !exists i: nat, j: nat :: Meet(statements, lineCount, i, j)
  {
    var regions := Regions(statements, lineCount);
    RegionsNeverCross(statements, lineCount);
    NestedOrMeeting(regions);
    if i: nat, j: nat :| Meet(statements, lineCount, i, j) {
      var a, b := RegionOf(statements, i, lineCount), RegionOf(statements, j, lineCount);
      MatchedIsRegion(statements, lineCount, i);
      MatchedIsRegion(statements, lineCount, j);
      assert a in regions && b in regions && a.start < a.end == b.start < b.end;
    }
    if !NoneMeet(regions) {
      var a, b :| a in regions && b in regions && a.start < a.end && b.start < b.end && a.end == b.start;
      var i := RegionIsMatched(statements, lineCount, a);
      var j := RegionIsMatched(statements, lineCount, b);
      assert Meet(statements, lineCount, i, j);
    }
  }

  /** Then the narrowest block of a line lies inside every block of that line. */
  lemma NarrowestIsInsideAll(blocks: seq<Block>, line: nat, narrowest: Block, other: Block)
    requires NestedOrApart(blocks) && narrowest in blocks && other in blocks
    requires Contains(narrowest, line) && Contains(other, line)
    requires narrowest.end - narrowest.start <= other.end - other.start
    ensures other.start <= narrowest.start && narrowest.end <= other.end
  {
    assert Nested(narrowest, other) || Apart(narrowest, other);
  }

  lemma SortTwo(a: Block, b: Block)
    requires a.start <= b.start
    ensures Sort([a, b], StartLe) == [a, b]
  {
    assert [a, b][1..] == [b] && [b][1..] == [];
    assert Sort([b], StartLe) == [b];
  }

  lemma OneTaken(name: string)
    requires name != ""
    ensures TakeAll([Opening(name, 1), Closing(5)]) == Reading([Block(name, 1, 5)], [])
  {
    var one := [Opening(name, 1)];
    assert one[..0] == [] && TakeAll(one) == Reading([], [(name, 1)]);
    TakeGoesOn(one, Closing(5));
    assert one + [Closing(5)] == [Opening(name, 1), Closing(5)];
  }

  lemma TwoTaken(first: string, second: string) returns (statements: seq<Statement>)
    requires first != "" && second != ""
    ensures InLineOrder(statements, 9) && TakeAll(statements) == Reading([Block(first, 1, 5), Block(second, 5, 9)], [])
  {
    var two := [Opening(first, 1), Closing(5)];
    var three := two + [Opening(second, 5)];
    OneTaken(first);
    TakeGoesOn(two, Opening(second, 5));
    TakeGoesOn(three, Closing(9));
    statements := three + [Closing(9)];
  }

  /** One block closes on the line where another opens: the two regions are neither nested nor apart. */
  lemma TwoCanMeet(first: string, second: string) returns (statements: seq<Statement>)
    requires first != "" && second != ""
    ensures InLineOrder(statements, 9) && Regions(statements, 9) == [Block(first, 1, 5), Block(second, 5, 9)]
    ensures !NestedOrApart(Regions(statements, 9))
  {
    var a, b := Block(first, 1, 5), Block(second, 5, 9);
    statements := TwoTaken(first, second);
    assert [a, b] + Leftovers([], 9) == [a, b];
    SortTwo(a, b);
    assert a in [a, b] && b in [a, b] && !Nested(a, b) && !Apart(a, b);
  }
}
