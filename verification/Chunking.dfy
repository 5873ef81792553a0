/** Greedy packing and tree splitting of source text into chunks (chunking/core.py). */
module Chunking {

  datatype Chunk = Chunk(start: nat, end: nat)

  predicate Proper(c: Chunk) { c.start <= c.end }

  function Length(c: Chunk): int { c.end - c.start }

  function Total(chunks: seq<Chunk>): int {
    if chunks == [] then 0 else Length(chunks[0]) + Total(chunks[1..])
  }

  function Span(group: seq<Chunk>): Chunk
    requires group != []
  {
    Chunk(group[0].start, group[|group| - 1].end)
  }

  // ---- greedy groups -----------------------------------------------------------------------

  /** How many of the next chunks still fit beside what a group holds. */
  function Fit(next: seq<Chunk>, held: int, limit: int): (k: nat)
    ensures k <= |next|
  {
    if next == [] || held + Length(next[0]) > limit then 0 else 1 + Fit(next[1..], held + Length(next[0]), limit)
  }

  /** The size of the first group: one chunk whatever its length, and what fits beside it. */
  function First(chunks: seq<Chunk>, limit: int): (k: nat)
    requires chunks != []
    ensures 1 <= k <= |chunks|
  {
    1 + Fit(chunks[1..], Length(chunks[0]), limit)
  }

  function Greedy(chunks: seq<Chunk>, limit: int): seq<seq<Chunk>>
    decreases |chunks|
  {
    if chunks == [] then []
    else
      var k := First(chunks, limit);
      [chunks[..k]] + Greedy(chunks[k..], limit)
  }

  ghost predicate NoneEmpty(groups: seq<seq<Chunk>>) { forall i :: 0 <= i < |groups| ==> groups[i] != [] }

  ghost function Spans(groups: seq<seq<Chunk>>): seq<Chunk>
    requires NoneEmpty(groups)
  {
    if groups == [] then [] else [Span(groups[0])] + Spans(groups[1..])
  }

  function Joined(groups: seq<seq<Chunk>>): seq<Chunk> {
    if groups == [] then [] else groups[0] + Joined(groups[1..])
  }

  /** An in-order contiguous grouping whose groups sum to at most the limit or hold a single chunk. */
  ghost predicate Grouping(groups: seq<seq<Chunk>>, chunks: seq<Chunk>, limit: int) {
    && Joined(groups) == chunks
    && NoneEmpty(groups)
    && forall i :: 0 <= i < |groups| ==> |groups[i]| == 1 || Total(groups[i]) <= limit
  }

  lemma {:induction false} FitTotals(next: seq<Chunk>, held: int, limit: int)
    ensures Fit(next, held, limit) > 0 ==> held + Total(next[..Fit(next, held, limit)]) <= limit
  {
    var k := Fit(next, held, limit);
    if k > 0 {
      FitTotals(next[1..], held + Length(next[0]), limit);
      assert next[..k][1..] == next[1..][..k - 1];
    }
  }

  lemma FirstFits(chunks: seq<Chunk>, limit: int)
    requires chunks != []
    ensures First(chunks, limit) == 1 || Total(chunks[..First(chunks, limit)]) <= limit
  {
    var k := First(chunks, limit);
    FitTotals(chunks[1..], Length(chunks[0]), limit);
    assert chunks[..k][1..] == chunks[1..][..k - 1];
  }

  lemma {:induction false} GreedyIsGrouping(chunks: seq<Chunk>, limit: int)
    ensures Grouping(Greedy(chunks, limit), chunks, limit)
    decreases |chunks|
  {
    if chunks != [] {
      var k := First(chunks, limit);
      FirstFits(chunks, limit);
      GreedyIsGrouping(chunks[k..], limit);
      assert Greedy(chunks, limit)[1..] == Greedy(chunks[k..], limit);
      assert chunks == chunks[..k] + chunks[k..];
    }
  }

  // ---- no grouping is smaller -------------------------------------------------------------------

  ghost predicate AllProper(chunks: seq<Chunk>) { forall i :: 0 <= i < |chunks| ==> Proper(chunks[i]) }

  lemma {:induction false} TotalIsNatural(chunks: seq<Chunk>)
    requires AllProper(chunks)
    ensures Total(chunks) >= 0
  {
    if chunks != [] { TotalIsNatural(chunks[1..]); }
  }

  /** Whatever prefix fits, the greedy fit takes at least it. */
  lemma {:induction false} FitTakesAll(next: seq<Chunk>, held: int, limit: int, m: nat)
    requires AllProper(next) && m <= |next| && held + Total(next[..m]) <= limit
    ensures m <= Fit(next, held, limit)
  {
    if m > 0 {
      assert next[..m][1..] == next[1..][..m - 1];
      TotalIsNatural(next[1..][..m - 1]);
      FitTakesAll(next[1..], held + Length(next[0]), limit, m - 1);
    }
  }

  lemma FirstTakesAll(chunks: seq<Chunk>, limit: int, m: nat)
    requires AllProper(chunks) && 1 <= m <= |chunks| && (m == 1 || Total(chunks[..m]) <= limit)
    ensures m <= First(chunks, limit)
  {
    if m > 1 {
      assert chunks[..m][1..] == chunks[1..][..m - 1];
      FitTakesAll(chunks[1..], Length(chunks[0]), limit, m - 1);
    }
  }

  /** Dropping the first chunk, the first group still gets at least as far. */
  lemma FirstGetsAsFar(chunks: seq<Chunk>, limit: int)
    requires AllProper(chunks) && chunks != [] && First(chunks, limit) > 1
    ensures First(chunks, limit) - 1 <= First(chunks[1..], limit)
  {
    var k, rest := First(chunks, limit), chunks[1..];
    FirstFits(chunks, limit);
    assert chunks[..k][1..] == rest[..k - 1];
    assert Proper(chunks[0]);
    FirstTakesAll(rest, limit, k - 1);
  }

  /** One chunk fewer at the front never needs more groups. */
  lemma {:induction false} RestNeedsNoMore(chunks: seq<Chunk>, limit: int)
    requires AllProper(chunks) && chunks != []
    ensures |Greedy(chunks[1..], limit)| <= |Greedy(chunks, limit)|
    decreases |chunks|, 0
  {
    var k, rest := First(chunks, limit), chunks[1..];
    if k > 1 {
      FirstGetsAsFar(chunks, limit);
      var n := First(rest, limit) + 1 - k;
      TailNeedsNoMore(chunks[k..], limit, n);
      assert chunks[k..][n..] == rest[First(rest, limit)..];
    }
  }

  /** A shorter tail never needs more groups. */
  lemma {:induction false} TailNeedsNoMore(chunks: seq<Chunk>, limit: int, n: nat)
    requires AllProper(chunks) && n <= |chunks|
    ensures |Greedy(chunks[n..], limit)| <= |Greedy(chunks, limit)|
    decreases |chunks|, n + 1
  {
    if n == 0 {
      assert chunks[0..] == chunks;
    } else {
      RestNeedsNoMore(chunks, limit);
      TailNeedsNoMore(chunks[1..], limit, n - 1);
      assert chunks[1..][n - 1..] == chunks[n..];
    }
  }

  /** The greedy merge is optimal: no contiguous grouping under the same rule has fewer groups. */
  lemma {:induction false} GreedyIsFewest(groups: seq<seq<Chunk>>, chunks: seq<Chunk>, limit: int)
    requires AllProper(chunks) && Grouping(groups, chunks, limit)
    ensures |Greedy(chunks, limit)| <= |groups|
    decreases |groups|
  {
    if chunks != [] {
      var m, k := |groups[0]|, First(chunks, limit);
      assert chunks[..m] == groups[0] && chunks[m..] == Joined(groups[1..]);
      FirstTakesAll(chunks, limit, m);
      TailNeedsNoMore(chunks[m..], limit, k - m);
      assert chunks[m..][k - m..] == chunks[k..];
      GreedyIsFewest(groups[1..], chunks[m..], limit);
    }
  }

  ghost function Merged(chunks: seq<Chunk>, limit: int): seq<Chunk> {
    GreedyIsGrouping(chunks, limit);
    Spans(Greedy(chunks, limit))
  }

  lemma {:induction false} SpansCount(groups: seq<seq<Chunk>>)
    requires NoneEmpty(groups)
    ensures |Spans(groups)| == |groups|
    ensures forall i :: 0 <= i < |groups| ==> Spans(groups)[i] == Span(groups[i])
  {
    if groups != [] { SpansCount(groups[1..]); }
  }

  /** The group that starts at `from` has got to `i` and holds this much. */
  predicate InGroup(chunks: seq<Chunk>, limit: int, from: nat, i: nat, length: int) {
    from < i <= |chunks| && First(chunks[from..], limit) == i - from + Fit(chunks[i..], length, limit)
  }

  lemma GroupStarts(chunks: seq<Chunk>, limit: int, from: nat)
    requires from < |chunks|
    ensures InGroup(chunks, limit, from, from + 1, Length(chunks[from]))
  {
    assert chunks[from..][1..] == chunks[from + 1..];
  }

  lemma GroupGrows(chunks: seq<Chunk>, limit: int, from: nat, i: nat, length: int)
    requires InGroup(chunks, limit, from, i, length) && i < |chunks| && length + Length(chunks[i]) <= limit
    ensures InGroup(chunks, limit, from, i + 1, length + Length(chunks[i]))
  {
    assert chunks[i..][1..] == chunks[i + 1..];
  }

  lemma GroupIsFull(chunks: seq<Chunk>, limit: int, from: nat, i: nat, length: int)
    requires InGroup(chunks, limit, from, i, length) && (i == |chunks| || length + Length(chunks[i]) > limit)
    ensures First(chunks[from..], limit) == i - from
  {}

  lemma GroupEnds(chunks: seq<Chunk>, limit: int, from: nat, i: nat, length: int, merged: seq<Chunk>)
    requires InGroup(chunks, limit, from, i, length) && (i == |chunks| || length + Length(chunks[i]) > limit)
    requires Merged(chunks, limit) == merged + Merged(chunks[from..], limit)
    ensures Merged(chunks, limit) == merged + [Chunk(chunks[from].start, chunks[i - 1].end)] + Merged(chunks[i..], limit)
  {
    GroupIsFull(chunks, limit, from, i, length);
    OneMerged(chunks, from, i, limit);
  }

  /** The packing loop computes the spans of the greedy groups. */
  method MergeAdjacent(chunks: seq<Chunk>, limit: int) returns (merged: seq<Chunk>)
    requires chunks != []
    ensures merged == Merged(chunks, limit)
  {
    merged := [];
    var start, end, length := chunks[0].start, chunks[0].end, Length(chunks[0]);
    ghost var from := 0;
    var i := 1;
    assert chunks[0..] == chunks;
    GroupStarts(chunks, limit, 0);
    while i < |chunks|
      invariant InGroup(chunks, limit, from, i, length)
      invariant start == chunks[from].start && end == chunks[i - 1].end
      invariant Merged(chunks, limit) == merged + Merged(chunks[from..], limit)
    {
      if length + Length(chunks[i]) > limit {
        GroupEnds(chunks, limit, from, i, length, merged);
        GroupStarts(chunks, limit, i);
        merged := merged + [Chunk(start, end)];
        start, end, length, from := chunks[i].start, chunks[i].end, Length(chunks[i]), i;
      } else {
        GroupGrows(chunks, limit, from, i, length);
        end, length := chunks[i].end, length + Length(chunks[i]);
      }
      i := i + 1;
    }
    GroupEnds(chunks, limit, from, i, length, merged);
    merged := merged + [Chunk(start, end)];
  }

  /** The group from `from` ends at `i`. */
  lemma OneMerged(chunks: seq<Chunk>, from: nat, i: nat, limit: int)
    requires from < i <= |chunks| && First(chunks[from..], limit) == i - from
    ensures Merged(chunks[from..], limit) == [Chunk(chunks[from].start, chunks[i - 1].end)] + Merged(chunks[i..], limit)
  {}

  // ---- chunks laid out in order -----------------------------------------------------------------

  /** Ordered, disjoint, and between two offsets. */
  ghost predicate Laid(chunks: seq<Chunk>, lo: nat, hi: nat) {
    if chunks == [] then lo <= hi
    else lo <= chunks[0].start <= chunks[0].end <= hi && Laid(chunks[1..], chunks[0].end, hi)
  }

  /** Some chunk holds the whole range. */
  ghost predicate Holds(chunks: seq<Chunk>, c: Chunk) {
    exists i :: 0 <= i < |chunks| && chunks[i].start <= c.start && c.end <= chunks[i].end
  }

  lemma {:induction false} LaidConcat(a: seq<Chunk>, b: seq<Chunk>, lo: nat, mid: nat, hi: nat)
    requires Laid(a, lo, mid) && Laid(b, mid, hi)
    ensures Laid(a + b, lo, hi)
  {
    LaidFits(b, mid, hi);
    if a == [] {
      assert a + b == b;
      LaidWider(b, lo, mid, hi);
    } else {
      LaidConcat(a[1..], b, a[0].end, mid, hi);
      LaidFits(a[1..], a[0].end, mid);
      assert (a + b)[1..] == a[1..] + b;
    }
  }

  lemma LaidWider(chunks: seq<Chunk>, lo: nat, from: nat, hi: nat)
    requires Laid(chunks, from, hi) && lo <= from
    ensures Laid(chunks, lo, hi)
  {}

  lemma {:induction false} LaidFits(chunks: seq<Chunk>, lo: nat, hi: nat)
    requires Laid(chunks, lo, hi)
    ensures lo <= hi
  {}

  /** Cutting a layout after its first chunks. */
  lemma {:induction false} LaidCut(chunks: seq<Chunk>, lo: nat, hi: nat, k: nat)
    requires Laid(chunks, lo, hi) && 1 <= k <= |chunks|
    ensures chunks[0].start <= chunks[k - 1].end <= hi && Laid(chunks[k..], chunks[k - 1].end, hi)
    ensures forall i :: 0 <= i < k ==> chunks[0].start <= chunks[i].start && chunks[i].end <= chunks[k - 1].end
  {
    if k > 1 {
      var rest := chunks[1..];
      LaidCut(rest, chunks[0].end, hi, k - 1);
      assert rest[k - 1..] == chunks[k..];
      forall i | 0 <= i < k ensures chunks[0].start <= chunks[i].start && chunks[i].end <= chunks[k - 1].end {
        assert i > 0 ==> chunks[i] == rest[i - 1];
        assert rest[0].start <= rest[k - 2].end && rest[0].start <= rest[0].end;
      }
    }
  }

  lemma HoldsWithOneMore(merged: seq<Chunk>, c: Chunk)
    requires merged != [] && Holds(merged[1..], c)
    ensures Holds(merged, c)
  {
    var j :| 0 <= j < |merged[1..]| && merged[1..][j].start <= c.start && c.end <= merged[1..][j].end;
    assert merged[j + 1] == merged[1..][j];
  }

  lemma LaterHolds(chunks: seq<Chunk>, merged: seq<Chunk>, k: nat, i: nat)
    requires k <= i < |chunks| && merged != []
    requires forall j :: 0 <= j < |chunks[k..]| ==> Holds(merged[1..], chunks[k..][j])
    ensures Holds(merged, chunks[i])
  {
    assert chunks[i] == chunks[k..][i - k];
    HoldsWithOneMore(merged, chunks[i]);
  }

  /** Merging keeps the layout, and every chunk lies whole in a merged one. */
  lemma {:induction false} MergedIsLaid(chunks: seq<Chunk>, limit: int, lo: nat, hi: nat)
    requires Laid(chunks, lo, hi)
    ensures Laid(Merged(chunks, limit), lo, hi)
    ensures forall i :: 0 <= i < |chunks| ==> Holds(Merged(chunks, limit), chunks[i])
    decreases |chunks|
  {
    if chunks != [] {
      var k, merged := First(chunks, limit), Merged(chunks, limit);
      LaidCut(chunks, lo, hi, k);
      MergedIsLaid(chunks[k..], limit, chunks[k - 1].end, hi);
      assert chunks[0..] == chunks;
      OneMerged(chunks, 0, k, limit);
      assert merged[1..] == Merged(chunks[k..], limit);
      forall i | 0 <= i < |chunks| ensures Holds(merged, chunks[i]) {
        if i < k {
          assert merged[0].start <= chunks[i].start && chunks[i].end <= merged[0].end;
        } else {
          LaterHolds(chunks, merged, k, i);
        }
      }
    }
  }

  /** No offset lies in two chunks of a layout. */
  lemma {:induction false} LaidApart(chunks: seq<Chunk>, lo: nat, hi: nat, i: nat, j: nat)
    requires Laid(chunks, lo, hi) && i < j < |chunks|
    ensures chunks[i].end <= chunks[j].start
  {
    if i == 0 { LaidStarts(chunks[1..], chunks[0].end, hi, j - 1); } else { LaidApart(chunks[1..], chunks[0].end, hi, i - 1, j - 1); }
  }

  lemma {:induction false} LaidStarts(chunks: seq<Chunk>, lo: nat, hi: nat, j: nat)
    requires Laid(chunks, lo, hi) && j < |chunks|
    ensures lo <= chunks[j].start
  {
    if j > 0 { LaidStarts(chunks[1..], chunks[0].end, hi, j - 1); }
  }

  // ---- chunking by lines ---------------------------------------------------------------------------

  function Text(lines: seq<string>): string { if lines == [] then "" else lines[0] + Text(lines[1..]) }

  function LineChunks(lines: seq<string>, from: nat): seq<Chunk> {
    if lines == [] then [] else [Chunk(from, from + |lines[0]|)] + LineChunks(lines[1..], from + |lines[0]|)
  }

  /** Each chunk begins where the one before it ends. */
  ghost predicate Tiles(chunks: seq<Chunk>, lo: nat, hi: nat) {
    if chunks == [] then lo == hi
    else lo == chunks[0].start <= chunks[0].end <= hi && Tiles(chunks[1..], chunks[0].end, hi)
  }

  function Slices(text: string, chunks: seq<Chunk>): string
    requires forall i :: 0 <= i < |chunks| ==> chunks[i].start <= chunks[i].end <= |text|
  {
    if chunks == [] then "" else text[chunks[0].start..chunks[0].end] + Slices(text, chunks[1..])
  }

  lemma {:induction false} LinesTile(lines: seq<string>, from: nat)
    ensures Tiles(LineChunks(lines, from), from, from + |Text(lines)|)
    ensures |LineChunks(lines, from)| == |lines|
  {
    if lines != [] { LinesTile(lines[1..], from + |lines[0]|); }
  }

  lemma {:induction false} TilesCut(chunks: seq<Chunk>, lo: nat, hi: nat, k: nat)
    requires Tiles(chunks, lo, hi) && 1 <= k <= |chunks|
    ensures lo <= chunks[k - 1].end <= hi && Tiles(chunks[k..], chunks[k - 1].end, hi)
  {
    if k > 1 {
      TilesCut(chunks[1..], chunks[0].end, hi, k - 1);
      assert chunks[1..][k - 1..] == chunks[k..];
    }
  }

  lemma {:induction false} MergedTiles(chunks: seq<Chunk>, limit: int, lo: nat, hi: nat)
    requires Tiles(chunks, lo, hi)
    ensures Tiles(Merged(chunks, limit), lo, hi)
    decreases |chunks|
  {
    if chunks != [] {
      var k := First(chunks, limit);
      TilesCut(chunks, lo, hi, k);
      MergedTiles(chunks[k..], limit, chunks[k - 1].end, hi);
      assert chunks[0..] == chunks;
      OneMerged(chunks, 0, k, limit);
      assert Merged(chunks, limit)[1..] == Merged(chunks[k..], limit);
    }
  }

  lemma {:induction false} TilesGiveText(text: string, chunks: seq<Chunk>, lo: nat)
    requires Tiles(chunks, lo, |text|)
    ensures forall i :: 0 <= i < |chunks| ==> chunks[i].start <= chunks[i].end <= |text|
    ensures lo <= |text| && Slices(text, chunks) == text[lo..]
  {
    if chunks != [] {
      TilesGiveText(text, chunks[1..], chunks[0].end);
      assert text[lo..] == text[lo..chunks[0].end] + text[chunks[0].end..];
    }
  }

  predicate Blank(text: string, isSpace: char -> bool) { forall i :: 0 <= i < |text| ==> isSpace(text[i]) }

  method LineGroups(lines: seq<string>) returns (groups: seq<Chunk>)
    ensures groups == LineChunks(lines, 0)
  {
    groups := [];
    var index: nat, i := 0, 0;
    while i < |lines|
      invariant i <= |lines|
      invariant LineChunks(lines, 0) == groups + LineChunks(lines[i..], index)
    {
      assert lines[i..][1..] == lines[i + 1..];
      groups := groups + [Chunk(index, index + |lines[i]|)];
      index := index + |lines[i]|;
      i := i + 1;
    }
  }

  /** The chunks of a text's lines are the text again. */
  lemma LineChunksGiveText(text: string, lines: seq<string>, limit: int)
    requires Text(lines) == text
    ensures var chunks := Merged(LineChunks(lines, 0), limit);
            && (forall i :: 0 <= i < |chunks| ==> chunks[i].start <= chunks[i].end <= |text|)
            && Tiles(chunks, 0, |text|) && Slices(text, chunks) == text
  {
    LinesTile(lines, 0);
    MergedTiles(LineChunks(lines, 0), limit, 0, |text|);
    TilesGiveText(text, Merged(LineChunks(lines, 0), limit), 0);
  }

  /** Blank text has no chunks; any other text has the greedy groups of its lines, which come with their ends. */
  method ChunkLines(text: string, lines: seq<string>, limit: int, isSpace: char -> bool) returns (chunks: seq<Chunk>)
    requires Text(lines) == text
    ensures chunks == if Blank(text, isSpace) then [] else Merged(LineChunks(lines, 0), limit)
  {
    if Blank(text, isSpace) { return []; }
    var groups := LineGroups(lines);
    chunks := MergeAdjacent(groups, limit);
  }
}
