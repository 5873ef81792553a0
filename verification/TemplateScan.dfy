/** Offsets and statements of a template: what blanking keeps, which line an offset is on, where statements lie (hwk.py). */
module TemplateScan {

  // ---- statements --------------------------------------------------------------------------

  predicate Delimits(s: string, p: nat, first: char, second: char) { p + 1 < |s| && s[p] == first && s[p + 1] == second }

  predicate Opens(s: string, p: nat) { Delimits(s, p, '{', '%') }

  predicate Closes(s: string, p: nat) { Delimits(s, p, '%', '}') }

  /** The first delimiter at or after an offset, or the end of the text. */
  function NextDelimiter(s: string, i: nat): (p: nat)
    ensures i <= |s| ==> i <= p <= |s|
    ensures forall q :: i <= q < p ==> !Opens(s, q) && !Closes(s, q)
    ensures p < |s| ==> Opens(s, p) || Closes(s, p)
    decreases |s| - i
  {
    if i >= |s| then |s| else if Opens(s, i) || Closes(s, i) then i else NextDelimiter(s, i + 1)
  }

  datatype Region = Region(start: nat, end: nat)

  /** For every opening delimiter from an offset on, what follows it up to the next delimiter. */
  function Regions(s: string, i: nat): seq<Region>
    decreases |s| - i
  {
    if i >= |s| then []
    else if Opens(s, i) then [Region(i + 2, NextDelimiter(s, i + 2))] + Regions(s, i + 1)
    else Regions(s, i + 1)
  }

  lemma {:induction false} NothingOpens(s: string, i: nat, j: nat)
    requires i <= j <= |s| && forall p :: i <= p < j ==> !Opens(s, p)
    ensures Regions(s, i) == Regions(s, j)
    decreases j - i
  {
    if i < j { NothingOpens(s, i + 1, j); }
  }

  /** After a statement nothing opens before its region ends. */
  lemma AfterRegion(s: string, p: nat)
    requires Opens(s, p)
    ensures Regions(s, p) == [Region(p + 2, NextDelimiter(s, p + 2))] + Regions(s, NextDelimiter(s, p + 2))
  {
    NothingOpens(s, p + 1, NextDelimiter(s, p + 2));
  }

  /** In order, apart, and each after an opening delimiter of its own. */
  ghost predicate Apart(s: string, regions: seq<Region>, from: nat) {
    regions == [] ||
    (&& from + 2 <= regions[0].start <= regions[0].end <= |s|
     && Opens(s, regions[0].start - 2)
     && Apart(s, regions[1..], regions[0].end))
  }

  /** Statement regions are ordered and disjoint. */
  lemma {:induction false} RegionsAreApart(s: string, i: nat)
    ensures Apart(s, Regions(s, i), i)
    decreases |s| - i
  {
    if i < |s| {
      if Opens(s, i) {
        AfterRegion(s, i);
        assert Regions(s, i)[1..] == Regions(s, NextDelimiter(s, i + 2));
        RegionsAreApart(s, NextDelimiter(s, i + 2));
      } else {
        RegionsAreApart(s, i + 1);
        if Regions(s, i + 1) != [] { assert Regions(s, i) == Regions(s, i + 1); }
      }
    }
  }

  /** Every statement has its region, a region is some statement's, holds no delimiter, and ends at one or at the end. */
  lemma {:induction false} RegionsAreStatements(s: string, i: nat, r: Region)
    ensures r in Regions(s, i) <==>
            && i + 2 <= r.start && Opens(s, r.start - 2) && r.start <= r.end <= |s|
            && (forall q :: r.start <= q < r.end ==> !Opens(s, q) && !Closes(s, q))
            && (r.end < |s| ==> Opens(s, r.end) || Closes(s, r.end))
    decreases |s| - i
  {
    if i < |s| {
      RegionsAreStatements(s, i + 1, r);
      if Opens(s, i) && r.start == i + 2 && r.start <= r.end <= |s| {
        var p := NextDelimiter(s, i + 2);
        if p < r.end { assert Opens(s, p) || Closes(s, p); }
        if r.end < p { assert r.end < |s|; }
      }
    }
  }

  method Find(s: string, first: char, second: char, from: nat) returns (p: nat, found: bool)
    requires from <= |s|
    ensures from <= p <= |s| && (found <==> p < |s|)
    ensures forall q :: from <= q < p ==> !Delimits(s, q, first, second)
    ensures found ==> Delimits(s, p, first, second)
  {
    p := from;
    while p < |s|
      invariant from <= p <= |s| && forall q :: from <= q < p ==> !Delimits(s, q, first, second)
    {
      if p + 1 < |s| && s[p] == first && s[p + 1] == second { return p, true; }
      p := p + 1;
    }
    return p, false;
  }

  lemma NextDelimiterIs(s: string, i: nat, p: nat)
    requires i <= p <= |s| && (forall q :: i <= q < p ==> !Opens(s, q) && !Closes(s, q))
    requires p < |s| ==> Opens(s, p) || Closes(s, p)
    ensures NextDelimiter(s, i) == p
  {}

  /** Where the statement's region ends, and where the search goes on. */
  method EndOfStatement(s: string, interior: nat) returns (end: nat, next: nat)
    requires interior <= |s|
    ensures end == NextDelimiter(s, interior)
    ensures end <= next <= |s| && Regions(s, next) == Regions(s, end)
  {
    var close, closes := Find(s, '%', '}', interior);
    var following, follows := Find(s, '{', '%', interior);
    if !closes && !follows {
      end, next := |s|, |s|;
      NextDelimiterIs(s, interior, end);
    } else if !closes || (follows && following < close) {
      end, next := following, following;
      NextDelimiterIs(s, interior, end);
    } else {
      end, next := close, close + 2;
      NextDelimiterIs(s, interior, end);
      NothingOpens(s, end, next);
    }
  }

  method StatementRegions(s: string) returns (regions: seq<Region>)
    ensures regions == Regions(s, 0)
  {
    regions := [];
    var index := 0;
    while true
      invariant index <= |s| && regions + Regions(s, index) == Regions(s, 0)
      decreases |s| - index
    {
      var start, opens := Find(s, '{', '%', index);
      NothingOpens(s, index, start);
      if !opens { return; }
      var end, next := EndOfStatement(s, start + 2);
      AfterRegion(s, start);
      regions := regions + [Region(start + 2, end)];
      index := next;
    }
  }

  // ---- blanking ----------------------------------------------------------------------------------

  function BlankOf(c: char): char { if c == '\n' then c else ' ' }

  function Blank(text: string): (r: string)
    ensures |r| == |text| && forall i :: 0 <= i < |text| ==> r[i] == BlankOf(text[i])
  {
    seq(|text|, i requires 0 <= i < |text| => BlankOf(text[i]))
  }

  /** A slice whose end may lie before its start. */
  function Slice(s: string, from: nat, to: nat): string
    requires from <= |s| && to <= |s|
  {
    if from <= to then s[from..to] else ""
  }

  /** Replace what lies between two offsets with spaces; the head and the tail are cut at their own offsets. */
  function BlankBetween(s: string, from: nat, to: nat): string
    requires from <= |s| && to <= |s|
  {
    s[..from] + Blank(Slice(s, from, to)) + s[to..]
  }

  /** Nothing but spaces put in, and every line break where it was; what follows the old end holds no line break. */
  ghost predicate KeepsLines(s: string, t: string) {
    && |s| <= |t|
    && (forall i :: 0 <= i < |s| ==> t[i] == s[i] || t[i] == BlankOf(s[i]))
    && (forall i :: |s| <= i < |t| ==> t[i] != '\n')
  }

  /** Opening minus closing braces between two offsets. */
  function Depth(s: string, head: nat, j: nat): int
    requires head <= j <= |s|
    decreases j - head
  {
    if j == head then 0
    else Depth(s, head, j - 1) + if s[j - 1] == '{' then 1 else if s[j - 1] == '}' then -1 else 0
  }

  /** The brace that closes the one at the head, or the last character when none does. */
  method BodyEnd(s: string, head: nat) returns (end: nat)
    requires head < |s| && s[head] == '{'
    ensures head <= end < |s| && (end == head ==> head == |s| - 1)
    ensures forall j :: head < j <= end ==> Depth(s, head, j) > 0
    ensures (Depth(s, head, end + 1) == 0 && s[end] == '}') || (end == |s| - 1 && Depth(s, head, |s|) > 0)
  {
    var depth: int, i := 0, head;
    while i < |s|
      invariant head <= i <= |s| && depth == Depth(s, head, i)
      invariant forall j :: head < j <= i ==> Depth(s, head, j) > 0
    {
      if s[i] == '{' {
        depth := depth + 1;
      } else if s[i] == '}' {
        depth := depth - 1;
        if depth == 0 { return i; }
      }
      i := i + 1;
    }
    return |s| - 1;
  }

  /** The body after a head is blank up to a brace or the last character. */
  ghost predicate BodyIsBlank(t: string, head: nat) {
    exists e :: BlankUpTo(t, head, e)
  }

  ghost predicate BlankUpTo(t: string, head: nat, e: nat) {
    && head < e <= |t| && (forall j :: head < j < e ==> t[j] == ' ' || t[j] == '\n')
    && (e < |t| - 1 ==> t[e] == '}')
  }

  ghost predicate Heads(source: string, heads: seq<nat>) {
    && (forall k :: 0 <= k < |heads| ==> heads[k] < |source| && source[heads[k]] == '{')
    && (forall k, l :: 0 <= k < l < |heads| ==> heads[k] < heads[l])
  }

  /** Whether the last brace opens a body that could only lie behind the end of the text. */
  predicate EndsOpen(source: string, heads: seq<nat>) { heads != [] && heads[|heads| - 1] == |source| - 1 }

  /** The bodies from the i-th on are blanked. */
  ghost predicate BlankedFrom(source: string, heads: seq<nat>, t: string, i: nat)
    requires Heads(source, heads) && i <= |heads|
  {
    && KeepsLines(source, t) && (i == |heads| ==> t == source)
    && |t| == |source| + (if i < |heads| && EndsOpen(source, heads) then 1 else 0)
    && (forall k :: i <= k < |heads| ==> t[heads[k]] == ' ' || BodyIsBlank(t, heads[k]))
  }

  // ---- which characters are blanked -----------------------------------------------------------------

  /** Where a body ends, from an offset on: at the brace that balances the head, or the last character. */
  function EndFrom(s: string, head: nat, j: nat): (e: nat)
    requires head <= j < |s| && s[head] == '{'
    requires forall k :: head < k <= j ==> Depth(s, head, k) > 0
    ensures BodyEnds(s, head, e)
    decreases |s| - j
  {
    if j == |s| - 1 || Depth(s, head, j + 1) == 0 then j else EndFrom(s, head, j + 1)
  }

  function StyleEnd(s: string, head: nat): nat
    requires head < |s| && s[head] == '{'
  {
    EndFrom(s, head, head)
  }

  /** The depth first comes back to nothing just after `e`, or `e` is the last character. */
  ghost predicate BodyEnds(s: string, head: nat, e: nat) {
    && head <= e < |s| && (forall j :: head < j <= e ==> Depth(s, head, j) > 0)
    && (Depth(s, head, e + 1) == 0 || e == |s| - 1)
  }

  lemma BodyEndsOnce(s: string, head: nat, e: nat)
    requires head < |s| && s[head] == '{' && BodyEnds(s, head, e)
    ensures e == StyleEnd(s, head)
  {
    var f := StyleEnd(s, head);
    assert BodyEnds(s, head, f);
  }

  lemma {:induction false} DepthAdds(s: string, head: nat, m: nat, j: nat)
    requires head <= m <= j <= |s|
    ensures Depth(s, head, j) == Depth(s, head, m) + Depth(s, m, j)
    decreases j - m
  {
    if j > m { DepthAdds(s, head, m, j - 1); }
  }

  lemma {:induction false} DepthSame(s: string, t: string, from: nat, j: nat)
    requires from <= j <= |s| == |t| && forall k :: from <= k < j ==> s[k] == t[k]
    ensures Depth(s, from, j) == Depth(t, from, j)
    decreases j - from
  {
    if j > from { DepthSame(s, t, from, j - 1); }
  }

  lemma {:induction false} DepthBlank(t: string, from: nat, j: nat)
    requires from <= j <= |t| && forall k :: from <= k < j ==> t[k] != '{' && t[k] != '}'
    ensures Depth(t, from, j) == 0
    decreases j - from
  {
    if j > from { DepthBlank(t, from, j - 1); }
  }

  /** Blanking one body leaves every depth seen from an earlier head as it was, but inside that body, where both are above
      the depth before it. */
  lemma DepthsAfter(s: string, head: nat, e: nat, t: string, from: nat, j: nat)
    requires from < head < e < |s| && s[head] == '{' && e == StyleEnd(s, head) && BodyBlanked(s, head, e, t) && from <= j <= |s|
    ensures j <= head || (j > e && Depth(s, head, e + 1) == 0) ==> Depth(t, from, j) == Depth(s, from, j)
    ensures head < j <= e ==> Depth(t, from, j) == Depth(s, from, head) + 1 && Depth(s, from, j) > Depth(s, from, head)
    ensures j > e && Depth(s, head, e + 1) != 0 ==>
              Depth(t, from, j) >= Depth(s, from, head) && Depth(s, from, j) > Depth(s, from, head)
  {
    if j <= head {
      DepthSame(s, t, from, j);
    } else {
      DepthSame(s, t, from, head);
      DepthAdds(s, from, head, j);
      DepthAdds(t, from, head, j);
      DepthAdds(t, head, head + 1, if j <= e then j else e);
      DepthBlank(t, head + 1, if j <= e then j else e);
      assert BodyEnds(s, head, e) && Depth(t, head, head + 1) == 1;
      if j > e {
        DepthAdds(s, head, e + 1, j);
        DepthAdds(t, head, e + 1, j);
        DepthSame(s, t, e + 1, j);
        LastOfBody(s, head, e);
      }
    }
  }

  lemma LastOfBody(s: string, head: nat, e: nat)
    requires head < e < |s| && s[head] == '{' && BodyEnds(s, head, e)
    ensures Depth(s, head, e + 1) == 0 ==> s[e] == '}'
    ensures Depth(s, head, e + 1) >= 0
  {
    assert Depth(s, head, e) > 0;
  }

  /** Blanking a body moves no end of an earlier one. */
  lemma EarlierEndStays(s: string, head: nat, e: nat, t: string, from: nat)
    requires from < head < e < |s| && s[head] == '{' && s[from] == '{' && e == StyleEnd(s, head) && BodyBlanked(s, head, e, t)
    ensures t[from] == '{' && StyleEnd(t, from) == StyleEnd(s, from)
  {
    var end := StyleEnd(s, from);
    assert BodyEnds(s, from, end) && BodyEnds(s, head, e);
    forall j | from < j <= end ensures Depth(t, from, j) > 0 {
      DepthsAfter(s, head, e, t, from, j);
      if j > head { assert Depth(s, from, head) > 0; }
    }
    if end < |s| - 1 {
      DepthsAfter(s, head, e, t, from, end + 1);
      if end >= head { assert Depth(s, from, head) > 0; }
    }
    BodyEndsOnce(t, from, end);
  }

  /** The character lies in a body that opens at the i-th head or later. */
  predicate InBody(source: string, heads: seq<nat>, i: nat, j: nat)
    requires Heads(source, heads)
  {
    exists k :: i <= k < |heads| && heads[k] < j < StyleEnd(source, heads[k])
  }

  /** Everything in those bodies blanked, and nothing else. */
  function BodiesBlank(source: string, heads: seq<nat>, i: nat): string
    requires Heads(source, heads)
  {
    seq(|source|, j requires 0 <= j < |source| => if InBody(source, heads, i, j) then BlankOf(source[j]) else source[j])
  }

  /** A text as it stands before the i-th head: the bodies from there on are blank, and the earlier ones end where they did. */
  ghost predicate Worked(source: string, heads: seq<nat>, i: nat, t: string) {
    && Heads(source, heads) && i <= |heads| && t == BodiesBlank(source, heads, i)
    && (forall k :: 0 <= k < i ==> t[heads[k]] == '{' && StyleEnd(t, heads[k]) == StyleEnd(source, heads[k]))
  }

  lemma WorkStarts(source: string, heads: seq<nat>)
    requires Heads(source, heads)
    ensures Worked(source, heads, |heads|, source)
  {}

  lemma WorkGoesOn(source: string, heads: seq<nat>, i: nat, s: string, t: string)
    requires Worked(source, heads, i + 1, s) && i < |heads| && heads[i] < |source| - 1
    requires BodyBlanked(s, heads[i], StyleEnd(s, heads[i]), t)
    ensures Worked(source, heads, i, t)
  {
    var head, e := heads[i], StyleEnd(s, heads[i]);
    assert BodyEnds(s, head, e) && Depth(s, head, head + 1) == 1;
    assert head < e;
    forall j | 0 <= j < |source| ensures t[j] == BodiesBlank(source, heads, i)[j] { OneMoreBlank(source, heads, i, j); }
    forall k | 0 <= k < i ensures t[heads[k]] == '{' && StyleEnd(t, heads[k]) == StyleEnd(source, heads[k]) {
      EarlierEndStays(s, head, e, t, heads[k]);
    }
  }

  lemma OneMoreBlank(source: string, heads: seq<nat>, i: nat, j: nat)
    requires Heads(source, heads) && i < |heads| && j < |source|
    ensures BodiesBlank(source, heads, i)[j] ==
            if heads[i] < j < StyleEnd(source, heads[i]) then BlankOf(BodiesBlank(source, heads, i + 1)[j])
            else BodiesBlank(source, heads, i + 1)[j]
  {}

  /** The text and the heads the work is about: a brace that ends the text is doubled first, and then opens nothing. */
  function Doubled(source: string, heads: seq<nat>): (string, seq<nat>) {
    if EndsOpen(source, heads) then (source + "{", heads[..|heads| - 1]) else (source, heads)
  }

  /** `heads` are the offsets of the opening braces, worked off from the last. Exactly what lies inside their bodies is
      blanked, from each brace to the one that balances it or to the last character. Offsets and line breaks stay, and the
      length too, except exactly when the last brace ends the text: it is then doubled. */
  method BlankStyles(source: string, heads: seq<nat>) returns (result: string)
    requires Heads(source, heads)
    ensures KeepsLines(source, result)
    ensures |result| == |source| <==> !EndsOpen(source, heads)
    ensures forall k :: 0 <= k < |heads| ==> result[heads[k]] == ' ' || BodyIsBlank(result, heads[k])
    ensures var (text, bodies) := Doubled(source, heads); Heads(text, bodies) && result == BodiesBlank(text, bodies, 0)
  {
    result := source;
    Unworked(source, heads);
    var i := |heads|;
    while i > 0
      invariant 0 <= i <= |heads| && WorkedFrom(source, heads, i, result)
    {
      i := i - 1;
      if result[heads[i]] == '{' {
        var end := BodyEnd(result, heads[i]);
        OneBodyBlanked(result, heads[i], end);
        OneBodyWorked(source, heads, i, end, result, BlankBetween(result, heads[i] + 1, end));
        result := BlankBetween(result, heads[i] + 1, end);
      }
    }
  }

  /** What the loop keeps. */
  ghost predicate WorkedFrom(source: string, heads: seq<nat>, i: nat, t: string)
    requires Heads(source, heads) && i <= |heads|
  {
    var (text, bodies) := Doubled(source, heads);
    && BlankedFrom(source, heads, t, i) && Heads(text, bodies)
    && (if i > |bodies| then t == source else Worked(text, bodies, i, t))
    && (forall k :: 0 <= k < i ==> t[heads[k]] == '{')
  }

  lemma DoubledHeads(source: string, heads: seq<nat>)
    requires Heads(source, heads)
    ensures var (text, bodies) := Doubled(source, heads);
            && Heads(text, bodies) && |bodies| <= |heads| && (forall k :: 0 <= k < |bodies| ==> bodies[k] == heads[k] < |text| - 1)
            && (|bodies| == |heads| <==> !EndsOpen(source, heads)) && (|bodies| < |heads| ==> |bodies| == |heads| - 1)
  {}

  lemma Unworked(source: string, heads: seq<nat>)
    requires Heads(source, heads)
    ensures WorkedFrom(source, heads, |heads|, source)
  {
    DoubledHeads(source, heads);
    WorkStarts(Doubled(source, heads).0, Doubled(source, heads).1);
  }

  lemma OneBodyWorked(source: string, heads: seq<nat>, i: nat, end: nat, s: string, t: string)
    requires Heads(source, heads) && i < |heads| && WorkedFrom(source, heads, i + 1, s)
    requires BodyEnds(s, heads[i], end) && BodyBlanked(s, heads[i], end, t) && (end == heads[i] ==> heads[i] == |s| - 1)
    requires end < |s| - 1 ==> s[end] == '}'
    ensures WorkedFrom(source, heads, i, t)
  {
    var (text, bodies) := Doubled(source, heads);
    DoubledHeads(source, heads);
    OneMoreBody(source, heads, s, i, end, t);
    if i < |bodies| {
      BodyEndsOnce(s, heads[i], end);
      WorkGoesOn(text, bodies, i, s, t);
    } else {
      assert t == text;
      WorkStarts(text, bodies);
    }
  }

  /** A text after one body is blanked; a body that would lie behind the end only doubles its brace. */
  ghost predicate BodyBlanked(s: string, head: nat, end: nat, t: string) {
    && head <= end < |s| && |t| == |s| + (if head < end then 0 else 1)
    && (forall j :: 0 <= j < |s| ==> t[j] == if head < j < end then BlankOf(s[j]) else s[j])
    && (head == end ==> t[|s|] == s[head])
  }

  lemma OneBodyBlanked(s: string, head: nat, end: nat)
    requires head <= end < |s| && (head == end ==> head == |s| - 1)
    ensures BodyBlanked(s, head, end, BlankBetween(s, head + 1, end))
  {
    var t := BlankBetween(s, head + 1, end);
    if head < end {
      var body := Blank(s[head + 1..end]);
      assert |body| == end - head - 1 && t == s[..head + 1] + body + s[end..];
      forall j | 0 <= j < |s| ensures t[j] == if head < j < end then BlankOf(s[j]) else s[j] {
        if head < j < end { assert t[j] == body[j - head - 1]; }
      }
    } else {
      assert Blank("") == "" && t == s + [s[head]];
    }
  }

  lemma OneMoreBody(source: string, heads: seq<nat>, s: string, i: nat, end: nat, t: string)
    requires Heads(source, heads) && i < |heads| && BlankedFrom(source, heads, s, i + 1) && s[heads[i]] == '{'
    requires BodyBlanked(s, heads[i], end, t)
    requires (end == heads[i] ==> heads[i] == |s| - 1) && (end < |s| - 1 ==> s[end] == '}')
    ensures BlankedFrom(source, heads, t, i)
  {
    BlankedKeepsLines(source, s, heads[i], end, t);
    BlankedIsBlank(s, heads[i], end, t);
    if i == |heads| - 1 {
      assert end == heads[i] <==> EndsOpen(source, heads);
    } else {
      assert heads[i] < heads[i + 1] && end > heads[i];
      forall k | i < k < |heads| ensures t[heads[k]] == ' ' || BodyIsBlank(t, heads[k]) {
        assert source[heads[k]] == '{' && (s[heads[k]] == ' ' || BodyIsBlank(s, heads[k]));
        LaterBodyStays(s, heads[i], end, t, heads[k]);
      }
    }
  }

  lemma BlankedKeepsLines(source: string, s: string, head: nat, end: nat, t: string)
    requires KeepsLines(source, s) && BodyBlanked(s, head, end, t) && s[head] == '{'
    ensures KeepsLines(source, t)
  {}

  lemma BlankedIsBlank(s: string, head: nat, end: nat, t: string)
    requires BodyBlanked(s, head, end, t) && (end == head ==> head == |s| - 1) && (end < |s| - 1 ==> s[end] == '}')
    ensures BodyIsBlank(t, head)
  {
    assert BlankUpTo(t, head, if head < end then end else head + 1);
  }

  /** A body already blanked stays so, or lies inside the one blanked now. */
  lemma LaterBodyStays(s: string, head: nat, end: nat, t: string, later: nat)
    requires BodyBlanked(s, head, end, t) && head < end && head < later < |s| && s[later] != '\n'
    requires s[later] == ' ' || BodyIsBlank(s, later)
    ensures t[later] == ' ' || BodyIsBlank(t, later)
  {
    if end <= later && s[later] != ' ' {
      var e :| BlankUpTo(s, later, e);
      assert BlankUpTo(t, later, e);
    }
  }

  /** Replace the comments with spaces; the spans are the comments' own. */
  method BlankComments(source: string, spans: seq<Region>) returns (result: string)
    requires forall k :: 0 <= k < |spans| ==> spans[k].start <= spans[k].end <= |source|
    ensures KeepsLines(source, result) && |result| == |source|
    ensures result == CommentsBlank(source, spans)
  {
    result := source;
    var i := 0;
    while i < |spans|
      invariant i <= |spans| && |result| == |source|
      invariant forall j :: 0 <= j < |source| ==> result[j] == if InSpan(spans, i, j) then BlankOf(source[j]) else source[j]
    {
      SpanBlanked(result, spans[i].start, spans[i].end);
      forall j | 0 <= j < |source| ensures InSpan(spans, i + 1, j) <==> InSpan(spans, i, j) || spans[i].start <= j < spans[i].end {}
      result := BlankBetween(result, spans[i].start, spans[i].end);
      i := i + 1;
    }
  }

  /** Everything in the spans blanked, and nothing else. */
  function CommentsBlank(source: string, spans: seq<Region>): string {
    seq(|source|, j requires 0 <= j < |source| => if InSpan(spans, |spans|, j) then BlankOf(source[j]) else source[j])
  }

  /** The character lies in one of the first spans. */
  predicate InSpan(spans: seq<Region>, n: nat, j: nat)
    requires n <= |spans|
  {
    exists k :: 0 <= k < n && spans[k].start <= j < spans[k].end
  }

  lemma SpanBlanked(s: string, from: nat, to: nat)
    requires from <= to <= |s|
    ensures var t := BlankBetween(s, from, to);
            |t| == |s| && forall j :: 0 <= j < |s| ==> t[j] == if from <= j < to then BlankOf(s[j]) else s[j]
  {
    var body := Blank(s[from..to]);
    assert BlankBetween(s, from, to) == s[..from] + body + s[to..];
  }

  // ---- lines -----------------------------------------------------------------------------------------

  /** Line breaks before an offset. */
  function Breaks(s: string, offset: nat): nat {
    if offset == 0 then 0 else Breaks(s, offset - 1) + if offset - 1 < |s| && s[offset - 1] == '\n' then 1 else 0
  }

  /** How many entries of a sorted list an offset has reached: its insertion point, right of equal ones. */
  function Reached(starts: seq<nat>, offset: nat): nat
    decreases |starts|
  {
    if starts == [] then 0
    else Reached(starts[..|starts| - 1], offset) + if starts[|starts| - 1] <= offset then 1 else 0
  }

  /** The offsets lines start at, of the text up to a length. */
  function LineStartsTo(s: string, n: nat): seq<nat>
    requires n <= |s|
  {
    if n == 0 then [0] else LineStartsTo(s, n - 1) + if s[n - 1] == '\n' then [n] else []
  }

  method LineStarts(s: string) returns (offsets: seq<nat>)
    ensures offsets == LineStartsTo(s, |s|)
  {
    offsets := [0];
    var index := 0;
    while index < |s|
      invariant index <= |s| && offsets == LineStartsTo(s, index)
    {
      if s[index] == '\n' { offsets := offsets + [index + 1]; }
      index := index + 1;
    }
  }

  lemma {:induction false} ReachedStarts(s: string, n: nat, offset: nat)
    requires n <= |s|
    ensures Reached(LineStartsTo(s, n), offset) == 1 + Breaks(s, if n <= offset then n else offset)
    decreases n
  {
    if n == 0 {
      assert [0][..0] == [];
    } else {
      ReachedStarts(s, n - 1, offset);
      if s[n - 1] == '\n' {
        var starts := LineStartsTo(s, n);
        assert starts[..|starts| - 1] == LineStartsTo(s, n - 1) && starts[|starts| - 1] == n;
      } else {
        assert LineStartsTo(s, n) == LineStartsTo(s, n - 1);
      }
    }
  }

  lemma {:induction false} SameBreaks(s: string, t: string, offset: nat)
    requires KeepsLines(s, t)
    ensures Breaks(s, offset) == Breaks(t, offset)
    decreases offset
  {
    if offset > 0 { SameBreaks(s, t, offset - 1); }
  }

  lemma {:induction false} NoBreaksBehind(s: string, offset: nat)
    requires |s| <= offset
    ensures Breaks(s, offset) == Breaks(s, |s|)
    decreases offset
  {
    if |s| < offset { NoBreaksBehind(s, offset - 1); }
  }

  /** The line looked up in the blanked text is one plus the line breaks before that offset in the original. */
  lemma LineOfIsOriginal(source: string, blanked: string, offset: nat)
    requires KeepsLines(source, blanked)
    ensures Reached(LineStartsTo(blanked, |blanked|), offset) == 1 + Breaks(source, offset)
  {
    ReachedStarts(blanked, |blanked|, offset);
    SameBreaks(source, blanked, offset);
    if |blanked| <= offset { NoBreaksBehind(blanked, offset); }
  }

  /** What the scanner reads, and the line of an offset in it; `styles` finds the style heads of a text. */
  method PrepareScan(source: string, comments: seq<Region>, styles: string -> seq<nat>, offset: nat)
    returns (text: string, line: nat)
    requires forall k :: 0 <= k < |comments| ==> comments[k].start <= comments[k].end <= |source|
    requires forall t :: Heads(t, styles(t))
    ensures KeepsLines(source, text) && line == 1 + Breaks(source, offset)
    ensures var uncommented := CommentsBlank(source, comments);
            var (doubled, bodies) := Doubled(uncommented, styles(uncommented));
            Heads(doubled, bodies) && text == BodiesBlank(doubled, bodies, 0)
  {
    var uncommented := BlankComments(source, comments);
    text := BlankStyles(uncommented, styles(uncommented));
    var starts := LineStarts(text);
    line := Reached(starts, offset);
    LineOfIsOriginal(source, text, offset);
  }
}
