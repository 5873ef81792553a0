/** The bounded Levenshtein distance of the structural check (dedup/structure.py). */
module EditDistance {

  /** A control-flow keyword. */
  datatype Token = Token(keyword: string)

  function Min(x: int, y: int): int { if x <= y then x else y }

  function Cost(same: bool): nat { if same then 0 else 1 }

  /** The cells of a row up to column n: each from its left neighbour and the two above it. */
  ghost function Cells(above: seq<nat>, x: Token, right: seq<Token>, n: nat): (row: seq<nat>)
    requires n <= |right| && |above| == |right| + 1
    ensures |row| == n + 1
  {
    if n == 0 then [above[0] + 1]
    else
      var row := Cells(above, x, right, n - 1);
      row + [Min(Min(above[n] + 1, row[n - 1] + 1), above[n - 1] + Cost(x == right[n - 1]))]
  }

  /** The distances of the left prefix of length i to every prefix of the right side. */
  ghost function Row(left: seq<Token>, right: seq<Token>, i: nat): (row: seq<nat>)
    requires i <= |left|
    ensures |row| == |right| + 1
  {
    if i == 0 then seq(|right| + 1, j => j) else Cells(Row(left, right, i - 1), left[i - 1], right, |right|)
  }

  /** The edit distance of the prefixes of length i and j. */
  ghost function Table(left: seq<Token>, right: seq<Token>, i: nat, j: nat): nat
    requires i <= |left| && j <= |right|
  {
    Row(left, right, i)[j]
  }

  lemma {:induction false} CellsArePrefix(above: seq<nat>, x: Token, right: seq<Token>, n: nat, m: nat)
    requires n <= m <= |right| && |above| == |right| + 1
    ensures Cells(above, x, right, m)[..n + 1] == Cells(above, x, right, n)
    decreases m
  {
    if n < m {
      CellsArePrefix(above, x, right, n, m - 1);
      assert Cells(above, x, right, m)[..n + 1] == Cells(above, x, right, m - 1)[..n + 1];
    }
  }

  /** One cell of the table from its three neighbours. */
  lemma Cell(left: seq<Token>, right: seq<Token>, i: nat, j: nat)
    requires 1 <= i <= |left| && 1 <= j <= |right|
    ensures Table(left, right, i, j) ==
            Min(Min(Table(left, right, i - 1, j) + 1, Table(left, right, i, j - 1) + 1),
                Table(left, right, i - 1, j - 1) + Cost(left[i - 1] == right[j - 1]))
  {
    var above := Row(left, right, i - 1);
    CellsArePrefix(above, left[i - 1], right, j, |right|);
    CellsArePrefix(above, left[i - 1], right, j - 1, |right|);
    assert Row(left, right, i)[j] == Cells(above, left[i - 1], right, j)[j];
    assert Row(left, right, i)[j - 1] == Cells(above, left[i - 1], right, j - 1)[j - 1];
  }

  lemma {:induction false} Edge(left: seq<Token>, right: seq<Token>, i: nat)
    requires i <= |left|
    ensures Table(left, right, i, 0) == i
  {
    if i > 0 {
      Edge(left, right, i - 1);
      CellsArePrefix(Row(left, right, i - 1), left[i - 1], right, 0, |right|);
      assert Row(left, right, i)[0] == Cells(Row(left, right, i - 1), left[i - 1], right, 0)[0];
    }
  }

  ghost function Distance(left: seq<Token>, right: seq<Token>): nat {
    Table(left, right, |left|, |right|)
  }

  // ---- what the distance means: the fewest single-token edits ----------

  /** One token inserted, deleted or replaced somewhere. */
  ghost predicate OneEdit(before: seq<Token>, after: seq<Token>) {
    exists head, cut, put, tail :: EditAt(before, after, head, cut, put, tail)
  }

  ghost predicate EditAt(
      before: seq<Token>, after: seq<Token>, head: seq<Token>, cut: seq<Token>, put: seq<Token>, tail: seq<Token>)
  {
    before == head + cut + tail && after == head + put + tail && |cut| <= 1 && |put| <= 1
  }

  /** A chain of single edits from its first sequence to its last. */
  ghost predicate EditChain(chain: seq<seq<Token>>, from: seq<Token>, to: seq<Token>) {
    && chain != [] && chain[0] == from && chain[|chain| - 1] == to
    && forall i :: 0 <= i < |chain| - 1 ==> OneEdit(chain[i], chain[i + 1])
  }

  /** The table reads only the two prefixes. */
  lemma {:induction false} TableReadsPrefixes(
      left: seq<Token>, right: seq<Token>, left': seq<Token>, right': seq<Token>, i: nat, j: nat)
    requires i <= |left| && i <= |left'| && j <= |right| && j <= |right'|
    requires forall k :: 0 <= k < i ==> left[k] == left'[k]
    requires forall k :: 0 <= k < j ==> right[k] == right'[k]
    ensures Table(left, right, i, j) == Table(left', right', i, j)
    decreases i + j
  {
    Edge(left, right, i);
    Edge(left', right', i);
    if i > 0 && j > 0 {
      Cell(left, right, i, j);
      Cell(left', right', i, j);
      TableReadsPrefixes(left, right, left', right', i - 1, j);
      TableReadsPrefixes(left, right, left', right', i, j - 1);
      TableReadsPrefixes(left, right, left', right', i - 1, j - 1);
    }
  }

  /** Neighbouring cells of a row differ by at most one. */
  lemma {:induction false} CellsDifferByOne(left: seq<Token>, right: seq<Token>, i: nat, j: nat)
    requires i <= |left| && j < |right|
    ensures Table(left, right, i, j + 1) <= Table(left, right, i, j) + 1
    ensures Table(left, right, i, j) <= Table(left, right, i, j + 1) + 1
    decreases i, j
  {
    if i > 0 {
      Cell(left, right, i, j + 1);
      CellsDifferByOne(left, right, i - 1, j);
      if j > 0 {
        Cell(left, right, i, j);
        CellsDifferByOne(left, right, i - 1, j - 1);
      } else {
        Edge(left, right, i);
        Edge(left, right, i - 1);
      }
    }
  }

  /** A single edit of the right side moves the distance by at most one, whatever follows the edit. */
  lemma {:induction false} DistanceOfEdit(
      left: seq<Token>, before: seq<Token>, after: seq<Token>, i: nat, h: nat, c: nat, p: nat, t: nat)
    requires i <= |left| && c <= 1 && p <= 1 && h + c + t <= |before| && h + p + t <= |after|
    requires forall k :: 0 <= k < h ==> before[k] == after[k]
    requires forall k :: h + c <= k < h + c + t ==> before[k] == after[k + p - c]
    ensures Table(left, after, i, h + p + t) <= Table(left, before, i, h + c + t) + 1
    decreases i + t
  {
    if t == 0 {
      DistanceOfLastEdit(left, before, after, i, h, c, p);
    } else if i > 0 {
      DistanceOfEdit(left, before, after, i, h, c, p, t - 1);
      DistanceOfEdit(left, before, after, i - 1, h, c, p, t);
      DistanceOfEdit(left, before, after, i - 1, h, c, p, t - 1);
      Cell(left, before, i, h + c + t);
      Cell(left, after, i, h + p + t);
    }
  }

  lemma DistanceOfLastEdit(left: seq<Token>, before: seq<Token>, after: seq<Token>, i: nat, h: nat, c: nat, p: nat)
    requires i <= |left| && c <= 1 && p <= 1 && h + c <= |before| && h + p <= |after|
    requires forall k :: 0 <= k < h ==> before[k] == after[k]
    ensures Table(left, after, i, h + p) <= Table(left, before, i, h + c) + 1
  {
    TableReadsPrefixes(left, before, left, after, i, h);
    if p == 1 && c == 1 {
      DistanceOfReplacement(left, before, after, i, h);
    } else if p == 1 {
      CellsDifferByOne(left, after, i, h);
    } else if c == 1 {
      CellsDifferByOne(left, before, i, h);
    }
  }

  lemma {:induction false} DistanceOfReplacement(
      left: seq<Token>, before: seq<Token>, after: seq<Token>, i: nat, h: nat)
    requires i <= |left| && h < |before| && h < |after|
    requires forall k :: 0 <= k < h ==> before[k] == after[k]
    ensures Table(left, after, i, h + 1) <= Table(left, before, i, h + 1) + 1
    decreases i
  {
    TableReadsPrefixes(left, before, left, after, i, h);
    if i > 0 {
      TableReadsPrefixes(left, before, left, after, i - 1, h);
      Cell(left, before, i, h + 1);
      Cell(left, after, i, h + 1);
      DistanceOfReplacement(left, before, after, i - 1, h);
    }
  }

  lemma {:induction false} DistanceOfSelf(s: seq<Token>, i: nat)
    requires i <= |s|
    ensures Table(s, s, i, i) == 0
  {
    if i > 0 { Cell(s, s, i, i); DistanceOfSelf(s, i - 1); }
  }

  /** No chain of single edits is shorter than the distance. */
  lemma {:induction false} DistanceIsLeast(left: seq<Token>, right: seq<Token>, chain: seq<seq<Token>>)
    requires EditChain(chain, left, right)
    ensures Distance(left, right) <= |chain| - 1
    decreases |chain|
  {
    if |chain| == 1 {
      DistanceOfSelf(left, |left|);
    } else {
      var shorter := chain[..|chain| - 1];
      var before := shorter[|shorter| - 1];
      assert OneEdit(chain[|chain| - 2], chain[|chain| - 1]);
      DistanceIsLeast(left, before, shorter);
      DistanceOfOneEdit(left, before, right);
    }
  }

  /** The same head, then at most one token on each side, then the same tail, by lengths. */
  ghost predicate Aligned(before: seq<Token>, after: seq<Token>, h: nat, c: nat, p: nat, t: nat) {
    && c <= 1 && p <= 1 && |before| == h + c + t && |after| == h + p + t
    && (forall k :: 0 <= k < h ==> before[k] == after[k])
    && (forall k :: h + c <= k < h + c + t ==> before[k] == after[k + p - c])
  }

  lemma EditAligns(before: seq<Token>, after: seq<Token>) returns (h: nat, c: nat, p: nat, t: nat)
    requires OneEdit(before, after)
    ensures Aligned(before, after, h, c, p, t)
  {
    var head, cut, put, tail :| EditAt(before, after, head, cut, put, tail);
    h, c, p, t := |head|, |cut|, |put|, |tail|;
    forall k | h + c <= k < h + c + t ensures before[k] == after[k + p - c] {
      assert before[k] == tail[k - h - c] && after[k + p - c] == tail[k - h - c];
    }
  }

  lemma AlignedDistance(left: seq<Token>, before: seq<Token>, after: seq<Token>, h: nat, c: nat, p: nat, t: nat)
    requires Aligned(before, after, h, c, p, t)
    ensures Distance(left, after) <= Distance(left, before) + 1
  {
    DistanceOfEdit(left, before, after, |left|, h, c, p, t);
  }

  lemma DistanceOfOneEdit(left: seq<Token>, before: seq<Token>, after: seq<Token>)
    requires OneEdit(before, after)
    ensures Distance(left, after) <= Distance(left, before) + 1
  {
    var h, c, p, t := EditAligns(before, after);
    AlignedDistance(left, before, after, h, c, p, t);
  }

  /** Appending one token to every sequence of a chain keeps it a chain. */
  lemma ChainAppend(chain: seq<seq<Token>>, from: seq<Token>, to: seq<Token>, x: Token) returns (r: seq<seq<Token>>)
    requires EditChain(chain, from, to)
    ensures EditChain(r, from + [x], to + [x]) && |r| == |chain|
  {
    r := seq(|chain|, i requires 0 <= i < |chain| => chain[i] + [x]);
    forall i | 0 <= i < |r| - 1 ensures OneEdit(r[i], r[i + 1]) {
      assert OneEdit(chain[i], chain[i + 1]);
      var head, cut, put, tail :| EditAt(chain[i], chain[i + 1], head, cut, put, tail);
      assert r[i] == head + cut + (tail + [x]) && r[i + 1] == head + put + (tail + [x]);
      assert EditAt(r[i], r[i + 1], head, cut, put, tail + [x]);
    }
  }

  lemma ChainExtend(chain: seq<seq<Token>>, from: seq<Token>, to: seq<Token>, next: seq<Token>, head: seq<Token>, cut: seq<Token>, put: seq<Token>)
    requires EditChain(chain, from, to)
    requires to == head + cut && next == head + put && |cut| <= 1 && |put| <= 1
    ensures EditChain(chain + [next], from, next)
  {
    assert EditAt(to, next, head, cut, put, []);
    var r := chain + [next];
    forall i | 0 <= i < |r| - 1 ensures OneEdit(r[i], r[i + 1]) {
      if i < |chain| - 1 { assert OneEdit(chain[i], chain[i + 1]); }
    }
  }

  /** A chain of exactly the distance exists: the distance is the fewest edits, not a bound on it. */
  lemma {:induction false} DistanceIsReached(left: seq<Token>, right: seq<Token>, i: nat, j: nat)
    returns (chain: seq<seq<Token>>)
    requires i <= |left| && j <= |right|
    ensures EditChain(chain, left[..i], right[..j]) && |chain| - 1 == Table(left, right, i, j)
    decreases i + j
  {
    Edge(left, right, i);
    if i > 0 && j > 0 { Cell(left, right, i, j); }
    if i > 0 { Edge(left, right, i - 1); }
    if i == 0 && j == 0 {
      chain := [[]];
    } else if i == 0 || (j > 0 && Table(left, right, i, j) == Table(left, right, i, j - 1) + 1) {
      chain := DistanceIsReached(left, right, i, j - 1);
      assert right[..j] == right[..j - 1] + [right[j - 1]];
      ChainExtend(chain, left[..i], right[..j - 1], right[..j], right[..j - 1], [], [right[j - 1]]);
      chain := chain + [right[..j]];
    } else if j == 0 || Table(left, right, i, j) == Table(left, right, i - 1, j) + 1 {
      chain := DistanceIsReached(left, right, i - 1, j);
      chain := ChainAppend(chain, left[..i - 1], right[..j], left[i - 1]);
      assert left[..i] == left[..i - 1] + [left[i - 1]];
      ChainExtend(chain, left[..i], right[..j] + [left[i - 1]], right[..j], right[..j], [left[i - 1]], []);
      chain := chain + [right[..j]];
    } else {
      chain := DistanceIsReached(left, right, i - 1, j - 1);
      chain := ChainReplace(chain, left, right, i, j);
    }
  }

  lemma ChainReplace(chain: seq<seq<Token>>, left: seq<Token>, right: seq<Token>, i: nat, j: nat)
    returns (r: seq<seq<Token>>)
    requires 0 < i <= |left| && 0 < j <= |right| && EditChain(chain, left[..i - 1], right[..j - 1])
    ensures EditChain(r, left[..i], right[..j]) && |r| == |chain| + Cost(left[i - 1] == right[j - 1])
  {
    var l, t, x, y := left[..i - 1], right[..j - 1], left[i - 1], right[j - 1];
    r := ChainAppend(chain, l, t, x);
    assert l + [x] == left[..i] && t + [y] == right[..j];
    if x != y {
      ChainExtend(r, left[..i], t + [x], right[..j], t, [x], [y]);
      r := r + [right[..j]];
    }
  }

  /** The distance is the Levenshtein distance: n edits suffice exactly when it is at most n. */
  lemma DistanceIsFewestEdits(left: seq<Token>, right: seq<Token>, n: nat)
    ensures Distance(left, right) <= n <==> exists chain :: EditChain(chain, left, right) && |chain| - 1 <= n
  {
    var best := DistanceIsReached(left, right, |left|, |right|);
    assert left[..|left|] == left && right[..|right|] == right;
    assert EditChain(best, left, right);
    forall chain | EditChain(chain, left, right) ensures Distance(left, right) <= |chain| - 1 {
      DistanceIsLeast(left, right, chain);
    }
  }

  /** So many single edits lead from one sequence to the other. */
  ghost predicate WithinEdits(left: seq<Token>, right: seq<Token>, n: nat) {
    exists chain :: EditChain(chain, left, right) && |chain| - 1 <= n
  }

  /** The distance is at least the difference of the lengths, so a length filter drops nothing near. */
  lemma {:induction false} DistanceAtLeastLengths(left: seq<Token>, right: seq<Token>, i: nat, j: nat)
    requires i <= |left| && j <= |right|
    ensures i - j <= Table(left, right, i, j) && j - i <= Table(left, right, i, j)
    decreases i + j
  {
    Edge(left, right, i);
    if i > 0 && j > 0 {
      Cell(left, right, i, j);
      DistanceAtLeastLengths(left, right, i - 1, j);
      DistanceAtLeastLengths(left, right, i, j - 1);
      DistanceAtLeastLengths(left, right, i - 1, j - 1);
    }
  }

  // ---- the bounded computation -----------------------------------------

  /** Row minima never decrease: no cell of the next row is under every cell of this one. */
  lemma {:induction false} RowsNeverDecrease(left: seq<Token>, right: seq<Token>, i: nat, j: nat, least: int)
    requires i < |left| && j <= |right|
    requires forall k :: 0 <= k <= j ==> least <= Table(left, right, i, k)
    ensures least <= Table(left, right, i + 1, j)
  {
    if j > 0 {
      Cell(left, right, i + 1, j);
      RowsNeverDecrease(left, right, i, j - 1, least);
      assert least <= Table(left, right, i, j) && least <= Table(left, right, i, j - 1);
    } else {
      Edge(left, right, i);
      Edge(left, right, i + 1);
      assert least <= Table(left, right, i, 0);
    }
  }

  /** A row whose every cell is past the limit puts the whole distance past it. */
  lemma {:induction false} RowPastLimit(left: seq<Token>, right: seq<Token>, i: nat, limit: int)
    requires i <= |left|
    requires forall j :: 0 <= j <= |right| ==> limit < Table(left, right, i, j)
    ensures limit < Distance(left, right)
    decreases |left| - i
  {
    if i < |left| {
      var next := i + 1;
      forall j | 0 <= j <= |right| ensures limit < Table(left, right, next, j) {
        RowsNeverDecrease(left, right, i, j, limit + 1);
      }
      RowPastLimit(left, right, next, limit);
    }
  }

  method Least(row: seq<int>) returns (least: int)
    requires row != []
    ensures least in row && forall j :: 0 <= j < |row| ==> least <= row[j]
  {
    least := row[0];
    for k := 1 to |row|
      invariant least in row && forall j :: 0 <= j < k ==> least <= row[j]
    {
      if row[k] < least { least := row[k]; }
    }
  }

  /** The next row: each cell from its left neighbour and the two above it. */
  ghost predicate IsNextRow(left: seq<Token>, right: seq<Token>, i: nat, above: seq<int>, row: seq<int>)
    requires 1 <= i <= |left|
  {
    && |above| == |right| + 1 == |row| && row[0] == i
    && forall j :: 1 <= j <= |right| ==>
         row[j] == Min(Min(above[j] + 1, row[j - 1] + 1), above[j - 1] + Cost(left[i - 1] == right[j - 1]))
  }

  method NextRow(left: seq<Token>, right: seq<Token>, i: nat, above: seq<int>) returns (row: seq<int>)
    requires 1 <= i <= |left| && |above| == |right| + 1
    ensures IsNextRow(left, right, i, above, row)
  {
    row := [i];
    for j := 1 to |right| + 1
      invariant |row| == j && row[0] == i
      invariant forall k :: 1 <= k < j ==>
        row[k] == Min(Min(above[k] + 1, row[k - 1] + 1), above[k - 1] + Cost(left[i - 1] == right[k - 1]))
    {
      row := row + [Min(Min(above[j] + 1, row[j - 1] + 1), above[j - 1] + Cost(left[i - 1] == right[j - 1]))];
    }
  }

  ghost predicate IsTableRow(left: seq<Token>, right: seq<Token>, i: nat, row: seq<int>)
    requires i <= |left|
  {
    |row| == |right| + 1 && forall j :: 0 <= j <= |right| ==> row[j] == Table(left, right, i, j)
  }

  lemma NextRowIsTableRow(left: seq<Token>, right: seq<Token>, i: nat, above: seq<int>, row: seq<int>, upto: nat)
    requires 1 <= i <= |left| && upto <= |right|
    requires IsTableRow(left, right, i - 1, above) && IsNextRow(left, right, i, above, row)
    ensures forall j :: 0 <= j <= upto ==> row[j] == Table(left, right, i, j)
  {
    Edge(left, right, i);
    if upto > 0 {
      Cell(left, right, i, upto);
      NextRowIsTableRow(left, right, i, above, row, upto - 1);
    }
  }

  /** The distance when it is within the limit; otherwise a number past the limit and not past the distance. */
  method EditDistance(left: seq<Token>, right: seq<Token>, limit: int) returns (d: int)
    ensures d <= limit <==> Distance(left, right) <= limit
    ensures d <= limit ==> d == Distance(left, right)
    ensures d <= Distance(left, right)
  {
    DistanceAtLeastLengths(left, right, |left|, |right|);
    if (if |left| >= |right| then |left| - |right| else |right| - |left|) > limit {
      return limit + 1;
    }
    var previous: seq<int> := seq(|right| + 1, j => j);
    for i := 1 to |left| + 1
      invariant IsTableRow(left, right, i - 1, previous)
    {
      var current := NextRow(left, right, i, previous);
      NextRowIsTableRow(left, right, i, previous, current, |right|);
      var least := Least(current);
      if least > limit {
        RowPastLimit(left, right, i, limit);
        return limit + 1;
      }
      previous := current;
    }
    d := previous[|right|];
  }
}
