/** Sequence vocabulary shared by the models: filtering, and grouping in order of first appearance. */
module Lists {

  lemma TakeNext<T>(s: seq<T>, k: nat)
    requires k < |s|
    ensures s[..k + 1] == s[..k] + [s[k]]
  {}

  /** The elements a predicate keeps, in order: a comprehension with one `if`. */
  function Filter<T>(s: seq<T>, keep: T -> bool): (r: seq<T>)
  {
    if s == [] then []
    else if keep(s[0]) then [s[0]] + Filter(s[1..], keep)
    else Filter(s[1..], keep)
  }

  lemma FilterMembers<T>(s: seq<T>, keep: T -> bool)
    ensures forall x :: x in Filter(s, keep) <==> x in s && keep(x)
    ensures |Filter(s, keep)| <= |s|
  {
    if s != [] { FilterMembers(s[1..], keep); }
  }

  lemma FilterConcat<T>(s: seq<T>, t: seq<T>, keep: T -> bool)
    ensures Filter(s + t, keep) == Filter(s, keep) + Filter(t, keep)
  {
    if s == [] {
      assert s + t == t;
    } else {
      assert (s + t)[1..] == s[1..] + t;
      FilterConcat(s[1..], t, keep);
    }
  }

  lemma FilterSame<T>(s: seq<T>, one: T -> bool, other: T -> bool)
    requires forall x :: x in s ==> (one(x) <==> other(x))
    ensures Filter(s, one) == Filter(s, other)
  {
    if s != [] { FilterSame(s[1..], one, other); }
  }

  lemma FilterTwice<T>(s: seq<T>, one: T -> bool, other: T -> bool)
    ensures Filter(Filter(s, one), other) == Filter(s, x => one(x) && other(x))
  {
    if s != [] { FilterTwice(s[1..], one, other); }
  }

  /** Filtering twice is filtering once, by the conjunction or anything that agrees with it. */
  lemma FilterFused<T>(s: seq<T>, one: T -> bool, other: T -> bool, both: T -> bool)
    requires forall x :: x in s ==> (both(x) <==> one(x) && other(x))
    ensures Filter(Filter(s, one), other) == Filter(s, both)
  {
    FilterTwice(s, one, other);
    FilterSame(s, x => one(x) && other(x), both);
  }

  lemma FilterAll<T>(s: seq<T>, keep: T -> bool)
    requires forall x :: x in s ==> keep(x)
    ensures Filter(s, keep) == s
  {
    if s != [] { FilterAll(s[1..], keep); }
  }

  lemma FilterNone<T>(s: seq<T>, keep: T -> bool)
    requires forall x :: x in s ==> !keep(x)
    ensures Filter(s, keep) == []
  {
    if s != [] { FilterNone(s[1..], keep); }
  }

  /** A filter splits the list: what it keeps and what it drops are together the whole. */
  lemma FilterSplits<T>(s: seq<T>, keep: T -> bool, drop: T -> bool)
    requires forall x :: x in s ==> (drop(x) <==> !keep(x))
    ensures multiset(s) == multiset(Filter(s, keep)) + multiset(Filter(s, drop))
  {
    if s != [] {
      FilterSplits(s[1..], keep, drop);
      assert s == [s[0]] + s[1..];
    }
  }

  // ---- two sides of one list ----------------------------------------------

  /** One item moves from the open side to the claimed one. */
  lemma Moves<T>(all: seq<T>, open: seq<T>, claimed: seq<T>, left: seq<T>, x: T)
    requires multiset(all) == multiset(open) + multiset(claimed) && multiset(open) == multiset(left) + multiset{x}
    ensures multiset(all) == multiset(left) + multiset(claimed + [x])
  {}

  /** One more item lands on one side. */
  lemma Arrives<T>(all: seq<T>, one: seq<T>, other: seq<T>, x: T)
    requires multiset(all) == multiset(one) + multiset(other)
    ensures multiset(all + [x]) == multiset(one + [x]) + multiset(other)
    ensures multiset(all + [x]) == multiset(one) + multiset(other + [x])
  {}

  /** A list's last item lands on one side or the other. */
  lemma ArrivesSomewhere<T>(all: seq<T>, one: seq<T>, other: seq<T>, one': seq<T>, other': seq<T>)
    requires all != [] && multiset(all[..|all| - 1]) == multiset(one) + multiset(other)
    requires (one' == one + [all[|all| - 1]] && other' == other) || (one' == one && other' == other + [all[|all| - 1]])
    ensures multiset(all) == multiset(one') + multiset(other')
  {
    Arrives(all[..|all| - 1], one, other, all[|all| - 1]);
    assert all == all[..|all| - 1] + [all[|all| - 1]];
  }

  function Map<T, U>(f: T --> U, s: seq<T>): (r: seq<U>)
    requires forall x :: x in s ==> f.requires(x)
    ensures |r| == |s| && forall i :: 0 <= i < |s| ==> r[i] == f(s[i])
  {
    if s == [] then [] else [f(s[0])] + Map(f, s[1..])
  }

  /** Filtering the images is mapping the filtered: the two agree when the predicates do. */
  lemma FilterOfMap<T, U>(f: T -> U, s: seq<T>, before: T -> bool, after: U -> bool)
    requires forall x :: x in s ==> (before(x) <==> after(f(x)))
    ensures Filter(Map(f, s), after) == Map(f, Filter(s, before))
  {
    if s != [] { FilterOfMap(f, s[1..], before, after); }
  }

  /** Every two elements, the earlier one first. */
  ghost predicate Pairwise<T>(s: seq<T>, apart: (T, T) -> bool) {
    forall i, j :: 0 <= i < j < |s| ==> apart(s[i], s[j])
  }

  lemma PairwiseCons<T>(x: T, s: seq<T>, apart: (T, T) -> bool)
    requires Pairwise(s, apart) && forall y :: y in s ==> apart(x, y)
    ensures Pairwise([x] + s, apart)
  {
    forall i, j | 0 <= i < j < |[x] + s| ensures apart(([x] + s)[i], ([x] + s)[j]) {
      if i > 0 { assert apart(s[i - 1], s[j - 1]); }
    }
  }

  lemma PairwiseTail<T>(s: seq<T>, apart: (T, T) -> bool)
    requires s != [] && Pairwise(s, apart)
    ensures Pairwise(s[1..], apart) && forall y :: y in s[1..] ==> apart(s[0], y)
  {
    forall i, j | 0 <= i < j < |s[1..]| ensures apart(s[1..][i], s[1..][j]) { assert apart(s[i + 1], s[j + 1]); }
    forall y | y in s[1..] ensures apart(s[0], y) {
      var i :| 0 <= i < |s[1..]| && s[1..][i] == y;
      assert apart(s[0], s[i + 1]);
    }
  }

  lemma {:induction false} PairwiseFilter<T(!new)>(s: seq<T>, keep: T -> bool, apart: (T, T) -> bool)
    requires Pairwise(s, apart)
    ensures Pairwise(Filter(s, keep), apart)
  {
    if s != [] {
      PairwiseTail(s, apart);
      PairwiseFilter(s[1..], keep, apart);
      FilterMembers(s[1..], keep);
      if keep(s[0]) { PairwiseCons(s[0], Filter(s[1..], keep), apart); }
    }
  }

  // ---- grouping ---------------------------------------------------------

  ghost predicate Equivalence<T(!new)>(same: (T, T) -> bool) {
    && (forall x :: same(x, x))
    && (forall x, y :: same(x, y) ==> same(y, x))
    && (forall x, y, z :: same(x, y) && same(y, z) ==> same(x, z))
  }

  /** The equivalence classes of a list, in order of first appearance, each in list order. */
  ghost function Buckets<T>(items: seq<T>, same: (T, T) -> bool): (r: seq<seq<T>>)
    decreases |items|
  {
    if items == [] then []
    else
      var head := items[0];
      FilterMembers(items[1..], y => !same(head, y));
      [[head] + Filter(items[1..], y => same(head, y))] + Buckets(Filter(items[1..], y => !same(head, y)), same)
  }

  lemma BucketsStep<T>(items: seq<T>, same: (T, T) -> bool, kept: seq<T>, rest: seq<T>)
    requires items != []
    requires kept == Filter(items[1..], y => same(items[0], y))
    requires rest == Filter(items[1..], y => !same(items[0], y))
    ensures Buckets(items, same) == [[items[0]] + kept] + Buckets(rest, same)
  {}

  /** Every bucket is a whole equivalence class of the list, headed by its first member. */
  lemma {:induction false} BucketsAreClasses<T(!new)>(items: seq<T>, same: (T, T) -> bool)
    requires Equivalence(same)
    ensures forall b :: b in Buckets(items, same) ==> b != [] && b[0] in items && b == Filter(items, y => same(b[0], y))
    decreases |items|
  {
    if items != [] {
      var head, tail := items[0], items[1..];
      var kept, rest := Filter(tail, y => same(head, y)), Filter(tail, y => !same(head, y));
      FilterMembers(tail, y => !same(head, y));
      BucketsAreClasses(rest, same);
      BucketsStep(items, same, kept, rest);
      forall b | b in Buckets(rest, same) ensures b != [] && b[0] in items && b == Filter(items, y => same(b[0], y)) {
        assert b[0] in rest;
        FilterFused(tail, y => !same(head, y), y => same(b[0], y), y => same(b[0], y));
      }
    }
  }

  ghost function HeadsRelated<T>(related: (T, T) -> bool): (seq<T>, seq<T>) -> bool {
    (a: seq<T>, b: seq<T>) => a != [] && b != [] && related(a[0], b[0])
  }

  /** Buckets come in the order of their first members, for any order the items are in. */
  lemma {:induction false} BucketHeadsInOrder<T(!new)>(items: seq<T>, same: (T, T) -> bool, before: (T, T) -> bool)
    requires Equivalence(same) && Pairwise(items, before)
    ensures Pairwise(Buckets(items, same), HeadsRelated(before))
    decreases |items|
  {
    if items != [] {
      var head, tail := items[0], items[1..];
      var kept, rest := Filter(tail, y => same(head, y)), Filter(tail, y => !same(head, y));
      FilterMembers(tail, y => !same(head, y));
      PairwiseTail(items, before);
      PairwiseFilter(tail, y => !same(head, y), before);
      BucketsStep(items, same, kept, rest);
      BucketHeadsInOrder(rest, same, before);
      BucketsAreClasses(rest, same);
      forall b | b in Buckets(rest, same) ensures b != [] && before(head, b[0]) { assert b[0] in rest && b[0] in tail; }
      PairwiseCons([head] + kept, Buckets(rest, same), HeadsRelated(before));
    }
  }

  /** No two buckets are of one class. */
  lemma {:induction false} BucketsDiffer<T(!new)>(items: seq<T>, same: (T, T) -> bool, unlike: (T, T) -> bool)
    requires Equivalence(same) && forall x, y :: unlike(x, y) <==> !same(x, y)
    ensures Pairwise(Buckets(items, same), HeadsRelated(unlike))
    decreases |items|
  {
    if items != [] {
      var head, tail := items[0], items[1..];
      var kept, rest := Filter(tail, y => same(head, y)), Filter(tail, y => !same(head, y));
      FilterMembers(tail, y => !same(head, y));
      BucketsStep(items, same, kept, rest);
      BucketsDiffer(rest, same, unlike);
      BucketsAreClasses(rest, same);
      forall b | b in Buckets(rest, same) ensures b != [] && unlike(head, b[0]) { assert b[0] in rest; }
      PairwiseCons([head] + kept, Buckets(rest, same), HeadsRelated(unlike));
    }
  }

  lemma BucketIsClass<T(!new)>(items: seq<T>, same: (T, T) -> bool, b: seq<T>, alike: T -> bool)
    requires Equivalence(same) && b in Buckets(items, same)
    requires b != [] ==> forall y :: alike(y) <==> same(b[0], y)
    ensures b == Filter(items, alike)
  {
    BucketsAreClasses(items, same);
    FilterSame(items, y => same(b[0], y), alike);
  }

  lemma BucketMembers<T(!new)>(items: seq<T>, same: (T, T) -> bool, b: seq<T>)
    requires Equivalence(same) && b in Buckets(items, same)
    ensures b != [] && forall x :: x in b <==> x in items && same(b[0], x)
  {
    BucketsAreClasses(items, same);
    FilterMembers(items, y => same(b[0], y));
  }

  /** Every item is in a bucket. */
  lemma {:induction false} BucketsCover<T(!new)>(items: seq<T>, same: (T, T) -> bool, x: T)
    requires Equivalence(same) && x in items
    ensures exists b :: b in Buckets(items, same) && x in b
    decreases |items|
  {
    var head, tail := items[0], items[1..];
    var kept, rest := Filter(tail, y => same(head, y)), Filter(tail, y => !same(head, y));
    FilterMembers(tail, y => same(head, y));
    FilterMembers(tail, y => !same(head, y));
    BucketsStep(items, same, kept, rest);
    if same(head, x) {
      assert x in Buckets(items, same)[0];
    } else {
      BucketsCover(rest, same, x);
    }
  }

  lemma BucketHoldsBoth<T(!new)>(items: seq<T>, same: (T, T) -> bool, x: T, y: T) returns (b: seq<T>)
    requires Equivalence(same) && x in items && y in items && same(x, y)
    ensures b in Buckets(items, same) && x in b && y in b
  {
    BucketsCover(items, same, x);
    b :| b in Buckets(items, same) && x in b;
    BucketMembers(items, same, b);
  }

  /** Relations that agree on the items give the same buckets. */
  lemma {:induction false} BucketsSame<T(!new)>(items: seq<T>, one: (T, T) -> bool, other: (T, T) -> bool)
    requires forall x, y :: x in items && y in items ==> (one(x, y) <==> other(x, y))
    ensures Buckets(items, one) == Buckets(items, other)
    decreases |items|
  {
    if items != [] {
      var head, tail := items[0], items[1..];
      FilterSame(tail, y => one(head, y), y => other(head, y));
      FilterSame(tail, y => !one(head, y), y => !other(head, y));
      var rest := Filter(tail, y => !one(head, y));
      FilterMembers(tail, y => !one(head, y));
      assert forall x :: x in rest ==> x in tail;
      assert forall x :: x in tail ==> x in items;
      BucketsSame(rest, one, other);
      BucketsStep(items, one, Filter(tail, y => one(head, y)), rest);
      BucketsStep(items, other, Filter(tail, y => other(head, y)), rest);
    }
  }

  /** Restricting the items to a union of classes keeps exactly those classes, in the same order. */
  lemma {:induction false} BucketsRestrict<T(!new)>(
      items: seq<T>, same: (T, T) -> bool, keep: T -> bool, heads: seq<T> -> bool)
    requires Equivalence(same)
    requires forall b :: b != [] ==> (heads(b) <==> keep(b[0]))
    requires forall x, y :: x in items && y in items && same(x, y) ==> (keep(x) <==> keep(y))
    ensures Buckets(Filter(items, keep), same) == Filter(Buckets(items, same), heads)
    decreases |items|
  {
    if items != [] {
      var head, tail := items[0], items[1..];
      var kept, rest := Filter(tail, y => same(head, y)), Filter(tail, y => !same(head, y));
      FilterMembers(tail, y => !same(head, y));
      BucketsRestrict(rest, same, keep, heads);
      BucketsStep(items, same, kept, rest);
      var bucket := [head] + kept;
      assert bucket[0] == head && ([bucket] + Buckets(rest, same))[1..] == Buckets(rest, same);
      if keep(head) {
        RestrictKeepsHead(items, same, keep);
      } else {
        RestrictDropsHead(items, same, keep);
      }
    }
  }

  lemma RestrictKeepsHead<T(!new)>(items: seq<T>, same: (T, T) -> bool, keep: T -> bool)
    requires items != [] && keep(items[0])
    requires forall y :: y in items && same(items[0], y) ==> keep(y)
    ensures var tail := items[1..];
            Buckets(Filter(items, keep), same) ==
            [[items[0]] + Filter(tail, y => same(items[0], y))]
            + Buckets(Filter(Filter(tail, y => !same(items[0], y)), keep), same)
  {
    var head, tail, kept := items[0], items[1..], Filter(items, keep);
    assert kept[0] == head && kept[1..] == Filter(tail, keep);
    FilterFused(tail, keep, y => same(head, y), y => same(head, y));
    FilterFused(tail, keep, y => !same(head, y), y => keep(y) && !same(head, y));
    FilterFused(tail, y => !same(head, y), keep, y => keep(y) && !same(head, y));
    BucketsStep(kept, same, Filter(tail, y => same(head, y)), Filter(Filter(tail, y => !same(head, y)), keep));
  }

  lemma RestrictDropsHead<T(!new)>(items: seq<T>, same: (T, T) -> bool, keep: T -> bool)
    requires items != [] && !keep(items[0])
    requires forall y :: y in items && same(items[0], y) ==> !keep(y)
    ensures Filter(items, keep) == Filter(Filter(items[1..], y => !same(items[0], y)), keep)
  {
    var head, tail := items[0], items[1..];
    FilterFused(tail, y => !same(head, y), keep, keep);
  }

  /** How one more item at the end changes the head's class and the rest. */
  lemma BucketsOneMore<T>(items: seq<T>, x: T, same: (T, T) -> bool) returns (kept: seq<T>, rest: seq<T>)
    requires items != []
    ensures |rest| < |items|
    ensures Buckets(items, same) == [[items[0]] + kept] + Buckets(rest, same)
    ensures same(items[0], x) ==> Buckets(items + [x], same) == [[items[0]] + kept + [x]] + Buckets(rest, same)
    ensures !same(items[0], x) ==> Buckets(items + [x], same) == [[items[0]] + kept] + Buckets(rest + [x], same)
  {
    var head, tail, grown := items[0], items[1..], items + [x];
    kept, rest := Filter(tail, y => same(head, y)), Filter(tail, y => !same(head, y));
    FilterMembers(tail, y => !same(head, y));
    assert grown[1..] == tail + [x];
    FilterConcat(tail, [x], y => same(head, y));
    FilterConcat(tail, [x], y => !same(head, y));
    BucketsStep(items, same, kept, rest);
    if same(head, x) {
      assert rest + [] == rest && [head] + (kept + [x]) == [head] + kept + [x];
      BucketsStep(grown, same, kept + [x], rest);
    } else {
      assert kept + [] == kept;
      BucketsStep(grown, same, kept, rest + [x]);
    }
  }

  /** Adding one item at the end joins its class, or starts a new one at the end. */
  lemma {:induction false} BucketsGrow<T(!new)>(items: seq<T>, x: T, same: (T, T) -> bool, at: nat)
    requires at <= |Buckets(items, same)|
    requires forall i :: 0 <= i < |Buckets(items, same)| ==>
               Buckets(items, same)[i] != [] && (same(Buckets(items, same)[i][0], x) <==> i == at)
    ensures Buckets(items + [x], same) ==
            if at < |Buckets(items, same)| then Buckets(items, same)[at := Buckets(items, same)[at] + [x]]
            else Buckets(items, same) + [[x]]
    decreases |items|
  {
    if items == [] {
      assert items + [x] == [x];
      BucketsStep([x], same, [], []);
      assert [x] + [] == [x];
    } else {
      var kept, rest := BucketsOneMore(items, x, same);
      var all := Buckets(items, same);
      assert all[0][0] == items[0];
      if same(items[0], x) {
        assert Buckets(items + [x], same) == all[0 := all[0] + [x]];
      } else {
        forall i | 0 <= i < |Buckets(rest, same)|
          ensures Buckets(rest, same)[i] != [] && (same(Buckets(rest, same)[i][0], x) <==> i == at - 1) {
          assert Buckets(rest, same)[i] == all[i + 1];
        }
        BucketsGrow(rest, x, same, at - 1);
      }
    }
  }

  // ---- grouping with a dictionary ------------------------------------------

  /** A dictionary of lists while it is filled: keys in insertion order, and what each holds. */
  ghost predicate Filled<K(!new), T>(order: seq<K>, groups: map<K, seq<T>>, buckets: seq<seq<T>>) {
    && |order| == |buckets|
    && (forall i, j :: 0 <= i < j < |order| ==> order[i] != order[j])
    && (forall k :: k in groups <==> k in order)
    && (forall i :: 0 <= i < |order| ==> order[i] in groups && groups[order[i]] == buckets[i])
  }

  function Grown<T>(buckets: seq<seq<T>>, x: T, at: nat): seq<seq<T>> {
    if at < |buckets| then buckets[at := buckets[at] + [x]] else buckets + [[x]]
  }

  /** Appending under a key joins its list, or starts a new one at the end. */
  lemma FilledStep<K(!new), T>(
      order: seq<K>, groups: map<K, seq<T>>, buckets: seq<seq<T>>, key: K, x: T, buckets': seq<seq<T>>, at: nat)
    requires Filled(order, groups, buckets)
    requires at <= |order| && (forall i :: 0 <= i < |order| ==> (order[i] == key <==> i == at))
    requires buckets' == Grown(buckets, x, at)
    ensures key in groups <==> at < |order|
    ensures key in groups ==> Filled(order, groups[key := groups[key] + [x]], buckets')
    ensures key !in groups ==> Filled(order + [key], groups[key := [x]], buckets')
  {
    if at < |order| { assert order[at] in order; }
  }

  /** Append one item under a key of the dictionary. */
  method Append<K(==, !new), T>(
      order: seq<K>, groups: map<K, seq<T>>, key: K, x: T, ghost buckets: seq<seq<T>>, ghost at: nat)
    returns (order': seq<K>, groups': map<K, seq<T>>)
    requires Filled(order, groups, buckets)
    requires at <= |order| && (forall i :: 0 <= i < |order| ==> (order[i] == key <==> i == at))
    ensures Filled(order', groups', Grown(buckets, x, at))
    ensures order' == if at < |order| then order else order + [key]
  {
    FilledStep(order, groups, buckets, key, x, Grown(buckets, x, at), at);
    if key in groups {
      order', groups' := order, groups[key := groups[key] + [x]];
    } else {
      order', groups' := order + [key], groups[key := [x]];
    }
  }

  /** The dictionary's lists, in insertion order. */
  method Collect<K(==, !new), T>(order: seq<K>, groups: map<K, seq<T>>, ghost buckets: seq<seq<T>>)
    returns (grouped: seq<seq<T>>)
    requires Filled(order, groups, buckets)
    ensures grouped == buckets
  {
    grouped := seq(|order|, i requires 0 <= i < |order| && order[i] in groups => groups[order[i]]);
  }

  /** Group a list by a tag. */
  method GroupBy<T(!new), K(==, !new)>(items: seq<T>, tag: T -> K, ghost same: (T, T) -> bool)
    returns (grouped: seq<seq<T>>)
    requires forall y, z :: same(y, z) <==> tag(y) == tag(z)
    ensures grouped == Buckets(items, same)
  {
    var order: seq<K>, groups: map<K, seq<T>> := [], map[];
    ghost var buckets: seq<seq<T>> := [];
    for k := 0 to |items|
      invariant buckets == Buckets(items[..k], same)
      invariant Filled(order, groups, buckets) && Tagged(tag, order, buckets)
    {
      ghost var at := TaggedStep(items[..k], items[k], tag, same, order, buckets);
      TakeNext(items, k);
      order, groups := Append(order, groups, tag(items[k]), items[k], buckets, at);
      buckets := Grown(buckets, items[k], at);
    }
    assert items[..|items|] == items;
    grouped := Collect(order, groups, buckets);
  }

  ghost predicate Tagged<T, K>(tag: T -> K, order: seq<K>, buckets: seq<seq<T>>) {
    |order| == |buckets| && forall i :: 0 <= i < |buckets| ==> buckets[i] != [] && tag(buckets[i][0]) == order[i]
  }

  lemma TaggedStep<T(!new), K(!new)>(
      items: seq<T>, x: T, tag: T -> K, same: (T, T) -> bool, order: seq<K>, buckets: seq<seq<T>>)
    returns (at: nat)
    requires forall y, z :: same(y, z) <==> tag(y) == tag(z)
    requires buckets == Buckets(items, same) && Tagged(tag, order, buckets)
    requires forall i, j :: 0 <= i < j < |order| ==> order[i] != order[j]
    ensures at <= |order| && forall i :: 0 <= i < |order| ==> (order[i] == tag(x) <==> i == at)
    ensures Buckets(items + [x], same) == Grown(buckets, x, at)
    ensures Tagged(tag, if at < |order| then order else order + [tag(x)], Grown(buckets, x, at))
  {
    if i :| 0 <= i < |order| && order[i] == tag(x) { at := i; } else { at := |order|; }
    BucketsGrow(items, x, same, at);
  }
}
