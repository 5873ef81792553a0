/** Diffing a run against a saved baseline (dedup/baseline.py). */
module Baseline {
  import opened Lists
  import opened Options
  import opened DedupModel

  /** Keys, kinds and lanes are only ever compared. */
  type Name = nat

  datatype Found = Found(key: Name, kind: Name, lane: Name, score: nat, members: seq<Unit>)

  datatype Entry = Entry(key: Name, kind: Name, lane: Name, copies: nat, score: nat, members: seq<string>)

  datatype Report = Report(classes: seq<Found>, suppressed: seq<Found>, kinds: set<Name>, lane: Option<Name>)

  // ---- entries --------------------------------------------------------------------------

  /** A location with its line span stripped off: everything before the last colon, or all of it. */
  function BeforeLastColon(s: string): string {
    if s == [] then s
    else if s[|s| - 1] == ':' then s[..|s| - 1]
    else
      var rest := BeforeLastColon(s[..|s| - 1]);
      if rest == s[..|s| - 1] && ':' !in rest then s else rest
  }

  lemma {:induction false} LastColonIsFound(head: string, tail: string)
    requires ':' !in tail
    ensures BeforeLastColon(head + ":" + tail) == head
    decreases |tail|
  {
    var s := head + ":" + tail;
    if tail == [] {
      assert s[..|s| - 1] == head;
    } else {
      var shorter := tail[..|tail| - 1];
      assert s[..|s| - 1] == head + ":" + shorter && s[|s| - 1] == tail[|tail| - 1];
      LastColonIsFound(head, shorter);
      assert |head| < |s[..|s| - 1]|;
    }
  }

  /** Stripping a member's location gives back its file, whatever colons the path itself holds. */
  lemma FileOfLocation(u: Unit)
    ensures BeforeLastColon(Location(u)) == u.file
  {
    if u.startLine == u.endLine {
      LastColonIsFound(u.file, Digits(u.startLine));
    } else {
      var span := Digits(u.startLine) + "-" + Digits(u.endLine);
      assert Location(u) == u.file + ":" + span;
      LastColonIsFound(u.file, span);
    }
  }

  function EntryFiles(e: Entry): set<string> { set m | m in e.members :: BeforeLastColon(m) }

  function EntryOf(c: Found): Entry {
    Entry(c.key, c.kind, c.lane, |c.members|, c.score, seq(|c.members|, i requires 0 <= i < |c.members| => Location(c.members[i])))
  }

  /** A saved class spans the files it was found in. */
  lemma EntryKeepsFiles(c: Found)
    ensures EntryFiles(EntryOf(c)) == FilesOf(c.members)
  {
    var e := EntryOf(c);
    forall f | f in FilesOf(c.members) ensures f in EntryFiles(e) {
      var u :| u in c.members && u.file == f;
      var i :| 0 <= i < |c.members| && c.members[i] == u;
      FileOfLocation(u);
      assert e.members[i] in e.members;
    }
    forall f | f in EntryFiles(e) ensures f in FilesOf(c.members) {
      var m :| m in e.members && BeforeLastColon(m) == f;
      var i :| 0 <= i < |e.members| && e.members[i] == m;
      FileOfLocation(c.members[i]);
    }
  }

  // ---- pairing --------------------------------------------------------------------------

  /** How many files a class and a baseline entry of its kind share. */
  function Overlap(e: Entry, c: Found): nat {
    if e.kind == c.kind then |FilesOf(c.members) * EntryFiles(e)| else 0
  }

  /** The first entry sharing the most files, if any shares one. */
  function Best(entries: seq<Entry>, c: Found): Option<Entry>
    decreases |entries|
  {
    if entries == [] then None
    else
      var last := entries[|entries| - 1];
      var before := Best(entries[..|entries| - 1], c);
      if Overlap(last, c) > (if before.Some? then Overlap(before.value, c) else 0) then Some(last) else before
  }

  function Remove(entries: seq<Entry>, e: Entry): seq<Entry> {
    if entries == [] then [] else if entries[0] == e then entries[1..] else [entries[0]] + Remove(entries[1..], e)
  }

  datatype Changed = Changed(was: Entry, now: Found)

  datatype Pairing = Pairing(open: seq<Entry>, unmatched: seq<Found>, changed: seq<Changed>)

  /** Greedily, in the candidates' order: each claims the entry still open that shares most with it, if any does. */
  function PairChanged(entries: seq<Entry>, candidates: seq<Found>): Pairing
    decreases |candidates|
  {
    if candidates == [] then Pairing(entries, [], [])
    else
      var last := candidates[|candidates| - 1];
      var p := PairChanged(entries, candidates[..|candidates| - 1]);
      match Best(p.open, last)
      case None => p.(unmatched := p.unmatched + [last])
      case Some(best) => p.(open := Remove(p.open, best), changed := p.changed + [Changed(best, last)])
  }

  /** The pick shares files whenever some entry does, and none shares more. */
  lemma {:induction false} BestIsMost(entries: seq<Entry>, c: Found)
    ensures Best(entries, c).Some? ==> Best(entries, c).value in entries && Overlap(Best(entries, c).value, c) > 0
    ensures forall e :: e in entries ==>
      Overlap(e, c) <= (if Best(entries, c).Some? then Overlap(Best(entries, c).value, c) else 0)
    decreases |entries|
  {
    if entries != [] {
      var before := entries[..|entries| - 1];
      BestIsMost(before, c);
      assert forall e :: e in entries ==> e in before || e == entries[|entries| - 1];
    }
  }

  /** Of entries sharing equally many files the first is picked. */
  lemma {:induction false} BestIsFirst(entries: seq<Entry>, c: Found) returns (i: nat)
    requires Best(entries, c).Some?
    ensures i < |entries| && entries[i] == Best(entries, c).value
    ensures forall j :: 0 <= j < i ==> Overlap(entries[j], c) < Overlap(entries[i], c)
    decreases |entries|
  {
    var before, last := entries[..|entries| - 1], entries[|entries| - 1];
    BestIsMost(before, c);
    if Best(entries, c) == Best(before, c) && Best(before, c).Some? {
      i := BestIsFirst(before, c);
    } else {
      i := |entries| - 1;
      assert forall j :: 0 <= j < i ==> entries[j] in before;
    }
  }

  lemma {:induction false} RemoveTakesOne(entries: seq<Entry>, e: Entry)
    requires e in entries
    ensures multiset(entries) == multiset(Remove(entries, e)) + multiset{e}
    ensures forall x :: x in Remove(entries, e) ==> x in entries
  {
    assert entries == [entries[0]] + entries[1..];
    if entries[0] != e { RemoveTakesOne(entries[1..], e); }
  }

  function Was(changed: seq<Changed>): seq<Entry> { seq(|changed|, i requires 0 <= i < |changed| => changed[i].was) }

  function Now(changed: seq<Changed>): seq<Found> { seq(|changed|, i requires 0 <= i < |changed| => changed[i].now) }

  /** What a pairing promises: both sides conserved, each entry claimed at most once, every claim the best at its time,
      and nothing left over on both sides that shares a kind and a file. */
  ghost predicate Conserves(entries: seq<Entry>, candidates: seq<Found>, p: Pairing) {
    && multiset(entries) == multiset(p.open) + multiset(Was(p.changed))
    && multiset(candidates) == multiset(p.unmatched) + multiset(Now(p.changed))
  }

  ghost predicate LeftoversApart(p: Pairing) {
    && (forall e, c :: e in p.open && c in p.unmatched ==> Overlap(e, c) == 0)
    && (forall ch :: ch in p.changed ==> Overlap(ch.was, ch.now) > 0)
    && (forall e, ch :: e in p.open && ch in p.changed ==> Overlap(e, ch.now) <= Overlap(ch.was, ch.now))
  }

  lemma ClaimConserves(entries: seq<Entry>, before: seq<Found>, q: Pairing, best: Entry, last: Found)
    requires Conserves(entries, before, q) && best in q.open
    ensures Conserves(entries, before + [last],
                      Pairing(Remove(q.open, best), q.unmatched, q.changed + [Changed(best, last)]))
  {
    var changed := q.changed + [Changed(best, last)];
    RemoveTakesOne(q.open, best);
    assert Was(changed) == Was(q.changed) + [best] && Now(changed) == Now(q.changed) + [last];
    Moves(entries, q.open, Was(q.changed), Remove(q.open, best), best);
    Arrives(before, q.unmatched, Now(q.changed), last);
  }

  lemma {:induction false} PairingConserves(entries: seq<Entry>, candidates: seq<Found>)
    ensures Conserves(entries, candidates, PairChanged(entries, candidates))
    decreases |candidates|
  {
    if candidates != [] {
      var before, last := candidates[..|candidates| - 1], candidates[|candidates| - 1];
      var q := PairChanged(entries, before);
      PairingConserves(entries, before);
      assert candidates == before + [last];
      BestIsMost(q.open, last);
      match Best(q.open, last)
      case None => Arrives(before, q.unmatched, Now(q.changed), last);
      case Some(best) => ClaimConserves(entries, before, q, best, last);
    }
  }

  lemma {:induction false} PairingLeavesApart(entries: seq<Entry>, candidates: seq<Found>)
    ensures LeftoversApart(PairChanged(entries, candidates))
    ensures forall e :: e in PairChanged(entries, candidates).open ==> e in entries
    decreases |candidates|
  {
    if candidates != [] {
      var last := candidates[|candidates| - 1];
      var q := PairChanged(entries, candidates[..|candidates| - 1]);
      PairingLeavesApart(entries, candidates[..|candidates| - 1]);
      BestIsMost(q.open, last);
      match Best(q.open, last)
      case None =>
      case Some(best) => RemoveTakesOne(q.open, best);
    }
  }

  // ---- the diff ------------------------------------------------------------------------------

  datatype Diff = Diff(resolved: seq<Entry>, changed: seq<Changed>, remaining: seq<Found>, added: seq<Found>)

  function KeysOf(classes: seq<Found>): set<Name> { set c | c in classes :: c.key }

  function EntryKeys(entries: seq<Entry>): set<Name> { set e | e in entries :: e.key }

  /** Whether a run narrowed to some kinds and a lane may judge an entry. */
  predicate InScope(e: Entry, r: Report) { e.kind in r.kinds && (r.lane.None? || r.lane == Some(e.lane)) }

  predicate IsGone(e: Entry, r: Report) {
    e.key !in KeysOf(r.classes) && e.key !in KeysOf(r.suppressed) && InScope(e, r)
  }

  function Gone(r: Report): Entry -> bool { (e: Entry) => IsGone(e, r) }

  function Settles(r: Report): Entry -> bool { (e: Entry) => !IsGone(e, r) }

  function Known(known: set<Name>): Found -> bool { (c: Found) => c.key in known }

  function Unknown(known: set<Name>): Found -> bool { (c: Found) => c.key !in known }

  function DiffBaseline(r: Report, entries: seq<Entry>): Diff {
    var known := EntryKeys(entries);
    var gone := Filter(entries, Gone(r));
    var silent := PairChanged(gone, Filter(r.suppressed, Unknown(known)));
    var p := PairChanged(silent.open, Filter(r.classes, Unknown(known)));
    Diff(p.open, p.changed, Filter(r.classes, Known(known)), p.unmatched)
  }

  /** Entries a re-keyed suppressed class still stands for. */
  function Claimed(r: Report, entries: seq<Entry>): seq<Changed> {
    PairChanged(Filter(entries, Gone(r)), Filter(r.suppressed, Unknown(EntryKeys(entries)))).changed
  }

  function Settled(entries: seq<Entry>, r: Report): seq<Entry> { Filter(entries, Settles(r)) }

  /** Both sides of the diff are conserved: the report's classes split into remaining, new and changed; the baseline's
      entries into those settled by key or scope, silently claimed, resolved and changed. */
  lemma DiffConserves(r: Report, entries: seq<Entry>)
    ensures var d := DiffBaseline(r, entries);
            && multiset(r.classes) == multiset(d.remaining) + multiset(d.added) + multiset(Now(d.changed))
            && multiset(entries) == multiset(Settled(entries, r)) + multiset(Was(Claimed(r, entries)))
                                    + multiset(d.resolved) + multiset(Was(d.changed))
  {
    var known := EntryKeys(entries);
    var gone := Filter(entries, Gone(r));
    var hidden := Filter(r.suppressed, Unknown(known));
    var silent := PairChanged(gone, hidden);
    PairingConserves(gone, hidden);
    PairingConserves(silent.open, Filter(r.classes, Unknown(known)));
    FilterSplits(entries, Gone(r), Settles(r));
    FilterSplits(r.classes, Known(known), Unknown(known));
  }

  /** Settled entries are exactly the still present, the suppressed and the out of scope. */
  lemma SettledMeans(entries: seq<Entry>, r: Report, e: Entry)
    requires e in entries
    ensures e in Settled(entries, r) <==>
            e.key in KeysOf(r.classes) || e.key in KeysOf(r.suppressed) || e.kind !in r.kinds || (r.lane.Some? && r.lane.value != e.lane)
  {
    FilterMembers(entries, Settles(r));
  }

  lemma LeftoversShareNothing(p: Pairing, e: Entry, c: Found)
    requires LeftoversApart(p) && e in p.open && c in p.unmatched && e.kind == c.kind
    ensures EntryFiles(e) !! FilesOf(c.members)
  {
    assert Overlap(e, c) == 0;
    var shared := FilesOf(c.members) * EntryFiles(e);
    assert shared == {};
    forall f | f in EntryFiles(e) ensures f !in FilesOf(c.members) { assert f !in shared; }
  }

  /** No resolved entry shares its kind and a file with a new class. */
  lemma ResolvedIsApart(r: Report, entries: seq<Entry>, e: Entry, c: Found)
    requires e in DiffBaseline(r, entries).resolved && c in DiffBaseline(r, entries).added && e.kind == c.kind
    ensures EntryFiles(e) !! FilesOf(c.members)
  {
    var known := EntryKeys(entries);
    var silent := PairChanged(Filter(entries, Gone(r)), Filter(r.suppressed, Unknown(known)));
    var candidates := Filter(r.classes, Unknown(known));
    PairingLeavesApart(silent.open, candidates);
    LeftoversShareNothing(PairChanged(silent.open, candidates), e, c);
  }

  /** Nor with a suppressed class of an unknown key that claimed nothing. */
  lemma ResolvedIsNotHidden(r: Report, entries: seq<Entry>, e: Entry, c: Found)
    requires e in DiffBaseline(r, entries).resolved && e.kind == c.kind
    requires c in PairChanged(Filter(entries, Gone(r)), Filter(r.suppressed, Unknown(EntryKeys(entries)))).unmatched
    ensures EntryFiles(e) !! FilesOf(c.members)
  {
    var gone, hidden := Filter(entries, Gone(r)), Filter(r.suppressed, Unknown(EntryKeys(entries)));
    PairingLeavesApart(gone, hidden);
    PairingLeavesApart(PairChanged(gone, hidden).open, Filter(r.classes, Unknown(EntryKeys(entries))));
    LeftoversShareNothing(PairChanged(gone, hidden), e, c);
  }

  function Shared(e: Entry, c: Found): nat { |set f | f in EntryFiles(e) && (exists u :: u in c.members && u.file == f)| }

  lemma OverlapIsShared(e: Entry, c: Found)
    ensures Overlap(e, c) == if e.kind == c.kind then Shared(e, c) else 0
  {
    assert (set f | f in EntryFiles(e) && (exists u :: u in c.members && u.file == f)) == FilesOf(c.members) * EntryFiles(e);
  }

  /** A changed class and the entry it took over are of one kind and share files, and no resolved entry of that kind shares
      more with it. */
  lemma ChangedShareMost(r: Report, entries: seq<Entry>, ch: Changed, e: Entry)
    requires ch in DiffBaseline(r, entries).changed
    ensures ch.was.kind == ch.now.kind && Shared(ch.was, ch.now) > 0
    ensures e in DiffBaseline(r, entries).resolved && e.kind == ch.now.kind ==> Shared(e, ch.now) <= Shared(ch.was, ch.now)
  {
    var gone, hidden := Filter(entries, Gone(r)), Filter(r.suppressed, Unknown(EntryKeys(entries)));
    PairingLeavesApart(PairChanged(gone, hidden).open, Filter(r.classes, Unknown(EntryKeys(entries))));
    OverlapIsShared(ch.was, ch.now);
    OverlapIsShared(e, ch.now);
  }

  ghost predicate HasKey(entries: seq<Entry>, key: Name) { exists e :: e in entries && e.key == key }

  ghost predicate Reported(classes: seq<Found>, key: Name) { exists c :: c in classes && c.key == key }

  /** An entry the run looked for and did not find, kept out by no suppression. */
  ghost predicate Missing(e: Entry, r: Report) {
    && !Reported(r.classes, e.key) && !Reported(r.suppressed, e.key)
    && e.kind in r.kinds && (r.lane.None? || r.lane.value == e.lane)
  }

  lemma {:induction false} PairedAreGiven(entries: seq<Entry>, candidates: seq<Found>)
    ensures var p := PairChanged(entries, candidates);
            && (forall ch :: ch in p.changed ==> ch.was in entries && ch.now in candidates)
            && (forall e :: e in p.open ==> e in entries) && (forall c :: c in p.unmatched ==> c in candidates)
    decreases |candidates|
  {
    if candidates != [] {
      var before, last := candidates[..|candidates| - 1], candidates[|candidates| - 1];
      var q := PairChanged(entries, before);
      PairedAreGiven(entries, before);
      BestIsMost(q.open, last);
      if Best(q.open, last).Some? { RemoveTakesOne(q.open, Best(q.open, last).value); }
      assert last in candidates && forall c :: c in before ==> c in candidates;
    }
  }

  /** What each part of the diff may hold: remaining classes are those whose key the baseline has, new and changed ones those
      whose key it lacks, resolved and taken over entries those that are missing. */
  lemma DiffHolds(r: Report, entries: seq<Entry>)
    ensures var d := DiffBaseline(r, entries);
            && (forall c :: c in d.remaining <==> c in r.classes && HasKey(entries, c.key))
            && (forall c :: c in d.added ==> c in r.classes && !HasKey(entries, c.key))
            && (forall e :: e in d.resolved ==> e in entries && Missing(e, r))
            && (forall ch :: ch in d.changed ==> ch.was in entries && Missing(ch.was, r) && ch.now in r.classes && !HasKey(entries, ch.now.key))
  {
    var known := EntryKeys(entries);
    var gone, hidden := Filter(entries, Gone(r)), Filter(r.suppressed, Unknown(known));
    var unseen := Filter(r.classes, Unknown(known));
    PairedAreGiven(gone, hidden);
    PairedAreGiven(PairChanged(gone, hidden).open, unseen);
    FilterMembers(entries, Gone(r));
    FilterMembers(r.classes, Known(known));
    FilterMembers(r.classes, Unknown(known));
    forall key ensures key in known <==> HasKey(entries, key) {}
    forall e | e in gone ensures Missing(e, r) {}
  }

  function BaselineOf(r: Report): seq<Entry> { Map(EntryOf, r.classes) }

  /** A run diffed against its own baseline changed nothing. */
  lemma DiffAgainstItself(r: Report)
    ensures DiffBaseline(r, BaselineOf(r)) == Diff([], [], r.classes, [])
  {
    var entries := BaselineOf(r);
    forall c | c in r.classes ensures c.key in EntryKeys(entries) { assert EntryOf(c) in entries; }
    FilterNone(entries, Gone(r));
    FilterNone(r.classes, Unknown(EntryKeys(entries)));
    FilterAll(r.classes, Known(EntryKeys(entries)));
    PairingConserves([], Filter(r.suppressed, Unknown(EntryKeys(entries))));
  }

  function FoundInScope(kinds: set<Name>, lane: Option<Name>): Found -> bool {
    (c: Found) => c.kind in kinds && (lane.None? || lane.value == c.lane)
  }

  /** A run that finds nothing any more resolves exactly the saved classes of the kinds and the lane it looked for. */
  lemma DiffAgainstNothing(r: Report, kinds: set<Name>, lane: Option<Name>)
    ensures var d := DiffBaseline(Report([], [], kinds, lane), BaselineOf(r));
            d == Diff(Map(EntryOf, Filter(r.classes, FoundInScope(kinds, lane))), [], [], [])
  {
    var empty := Report([], [], kinds, lane);
    FilterOfMap(EntryOf, r.classes, FoundInScope(kinds, lane), Gone(empty));
  }

  // ---- as the diff is computed ---------------------------------------------------------------

  method BestEntry(entries: seq<Entry>, c: Found) returns (best: Option<Entry>)
    ensures best == Best(entries, c)
  {
    best := None;
    var bestOverlap, i := 0, 0;
    while i < |entries|
      invariant i <= |entries| && best == Best(entries[..i], c)
      invariant bestOverlap == if best.Some? then Overlap(best.value, c) else 0
    {
      assert entries[..i + 1][..i] == entries[..i];
      if Overlap(entries[i], c) > bestOverlap {
        best, bestOverlap := Some(entries[i]), Overlap(entries[i], c);
      }
      i := i + 1;
    }
    assert entries[..|entries|] == entries;
  }

  method PairUp(entries: seq<Entry>, candidates: seq<Found>) returns (p: Pairing)
    ensures p == PairChanged(entries, candidates)
  {
    var open, unmatched, changed := entries, [], [];
    var i := 0;
    while i < |candidates|
      invariant i <= |candidates| && Pairing(open, unmatched, changed) == PairChanged(entries, candidates[..i])
    {
      assert candidates[..i + 1][..i] == candidates[..i];
      var best := BestEntry(open, candidates[i]);
      if best.None? {
        unmatched := unmatched + [candidates[i]];
      } else {
        open := Remove(open, best.value);
        changed := changed + [Changed(best.value, candidates[i])];
      }
      i := i + 1;
    }
    assert candidates[..|candidates|] == candidates;
    p := Pairing(open, unmatched, changed);
  }

  method DiffReport(r: Report, entries: seq<Entry>) returns (d: Diff)
    ensures d == DiffBaseline(r, entries)
  {
    var known := EntryKeys(entries);
    var silent := PairUp(Filter(entries, Gone(r)), Filter(r.suppressed, Unknown(known)));
    var p := PairUp(silent.open, Filter(r.classes, Unknown(known)));
    d := Diff(p.open, p.changed, Filter(r.classes, Known(known)), p.unmatched);
  }
}
