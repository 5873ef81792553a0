/** Which repository a file belongs to, walked once per directory (chunking/capsule.py, RepoRelativePaths). */
module GitRoots {
  import opened Options

  type Name = string

  /** A directory or file by its path components from the file system's root, which is the empty list. */
  type Place = seq<Name>

  function Parent(p: Place): Place { if p == [] then [] else p[..|p| - 1] }

  /** The nearest directory, from this one up, that holds a repository. */
  function Nearest(hasGit: Place -> bool, p: Place): Option<Place>
    decreases |p|
  {
    if hasGit(p) then Some(p) else if p == [] then None else Nearest(hasGit, Parent(p))
  }

  lemma {:induction false} NearestIsAbove(hasGit: Place -> bool, p: Place)
    ensures match Nearest(hasGit, p)
            case Some(r) => r <= p && hasGit(r) && forall k :: |r| < k <= |p| ==> !hasGit(p[..k])
            case None => forall k :: 0 <= k <= |p| ==> !hasGit(p[..k])
    decreases |p|
  {
    assert p[..|p|] == p;
    if !hasGit(p) && p != [] {
      var q := Parent(p);
      NearestIsAbove(hasGit, q);
      forall k | 0 <= k < |p| ensures p[..k] == q[..k] {}
    }
  }

  /** What the capsule path of a directory's files begins with. */
  function Prefix(hasGit: Place -> bool, directory: Place, fallback: Place): Place {
    match Nearest(hasGit, directory)
    case None => fallback
    case Some(r) =>
      NearestIsAbove(hasGit, directory);
      if r == [] || r[|r| - 1] == "" then fallback else [r[|r| - 1]] + directory[|r|..]
  }

  /** The capsule path of a file: its repository's name and its path inside, or a fallback outside any repository. */
  function CapsulePath(hasGit: Place -> bool, file: Place, fallback: Place): Place
    requires file != []
  {
    match Nearest(hasGit, Parent(file))
    case None => fallback
    case Some(r) =>
      NearestIsAbove(hasGit, Parent(file));
      if r == [] || r[|r| - 1] == "" then fallback else [r[|r| - 1]] + file[|r|..]
  }

  /** Only the directory matters to where a file's capsule path begins. */
  lemma CapsulePathOfFile(hasGit: Place -> bool, directory: Place, fallback: Place, name: Name)
    ensures CapsulePath(hasGit, directory + [name], fallback + [name]) == Prefix(hasGit, directory, fallback) + [name]
  {
    var file := directory + [name];
    assert Parent(file) == directory;
    match Nearest(hasGit, directory)
    case None =>
    case Some(r) =>
      NearestIsAbove(hasGit, directory);
      assert file[|r|..] == directory[|r|..] + [name];
  }

  /** In a repository whose directory has a name. */
  ghost predicate InNamedRepository(hasGit: Place -> bool, file: Place)
    requires file != []
  {
    var r := Nearest(hasGit, Parent(file));
    r.Some? && r.value != [] && r.value[|r.value| - 1] != ""
  }

  /** The path an index was asked under does not matter to a file's capsule path exactly when the file is in a named
      repository. */
  lemma IndexRootDoesNotMatter(hasGit: Place -> bool, file: Place)
    requires file != []
    ensures (forall one, other :: CapsulePath(hasGit, file, one) == CapsulePath(hasGit, file, other))
            <==> InNamedRepository(hasGit, file)
  {
    if !InNamedRepository(hasGit, file) {
      assert CapsulePath(hasGit, file, []) == [] && CapsulePath(hasGit, file, ["a"]) == ["a"];
    }
  }

  /** Within one repository of a name, capsule paths tell files apart. */
  lemma CapsulePathsTellApart(hasGit: Place -> bool, a: Place, b: Place, fallback: Place, other: Place)
    requires a != [] && b != [] && Nearest(hasGit, Parent(a)).Some? && Nearest(hasGit, Parent(a)) == Nearest(hasGit, Parent(b))
    requires var r := Nearest(hasGit, Parent(a)).value; r != [] && r[|r| - 1] != ""
    ensures CapsulePath(hasGit, a, fallback) == CapsulePath(hasGit, b, other) <==> a == b
  {
    var r := Nearest(hasGit, Parent(a)).value;
    NearestIsAbove(hasGit, Parent(a));
    NearestIsAbove(hasGit, Parent(b));
    var one, two := CapsulePath(hasGit, a, fallback), CapsulePath(hasGit, b, other);
    assert one[1..] == a[|r|..] && two[1..] == b[|r|..];
    assert a == a[..|r|] + a[|r|..] && b == b[..|r|] + b[|r|..] && a[..|r|] == r == b[..|r|];
  }

  /** One probe name decides for every file of a directory whether two trees give it the same capsule path. */
  lemma ProbeDecides(hasGit: Place -> bool, one: Place, other: Place, directory: Place, probe: Name, name: Name)
    ensures CapsulePath(hasGit, one + directory + [probe], directory + [probe])
            == CapsulePath(hasGit, other + directory + [probe], directory + [probe])
            <==>
            CapsulePath(hasGit, one + directory + [name], directory + [name])
            == CapsulePath(hasGit, other + directory + [name], directory + [name])
  {
    var a, b := Prefix(hasGit, one + directory, directory), Prefix(hasGit, other + directory, directory);
    CapsulePathOfFile(hasGit, one + directory, directory, probe);
    CapsulePathOfFile(hasGit, other + directory, directory, probe);
    CapsulePathOfFile(hasGit, one + directory, directory, name);
    CapsulePathOfFile(hasGit, other + directory, directory, name);
    SameHeads(a, b, probe);
    SameHeads(a, b, name);
  }

  lemma SameHeads(a: Place, b: Place, last: Name)
    ensures a + [last] == b + [last] <==> a == b
  {
    assert (a + [last])[..|a|] == a;
    assert (b + [last])[..|b|] == b;
  }

  class RepoRelativePaths {
    const hasGit: Place -> bool
    var roots: map<Place, Option<Place>>

    /** Every remembered answer is the walk's own. */
    ghost predicate Valid()
      reads this
    {
      forall d :: d in roots ==> roots[d] == Nearest(hasGit, d)
    }

    constructor (hasGit: Place -> bool)
      ensures Valid() && this.hasGit == hasGit && roots == map[]
    {
      this.hasGit := hasGit;
      roots := map[];
    }

    method GitRoot(directory: Place) returns (found: Option<Place>)
      requires Valid()
      modifies this`roots
      ensures Valid() && found == Nearest(hasGit, directory)
      ensures directory in roots && old(roots).Keys <= roots.Keys
    {
      var unresolved: seq<Place> := [];
      var current := directory;
      while true
        invariant Valid() && roots == old(roots)
        invariant Nearest(hasGit, directory) == Nearest(hasGit, current)
        invariant forall d :: d in unresolved ==> Nearest(hasGit, d) == Nearest(hasGit, current)
        invariant current == directory || directory in unresolved
        decreases |current|
      {
        if current in roots {
          found := roots[current];
          break;
        }
        unresolved := unresolved + [current];
        if hasGit(current) {
          found := Some(current);
          break;
        }
        if current == [] {
          found := None;
          break;
        }
        current := Parent(current);
      }
      Remember(unresolved, found);
    }

    /** Every directory the walk passed gets its answer. */
    method Remember(unresolved: seq<Place>, found: Option<Place>)
      requires Valid() && forall d :: d in unresolved ==> Nearest(hasGit, d) == found
      modifies this`roots
      ensures Valid() && old(roots).Keys <= roots.Keys && forall d :: d in unresolved ==> d in roots
    {
      var i := 0;
      while i < |unresolved|
        invariant i <= |unresolved| && Valid() && old(roots).Keys <= roots.Keys
        invariant forall k :: 0 <= k < i ==> unresolved[k] in roots
      {
        roots := roots[unresolved[i] := found];
        i := i + 1;
      }
    }

    method PathFor(file: Place, fallback: Place) returns (path: Place)
      requires Valid() && file != []
      modifies this`roots
      ensures Valid() && path == CapsulePath(hasGit, file, fallback)
    {
      var root := GitRoot(Parent(file));
      if root.None? || root.value == [] || root.value[|root.value| - 1] == "" { return fallback; }
      NearestIsAbove(hasGit, Parent(file));
      path := [root.value[|root.value| - 1]] + file[|root.value|..];
    }
  }
}
