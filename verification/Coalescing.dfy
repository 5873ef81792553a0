/** Coalesced change sets (daemon/server.py, _merge_changes; daemon/graph_jobs.py, _start). */
module Coalescing {
  import opened Options

  /** A file below the root. */
  type File = nat

  /** A change set; everything stands for a full rescan. */
  datatype Changes = Everything | Paths(files: set<File>)

  const MAX_CHANGED_PATHS := 4096

  /** The union of two change sets, widened to everything when it outgrows the cap or either side is everything. */
  function Merged(pending: Option<Changes>, more: Changes): Changes {
    var held := if pending.Some? then pending.value else Paths({});
    if held.Everything? || more.Everything? then Everything
    else
      var files := held.files + more.files;
      if |files| > MAX_CHANGED_PATHS then Everything else Paths(files)
  }

  // ---- what a caller wants -----------------------------------------------------

  /** One file rescanned, or the whole tree. */
  datatype Want = OneFile(file: File) | WholeTree

  predicate Gives(c: Changes, w: Want) {
    match w
    case WholeTree => c.Everything?
    case OneFile(f) => c.Everything? || f in c.files
  }

  predicate Holds(pending: Option<Changes>, w: Want) { pending.Some? && Gives(pending.value, w) }

  /** Coalescing loses nothing, in either argument, and adds nothing but by widening to everything. */
  lemma MergedGives(pending: Option<Changes>, more: Changes, w: Want)
    ensures Holds(pending, w) || Gives(more, w) ==> Gives(Merged(pending, more), w)
    ensures Merged(pending, more).Paths? && Gives(Merged(pending, more), w) ==> Holds(pending, w) || Gives(more, w)
  {}

  /** A held set stays bounded, and is widened only when what it must hold is not. */
  lemma MergedIsBounded(pending: Option<Changes>, more: Changes)
    ensures Merged(pending, more).Paths? ==> |Merged(pending, more).files| <= 4096
    ensures Merged(pending, more).Everything? && pending != Some(Everything) && more.Paths? ==>
              forall files: set<File> :: (forall f :: Holds(pending, OneFile(f)) || f in more.files ==> f in files)
                ==> |files| > 4096
  {
    if Merged(pending, more).Everything? && pending != Some(Everything) && more.Paths? {
      var held := if pending.Some? then pending.value.files else {};
      forall files: set<File> | forall f :: Holds(pending, OneFile(f)) || f in more.files ==> f in files
        ensures |files| > MAX_CHANGED_PATHS
      {
        Larger(held + more.files, files);
      }
    }
  }

  lemma {:induction false} Larger(small: set<File>, big: set<File>)
    requires forall f :: f in small ==> f in big
    ensures |small| <= |big|
  {
    if small != {} {
      var f :| f in small;
      Larger(small - {f}, big - {f});
    }
  }

  predicate Wants(asked: Changes, w: Want) {
    match w
    case WholeTree => asked.Everything?
    case OneFile(f) => asked.Paths? && f in asked.files
  }
}
