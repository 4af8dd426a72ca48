/**
 * The removal filter of `sync`: when a managed directory is about to be
 * removed from the spec, its children go with it, so only entries with no
 * removed ancestor directory need their own removal.
 */
module SyncFilter {
  import opened Text
  import opened PathCollector

  /** The display paths of the directories among `entries`. */
  function DirPaths(entries: seq<ManagedFile>): set<string> {
    set e | e in entries && e.isDirectory :: e.displayPath
  }

  /** Some directory in `dirs` other than the entry's own path is a string prefix of its display path. */
  predicate HasRemovedAncestor(e: ManagedFile, dirs: set<string>) {
    exists dir :: dir in dirs && e.displayPath != dir && StartsWith(e.displayPath, dir)
  }

  /** The entries, in order, that have no removed ancestor in `dirs`. */
  function KeepTopmost(entries: seq<ManagedFile>, dirs: set<string>): (r: seq<ManagedFile>)
    ensures IsSubsequence(r, entries)
    ensures forall x :: x in r <==> x in entries && !HasRemovedAncestor(x, dirs)
    ensures forall x :: multiset(r)[x] == if HasRemovedAncestor(x, dirs) then 0 else multiset(entries)[x]
  {
    if entries == [] then []
    else
      var rest := KeepTopmost(entries[1..], dirs);
      assert forall x :: x in entries <==> x == entries[0] || x in entries[1..];
      HeadTail(entries);
      if HasRemovedAncestor(entries[0], dirs) then
        SubsequenceOfSuffix(rest, [entries[0]], entries[1..]);
        rest
      else
        assert ([entries[0]] + rest)[1..] == rest;
        [entries[0]] + rest
  }

  /** `filter_redundant_removals`: the entries whose removal is not already implied by removing a directory above them. */
  function FilterRedundantRemovals(entries: seq<ManagedFile>): seq<ManagedFile> {
    KeepTopmost(entries, DirPaths(entries))
  }

  /**
   * The filter keeps entries in their order, and keeps an entry exactly when
   * no other directory being removed is a prefix of its display path. An
   * entry is never dropped because of its own path.
   */
  lemma FilterSpec(entries: seq<ManagedFile>)
    ensures IsSubsequence(FilterRedundantRemovals(entries), entries)
    ensures forall x :: x in FilterRedundantRemovals(entries) <==>
              x in entries
              && !exists d :: d in entries && d.isDirectory && d.displayPath != x.displayPath && StartsWith(x.displayPath, d.displayPath)
    ensures forall x :: multiset(FilterRedundantRemovals(entries))[x] ==
              if exists d :: d in entries && d.isDirectory && d.displayPath != x.displayPath && StartsWith(x.displayPath, d.displayPath)
              then 0 else multiset(entries)[x]
  {
    var dirs := DirPaths(entries);
    forall x | x in entries
      ensures HasRemovedAncestor(x, dirs) <==>
              exists d :: d in entries && d.isDirectory && d.displayPath != x.displayPath && StartsWith(x.displayPath, d.displayPath)
    {
      if HasRemovedAncestor(x, dirs) {
        var dir :| dir in dirs && x.displayPath != dir && StartsWith(x.displayPath, dir);
        var d :| d in entries && d.isDirectory && d.displayPath == dir;
      }
    }
  }

  /** Without directories among the entries, nothing is filtered out. */
  lemma NoDirectoriesKeepsAll(entries: seq<ManagedFile>)
    requires forall k :: 0 <= k < |entries| ==> !entries[k].isDirectory
    ensures FilterRedundantRemovals(entries) == entries
  {
    assert forall e :: e in entries ==> !e.isDirectory;
    assert DirPaths(entries) == {};
    KeepAllWithoutAncestors(entries, {});
  }

  /** Entries none of which has an ancestor in `dirs` are all kept. */
  lemma {:induction false} KeepAllWithoutAncestors(entries: seq<ManagedFile>, dirs: set<string>)
    requires forall x :: x in entries ==> !HasRemovedAncestor(x, dirs)
    ensures KeepTopmost(entries, dirs) == entries
  {
    if entries != [] {
      assert entries[0] in entries;
      assert forall x :: x in entries[1..] ==> x in entries;
      KeepAllWithoutAncestors(entries[1..], dirs);
      assert [entries[0]] + entries[1..] == entries;
    }
  }

  /** Filtering the filtered entries again changes nothing. */
  lemma FilterIdempotent(entries: seq<ManagedFile>)
    ensures FilterRedundantRemovals(FilterRedundantRemovals(entries)) == FilterRedundantRemovals(entries)
  {
    var r := FilterRedundantRemovals(entries);
    var dirs := DirPaths(entries);
    assert DirPaths(r) <= dirs;
    forall x | x in r ensures !HasRemovedAncestor(x, DirPaths(r)) {
      assert !HasRemovedAncestor(x, dirs);
    }
    KeepAllWithoutAncestors(r, DirPaths(r));
  }

  /**
   * Every dropped entry lies under a directory that is kept: removing the
   * kept entries removes everything that was dropped.
   */
  lemma DroppedUnderKeptDirectory(entries: seq<ManagedFile>, x: ManagedFile)
    requires x in entries && x !in FilterRedundantRemovals(entries)
    ensures exists y :: y in FilterRedundantRemovals(entries) && y.isDirectory
                        && y.displayPath != x.displayPath && StartsWith(x.displayPath, y.displayPath)
  {
    var dirs := DirPaths(entries);
    var dir :| dir in dirs && x.displayPath != dir && StartsWith(x.displayPath, dir);
    var d :| d in entries && d.isDirectory && d.displayPath == dir;
    TopmostAbove(entries, x.displayPath, d);
  }

  /** Walking up from a removed directory `d` above `path` reaches a kept directory above `path`. */
  lemma {:induction false} TopmostAbove(entries: seq<ManagedFile>, path: string, d: ManagedFile)
    requires d in entries && d.isDirectory && d.displayPath != path && StartsWith(path, d.displayPath)
    ensures exists y :: y in FilterRedundantRemovals(entries) && y.isDirectory
                        && y.displayPath != path && StartsWith(path, y.displayPath)
    decreases |d.displayPath|
  {
    var dirs := DirPaths(entries);
    if HasRemovedAncestor(d, dirs) {
      var dir :| dir in dirs && d.displayPath != dir && StartsWith(d.displayPath, dir);
      var d2 :| d2 in entries && d2.isDirectory && d2.displayPath == dir;
      StartsWithTrans(path, d.displayPath, dir);
      assert d.displayPath[..|dir|] == dir;
      assert |dir| < |d.displayPath|;
      TopmostAbove(entries, path, d2);
    } else {
      assert d in FilterRedundantRemovals(entries);
    }
  }
}
