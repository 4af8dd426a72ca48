/**
 * The filesystem scanner behind `load`: of the paths a directory walk yields,
 * it reports those the spec does not already manage, directories first and
 * each group in display-path order. The walk itself (ignore rules, hidden
 * files) is an input here: a sequence of raw walk results.
 */
module FilesystemScanner {
  import opened Results
  import opened Text
  import opened Models
  import opened PathCollector

  /** One raw result of the walk: a path as the walker prints it ("./src/x.rs") and whether it is a directory. */
  datatype WalkEntry = WalkEntry(path: string, isDir: bool)

  /** A path found on disk that the spec does not manage. */
  datatype UnmanagedEntry = UnmanagedEntry(displayPath: string, relativePath: string, isDirectory: bool)

  /** Files that the generators maintain themselves. */
  const ManagedFiles: seq<string> := ["mod.rs", "__init__.py", "index.ts", "index.js"]

  /** Configuration and lock files that are never load candidates. */
  const ExcludedFiles: seq<string> := [
    "moli.yml", "Cargo.toml", "Cargo.lock", "package.json", "package-lock.json", "yarn.lock",
    "pnpm-lock.yaml", "go.mod", "go.sum", "pyproject.toml", "setup.py", "setup.cfg",
    ".gitignore", ".gitattributes"]

  /** Directories that are never load candidates. */
  const ExcludedDirs: seq<string> := [".git", "node_modules", "target", "__pycache__", ".venv", "venv"]

  /** The extensions the spec may leave out of a file name. */
  const StandardExtensions: seq<string> := [".rs", ".go", ".py", ".ts", ".js"]

  /** The walk path with a leading "./" removed. */
  function RelativePath(path: string): string {
    if StartsWith(path, "./") then path[2..] else path
  }

  /** The last component of a relative path: what follows its last '/', or all of it. */
  function FileName(relative: string): string
    decreases |relative|
  {
    if relative == [] || relative[|relative| - 1] == '/' then []
    else FileName(relative[..|relative| - 1]) + [relative[|relative| - 1]]
  }

  /** The file name is a suffix of the path that holds no '/', and it is all of the path exactly when the path holds no '/'. */
  lemma {:induction false} FileNameSpec(relative: string)
    ensures EndsWith(relative, FileName(relative)) && '/' !in FileName(relative)
    ensures FileName(relative) == relative <==> '/' !in relative
    decreases |relative|
  {
    if relative != [] && relative[|relative| - 1] != '/' {
      var init := relative[..|relative| - 1];
      FileNameSpec(init);
      assert relative == init + [relative[|relative| - 1]];
      assert '/' in relative <==> '/' in init;
    }
  }

  /** Directories are displayed with a trailing '/', files as they are. */
  function DisplayPath(relative: string, isDir: bool): string {
    if isDir then relative + "/" else relative
  }

  /** The display paths the spec manages. */
  function ManagedPaths(managed: seq<ManagedFile>): set<string> {
    set e | e in managed :: e.displayPath
  }

  /**
   * What the scan reports for one walk entry: nothing for the walk root, an
   * excluded directory, an excluded or generator-maintained file name, or a
   * managed display path; otherwise the entry.
   */
  function Admit(e: WalkEntry, managedPaths: set<string>): Option<UnmanagedEntry> {
    if e.path == "." then None
    else
      var relative := RelativePath(e.path);
      var name := FileName(relative);
      if e.isDir && name in ExcludedDirs then None
      else if name in ExcludedFiles || name in ManagedFiles then None
      else
        var display := DisplayPath(relative, e.isDir);
        if display in managedPaths then None
        else Some(UnmanagedEntry(display, relative, e.isDir))
  }

  /** The admitted entries among the first `n` walk results, in walk order (failed walk results contribute nothing). */
  function AdmittedUpTo(walk: seq<Result<WalkEntry>>, n: nat, managedPaths: set<string>): seq<UnmanagedEntry>
    requires n <= |walk|
  {
    if n == 0 then []
    else
      var last := walk[n - 1];
      AdmittedUpTo(walk, n - 1, managedPaths)
        + (if last.Ok? && Admit(last.value, managedPaths).Some? then [Admit(last.value, managedPaths).value] else [])
  }

  /** The admitted entries of a whole walk. */
  function Admitted(walk: seq<Result<WalkEntry>>, managedPaths: set<string>): seq<UnmanagedEntry> {
    AdmittedUpTo(walk, |walk|, managedPaths)
  }

  /** The scan's order: directories before files, then display paths in lexicographic order. */
  predicate EntryLe(a: UnmanagedEntry, b: UnmanagedEntry) {
    if a.isDirectory != b.isDirectory then a.isDirectory else StrLe(a.displayPath, b.displayPath)
  }

  predicate SortedEntries(s: seq<UnmanagedEntry>) {
    forall i, j :: 0 <= i < j < |s| ==> EntryLe(s[i], s[j])
  }

  lemma EntryLeTotal(a: UnmanagedEntry, b: UnmanagedEntry)
    ensures EntryLe(a, b) || EntryLe(b, a)
  {
    StrLeTotal(a.displayPath, b.displayPath);
  }

  lemma EntryLeTrans(a: UnmanagedEntry, b: UnmanagedEntry, c: UnmanagedEntry)
    requires EntryLe(a, b) && EntryLe(b, c)
    ensures EntryLe(a, c)
  {
    if a.isDirectory == b.isDirectory == c.isDirectory {
      StrLeTrans(a.displayPath, b.displayPath, c.displayPath);
    }
  }

  /** `x` placed into a sequence before the first element it does not follow. */
  function Insert(x: UnmanagedEntry, s: seq<UnmanagedEntry>): seq<UnmanagedEntry> {
    if s == [] then [x]
    else if EntryLe(x, s[0]) then [x] + s
    else [s[0]] + Insert(x, s[1..])
  }

  /** Insertion adds `x` and keeps every other element. */
  lemma {:induction false} InsertPermutes(x: UnmanagedEntry, s: seq<UnmanagedEntry>)
    ensures multiset(Insert(x, s)) == multiset(s) + multiset{x}
  {
    if s != [] && !EntryLe(x, s[0]) {
      InsertPermutes(x, s[1..]);
      assert s == [s[0]] + s[1..];
    }
  }

  /** Insertion into a sorted sequence gives a sorted sequence. */
  lemma {:induction false} InsertSorted(x: UnmanagedEntry, s: seq<UnmanagedEntry>)
    requires SortedEntries(s)
    ensures SortedEntries(Insert(x, s))
  {
    if s == [] {
    } else if EntryLe(x, s[0]) {
      forall k | 0 < k < |s| ensures EntryLe(x, s[k]) {
        EntryLeTrans(x, s[0], s[k]);
      }
    } else {
      EntryLeTotal(x, s[0]);
      var tail := s[1..];
      assert SortedEntries(tail) by {
        forall i, j | 0 <= i < j < |tail| ensures EntryLe(tail[i], tail[j]) {
          assert tail[i] == s[i + 1] && tail[j] == s[j + 1];
        }
      }
      InsertSorted(x, tail);
      InsertPermutes(x, tail);
      var rest := Insert(x, tail);
      forall k | 0 <= k < |rest| ensures EntryLe(s[0], rest[k]) {
        assert rest[k] in multiset(rest);
        if rest[k] != x {
          assert rest[k] in multiset(tail);
          var m :| 0 <= m < |tail| && tail[m] == rest[k];
          assert s[m + 1] == rest[k];
        }
      }
      var r := [s[0]] + rest;
      assert forall k :: 0 < k < |r| ==> r[k] == rest[k - 1];
    }
  }

  /**
   * The entries in the scan's order: the comparator "directories first, then
   * by display path" applied by a library sort, modelled by insertion.
   */
  function SortEntries(s: seq<UnmanagedEntry>): (r: seq<UnmanagedEntry>)
    ensures SortedEntries(r)
    ensures multiset(r) == multiset(s)
  {
    if s == [] then []
    else
      var init := s[..|s| - 1];
      var sorted := SortEntries(init);
      InsertSorted(s[|s| - 1], sorted);
      InsertPermutes(s[|s| - 1], sorted);
      assert s == init + [s[|s| - 1]];
      Insert(s[|s| - 1], sorted)
  }

  /**
   * `strip_standard_extension`: the path without the first standard
   * extension it ends with, or `None` when it ends with none of them.
   */
  method StripStandardExtension(path: string) returns (r: Option<string>)
    ensures r.None? <==> forall k :: 0 <= k < |StandardExtensions| ==> !EndsWith(path, StandardExtensions[k])
    ensures r.Some? ==> exists k :: 0 <= k < |StandardExtensions| && EndsWith(path, StandardExtensions[k])
                          && r.value + StandardExtensions[k] == path
  {
    var k := 0;
    while k < |StandardExtensions|
      invariant 0 <= k <= |StandardExtensions|
      invariant forall j :: 0 <= j < k ==> !EndsWith(path, StandardExtensions[j])
    {
      var ext := StandardExtensions[k];
      if EndsWith(path, ext) {
        assert path[..|path| - |ext|] + ext == path;
        return Some(path[..|path| - |ext|]);
      }
      k := k + 1;
    }
    return None;
  }

  /** The extension a language gives a file name on disk that the spec may leave out. */
  function StandardExtensionFor(language: string): (ext: Option<string>)
    ensures ext.Some? <==> language in ["rust", "go", "python", "typescript", "javascript"]
    ensures ext.Some? ==> ext.value in StandardExtensions
  {
    match language
    case "rust" => Some(".rs")
    case "go" => Some(".go")
    case "python" => Some(".py")
    case "typescript" => Some(".ts")
    case "javascript" => Some(".js")
    case _ => None
  }

  /** `filename_without_standard_extension`: the name a file on disk gets in the spec. */
  function FilenameWithoutStandardExtension(filename: string, language: string): (r: string)
    ensures StandardExtensionFor(language).None? ==> r == filename
    ensures StandardExtensionFor(language).Some? ==>
              var ext := StandardExtensionFor(language).value;
              (EndsWith(filename, ext) ==> r + ext == filename) && (!EndsWith(filename, ext) ==> r == filename)
  {
    match StandardExtensionFor(language)
    case None => filename
    case Some(ext) =>
      if EndsWith(filename, ext) then
        assert filename[..|filename| - |ext|] + ext == filename;
        filename[..|filename| - |ext|]
      else filename
  }

  /**
   * The body of the scan loop for one walk entry: each `continue` of the
   * source is a `None` here, and a reported entry is `Some`.
   */
  method ClassifyEntry(entry: WalkEntry, managedEntries: seq<ManagedFile>, managedPaths: set<string>)
    returns (admitted: Option<UnmanagedEntry>)
    requires managedPaths == ManagedPaths(managedEntries)
    ensures admitted == Admit(entry, managedPaths)
  {
    if entry.path == "." {
      return None;
    }
    var relative := RelativePath(entry.path);
    var name := FileName(relative);
    if entry.isDir && name in ExcludedDirs {
      return None;
    }
    if name in ExcludedFiles || name in ManagedFiles {
      return None;
    }
    var display := DisplayPath(relative, entry.isDir);
    if display in managedPaths {
      return None;
    }
    if !entry.isDir {
      var stem := StripStandardExtension(relative);
      if stem.Some? {
        var stemManaged := exists e :: e in managedEntries && !e.isDirectory && e.displayPath == display;
        StemCheckRedundant(managedEntries, display);
        if stemManaged {
          return None;
        }
      }
    }
    return Some(UnmanagedEntry(display, relative, entry.isDir));
  }

  /** The message a failed walk result gives. */
  const WalkFailure := "Failed to read directory entry"

  /** One turn of the scan loop: the walk result at `i` fails the scan, or is classified and appended when admitted. */
  method ScanStep(walk: seq<Result<WalkEntry>>, i: nat, entries: seq<UnmanagedEntry>,
                  managedEntries: seq<ManagedFile>, managedPaths: set<string>)
    returns (next: Result<seq<UnmanagedEntry>>)
    requires managedPaths == ManagedPaths(managedEntries)
    requires i < |walk| && entries == AdmittedUpTo(walk, i, managedPaths)
    ensures next.Err? <==> walk[i].Err?
    ensures next.Err? ==> next.message == WalkFailure
    ensures next.Ok? ==> next.value == AdmittedUpTo(walk, i + 1, managedPaths)
  {
    if walk[i].Err? {
      return Err(WalkFailure);
    }
    var admitted := ClassifyEntry(walk[i].value, managedEntries, managedPaths);
    if admitted.Some? {
      return Ok(entries + [admitted.value]);
    }
    return Ok(entries);
  }

  /** None of the first `n` walk results failed. */
  predicate OkPrefix(walk: seq<Result<WalkEntry>>, n: nat)
    requires n <= |walk|
  {
    n == 0 || (OkPrefix(walk, n - 1) && walk[n - 1].Ok?)
  }

  /** `OkPrefix` is the quantified statement it abbreviates. */
  lemma {:induction false} OkPrefixAll(walk: seq<Result<WalkEntry>>, n: nat)
    requires n <= |walk| && OkPrefix(walk, n)
    ensures forall k :: 0 <= k < n ==> walk[k].Ok?
  {
    if n > 0 {
      OkPrefixAll(walk, n - 1);
    }
  }

  /** The scan loop: the admitted walk entries in walk order, or the first walk failure. */
  method FilterWalk(walk: seq<Result<WalkEntry>>, managedEntries: seq<ManagedFile>, managedPaths: set<string>)
    returns (r: Result<seq<UnmanagedEntry>>)
    requires managedPaths == ManagedPaths(managedEntries)
    ensures r.Err? <==> exists k :: 0 <= k < |walk| && walk[k].Err?
    ensures r.Err? ==> r.message == WalkFailure
    ensures r.Ok? ==> r.value == Admitted(walk, managedPaths)
  {
    var entries: seq<UnmanagedEntry> := [];
    var i := 0;
    while i < |walk|
      invariant 0 <= i <= |walk|
      invariant OkPrefix(walk, i)
      invariant entries == AdmittedUpTo(walk, i, managedPaths)
    {
      var next := ScanStep(walk, i, entries, managedEntries, managedPaths);
      if next.Err? {
        return next;
      }
      entries := next.value;
      i := i + 1;
    }
    OkPrefixAll(walk, i);
    return Ok(entries);
  }

  /**
   * `scan`: the walk's entries that the spec does not manage, directories
   * first, each group sorted by display path. A failed walk result fails the
   * scan.
   */
  method Scan(projects: seq<Project>, walk: seq<Result<WalkEntry>>) returns (r: Result<seq<UnmanagedEntry>>)
    ensures r.Err? <==> exists k :: 0 <= k < |walk| && walk[k].Err?
    ensures r.Err? ==> r.message == WalkFailure
    ensures r.Ok? ==> SortedEntries(r.value)
                      && multiset(r.value) == multiset(Admitted(walk, ManagedPaths(AllEntries(projects))))
  {
    var managedEntries := CollectAllEntries(projects);
    var managedPaths := set e | e in managedEntries :: e.displayPath;
    var entries := FilterWalk(walk, managedEntries, managedPaths);
    if entries.Err? {
      return entries;
    }
    return Ok(SortEntries(entries.value));
  }

  /**
   * The second, stem-based managed check can never fire: a managed file
   * whose display path equals this one would already have put it among the
   * managed paths.
   */
  lemma StemCheckRedundant(managed: seq<ManagedFile>, display: string)
    requires display !in ManagedPaths(managed)
    ensures !exists e :: e in managed && !e.isDirectory && e.displayPath == display
  {
  }

  /** An admitted entry is one the scan may report: never excluded, never managed, a directory displayed with a trailing '/'. */
  lemma AdmitSpec(e: WalkEntry, managedPaths: set<string>)
    requires Admit(e, managedPaths).Some?
    ensures var u := Admit(e, managedPaths).value;
            var name := FileName(u.relativePath);
            e.path != "."
            && u.relativePath == RelativePath(e.path)
            && u.isDirectory == e.isDir
            && name !in ExcludedFiles && name !in ManagedFiles
            && (u.isDirectory ==> name !in ExcludedDirs)
            && (u.isDirectory ==> u.displayPath == u.relativePath + "/")
            && (!u.isDirectory ==> u.displayPath == u.relativePath)
            && u.displayPath !in managedPaths
  {
  }

  /** Everything reported comes from an admitted walk entry, and every admitted walk entry is reported. */
  lemma AdmittedMembers(walk: seq<Result<WalkEntry>>, n: nat, managedPaths: set<string>)
    requires n <= |walk|
    ensures forall u :: u in AdmittedUpTo(walk, n, managedPaths) <==>
              exists k :: 0 <= k < n && walk[k].Ok? && Admit(walk[k].value, managedPaths) == Some(u)
  {
    forall u | u in AdmittedUpTo(walk, n, managedPaths)
      ensures exists k :: 0 <= k < n && walk[k].Ok? && Admit(walk[k].value, managedPaths) == Some(u)
    {
      var k := ReportedIsAdmitted(walk, n, managedPaths, u);
    }
    forall u, k | 0 <= k < n && walk[k].Ok? && Admit(walk[k].value, managedPaths) == Some(u)
      ensures u in AdmittedUpTo(walk, n, managedPaths)
    {
      AdmittedIsReported(walk, n, managedPaths, k, u);
    }
  }

  /** A reported entry is the verdict on some walk result before `n`. */
  lemma {:induction false} ReportedIsAdmitted(walk: seq<Result<WalkEntry>>, n: nat, managedPaths: set<string>, u: UnmanagedEntry)
    returns (k: nat)
    requires n <= |walk| && u in AdmittedUpTo(walk, n, managedPaths)
    ensures k < n && walk[k].Ok? && Admit(walk[k].value, managedPaths) == Some(u)
  {
    var prev := AdmittedUpTo(walk, n - 1, managedPaths);
    if u in prev {
      k := ReportedIsAdmitted(walk, n - 1, managedPaths, u);
    } else {
      k := n - 1;
    }
  }

  /** The verdict on a walk result before `n`, when it admits, is reported. */
  lemma {:induction false} AdmittedIsReported(walk: seq<Result<WalkEntry>>, n: nat, managedPaths: set<string>, k: nat, u: UnmanagedEntry)
    requires k < n <= |walk| && walk[k].Ok? && Admit(walk[k].value, managedPaths) == Some(u)
    ensures u in AdmittedUpTo(walk, n, managedPaths)
  {
    var prev := AdmittedUpTo(walk, n - 1, managedPaths);
    if k < n - 1 {
      AdmittedIsReported(walk, n - 1, managedPaths, k, u);
      assert u in prev;
    } else {
      assert AdmittedUpTo(walk, n, managedPaths) == prev + [u];
    }
  }

  /**
   * Scanning with a standard extension left out of the spec: a file named
   * without '.' in the spec, once given its language's extension on disk,
   * is the spec name again after the extension is removed.
   */
  lemma ExtensionRoundTrip(f: CodeFile, language: string)
    requires '.' !in f.name
    requires language in ["rust", "go", "python", "typescript", "javascript"]
    ensures FilenameWithoutStandardExtension(FilenameWithExtension(f, language), language) == f.name
  {
    FilenameWithExtensionSpec(f, language);
    var full := FilenameWithExtension(f, language);
    var ext := StandardExtensionFor(language).value;
    assert full == f.name + ext;
    assert EndsWith(full, ext);
  }
}
