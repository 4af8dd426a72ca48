/**
 * The spec validator: structural rules on projects and modules, at most one
 * root project, unique project names. Every violation is collected with the
 * path of the offending field (`projects[0].tree[1].name`); the spec is
 * accepted only when none is found.
 */
module Validator {
  import opened Results
  import opened Text
  import opened Models

  /** The rule a violation breaks, with the values its message quotes. */
  datatype Rule =
    | MissingNameAndFrom
    | EmptyModuleName
    | NameHasSeparator
    | FromNeedsAny(language: string)
    | FromWithTree
    | FromWithFile
    | EmptyProjectName
    | EmptyLanguage
    | UnsupportedLanguage(lang: string)
    | SeveralRoots
    | DuplicateName(name: string)

  /** One rule violation: which rule and the path of the offending field. */
  datatype ValidationError = ValidationError(rule: Rule, path: string)

  /** The message each violation is reported with. */
  function Message(rule: Rule): string {
    match rule
    case MissingNameAndFrom => "Module must have either 'name' or 'from' field"
    case EmptyModuleName => "Module name cannot be empty"
    case NameHasSeparator => "Module name cannot contain path separators"
    case FromNeedsAny(language) => "Module with 'from' field can only be used with 'lang: any' (current: " + language + ")"
    case FromWithTree => "Module with 'from' field cannot have 'tree' (git clone target cannot have subdirectories)"
    case FromWithFile => "Module with 'from' field cannot have 'file' (git clone target cannot have files)"
    case EmptyProjectName => "Project name cannot be empty"
    case EmptyLanguage => "Project language cannot be empty"
    case UnsupportedLanguage(lang) => "Unsupported language: " + lang
    case SeveralRoots => "Only one project can be marked as root"
    case DuplicateName(name) => "Duplicate project name: " + name
  }

  /** The languages a project may declare. */
  predicate IsSupportedLanguage(lang: string) {
    lang in ["rust", "go", "python", "javascript", "typescript", "any", "bash", "lua"]
  }

  function ProjectPath(i: nat): string {
    "projects[" + NatToString(i) + "]"
  }

  function TreePath(path: string, i: nat): string {
    path + ".tree[" + NatToString(i) + "]"
  }

  // ---------------------------------------------------------------------
  // The errors each rule reports, as specification functions
  // ---------------------------------------------------------------------

  /** The violations a module itself commits, before its submodules are checked. */
  function OwnModuleErrors(m: Module, path: string, language: string): seq<ValidationError> {
    var name := ModuleName(m);
    (if m.name.None? && m.from.None? then [ValidationError(MissingNameAndFrom, path)] else [])
    + (if name == "" then [ValidationError(EmptyModuleName, path + ".name")] else [])
    + (if '/' in name || '\\' in name then [ValidationError(NameHasSeparator, path + ".name")] else [])
    + (if m.from.Some? && language != "any" then [ValidationError(FromNeedsAny(language), path + ".from")] else [])
    + (if m.from.Some? && |m.tree| > 0 then [ValidationError(FromWithTree, path + ".tree")] else [])
    + (if m.from.Some? && |m.file| > 0 then [ValidationError(FromWithFile, path + ".file")] else [])
  }

  /** All violations in a module and, recursively, its submodules. */
  function ModuleErrors(m: Module, path: string, language: string): seq<ValidationError>
    decreases m, 1
  {
    OwnModuleErrors(m, path, language) + SubmoduleErrors(m.tree, path, language, |m.tree|)
  }

  /** The violations in the first `n` modules of a subtree, each at `<path>.tree[i]`. */
  function SubmoduleErrors(ms: seq<Module>, path: string, language: string, n: nat): seq<ValidationError>
    requires n <= |ms|
    decreases ms, n
  {
    if n == 0 then []
    else SubmoduleErrors(ms, path, language, n - 1) + ModuleErrors(ms[n - 1], TreePath(path, n - 1), language)
  }

  /** The violations a project itself commits (name and language). */
  function OwnProjectErrors(p: Project, path: string): seq<ValidationError> {
    (if p.name == "" then [ValidationError(EmptyProjectName, path + ".name")] else [])
    + (if p.lang == "" then [ValidationError(EmptyLanguage, path + ".lang")]
       else if !IsSupportedLanguage(p.lang) then [ValidationError(UnsupportedLanguage(p.lang), path + ".lang")]
       else [])
  }

  /** All violations in a project and its module tree. */
  function ProjectErrors(p: Project, path: string): seq<ValidationError> {
    OwnProjectErrors(p, path) + SubmoduleErrors(p.tree, path, p.lang, |p.tree|)
  }

  /** The violations of the first `n` projects, each at `projects[i]`. */
  function ProjectsErrors(projects: seq<Project>, n: nat): seq<ValidationError>
    requires n <= |projects|
  {
    if n == 0 then [] else ProjectsErrors(projects, n - 1) + ProjectErrors(projects[n - 1], ProjectPath(n - 1))
  }

  function RootCount(projects: seq<Project>): nat {
    if projects == [] then 0
    else RootCount(projects[..|projects| - 1]) + (if projects[|projects| - 1].root then 1 else 0)
  }

  /** Project `i` repeats the name of an earlier project. */
  predicate IsRepeat(projects: seq<Project>, i: nat)
    requires i < |projects|
  {
    exists j :: 0 <= j < i && projects[j].name == projects[i].name
  }

  function DuplicateError(projects: seq<Project>, i: nat): ValidationError
    requires i < |projects|
  {
    ValidationError(DuplicateName(projects[i].name), ProjectPath(i) + ".name")
  }

  /** One error per project among the first `n` that repeats an earlier name. */
  function NameErrors(projects: seq<Project>, n: nat): seq<ValidationError>
    requires n <= |projects|
  {
    if n == 0 then []
    else NameErrors(projects, n - 1) + (if IsRepeat(projects, n - 1) then [DuplicateError(projects, n - 1)] else [])
  }

  /** Every violation the validator reports, in report order. */
  function AllErrors(projects: seq<Project>): seq<ValidationError> {
    ProjectsErrors(projects, |projects|)
    + (match ValidateRootProjects(projects) case Some(e) => [e] case None => [])
    + NameErrors(projects, |projects|)
  }

  /** The message a failed validation carries: one "Validation error at <path>: <message>" line per error. */
  function FailureMessage(errors: seq<ValidationError>): string {
    "Configuration validation failed:\n" + Join(ErrorLines(errors), "\n")
  }

  function ErrorLines(errors: seq<ValidationError>): (lines: seq<string>)
    ensures |lines| == |errors|
  {
    if errors == [] then []
    else ErrorLines(errors[..|errors| - 1]) + ["Validation error at " + errors[|errors| - 1].path + ": " + Message(errors[|errors| - 1].rule)]
  }

  // ---------------------------------------------------------------------
  // The validator's operations
  // ---------------------------------------------------------------------

  /** At most one project may be root: two or more give one error at "projects". */
  function ValidateRootProjects(projects: seq<Project>): (r: Option<ValidationError>)
    ensures r.Some? <==> RootCount(projects) >= 2
    ensures r.Some? ==> r.value == ValidationError(SeveralRoots, "projects")
  {
    if RootCount(projects) >= 2 then Some(ValidationError(SeveralRoots, "projects")) else None
  }

  /** The checks on a module's own fields (name, separators, `from` restrictions), in report order. */
  method CheckModuleFields(m: Module, path: string, language: string) returns (errors: seq<ValidationError>)
    ensures errors == OwnModuleErrors(m, path, language)
  {
    errors := [];
    var name := ModuleName(m);
    if m.name.None? && m.from.None? {
      errors := errors + [ValidationError(MissingNameAndFrom, path)];
    }
    ghost var expected := (if m.name.None? && m.from.None? then [ValidationError(MissingNameAndFrom, path)] else []);
    assert errors == expected;
    if name == "" {
      errors := errors + [ValidationError(EmptyModuleName, path + ".name")];
    }
    expected := expected + (if name == "" then [ValidationError(EmptyModuleName, path + ".name")] else []);
    assert errors == expected;
    if '/' in name || '\\' in name {
      errors := errors + [ValidationError(NameHasSeparator, path + ".name")];
    }
    expected := expected + (if '/' in name || '\\' in name then [ValidationError(NameHasSeparator, path + ".name")] else []);
    assert errors == expected;
    if m.from.Some? && language != "any" {
      errors := errors + [ValidationError(FromNeedsAny(language), path + ".from")];
    }
    expected := expected + (if m.from.Some? && language != "any" then [ValidationError(FromNeedsAny(language), path + ".from")] else []);
    assert errors == expected;
    if m.from.Some? {
      if |m.tree| > 0 {
        errors := errors + [ValidationError(FromWithTree, path + ".tree")];
      }
      expected := expected + (if |m.tree| > 0 then [ValidationError(FromWithTree, path + ".tree")] else []);
      assert errors == expected;
      if |m.file| > 0 {
        errors := errors + [ValidationError(FromWithFile, path + ".file")];
      }
      expected := expected + (if |m.file| > 0 then [ValidationError(FromWithFile, path + ".file")] else []);
      assert errors == expected;
    }
  }

  /** Checks one module and its subtree; an empty result is the source's `Ok(())`. */
  method ValidateModule(m: Module, path: string, language: string) returns (errors: seq<ValidationError>)
    ensures errors == ModuleErrors(m, path, language)
    decreases m
  {
    errors := CheckModuleFields(m, path, language);
    ghost var own := errors;
    var i := 0;
    while i < |m.tree|
      invariant 0 <= i <= |m.tree|
      invariant errors == own + SubmoduleErrors(m.tree, path, language, i)
    {
      var sub := ValidateModule(m.tree[i], TreePath(path, i), language);
      AppendAssoc(own, SubmoduleErrors(m.tree, path, language, i), sub);
      errors := errors + sub;
      i := i + 1;
    }
  }

  /** Checks one project and its tree; an empty result is the source's `Ok(())`. */
  method ValidateProject(p: Project, path: string) returns (errors: seq<ValidationError>)
    ensures errors == ProjectErrors(p, path)
  {
    errors := [];
    if p.name == "" {
      errors := errors + [ValidationError(EmptyProjectName, path + ".name")];
    }
    if p.lang == "" {
      errors := errors + [ValidationError(EmptyLanguage, path + ".lang")];
    } else if !IsSupportedLanguage(p.lang) {
      errors := errors + [ValidationError(UnsupportedLanguage(p.lang), path + ".lang")];
    }
    assert errors == OwnProjectErrors(p, path);
    ghost var own := errors;
    var i := 0;
    while i < |p.tree|
      invariant 0 <= i <= |p.tree|
      invariant errors == own + SubmoduleErrors(p.tree, path, p.lang, i)
    {
      var sub := ValidateModule(p.tree[i], TreePath(path, i), p.lang);
      AppendAssoc(own, SubmoduleErrors(p.tree, path, p.lang, i), sub);
      errors := errors + sub;
      i := i + 1;
    }
  }

  /** Flags every project whose name was already seen; an empty result is the source's `Ok(())`. */
  method ValidateProjectNames(projects: seq<Project>) returns (errors: seq<ValidationError>)
    ensures errors == NameErrors(projects, |projects|)
  {
    errors := [];
    var seen: set<string> := {};
    var i := 0;
    while i < |projects|
      invariant 0 <= i <= |projects|
      invariant seen == set j | 0 <= j < i :: projects[j].name
      invariant errors == NameErrors(projects, i)
    {
      var name := projects[i].name;
      if name in seen {
        assert IsRepeat(projects, i);
        errors := errors + [ValidationError(DuplicateName(name), ProjectPath(i) + ".name")];
      } else {
        assert !IsRepeat(projects, i);
      }
      seen := seen + {name};
      i := i + 1;
    }
  }

  /** Checks every project in turn, the i-th at path `projects[i]`. */
  method ValidateEachProject(projects: seq<Project>) returns (errors: seq<ValidationError>)
    ensures errors == ProjectsErrors(projects, |projects|)
  {
    errors := [];
    var i := 0;
    while i < |projects|
      invariant 0 <= i <= |projects|
      invariant errors == ProjectsErrors(projects, i)
    {
      var projectErrors := ValidateProject(projects[i], ProjectPath(i));
      errors := errors + projectErrors;
      i := i + 1;
    }
  }

  /**
   * Validates a whole spec. An empty project list fails at once; otherwise
   * every project's violations, the root rule and the name rule are
   * collected, and the spec is accepted exactly when there are none.
   */
  method Validate(projects: seq<Project>) returns (r: Result<()>)
    ensures |projects| == 0 ==> r == Err("Configuration must contain at least one project")
    ensures |projects| > 0 ==> (r.Ok? <==> AllErrors(projects) == [])
    ensures |projects| > 0 && r.Err? ==> r.message == FailureMessage(AllErrors(projects))
  {
    if |projects| == 0 {
      return Err("Configuration must contain at least one project");
    }
    var errors := ValidateEachProject(projects);
    ghost var projectErrors := errors;
    var rootError := ValidateRootProjects(projects);
    if rootError.Some? {
      errors := errors + [rootError.value];
    }
    ghost var rootErrors := match rootError case Some(e) => [e] case None => [];
    assert errors == projectErrors + rootErrors;
    var nameErrors := ValidateProjectNames(projects);
    errors := errors + nameErrors;
    assert errors == AllErrors(projects);
    if |errors| > 0 {
      return Err(FailureMessage(errors));
    }
    return Ok(());
  }

  // ---------------------------------------------------------------------
  // The rules, stated declaratively, and their agreement with the checks
  // ---------------------------------------------------------------------

  /** A well-formed module and subtree. */
  predicate ModuleWellFormed(m: Module, language: string)
    decreases m
  {
    (m.name.Some? || m.from.Some?)
    && ModuleName(m) != ""
    && '/' !in ModuleName(m) && '\\' !in ModuleName(m)
    && (m.from.Some? ==> language == "any" && |m.tree| == 0 && |m.file| == 0)
    && ModulesWellFormed(m.tree, language, |m.tree|)
  }

  /** The first `n` modules of a subtree are well-formed. */
  predicate ModulesWellFormed(ms: seq<Module>, language: string, n: nat)
    requires n <= |ms|
    decreases ms, n
  {
    forall k :: 0 <= k < n ==> ModuleWellFormed(ms[k], language)
  }

  predicate ProjectWellFormed(p: Project) {
    p.name != "" && IsSupportedLanguage(p.lang)
    && ModulesWellFormed(p.tree, p.lang, |p.tree|)
  }

  /** The first `n` projects are well-formed. */
  predicate ProjectsWellFormed(projects: seq<Project>, n: nat)
    requires n <= |projects|
  {
    n == 0 || (ProjectsWellFormed(projects, n - 1) && ProjectWellFormed(projects[n - 1]))
  }

  /** Project names are pairwise distinct. */
  predicate DistinctNames(projects: seq<Project>) {
    forall j, k :: 0 <= j < k < |projects| ==> projects[j].name != projects[k].name
  }

  /** A valid spec: non-empty, every project well-formed, at most one root, distinct names. */
  predicate ConfigWellFormed(projects: seq<Project>) {
    |projects| > 0
    && ProjectsWellFormed(projects, |projects|)
    && RootCount(projects) <= 1
    && DistinctNames(projects)
  }

  /** A module reports no violation exactly when it and its whole subtree are well-formed. */
  lemma {:induction false} ModuleErrorsEmptyIff(m: Module, path: string, language: string)
    ensures ModuleErrors(m, path, language) == [] <==> ModuleWellFormed(m, language)
    decreases m, 1
  {
    SubmoduleErrorsEmptyIff(m.tree, path, language, |m.tree|);
  }

  lemma {:induction false} SubmoduleErrorsEmptyIff(ms: seq<Module>, path: string, language: string, n: nat)
    requires n <= |ms|
    ensures SubmoduleErrors(ms, path, language, n) == [] <==> ModulesWellFormed(ms, language, n)
    decreases ms, n
  {
    if n > 0 {
      var last := ModuleErrors(ms[n - 1], TreePath(path, n - 1), language);
      assert SubmoduleErrors(ms, path, language, n) == [] <==> SubmoduleErrors(ms, path, language, n - 1) == [] && last == [] by {
        assert SubmoduleErrors(ms, path, language, n) == SubmoduleErrors(ms, path, language, n - 1) + last;
      }
      SubmoduleErrorsEmptyIff(ms, path, language, n - 1);
      ModuleErrorsEmptyIff(ms[n - 1], TreePath(path, n - 1), language);
      ModulesWellFormedSnoc(ms, language, n);
    }
  }

  lemma ModulesWellFormedSnoc(ms: seq<Module>, language: string, n: nat)
    requires 0 < n <= |ms|
    ensures ModulesWellFormed(ms, language, n) <==> ModulesWellFormed(ms, language, n - 1) && ModuleWellFormed(ms[n - 1], language)
  {
  }

  /** A project reports no violation exactly when it is well-formed. */
  lemma ProjectErrorsEmptyIff(p: Project, path: string)
    ensures ProjectErrors(p, path) == [] <==> ProjectWellFormed(p)
  {
    SubmoduleErrorsEmptyIff(p.tree, path, p.lang, |p.tree|);
  }

  lemma {:induction false} ProjectsErrorsEmptyIff(projects: seq<Project>, n: nat)
    requires n <= |projects|
    ensures ProjectsErrors(projects, n) == [] <==> ProjectsWellFormed(projects, n)
  {
    if n > 0 {
      var last := ProjectErrors(projects[n - 1], ProjectPath(n - 1));
      assert ProjectsErrors(projects, n) == [] <==> ProjectsErrors(projects, n - 1) == [] && last == [] by {
        assert ProjectsErrors(projects, n) == ProjectsErrors(projects, n - 1) + last;
      }
      assert last == [] <==> ProjectWellFormed(projects[n - 1]) by {
        ProjectErrorsEmptyIff(projects[n - 1], ProjectPath(n - 1));
      }
      ProjectsErrorsEmptyIff(projects, n - 1);
    }
  }

  /** No duplicate-name error is reported exactly when the names are pairwise distinct. */
  lemma {:induction false} NameErrorsEmptyIff(projects: seq<Project>, n: nat)
    requires n <= |projects|
    ensures NameErrors(projects, n) == [] <==> DistinctNames(projects[..n])
  {
    if n > 0 {
      NameErrorsEmptyIff(projects, n - 1);
      var pre := projects[..n - 1];
      assert forall k :: 0 <= k < n - 1 ==> projects[..n][k] == pre[k];
      if IsRepeat(projects, n - 1) {
        var j :| 0 <= j < n - 1 && projects[j].name == projects[n - 1].name;
        assert projects[..n][j].name == projects[..n][n - 1].name;
      }
    }
  }

  /** The spec is accepted exactly when it is well-formed. */
  lemma AcceptedIffWellFormed(projects: seq<Project>)
    requires |projects| > 0
    ensures AllErrors(projects) == [] <==> ConfigWellFormed(projects)
  {
    ProjectsErrorsEmptyIff(projects, |projects|);
    NameErrorsEmptyIff(projects, |projects|);
    assert projects[..|projects|] == projects;
  }

  /** Each error of a module's check lies at the module's path or below it. */
  lemma {:induction false} ModuleErrorPaths(m: Module, path: string, language: string)
    ensures forall e :: e in ModuleErrors(m, path, language) ==> StartsWith(e.path, path)
    decreases m, 1
  {
    SubmoduleErrorPaths(m.tree, path, language, |m.tree|);
    var own := OwnModuleErrors(m, path, language);
    forall e | e in own ensures StartsWith(e.path, path) {
      StartsWithAppend(path, ".name");
      StartsWithAppend(path, ".from");
      StartsWithAppend(path, ".tree");
      StartsWithAppend(path, ".file");
      assert StartsWith(path, path) by { StartsWithAppend(path, ""); assert path + "" == path; }
    }
  }

  lemma {:induction false} SubmoduleErrorPaths(ms: seq<Module>, path: string, language: string, n: nat)
    requires n <= |ms|
    ensures forall e :: e in SubmoduleErrors(ms, path, language, n) ==> StartsWith(e.path, path)
    decreases ms, n
  {
    if n > 0 {
      SubmoduleErrorPaths(ms, path, language, n - 1);
      var sub := TreePath(path, n - 1);
      ModuleErrorPaths(ms[n - 1], sub, language);
      StartsWithAppend(path, ".tree[" + NatToString(n - 1) + "]");
      assert sub == path + (".tree[" + NatToString(n - 1) + "]");
      forall e | e in ModuleErrors(ms[n - 1], sub, language) ensures StartsWith(e.path, path) {
        StartsWithTrans(e.path, sub, path);
      }
    }
  }

  /** Every project that repeats an earlier name is reported, and every reported name error is such a repeat. */
  lemma {:induction false} NameErrorsExact(projects: seq<Project>, n: nat)
    requires n <= |projects|
    ensures forall i :: 0 <= i < n && IsRepeat(projects, i) ==> DuplicateError(projects, i) in NameErrors(projects, n)
    ensures forall e :: e in NameErrors(projects, n) ==> exists i :: 0 <= i < n && IsRepeat(projects, i) && e == DuplicateError(projects, i)
  {
    if n > 0 {
      NameErrorsExact(projects, n - 1);
    }
  }

  lemma ProjectPathInjective(i: nat, j: nat)
    requires ProjectPath(i) + ".name" == ProjectPath(j) + ".name"
    ensures i == j
  {
    var a, b := ProjectPath(i), ProjectPath(j);
    assert |a| == |b|;
    assert a == (a + ".name")[..|a|];
    assert b == (b + ".name")[..|b|];
    assert NatToString(i) == a[9..|a| - 1];
    assert NatToString(j) == b[9..|b| - 1];
    NatToStringInjective(i, j);
  }

  /** The first project to carry a name is never reported as a duplicate. */
  lemma FirstOccurrenceNotFlagged(projects: seq<Project>, i: nat)
    requires i < |projects| && !IsRepeat(projects, i)
    ensures DuplicateError(projects, i) !in NameErrors(projects, |projects|)
  {
    NameErrorsExact(projects, |projects|);
    if DuplicateError(projects, i) in NameErrors(projects, |projects|) {
      var i' :| 0 <= i' < |projects| && IsRepeat(projects, i') && DuplicateError(projects, i') == DuplicateError(projects, i);
      ProjectPathInjective(i', i);
      assert false;
    }
  }
}
