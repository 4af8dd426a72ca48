# moli core, modelled in Dafny

`moli` keeps a source tree in step with a YAML spec, `moli.yml`. The spec
lists projects, each with a language, project-level code files and a tree of
modules. A module is a named directory or a `from:` git clone target. This
project models the core of that tool:

- **Spec model** (`models.dfy`): projects, modules, code files, and how a
  module is named and how a file name gets its extension.
- **Validation** (`validator.dfy`): every rule `validate` checks, the errors
  it reports, and the exact configurations it accepts.
- **Managed paths** (`path_collector.dfy`): every file and directory a spec
  declares, in the order the collector walks them.
- **Scanning** (`filesystem_scanner.dfy`): the entries on disk that the spec
  does not manage, sorted.
- **Sync** (`sync_filter.dfy`): dropping removals already implied by
  removing a directory above them.
- **Shared command logic** (`shared.dfy`): which project an unmanaged entry
  belongs to, and whether adding it would change the spec.
- **Removing entries from the spec text** (`yaml_modifier.dfy`), the
  spacing between projects (`yaml_formatter.dfy`), and the line diff shown
  before writing (`diff.dfy`).
- **`moli add` and `moli new`** (`add_command.dfy`, `new_command.dfy`):
  the skill editor, the spec a new project starts from, and sequential
  project names.
- **Generation.** Directories (`directory_builder.dfy`), code files
  (`file_builder.dfy`), and the per-language generators for Rust,
  TypeScript, JavaScript, Python, Go and `any`. They share the manifest
  export block (`export_block.dfy`) and the create-if-absent loop and
  name search (`generation.dfy`).

The file system is modelled in `file_system.dfy` as a class `Fs`. It holds a
map from paths to file contents and a set of directories. Each operation
fails for exactly one reason:

- creating directories fails when some prefix of the path is a file;
- writing fails when the target is a directory or its parent is missing.

Paths are sequences of components, and joining paths is concatenation.
Three collaborators whose code is not part of this model become parameters:

- the `ContentUpdater` that rewrites a manifest's export block;
- `git clone`;
- the spec editor's `add_entry`.

Text is a sequence of characters. Trimming and indentation use ASCII
whitespace: space, tab, line feed and carriage return. The model's
`lines()` splits on `'\n'` and drops one empty final piece. Unlike Rust's
`str::lines()`, it keeps the `'\r'` of a CRLF line ending.

## Model

| member | source | states |
|---|---|---|
| Models.StripGitSuffix | src/project_management/config/models.rs:120-123 | exactly one trailing ".git" is removed when present, otherwise the URL is unchanged |
| Models.ExtractRepoNameSpec | src/project_management/config/models.rs:120-129 | the repository name is a '/'-free suffix of the URL without ".git"; it is the whole text when there is no '/', and otherwise it is preceded by a '/' |
| Models.ModuleNameSpec | src/project_management/config/models.rs:97-106 | an explicit name wins; a clone module without a name is named by a '/'-free tail of its URL; anything else is "unknown" |
| Models.ExtensionFor | src/project_management/config/models.rs:169-180 | each known language maps to its own extension, in both directions; every other language maps to "txt" |
| Models.FilenameWithExtensionSpec | src/project_management/config/models.rs:164-181 | a name with a '.' is kept exactly; any other name gets '.' and the language's extension; the result always starts with the name and holds a '.' |
| Models.FilenameWithExtensionIdempotent | src/project_management/config/models.rs:164-181 | resolving an already-resolved name again changes nothing, whatever the language |
| Models.RootProject | src/project_management/config/models.rs:53-55 | none exactly when no project is root; otherwise the first root project |
| Models.SubProjects | src/project_management/config/models.rs:58-60 | an order-preserving subsequence holding exactly the non-root projects, each as many times as in the input |
| Models.IsSingleProject | src/project_management/config/models.rs:63-65 | true exactly when some project is root |
| Models.SubProjectsAll | src/project_management/config/models.rs:58-65 | without a root project, sub_projects returns every project |
| Validator.ValidateRootProjects | src/project_management/config/validator.rs:163-174 | an error exactly when two or more projects are root, and it is the several-roots error at "projects" |
| Validator.ErrorLines | src/project_management/config/validator.rs:46-48 | one message line per error |
| Validator.CheckModuleFields | src/project_management/config/validator.rs:94-143 | the module's own errors, in the source's order: neither name nor from, empty name, path separators, from with lang, from with tree or file |
| Validator.ValidateModule | src/project_management/config/validator.rs:94-160 | the module's own errors, then its submodules' errors, recursively |
| Validator.ValidateProject | src/project_management/config/validator.rs:55-91 | the project's errors: its own checks, then every module's errors |
| Validator.ValidateProjectNames | src/project_management/config/validator.rs:177-195 | one duplicate-name error for each repeat of an earlier project's name |
| Validator.ValidateEachProject | src/project_management/config/validator.rs:30-34 | every project's errors, in project order |
| Validator.Validate | src/project_management/config/validator.rs:21-52 | an empty spec is rejected with its own message; otherwise the spec is accepted exactly when there is no error, and a rejection lists every error |
| Validator.ModuleErrorsEmptyIff | src/project_management/config/validator.rs:94-160 | a module has no errors exactly when it and all its submodules are well formed |
| Validator.SubmoduleErrorsEmptyIff | src/project_management/config/validator.rs:146-150 | a list of submodules has no errors exactly when every one is well formed |
| Validator.ProjectErrorsEmptyIff | src/project_management/config/validator.rs:55-91 | a project has no errors exactly when it is well formed |
| Validator.ProjectsErrorsEmptyIff | src/project_management/config/validator.rs:30-34 | the project list has no errors exactly when every project is well formed |
| Validator.NameErrorsEmptyIff | src/project_management/config/validator.rs:177-195 | there is no name error exactly when the project names are distinct |
| Validator.AcceptedIffWellFormed | src/project_management/config/validator.rs:21-52 | a spec is accepted exactly when it has at most one root, distinct names and only well-formed projects |
| Validator.ModuleErrorPaths | src/project_management/config/validator.rs:94-160 | every error of a module is reported at a path under the module's own path |
| Validator.SubmoduleErrorPaths | src/project_management/config/validator.rs:146-150 | every error of a submodule list is reported under the parent's path |
| Validator.NameErrorsExact | src/project_management/config/validator.rs:177-195 | every repeated name is reported, and every reported error is the error of a repeat |
| Validator.ProjectPathInjective | src/project_management/config/validator.rs:177-195 | distinct project indices are reported at distinct paths |
| Validator.FirstOccurrenceNotFlagged | src/project_management/config/validator.rs:177-195 | the first project bearing a name is never reported as a duplicate |
| PathCollector.CollectModuleEntries | src/project_management/config/path_collector.rs:72-121 | appends the module's entries: its directory, then its files, then its submodules' entries |
| PathCollector.CollectProjectEntries | src/project_management/config/path_collector.rs:34-60 | appends the project's entries: its project-level files, then its modules |
| PathCollector.CollectAllEntries | src/project_management/config/path_collector.rs:24-62 | the entries of every project, in spec order |
| PathCollector.FilesOnly | src/project_management/config/path_collector.rs:65-70 | an order-preserving subsequence holding exactly the entries that are not directories, each as many times as in the input |
| PathCollector.ModuleEntriesHead | src/project_management/config/path_collector.rs:72-121 | a module's first entry is its directory, with the parents as module path; its files follow in order, with their resolved names under the module's directory |
| PathCollector.ModuleEntriesInside | src/project_management/config/path_collector.rs:72-121 | every entry after a module's directory lies inside that directory and carries the module in its module path |
| PathCollector.TreeEntriesInside | src/project_management/config/path_collector.rs:100-118 | every entry of a list of submodules lies inside their parent's directory |
| PathCollector.TopTreeShape | src/project_management/config/path_collector.rs:43-58 | every tree entry belongs to the project, is not project-level and starts with the project prefix |
| PathCollector.ProjectEntriesShape | src/project_management/config/path_collector.rs:34-60 | a project's entries start with its project-level files, in order; every later entry is a tree entry of the same project |
| PathCollector.DisplayPathPrefix | src/project_management/config/path_collector.rs:28-32 | every display path starts with the project prefix: nothing for a root project, "name/" otherwise |
| PathCollector.ProjectEntriesIndex | src/project_management/config/path_collector.rs:24-62 | every entry of a project carries that project's index |
| PathCollector.ModuleEntriesCount | src/project_management/config/path_collector.rs:72-121 | a module yields one entry for its directory, one per file, and those of its subtree |
| PathCollector.ProjectEntriesCount | src/project_management/config/path_collector.rs:34-60 | a project yields one entry per project-level file, plus those of its tree |
| PathCollector.EntriesOrderedByProject | src/project_management/config/path_collector.rs:24-62 | collected entries come project by project: indices are below the project count and never decrease |
| FilesystemScanner.FileNameSpec | src/project_management/config/filesystem_scanner.rs:127-140 | the file name is the '/'-free suffix of the relative path, and it is the whole path exactly when there is no '/' |
| FilesystemScanner.SortEntries | src/project_management/config/filesystem_scanner.rs:150-156 | the result is sorted (directories first, then by display path) and is a permutation of the input |
| FilesystemScanner.StripStandardExtension | src/project_management/config/filesystem_scanner.rs:162-170 | none exactly when the path ends in no standard extension; otherwise the path with one standard extension it ends in removed |
| FilesystemScanner.StandardExtensionFor | src/project_management/config/filesystem_scanner.rs:173-187 | an extension exactly for the five code languages, and it is one of the standard extensions |
| FilesystemScanner.FilenameWithoutStandardExtension | src/project_management/config/filesystem_scanner.rs:173-187 | other languages keep the name; a name ending in its language's extension loses it; any other name is kept |
| FilesystemScanner.ExtensionRoundTrip | src/project_management/config/filesystem_scanner.rs:173-187 | stripping the extension from a name resolved without a '.' gives back the spec name |
| FilesystemScanner.ClassifyEntry | src/project_management/config/filesystem_scanner.rs:85-146 | the entry is reported exactly when the admission rule admits it, and then as that rule describes it |
| FilesystemScanner.ScanStep | src/project_management/config/filesystem_scanner.rs:78-146 | one walk step fails exactly on a walk error, and otherwise extends the admitted prefix by one entry |
| FilesystemScanner.FilterWalk | src/project_management/config/filesystem_scanner.rs:78-147 | fails exactly when some walk entry is an error; otherwise returns the admitted entries in walk order |
| FilesystemScanner.Scan | src/project_management/config/filesystem_scanner.rs:59-159 | fails exactly on a walk error; otherwise returns a sorted permutation of the admitted entries |
| FilesystemScanner.StemCheckRedundant | src/project_management/config/filesystem_scanner.rs:127-140 | the stem comparison never rejects an entry the display-path check let through |
| FilesystemScanner.AdmitSpec | src/project_management/config/filesystem_scanner.rs:85-124 | an admitted entry is not the walk root; a directory is not named like an excluded directory; its name is no excluded or generated file; a directory is displayed with a final '/', a file by its relative path; the display path is not managed |
| FilesystemScanner.ReportedIsAdmitted | src/project_management/config/filesystem_scanner.rs:78-147 | every reported entry comes from an admitted walk entry |
| FilesystemScanner.AdmittedIsReported | src/project_management/config/filesystem_scanner.rs:78-147 | every admitted walk entry is reported |
| SyncFilter.KeepTopmost | src/cli/command/sync.rs:192-209 | an order-preserving subsequence keeping exactly the entries without a removed directory above them, each as many times as in the input |
| SyncFilter.FilterSpec | src/cli/command/sync.rs:192-209 | the filter keeps order and keeps an entry, as many times as it occurs, exactly when no other removed directory is a prefix of its display path |
| SyncFilter.NoDirectoriesKeepsAll | src/cli/command/sync.rs:192-209 | without directories nothing is filtered out |
| SyncFilter.FilterIdempotent | src/cli/command/sync.rs:192-209 | filtering twice is the same as filtering once |
| SyncFilter.DroppedUnderKeptDirectory | src/cli/command/sync.rs:192-209 | every dropped entry lies under a kept directory, so removing the kept entries still removes it |
| Shared.FindProject | src/cli/command/shared.rs:16-53 | none exactly when no project matches; otherwise the first matching index |
| Shared.NormalComponents | src/cli/command/shared.rs:28-35 | an order-preserving subsequence of the components keeping exactly those that name something (not empty, "." or ".."), each as many times as in the input |
| Shared.ResolveProject | src/cli/command/shared.rs:9-62 | a resolved project index is always a valid index |
| Shared.ResolveWithRoot | src/cli/command/shared.rs:16-25 | with a root project, that project takes the entry with all its segments |
| Shared.ResolveEmptyPath | src/cli/command/shared.rs:37-39 | without a root project, an empty path is an error |
| Shared.ResolveByName | src/cli/command/shared.rs:44-48 | otherwise the first project named like the first segment takes the remaining segments |
| Shared.ResolveToDotProject | src/cli/command/shared.rs:51-53 | otherwise a project named "." takes every segment |
| Shared.ResolveNoMatch | src/cli/command/shared.rs:56-61 | otherwise resolution fails with a message naming the entry |
| Shared.ResolveToRootProject | src/cli/command/shared.rs:16-25 | with a root project, resolution succeeds and picks exactly the root_project |
| Shared.AddAllFailureSticks | src/cli/command/shared.rs:85-97 | once adding a child fails, adding the rest fails too |
| Shared.WouldProduceChanges | src/cli/command/shared.rs:65-109 | true on a resolution error, unreadable children or a failed addition; otherwise true exactly when the added text differs from the spec |
| YamlModifier.FirstAnchorSpec | src/project_management/config/yaml_modifier.rs:262-272 | the search finds a matching line with none before it, and finds nothing only when there is none |
| YamlModifier.FindModuleStart | src/project_management/config/yaml_modifier.rs:262-272 | the first `- name: X` line at or after the start line |
| YamlModifier.NavigateSpec | src/project_management/config/yaml_modifier.rs:68-75 | a path followed to its end stops just after a line naming its last element; a missing name is one of the path |
| YamlModifier.FollowPath | src/project_management/config/yaml_modifier.rs:211-218 | each name of the module path is searched for from just after the previous one |
| YamlModifier.FindTopLevelModule | src/project_management/config/yaml_modifier.rs:126-160 | the first module line at indent 4 in the tree of the project with the given index |
| YamlModifier.MatchFileEntry | src/project_management/config/yaml_modifier.rs:274-310 | a match exactly when the line is the named entry at the expected indent, and then the span covers the entry and its attribute lines |
| YamlModifier.FileSpanUnique | src/project_management/config/yaml_modifier.rs:274-310 | a file entry has one span |
| YamlModifier.FindProjectLevelFile | src/project_management/config/yaml_modifier.rs:163-204 | the first file entry at indent 4 in the project's own `file:` section, with its span; none exactly when there is none |
| YamlModifier.FindTreeFile | src/project_management/config/yaml_modifier.rs:206-260 | follows the module path, then finds the file entry in the last module's `file:` section, inside its block |
| YamlModifier.ScanModuleFiles | src/project_management/config/yaml_modifier.rs:222-258 | the first file entry of the module's `file:` section, inside the module's block |
| YamlModifier.BlockEnds | src/project_management/config/yaml_modifier.rs:236-238 | once a line at or above the module's indent is reached, no file of that module follows |
| YamlModifier.ModuleSpanUnique | src/project_management/config/yaml_modifier.rs:83-102 | a module has one span |
| YamlModifier.ModuleSpanEnd | src/project_management/config/yaml_modifier.rs:83-102 | the span runs from the module line over every blank or deeper line, ends on a non-blank line, and the next non-blank line is at or above the module's indent |
| YamlModifier.CutLines | src/project_management/config/yaml_modifier.rs:33-40 | the lines before the span, then the lines after it |
| YamlModifier.RemoveEmptySections | src/project_management/config/yaml_modifier.rs:328-362 | the text with every key line whose section is left empty dropped, in one pass |
| YamlModifier.CleanedIsSubsequence | src/project_management/config/yaml_modifier.rs:328-362 | the cleanup only removes lines |
| YamlModifier.CleanedKeepsOthers | src/project_management/config/yaml_modifier.rs:328-362 | every line other than the section key survives the cleanup |
| YamlModifier.CleanedWithoutEmptyKeys | src/project_management/config/yaml_modifier.rs:328-362 | a text with no emptied key line is left as it is |
| YamlModifier.SpliceKeepsLines | src/project_management/config/yaml_modifier.rs:33-49 | removing a span and cleaning up only removes lines, and keeps a final newline |
| YamlModifier.RemoveFileEntry | src/project_management/config/yaml_modifier.rs:17-52 | a missing file is an error naming it; otherwise its span is cut out and emptied `file:` keys are dropped; lines are only removed and a final newline is kept |
| YamlModifier.RemoveModuleEntry | src/project_management/config/yaml_modifier.rs:55-123 | a missing parent or module is its error; otherwise the module's span is cut out and emptied `tree:` keys are dropped; lines are only removed and a final newline is kept |
| YamlModifier.RemoveEntry | src/project_management/config/yaml_modifier.rs:8-14 | directories go to module removal and files to file removal, with their results |
| YamlFormatter.AddProjectSpacing | src/shared/utils/yaml_formatter.rs:2-23 | the spaced text of the input's lines |
| YamlFormatter.SpacingKeepsLines | src/shared/utils/yaml_formatter.rs:2-23 | spacing only inserts lines |
| YamlFormatter.SpacingLength | src/shared/utils/yaml_formatter.rs:10-19 | three empty lines are added before every project but the first |
| YamlFormatter.SpacingPlacesLine | src/shared/utils/yaml_formatter.rs:10-19 | each project line after the first is preceded by exactly three empty lines |
| YamlFormatter.SingleProjectUnchanged | src/shared/utils/yaml_formatter.rs:49-60 | a spec with at most one project line is left unchanged |
| Diff.Lookahead | src/shared/utils/diff.rs:19-29 | the offset of the first later old line equal to the new line; none when there is no such line |
| Diff.Removes | src/shared/utils/diff.rs:35-37 | one removal per line, in order |
| Diff.Turn | src/shared/utils/diff.rs:12-41 | every turn of the loop advances by at least one line |
| Diff.ShowDiff | src/shared/utils/diff.rs:5-43 | the edit script of the two texts |
| Diff.DiffTurn | src/shared/utils/diff.rs:12-41 | one loop turn advances as the script does |
| Diff.RemoveLines | src/shared/utils/diff.rs:23-27 | removes exactly the skipped old lines |
| Diff.DiffSides | src/shared/utils/diff.rs:5-43 | the kept and removed lines spell the old text; the kept and added lines spell the new one |
| Diff.DiffAddsLast | src/shared/utils/diff.rs:38-41 | once the old text is used up, only additions follow |
| Diff.SameTextKept | src/shared/utils/diff.rs:14-17 | a text compared with itself is kept line by line |
| Diff.LookaheadKeepsMatch | src/shared/utils/diff.rs:19-29 | a found lookahead removes the skipped old lines and keeps the match |
| Diff.LookaheadIsFirst | src/shared/utils/diff.rs:19-29 | the lookahead offset is the first match |
| Diff.NoLookahead | src/shared/utils/diff.rs:30-33 | without a later equal old line, the lookahead finds nothing |
| AddCommand.NotYetAdded | src/cli/command/add.rs:57-60 | an order-preserving subsequence keeping exactly the repositories whose `from:` entry is not in the spec, each as many times as in the input |
| AddCommand.ClaudeProjectYamlLines | src/cli/command/add.rs:146-157 | the generated `.claude` project is exactly the project line, lang any, the skills module and one skill entry |
| AddCommand.AddSkillToExistingClaudeProject | src/cli/command/add.rs:177-272 | the text with one skill entry inserted, or the source's error, as the corrected insertion rule says |
| AddCommand.ScanLines | src/cli/command/add.rs:188-229 | the loop's flags and positions agree with the line scan |
| AddCommand.ScanClaudeIff | src/cli/command/add.rs:188-229 | the scan is inside the `.claude` project exactly when some line so far opened it |
| AddCommand.FinalScanFacts | src/cli/command/add.rs:188-241 | the skills and tree flags imply their opening lines were seen, in order |
| AddCommand.AddSkillErrors | src/cli/command/add.rs:188-241 | the add fails with the missing-project error exactly when no line opens the `.claude` project; with the missing-skills error exactly when the project is open but no `- name: skills` line follows within it; with the missing-tree error exactly when the skills module is found but no `tree:` line follows within the project; each with the source's message |
| AddCommand.AddSkillInsertsOneLine | src/cli/command/add.rs:188-262 | a success inserts exactly one skill entry, after an existing skill or right after the skills module's `tree:` line; every line is kept; the tree's extent ends at the next project or at the first non-blank line shallower than the tree, and the entry goes after the last entry at the tree's indent within that extent |
| AddCommand.ClaudeProjectExtent | src/cli/command/add.rs:188-229 | the scan stops only inside the `.claude` project, at the next line opening a project or at a non-blank line shallower than the tree; no project line lies between the `.claude` line and that stop; the `skills` line found is the last one before it |
| AddCommand.SkillsTreeLines | src/cli/command/add.rs:192-217 | with the project open but no skills module, no `- name: skills` line follows the `.claude` line before the stop; with the module but no tree, no `tree:` line follows it; a tree line is a `tree:` line after the skills line and the last one before the stop |
| AddCommand.TreeDepthLines | src/cli/command/add.rs:219-228 | no line inside the tree's extent is non-blank and shallower than the tree |
| AddCommand.TreeEntryLines | src/cli/command/add.rs:219-228 | every entry at the tree's indent within the tree's extent lies before the insert position |
| AddCommand.LastEntryLine | src/cli/command/add.rs:219-228 | an insert position past the `tree:` line is right after an entry at the tree's indent |
| AddCommand.NestedSkillsTreeExample | src/cli/command/add.rs:213-227 | a nested `tree:` inside the skills tree becomes the tree line at a deeper indent while the earlier position is kept, so the entry goes after the last skills entry at the nested indent |
| AddCommand.AddSkillKeepsFinalNewline | src/cli/command/add.rs:266-269 | a final newline is kept |
| AddCommand.AddToGeneratedProject | src/cli/command/add.rs:146-262 | adding to a freshly generated `.claude` project puts the new skill right after the first |
| AddCommand.AsWrittenAgreesWithEntry | src/cli/command/add.rs:250-262 | when a skill entry exists, the as-written and corrected insertions agree |
| AddCommand.AsWrittenFallbackPosition | src/cli/command/add.rs:253-261 | as written, the fallback inserts after the first `tree:` line of the whole text |
| AddCommand.FallbackMissesSkillsTree | src/cli/command/add.rs:253-261 | with a `tree:` line before the skills module, the as-written fallback lands before it and differs from the corrected insertion |
| AddCommand.EmptySkillsTreeExample | src/cli/command/add.rs:253-261 | for a `.claude` project with an empty skills tree, the corrected insertion gives the generated project, and the as-written one inserts under the project's own `tree:` |
| NewCommand.CheckLanguage | src/cli/command/new.rs:46-49 | accepts exactly the supported languages; anything else is an "Unsupported language" error |
| NewCommand.MainFileName | src/cli/command/new.rs:248-258 | "lib" exactly for non-root Rust, "index" exactly for TypeScript and JavaScript, "README.md" exactly for `any`, "main" exactly otherwise |
| NewCommand.NewProjectYamlLines | src/cli/command/new.rs:127-194 | the generated text splits back into exactly the project's lines |
| NewCommand.ProjectLinesShape | src/cli/command/new.rs:127-194 | the project is named first; the root line is there exactly for a root project; the language follows; Go and `any` list the main file at top level, other languages under a `src` module |
| NewCommand.ParseI32 | src/cli/command/new.rs:217-225 | a parsed number is within the i32 range |
| NewCommand.ParseNatToString | src/cli/command/new.rs:217-225 | a non-negative i32 printed in decimal parses back to itself |
| NewCommand.NextCounterIsMax | src/cli/command/new.rs:208-229 | the next counter is one more than the largest `app_N` already present, or 1 |
| NewCommand.SequentialCounter | src/cli/command/new.rs:208-229 | the counter of the loop over the spec's lines |
| NewCommand.GenerateSequentialProjectName | src/cli/command/new.rs:208-229 | `app_` followed by the next counter |
| NewCommand.SequentialNameIsFresh | src/cli/command/new.rs:208-229 | the generated name is not already the name of a project in the spec |
| NewCommand.NewProjectName | src/cli/command/new.rs:61-67 | the name is "docs" exactly for an `any` project started without a spec |
| NewCommand.FirstRootMatchIsFirst | src/cli/command/new.rs:231-246 | the rewrite position is the first root project line, with none before it |
| NewCommand.RewriteAtFirstMatch | src/cli/command/new.rs:231-246 | the first root project is renamed "." and its root flag dropped |
| NewCommand.RewriteChangesIffMatch | src/cli/command/new.rs:231-246 | the text is unchanged exactly when no line pair matches a root project |
| NewCommand.RewriteGeneratedRoot | src/cli/command/new.rs:123-246 | rewriting a freshly generated root project gives the same project named "." without its root flag |
| ExportBlock.BlockLines | src/code_generation/language/rust/module_generator.rs:164-170 | the lines of an export block: start marker, declarations (or one empty line), end marker, empty line |
| Generation.CreateCodeFiles | src/code_generation/language/go/package_generator.rs:29-46 | only absent files are written, each with its initial content, and existing files are kept; an existing directory guarantees success, after which every file is present; a failure names a file that was absent |
| Generation.FileEntriesMember | src/code_generation/language/typescript/module_generator.rs:33-49 | a declaration is listed exactly when some kept code file yields it |
| Generation.SubmoduleEntriesSpec | src/code_generation/language/typescript/module_generator.rs:52-60 | one declaration per submodule, in order |
| Generation.AnyNamedSpec | src/code_generation/language/go/package_generator.rs:146-147 | true exactly when some file is named the stem or the full name |
| Generation.AnyNamedListed | src/code_generation/language/go/package_generator.rs:146-147 | true exactly when the full name is among the resolved file names |
| Generation.FindInModule | src/code_generation/language/go/package_generator.rs:157-171 | one flag per module of the subtree, in pre-order |
| Generation.FlagsMatchModules | src/code_generation/language/go/package_generator.rs:157-171 | the k-th flag says whether the k-th module of the flattened subtree has the file |
| Generation.FoundAnywhere | src/code_generation/language/go/package_generator.rs:149-151 | some flag is set exactly when some module at any depth has the file |
| Generation.SearchProject | src/code_generation/language/go/package_generator.rs:144-171 | the search over the project files and every module's flags |
| Generation.NoneNamedSpec | src/code_generation/language/go/package_generator.rs:144-171 | nothing is named so exactly when no project file and no module file at any depth is |
| DirectoryBuilder.BuildProjectStructure | src/code_generation/core/directory_builder.rs:11-33 | a blocked project directory is the failure; after success every module directory is built; files are untouched |
| DirectoryBuilder.BuildModuleStructure | src/code_generation/core/directory_builder.rs:35-89 | a clone module is cloned only when absent and always succeeds; other modules fail on a blocked directory and otherwise build their subtree |
| DirectoryBuilder.BuildTree | src/code_generation/core/directory_builder.rs:24-30 | after success every module of the list is built; files are untouched |
| DirectoryBuilder.GetProjectDirectories | src/code_generation/core/directory_builder.rs:91-106 | the project's module directories in pre-order |
| DirectoryBuilder.CollectModuleDirectories | src/code_generation/core/directory_builder.rs:108-120 | appends the module's directory and then its subtree's |
| DirectoryBuilder.ProjectDirectoriesParentsFirst | src/code_generation/core/directory_builder.rs:91-120 | every listed directory lies under the project and comes after its parent |
| DirectoryBuilder.TreeDirsCount | src/code_generation/core/directory_builder.rs:108-120 | one directory per module of the tree |
| DirectoryBuilder.ProjectDirectoriesExample | src/code_generation/core/directory_builder.rs:232-272 | `src/domain/model` lists src, src/domain, src/domain/model |
| DirectoryBuilder.BuildMakesStructure | src/code_generation/core/directory_builder.rs:122-133 | after a clone-free build, structure_exists holds |
| DirectoryBuilder.CleanProjectStructure | src/code_generation/core/directory_builder.rs:135-158 | the project directory, or for a root project each top-level module directory, is gone; files and directories elsewhere are kept |
| DirectoryBuilder.CleanModules | src/code_generation/core/directory_builder.rs:146-155 | each top-level module directory is gone; files and directories outside them are kept |
| FileBuilder.GenerateFileContentSpec | src/code_generation/core/file_builder.rs:127-162 | Go stubs declare `package main`; unknown languages get an empty file; stubs end in a newline; JavaScript and TypeScript stubs agree |
| FileBuilder.GoMainFileHasMainFunction | src/code_generation/core/file_builder.rs:129-131 | a Go file named with "main" gets a main function |
| FileBuilder.LastStubIsLast | src/code_generation/core/file_builder.rs:107-116 | the content left under a name is the file's own stub when no later file shares the name |
| FileBuilder.WriteCodeFiles | src/code_generation/core/file_builder.rs:107-116 | writes each file's stub, the last one of a name winning; a missing directory is the failure; only the directory changes |
| FileBuilder.BuildGenericModuleFiles | src/code_generation/core/file_builder.rs:100-125 | writes the module's stubs and recurses; only the module's directory changes |
| FileBuilder.BuildGenericSubmodules | src/code_generation/core/file_builder.rs:118-121 | writes every submodule's files; only deeper paths change |
| FileBuilder.BuildGenericProjectFiles | src/code_generation/core/file_builder.rs:89-97 | after success every module's stubs are written; only the project directory changes |
| FileBuilder.FirstSrcSpec | src/code_generation/core/file_builder.rs:41 | finds the first module named `src`, and nothing only when there is none |
| FileBuilder.BuildRustProjectFiles | src/code_generation/core/file_builder.rs:31-52 | generates every module and writes main.rs or lib.rs when asked; only manifests are rewritten |
| FileBuilder.WriteRustEntry | src/code_generation/core/file_builder.rs:40-48 | writes main.rs when asked, else lib.rs when asked |
| FileBuilder.WriteTypeScriptManifests | src/code_generation/core/file_builder.rs:58-60 | package.json and tsconfig.json are present afterwards; nothing is overwritten |
| FileBuilder.BuildTypeScriptProjectFiles | src/code_generation/core/file_builder.rs:54-69 | generates every module and the manifests; only index.ts files are rewritten |
| FileBuilder.BuildProjectFiles | src/code_generation/core/file_builder.rs:13-29 | dispatches on the language, with each builder's guarantee |
| FileBuilder.PathsIn | src/code_generation/core/file_builder.rs:196-232 | one path per name, each in the directory |
| FileBuilder.ModuleFilesUnder | src/code_generation/core/file_builder.rs:196-232 | every listed path lies in the module's directory |
| FileBuilder.DirectFilesListed | src/code_generation/core/file_builder.rs:196-232 | a direct child is listed exactly when it is a code file or the language's manifest |
| FileBuilder.CollectModuleFiles | src/code_generation/core/file_builder.rs:196-232 | appends the module's files, then its manifest, then its subtree's files |
| FileBuilder.CollectTreeFiles | src/code_generation/core/file_builder.rs:196-232 | appends every module's files in order |
| FileBuilder.GetProjectFiles | src/code_generation/core/file_builder.rs:165-194 | the tree's files plus the language's entry files |
| FileBuilder.GenericBuildFilesExist | src/code_generation/core/file_builder.rs:234-250 | after a generic build, files_exist holds |
| FileBuilder.ProjectFilesExample | src/code_generation/core/file_builder.rs:355-387 | the file list of a small Rust project |
| RustGenerator.VisibilityPrefixSpec | src/code_generation/language/rust/module_generator.rs:18-34 | no prefix exactly for `no`, or for no setting on a `main` target; `pub(crate) ` for `crate`; `pub(super) ` for `super`; `pub ` otherwise |
| RustGenerator.FileDeclsMember | src/code_generation/language/rust/module_generator.rs:62-72 | a declaration is listed exactly when some Rust file other than the reserved ones yields it |
| RustGenerator.SubmoduleDeclsSpec | src/code_generation/language/rust/module_generator.rs:74-80 | one declaration per submodule, in order |
| RustGenerator.RootDeclsWithoutSrc | src/code_generation/language/rust/module_generator.rs:92-127 | without a `src` module, no declarations |
| RustGenerator.RootDeclsOfSrc | src/code_generation/language/rust/module_generator.rs:92-127 | the declarations of `src`'s files and submodules |
| RustGenerator.PlainNameDeclared | src/code_generation/language/rust/module_generator.rs:62-72 | a plain file name gets ".rs" and is declared |
| RustGenerator.ModDeclsExample | src/code_generation/language/rust/module_generator.rs:234-264 | `domain` with model and repository declares both |
| RustGenerator.DeclaredNameKeepsExtension | src/code_generation/language/rust/module_generator.rs:62-72 | a file given as `model.rs` is declared `pub mod model.rs;`, which names no module file |
| RustGenerator.CollectRootDeclarations | src/code_generation/language/rust/module_generator.rs:92-127 | the declarations of every `src` module |
| RustGenerator.ModDeclarations | src/code_generation/language/rust/module_generator.rs:62-80 | the module's file declarations, then its submodules' |
| RustGenerator.GenerateModule | src/code_generation/language/rust/module_generator.rs:36-89 | a blocked directory is the failure; otherwise creates absent files and the submodules, and updates mod.rs with the module's declarations, except in `src` where mod.rs is left alone; only mod.rs files are rewritten |
| RustGenerator.GenerateSubmodules | src/code_generation/language/rust/module_generator.rs:74-80 | generates every submodule |
| RustGenerator.GenerateMainRs | src/code_generation/language/rust/module_generator.rs:92-127 | succeeds exactly when main.rs is writable, and then updates it with the `src` declarations; nothing else changes |
| RustGenerator.GenerateLibRs | src/code_generation/language/rust/module_generator.rs:128-162 | succeeds exactly when lib.rs is writable, and then updates it with the `src` declarations; nothing else changes |
| RustGenerator.ModRsContentLines | src/code_generation/language/rust/module_generator.rs:164-170 | mod.rs is one export block |
| RustGenerator.MainRsContentLines | src/code_generation/language/rust/module_generator.rs:172-187 | main.rs is the export block, when there are declarations, then the main function |
| RustGenerator.LibRsContentLines | src/code_generation/language/rust/module_generator.rs:189-198 | lib.rs is the export block, or "// Library root" |
| RustGenerator.EntryRequestedSpec | src/code_generation/language/rust/module_generator.rs:201-224 | main.rs or lib.rs is asked for exactly when a project file or a top-level `src` file has that name |
| TypeScriptGenerator.ExportNameStrips | src/code_generation/language/typescript/module_generator.rs:75-84 | the export name plus the stripped extension is the spec name |
| TypeScriptGenerator.IndexNotExported | src/code_generation/language/typescript/module_generator.rs:43-44 | index.ts never exports itself |
| TypeScriptGenerator.IndexExportsExample | src/code_generation/language/typescript/module_generator.rs:17-73 | the exports of a module with files `api` and `index` and submodule `auth` |
| TypeScriptGenerator.ExportDeclarations | src/code_generation/language/typescript/module_generator.rs:29-60 | the module's file exports, then its submodule exports |
| TypeScriptGenerator.HasExplicitIndexSpec | src/code_generation/language/typescript/module_generator.rs:62-64 | an explicit index exactly when `index.ts` is among the file names |
| TypeScriptGenerator.GenerateModule | src/code_generation/language/typescript/module_generator.rs:17-73 | creates the directory and absent files, recurses, and updates index.ts when explicit |
| TypeScriptGenerator.GeneratePackageJson | src/code_generation/language/typescript/module_generator.rs:87-102 | package.json is written only when absent |
| TypeScriptGenerator.GenerateTsconfigJson | src/code_generation/language/typescript/module_generator.rs:104-118 | tsconfig.json is written only when absent |
| TypeScriptGenerator.IndexTsContentLines | src/code_generation/language/typescript/module_generator.rs:120-126 | index.ts is one export block |
| JavaScriptGenerator.ImportPathIsFileName | src/code_generation/language/javascript/module_generator.rs:46-60 | the import path is the created file's name |
| JavaScriptGenerator.IndexNotExported | src/code_generation/language/javascript/module_generator.rs:43-44 | index.js never exports itself |
| JavaScriptGenerator.IndexExportsExample | src/code_generation/language/javascript/module_generator.rs:17-88 | the exports of a module with `button.jsx`, `index` and submodule `forms` |
| JavaScriptGenerator.ExportDeclarations | src/code_generation/language/javascript/module_generator.rs:30-75 | the module's file exports, then its submodule exports |
| JavaScriptGenerator.HasExplicitIndexSpec | src/code_generation/language/javascript/module_generator.rs:77-79 | an explicit index exactly when `index.js` is among the file names |
| JavaScriptGenerator.GenerateModule | src/code_generation/language/javascript/module_generator.rs:17-88 | creates the directory and absent files, recurses, and updates index.js when explicit |
| JavaScriptGenerator.ExportNameStrips | src/code_generation/language/javascript/module_generator.rs:90-99 | the export name plus the stripped extension is the spec name |
| JavaScriptGenerator.GeneratePackageJson | src/code_generation/language/javascript/module_generator.rs:102-117 | package.json is written only when absent |
| JavaScriptGenerator.ShouldGenerateMainIndexJs | src/code_generation/language/javascript/module_generator.rs:172-199 | true exactly when no file at any depth is named `index` or `index.js` |
| JavaScriptGenerator.IndexJsContentLines | src/code_generation/language/javascript/module_generator.rs:119-124 | index.js is one export block |
| PythonGenerator.ImportNameResolves | src/code_generation/language/python/package_generator.rs:69-77 | the import name plus ".py" is the created file's name |
| PythonGenerator.InitNotImported | src/code_generation/language/python/package_generator.rs:43-44 | `__init__.py` never imports itself |
| PythonGenerator.InitImportsExample | src/code_generation/language/python/package_generator.rs:17-67 | the imports of a module with `models.py`, `__init__` and submodule `api` |
| PythonGenerator.ImportStatements | src/code_generation/language/python/package_generator.rs:29-59 | the module's file imports, then its submodule imports |
| PythonGenerator.GenerateModule | src/code_generation/language/python/package_generator.rs:17-67 | creates the directory and absent files, recurses, and updates `__init__.py` |
| PythonGenerator.GenerateRequirementsTxt | src/code_generation/language/python/package_generator.rs:80-94 | requirements.txt is written only when absent |
| PythonGenerator.GenerateSetupPy | src/code_generation/language/python/package_generator.rs:96-111 | setup.py is written only when absent |
| PythonGenerator.GenerateMainPy | src/code_generation/language/python/package_generator.rs:113-127 | main.py is written only when absent |
| PythonGenerator.ShouldGenerateMainPy | src/code_generation/language/python/package_generator.rs:189-216 | true exactly when no file at any depth is named `main` or `main.py` |
| PythonGenerator.InitPyContentLines | src/code_generation/language/python/package_generator.rs:129-135 | `__init__.py` is one export block |
| GoGenerator.SanitizePackageNameSpec | src/code_generation/language/go/package_generator.rs:119-121 | same length, no '-' and no upper-case ASCII letter are left, and sanitizing again changes nothing |
| GoGenerator.InitialContentSpec | src/code_generation/language/go/package_generator.rs:33-41 | every Go file of a module gets the same `package` line; other files are empty |
| GoGenerator.InitialContentExample | src/code_generation/language/go/package_generator.rs:108-121 | a file of module `Web-UI` starts `package web_ui` |
| GoGenerator.GenerateModule | src/code_generation/language/go/package_generator.rs:16-58 | creates the directory and absent files with their package line, and recurses |
| GoGenerator.GenerateGoMod | src/code_generation/language/go/package_generator.rs:60-75 | go.mod is written only when absent |
| GoGenerator.GenerateGoSum | src/code_generation/language/go/package_generator.rs:77-90 | go.sum is written empty only when absent |
| GoGenerator.GenerateMainGo | src/code_generation/language/go/package_generator.rs:92-106 | main.go is written only when absent |
| GoGenerator.ShouldGenerateMainGo | src/code_generation/language/go/package_generator.rs:144-171 | true exactly when no file at any depth is named `main` or `main.go` |
| GoGenerator.GoModContentLines | src/code_generation/language/go/package_generator.rs:124-130 | go.mod names the project and Go 1.21 |
| AnyFileHandler.VerbatimNames | src/code_generation/language/any/file_handler.rs:14-54 | files keep their names exactly, without an extension |
| AnyFileHandler.GenerateProject | src/code_generation/language/any/file_handler.rs:14-54 | after success every project file, every module and README.md are present; only empty files are created; nothing is overwritten |
| AnyFileHandler.GenerateModule | src/code_generation/language/any/file_handler.rs:56-127 | a clone module is cloned only when absent and always succeeds; another module fails on a blocked directory, and otherwise its directory and empty files are created, recursively |

## Left out

- Command-line parsing, `moli.yml` reading and writing, coloured output and progress messages.
- `load.rs`, `scan.rs`, `rm.rs`, `up.rs`, `completion.rs` and `claude_skill.rs` are not part of this model.
- The GitHub fetch and the interactive repository selection of `moli add` are left out. The list of repositories is an input.
- The directory walk (`WalkBuilder`) and `collect_directory_children` are left out. The walked entries and an entry's children are inputs.
- `git clone` is a parameter whose success is arbitrary.
- `YamlModifier::add_entry`, `AddChild::from_paths`, `add_project` and `prepend_project` are parameters or are not modelled. This includes the `add_project` step of `generate_appended_moli_yml`.
- `ContentUpdater` is a parameter. Only the content it is given is modelled.
- `serde` parsing into `MoliConfig` is left out. The model starts from typed projects.
- Unicode trimming and lower-casing are modelled on ASCII only. Trimming treats space, tab, `'\n'` and `'\r'` as whitespace; vertical tab, form feed and the non-ASCII white space that `char::is_whitespace` also accepts are not.
- Text.Lines: does not strip the `'\r'` before a `'\n'` the way Rust's `str::lines()` does. On a spec with CRLF line endings, the outputs of the spec editors, the formatter and the diff keep each `'\r'`, where the program drops them from every line it rewrites. Lines compared after trimming are unaffected.
- Integer parsing is modelled on ASCII decimal digits.
- NewCommand.NextCounter: does not model the i32 overflow of `num + 1` at `app_2147483647`. The counter is unbounded.
- FilesystemScanner.SortEntries: does not state that the sort is stable. Entries with equal display paths keep no particular order in the model.
- AddCommand.AddSkillInsertsOneLine: promises "after the last entry at the tree's indent" only within the final tree's extent. When a named module inside `skills` has its own `tree:`, the code, and the model with it, takes that nested `tree:` as the tree line at a deeper indent and keeps the position found earlier, so the entry lands after the last skills entry but at the nested indent (AddCommand.NestedSkillsTreeExample).
- YamlModifier.RemoveEmptySections: removes emptied `file:` and `tree:` keys in one pass, as the code does. Ancestor keys that become empty through that removal are not removed.
- The `mod.rs` of the repository itself is not modelled.

## Findings

| source | as written | input that shows it | evidently intended | confidence | as-written member | corrected member |
|---|---|---|---|---|---|---|
| src/cli/command/add.rs:253-261 | with no `- from:` entry in the skills tree, the new skill goes after the first `tree:` line of the whole spec | a `.claude` project whose `skills` module has an empty `tree:`: the project's own `tree:` comes first, so the entry lands before `- name: skills` | insert right after the `skills` module's `tree:` line | not executed | AddCommand.EmptySkillsTreeExample | AddCommand.AddSkillInsertsOneLine |
