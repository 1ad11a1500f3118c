# rulegen artifact emission, modelled in Dafny

`rulegen` is the generator of the rule collection `rules_proto_grpc`. It walks
a registry that never changes once built: languages, their rules, and the
flags, attributes, aliases and CI environment variables those declare. From
it, it writes the collection's generated files:

- per example: `WORKSPACE` and `.bazelrc`;
- per language: `defs.bzl` and `README.md`;
- the top-level `README.md`;
- the CI matrix `.bazelci/presubmit.yml`;
- the Makefiles of the examples and of the test workspaces;
- the `WORKSPACE` of the `readme_http_archive` test workspace.

This project models each of those emitters as a pure function from registry
data to the file's lines (`seq<string>`). It then proves what each file
contains and in which order:

- counts of lines and targets;
- one row, target or task per registry item, in registry order;
- sections and tasks that appear exactly when their condition holds;
- sorted alias blocks;
- the exact relative paths;
- read-back (round-trip) properties of the space-joined target lists.

How the lines are represented:

- Each `out.w` call is one element.
- Each `out.ln()` is one `""` element.
- A multi-line literal is split into its lines.

Three collaborators are parameters, because their definitions are not part of
this model:

- template expansion (`Registry.Expander`: the lines a template yields in a
  context);
- `doTestOnPlatform` (`Registry.PlatformFilter`);
- `path.Join` (`Registry.PathJoin`).

The files the generator reads become inputs:

- The allow-list of routeguide tests is the file's text. It is split at
  newlines exactly as the generator does.
- The test-workspace directory is its listing (`TestWorkspaces.DirEntry`).

Modules:

- `Registry`: the entities, the parameters, the CI platforms, and the
  (language, rule) pairs in registry order.
- `Strings`: Go's `strings.Repeat`, `Split`, `Join` and `HasPrefix`, the `/`
  count, and the byte-wise string order with a sort for string sets.
- `Seqs`: where blocks of lines sit inside concatenations (`Placed`).
- `Scaffold`: the example `WORKSPACE` and `.bazelrc`.
- `Defs`: `defs.bzl`.
- `Docs`: the language READMEs and the top-level README.
- `Presubmit`: `.bazelci/presubmit.yml`.
- `ExamplesMakefile`: `example/Makefile.mk`.
- `TestWorkspaces`: the test-workspace filter, their Makefile and the
  http_archive `WORKSPACE`.

## Model

| member | source | states |
|---|---|---|
| Scaffold.WorkspaceRelPath | tools/rulegen/main.go:166-168 | the `local_repository` path is `../` repeated (number of `/` in the language dir) + 3 times, i.e. once per `/`-separated segment plus two |
| Scaffold.ExampleDirSlashes | tools/rulegen/main.go:166-168 | the example directory `example/<dir>/<rule>` has two more `/` than the language dir, for a rule name without `/` |
| Scaffold.WorkspaceRelPathLevels | tools/rulegen/main.go:166-168 | the relative path climbs exactly (number of `/` in the language dir) + 3 directory levels |
| Scaffold.WorkspacePathReachesRoot | tools/rulegen/main.go:153-168 | for a language directory whose segments are all non-empty and neither `.` nor `..`, and a one-segment rule name, the levels climbed equal the number of segments of the example directory, so the path lands on the collection's root |
| Scaffold.ExampleWorkspace | tools/rulegen/main.go:164-187 | the example `WORKSPACE` opens with `local_repository(`, has the relative path on line 3, then the expanded workspace example after a blank line, and ends blank; its length is 14 plus the example's |
| Scaffold.FlagCommentRoundTrip | tools/rulegen/main.go:199-203 | the comment line of a flag reads back as its description, and it is the bare `#` exactly when the description is empty |
| Scaffold.FlagLinesAt | tools/rulegen/main.go:198-205 | flag `i` occupies lines `2i` (comment) and `2i+1` (`category --name=value`) of the flag lines |
| Scaffold.FlagLinesContent | tools/rulegen/main.go:198-205 | every flag contributes its comment and its setting, in declared order |
| Scaffold.FlagLines | tools/rulegen/main.go:198-205 | the flag loop writes exactly two lines per flag (their content: FlagLinesAt) |
| Scaffold.ExampleBazelrc | tools/rulegen/main.go:196-216 | the `.bazelrc` has 2·(language flags + rule flags) + 1 lines: the language flags first, then the rule flags, two lines each in declared order, then a blank line |
| Defs.LoadLines | tools/rulegen/main.go:221-223 | one `load(":r.bzl", _r="r")` line per rule, in rule order |
| Defs.RuleExportLines | tools/rulegen/main.go:225-227 | one `r = _r` line per rule, in rule order |
| Defs.AliasLines | tools/rulegen/main.go:238-240 | one `alias = _target` line per given alias name, in the given order |
| Defs.AliasBlock | tools/rulegen/main.go:229-243 | the alias block is empty without aliases; otherwise it is `# Aliases`, the alias lines in ascending alias order, and a blank line |
| Defs.RuleBlock | tools/rulegen/main.go:219-228 | header, the load lines in rule order, a blank line, the re-exports in rule order and a blank line: 2n + 3 lines |
| Defs.LanguageDefs | tools/rulegen/main.go:218-245 | `defs.bzl` is the rule block followed by the alias block, and it extends past the rule block exactly when the language has aliases |
| Defs.AliasesSortedByName | tools/rulegen/main.go:229-243 | for any strictly ascending list of exactly the alias names, the alias lines of `defs.bzl` are that list's lines in that order, between `# Aliases` and a final blank line |
| Strings.Split | tools/rulegen/main.go:166 | `strings.Split` yields one more part than separators, none containing the separator |
| Strings.JoinSplit | tools/rulegen/main.go:351 | joining the parts of a split at the separator restores the text |
| Strings.SplitJoin | tools/rulegen/main.go:489 | splitting a join of separator-free parts restores the parts |
| Strings.ReadBack | tools/rulegen/main.go:489 | a line `prefix + Join(items, sep)` starts with the prefix, and its remainder splits back into the items |
| Strings.Count | tools/rulegen/main.go:470 | the count of a character is at most the length and is zero exactly when the character is absent |
| Strings.CountAppend | tools/rulegen/main.go:470 | counting is additive over concatenation |
| Strings.UpLevelsOfRepeat | tools/rulegen/main.go:482 | a path of `n` repetitions of `../` followed by a non-`../` rest climbs exactly `n` levels |
| Strings.LessIsStrictOrder | tools/rulegen/main.go:236 | Go's byte-wise string order is irreflexive and transitive |
| Strings.LessTotal | tools/rulegen/main.go:236 | any two different strings are ordered one way or the other |
| Strings.HasMinimum | tools/rulegen/main.go:236 | every non-empty set of strings has a least element |
| Strings.Minimum | tools/rulegen/main.go:236 | the minimum is in the set and below every other element |
| Strings.SortedSet | tools/rulegen/main.go:232-236 | the sorted set holds exactly the set's elements, each once, strictly ascending |
| Strings.SortedKeys | tools/rulegen/main.go:232-236 | the alias names of a map, collected and sorted: exactly its keys, strictly ascending |
| Strings.AscendingUnique | tools/rulegen/main.go:236 | two strictly ascending lists with the same elements are equal, so the sorted order is the only one |
| Registry.Pairs | tools/rulegen/main.go:400-401 | the (language, rule) pairs in registry order number the total rule count |
| Registry.PairsMembership | tools/rulegen/main.go:400-401 | a pair is listed exactly when the language is in the registry and the rule is one of its rules |
| Registry.PairsAppend | tools/rulegen/main.go:330-331 | the pairs of two registries back to back are the two pair lists back to back |
| Docs.SummaryRowsAt | tools/rulegen/main.go:260-262 | summary row `i` is the row of rule `i` |
| Docs.FlagRowsContent | tools/rulegen/main.go:300-302 | flags-table row `i` is the row of flag `i` |
| Docs.AttrRowsContent | tools/rulegen/main.go:310-312 | attributes-table row `i` is the row of attribute `i` |
| Docs.SummaryRows | tools/rulegen/main.go:260-262 | the rule loop writes one summary row per rule (their content: SummaryRowsAt) |
| Docs.FlagRows | tools/rulegen/main.go:300-302 | the flag loop writes one table row per flag (their content: FlagRowsContent) |
| Docs.AttrRows | tools/rulegen/main.go:310-312 | the attribute loop writes one table row per attribute (their content: AttrRowsContent) |
| Docs.SectionHead | tools/rulegen/main.go:266-276 | the head of a section has the rule's heading on line 3, the EXPERIMENTAL note on line 5 for an experimental rule, and the doc after it; it is two lines longer for experimental rules |
| Docs.FlagsBlock | tools/rulegen/main.go:294-304 | the flags table is empty without flags; with flags it has a title, a header and the flag rows, and ends blank |
| Docs.AttrsBlock | tools/rulegen/main.go:306-313 | the attributes table has a title, a header, the attribute rows and a final blank line: attributes + 5 lines |
| Docs.RuleSection | tools/rulegen/main.go:265-314 | a section's length is the sum of its parts; it has the rule's heading on line 3 and ends blank |
| Docs.RuleSectionHead | tools/rulegen/main.go:266-279 | in a section: the EXPERIMENTAL note for an experimental rule, then the doc, then the `WORKSPACE` heading |
| Docs.WorkspaceExampleInSection | tools/rulegen/main.go:278-284 | the expanded workspace example sits between the opening and the closing fence |
| Docs.BuildExampleInSection | tools/rulegen/main.go:286-292 | the `BUILD.bazel` heading, then the expanded build example between the fences |
| Docs.RuleSectionExamples | tools/rulegen/main.go:278-292 | both expanded examples sit at their offsets in the section |
| Docs.FlagsBlockInSection | tools/rulegen/main.go:294-304 | the flags table sits at the flags offset |
| Docs.AttrsBlockInSection | tools/rulegen/main.go:306-313 | the attributes table follows the flags table |
| Docs.FlagsTitleInSection | tools/rulegen/main.go:294-296 | for a rule with flags, the flags title sits at the flags offset |
| Docs.AttrsTitleInSection | tools/rulegen/main.go:306-307 | the attributes title sits right after the flags table |
| Docs.RuleSectionTables | tools/rulegen/main.go:294-313 | the flags table (titled when the rule has flags), then the attributes table, titled, each with its rows |
| Docs.ExperimentalBannerIff | tools/rulegen/main.go:271-276 | the EXPERIMENTAL note is on line 5 with the doc on line 7 if and only if the rule is experimental |
| Docs.FlagsTableIff | tools/rulegen/main.go:294-306 | the flags title is at the flags offset if and only if the rule declares flags |
| Docs.Intro | tools/rulegen/main.go:250-256 | the title line and a blank line, then, only with notes, the expanded notes and a blank line |
| Docs.SummaryTable | tools/rulegen/main.go:258-263 | the summary header and separator, one row per rule, a blank line |
| Docs.SummaryRowsInOrder | tools/rulegen/main.go:250-263 | the README opens with its title; the summary table follows the intro with one row per rule in rule order and a closing blank line |
| Docs.TitleInReadme | tools/rulegen/main.go:250 | the language README opens with `# <display name> rules` |
| Docs.SummaryEndInReadme | tools/rulegen/main.go:263 | the summary table is closed by a blank line |
| Docs.SummaryRowInReadme | tools/rulegen/main.go:260-262 | the row of rule `i` sits at line `i` of the table body |
| Docs.NotesIff | tools/rulegen/main.go:253-258 | the notes are there if and only if the language has them; with notes they and a blank line precede the table, and without notes the table follows the title's blank line |
| Docs.TableAfterIntro | tools/rulegen/main.go:256-258 | the summary header directly follows the intro |
| Docs.NotesAfterTitle | tools/rulegen/main.go:253-256 | with notes, the expanded notes follow the title and a blank line follows them |
| Docs.SectionOfEachRule | tools/rulegen/main.go:265-314 | every rule's complete section sits at its offset in the README |
| Docs.SectionsAdjacent | tools/rulegen/main.go:265-314 | the section of rule `k + 1` starts where that of rule `k` ends |
| Docs.IndexRows | tools/rulegen/main.go:330-337 | row `i` of the top-level table is the index row of pair `i` |
| Docs.RulesTable | tools/rulegen/main.go:325-338 | the `## Rules` heading and table header, then one row per (language, rule) pair in registry order, then a blank line |
| Docs.RulesTableComplete | tools/rulegen/main.go:330-337 | every rule of every language has its row, and every row belongs to a registry rule |
| Docs.ReadmeRows | tools/rulegen/main.go:319-343 | in the top-level README the `## Rules` heading is the second line after the expanded header, and the `i`-th table row is the index row of the `i`-th (language, rule) pair in registry order |
| ExamplesMakefile.DiskCachePath | tools/rulegen/main.go:469-482 | the disk cache path is `../` repeated (number of `/` in the language dir) + 2 times, then `bazel-disk-cache` |
| ExamplesMakefile.DiskCacheLevels | tools/rulegen/main.go:469-482 | that path climbs (number of `/`) + 2 levels |
| ExamplesMakefile.DiskCacheUnderExamples | tools/rulegen/main.go:469-482 | for clean directory and rule names (as in WorkspacePathReachesRoot), the disk cache path climbs one level less than the example directory has segments, and one less than the WORKSPACE path: the cache sits in `example/`, while the WORKSPACE path reaches the root |
| ExamplesMakefile.ExampleRule | tools/rulegen/main.go:474-483 | the five lines of an example's rule: `.PHONY`, the target, `cd` into the example directory, the build with the disk cache path, and a blank line |
| ExamplesMakefile.ExampleRules | tools/rulegen/main.go:473-484 | the rule loop of one language writes five lines per rule (where each sits: ExampleRuleAt) |
| ExamplesMakefile.ExampleRuleAt | tools/rulegen/main.go:473-484 | the rule of the `i`-th rule of a language starts at line `5i` |
| ExamplesMakefile.LanguageTargets | tools/rulegen/main.go:476-478 | one `<lang>_<rule>_example` target per rule, in rule order |
| ExamplesMakefile.LanguageBlock | tools/rulegen/main.go:466-490 | the rules of one language, then its `.PHONY` group target listing exactly its targets, then a blank line |
| ExamplesMakefile.LanguageBlocks | tools/rulegen/main.go:466-491 | the language loop writes 5·(rules) + 3·(languages) lines (where each block sits: BlockPlacement) |
| ExamplesMakefile.BlocksLength | tools/rulegen/main.go:466-491 | the language blocks total 5·(rules) + 3·(languages) lines |
| ExamplesMakefile.AllTargets | tools/rulegen/main.go:465-477 | target `i` of `all_examples` is the target of pair `i` in registry order |
| ExamplesMakefile.Makefile | tools/rulegen/main.go:461-499 | the language blocks, then `.PHONY: all_examples`, `all_examples:` with all targets, and a blank line |
| ExamplesMakefile.BlockPlacement | tools/rulegen/main.go:466-491 | the block of language `k` sits at its offset among the blocks |
| ExamplesMakefile.BlockInMakefile | tools/rulegen/main.go:461-499 | the block of language `k` sits at its offset in the Makefile |
| ExamplesMakefile.RuleInBlock | tools/rulegen/main.go:473-484 | the rule of rule `i` sits at line `5i` of its language's block |
| ExamplesMakefile.AllTargetsByLanguage | tools/rulegen/main.go:465-478 | `all_examples` lists the first language's targets, then the rest |
| ExamplesMakefile.NoSpaceInTarget | tools/rulegen/main.go:476 | a target name has no space when its language and rule names have none |
| ExamplesMakefile.LanguageGroupRoundTrip | tools/rulegen/main.go:487-489 | the prerequisites of `<lang>_examples`, split at spaces, are exactly that language's targets in rule order |
| ExamplesMakefile.AllExamplesRoundTrip | tools/rulegen/main.go:494-495 | the prerequisites of `all_examples`, split at spaces, are exactly all targets in registry order |
| ExamplesMakefile.NoSpaceInAllTargets | tools/rulegen/main.go:476-477 | no target of `all_examples` contains a space |
| Presubmit.MacosBuildFlags | tools/rulegen/main.go:371-374 | the build flags appear on macOS only (two lines) |
| Presubmit.MacosTestFlags | tools/rulegen/main.go:383-385 | the extra test flag appears on macOS only |
| Presubmit.BuildTargets | tools/rulegen/main.go:375-381 | a language's `//<dir>/...` build target is listed if and only if the platform predicate accepts the language |
| Presubmit.BuildTargetsAppend | tools/rulegen/main.go:376-381 | the language loop keeps language order: a further language adds at most its own target, after the others |
| Presubmit.CrossMembership | tools/rulegen/main.go:388-389 | the client × server pairs are exactly all pairs of languages |
| Presubmit.TestedLines | tools/rulegen/main.go:388-394 | a pair gets its routeguide line if and only if it is tested |
| Presubmit.TestedLinesAppend | tools/rulegen/main.go:388-394 | gating keeps the order of the pairs |
| Presubmit.ServerTargets | tools/rulegen/main.go:389-393 | the inner loop writes at most one line per server: the target of each server tested with the client, and nothing else |
| Presubmit.ClientTargets | tools/rulegen/main.go:388-394 | the outer loop writes at most one line per (client, server) pair |
| Presubmit.TestTargets | tools/rulegen/main.go:388-394 | the test targets are the reference filter applied to the client-major cross product of the languages |
| Presubmit.ServerTargetsAreRow | tools/rulegen/main.go:389-393 | the inner loop gates one client against every server in order |
| Presubmit.TestTargetsInCrossOrder | tools/rulegen/main.go:388-394 | the test targets are the tested pairs in client-major, then server order |
| Presubmit.TestTargetsIff | tools/rulegen/main.go:388-394 | `//example/routeguide:C_S` is listed if and only if the predicate accepts both languages and the label is exactly one line of the allow-list |
| Presubmit.MainOpening | tools/rulegen/main.go:366-370 | a main task opens with `main_<platform>:`, is named `build & test all`, names the platform on line 3, and ends its opening with `environment:` and `CC: clang` |
| Presubmit.MainBody | tools/rulegen/main.go:371-394 | after the macOS build flags comes `build_targets:` and then exactly the build targets; then `test_flags:`, the macOS test flag, `--test_output=errors` and `test_targets:`; the test targets close the body; every line is nested inside the task |
| Presubmit.AllNestedTestTargets | tools/rulegen/main.go:388-394 | every test target line is nested |
| Presubmit.MainTask | tools/rulegen/main.go:366-394 | one main task: the five opening lines, then the body laid out as above; the build targets follow `build_targets:` at line 5 plus the macOS build flags, and the test targets end the task right after `test_targets:`; everything after the header is nested |
| Presubmit.MainTasks | tools/rulegen/main.go:361-395 | the platform loop writes Ubuntu's main task, then macOS's, and nothing for Windows |
| Presubmit.MainTasksSkipWindows | tools/rulegen/main.go:361-365 | the main tasks are Ubuntu's then macOS's, and there is no `main_windows` |
| Presubmit.EnvLinesOf | tools/rulegen/main.go:422-427 | one `key: value` line per key, in the given key order |
| Presubmit.EnvLines | tools/rulegen/main.go:422-427 | one nested line per variable of the map |
| Presubmit.EnvLinesEnumerate | tools/rulegen/main.go:422-427 | the lines follow some enumeration of the map's keys, each key once |
| Presubmit.EnvLinesCover | tools/rulegen/main.go:422-427 | every variable has its line |
| Presubmit.EnvLinesOnly | tools/rulegen/main.go:422-427 | every line is some variable's line |
| Presubmit.EnvBlock | tools/rulegen/main.go:420-428 | `environment:` and the language's and rule's variables appear if and only if either map is non-empty |
| Presubmit.EnvBlockShape | tools/rulegen/main.go:420-428 | a present environment block has 1 + both map sizes lines, all nested |
| Presubmit.EnvBlockCovers | tools/rulegen/main.go:420-428 | every language and rule variable has its line in the block |
| Presubmit.ExampleOpening | tools/rulegen/main.go:409-411 | an example task opens with `<lang>_<rule>_<platform>:`, then the name line `'<lang>: <rule>'`, then the platform |
| Presubmit.ExampleBuild | tools/rulegen/main.go:412-418 | on macOS it opens with `build_flags:` and the `--copt` flag; it always ends with `build_targets:`, the `//...` target and the example's working directory; it is two lines longer on macOS |
| Presubmit.ExampleTask | tools/rulegen/main.go:409-428 | an example task: the three opening lines, then the build part (macOS flags, `build_targets:`, `//...`, the working directory), then exactly the environment block; everything after the header is nested |
| Presubmit.PlatformTriples | tools/rulegen/main.go:404 | one (language, rule, platform) triple per CI platform, in platform order |
| Presubmit.TriplesMembership | tools/rulegen/main.go:400-404 | a triple is enumerated exactly when its pair is in the registry and its platform is a CI platform |
| Presubmit.PlatformTasks | tools/rulegen/main.go:404-428 | the platform loop of one rule writes at most one task per platform: the task of each platform the predicate accepts, and nothing else |
| Presubmit.PairTasks | tools/rulegen/main.go:400-431 | the language and rule loops write at most three tasks per (language, rule) pair |
| Presubmit.ExampleTasks | tools/rulegen/main.go:400-431 | the example tasks are the reference filter applied to all (language, rule, platform) triples, in that order |
| Presubmit.AcceptedTasksIff | tools/rulegen/main.go:404-407 | a triple's task is written if and only if the predicate accepts it |
| Presubmit.AcceptedTasksAppend | tools/rulegen/main.go:400-407 | filtering keeps the order of the triples |
| Presubmit.PlatformTasksAccepted | tools/rulegen/main.go:404-407 | the platform loop of one rule filters that rule's triples |
| Presubmit.ExampleTasksInOrder | tools/rulegen/main.go:400-431 | the example tasks are the accepted triples in language, then rule, then platform order |
| Presubmit.ExampleTasksIff | tools/rulegen/main.go:400-431 | task `lang_rule_platform` is written if and only if the predicate accepts (lang, rule, platform) for a registry rule and a CI platform |
| Presubmit.WorkspaceTask | tools/rulegen/main.go:439-453 | a test-workspace task: header, `test workspace: <name>`, platform; on macOS `build_flags:` with the `--copt` flag, then `test_flags:` with it again, elsewhere `test_flags:` directly; then `--test_output=errors`, `test_targets:`, the `//...` target and the workspace directory last; three lines longer on macOS |
| Presubmit.WorkspacePlatformTasks | tools/rulegen/main.go:435-438 | a workspace gets a task for every platform except the skipped ones |
| Presubmit.WorkspaceTasks | tools/rulegen/main.go:434-455 | the workspace loop writes at most three tasks per workspace (which ones: WorkspaceTasksIff; how many: WorkspaceTaskCount) |
| Presubmit.WorkspaceTasksIff | tools/rulegen/main.go:434-455 | a task is written for a workspace and platform if and only if it is not `python3_grpc` or `python_deps` on Windows |
| Presubmit.WorkspaceTaskCount | tools/rulegen/main.go:434-438 | there are 3 tasks per workspace, minus one for each Python gRPC workspace |
| Presubmit.PresubmitYml | tools/rulegen/main.go:345-459 | the file opens with `---` and `tasks:`; the main tasks follow (their allow-list is the file split at newlines), then the example tasks, then the test-workspace tasks, each group exactly at its place; the file ends blank |
| Presubmit.PresubmitYmlFirstTask | tools/rulegen/main.go:353-366 | the first task of the file is `main_ubuntu1804` |
| TestWorkspaces.WorkspaceNames | tools/rulegen/main.go:544-549 | a name is discovered if and only if its entry is a directory whose name starts with neither `.` nor `bazel-` |
| TestWorkspaces.WorkspaceNamesAppend | tools/rulegen/main.go:545-549 | the filter keeps listing order |
| TestWorkspaces.WorkspaceNamesOne | tools/rulegen/main.go:546 | a hidden entry, a `bazel-` entry or a plain file contributes nothing |
| TestWorkspaces.WorkspaceRule | tools/rulegen/main.go:507-513 | the five lines of a workspace's Makefile rule: `.PHONY: test_workspace_<name>`, the target, `cd` into the joined `<dir>/test_workspaces/<name>`, the test command with the shared `../bazel-disk-cache`, and a blank line |
| TestWorkspaces.WorkspaceRules | tools/rulegen/main.go:506-514 | the rule of workspace `i` is at lines `5i`..`5i+4` |
| TestWorkspaces.WorkspaceTargets | tools/rulegen/main.go:507-508 | one `test_workspace_<name>` target per workspace, in listing order |
| TestWorkspaces.TestWorkspacesMakefile | tools/rulegen/main.go:501-522 | the workspace rules, then `.PHONY: all_test_workspaces`, the target listing them all, and a blank line |
| TestWorkspaces.AllTestWorkspacesRoundTrip | tools/rulegen/main.go:517-518 | the prerequisites of `all_test_workspaces`, split at spaces, are exactly the workspace targets |
| TestWorkspaces.HttpArchiveWorkspace | tools/rulegen/main.go:524-536 | the `http_archive` lines carry the release in `urls`, the hash in `sha256` and the release again in `strip_prefix` |
| TestWorkspaces.HttpArchiveSameRef | tools/rulegen/main.go:530-532 | reading the file back gives the same release from `urls` and from `strip_prefix`, and the hash from `sha256` |

## Left out

- Command-line handling and process exit (`main`, the `action` flag): plumbing, with nothing to prove.
- `mustGetSha256`: it fetches and hashes an archive. The hash is a parameter of `Docs.Readme` and `TestWorkspaces.HttpArchiveWorkspace`.
- The file-system effects: writing, creating directories, reading the listing and the allow-list file, and `log.Fatal` on failure. The listing and the file's text are inputs, and a failed read is not modelled.
- `LineWriter`, the template engine, `doTestOnPlatform`, `stringInSlice`, `ruleData` and the language constructors are not part of this model:
  - `stringInSlice` is sequence membership;
  - `doTestOnPlatform` and template expansion are parameters, with no assumption about them;
  - `path.Join` is a parameter too.
- `mustWriteLanguageExampleBuildFile` and the per-rule template files: each is one template expansion followed by a blank line, which the abstract expander leaves nothing to state about.
- Presubmit.EnvLines: Go iterates maps in no fixed order and the generator does not sort, so the contracts state only which `key: value` lines appear. The model emits the keys in ascending order, but nothing about that order is promised.
- The `envVars` parameter of `mustWriteBazelciPresubmitYml`: the generator never reads it.
- Scaffold.WorkspacePathReachesRoot: states the depth only for clean names. The generator counts the `/` of the raw language directory, while `filepath.Join` drops empty and `.` segments and resolves `..`. For a directory such as `""` or `a//b` the relative path climbs further than the example directory is deep.
- ExamplesMakefile.DiskCacheUnderExamples: states the depth only for clean names, for the same reason; the example directory there comes from `path.Join`.
- A rule's doc is passed to `out.w` as the format string (line 275). The model writes it verbatim, which matches Go only for docs without `%` verbs.
- The allow-list check compares the full label `//example/routeguide:<client>_<server>` with each line of the file.

