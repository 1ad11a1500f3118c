/**
 * The per-example scaffold: the `WORKSPACE` file of `example/<lang.dir>/<rule>`
 * and its `.bazelrc`.
 */
module Scaffold {
  import opened Strings
  import opened Registry

  /** The example directory of a rule, relative to the generator's root.
      `filepath.Join` drops empty and `.` segments and resolves `..`; for
      clean names (see `CleanDir`) it is this plain concatenation. */
  function ExampleDir(lang: Language, rule: Rule): string
  {
    "example" + "/" + lang.dir + "/" + rule.name
  }

  /** A path segment that path joining keeps as it is. */
  predicate CleanSegment(s: string)
  {
    s != "" && s != "." && s != ".."
  }

  /** A directory whose every `/`-separated segment is kept by path joining. */
  predicate CleanDir(d: string)
  {
    forall s :: s in Split(d, '/') ==> CleanSegment(s)
  }

  /** The `local_repository` path from an example directory back to the rule
      collection: one `../` per `/`-separated segment of the language
      directory, plus two for `example/` and the rule directory. The segment
      count is one more than the number of `/` in `langDir`. */
  function WorkspaceRelPath(langDir: string): (p: string)
    ensures p == Repeat("../", Count(langDir, '/') + 3)
  {
    Repeat("../", |Split(langDir, '/')| + 2)
  }

  lemma {:induction false} ExampleDirSlashes(lang: Language, rule: Rule)
    requires '/' !in rule.name
    ensures Count(ExampleDir(lang, rule), '/') == Count(lang.dir, '/') + 2
  {
    var e := "example";
    assert '/' !in e;
    var x := e + "/" + lang.dir;
    CountAroundSeparator(e, '/', lang.dir);
    CountAroundSeparator(x, '/', rule.name);
    assert ExampleDir(lang, rule) == x + ['/'] + rule.name;
  }

  /** The relative path climbs three levels more than the language directory
      has `/`. */
  lemma {:induction false} WorkspaceRelPathLevels(langDir: string)
    ensures UpLevels(WorkspaceRelPath(langDir)) == Count(langDir, '/') + 3
  {
    var n := Count(langDir, '/') + 3;
    var p := WorkspaceRelPath(langDir);
    UpLevelsOfUps(n);
    assert p == Repeat("../", n);
  }

  /** The relative path climbs exactly as many levels as the example directory
      has segments, so it lands on the generator's root. This needs clean
      names: the rule name a single directory, and no empty, `.` or `..`
      segment in the language directory, which joining would drop or
      resolve while the `/` count still includes them. */
  lemma {:induction false} WorkspacePathReachesRoot(lang: Language, rule: Rule)
    requires CleanDir(lang.dir) && CleanSegment(rule.name) && '/' !in rule.name
    ensures UpLevels(WorkspaceRelPath(lang.dir)) == |Split(ExampleDir(lang, rule), '/')|
  {
    WorkspaceRelPathLevels(lang.dir);
    ExampleDirSlashes(lang, rule);
  }

  function PathLine(relpath: string): string
  {
    "    path = \"" + relpath + "\","
  }

  const RepositoryName: string := "    name = \"rules_proto_grpc\","
  const ToolchainsLoad: string :=
    "load(\"@rules_proto_grpc//:repositories.bzl\", \"rules_proto_grpc_toolchains\", \"rules_proto_grpc_repos\")"
  const ProtoLoad: string :=
    "load(\"@rules_proto//proto:repositories.bzl\", \"rules_proto_dependencies\", \"rules_proto_toolchains\")"

  /** The fixed head of an example `WORKSPACE`, one element per line. */
  function WorkspaceHead(relpath: string): seq<string>
  {
    [ "local_repository(",
      RepositoryName,
      PathLine(relpath),
      ")",
      "",
      ToolchainsLoad,
      "rules_proto_grpc_toolchains()",
      "rules_proto_grpc_repos()",
      "",
      ProtoLoad,
      "rules_proto_dependencies()",
      "rules_proto_toolchains()" ]
  }

  /** `mustWriteLanguageExampleWorkspace`: the fixed head with the relative
      path, a blank line, the rule's workspace example and a blank line. */
  function ExampleWorkspace(expand: Expander, lang: Language, rule: Rule): (r: seq<string>)
    ensures var ex := expand(rule.workspaceExample, RuleData(lang, rule));
      && |r| == 14 + |ex|
      && r[0] == "local_repository("
      && r[2] == PathLine(Repeat("../", Count(lang.dir, '/') + 3))
      && r[12] == ""
      && r[13..13 + |ex|] == ex
      && r[|r| - 1] == ""
  {
    WorkspaceHead(WorkspaceRelPath(lang.dir)) + [""]
      + expand(rule.workspaceExample, RuleData(lang, rule)) + [""]
  }

  /** The comment line above a flag: its description, or a bare `#`. */
  function FlagComment(f: Flag): string
  {
    if f.description != "" then "# " + f.description else "#"
  }

  function FlagSetting(f: Flag): string
  {
    f.category + " --" + f.name + "=" + f.value
  }

  /** The description a reader recovers from a flag's comment line. */
  function CommentText(line: string): string
  {
    if |line| >= 2 then line[2..] else ""
  }

  /** The comment line loses nothing: an empty description gives the bare
      marker, and any other description can be read back from it. */
  lemma {:induction false} FlagCommentRoundTrip(f: Flag)
    ensures CommentText(FlagComment(f)) == f.description
    ensures FlagComment(f) == "#" <==> f.description == ""
  {
    if f.description != "" {
      assert FlagComment(f)[2..] == f.description;
    }
  }

  /** Two lines per flag, comment first, in declared order. */
  function FlagLines(flags: seq<Flag>): (r: seq<string>)
    ensures |r| == 2 * |flags|
  {
    if |flags| == 0 then []
    else [FlagComment(flags[0]), FlagSetting(flags[0])] + FlagLines(flags[1..])
  }

  /** The two lines of the flag at position `i`. */
  lemma {:induction false} FlagLinesAt(flags: seq<Flag>, i: nat)
    requires i < |flags|
    ensures FlagLines(flags)[2 * i] == FlagComment(flags[i])
    ensures FlagLines(flags)[2 * i + 1] == FlagSetting(flags[i])
    decreases i
  {
    var rest := FlagLines(flags[1..]);
    assert FlagLines(flags) == [FlagComment(flags[0]), FlagSetting(flags[0])] + rest;
    if i > 0 {
      FlagLinesAt(flags[1..], i - 1);
      assert flags[1..][i - 1] == flags[i];
    }
  }

  lemma {:induction false} FlagLinesContent(flags: seq<Flag>)
    ensures forall i :: 0 <= i < |flags| ==>
      FlagLines(flags)[2 * i] == FlagComment(flags[i]) && FlagLines(flags)[2 * i + 1] == FlagSetting(flags[i])
  {
    forall i | 0 <= i < |flags|
      ensures FlagLines(flags)[2 * i] == FlagComment(flags[i]) && FlagLines(flags)[2 * i + 1] == FlagSetting(flags[i])
    {
      FlagLinesAt(flags, i);
    }
  }

  /** `mustWriteLanguageExampleBazelrcFile`: every language flag, then every
      rule flag, two lines each, then a blank line. */
  function ExampleBazelrc(lang: Language, rule: Rule): (r: seq<string>)
    ensures |r| == 2 * (|lang.flags| + |rule.flags|) + 1
    ensures forall i :: 0 <= i < |lang.flags| ==>
      r[2 * i] == FlagComment(lang.flags[i]) && r[2 * i + 1] == FlagSetting(lang.flags[i])
    ensures forall j :: 0 <= j < |rule.flags| ==>
      var k := 2 * |lang.flags| + 2 * j;
      r[k] == FlagComment(rule.flags[j]) && r[k + 1] == FlagSetting(rule.flags[j])
    ensures r[|r| - 1] == ""
  {
    FlagLinesContent(lang.flags);
    FlagLinesContent(rule.flags);
    FlagLines(lang.flags) + FlagLines(rule.flags) + [""]
  }
}
