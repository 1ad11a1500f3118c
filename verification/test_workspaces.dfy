/**
 * The test workspaces: which directories count as test workspaces, the
 * Makefile that tests each of them, and the `WORKSPACE` of the
 * `readme_http_archive` test workspace.
 *
 * The directory listing is an input: the entries of `test_workspaces/` as
 * the listing returns them.
 */
module TestWorkspaces {
  import opened Strings
  import opened Registry

  /** An entry of a directory listing. */
  datatype DirEntry = DirEntry(name: string, isDir: bool)

  /** A test workspace is a directory whose name starts neither with `.` nor
      with `bazel-` (Bazel's output links and the disk cache). */
  predicate IsWorkspace(e: DirEntry)
  {
    e.isDir && !HasPrefix(e.name, ".") && !HasPrefix(e.name, "bazel-")
  }

  /** The filter of `findTestWorkspaceNames`: the names of the workspace
      entries, in listing order. */
  function WorkspaceNames(entries: seq<DirEntry>): (names: seq<string>)
    ensures |names| <= |entries|
    ensures forall e :: e in entries && IsWorkspace(e) ==> e.name in names
    ensures forall n :: n in names ==> exists e :: e in entries && IsWorkspace(e) && e.name == n
  {
    if |entries| == 0 then []
    else
      var rest := WorkspaceNames(entries[1..]);
      assert forall e :: e in entries <==> e == entries[0] || e in entries[1..];
      (if IsWorkspace(entries[0]) then [entries[0].name] else []) + rest
  }

  /** The filter keeps listing order: it maps a concatenation of listings to
      the concatenation of their names. */
  lemma {:induction false} WorkspaceNamesAppend(a: seq<DirEntry>, b: seq<DirEntry>)
    ensures WorkspaceNames(a + b) == WorkspaceNames(a) + WorkspaceNames(b)
    decreases |a|
  {
    if |a| > 0 {
      assert (a + b)[1..] == a[1..] + b;
      WorkspaceNamesAppend(a[1..], b);
    } else {
      assert a + b == b;
    }
  }

  /** A single entry contributes its name exactly when it is a workspace;
      hidden entries, `bazel-` entries and plain files contribute nothing. */
  lemma {:induction false} WorkspaceNamesOne(e: DirEntry)
    ensures WorkspaceNames([e]) == (if IsWorkspace(e) then [e.name] else [])
    ensures HasPrefix(e.name, ".") || HasPrefix(e.name, "bazel-") || !e.isDir ==> WorkspaceNames([e]) == []
  {
    assert [e][1..] == [];
  }

  // ---------------------------------------------------------------------
  // test_workspaces/Makefile.mk
  // ---------------------------------------------------------------------

  function WorkspaceTarget(name: string): string
  {
    "test_workspace_" + name
  }

  /** The Makefile rule of one test workspace. */
  function WorkspaceRule(join: PathJoin, dir: string, name: string): (b: seq<string>)
    ensures |b| == 5
    ensures b[0] == ".PHONY: " + WorkspaceTarget(name) && b[1] == WorkspaceTarget(name) + ":" && b[4] == ""
    ensures b[2] == "\tcd " + join([dir, "test_workspaces", name]) + "; \\" && b[3] == TestCommand
  {
    [ ".PHONY: " + WorkspaceTarget(name),
      WorkspaceTarget(name) + ":",
      "\tcd " + join([dir, "test_workspaces", name]) + "; \\",
      TestCommand,
      "" ]
  }

  function WorkspaceRules(join: PathJoin, dir: string, names: seq<string>): (r: seq<string>)
    ensures |r| == 5 * |names|
    ensures forall i :: 0 <= i < |names| ==> r[5 * i..5 * i + 5] == WorkspaceRule(join, dir, names[i])
  {
    if |names| == 0 then []
    else
      var head := WorkspaceRule(join, dir, names[0]);
      var rest := WorkspaceRules(join, dir, names[1..]);
      assert forall i :: 1 <= i < |names| ==>
        names[i] == names[1..][i - 1] && (head + rest)[5 * i..5 * i + 5] == rest[5 * (i - 1)..5 * (i - 1) + 5];
      head + rest
  }

  function WorkspaceTargets(names: seq<string>): (ts: seq<string>)
    ensures |ts| == |names|
    ensures forall i :: 0 <= i < |names| ==> ts[i] == WorkspaceTarget(names[i])
  {
    seq(|names|, i requires 0 <= i < |names| => WorkspaceTarget(names[i]))
  }

  /** `mustWriteTestWorkspacesMakefile`: one rule per workspace in listing
      order, then `all_test_workspaces` depending on all of them. */
  function TestWorkspacesMakefile(join: PathJoin, dir: string, names: seq<string>): (mk: seq<string>)
    ensures |mk| == 5 * |names| + 3
    ensures forall i :: 0 <= i < |names| ==> mk[5 * i..5 * i + 5] == WorkspaceRule(join, dir, names[i])
    ensures mk[5 * |names|] == ".PHONY: all_test_workspaces"
    ensures mk[5 * |names| + 1] == "all_test_workspaces: " + Join(WorkspaceTargets(names), " ")
    ensures mk[5 * |names| + 2] == ""
  {
    var rules := WorkspaceRules(join, dir, names);
    var all := [".PHONY: all_test_workspaces", "all_test_workspaces: " + Join(WorkspaceTargets(names), " "), ""];
    assert forall i :: 0 <= i < |names| ==> (rules + all)[5 * i..5 * i + 5] == rules[5 * i..5 * i + 5];
    rules + all
  }

  /** The prerequisites of `all_test_workspaces`, read back by splitting at
      spaces, are exactly the per-workspace targets in listing order (for
      names without spaces, and at least one workspace). */
  lemma {:induction false} AllTestWorkspacesRoundTrip(join: PathJoin, dir: string, names: seq<string>)
    requires |names| >= 1
    requires forall i :: 0 <= i < |names| ==> ' ' !in names[i]
    ensures var mk := TestWorkspacesMakefile(join, dir, names);
      var prefix := "all_test_workspaces: ";
      && HasPrefix(mk[5 * |names| + 1], prefix)
      && Split(mk[5 * |names| + 1][|prefix|..], ' ') == WorkspaceTargets(names)
  {
    var ts := WorkspaceTargets(names);
    forall i | 0 <= i < |ts| ensures ' ' !in ts[i] {
      var t := "test_workspace_";
      assert ' ' !in t;
      assert ts[i] == t + names[i];
    }
    ReadBack("all_test_workspaces: ", ts, ' ');
  }

  // ---------------------------------------------------------------------
  // test_workspaces/readme_http_archive/WORKSPACE
  // ---------------------------------------------------------------------

  /** The command that tests a workspace, with the disk cache shared by all
      test workspaces. */
  const TestCommand: string :=
    "\tbazel --batch test --verbose_failures --disk_cache=../bazel-disk-cache --test_output=errors //..."

  const UrlPrefix: string := "    urls = [\"https://github.com/rules-proto-grpc/rules_proto_grpc/archive/"
  const UrlSuffix: string := ".tar.gz\"],"
  const ShaPrefix: string := "    sha256 = \""
  const StripPrefix: string := "    strip_prefix = \"rules_proto_grpc-"
  const Closing: string := "\","
  const HttpArchiveLoad: string := "load(\"@bazel_tools//tools/build_defs/repo:http.bzl\", \"http_archive\")"
  const ArchiveName: string := "    name = \"rules_proto_grpc\","

  /** `mustWriteHttpArchiveTestWorkspace`: an `http_archive` of the rule
      collection at release `ref` with archive hash `sha256`. */
  function HttpArchiveWorkspace(ref: string, sha256: string): (w: seq<string>)
    ensures |w| == 9
    ensures w[4] == UrlPrefix + ref + UrlSuffix
    ensures w[5] == ShaPrefix + sha256 + Closing
    ensures w[6] == StripPrefix + ref + Closing
  {
    [ HttpArchiveLoad,
      "",
      "http_archive(",
      ArchiveName,
      UrlPrefix + ref + UrlSuffix,
      ShaPrefix + sha256 + Closing,
      StripPrefix + ref + Closing,
      ")",
      "" ]
  }

  /** The text between a known prefix and a known suffix of a line. */
  function Between(line: string, prefix: string, suffix: string): string
  {
    if |prefix| + |suffix| <= |line| then line[|prefix|..|line| - |suffix|] else ""
  }

  /** Reading the workspace back gives the same release reference from the
      `urls` line and from the `strip_prefix` line, and the hash from the
      `sha256` line. */
  lemma {:induction false} HttpArchiveSameRef(ref: string, sha256: string)
    ensures var w := HttpArchiveWorkspace(ref, sha256);
      && Between(w[4], UrlPrefix, UrlSuffix) == ref
      && Between(w[6], StripPrefix, Closing) == ref
      && Between(w[5], ShaPrefix, Closing) == sha256
  {
    BetweenOf(UrlPrefix, ref, UrlSuffix);
    BetweenOf(StripPrefix, ref, Closing);
    BetweenOf(ShaPrefix, sha256, Closing);
  }

  lemma {:induction false} BetweenOf(prefix: string, x: string, suffix: string)
    ensures Between(prefix + x + suffix, prefix, suffix) == x
  {
    var line := prefix + x + suffix;
    assert line[|prefix|..|line| - |suffix|] == x;
  }
}
