/**
 * `.bazelci/presubmit.yml`, the CI matrix: one `main_<platform>` task per
 * platform except Windows, one task per (language, rule, platform) accepted
 * by the platform predicate, and one task per (test workspace, platform)
 * except the Python gRPC workspaces on Windows.
 *
 * The allow-list file is passed in by content and the test workspace
 * directory by its listing.
 */
module Presubmit {
  import opened Strings
  import opened Registry
  import opened Seqs
  import opened TestWorkspaces

  const CoptLine: string := "    - \"--copt=-DGRPC_BAZEL_BUILD\""
  const TestOutputLine: string := "    - \"--test_output=errors\""

  /** A line nested inside a task: indented by at least three spaces, so it
      is never a task header (those are indented by exactly two). */
  predicate Nested(line: string)
  {
    |line| >= 3 && line[0] == ' ' && line[1] == ' ' && line[2] == ' '
  }

  predicate AllNested(s: seq<string>)
  {
    forall i :: 0 <= i < |s| ==> Nested(s[i])
  }

  lemma {:induction false} NestedConcat(a: seq<string>, b: seq<string>)
    requires AllNested(a) && AllNested(b)
    ensures AllNested(a + b)
  {
    forall i | 0 <= i < |a + b| ensures Nested((a + b)[i]) {
      if i < |a| {
        assert (a + b)[i] == a[i];
      } else {
        assert (a + b)[i] == b[i - |a|];
      }
    }
  }

  /** The extra build flag macOS needs, behind its key. */
  function MacosBuildFlags(p: string): (r: seq<string>)
    ensures |r| == (if p == "macos" then 2 else 0)
    ensures AllNested(r)
  {
    if p == "macos" then ["    build_flags:", CoptLine] else []
  }

  /** The extra test flag macOS needs. */
  function MacosTestFlags(p: string): (r: seq<string>)
    ensures |r| == (if p == "macos" then 1 else 0)
    ensures AllNested(r)
  {
    if p == "macos" then [CoptLine] else []
  }

  // ---------------------------------------------------------------------
  // Build targets of a main task
  // ---------------------------------------------------------------------

  function BuildTargetLine(lang: Language): (line: string)
    ensures Nested(line)
  {
    "    - \"//" + lang.dir + "/...\""
  }

  /** One `//<dir>/...` target per language the platform predicate accepts
      for the platform as a whole, in language order. */
  function BuildTargets(sr: PlatformFilter, langs: seq<Language>, p: string): (r: seq<string>)
    ensures |r| <= |langs|
    ensures AllNested(r)
    ensures forall l :: l in langs && sr(l, None, p) ==> BuildTargetLine(l) in r
    ensures forall line :: line in r ==> exists l :: l in langs && sr(l, None, p) && line == BuildTargetLine(l)
  {
    if |langs| == 0 then []
    else
      var rest := BuildTargets(sr, langs[1..], p);
      assert forall l :: l in langs <==> l == langs[0] || l in langs[1..];
      var head := if sr(langs[0], None, p) then [BuildTargetLine(langs[0])] else [];
      NestedConcat(head, rest);
      head + rest
  }

  /** The language loop keeps language order: one more language appends at
      most its own target after those of the languages before it. */
  lemma {:induction false} BuildTargetsAppend(sr: PlatformFilter, langs: seq<Language>, l: Language, p: string)
    ensures BuildTargets(sr, langs + [l], p)
      == BuildTargets(sr, langs, p) + (if sr(l, None, p) then [BuildTargetLine(l)] else [])
    decreases |langs|
  {
    if |langs| > 0 {
      var head := if sr(langs[0], None, p) then [BuildTargetLine(langs[0])] else [];
      assert (langs + [l])[0] == langs[0] && (langs + [l])[1..] == langs[1..] + [l];
      assert BuildTargets(sr, langs + [l], p) == head + BuildTargets(sr, langs[1..] + [l], p);
      BuildTargetsAppend(sr, langs[1..], l, p);
    } else {
      assert [l][1..] == [];
    }
  }

  // ---------------------------------------------------------------------
  // Test targets of a main task: client x server, gated
  // ---------------------------------------------------------------------

  /** The routeguide test of a client language against a server language. */
  function RouteguideLabel(client: Language, server: Language): string
  {
    "//example/routeguide:" + client.name + "_" + server.name
  }

  function TestTargetLine(client: Language, server: Language): (line: string)
    ensures Nested(line)
  {
    "    - \"" + RouteguideLabel(client, server) + "\""
  }

  /** A client/server pair is tested on a platform when the platform
      predicate accepts both languages and the label is, exactly, one of the
      lines of the allow-list. */
  predicate Tested(sr: PlatformFilter, allow: seq<string>, p: string, client: Language, server: Language)
  {
    sr(client, None, p) && sr(server, None, p) && RouteguideLabel(client, server) in allow
  }

  /** The inner loop: one client against every server, in server order. */
  function ServerTargets(sr: PlatformFilter, allow: seq<string>, p: string, client: Language,
                         servers: seq<Language>): (r: seq<string>)
    ensures |r| <= |servers|
    ensures forall s :: s in servers && Tested(sr, allow, p, client, s) ==> TestTargetLine(client, s) in r
    ensures forall line :: line in r ==>
      exists s :: s in servers && Tested(sr, allow, p, client, s) && line == TestTargetLine(client, s)
  {
    if |servers| == 0 then []
    else
      var rest := ServerTargets(sr, allow, p, client, servers[1..]);
      assert forall s :: s in servers <==> s == servers[0] || s in servers[1..];
      (if Tested(sr, allow, p, client, servers[0]) then [TestTargetLine(client, servers[0])] else [])
        + rest
  }

  /** The outer loop: every client, in client order. */
  function ClientTargets(sr: PlatformFilter, allow: seq<string>, p: string, clients: seq<Language>,
                         servers: seq<Language>): (r: seq<string>)
    ensures |r| <= |clients| * |servers|
  {
    if |clients| == 0 then []
    else
      var rest := ClientTargets(sr, allow, p, clients[1..], servers);
      assert |clients| * |servers| == |servers| + |clients[1..]| * |servers|;
      ServerTargets(sr, allow, p, clients[0], servers) + rest
  }

  /** The test targets of the main task for platform `p`: the tested pairs
      of the client-major cross product of the languages, in that order. */
  function TestTargets(sr: PlatformFilter, allow: seq<string>, p: string, langs: seq<Language>): (r: seq<string>)
    ensures r == TestedLines(sr, allow, p, Cross(langs, langs))
  {
    TestTargetsInCrossOrder(sr, allow, p, langs, langs);
    ClientTargets(sr, allow, p, langs, langs)
  }

  /** The pairs of one client with every server. */
  function Row(client: Language, servers: seq<Language>): (r: seq<(Language, Language)>)
    ensures |r| == |servers|
    ensures forall j :: 0 <= j < |servers| ==> r[j] == (client, servers[j])
  {
    seq(|servers|, j requires 0 <= j < |servers| => (client, servers[j]))
  }

  function Rows(clients: seq<Language>, servers: seq<Language>): (rs: seq<seq<(Language, Language)>>)
    ensures |rs| == |clients|
    ensures forall i :: 0 <= i < |clients| ==> rs[i] == Row(clients[i], servers)
  {
    seq(|clients|, i requires 0 <= i < |clients| => Row(clients[i], servers))
  }

  /** The cross product in client-major order: the rows of the clients, one
      after the other. */
  function Cross(clients: seq<Language>, servers: seq<Language>): seq<(Language, Language)>
  {
    Concat(Rows(clients, servers))
  }

  lemma {:induction false} CrossMembership(clients: seq<Language>, servers: seq<Language>, c: Language, s: Language)
    ensures (c, s) in Cross(clients, servers) <==> c in clients && s in servers
    decreases |clients|
  {
    if |clients| > 0 {
      CrossCons(clients, servers);
      CrossMembership(clients[1..], servers, c, s);
      var row := Row(clients[0], servers);
      assert (c, s) in row <==> c == clients[0] && s in servers by {
        if (c, s) in row {
          var j :| 0 <= j < |row| && row[j] == (c, s);
        }
        if c == clients[0] && s in servers {
          var j :| 0 <= j < |servers| && servers[j] == s;
          assert row[j] == (c, s);
        }
      }
      assert c in clients <==> c == clients[0] || c in clients[1..] by {
        assert clients == [clients[0]] + clients[1..];
      }
    } else {
      assert Rows(clients, servers) == [];
    }
  }

  lemma {:induction false} CrossCons(clients: seq<Language>, servers: seq<Language>)
    requires |clients| > 0
    ensures Cross(clients, servers) == Row(clients[0], servers) + Cross(clients[1..], servers)
  {
    assert Rows(clients, servers)[1..] == Rows(clients[1..], servers);
  }

  /** The reference: the target lines of the tested pairs, in the order of
      the given pairs. */
  function TestedLines(sr: PlatformFilter, allow: seq<string>, p: string, pairs: seq<(Language, Language)>): (r: seq<string>)
    ensures forall line :: line in r ==>
      exists q :: q in pairs && Tested(sr, allow, p, q.0, q.1) && line == TestTargetLine(q.0, q.1)
    ensures forall q :: q in pairs && Tested(sr, allow, p, q.0, q.1) ==> TestTargetLine(q.0, q.1) in r
  {
    if |pairs| == 0 then []
    else
      var rest := TestedLines(sr, allow, p, pairs[1..]);
      assert forall q :: q in pairs <==> q == pairs[0] || q in pairs[1..];
      (if Tested(sr, allow, p, pairs[0].0, pairs[0].1) then [TestTargetLine(pairs[0].0, pairs[0].1)] else [])
        + rest
  }

  lemma {:induction false} TestedLinesAppend(sr: PlatformFilter, allow: seq<string>, p: string,
                                             a: seq<(Language, Language)>, b: seq<(Language, Language)>)
    ensures TestedLines(sr, allow, p, a + b) == TestedLines(sr, allow, p, a) + TestedLines(sr, allow, p, b)
    decreases |a|
  {
    if |a| > 0 {
      assert (a + b)[1..] == a[1..] + b;
      TestedLinesAppend(sr, allow, p, a[1..], b);
    } else {
      assert a + b == b;
    }
  }

  lemma {:induction false} ServerTargetsAreRow(sr: PlatformFilter, allow: seq<string>, p: string,
                                               client: Language, servers: seq<Language>)
    ensures ServerTargets(sr, allow, p, client, servers) == TestedLines(sr, allow, p, Row(client, servers))
    decreases |servers|
  {
    if |servers| > 0 {
      ServerTargetsAreRow(sr, allow, p, client, servers[1..]);
      assert Row(client, servers)[1..] == Row(client, servers[1..]);
    }
  }

  /** The nested loops list exactly the tested pairs of the client-major
      cross product, in that order. */
  lemma {:induction false} TestTargetsInCrossOrder(sr: PlatformFilter, allow: seq<string>, p: string,
                                                   clients: seq<Language>, servers: seq<Language>)
    ensures ClientTargets(sr, allow, p, clients, servers) == TestedLines(sr, allow, p, Cross(clients, servers))
    decreases |clients|
  {
    if |clients| > 0 {
      CrossCons(clients, servers);
      ServerTargetsAreRow(sr, allow, p, clients[0], servers);
      TestTargetsInCrossOrder(sr, allow, p, clients[1..], servers);
      TestedLinesAppend(sr, allow, p, Row(clients[0], servers), Cross(clients[1..], servers));
    } else {
      assert Rows(clients, servers) == [];
    }
  }

  /** A routeguide target is listed exactly for the client/server pairs of
      registry languages that the platform predicate accepts and whose label
      is in the allow-list. */
  lemma {:induction false} TestTargetsIff(sr: PlatformFilter, allow: seq<string>, p: string, langs: seq<Language>)
    ensures forall c, s :: c in langs && s in langs && Tested(sr, allow, p, c, s) ==>
      TestTargetLine(c, s) in TestTargets(sr, allow, p, langs)
    ensures forall line :: line in TestTargets(sr, allow, p, langs) ==>
      exists c, s :: c in langs && s in langs && Tested(sr, allow, p, c, s) && line == TestTargetLine(c, s)
  {
    TestTargetsInCrossOrder(sr, allow, p, langs, langs);
    var cross := Cross(langs, langs);
    forall c, s | c in langs && s in langs && Tested(sr, allow, p, c, s)
      ensures TestTargetLine(c, s) in TestTargets(sr, allow, p, langs)
    {
      CrossMembership(langs, langs, c, s);
      assert (c, s) in cross;
    }
    forall line | line in TestTargets(sr, allow, p, langs)
      ensures exists c, s :: c in langs && s in langs && Tested(sr, allow, p, c, s) && line == TestTargetLine(c, s)
    {
      var q :| q in cross && Tested(sr, allow, p, q.0, q.1) && line == TestTargetLine(q.0, q.1);
      CrossMembership(langs, langs, q.0, q.1);
    }
  }

  // ---------------------------------------------------------------------
  // Main tasks
  // ---------------------------------------------------------------------

  function MainHeader(p: string): string
  {
    "  main_" + p + ":"
  }

  /** The fixed lines that open a main task. */
  function MainOpening(p: string): (r: seq<string>)
    ensures |r| == 5 && r[0] == MainHeader(p) && r[2] == "    platform: " + p
    ensures r[1] == "    name: build & test all" && r[3..] == ["    environment:", "      CC: clang"]
    ensures AllNested(r[1..])
  {
    [MainHeader(p), "    name: build & test all", "    platform: " + p, "    environment:", "      CC: clang"]
  }

  /** The layout of the part of a main task after its opening: the macOS
      build flags `mb`, `build_targets:` and the build targets `bt`,
      `test_flags:`, the macOS test flags `mt`, the test-output flag,
      `test_targets:` and the test targets `tt`. */
  predicate BodyLayout(r: seq<string>, mb: seq<string>, bt: seq<string>, mt: seq<string>, tt: seq<string>)
  {
    && |r| == |mb| + |bt| + |mt| + |tt| + 4
    && r[..|mb|] == mb
    && r[|mb|] == "    build_targets:"
    && r[|mb| + 1..|mb| + 1 + |bt|] == bt
    && r[|mb| + 1 + |bt|] == "    test_flags:"
    && r[|mb| + 2 + |bt|..|r| - |tt| - 2] == mt
    && r[|r| - |tt| - 2] == TestOutputLine
    && r[|r| - |tt| - 1] == "    test_targets:"
    && r[|r| - |tt|..] == tt
  }

  /** The part of a main task after its opening: build flags on macOS, the
      build targets, the test flags and the test targets. */
  function MainBody(sr: PlatformFilter, allow: seq<string>, langs: seq<Language>, p: string): (r: seq<string>)
    ensures BodyLayout(r, MacosBuildFlags(p), BuildTargets(sr, langs, p), MacosTestFlags(p), TestTargets(sr, allow, p, langs))
    ensures AllNested(r)
  {
    AllNestedTestTargets(sr, allow, p, langs);
    AssembleBody(MacosBuildFlags(p), BuildTargets(sr, langs, p), MacosTestFlags(p), TestTargets(sr, allow, p, langs))
  }

  /** Lays out the body of a main task from its four variable parts. */
  function AssembleBody(mb: seq<string>, bt: seq<string>, mt: seq<string>, tt: seq<string>): (r: seq<string>)
    requires AllNested(mb) && AllNested(bt) && AllNested(mt) && AllNested(tt)
    ensures BodyLayout(r, mb, bt, mt, tt)
    ensures AllNested(r)
  {
    var build := mb + ["    build_targets:"] + bt;
    var flags := ["    test_flags:"] + mt + [TestOutputLine, "    test_targets:"];
    Place3(mb, ["    build_targets:"], bt);
    Place3(["    test_flags:"], mt, [TestOutputLine, "    test_targets:"]);
    BodyParts(build, flags, tt, |mb|, |bt|, |mt|);
    NestedConcat(mb, ["    build_targets:"]);
    NestedConcat(mb + ["    build_targets:"], bt);
    NestedConcat(["    test_flags:"], mt);
    NestedConcat(["    test_flags:"] + mt, [TestOutputLine, "    test_targets:"]);
    NestedConcat(build, flags);
    NestedConcat(build + flags, tt);
    build + flags + tt
  }

  /** Where the lines of the build part and of the test-flag part of a main
      task land once the test targets follow them. */
  lemma {:induction false} BodyParts(build: seq<string>, flags: seq<string>, tt: seq<string>, m: nat, b: nat, t: nat)
    requires |build| == m + 1 + b && |flags| == t + 3
    ensures var r := build + flags + tt;
      && r[..m] == build[..m] && r[m] == build[m] && r[m + 1..m + 1 + b] == build[m + 1..]
      && r[m + 1 + b] == flags[0] && r[m + 2 + b..|r| - |tt| - 2] == flags[1..t + 1]
      && r[|r| - |tt| - 2] == flags[t + 1] && r[|r| - |tt| - 1] == flags[t + 2]
      && r[|r| - |tt|..] == tt
  {
    var r := build + flags + tt;
    Place3(build, flags, tt);
    assert r[..m] == r[..|build|][..m];
    assert r[m + 1..m + 1 + b] == r[..|build|][m + 1..];
    SliceOfSuffix(r[..|build| + |flags|], |build|, 1, t + 1);
    assert r[m + 2 + b..|r| - |tt| - 2] == r[..|build| + |flags|][|build| + 1..|build| + t + 1];
  }

  lemma {:induction false} AllNestedTestTargets(sr: PlatformFilter, allow: seq<string>, p: string, langs: seq<Language>)
    ensures AllNested(TestTargets(sr, allow, p, langs))
  {
    var tt := TestTargets(sr, allow, p, langs);
    TestTargetsIff(sr, allow, p, langs);
    forall i | 0 <= i < |tt| ensures Nested(tt[i]) {
      assert tt[i] in tt;
    }
  }

  /** The layout of a main task: the five opening lines, then the body laid
      out by `BodyLayout`, so that the build targets `bt` follow
      `build_targets:` and the test targets `tt` end the task after
      `test_targets:`. */
  predicate TaskLayout(r: seq<string>, opening: seq<string>, mb: seq<string>, bt: seq<string>, mt: seq<string>, tt: seq<string>)
  {
    && |opening| == 5 && 5 <= |r| && r[..5] == opening
    && BodyLayout(r[5..], mb, bt, mt, tt)
    && 6 + |mb| + |bt| < |r| && r[5 + |mb|] == "    build_targets:" && r[6 + |mb|..6 + |mb| + |bt|] == bt
    && |tt| + 7 <= |r| && r[|r| - |tt| - 1] == "    test_targets:" && r[|r| - |tt|..] == tt
  }

  /** One main task: its opening, then the body, whose build targets follow
      `build_targets:` and whose test targets end the task after
      `test_targets:`; every line after the header is nested. */
  function MainTask(sr: PlatformFilter, allow: seq<string>, langs: seq<Language>, p: string): (r: seq<string>)
    ensures |r| > 5 && r[0] == MainHeader(p) && r[2] == "    platform: " + p
    ensures TaskLayout(r, MainOpening(p), MacosBuildFlags(p), BuildTargets(sr, langs, p), MacosTestFlags(p),
                       TestTargets(sr, allow, p, langs))
    ensures AllNested(r[1..])
  {
    var opening := MainOpening(p);
    var body := MainBody(sr, allow, langs, p);
    TaskOf(opening, body, MacosBuildFlags(p), BuildTargets(sr, langs, p), MacosTestFlags(p), TestTargets(sr, allow, p, langs));
    opening + body
  }

  /** A five-line opening followed by a nested body gives a task whose lines
      after the header are nested and whose targets sit at their places. */
  lemma {:induction false} TaskOf(opening: seq<string>, body: seq<string>,
                                  mb: seq<string>, bt: seq<string>, mt: seq<string>, tt: seq<string>)
    requires |opening| == 5 && AllNested(opening[1..]) && AllNested(body) && BodyLayout(body, mb, bt, mt, tt)
    ensures var r := opening + body;
      |r| > 5 && r[0] == opening[0] && r[2] == opening[2] && AllNested(r[1..])
    ensures TaskLayout(opening + body, opening, mb, bt, mt, tt)
  {
    assert (opening + body)[1..] == opening[1..] + body;
    NestedConcat(opening[1..], body);
    TargetsInTask(opening, body, mb, bt, mt, tt);
  }

  /** The build and test targets of a body keep their places behind an
      opening of five lines. */
  lemma {:induction false} TargetsInTask(opening: seq<string>, body: seq<string>,
                                         mb: seq<string>, bt: seq<string>, mt: seq<string>, tt: seq<string>)
    requires |opening| == 5 && BodyLayout(body, mb, bt, mt, tt)
    ensures TaskLayout(opening + body, opening, mb, bt, mt, tt)
  {
    var r := opening + body;
    assert r[5..] == body;
    SliceOfSuffix(r, 5, |mb| + 1, |mb| + 1 + |bt|);
    assert r[|r| - |tt|..] == body[|body| - |tt|..];
  }

  /** The loop over the CI platforms, skipping Windows. */
  function MainTasksOver(sr: PlatformFilter, allow: seq<string>, langs: seq<Language>, ps: seq<string>): seq<string>
  {
    if |ps| == 0 then []
    else if ps[0] == "windows" then MainTasksOver(sr, allow, langs, ps[1..])
    else MainTask(sr, allow, langs, ps[0]) + MainTasksOver(sr, allow, langs, ps[1..])
  }

  /** The main tasks: Ubuntu's, then macOS's. */
  function MainTasks(sr: PlatformFilter, allow: seq<string>, langs: seq<Language>): (r: seq<string>)
    ensures r == MainTask(sr, allow, langs, "ubuntu1804") + MainTask(sr, allow, langs, "macos")
  {
    MainTasksOverCi(sr, allow, langs);
    MainTasksOver(sr, allow, langs, CiPlatforms)
  }

  /** The platform loop over the CI platforms skips Windows. */
  lemma {:induction false} MainTasksOverCi(sr: PlatformFilter, allow: seq<string>, langs: seq<Language>)
    ensures MainTasksOver(sr, allow, langs, CiPlatforms)
      == MainTask(sr, allow, langs, "ubuntu1804") + MainTask(sr, allow, langs, "macos")
  {
    var u := MainTask(sr, allow, langs, "ubuntu1804");
    var m := MainTask(sr, allow, langs, "macos");
    var ps := CiPlatforms;
    assert ps[0] == "ubuntu1804" && ps[1] == "windows";
    assert ps[1..][1..] == ["macos"];
    assert MainTasksOver(sr, allow, langs, ["macos"]) == m by {
      assert ["macos"][1..] == [];
      assert m + [] == m;
    }
    assert MainTasksOver(sr, allow, langs, ps[1..]) == m;
  }

  /** Exactly two main tasks are written, for Ubuntu and then macOS; there is
      no main task for Windows. */
  lemma {:induction false} MainTasksSkipWindows(sr: PlatformFilter, allow: seq<string>, langs: seq<Language>)
    ensures MainTasks(sr, allow, langs)
      == MainTask(sr, allow, langs, "ubuntu1804") + MainTask(sr, allow, langs, "macos")
    ensures MainHeader("windows") !in MainTasks(sr, allow, langs)
  {
    var u := MainTask(sr, allow, langs, "ubuntu1804");
    var m := MainTask(sr, allow, langs, "macos");
    var w := MainHeader("windows");
    assert !Nested(w);
    assert w != MainHeader("ubuntu1804") && w != MainHeader("macos");
    forall i | 0 <= i < |u + m| ensures (u + m)[i] != w {
      if i == 0 {
        assert (u + m)[i] == u[0];
      } else if i < |u| {
        assert (u + m)[i] == u[1..][i - 1];
      } else if i == |u| {
        assert (u + m)[i] == m[0];
      } else {
        assert (u + m)[i] == m[1..][i - |u| - 1];
      }
    }
  }

  // ---------------------------------------------------------------------
  // Example tasks
  // ---------------------------------------------------------------------

  function ExampleHeader(lang: Language, rule: Rule, p: string): string
  {
    "  " + lang.name + "_" + rule.name + "_" + p + ":"
  }

  function EnvLine(k: string, v: string): (line: string)
    ensures Nested(line)
  {
    "      " + k + ": " + v
  }

  /** `keys` lists every key of `m` exactly once, in some order. */
  ghost predicate Enumerates(keys: seq<string>, m: map<string, string>)
  {
    |keys| == |m| && forall k :: k in keys <==> k in m
  }

  /** The environment lines for the given keys, in the given order. */
  function EnvLinesOf(keys: seq<string>, m: map<string, string>): (r: seq<string>)
    requires forall k :: k in keys ==> k in m
    ensures |r| == |keys|
    ensures forall i :: 0 <= i < |keys| ==> r[i] == EnvLine(keys[i], m[keys[i]])
  {
    if |keys| == 0 then []
    else
      assert forall i :: 1 <= i < |keys| ==> keys[i] == keys[1..][i - 1];
      [EnvLine(keys[0], m[keys[0]])] + EnvLinesOf(keys[1..], m)
  }

  /** One `key: value` line per entry of an environment map, each nested in
      its task. */
  function EnvLines(m: map<string, string>): (r: seq<string>)
    ensures |r| == |m|
    ensures AllNested(r)
  {
    EnvLinesOf(SortedKeys(m), m)
  }

  /** Go iterates the map in no fixed order, so all that is promised is that
      the lines follow SOME order of the keys, each key once (the model
      happens to use key order). */
  lemma {:induction false} EnvLinesEnumerate(m: map<string, string>)
    ensures exists keys :: Enumerates(keys, m) && EnvLines(m) == EnvLinesOf(keys, m)
  {
    var keys := SortedKeys(m);
    assert Enumerates(keys, m);
  }

  /** Each variable of the map gets its line. */
  lemma {:induction false} EnvLinesCover(m: map<string, string>)
    ensures forall k :: k in m ==> EnvLine(k, m[k]) in EnvLines(m)
  {
    EnvLinesEnumerate(m);
    var r := EnvLines(m);
    var keys :| Enumerates(keys, m) && r == EnvLinesOf(keys, m);
    forall k | k in m ensures EnvLine(k, m[k]) in r {
      assert k in keys;
      var i :| 0 <= i < |keys| && keys[i] == k;
      assert r[i] == EnvLine(k, m[k]);
    }
  }

  /** Each line is the line of a variable of the map. */
  lemma {:induction false} EnvLinesOnly(m: map<string, string>)
    ensures forall line :: line in EnvLines(m) ==> exists k :: k in m && line == EnvLine(k, m[k])
  {
    EnvLinesEnumerate(m);
    var r := EnvLines(m);
    var keys :| Enumerates(keys, m) && r == EnvLinesOf(keys, m);
    forall line | line in r ensures exists k :: k in m && line == EnvLine(k, m[k]) {
      var i :| 0 <= i < |r| && r[i] == line;
      assert keys[i] in keys;
    }
  }

  function EnvKey(): (h: seq<string>)
    ensures |h| == 1 && AllNested(h)
  {
    ["    environment:"]
  }

  /** The environment block of an example task: present exactly when the
      language or the rule has presubmit environment variables, and then the
      lines of the language's variables followed by those of the rule's. */
  function EnvBlock(lang: Language, rule: Rule): (b: seq<string>)
    ensures |b| > 0 <==> |lang.presubmitEnvVars| > 0 || |rule.presubmitEnvVars| > 0
    ensures |b| > 0 ==>
      b == EnvKey() + EnvLines(lang.presubmitEnvVars) + EnvLines(rule.presubmitEnvVars)
  {
    if |lang.presubmitEnvVars| > 0 || |rule.presubmitEnvVars| > 0 then
      EnvKey() + EnvLines(lang.presubmitEnvVars) + EnvLines(rule.presubmitEnvVars)
    else []
  }

  /** The block is nested in its task and has one line per variable, after
      its key line. */
  lemma {:induction false} EnvBlockShape(lang: Language, rule: Rule)
    ensures var b := EnvBlock(lang, rule);
      && AllNested(b)
      && (|b| > 0 ==> |b| == 1 + |lang.presubmitEnvVars| + |rule.presubmitEnvVars|)
  {
    if |EnvBlock(lang, rule)| > 0 {
      EnvBlockParts(EnvKey(), EnvLines(lang.presubmitEnvVars), EnvLines(rule.presubmitEnvVars));
    }
  }

  /** Every variable of the language and of the rule is set in the block. */
  lemma {:induction false} EnvBlockCovers(lang: Language, rule: Rule)
    ensures var b := EnvBlock(lang, rule);
      && (forall k :: k in lang.presubmitEnvVars ==> EnvLine(k, lang.presubmitEnvVars[k]) in b)
      && (forall k :: k in rule.presubmitEnvVars ==> EnvLine(k, rule.presubmitEnvVars[k]) in b)
  {
    if |EnvBlock(lang, rule)| > 0 {
      EnvLinesCover(lang.presubmitEnvVars);
      EnvLinesCover(rule.presubmitEnvVars);
      EnvBlockParts(EnvKey(), EnvLines(lang.presubmitEnvVars), EnvLines(rule.presubmitEnvVars));
    } else {
      assert lang.presubmitEnvVars == map[];
      assert rule.presubmitEnvVars == map[];
    }
  }

  lemma {:induction false} EnvBlockParts(h: seq<string>, a: seq<string>, c: seq<string>)
    requires AllNested(h) && AllNested(a) && AllNested(c)
    ensures forall line :: line in a ==> line in h + a + c
    ensures forall line :: line in c ==> line in h + a + c
    ensures AllNested(h + a + c)
  {
    forall line | line in a ensures line in h + a + c {
      var i :| 0 <= i < |a| && a[i] == line;
      assert (h + a + c)[|h| + i] == line;
    }
    forall line | line in c ensures line in h + a + c {
      var i :| 0 <= i < |c| && c[i] == line;
      assert (h + a + c)[|h| + |a| + i] == line;
    }
    NestedConcat(h, a);
    NestedConcat(h + a, c);
  }

  /** The lines that open an example task. */
  function ExampleOpening(lang: Language, rule: Rule, p: string): (r: seq<string>)
    ensures |r| == 3 && r[0] == ExampleHeader(lang, rule, p) && r[2] == "    platform: " + p
    ensures r[1] == "    name: '" + lang.name + ": " + rule.name + "'"
    ensures AllNested(r[1..])
  {
    [ExampleHeader(lang, rule, p), "    name: '" + lang.name + ": " + rule.name + "'", "    platform: " + p]
  }

  /** The build part of an example task, ending in the example directory. */
  function ExampleBuild(join: PathJoin, dir: string, lang: Language, rule: Rule, p: string): (r: seq<string>)
    ensures |r| == 3 + (if p == "macos" then 2 else 0)
    ensures p == "macos" ==> r[0] == "    build_flags:" && r[1] == CoptLine
    ensures r[|r| - 3] == "    build_targets:" && r[|r| - 2] == "      - \"//...\""
    ensures r[|r| - 1] == "    working_directory: " + join([dir, "example", lang.dir, rule.name])
    ensures AllNested(r)
  {
    var tail := ["    build_targets:", "      - \"//...\"", "    working_directory: " + join([dir, "example", lang.dir, rule.name])];
    NestedConcat(MacosBuildFlags(p), tail);
    MacosBuildFlags(p) + tail
  }

  /** The task that builds the example of `rule` on platform `p`: its
      opening, its build part, then the environment block; every line after
      the header is nested. */
  function ExampleTask(join: PathJoin, dir: string, lang: Language, rule: Rule, p: string): (t: seq<string>)
    ensures var env := EnvBlock(lang, rule);
      && |t| == 6 + (if p == "macos" then 2 else 0) + |env|
      && t[0] == ExampleHeader(lang, rule, p)
      && t[2] == "    platform: " + p
      && t[|t| - |env|..] == env
    ensures t[..3] == ExampleOpening(lang, rule, p)
    ensures t[3..|t| - |EnvBlock(lang, rule)|] == ExampleBuild(join, dir, lang, rule, p)
    ensures AllNested(t[1..])
  {
    var opening := ExampleOpening(lang, rule, p);
    var build := ExampleBuild(join, dir, lang, rule, p);
    var env := EnvBlock(lang, rule);
    EnvBlockShape(lang, rule);
    Place3(opening, build, env);
    NestedAfterHead(opening, build, env);
    opening + build + env
  }

  lemma {:induction false} NestedAfterHead(a: seq<string>, b: seq<string>, c: seq<string>)
    requires |a| > 0 && AllNested(a[1..]) && AllNested(b) && AllNested(c)
    ensures AllNested((a + b + c)[1..])
  {
    assert (a + b + c)[1..] == a[1..] + b + c;
    NestedConcat(a[1..], b);
    NestedConcat(a[1..] + b, c);
  }

  /** The inner loop over the platforms for one (language, rule) pair. */
  function PlatformTasks(sr: PlatformFilter, join: PathJoin, dir: string, lang: Language, rule: Rule,
                         ps: seq<string>): (r: seq<seq<string>>)
    ensures |r| <= |ps|
    ensures forall p :: p in ps && sr(lang, Some(rule), p) ==> ExampleTask(join, dir, lang, rule, p) in r
    ensures forall b :: b in r ==>
      exists p :: p in ps && sr(lang, Some(rule), p) && b == ExampleTask(join, dir, lang, rule, p)
  {
    if |ps| == 0 then []
    else
      var rest := PlatformTasks(sr, join, dir, lang, rule, ps[1..]);
      assert forall p :: p in ps <==> p == ps[0] || p in ps[1..];
      (if sr(lang, Some(rule), ps[0]) then [ExampleTask(join, dir, lang, rule, ps[0])] else [])
        + rest
  }

  /** The outer loops over the languages and their rules, as the list of
      task blocks. */
  function PairTasks(sr: PlatformFilter, join: PathJoin, dir: string, pairs: seq<(Language, Rule)>): (r: seq<seq<string>>)
    ensures |r| <= |CiPlatforms| * |pairs|
  {
    if |pairs| == 0 then []
    else
      var rest := PairTasks(sr, join, dir, pairs[1..]);
      assert |CiPlatforms| * |pairs| == |CiPlatforms| + |CiPlatforms| * |pairs[1..]|;
      PlatformTasks(sr, join, dir, pairs[0].0, pairs[0].1, CiPlatforms) + rest
  }

  /** The example tasks: those of the accepted (language, rule, platform)
      triples, in language, rule, platform order. */
  function ExampleTasks(sr: PlatformFilter, join: PathJoin, dir: string, langs: seq<Language>): (r: seq<seq<string>>)
    ensures r == AcceptedTasks(sr, join, dir, Triples(Pairs(langs)))
  {
    ExampleTasksInOrder(sr, join, dir, Pairs(langs));
    PairTasks(sr, join, dir, Pairs(langs))
  }

  type Triple = (Language, Rule, string)

  /** Every (language, rule, platform) triple in order: language, then rule,
      then platform. */
  function Triples(pairs: seq<(Language, Rule)>): seq<Triple>
  {
    Concat(seq(|pairs|, i requires 0 <= i < |pairs| => PlatformTriples(pairs[i].0, pairs[i].1)))
  }

  function PlatformTriples(lang: Language, rule: Rule): (ts: seq<Triple>)
    ensures |ts| == |CiPlatforms|
    ensures forall j :: 0 <= j < |CiPlatforms| ==> ts[j] == (lang, rule, CiPlatforms[j])
  {
    seq(|CiPlatforms|, j requires 0 <= j < |CiPlatforms| => (lang, rule, CiPlatforms[j]))
  }

  lemma {:induction false} TriplesCons(pairs: seq<(Language, Rule)>)
    requires |pairs| > 0
    ensures Triples(pairs) == PlatformTriples(pairs[0].0, pairs[0].1) + Triples(pairs[1..])
  {
    var blocks := seq(|pairs|, i requires 0 <= i < |pairs| => PlatformTriples(pairs[i].0, pairs[i].1));
    assert blocks[1..] == seq(|pairs[1..]|, i requires 0 <= i < |pairs[1..]| => PlatformTriples(pairs[1..][i].0, pairs[1..][i].1));
  }

  lemma {:induction false} TriplesMembership(pairs: seq<(Language, Rule)>, t: Triple)
    ensures t in Triples(pairs) <==> (t.0, t.1) in pairs && t.2 in CiPlatforms
    decreases |pairs|
  {
    if |pairs| > 0 {
      TriplesCons(pairs);
      TriplesMembership(pairs[1..], t);
      var row := PlatformTriples(pairs[0].0, pairs[0].1);
      assert t in row <==> (t.0, t.1) == pairs[0] && t.2 in CiPlatforms by {
        if t in row {
          var j :| 0 <= j < |row| && row[j] == t;
        }
        if (t.0, t.1) == pairs[0] && t.2 in CiPlatforms {
          var j :| 0 <= j < |CiPlatforms| && CiPlatforms[j] == t.2;
          assert row[j] == t;
        }
      }
      assert (t.0, t.1) in pairs <==> (t.0, t.1) == pairs[0] || (t.0, t.1) in pairs[1..] by {
        assert pairs == [pairs[0]] + pairs[1..];
      }
    } else {
      assert Triples(pairs) == [];
    }
  }

  /** The reference: one task per triple the platform predicate accepts, in
      the order of the given triples. */
  function AcceptedTasks(sr: PlatformFilter, join: PathJoin, dir: string, ts: seq<Triple>): seq<seq<string>>
  {
    if |ts| == 0 then []
    else
      (if sr(ts[0].0, Some(ts[0].1), ts[0].2) then [ExampleTask(join, dir, ts[0].0, ts[0].1, ts[0].2)] else [])
        + AcceptedTasks(sr, join, dir, ts[1..])
  }

  /** The reference holds the task of every accepted triple and nothing
      else. */
  lemma {:induction false} AcceptedTasksIff(sr: PlatformFilter, join: PathJoin, dir: string, ts: seq<Triple>)
    ensures forall t :: t in ts && sr(t.0, Some(t.1), t.2) ==>
      ExampleTask(join, dir, t.0, t.1, t.2) in AcceptedTasks(sr, join, dir, ts)
    ensures forall b :: b in AcceptedTasks(sr, join, dir, ts) ==>
      exists t :: t in ts && sr(t.0, Some(t.1), t.2) && b == ExampleTask(join, dir, t.0, t.1, t.2)
    decreases |ts|
  {
    if |ts| > 0 {
      AcceptedTasksIff(sr, join, dir, ts[1..]);
      var t0 := ts[0];
      var head := if sr(t0.0, Some(t0.1), t0.2) then [ExampleTask(join, dir, t0.0, t0.1, t0.2)] else [];
      var rest := AcceptedTasks(sr, join, dir, ts[1..]);
      assert AcceptedTasks(sr, join, dir, ts) == head + rest;
      assert forall t :: t in ts <==> t == t0 || t in ts[1..];
      forall b | b in head + rest
        ensures exists t :: t in ts && sr(t.0, Some(t.1), t.2) && b == ExampleTask(join, dir, t.0, t.1, t.2)
      {
        if b in head {
          assert t0 in ts && sr(t0.0, Some(t0.1), t0.2) && b == ExampleTask(join, dir, t0.0, t0.1, t0.2);
        } else {
          assert b in rest;
          var t :| t in ts[1..] && sr(t.0, Some(t.1), t.2) && b == ExampleTask(join, dir, t.0, t.1, t.2);
          assert t in ts;
        }
      }
    }
  }

  lemma {:induction false} AcceptedTasksAppend(sr: PlatformFilter, join: PathJoin, dir: string, a: seq<Triple>, b: seq<Triple>)
    ensures AcceptedTasks(sr, join, dir, a + b) == AcceptedTasks(sr, join, dir, a) + AcceptedTasks(sr, join, dir, b)
    decreases |a|
  {
    if |a| > 0 {
      var t := a[0];
      var head := if sr(t.0, Some(t.1), t.2) then [ExampleTask(join, dir, t.0, t.1, t.2)] else [];
      assert (a + b)[0] == t;
      assert (a + b)[1..] == a[1..] + b;
      AcceptedTasksAppend(sr, join, dir, a[1..], b);
      assert AcceptedTasks(sr, join, dir, a + b) == head + AcceptedTasks(sr, join, dir, a[1..] + b);
      assert AcceptedTasks(sr, join, dir, a) == head + AcceptedTasks(sr, join, dir, a[1..]);
    } else {
      assert a + b == b;
    }
  }

  lemma {:induction false} PlatformTasksAccepted(sr: PlatformFilter, join: PathJoin, dir: string, lang: Language,
                                                 rule: Rule, ps: seq<string>)
    ensures PlatformTasks(sr, join, dir, lang, rule, ps)
      == AcceptedTasks(sr, join, dir, seq(|ps|, j requires 0 <= j < |ps| => (lang, rule, ps[j])))
    decreases |ps|
  {
    var ts := seq(|ps|, j requires 0 <= j < |ps| => (lang, rule, ps[j]));
    if |ps| > 0 {
      PlatformTasksAccepted(sr, join, dir, lang, rule, ps[1..]);
      assert ts[1..] == seq(|ps[1..]|, j requires 0 <= j < |ps[1..]| => (lang, rule, ps[1..][j]));
    }
  }

  /** The nested loops write exactly the accepted triples' tasks, in
      language, rule, platform order. */
  lemma {:induction false} ExampleTasksInOrder(sr: PlatformFilter, join: PathJoin, dir: string, pairs: seq<(Language, Rule)>)
    ensures PairTasks(sr, join, dir, pairs) == AcceptedTasks(sr, join, dir, Triples(pairs))
    decreases |pairs|
  {
    if |pairs| > 0 {
      var row := PlatformTriples(pairs[0].0, pairs[0].1);
      TriplesCons(pairs);
      PlatformTasksAccepted(sr, join, dir, pairs[0].0, pairs[0].1, CiPlatforms);
      assert row == seq(|CiPlatforms|, j requires 0 <= j < |CiPlatforms| => (pairs[0].0, pairs[0].1, CiPlatforms[j]));
      ExampleTasksInOrder(sr, join, dir, pairs[1..]);
      AcceptedTasksAppend(sr, join, dir, row, Triples(pairs[1..]));
    } else {
      assert Triples(pairs) == [];
    }
  }

  /** A task for the example of `rule` on `p` is written exactly when the
      rule belongs to a registry language and the platform predicate accepts
      the triple. */
  lemma {:induction false} ExampleTasksIff(sr: PlatformFilter, join: PathJoin, dir: string, langs: seq<Language>)
    ensures forall l, r, p :: l in langs && r in l.rules && p in CiPlatforms && sr(l, Some(r), p) ==>
      ExampleTask(join, dir, l, r, p) in ExampleTasks(sr, join, dir, langs)
    ensures forall b :: b in ExampleTasks(sr, join, dir, langs) ==>
      exists l, r, p ::
        l in langs && r in l.rules && p in CiPlatforms && sr(l, Some(r), p) && b == ExampleTask(join, dir, l, r, p)
  {
    var pairs := Pairs(langs);
    ExampleTasksInOrder(sr, join, dir, pairs);
    var ts := Triples(pairs);
    AcceptedTasksIff(sr, join, dir, ts);
    forall l, r, p | l in langs && r in l.rules && p in CiPlatforms && sr(l, Some(r), p)
      ensures ExampleTask(join, dir, l, r, p) in ExampleTasks(sr, join, dir, langs)
    {
      PairsMembership(langs, l, r);
      TriplesMembership(pairs, (l, r, p));
    }
    forall b | b in ExampleTasks(sr, join, dir, langs)
      ensures exists l, r, p ::
        l in langs && r in l.rules && p in CiPlatforms && sr(l, Some(r), p) && b == ExampleTask(join, dir, l, r, p)
    {
      var t :| t in ts && sr(t.0, Some(t.1), t.2) && b == ExampleTask(join, dir, t.0, t.1, t.2);
      TriplesMembership(pairs, t);
      PairsMembership(langs, t.0, t.1);
    }
  }
  // ---------------------------------------------------------------------
  // Test workspace tasks
  // ---------------------------------------------------------------------

  /** The Python gRPC test workspaces are not run on Windows. */
  predicate SkippedWorkspace(name: string, p: string)
  {
    p == "windows" && (name == "python3_grpc" || name == "python_deps")
  }

  function WorkspaceHeader(name: string, p: string): string
  {
    "  test_workspace_" + name + "_" + p + ":"
  }

  /** The task that tests workspace `name` on platform `p`. */
  function WorkspaceTask(join: PathJoin, dir: string, name: string, p: string): (t: seq<string>)
    ensures |t| == 8 + (if p == "macos" then 3 else 0)
    ensures t[0] == WorkspaceHeader(name, p) && t[1] == "    name: 'test workspace: " + name + "'"
    ensures t[2] == "    platform: " + p
    ensures p == "macos" ==>
      t[3] == "    build_flags:" && t[4] == CoptLine && t[5] == "    test_flags:" && t[6] == CoptLine
    ensures p != "macos" ==> t[3] == "    test_flags:"
    ensures t[|t| - 4] == TestOutputLine && t[|t| - 3] == "    test_targets:" && t[|t| - 2] == "      - \"//...\""
    ensures t[|t| - 1] == "    working_directory: " + join([dir, "test_workspaces", name])
  {
    [WorkspaceHeader(name, p), "    name: 'test workspace: " + name + "'", "    platform: " + p]
      + MacosBuildFlags(p) + ["    test_flags:"] + MacosTestFlags(p)
      + [TestOutputLine, "    test_targets:", "      - \"//...\"",
         "    working_directory: " + join([dir, "test_workspaces", name])]
  }

  /** The inner loop over the platforms for one workspace. */
  function WorkspacePlatformTasks(join: PathJoin, dir: string, name: string, ps: seq<string>): (r: seq<seq<string>>)
    ensures |r| <= |ps|
    ensures forall p :: p in ps && !SkippedWorkspace(name, p) ==> WorkspaceTask(join, dir, name, p) in r
    ensures forall b :: b in r ==>
      exists p :: p in ps && !SkippedWorkspace(name, p) && b == WorkspaceTask(join, dir, name, p)
  {
    if |ps| == 0 then []
    else
      var rest := WorkspacePlatformTasks(join, dir, name, ps[1..]);
      assert forall p :: p in ps <==> p == ps[0] || p in ps[1..];
      (if SkippedWorkspace(name, ps[0]) then [] else [WorkspaceTask(join, dir, name, ps[0])]) + rest
  }

  /** The outer loop over the workspaces, in listing order. */
  function WorkspaceTasks(join: PathJoin, dir: string, names: seq<string>): (r: seq<seq<string>>)
    ensures |r| <= |CiPlatforms| * |names|
  {
    if |names| == 0 then []
    else
      var rest := WorkspaceTasks(join, dir, names[1..]);
      assert |CiPlatforms| * |names| == |CiPlatforms| + |CiPlatforms| * |names[1..]|;
      WorkspacePlatformTasks(join, dir, names[0], CiPlatforms) + rest
  }

  /** A workspace task is written for every workspace and platform except
      the Python gRPC workspaces on Windows, and for nothing else. */
  lemma {:induction false} WorkspaceTasksIff(join: PathJoin, dir: string, names: seq<string>)
    ensures forall n, p :: n in names && p in CiPlatforms && !SkippedWorkspace(n, p) ==>
      WorkspaceTask(join, dir, n, p) in WorkspaceTasks(join, dir, names)
    ensures forall b :: b in WorkspaceTasks(join, dir, names) ==>
      exists n, p :: n in names && p in CiPlatforms && !SkippedWorkspace(n, p) && b == WorkspaceTask(join, dir, n, p)
    decreases |names|
  {
    if |names| > 0 {
      WorkspaceTasksIff(join, dir, names[1..]);
      assert forall n :: n in names <==> n == names[0] || n in names[1..];
    }
  }

  function PythonWorkspaces(names: seq<string>): nat
  {
    if |names| == 0 then 0
    else (if names[0] == "python3_grpc" || names[0] == "python_deps" then 1 else 0) + PythonWorkspaces(names[1..])
  }

  /** Every workspace gets a task on each of the three platforms, except the
      two Python gRPC workspaces, which get none on Windows. */
  lemma {:induction false} WorkspaceTaskCount(join: PathJoin, dir: string, names: seq<string>)
    ensures |WorkspaceTasks(join, dir, names)| == 3 * |names| - PythonWorkspaces(names)
    ensures PythonWorkspaces(names) <= |names|
    decreases |names|
  {
    if |names| > 0 {
      WorkspaceTaskCount(join, dir, names[1..]);
      var n := names[0];
      var ps := CiPlatforms;
      assert ps[1..][1..][1..] == [];
      assert |WorkspacePlatformTasks(join, dir, n, ps[1..][1..][1..])| == 0;
      assert |WorkspacePlatformTasks(join, dir, n, ps[1..][1..])| == 1;
      assert |WorkspacePlatformTasks(join, dir, n, ps[1..])|
        == (if n == "python3_grpc" || n == "python_deps" then 1 else 2);
    }
  }

  // ---------------------------------------------------------------------
  // The whole file
  // ---------------------------------------------------------------------

  /** The layout of the file: `---` and `tasks:`, the main tasks, the
      example tasks, the test workspace tasks, and a closing blank line. */
  predicate TaskGroups(y: seq<string>, main: seq<string>, examples: seq<string>, workspaces: seq<string>)
  {
    && |y| == 3 + |main| + |examples| + |workspaces|
    && y[0] == "---" && y[1] == "tasks:"
    && y[2..2 + |main|] == main
    && y[2 + |main|..2 + |main| + |examples|] == examples
    && y[2 + |main| + |examples|..|y| - 1] == workspaces
    && y[|y| - 1] == ""
  }

  /** `mustWriteBazelciPresubmitYml`: the header, the main tasks, the example
      tasks and the test workspace tasks, and a closing blank line. The
      allow-list is the content of the available-tests file split at
      newlines. */
  function PresubmitYml(sr: PlatformFilter, join: PathJoin, dir: string, langs: seq<Language>,
                        availableTests: string, entries: seq<DirEntry>): (y: seq<string>)
    ensures TaskGroups(y, MainTasks(sr, Split(availableTests, '\n'), langs),
                       Concat(ExampleTasks(sr, join, dir, langs)),
                       Concat(WorkspaceTasks(join, dir, WorkspaceNames(entries))))
  {
    Assemble(MainTasks(sr, Split(availableTests, '\n'), langs),
             Concat(ExampleTasks(sr, join, dir, langs)),
             Concat(WorkspaceTasks(join, dir, WorkspaceNames(entries))))
  }

  /** The first task of the file is Ubuntu's main task. */
  lemma {:induction false} PresubmitYmlFirstTask(sr: PlatformFilter, join: PathJoin, dir: string, langs: seq<Language>,
                                                 availableTests: string, entries: seq<DirEntry>)
    ensures var y := PresubmitYml(sr, join, dir, langs, availableTests, entries);
      2 < |y| && y[2] == MainHeader("ubuntu1804")
  {
    var allow := Split(availableTests, '\n');
    var u := MainTask(sr, allow, langs, "ubuntu1804");
    var m := MainTask(sr, allow, langs, "macos");
    assert (u + m)[0] == u[0];
    FirstTask(PresubmitYml(sr, join, dir, langs, availableTests, entries), MainTasks(sr, allow, langs),
              Concat(ExampleTasks(sr, join, dir, langs)), Concat(WorkspaceTasks(join, dir, WorkspaceNames(entries))));
  }

  lemma {:induction false} FirstTask(y: seq<string>, main: seq<string>, examples: seq<string>, workspaces: seq<string>)
    requires TaskGroups(y, main, examples, workspaces) && |main| > 0
    ensures 2 < |y| && y[2] == main[0]
  {
    assert y[2..2 + |main|][0] == y[2];
  }

  /** The file around its three groups of tasks. */
  function Assemble(main: seq<string>, examples: seq<string>, workspaces: seq<string>): (y: seq<string>)
    ensures TaskGroups(y, main, examples, workspaces)
  {
    var mid := main + examples + workspaces;
    var y := ["---", "tasks:"] + mid + [""];
    Place3(main, examples, workspaces);
    assert y[2..|y| - 1] == mid;
    SliceOfSuffix(y[..|y| - 1], 2, 0, |main|);
    SliceOfSuffix(y[..|y| - 1], 2, |main|, |main| + |examples|);
    SliceOfSuffix(y[..|y| - 1], 2, |main| + |examples|, |mid|);
    y
  }
}
