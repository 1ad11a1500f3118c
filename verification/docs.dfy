/**
 * Documentation: the `README.md` of each language directory and the
 * top-level `README.md` that indexes every rule of every language.
 */
module Docs {
  import opened Registry
  import opened Seqs

  const ExperimentalNote: string :=
    "> NOTE: this rule is EXPERIMENTAL.  It may not work correctly or even compile!"

  // The fixed lines of the tables and headings.
  const SummaryHeader: string := "| Rule | Description |"
  const SummaryAlign: string := "| ---: | :--- |"
  const FlagsHeader: string := "| Category | Flag | Value | Description |"
  const FlagsAlign: string := "| --- | --- | --- | --- |"
  const AttrsHeader: string := "| Name | Type | Mandatory | Default | Description |"
  const AttrsAlign: string := "| ---: | :--- | --------- | ------- | ----------- |"
  const IndexHeader: string := "| Language | Rule | Description"
  const IndexAlign: string := "| ---: | :--- | :--- |"
  const BuildHeading: string := "### `BUILD.bazel`"
  const FlagsTitle: string := "### `Flags`"
  const AttrsTitle: string := "### Attributes"
  const FenceOpen: string := "```starlark"
  const FenceClose: string := "```"
  const WorkspaceHeading: string := "### `WORKSPACE`"

  /** Go's `%t`. */
  function BoolText(b: bool): string
  {
    if b then "true" else "false"
  }

  function SummaryRow(rule: Rule): string
  {
    "| [" + rule.name + "](#" + rule.name + ") | " + rule.doc + " |"
  }

  function FlagRow(f: Flag): string
  {
    "| " + f.category + " | " + f.name + " | " + f.value + " | " + f.description + " |"
  }

  function AttrRow(a: Attr): string
  {
    "| `" + a.name + "` | `" + a.attrType + "` | " + BoolText(a.mandatory)
      + " | `" + a.defaultValue + "`    | " + a.doc + "          |"
  }

  function SummaryRows(rules: seq<Rule>): (r: seq<string>)
    ensures |r| == |rules|
  {
    if |rules| == 0 then []
    else
      [SummaryRow(rules[0])] + SummaryRows(rules[1..])
  }

  function FlagRows(flags: seq<Flag>): (r: seq<string>)
    ensures |r| == |flags|
  {
    if |flags| == 0 then []
    else
      [FlagRow(flags[0])] + FlagRows(flags[1..])
  }

  function AttrRows(attrs: seq<Attr>): (r: seq<string>)
    ensures |r| == |attrs|
  {
    if |attrs| == 0 then []
    else
      [AttrRow(attrs[0])] + AttrRows(attrs[1..])
  }

  /** One summary row per rule, in rule order. */
  lemma {:induction false} SummaryRowsAt(rules: seq<Rule>, i: nat)
    requires i < |rules|
    ensures SummaryRows(rules)[i] == SummaryRow(rules[i])
    decreases i
  {
    if i > 0 {
      SummaryRowsAt(rules[1..], i - 1);
      assert rules[1..][i - 1] == rules[i];
    }
  }

  /** One flags-table row per flag, in declared order. */
  lemma {:induction false} FlagRowsContent(flags: seq<Flag>)
    ensures forall i :: 0 <= i < |flags| ==> FlagRows(flags)[i] == FlagRow(flags[i])
    decreases |flags|
  {
    if |flags| > 0 {
      FlagRowsContent(flags[1..]);
      assert forall i :: 1 <= i < |flags| ==> flags[i] == flags[1..][i - 1];
    }
  }

  /** One attributes-table row per attribute, in declared order. */
  lemma {:induction false} AttrRowsContent(attrs: seq<Attr>)
    ensures forall i :: 0 <= i < |attrs| ==> AttrRows(attrs)[i] == AttrRow(attrs[i])
    decreases |attrs|
  {
    if |attrs| > 0 {
      AttrRowsContent(attrs[1..]);
      assert forall i :: 1 <= i < |attrs| ==> attrs[i] == attrs[1..][i - 1];
    }
  }

  /** The lines the EXPERIMENTAL note and its blank line take. */
  function NoteLines(rule: Rule): nat
  {
    if rule.experimental then 2 else 0
  }

  /** The lines the flags table takes: none for a rule without flags. */
  function FlagsLines(flags: seq<Flag>): nat
  {
    if |flags| > 0 then |flags| + 5 else 0
  }

  /** The top of a rule's section: separator, heading, the EXPERIMENTAL note
      for experimental rules only, and the rule's doc. */
  function SectionHead(rule: Rule): (h: seq<string>)
    ensures var e := NoteLines(rule);
      && |h| == 6 + e
      && h[2] == "## `" + rule.name + "`"
      && (rule.experimental ==> h[4] == ExperimentalNote)
      && h[4 + e] == rule.doc
  {
    ["---", "", "## `" + rule.name + "`", ""]
      + (if rule.experimental then [ExperimentalNote, ""] else [])
      + [rule.doc, ""]
  }

  /** A titled example: the title, then the lines fenced as a code block. */
  function ExampleBlock(title: string, lines: seq<string>): (b: seq<string>)
    ensures |b| == 5 + |lines|
    ensures b[0] == title && b[2] == FenceOpen && b[3 + |lines|] == FenceClose && b[4 + |lines|] == ""
    ensures Placed(b, 3, lines)
  {
    Thirds([title, "", FenceOpen], lines, [FenceClose, ""]);
    [title, "", FenceOpen] + lines + [FenceClose, ""]
  }

  /** The flags table: present only for a rule that declares flags, with a
      header and one row per flag in declared order. */
  function FlagsBlock(flags: seq<Flag>): (b: seq<string>)
    ensures |b| == FlagsLines(flags)
    ensures |flags| > 0 ==>
      && b[0] == FlagsTitle && b[2] == FlagsHeader
      && Placed(b, 4, FlagRows(flags)) && b[|b| - 1] == ""
  {
    if |flags| > 0 then
      var head := [FlagsTitle, "", FlagsHeader, FlagsAlign];
      Thirds(head, FlagRows(flags), [""]);
      head + FlagRows(flags) + [""]
    else []
  }

  /** The attributes table: always present, with a header and one row per
      attribute in declared order, closed by a blank line. */
  function AttrsBlock(attrs: seq<Attr>): (b: seq<string>)
    ensures |b| == |attrs| + 5
    ensures b[0] == AttrsTitle && b[2] == AttrsHeader
    ensures Placed(b, 4, AttrRows(attrs)) && b[|b| - 1] == ""
  {
    var head := [AttrsTitle, "", AttrsHeader, AttrsAlign];
    Thirds(head, AttrRows(attrs), [""]);
    head + AttrRows(attrs) + [""]
  }

  function WorkspaceExampleLines(expand: Expander, lang: Language, rule: Rule): seq<string>
  {
    expand(rule.workspaceExample, RuleData(lang, rule))
  }

  function BuildExampleLines(expand: Expander, lang: Language, rule: Rule): seq<string>
  {
    expand(rule.buildExample, RuleData(lang, rule))
  }

  /** Both fenced examples of a rule: the workspace example, then the build
      file example. */
  function ExamplesPart(expand: Expander, lang: Language, rule: Rule): (x: seq<string>)
    ensures var ws := WorkspaceExampleLines(expand, lang, rule);
      var build := BuildExampleLines(expand, lang, rule);
      && |x| == 10 + |ws| + |build|
      && Placed(x, 0, ExampleBlock(WorkspaceHeading, ws))
      && Placed(x, 5 + |ws|, ExampleBlock(BuildHeading, build))
  {
    var a := ExampleBlock(WorkspaceHeading, WorkspaceExampleLines(expand, lang, rule));
    var b := ExampleBlock(BuildHeading, BuildExampleLines(expand, lang, rule));
    Halves(a, b);
    a + b
  }

  /** The flags table (only for a rule with flags), then the attributes
      table. */
  function TablesPart(rule: Rule): (t: seq<string>)
    ensures var fl := FlagsLines(rule.flags);
      && |t| == fl + |rule.attrs| + 5
      && Placed(t, 0, FlagsBlock(rule.flags))
      && Placed(t, fl, AttrsBlock(rule.attrs))
  {
    Halves(FlagsBlock(rule.flags), AttrsBlock(rule.attrs));
    FlagsBlock(rule.flags) + AttrsBlock(rule.attrs)
  }

  /** Offset of the flags table (or, without flags, of the attributes table)
      in a rule's section. */
  function FlagsOffset(expand: Expander, lang: Language, rule: Rule): nat
  {
    16 + NoteLines(rule)
      + |WorkspaceExampleLines(expand, lang, rule)| + |BuildExampleLines(expand, lang, rule)|
  }

  /** One rule's section of a language README: heading, EXPERIMENTAL note for
      experimental rules, doc, the two fenced examples, the flags table for a
      rule with flags, and the attributes table with one row per attribute. */
  function RuleSection(expand: Expander, lang: Language, rule: Rule): (s: seq<string>)
    ensures |s| == FlagsOffset(expand, lang, rule)
      + FlagsLines(rule.flags) + |rule.attrs| + 5
    ensures s[2] == "## `" + rule.name + "`"
    ensures s[|s| - 1] == ""
  {
    var tables := TablesPart(rule);
    var last := AttrsBlock(rule.attrs);
    PlacedAt(tables, |tables| - |last|, last, |last| - 1);
    SectionHead(rule) + ExamplesPart(expand, lang, rule) + tables
  }

  /** The head of a rule's section comes first. */
  lemma {:induction false} HeadInSection(expand: Expander, lang: Language, rule: Rule)
    ensures Placed(RuleSection(expand, lang, rule), 0, SectionHead(rule))
  {
    Thirds(SectionHead(rule), ExamplesPart(expand, lang, rule), TablesPart(rule));
  }

  /** The examples of a rule's section follow its head. */
  lemma {:induction false} ExamplesInSection(expand: Expander, lang: Language, rule: Rule)
    ensures Placed(RuleSection(expand, lang, rule), 6 + NoteLines(rule), ExamplesPart(expand, lang, rule))
  {
    Thirds(SectionHead(rule), ExamplesPart(expand, lang, rule), TablesPart(rule));
  }

  /** The tables of a rule's section start at the flags offset. */
  lemma {:induction false} TablesInSection(expand: Expander, lang: Language, rule: Rule)
    ensures Placed(RuleSection(expand, lang, rule), FlagsOffset(expand, lang, rule), TablesPart(rule))
  {
    var a := SectionHead(rule) + ExamplesPart(expand, lang, rule);
    Halves(a, TablesPart(rule));
  }

  /** The head of a rule's section: heading, the EXPERIMENTAL note exactly for
      experimental rules, then the rule's doc and the workspace example's
      title. */
  lemma {:induction false} RuleSectionHead(expand: Expander, lang: Language, rule: Rule)
    ensures var s := RuleSection(expand, lang, rule);
      var e := NoteLines(rule);
      && (rule.experimental ==> s[4] == ExperimentalNote)
      && s[4 + e] == rule.doc
      && s[6 + e] == WorkspaceHeading
  {
    var s := RuleSection(expand, lang, rule);
    var e := NoteLines(rule);
    var head := SectionHead(rule);
    var x := ExamplesPart(expand, lang, rule);
    var a := ExampleBlock(WorkspaceHeading, WorkspaceExampleLines(expand, lang, rule));
    HeadInSection(expand, lang, rule);
    ExamplesInSection(expand, lang, rule);
    if rule.experimental {
      LineAt(s, 0, head, 4, 4, ExperimentalNote);
    }
    LineAt(s, 0, head, 4 + e, 4 + e, rule.doc);
    LineWithin(s, 6 + e, x, 0, a, 0, 6 + e, WorkspaceHeading);
  }

  /** The workspace example of a rule, fenced, right after the doc. */
  lemma {:induction false} WorkspaceExampleInSection(expand: Expander, lang: Language, rule: Rule)
    ensures var s := RuleSection(expand, lang, rule);
      var e := NoteLines(rule);
      var ws := WorkspaceExampleLines(expand, lang, rule);
      && s[8 + e] == FenceOpen
      && Placed(s, 9 + e, ws)
      && s[9 + e + |ws|] == FenceClose
  {
    var s := RuleSection(expand, lang, rule);
    var e := NoteLines(rule);
    var ws := WorkspaceExampleLines(expand, lang, rule);
    var x := ExamplesPart(expand, lang, rule);
    var a := ExampleBlock(WorkspaceHeading, ws);
    ExamplesInSection(expand, lang, rule);
    LineWithin(s, 6 + e, x, 0, a, 2, 8 + e, FenceOpen);
    LineWithin(s, 6 + e, x, 0, a, 3 + |ws|, 9 + e + |ws|, FenceClose);
    BlockWithin2(s, 6 + e, x, 0, a, 3, ws, 9 + e);
  }

  /** The build file example of a rule, fenced, after the workspace
      example. */
  lemma {:induction false} BuildExampleInSection(expand: Expander, lang: Language, rule: Rule)
    ensures var s := RuleSection(expand, lang, rule);
      var e := NoteLines(rule);
      var ws := WorkspaceExampleLines(expand, lang, rule);
      var build := BuildExampleLines(expand, lang, rule);
      && s[11 + e + |ws|] == BuildHeading
      && s[13 + e + |ws|] == FenceOpen
      && Placed(s, 14 + e + |ws|, build)
      && s[14 + e + |ws| + |build|] == FenceClose
  {
    var s := RuleSection(expand, lang, rule);
    var e := NoteLines(rule);
    var ws := WorkspaceExampleLines(expand, lang, rule);
    var build := BuildExampleLines(expand, lang, rule);
    var x := ExamplesPart(expand, lang, rule);
    var b := ExampleBlock(BuildHeading, build);
    var o := 11 + e + |ws|;
    ExamplesInSection(expand, lang, rule);
    BlockWithin(s, 6 + e, x, 5 + |ws|, b, o);
    LineAt(s, o, b, 0, o, BuildHeading);
    LineAt(s, o, b, 2, o + 2, FenceOpen);
    LineAt(s, o, b, 3 + |build|, o + 3 + |build|, FenceClose);
    BlockWithin(s, o, b, 3, build, o + 3);
  }

  /** The two examples of a rule's section, each fenced as a code block. */
  lemma {:induction false} RuleSectionExamples(expand: Expander, lang: Language, rule: Rule)
    ensures var s := RuleSection(expand, lang, rule);
      var e := NoteLines(rule);
      var ws := WorkspaceExampleLines(expand, lang, rule);
      var build := BuildExampleLines(expand, lang, rule);
      && Placed(s, 9 + e, ws)
      && Placed(s, 14 + e + |ws|, build)
  {
    WorkspaceExampleInSection(expand, lang, rule);
    BuildExampleInSection(expand, lang, rule);
  }

  /** The flags block of a rule's section sits at the flags offset. */
  lemma {:induction false} FlagsBlockInSection(expand: Expander, lang: Language, rule: Rule)
    ensures Placed(RuleSection(expand, lang, rule), FlagsOffset(expand, lang, rule), FlagsBlock(rule.flags))
  {
    TablesInSection(expand, lang, rule);
    BlockWithin(RuleSection(expand, lang, rule), FlagsOffset(expand, lang, rule), TablesPart(rule),
                0, FlagsBlock(rule.flags), FlagsOffset(expand, lang, rule));
  }

  /** The attributes block of a rule's section follows the flags block. */
  lemma {:induction false} AttrsBlockInSection(expand: Expander, lang: Language, rule: Rule)
    ensures Placed(RuleSection(expand, lang, rule), FlagsOffset(expand, lang, rule) + FlagsLines(rule.flags),
                   AttrsBlock(rule.attrs))
  {
    TablesInSection(expand, lang, rule);
    BlockWithin(RuleSection(expand, lang, rule), FlagsOffset(expand, lang, rule), TablesPart(rule),
                FlagsLines(rule.flags), AttrsBlock(rule.attrs), FlagsOffset(expand, lang, rule) + FlagsLines(rule.flags));
  }

  /** The flags table of a rule with flags opens with its title at the
      flags offset. */
  lemma {:induction false} FlagsTitleInSection(expand: Expander, lang: Language, rule: Rule)
    requires |rule.flags| > 0
    ensures var f0 := FlagsOffset(expand, lang, rule);
      RuleSection(expand, lang, rule)[f0] == FlagsTitle
  {
    var f0 := FlagsOffset(expand, lang, rule);
    TablesInSection(expand, lang, rule);
    LineWithin(RuleSection(expand, lang, rule), f0, TablesPart(rule), 0, FlagsBlock(rule.flags), 0,
               f0, FlagsTitle);
  }

  /** The attributes table opens with its title, after the flags table if
      there is one. */
  lemma {:induction false} AttrsTitleInSection(expand: Expander, lang: Language, rule: Rule)
    ensures var a0 := FlagsOffset(expand, lang, rule) + FlagsLines(rule.flags);
      RuleSection(expand, lang, rule)[a0] == AttrsTitle
  {
    var f0 := FlagsOffset(expand, lang, rule);
    var fl := FlagsLines(rule.flags);
    TablesInSection(expand, lang, rule);
    LineWithin(RuleSection(expand, lang, rule), f0, TablesPart(rule), fl, AttrsBlock(rule.attrs), 0,
               f0 + fl, AttrsTitle);
  }

  /** The tables of a rule's section: the flags table (empty for a rule
      without flags) at the flags offset, opening with its title when the
      rule has flags, then the attributes table, opening with its title.
      The rows of each table are placed within it by `FlagsBlock` and
      `AttrsBlock`. */
  lemma {:induction false} RuleSectionTables(expand: Expander, lang: Language, rule: Rule)
    ensures var s := RuleSection(expand, lang, rule);
      var f0 := FlagsOffset(expand, lang, rule);
      var fl := FlagsLines(rule.flags);
      && Placed(s, f0, FlagsBlock(rule.flags))
      && (|rule.flags| > 0 ==> s[f0] == FlagsTitle)
      && Placed(s, f0 + fl, AttrsBlock(rule.attrs))
      && s[f0 + fl] == AttrsTitle
  {
    FlagsBlockInSection(expand, lang, rule);
    if |rule.flags| > 0 {
      FlagsTitleInSection(expand, lang, rule);
    }
    AttrsBlockInSection(expand, lang, rule);
    AttrsTitleInSection(expand, lang, rule);
  }

  /** The EXPERIMENTAL banner is there exactly for experimental rules: a
      reader finds the note on the fifth line and the doc two lines below it
      if and only if the rule is experimental. */
  lemma {:induction false} ExperimentalBannerIff(expand: Expander, lang: Language, rule: Rule)
    ensures var s := RuleSection(expand, lang, rule);
      rule.experimental <==> (s[4] == ExperimentalNote && s[6] == rule.doc)
  {
    RuleSectionHead(expand, lang, rule);
    if !rule.experimental {
      var s := RuleSection(expand, lang, rule);
      assert |ExperimentalNote| != |WorkspaceHeading|;
      assert s[6] == WorkspaceHeading;
    }
  }

  /** The flags table is there exactly for rules that declare flags. */
  lemma {:induction false} FlagsTableIff(expand: Expander, lang: Language, rule: Rule)
    ensures var s := RuleSection(expand, lang, rule);
      |rule.flags| > 0 <==> s[FlagsOffset(expand, lang, rule)] == FlagsTitle
  {
    RuleSectionTables(expand, lang, rule);
    assert |FlagsTitle| != |AttrsTitle|;
  }

  /** The title of a language README, then its notes when it has any. */
  function Intro(expand: Expander, lang: Language): (r: seq<string>)
    ensures |r| >= 2 && r[0] == "# " + lang.displayName + " rules" && r[1] == ""
    ensures lang.notes.None? ==> |r| == 2
    ensures lang.notes.Some? ==>
      var notes := expand(lang.notes.value, LanguageData(lang));
      |r| == 3 + |notes| && Placed(r, 2, notes) && r[|r| - 1] == ""
  {
    var title := ["# " + lang.displayName + " rules", ""];
    match lang.notes
    case None => title
    case Some(t) =>
      Thirds(title, expand(t, LanguageData(lang)), [""]);
      title + expand(t, LanguageData(lang)) + [""]
  }

  /** The summary table: header, separator, one row per rule in rule order,
      and a blank line. */
  function SummaryTable(rules: seq<Rule>): (t: seq<string>)
    ensures |t| == |rules| + 3
    ensures t[0] == SummaryHeader && t[1] == SummaryAlign
    ensures Placed(t, 2, SummaryRows(rules))
    ensures t[|t| - 1] == ""
  {
    var rows := SummaryRows(rules);
    Thirds([SummaryHeader, SummaryAlign], rows, [""]);
    [SummaryHeader, SummaryAlign] + rows + [""]
  }

  /** The section of a rule of `lang`, as a function of the rule. */
  function Section(expand: Expander, lang: Language): Rule -> seq<string>
  {
    (rule: Rule) => RuleSection(expand, lang, rule)
  }

  /** `mustWriteLanguageReadme`: the title and notes, the summary table, and
      the sections of all rules in rule order, one part after the other. */
  function LanguageReadme(expand: Expander, lang: Language): (r: seq<string>)
    ensures var intro := Intro(expand, lang);
      var top := |intro| + |lang.rules| + 3;
      && top <= |r|
      && Placed(r, 0, intro)
      && Placed(r, |intro|, SummaryTable(lang.rules))
      && r[top..] == ConcatMap(Section(expand, lang), lang.rules)
  {
    var intro := Intro(expand, lang);
    var table := SummaryTable(lang.rules);
    var sections := ConcatMap(Section(expand, lang), lang.rules);
    Place3(intro, table, sections);
    Thirds(intro, table, sections);
    intro + table + sections
  }

  /** The summary table of a language README has one row per rule, in rule
      order, right after the title and notes. */
  lemma {:induction false} SummaryRowsInOrder(expand: Expander, lang: Language)
    ensures var r := LanguageReadme(expand, lang);
      var m := |Intro(expand, lang)|;
      && r[0] == "# " + lang.displayName + " rules"
      && r[m] == SummaryHeader
      && (forall i :: 0 <= i < |lang.rules| ==> r[m + 2 + i] == SummaryRow(lang.rules[i]))
      && r[m + |lang.rules| + 2] == ""
  {
    TitleInReadme(expand, lang);
    TableAfterIntro(expand, lang);
    SummaryEndInReadme(expand, lang);
    forall i | 0 <= i < |lang.rules|
      ensures LanguageReadme(expand, lang)[|Intro(expand, lang)| + 2 + i] == SummaryRow(lang.rules[i])
    {
      SummaryRowInReadme(expand, lang, i);
    }
  }

  /** A language README opens with its title. */
  lemma {:induction false} TitleInReadme(expand: Expander, lang: Language)
    ensures LanguageReadme(expand, lang)[0] == "# " + lang.displayName + " rules"
  {
    LineAt(LanguageReadme(expand, lang), 0, Intro(expand, lang), 0, 0, "# " + lang.displayName + " rules");
  }

  /** The summary table of a language README is closed by a blank line. */
  lemma {:induction false} SummaryEndInReadme(expand: Expander, lang: Language)
    ensures var m := |Intro(expand, lang)| + |lang.rules| + 2;
      m < |LanguageReadme(expand, lang)| && LanguageReadme(expand, lang)[m] == ""
  {
    var m := |Intro(expand, lang)|;
    LineAt(LanguageReadme(expand, lang), m, SummaryTable(lang.rules), |lang.rules| + 2, m + |lang.rules| + 2, "");
  }

  /** The summary row of the `i`-th rule. */
  lemma {:induction false} SummaryRowInReadme(expand: Expander, lang: Language, i: nat)
    requires i < |lang.rules|
    ensures var m := |Intro(expand, lang)|;
      var r := LanguageReadme(expand, lang);
      m + 2 + i < |r| && r[m + 2 + i] == SummaryRow(lang.rules[i])
  {
    var m := |Intro(expand, lang)|;
    SummaryRowsAt(lang.rules, i);
    LineWithin(LanguageReadme(expand, lang), m, SummaryTable(lang.rules), 2, SummaryRows(lang.rules), i,
               m + 2 + i, SummaryRow(lang.rules[i]));
  }

  /** The notes appear exactly when the language has them: with notes, the
      expanded notes and a blank line sit between the title and the summary
      table; without, the table follows the title's blank line. */
  lemma {:induction false} NotesIff(expand: Expander, lang: Language)
    ensures var r := LanguageReadme(expand, lang);
      && (lang.notes.Some? <==> |Intro(expand, lang)| > 2)
      && (lang.notes.None? ==> r[2] == SummaryHeader)
      && (lang.notes.Some? ==>
            var notes := expand(lang.notes.value, LanguageData(lang));
            Placed(r, 2, notes) && r[2 + |notes|] == "" && r[3 + |notes|] == SummaryHeader)
  {
    TableAfterIntro(expand, lang);
    if lang.notes.Some? {
      NotesAfterTitle(expand, lang);
    }
  }

  /** The summary table starts right after the intro. */
  lemma {:induction false} TableAfterIntro(expand: Expander, lang: Language)
    ensures |Intro(expand, lang)| < |LanguageReadme(expand, lang)|
    ensures LanguageReadme(expand, lang)[|Intro(expand, lang)|] == SummaryHeader
  {
    PlacedAt(LanguageReadme(expand, lang), |Intro(expand, lang)|, SummaryTable(lang.rules), 0);
  }

  /** With notes, the expanded notes and a blank line follow the title. */
  lemma {:induction false} NotesAfterTitle(expand: Expander, lang: Language)
    requires lang.notes.Some?
    ensures var r := LanguageReadme(expand, lang);
      var notes := expand(lang.notes.value, LanguageData(lang));
      && |notes| + 3 == |Intro(expand, lang)|
      && Placed(r, 2, notes) && r[2 + |notes|] == ""
  {
    var r := LanguageReadme(expand, lang);
    var intro := Intro(expand, lang);
    var notes := expand(lang.notes.value, LanguageData(lang));
    LineAt(r, 0, intro, 2 + |notes|, 2 + |notes|, "");
    BlockWithin(r, 0, intro, 2, notes, 2);
  }

  /** Where the section of the `k`-th rule starts in a language README:
      after the intro, the summary table and the sections of the rules before
      it. */
  function SectionOffset(expand: Expander, lang: Language, k: nat): nat
    requires k <= |lang.rules|
  {
    |Intro(expand, lang)| + |lang.rules| + 3 + |ConcatMap(Section(expand, lang), lang.rules[..k])|
  }

  /** Every rule gets its own section, complete, at its offset. */
  lemma {:induction false} SectionOfEachRule(expand: Expander, lang: Language, k: nat)
    requires k < |lang.rules|
    ensures Placed(LanguageReadme(expand, lang), SectionOffset(expand, lang, k),
                   RuleSection(expand, lang, lang.rules[k]))
  {
    var f := Section(expand, lang);
    var base := |Intro(expand, lang)| + |lang.rules| + 3;
    assert f(lang.rules[k]) == RuleSection(expand, lang, lang.rules[k]);
    ConcatMapInSuffix(LanguageReadme(expand, lang), base, f, lang.rules, k,
                      SectionOffset(expand, lang, k), RuleSection(expand, lang, lang.rules[k]));
  }

  /** The sections come in rule order with nothing between them: the section
      of rule `k + 1` starts where the section of rule `k` ends. */
  lemma {:induction false} SectionsAdjacent(expand: Expander, lang: Language, k: nat)
    requires k < |lang.rules|
    ensures SectionOffset(expand, lang, k + 1)
      == SectionOffset(expand, lang, k) + |RuleSection(expand, lang, lang.rules[k])|
  {
    var f := Section(expand, lang);
    assert lang.rules[..k + 1] == lang.rules[..k] + [lang.rules[k]];
    ConcatMapAppend(f, lang.rules[..k], [lang.rules[k]]);
    ConcatMapOne(f, lang.rules[k]);
  }

  /** The index row of a rule in the top-level README: links to the
      language directory, to the rule's section and to its example. */
  function IndexRow(lang: Language, rule: Rule): string
  {
    "| [" + lang.displayName + "](/" + lang.dir + ") | [" + rule.name + "](/" + lang.dir + "#" + rule.name
      + ") | " + rule.doc + " ([example](/example/" + lang.dir + "/" + rule.name + ")) |"
  }

  function IndexRows(ps: seq<(Language, Rule)>): (rows: seq<string>)
    ensures |rows| == |ps|
    ensures forall i :: 0 <= i < |ps| ==> rows[i] == IndexRow(ps[i].0, ps[i].1)
  {
    if |ps| == 0 then []
    else
      assert forall i :: 1 <= i < |ps| ==> ps[i] == ps[1..][i - 1];
      [IndexRow(ps[0].0, ps[0].1)] + IndexRows(ps[1..])
  }

  /** The rules table of the top-level README: one row per (language, rule)
      pair in registry order. */
  function RulesTable(langs: seq<Language>): (t: seq<string>)
    ensures |t| == TotalRules(langs) + 6
    ensures t[0] == "" && t[1] == "## Rules" && t[2] == ""
    ensures t[3] == IndexHeader && t[4] == IndexAlign
    ensures t[5..5 + TotalRules(langs)] == IndexRows(Pairs(langs))
    ensures t[|t| - 1] == ""
  {
    var rows := IndexRows(Pairs(langs));
    var t := ["", "## Rules", "", IndexHeader, IndexAlign] + rows + [""];
    Slice3(t[..5], rows, [""]);
    t
  }

  /** The table has a row for every rule of every language, and every row
      belongs to a rule of the registry. */
  lemma {:induction false} RulesTableComplete(langs: seq<Language>)
    ensures forall l, r :: l in langs && r in l.rules ==> IndexRow(l, r) in IndexRows(Pairs(langs))
    ensures forall row :: row in IndexRows(Pairs(langs)) ==>
      exists l, r :: l in langs && r in l.rules && row == IndexRow(l, r)
  {
    var ps := Pairs(langs);
    var rows := IndexRows(ps);
    forall l, r | l in langs && r in l.rules ensures IndexRow(l, r) in rows {
      PairsMembership(langs, l, r);
      var i :| 0 <= i < |ps| && ps[i] == (l, r);
      assert rows[i] == IndexRow(l, r);
    }
    forall row | row in rows ensures exists l, r :: l in langs && r in l.rules && row == IndexRow(l, r) {
      var i :| 0 <= i < |rows| && rows[i] == row;
      var p := ps[i];
      assert p in ps;
      PairsMembership(langs, p.0, p.1);
    }
  }

  /** `mustWriteReadme`: the expanded header, the rules table and the
      expanded footer, both templates expanded against the release reference
      and archive hash. */
  function Readme(expand: Expander, header: string, footer: string, ref: string, sha256: string,
                  langs: seq<Language>): (r: seq<string>)
    ensures var hd := expand(File(header), ReleaseData(ref, sha256));
      var ft := expand(File(footer), ReleaseData(ref, sha256));
      var m := |hd| + TotalRules(langs) + 6;
      && |r| == m + |ft|
      && r[..|hd|] == hd
      && r[|hd|..m] == RulesTable(langs)
      && r[m..] == ft
  {
    var data := ReleaseData(ref, sha256);
    var hd := expand(File(header), data);
    var table := RulesTable(langs);
    var ft := expand(File(footer), data);
    Place3(hd, table, ft);
    hd + table + ft
  }

  /** In the top-level README, the `## Rules` heading follows the expanded
      header, and the table row of the `i`-th (language, rule) pair in
      registry order sits five lines further on, plus `i`. */
  lemma {:induction false} ReadmeRows(expand: Expander, header: string, footer: string, ref: string, sha256: string,
                                      langs: seq<Language>)
    ensures var r := Readme(expand, header, footer, ref, sha256, langs);
      var hd := expand(File(header), ReleaseData(ref, sha256));
      && |hd| + 5 + TotalRules(langs) < |r|
      && r[|hd| + 1] == "## Rules"
      && forall i :: 0 <= i < TotalRules(langs) ==>
           r[|hd| + 5 + i] == IndexRow(Pairs(langs)[i].0, Pairs(langs)[i].1)
  {
    var r := Readme(expand, header, footer, ref, sha256, langs);
    var hd := expand(File(header), ReleaseData(ref, sha256));
    var table := RulesTable(langs);
    SliceAt(r, |hd|, table, 1);
    IndexRowsWithin(r, |hd|, table, Pairs(langs));
  }

  /** The index rows of `ps`, placed at line 5 of a table that is itself
      placed at `lo`, read off the whole. */
  lemma {:induction false} IndexRowsWithin(r: seq<string>, lo: nat, table: seq<string>, ps: seq<(Language, Rule)>)
    requires lo + |table| <= |r| && r[lo..lo + |table|] == table
    requires 5 + |ps| <= |table| && table[5..5 + |ps|] == IndexRows(ps)
    ensures forall i :: 0 <= i < |ps| ==> r[lo + 5 + i] == IndexRow(ps[i].0, ps[i].1)
  {
    forall i | 0 <= i < |ps| ensures r[lo + 5 + i] == IndexRow(ps[i].0, ps[i].1) {
      SliceAt(r, lo, table, 5 + i);
      SliceAt(table, 5, IndexRows(ps), i);
    }
  }
}
