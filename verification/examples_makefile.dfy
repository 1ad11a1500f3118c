/**
 * `example/Makefile.mk`: one build rule per example, one group rule per
 * language naming that language's examples, and `all_examples` naming every
 * example in registry order.
 */
module ExamplesMakefile {
  import opened Strings
  import opened Registry
  import opened Seqs
  import opened Scaffold

  /** The build command of an example, up to the disk cache path. */
  const BuildCommand: string := "\tbazel --batch build --verbose_failures --disk_cache="

  function ExampleTarget(lang: Language, rule: Rule): string
  {
    lang.name + "_" + rule.name + "_example"
  }

  function LanguageTarget(lang: Language): string
  {
    lang.name + "_examples"
  }

  /** The disk cache path written into the rules of a language: one `../`
      per `/` in the language directory, then `../../bazel-disk-cache`. */
  function DiskCachePath(langDir: string): (p: string)
    ensures p == Repeat("../", Count(langDir, '/') + 2) + "bazel-disk-cache"
  {
    UpsThen(Count(langDir, '/'), "bazel-disk-cache");
    Repeat("../", Count(langDir, '/')) + "../../" + "bazel-disk-cache"
  }

  /** From an example directory the disk cache path climbs one level fewer
      than the example directory has segments, and one level fewer than the
      `WORKSPACE` path back to the rule collection: every example shares the
      cache directly under `example/` (for clean names, as in
      `WorkspacePathReachesRoot`). */
  lemma {:induction false} DiskCacheUnderExamples(lang: Language, rule: Rule)
    requires CleanDir(lang.dir) && CleanSegment(rule.name) && '/' !in rule.name
    ensures UpLevels(DiskCachePath(lang.dir)) + 1 == |Split(ExampleDir(lang, rule), '/')|
    ensures UpLevels(DiskCachePath(lang.dir)) + 1 == UpLevels(WorkspaceRelPath(lang.dir))
  {
    DiskCacheLevels(lang.dir);
    WorkspaceRelPathLevels(lang.dir);
    ExampleDirSlashes(lang, rule);
  }

  /** The disk cache path climbs two levels more than the language directory
      has `/`. */
  lemma {:induction false} DiskCacheLevels(langDir: string)
    ensures UpLevels(DiskCachePath(langDir)) == Count(langDir, '/') + 2
  {
    var rest := "bazel-disk-cache";
    assert !HasPrefix(rest, "../") by { assert rest[0] == 'b'; }
    UpLevelsOfRepeat(Count(langDir, '/') + 2, rest);
  }

  /** The build rule of one example. */
  function ExampleRule(join: PathJoin, dir: string, lang: Language, rule: Rule): (b: seq<string>)
    ensures |b| == 5
    ensures b[0] == ".PHONY: " + ExampleTarget(lang, rule) && b[1] == ExampleTarget(lang, rule) + ":"
    ensures b[2] == "\tcd " + join([dir, "example", lang.dir, rule.name]) + "; \\"
    ensures b[3] == BuildCommand + DiskCachePath(lang.dir) + " //..."
    ensures b[4] == ""
  {
    [ ".PHONY: " + ExampleTarget(lang, rule),
      ExampleTarget(lang, rule) + ":",
      "\tcd " + join([dir, "example", lang.dir, rule.name]) + "; \\",
      BuildCommand + DiskCachePath(lang.dir) + " //...",
      "" ]
  }

  function ExampleRules(join: PathJoin, dir: string, lang: Language, rules: seq<Rule>): (r: seq<string>)
    ensures |r| == 5 * |rules|
  {
    if |rules| == 0 then [] else ExampleRule(join, dir, lang, rules[0]) + ExampleRules(join, dir, lang, rules[1..])
  }

  /** The build rule of the `i`-th rule sits five lines per earlier rule into
      the rules of its language. */
  lemma {:induction false} ExampleRuleAt(join: PathJoin, dir: string, lang: Language, rules: seq<Rule>, i: nat)
    requires i < |rules|
    ensures Placed(ExampleRules(join, dir, lang, rules), 5 * i, ExampleRule(join, dir, lang, rules[i]))
    decreases i
  {
    var head := ExampleRule(join, dir, lang, rules[0]);
    var rest := ExampleRules(join, dir, lang, rules[1..]);
    if i == 0 {
      Halves(head, rest);
    } else {
      assert rules[1..][i - 1] == rules[i];
      ExampleRuleAt(join, dir, lang, rules[1..], i - 1);
      PlacedShift(head, rest, [], 5 * (i - 1), ExampleRule(join, dir, lang, rules[i]));
      assert head + rest + [] == ExampleRules(join, dir, lang, rules);
    }
  }

  /** The example targets of one language, in rule order. */
  function LanguageTargets(lang: Language): (ts: seq<string>)
    ensures |ts| == |lang.rules|
    ensures forall i :: 0 <= i < |ts| ==> ts[i] == ExampleTarget(lang, lang.rules[i])
  {
    seq(|lang.rules|, i requires 0 <= i < |lang.rules| => ExampleTarget(lang, lang.rules[i]))
  }

  /** The part of the Makefile for one language: a build rule per rule, then
      the group rule naming them. */
  function LanguageBlock(join: PathJoin, dir: string, lang: Language): (b: seq<string>)
    ensures var n := |lang.rules|;
      && |b| == 5 * n + 3
      && Placed(b, 0, ExampleRules(join, dir, lang, lang.rules))
      && b[5 * n] == ".PHONY: " + LanguageTarget(lang)
      && b[5 * n + 1] == LanguageTarget(lang) + ": " + Join(LanguageTargets(lang), " ")
      && b[5 * n + 2] == ""
  {
    var rules := ExampleRules(join, dir, lang, lang.rules);
    var group := [".PHONY: " + LanguageTarget(lang), LanguageTarget(lang) + ": " + Join(LanguageTargets(lang), " "), ""];
    Halves(rules, group);
    rules + group
  }

  /** The block of each language, as a function of the language. */
  function Block(join: PathJoin, dir: string): Language -> seq<string>
  {
    (lang: Language) => LanguageBlock(join, dir, lang)
  }

  /** The blocks of all languages in registry order. */
  function LanguageBlocks(join: PathJoin, dir: string, langs: seq<Language>): (r: seq<string>)
    ensures |r| == 5 * TotalRules(langs) + 3 * |langs|
  {
    BlocksLength(join, dir, langs);
    ConcatMap(Block(join, dir), langs)
  }

  lemma {:induction false} BlocksLength(join: PathJoin, dir: string, langs: seq<Language>)
    ensures |ConcatMap(Block(join, dir), langs)| == 5 * TotalRules(langs) + 3 * |langs|
    decreases |langs|
  {
    if |langs| > 0 {
      BlocksLength(join, dir, langs[1..]);
      assert Block(join, dir)(langs[0]) == LanguageBlock(join, dir, langs[0]);
    }
  }

  /** Every example target in registry order. */
  function AllTargets(langs: seq<Language>): (ts: seq<string>)
    ensures |ts| == TotalRules(langs)
    ensures forall i :: 0 <= i < |ts| ==> ts[i] == ExampleTarget(Pairs(langs)[i].0, Pairs(langs)[i].1)
  {
    if |langs| == 0 then []
    else
      var head := LanguageTargets(langs[0]);
      var rest := AllTargets(langs[1..]);
      var ps := Pairs(langs);
      assert ps == RulePairs(langs[0]) + Pairs(langs[1..]);
      assert forall i :: |head| <= i < |ps| ==> ps[i] == Pairs(langs[1..])[i - |head|];
      head + rest
  }

  /** `mustWriteExamplesMakefile`: the blocks of every language in registry
      order, then `all_examples` naming every example. */
  function Makefile(join: PathJoin, dir: string, langs: seq<Language>): (mk: seq<string>)
    ensures var m := 5 * TotalRules(langs) + 3 * |langs|;
      && |mk| == m + 3
      && mk[..m] == LanguageBlocks(join, dir, langs)
      && mk[m] == ".PHONY: all_examples"
      && mk[m + 1] == "all_examples: " + Join(AllTargets(langs), " ")
      && mk[m + 2] == ""
  {
    LanguageBlocks(join, dir, langs)
      + [".PHONY: all_examples", "all_examples: " + Join(AllTargets(langs), " "), ""]
  }

  /** Where the block of the `k`-th language starts: after five lines per
      rule and three per language of the languages before it. */
  function BlockOffset(langs: seq<Language>, k: nat): nat
    requires k <= |langs|
  {
    5 * TotalRules(langs[..k]) + 3 * k
  }

  lemma {:induction false} BlockPlacement(join: PathJoin, dir: string, langs: seq<Language>, k: nat)
    requires k < |langs|
    ensures Placed(LanguageBlocks(join, dir, langs), BlockOffset(langs, k), LanguageBlock(join, dir, langs[k]))
  {
    var f := Block(join, dir);
    ConcatMapPlacement(f, langs, k);
    BlocksLength(join, dir, langs[..k]);
    PlacedEqual(ConcatMap(f, langs), |ConcatMap(f, langs[..k])|, f(langs[k]),
                LanguageBlocks(join, dir, langs), BlockOffset(langs, k), LanguageBlock(join, dir, langs[k]));
  }

  /** Every language's block sits whole in the Makefile at its offset. */
  lemma {:induction false} BlockInMakefile(join: PathJoin, dir: string, langs: seq<Language>, k: nat)
    requires k < |langs|
    ensures Placed(Makefile(join, dir, langs), BlockOffset(langs, k), LanguageBlock(join, dir, langs[k]))
  {
    var blocks := LanguageBlocks(join, dir, langs);
    var tail := [".PHONY: all_examples", "all_examples: " + Join(AllTargets(langs), " "), ""];
    var off := BlockOffset(langs, k);
    var b := LanguageBlock(join, dir, langs[k]);
    BlockPlacement(join, dir, langs, k);
    PlacedBefore(blocks, tail, off, b);
  }

  /** Every example's build rule sits inside its language's block, five
      lines per earlier rule of that language. */
  lemma {:induction false} RuleInBlock(join: PathJoin, dir: string, lang: Language, i: nat)
    requires i < |lang.rules|
    ensures Placed(LanguageBlock(join, dir, lang), 5 * i, ExampleRule(join, dir, lang, lang.rules[i]))
  {
    var b := LanguageBlock(join, dir, lang);
    var rules := ExampleRules(join, dir, lang, lang.rules);
    ExampleRuleAt(join, dir, lang, lang.rules, i);
    PlacedWithin(b, 0, rules, 5 * i, ExampleRule(join, dir, lang, lang.rules[i]));
  }

  /** The targets of `all_examples` are those of the language groups, one
      language after the other. */
  lemma {:induction false} AllTargetsByLanguage(langs: seq<Language>)
    requires |langs| > 0
    ensures AllTargets(langs) == LanguageTargets(langs[0]) + AllTargets(langs[1..])
  {
  }

  lemma {:induction false} NoSpaceInTarget(lang: Language, rule: Rule)
    requires ' ' !in lang.name && ' ' !in rule.name
    ensures ' ' !in ExampleTarget(lang, rule)
  {
    var u := "_";
    var e := "_example";
    assert ' ' !in u && ' ' !in e;
  }

  /** The prerequisites of a language's group rule, read back by splitting at
      spaces, are exactly its example targets in rule order (for names
      without spaces, and at least one rule). */
  lemma {:induction false} LanguageGroupRoundTrip(join: PathJoin, dir: string, lang: Language)
    requires |lang.rules| >= 1
    requires ' ' !in lang.name
    requires forall r :: r in lang.rules ==> ' ' !in r.name
    ensures var b := LanguageBlock(join, dir, lang);
      var prefix := LanguageTarget(lang) + ": ";
      && HasPrefix(b[5 * |lang.rules| + 1], prefix)
      && Split(b[5 * |lang.rules| + 1][|prefix|..], ' ') == LanguageTargets(lang)
  {
    var ts := LanguageTargets(lang);
    forall i | 0 <= i < |ts| ensures ' ' !in ts[i] {
      NoSpaceInTarget(lang, lang.rules[i]);
    }
    ReadBack(LanguageTarget(lang) + ": ", ts, ' ');
  }

  /** The prerequisites of `all_examples`, read back by splitting at spaces,
      are exactly the example targets of every (language, rule) pair in
      registry order (for names without spaces, and at least one rule). */
  lemma {:induction false} AllExamplesRoundTrip(join: PathJoin, dir: string, langs: seq<Language>)
    requires TotalRules(langs) >= 1
    requires forall l :: l in langs ==> ' ' !in l.name
    requires forall l, r :: l in langs && r in l.rules ==> ' ' !in r.name
    ensures var mk := Makefile(join, dir, langs);
      var m := 5 * TotalRules(langs) + 3 * |langs|;
      var prefix := "all_examples: ";
      && HasPrefix(mk[m + 1], prefix)
      && Split(mk[m + 1][|prefix|..], ' ') == AllTargets(langs)
  {
    NoSpaceInAllTargets(langs);
    ReadBack("all_examples: ", AllTargets(langs), ' ');
    assert [' '] == " ";
  }

  lemma {:induction false} NoSpaceInAllTargets(langs: seq<Language>)
    requires forall l :: l in langs ==> ' ' !in l.name
    requires forall l, r :: l in langs && r in l.rules ==> ' ' !in r.name
    ensures forall i :: 0 <= i < |AllTargets(langs)| ==> ' ' !in AllTargets(langs)[i]
  {
    var ts := AllTargets(langs);
    var ps := Pairs(langs);
    forall i | 0 <= i < |ts| ensures ' ' !in ts[i] {
      assert ps[i] in ps;
      PairsMembership(langs, ps[i].0, ps[i].1);
      NoSpaceInTarget(ps[i].0, ps[i].1);
    }
  }
}
