/**
 * `defs.bzl`, the aggregator of one language: it loads every rule under a
 * private name, re-exports it under its public name, and re-exports the
 * language's aliases sorted by alias name.
 */
module Defs {
  import opened Strings
  import opened Registry

  function DefsHeader(lang: Language): string
  {
    "# Aggregate all `" + lang.name + "` rules to one loadable file"
  }

  function LoadLine(rule: string): string
  {
    "load(\":" + rule + ".bzl\", _" + rule + "=\"" + rule + "\")"
  }

  /** `name = _target`: re-export of the private symbol `_target` as `name`. */
  function ExportLine(name: string, target: string): string
  {
    name + " = _" + target
  }

  function LoadLines(rules: seq<Rule>): (r: seq<string>)
    ensures |r| == |rules|
    ensures forall i :: 0 <= i < |rules| ==> r[i] == LoadLine(rules[i].name)
  {
    if |rules| == 0 then []
    else
      assert forall i :: 1 <= i < |rules| ==> rules[i] == rules[1..][i - 1];
      [LoadLine(rules[0].name)] + LoadLines(rules[1..])
  }

  function RuleExportLines(rules: seq<Rule>): (r: seq<string>)
    ensures |r| == |rules|
    ensures forall i :: 0 <= i < |rules| ==> r[i] == ExportLine(rules[i].name, rules[i].name)
  {
    if |rules| == 0 then []
    else
      assert forall i :: 1 <= i < |rules| ==> rules[i] == rules[1..][i - 1];
      [ExportLine(rules[0].name, rules[0].name)] + RuleExportLines(rules[1..])
  }

  function AliasLines(names: seq<string>, aliases: map<string, string>): (r: seq<string>)
    requires forall k :: k in names ==> k in aliases
    ensures |r| == |names|
    ensures forall i :: 0 <= i < |names| ==> r[i] == ExportLine(names[i], aliases[names[i]])
  {
    if |names| == 0 then []
    else
      assert forall i :: 1 <= i < |names| ==> names[i] == names[1..][i - 1];
      [ExportLine(names[0], aliases[names[0]])] + AliasLines(names[1..], aliases)
  }

  /** The alias block: present only when the language declares aliases. */
  function AliasBlock(aliases: map<string, string>): (b: seq<string>)
    ensures |b| == (if |aliases| > 0 then |aliases| + 2 else 0)
    ensures |aliases| > 0 ==>
      && b[0] == "# Aliases"
      && b[1..|b| - 1] == AliasLines(SortedKeys(aliases), aliases)
      && b[|b| - 1] == ""
  {
    if |aliases| > 0 then
      var lines := AliasLines(SortedKeys(aliases), aliases);
      assert (["# Aliases"] + lines + [""])[1..|lines| + 1] == lines;
      ["# Aliases"] + lines + [""]
    else []
  }

  /** The rule part of `defs.bzl`: with `n` rules, the header, `n` load
      lines in rule order, a blank line, `n` re-exports in rule order and a
      blank line. */
  function RuleBlock(lang: Language): (r: seq<string>)
    ensures var n := |lang.rules|;
      && |r| == 2 * n + 3
      && r[0] == DefsHeader(lang)
      && (forall i :: 0 <= i < n ==> r[1 + i] == LoadLine(lang.rules[i].name))
      && r[1 + n] == ""
      && (forall i :: 0 <= i < n ==> r[2 + n + i] == ExportLine(lang.rules[i].name, lang.rules[i].name))
      && r[2 + 2 * n] == ""
  {
    var n := |lang.rules|;
    var loads := LoadLines(lang.rules);
    var exports := RuleExportLines(lang.rules);
    var top := [DefsHeader(lang)] + loads + [""];
    var bottom := exports + [""];
    assert forall i :: 0 <= i < n ==> top[1 + i] == loads[i];
    assert forall i :: 0 <= i < n ==> bottom[i] == exports[i];
    assert forall i :: 0 <= i < n + 1 ==> (top + bottom)[n + 2 + i] == bottom[i];
    top + bottom
  }

  /** `mustWriteLanguageDefs`: the rule part, then the alias block, which is
      there exactly when the language declares aliases. */
  function LanguageDefs(lang: Language): (r: seq<string>)
    ensures |r| == 2 * |lang.rules| + 3 + (if |lang.aliases| > 0 then |lang.aliases| + 2 else 0)
    ensures r[..2 * |lang.rules| + 3] == RuleBlock(lang)
    ensures r[2 * |lang.rules| + 3..] == AliasBlock(lang.aliases)
    ensures |lang.aliases| > 0 <==> |r| > 2 * |lang.rules| + 3
  {
    var head := RuleBlock(lang);
    var block := AliasBlock(lang.aliases);
    assert (head + block)[..|head|] == head;
    assert (head + block)[|head|..] == block;
    head + block
  }

  /** The alias block follows any strictly ascending enumeration of the alias
      names, so it is sorted by alias name and lists every alias exactly once,
      whatever order the map would be iterated in. */
  lemma {:induction false} AliasesSortedByName(lang: Language, names: seq<string>)
    requires StrictlyAscending(names)
    requires forall k :: k in names <==> k in lang.aliases
    ensures |names| == |lang.aliases|
    ensures |names| > 0 ==>
      var r := LanguageDefs(lang);
      var base := 2 * |lang.rules| + 3;
      && r[base] == "# Aliases"
      && (forall i :: 0 <= i < |names| ==> r[base + 1 + i] == ExportLine(names[i], lang.aliases[names[i]]))
      && r[|r| - 1] == ""
  {
    AscendingUnique(names, SortedKeys(lang.aliases));
    if |names| > 0 {
      var r := LanguageDefs(lang);
      var base := 2 * |lang.rules| + 3;
      var block := AliasBlock(lang.aliases);
      var lines := AliasLines(names, lang.aliases);
      LinesInBlock(r, base, block, lines);
    }
  }

  /** The lines framed by a block's first and last line, where the block is
      the tail of `r` from `base` on. */
  lemma {:induction false} LinesInBlock(r: seq<string>, base: nat, block: seq<string>, lines: seq<string>)
    requires base <= |r| && r[base..] == block
    requires |block| == |lines| + 2 && block[1..|block| - 1] == lines
    ensures r[base] == block[0] && r[|r| - 1] == block[|block| - 1]
    ensures forall i :: 0 <= i < |lines| ==> r[base + 1 + i] == lines[i]
  {
    forall i | 0 <= i < |lines| ensures r[base + 1 + i] == lines[i] {
      assert r[base..][1 + i] == block[1 + i];
      assert block[1..|block| - 1][i] == block[1 + i];
    }
    assert r[base..][0] == block[0];
    assert r[base..][|block| - 1] == block[|block| - 1];
  }
}
