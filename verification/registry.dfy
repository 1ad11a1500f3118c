/**
 * The registry the generator walks: languages, their rules, and the flags and
 * attributes those declare. It is built once as a literal value and only read
 * afterwards, so every entity is an immutable datatype here.
 *
 * Three collaborators whose definitions are not part of this model are passed
 * to the emitters as parameters: the template expander (`Expander`), the
 * platform predicate `doTestOnPlatform` (`PlatformFilter`) and `path.Join`
 * (`PathJoin`).
 */
module Registry {

  datatype Option<T> = None | Some(value: T)

  /** A template: inline template source attached to a rule or language, or a
      template file named by path (the top-level README header and footer). */
  datatype Template = Source(text: string) | File(path: string)

  /** A command-line flag written to an example's `.bazelrc`. */
  datatype Flag = Flag(category: string, name: string, value: string, description: string)

  /** A rule attribute, rendered only into documentation tables. */
  datatype Attr = Attr(name: string, attrType: string, mandatory: bool, defaultValue: string, doc: string)

  datatype Rule = Rule(
    name: string,
    doc: string,
    experimental: bool,
    implementation: Template,
    workspaceExample: Template,
    buildExample: Template,
    flags: seq<Flag>,
    attrs: seq<Attr>,
    presubmitEnvVars: map<string, string>)

  datatype Language = Language(
    dir: string,
    name: string,
    displayName: string,
    notes: Option<Template>,
    flags: seq<Flag>,
    rules: seq<Rule>,
    aliases: map<string, string>,
    presubmitEnvVars: map<string, string>)

  /** The data a template is expanded against: a language, a (language, rule)
      pair, or the release reference and archive hash of the top-level README. */
  datatype Context =
    | LanguageData(lang: Language)
    | RuleData(lang: Language, rule: Rule)
    | ReleaseData(ref: string, sha256: string)

  /** Template expansion: the lines a template produces for a context. */
  type Expander = (Template, Context) -> seq<string>

  /** `doTestOnPlatform(lang, rule, platform)`; `None` asks about the language
      as a whole. */
  type PlatformFilter = (Language, Option<Rule>, string) -> bool

  /** `path.Join` over the given path elements. */
  type PathJoin = seq<string> -> string

  /** The CI platforms, in the order tasks are written for them. */
  const CiPlatforms: seq<string> := ["ubuntu1804", "windows", "macos"]

  function RulePairs(lang: Language): (ps: seq<(Language, Rule)>)
    ensures |ps| == |lang.rules|
    ensures forall i :: 0 <= i < |ps| ==> ps[i] == (lang, lang.rules[i])
  {
    seq(|lang.rules|, i requires 0 <= i < |lang.rules| => (lang, lang.rules[i]))
  }

  function TotalRules(langs: seq<Language>): nat
  {
    if |langs| == 0 then 0 else |langs[0].rules| + TotalRules(langs[1..])
  }

  /** Every (language, rule) pair in registry order: languages in sequence, and
      within each language its rules in declared order. This is the order of
      every per-rule output the generator writes. */
  function Pairs(langs: seq<Language>): (ps: seq<(Language, Rule)>)
    ensures |ps| == TotalRules(langs)
  {
    if |langs| == 0 then [] else RulePairs(langs[0]) + Pairs(langs[1..])
  }

  /** Every rule of every language is paired with its language, and nothing
      else is. */
  lemma {:induction false} PairsMembership(langs: seq<Language>, l: Language, r: Rule)
    ensures (l, r) in Pairs(langs) <==> l in langs && r in l.rules
    decreases |langs|
  {
    if |langs| > 0 {
      PairsMembership(langs[1..], l, r);
      assert l in langs <==> l == langs[0] || l in langs[1..] by {
        assert langs == [langs[0]] + langs[1..];
      }
      var head := RulePairs(langs[0]);
      if (l, r) in head {
        var i :| 0 <= i < |head| && head[i] == (l, r);
        assert r == langs[0].rules[i];
      }
      if l == langs[0] && r in l.rules {
        var i :| 0 <= i < |l.rules| && l.rules[i] == r;
        assert head[i] == (l, r);
      }
    }
  }

  /** Registry order is language-major: the pairs of a concatenation of
      language lists are the pairs of the first list followed by those of the
      second, and a single language contributes its rules in declared order. */
  lemma {:induction false} PairsAppend(a: seq<Language>, b: seq<Language>)
    ensures Pairs(a + b) == Pairs(a) + Pairs(b)
    ensures Pairs([] + b) == Pairs(b)
    decreases |a|
  {
    assert [] + b == b;
    if |a| > 0 {
      assert (a + b)[1..] == a[1..] + b;
      PairsAppend(a[1..], b);
    } else {
      assert a + b == b;
    }
  }

  lemma {:induction false} PairsOfOne(l: Language)
    ensures Pairs([l]) == RulePairs(l)
  {
    assert [l][1..] == [];
  }
}
