/**
 * The canonical Markdown token-colour rules of scripts/apply-markdown-tokens.mjs
 * (`markdownTokens`, lines 13-61), in table order.
 */
module MarkdownTable {
  import opened Wrappers
  import opened JsonValue

  /** A `{ scope: [...], settings: { foreground?, fontStyle? } }` token-colour rule. */
  datatype TokenRule = TokenRule(scope: seq<string>, foreground: Option<string>, fontStyle: Option<string>)

  /** The rule as the JSON object pushed into a theme's `tokenColors`. */
  function RuleJson(r: TokenRule): (j: Json)
    ensures j.JObject? && "scope" in j.members && j.members["scope"].JArray?
    ensures |j.members["scope"].items| == |r.scope|
    ensures forall i :: 0 <= i < |r.scope| ==> j.members["scope"].items[i] == JString(r.scope[i])
  {
    var scope := JArray(seq(|r.scope|, i requires 0 <= i < |r.scope| => JString(r.scope[i])));
    var settings :=
      (if r.foreground.Some? then map["foreground" := JString(r.foreground.value)] else map[]) +
      (if r.fontStyle.Some? then map["fontStyle" := JString(r.fontStyle.value)] else map[]);
    JObject(map["scope" := scope, "settings" := JObject(settings)])
  }

  /** Rules mapped to their JSON objects, in order. */
  function RulesJson(rules: seq<TokenRule>): (js: seq<Json>)
    ensures |js| == |rules|
    ensures forall i :: 0 <= i < |rules| ==> js[i] == RuleJson(rules[i])
  {
    seq(|rules|, i requires 0 <= i < |rules| => RuleJson(rules[i]))
  }

  /** The number of canonical rules. */
  const TableSize: nat := 36

  /**
   * The i-th rule of `markdownTokens`, for 0 <= i < TableSize; the comment
   * gives its line in scripts/apply-markdown-tokens.mjs.
   */
  function MarkdownToken(i: int): TokenRule
  {
    match i
    case 0 => TokenRule(["markup.heading", "entity.name.section", "punctuation.definition.heading.markdown"], None, Some("bold"))  // line 14
    case 1 => TokenRule(["heading.1.markdown", "markup.heading.setext.1.markdown"], Some("#F2C97D"), Some("bold"))  // line 15
    case 2 => TokenRule(["heading.2.markdown", "markup.heading.setext.2.markdown"], Some("#FF88C2"), Some("bold"))  // line 16
    case 3 => TokenRule(["heading.3.markdown"], Some("#00F5A0"), Some("bold"))  // line 17
    case 4 => TokenRule(["heading.4.markdown"], Some("#C8B0FF"), Some("bold"))  // line 18
    case 5 => TokenRule(["heading.5.markdown"], Some("#F7B883"), Some("bold"))  // line 19
    case 6 => TokenRule(["heading.6.markdown"], Some("#EADCB2"), Some("bold"))  // line 20
    case 7 => TokenRule(["markup.heading", "markup.heading.markdown", "markup.heading.setext"], None, Some("bold"))  // line 22
    case 8 => TokenRule(["punctuation.definition.heading.markdown"], Some("#A6AAB4"), None)  // line 23
    case 9 => TokenRule(["markup.bold", "markup.bold.markdown"], Some("#F5F2E8"), Some("bold"))  // line 25
    case 10 => TokenRule(["punctuation.definition.bold.markdown"], Some("#FFD166"), None)  // line 26
    case 11 => TokenRule(["markup.italic", "markup.italic.markdown"], Some("#EADCB2"), Some("italic"))  // line 28
    case 12 => TokenRule(["punctuation.definition.italic.markdown"], Some("#FFD16688"), None)  // line 29
    case 13 => TokenRule(["markup.strikethrough"], Some("#A6ACBA"), Some("strikethrough"))  // line 31
    case 14 => TokenRule(["markup.inserted"], Some("#79E49A"), None)  // line 32
    case 15 => TokenRule(["markup.deleted"], Some("#FF5A87"), None)  // line 33
    case 16 => TokenRule(["markup.changed"], Some("#FFD166"), None)  // line 34
    case 17 => TokenRule(["markup.underline.link", "markup.underline.link.markdown", "markup.link", "meta.link", "meta.link.inline", "meta.link.reference"], Some("#4CFFCA"), Some("underline"))  // line 36
    case 18 => TokenRule(["string.other.link.title.markdown"], Some("#F7F8FA"), None)  // line 37
    case 19 => TokenRule(["string.other.link.description.markdown"], Some("#D8C8FF"), None)  // line 38
    case 20 => TokenRule(["constant.other.reference.link.markdown"], Some("#A6AAB4"), None)  // line 39
    case 21 => TokenRule(["markup.inline.raw", "markup.raw.inline"], Some("#EADCB2"), None)  // line 41
    case 22 => TokenRule(["markup.fenced_code.block.markdown", "markup.fenced_code", "markup.raw.block"], Some("#EADCB2"), None)  // line 42
    case 23 => TokenRule(["punctuation.definition.raw.markdown", "punctuation.definition.fenced.markdown"], Some("#A6AAB4"), None)  // line 43
    case 24 => TokenRule(["fenced_code.block.language"], Some("#A6AAB4"), None)  // line 44
    case 25 => TokenRule(["meta.embedded.block.frontmatter", "meta.front-matter", "punctuation.definition.metadata.markdown"], Some("#8E93A6"), None)  // line 46
    case 26 => TokenRule(["markup.quote", "markup.quote.markdown"], Some("#A6AAB4"), Some("italic"))  // line 48
    case 27 => TokenRule(["punctuation.definition.quote.begin.markdown"], Some("#FFD166"), None)  // line 49
    case 28 => TokenRule(["meta.separator.markdown"], Some("#242a31"), None)  // line 50
    case 29 => TokenRule(["markup.list", "markup.list.numbered", "markup.list.unnumbered"], Some("#FFD166"), None)  // line 52
    case 30 => TokenRule(["punctuation.definition.list.begin.markdown"], Some("#FFD166"), None)  // line 53
    case 31 => TokenRule(["markup.table"], Some("#EDEFF2"), None)  // line 55
    case 32 => TokenRule(["markup.table.header"], Some("#D8C8FF"), Some("bold"))  // line 56
    case 33 => TokenRule(["punctuation.definition.table.markdown", "meta.table.separator.markdown"], Some("#242a31"), None)  // line 57
    case 34 => TokenRule(["markup.input.checkbox"], Some("#00F5A0"), None)  // line 59
    case _ => TokenRule(["meta.image.inline", "meta.image.reference"], Some("#4CFFCA"), None)  // line 60
  }

  /** `markdownTokens`, in table order. */
  function MarkdownTokens(): (t: seq<TokenRule>)
    ensures |t| == TableSize && forall i :: 0 <= i < TableSize ==> t[i] == MarkdownToken(i)
  {
    seq(TableSize, MarkdownToken)
  }
}
