/**
 * scripts/apply-markdown-tokens.mjs: append to a theme's `tokenColors` every
 * canonical Markdown rule that has a scope the theme does not cover yet,
 * leaving the theme's own entries untouched, and rewrite the theme file only
 * when something was appended.
 */
module ApplyMarkdownTokens {
  import opened Wrappers
  import opened JsonValue
  import opened MarkdownTable

  // ---------------------------------------------------------------------------
  // normalizeScopes and buildExistingScopeSet
  // ---------------------------------------------------------------------------

  /**
   * `normalizeScopes(scope)`, where None stands for `undefined`: a falsy
   * scope gives [], an array its elements converted by `String`, a string
   * the one-element list, anything else [].
   */
  function NormalizeScopes(scope: Option<Json>): (r: seq<string>)
    ensures (scope.None? || !Truthy(scope.value)) ==> r == []
    ensures scope.Some? && scope.value.JArray? ==>
      |r| == |scope.value.items| && forall i :: 0 <= i < |r| ==> r[i] == JsString(scope.value.items[i])
    ensures scope.Some? && scope.value.JString? && scope.value.s != "" ==> r == [scope.value.s]
    ensures scope.Some? && !scope.value.JArray? && !scope.value.JString? ==> r == []
  {
    if scope.None? || !Truthy(scope.value) then []
    else if scope.value.JArray? then JsStrings(scope.value.items)
    else if scope.value.JString? then [scope.value.s]
    else []
  }

  /** `items.map(String)`. */
  function JsStrings(items: seq<Json>): (r: seq<string>)
    ensures |r| == |items| && forall i :: 0 <= i < |items| ==> r[i] == JsString(items[i])
  {
    seq(|items|, i requires 0 <= i < |items| => JsString(items[i]))
  }

  /** `entry.scope`: the property of an object, `undefined` for every other value (reading it off null throws; see HasNullEntry). */
  function ScopeProperty(entry: Json): Option<Json>
  {
    if entry.JObject? && "scope" in entry.members then Some(entry.members["scope"]) else None
  }

  function SeqSet(s: seq<string>): set<string>
  {
    set x | x in s
  }

  lemma SeqSetSnoc(s: seq<string>, k: nat)
    requires k < |s|
    ensures SeqSet(s[..k + 1]) == SeqSet(s[..k]) + {s[k]}
  {
    assert s[..k + 1] == s[..k] + [s[k]];
  }

  /** The scopes one `tokenColors` entry covers. */
  function EntryScopes(entry: Json): set<string>
  {
    SeqSet(NormalizeScopes(ScopeProperty(entry)))
  }

  /** The union of `f(x)` over the elements `x` of `xs`, accumulated in order. */
  function UnionOver(f: Json -> set<string>, xs: seq<Json>): set<string>
    decreases |xs|
  {
    if xs == [] then {} else UnionOver(f, xs[..|xs| - 1]) + f(xs[|xs| - 1])
  }

  /** A string is in the union exactly when some element contributes it. */
  lemma {:induction false} UnionOverExactly(f: Json -> set<string>, xs: seq<Json>, s: string)
    ensures s in UnionOver(f, xs) <==> exists i :: 0 <= i < |xs| && s in f(xs[i])
    decreases |xs|
  {
    if xs != [] {
      var n := |xs| - 1;
      var init := xs[..n];
      UnionOverExactly(f, init, s);
      assert forall i :: 0 <= i < n ==> init[i] == xs[i];
    }
  }

  /** The union of the scopes of all entries, in loop order. */
  function ExistingScopes(tokenColors: seq<Json>): set<string>
  {
    UnionOver(EntryScopes, tokenColors)
  }

  /** `entry.scope` on a null entry throws a TypeError. */
  predicate HasNullEntry(tokenColors: seq<Json>)
  {
    exists i :: 0 <= i < |tokenColors| && tokenColors[i].JNull?
  }

  /** `buildExistingScopeSet(tokenColors)`, None standing for a missing array and a None result for the TypeError. */
  method BuildExistingScopeSet(tokenColors: Option<seq<Json>>) returns (r: Option<set<string>>)
    ensures r.None? <==> tokenColors.Some? && HasNullEntry(tokenColors.value)
    ensures r.Some? ==> r.value == ExistingScopes(if tokenColors.Some? then tokenColors.value else [])
  {
    var entries := if tokenColors.Some? then tokenColors.value else [];
    var scopeSet: set<string> := {};
    for i := 0 to |entries|
      invariant scopeSet == ExistingScopes(entries[..i])
      invariant forall j :: 0 <= j < i ==> !entries[j].JNull?
    {
      assert entries[..i + 1][..i] == entries[..i];
      if entries[i].JNull? {
        return None;
      }
      var scopes := NormalizeScopes(ScopeProperty(entries[i]));
      ghost var before := scopeSet;
      for k := 0 to |scopes|
        invariant scopeSet == before + SeqSet(scopes[..k])
      {
        SeqSetSnoc(scopes, k);
        scopeSet := scopeSet + {scopes[k]};
      }
      assert scopes[..|scopes|] == scopes;
      assert ExistingScopes(entries[..i + 1]) == before + EntryScopes(entries[i]);
    }
    assert entries[..|entries|] == entries;
    return Some(scopeSet);
  }

  /** The scope set is exactly the union of the normalized scopes of all entries. */
  lemma {:induction false} ExistingScopesExactly(tokenColors: seq<Json>, s: string)
    ensures s in ExistingScopes(tokenColors) <==> exists i :: 0 <= i < |tokenColors| && s in EntryScopes(tokenColors[i])
  {
    UnionOverExactly(EntryScopes, tokenColors, s);
  }

  lemma {:induction false} ExistingScopesAppend(a: seq<Json>, b: seq<Json>)
    ensures ExistingScopes(a + b) == ExistingScopes(a) + ExistingScopes(b)
    decreases |b|
  {
    if b == [] {
      assert a + b == a;
    } else {
      var n := |b| - 1;
      assert (a + b)[..|a + b| - 1] == a + b[..n];
      ExistingScopesAppend(a, b[..n]);
    }
  }

  // ---------------------------------------------------------------------------
  // The scan over the canonical table
  // ---------------------------------------------------------------------------

  /** The union of the scopes of some rules. */
  function AllScopes(rules: seq<TokenRule>): set<string>
    decreases |rules|
  {
    if rules == [] then {} else AllScopes(rules[..|rules| - 1]) + SeqSet(rules[|rules| - 1].scope)
  }

  /** `scopes.some(sc => !existing.has(sc))`. */
  predicate Missing(scopes: seq<string>, existing: set<string>)
  {
    exists j :: 0 <= j < |scopes| && scopes[j] !in existing
  }

  /** The growing `existing` set and the `additions` list of addMissingMarkdownTokens. */
  datatype ScanState = ScanState(existing: set<string>, additions: seq<TokenRule>)

  /** One iteration of the loop at scripts/apply-markdown-tokens.mjs:84-91. */
  function ScanStep(s: ScanState, token: TokenRule): ScanState
  {
    var scopes := TokenScopes(token);
    if Missing(scopes, s.existing) then ScanState(s.existing + SeqSet(scopes), s.additions + [token]) else s
  }

  /** The loop over the table, as a left fold of ScanStep. */
  function Scan(existing: set<string>, rules: seq<TokenRule>): ScanState
    decreases |rules|
  {
    if rules == [] then ScanState(existing, [])
    else ScanStep(Scan(existing, rules[..|rules| - 1]), rules[|rules| - 1])
  }

  /** A canonical rule's scope normalizes to its own scope list. */
  lemma CanonicalScopes(r: TokenRule)
    ensures NormalizeScopes(ScopeProperty(RuleJson(r))) == r.scope
  {
    var scopes := NormalizeScopes(ScopeProperty(RuleJson(r)));
    assert |scopes| == |r.scope|;
    forall i | 0 <= i < |r.scope|
      ensures scopes[i] == r.scope[i]
    {
    }
  }

  /** `normalizeScopes(token.scope)` for a table rule, which is the rule's own scope list. */
  function TokenScopes(token: TokenRule): (r: seq<string>)
    ensures r == token.scope
  {
    CanonicalScopes(token);
    NormalizeScopes(ScopeProperty(RuleJson(token)))
  }

  /** The entry a rule becomes covers exactly the rule's scopes. */
  lemma RuleEntryScopes(r: TokenRule)
    ensures EntryScopes(RuleJson(r)) == SeqSet(r.scope)
  {
    CanonicalScopes(r);
  }

  /** The scopes the appended rules contribute to `tokenColors` are the rules' own scopes. */
  lemma {:induction false} ExistingScopesOfRules(rules: seq<TokenRule>)
    ensures ExistingScopes(RulesJson(rules)) == AllScopes(rules)
    decreases |rules|
  {
    if rules != [] {
      var n := |rules| - 1;
      assert RulesJson(rules)[..n] == RulesJson(rules[..n]);
      ExistingScopesOfRules(rules[..n]);
      assert RulesJson(rules)[n] == RuleJson(rules[n]);
      RuleEntryScopes(rules[n]);
    }
  }

  /** The running set is always the starting set plus the scopes of every rule scanned so far, appended or not. */
  lemma {:induction false} ScanExisting(existing: set<string>, rules: seq<TokenRule>)
    ensures Scan(existing, rules).existing == existing + AllScopes(rules)
    decreases |rules|
  {
    if rules != [] {
      var n := |rules| - 1;
      ScanExisting(existing, rules[..n]);
      var before := Scan(existing, rules[..n]).existing;
      if !Missing(rules[n].scope, before) {
        forall x | x in SeqSet(rules[n].scope)
          ensures x in before
        {
          var j :| 0 <= j < |rules[n].scope| && rules[n].scope[j] == x;
        }
      }
    }
  }

  /**
   * Rule i is appended exactly when one of its scopes is missing from the
   * starting set and from every earlier rule, and it is appended after the
   * additions made for the earlier rules.
   */
  lemma ScanChoice(existing: set<string>, rules: seq<TokenRule>, i: nat)
    requires i < |rules|
    ensures Scan(existing, rules[..i + 1]).additions ==
      Scan(existing, rules[..i]).additions +
      (if Missing(rules[i].scope, existing + AllScopes(rules[..i])) then [rules[i]] else [])
  {
    assert rules[..i + 1][..i] == rules[..i];
    ScanExisting(existing, rules[..i]);
  }

  /** The appended rules cover every scope of every rule scanned. */
  lemma {:induction false} ScanCoverage(existing: set<string>, rules: seq<TokenRule>)
    ensures existing + AllScopes(Scan(existing, rules).additions) == existing + AllScopes(rules)
    decreases |rules|
  {
    if rules != [] {
      var n := |rules| - 1;
      var adds := Scan(existing, rules[..n]).additions;
      ScanCoverage(existing, rules[..n]);
      ScanExisting(existing, rules[..n]);
      if Missing(rules[n].scope, existing + AllScopes(rules[..n])) {
        assert (adds + [rules[n]])[..|adds|] == adds;
      } else {
        forall x | x in SeqSet(rules[n].scope)
          ensures x in existing + AllScopes(rules[..n])
        {
          var j :| 0 <= j < |rules[n].scope| && rules[n].scope[j] == x;
        }
      }
    }
  }

  /** Every appended rule is a table rule, so no more rules are appended than the table holds. */
  lemma {:induction false} ScanAdditionsFromTable(existing: set<string>, rules: seq<TokenRule>)
    ensures |Scan(existing, rules).additions| <= |rules|
    ensures forall r :: r in Scan(existing, rules).additions ==> r in rules
    decreases |rules|
  {
    if rules != [] {
      var n := |rules| - 1;
      ScanAdditionsFromTable(existing, rules[..n]);
      forall r | r in Scan(existing, rules[..n]).additions
        ensures r in rules
      {
        var j :| 0 <= j < n && rules[..n][j] == r;
        assert rules[j] == r;
      }
    }
  }

  /** When every table scope is already covered, nothing is appended and the set does not grow. */
  lemma {:induction false} NothingMissing(existing: set<string>, rules: seq<TokenRule>)
    requires AllScopes(rules) <= existing
    ensures Scan(existing, rules) == ScanState(existing, [])
    decreases |rules|
  {
    if rules != [] {
      var n := |rules| - 1;
      NothingMissing(existing, rules[..n]);
      assert forall j :: 0 <= j < |rules[n].scope| ==> rules[n].scope[j] in SeqSet(rules[n].scope);
    }
  }

  lemma {:induction false} AllScopesContains(rules: seq<TokenRule>, i: nat)
    requires i < |rules|
    ensures SeqSet(rules[i].scope) <= AllScopes(rules)
    decreases |rules|
  {
    var n := |rules| - 1;
    if i < n {
      assert rules[..n][i] == rules[i];
      AllScopesContains(rules[..n], i);
    }
  }

  /** The rule at line 23 is never appended, whatever the theme: the rule at line 14 already covers its only scope. */
  lemma Line23RuleNeverAppended(existing: set<string>)
    ensures Scan(existing, MarkdownTokens()[..9]).additions == Scan(existing, MarkdownTokens()[..8]).additions
  {
    ScanChoice(existing, MarkdownTokens(), 8);
    AllScopesContains(MarkdownTokens()[..8], 0);
    assert MarkdownTokens()[8].scope[0] == MarkdownTokens()[0].scope[2];
    assert MarkdownTokens()[0].scope[2] in SeqSet(MarkdownTokens()[..8][0].scope);
  }

  /** Scanning further never removes or replaces an addition: the earlier additions stay a prefix. */
  lemma {:induction false} ScanPrefixAdditions(existing: set<string>, rules: seq<TokenRule>, i: nat)
    requires i <= |rules|
    ensures Scan(existing, rules[..i]).additions <= Scan(existing, rules).additions
    ensures |Scan(existing, rules[..i]).additions| <= |Scan(existing, rules).additions|
    decreases |rules| - i
  {
    if i < |rules| {
      ScanChoice(existing, rules, i);
      ScanPrefixAdditions(existing, rules, i + 1);
    } else {
      assert rules[..i] == rules;
    }
  }

  /** A first rule with a missing scope is always appended. */
  lemma FirstRuleAppended(existing: set<string>, rules: seq<TokenRule>)
    requires |rules| > 0 && Missing(rules[0].scope, existing)
    ensures |Scan(existing, rules).additions| > 0
  {
    ScanChoice(existing, rules, 0);
    assert rules[..0] == [];
    ScanPrefixAdditions(existing, rules, 1);
  }

  /** Some rule is always appended to an empty `tokenColors`: the first rule's scopes are all missing. */
  lemma EmptyThemeGetsRules()
    ensures |Additions([], MarkdownTokens())| > 0
  {
    var table := MarkdownTokens();
    assert table[0] == MarkdownToken(0);
    var none: set<string> := {};
    var scopes := table[0].scope;
    assert |scopes| == 3 && scopes[0] !in none;
    assert Missing(scopes, none);
    FirstRuleAppended(none, table);
  }

  // ---------------------------------------------------------------------------
  // addMissingMarkdownTokens on a theme object
  // ---------------------------------------------------------------------------

  /** `themeObj.tokenColors` once line 80 has run: the array, or [] when it is absent or not an array. */
  function TokenColorsOf(members: map<string, Json>): seq<Json>
  {
    if "tokenColors" in members && members["tokenColors"].JArray? then members["tokenColors"].items else []
  }

  /** The rules of a table appended to the given `tokenColors`, in table order. */
  function Additions(tokenColors: seq<Json>, table: seq<TokenRule>): seq<TokenRule>
  {
    Scan(ExistingScopes(tokenColors), table).additions
  }

  /** The theme's properties after a successful addMissingMarkdownTokens with the given table. */
  function Augmented(members: map<string, Json>, table: seq<TokenRule>): map<string, Json>
  {
    var tokenColors := TokenColorsOf(members);
    members["tokenColors" := JArray(tokenColors + RulesJson(Additions(tokenColors, table)))]
  }

  /** The `for (const token of markdownTokens)` loop, over any table of rules. */
  method ScanTable(existing0: set<string>, table: seq<TokenRule>) returns (existing: set<string>, additions: seq<TokenRule>)
    ensures ScanState(existing, additions) == Scan(existing0, table)
  {
    existing, additions := existing0, [];
    for i := 0 to |table|
      invariant ScanState(existing, additions) == Scan(existing0, table[..i])
    {
      assert table[..i + 1][..i] == table[..i];
      var token := table[i];
      var scopes := TokenScopes(token);
      var missing := exists j :: 0 <= j < |scopes| && scopes[j] !in existing;
      if missing {
        additions := additions + [token];
        ghost var before := existing;
        for k := 0 to |scopes|
          invariant existing == before + SeqSet(scopes[..k])
        {
          SeqSetSnoc(scopes, k);
          existing := existing + {scopes[k]};
        }
        assert scopes[..|scopes|] == scopes;
      }
    }
    assert table[..|table|] == table;
  }

  /** A parsed theme object, whose `tokenColors` property the script mutates in place. */
  class Theme {
    var members: map<string, Json>

    constructor(members: map<string, Json>)
      ensures this.members == members
    {
      this.members := members;
    }

    /**
     * `addMissingMarkdownTokens(themeObj)`: None stands for the TypeError a
     * null `tokenColors` entry raises; otherwise the number of rules appended.
     */
    method AddMissingMarkdownTokens() returns (added: Option<nat>)
      modifies this
      ensures added.None? <==> HasNullEntry(TokenColorsOf(old(members)))
      ensures added.None? ==> members == old(members)
      ensures added.Some? ==> members == Augmented(old(members), MarkdownTokens())
      ensures added.Some? ==> added.value == |Additions(TokenColorsOf(old(members)), MarkdownTokens())|
    {
      if !("tokenColors" in members && members["tokenColors"].JArray?) {
        members := members["tokenColors" := JArray([])];
      }
      var tokenColors := members["tokenColors"].items;
      assert tokenColors == TokenColorsOf(old(members));
      var built := BuildExistingScopeSet(Some(tokenColors));
      if built.None? {
        return None;
      }
      var existing, additions := ScanTable(built.value, MarkdownTokens());
      if |additions| > 0 {
        members := members["tokenColors" := JArray(tokenColors + RulesJson(additions))];
        return Some(|additions|);
      }
      assert members["tokenColors"] == JArray(tokenColors + RulesJson([])) by {
        assert tokenColors + RulesJson([]) == tokenColors;
      }
      return Some(0);
    }
  }

  // ---------------------------------------------------------------------------
  // Properties of the augmentation (for any table, so also for the canonical one)
  // ---------------------------------------------------------------------------

  /** The scopes covered after the call: the old ones and every scope of the table. */
  lemma AugmentedScopes(tokenColors: seq<Json>, table: seq<TokenRule>)
    ensures ExistingScopes(tokenColors + RulesJson(Additions(tokenColors, table))) ==
      ExistingScopes(tokenColors) + AllScopes(table)
  {
    var adds := Additions(tokenColors, table);
    ExistingScopesAppend(tokenColors, RulesJson(adds));
    ExistingScopesOfRules(adds);
    ScanCoverage(ExistingScopes(tokenColors), table);
  }

  /** After the call every scope of every table rule appears in some `tokenColors` entry. */
  lemma AugmentedCoversTable(members: map<string, Json>, table: seq<TokenRule>, i: nat, j: nat)
    requires i < |table| && j < |table[i].scope|
    ensures var after := TokenColorsOf(Augmented(members, table));
      exists e :: 0 <= e < |after| && table[i].scope[j] in EntryScopes(after[e])
  {
    var tokenColors := TokenColorsOf(members);
    var after := TokenColorsOf(Augmented(members, table));
    assert after == tokenColors + RulesJson(Additions(tokenColors, table));
    AugmentedScopes(tokenColors, table);
    AllScopesContains(table, i);
    assert table[i].scope[j] in SeqSet(table[i].scope);
    ExistingScopesExactly(after, table[i].scope[j]);
  }

  /** The theme's other properties and its original entries are untouched; additions come after them. */
  lemma AugmentedPreserves(members: map<string, Json>, table: seq<TokenRule>)
    ensures var after := Augmented(members, table);
      && (forall k :: k in members && k != "tokenColors" ==> k in after && after[k] == members[k])
      && after.Keys == members.Keys + {"tokenColors"}
      && TokenColorsOf(after)[..|TokenColorsOf(members)|] == TokenColorsOf(members)
      && TokenColorsOf(after)[|TokenColorsOf(members)|..] == RulesJson(Additions(TokenColorsOf(members), table))
  {
  }

  /** A second call appends nothing, returns 0 and leaves `tokenColors` as the first call left it. */
  lemma AugmentIdempotent(members: map<string, Json>, table: seq<TokenRule>)
    requires !HasNullEntry(TokenColorsOf(members))
    ensures !HasNullEntry(TokenColorsOf(Augmented(members, table)))
    ensures Additions(TokenColorsOf(Augmented(members, table)), table) == []
    ensures Augmented(Augmented(members, table), table) == Augmented(members, table)
  {
    var tokenColors := TokenColorsOf(members);
    var after := TokenColorsOf(Augmented(members, table));
    assert after == tokenColors + RulesJson(Additions(tokenColors, table));
    AugmentedScopes(tokenColors, table);
    NothingMissing(ExistingScopes(after), table);
    assert after + RulesJson([]) == after;
    assert forall i :: 0 <= i < |tokenColors| ==> after[i] == tokenColors[i];
  }

  // ---------------------------------------------------------------------------
  // processThemeFile
  // ---------------------------------------------------------------------------

  /** `{ updated, added }` and the JSON value written back to the file, if any. */
  datatype FileOutcome = FileOutcome(updated: bool, added: nat, written: Option<Json>)

  datatype ScriptError = TypeError

  const Skipped := FileOutcome(false, 0, None)

  /**
   * `processThemeFile` from `parse(raw)` on (None standing for `undefined`):
   * anything but a JSON object is skipped; the file is rewritten only when
   * at least one rule was appended. Arrays are skipped too (see
   * ProcessThemeFileAsWritten).
   */
  function ProcessThemeFile(parsed: Option<Json>): (r: Result<FileOutcome, ScriptError>)
    ensures (parsed.None? || !parsed.value.JObject?) ==> r == Success(Skipped)
    ensures r.Failure? <==> parsed.Some? && parsed.value.JObject? && HasNullEntry(TokenColorsOf(parsed.value.members))
    ensures r.Success? ==> (r.value.updated <==> r.value.added > 0) && (r.value.updated <==> r.value.written.Some?)
    ensures r.Success? && r.value.updated ==>
      r.value.written == Some(JObject(Augmented(parsed.value.members, MarkdownTokens()))) &&
      r.value.added == |Additions(TokenColorsOf(parsed.value.members), MarkdownTokens())|
  {
    if parsed.None? || !parsed.value.JObject? then Success(Skipped)
    else
      var members := parsed.value.members;
      var tokenColors := TokenColorsOf(members);
      if HasNullEntry(tokenColors) then Failure(TypeError)
      else
        var added := |Additions(tokenColors, MarkdownTokens())|;
        if added > 0 then Success(FileOutcome(true, added, Some(JObject(Augmented(members, MarkdownTokens())))))
        else Success(Skipped)
  }

  /** Processing a file this script has just rewritten changes nothing. */
  lemma ProcessThemeFileIdempotent(parsed: Option<Json>)
    requires ProcessThemeFile(parsed).Success? && ProcessThemeFile(parsed).value.updated
    ensures ProcessThemeFile(ProcessThemeFile(parsed).value.written) == Success(Skipped)
  {
    AugmentIdempotent(parsed.value.members, MarkdownTokens());
  }

  /**
   * The check at line 103 as written: `typeof json !== 'object'` lets arrays
   * through. `themeObj.tokenColors` is then a new property of the array,
   * which starts empty and which `JSON.stringify` does not serialize, so the
   * array is written back unchanged.
   */
  function ProcessThemeFileAsWritten(parsed: Option<Json>): (r: Result<FileOutcome, ScriptError>)
    ensures parsed.Some? && parsed.value.JArray? ==>
      r.Success? && r.value.updated && r.value.added > 0 && r.value.written == parsed
    ensures !(parsed.Some? && parsed.value.JArray?) ==> r == ProcessThemeFile(parsed)
  {
    if parsed.Some? && parsed.value.JArray? then
      EmptyThemeGetsRules();
      var added := |Additions([], MarkdownTokens())|;
      if added > 0 then Success(FileOutcome(true, added, parsed)) else Success(Skipped)
    else ProcessThemeFile(parsed)
  }

  /** A theme file holding a JSON array is reported as updated with rules added, but is written back without them. */
  lemma ArrayThemeReportsPhantomRules(items: seq<Json>)
    ensures var r := ProcessThemeFileAsWritten(Some(JArray(items)));
      && r.Success? && r.value.updated && r.value.added > 0
      && r.value.written == Some(JArray(items))
    ensures ProcessThemeFile(Some(JArray(items))) == Success(Skipped)
  {
    EmptyThemeGetsRules();
  }
}
