# XELA themes: preset merge and Markdown token augmentation

This project is a Dafny model of two parts of the XELA themes VS Code extension, with proofs about that model:

- **The settings-preset merge** in `extension.js`.
  - `applyPreset` merges the bundled preset into the workspace's `.vscode/settings.json`. The code backs up a settings file whose parse throws; jsonc-parser does not throw on bad text, though (see "Left out").
  - `applyPresetGlobal` merges the same preset into the user settings, through VS Code's configuration API.
  - Both take one pass over the preset's keys. In *additive* mode a key that is already set is meant to be kept; `applyPresetGlobal` keeps it, while `applyPreset` as written overwrites it (see "Findings"). In *overwrite* mode every key is meant to be written. Each key is counted at most once, as `changed` or `kept`; in `applyPresetGlobal` a key whose `inspect` or `update` throws is skipped, neither written nor counted.
- **The Markdown token augmentation** in `scripts/apply-markdown-tokens.mjs`. The script appends the canonical `markdownTokens` rules to a theme's `tokenColors`. A rule is appended only if one of its scopes is not yet covered, either by the theme or by a rule appended before it. The theme file is rewritten only when something was appended.

Files:

- `wrappers.dfy`: `Option` and `Result`.
- `json_value.dfy`: parsed JSON values, plus JavaScript truthiness and `String(v)`.
- `settings_merge.dfy` (module `SettingsMerge`): the workspace merge, including the existence check exactly as written.
- `user_settings_merge.dfy` (module `UserSettingsMerge`): the user-settings merge, over a `Configuration` class whose `inspect`/`update` may throw for given keys.
- `markdown_table.dfy` (module `MarkdownTable`): the 36 canonical rules and their JSON form.
- `markdown_tokens.dfy` (module `ApplyMarkdownTokens`): `normalizeScopes`, `buildExistingScopeSet`, `addMissingMarkdownTokens` (on a `Theme` class) and `processThemeFile`.

The loops are modelled as methods. Each method is proved equal to one of these left-fold functions:

| function | loop it specifies |
|---|---|
| `Merge` | the workspace key loop |
| `GlobalMerge` | the user-settings key loop |
| `ExistingScopes` | the scope-set loop |
| `Scan` | the table scan |

The properties are proved about those functions.

## Model

| member | source | states |
|---|---|---|
| SettingsMerge.MergeIntoDocument | extension.js:217-234 | The loop (existence test corrected; see `MergeAsWritten` and "Findings"): its document and counters are the fold `Merge`, with one of kept/changed per preset key and nothing kept in overwrite mode. The resulting keys are the old keys plus the preset keys. The existence index is rebuilt after each write (line 232). |
| SettingsMerge.ApplyPreset | extension.js:176-215 | Following the two try/catch blocks, taking a parse that throws as the unparsable case (see "Left out"): an unparsable preset fails, and then nothing is written. A missing file starts from `{}`. An unparsable file is backed up with its exact text and replaced by `{}`. A file whose root is well-formed JSON but not an object fails as soon as the preset has an entry, because `modify` cannot add a property to it (line 226); with an empty preset its text is written back unchanged. A parsed object is merged as is. The written settings and counts are `Merge` of that starting point (existence test corrected; see `MergeAsWritten` and "Findings"). |
| SettingsMerge.MergeCounts | extension.js:217-230 | `changed + kept` equals the number of preset entries. Overwrite mode keeps none. |
| SettingsMerge.MergeKeys | extension.js:226-232 | After the loop the document holds exactly its old keys and the preset keys. |
| SettingsMerge.MergePreservesOthers | extension.js:226-229 | A setting that the preset does not name keeps its value, because each edit touches only the path `[key]`. |
| SettingsMerge.AdditiveKeepsExisting | extension.js:221-225 | Additive mode never changes a key that was already present. |
| SettingsMerge.MergeValue | extension.js:218-230 | Each preset key ends with its old value when kept (additive mode, key present), and with the preset's value otherwise. |
| SettingsMerge.OverwriteSetsPresetValues | extension.js:226-230 | Overwrite mode leaves every preset key at the preset's value. |
| SettingsMerge.AdditiveCounts | extension.js:221-230 | In additive mode, `kept` is the number of preset keys already present and `changed` is the number missing. |
| SettingsMerge.AdditiveOnCovered | extension.js:221-225 | Additive mode on a document that already holds every preset key writes nothing and keeps every key. |
| SettingsMerge.AdditiveIdempotent | extension.js:217-234 | A second additive run on the result changes 0 keys and keeps all of them. |
| SettingsMerge.OverwriteIdempotent | extension.js:217-234 | A second overwrite run leaves the document unchanged. |
| SettingsMerge.MergeAsWritten | extension.js:217-234 | The key loop with the existence test as written: it keeps no key and counts every entry as changed, whatever the mode. |
| SettingsMerge.AsWrittenAdditiveIsOverwrite | extension.js:220 | As written, the `exists` test is always false, so additive mode computes what overwrite mode computes. |
| SettingsMerge.AsWrittenOverwritesExistingSetting | extension.js:220-230 | Example: an existing `editor.fontSize` of 14 is replaced by the preset's 13 in additive mode as written. The corrected loop keeps it. |
| UserSettingsMerge.Configuration.InspectGlobal | extension.js:274-275 | `inspect(key).globalValue` is defined exactly when the key has a user-level value. The call fails for the keys whose inspect throws. |
| UserSettingsMerge.Configuration.Update | extension.js:281 | The value is stored at user level, or the call throws and nothing is stored. |
| UserSettingsMerge.ApplyPresetGlobal | extension.js:270-288 | The user values and counters after the loop are the fold `GlobalMerge`. That fold skips a key whose inspect or update throws. No more keys are counted than the preset has, and overwrite mode keeps none. |
| UserSettingsMerge.GlobalCounts | extension.js:272-287 | Each key is counted at most once. Overwrite mode keeps none. If no host call throws, every key is counted. |
| UserSettingsMerge.GlobalMatchesWorkspace | extension.js:274-282 | If the host never throws, the user-settings loop computes the same result as the (corrected) workspace loop. |
| UserSettingsMerge.GlobalUntouched | extension.js:284-287 | These keys keep their user value, or stay absent: keys the preset does not name, and keys whose inspect or update throws. |
| UserSettingsMerge.GlobalCovers | extension.js:276-282 | Every preset key whose host calls succeed ends with a user value. No other key gains one. |
| UserSettingsMerge.GlobalAdditiveKeepsExisting | extension.js:275-280 | Additive mode never changes an existing user value. |
| UserSettingsMerge.GlobalAdditiveOnCovered | extension.js:275-280 | Additive mode on a store that holds every writable preset key changes nothing. |
| UserSettingsMerge.GlobalAdditiveIdempotent | extension.js:270-288 | A second additive run against the same host writes nothing. |
| MarkdownTable.RuleJson | scripts/apply-markdown-tokens.mjs:13-61 | A rule's JSON object has a `scope` array holding the rule's scopes as strings, in order. |
| MarkdownTable.MarkdownTokens | scripts/apply-markdown-tokens.mjs:13-61 | The table has 36 rules in source order. Rule i is the literal on the line noted beside `MarkdownToken(i)`. |
| ApplyMarkdownTokens.NormalizeScopes | scripts/apply-markdown-tokens.mjs:63-68 | A falsy scope gives `[]`. An array gives its elements converted by `String`, in order. A non-empty string gives a one-element list. Any other value gives `[]`. |
| ApplyMarkdownTokens.BuildExistingScopeSet | scripts/apply-markdown-tokens.mjs:70-77 | The result is the union of the normalized scopes of all entries. A missing array gives the empty set. A `null` entry raises the TypeError (result None), and only a null entry does. |
| ApplyMarkdownTokens.ExistingScopesExactly | scripts/apply-markdown-tokens.mjs:70-77 | A scope is in the set if and only if some entry's normalized scopes contain it. |
| ApplyMarkdownTokens.ExistingScopesAppend | scripts/apply-markdown-tokens.mjs:70-77 | The scope set of two concatenated entry lists is the union of their scope sets. |
| ApplyMarkdownTokens.SeqSetSnoc | scripts/apply-markdown-tokens.mjs:74 | Adding one more scope of the list to the set adds exactly that scope. |
| ApplyMarkdownTokens.UnionOverExactly | scripts/apply-markdown-tokens.mjs:72-74 | A string is in the accumulated union if and only if some entry contributes it. |
| ApplyMarkdownTokens.CanonicalScopes | scripts/apply-markdown-tokens.mjs:85 | `normalizeScopes` of a canonical rule's scope is that rule's own scope list. |
| ApplyMarkdownTokens.TokenScopes | scripts/apply-markdown-tokens.mjs:85 | The scopes the loop computes for a table rule are exactly the rule's scopes. |
| ApplyMarkdownTokens.RuleEntryScopes | scripts/apply-markdown-tokens.mjs:93-94 | An appended rule, once in `tokenColors`, covers exactly its own scopes. |
| ApplyMarkdownTokens.ExistingScopesOfRules | scripts/apply-markdown-tokens.mjs:93-94 | The appended JSON entries cover exactly the union of the appended rules' scopes. |
| ApplyMarkdownTokens.ScanTable | scripts/apply-markdown-tokens.mjs:84-91 | The loop's `existing` set and `additions` list are the fold `Scan` over the table. |
| ApplyMarkdownTokens.ScanExisting | scripts/apply-markdown-tokens.mjs:84-91 | After the loop, `existing` is the starting set plus every scope of every rule scanned. |
| ApplyMarkdownTokens.ScanChoice | scripts/apply-markdown-tokens.mjs:86-90 | Rule i is appended, after the earlier additions, if and only if it has a scope not in the starting set and not in any earlier rule. |
| ApplyMarkdownTokens.ScanCoverage | scripts/apply-markdown-tokens.mjs:84-91 | The appended rules, together with the starting set, cover every scope of the table. |
| ApplyMarkdownTokens.ScanAdditionsFromTable | scripts/apply-markdown-tokens.mjs:84-91 | Every appended rule is a table rule, and no more are appended than the table holds. |
| ApplyMarkdownTokens.ScanPrefixAdditions | scripts/apply-markdown-tokens.mjs:84-91 | Scanning further never removes or replaces an addition: the additions after scanning a prefix of the table are a prefix of the final additions. |
| ApplyMarkdownTokens.NothingMissing | scripts/apply-markdown-tokens.mjs:86-90 | If every table scope is already covered, nothing is appended and the set does not grow. |
| ApplyMarkdownTokens.AllScopesContains | scripts/apply-markdown-tokens.mjs:84-91 | Each rule's scopes are among the table's scopes. |
| ApplyMarkdownTokens.FirstRuleAppended | scripts/apply-markdown-tokens.mjs:86-88 | A first rule that has a missing scope is always appended. |
| ApplyMarkdownTokens.Line23RuleNeverAppended | scripts/apply-markdown-tokens.mjs:14-23 | For any theme, the rule at line 23 is never appended. Its only scope is already covered once the rule at line 14 has been scanned. |
| ApplyMarkdownTokens.Theme.AddMissingMarkdownTokens | scripts/apply-markdown-tokens.mjs:79-98 | A non-array `tokenColors` becomes `[]`. A null entry raises the TypeError and leaves the theme unchanged. Otherwise the missing rules are appended after the existing entries, and their number is returned. |
| ApplyMarkdownTokens.AugmentedScopes | scripts/apply-markdown-tokens.mjs:79-98 | After the call, the covered scopes are the old ones plus every scope of the table. |
| ApplyMarkdownTokens.AugmentedCoversTable | scripts/apply-markdown-tokens.mjs:5-6 | After the call, every scope of every canonical rule appears in some `tokenColors` entry. |
| ApplyMarkdownTokens.AugmentedPreserves | scripts/apply-markdown-tokens.mjs:5-6 | The theme's other properties and its original entries are untouched, in order. The additions follow them. |
| ApplyMarkdownTokens.AugmentIdempotent | scripts/apply-markdown-tokens.mjs:79-98 | A second call appends nothing, returns 0 and leaves the theme as the first call left it. |
| ApplyMarkdownTokens.ProcessThemeFile | scripts/apply-markdown-tokens.mjs:100-114 | Anything but a JSON object is skipped. A null entry raises the TypeError. `updated` holds if and only if rules were added, and if and only if a file is written. What is written is the augmented theme. |
| ApplyMarkdownTokens.ProcessThemeFileAsWritten | scripts/apply-markdown-tokens.mjs:100-114 | With the guard as written, a JSON array is reported as updated with rules added and is written back unchanged. Every other input is handled as by `ProcessThemeFile`. |
| ApplyMarkdownTokens.ProcessThemeFileIdempotent | scripts/apply-markdown-tokens.mjs:100-114 | Processing a file that the script has just rewritten is a skip with nothing written. |
| ApplyMarkdownTokens.EmptyThemeGetsRules | scripts/apply-markdown-tokens.mjs:79-91 | A theme with no `tokenColors` always gets at least one rule. |
| ApplyMarkdownTokens.ArrayThemeReportsPhantomRules | scripts/apply-markdown-tokens.mjs:103-111 | As written, a theme file holding a JSON array is reported as updated with rules added. The value written back is the unchanged array. The corrected model skips it. |

## Left out

- The VS Code user interface is not modelled: commands, progress notifications, information messages and the output-channel `log`.
- Workspace folder selection (`pickWorkspaceFolder`), `mkdir` and the extension lookup are not modelled. They happen before the merge and decide nothing in it.
- File reading and writing are modelled only through their effect. `SettingsFile` says whether `settings.json` is missing, unparsable, a non-object JSON value or a parsed object. `WorkspaceRun` holds the backup text and the written settings.
- jsonc-parser text handling is abstracted:
  - Each `modify` + `applyEdits` on the path `[key]` is one map update of the settings the text denotes.
  - `parseTree` on the new text is that map's key set.
  - Comments, formatting (2-space indentation, `\n`) and key order in the text are not modelled.
- SettingsMerge.ApplyPreset: the model takes `parse` and `parseTree` to throw on invalid text, as the try/catch blocks at extension.js:176-181 and 207-215 expect. jsonc-parser's functions do not throw: they return a partial value or `undefined` and report errors only through an optional `errors` array. In the program, then, an invalid preset reaches `Object.entries` at line 218 instead of aborting, and a broken `settings.json` is not backed up but edited in place by `modify`. The `Unparsable` and invalid-preset paths model what the code intends, not what it does with jsonc-parser; that in-place editing of broken text is not modelled.
- JSON numbers are integers. Floating point, and `String` of non-integral numbers, are not modelled.
- JSON objects are maps, so the key order `JSON.stringify` writes is not modelled. `Object.entries(preset)` order is the order of the given entry list.
- The preset is taken to be an object. `Object.entries` of a non-object preset (a parsed array or scalar) is not modelled.
- Asynchrony is not modelled: `await cfg.update` is taken to complete or throw before the next key.
- `run()` is not modelled: listing `themes/*.json`, looping over the files and printing totals. It sums the per-file outcomes that `ProcessThemeFile` gives, and it has no try/catch, so a file for which `ProcessThemeFile` fails (the TypeError of a null `tokenColors` entry) ends the whole run and the later files are not processed.
- The exact number of rules appended to an empty theme is not proved. Working it out by hand from the table gives 35. The model proves that it is at least one (`EmptyThemeGetsRules`) and that the line-23 rule is never among them (`Line23RuleNeverAppended`).
- `scripts/dev-check.js`, `scripts/ci-trigger.js` and `scripts/release-tag.js` are not part of this model.

## Findings

| source | as written | input that shows it | evidently intended | confidence | as-written member | corrected member |
|---|---|---|---|---|---|---|
| extension.js:220 | `exists` requires `typeof root.getChild === 'function'`, but nodes from jsonc-parser's `parseTree` are plain objects with no methods. So `exists` is always false, and additive mode overwrites every key. | `settings.json` = `{"editor.fontSize": 14}`, preset `{"editor.fontSize": 13}`, additive mode: the result is 13, with changed 1 and kept 0. | Keep a key that is already present in additive mode, with changed 0 and kept 1 here. | not executed | SettingsMerge.MergeAsWritten (lemmas SettingsMerge.AsWrittenAdditiveIsOverwrite, SettingsMerge.AsWrittenOverwritesExistingSetting) | SettingsMerge.MergeIntoDocument |
| scripts/apply-markdown-tokens.mjs:103 | `!json \|\| typeof json !== 'object'` lets a JSON array through. `themeObj.tokenColors` then becomes a new property of the array. `JSON.stringify` does not write that property. | A theme file containing `[]`: it is reported as updated with +N rules, and then `[]` is written back. | Skip non-object JSON such as arrays, and write nothing. | not executed | ApplyMarkdownTokens.ProcessThemeFileAsWritten (lemma ApplyMarkdownTokens.ArrayThemeReportsPhantomRules) | ApplyMarkdownTokens.ProcessThemeFile |
