/**
 * The workspace preset merge of extension.js (`applyPreset`): each preset key
 * is either kept (additive mode, key already present) or written into the
 * workspace settings document, and the two outcomes are counted.
 *
 * The document is modelled by the key/value mapping it denotes; jsonc-parser's
 * `modify` + `applyEdits` on the path [key] is a single map update, and
 * `parseTree` of the new text is the key set of the updated map.
 */
module SettingsMerge {
  import opened Wrappers
  import opened JsonValue

  /** A settings document: setting key to JSON value. */
  type Settings = map<string, Json>

  /** One `[key, value]` pair of `Object.entries(preset)`, in enumeration order. */
  datatype Entry = Entry(key: string, value: Json)

  /** The keys a preset enumerates. */
  function PresetKeys(entries: seq<Entry>): set<string>
  {
    set i | 0 <= i < |entries| :: entries[i].key
  }

  /** JavaScript objects never enumerate a key twice. */
  predicate DistinctKeys(entries: seq<Entry>)
  {
    forall i, j :: 0 <= i < j < |entries| ==> entries[i].key != entries[j].key
  }

  /** What the key loop has produced so far: the document and the two counters. */
  datatype MergeState = MergeState(settings: Settings, changed: nat, kept: nat)

  /** One iteration of the workspace loop (extension.js:218-234, existence check corrected; see MergeAsWritten). */
  function Step(s: MergeState, e: Entry, overwrite: bool): MergeState
  {
    if e.key in s.settings && !overwrite then s.(kept := s.kept + 1)
    else MergeState(s.settings[e.key := e.value], s.changed + 1, s.kept)
  }

  /** The whole loop, as a left fold of Step over the preset entries. */
  function Merge(target: Settings, entries: seq<Entry>, overwrite: bool): MergeState
    decreases |entries|
  {
    if entries == [] then MergeState(target, 0, 0)
    else Step(Merge(target, entries[..|entries| - 1], overwrite), entries[|entries| - 1], overwrite)
  }

  /**
   * The loop itself: `current` is reassigned after each write and the
   * existence index rebuilt from it (existence test corrected; see
   * MergeAsWritten).
   */
  method MergeIntoDocument(target: Settings, entries: seq<Entry>, overwrite: bool)
    returns (current: Settings, changed: nat, kept: nat)
    ensures MergeState(current, changed, kept) == Merge(target, entries, overwrite)
    ensures changed + kept == |entries|
    ensures overwrite ==> kept == 0
    ensures current.Keys == target.Keys + PresetKeys(entries)
  {
    current := target;
    var root := current.Keys;
    changed, kept := 0, 0;
    for i := 0 to |entries|
      invariant MergeState(current, changed, kept) == Merge(target, entries[..i], overwrite)
      invariant root == current.Keys
    {
      assert entries[..i + 1][..i] == entries[..i];
      var key, value := entries[i].key, entries[i].value;
      var present := key in root;
      if present && !overwrite {
        kept := kept + 1;
        continue;
      }
      current := current[key := value];
      changed := changed + 1;
      root := current.Keys;
    }
    assert entries[..|entries|] == entries;
    MergeCounts(target, entries, overwrite);
    MergeKeys(target, entries, overwrite);
  }

  /** The state of the settings file when the merge starts. */
  datatype SettingsFile =
    | Missing                    // readFile threw: the text stays '{}'
    | Unparsable(text: string)   // parseTree threw on the text read
    | NotAnObject(text: string)  // well-formed JSON whose root is not an object ([], 5, null, "x")
    | Parsed(settings: Settings)

  /**
   * Why `applyPreset` fails: the preset did not parse, or `modify` threw
   * because the settings root cannot take a property (extension.js:226,
   * re-thrown at 239-242).
   */
  datatype ApplyError = InvalidPreset | NonObjectRoot

  /**
   * What `applyPreset` writes: the optional `settings.json.bak` text, the new
   * settings (None when the text read is written back unchanged) and the counters.
   */
  datatype WorkspaceRun = WorkspaceRun(backup: Option<string>, written: Option<Settings>, changed: nat, kept: nat)

  /** The settings the merge starts from: '{}' when the file is missing or unparsable. */
  function StartingSettings(file: SettingsFile): Settings
  {
    if file.Parsed? then file.settings else map[]
  }

  /**
   * `applyPreset` from the parsed preset on: an invalid preset aborts; an
   * unparsable settings file is backed up and replaced by '{}'; a root that
   * is not an object holds no key, so the first preset entry reaches
   * `modify`, which throws; otherwise the key loop runs and its result is
   * written back (existence test corrected; see MergeAsWritten).
   */
  method ApplyPreset(preset: Option<seq<Entry>>, file: SettingsFile, overwrite: bool)
    returns (r: Result<WorkspaceRun, ApplyError>)
    ensures r.Failure? <==> preset.None? || (file.NotAnObject? && |preset.value| > 0)
    ensures r.Failure? ==> r.error == if preset.None? then InvalidPreset else NonObjectRoot
    ensures r.Success? ==> r.value.backup == (if file.Unparsable? then Some(file.text) else None)
    ensures r.Success? && file.NotAnObject? ==> r.value == WorkspaceRun(None, None, 0, 0)
    ensures r.Success? && !file.NotAnObject? ==>
      && r.value.written.Some?
      && MergeState(r.value.written.value, r.value.changed, r.value.kept) == Merge(StartingSettings(file), preset.value, overwrite)
    ensures r.Success? ==> r.value.changed + r.value.kept == |preset.value|
  {
    if preset.None? {
      return Failure(InvalidPreset);
    }
    var current: Settings := map[];
    var backup: Option<string> := None;
    match file {
      case Missing =>
      case Unparsable(text) =>
        backup := Some(text);
      case NotAnObject(_) =>
        if |preset.value| > 0 {
          return Failure(NonObjectRoot);
        }
        return Success(WorkspaceRun(None, None, 0, 0));
      case Parsed(settings) =>
        current := settings;
    }
    var written, changed, kept := MergeIntoDocument(current, preset.value, overwrite);
    return Success(WorkspaceRun(backup, Some(written), changed, kept));
  }

  // ---------------------------------------------------------------------------
  // Properties of the loop
  // ---------------------------------------------------------------------------

  lemma PresetKeysSnoc(entries: seq<Entry>)
    requires entries != []
    ensures PresetKeys(entries) == PresetKeys(entries[..|entries| - 1]) + {entries[|entries| - 1].key}
  {
    var init := entries[..|entries| - 1];
    forall k | k in PresetKeys(entries)
      ensures k in PresetKeys(init) + {entries[|entries| - 1].key}
    {
      var i :| 0 <= i < |entries| && entries[i].key == k;
      if i < |entries| - 1 {
        assert init[i].key == k;
      }
    }
    forall k | k in PresetKeys(init)
      ensures k in PresetKeys(entries)
    {
      var i :| 0 <= i < |init| && init[i].key == k;
      assert entries[i].key == k;
    }
  }

  /** Every preset key is counted exactly once, and overwrite mode keeps nothing. */
  lemma {:induction false} MergeCounts(target: Settings, entries: seq<Entry>, overwrite: bool)
    ensures Merge(target, entries, overwrite).changed + Merge(target, entries, overwrite).kept == |entries|
    ensures overwrite ==> Merge(target, entries, overwrite).kept == 0
    decreases |entries|
  {
    if entries != [] {
      MergeCounts(target, entries[..|entries| - 1], overwrite);
    }
  }

  /** After the loop the document holds exactly its old keys and every preset key. */
  lemma {:induction false} MergeKeys(target: Settings, entries: seq<Entry>, overwrite: bool)
    ensures Merge(target, entries, overwrite).settings.Keys == target.Keys + PresetKeys(entries)
    decreases |entries|
  {
    if entries != [] {
      MergeKeys(target, entries[..|entries| - 1], overwrite);
      PresetKeysSnoc(entries);
    }
  }

  /** A key the preset does not mention keeps its value; each write touches only the path [key]. */
  lemma {:induction false} MergePreservesOthers(target: Settings, entries: seq<Entry>, overwrite: bool, k: string)
    requires k in target && k !in PresetKeys(entries)
    ensures k in Merge(target, entries, overwrite).settings
    ensures Merge(target, entries, overwrite).settings[k] == target[k]
    decreases |entries|
  {
    if entries != [] {
      PresetKeysSnoc(entries);
      MergePreservesOthers(target, entries[..|entries| - 1], overwrite, k);
    }
  }

  /** Additive mode never changes a key that was already in the document. */
  lemma {:induction false} AdditiveKeepsExisting(target: Settings, entries: seq<Entry>, k: string)
    requires k in target
    ensures k in Merge(target, entries, false).settings
    ensures Merge(target, entries, false).settings[k] == target[k]
    decreases |entries|
  {
    if entries != [] {
      AdditiveKeepsExisting(target, entries[..|entries| - 1], k);
    }
  }

  /** The value each preset key ends with: the old one when kept, the preset's otherwise. */
  lemma {:induction false} MergeValue(target: Settings, entries: seq<Entry>, overwrite: bool, i: nat)
    requires DistinctKeys(entries) && i < |entries|
    ensures entries[i].key in Merge(target, entries, overwrite).settings
    ensures Merge(target, entries, overwrite).settings[entries[i].key] ==
      if !overwrite && entries[i].key in target then target[entries[i].key] else entries[i].value
    decreases |entries|
  {
    var n := |entries| - 1;
    var init := entries[..n];
    var k := entries[i].key;
    assert DistinctKeys(init);
    if i == n {
      assert k !in PresetKeys(init);
      MergeKeys(target, init, overwrite);
      if k in target {
        MergePreservesOthers(target, init, overwrite, k);
      }
    } else {
      assert init[i] == entries[i];
      MergeValue(target, init, overwrite, i);
    }
  }

  /** Overwrite mode sets every preset key to the preset's value. */
  lemma OverwriteSetsPresetValues(target: Settings, entries: seq<Entry>, i: nat)
    requires DistinctKeys(entries) && i < |entries|
    ensures entries[i].key in Merge(target, entries, true).settings
    ensures Merge(target, entries, true).settings[entries[i].key] == entries[i].value
  {
    MergeValue(target, entries, true, i);
  }

  /** In additive mode `kept` counts the preset keys already present and `changed` the missing ones. */
  lemma {:induction false} AdditiveCounts(target: Settings, entries: seq<Entry>)
    requires DistinctKeys(entries)
    ensures Merge(target, entries, false).kept == |PresetKeys(entries) * target.Keys|
    ensures Merge(target, entries, false).changed == |PresetKeys(entries) - target.Keys|
    decreases |entries|
  {
    if entries != [] {
      var n := |entries| - 1;
      var init := entries[..n];
      var k := entries[n].key;
      assert DistinctKeys(init);
      AdditiveCounts(target, init);
      PresetKeysSnoc(entries);
      MergeKeys(target, init, false);
      SplitCounts(PresetKeys(init), target.Keys, k);
    }
  }

  /** Adding a fresh key to the preset's key set moves exactly one of the two counts up by one. */
  lemma SplitCounts(keys: set<string>, present: set<string>, k: string)
    requires k !in keys
    ensures k in present ==> |(keys + {k}) * present| == |keys * present| + 1
    ensures k in present ==> |(keys + {k}) - present| == |keys - present|
    ensures k !in present ==> |(keys + {k}) * present| == |keys * present|
    ensures k !in present ==> |(keys + {k}) - present| == |keys - present| + 1
  {
    if k in present {
      assert (keys + {k}) * present == keys * present + {k};
      assert (keys + {k}) - present == keys - present;
    } else {
      assert (keys + {k}) * present == keys * present;
      assert (keys + {k}) - present == keys - present + {k};
    }
  }

  /** Additive mode on a document that already holds every preset key keeps everything and writes nothing. */
  lemma {:induction false} AdditiveOnCovered(target: Settings, entries: seq<Entry>)
    requires PresetKeys(entries) <= target.Keys
    ensures Merge(target, entries, false) == MergeState(target, 0, |entries|)
    decreases |entries|
  {
    if entries != [] {
      PresetKeysSnoc(entries);
      AdditiveOnCovered(target, entries[..|entries| - 1]);
    }
  }

  /** Running additive mode again on its own result changes 0 keys and keeps all of them. */
  lemma AdditiveIdempotent(target: Settings, entries: seq<Entry>)
    ensures var once := Merge(target, entries, false).settings;
      Merge(once, entries, false) == MergeState(once, 0, |entries|)
  {
    MergeKeys(target, entries, false);
    AdditiveOnCovered(Merge(target, entries, false).settings, entries);
  }

  /** Running overwrite mode again leaves the document as the first run left it. */
  lemma OverwriteIdempotent(target: Settings, entries: seq<Entry>)
    requires DistinctKeys(entries)
    ensures var once := Merge(target, entries, true).settings;
      Merge(once, entries, true).settings == once
  {
    var once := Merge(target, entries, true).settings;
    var twice := Merge(once, entries, true).settings;
    MergeKeys(target, entries, true);
    MergeKeys(once, entries, true);
    forall k | k in once
      ensures twice[k] == once[k]
    {
      if k in PresetKeys(entries) {
        var i :| 0 <= i < |entries| && entries[i].key == k;
        MergeValue(target, entries, true, i);
        MergeValue(once, entries, true, i);
      } else {
        MergePreservesOthers(once, entries, true, k);
      }
    }
  }

  // ---------------------------------------------------------------------------
  // The existence check as written (extension.js:220)
  // ---------------------------------------------------------------------------

  /** The root node `parseTree` returns: a plain record whose property nodes carry the keys. */
  datatype TreeNode = TreeNode(propertyKeys: set<string>)

  function ParseTree(s: Settings): TreeNode
  {
    TreeNode(s.Keys)
  }

  /**
   * `typeof root.getChild === 'function'`: jsonc-parser's nodes are plain
   * records (type, offset, length, children, ...) with no methods, so the
   * test never holds.
   */
  predicate HasGetChildMethod(n: TreeNode)
  {
    false
  }

  /** The `exists` test of extension.js:220 on the tree rebuilt from the current text. */
  predicate ExistsAsWritten(root: TreeNode, key: string)
  {
    HasGetChildMethod(root) && key in root.propertyKeys
  }

  function StepAsWritten(s: MergeState, e: Entry, overwrite: bool): MergeState
  {
    if ExistsAsWritten(ParseTree(s.settings), e.key) && !overwrite then s.(kept := s.kept + 1)
    else MergeState(s.settings[e.key := e.value], s.changed + 1, s.kept)
  }

  /** The key loop of extension.js:217-234 as written: every entry is written, whatever the mode. */
  function MergeAsWritten(target: Settings, entries: seq<Entry>, overwrite: bool): (r: MergeState)
    ensures r.kept == 0 && r.changed == |entries|
    decreases |entries|
  {
    if entries == [] then MergeState(target, 0, 0)
    else StepAsWritten(MergeAsWritten(target, entries[..|entries| - 1], overwrite), entries[|entries| - 1], overwrite)
  }

  /** As written, additive mode behaves exactly like overwrite mode. */
  lemma {:induction false} AsWrittenAdditiveIsOverwrite(target: Settings, entries: seq<Entry>)
    ensures MergeAsWritten(target, entries, false) == Merge(target, entries, true)
    decreases |entries|
  {
    if entries != [] {
      AsWrittenAdditiveIsOverwrite(target, entries[..|entries| - 1]);
    }
  }

  /** A user's existing font size is replaced in additive mode as written, and kept by the corrected loop. */
  lemma AsWrittenOverwritesExistingSetting()
    ensures var target := map["editor.fontSize" := JNumber(14)];
      var preset := [Entry("editor.fontSize", JNumber(13))];
      && MergeAsWritten(target, preset, false) == MergeState(map["editor.fontSize" := JNumber(13)], 1, 0)
      && Merge(target, preset, false) == MergeState(target, 0, 1)
  {
    var target := map["editor.fontSize" := JNumber(14)];
    var preset := [Entry("editor.fontSize", JNumber(13))];
    assert preset[..0] == [];
  }
}
