/**
 * The user-settings preset merge of extension.js (`applyPresetGlobal`): the
 * same keep-or-write loop, run against VS Code's configuration store through
 * `inspect` and `update`, where a key whose call throws is skipped.
 *
 * The store is modelled by the global (user-level) values it holds; the keys
 * for which the host's `inspect` or `update` throws are parameters of the host.
 */
module UserSettingsMerge {
  import opened Wrappers
  import opened JsonValue
  import SettingsMerge

  type Entry = SettingsMerge.Entry

  /** Which host calls throw: `inspect(key)` for the first set of keys, `update(key, ...)` for the second. */
  datatype Host = Host(inspectThrows: set<string>, updateThrows: set<string>)

  datatype HostError = HostError(key: string)

  /** The user-level configuration store, as `vscode.workspace.getConfiguration()` exposes it. */
  class Configuration {
    /** `inspect(key).globalValue` for every key whose global value is defined. */
    var globalValues: map<string, Json>
    const host: Host

    constructor(globalValues: map<string, Json>, host: Host)
      ensures this.globalValues == globalValues && this.host == host
    {
      this.globalValues := globalValues;
      this.host := host;
    }

    /** `cfg.inspect(key).globalValue`: None when undefined; a failure when inspect throws. */
    method InspectGlobal(key: string) returns (r: Result<Option<Json>, HostError>)
      ensures r.Failure? <==> key in host.inspectThrows
      ensures r.Success? ==> (r.value.Some? <==> key in globalValues)
      ensures r.Success? && r.value.Some? ==> r.value.value == globalValues[key]
    {
      if key in host.inspectThrows {
        return Failure(HostError(key));
      }
      r := Success(if key in globalValues then Some(globalValues[key]) else None);
    }

    /** `cfg.update(key, value, ConfigurationTarget.Global)`: either stores the value or throws and stores nothing. */
    method Update(key: string, value: Json) returns (r: Result<(), HostError>)
      modifies this
      ensures r.Failure? <==> key in host.updateThrows
      ensures globalValues == if r.Failure? then old(globalValues) else old(globalValues)[key := value]
    {
      if key in host.updateThrows {
        return Failure(HostError(key));
      }
      globalValues := globalValues[key := value];
      r := Success(());
    }
  }

  /** The store's global values and the two counters after some iterations. */
  datatype GlobalState = GlobalState(globalValues: map<string, Json>, changed: nat, kept: nat)

  /** One iteration of the loop at extension.js:272-288, the try/catch included. */
  function GlobalStep(s: GlobalState, host: Host, e: Entry, overwrite: bool): GlobalState
  {
    if e.key in host.inspectThrows then s
    else if e.key in s.globalValues && !overwrite then s.(kept := s.kept + 1)
    else if e.key in host.updateThrows then s
    else GlobalState(s.globalValues[e.key := e.value], s.changed + 1, s.kept)
  }

  /** The whole loop as a left fold of GlobalStep. */
  function GlobalMerge(store: map<string, Json>, host: Host, entries: seq<Entry>, overwrite: bool): GlobalState
    decreases |entries|
  {
    if entries == [] then GlobalState(store, 0, 0)
    else GlobalStep(GlobalMerge(store, host, entries[..|entries| - 1], overwrite), host, entries[|entries| - 1], overwrite)
  }

  /** `applyPresetGlobal`'s loop against the live configuration object. */
  method ApplyPresetGlobal(cfg: Configuration, entries: seq<Entry>, overwrite: bool) returns (changed: nat, kept: nat)
    modifies cfg
    ensures GlobalState(cfg.globalValues, changed, kept) == GlobalMerge(old(cfg.globalValues), cfg.host, entries, overwrite)
    ensures changed + kept <= |entries|
    ensures overwrite ==> kept == 0
  {
    changed, kept := 0, 0;
    for i := 0 to |entries|
      invariant GlobalState(cfg.globalValues, changed, kept) == GlobalMerge(old(cfg.globalValues), cfg.host, entries[..i], overwrite)
    {
      assert entries[..i + 1][..i] == entries[..i];
      var key, value := entries[i].key, entries[i].value;
      var inspected := cfg.InspectGlobal(key);
      if inspected.Failure? {
        continue;  // logged; continue to next key
      }
      var existsGlobally := inspected.value.Some?;
      if existsGlobally && !overwrite {
        kept := kept + 1;
        continue;
      }
      var updated := cfg.Update(key, value);
      if updated.Failure? {
        continue;
      }
      changed := changed + 1;
    }
    assert entries[..|entries|] == entries;
    GlobalCounts(old(cfg.globalValues), cfg.host, entries, overwrite);
  }

  // ---------------------------------------------------------------------------
  // Properties of the loop
  // ---------------------------------------------------------------------------

  /** The keys a call throws for. */
  function Throwing(host: Host): set<string>
  {
    host.inspectThrows + host.updateThrows
  }

  /** Each key is counted at most once; overwrite mode keeps nothing; with no throwing key every key is counted. */
  lemma {:induction false} GlobalCounts(store: map<string, Json>, host: Host, entries: seq<Entry>, overwrite: bool)
    ensures GlobalMerge(store, host, entries, overwrite).changed + GlobalMerge(store, host, entries, overwrite).kept <= |entries|
    ensures overwrite ==> GlobalMerge(store, host, entries, overwrite).kept == 0
    ensures SettingsMerge.PresetKeys(entries) !! Throwing(host) ==>
      GlobalMerge(store, host, entries, overwrite).changed + GlobalMerge(store, host, entries, overwrite).kept == |entries|
    decreases |entries|
  {
    if entries != [] {
      SettingsMerge.PresetKeysSnoc(entries);
      GlobalCounts(store, host, entries[..|entries| - 1], overwrite);
    }
  }

  /** With a host that never throws, the global loop computes what the workspace loop computes. */
  lemma {:induction false} GlobalMatchesWorkspace(store: map<string, Json>, host: Host, entries: seq<Entry>, overwrite: bool)
    requires SettingsMerge.PresetKeys(entries) !! Throwing(host)
    ensures var g := GlobalMerge(store, host, entries, overwrite);
      SettingsMerge.MergeState(g.globalValues, g.changed, g.kept) == SettingsMerge.Merge(store, entries, overwrite)
    decreases |entries|
  {
    if entries != [] {
      SettingsMerge.PresetKeysSnoc(entries);
      GlobalMatchesWorkspace(store, host, entries[..|entries| - 1], overwrite);
    }
  }

  /** A key the preset does not name, or whose inspect or update throws, keeps its global value (or its absence). */
  lemma {:induction false} GlobalUntouched(store: map<string, Json>, host: Host, entries: seq<Entry>, overwrite: bool, k: string)
    requires k !in SettingsMerge.PresetKeys(entries) || k in Throwing(host)
    ensures var after := GlobalMerge(store, host, entries, overwrite).globalValues;
      (k in after <==> k in store) && (k in store ==> after[k] == store[k])
    decreases |entries|
  {
    if entries != [] {
      SettingsMerge.PresetKeysSnoc(entries);
      GlobalUntouched(store, host, entries[..|entries| - 1], overwrite, k);
    }
  }

  /** Every preset key whose host calls succeed ends with a global value. */
  lemma {:induction false} GlobalCovers(store: map<string, Json>, host: Host, entries: seq<Entry>, overwrite: bool)
    ensures SettingsMerge.PresetKeys(entries) - Throwing(host) <= GlobalMerge(store, host, entries, overwrite).globalValues.Keys
    ensures GlobalMerge(store, host, entries, overwrite).globalValues.Keys <= store.Keys + SettingsMerge.PresetKeys(entries)
    decreases |entries|
  {
    if entries != [] {
      SettingsMerge.PresetKeysSnoc(entries);
      GlobalCovers(store, host, entries[..|entries| - 1], overwrite);
    }
  }

  /** Additive mode never changes a key that already had a global value. */
  lemma {:induction false} GlobalAdditiveKeepsExisting(store: map<string, Json>, host: Host, entries: seq<Entry>, k: string)
    requires k in store
    ensures k in GlobalMerge(store, host, entries, false).globalValues
    ensures GlobalMerge(store, host, entries, false).globalValues[k] == store[k]
    decreases |entries|
  {
    if entries != [] {
      GlobalAdditiveKeepsExisting(store, host, entries[..|entries| - 1], k);
    }
  }

  /** Additive mode on a store holding every preset key that can be written changes nothing. */
  lemma {:induction false} GlobalAdditiveOnCovered(store: map<string, Json>, host: Host, entries: seq<Entry>)
    requires SettingsMerge.PresetKeys(entries) - Throwing(host) <= store.Keys
    ensures GlobalMerge(store, host, entries, false).globalValues == store
    ensures GlobalMerge(store, host, entries, false).changed == 0
    decreases |entries|
  {
    if entries != [] {
      SettingsMerge.PresetKeysSnoc(entries);
      GlobalAdditiveOnCovered(store, host, entries[..|entries| - 1]);
    }
  }

  /** A second additive run against the same host writes nothing. */
  lemma GlobalAdditiveIdempotent(store: map<string, Json>, host: Host, entries: seq<Entry>)
    ensures var once := GlobalMerge(store, host, entries, false).globalValues;
      GlobalMerge(once, host, entries, false).globalValues == once && GlobalMerge(once, host, entries, false).changed == 0
  {
    GlobalCovers(store, host, entries, false);
    GlobalAdditiveOnCovered(GlobalMerge(store, host, entries, false).globalValues, host, entries);
  }
}
