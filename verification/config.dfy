/**
  `arbsmapdo.py`, `ConfigHandler`: the single configuration dictionary of a
  run, merged from the command line and a TOML preset, completed with
  defaults, and saved back as a preset without the run-specific keys.

  Python's `d.get(key) is None` holds both for a missing key and for a key
  bound to None; `IsNone` is that test.
 */
module Config {
  import opened Common

  /** The values a configuration entry can hold. */
  datatype Value =
    | NoneV
    | IntV(i: int)
    | RealV(r: real)
    | InfV                  // float("inf")
    | StrV(s: string)
    | BoolV(b: bool)
    | ListV(items: seq<string>)

  type ConfigMap = map<string, Value>

  predicate IsNone(c: ConfigMap, key: string)
  {
    key !in c || c[key] == NoneV
  }

  // ---------------------------------------------------------------------------
  // Preset merge (`ConfigHandler.__init__`)
  // ---------------------------------------------------------------------------

  const DefaultConfigName: string := "arbsmapdo_default.toml"

  /** The preset file: absent, or present with its parsed contents (None when
      it is not valid TOML). */
  datatype PresetFile = NoPresetFile | PresetFile(parsed: Option<ConfigMap>)

  datatype ConfigError =
    | PresetUnparsable  // the parse error is re-raised
    | PresetNotFound    // `preset_config` stays None and `.keys()` raises

  /** The merge of one preset into the command-line values. */
  ghost predicate MergedFrom(merged: ConfigMap, args: ConfigMap, preset: ConfigMap)
  {
    && (forall k :: k in merged <==> k in args || k in preset)
    && (forall k :: k in preset ==> merged[k] == (if IsNone(args, k) then preset[k] else args[k]))
    && (forall k :: k in args && k !in preset ==> merged[k] == args[k])
  }

  /** The preset loop `for key in preset_config.keys()`. */
  method MergeInto(args: ConfigMap, preset: ConfigMap) returns (merged: ConfigMap)
    ensures MergedFrom(merged, args, preset)
  {
    merged := args;
    var todo := preset.Keys;
    while todo != {}
      invariant todo <= preset.Keys
      invariant forall k :: k in merged <==> k in args || (k in preset && k !in todo)
      invariant forall k :: k in preset && k !in todo ==> merged[k] == (if IsNone(args, k) then preset[k] else args[k])
      invariant forall k :: k in args && (k !in preset || k in todo) ==> merged[k] == args[k]
      decreases todo
    {
      var key :| key in todo;
      if IsNone(merged, key) {
        merged := merged[key := preset[key]];
      }
      todo := todo - {key};
    }
  }

  /** `ConfigHandler.__init__` as written.  `presetIsDefaultObject` is the
      identity test `args.preset is default_config_name`: true when the
      preset name is the argparse default itself, false for any name given
      on the command line, even one spelling the default name. */
  method MergePreset(args: ConfigMap, presetIsDefaultObject: bool, file: PresetFile)
    returns (r: Result<ConfigMap, ConfigError>)
    ensures file == PresetFile(None) <==> r == Err(PresetUnparsable)
    ensures file.NoPresetFile? && !presetIsDefaultObject <==> r == Err(PresetNotFound)
    ensures file.NoPresetFile? && presetIsDefaultObject ==> r == Ok(args)
    ensures file.PresetFile? && file.parsed.Some? ==> r.Ok? && MergedFrom(r.value, args, file.parsed.value)
  {
    var preset: ConfigMap;
    match file {
      case PresetFile(parsed) =>
        if parsed.None? {
          return Err(PresetUnparsable);
        }
        preset := parsed.value;
      case NoPresetFile =>
        if !presetIsDefaultObject {
          return Err(PresetNotFound);
        }
        preset := map[];
    }
    var merged := MergeInto(args, preset);
    if preset == map[] {
      assert merged.Keys == args.Keys;
      assert forall k :: k in merged ==> merged[k] == args[k];
      assert merged == args;
    }
    r := Ok(merged);
  }

  /** The merge with the default-name test done by string equality, so that
      naming the default preset explicitly behaves like not naming one. */
  method IntendedMergePreset(args: ConfigMap, presetName: string, file: PresetFile)
    returns (r: Result<ConfigMap, ConfigError>)
    ensures file == PresetFile(None) <==> r == Err(PresetUnparsable)
    ensures file.NoPresetFile? && presetName != DefaultConfigName <==> r == Err(PresetNotFound)
    ensures file.NoPresetFile? && presetName == DefaultConfigName ==> r == Ok(args)
    ensures file.PresetFile? && file.parsed.Some? ==> r.Ok? && MergedFrom(r.value, args, file.parsed.value)
  {
    r := MergePreset(args, presetName == DefaultConfigName, file);
  }

  /** With no preset file, `--preset arbsmapdo_default.toml` on the command
      line aborts the run as written, while the intended merge starts from
      an empty preset. */
  method ExplicitDefaultPresetAborts(args: ConfigMap) returns (asWritten: Result<ConfigMap, ConfigError>,
                                                              intended: Result<ConfigMap, ConfigError>)
    ensures asWritten == Err(PresetNotFound)
    ensures intended == Ok(args)
  {
    asWritten := MergePreset(args, false, NoPresetFile);
    intended := IntendedMergePreset(args, DefaultConfigName, NoPresetFile);
  }

  /** A command-line value that is set always survives the merge, and a
      preset key fills exactly the unset command-line values. */
  lemma MergeKeepsCommandLine(merged: ConfigMap, args: ConfigMap, preset: ConfigMap, k: string)
    requires MergedFrom(merged, args, preset)
    ensures !IsNone(args, k) ==> k in merged && merged[k] == args[k]
    ensures IsNone(args, k) && k in preset ==> merged[k] == preset[k]
    ensures IsNone(args, k) && k !in preset ==> IsNone(merged, k)
  {
  }

  // ---------------------------------------------------------------------------
  // Defaults (`set_default_if_none`, `handle_non_assistant_default_values`)
  // ---------------------------------------------------------------------------

  /** The table of `handle_non_assistant_default_values`, in its order. */
  const DefaultTable: seq<(string, Value)> := [
    ("vote_ratio_max", IntV(1)),
    ("tmp_dir", StrV("./tmp")),
    ("max_threads", IntV(5)),
    ("scoresaber_maxlimit", IntV(10000)),
    ("nps_min", IntV(0)),
    ("nps_max", InfV),
    ("notes_min", IntV(0)),
    ("notes_max", IntV(9223372036854775807)),  // sys.maxsize on a 64-bit build
    ("gamemode", StrV("Standard")),
    ("beatsaver_cachefile", StrV("./arbsmapdo_cache.json")),
    ("levelhash_cachefile", StrV("./levelhash_cache.json")),
    ("rescan", BoolV(false)),
    ("noextract", BoolV(false))]

  /** `set_default_if_none` on a dictionary: the value is written only when
      the key is unset, and no other key changes. */
  function SetDefault(c: ConfigMap, key: string, value: Value): (r: ConfigMap)
    ensures r.Keys == c.Keys + {key}
    ensures !IsNone(c, key) ==> r == c
    ensures IsNone(c, key) ==> r[key] == value
    ensures forall other :: other in c && other != key ==> r[other] == c[other]
  {
    if IsNone(c, key) then c[key := value] else c
  }

  /** The keys a table of defaults names. */
  function TableKeys(table: seq<(string, Value)>): set<string>
  {
    set i | 0 <= i < |table| :: table[i].0
  }

  lemma TableKeysSnoc(table: seq<(string, Value)>)
    requires table != []
    ensures TableKeys(table) == TableKeys(table[..|table| - 1]) + {table[|table| - 1].0}
  {
    var init := table[..|table| - 1];
    forall k | k in TableKeys(table) ensures k in TableKeys(init) + {table[|table| - 1].0} {
      var i :| 0 <= i < |table| && table[i].0 == k;
      if i < |init| {
        assert init[i] == table[i];
      }
    }
    forall k | k in TableKeys(init) ensures k in TableKeys(table) {
      var i :| 0 <= i < |init| && init[i].0 == k;
      assert table[i] == init[i];
    }
  }

  /** The configuration after a table of defaults has been applied in order:
      it holds the keys of the configuration and of the table, keeps every
      value that was set, and leaves keys outside the table as they were. */
  function ApplyDefaults(c: ConfigMap, table: seq<(string, Value)>): (r: ConfigMap)
    ensures r.Keys == c.Keys + TableKeys(table)
    ensures forall k :: !IsNone(c, k) ==> r[k] == c[k]
    ensures forall k :: k in c && k !in TableKeys(table) ==> r[k] == c[k]
    decreases |table|
  {
    if table == [] then c
    else
      TableKeysSnoc(table);
      SetDefault(ApplyDefaults(c, table[..|table| - 1]), table[|table| - 1].0, table[|table| - 1].1)
  }

  predicate NoNoneDefaults(table: seq<(string, Value)>)
  {
    forall i :: 0 <= i < |table| ==> table[i].1 != NoneV
  }

  lemma DefaultTableHasNoNone()
    ensures NoNoneDefaults(DefaultTable)
  {
  }

  /** Afterwards every key of the table is set. */
  lemma {:induction false} ApplyDefaultsSetsAll(c: ConfigMap, table: seq<(string, Value)>)
    requires NoNoneDefaults(table)
    ensures forall i :: 0 <= i < |table| ==> !IsNone(ApplyDefaults(c, table), table[i].0)
    decreases |table|
  {
    if table != [] {
      var init := table[..|table| - 1];
      assert NoNoneDefaults(init) by {
        forall i | 0 <= i < |init| ensures init[i].1 != NoneV {
          assert init[i] == table[i];
        }
      }
      ApplyDefaultsSetsAll(c, init);
      var prev := ApplyDefaults(c, init);
      var last := table[|table| - 1];
      var r := SetDefault(prev, last.0, last.1);
      assert ApplyDefaults(c, table) == r;
      assert last.1 != NoneV;
      forall i | 0 <= i < |table| ensures !IsNone(r, table[i].0) {
        if i < |init| {
          assert init[i] == table[i];
          assert !IsNone(prev, table[i].0);
        } else {
          assert table[i] == last;
        }
      }
    }
  }

  /** A configuration in which every key of the table is set is a fixed
      point. */
  lemma {:induction false} ApplyDefaultsNoop(c: ConfigMap, table: seq<(string, Value)>)
    requires forall i :: 0 <= i < |table| ==> !IsNone(c, table[i].0)
    ensures ApplyDefaults(c, table) == c
    decreases |table|
  {
    if table != [] {
      ApplyDefaultsNoop(c, table[..|table| - 1]);
    }
  }

  /** Applying the defaults twice gives the configuration of applying them
      once. */
  lemma ApplyDefaultsIdempotent(c: ConfigMap, table: seq<(string, Value)>)
    requires NoNoneDefaults(table)
    ensures ApplyDefaults(ApplyDefaults(c, table), table) == ApplyDefaults(c, table)
  {
    ApplyDefaultsSetsAll(c, table);
    ApplyDefaultsNoop(ApplyDefaults(c, table), table);
  }

  // ---------------------------------------------------------------------------
  // Saving (`save_config`)
  // ---------------------------------------------------------------------------

  const Excluded: set<string> := {"URIs", "preset"}

  class ConfigHandler {
    var config: ConfigMap

    /** The handler over a merged configuration. */
    constructor(merged: ConfigMap)
      ensures config == merged
    {
      config := merged;
    }

    /** `set_default_if_none`. */
    method SetDefaultIfNone(key: string, value: Value)
      modifies this
      ensures config == SetDefault(old(config), key, value)
    {
      if IsNone(config, key) {
        config := config[key := value];
      }
    }

    /** `handle_non_assistant_default_values`. */
    method HandleNonAssistantDefaultValues()
      modifies this
      ensures config == ApplyDefaults(old(config), DefaultTable)
      ensures forall i :: 0 <= i < |DefaultTable| ==> !IsNone(config, DefaultTable[i].0)
    {
      for i := 0 to |DefaultTable|
        invariant config == ApplyDefaults(old(config), DefaultTable[..i])
      {
        assert DefaultTable[..i + 1][..i] == DefaultTable[..i];
        SetDefaultIfNone(DefaultTable[i].0, DefaultTable[i].1);
      }
      assert DefaultTable[..|DefaultTable|] == DefaultTable;
      DefaultTableHasNoNone();
      ApplyDefaultsSetsAll(old(config), DefaultTable);
    }

    /** `save_config`: the mapping handed to the TOML writer. */
    method SaveConfig() returns (saved: ConfigMap)
      ensures forall k :: k in saved <==> k in config && k !in Excluded
      ensures forall k :: k in saved ==> saved[k] == config[k]
    {
      saved := map[];
      var todo := config.Keys;
      while todo != {}
        invariant todo <= config.Keys
        invariant forall k :: k in saved <==> k in config && k !in todo && k !in Excluded
        invariant forall k :: k in saved ==> saved[k] == config[k]
        decreases todo
      {
        var key :| key in todo;
        if key !in Excluded {
          saved := saved[key := config[key]];
        }
        todo := todo - {key};
      }
    }
  }
}
