/** What loading `[effects]` from any include graph leaves: closed effects, with every name in them accepted. */
module EffectLoading {
  import opened Config
  import opened ConfigMerge
  import opened Declarations
  import opened EffectPools
  import opened EffectPresets
  import opened EffectReferences
  import opened Includes
  import opened Options
  import opened Sequences
  import opened Toml

  import EffectStability
  import EffectUse

  // Definitions after validation

  lemma SameNameErrors(a: EffectReferences.Effects, b: EffectReferences.Effects, name: string, kind: Kind)
    requires SameDefinitions(a, b)
    ensures NameError(a, name, kind, false, PresetOnly) == NameError(b, name, kind, false, PresetOnly)
  {
    SamePresetFound(a.presets, b.presets, name);
    SamePoolFound(a.pools, b.pools, name);
  }

  /** What the whole validation leaves. */
  function Validation(e: EffectReferences.Effects, references: seq<Reference>): EffectReferences.Effects {
    Erased(AfterCallbacks(e, references))
  }

  lemma ValidationKeepsDefinitions(e: EffectReferences.Effects, references: seq<Reference>)
    ensures SameDefinitions(e, Validation(e, references))
  {
    CallbacksClear(e, references);
  }

  // From reading to validated settings

  /** Presets and pools as read from their tables, with at least their references on record, and no others for
      members. */
  ghost predicate ReadFrom(e: EffectReferences.Effects, references: seq<Reference>, found: seq<PresetRead>) {
    && e.presets == Map(PresetIn, found)
    && (forall r :: r in OverlayReferences(found, 0) ==> r in references)
    && CoversPools(e, references)
  }

  lemma OverlayIsAccepted(e: EffectReferences.Effects, references: seq<Reference>, found: seq<PresetRead>, i: nat)
    requires ReadFrom(e, references, found) && i < |found|
    requires found[i].preset.overlay == found[i].overlay.Or("")
    ensures var after := Validation(e, references);
            && i < |after.presets|
            && (after.presets[i].overlay != "" ==>
                  && found[i].overlay == Some(after.presets[i].overlay)
                  && !NameError(after, after.presets[i].overlay, Window, false, PresetOnly))
  {
    var after := AfterCallbacks(e, references);
    CallbacksClear(e, references);
    ValidationKeepsDefinitions(e, references);
    assert e.Has(OverlayOf(i)) && after.At(OverlayOf(i)) == after.presets[i].overlay;
    if after.presets[i].overlay != "" {
      var reference := OverlayReference(found[i].overlay.value, i);
      OverlayIsRecorded(found, 0, i);
      assert reference in references && reference.slot == OverlayOf(i);
      assert !Cleared(e, references, OverlayOf(i));
      SameNameErrors(e, Validation(e, references), reference.name, Window);
    }
  }

  lemma MemberIsAccepted(e: EffectReferences.Effects, references: seq<Reference>, p: nat, name: string)
    requires CoversPools(e, references) && p < |e.pools| && "" !in e.pools[p].members
    requires name in Validation(e, references).pools[p].members
    ensures !NameError(Validation(e, references), name, e.pools[p].kind, false, PresetOnly)
  {
    PoolsKeepWhatStands(e, references, p);
    StandingHolds(e.presets, e.pools[p].kind, e.pools[p].members);
    ValidationKeepsDefinitions(e, references);
    SameNameErrors(e, Validation(e, references), name, e.pools[p].kind);
  }

  /** The settings a validation leaves. */
  predicate Leaves(settings: EffectSettings, after: EffectReferences.Effects) {
    settings.presets == after.presets && settings.pools == after.pools
  }

  ghost predicate PresetsFit(after: EffectReferences.Effects, declarations: seq<string>) {
    && (forall i, j :: 0 <= i < j < |after.presets| ==> after.presets[i].name != after.presets[j].name)
    && (forall preset :: preset in after.presets ==> preset.name in declarations && preset.name != "")
  }

  ghost predicate OverlaysFit(after: EffectReferences.Effects) {
    forall preset :: preset in after.presets && preset.overlay != "" ==>
      preset.kind == Border && !NameError(after, preset.overlay, Window, false, PresetOnly)
  }

  ghost predicate PoolFits(after: EffectReferences.Effects, table: Entries, pool: Pool) {
    && pool.name in table && pool.name != ""
    && forall m :: m in pool.members ==> !NameError(after, m, pool.kind, false, PresetOnly)
  }

  ghost predicate PoolsFit(after: EffectReferences.Effects, table: Entries) {
    forall pool :: pool in after.pools ==> PoolFits(after, table, pool)
  }

  lemma FitIsValidated(after: EffectReferences.Effects, presets: seq<string>, table: Entries, settings: EffectSettings)
    requires Leaves(settings, after) && forall name :: name in table ==> name !in presets
    requires PresetsFit(after, presets) && OverlaysFit(after) && PoolsFit(after, table)
    ensures EffectStability.Validated(settings)
  {
  }

  lemma DistinctPresets(e: EffectReferences.Effects, references: seq<Reference>, declarations: seq<string>,
                        table: Entries, knows: KnowsKeys)
    requires NoDuplicates(declarations) && e.presets == Map(PresetIn, PresetsRead(declarations, table, knows))
    ensures PresetsFit(Validation(e, references), declarations)
  {
    var found, presets := PresetsRead(declarations, table, knows), Validation(e, references).presets;
    ValidationKeepsDefinitions(e, references);
    NamesAreDistinct(declarations, table, knows);
    forall i | 0 <= i < |presets|
      ensures presets[i].name == found[i].preset.name && presets[i].name in declarations && presets[i].name != ""
    {
      ReadsHold(declarations, table, knows, found[i]);
      assert SamePreset(e.presets[i], presets[i]);
    }
  }

  lemma OverlaysAreAccepted(e: EffectReferences.Effects, references: seq<Reference>, declarations: seq<string>,
                            table: Entries, knows: KnowsKeys)
    requires ReadFrom(e, references, PresetsRead(declarations, table, knows))
    ensures OverlaysFit(Validation(e, references))
  {
    var found, after := PresetsRead(declarations, table, knows), Validation(e, references);
    ValidationKeepsDefinitions(e, references);
    forall i | 0 <= i < |after.presets| && after.presets[i].overlay != ""
      ensures after.presets[i].kind == Border
      ensures !NameError(after, after.presets[i].overlay, Window, false, PresetOnly)
    {
      ReadsHold(declarations, table, knows, found[i]);
      OverlayIsAccepted(e, references, found, i);
      assert SamePreset(e.presets[i], after.presets[i]);
    }
  }

  lemma PoolsAreAccepted(e: EffectReferences.Effects, references: seq<Reference>, declarations: seq<string>,
                         table: Entries)
    requires CoversPools(e, references) && e.pools == PoolsOf(declarations, table)
    ensures PoolsFit(Validation(e, references), table)
  {
    var after := Validation(e, references);
    ValidationKeepsDefinitions(e, references);
    forall p | 0 <= p < |after.pools| ensures PoolFits(after, table, after.pools[p]) {
      PoolIsWritten(e.pools, declarations, table, p);
      forall m | m in after.pools[p].members ensures !NameError(after, m, after.pools[p].kind, false, PresetOnly) {
        MemberIsAccepted(e, references, p, m);
      }
    }
  }

  lemma PoolIsWritten(pools: seq<Pool>, declarations: seq<string>, table: Entries, p: nat)
    requires pools == PoolsOf(declarations, table) && p < |pools|
    ensures pools[p].name in table && pools[p].name != "" && "" !in pools[p].members
  {
    PoolsComeFromDeclarations(declarations, table);
    assert pools[p] in pools;
    var d :| d in declarations && PoolOf(d, table) == Some(pools[p]);
    ChosenHolds(table[d].entries["choose"].elements);
  }

  /** Reading distinct declarations, none of a pool under a preset's name, and validating what was recorded leaves
      effects in which every member and overlay names a preset that suits it. */
  lemma ReadingValidates(
    e: EffectReferences.Effects, references: seq<Reference>, presets: seq<string>, presetTable: Entries,
    knows: KnowsKeys, pools: seq<string>, poolTable: Entries, settings: EffectSettings)
    requires NoDuplicates(presets) && forall name :: name in poolTable ==> name !in presets
    requires ReadFrom(e, references, PresetsRead(presets, presetTable, knows)) && e.pools == PoolsOf(pools, poolTable)
    requires Leaves(settings, Validation(e, references))
    ensures EffectStability.Validated(settings)
  {
    DistinctPresets(e, references, presets, presetTable, knows);
    OverlaysAreAccepted(e, references, presets, presetTable, knows);
    PoolsAreAccepted(e, references, pools, poolTable);
    FitIsValidated(Validation(e, references), presets, poolTable, settings);
  }

  /** Reading both tables establishes what validation relies on. */
  method ReadEffects(presets: seq<string>, presetTable: Entries, knows: KnowsKeys, pools: seq<string>,
                     poolTable: Entries, effects: Loaded) returns (references: seq<Reference>)
    requires effects.presets == [] && effects.pools == []
    modifies effects`presets, effects`pools
    ensures ReadFrom(effects.State(), references, PresetsRead(presets, presetTable, knows))
    ensures effects.pools == PoolsOf(pools, poolTable)
  {
    var overlays := ReadEffectPresets(presets, presetTable, knows, effects);
    var members := ReadEffectPools(pools, poolTable, effects);
    references := overlays + members;
    ghost var found := PresetsRead(presets, presetTable, knows);
    assert effects.presets == Map(PresetIn, found) && effects.pools == PoolsOf(pools, poolTable);
    assert overlays == OverlayReferences(found, 0) && members == PoolReferences(effects.pools, 0);
    BothAreRecorded(effects.State(), found);
  }

  lemma BothAreRecorded(e: EffectReferences.Effects, found: seq<PresetRead>)
    requires e.presets == Map(PresetIn, found)
    ensures ReadFrom(e, OverlayReferences(found, 0) + PoolReferences(e.pools, 0), found)
  {
    OverlaysAreNoMembers(found, 0);
  }

  lemma {:induction false} OverlaysAreNoMembers(found: seq<PresetRead>, first: nat)
    ensures forall r :: r in OverlayReferences(found, first) ==> r.slot.OverlayOf?
  {
    if found == [] {
    } else {
      OverlaysAreNoMembers(found[..|found| - 1], first);
    }
  }

  /** References recorded before or after, for selectors elsewhere, change nothing about that. */
  lemma SelectorsMayFollow(e: EffectReferences.Effects, references: seq<Reference>, found: seq<PresetRead>,
                           before: seq<Reference>, after: seq<Reference>)
    requires ReadFrom(e, references, found)
    requires forall r :: r in before + after ==> r.slot.Selector?
    ensures ReadFrom(e, before + references + after, found)
  {
    var all := before + references + after;
    forall r | r in references ensures r in all {
      assert r in before + references;
    }
    forall r | r in all && r.slot.MemberOf? ensures r in PoolReferences(e.pools, 0) {
      assert r in before + after || r in references;
    }
  }

  // The whole load

  /** A table of `[effects]`, empty when it is not written as one. */
  function EffectsTable(root: Entries, key: string): Entries {
    if "effects" !in root || !root["effects"].Table? then map[]
    else
      var effects := root["effects"].entries;
      if key in effects && effects[key].Table? then effects[key].entries else map[]
  }

  lemma EffectsTableKeys(root: Entries, key: string)
    ensures KeysAt(Table(root), ["effects", key]) == EffectsTable(root, key).Keys
  {
    assert ["effects", key][1..] == [key] && [key][1..] == [];
    if "effects" in root && root["effects"].Table? {
      var effects := root["effects"].entries;
      assert KeysAt(root["effects"], [key]) == if key in effects then KeysAt(effects[key], []) else {};
    }
  }

  ghost function Names(fs: FileSystem, root: Path, kind: EffectTable): seq<string>
    requires fs.Valid()
  {
    Declare([], Declared(fs, Walk(fs, root).order, kind))
  }

  /** The presets the merged table of a load defines. */
  ghost function LoadedPresets(fs: FileSystem, root: Path, knows: KnowsKeys): seq<PresetRead>
    requires fs.Valid()
  {
    PresetsRead(Names(fs, root, PresetTable), EffectsTable(Merged(fs, root), "preset"), knows)
  }

  /** And the pools. */
  ghost function LoadedPools(fs: FileSystem, root: Path): seq<Pool>
    requires fs.Valid()
  {
    PoolsOf(Names(fs, root, PoolTable), EffectsTable(Merged(fs, root), "pool"))
  }

  lemma NoPoolHasAPresetName(fs: FileSystem, root: Path)
    requires fs.Valid()
    ensures forall name :: name in EffectsTable(Merged(fs, root), "pool") ==>
              name !in Names(fs, root, PresetTable)
  {
    EffectNamesAreDeclared(fs, root);
    EffectsTableKeys(Merged(fs, root), "pool");
  }

  /** Whatever files are included and however they were merged, the effects a load leaves are closed: every member of a
      pool in use and every overlay of a preset in use is in use, after one pass over pools and presets. */
  lemma LoadedEffectsAreClosed(
    fs: FileSystem, root: Path, knows: KnowsKeys, e: EffectReferences.Effects, references: seq<Reference>,
    config: Config, runtime: seq<string>)
    requires fs.Valid() && e.pools == LoadedPools(fs, root)
    requires ReadFrom(e, references, LoadedPresets(fs, root, knows))
    requires Leaves(config.effects, Validation(e, references))
    ensures EffectStability.Validated(config.effects)
    ensures EffectUse.Closed(EffectUse.Referenced(config, runtime), config.effects)
  {
    DeclarationsAreInOrder(fs, root, PresetTable);
    NoPoolHasAPresetName(fs, root);
    ReadingValidates(e, references, Names(fs, root, PresetTable), EffectsTable(Merged(fs, root), "preset"), knows,
                     Names(fs, root, PoolTable), EffectsTable(Merged(fs, root), "pool"), config.effects);
    EffectStability.ValidatedIsFlat(config, runtime);
  }
}
