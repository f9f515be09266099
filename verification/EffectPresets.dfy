/** Reading `[effects.preset.*]`. */
module EffectPresets {
  import opened Declarations
  import opened EffectReferences
  import opened Options
  import opened Sequences
  import opened Toml

  function KindNamed(text: string): Option<Kind> {
    if text == "animation" then Some(Animation)
    else if text == "border" then Some(Border)
    else if text == "window" then Some(Window)
    else if text == "screen" then Some(Screen)
    else if text == "cursor" then Some(Cursor)
    else None
  }

  predicate ValidEffectName(name: string) {
    name != "" && name != EFFECT_OFF && '/' !in name
  }

  function ScopeNamed(text: string): Option<Scope> {
    if text == "workspace_pair" then Some(WorkspacePair)
    else if text == "workspace_set" then Some(WorkspaceSet)
    else if text == "window_scene" then Some(WindowScene)
    else None
  }

  /** The text under a key, or an empty one. */
  function TextAt(keys: Entries, key: string): string {
    if key in keys && keys[key].Text? then keys[key].text else ""
  }

  /** The keys only scenes take. */
  const SCENE_KEYS := ["scope", "common_shader", "vertex_shader", "composite_shader", "backdrop_shader", "parameters"]

  predicate HasSceneKey(keys: Entries) {
    exists key :: key in SCENE_KEYS && key in keys
  }

  /** Whether the readers of a scene know every key of its table. */
  type KnowsKeys = Entries -> bool

  /** The scope a preset is bound to, if any; None when the table is rejected. */
  function SceneOf(keys: Entries, kind: Kind, knows: KnowsKeys): Option<Option<Scope>> {
    if "interface" !in keys then if HasSceneKey(keys) then None else Some(None)
    else if TextAt(keys, "interface") != "scene-v1" then None
    else
      var scope := ScopeNamed(TextAt(keys, "scope"));
      if kind != Animation || scope.None? || !knows(keys) then None else Some(scope)
  }

  /** Only borders take an overlay. */
  function OverlayOfTable(keys: Entries, kind: Kind): Option<string> {
    if kind == Border && "overlay" in keys && keys["overlay"].Text? then Some(keys["overlay"].text) else None
  }

  /** A preset and the overlay its table writes. */
  datatype PresetRead = PresetRead(preset: Preset, overlay: Option<string>)

  /** The preset one declaration defines, if it defines any. */
  function PresetOf(name: string, table: Entries, knows: KnowsKeys): Option<PresetRead> {
    if name !in table || !table[name].Table? || !ValidEffectName(name) then None
    else
      var keys := table[name].entries;
      var kind := KindNamed(TextAt(keys, "kind"));
      if kind.None? || SceneOf(keys, kind.value, knows).None? then None
      else
        var overlay := OverlayOfTable(keys, kind.value);
        Some(PresetRead(Preset(name, kind.value, SceneOf(keys, kind.value, knows).value, overlay.Or("")), overlay))
  }

  function Defined(name: string, table: Entries, knows: KnowsKeys): (found: seq<PresetRead>)
    ensures |found| <= 1
  {
    var read := PresetOf(name, table, knows);
    if read.Some? then [read.value] else []
  }

  function PresetsRead(declarations: seq<string>, table: Entries, knows: KnowsKeys): seq<PresetRead> {
    if declarations == [] then []
    else
      PresetsRead(declarations[..|declarations| - 1], table, knows)
      + Defined(declarations[|declarations| - 1], table, knows)
  }

  function PresetIn(read: PresetRead): Preset {
    read.preset
  }

  function OverlayReference(overlay: string, position: nat): Reference {
    Reference(overlay, Window, false, PresetOnly, OtherBinding, OverlayOf(position))
  }

  function OverlayRecord(read: PresetRead, position: nat): seq<Reference> {
    if read.overlay.Some? then [OverlayReference(read.overlay.value, position)] else []
  }

  /** The references the presets from `first` on leave behind. */
  function OverlayReferences(found: seq<PresetRead>, first: nat): seq<Reference> {
    if found == [] then []
    else
      var n := |found| - 1;
      OverlayReferences(found[..n], first) + OverlayRecord(found[n], first + n)
  }

  lemma OverlayReferencesSnoc(found: seq<PresetRead>, read: PresetRead, first: nat)
    ensures OverlayReferences(found + [read], first)
         == OverlayReferences(found, first) + OverlayRecord(read, first + |found|)
  {
    assert (found + [read])[..|found|] == found;
  }

  lemma PresetsReadSnoc(declarations: seq<string>, n: nat, table: Entries, knows: KnowsKeys)
    requires n < |declarations|
    ensures PresetsRead(declarations[..n + 1], table, knows)
         == PresetsRead(declarations[..n], table, knows) + Defined(declarations[n], table, knows)
  {
    assert declarations[..n + 1][..n] == declarations[..n];
  }

  /** The scene part of one table; its shader sources and parameters do not decide whether the preset is kept. */
  method ReadScene(keys: Entries, kind: Kind, knows: KnowsKeys) returns (scene: Option<Scope>, ok: bool)
    ensures ok <==> SceneOf(keys, kind, knows).Some?
    ensures ok ==> SceneOf(keys, kind, knows) == Some(scene)
  {
    if "interface" in keys {
      if TextAt(keys, "interface") != "scene-v1" {
        return None, false;
      }
      scene := ScopeNamed(TextAt(keys, "scope"));
      return scene, kind == Animation && scene.Some? && knows(keys);
    }
    for i := 0 to |SCENE_KEYS|
      invariant forall k :: 0 <= k < i ==> SCENE_KEYS[k] !in keys
    {
      if SCENE_KEYS[i] in keys {
        return None, false;
      }
    }
    return None, true;
  }

  /** The preset of one table. */
  method ReadTable(name: string, table: Entries, knows: KnowsKeys) returns (read: Option<PresetRead>)
    ensures read == PresetOf(name, table, knows)
  {
    if name !in table || !table[name].Table? || !ValidEffectName(name) {
      return None;
    }
    var keys := table[name].entries;
    var kind := KindNamed(TextAt(keys, "kind"));
    if kind.None? {
      return None;
    }
    var scene, ok := ReadScene(keys, kind.value, knows);
    if !ok {
      return None;
    }
    var preset, overlay := Preset(name, kind.value, scene, ""), None;
    if kind.value == Border {
      overlay := OverlayOfTable(keys, kind.value);
      if overlay.Some? {
        preset := preset.(overlay := overlay.value);
      }
    }
    return Some(PresetRead(preset, overlay));
  }

  lemma OneOverlay(read: PresetRead, first: nat)
    ensures OverlayReferences([read], first) == OverlayRecord(read, first)
  {
    assert [read][..0] == [];
  }

  lemma AtMostOneMore(found: seq<PresetRead>, added: seq<PresetRead>, first: nat)
    requires |added| <= 1
    ensures OverlayReferences(found + added, first)
        == OverlayReferences(found, first) + OverlayReferences(added, first + |found|)
  {
    if |added| == 0 {
      assert found + added == found;
      assert OverlayReferences(added, first + |found|) == [];
    } else {
      var read := added[0];
      assert added == [read];
      OverlayReferencesSnoc(found, read, first);
      OneOverlay(read, first + |found|);
    }
  }

  lemma NextPresets(before: seq<Preset>, found: seq<PresetRead>, added: seq<PresetRead>)
    ensures before + Map(PresetIn, found + added) == before + Map(PresetIn, found) + Map(PresetIn, added)
  {
    MapConcat(PresetIn, found, added);
    Regroup(before, Map(PresetIn, found), Map(PresetIn, added));
  }

  lemma PresetsInPlace(before: seq<Preset>, found: seq<PresetRead>)
    ensures |before + Map(PresetIn, found)| == |before| + |found|
  {
  }

  /** One declaration of the loop below. */
  method ReadPreset(name: string, table: Entries, knows: KnowsKeys, effects: Loaded)
    returns (references: seq<Reference>)
    modifies effects`presets
    ensures effects.presets == old(effects.presets) + Map(PresetIn, Defined(name, table, knows))
    ensures references == OverlayReferences(Defined(name, table, knows), |old(effects.presets)|)
  {
    var read := ReadTable(name, table, knows);
    if read.None? {
      return [];
    }
    assert [read.value][..0] == [];
    effects.presets := effects.presets + [read.value.preset];
    references := [];
    if read.value.overlay.Some? {
      references := [OverlayReference(read.value.overlay.value, |effects.presets| - 1)];
    }
  }

  /** One step of the loop below, after the presets `found` so far. */
  method ReadNextPreset(name: string, table: Entries, knows: KnowsKeys, effects: Loaded, ghost before: seq<Preset>,
                        ghost found: seq<PresetRead>) returns (recorded: seq<Reference>)
    requires effects.presets == before + Map(PresetIn, found)
    modifies effects`presets
    ensures effects.presets == before + Map(PresetIn, found + Defined(name, table, knows))
    ensures OverlayReferences(found, |before|) + recorded
         == OverlayReferences(found + Defined(name, table, knows), |before|)
  {
    NextPresets(before, found, Defined(name, table, knows));
    AtMostOneMore(found, Defined(name, table, knows), |before|);
    PresetsInPlace(before, found);
    recorded := ReadPreset(name, table, knows, effects);
  }

  /** `readEffectPresets`: appends the presets in declaration order and records one reference per overlay. */
  method ReadEffectPresets(declarations: seq<string>, table: Entries, knows: KnowsKeys, effects: Loaded)
    returns (references: seq<Reference>)
    modifies effects`presets
    ensures effects.presets == old(effects.presets) + Map(PresetIn, PresetsRead(declarations, table, knows))
    ensures references == OverlayReferences(PresetsRead(declarations, table, knows), |old(effects.presets)|)
  {
    references := [];
    ghost var before := effects.presets;
    for n := 0 to |declarations|
      invariant effects.presets == before + Map(PresetIn, PresetsRead(declarations[..n], table, knows))
      invariant references == OverlayReferences(PresetsRead(declarations[..n], table, knows), |before|)
    {
      PresetsReadSnoc(declarations, n, table, knows);
      var recorded := ReadNextPreset(declarations[n], table, knows, effects, before,
                                     PresetsRead(declarations[..n], table, knows));
      references := references + recorded;
    }
    assert declarations[..|declarations|] == declarations;
  }

  // What reading leaves

  lemma {:induction false} ReadsComeFromDeclarations(declarations: seq<string>, table: Entries, knows: KnowsKeys)
    ensures forall r ::
              r in PresetsRead(declarations, table, knows) <==>
                exists d :: d in declarations && PresetOf(d, table, knows) == Some(r)
  {
    if declarations == [] {
    } else {
      var n := |declarations| - 1;
      ReadsComeFromDeclarations(declarations[..n], table, knows);
      assert declarations == declarations[..n] + [declarations[n]];
    }
  }

  /** Every preset has a declared, valid name that is a key of the table, and an overlay only if it is a border. */
  lemma ReadsHold(declarations: seq<string>, table: Entries, knows: KnowsKeys, r: PresetRead)
    requires r in PresetsRead(declarations, table, knows)
    ensures r.preset.name in declarations && r.preset.name in table && ValidEffectName(r.preset.name)
    ensures r.preset.overlay == r.overlay.Or("") && (r.overlay.Some? ==> r.preset.kind == Border)
  {
    ReadsComeFromDeclarations(declarations, table, knows);
  }

  /** Names declared once each give presets with distinct names. */
  lemma {:induction false} NamesAreDistinct(declarations: seq<string>, table: Entries, knows: KnowsKeys)
    requires NoDuplicates(declarations)
    ensures var found := PresetsRead(declarations, table, knows);
            forall i, j :: 0 <= i < j < |found| ==> found[i].preset.name != found[j].preset.name
  {
    if declarations == [] {
    } else {
      var n := |declarations| - 1;
      var found := PresetsRead(declarations[..n], table, knows);
      NamesAreDistinct(declarations[..n], table, knows);
      forall i | 0 <= i < |found| ensures found[i].preset.name != declarations[n] {
        ReadsHold(declarations[..n], table, knows, found[i]);
      }
    }
  }

  /** Every overlay was recorded, at the position of its preset. */
  lemma {:induction false} OverlayIsRecorded(found: seq<PresetRead>, first: nat, i: nat)
    requires i < |found| && found[i].overlay.Some?
    ensures OverlayReference(found[i].overlay.value, first + i) in OverlayReferences(found, first)
  {
    if i == |found| - 1 {
    } else {
      OverlayIsRecorded(found[..|found| - 1], first, i);
    }
  }

  // Which tables define a preset

  /** The words for kinds and scopes. */
  function KindName(kind: Kind): string {
    match kind
    case Animation => "animation"
    case Border => "border"
    case Window => "window"
    case Screen => "screen"
    case Cursor => "cursor"
  }

  function ScopeName(scope: Scope): string {
    match scope
    case WorkspacePair => "workspace_pair"
    case WorkspaceSet => "workspace_set"
    case WindowScene => "window_scene"
  }

  lemma WordsReadBack(text: string)
    ensures forall kind :: KindNamed(text) == Some(kind) <==> text == KindName(kind)
    ensures forall scope :: ScopeNamed(text) == Some(scope) <==> text == ScopeName(scope)
  {
    assert "animation"[0] != "border"[0] && "window"[0] != "screen"[0] && "cursor"[0] != "animation"[0];
    assert |"workspace_pair"| != |"workspace_set"| && |"window_scene"| == 12;
  }

  /** A text under a key. */
  ghost predicate Says(keys: Entries, key: string, text: string) {
    key in keys && keys[key] == Text(text)
  }

  /** A table describes this scope: nothing of a scene, or the interface of an animated scene, its scope, and nothing
      else that is unknown. */
  ghost predicate DescribesScene(keys: Entries, kind: Kind, scene: Option<Scope>, knows: KnowsKeys) {
    if scene.None? then
      "interface" !in keys && "scope" !in keys && "common_shader" !in keys && "vertex_shader" !in keys
      && "composite_shader" !in keys && "backdrop_shader" !in keys && "parameters" !in keys
    else
      && kind == Animation && Says(keys, "interface", "scene-v1") && Says(keys, "scope", ScopeName(scene.value))
      && knows(keys)
  }

  lemma SceneIsDescribed(keys: Entries, kind: Kind, scene: Option<Scope>, knows: KnowsKeys)
    ensures SceneOf(keys, kind, knows) == Some(scene) <==> DescribesScene(keys, kind, scene, knows)
  {
    WordsReadBack(TextAt(keys, "scope"));
    SceneKeys(keys);
  }

  /** A border's table writes this overlay, or none. */
  ghost predicate DescribesOverlay(keys: Entries, kind: Kind, overlay: Option<string>) {
    forall text :: overlay == Some(text) <==> kind == Border && Says(keys, "overlay", text)
  }

  lemma OverlayIsDescribed(keys: Entries, kind: Kind, overlay: Option<string>)
    ensures OverlayOfTable(keys, kind) == overlay <==> DescribesOverlay(keys, kind, overlay)
  {
    var found := OverlayOfTable(keys, kind);
    assert found.Some? ==> Says(keys, "overlay", found.value);
  }

  /** The preset that a declared name defines is the one its table describes, with the overlay the table writes if it
      is a border; names that are empty, say that there is no effect, or hold a slash define none. */
  lemma PresetIsDescribed(name: string, table: Entries, knows: KnowsKeys, read: PresetRead)
    ensures PresetOf(name, table, knows) == Some(read) <==>
              && name in table && table[name].Table? && name != "" && name != "off" && '/' !in name
              && read.preset.name == name && read.preset.overlay == read.overlay.Or("")
              && Says(table[name].entries, "kind", KindName(read.preset.kind))
              && DescribesScene(table[name].entries, read.preset.kind, read.preset.scene, knows)
              && DescribesOverlay(table[name].entries, read.preset.kind, read.overlay)
  {
    if name in table && table[name].Table? {
      var keys := table[name].entries;
      WordsReadBack(TextAt(keys, "kind"));
      SceneIsDescribed(keys, read.preset.kind, read.preset.scene, knows);
      OverlayIsDescribed(keys, read.preset.kind, read.overlay);
    }
  }

  lemma SceneKeys(keys: Entries)
    ensures HasSceneKey(keys) <==>
              "scope" in keys || "common_shader" in keys || "vertex_shader" in keys || "composite_shader" in keys
              || "backdrop_shader" in keys || "parameters" in keys
  {
    assert SCENE_KEYS[0] == "scope" && SCENE_KEYS[1] == "common_shader" && SCENE_KEYS[2] == "vertex_shader";
    assert SCENE_KEYS[3] == "composite_shader" && SCENE_KEYS[4] == "backdrop_shader" && SCENE_KEYS[5] == "parameters";
  }
}
