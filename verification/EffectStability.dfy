/** Why a reload that leaves the effects flag unset leaves every effect in use as it was. */
module EffectStability {
  import opened Change
  import opened Config
  import opened EffectUse
  import opened Options
  import opened OutputNames
  import opened Resolve

  import EffectReferences
  import WindowRules

  /** The screen effect an output is configured with, and whether a rule overrides the default. */
  ghost function ScreenSelector(config: Config, identity: OutputIdentity): (string, bool) {
    var rule := MatchingRule(config.outputs, identity);
    if rule.Some? && rule.value.screenEffect.Some? then (rule.value.screenEffect.value, true)
    else (config.effects.screen, false)
  }

  function Selector(chosen: Option<string>, default: string): (string, bool) {
    (chosen.Or(default), chosen.Some?)
  }

  /** The border and window effects a window is configured with, each with whether a rule overrides the default. */
  ghost function WindowSelectors(config: Config, search: WindowRules.Search, w: WindowRules.Window)
    : ((string, bool), (string, bool))
  {
    var style := WindowRules.Resolved(search, config.windowRules, w).style;
    (Selector(style.borderEffect, config.effects.border), Selector(style.windowEffect, config.effects.window))
  }

  lemma DefaultScreen(config: Config, identity: OutputIdentity)
    requires forall r :: r in config.outputs ==> r.screenEffect.None?
    ensures ScreenSelector(config, identity) == (config.effects.screen, false)
  {
    FirstDescriptorFinds(config.outputs, identity);
    LastConnectorFinds(config.outputs, identity);
  }

  lemma ScreenEffectIsStable(before: Config, after: Config, identity: OutputIdentity)
    requires DistinctNames(before.outputs) && DistinctNames(after.outputs)
    requires !EffectsBetween(before, after).effects
    ensures ScreenSelector(before, identity) == ScreenSelector(after, identity)
  {
    if NamesChanged(before.outputs, after.outputs) {
      DefaultScreen(before, identity);
      DefaultScreen(after, identity);
    } else {
      ProjectionIsStable(before.outputs, after.outputs, identity, SameScreenEffect);
    }
  }

  lemma WindowEffectsAreStable(before: Config, after: Config, search: WindowRules.Search, w: WindowRules.Window)
    requires !EffectsBetween(before, after).effects
    ensures WindowSelectors(before, search, w) == WindowSelectors(after, search, w)
  {
    if before.windowRules != after.windowRules {
      WindowRules.NoEffectSelected(search, before.windowRules, w);
      WindowRules.NoEffectSelected(search, after.windowRules, w);
    }
  }

  /** Sections that agree on names and screen effects name the same screen effects. */
  lemma ScreenNamesKept(before: seq<OutputRule>, after: seq<OutputRule>)
    requires DistinctNames(after) && forall r :: r in after ==> FindByName(before, r.name).Some?
    requires !ProjectionChanged(before, after, SameScreenEffect)
    ensures Gather(after, ScreenNames) <= Gather(before, ScreenNames)
  {
    GatherHolds(before, ScreenNames);
    GatherHolds(after, ScreenNames);
    forall x | x in Gather(after, ScreenNames) ensures x in Gather(before, ScreenNames) {
      var r :| r in after && x in ScreenNames(r);
      var b := FindByName(before, r.name).value;
      FoundIsUnique(after, r, b.name);
      assert SameScreenEffect(Some(b), Some(r));
    }
  }

  lemma NoScreenNames(outputs: seq<OutputRule>)
    requires forall r :: r in outputs ==> r.screenEffect.None?
    ensures Gather(outputs, ScreenNames) == {}
  {
    GatherHolds(outputs, ScreenNames);
  }

  lemma ScreenNamesAreStable(before: Config, after: Config)
    requires DistinctNames(before.outputs) && DistinctNames(after.outputs)
    requires !EffectsBetween(before, after).effects
    ensures Gather(before.outputs, ScreenNames) == Gather(after.outputs, ScreenNames)
  {
    var b, a := before.outputs, after.outputs;
    if NamesChanged(b, a) {
      NoScreenNames(b);
      NoScreenNames(a);
    } else {
      NoNewNames(b, a);
      ScreenNamesKept(b, a);
      ScreenNamesBack(b, a);
    }
  }

  lemma ScreenNamesBack(before: seq<OutputRule>, after: seq<OutputRule>)
    requires !NamesChanged(before, after) && !ProjectionChanged(before, after, SameScreenEffect)
    ensures Gather(before, ScreenNames) <= Gather(after, ScreenNames)
  {
    GatherHolds(before, ScreenNames);
    GatherHolds(after, ScreenNames);
    forall x | x in Gather(before, ScreenNames) ensures x in Gather(after, ScreenNames) {
      var r :| r in before && x in ScreenNames(r);
      var a := FindByName(after, r.name).value;
      assert SameScreenEffect(Some(r), Some(a));
    }
  }

  lemma NoRuleNames(rules: seq<WindowRule>)
    requires forall r :: r in rules ==> !WindowRules.SelectsEffect(r)
    ensures Gather(rules, RuleNames) == {}
  {
    GatherHolds(rules, RuleNames);
  }

  lemma EventNamesAreStable(before: Animation, after: Animation, events: seq<AnimationEvent>)
    requires AnimateAlike(before, after)
    ensures Gather(events, EventNames(before)) == Gather(events, EventNames(after))
  {
    forall event | event in events ensures EventNames(before)(event) == EventNames(after)(event) {
      BoundAlike(before.enabled, EventEffect(before, event), EventEffect(after, event));
    }
    GatherAlike(events, EventNames(before), EventNames(after));
  }

  lemma RuleNamesAreStable(before: Config, after: Config)
    requires !EffectsBetween(before, after).effects
    ensures Gather(before.windowRules, RuleNames) == Gather(after.windowRules, RuleNames)
  {
    if before.windowRules != after.windowRules {
      NoRuleNames(before.windowRules);
      NoRuleNames(after.windowRules);
    }
  }

  /** `effects`: the same effects stay in use, whatever is selected at run time. */
  lemma ReferencedIsStable(before: Config, after: Config, runtime: seq<string>)
    requires DistinctNames(before.outputs) && DistinctNames(after.outputs)
    requires !EffectsBetween(before, after).effects
    ensures Referenced(before, runtime) == Referenced(after, runtime)
  {
    RuleNamesAreStable(before, after);
    ScreenNamesAreStable(before, after);
    EventNamesAreStable(before.animation, after.animation, EVENTS);
  }

  // What validation leaves

  ghost predicate Accepts(e: EffectSettings, name: string, kind: EffectReferences.Kind) {
    !EffectReferences.NameError(EffectReferences.Effects(e.presets, e.pools, map[]), name, kind, false,
                                EffectReferences.PresetOnly)
  }

  /** What reading and validating `[effects]` guarantees: distinct names, none of them empty, overlays on borders
      only, and every member and overlay that is left accepted. */
  ghost predicate Validated(e: EffectSettings) {
    && (forall i, j :: 0 <= i < j < |e.presets| ==> e.presets[i].name != e.presets[j].name)
    && (forall preset, pool :: preset in e.presets && pool in e.pools ==> preset.name != pool.name)
    && (forall preset :: preset in e.presets ==> preset.name != "")
    && (forall pool :: pool in e.pools ==>
          pool.name != "" && forall m :: m in pool.members ==> Accepts(e, m, pool.kind))
    && (forall preset :: preset in e.presets && preset.overlay != "" ==>
          preset.kind == EffectReferences.Border && Accepts(e, preset.overlay, EffectReferences.Window))
  }

  /** Validated effects are flat, so what is in use is the least set that holds every selection and all it needs. */
  lemma ValidatedIsFlat(config: Config, runtime: seq<string>)
    requires Validated(config.effects)
    ensures Flat(config.effects) && Closed(Referenced(config, runtime), config.effects)
  {
    var e := config.effects;
    forall pool, other | pool in e.pools && other in e.pools ensures other.name !in pool.members {
      if other.name in pool.members {
        assert Accepts(e, other.name, pool.kind);
        var found := EffectReferences.FindPreset(e.presets, other.name);
      }
    }
    forall preset, pool | preset in e.presets && pool in e.pools ensures preset.overlay != pool.name {
      if preset.overlay != "" {
        assert Accepts(e, preset.overlay, EffectReferences.Window);
        var found := EffectReferences.FindPreset(e.presets, preset.overlay);
      }
    }
    forall preset, other | preset in e.presets && other in e.presets && preset.overlay == other.name
      ensures other.overlay == ""
    {
    }
    OnePassReachesAll(config, runtime);
  }
}
