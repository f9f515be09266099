/** Which difference between two configurations raises which flag, and that equal ones raise none. */
module ChangeFlags {
  import opened Change
  import opened Config
  import opened EffectUse
  import opened Options
  import opened OutputNames
  import opened Resolve
  import opened Sequences
  import opened WindowRules

  import EffectReferences

  // Sections

  /** Some output is named by the sections of one side only. */
  ghost predicate NamedOnOneSide(before: Config, after: Config) {
    NameSet(before.outputs) != NameSet(after.outputs)
  }

  /** Two sections for one output, before and after, differ in this part. */
  ghost predicate Differ<T>(before: Config, after: Config, part: OutputRule -> T) {
    exists b, a :: b in before.outputs && a in after.outputs && SameName(b.name, a.name) && part(b) != part(a)
  }

  lemma NamesExactly(before: seq<OutputRule>, after: seq<OutputRule>)
    requires DistinctNames(before) && DistinctNames(after)
    ensures NamesChanged(before, after) <==> NameSet(before) != NameSet(after)
  {
    NameSetSize(before);
    NameSetSize(after);
    if !NamesChanged(before, after) {
      NoNewNames(before, after);
      forall r | r in before ensures Lower(r.name) in NameSet(after) {
        assert FindByName(after, r.name).Some?;
      }
      forall r | r in after ensures Lower(r.name) in NameSet(before) {
        assert FindByName(before, r.name).Some?;
      }
    } else if |before| == |after| {
      var r :| r in before && FindByName(after, r.name).None?;
      assert Lower(r.name) in NameSet(before) && Lower(r.name) !in NameSet(after);
    }
  }

  lemma DifferingIsFound<T>(before: Config, after: Config, equal: Equal, part: OutputRule -> T)
    requires DistinctNames(before.outputs) && DistinctNames(after.outputs)
    requires forall b, a :: equal(Some(b), Some(a)) <==> part(b) == part(a)
    ensures Differ(before, after, part) ==> ProjectionChanged(before.outputs, after.outputs, equal)
  {
    if b, a :| b in before.outputs && a in after.outputs && SameName(b.name, a.name) && part(b) != part(a) {
      FoundIsUnique(after.outputs, a, b.name);
    }
  }

  lemma FoundIsDiffering<T>(before: Config, after: Config, equal: Equal, part: OutputRule -> T)
    requires DistinctNames(before.outputs) && DistinctNames(after.outputs)
    requires !NamesChanged(before.outputs, after.outputs)
    requires forall b, a :: equal(Some(b), Some(a)) <==> part(b) == part(a)
    ensures ProjectionChanged(before.outputs, after.outputs, equal) ==> Differ(before, after, part)
  {
    NoNewNames(before.outputs, after.outputs);
    if r :| r in before.outputs && !equal(Some(r), FindByName(after.outputs, r.name)) {
      var a := FindByName(after.outputs, r.name).value;
      assert part(r) != part(a);
    }
  }

  /** A comparison of sections, new and lost names included, is one of names and of sections for one output. */
  lemma ProjectionExactly<T>(before: Config, after: Config, equal: Equal, part: OutputRule -> T)
    requires DistinctNames(before.outputs) && DistinctNames(after.outputs)
    requires forall b, a :: equal(Some(b), Some(a)) <==> part(b) == part(a)
    ensures NamesChanged(before.outputs, after.outputs) || ProjectionChanged(before.outputs, after.outputs, equal)
        <==> NamedOnOneSide(before, after) || Differ(before, after, part)
  {
    NamesExactly(before.outputs, after.outputs);
    DifferingIsFound(before, after, equal, part);
    if !NamesChanged(before.outputs, after.outputs) {
      FoundIsDiffering(before, after, equal, part);
    }
  }

  // Flags about outputs

  function TearingOf(rule: OutputRule): bool {
    rule.allowTearing
  }

  function ScanoutOf(rule: OutputRule): bool {
    rule.directScanout
  }

  /** `outputState`, `tearingPolicy` and `directScanoutPolicy`: an output named on one side only, two sections for one
      output that differ in what the flag stands for, or, for tearing, the rules of windows that decide on it. */
  lemma OutputFlagsExactly(before: Config, after: Config)
    requires DistinctNames(before.outputs) && DistinctNames(after.outputs)
    ensures var changed, renamed := EffectsBetween(before, after), NamedOnOneSide(before, after);
            && (changed.outputState <==> renamed || Differ(before, after, SettingsOf))
            && (changed.tearingPolicy <==>
                  || renamed || Differ(before, after, TearingOf)
                  || TearingRules(before.windowRules) != TearingRules(after.windowRules))
            && (changed.directScanoutPolicy <==> renamed || Differ(before, after, ScanoutOf))
  {
    ProjectionExactly(before, after, SameOutputState, SettingsOf);
    ProjectionExactly(before, after, SameTearing, TearingOf);
    ProjectionExactly(before, after, SameDirectScanout, ScanoutOf);
  }

  // Flags about workspaces

  function InventoryOf(rule: OutputRule): (Option<Inventory>, int) {
    (rule.workspaces, rule.minWorkspaces)
  }

  function LayoutOf(rule: OutputRule): (Option<real>, WorkspaceAxis) {
    (rule.defaultExtentFraction, rule.workspaceAxis)
  }

  /** The names declared, each with the output it is declared for in lower case, in rule order. */
  function Declarations(config: Config): seq<(string, string)> {
    Filtered(config.workspaceRules, (rule: WorkspaceRule) => rule.index.None?,
             (rule: WorkspaceRule) => (rule.name, Lower(rule.output)))
  }

  lemma {:induction false} DeclarationsAre(rules: seq<WorkspaceRule>)
    ensures Filtered(rules, SelectsByName, DeclaredPart)
         == Filtered(rules, (rule: WorkspaceRule) => rule.index.None?,
                     (rule: WorkspaceRule) => (rule.name, Lower(rule.output)))
  {
    if rules == [] {
    } else {
      DeclarationsAre(rules[..|rules| - 1]);
    }
  }

  /** `workspaceInventory` and `workspaceLayout` */
  lemma WorkspaceFlagsExactly(before: Config, after: Config)
    requires DistinctNames(before.outputs) && DistinctNames(after.outputs)
    ensures var changed := EffectsBetween(before, after);
            && (changed.workspaceInventory <==>
                  || NamedOnOneSide(before, after) || Differ(before, after, InventoryOf)
                  || before.emptyAbove != after.emptyAbove || Declarations(before) != Declarations(after))
            && (changed.workspaceLayout <==>
                  || changed.workspaceInventory || Differ(before, after, LayoutOf)
                  || before.layout != after.layout || before.workspaceRules != after.workspaceRules
                  || before.appearance.borderWidth + before.appearance.outerBorderWidth
                     != after.appearance.borderWidth + after.appearance.outerBorderWidth
                  || before.appearance.tabBar != after.appearance.tabBar)
  {
    DeclarationsAre(before.workspaceRules);
    DeclarationsAre(after.workspaceRules);
    ProjectionExactly(before, after, SameInventory, InventoryOf);
    ProjectionExactly(before, after, SameLayout, LayoutOf);
  }

  // The effects flag

  function ScreenOf(rule: OutputRule): Option<string> {
    rule.screenEffect
  }

  /** A section names a screen effect. */
  ghost predicate SomeScreen(config: Config) {
    exists rule :: rule in config.outputs && rule.screenEffect.Some?
  }

  /** A window rule names a border or a window effect. */
  ghost predicate SomeWindowEffect(config: Config) {
    exists rule :: rule in config.windowRules
                   && (rule.settings.style.borderEffect.Some? || rule.settings.style.windowEffect.Some?)
  }

  lemma WindowEffectsExactly(config: Config)
    ensures WindowsSelectEffect(config) <==> SomeWindowEffect(config)
  {
    if rule :| rule in config.windowRules
               && (rule.settings.style.borderEffect.Some? || rule.settings.style.windowEffect.Some?)
    {
      assert SelectsEffect(rule);
    }
    if rule :| rule in config.windowRules && SelectsEffect(rule) {
      assert rule.settings.style.borderEffect.Some? || rule.settings.style.windowEffect.Some?;
    }
  }

  /** Where no section names a screen effect, none of them differ in it. */
  lemma NoScreenNoChange(before: Config, after: Config)
    requires !SomeScreen(before) && !SomeScreen(after)
    ensures !ProjectionChanged(before.outputs, after.outputs, SameScreenEffect) && !Differ(before, after, ScreenOf)
  {
  }

  lemma ScreenPartExactly(before: Config, after: Config)
    requires DistinctNames(before.outputs) && DistinctNames(after.outputs)
    ensures (NamesChanged(before.outputs, after.outputs) && (SelectsScreenEffect(before) || SelectsScreenEffect(after)))
            || ProjectionChanged(before.outputs, after.outputs, SameScreenEffect)
        <==> (NamedOnOneSide(before, after) && (SomeScreen(before) || SomeScreen(after)))
             || Differ(before, after, ScreenOf)
  {
    NamesExactly(before.outputs, after.outputs);
    ProjectionExactly(before, after, SameScreenEffect, ScreenOf);
    if !SomeScreen(before) && !SomeScreen(after) {
      NoScreenNoChange(before, after);
    }
  }

  /** `effects`: the definitions, the presentation, a bound effect, a screen effect, an animated event, or window rules
      where some rule on either side names an effect. */
  lemma EffectsFlagExactly(before: Config, after: Config)
    requires DistinctNames(before.outputs) && DistinctNames(after.outputs)
    ensures EffectsBetween(before, after).effects <==>
              || before.effects != after.effects || before.presentation != after.presentation
              || (exists name :: name != "" && name != EffectReferences.EFFECT_OFF
                                 && Bound(before, name) != Bound(after, name))
              || (NamedOnOneSide(before, after) && (SomeScreen(before) || SomeScreen(after)))
              || Differ(before, after, ScreenOf)
              || !AnimateAlike(before.animation, after.animation)
              || (before.windowRules != after.windowRules && (SomeWindowEffect(before) || SomeWindowEffect(after)))
  {
    RootsAre(before);
    RootsAre(after);
    ScreenPartExactly(before, after);
    WindowEffectsExactly(before);
    WindowEffectsExactly(after);
    if Roots(before) != Roots(after) {
      var name :| (name in Roots(before)) != (name in Roots(after));
      assert Bound(before, name) != Bound(after, name);
    }
  }

  // The other flags

  /** Whether anything samples a cached blur: the global setting, a window rule or a layer rule asks for it. */
  ghost predicate AsksForCache(config: Config) {
    || config.appearance.blur.optimized
    || (exists rule :: rule in config.windowRules && rule.settings.style.blurOptimized == Some(true))
    || exists rule :: rule in config.layerRules && rule.settings.optimized == Some(true)
  }

  lemma CacheIsAskedFor(config: Config)
    ensures NeedsOptimizedBlur(config) <==> AsksForCache(config)
  {
    if rule :| rule in config.windowRules && rule.settings.style.blurOptimized == Some(true) {
      assert WindowNeedsBlur(rule);
    }
    if rule :| rule in config.layerRules && rule.settings.optimized == Some(true) {
      assert LayerNeedsBlur(rule);
    }
  }

  /** `sceneBlur`, `viewChrome`, `layerEffects`, `animation`, `input`, `overviewPresentation` and `internalUi` */
  lemma SurfaceFlagsExactly(before: Config, after: Config)
    ensures var changed, recoloured := EffectsBetween(before, after), before.colors != after.colors;
            && (changed.sceneBlur <==>
                  before.appearance.blur != after.appearance.blur || AsksForCache(before) != AsksForCache(after))
            && (changed.viewChrome <==>
                  || before.appearance != after.appearance || recoloured || before.windowRules != after.windowRules
                  || before.animation.enabled != after.animation.enabled
                  || before.animation.dimUnfocused != after.animation.dimUnfocused)
            && (changed.layerEffects <==> changed.sceneBlur || before.layerRules != after.layerRules)
            && (changed.animation <==> before.animation != after.animation)
            && (changed.input <==> before.input != after.input || before.hotCorners != after.hotCorners)
            && (changed.overviewPresentation <==> before.overview != after.overview || recoloured)
            && (changed.internalUi <==> recoloured || before.modKey != after.modKey)
  {
    CacheIsAskedFor(before);
    CacheIsAskedFor(after);
  }

  // No difference

  lemma NothingDiffers<T>(config: Config, part: OutputRule -> T)
    requires DistinctNames(config.outputs)
    ensures !Differ(config, config, part)
  {
    forall b, a | b in config.outputs && a in config.outputs && SameName(b.name, a.name) ensures b == a {
      FoundIsUnique(config.outputs, a, b.name);
      FoundIsUnique(config.outputs, b, b.name);
    }
  }

  /** A reload of the same configuration recomputes nothing. */
  lemma EqualConfigurationsChangeNothing(config: Config)
    requires DistinctNames(config.outputs)
    ensures EffectsBetween(config, config)
         == Effects(false, false, false, false, false, false, false, false, false, false, false, false, false)
  {
    OutputFlagsExactly(config, config);
    WorkspaceFlagsExactly(config, config);
    EffectsFlagExactly(config, config);
    SurfaceFlagsExactly(config, config);
    NothingDiffers(config, SettingsOf);
    NothingDiffers(config, TearingOf);
    NothingDiffers(config, ScanoutOf);
    NothingDiffers(config, InventoryOf);
    NothingDiffers(config, LayoutOf);
    NothingDiffers(config, ScreenOf);
  }
}
