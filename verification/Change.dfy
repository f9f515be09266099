/** Which runtime state a reload invalidates, and why state it leaves alone would resolve to the same values. */
module Change {
  import opened Config
  import opened Decimals
  import opened Options
  import opened OutputNames
  import opened Resolve
  import opened Sequences
  import opened WindowRules
  import opened Workspaces

  import EffectUse

  // Comparing output sections by name

  ghost predicate NamesChanged(before: seq<OutputRule>, after: seq<OutputRule>) {
    |before| != |after| || exists r :: r in before && FindByName(after, r.name).None?
  }

  type Equal = (Option<OutputRule>, Option<OutputRule>) -> bool

  ghost predicate ProjectionChanged(before: seq<OutputRule>, after: seq<OutputRule>, equal: Equal) {
    || (exists r :: r in before && !equal(Some(r), FindByName(after, r.name)))
    || (exists r :: r in after && FindByName(before, r.name).None? && !equal(None, Some(r)))
  }

  /** The first loop of the comparison: rules of the old configuration. */
  method SomeRuleDiffers(before: seq<OutputRule>, after: seq<OutputRule>, equal: Equal) returns (differs: bool)
    ensures differs <==> exists r :: r in before && !equal(Some(r), FindByName(after, r.name))
  {
    for i := 0 to |before|
      invariant forall k :: 0 <= k < i ==> equal(Some(before[k]), FindByName(after, before[k].name))
    {
      if !equal(Some(before[i]), FindByName(after, before[i].name)) {
        return true;
      }
    }
    return false;
  }

  /** The second loop: rules only the new configuration has. */
  method SomeNewRuleDiffers(before: seq<OutputRule>, after: seq<OutputRule>, equal: Equal) returns (differs: bool)
    ensures differs <==> exists r :: r in after && FindByName(before, r.name).None? && !equal(None, Some(r))
  {
    for i := 0 to |after|
      invariant forall k :: 0 <= k < i ==> FindByName(before, after[k].name).None? ==> equal(None, Some(after[k]))
    {
      if FindByName(before, after[i].name).None? && !equal(None, Some(after[i])) {
        return true;
      }
    }
    return false;
  }

  method OutputProjectionChanged(before: seq<OutputRule>, after: seq<OutputRule>, equal: Equal) returns (changed: bool)
    ensures changed == ProjectionChanged(before, after, equal)
  {
    changed := SomeRuleDiffers(before, after, equal);
    if !changed {
      changed := SomeNewRuleDiffers(before, after, equal);
    }
  }

  function OrDefault(rule: Option<OutputRule>): OutputRule {
    if rule.Some? then rule.value else DEFAULT_OUTPUT
  }

  predicate SameOutputState(before: Option<OutputRule>, after: Option<OutputRule>) {
    var l, r := OrDefault(before), OrDefault(after);
    && l.enabled == r.enabled && l.mode == r.mode && l.position == r.position && l.scale == r.scale
    && l.transform == r.transform && l.vrr == r.vrr && l.hdr == r.hdr && l.sdrWhite == r.sdrWhite
    && l.bitDepth == r.bitDepth
  }

  predicate SameTearing(before: Option<OutputRule>, after: Option<OutputRule>) {
    OrDefault(before).allowTearing == OrDefault(after).allowTearing
  }

  predicate SameDirectScanout(before: Option<OutputRule>, after: Option<OutputRule>) {
    OrDefault(before).directScanout == OrDefault(after).directScanout
  }

  predicate SameLayout(before: Option<OutputRule>, after: Option<OutputRule>) {
    var l, r := OrDefault(before), OrDefault(after);
    l.defaultExtentFraction == r.defaultExtentFraction && l.workspaceAxis == r.workspaceAxis
  }

  predicate SameScreenEffect(before: Option<OutputRule>, after: Option<OutputRule>) {
    OrDefault(before).screenEffect == OrDefault(after).screenEffect
  }

  predicate SameInventory(before: Option<OutputRule>, after: Option<OutputRule>) {
    var l, r := OrDefault(before), OrDefault(after);
    l.workspaces == r.workspaces && l.minWorkspaces == r.minWorkspaces
  }

  // Comparing filtered rule lists

  method SameWindowTearingPolicy(before: Config, after: Config) returns (same: bool)
    ensures same == (TearingRules(before.windowRules) == TearingRules(after.windowRules))
  {
    same := SameFiltered(before.windowRules, after.windowRules, SetsTearing, TearingPart);
  }

  predicate SelectsByName(rule: WorkspaceRule) {
    rule.index.None?
  }

  /** What a rule declares: a name, for outputs with this name in lower case. */
  function DeclaredPart(rule: WorkspaceRule): (string, string) {
    (rule.name, Lower(rule.output))
  }

  method SameDynamicWorkspaceDeclarations(before: Config, after: Config) returns (same: bool)
    ensures same == (Filtered(before.workspaceRules, SelectsByName, DeclaredPart)
                     == Filtered(after.workspaceRules, SelectsByName, DeclaredPart))
  {
    same := SameFiltered(before.workspaceRules, after.workspaceRules, SelectsByName, DeclaredPart);
  }

  // The invalidated subsystems

  /** `ConfigEffects` */
  datatype Effects = Effects(
    outputState: bool, tearingPolicy: bool, directScanoutPolicy: bool, workspaceInventory: bool, workspaceLayout: bool,
    sceneBlur: bool, viewChrome: bool, layerEffects: bool, animation: bool, input: bool, overviewPresentation: bool,
    internalUi: bool, effects: bool)

  predicate SelectsScreenEffect(config: Config) {
    exists rule :: rule in config.outputs && rule.screenEffect.Some?
  }

  predicate WindowsSelectEffect(config: Config) {
    exists rule :: rule in config.windowRules && SelectsEffect(rule)
  }

  ghost predicate StateChanged(before: Config, after: Config) {
    NamesChanged(before.outputs, after.outputs) || ProjectionChanged(before.outputs, after.outputs, SameOutputState)
  }

  ghost predicate TearingChanged(before: Config, after: Config) {
    || NamesChanged(before.outputs, after.outputs) || ProjectionChanged(before.outputs, after.outputs, SameTearing)
    || TearingRules(before.windowRules) != TearingRules(after.windowRules)
  }

  ghost predicate ScanoutChanged(before: Config, after: Config) {
    NamesChanged(before.outputs, after.outputs) || ProjectionChanged(before.outputs, after.outputs, SameDirectScanout)
  }

  ghost predicate InventoryChanged(before: Config, after: Config) {
    || NamesChanged(before.outputs, after.outputs) || ProjectionChanged(before.outputs, after.outputs, SameInventory)
    || before.emptyAbove != after.emptyAbove
    || Filtered(before.workspaceRules, SelectsByName, DeclaredPart)
       != Filtered(after.workspaceRules, SelectsByName, DeclaredPart)
  }

  ghost predicate LayoutChanged(before: Config, after: Config) {
    || InventoryChanged(before, after) || ProjectionChanged(before.outputs, after.outputs, SameLayout)
    || before.layout != after.layout || before.workspaceRules != after.workspaceRules
    || before.appearance.TotalBorderWidth() != after.appearance.TotalBorderWidth()
    || before.appearance.tabBar != after.appearance.tabBar
  }

  ghost predicate BlurChanged(before: Config, after: Config) {
    || before.appearance.blur != after.appearance.blur
    || EffectUse.NeedsOptimizedBlur(before) != EffectUse.NeedsOptimizedBlur(after)
  }

  ghost predicate EffectsChanged(before: Config, after: Config) {
    || before.effects != after.effects || before.presentation != after.presentation
    || EffectUse.Roots(before) != EffectUse.Roots(after)
    || (NamesChanged(before.outputs, after.outputs) && (SelectsScreenEffect(before) || SelectsScreenEffect(after)))
    || ProjectionChanged(before.outputs, after.outputs, SameScreenEffect)
    || !EffectUse.AnimateAlike(before.animation, after.animation)
    || (before.windowRules != after.windowRules && (WindowsSelectEffect(before) || WindowsSelectEffect(after)))
  }

  /** The flags, once the costlier comparisons were made. */
  function Summary(before: Config, after: Config, state: bool, tearing: bool, scanout: bool, inventory: bool,
                   layout: bool, blur: bool, effects: bool): Effects {
    Effects(
      state, tearing, scanout, inventory, layout, blur,
      || before.appearance != after.appearance || before.colors != after.colors
      || before.windowRules != after.windowRules || before.animation.enabled != after.animation.enabled
      || before.animation.dimUnfocused != after.animation.dimUnfocused,
      blur || before.layerRules != after.layerRules,
      before.animation != after.animation,
      before.input != after.input || before.hotCorners != after.hotCorners,
      before.overview != after.overview || before.colors != after.colors,
      before.colors != after.colors || before.modKey != after.modKey,
      effects)
  }

  ghost function EffectsBetween(before: Config, after: Config): Effects {
    Summary(before, after, StateChanged(before, after), TearingChanged(before, after), ScanoutChanged(before, after),
            InventoryChanged(before, after), LayoutChanged(before, after), BlurChanged(before, after),
            EffectsChanged(before, after))
  }

  method OutputRuleNamesChanged(before: seq<OutputRule>, after: seq<OutputRule>) returns (changed: bool)
    ensures changed == NamesChanged(before, after)
  {
    changed := |before| != |after| || exists r :: r in before && FindByName(after, r.name).None?;
  }

  method OutputPoliciesChanged(before: Config, after: Config, names: bool)
    returns (state: bool, tearing: bool, scanout: bool)
    requires names == NamesChanged(before.outputs, after.outputs)
    ensures state == StateChanged(before, after) && tearing == TearingChanged(before, after)
    ensures scanout == ScanoutChanged(before, after)
  {
    state := OutputProjectionChanged(before.outputs, after.outputs, SameOutputState);
    tearing := OutputProjectionChanged(before.outputs, after.outputs, SameTearing);
    var sameRules := SameWindowTearingPolicy(before, after);
    scanout := OutputProjectionChanged(before.outputs, after.outputs, SameDirectScanout);
    state, tearing, scanout := names || state, names || tearing || !sameRules, names || scanout;
  }

  method WorkspacesChanged(before: Config, after: Config, names: bool) returns (inventory: bool, layout: bool)
    requires names == NamesChanged(before.outputs, after.outputs)
    ensures inventory == InventoryChanged(before, after) && layout == LayoutChanged(before, after)
  {
    var outputs := OutputProjectionChanged(before.outputs, after.outputs, SameInventory);
    var same := SameDynamicWorkspaceDeclarations(before, after);
    inventory := names || outputs || before.emptyAbove != after.emptyAbove || !same;
    layout := OutputProjectionChanged(before.outputs, after.outputs, SameLayout);
    layout :=
      || inventory || names || layout || before.layout != after.layout || before.workspaceRules != after.workspaceRules
      || before.appearance.TotalBorderWidth() != after.appearance.TotalBorderWidth()
      || before.appearance.tabBar != after.appearance.tabBar;
  }

  method IsBlurChanged(before: Config, after: Config) returns (changed: bool)
    ensures changed == BlurChanged(before, after)
  {
    var needed := EffectUse.OptimizedBlurNeeded(before);
    var needs := EffectUse.OptimizedBlurNeeded(after);
    changed := before.appearance.blur != after.appearance.blur || needed != needs;
  }

  method IsEffectsChanged(before: Config, after: Config, names: bool) returns (changed: bool)
    requires names == NamesChanged(before.outputs, after.outputs)
    ensures changed == EffectsChanged(before, after)
  {
    var rooted := EffectUse.ConfiguredEffectActionRoots(before);
    var roots := EffectUse.ConfiguredEffectActionRoots(after);
    var screens := OutputProjectionChanged(before.outputs, after.outputs, SameScreenEffect);
    var animated := EffectUse.SameAnimationEffects(before.animation, after.animation);
    changed :=
      || before.effects != after.effects || before.presentation != after.presentation || rooted != roots
      || (names && (SelectsScreenEffect(before) || SelectsScreenEffect(after))) || screens || !animated
      || (before.windowRules != after.windowRules && (WindowsSelectEffect(before) || WindowsSelectEffect(after)));
  }

  /** `ConfigEffects::between` */
  method Between(before: Config, after: Config) returns (effects: Effects)
    ensures effects == EffectsBetween(before, after)
  {
    var names := OutputRuleNamesChanged(before.outputs, after.outputs);
    var state, tearing, scanout := OutputPoliciesChanged(before, after, names);
    var inventory, layout := WorkspacesChanged(before, after, names);
    var blur := IsBlurChanged(before, after);
    var used := IsEffectsChanged(before, after, names);
    effects := Summary(before, after, state, tearing, scanout, inventory, layout, blur, used);
  }

  // A section list with the same names names the same outputs

  ghost function NameSet(outputs: seq<OutputRule>): set<string> {
    set r | r in outputs :: Lower(r.name)
  }

  lemma {:induction false} NameSetSize(outputs: seq<OutputRule>)
    requires DistinctNames(outputs)
    ensures |NameSet(outputs)| == |outputs|
  {
    if outputs == [] {
    } else {
      var n := |outputs| - 1;
      NameSetSize(outputs[..n]);
      assert outputs == outputs[..n] + [outputs[n]];
      assert NameSet(outputs) == NameSet(outputs[..n]) + {Lower(outputs[n].name)};
      assert Lower(outputs[n].name) !in NameSet(outputs[..n]);
    }
  }

  lemma SubsetOfSameSize<T>(a: set<T>, b: set<T>)
    requires a <= b && |a| == |b|
    ensures a == b
  {
    if x :| x in b && x !in a {
      assert a <= b - {x};
      SubsetSize(a, b - {x});
    }
  }

  lemma {:induction false} SubsetSize<T>(a: set<T>, b: set<T>)
    requires a <= b
    ensures |a| <= |b|
    decreases a
  {
    if a == {} {
    } else {
      var x :| x in a;
      SubsetSize(a - {x}, b - {x});
    }
  }

  /** With as many sections as before, all of them found again, no section can be new. */
  lemma NoNewNames(before: seq<OutputRule>, after: seq<OutputRule>)
    requires DistinctNames(before) && DistinctNames(after) && !NamesChanged(before, after)
    ensures forall r :: r in after ==> FindByName(before, r.name).Some?
  {
    forall r | r in before ensures Lower(r.name) in NameSet(after) {
      assert FindByName(after, r.name).Some?;
    }
    NameSetSize(before);
    NameSetSize(after);
    SubsetOfSameSize(NameSet(before), NameSet(after));
    forall r | r in after ensures FindByName(before, r.name).Some? {
      assert Lower(r.name) in NameSet(before);
    }
  }

  lemma FoundIsUnique(outputs: seq<OutputRule>, rule: OutputRule, name: string)
    requires DistinctNames(outputs) && rule in outputs && SameName(rule.name, name)
    ensures FindByName(outputs, name) == Some(rule)
  {
    var found := FindByName(outputs, name).value;
    var i :| 0 <= i < |outputs| && outputs[i] == rule;
    var j :| 0 <= j < |outputs| && outputs[j] == found;
  }

  /** The rule that applies to an output after the change is the one with the name that applied before. */
  lemma MatchingRulesCorrespond(before: seq<OutputRule>, after: seq<OutputRule>, identity: OutputIdentity)
    requires DistinctNames(before) && DistinctNames(after) && !NamesChanged(before, after)
    ensures var b, a := MatchingRule(before, identity), MatchingRule(after, identity);
            if b.Some? then a == FindByName(after, b.value.name) && a.Some? else a.None?
  {
    NoNewNames(before, after);
    FirstDescriptorFinds(before, identity);
    FirstDescriptorFinds(after, identity);
    LastConnectorFinds(before, identity);
    LastConnectorFinds(after, identity);
    var b, a := MatchingRule(before, identity), MatchingRule(after, identity);
    if b.Some? {
      assert FindByName(after, b.value.name).Some?;
      var kept := FindByName(after, b.value.name).value;
      MatchIsByName(identity, kept.name, b.value.name);
      if a.Some? {
        BackToBefore(before, after, identity, a.value);
        MatchIsByName(identity, a.value.name, b.value.name);
        FoundIsUnique(after, a.value, b.value.name);
      }
    } else if a.Some? {
      BackToBefore(before, after, identity, a.value);
    }
  }

  lemma BackToBefore(before: seq<OutputRule>, after: seq<OutputRule>, identity: OutputIdentity, rule: OutputRule)
    requires rule in after && forall r :: r in after ==> FindByName(before, r.name).Some?
    ensures exists r :: r in before && MatchName(identity, r.name) == MatchName(identity, rule.name)
  {
    var r := FindByName(before, rule.name).value;
    MatchIsByName(identity, r.name, rule.name);
  }

  /** If no projection changed, the rules that apply to any output agree on it. */
  lemma ProjectionIsStable(before: seq<OutputRule>, after: seq<OutputRule>, identity: OutputIdentity, equal: Equal)
    requires DistinctNames(before) && DistinctNames(after)
    requires !NamesChanged(before, after) && !ProjectionChanged(before, after, equal)
    ensures var b, a := MatchingRule(before, identity), MatchingRule(after, identity);
            b.Some? == a.Some? && (b.Some? ==> equal(b, a))
  {
    MatchingRulesCorrespond(before, after, identity);
    FirstDescriptorFinds(before, identity);
    LastConnectorFinds(before, identity);
  }

  // What an unset flag promises

  /** The settings an output is driven with. */
  datatype OutputSettings = OutputSettings(
    enabled: bool, mode: Option<OutputMode>, position: Option<(int, int)>, scale: Option<real>, transform: Option<int>,
    vrr: VrrMode, hdr: HdrMode, sdrWhite: real, bitDepth: int)

  function SettingsOf(rule: OutputRule): OutputSettings {
    OutputSettings(rule.enabled, rule.mode, rule.position, rule.scale, rule.transform, rule.vrr, rule.hdr,
                   rule.sdrWhite,
                   rule.bitDepth)
  }

  /** Without a rule an output is enabled when its display allows it. */
  ghost function DrivenWith(config: Config, identity: OutputIdentity, canAutoEnable: bool): OutputSettings {
    var rule := MatchingRule(config.outputs, identity);
    if rule.Some? then SettingsOf(rule.value)
    else OutputSettings(canAutoEnable, None, None, None, None, VrrDisabled, HdrOff, 203.0, 8)
  }

  ghost predicate ScansOutDirectly(config: Config, identity: OutputIdentity) {
    var rule := MatchingRule(config.outputs, identity);
    rule.None? || rule.value.directScanout
  }

  /** `outputState` and `directScanoutPolicy`: every output keeps its rule or goes on without one, and the rules agree
      on every setting the output is driven with. */
  lemma OutputStateIsStable(before: Config, after: Config, identity: OutputIdentity)
    requires DistinctNames(before.outputs) && DistinctNames(after.outputs)
    ensures var b, a := MatchingRule(before.outputs, identity), MatchingRule(after.outputs, identity);
            !EffectsBetween(before, after).outputState ==>
              b.Some? == a.Some? && (b.Some? ==> var l, r := b.value, a.value;
                && l.enabled == r.enabled && l.mode == r.mode && l.position == r.position && l.scale == r.scale
                && l.transform == r.transform && l.vrr == r.vrr && l.hdr == r.hdr && l.sdrWhite == r.sdrWhite
                && l.bitDepth == r.bitDepth)
    ensures var b, a := MatchingRule(before.outputs, identity), MatchingRule(after.outputs, identity);
            !EffectsBetween(before, after).directScanoutPolicy ==>
              b.Some? == a.Some? && (b.Some? ==> b.value.directScanout == a.value.directScanout)
  {
    if !EffectsBetween(before, after).outputState {
      ProjectionIsStable(before.outputs, after.outputs, identity, SameOutputState);
    }
    if !EffectsBetween(before, after).directScanoutPolicy {
      ProjectionIsStable(before.outputs, after.outputs, identity, SameDirectScanout);
    }
  }

  /** Whether a frame may tear: the output has to allow it, and a window rule overrides the client's hint. */
  ghost function TearingEnabled(config: Config, search: Search, identity: OutputIdentity, w: Window,
                                asyncHint: bool): bool {
    var rule := MatchingRule(config.outputs, identity);
    && rule.Some? && rule.value.allowTearing
    && Resolved(search, config.windowRules, w).behaviour.allowTearing.Or(asyncHint)
  }

  /** `tearingPolicy`: no decision about tearing changes, on any output, for any window in any state. */
  lemma TearingIsStable(before: Config, after: Config, search: Search, identity: OutputIdentity, w: Window,
                        asyncHint: bool)
    requires DistinctNames(before.outputs) && DistinctNames(after.outputs)
    requires !EffectsBetween(before, after).tearingPolicy
    ensures TearingEnabled(before, search, identity, w, asyncHint)
        == TearingEnabled(after, search, identity, w, asyncHint)
  {
    ProjectionIsStable(before.outputs, after.outputs, identity, SameTearing);
    TearingOverrideDependsOn(search, before.windowRules, w);
    TearingOverrideDependsOn(search, after.windowRules, w);
  }

  /** What a set of workspaces looks like without the layouts. */
  function Labels(workspaces: seq<ResolvedWorkspace>): (labels: seq<(string, bool)>)
    ensures |labels| == |workspaces|
    ensures forall i :: 0 <= i < |labels| ==> labels[i] == (workspaces[i].name, workspaces[i].named)
  {
    seq(|workspaces|, i requires 0 <= i < |workspaces| => (workspaces[i].name, workspaces[i].named))
  }

  /** A rule selects by name or by index, not by both, as reading the rules guarantees. */
  ghost predicate NamesHaveNoIndex(rules: seq<WorkspaceRule>) {
    forall r :: r in rules && r.name != "" ==> r.index.None?
  }

  lemma {:induction false} DeclarationsDependOn(rules: seq<WorkspaceRule>, identity: OutputIdentity)
    requires NamesHaveNoIndex(rules)
    ensures DeclaredNames(rules, identity)
         == Filtered(Filtered(rules, SelectsByName, DeclaredPart), DeclaresFor(identity), Fst)
  {
    if rules != [] {
      var n := |rules| - 1;
      DeclarationsDependOn(rules[..n], identity);
      var reduced := Filtered(rules[..n], SelectsByName, DeclaredPart);
      var keep, project := DeclaresFor(identity), Fst;
      if rules[n].index.None? {
        var longer := reduced + [DeclaredPart(rules[n])];
        FilteredSnoc(longer, |reduced|, keep, project);
        assert longer[..|reduced|] == reduced && longer[..|reduced| + 1] == longer;
        assert Filtered(rules, SelectsByName, DeclaredPart) == longer;
        LowerMatchesAlike(identity, rules[n].output);
        assert keep(DeclaredPart(rules[n])) == Declares(rules[n], identity);
      } else {
        assert Filtered(rules, SelectsByName, DeclaredPart) == reduced;
        assert rules[n] in rules && !Declares(rules[n], identity);
      }
      assert DeclaredNames(rules, identity)
          == DeclaredNames(rules[..n], identity) + if Declares(rules[n], identity) then [rules[n].name] else [];
    }
  }

  function Fst(d: (string, string)): string {
    d.0
  }

  function DeclaresFor(identity: OutputIdentity): ((string, string)) -> bool {
    (d: (string, string)) => d.0 != "" && (d.1 == "" || MatchName(identity, d.1) != NoMatch)
  }

  lemma LowerMatchesAlike(identity: OutputIdentity, name: string)
    ensures MatchName(identity, Lower(name)) == MatchName(identity, name)
    ensures Lower(name) == "" <==> name == ""
  {
    assert |Lower(name)| == |name|;
    assert Lower(Lower(name)) == Lower(name);
    MatchIsByName(identity, Lower(name), name);
  }

  /** Everything but the layouts follows from the inventory, the minimum, the sentinels and the declared names. */
  lemma SameShape(before: Config, after: Config, identity: OutputIdentity)
    requires InventoryFor(before, identity) == InventoryFor(after, identity)
    requires Minimum(MatchingRule(before.outputs, identity)) == Minimum(MatchingRule(after.outputs, identity))
    requires before.emptyAbove == after.emptyAbove
    requires DynamicNames(before.workspaceRules, identity) == DynamicNames(after.workspaceRules, identity)
    ensures var b, a := WorkspacesFor(before, identity), WorkspacesFor(after, identity);
            b.dynamic == a.dynamic && b.omittedNamed == a.omittedNamed && Labels(b.workspaces) == Labels(a.workspaces)
  {
    var b, a := WorkspacesFor(before, identity), WorkspacesFor(after, identity);
    LabelsAre(before, identity);
    LabelsAre(after, identity);
  }

  function LabelAt(inventory: Option<Inventory>, kept: seq<string>, above: nat, index: nat): (string, bool) {
    match inventory
    case Some(Names(names)) => if index < |names| then (names[index], true) else ("", false)
    case Some(Count(_)) => (Decimal(index + 1), false)
    case None => if above <= index < above + |kept| then (kept[index - above], true) else (Decimal(index + 1), false)
  }

  lemma LabelsAre(config: Config, identity: OutputIdentity)
    ensures var workspaces := WorkspacesFor(config, identity).workspaces;
            forall i :: 0 <= i < |workspaces| ==>
              Labels(workspaces)[i] == LabelAt(InventoryFor(config, identity), Kept(config, identity),
                                               if config.emptyAbove then 1 else 0, i)
  {
  }

  /** The layout of a workspace depends on its label and position only through the layout resolution. */
  lemma LayoutsAre(config: Config, identity: OutputIdentity)
    ensures var workspaces := WorkspacesFor(config, identity).workspaces;
            forall i :: 0 <= i < |workspaces| ==>
              var w := workspaces[i];
              w.layout == LayoutFor(config, identity, if w.named then Some(w.name) else None, i)
  {
  }

  /** `workspaceInventory`: every output keeps the same workspaces, up to their layouts. */
  lemma InventoryIsStable(before: Config, after: Config, identity: OutputIdentity)
    requires DistinctNames(before.outputs) && DistinctNames(after.outputs)
    requires NamesHaveNoIndex(before.workspaceRules) && NamesHaveNoIndex(after.workspaceRules)
    requires !EffectsBetween(before, after).workspaceInventory
    ensures var b, a := WorkspacesFor(before, identity), WorkspacesFor(after, identity);
            b.dynamic == a.dynamic && b.omittedNamed == a.omittedNamed && Labels(b.workspaces) == Labels(a.workspaces)
  {
    ProjectionIsStable(before.outputs, after.outputs, identity, SameInventory);
    DeclarationsDependOn(before.workspaceRules, identity);
    DeclarationsDependOn(after.workspaceRules, identity);
    SameShape(before, after, identity);
  }

  lemma LayoutForIsStable(before: Config, after: Config, identity: OutputIdentity, name: Option<string>, index: nat)
    requires DistinctNames(before.outputs) && DistinctNames(after.outputs)
    requires !EffectsBetween(before, after).workspaceLayout
    ensures LayoutFor(before, identity, name, index) == LayoutFor(after, identity, name, index)
  {
    ProjectionIsStable(before.outputs, after.outputs, identity, SameLayout);
    SameLayers(before, after, identity, name, index);
  }

  lemma SameLayers(before: Config, after: Config, identity: OutputIdentity, name: Option<string>, index: nat)
    requires before.layout == after.layout && before.appearance.tabBar == after.appearance.tabBar
    requires before.appearance.TotalBorderWidth() == after.appearance.TotalBorderWidth()
    requires before.workspaceRules == after.workspaceRules
    requires var b, a := MatchingRule(before.outputs, identity), MatchingRule(after.outputs, identity);
             b.Some? == a.Some? && SameLayout(b, a)
    ensures LayoutFor(before, identity, name, index) == LayoutFor(after, identity, name, index)
  {
    assert GlobalLayout(before) == GlobalLayout(after);
    var b, a := MatchingRule(before.outputs, identity), MatchingRule(after.outputs, identity);
    assert OutputLayout(GlobalLayout(before), b) == OutputLayout(GlobalLayout(after), a);
  }

  /** `workspaceLayout`: every output resolves to exactly the same workspaces, layouts included. */
  lemma LayoutIsStable(before: Config, after: Config, identity: OutputIdentity)
    requires DistinctNames(before.outputs) && DistinctNames(after.outputs)
    requires !EffectsBetween(before, after).workspaceLayout
    ensures WorkspacesFor(before, identity) == WorkspacesFor(after, identity)
  {
    ProjectionIsStable(before.outputs, after.outputs, identity, SameInventory);
    SameShape(before, after, identity);
    LayoutsAre(before, identity);
    LayoutsAre(after, identity);
    var b, a := WorkspacesFor(before, identity).workspaces, WorkspacesFor(after, identity).workspaces;
    forall i | 0 <= i < |b| ensures b[i] == a[i] {
      assert Labels(b)[i] == Labels(a)[i];
      LayoutForIsStable(before, after, identity, if b[i].named then Some(b[i].name) else None, i);
    }
    assert b == a;
  }
}
