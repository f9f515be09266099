/** What a reload may skip, between any two accepted documents and over every run of the store. */
module Reloads {
  import opened Change
  import opened Config
  import opened EffectStability
  import opened EffectUse
  import opened OutputNames
  import opened OutputSections
  import opened Resolve
  import opened Sequences
  import opened Workspaces

  import ConfigStore
  import EffectReferences
  import LayerRules
  import WindowRules
  import WorkspaceRules

  // Accepted documents

  /** A section that is read without an error. */
  ghost predicate Readable(section: OutputSection) {
    && !MinimumMisplaced(section) && ReadableInventory(section.rule.workspaces)
    && 1 <= section.rule.minWorkspaces <= MAX_WORKSPACES
  }

  function Definitions(e: EffectSettings): EffectReferences.Effects {
    EffectReferences.Effects(e.presets, e.pools, map[])
  }

  /** The document whose sections give a configuration its outputs. */
  ghost predicate Writes(sections: seq<OutputSection>, config: Config) {
    && (forall section :: section in sections ==> Readable(section))
    && config.outputs == Map(Cleaned(Definitions(config.effects)), InForce(Map(RuleOf, sections)))
  }

  /** A configuration some accepted document describes. */
  ghost predicate Described(config: Config) {
    && WorkspaceRules.Accepted(config.outputs, config.workspaceRules, Capacity(config))
    && exists sections :: Writes(sections, config)
  }

  // Reading a document

  /** What reading the sections of a document and its workspace rules, and validating the references of the sections
      among others, makes of a configuration; workspace rules are read before the references are validated. */
  ghost predicate Reads(sections: seq<OutputSection>, earlier: seq<Recorded>, later: seq<Recorded>,
                        e: EffectReferences.Effects, config: Config)
  {
    var outputs := InForce(Map(RuleOf, sections));
    && (forall section :: section in sections ==> Readable(section))
    && WorkspaceRules.Accepted(outputs, config.workspaceRules, Capacity(config))
    && NoneOfOutputs(earlier) && NoneOfOutputs(later)
    && EffectReferences.SameDefinitions(e, Definitions(config.effects))
    && config.outputs
       == OutputSections.Validated(e, outputs, Recording(earlier, Map(RuleOf, sections)) + later)
  }

  lemma CleanedAlike(a: EffectReferences.Effects, b: EffectReferences.Effects, outputs: seq<OutputRule>)
    requires EffectReferences.SameDefinitions(a, b)
    ensures Map(Cleaned(a), outputs) == Map(Cleaned(b), outputs)
  {
    forall i | 0 <= i < |outputs| ensures Cleaned(a)(outputs[i]) == Cleaned(b)(outputs[i]) {
      if outputs[i].screenEffect.Some? {
        EffectReferences.SameRejections(a, b, ScreenReference(outputs[i].name, outputs[i].screenEffect.value));
      }
    }
  }

  lemma {:induction false} FoundCleaned(e: EffectReferences.Effects, outputs: seq<OutputRule>, name: string)
    ensures var found, cleaned := FindByName(outputs, name), FindByName(Map(Cleaned(e), outputs), name);
            found.Some? == cleaned.Some? && (found.Some? ==> cleaned.value == Cleaned(e)(found.value))
  {
    if outputs == [] {
    } else {
      FoundCleaned(e, outputs[1..], name);
      assert Map(Cleaned(e), outputs)[1..] == Map(Cleaned(e), outputs[1..]);
    }
  }

  lemma InventoryIgnoresEffects(e: EffectReferences.Effects, outputs: seq<OutputRule>, name: string)
    ensures WorkspaceRules.InventoryNamed(Map(Cleaned(e), outputs), name)
         == WorkspaceRules.InventoryNamed(outputs, name)
  {
    FoundCleaned(e, outputs, name);
  }

  lemma TargetIgnoresEffects(e: EffectReferences.Effects, outputs: seq<OutputRule>, rule: WorkspaceRule)
    requires WorkspaceRules.TargetExists(outputs, rule)
    ensures WorkspaceRules.TargetExists(Map(Cleaned(e), outputs), rule)
  {
    if rule.output != "" {
      InventoryIgnoresEffects(e, outputs, rule.output);
    } else if !WorkspaceRules.DynamicHasMember(rule) {
      var o :| o in outputs && WorkspaceRules.SectionHasMember(outputs, o.name, rule);
      var i :| 0 <= i < |outputs| && outputs[i] == o;
      InventoryIgnoresEffects(e, outputs, o.name);
      var cleaned := Map(Cleaned(e), outputs)[i];
      assert cleaned.name == o.name && WorkspaceRules.SectionHasMember(Map(Cleaned(e), outputs), cleaned.name, rule);
      assert cleaned in Map(Cleaned(e), outputs);
    }
  }

  /** Workspace rules are accepted whatever screen effects the sections name. */
  lemma AcceptedIgnoresEffects(
    e: EffectReferences.Effects, outputs: seq<OutputRule>, rules: seq<WorkspaceRule>, capacity: nat)
    requires WorkspaceRules.Accepted(outputs, rules, capacity)
    ensures WorkspaceRules.Accepted(Map(Cleaned(e), outputs), rules, capacity)
  {
    forall i | 0 <= i < |rules|
      ensures WorkspaceRules.OneSelector(rules[i]) && WorkspaceRules.TargetExists(Map(Cleaned(e), outputs), rules[i])
    {
      TargetIgnoresEffects(e, outputs, rules[i]);
    }
    forall i | 0 <= i < |rules|
      ensures WorkspaceRules.Fits(Map(Cleaned(e), outputs), rules, rules[i], capacity)
    {
      InventoryIgnoresEffects(e, outputs, rules[i].output);
    }
  }

  /** Reading a document without an error describes a configuration. */
  lemma ReadIsDescribed(sections: seq<OutputSection>, earlier: seq<Recorded>, later: seq<Recorded>,
                        e: EffectReferences.Effects, config: Config)
    requires Reads(sections, earlier, later, e, config)
    ensures Described(config)
  {
    var rules, definitions := Map(RuleOf, sections), Definitions(config.effects);
    var outputs := InForce(rules);
    SectionsKeepTheirEffect(e, earlier, rules);
    ValidatedConcat(e, outputs, Recording(earlier, rules), later);
    OthersLeaveOutputs(e, Map(Cleaned(e), outputs), later);
    CleanedAlike(e, definitions, outputs);
    AcceptedIgnoresEffects(definitions, outputs, config.workspaceRules, Capacity(config));
    assert Writes(sections, config);
  }

  lemma {:induction false} InForceAreWritten(sections: seq<OutputRule>)
    ensures forall rule :: rule in InForce(sections) ==> rule in sections
  {
    if sections == [] {
    } else {
      var n := |sections| - 1;
      assert sections == sections[..n] + [sections[n]];
      InForceAreWritten(sections[..n]);
      OthersHold(InForce(sections[..n]), sections[n].name);
    }
  }

  lemma DescribedIsWellFormed(config: Config)
    requires Described(config)
    ensures DistinctNames(config.outputs) && NamesHaveNoIndex(config.workspaceRules)
    ensures forall rule :: rule in config.outputs ==>
              ReadableInventory(rule.workspaces) && 1 <= rule.minWorkspaces <= MAX_WORKSPACES
  {
    var sections :| Writes(sections, config);
    CleanedAreDistinct(config, sections);
    InForceAreWritten(Map(RuleOf, sections));
    forall rule | rule in config.outputs
      ensures ReadableInventory(rule.workspaces) && 1 <= rule.minWorkspaces <= MAX_WORKSPACES
    {
      CleanedIsReadable(config, sections, rule);
    }
  }

  lemma CleanedAreDistinct(config: Config, sections: seq<OutputSection>)
    requires Writes(sections, config)
    ensures DistinctNames(config.outputs)
  {
    InForceIsDistinct(Map(RuleOf, sections));
  }

  lemma CleanedIsReadable(config: Config, sections: seq<OutputSection>, rule: OutputRule)
    requires Writes(sections, config) && rule in config.outputs
    requires forall r :: r in InForce(Map(RuleOf, sections)) ==> r in Map(RuleOf, sections)
    ensures ReadableInventory(rule.workspaces) && 1 <= rule.minWorkspaces <= MAX_WORKSPACES
  {
    var rules := InForce(Map(RuleOf, sections));
    var i :| 0 <= i < |config.outputs| && config.outputs[i] == rule;
    assert rules[i] in Map(RuleOf, sections);
    var k :| 0 <= k < |sections| && RuleOf(sections[k]) == rules[i];
    assert Readable(sections[k]);
  }

  lemma RuleIsReadable(config: Config, identity: OutputIdentity)
    requires Described(config) && MatchingRule(config.outputs, identity).Some?
    ensures var rule := MatchingRule(config.outputs, identity).value;
            ReadableInventory(rule.workspaces) && 1 <= rule.minWorkspaces <= MAX_WORKSPACES
  {
    DescribedIsWellFormed(config);
    FirstDescriptorFinds(config.outputs, identity);
    LastConnectorFinds(config.outputs, identity);
  }

  /** No output has more workspaces than there may be. */
  lemma WorkspacesStayWithinTheLimit(config: Config, identity: OutputIdentity)
    requires Described(config)
    ensures 1 <= |WorkspacesFor(config, identity).workspaces| <= MAX_WORKSPACES
  {
    if MatchingRule(config.outputs, identity).Some? {
      RuleIsReadable(config, identity);
    }
    if InventoryFor(config, identity).None? {
      DynamicShape(config, identity);
    }
  }

  /** A session without outputs or workspace rules of its own is described, as the defaults are. */
  lemma EmptyIsDescribed(config: Config)
    requires config.outputs == [] && config.workspaceRules == []
    ensures Described(config)
  {
    var sections: seq<OutputSection> := [];
    assert Writes(sections, config);
  }

  // Between two accepted documents

  /** What decisions depend on besides the configuration: an output, a window and its client's hint, a layer surface,
      what patterns match, and the effects selected at run time. */
  datatype Situation = Situation(
    identity: OutputIdentity, search: WindowRules.Search, window: WindowRules.Window, asyncHint: bool,
    surface: LayerRules.LayerSurface, runtime: seq<string>)

  ghost predicate SkipsOutputs(effects: Effects, before: Config, after: Config, s: Situation) {
    && (!effects.outputState ==>
          forall canAutoEnable ::
            DrivenWith(before, s.identity, canAutoEnable) == DrivenWith(after, s.identity, canAutoEnable))
    && (!effects.directScanoutPolicy ==>
          (ScansOutDirectly(before, s.identity) <==> ScansOutDirectly(after, s.identity)))
    && (!effects.tearingPolicy ==>
          TearingEnabled(before, s.search, s.identity, s.window, s.asyncHint)
          == TearingEnabled(after, s.search, s.identity, s.window, s.asyncHint))
  }

  ghost predicate SkipsWorkspaces(effects: Effects, before: Config, after: Config, s: Situation) {
    && (!effects.workspaceLayout ==> WorkspacesFor(before, s.identity) == WorkspacesFor(after, s.identity))
    && (!effects.workspaceInventory ==>
          Labels(WorkspacesFor(before, s.identity).workspaces) == Labels(WorkspacesFor(after, s.identity).workspaces))
  }

  ghost predicate SkipsEffects(effects: Effects, before: Config, after: Config, s: Situation) {
    !effects.effects ==>
      && ScreenSelector(before, s.identity) == ScreenSelector(after, s.identity)
      && WindowSelectors(before, s.search, s.window) == WindowSelectors(after, s.search, s.window)
      && Referenced(before, s.runtime) == Referenced(after, s.runtime)
  }

  /** How unfocused windows are dimmed, and whether anything is animated. */
  function DimsUnfocused(config: Config): (EventAnimation, bool) {
    (config.animation.dimUnfocused, config.animation.enabled)
  }

  ghost predicate SkipsSurfaces(effects: Effects, before: Config, after: Config, s: Situation) {
    && (!effects.sceneBlur ==>
          LayerRules.KeepsCache(before) == LayerRules.KeepsCache(after)
          && before.appearance.blur == after.appearance.blur)
    && (!effects.layerEffects ==>
          LayerRules.LayerBlurs(before, s.search, s.surface) == LayerRules.LayerBlurs(after, s.search, s.surface))
    && (!effects.viewChrome ==>
          && WindowRules.Resolved(s.search, before.windowRules, s.window)
             == WindowRules.Resolved(s.search, after.windowRules, s.window)
          && LayerRules.WindowBlurs(before, s.search, s.window) == LayerRules.WindowBlurs(after, s.search, s.window)
          && before.appearance == after.appearance && before.colors == after.colors
          && DimsUnfocused(before) == DimsUnfocused(after))
  }

  /** The flags that are set exactly when the parts they stand for compare as different. */
  ghost predicate SkipsSameParts(effects: Effects, before: Config, after: Config) {
    && (!effects.animation ==> before.animation == after.animation)
    && (!effects.input ==> before.input == after.input && before.hotCorners == after.hotCorners)
    && (!effects.overviewPresentation ==> before.overview == after.overview && before.colors == after.colors)
    && (!effects.internalUi ==> before.modKey == after.modKey && before.colors == after.colors)
  }

  /** What an unset flag lets the program skip would come out as it is. */
  ghost predicate SkipsSafely(effects: Effects, before: Config, after: Config, s: Situation) {
    && SkipsOutputs(effects, before, after, s) && SkipsWorkspaces(effects, before, after, s)
    && SkipsEffects(effects, before, after, s) && SkipsSurfaces(effects, before, after, s)
    && SkipsSameParts(effects, before, after)
  }

  lemma OutputsAreSkipped(before: Config, after: Config, s: Situation)
    requires DistinctNames(before.outputs) && DistinctNames(after.outputs)
    ensures SkipsOutputs(EffectsBetween(before, after), before, after, s)
  {
    OutputStateIsStable(before, after, s.identity);
    if !EffectsBetween(before, after).tearingPolicy {
      TearingIsStable(before, after, s.search, s.identity, s.window, s.asyncHint);
    }
  }

  lemma WorkspacesAreSkipped(before: Config, after: Config, s: Situation)
    requires DistinctNames(before.outputs) && DistinctNames(after.outputs)
    requires NamesHaveNoIndex(before.workspaceRules) && NamesHaveNoIndex(after.workspaceRules)
    ensures SkipsWorkspaces(EffectsBetween(before, after), before, after, s)
  {
    if !EffectsBetween(before, after).workspaceLayout {
      LayoutIsStable(before, after, s.identity);
    }
    if !EffectsBetween(before, after).workspaceInventory {
      InventoryIsStable(before, after, s.identity);
    }
  }

  lemma EffectsAreSkipped(before: Config, after: Config, s: Situation)
    requires DistinctNames(before.outputs) && DistinctNames(after.outputs)
    ensures SkipsEffects(EffectsBetween(before, after), before, after, s)
  {
    if !EffectsBetween(before, after).effects {
      ScreenEffectIsStable(before, after, s.identity);
      WindowEffectsAreStable(before, after, s.search, s.window);
      ReferencedIsStable(before, after, s.runtime);
    }
  }

  /** Between any two accepted documents, whatever an unset flag lets a reload skip would come out the same, on every
      output and for every window. */
  lemma ReloadSkipsOnlyWhatIsUnchanged(before: Config, after: Config, s: Situation)
    requires Described(before) && Described(after)
    ensures SkipsSafely(EffectsBetween(before, after), before, after, s)
  {
    DescribedIsWellFormed(before);
    DescribedIsWellFormed(after);
    OutputsAreSkipped(before, after, s);
    WorkspacesAreSkipped(before, after, s);
    EffectsAreSkipped(before, after, s);
  }

  /** A reload that leaves the scene's blur alone need not build a cache: whatever samples one afterwards, under any
      rule that came or went, finds the one the outputs already keep. */
  lemma SampledCacheIsAlreadyKept(before: Config, after: Config, s: Situation)
    requires !EffectsBetween(before, after).sceneBlur
    ensures var (layer, layerPopup) := LayerRules.LayerBlurs(after, s.search, s.surface);
            var (window, windowPopup) := LayerRules.WindowBlurs(after, s.search, s.window);
            LayerRules.SamplesCache(layer) || LayerRules.SamplesCache(layerPopup)
            || LayerRules.SamplesCache(window) || LayerRules.SamplesCache(windowPopup) ==>
              LayerRules.KeepsCache(before)
  {
    LayerRules.SampledCacheIsKept(after, s.search, s.window, s.surface);
  }

  // Over every run

  /** A configuration as the readers above make it of some document. */
  ghost predicate IsRead(config: Config) {
    exists sections, earlier, later, e :: Reads(sections, earlier, later, e, config)
  }

  /** What an operation accepts was read that way. */
  ghost predicate WellRead(op: ConfigStore.Operation) {
    forall root :: var outcome := ConfigStore.OutcomeOf(op.world, root);
                   outcome.Accepted? ==> IsRead(outcome.config)
  }

  ghost predicate HoldsDescribed(s: ConfigStore.Store) {
    s.generation != 0 ==> Described(s.config)
  }

  lemma StepKeepsDescribed(defaults: Config, s: ConfigStore.Store, op: ConfigStore.Operation)
    requires Described(defaults) && HoldsDescribed(s) && WellRead(op)
    ensures HoldsDescribed(ConfigStore.Step(defaults, s, op))
    ensures ConfigStore.Succeeds(s, op) ==> Described(ConfigStore.Step(defaults, s, op).config)
  {
    if ConfigStore.Succeeds(s, op) {
      ConfigStore.StepPutsInForce(defaults, s, op);
      var next := ConfigStore.Step(defaults, s, op).config;
      if next != defaults {
        var root :| ConfigStore.OutcomeOf(op.world, root) == ConfigStore.Accepted(next);
        assert IsRead(next);
        var sections, earlier, later, e :| Reads(sections, earlier, later, e, next);
        ReadIsDescribed(sections, earlier, later, e, next);
      }
    } else {
      ConfigStore.FailureKeepsWhatIsInForce(defaults, s, op);
    }
  }

  /** From the first success on, what is in force is described by a document. */
  lemma {:induction false} AlwaysDescribed(
    defaults: Config, s: ConfigStore.Store, ops: seq<ConfigStore.Operation>)
    requires Described(defaults) && HoldsDescribed(s) && forall op :: op in ops ==> WellRead(op)
    ensures HoldsDescribed(ConfigStore.Run(defaults, s, ops))
  {
    if ops == [] {
    } else {
      var n := |ops| - 1;
      AlwaysDescribed(defaults, s, ops[..n]);
      StepKeepsDescribed(defaults, ConfigStore.Run(defaults, s, ops[..n]), ops[n]);
    }
  }

  /** Whatever was loaded, replaced or reloaded before, the effects a successful operation reports leave nothing out:
      what an unset flag stands for is the same under the configuration in force before and the one in force after. */
  lemma EveryCommitSkipsSafely(defaults: Config, s: ConfigStore.Store, ops: seq<ConfigStore.Operation>,
                               op: ConfigStore.Operation, situation: Situation)
    requires Described(defaults) && HoldsDescribed(s) && WellRead(op) && forall o :: o in ops ==> WellRead(o)
    requires ConfigStore.Succeeds(ConfigStore.Run(defaults, s, ops), op)
    ensures var before := ConfigStore.Run(defaults, s, ops);
            var after := ConfigStore.Step(defaults, before, op).config;
            SkipsSafely(ConfigStore.Recompute(before, after), before.config, after, situation)
  {
    var before := ConfigStore.Run(defaults, s, ops);
    AlwaysDescribed(defaults, s, ops);
    StepKeepsDescribed(defaults, before, op);
    if before.generation != 0 {
      ReloadSkipsOnlyWhatIsUnchanged(before.config, ConfigStore.Step(defaults, before, op).config, situation);
    }
  }
}
