/** Resolution of a configuration for one output or one window. */
module Resolve {
  import opened Config
  import opened Options
  import opened OutputNames
  import opened Sequences

  // The output rule that applies to an output

  ghost function FirstDescriptor(outputs: seq<OutputRule>, identity: OutputIdentity): Option<OutputRule> {
    if outputs == [] then None
    else if MatchName(identity, outputs[0].name) == Descriptor then Some(outputs[0])
    else FirstDescriptor(outputs[1..], identity)
  }

  ghost function LastConnector(outputs: seq<OutputRule>, identity: OutputIdentity): Option<OutputRule> {
    if outputs == [] then None
    else if MatchName(identity, outputs[|outputs| - 1].name) == Connector then Some(outputs[|outputs| - 1])
    else LastConnector(outputs[..|outputs| - 1], identity)
  }

  /** A rule naming the panel wins over rules naming the port. */
  ghost function MatchingRule(outputs: seq<OutputRule>, identity: OutputIdentity): Option<OutputRule> {
    var descriptor := FirstDescriptor(outputs, identity);
    if descriptor.Some? then descriptor else LastConnector(outputs, identity)
  }

  method FindOutputRule(outputs: seq<OutputRule>, identity: OutputIdentity) returns (rule: Option<OutputRule>)
    ensures rule == MatchingRule(outputs, identity)
  {
    rule := None;
    for i := 0 to |outputs|
      invariant rule == LastConnector(outputs[..i], identity)
      invariant FirstDescriptor(outputs, identity) == FirstDescriptor(outputs[i..], identity)
    {
      assert outputs[..i + 1][..i] == outputs[..i];
      match MatchName(identity, outputs[i].name)
      case Descriptor => return Some(outputs[i]);
      case Connector => rule := Some(outputs[i]);
      case NoMatch =>
    }
    assert outputs[..|outputs|] == outputs;
  }

  lemma {:induction false} FirstDescriptorFinds(outputs: seq<OutputRule>, identity: OutputIdentity)
    ensures var found := FirstDescriptor(outputs, identity);
            if found.Some? then found.value in outputs && MatchName(identity, found.value.name) == Descriptor
            else forall r :: r in outputs ==> MatchName(identity, r.name) != Descriptor
  {
    if outputs == [] {
    } else {
      FirstDescriptorFinds(outputs[1..], identity);
      assert outputs == [outputs[0]] + outputs[1..];
    }
  }

  lemma {:induction false} LastConnectorFinds(outputs: seq<OutputRule>, identity: OutputIdentity)
    ensures var found := LastConnector(outputs, identity);
            if found.Some? then found.value in outputs && MatchName(identity, found.value.name) == Connector
            else forall r :: r in outputs ==> MatchName(identity, r.name) != Connector
  {
    if outputs == [] {
    } else {
      var n := |outputs| - 1;
      LastConnectorFinds(outputs[..n], identity);
      assert outputs == outputs[..n] + [outputs[n]];
    }
  }

  lemma {:induction false} FirstDescriptorIs(outputs: seq<OutputRule>, identity: OutputIdentity, i: nat)
    requires i < |outputs| && MatchName(identity, outputs[i].name) == Descriptor
    requires forall j :: 0 <= j < i ==> MatchName(identity, outputs[j].name) != Descriptor
    ensures FirstDescriptor(outputs, identity) == Some(outputs[i])
  {
    if i == 0 {
    } else {
      FirstDescriptorIs(outputs[1..], identity, i - 1);
    }
  }

  lemma {:induction false} LastConnectorIs(outputs: seq<OutputRule>, identity: OutputIdentity, i: nat)
    requires i < |outputs| && MatchName(identity, outputs[i].name) == Connector
    requires forall j :: i < j < |outputs| ==> MatchName(identity, outputs[j].name) != Connector
    ensures LastConnector(outputs, identity) == Some(outputs[i])
  {
    var n := |outputs| - 1;
    if i == n {
    } else {
      LastConnectorIs(outputs[..n], identity, i);
    }
  }

  /** The section that applies to an output is the first that names its panel; without one, the last that names its
      port; and none when no section names it. */
  ghost predicate AppliesFirst(outputs: seq<OutputRule>, identity: OutputIdentity, i: int) {
    && 0 <= i < |outputs|
    && match MatchName(identity, outputs[i].name)
       case Descriptor => forall j :: 0 <= j < i ==> MatchName(identity, outputs[j].name) != Descriptor
       case Connector =>
         && (forall r :: r in outputs ==> MatchName(identity, r.name) != Descriptor)
         && (forall j :: i < j < |outputs| ==> MatchName(identity, outputs[j].name) != Connector)
       case NoMatch => false
  }

  lemma MatchingRuleExactly(outputs: seq<OutputRule>, identity: OutputIdentity)
    ensures forall i :: AppliesFirst(outputs, identity, i) ==> MatchingRule(outputs, identity) == Some(outputs[i])
    ensures MatchingRule(outputs, identity).None? <==>
              forall r :: r in outputs ==> MatchName(identity, r.name) == NoMatch
  {
    FirstDescriptorFinds(outputs, identity);
    LastConnectorFinds(outputs, identity);
    forall i | AppliesFirst(outputs, identity, i) ensures MatchingRule(outputs, identity) == Some(outputs[i]) {
      if MatchName(identity, outputs[i].name) == Descriptor {
        FirstDescriptorIs(outputs, identity, i);
      } else {
        LastConnectorIs(outputs, identity, i);
      }
    }
  }

  /** The first rule whose section name is this name. */
  function FindByName(outputs: seq<OutputRule>, name: string): (r: Option<OutputRule>)
    ensures r.Some? ==> r.value in outputs && SameName(r.value.name, name)
    ensures r.None? ==> forall o :: o in outputs ==> !SameName(o.name, name)
  {
    if outputs == [] then None
    else if SameName(outputs[0].name, name) then Some(outputs[0])
    else
      assert outputs == [outputs[0]] + outputs[1..];
      FindByName(outputs[1..], name)
  }

  /** No two sections name the same output, which reading a configuration guarantees. */
  ghost predicate DistinctNames(outputs: seq<OutputRule>) {
    forall i, j :: 0 <= i < j < |outputs| ==> !SameName(outputs[i].name, outputs[j].name)
  }

  // Workspace layouts

  datatype ResolvedScrolling = ResolvedScrolling(
    defaultExtentFraction: Option<real>, centerUnderfullStrip: bool, centerFocused: CenterFocusedColumn,
    direction: ScrollingDirection)

  datatype ResolvedTabs = ResolvedTabs(
    defaultDisplay: ColumnDisplay, newTabPosition: NewTabPosition, wrapFocus: bool, scrollSwitchesTabs: bool,
    middleClickCloses: bool, barHeight: int, barPosition: TabBarPosition, hideWhenSingle: bool, barVisible: bool)

  datatype ResolvedLayout = ResolvedLayout(
    mode: LayoutMode, gap: int, struts: Struts, extentPresets: seq<real>, newExitsFullscreen: nat,
    scrolling: ResolvedScrolling, dwindle: DwindleConfig, master: MasterConfig, tabs: ResolvedTabs,
    totalGap: int, edgePad: int)

  /** `resolveGlobalLayout` */
  function GlobalLayout(config: Config): ResolvedLayout {
    var l, bar, border := config.layout, config.appearance.tabBar, config.appearance.TotalBorderWidth();
    ResolvedLayout(
      l.mode, l.gap, l.struts, l.extentPresets, l.newExitsFullscreen,
      ResolvedScrolling(l.scrolling.defaultExtentFraction, l.scrolling.centerUnderfullStrip, l.scrolling.centerFocused,
                        ScrollHorizontal),
      l.dwindle, l.master,
      ResolvedTabs(l.tabs.defaultDisplay, l.tabs.newTabPosition, l.tabs.wrapFocus, l.tabs.scrollSwitchesTabs,
                   l.tabs.middleClickCloses, bar.height, bar.position, bar.hideWhenSingle, bar.visible),
      l.gap + 2 * border, l.gap + border)
  }

  /** What the matching output rule changes before workspace rules apply. */
  function OutputLayout(base: ResolvedLayout, output: Option<OutputRule>): ResolvedLayout {
    if output.None? then base
    else
      var extent := output.value.defaultExtentFraction;
      base.(scrolling := base.scrolling.(
              defaultExtentFraction := Over(extent, base.scrolling.defaultExtentFraction),
              direction := if output.value.workspaceAxis == Horizontal then ScrollVertical else ScrollHorizontal))
  }

  function StrutsWith(s: Struts, o: StrutOverrides): Struts {
    Struts(o.left.Or(s.left), o.right.Or(s.right), o.top.Or(s.top), o.bottom.Or(s.bottom))
  }

  function ScrollingWith(s: ResolvedScrolling, o: LayoutOverrides): ResolvedScrolling {
    ResolvedScrolling(Over(o.defaultExtentFraction, s.defaultExtentFraction),
                      o.centerUnderfullStrip.Or(s.centerUnderfullStrip), o.centerFocused.Or(s.centerFocused),
                      s.direction)
  }

  function DwindleWith(d: DwindleConfig, o: LayoutOverrides): DwindleConfig {
    DwindleConfig(o.preserveSplit.Or(d.preserveSplit), o.newTowardCursor.Or(d.newTowardCursor))
  }

  function MasterWith(m: MasterConfig, o: LayoutOverrides): MasterConfig {
    MasterConfig(o.defaultWidthFraction.Or(m.defaultWidthFraction), o.newOnTop.Or(m.newOnTop),
                 o.newBecomesMaster.Or(m.newBecomesMaster), o.masterPosition.Or(m.position))
  }

  function TabsWith(t: ResolvedTabs, o: LayoutOverrides): ResolvedTabs {
    ResolvedTabs(o.defaultDisplay.Or(t.defaultDisplay), o.newTabPosition.Or(t.newTabPosition),
                 o.wrapFocus.Or(t.wrapFocus), o.scrollSwitchesTabs.Or(t.scrollSwitchesTabs),
                 o.middleClickCloses.Or(t.middleClickCloses), t.barHeight,
                 t.barPosition, t.hideWhenSingle, t.barVisible)
  }

  /** A layout with one rule's overrides in place. */
  function Overridden(r: ResolvedLayout, o: LayoutOverrides, border: int): ResolvedLayout {
    var gap := o.gap.Or(r.gap);
    ResolvedLayout(
      o.mode.Or(r.mode), gap, StrutsWith(r.struts, o.struts), o.extentPresets.Or(r.extentPresets),
      o.newExitsFullscreen.Or(r.newExitsFullscreen), ScrollingWith(r.scrolling, o), DwindleWith(r.dwindle, o),
      MasterWith(r.master, o), TabsWith(r.tabs, o), gap + 2 * border, gap + border)
  }

  ghost function FoldLayers(base: ResolvedLayout, layers: seq<LayoutOverrides>, border: int): ResolvedLayout {
    if layers == [] then base
    else Overridden(FoldLayers(base, layers[..|layers| - 1], border), layers[|layers| - 1], border)
  }

  lemma {:induction false} FoldLayersConcat(base: ResolvedLayout, a: seq<LayoutOverrides>, b: seq<LayoutOverrides>,
                                            border: int)
    ensures FoldLayers(base, a + b, border) == FoldLayers(FoldLayers(base, a, border), b, border)
  {
    if b == [] {
      assert a + b == a;
    } else {
      var n := |b| - 1;
      FoldLayersConcat(base, a, b[..n], border);
      assert (a + b)[..|a| + n] == a + b[..n];
    }
  }

  predicate Selects(rule: WorkspaceRule, name: Option<string>, index: nat) {
    if rule.index.Some? then rule.index.value - 1 == index else name == Some(rule.name)
  }

  predicate Scopes(rule: WorkspaceRule, identity: OutputIdentity, outputScoped: bool) {
    if outputScoped then rule.output != "" && MatchName(identity, rule.output) != NoMatch else rule.output == ""
  }

  /** The overrides that apply to one workspace, in rule order. */
  ghost function Layers(rules: seq<WorkspaceRule>, identity: OutputIdentity, name: Option<string>, index: nat,
                        outputScoped: bool): seq<LayoutOverrides>
  {
    if rules == [] then []
    else
      var last := rules[|rules| - 1];
      Layers(rules[..|rules| - 1], identity, name, index, outputScoped)
      + if Scopes(last, identity, outputScoped) && Selects(last, name, index) then [last.layout] else []
  }

  ghost function LayoutFor(config: Config, identity: OutputIdentity, name: Option<string>, index: nat): ResolvedLayout {
    var rules, border := config.workspaceRules, config.appearance.TotalBorderWidth();
    var base := OutputLayout(GlobalLayout(config), MatchingRule(config.outputs, identity));
    FoldLayers(base, Layers(rules, identity, name, index, false) + Layers(rules, identity, name, index, true), border)
  }

  /** The assignment each override makes: only when it is set. */
  method Apply<T>(field: T, override: Option<T>) returns (r: T)
    ensures r == override.Or(field)
  {
    r := field;
    if override.Some? {
      r := override.value;
    }
  }

  method ApplyStruts(struts: Struts, o: StrutOverrides) returns (r: Struts)
    ensures r == StrutsWith(struts, o)
  {
    var left := Apply(struts.left, o.left);
    var right := Apply(struts.right, o.right);
    var top := Apply(struts.top, o.top);
    var bottom := Apply(struts.bottom, o.bottom);
    r := Struts(left, right, top, bottom);
  }

  method ApplyMaster(master: MasterConfig, o: LayoutOverrides) returns (r: MasterConfig)
    ensures r == MasterWith(master, o)
  {
    var width := Apply(master.defaultWidthFraction, o.defaultWidthFraction);
    var newOnTop := Apply(master.newOnTop, o.newOnTop);
    var newBecomesMaster := Apply(master.newBecomesMaster, o.newBecomesMaster);
    var position := Apply(master.position, o.masterPosition);
    r := MasterConfig(width, newOnTop, newBecomesMaster, position);
  }

  method ApplyTabs(tabs: ResolvedTabs, o: LayoutOverrides) returns (r: ResolvedTabs)
    ensures r == TabsWith(tabs, o)
  {
    var display := Apply(tabs.defaultDisplay, o.defaultDisplay);
    var position := Apply(tabs.newTabPosition, o.newTabPosition);
    var wrapFocus := Apply(tabs.wrapFocus, o.wrapFocus);
    var scrollSwitches := Apply(tabs.scrollSwitchesTabs, o.scrollSwitchesTabs);
    var middleClick := Apply(tabs.middleClickCloses, o.middleClickCloses);
    r := tabs.(defaultDisplay := display, newTabPosition := position, wrapFocus := wrapFocus,
               scrollSwitchesTabs := scrollSwitches, middleClickCloses := middleClick);
  }

  method ApplyWorkspaceLayoutOverrides(resolved: ResolvedLayout, o: LayoutOverrides, border: int)
    returns (r: ResolvedLayout)
    ensures r == Overridden(resolved, o, border)
  {
    var mode := Apply(resolved.mode, o.mode);
    var gap := Apply(resolved.gap, o.gap);
    var struts := ApplyStruts(resolved.struts, o.struts);
    var scrolling := resolved.scrolling;
    if o.defaultExtentFraction.Some? {
      scrolling := scrolling.(defaultExtentFraction := o.defaultExtentFraction);
    }
    var underfull := Apply(scrolling.centerUnderfullStrip, o.centerUnderfullStrip);
    var focused := Apply(scrolling.centerFocused, o.centerFocused);
    scrolling := scrolling.(centerUnderfullStrip := underfull, centerFocused := focused);
    var preserveSplit := Apply(resolved.dwindle.preserveSplit, o.preserveSplit);
    var towardCursor := Apply(resolved.dwindle.newTowardCursor, o.newTowardCursor);
    var master := ApplyMaster(resolved.master, o);
    var presets := Apply(resolved.extentPresets, o.extentPresets);
    var newExits := Apply(resolved.newExitsFullscreen, o.newExitsFullscreen);
    var tabs := ApplyTabs(resolved.tabs, o);
    r := ResolvedLayout(mode, gap, struts, presets, newExits, scrolling, DwindleConfig(preserveSplit, towardCursor),
                        master, tabs, gap + 2 * border, gap + border);
  }

  lemma LayersSnoc(rules: seq<WorkspaceRule>, i: nat, identity: OutputIdentity, name: Option<string>, index: nat,
                   outputScoped: bool)
    requires i < |rules|
    ensures Layers(rules[..i + 1], identity, name, index, outputScoped)
         == Layers(rules[..i], identity, name, index, outputScoped)
            + if Scopes(rules[i], identity, outputScoped)
                && Selects(rules[i], name, index) then [rules[i].layout] else []
  {
    assert rules[..i + 1][..i] == rules[..i];
  }

  lemma FoldLayersSnoc(base: ResolvedLayout, layers: seq<LayoutOverrides>, o: LayoutOverrides, border: int)
    ensures FoldLayers(base, layers + [o], border) == Overridden(FoldLayers(base, layers, border), o, border)
  {
    assert (layers + [o])[..|layers|] == layers;
  }

  method ApplyMatchingRules(config: Config, base: ResolvedLayout, identity: OutputIdentity, name: Option<string>,
                            index: nat, outputScoped: bool) returns (resolved: ResolvedLayout)
    ensures resolved == FoldLayers(base, Layers(config.workspaceRules, identity, name, index, outputScoped),
                                   config.appearance.TotalBorderWidth())
  {
    resolved := base;
    var rules, border := config.workspaceRules, config.appearance.TotalBorderWidth();
    for i := 0 to |rules|
      invariant resolved == FoldLayers(base, Layers(rules[..i], identity, name, index, outputScoped), border)
    {
      ghost var before := Layers(rules[..i], identity, name, index, outputScoped);
      LayersSnoc(rules, i, identity, name, index, outputScoped);
      if Scopes(rules[i], identity, outputScoped) && Selects(rules[i], name, index) {
        FoldLayersSnoc(base, before, rules[i].layout, border);
        resolved := ApplyWorkspaceLayoutOverrides(resolved, rules[i].layout, border);
      } else {
        assert before + [] == before;
      }
    }
    assert rules[..|rules|] == rules;
  }

  method ResolveWorkspaceLayout(config: Config, identity: OutputIdentity, name: Option<string>, index: nat)
    returns (resolved: ResolvedLayout)
    ensures resolved == LayoutFor(config, identity, name, index)
  {
    var output := FindOutputRule(config.outputs, identity);
    resolved := OutputLayout(GlobalLayout(config), output);
    ghost var base, border := resolved, config.appearance.TotalBorderWidth();
    resolved := ApplyMatchingRules(config, resolved, identity, name, index, false);
    resolved := ApplyMatchingRules(config, resolved, identity, name, index, true);
    FoldLayersConcat(base, Layers(config.workspaceRules, identity, name, index, false),
                     Layers(config.workspaceRules, identity, name, index, true), border);
  }

  /** The value of the last layer that sets a field, or what was there. */
  function LastSet<T>(values: seq<Option<T>>, default: T): T {
    if values == [] then default
    else if values[|values| - 1].Some? then values[|values| - 1].value
    else LastSet(values[..|values| - 1], default)
  }

  lemma {:induction false} LastWriterWins<T>(
    base: ResolvedLayout, layers: seq<LayoutOverrides>, border: int, get: ResolvedLayout -> T,
    setting: LayoutOverrides -> Option<T>)
    requires forall r, o :: get(Overridden(r, o, border)) == setting(o).Or(get(r))
    ensures get(FoldLayers(base, layers, border)) == LastSet(Map(setting, layers), get(base))
  {
    if layers == [] {
    } else {
      var n := |layers| - 1;
      LastWriterWins(base, layers[..n], border, get, setting);
      assert Map(setting, layers)[..n] == Map(setting, layers[..n]);
    }
  }

  /** The fields that do not belong to one mode come from the last layer that sets them. */
  ghost predicate GeneralFromLast(r: ResolvedLayout, base: ResolvedLayout, layers: seq<LayoutOverrides>) {
    && r.mode == LastSet(Map((o: LayoutOverrides) => o.mode, layers), base.mode)
    && r.gap == LastSet(Map((o: LayoutOverrides) => o.gap, layers), base.gap)
    && r.struts.left == LastSet(Map((o: LayoutOverrides) => o.struts.left, layers), base.struts.left)
    && r.struts.right == LastSet(Map((o: LayoutOverrides) => o.struts.right, layers), base.struts.right)
    && r.struts.top == LastSet(Map((o: LayoutOverrides) => o.struts.top, layers), base.struts.top)
    && r.struts.bottom == LastSet(Map((o: LayoutOverrides) => o.struts.bottom, layers), base.struts.bottom)
    && r.extentPresets == LastSet(Map((o: LayoutOverrides) => o.extentPresets, layers), base.extentPresets)
    && r.newExitsFullscreen == LastSet(Map((o: LayoutOverrides) => o.newExitsFullscreen, layers),
                                       base.newExitsFullscreen)
  }

  lemma GeneralFromLastHold(base: ResolvedLayout, layers: seq<LayoutOverrides>, border: int)
    ensures GeneralFromLast(FoldLayers(base, layers, border), base, layers)
  {
    LastWriterWins(base, layers, border, (r: ResolvedLayout) => r.mode, (o: LayoutOverrides) => o.mode);
    LastWriterWins(base, layers, border, (r: ResolvedLayout) => r.gap, (o: LayoutOverrides) => o.gap);
    LastWriterWins(base, layers, border, (r: ResolvedLayout) => r.struts.left, (o: LayoutOverrides) => o.struts.left);
    LastWriterWins(base, layers, border, (r: ResolvedLayout) => r.struts.right, (o: LayoutOverrides) => o.struts.right);
    LastWriterWins(base, layers, border, (r: ResolvedLayout) => r.struts.top, (o: LayoutOverrides) => o.struts.top);
    LastWriterWins(base, layers, border, (r: ResolvedLayout) => r.struts.bottom,
                   (o: LayoutOverrides) => o.struts.bottom);
    LastWriterWins(base, layers, border, (r: ResolvedLayout) => r.extentPresets,
                   (o: LayoutOverrides) => o.extentPresets);
    LastWriterWins(base, layers, border, (r: ResolvedLayout) => r.newExitsFullscreen,
                   (o: LayoutOverrides) => o.newExitsFullscreen);
  }

  /** The extent is optional itself: a rule can set it, but not take it away. */
  function ExtentSetting(o: LayoutOverrides): Option<Option<real>> {
    if o.defaultExtentFraction.Some? then Some(o.defaultExtentFraction) else None
  }

  function Extent(r: ResolvedLayout): Option<real> {
    r.scrolling.defaultExtentFraction
  }

  lemma ExtentOverridden(r: ResolvedLayout, o: LayoutOverrides, border: int)
    ensures Extent(Overridden(r, o, border)) == ExtentSetting(o).Or(Extent(r))
  {
  }

  lemma ExtentFromLast(base: ResolvedLayout, layers: seq<LayoutOverrides>, border: int)
    ensures Extent(FoldLayers(base, layers, border)) == LastSet(Map(ExtentSetting, layers), Extent(base))
  {
    forall r, o ensures Extent(Overridden(r, o, border)) == ExtentSetting(o).Or(Extent(r)) {
      ExtentOverridden(r, o, border);
    }
    LastWriterWins(base, layers, border, Extent, ExtentSetting);
  }

  /** So do those of the scrolling mode. */
  ghost predicate ScrollingFromLast(r: ResolvedLayout, base: ResolvedLayout, layers: seq<LayoutOverrides>) {
    && r.scrolling.centerUnderfullStrip
        == LastSet(Map((o: LayoutOverrides) => o.centerUnderfullStrip, layers), base.scrolling.centerUnderfullStrip)
    && r.scrolling.centerFocused == LastSet(Map((o: LayoutOverrides) => o.centerFocused, layers),
                                            base.scrolling.centerFocused)
    && Extent(r) == LastSet(Map(ExtentSetting, layers), Extent(base))
  }

  lemma ScrollingFromLastHold(base: ResolvedLayout, layers: seq<LayoutOverrides>, border: int)
    ensures ScrollingFromLast(FoldLayers(base, layers, border), base, layers)
  {
    LastWriterWins(base, layers, border, (r: ResolvedLayout) => r.scrolling.centerUnderfullStrip,
                   (o: LayoutOverrides) => o.centerUnderfullStrip);
    LastWriterWins(base, layers, border, (r: ResolvedLayout) => r.scrolling.centerFocused,
                   (o: LayoutOverrides) => o.centerFocused);
    ExtentFromLast(base, layers, border);
  }

  /** So do those of the dwindle mode. */
  ghost predicate DwindleFromLast(r: ResolvedLayout, base: ResolvedLayout, layers: seq<LayoutOverrides>) {
    && r.dwindle.preserveSplit == LastSet(Map((o: LayoutOverrides) => o.preserveSplit, layers),
                                          base.dwindle.preserveSplit)
    && r.dwindle.newTowardCursor == LastSet(Map((o: LayoutOverrides) => o.newTowardCursor, layers),
                                            base.dwindle.newTowardCursor)
  }

  lemma DwindleFromLastHold(base: ResolvedLayout, layers: seq<LayoutOverrides>, border: int)
    ensures DwindleFromLast(FoldLayers(base, layers, border), base, layers)
  {
    LastWriterWins(base, layers, border, (r: ResolvedLayout) => r.dwindle.preserveSplit,
                   (o: LayoutOverrides) => o.preserveSplit);
    LastWriterWins(base, layers, border, (r: ResolvedLayout) => r.dwindle.newTowardCursor,
                   (o: LayoutOverrides) => o.newTowardCursor);
  }

  /** So do the master area's width and side. */
  ghost predicate MasterAreaFromLast(r: ResolvedLayout, base: ResolvedLayout, layers: seq<LayoutOverrides>) {
    && r.master.defaultWidthFraction
        == LastSet(Map((o: LayoutOverrides) => o.defaultWidthFraction, layers), base.master.defaultWidthFraction)
    && r.master.position == LastSet(Map((o: LayoutOverrides) => o.masterPosition, layers), base.master.position)
  }

  lemma MasterAreaFromLastHold(base: ResolvedLayout, layers: seq<LayoutOverrides>, border: int)
    ensures MasterAreaFromLast(FoldLayers(base, layers, border), base, layers)
  {
    LastWriterWins(base, layers, border, (r: ResolvedLayout) => r.master.defaultWidthFraction,
                   (o: LayoutOverrides) => o.defaultWidthFraction);
    LastWriterWins(base, layers, border, (r: ResolvedLayout) => r.master.position,
                   (o: LayoutOverrides) => o.masterPosition);
  }

  /** So does where new windows go in the master mode. */
  ghost predicate MasterOrderFromLast(r: ResolvedLayout, base: ResolvedLayout, layers: seq<LayoutOverrides>) {
    && r.master.newOnTop == LastSet(Map((o: LayoutOverrides) => o.newOnTop, layers), base.master.newOnTop)
    && r.master.newBecomesMaster == LastSet(Map((o: LayoutOverrides) => o.newBecomesMaster, layers),
                                            base.master.newBecomesMaster)
  }

  lemma MasterOrderFromLastHold(base: ResolvedLayout, layers: seq<LayoutOverrides>, border: int)
    ensures MasterOrderFromLast(FoldLayers(base, layers, border), base, layers)
  {
    var r := FoldLayers(base, layers, border);
    assert r.master.newOnTop == LastSet(Map((o: LayoutOverrides) => o.newOnTop, layers), base.master.newOnTop) by {
      LastWriterWins(base, layers, border, (r: ResolvedLayout) => r.master.newOnTop,
                     (o: LayoutOverrides) => o.newOnTop);
    }
    LastWriterWins(base, layers, border, (r: ResolvedLayout) => r.master.newBecomesMaster,
                   (o: LayoutOverrides) => o.newBecomesMaster);
  }

  /** So do how tab groups open and order their tabs. */
  ghost predicate TabOpeningFromLast(r: ResolvedLayout, base: ResolvedLayout, layers: seq<LayoutOverrides>) {
    && r.tabs.defaultDisplay == LastSet(Map((o: LayoutOverrides) => o.defaultDisplay, layers), base.tabs.defaultDisplay)
    && r.tabs.newTabPosition == LastSet(Map((o: LayoutOverrides) => o.newTabPosition, layers), base.tabs.newTabPosition)
    && r.tabs.wrapFocus == LastSet(Map((o: LayoutOverrides) => o.wrapFocus, layers), base.tabs.wrapFocus)
  }

  lemma TabOpeningFromLastHold(base: ResolvedLayout, layers: seq<LayoutOverrides>, border: int)
    ensures TabOpeningFromLast(FoldLayers(base, layers, border), base, layers)
  {
    LastWriterWins(base, layers, border, (r: ResolvedLayout) => r.tabs.defaultDisplay,
                   (o: LayoutOverrides) => o.defaultDisplay);
    LastWriterWins(base, layers, border, (r: ResolvedLayout) => r.tabs.newTabPosition,
                   (o: LayoutOverrides) => o.newTabPosition);
    LastWriterWins(base, layers, border, (r: ResolvedLayout) => r.tabs.wrapFocus, (o: LayoutOverrides) => o.wrapFocus);
  }

  /** So does what the pointer does on them. */
  ghost predicate TabPointerFromLast(r: ResolvedLayout, base: ResolvedLayout, layers: seq<LayoutOverrides>) {
    && r.tabs.scrollSwitchesTabs == LastSet(Map((o: LayoutOverrides) => o.scrollSwitchesTabs, layers),
                                            base.tabs.scrollSwitchesTabs)
    && r.tabs.middleClickCloses == LastSet(Map((o: LayoutOverrides) => o.middleClickCloses, layers),
                                           base.tabs.middleClickCloses)
  }

  lemma TabPointerFromLastHold(base: ResolvedLayout, layers: seq<LayoutOverrides>, border: int)
    ensures TabPointerFromLast(FoldLayers(base, layers, border), base, layers)
  {
    LastWriterWins(base, layers, border, (r: ResolvedLayout) => r.tabs.scrollSwitchesTabs,
                   (o: LayoutOverrides) => o.scrollSwitchesTabs);
    LastWriterWins(base, layers, border, (r: ResolvedLayout) => r.tabs.middleClickCloses,
                   (o: LayoutOverrides) => o.middleClickCloses);
  }

  /** No rule overrides the strip's direction or the tab bar. */
  ghost predicate BarAndDirectionFromBase(r: ResolvedLayout, base: ResolvedLayout) {
    && r.scrolling.direction == base.scrolling.direction
    && r.tabs.barHeight == base.tabs.barHeight && r.tabs.barPosition == base.tabs.barPosition
    && r.tabs.hideWhenSingle == base.tabs.hideWhenSingle && r.tabs.barVisible == base.tabs.barVisible
  }

  lemma {:induction false} BarAndDirectionStay(base: ResolvedLayout, layers: seq<LayoutOverrides>, border: int)
    ensures BarAndDirectionFromBase(FoldLayers(base, layers, border), base)
  {
    if layers == [] {
    } else {
      BarAndDirectionStay(base, layers[..|layers| - 1], border);
    }
  }

  /** Every field of a workspace layout comes from the last rule that sets it, rules scoped to the output after the
      others, or from the output and the global layout, and the derived gaps follow the resolved gap. */
  lemma LayoutComesFromLastRule(config: Config, identity: OutputIdentity, name: Option<string>, index: nat)
    ensures var r := LayoutFor(config, identity, name, index);
            var layers := Layers(config.workspaceRules, identity, name, index, false)
                          + Layers(config.workspaceRules, identity, name, index, true);
            var base := OutputLayout(GlobalLayout(config), MatchingRule(config.outputs, identity));
            && GeneralFromLast(r, base, layers) && ScrollingFromLast(r, base, layers)
            && DwindleFromLast(r, base, layers)
            && MasterAreaFromLast(r, base, layers) && MasterOrderFromLast(r, base, layers)
            && TabOpeningFromLast(r, base, layers) && TabPointerFromLast(r, base, layers)
            && BarAndDirectionFromBase(r, base)
            && r.totalGap == r.gap + 2 * config.appearance.TotalBorderWidth()
            && r.edgePad == r.gap + config.appearance.TotalBorderWidth()
  {
    var layers := Layers(config.workspaceRules, identity, name, index, false)
                  + Layers(config.workspaceRules, identity, name, index, true);
    var base := OutputLayout(GlobalLayout(config), MatchingRule(config.outputs, identity));
    var border := config.appearance.TotalBorderWidth();
    GeneralFromLastHold(base, layers, border);
    ScrollingFromLastHold(base, layers, border);
    DwindleFromLastHold(base, layers, border);
    MasterAreaFromLastHold(base, layers, border);
    MasterOrderFromLastHold(base, layers, border);
    TabOpeningFromLastHold(base, layers, border);
    TabPointerFromLastHold(base, layers, border);
    BarAndDirectionStay(base, layers, border);
    DerivedGaps(base, layers, border);
  }

  /** Where no workspace rule applies, a workspace is laid out as the global settings say, its strip across the
      workspace axis of the output's section, in columns of that section's size if it sets one. */
  lemma UnruledLayoutIsGlobal(config: Config, identity: OutputIdentity, name: Option<string>, index: nat)
    requires config.workspaceRules == []
    ensures var r, l, bar := LayoutFor(config, identity, name, index), config.layout, config.appearance.tabBar;
            var section := MatchingRule(config.outputs, identity);
            && r.mode == l.mode && r.gap == l.gap && r.struts == l.struts && r.extentPresets == l.extentPresets
            && r.newExitsFullscreen == l.newExitsFullscreen && r.dwindle == l.dwindle && r.master == l.master
            && r.scrolling.centerUnderfullStrip == l.scrolling.centerUnderfullStrip
            && r.scrolling.centerFocused == l.scrolling.centerFocused
            && (r.scrolling.direction == ScrollVertical <==>
                  section.Some? && section.value.workspaceAxis == Horizontal)
            && r.scrolling.defaultExtentFraction
               == (if section.Some? && section.value.defaultExtentFraction.Some?
                   then section.value.defaultExtentFraction else l.scrolling.defaultExtentFraction)
            && r.tabs.defaultDisplay == l.tabs.defaultDisplay && r.tabs.newTabPosition == l.tabs.newTabPosition
            && r.tabs.wrapFocus == l.tabs.wrapFocus && r.tabs.scrollSwitchesTabs == l.tabs.scrollSwitchesTabs
            && r.tabs.middleClickCloses == l.tabs.middleClickCloses && r.tabs.barHeight == bar.height
            && r.tabs.barPosition == bar.position && r.tabs.hideWhenSingle == bar.hideWhenSingle
            && r.tabs.barVisible == bar.visible
            && r.totalGap == l.gap + 2 * (config.appearance.borderWidth + config.appearance.outerBorderWidth)
            && r.edgePad == l.gap + config.appearance.borderWidth + config.appearance.outerBorderWidth
  {
    NoLayers(identity, name, index, false);
    NoLayers(identity, name, index, true);
  }

  lemma NoLayers(identity: OutputIdentity, name: Option<string>, index: nat, outputScoped: bool)
    ensures Layers([], identity, name, index, outputScoped) == []
  {
  }

  lemma {:induction false} DerivedGaps(base: ResolvedLayout, layers: seq<LayoutOverrides>, border: int)
    requires base.totalGap == base.gap + 2 * border && base.edgePad == base.gap + border
    ensures var r := FoldLayers(base, layers, border);
            r.totalGap == r.gap + 2 * border && r.edgePad == r.gap + border
  {
    if layers == [] {
    } else {
      DerivedGaps(base, layers[..|layers| - 1], border);
    }
  }
}
