/** Which effects, and which parts of the blur machinery, a configuration puts to use. */
module EffectUse {
  import opened Config
  import opened Options

  import EffectReferences

  /** A name that stands for an effect, rather than for none or for suppressing one. */
  function Usable(name: string): set<string> {
    if name == "" || name == EffectReferences.EFFECT_OFF then {} else {name}
  }

  function UsableIn(name: Option<string>): set<string> {
    if name.Some? then Usable(name.value) else {}
  }

  /** The names a list of parts contributes. */
  ghost function Gather<T>(parts: seq<T>, names: T -> set<string>): set<string> {
    if parts == [] then {} else Gather(parts[..|parts| - 1], names) + names(parts[|parts| - 1])
  }

  lemma GatherSnoc<T>(parts: seq<T>, n: nat, names: T -> set<string>)
    requires n < |parts|
    ensures Gather(parts[..n + 1], names) == Gather(parts[..n], names) + names(parts[n])
  {
    assert parts[..n + 1][..n] == parts[..n];
  }

  lemma {:induction false} GatherHolds<T>(parts: seq<T>, names: T -> set<string>)
    ensures forall x :: x in Gather(parts, names) <==> exists p :: p in parts && x in names(p)
  {
    if parts == [] {
    } else {
      GatherHolds(parts[..|parts| - 1], names);
      assert parts == parts[..|parts| - 1] + [parts[|parts| - 1]];
    }
  }

  lemma GatheredFrom<T>(parts: seq<T>, names: T -> set<string>, x: string) returns (p: T)
    requires x in Gather(parts, names)
    ensures p in parts && x in names(p)
  {
    GatherHolds(parts, names);
    p :| p in parts && x in names(p);
  }

  lemma {:induction false} GatherAlike<T>(parts: seq<T>, f: T -> set<string>, g: T -> set<string>)
    requires forall p :: p in parts ==> f(p) == g(p)
    ensures Gather(parts, f) == Gather(parts, g)
  {
    if parts == [] {
    } else {
      assert parts == parts[..|parts| - 1] + [parts[|parts| - 1]];
      GatherAlike(parts[..|parts| - 1], f, g);
    }
  }

  // Animated events

  datatype AnimationEvent = Window | Overlay | BorderEffect | Border | DimUnfocused | WindowsMove | Drag | WindowsIn
    | WindowsOut | Scratchpad | Layers | Workspaces | Overview

  const EVENTS := [Window, Overlay, BorderEffect, Border, DimUnfocused, WindowsMove, Drag, WindowsIn, WindowsOut,
                   Scratchpad, Layers, Workspaces, Overview]

  /** What an event is configured to do; some events are not configured. */
  function EventEffect(a: Animation, event: AnimationEvent): Option<EventAnimation> {
    match event
    case WindowsIn => Some(a.windowsIn)
    case WindowsOut => Some(a.windowsOut)
    case WindowsMove => Some(a.windowsMove)
    case Workspaces => Some(a.workspaces)
    case Overview => Some(a.overview)
    case Scratchpad => Some(a.scratchpad)
    case Border => Some(a.border)
    case DimUnfocused => Some(a.dimUnfocused)
    case Layers => Some(a.layers)
    case Window => None
    case Overlay => None
    case BorderEffect => None
    case Drag => None
  }

  predicate SameBinding(before: Option<EventAnimation>, after: Option<EventAnimation>) {
    before.Some? && after.Some? ==>
      before.value.effect == after.value.effect && before.value.enabled == after.value.enabled
  }

  /** The animations use the same effects, whatever their timing. */
  ghost predicate AnimateAlike(before: Animation, after: Animation) {
    && before.enabled == after.enabled && before.windowsDrag == after.windowsDrag
    && forall event :: SameBinding(EventEffect(before, event), EventEffect(after, event))
  }

  lemma EveryEvent(event: AnimationEvent)
    ensures event in EVENTS
  {
    match event
    case Window => assert EVENTS[0] == event;
    case Overlay => assert EVENTS[1] == event;
    case BorderEffect => assert EVENTS[2] == event;
    case Border => assert EVENTS[3] == event;
    case DimUnfocused => assert EVENTS[4] == event;
    case WindowsMove => assert EVENTS[5] == event;
    case Drag => assert EVENTS[6] == event;
    case WindowsIn => assert EVENTS[7] == event;
    case WindowsOut => assert EVENTS[8] == event;
    case Scratchpad => assert EVENTS[9] == event;
    case Layers => assert EVENTS[10] == event;
    case Workspaces => assert EVENTS[11] == event;
    case Overview => assert EVENTS[12] == event;
  }

  method SameAnimationEffects(before: Animation, after: Animation) returns (same: bool)
    ensures same == AnimateAlike(before, after)
  {
    if before.enabled != after.enabled {
      return false;
    }
    for slot := 0 to |EVENTS|
      invariant forall k :: 0 <= k < slot ==> SameBinding(EventEffect(before, EVENTS[k]), EventEffect(after, EVENTS[k]))
    {
      var l, r := EventEffect(before, EVENTS[slot]), EventEffect(after, EVENTS[slot]);
      if l.Some? && (l.value.effect != r.value.effect || l.value.enabled != r.value.enabled) {
        assert !SameBinding(l, r);
        return false;
      }
    }
    forall event: AnimationEvent
      ensures SameBinding(EventEffect(before, event), EventEffect(after, event))
    {
      EveryEvent(event);
    }
    return before.windowsDrag == after.windowsDrag;
  }

  /** Two animated events use the same effect, or none. */
  predicate Alike(before: EventAnimation, after: EventAnimation) {
    before.effect == after.effect && before.enabled == after.enabled
  }

  /** All nine configured events, the switch above them and dragging agree. */
  lemma AnimationsAgreeExactly(before: Animation, after: Animation)
    ensures AnimateAlike(before, after) <==>
              && before.enabled == after.enabled && before.windowsDrag == after.windowsDrag
              && Alike(before.windowsIn, after.windowsIn) && Alike(before.windowsOut, after.windowsOut)
              && Alike(before.windowsMove, after.windowsMove) && Alike(before.workspaces, after.workspaces)
              && Alike(before.overview, after.overview) && Alike(before.scratchpad, after.scratchpad)
              && Alike(before.border, after.border) && Alike(before.dimUnfocused, after.dimUnfocused)
              && Alike(before.layers, after.layers)
  {
    if AnimateAlike(before, after) {
      assert SameBinding(EventEffect(before, WindowsIn), EventEffect(after, WindowsIn));
      assert SameBinding(EventEffect(before, WindowsOut), EventEffect(after, WindowsOut));
      assert SameBinding(EventEffect(before, WindowsMove), EventEffect(after, WindowsMove));
      assert SameBinding(EventEffect(before, Workspaces), EventEffect(after, Workspaces));
      assert SameBinding(EventEffect(before, Overview), EventEffect(after, Overview));
      assert SameBinding(EventEffect(before, Scratchpad), EventEffect(after, Scratchpad));
      assert SameBinding(EventEffect(before, Border), EventEffect(after, Border));
      assert SameBinding(EventEffect(before, DimUnfocused), EventEffect(after, DimUnfocused));
      assert SameBinding(EventEffect(before, Layers), EventEffect(after, Layers));
    }
  }

  function BoundNames(enabled: bool, bound: Option<EventAnimation>): set<string> {
    if bound.Some? && enabled && bound.value.enabled then Usable(bound.value.effect) else {}
  }

  function EventNames(a: Animation): AnimationEvent -> set<string> {
    event => BoundNames(a.enabled, EventEffect(a, event))
  }

  lemma BoundAlike(enabled: bool, a: Option<EventAnimation>, b: Option<EventAnimation>)
    requires a.Some? == b.Some? && SameBinding(a, b)
    ensures BoundNames(enabled, a) == BoundNames(enabled, b)
  {
  }

  // Bound actions

  function BindNames(bind: Keybind): set<string> {
    if bind.action.EffectAction? then Usable(bind.action.name) else {}
  }

  function CornerNames(corner: HotCorner): set<string> {
    if corner.enabled && corner.action.Some? then BindNames(corner.action.value) else {}
  }

  ghost function Roots(config: Config): set<string> {
    Gather(config.keybinds, BindNames) + Gather(config.hotCorners, CornerNames)
  }

  /** The effects bound actions name. A sorted list without repetitions is determined by the set of what it holds. */
  method ConfiguredEffectActionRoots(config: Config) returns (roots: set<string>)
    ensures roots == Roots(config)
  {
    roots := {};
    for i := 0 to |config.keybinds|
      invariant roots == Gather(config.keybinds[..i], BindNames)
    {
      GatherSnoc(config.keybinds, i, BindNames);
      roots := roots + BindNames(config.keybinds[i]);
    }
    assert config.keybinds[..|config.keybinds|] == config.keybinds;
    for i := 0 to |config.hotCorners|
      invariant roots == Gather(config.keybinds, BindNames) + Gather(config.hotCorners[..i], CornerNames)
    {
      GatherSnoc(config.hotCorners, i, CornerNames);
      var corner := config.hotCorners[i];
      if corner.enabled && corner.action.Some? {
        roots := roots + BindNames(corner.action.value);
      }
    }
    assert config.hotCorners[..|config.hotCorners|] == config.hotCorners;
  }

  /** A bound action or an enabled hot corner names this effect. */
  ghost predicate Bound(config: Config, name: string) {
    || (exists bind :: bind in config.keybinds && bind.action == EffectAction(name))
    || exists corner :: corner in config.hotCorners && corner.enabled && corner.action.Some?
                        && corner.action.value.action == EffectAction(name)
  }

  /** The effects that bound actions name are those that are effects at all. */
  lemma RootsAre(config: Config)
    ensures forall name :: name in Roots(config) <==>
              name != "" && name != EffectReferences.EFFECT_OFF && Bound(config, name)
  {
    GatherHolds(config.keybinds, BindNames);
    GatherHolds(config.hotCorners, CornerNames);
    forall name ensures name in Roots(config) <==>
                          name != "" && name != EffectReferences.EFFECT_OFF && Bound(config, name)
    {
      if name in Gather(config.keybinds, BindNames) {
        var bind :| bind in config.keybinds && name in BindNames(bind);
      }
      if name in Gather(config.hotCorners, CornerNames) {
        var corner :| corner in config.hotCorners && name in CornerNames(corner);
      }
    }
  }

  // Everything in use

  function RuleNames(rule: WindowRule): set<string> {
    UsableIn(rule.settings.style.borderEffect) + UsableIn(rule.settings.style.windowEffect)
  }

  function ScreenNames(rule: OutputRule): set<string> {
    UsableIn(rule.screenEffect)
  }

  /** The effects used where nothing else is selected. */
  function DefaultNames(config: Config): set<string> {
    var e := config.effects;
    Usable(e.border) + Usable(e.window) + Usable(e.screen) + Usable(e.cursor) + Usable(config.presentation.effect)
  }

  /** The names the configuration selects anywhere. */
  ghost function Selected(config: Config): set<string> {
    DefaultNames(config) + Gather(config.windowRules, RuleNames) + Gather(config.outputs, ScreenNames)
    + Gather(EVENTS, EventNames(config.animation)) + Roots(config)
  }

  predicate Plays(event: EventAnimation, name: string) {
    event.enabled && event.effect == name
  }

  /** Some enabled event has this effect, while anything is animated at all. */
  predicate Animates(a: Animation, name: string) {
    && a.enabled
    && (|| Plays(a.windowsIn, name) || Plays(a.windowsOut, name) || Plays(a.windowsMove, name)
        || Plays(a.workspaces, name) || Plays(a.overview, name) || Plays(a.scratchpad, name) || Plays(a.border, name)
        || Plays(a.dimUnfocused, name) || Plays(a.layers, name))
  }

  /** A window rule names this effect. */
  ghost predicate Ruled(config: Config, name: string) {
    exists rule :: rule in config.windowRules
                   && (rule.settings.style.borderEffect == Some(name) || rule.settings.style.windowEffect == Some(name))
  }

  /** An effect used by default. */
  predicate IsDefault(config: Config, name: string) {
    || name == config.effects.border || name == config.effects.window || name == config.effects.screen
    || name == config.effects.cursor || name == config.presentation.effect
  }

  /** Some part of the configuration selects this effect. */
  ghost predicate Selects(config: Config, name: string) {
    || IsDefault(config, name) || Ruled(config, name)
        || (exists rule :: rule in config.outputs && rule.screenEffect == Some(name))
    || Animates(config.animation, name) || Bound(config, name)
  }

  predicate IsEffect(name: string) {
    name != "" && name != EffectReferences.EFFECT_OFF
  }

  lemma EventIsGathered(a: Animation, event: AnimationEvent, name: string)
    requires name in EventNames(a)(event)
    ensures name in Gather(EVENTS, EventNames(a))
  {
    EveryEvent(event);
    GatherHolds(EVENTS, EventNames(a));
  }

  lemma AnimatedIsGathered(a: Animation, name: string)
    requires IsEffect(name) && Animates(a, name)
    ensures name in Gather(EVENTS, EventNames(a))
  {
    var event :=
      if Plays(a.windowsIn, name) then WindowsIn
      else if Plays(a.windowsOut, name) then WindowsOut
      else if Plays(a.windowsMove, name) then WindowsMove
      else if Plays(a.workspaces, name) then Workspaces
      else if Plays(a.overview, name) then Overview
      else if Plays(a.scratchpad, name) then Scratchpad
      else if Plays(a.border, name) then Border
      else if Plays(a.dimUnfocused, name) then DimUnfocused
      else Layers;
    EventIsGathered(a, event, name);
  }

  lemma EventAnimates(a: Animation, event: AnimationEvent, name: string)
    requires name in EventNames(a)(event)
    ensures IsEffect(name) && Animates(a, name)
  {
  }

  lemma GatheredIsAnimated(a: Animation, name: string)
    requires name in Gather(EVENTS, EventNames(a))
    ensures IsEffect(name) && Animates(a, name)
  {
    var event := GatheredFrom(EVENTS, EventNames(a), name);
    EventAnimates(a, event, name);
  }

  lemma RulesGather(config: Config, name: string)
    ensures name in Gather(config.windowRules, RuleNames) <==> IsEffect(name) && Ruled(config, name)
  {
    GatherHolds(config.windowRules, RuleNames);
    if rule :| rule in config.windowRules
               && (rule.settings.style.borderEffect == Some(name) || rule.settings.style.windowEffect == Some(name))
    {
      assert IsEffect(name) ==> name in RuleNames(rule);
    }
  }

  lemma ScreensGather(config: Config, name: string)
    ensures name in Gather(config.outputs, ScreenNames) <==>
              IsEffect(name) && exists rule :: rule in config.outputs && rule.screenEffect == Some(name)
  {
    GatherHolds(config.outputs, ScreenNames);
    if rule :| rule in config.outputs && rule.screenEffect == Some(name) {
      assert IsEffect(name) ==> name in ScreenNames(rule);
    }
  }

  lemma DefaultsAre(config: Config, name: string)
    ensures name in DefaultNames(config) <==> IsEffect(name) && IsDefault(config, name)
  {
  }

  lemma AnimationGathers(a: Animation, name: string)
    ensures name in Gather(EVENTS, EventNames(a)) <==> IsEffect(name) && Animates(a, name)
  {
    if name in Gather(EVENTS, EventNames(a)) {
      GatheredIsAnimated(a, name);
    } else if IsEffect(name) && Animates(a, name) {
      AnimatedIsGathered(a, name);
    }
  }

  /** What is selected are the names that are effects at all, of every part that selects one. */
  lemma SelectedAre(config: Config, name: string)
    ensures name in Selected(config) <==> name != "" && name != EffectReferences.EFFECT_OFF && Selects(config, name)
  {
    DefaultsAre(config, name);
    RootsAre(config);
    AnimationGathers(config.animation, name);
    RulesGather(config, name);
    ScreensGather(config, name);
  }

  ghost function WithMembers(names: set<string>, pools: seq<EffectReferences.Pool>): set<string> {
    if pools == [] then names
    else
      var earlier, pool := WithMembers(names, pools[..|pools| - 1]), pools[|pools| - 1];
      earlier + if pool.name in earlier then Gather(pool.members, Usable) else {}
  }

  ghost function WithOverlays(names: set<string>, presets: seq<EffectReferences.Preset>): set<string> {
    if presets == [] then names
    else
      var earlier, preset := WithOverlays(names, presets[..|presets| - 1]), presets[|presets| - 1];
      earlier + if preset.name in earlier then Usable(preset.overlay) else {}
  }

  /** The names in use once runtime selections, pool members and overlays are added. */
  ghost function Referenced(config: Config, runtime: seq<string>): set<string> {
    WithOverlays(WithMembers(Selected(config) + Gather(runtime, Usable), config.effects.pools), config.effects.presets)
  }

  /** The names the configuration selects; a list searched before each addition is a set. */
  method SelectedNames(config: Config) returns (names: set<string>)
    ensures names == Selected(config)
  {
    names := DefaultNames(config);
    ghost var start := names;
    for i := 0 to |config.windowRules|
      invariant names == start + Gather(config.windowRules[..i], RuleNames)
    {
      GatherSnoc(config.windowRules, i, RuleNames);
      names := names + RuleNames(config.windowRules[i]);
    }
    assert config.windowRules[..|config.windowRules|] == config.windowRules;
    start := names;
    for i := 0 to |config.outputs|
      invariant names == start + Gather(config.outputs[..i], ScreenNames)
    {
      GatherSnoc(config.outputs, i, ScreenNames);
      names := names + ScreenNames(config.outputs[i]);
    }
    assert config.outputs[..|config.outputs|] == config.outputs;
    start := names;
    for slot := 0 to |EVENTS|
      invariant names == start + Gather(EVENTS[..slot], EventNames(config.animation))
    {
      GatherSnoc(EVENTS, slot, EventNames(config.animation));
      names := names + EventNames(config.animation)(EVENTS[slot]);
    }
    assert EVENTS[..|EVENTS|] == EVENTS;
    var roots := ConfiguredEffectActionRoots(config);
    names := names + roots;
  }

  method AddNames(names: set<string>, more: seq<string>) returns (r: set<string>)
    ensures r == names + Gather(more, Usable)
  {
    r := names;
    for i := 0 to |more|
      invariant r == names + Gather(more[..i], Usable)
    {
      GatherSnoc(more, i, Usable);
      r := r + Usable(more[i]);
    }
    assert more[..|more|] == more;
  }

  /** A referenced pool draws from its members. */
  method AddMembers(start: set<string>, pools: seq<EffectReferences.Pool>) returns (names: set<string>)
    ensures names == WithMembers(start, pools)
  {
    names := start;
    for i := 0 to |pools|
      invariant names == WithMembers(start, pools[..i])
    {
      assert pools[..i + 1][..i] == pools[..i];
      if pools[i].name in names {
        names := AddNames(names, pools[i].members);
      }
    }
    assert pools[..|pools|] == pools;
  }

  /** A referenced preset pulls its overlay in. */
  method AddOverlays(start: set<string>, presets: seq<EffectReferences.Preset>) returns (names: set<string>)
    ensures names == WithOverlays(start, presets)
  {
    names := start;
    for i := 0 to |presets|
      invariant names == WithOverlays(start, presets[..i])
    {
      assert presets[..i + 1][..i] == presets[..i];
      if presets[i].overlay != "" && presets[i].name in names {
        names := names + Usable(presets[i].overlay);
      }
    }
    assert presets[..|presets|] == presets;
  }

  method ReferencedNames(config: Config, runtime: seq<string>) returns (names: set<string>)
    ensures names == Referenced(config, runtime)
  {
    names := SelectedNames(config);
    names := AddNames(names, runtime);
    names := AddMembers(names, config.effects.pools);
    names := AddOverlays(names, config.effects.presets);
  }

  // One pass reaches everything

  /** Whatever a name in the set needs is in the set: the members of a pool, and the overlay of a preset. */
  ghost predicate Closed(names: set<string>, e: EffectSettings) {
    && (forall pool :: pool in e.pools && pool.name in names ==> Gather(pool.members, Usable) <= names)
    && (forall preset :: preset in e.presets && preset.name in names ==> Usable(preset.overlay) <= names)
  }

  /** Members and overlays name presets, and a preset used as an overlay has none of its own. */
  ghost predicate Flat(e: EffectSettings) {
    && (forall pool, other :: pool in e.pools && other in e.pools ==> other.name !in pool.members)
    && (forall preset, pool :: preset in e.presets && pool in e.pools ==> preset.overlay != pool.name)
    && (forall preset, other :: preset in e.presets && other in e.presets && preset.overlay == other.name ==>
          other.overlay == "")
  }

  lemma {:induction false} WithMembersHolds(names: set<string>, pools: seq<EffectReferences.Pool>)
    ensures names <= WithMembers(names, pools)
    ensures forall x :: x in WithMembers(names, pools) ==>
              x in names || exists pool :: pool in pools && x in Gather(pool.members, Usable)
  {
    if pools == [] {
    } else {
      WithMembersHolds(names, pools[..|pools| - 1]);
      assert pools == pools[..|pools| - 1] + [pools[|pools| - 1]];
    }
  }

  lemma {:induction false} WithOverlaysHolds(names: set<string>, presets: seq<EffectReferences.Preset>)
    ensures names <= WithOverlays(names, presets)
    ensures forall x :: x in WithOverlays(names, presets) ==>
              x in names || exists preset :: preset in presets && x in Usable(preset.overlay)
  {
    if presets == [] {
    } else {
      WithOverlaysHolds(names, presets[..|presets| - 1]);
      assert presets == presets[..|presets| - 1] + [presets[|presets| - 1]];
    }
  }

  lemma {:induction false} MembersAreReached(names: set<string>, pools: seq<EffectReferences.Pool>)
    requires forall pool, other :: pool in pools && other in pools ==> other.name !in pool.members
    ensures forall pool :: pool in pools && pool.name in WithMembers(names, pools) ==>
              pool.name in names && Gather(pool.members, Usable) <= WithMembers(names, pools)
  {
    if pools == [] {
    } else {
      var n := |pools| - 1;
      var last := pools[n];
      assert pools == pools[..n] + [last];
      MembersAreReached(names, pools[..n]);
      WithMembersHolds(names, pools[..n]);
      forall pool | pool in pools && pool.name in WithMembers(names, pools)
        ensures pool.name in names && pool.name in WithMembers(names, pools[..n])
      {
        NamedByNoPool(names, pools, pool.name);
      }
    }
  }

  lemma NamedByNoPool(names: set<string>, pools: seq<EffectReferences.Pool>, name: string)
    requires forall pool :: pool in pools ==> name !in pool.members
    requires name in WithMembers(names, pools)
    ensures name in names
  {
    WithMembersHolds(names, pools);
    forall pool | pool in pools ensures name !in Gather(pool.members, Usable) {
      GatherHolds(pool.members, Usable);
    }
  }

  lemma {:induction false} OverlaysAreReached(names: set<string>, presets: seq<EffectReferences.Preset>)
    requires forall preset, other :: preset in presets && other in presets && preset.overlay == other.name ==>
               other.overlay == ""
    ensures forall preset :: preset in presets && preset.name in WithOverlays(names, presets) ==>
              Usable(preset.overlay) <= WithOverlays(names, presets)
  {
    if presets == [] {
    } else {
      var n := |presets| - 1;
      var last := presets[n];
      assert presets == presets[..n] + [last];
      OverlaysAreReached(names, presets[..n]);
      forall preset | preset in presets && preset.name in WithOverlays(names, presets)
        ensures Usable(preset.overlay) <= WithOverlays(names, presets)
      {
        if preset.name !in WithOverlays(names, presets[..n]) {
          assert last.overlay == preset.name;
        }
      }
    }
  }

  /** Every effect the configuration or a client selects is in use. */
  lemma SelectionsAreReferenced(config: Config, runtime: seq<string>, name: string)
    requires name != "" && name != EffectReferences.EFFECT_OFF && (Selects(config, name) || name in runtime)
    ensures name in Referenced(config, runtime)
  {
    SelectedAre(config, name);
    GatherHolds(runtime, Usable);
    var start := Selected(config) + Gather(runtime, Usable);
    WithMembersHolds(start, config.effects.pools);
    WithOverlaysHolds(WithMembers(start, config.effects.pools), config.effects.presets);
  }

  /** When members name no pool and overlays neither a pool nor a preset with an overlay, as validation leaves them, the
      names in use are closed: one pass over pools and presets misses nothing. */
  lemma OnePassReachesAll(config: Config, runtime: seq<string>)
    requires Flat(config.effects)
    ensures Closed(Referenced(config, runtime), config.effects)
  {
    var start := Selected(config) + Gather(runtime, Usable);
    var e := config.effects;
    var members := WithMembers(start, e.pools);
    MembersAreReached(start, e.pools);
    OverlaysAreReached(members, e.presets);
    WithOverlaysHolds(members, e.presets);
  }

  lemma {:induction false} MembersAreNeeded(names: set<string>, pools: seq<EffectReferences.Pool>, all: set<string>)
    requires names <= all
    requires forall pool :: pool in pools && pool.name in all ==> Gather(pool.members, Usable) <= all
    ensures WithMembers(names, pools) <= all
  {
    if pools == [] {
    } else {
      assert pools == pools[..|pools| - 1] + [pools[|pools| - 1]];
      MembersAreNeeded(names, pools[..|pools| - 1], all);
    }
  }

  lemma {:induction false} OverlaysAreNeeded(names: set<string>, presets: seq<EffectReferences.Preset>,
                                             all: set<string>)
    requires names <= all
    requires forall preset :: preset in presets && preset.name in all ==> Usable(preset.overlay) <= all
    ensures WithOverlays(names, presets) <= all
  {
    if presets == [] {
    } else {
      assert presets == presets[..|presets| - 1] + [presets[|presets| - 1]];
      OverlaysAreNeeded(names, presets[..|presets| - 1], all);
    }
  }

  /** Nothing is in use that is not needed: any closed set with the selections holds every referenced name. */
  lemma OnlyWhatIsNeeded(config: Config, runtime: seq<string>, all: set<string>)
    requires Selected(config) + Gather(runtime, Usable) <= all && Closed(all, config.effects)
    ensures Referenced(config, runtime) <= all
  {
    var start := Selected(config) + Gather(runtime, Usable);
    MembersAreNeeded(start, config.effects.pools, all);
    OverlaysAreNeeded(WithMembers(start, config.effects.pools), config.effects.presets, all);
  }

  // The cached blur

  predicate WindowNeedsBlur(rule: WindowRule) {
    rule.settings.style.blurOptimized.Or(false)
  }

  predicate LayerNeedsBlur(rule: LayerRule) {
    rule.settings.optimized.Or(false)
  }

  ghost predicate NeedsOptimizedBlur(config: Config) {
    || config.appearance.blur.optimized
    || (exists rule :: rule in config.windowRules && WindowNeedsBlur(rule))
    || (exists rule :: rule in config.layerRules && LayerNeedsBlur(rule))
  }

  method OptimizedBlurNeeded(config: Config) returns (needed: bool)
    ensures needed == NeedsOptimizedBlur(config)
  {
    if config.appearance.blur.optimized {
      return true;
    }
    for i := 0 to |config.windowRules|
      invariant forall k :: 0 <= k < i ==> !WindowNeedsBlur(config.windowRules[k])
    {
      if config.windowRules[i].settings.style.blurOptimized.Or(false) {
        assert WindowNeedsBlur(config.windowRules[i]);
        return true;
      }
    }
    for i := 0 to |config.layerRules|
      invariant forall k :: 0 <= k < i ==> !LayerNeedsBlur(config.layerRules[k])
    {
      if config.layerRules[i].settings.optimized.Or(false) {
        assert LayerNeedsBlur(config.layerRules[i]);
        return true;
      }
    }
    return false;
  }
}
