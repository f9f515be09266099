/** Which window rules apply to a window, and what they resolve to. */
module WindowRules {
  import opened Config
  import opened Options
  import opened Sequences

  const STARTUP_RULE_DURATION_MS: nat := 60_000

  datatype Window = Window(
    appId: Option<string>, title: Option<string>, xdgTag: Option<string>, contentType: ContentType,
    focused: bool, floating: bool, pinned: bool, scratchpad: bool, alone: bool, onlyWindow: bool, uptimeMs: nat)

  /** Whether a pattern, as a regular expression, is found in a value. */
  type Search = (string, string) -> bool

  /** At least one pattern says something. */
  predicate Constrains(patterns: seq<string>) {
    exists p :: p in patterns && p != ""
  }

  predicate PatternMatches(search: Search, patterns: seq<string>, value: Option<string>) {
    Constrains(patterns) ==> value.Some? && exists p :: p in patterns && search(p, value.value)
  }

  predicate Agrees<T(==)>(selector: Option<T>, value: T) {
    selector.Some? ==> selector.value == value
  }

  predicate Matches(search: Search, m: WindowMatch, w: Window) {
    && PatternMatches(search, m.appIdPatterns, w.appId)
    && PatternMatches(search, m.titlePatterns, w.title)
    && PatternMatches(search, m.xdgTagPatterns, w.xdgTag)
    && Agrees(m.contentType, w.contentType)
    && Agrees(m.focused, w.focused)
    && Agrees(m.floating, w.floating)
    && Agrees(m.pinned, w.pinned)
    && Agrees(m.scratchpad, w.scratchpad)
    && Agrees(m.alone, w.alone)
    && Agrees(m.onlyWindow, w.onlyWindow)
    && Agrees(m.atStartup, w.uptimeMs < STARTUP_RULE_DURATION_MS)
  }

  /** The rules that match, in order. */
  function Matching(search: Search, rules: seq<WindowRule>, w: Window): seq<WindowRule> {
    if rules == [] then []
    else
      var last := rules[|rules| - 1];
      Matching(search, rules[..|rules| - 1], w) + if Matches(search, last.selectors, w) then [last] else []
  }

  // Last writer wins

  function IfSet(size: Size): Option<Size> {
    if size.IsSet() then Some(size) else None
  }

  ghost function LatestPlacement(rules: seq<WindowRule>): Placement {
    Placement(
      Latest(rules, (r: WindowRule) => r.settings.placement.output),
      Latest(rules, (r: WindowRule) => r.settings.placement.floating),
      Latest(rules, (r: WindowRule) => IfSet(r.settings.placement.width)).Or(NO_SIZE),
      Latest(rules, (r: WindowRule) => IfSet(r.settings.placement.height)).Or(NO_SIZE),
      Latest(rules, (r: WindowRule) => r.settings.placement.position),
      Latest(rules, (r: WindowRule) => IfSet(r.settings.placement.scrollingExtent)).Or(NO_SIZE),
      Latest(rules, (r: WindowRule) => r.settings.placement.workspace),
      Latest(rules, (r: WindowRule) => r.settings.placement.scratchpad),
      Latest(rules, (r: WindowRule) => r.settings.placement.scrollingColumn),
      Latest(rules, (r: WindowRule) => r.settings.placement.scrollingColumnOrder),
      Latest(rules, (r: WindowRule) => r.settings.placement.columnDisplay))
  }

  ghost function LatestBehaviour(rules: seq<WindowRule>): Behaviour {
    Behaviour(
      Latest(rules, (r: WindowRule) => r.settings.behaviour.fullscreen),
      Latest(rules, (r: WindowRule) => r.settings.behaviour.maximizeToEdges),
      Latest(rules, (r: WindowRule) => r.settings.behaviour.maximize),
      Latest(rules, (r: WindowRule) => r.settings.behaviour.focused),
      Latest(rules, (r: WindowRule) => r.settings.behaviour.pinned),
      Latest(rules, (r: WindowRule) => r.settings.behaviour.confinePointer),
      Latest(rules, (r: WindowRule) => r.settings.behaviour.focusOnActivate),
      Latest(rules, (r: WindowRule) => r.settings.behaviour.vrr),
      Latest(rules, (r: WindowRule) => r.settings.behaviour.allowTearing),
      Latest(rules, (r: WindowRule) => r.settings.behaviour.hdr))
  }

  ghost function LatestStyle(rules: seq<WindowRule>): Style {
    Style(
      Latest(rules, (r: WindowRule) => r.settings.style.opacity),
      Latest(rules, (r: WindowRule) => r.settings.style.blur),
      Latest(rules, (r: WindowRule) => r.settings.style.blurPopups),
      Latest(rules, (r: WindowRule) => r.settings.style.blurIgnoreAlpha),
      Latest(rules, (r: WindowRule) => r.settings.style.blurOptimized),
      Latest(rules, (r: WindowRule) => r.settings.style.borderFocused),
      Latest(rules, (r: WindowRule) => r.settings.style.borderUnfocused),
      Latest(rules, (r: WindowRule) => r.settings.style.borderOuter),
      Latest(rules, (r: WindowRule) => r.settings.style.borderWidth),
      Latest(rules, (r: WindowRule) => r.settings.style.outerBorderWidth),
      Latest(rules, (r: WindowRule) => r.settings.style.cornerRadius),
      Latest(rules, (r: WindowRule) => r.settings.style.shadow),
      Latest(rules, (r: WindowRule) => r.settings.style.borderEffect),
      Latest(rules, (r: WindowRule) => r.settings.style.windowEffect))
  }

  /** Each setting comes from the last matching rule that has it; a size in pixels and one as a fraction displace each
      other. */
  ghost function Resolved(search: Search, rules: seq<WindowRule>, w: Window): WindowSettings {
    var matching := Matching(search, rules, w);
    WindowSettings(LatestPlacement(matching), LatestBehaviour(matching), LatestStyle(matching))
  }

  method ApplySize(size: Size, below: Size) returns (r: Size)
    ensures r == IfSet(size).Or(below)
  {
    r := below;
    if size.px.Some? || size.fraction.Some? {
      r := Size(size.px, size.fraction);
    }
  }

  method ApplyPlacement(p: Placement, below: Placement, ghost rules: seq<WindowRule>, ghost rule: WindowRule)
    returns (r: Placement)
    requires below == LatestPlacement(rules) && rule.settings.placement == p
    ensures r == LatestPlacement(rules + [rule])
  {
    assert (rules + [rule])[..|rules|] == rules;
    var width := ApplySize(p.width, below.width);
    var height := ApplySize(p.height, below.height);
    var extent := ApplySize(p.scrollingExtent, below.scrollingExtent);
    r := Placement(
      Over(p.output, below.output), Over(p.floating, below.floating), width, height, Over(p.position, below.position),
      extent, Over(p.workspace, below.workspace), Over(p.scratchpad, below.scratchpad),
      Over(p.scrollingColumn, below.scrollingColumn), Over(p.scrollingColumnOrder, below.scrollingColumnOrder),
      Over(p.columnDisplay, below.columnDisplay));
  }

  method ApplyBehaviour(b: Behaviour, below: Behaviour, ghost rules: seq<WindowRule>, ghost rule: WindowRule)
    returns (r: Behaviour)
    requires below == LatestBehaviour(rules) && rule.settings.behaviour == b
    ensures r == LatestBehaviour(rules + [rule])
  {
    assert (rules + [rule])[..|rules|] == rules;
    r := Behaviour(
      Over(b.fullscreen, below.fullscreen), Over(b.maximizeToEdges, below.maximizeToEdges),
      Over(b.maximize, below.maximize), Over(b.focused, below.focused), Over(b.pinned, below.pinned),
      Over(b.confinePointer, below.confinePointer), Over(b.focusOnActivate, below.focusOnActivate),
      Over(b.vrr, below.vrr), Over(b.allowTearing, below.allowTearing), Over(b.hdr, below.hdr));
  }

  method ApplyStyle(s: Style, below: Style, ghost rules: seq<WindowRule>, ghost rule: WindowRule) returns (r: Style)
    requires below == LatestStyle(rules) && rule.settings.style == s
    ensures r == LatestStyle(rules + [rule])
  {
    assert (rules + [rule])[..|rules|] == rules;
    r := Style(
      Over(s.opacity, below.opacity), Over(s.blur, below.blur), Over(s.blurPopups, below.blurPopups),
      Over(s.blurIgnoreAlpha, below.blurIgnoreAlpha), Over(s.blurOptimized, below.blurOptimized),
      Over(s.borderFocused, below.borderFocused), Over(s.borderUnfocused, below.borderUnfocused),
      Over(s.borderOuter, below.borderOuter), Over(s.borderWidth, below.borderWidth),
      Over(s.outerBorderWidth, below.outerBorderWidth), Over(s.cornerRadius, below.cornerRadius),
      Over(s.shadow, below.shadow), Over(s.borderEffect, below.borderEffect),
      Over(s.windowEffect, below.windowEffect));
  }

  const NO_SETTINGS := WindowSettings(
    Placement(None, None, NO_SIZE, NO_SIZE, None, NO_SIZE, None, None, None, None, None),
    Behaviour(None, None, None, None, None, None, None, None, None, None),
    Style(None, None, None, None, None, None, None, None, None, None, None, None, None, None))

  method ResolveWindowRules(search: Search, rules: seq<WindowRule>, w: Window) returns (resolved: WindowSettings)
    ensures resolved == Resolved(search, rules, w)
  {
    resolved := NO_SETTINGS;
    for i := 0 to |rules|
      invariant resolved == Resolved(search, rules[..i], w)
    {
      var rule := rules[i];
      ghost var before := Matching(search, rules[..i], w);
      assert rules[..i + 1][..i] == rules[..i];
      if !Matches(search, rule.selectors, w) {
        assert before + [] == before;
        continue;
      }
      var placement := ApplyPlacement(rule.settings.placement, resolved.placement, before, rule);
      var behaviour := ApplyBehaviour(rule.settings.behaviour, resolved.behaviour, before, rule);
      var style := ApplyStyle(rule.settings.style, resolved.style, before, rule);
      resolved := WindowSettings(placement, behaviour, style);
    }
    assert rules[..|rules|] == rules;
  }

  // What the tearing override depends on

  predicate SetsTearing(rule: WindowRule) {
    rule.settings.behaviour.allowTearing.Some?
  }

  datatype TearingRule = TearingRule(selectors: WindowMatch, allowTearing: Option<bool>)

  function TearingPart(rule: WindowRule): TearingRule {
    TearingRule(rule.selectors, rule.settings.behaviour.allowTearing)
  }

  /** The rules that decide on tearing, reduced to what they match and what they decide. */
  function TearingRules(rules: seq<WindowRule>): seq<TearingRule> {
    Filtered(rules, SetsTearing, TearingPart)
  }

  function LastTearing(search: Search, rules: seq<TearingRule>, w: Window): Option<bool> {
    if rules == [] then None
    else if Matches(search, rules[|rules| - 1].selectors, w) then rules[|rules| - 1].allowTearing
    else LastTearing(search, rules[..|rules| - 1], w)
  }

  /** The override a window resolves to is decided by those reduced rules alone. */
  lemma {:induction false} TearingOverrideDependsOn(search: Search, rules: seq<WindowRule>, w: Window)
    ensures Resolved(search, rules, w).behaviour.allowTearing == LastTearing(search, TearingRules(rules), w)
  {
    if rules == [] {
    } else {
      var n := |rules| - 1;
      var last := rules[n];
      TearingOverrideDependsOn(search, rules[..n], w);
      var before, reduced := Matching(search, rules[..n], w), TearingRules(rules[..n]);
      if SetsTearing(last) {
        assert TearingRules(rules) == reduced + [TearingPart(last)];
      } else {
        assert TearingRules(rules) == reduced;
      }
      assert Matching(search, rules, w) == if Matches(search, last.selectors, w) then before + [last] else before;
    }
  }

  // What the effects of a window depend on

  predicate SelectsEffect(rule: WindowRule) {
    rule.settings.style.borderEffect.Some? || rule.settings.style.windowEffect.Some?
  }

  /** Rules that name no effect leave every window its defaults. */
  lemma {:induction false} NoEffectSelected(search: Search, rules: seq<WindowRule>, w: Window)
    requires forall rule :: rule in rules ==> !SelectsEffect(rule)
    ensures var style := Resolved(search, rules, w).style;
            style.borderEffect.None? && style.windowEffect.None?
  {
    if rules == [] {
    } else {
      var n := |rules| - 1;
      var before := Matching(search, rules[..n], w);
      NoEffectSelected(search, rules[..n], w);
      assert rules[n] in rules;
      assert Matching(search, rules, w)
          == if Matches(search, rules[n].selectors, w) then before + [rules[n]] else before;
    }
  }

  // What one rule does

  /** A list of patterns finds a value: some pattern does, unless none says anything. */
  ghost predicate Finds(search: Search, patterns: seq<string>, value: Option<string>) {
    || (forall p :: p in patterns ==> p == "")
    || (value.Some? && exists p :: p in patterns && search(p, value.value))
  }

  /** A selector is not set, or to this value. */
  ghost predicate Permits<T>(selector: Option<T>, value: T) {
    selector == None || selector == Some(value)
  }

  /** A rule is for a window when its patterns find the window's names and every other selector it sets has the value
      the window has; the startup selector asks for the first minute of a window. */
  ghost predicate IsFor(search: Search, m: WindowMatch, w: Window) {
    && Finds(search, m.appIdPatterns, w.appId) && Finds(search, m.titlePatterns, w.title)
    && Finds(search, m.xdgTagPatterns, w.xdgTag)
    && Permits(m.contentType, w.contentType) && Permits(m.focused, w.focused) && Permits(m.floating, w.floating)
    && Permits(m.pinned, w.pinned) && Permits(m.scratchpad, w.scratchpad) && Permits(m.alone, w.alone)
    && Permits(m.onlyWindow, w.onlyWindow) && Permits(m.atStartup, w.uptimeMs < 60_000)
  }

  lemma FindsExactly(search: Search, patterns: seq<string>, value: Option<string>)
    ensures PatternMatches(search, patterns, value) <==> Finds(search, patterns, value)
  {
    if p :| p in patterns && p != "" {
      assert Constrains(patterns);
    }
  }

  lemma IsForExactly(search: Search, m: WindowMatch, w: Window)
    ensures Matches(search, m, w) <==> IsFor(search, m, w)
  {
    FindsExactly(search, m.appIdPatterns, w.appId);
    FindsExactly(search, m.titlePatterns, w.title);
    FindsExactly(search, m.xdgTagPatterns, w.xdgTag);
  }

  /** A size in pixels or as a fraction displaces the one below it. */
  function SizeOver(above: Size, below: Size): Size {
    if above.px.Some? || above.fraction.Some? then above else below
  }

  /** Every setting, over those of the rules before. */
  function Covering(above: WindowSettings, below: WindowSettings): WindowSettings {
    var p, q := above.placement, below.placement;
    var s, t := above.behaviour, below.behaviour;
    var u, v := above.style, below.style;
    WindowSettings(
      Placement(Over(p.output, q.output), Over(p.floating, q.floating), SizeOver(p.width, q.width),
                SizeOver(p.height, q.height), Over(p.position, q.position),
                SizeOver(p.scrollingExtent, q.scrollingExtent), Over(p.workspace, q.workspace),
                Over(p.scratchpad, q.scratchpad), Over(p.scrollingColumn, q.scrollingColumn),
                Over(p.scrollingColumnOrder, q.scrollingColumnOrder), Over(p.columnDisplay, q.columnDisplay)),
      Behaviour(Over(s.fullscreen, t.fullscreen), Over(s.maximizeToEdges, t.maximizeToEdges),
                Over(s.maximize, t.maximize), Over(s.focused, t.focused), Over(s.pinned, t.pinned),
                Over(s.confinePointer, t.confinePointer), Over(s.focusOnActivate, t.focusOnActivate),
                Over(s.vrr, t.vrr), Over(s.allowTearing, t.allowTearing), Over(s.hdr, t.hdr)),
      Style(Over(u.opacity, v.opacity), Over(u.blur, v.blur), Over(u.blurPopups, v.blurPopups),
            Over(u.blurIgnoreAlpha, v.blurIgnoreAlpha), Over(u.blurOptimized, v.blurOptimized),
            Over(u.borderFocused, v.borderFocused), Over(u.borderUnfocused, v.borderUnfocused),
            Over(u.borderOuter, v.borderOuter), Over(u.borderWidth, v.borderWidth),
            Over(u.outerBorderWidth, v.outerBorderWidth), Over(u.cornerRadius, v.cornerRadius),
            Over(u.shadow, v.shadow), Over(u.borderEffect, v.borderEffect), Over(u.windowEffect, v.windowEffect)))
  }

  lemma PlacementCovers(rules: seq<WindowRule>, rule: WindowRule, below: WindowSettings)
    requires below.placement == LatestPlacement(rules)
    ensures LatestPlacement(rules + [rule]) == Covering(rule.settings, below).placement
  {
    assert (rules + [rule])[..|rules|] == rules;
  }

  lemma BehaviourCovers(rules: seq<WindowRule>, rule: WindowRule, below: WindowSettings)
    requires below.behaviour == LatestBehaviour(rules)
    ensures LatestBehaviour(rules + [rule]) == Covering(rule.settings, below).behaviour
  {
    assert (rules + [rule])[..|rules|] == rules;
  }

  lemma StyleCovers(rules: seq<WindowRule>, rule: WindowRule, below: WindowSettings)
    requires below.style == LatestStyle(rules)
    ensures LatestStyle(rules + [rule]) == Covering(rule.settings, below).style
  {
    assert (rules + [rule])[..|rules|] == rules;
  }

  /** A later rule covers, for the windows it is for, every setting it has, and leaves all others as the rules before it
      resolve; no rules at all set nothing. */
  lemma LaterRuleCovers(search: Search, rules: seq<WindowRule>, rule: WindowRule, w: Window)
    ensures Resolved(search, rules + [rule], w)
         == if IsFor(search, rule.selectors, w) then Covering(rule.settings, Resolved(search, rules, w))
            else Resolved(search, rules, w)
    ensures Resolved(search, [], w) == NO_SETTINGS
  {
    var before := Matching(search, rules, w);
    assert (rules + [rule])[..|rules|] == rules;
    IsForExactly(search, rule.selectors, w);
    if IsFor(search, rule.selectors, w) {
      PlacementCovers(before, rule, Resolved(search, rules, w));
      BehaviourCovers(before, rule, Resolved(search, rules, w));
      StyleCovers(before, rule, Resolved(search, rules, w));
    } else {
      assert before + [] == before;
    }
  }
}
