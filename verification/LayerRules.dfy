/** Which layer rules apply to a layer surface, what they resolve to, and what samples the cached blur. */
module LayerRules {
  import opened Config
  import opened EffectUse
  import opened Options
  import opened Sequences

  import WindowRules

  datatype LayerSurface = LayerSurface(namespace: Option<string>, layer: ShellLayer, uptimeMs: nat)

  predicate Matches(search: WindowRules.Search, rule: LayerRule, s: LayerSurface) {
    && WindowRules.PatternMatches(search, rule.namespaces, s.namespace)
    && WindowRules.Agrees(rule.layer, s.layer)
    && WindowRules.Agrees(rule.atStartup, s.uptimeMs < WindowRules.STARTUP_RULE_DURATION_MS)
  }

  function MatchesSurface(search: WindowRules.Search, s: LayerSurface): LayerRule -> bool {
    (rule: LayerRule) => Matches(search, rule, s)
  }

  function SettingsOf(rule: LayerRule): LayerSettings {
    rule.settings
  }

  /** The settings of the rules that match, in order. */
  function Matching(search: WindowRules.Search, rules: seq<LayerRule>, s: LayerSurface): seq<LayerSettings> {
    Filtered(rules, MatchesSurface(search, s), SettingsOf)
  }

  ghost function LatestSettings(matching: seq<LayerSettings>): LayerSettings {
    LayerSettings(
      Latest(matching, (l: LayerSettings) => l.blur), Latest(matching, (l: LayerSettings) => l.blurPopups),
      Latest(matching, (l: LayerSettings) => l.ignoreAlpha), Latest(matching, (l: LayerSettings) => l.optimized))
  }

  /** Each setting comes from the last matching rule that has it. */
  ghost function Resolved(search: WindowRules.Search, rules: seq<LayerRule>, s: LayerSurface): LayerSettings {
    LatestSettings(Matching(search, rules, s))
  }

  method Apply(settings: LayerSettings, below: LayerSettings, ghost matching: seq<LayerSettings>)
    returns (r: LayerSettings)
    requires below == LatestSettings(matching)
    ensures r == LatestSettings(matching + [settings])
  {
    assert (matching + [settings])[..|matching|] == matching;
    r := below;
    if settings.blur.Some? {
      r := r.(blur := settings.blur);
    }
    if settings.blurPopups.Some? {
      r := r.(blurPopups := settings.blurPopups);
    }
    if settings.ignoreAlpha.Some? {
      r := r.(ignoreAlpha := settings.ignoreAlpha);
    }
    if settings.optimized.Some? {
      r := r.(optimized := settings.optimized);
    }
  }

  method ResolveLayerRules(search: WindowRules.Search, rules: seq<LayerRule>, s: LayerSurface)
    returns (resolved: LayerSettings)
    ensures resolved == Resolved(search, rules, s)
  {
    resolved := LayerSettings(None, None, None, None);
    for i := 0 to |rules|
      invariant resolved == Resolved(search, rules[..i], s)
    {
      ghost var before := Matching(search, rules[..i], s);
      FilteredSnoc(rules, i, MatchesSurface(search, s), SettingsOf);
      if !Matches(search, rules[i], s) {
        assert before + [] == before;
        continue;
      }
      resolved := Apply(rules[i].settings, resolved, before);
    }
    assert rules[..|rules|] == rules;
  }

  // What is drawn with the cached blur

  /** How a surface blurs what is behind it: whether it does, above which alpha, and whether from the cached blur. */
  datatype SurfaceBlur = SurfaceBlur(drawn: bool, ignoreAlpha: real, cached: bool)

  function BlurOf(blur: Blur, enabled: Option<bool>, ignoreAlpha: Option<real>, optimized: Option<bool>): SurfaceBlur {
    SurfaceBlur(blur.enabled && enabled.Or(false), ignoreAlpha.Or(0.0), optimized.Or(blur.optimized))
  }

  /** A layer surface and its popups. */
  ghost function LayerBlurs(config: Config, search: WindowRules.Search, s: LayerSurface): (SurfaceBlur, SurfaceBlur) {
    var r, blur := Resolved(search, config.layerRules, s), config.appearance.blur;
    (BlurOf(blur, r.blur, r.ignoreAlpha, r.optimized), BlurOf(blur, r.blurPopups, r.ignoreAlpha, r.optimized))
  }

  /** A window and its popups. */
  ghost function WindowBlurs(config: Config, search: WindowRules.Search, w: WindowRules.Window)
    : (SurfaceBlur, SurfaceBlur)
  {
    var style, blur := WindowRules.Resolved(search, config.windowRules, w).style, config.appearance.blur;
    (BlurOf(blur, style.blur, style.blurIgnoreAlpha, style.blurOptimized),
     BlurOf(blur, style.blurPopups, style.blurIgnoreAlpha, style.blurOptimized))
  }

  predicate SamplesCache(s: SurfaceBlur) {
    s.drawn && s.cached
  }

  /** An output keeps the node of the cached blur. */
  ghost predicate KeepsCache(config: Config) {
    config.appearance.blur.enabled && NeedsOptimizedBlur(config)
  }

  lemma {:induction false} LayerOptimizedIsSet(matching: seq<LayerSettings>)
    requires LatestSettings(matching).optimized == Some(true)
    ensures exists l :: l in matching && l.optimized == Some(true)
  {
    var n := |matching| - 1;
    assert matching == matching[..n] + [matching[n]];
    if matching[n].optimized.None? {
      LayerOptimizedIsSet(matching[..n]);
    }
  }

  lemma {:induction false} WindowOptimizedIsSet(rules: seq<WindowRule>)
    requires WindowRules.LatestStyle(rules).blurOptimized == Some(true)
    ensures exists rule :: rule in rules && WindowNeedsBlur(rule)
  {
    var n := |rules| - 1;
    assert rules == rules[..n] + [rules[n]];
    if rules[n].settings.style.blurOptimized.None? {
      WindowOptimizedIsSet(rules[..n]);
    } else {
      assert WindowNeedsBlur(rules[n]);
    }
  }

  lemma {:induction false} MatchingAreRules(search: WindowRules.Search, rules: seq<LayerRule>, s: LayerSurface)
    ensures forall l :: l in Matching(search, rules, s) ==> exists rule :: rule in rules && rule.settings == l
  {
    if rules == [] {
    } else {
      var n := |rules| - 1;
      var before := Matching(search, rules[..n], s);
      MatchingAreRules(search, rules[..n], s);
      forall l | l in Matching(search, rules, s)
        ensures exists rule :: rule in rules && rule.settings == l
      {
        if l in before {
          var rule :| rule in rules[..n] && rule.settings == l;
          assert rule in rules;
        } else {
          assert rules[n] in rules && rules[n].settings == l;
        }
      }
    }
  }

  lemma {:induction false} MatchingWindowRules(search: WindowRules.Search, rules: seq<WindowRule>,
                                               w: WindowRules.Window)
    ensures forall rule :: rule in WindowRules.Matching(search, rules, w) ==> rule in rules
  {
    if rules == [] {
    } else {
      var n := |rules| - 1;
      var before := WindowRules.Matching(search, rules[..n], w);
      MatchingWindowRules(search, rules[..n], w);
      assert rules == rules[..n] + [rules[n]];
      assert WindowRules.Matching(search, rules, w)
          == before + if WindowRules.Matches(search, rules[n].selectors, w) then [rules[n]] else [];
    }
  }

  lemma LayerCacheIsKept(config: Config, search: WindowRules.Search, s: LayerSurface)
    requires Resolved(search, config.layerRules, s).optimized.Or(config.appearance.blur.optimized)
    ensures NeedsOptimizedBlur(config)
  {
    var matching := Matching(search, config.layerRules, s);
    if LatestSettings(matching).optimized == Some(true) {
      LayerOptimizedIsSet(matching);
      var l :| l in matching && l.optimized == Some(true);
      MatchingAreRules(search, config.layerRules, s);
      var rule :| rule in config.layerRules && rule.settings == l;
      assert LayerNeedsBlur(rule);
    }
  }

  lemma WindowCacheIsKept(config: Config, search: WindowRules.Search, w: WindowRules.Window)
    requires WindowRules.Resolved(search, config.windowRules,
                                  w).style.blurOptimized.Or(config.appearance.blur.optimized)
    ensures NeedsOptimizedBlur(config)
  {
    var matching := WindowRules.Matching(search, config.windowRules, w);
    if WindowRules.LatestStyle(matching).blurOptimized == Some(true) {
      WindowOptimizedIsSet(matching);
      var rule :| rule in matching && WindowNeedsBlur(rule);
      MatchingWindowRules(search, config.windowRules, w);
    }
  }

  /** Whatever samples the cached blur, a window, a layer surface or a popup of either, finds it kept. */
  lemma SampledCacheIsKept(config: Config, search: WindowRules.Search, w: WindowRules.Window, s: LayerSurface)
    ensures var (layer, layerPopup) := LayerBlurs(config, search, s);
            var (window, windowPopup) := WindowBlurs(config, search, w);
            SamplesCache(layer) || SamplesCache(layerPopup) || SamplesCache(window) || SamplesCache(windowPopup) ==>
              KeepsCache(config)
  {
    if LayerBlurs(config, search, s).0.cached {
      LayerCacheIsKept(config, search, s);
    }
    if WindowBlurs(config, search, w).0.cached {
      WindowCacheIsKept(config, search, w);
    }
  }

  // What one rule does

  lemma SettingsCover(matching: seq<LayerSettings>, l: LayerSettings)
    ensures var below := LatestSettings(matching);
            LatestSettings(matching + [l])
            == LayerSettings(Over(l.blur, below.blur), Over(l.blurPopups, below.blurPopups),
                             Over(l.ignoreAlpha, below.ignoreAlpha), Over(l.optimized, below.optimized))
  {
    assert (matching + [l])[..|matching|] == matching;
  }

  lemma MatchingSnoc(search: WindowRules.Search, rules: seq<LayerRule>, rule: LayerRule, s: LayerSurface)
    ensures Matching(search, rules + [rule], s)
         == Matching(search, rules, s) + if Matches(search, rule, s) then [rule.settings] else []
  {
    var all := rules + [rule];
    assert all[..|rules|] == rules && all[..|rules| + 1] == all;
    FilteredSnoc(all, |rules|, MatchesSurface(search, s), SettingsOf);
  }

  /** A rule is for a surface whose namespace its patterns find, on the layer it names, in its first minute if it asks
      for that. */
  ghost predicate IsFor(search: WindowRules.Search, rule: LayerRule, s: LayerSurface) {
    && WindowRules.Finds(search, rule.namespaces, s.namespace) && WindowRules.Permits(rule.layer, s.layer)
    && WindowRules.Permits(rule.atStartup, s.uptimeMs < 60_000)
  }

  lemma IsForExactly(search: WindowRules.Search, rule: LayerRule, s: LayerSurface)
    ensures Matches(search, rule, s) <==> IsFor(search, rule, s)
  {
    WindowRules.FindsExactly(search, rule.namespaces, s.namespace);
  }

  /** A later rule covers, for the surfaces it is for, every setting it has, and leaves all others; no rules at all set
      nothing. */
  lemma LaterRuleCovers(search: WindowRules.Search, rules: seq<LayerRule>, rule: LayerRule, s: LayerSurface)
    ensures var below, l := Resolved(search, rules, s), rule.settings;
            Resolved(search, rules + [rule], s)
            == if IsFor(search, rule, s) then
                 LayerSettings(Over(l.blur, below.blur), Over(l.blurPopups, below.blurPopups),
                               Over(l.ignoreAlpha, below.ignoreAlpha), Over(l.optimized, below.optimized))
               else below
    ensures Resolved(search, [], s) == LayerSettings(None, None, None, None)
  {
    var before := Matching(search, rules, s);
    IsForExactly(search, rule, s);
    MatchingSnoc(search, rules, rule, s);
    if IsFor(search, rule, s) {
      SettingsCover(before, rule.settings);
    } else {
      assert before + [] == before;
    }
  }
}
