/** The parts of a loaded configuration that output, workspace and window resolution read. */
module Config {
  import opened Options

  import EffectReferences

  const MAX_WORKSPACES: nat := 64

  /** Settings that are compared as a whole and never looked into. */
  type Contents = string

  // Layout

  datatype LayoutMode = Scrolling | Dwindle | Master
  datatype CenterFocusedColumn = Never | Always | OnOverflow
  datatype MasterPosition = MasterLeft | MasterRight | MasterCenter
  datatype ColumnDisplay = Normal | Tabbed
  datatype NewTabPosition = End | AfterActive
  datatype TabBarPosition = Top | Bottom | Left | Right
  datatype WorkspaceAxis = Vertical | Horizontal
  datatype ScrollingDirection = ScrollHorizontal | ScrollVertical

  datatype Struts = Struts(left: int, right: int, top: int, bottom: int)
  datatype StrutOverrides = StrutOverrides(left: Option<int>, right: Option<int>, top: Option<int>, bottom: Option<int>)

  datatype ScrollingConfig = ScrollingConfig(
    defaultExtentFraction: Option<real>, centerUnderfullStrip: bool, centerFocused: CenterFocusedColumn)
  datatype DwindleConfig = DwindleConfig(preserveSplit: bool, newTowardCursor: bool)
  datatype MasterConfig = MasterConfig(
    defaultWidthFraction: real, newOnTop: bool, newBecomesMaster: bool, position: MasterPosition)
  datatype TabsConfig = TabsConfig(
    defaultDisplay: ColumnDisplay, newTabPosition: NewTabPosition, wrapFocus: bool, scrollSwitchesTabs: bool,
    middleClickCloses: bool)

  /** `[layout]` */
  datatype Layout = Layout(
    mode: LayoutMode, gap: int, struts: Struts, extentPresets: seq<real>, newExitsFullscreen: nat,
    scrolling: ScrollingConfig, dwindle: DwindleConfig, master: MasterConfig, tabs: TabsConfig)

  /** Per-workspace overrides; an unset field inherits. */
  datatype LayoutOverrides = LayoutOverrides(
    mode: Option<LayoutMode>, gap: Option<int>, struts: StrutOverrides, extentPresets: Option<seq<real>>,
    newExitsFullscreen: Option<nat>,
    defaultExtentFraction: Option<real>, centerUnderfullStrip: Option<bool>, centerFocused: Option<CenterFocusedColumn>,
    preserveSplit: Option<bool>, newTowardCursor: Option<bool>,
    defaultWidthFraction: Option<real>, newOnTop: Option<bool>, newBecomesMaster: Option<bool>,
    masterPosition: Option<MasterPosition>,
    defaultDisplay: Option<ColumnDisplay>, newTabPosition: Option<NewTabPosition>, wrapFocus: Option<bool>,
    scrollSwitchesTabs: Option<bool>, middleClickCloses: Option<bool>)

  /** A `[[workspace]]` rule. An empty name and an unset index mean the selector is absent; an empty output matches
      any. */
  datatype WorkspaceRule = WorkspaceRule(name: string, output: string, index: Option<int>, layout: LayoutOverrides)

  // Outputs

  datatype Inventory = Count(count: nat) | Names(names: seq<string>)
  datatype VrrMode = VrrDisabled | VrrAlways | VrrFullscreen
  datatype HdrMode = HdrOff | HdrOn | HdrAuto | HdrFullscreen
  datatype OutputMode = OutputMode(width: int, height: int, refreshMHz: int)

  /** `[output.<name>]` */
  datatype OutputRule = OutputRule(
    name: string, enabled: bool, mode: Option<OutputMode>, position: Option<(int, int)>, scale: Option<real>,
    transform: Option<int>, vrr: VrrMode, focusAtStartup: bool, allowTearing: bool, directScanout: bool, hdr: HdrMode,
    sdrWhite: real, screenEffect: Option<string>, bitDepth: int, workspaces: Option<Inventory>, minWorkspaces: int,
    cyclicWorkspaces: bool, workspaceAxis: WorkspaceAxis, defaultExtentFraction: Option<real>)

  const DEFAULT_OUTPUT := OutputRule("", true, None, None, None, None, VrrDisabled, false, false, true, HdrOff, 203.0,
                                     None, 8, None, 1, false, Vertical, None)

  // Windows

  datatype ContentType = NoContent | Photo | Video | Game

  /** The selectors of a `[[window_rule]]`. */
  datatype WindowMatch = WindowMatch(
    appIdPatterns: seq<string>, titlePatterns: seq<string>, xdgTagPatterns: seq<string>,
    contentType: Option<ContentType>, focused: Option<bool>, floating: Option<bool>, pinned: Option<bool>,
    scratchpad: Option<bool>, alone: Option<bool>, onlyWindow: Option<bool>, atStartup: Option<bool>)

  /** A length a rule sets as pixels, as a fraction, or not at all. */
  datatype Size = Size(px: Option<int>, fraction: Option<real>) {
    predicate IsSet() {
      px.Some? || fraction.Some?
    }
  }

  const NO_SIZE := Size(None, None)

  datatype Placement = Placement(
    output: Option<string>, floating: Option<bool>, width: Size, height: Size, position: Option<Contents>,
    scrollingExtent: Size, workspace: Option<Contents>, scratchpad: Option<string>, scrollingColumn: Option<string>,
    scrollingColumnOrder: Option<int>, columnDisplay: Option<ColumnDisplay>)

  datatype Behaviour = Behaviour(
    fullscreen: Option<bool>, maximizeToEdges: Option<bool>, maximize: Option<bool>, focused: Option<bool>,
    pinned: Option<bool>, confinePointer: Option<bool>, focusOnActivate: Option<bool>, vrr: Option<VrrMode>,
    allowTearing: Option<bool>, hdr: Option<HdrMode>)

  datatype Style = Style(
    opacity: Option<real>, blur: Option<bool>, blurPopups: Option<bool>, blurIgnoreAlpha: Option<real>,
    blurOptimized: Option<bool>, borderFocused: Option<Contents>, borderUnfocused: Option<Contents>,
    borderOuter: Option<Contents>, borderWidth: Option<int>, outerBorderWidth: Option<int>, cornerRadius: Option<int>,
    shadow: Option<bool>, borderEffect: Option<string>, windowEffect: Option<string>)

  /** What a window rule sets, and what the rules that match a window resolve to; an unset field leaves a default. */
  datatype WindowSettings = WindowSettings(placement: Placement, behaviour: Behaviour, style: Style)

  datatype WindowRule = WindowRule(selectors: WindowMatch, settings: WindowSettings)

  // Surfaces, animations and effects

  datatype ShellLayer = BackgroundLayer | BottomLayer | TopLayer | OverlayLayer

  /** What a layer rule sets, and what the rules that match a layer surface resolve to. */
  datatype LayerSettings = LayerSettings(
    blur: Option<bool>, blurPopups: Option<bool>, ignoreAlpha: Option<real>, optimized: Option<bool>)

  /** `[[layer_rule]]` */
  datatype LayerRule = LayerRule(
    namespaces: seq<string>, layer: Option<ShellLayer>, atStartup: Option<bool>, settings: LayerSettings)

  /** One animated event: the preset it names, which may be empty, and whether it is enabled. */
  datatype EventAnimation = EventAnimation(effect: string, enabled: bool, rest: Contents)

  datatype Animation = Animation(
    enabled: bool, windowsIn: EventAnimation, windowsOut: EventAnimation, windowsMove: EventAnimation,
    workspaces: EventAnimation, overview: EventAnimation, scratchpad: EventAnimation, border: EventAnimation,
    dimUnfocused: EventAnimation, layers: EventAnimation, windowsDrag: Contents, rest: Contents)

  /** `[effects]` */
  datatype EffectSettings = EffectSettings(
    presets: seq<EffectReferences.Preset>, pools: seq<EffectReferences.Pool>, border: string, window: string,
    screen: string, cursor: string, rest: Contents)

  /** `[workspace_presentation]` */
  datatype Presentation = Presentation(effect: string, rest: Contents)

  /** What a key binding or a hot corner does: name an effect, perhaps an empty one, or anything else. */
  datatype BoundAction = EffectAction(name: string) | OtherAction
  datatype Keybind = Keybind(action: BoundAction, rest: Contents)
  datatype HotCorner = HotCorner(enabled: bool, action: Option<Keybind>, rest: Contents)

  // The whole

  datatype TabBar = TabBar(height: int, position: TabBarPosition, hideWhenSingle: bool, visible: bool, style: string)

  datatype Blur = Blur(enabled: bool, optimized: bool, rest: Contents)

  datatype Appearance = Appearance(
    borderWidth: int, outerBorderWidth: int, blur: Blur, tabBar: TabBar, rest: Contents)
  {
    function TotalBorderWidth(): int {
      borderWidth + outerBorderWidth
    }
  }

  datatype Config = Config(
    outputs: seq<OutputRule>, workspaceRules: seq<WorkspaceRule>, windowRules: seq<WindowRule>,
    layerRules: seq<LayerRule>, layout: Layout, appearance: Appearance, emptyAbove: bool, colors: Contents,
    animation: Animation, effects: EffectSettings, presentation: Presentation, keybinds: seq<Keybind>,
    hotCorners: seq<HotCorner>, input: Contents, overview: Contents, modKey: Contents)
}
