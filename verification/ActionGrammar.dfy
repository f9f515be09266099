/** Parsing an action against a table of action names and argument kinds. */
module ActionGrammar {
  import opened Config
  import opened Decimals
  import opened Options
  import opened WorkspaceArguments

  import EffectReferences

  datatype ArgKind =
    | NoArgument | Command | Fraction | FractionDelta | Workspace
    | WindowEffect(cycle: bool) | ScreenEffect(cycle: bool)
    | CursorEffect(cycle: bool) | Output | OptionalOutput | OptionalScratchpad | WindowId | OptionalWindowId
    | ColumnDisplayArg | TabIndex | SkipConfirmation | LayoutModeArg

  /** One row of the action table. */
  datatype Spec = Spec(name: string, action: nat, kind: ArgKind)

  /** The one command whose argument is a submap name. */
  const SUBMAP: nat := 0

  datatype Payload =
    | Nothing
    | Spawn(command: string)
    | Submap(submap: string)
    | FractionOf(fraction: real)
    | ToWorkspace(workspace: WorkspaceArg)
    | ForWindow(effect: string, window: string)
    | ForScreen(effect: string, screen: string)
    | ForCursor(effect: string)
    | OnOutput(output: string)
    | OnScratchpad(scratchpad: string)
    | OnWindow(window: string)
    | Display(display: ColumnDisplay)
    | Tab(index: int)
    | Quit(skipConfirmation: bool)
    | Mode(mode: Option<LayoutMode>, toggleSequence: seq<LayoutMode>)

  /** Trying one row: it may accept, reject the whole text, or leave it to later rows. */
  datatype Attempt = Accepted(action: nat, payload: Payload) | Rejected | Passed

  /** Reads a decimal fraction, which is left to the standard library. */
  type Numbers = string -> Option<real>

  /** `takeActionArg`: what follows the name and a colon, when there is something. */
  function Argument(value: string, name: string): Option<string> {
    if |value| <= |name| + 1 || value[|name|] != ':' || !(name <= value) then None else Some(value[|name| + 1..])
  }

  predicate ValidSubmapName(name: string) {
    name != "" && name != "disable" && ']' !in name
  }

  function LayoutModeNamed(name: string): Option<LayoutMode> {
    if name == "scrolling" then Some(Scrolling)
    else if name == "dwindle" then Some(Dwindle)
    else if name == "master" then Some(Master)
    else None
  }

  /** The pieces between separators; the empty text has none. */
  function Split(s: string, c: char): seq<string>
    decreases |s|
  {
    if s == "" then []
    else
      var k := Find(s, c, 0);
      if k == |s| then [s] else [s[..k]] + if k + 1 == |s| then [""] else Split(s[k + 1..], c)
  }

  /** The distinct modes a list of names stands for. */
  function Modes(names: seq<string>): Option<seq<LayoutMode>> {
    if names == [] then Some([])
    else
      var earlier, last := Modes(names[..|names| - 1]), LayoutModeNamed(names[|names| - 1]);
      if earlier.None? || last.None? || last.value in earlier.value then None else Some(earlier.value + [last.value])
  }

  /** A signed 32-bit integer in decimal. */
  function Integer(s: string): Option<int> {
    var digits := if s != "" && s[0] == '-' then s[1..] else s;
    if digits == "" || !AllDigits(digits) then None
    else
      var v := if |digits| < |s| then -(Value(digits) as int) else Value(digits);
      if -0x8000_0000 <= v < 0x8000_0000 then Some(v) else None
  }

  function EffectPayload(kind: ArgKind, effect: string, target: string): Payload {
    match kind
    case CursorEffect(_) => ForCursor(effect)
    case ScreenEffect(_) => ForScreen(effect, target)
    case _ => ForWindow(effect, target)
  }

  /** One case of the switch in `parseAction`. */
  function Try(spec: Spec, value: string, numbers: Numbers): Attempt {
    var arg := Argument(value, spec.name);
    var exact := value == spec.name;
    match spec.kind
    case NoArgument => if exact then Accepted(spec.action, Nothing) else Passed
    case Command =>
      if arg.None? then Passed
      else if spec.action != SUBMAP then Accepted(spec.action, Spawn(arg.value))
      else if ValidSubmapName(arg.value) then Accepted(spec.action, Submap(arg.value))
      else Rejected
    case Fraction =>
      if arg.None? then Passed
      else
        var fraction := numbers(arg.value);
        if fraction.Some? && 0.1 <= fraction.value <= 1.0 then Accepted(spec.action, FractionOf(fraction.value))
        else Passed
    case FractionDelta =>
      if arg.None? then Passed
      else
        var delta := numbers(if arg.value != "" && arg.value[0] == '+' then arg.value[1..] else arg.value);
        if delta.Some? && delta.value != 0.0 && -0.9 <= delta.value <= 0.9
        then Accepted(spec.action, FractionOf(delta.value)) else Passed
    case Workspace =>
      if arg.None? || Parsed(arg.value).None? then Passed
      else Accepted(spec.action, ToWorkspace(Parsed(arg.value).value))
    case WindowEffect(cycle) => TryEffect(spec, cycle, false, arg, exact)
    case ScreenEffect(cycle) => TryEffect(spec, cycle, false, arg, exact)
    case CursorEffect(cycle) => TryEffect(spec, cycle, true, arg, exact)
    case Output => if arg.None? then Passed else Accepted(spec.action, OnOutput(arg.value))
    case OptionalOutput =>
      if exact then Accepted(spec.action, OnOutput(""))
      else if arg.None? then Passed else Accepted(spec.action, OnOutput(arg.value))
    case OptionalScratchpad =>
      if exact then Accepted(spec.action, OnScratchpad(""))
      else if arg.None? then Passed else Accepted(spec.action, OnScratchpad(arg.value))
    case WindowId => if arg.None? then Passed else Accepted(spec.action, OnWindow(arg.value))
    case OptionalWindowId =>
      if exact then Accepted(spec.action, OnWindow(""))
      else if arg.None? then Passed else Accepted(spec.action, OnWindow(arg.value))
    case ColumnDisplayArg =>
      if arg == Some("tabbed") then Accepted(spec.action, Display(Tabbed))
      else if arg == Some("normal") then Accepted(spec.action, Display(Normal))
      else Passed
    case TabIndex =>
      if arg.None? || Integer(arg.value).None? || Integer(arg.value) == Some(0) then Passed
      else Accepted(spec.action, Tab(Integer(arg.value).value))
    case SkipConfirmation =>
      if exact then Accepted(spec.action, Quit(false))
      else if arg == Some("skip-confirmation") then Accepted(spec.action, Quit(true))
      else Passed
    case LayoutModeArg => TryMode(spec, arg)
  }

  function TryMode(spec: Spec, arg: Option<string>): Attempt {
    if arg.None? then Passed
    else if LayoutModeNamed(arg.value).Some? then Accepted(spec.action, Mode(LayoutModeNamed(arg.value), []))
    else if arg.value == "toggle" then Accepted(spec.action, Mode(None, []))
    else if !("toggle:" <= arg.value) then Passed
    else
      var modes := Modes(Split(arg.value[|"toggle:"|..], ','));
      if modes.None? then Rejected
      else if |modes.value| < 2 then Passed
      else Accepted(spec.action, Mode(None, modes.value))
  }

  function TryEffect(spec: Spec, cycle: bool, cursor: bool, arg: Option<string>, exact: bool): Attempt {
    if !(cycle && exact) && arg.None? then Passed
    else
      var text := arg.Or("");
      var slash := Find(text, '/', 0);
      var effect := text[..slash];
      var target := if slash == |text| then "" else text[slash + 1..];
      if || (!cycle && effect == "") || (cycle && effect == EffectReferences.EFFECT_OFF)
         || (slash != |text| && (cursor || target == "")) then Passed
      else Accepted(spec.action, EffectPayload(spec.kind, effect, target))
  }

  /** What trying the rows in turn gives: the first that does not pass decides. */
  function Tried(table: seq<Spec>, value: string, numbers: Numbers, from: nat): Option<(nat, Payload)>
    requires from <= |table|
    decreases |table| - from
  {
    if from == |table| then None
    else
      match Try(table[from], value, numbers)
      case Accepted(action, payload) => Some((action, payload))
      case Rejected => None
      case Passed => Tried(table, value, numbers, from + 1)
  }

  /** `parseAction` */
  method ParseAction(table: seq<Spec>, value: string, numbers: Numbers) returns (parsed: Option<(nat, Payload)>)
    ensures parsed == Tried(table, value, numbers, 0)
  {
    for i := 0 to |table|
      invariant Tried(table, value, numbers, 0) == Tried(table, value, numbers, i)
    {
      match Try(table[i], value, numbers) {
        case Accepted(action, payload) => return Some((action, payload));
        case Rejected => return None;
        case Passed =>
      }
    }
    return None;
  }

  // Names decide

  /** The name an action text starts with. */
  function Head(value: string): string {
    value[..Find(value, ':', 0)]
  }

  lemma ArgumentNeedsTheName(value: string, name: string)
    requires ':' !in name
    ensures Argument(value, name).Some? ==> name == Head(value)
    ensures value == name ==> name == Head(value)
  {
    if Argument(value, name).Some? {
      assert value[..|name|] == name;
      FindIs(value, ':', |name|);
    }
    if value == name {
      assert value[..|name|] == name;
      FindIs(value, ':', |name|);
    }
  }

  /** A row whose name has no colon passes on every text that does not start with that name. */
  lemma OthersPass(spec: Spec, value: string, numbers: Numbers)
    requires ':' !in spec.name && spec.name != Head(value)
    ensures Try(spec, value, numbers).Passed?
  {
    ArgumentNeedsTheName(value, spec.name);
  }

  /** Distinct names without colons, as in the action table. */
  ghost predicate WellNamed(table: seq<Spec>) {
    && (forall i :: 0 <= i < |table| ==> ':' !in table[i].name)
    && (forall i, j :: 0 <= i < j < |table| ==> table[i].name != table[j].name)
  }

  /** The row for a name. */
  ghost predicate IsRowFor(table: seq<Spec>, name: string, i: int) {
    0 <= i < |table| && table[i].name == name
  }

  function Outcome(attempt: Attempt): Option<(nat, Payload)> {
    match attempt
    case Accepted(action, payload) => Some((action, payload))
    case _ => None
  }

  /** Only the row whose name the text starts with has a say. */
  lemma {:induction false} TheNamedRowDecides(table: seq<Spec>, value: string, numbers: Numbers, from: nat)
    requires WellNamed(table) && from <= |table|
    ensures forall i :: from <= i && IsRowFor(table, Head(value), i) ==>
              Tried(table, value, numbers, from) == Outcome(Try(table[i], value, numbers))
    ensures (forall i :: from <= i ==> !IsRowFor(table, Head(value), i)) ==> Tried(table, value, numbers, from) == None
    decreases |table| - from
  {
    if from < |table| {
      TheNamedRowDecides(table, value, numbers, from + 1);
      if table[from].name != Head(value) {
        OthersPass(table[from], value, numbers);
      } else {
        assert IsRowFor(table, Head(value), from);
      }
    }
  }

  /** At most one row can accept a text. */
  lemma AtMostOneAccepts(table: seq<Spec>, value: string, numbers: Numbers, i: nat, j: nat)
    requires WellNamed(table) && i < |table| && j < |table|
    requires !Try(table[i], value, numbers).Passed? && !Try(table[j], value, numbers).Passed?
    ensures i == j
  {
    if table[i].name != Head(value) {
      OthersPass(table[i], value, numbers);
    }
    if table[j].name != Head(value) {
      OthersPass(table[j], value, numbers);
    }
  }

  /** Tables with the same rows parse alike, in whatever order they list them. */
  lemma OrderIsIrrelevant(table: seq<Spec>, other: seq<Spec>, value: string, numbers: Numbers)
    requires WellNamed(table) && WellNamed(other) && forall s :: s in table <==> s in other
    ensures Tried(table, value, numbers, 0) == Tried(other, value, numbers, 0)
  {
    TheNamedRowDecides(table, value, numbers, 0);
    TheNamedRowDecides(other, value, numbers, 0);
    var name := Head(value);
    if i :| IsRowFor(table, name, i) {
      RowMoves(table, other, name, i);
    } else {
      forall j ensures !IsRowFor(other, name, j) {
        if IsRowFor(other, name, j) {
          RowMoves(other, table, name, j);
          assert false;
        }
      }
    }
  }

  lemma RowMoves(table: seq<Spec>, other: seq<Spec>, name: string, i: int)
    requires IsRowFor(table, name, i) && forall s :: s in table ==> s in other
    ensures exists j :: IsRowFor(other, name, j) && other[j] == table[i]
  {
    assert table[i] in other;
    var j :| 0 <= j < |other| && other[j] == table[i];
    assert IsRowFor(other, name, j);
  }

  /** A workspace action printed as its name, a colon and its argument parses back to that action and argument, for
      every printable argument and whatever the table holds besides. */
  lemma WorkspaceActionRoundTrip(table: seq<Spec>, i: nat, w: WorkspaceArg, numbers: Numbers)
    requires WellNamed(table) && i < |table| && table[i].kind.Workspace? && Printable(w)
    ensures Tried(table, table[i].name + ":" + Printed(w), numbers, 0) == Some((table[i].action, ToWorkspace(w)))
  {
    RoundTripIff(w);
    PrintedIsNotEmpty(w);
    WorkspaceTextDecides(table, i, Printed(w), w, numbers);
  }

  lemma WorkspaceTextDecides(table: seq<Spec>, i: nat, text: string, w: WorkspaceArg, numbers: Numbers)
    requires WellNamed(table) && i < |table| && table[i].kind.Workspace? && text != "" && Parsed(text) == Some(w)
    ensures Tried(table, table[i].name + ":" + text, numbers, 0) == Some((table[i].action, ToWorkspace(w)))
  {
    var value := table[i].name + ":" + text;
    ArgumentAfterName(table[i].name, text);
    assert Try(table[i], value, numbers) == Accepted(table[i].action, ToWorkspace(w));
    assert IsRowFor(table, Head(value), i);
    TheNamedRowDecides(table, value, numbers, 0);
  }

  lemma PrintedIsNotEmpty(w: WorkspaceArg)
    requires Printable(w)
    ensures Printed(w) != ""
  {
    if w.reference.Index? {
      DecimalHasValue(w.reference.value);
    }
  }

  lemma ArgumentAfterName(name: string, text: string)
    requires ':' !in name && text != ""
    ensures Argument(name + ":" + text, name) == Some(text) && Head(name + ":" + text) == name
  {
    var value := name + ":" + text;
    assert value[..|name|] == name && value[|name| + 1..] == text;
    ArgumentNeedsTheName(value, name);
  }

  // What each row takes

  lemma NamedRow(table: seq<Spec>, i: nat, numbers: Numbers)
    requires WellNamed(table) && i < |table|
    ensures Tried(table, table[i].name, numbers, 0) == Outcome(Try(table[i], table[i].name, numbers))
  {
    ArgumentNeedsTheName(table[i].name, table[i].name);
    assert IsRowFor(table, Head(table[i].name), i);
    TheNamedRowDecides(table, table[i].name, numbers, 0);
  }

  lemma RowWithText(table: seq<Spec>, i: nat, text: string, numbers: Numbers)
    requires WellNamed(table) && i < |table| && text != ""
    ensures var value := table[i].name + ":" + text;
            && Argument(value, table[i].name) == Some(text) && value != table[i].name
            && Tried(table, value, numbers, 0) == Outcome(Try(table[i], value, numbers))
  {
    var value := table[i].name + ":" + text;
    ArgumentAfterName(table[i].name, text);
    assert IsRowFor(table, Head(value), i);
    TheNamedRowDecides(table, value, numbers, 0);
  }

  /** What a name alone stands for: an action without an argument, one whose argument may be left out, or the next
      effect of a cycle. */
  function BarePayload(kind: ArgKind): Option<Payload> {
    match kind
    case NoArgument => Some(Nothing)
    case OptionalOutput => Some(OnOutput(""))
    case OptionalScratchpad => Some(OnScratchpad(""))
    case OptionalWindowId => Some(OnWindow(""))
    case SkipConfirmation => Some(Quit(false))
    case WindowEffect(cycle) => if cycle then Some(ForWindow("", "")) else None
    case ScreenEffect(cycle) => if cycle then Some(ForScreen("", "")) else None
    case CursorEffect(cycle) => if cycle then Some(ForCursor("")) else None
    case _ => None
  }

  lemma BareEffect(spec: Spec, cycle: bool, cursor: bool)
    ensures TryEffect(spec, cycle, cursor, None, true)
         == if cycle then Accepted(spec.action, EffectPayload(spec.kind, "", "")) else Passed
  {
  }

  lemma TryBare(spec: Spec, numbers: Numbers)
    ensures Try(spec, spec.name, numbers)
         == if BarePayload(spec.kind).Some? then Accepted(spec.action, BarePayload(spec.kind).value) else Passed
  {
    assert Argument(spec.name, spec.name).None?;
    if spec.kind.WindowEffect? || spec.kind.ScreenEffect? || spec.kind.CursorEffect? {
      BareEffect(spec, spec.kind.cycle, spec.kind.CursorEffect?);
    }
  }

  /** A name alone is what it stands for, and nothing else. */
  lemma BareNameParses(table: seq<Spec>, i: nat, numbers: Numbers)
    requires WellNamed(table) && i < |table|
    ensures var payload := BarePayload(table[i].kind);
            Tried(table, table[i].name, numbers, 0)
            == if payload.Some? then Some((table[i].action, payload.value)) else None
  {
    NamedRow(table, i, numbers);
    TryBare(table[i], numbers);
  }

  /** What rows that take any text make of it. */
  function TextPayload(spec: Spec, text: string): Option<Payload> {
    match spec.kind
    case Command =>
      if spec.action != SUBMAP then Some(Spawn(text))
      else if text != "disable" && ']' !in text then Some(Submap(text))
      else None
    case Output => Some(OnOutput(text))
    case OptionalOutput => Some(OnOutput(text))
    case OptionalScratchpad => Some(OnScratchpad(text))
    case WindowId => Some(OnWindow(text))
    case OptionalWindowId => Some(OnWindow(text))
    case _ => None
  }

  ghost predicate TakesText(kind: ArgKind) {
    kind == Command || kind == Output || kind == OptionalOutput || kind == OptionalScratchpad || kind == WindowId
    || kind == OptionalWindowId || kind == NoArgument
  }

  /** Commands, outputs, scratchpads and windows are named by whatever follows the colon, colons included; only a submap
      has to have a possible name. An action without an argument takes none. */
  lemma TextParses(table: seq<Spec>, i: nat, text: string, numbers: Numbers)
    requires WellNamed(table) && i < |table| && text != "" && TakesText(table[i].kind)
    ensures Tried(table, table[i].name + ":" + text, numbers, 0)
         == if TextPayload(table[i], text).Some? then Some((table[i].action, TextPayload(table[i], text).value))
             else None
  {
    RowWithText(table, i, text, numbers);
  }

  /** Fractions are taken from a tenth to the whole. */
  lemma FractionParses(table: seq<Spec>, i: nat, text: string, numbers: Numbers, v: real)
    requires WellNamed(table) && i < |table| && text != "" && table[i].kind == Fraction
    ensures Tried(table, table[i].name + ":" + text, numbers, 0) == Some((table[i].action, FractionOf(v))) <==>
              numbers(text) == Some(v) && 0.1 <= v <= 1.0
  {
    RowWithText(table, i, text, numbers);
  }

  /** Changes of a fraction are taken up to nine tenths either way, with a plus sign or without, but not of nothing. */
  lemma FractionChangeParses(table: seq<Spec>, i: nat, text: string, numbers: Numbers, v: real)
    requires WellNamed(table) && i < |table| && text != "" && table[i].kind == FractionDelta
    ensures Tried(table, table[i].name + ":" + text, numbers, 0) == Some((table[i].action, FractionOf(v))) <==>
              numbers(if text[0] == '+' then text[1..] else text) == Some(v) && v != 0.0 && -0.9 <= v <= 0.9
  {
    RowWithText(table, i, text, numbers);
  }

  /** Tabs are counted from either end in 32 bits, starting at one. */
  lemma TabParses(table: seq<Spec>, i: nat, text: string, numbers: Numbers, n: int)
    requires WellNamed(table) && i < |table| && text != "" && table[i].kind == TabIndex
    ensures Tried(table, table[i].name + ":" + text, numbers, 0) == Some((table[i].action, Tab(n))) <==>
              Integer(text) == Some(n) && n != 0
  {
    RowWithText(table, i, text, numbers);
  }

  /** A tab number is written in digits, with a minus sign when it counts from the end. */
  lemma IntegerIsDigits(digits: string, n: int)
    requires digits != "" && AllDigits(digits) && Value(digits) == n
    ensures Integer(digits) == if n < 0x8000_0000 then Some(n) else None
    ensures Integer("-" + digits) == if n <= 0x8000_0000 then Some(-n) else None
  {
    assert IsDigit(digits[0]);
    assert ("-" + digits)[1..] == digits;
  }

  /** An effect is named up to the first slash and what it is for after it. */
  lemma EffectParses(table: seq<Spec>, i: nat, effect: string, target: string, numbers: Numbers)
    requires WellNamed(table) && i < |table| && effect != "" && '/' !in effect
    ensures var name, action := table[i].name, table[i].action;
            var alone, both := Tried(table, name + ":" + effect, numbers, 0),
                               Tried(table, name + ":" + effect + "/" + target, numbers, 0);
            match table[i].kind
            case WindowEffect(cycle) =>
              && alone == (if cycle && effect == "off" then None else Some((action, ForWindow(effect, ""))))
              && both == (if target == "" || (cycle && effect == "off") then None
                          else Some((action, ForWindow(effect, target))))
            case ScreenEffect(cycle) =>
              && alone == (if cycle && effect == "off" then None else Some((action, ForScreen(effect, ""))))
              && both == (if target == "" || (cycle && effect == "off") then None
                          else Some((action, ForScreen(effect, target))))
            case CursorEffect(cycle) =>
              && alone == (if cycle && effect == "off" then None else Some((action, ForCursor(effect))))
              && both == None
            case _ => true
  {
    if table[i].kind.WindowEffect? || table[i].kind.ScreenEffect? || table[i].kind.CursorEffect? {
      EffectText(table, i, effect, effect, "", numbers);
      EffectText(table, i, effect + "/" + target, effect, target, numbers);
    }
    assert table[i].name + ":" + effect + "/" + target == table[i].name + ":" + (effect + "/" + target);
  }

  lemma EffectText(table: seq<Spec>, i: nat, text: string, effect: string, target: string, numbers: Numbers)
    requires WellNamed(table) && i < |table| && effect != "" && '/' !in effect
    requires text == effect || text == effect + "/" + target
    requires table[i].kind.WindowEffect? || table[i].kind.ScreenEffect? || table[i].kind.CursorEffect?
    ensures var kind, cycle := table[i].kind, table[i].kind.cycle;
            Tried(table, table[i].name + ":" + text, numbers, 0)
            == if (cycle && effect == "off") || (text != effect && (kind.CursorEffect? || target == "")) then None
               else Some((table[i].action, EffectPayload(kind, effect, if text == effect then "" else target)))
  {
    RowWithText(table, i, text, numbers);
    assert text[..|effect|] == effect;
    FindIs(text, '/', |effect|);
    if text != effect {
      assert text[|effect| + 1..] == target;
    }
  }

  function ModeName(mode: LayoutMode): string {
    match mode
    case Scrolling => "scrolling"
    case Dwindle => "dwindle"
    case Master => "master"
  }

  /** Display styles, the confirmation to skip, and modes have their words. */
  lemma DisplayParses(table: seq<Spec>, i: nat, text: string, numbers: Numbers)
    requires WellNamed(table) && i < |table| && text != "" && table[i].kind == ColumnDisplayArg
    ensures Tried(table, table[i].name + ":" + text, numbers, 0)
         == if text == "tabbed" then Some((table[i].action, Display(Tabbed)))
            else if text == "normal" then Some((table[i].action, Display(Normal)))
            else None
  {
    RowWithText(table, i, text, numbers);
  }

  lemma ConfirmationParses(table: seq<Spec>, i: nat, text: string, numbers: Numbers)
    requires WellNamed(table) && i < |table| && text != "" && table[i].kind == SkipConfirmation
    ensures Tried(table, table[i].name + ":" + text, numbers, 0)
         == if text == "skip-confirmation" then Some((table[i].action, Quit(true))) else None
  {
    RowWithText(table, i, text, numbers);
  }

  lemma AcceptedModeDecides(table: seq<Spec>, i: nat, text: string, payload: Payload, numbers: Numbers)
    requires WellNamed(table) && i < |table| && table[i].kind == LayoutModeArg && text != ""
    requires TryMode(table[i], Some(text)) == Accepted(table[i].action, payload)
    ensures Tried(table, table[i].name + ":" + text, numbers, 0) == Some((table[i].action, payload))
  {
    RowWithText(table, i, text, numbers);
  }

  lemma TryNamedMode(spec: Spec, text: string, mode: LayoutMode)
    requires text == ModeName(mode)
    ensures text != "" && TryMode(spec, Some(text)) == Accepted(spec.action, Mode(Some(mode), []))
  {
    ModeReadsBack(mode);
  }

  lemma ModeParses(table: seq<Spec>, i: nat, mode: LayoutMode, text: string, numbers: Numbers)
    requires WellNamed(table) && i < |table| && table[i].kind == LayoutModeArg && text == ModeName(mode)
    ensures Tried(table, table[i].name + ":" + text, numbers, 0) == Some((table[i].action, Mode(Some(mode), [])))
  {
    TryNamedMode(table[i], text, mode);
    AcceptedModeDecides(table, i, text, Mode(Some(mode), []), numbers);
  }

  lemma TryToggleAll(spec: Spec, text: string)
    requires text == "toggle"
    ensures text != "" && TryMode(spec, Some(text)) == Accepted(spec.action, Mode(None, []))
  {
    assert text[0] == 't' && "scrolling"[0] == 's' && "dwindle"[0] == 'd' && "master"[0] == 'm';
  }

  lemma ToggleParses(table: seq<Spec>, i: nat, text: string, numbers: Numbers)
    requires WellNamed(table) && i < |table| && table[i].kind == LayoutModeArg && text == "toggle"
    ensures Tried(table, table[i].name + ":" + text, numbers, 0) == Some((table[i].action, Mode(None, [])))
  {
    TryToggleAll(table[i], text);
    AcceptedModeDecides(table, i, text, Mode(None, []), numbers);
  }

  /** The pieces with a separator between them. */
  function Joined(pieces: seq<string>, c: char): string
    requires pieces != []
  {
    if |pieces| == 1 then pieces[0] else pieces[0] + [c] + Joined(pieces[1..], c)
  }

  lemma {:induction false} SplitJoined(pieces: seq<string>, c: char)
    requires pieces != [] && forall piece :: piece in pieces ==> piece != "" && c !in piece
    ensures Joined(pieces, c) != "" && Split(Joined(pieces, c), c) == pieces
  {
    var all := Joined(pieces, c);
    assert pieces == [pieces[0]] + pieces[1..];
    assert all[..|pieces[0]|] == pieces[0];
    FindIs(all, c, |pieces[0]|);
    if |pieces| > 1 {
      assert forall piece :: piece in pieces[1..] ==> piece in pieces;
      SplitJoined(pieces[1..], c);
      assert all[|pieces[0]| + 1..] == Joined(pieces[1..], c);
    }
  }

  function NamesOf(modes: seq<LayoutMode>): (names: seq<string>)
    ensures |names| == |modes| && forall i :: 0 <= i < |modes| ==> names[i] == ModeName(modes[i])
  {
    seq(|modes|, i requires 0 <= i < |modes| => ModeName(modes[i]))
  }

  lemma ModeReadsBack(mode: LayoutMode)
    ensures LayoutModeNamed(ModeName(mode)) == Some(mode) && ModeName(mode) != "" && ',' !in ModeName(mode)
  {
    assert "scrolling"[0] != "dwindle"[0] && "master"[0] != "dwindle"[0] && "scrolling"[0] != "master"[0];
  }

  lemma OneMoreMode(names: seq<string>, modes: seq<LayoutMode>, mode: LayoutMode)
    requires names != [] && names[|names| - 1] == ModeName(mode) && mode !in modes
    requires Modes(names[..|names| - 1]) == Some(modes)
    ensures Modes(names) == Some(modes + [mode])
  {
    ModeReadsBack(mode);
  }

  lemma {:induction false} ModesReadBack(modes: seq<LayoutMode>)
    requires forall i, j :: 0 <= i < j < |modes| ==> modes[i] != modes[j]
    ensures Modes(NamesOf(modes)) == Some(modes)
  {
    if modes == [] {
    } else {
      var n := |modes| - 1;
      var earlier, mode := modes[..n], modes[n];
      ModesReadBack(earlier);
      assert NamesOf(modes)[..n] == NamesOf(earlier);
      OneMoreMode(NamesOf(modes), earlier, mode);
      assert modes == earlier + [mode];
    }
  }

  lemma ToggleText(list: string)
    ensures var text := "toggle:" + list;
            && "toggle:" <= text && text[|"toggle:"|..] == list && LayoutModeNamed(text).None? && text != "toggle"
  {
    var text := "toggle:" + list;
    assert text[0] == 't' && "scrolling"[0] == 's' && "dwindle"[0] == 'd' && "master"[0] == 'm';
    assert |text| != |"toggle"|;
  }

  lemma TryToggle(spec: Spec, text: string, list: string, modes: seq<LayoutMode>)
    requires text == "toggle:" + list && Modes(Split(list, ',')) == Some(modes) && |modes| >= 2
    ensures text != "" && TryMode(spec, Some(text)) == Accepted(spec.action, Mode(None, modes))
  {
    ToggleText(list);
  }

  lemma ListReadsBack(modes: seq<LayoutMode>)
    requires modes != [] && forall i, j :: 0 <= i < j < |modes| ==> modes[i] != modes[j]
    ensures Modes(Split(Joined(NamesOf(modes), ','), ',')) == Some(modes)
  {
    forall name | name in NamesOf(modes) ensures name != "" && ',' !in name {
      var k :| 0 <= k < |modes| && name == ModeName(modes[k]);
      ModeReadsBack(modes[k]);
    }
    SplitJoined(NamesOf(modes), ',');
    ModesReadBack(modes);
  }

  lemma TryToggledModes(spec: Spec, text: string, modes: seq<LayoutMode>)
    requires |modes| >= 2 && forall a, b :: 0 <= a < b < |modes| ==> modes[a] != modes[b]
    requires text == "toggle:" + Joined(NamesOf(modes), ',')
    ensures text != "" && TryMode(spec, Some(text)) == Accepted(spec.action, Mode(None, modes))
  {
    ListReadsBack(modes);
    TryToggle(spec, text, Joined(NamesOf(modes), ','), modes);
  }

  /** Toggling between two or three modes is written as their names with commas between them, in the order they are gone
      through. */
  lemma {:induction false} ToggledModesParse(table: seq<Spec>, i: nat, modes: seq<LayoutMode>, text: string,
                                             numbers: Numbers)
    requires WellNamed(table) && i < |table| && table[i].kind == LayoutModeArg && |modes| >= 2
    requires forall a, b :: 0 <= a < b < |modes| ==> modes[a] != modes[b]
    requires text == "toggle:" + Joined(NamesOf(modes), ',')
    ensures Tried(table, table[i].name + ":" + text, numbers, 0) == Some((table[i].action, Mode(None, modes)))
  {
    TryToggledModes(table[i], text, modes);
    AcceptedModeDecides(table, i, text, Mode(None, modes), numbers);
  }
}
