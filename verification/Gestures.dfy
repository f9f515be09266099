/** The touchpad gesture machine: which gestures are forwarded to clients, and what an in-flight gesture holds on to. */
module Gestures {
  import opened Options
  import opened Reals

  datatype State =
    | Idle | Forward | Pending | Scroll | Switch | Overview | OverviewSelect | Carousel | SceneSwitch | Blocked

  datatype ScrollSource = NoSource | SwipeSource | PointerSource | OverviewPointerSource

  /** What clients are sent. `Dropped` sends nothing: it marks a swipe whose end a locked session withholds. */
  datatype Message = SwipeBegin(fingers: nat) | SwipeUpdate(dx: real, dy: real) | SwipeEnd(cancelled: bool) | Dropped

  /** Outputs, workspaces, groups and pointer devices are captured by identity. */
  datatype Machine = Machine(
    state: State, output: Option<nat>, workspace: Option<nat>, group: Option<nat>, source: ScrollSource,
    pointer: Option<nat>, accumX: real, accumY: real, horizontal: bool, natural: int, sent: seq<Message>)

  const START := Machine(Idle, None, None, None, NoSource, None, 0.0, 0.0, false, 1, [])

  const AXIS_LOCK := 16.0

  datatype OverviewState = NoOverview | Closed | Opened(interactive: bool)

  /** What a handler finds outside the machine. */
  datatype World = World(
    locked: bool,
    inputBlocked: bool, restorationPending: bool,
    // The output under the cursor, whether it is presenting its workspaces, and whether navigating them starts.
    pointed: Option<nat>, presenting: bool, navigationStarts: bool,
    overview: OverviewState,
    // The preferred output, its workspace group and axis, and the group's active workspace and position.
    preferred: Option<nat>, group: Option<nat>, horizontal: bool, workspace: nat, index: nat, count: nat,
    // Whether the active workspace has a strip with columns.
    hasStrip: bool,
    transitionStarts: bool, slideStarts: bool,
    // Whether what an in-flight scroll or slide was captured for is still in place.
    scrollHolds: bool, slideHolds: bool,
    // The overview row under the pointer: its workspace, its output, whether it has a strip.
    row: Option<(nat, Option<nat>, bool)>)

  // Ending what is in flight

  function Said(g: Machine, message: Message): Machine {
    g.(sent := g.sent + [message])
  }

  function ScrollFinished(g: Machine): Machine {
    g.(state := Idle, source := NoSource, workspace := None, output := None)
  }

  function SwitchFinished(g: Machine): Machine {
    g.(state := Idle, group := None, output := None)
  }

  function SceneSwitchFinished(g: Machine): Machine {
    g.(state := Idle, group := None, output := None, pointer := None)
  }

  function CarouselFinished(g: Machine): Machine {
    g.(state := Idle, output := None)
  }

  function Ended(g: Machine, message: Message): Machine {
    if g.state.SceneSwitch? then SceneSwitchFinished(g)
    else if g.state.Carousel? && g.output.Some? then CarouselFinished(g)
    else if g.state.Scroll? then ScrollFinished(g)
    else if g.state.Switch? then SwitchFinished(g)
    else if g.state.Forward? then Said(g, message).(state := Idle)
    else g.(state := Idle)
  }

  /** `cancelActive` */
  function Cancelled(g: Machine): Machine {
    Ended(g, SwipeEnd(true))
  }

  /** `silentCancel` */
  function Silenced(g: Machine): Machine {
    Ended(g, Dropped)
  }

  // Handlers

  predicate PointerScrollActive(g: Machine) {
    g.state.Scroll? && (g.source.PointerSource? || g.source.OverviewPointerSource?)
  }

  function ScrollBegun(g: Machine, workspace: nat, source: ScrollSource): Machine {
    g.(state := Scroll, workspace := Some(workspace), source := source)
  }

  /** An idle machine takes a new swipe. */
  function SwipeStarted(idle: Machine, w: World, fingers: nat, natural: int): Machine {
    if w.pointed.Some? && w.presenting then
      if fingers == 3 && !w.restorationPending && w.navigationStarts then
        idle.(state := Carousel, output := w.pointed, natural := natural)
      else idle.(state := Blocked)
    else if w.inputBlocked then idle.(state := Blocked)
    else if fingers == 4 && !w.overview.NoOverview? then idle.(state := Overview, accumX := 0.0, accumY := 0.0)
    else if fingers == 3 then
      idle.(state := if w.overview.Opened? then OverviewSelect else Pending,
            natural := natural, accumX := 0.0, accumY := 0.0, output := None)
    else Said(idle, SwipeBegin(fingers)).(state := Forward)
  }

  function SwipeBegun(g: Machine, w: World, fingers: nat, natural: int): Machine {
    if w.locked then Silenced(g)
    else if PointerScrollActive(g) then g
    else SwipeStarted(if g.state.Idle? then g else Cancelled(g), w, fingers, natural)
  }

  /** The workspace a travel along the axis heads for. */
  function Direction(g: Machine, travel: real): int {
    if -travel * (g.natural as real) > 0.0 then 1 else -1
  }

  predicate HasNeighbour(w: World, direction: int) {
    if direction > 0 then w.index + 1 < w.count else w.index > 0
  }

  /** A transition to the neighbour the travel heads for, or else a slide. */
  function SwitchStarted(g: Machine, w: World, pointer: Option<nat>): Machine {
    var direction := Direction(g, if g.horizontal then g.accumX else g.accumY);
    if HasNeighbour(w, direction) && w.transitionStarts then
      g.(state := SceneSwitch, group := w.group, pointer := pointer)
    else if w.slideStarts then g.(state := Switch, group := w.group)
    else g.(state := Idle)
  }

  /** A pending swipe that moved far enough picks what it controls. */
  function Locked(g: Machine, w: World, pointer: Option<nat>): Machine {
    if w.preferred.None? || w.group.None? then g.(state := Idle)
    else
      var captured := g.(output := w.preferred, horizontal := w.horizontal);
      var along := (Abs(g.accumX) > Abs(g.accumY)) == w.horizontal;
      if w.overview.Opened? then captured.(state := Idle)
      else if !along then
        if w.hasStrip then ScrollBegun(captured, w.workspace, SwipeSource) else captured.(state := Idle)
      else SwitchStarted(captured, w, pointer)
  }

  function PendingMoved(g: Machine, w: World, dx: real, dy: real, pointer: Option<nat>): Machine {
    var moved := g.(accumX := g.accumX + dx, accumY := g.accumY + dy);
    if Max(Abs(moved.accumX), Abs(moved.accumY)) < AXIS_LOCK then moved else Locked(moved, w, pointer)
  }

  /** What an in-flight gesture was captured for may be gone by its next update. */
  function Checked(g: Machine, w: World): Machine {
    if g.state.Scroll? && !w.scrollHolds then ScrollFinished(g)
    else if g.state.Switch? && !w.slideHolds then SwitchFinished(g)
    else if g.state.OverviewSelect? && w.overview != Opened(true) then g.(state := Idle)
    else if g.state.Overview? && w.overview.NoOverview? then g.(state := Idle)
    else g
  }

  function SwipeUpdated(g: Machine, w: World, dx: real, dy: real, pointer: Option<nat>): Machine {
    if w.locked then Silenced(g)
    else if PointerScrollActive(g) then g
    else
      if g.state.Forward? then Said(g, SwipeUpdate(dx, dy))
      else if g.state.Pending? then PendingMoved(g, w, dx, dy, pointer)
      else Checked(g, w)
  }

  function SwipeEnded(g: Machine, w: World, cancelled: bool): Machine {
    if w.locked then Silenced(g)
    else if PointerScrollActive(g) then g
    else
      if g.state.SceneSwitch? then SceneSwitchFinished(g)
      else if g.state.Carousel? then CarouselFinished(g)
      else if g.state.Scroll? then ScrollFinished(g)
      else if g.state.Switch? then SwitchFinished(g)
      else if g.state.Forward? then Said(g, SwipeEnd(cancelled)).(state := Idle)
      else g.(state := Idle)
  }

  /** An idle machine takes a pointer scroll: of the overview row under the pointer, or of the active workspace. */
  function PointerScrollStarted(idle: Machine, w: World): Machine {
    if w.overview.Opened? then
      if w.row.Some? && w.row.value.1.Some? && w.row.value.2 then
        ScrollBegun(idle.(output := w.row.value.1), w.row.value.0, OverviewPointerSource)
      else idle.(output := None)
    else if w.preferred.Some? && w.group.Some? && w.hasStrip then
      ScrollBegun(idle.(output := w.preferred), w.workspace, PointerSource)
    else idle.(output := None)
  }

  function PointerScrollBegun(g: Machine, w: World): Machine {
    if w.locked then g else PointerScrollStarted(if g.state.Idle? then g else Cancelled(g), w)
  }

  function PointerScrollUpdated(g: Machine, w: World): Machine {
    if PointerScrollActive(g) && !w.scrollHolds then ScrollFinished(g) else g
  }

  function PointerScrollEnded(g: Machine): Machine {
    if PointerScrollActive(g) then ScrollFinished(g) else g
  }

  predicate HoldsOutput(state: State) {
    state.Pending? || state.Scroll? || state.Switch? || state.OverviewSelect? || state.Carousel? || state.SceneSwitch?
  }

  /** `cancelForOutput`: a hard reset, for what the output owns may already be half destroyed. */
  function OutputCancelled(g: Machine, output: nat): Machine {
    if g.output == Some(output) && HoldsOutput(g.state) then
      g.(state := Idle, output := None, workspace := None, group := None, source := NoSource, pointer := None)
    else g
  }

  function LayoutChanged(g: Machine): Machine {
    if g.state.Idle? || g.state.Forward? then g
    else Cancelled(g).(state := Idle, output := None, workspace := None, group := None, source := NoSource)
  }

  /** `pickSwitchForOverview` */
  function OverviewTakesOver(g: Machine): Machine {
    if g.state.SceneSwitch? || g.state.Carousel? then Cancelled(g).(output := None)
    else if g.state.Switch? then SwitchFinished(g)
    else g
  }

  /** The destroy listener of the pointer a scene switch was started with. */
  function PointerDestroyed(g: Machine, pointer: nat): Machine {
    if g.pointer == Some(pointer) then SceneSwitchFinished(g) else g
  }

  class Gestures {
    var state: State
    var output: Option<nat>
    var scrollWorkspace: Option<nat>
    var switchGroup: Option<nat>
    var scrollSource: ScrollSource
    var sceneSwitchPointer: Option<nat>
    var accumX: real
    var accumY: real
    var horizontal: bool
    var natural: int
    ghost var sent: seq<Message>

    ghost function Now(): Machine
      reads this
    {
      Machine(state, output, scrollWorkspace, switchGroup, scrollSource, sceneSwitchPointer, accumX, accumY, horizontal,
              natural, sent)
    }

    constructor ()
      ensures Now() == START
    {
      state, output, scrollWorkspace, switchGroup, scrollSource := Idle, None, None, None, NoSource;
      sceneSwitchPointer, accumX, accumY, horizontal, natural, sent := None, 0.0, 0.0, false, 1, [];
    }

    ghost method Send(message: Message)
      modifies this`sent
      ensures sent == old(sent) + [message]
    {
      sent := sent + [message];
    }

    predicate PointerScrolling()
      reads this
    {
      state.Scroll? && (scrollSource.PointerSource? || scrollSource.OverviewPointerSource?)
    }

    method FinishScroll()
      modifies this
      ensures Now() == ScrollFinished(old(Now()))
    {
      state, scrollSource, scrollWorkspace, output := Idle, NoSource, None, None;
    }

    method FinishSwitch()
      modifies this
      ensures Now() == SwitchFinished(old(Now()))
    {
      switchGroup, output, state := None, None, Idle;
    }

    method FinishSceneSwitch()
      modifies this
      ensures Now() == SceneSwitchFinished(old(Now()))
    {
      sceneSwitchPointer, switchGroup, output, state := None, None, None, Idle;
    }

    method CancelActive()
      modifies this
      ensures Now() == Cancelled(old(Now()))
    {
      if state.SceneSwitch? {
        FinishSceneSwitch();
        return;
      }
      if state.Carousel? && output.Some? {
        output, state := None, Idle;
        return;
      }
      if state.Scroll? {
        FinishScroll();
      } else if state.Switch? {
        FinishSwitch();
      } else {
        if state.Forward? {
          Send(SwipeEnd(true));
        }
        state := Idle;
      }
    }

    method SilentCancel()
      modifies this
      ensures Now() == Silenced(old(Now()))
    {
      if state.SceneSwitch? {
        FinishSceneSwitch();
        return;
      }
      if state.Carousel? && output.Some? {
        output, state := None, Idle;
        return;
      }
      if state.Scroll? {
        FinishScroll();
      } else if state.Switch? {
        FinishSwitch();
      } else {
        if state.Forward? {
          Send(Dropped);
        }
        state := Idle;
      }
    }

    method HandleSwipeBegin(w: World, fingers: nat, direction: int)
      modifies this
      ensures Now() == SwipeBegun(old(Now()), w, fingers, direction)
    {
      if w.locked {
        SilentCancel();
        return;
      }
      if PointerScrolling() {
        return;
      }
      if state != Idle {
        CancelActive();
      }
      if w.pointed.Some? && w.presenting {
        state := Blocked;
        if fingers == 3 && !w.restorationPending && w.navigationStarts {
          natural, output, state := direction, w.pointed, Carousel;
        }
        return;
      }
      if w.inputBlocked {
        state := Blocked;
        return;
      }
      if fingers == 4 && !w.overview.NoOverview? {
        state, accumX, accumY := Overview, 0.0, 0.0;
        return;
      }
      if fingers == 3 {
        natural := direction;
        state := if w.overview.Opened? then OverviewSelect else Pending;
        accumX, accumY, output := 0.0, 0.0, None;
        return;
      }
      state := Forward;
      Send(SwipeBegin(fingers));
    }

    method HandleSwipeUpdate(w: World, dx: real, dy: real, pointer: Option<nat>)
      modifies this
      ensures Now() == SwipeUpdated(old(Now()), w, dx, dy, pointer)
    {
      if w.locked {
        SilentCancel();
        return;
      }
      if PointerScrolling() {
        return;
      }
      if state.Forward? {
        Send(SwipeUpdate(dx, dy));
      } else if state.Pending? {
        accumX, accumY := accumX + dx, accumY + dy;
        if Max(Abs(accumX), Abs(accumY)) >= AXIS_LOCK {
          LockAxis(w, pointer);
        }
      } else if state.Scroll? {
        if !w.scrollHolds {
          FinishScroll();
        }
      } else if state.Switch? {
        if !w.slideHolds {
          FinishSwitch();
        }
      } else if state.OverviewSelect? {
        if w.overview != Opened(true) {
          state := Idle;
        }
      } else if state.Overview? {
        if w.overview.NoOverview? {
          state := Idle;
        }
      }
    }

    method LockAxis(w: World, pointer: Option<nat>)
      modifies this
      ensures Now() == Locked(old(Now()), w, pointer)
    {
      if w.preferred.None? || w.group.None? {
        state := Idle;
        return;
      }
      output, horizontal := w.preferred, w.horizontal;
      var alongWorkspaceAxis := (Abs(accumX) > Abs(accumY)) == horizontal;
      if w.overview.Opened? {
        state := Idle;
        return;
      }
      if !alongWorkspaceAxis {
        if w.hasStrip {
          state, scrollWorkspace, scrollSource := Scroll, Some(w.workspace), SwipeSource;
        } else {
          state := Idle;
        }
        return;
      }
      StartSwitch(w, pointer);
    }

    method StartSwitch(w: World, pointer: Option<nat>)
      modifies this
      ensures Now() == SwitchStarted(old(Now()), w, pointer)
    {
      var hasPrevious, hasNext := w.index > 0, w.index + 1 < w.count;
      var travel := if horizontal then accumX else accumY;
      var direction := if -travel * (natural as real) > 0.0 then 1 else -1;
      if (direction > 0 && hasNext) || (direction < 0 && hasPrevious) {
        if w.transitionStarts {
          switchGroup, state, sceneSwitchPointer := w.group, SceneSwitch, pointer;
          return;
        }
      }
      if !w.slideStarts {
        state := Idle;
        return;
      }
      switchGroup, state := w.group, Switch;
    }

    method HandleSwipeEnd(w: World, cancelled: bool)
      modifies this
      ensures Now() == SwipeEnded(old(Now()), w, cancelled)
    {
      if w.locked {
        SilentCancel();
        return;
      }
      if PointerScrolling() {
        return;
      }
      if state.SceneSwitch? {
        FinishSceneSwitch();
      } else if state.Carousel? {
        output, state := None, Idle;
      } else if state.Scroll? {
        FinishScroll();
      } else if state.Switch? {
        FinishSwitch();
      } else {
        if state.Forward? {
          Send(SwipeEnd(cancelled));
        }
        state := Idle;
      }
    }

    method BeginPointerScroll(w: World) returns (begun: bool)
      modifies this
      ensures Now() == PointerScrollBegun(old(Now()), w) && begun == (!w.locked && state.Scroll?)
    {
      if w.locked {
        return false;
      }
      if state != Idle {
        CancelActive();
      }
      if w.overview.Opened? {
        output := if w.row.Some? then w.row.value.1 else None;
        if output.None? || !w.row.value.2 {
          output := None;
          return false;
        }
        state, scrollWorkspace, scrollSource := Scroll, Some(w.row.value.0), OverviewPointerSource;
        return true;
      }
      output := w.preferred;
      if output.None? || w.group.None? || !w.hasStrip {
        output := None;
        return false;
      }
      state, scrollWorkspace, scrollSource := Scroll, Some(w.workspace), PointerSource;
      return true;
    }

    method UpdatePointerScroll(w: World)
      modifies this
      ensures Now() == PointerScrollUpdated(old(Now()), w)
    {
      if PointerScrolling() && !w.scrollHolds {
        FinishScroll();
      }
    }

    method EndPointerScroll()
      modifies this
      ensures Now() == PointerScrollEnded(old(Now()))
    {
      if PointerScrolling() {
        FinishScroll();
      }
    }

    method CancelForOutput(removed: nat)
      modifies this
      ensures Now() == OutputCancelled(old(Now()), removed)
    {
      if output == Some(removed)
         && (state.Pending? || state.Scroll? || state.Switch? || state.OverviewSelect? || state.Carousel?
             || state.SceneSwitch?)
      {
        sceneSwitchPointer, output, scrollWorkspace, switchGroup := None, None, None, None;
        scrollSource, state := NoSource, Idle;
      }
    }

    method CancelForLayoutChange()
      modifies this
      ensures Now() == LayoutChanged(old(Now()))
    {
      if state.Idle? || state.Forward? {
        return;
      }
      CancelActive();
      output, scrollWorkspace, switchGroup, scrollSource, state := None, None, None, NoSource, Idle;
    }

    method PickSwitchForOverview()
      modifies this
      ensures Now() == OverviewTakesOver(old(Now()))
    {
      if state.SceneSwitch? || state.Carousel? {
        CancelActive();
        output := None;
        return;
      }
      if !state.Switch? {
        return;
      }
      switchGroup, output, state := None, None, Idle;
    }

    method OnSceneSwitchDeviceDestroyed(pointer: nat)
      modifies this
      ensures Now() == PointerDestroyed(old(Now()), pointer)
    {
      if sceneSwitchPointer == Some(pointer) {
        FinishSceneSwitch();
      }
    }
  }

  // What clients see

  /** A forwarded swipe is open. */
  ghost function IsOpen(sent: seq<Message>): bool {
    sent != [] && (sent[|sent| - 1].SwipeBegin? || sent[|sent| - 1].SwipeUpdate?)
  }

  /** A begin only while no swipe is open, anything else only while one is. */
  ghost predicate Fits(before: seq<Message>, message: Message) {
    message.SwipeBegin? != IsOpen(before)
  }

  ghost predicate Bracketed(sent: seq<Message>) {
    sent == [] || (Bracketed(sent[..|sent| - 1]) && Fits(sent[..|sent| - 1], sent[|sent| - 1]))
  }

  // The invariant

  /** What the machine holds in each state: a live output, and the workspace or group that goes with it. */
  ghost predicate Holds(g: Machine, live: set<nat>) {
    && (g.state.Scroll? || g.state.Switch? || g.state.SceneSwitch? || g.state.Carousel? ==>
          g.output.Some? && g.output.value in live)
    && (g.workspace.Some? <==> g.state.Scroll?)
    && (g.source.NoSource? <==> !g.state.Scroll?)
    && (g.group.Some? <==> g.state.Switch? || g.state.SceneSwitch?)
    && (g.pointer.Some? ==> g.state.SceneSwitch?)
  }

  ghost predicate Valid(g: Machine, live: set<nat>) {
    Holds(g, live) && Bracketed(g.sent) && IsOpen(g.sent) == g.state.Forward?
  }

  datatype Event =
    | Begin(w: World, fingers: nat, natural: int)
    | Update(w: World, dx: real, dy: real, device: Option<nat>)
    | End(w: World, cancelled: bool)
    | ScrollBegin(w: World)
    | ScrollUpdate(w: World)
    | ScrollEnd
    | OutputAdded(output: nat)
    | OutputRemoved(output: nat)
    | LayoutReplaced
    | OverviewOpens
    | DeviceDestroyed(pointer: nat)

  ghost predicate AllLive(w: World, live: set<nat>) {
    && (w.pointed.Some? ==> w.pointed.value in live)
    && (w.preferred.Some? ==> w.preferred.value in live)
    && (w.row.Some? && w.row.value.1.Some? ==> w.row.value.1.value in live)
  }

  /** Handlers only ever find outputs that exist. */
  ghost predicate Possible(event: Event, live: set<nat>) {
    match event
    case Begin(w, _, _) => AllLive(w, live)
    case Update(w, _, _, _) => AllLive(w, live)
    case End(w, _) => AllLive(w, live)
    case ScrollBegin(w) => AllLive(w, live)
    case ScrollUpdate(w) => AllLive(w, live)
    case _ => true
  }

  /** Removing an output cancels what was captured on it. */
  function Step(g: Machine, event: Event): Machine {
    match event
    case Begin(w, fingers, natural) => SwipeBegun(g, w, fingers, natural)
    case Update(w, dx, dy, device) => SwipeUpdated(g, w, dx, dy, device)
    case End(w, cancelled) => SwipeEnded(g, w, cancelled)
    case ScrollBegin(w) => PointerScrollBegun(g, w)
    case ScrollUpdate(w) => PointerScrollUpdated(g, w)
    case ScrollEnd => PointerScrollEnded(g)
    case OutputAdded(_) => g
    case OutputRemoved(output) => OutputCancelled(g, output)
    case LayoutReplaced => LayoutChanged(g)
    case OverviewOpens => OverviewTakesOver(g)
    case DeviceDestroyed(pointer) => PointerDestroyed(g, pointer)
  }

  function LiveAfter(live: set<nat>, event: Event): set<nat> {
    match event
    case OutputAdded(output) => live + {output}
    case OutputRemoved(output) => live - {output}
    case _ => live
  }

  lemma SendOne(sent: seq<Message>, message: Message)
    requires Bracketed(sent) && Fits(sent, message)
    ensures Bracketed(sent + [message])
  {
    assert (sent + [message])[..|sent|] == sent;
  }

  /** Ending what is in flight always leaves the machine idle, holding nothing. */
  lemma EndedIsIdle(g: Machine, live: set<nat>, message: Message)
    requires Valid(g, live) && (message.SwipeEnd? || message.Dropped?)
    ensures Valid(Ended(g, message), live) && Ended(g, message).state.Idle?
  {
    if g.state.Forward? {
      SendOne(g.sent, message);
    }
  }

  lemma BeginKeepsValid(g: Machine, live: set<nat>, w: World, fingers: nat, natural: int)
    requires Valid(g, live) && AllLive(w, live)
    ensures Valid(SwipeBegun(g, w, fingers, natural), live)
  {
    if w.locked {
      EndedIsIdle(g, live, Dropped);
    } else if !PointerScrollActive(g) {
      EndedIsIdle(g, live, SwipeEnd(true));
      StartKeepsValid(if g.state.Idle? then g else Cancelled(g), live, w, fingers, natural);
    }
  }

  /** A state that holds nothing and sends nothing is as valid as being idle. */
  lemma FreeStateIsValid(idle: Machine, live: set<nat>, after: Machine)
    requires Valid(idle, live) && idle.state.Idle?
    requires after.state.Pending? || after.state.Overview? || after.state.OverviewSelect? || after.state.Blocked?
    requires after.workspace == idle.workspace && after.group == idle.group && after.source == idle.source
    requires after.pointer == idle.pointer && after.sent == idle.sent
    ensures Valid(after, live)
  {
  }

  lemma StartKeepsValid(idle: Machine, live: set<nat>, w: World, fingers: nat, natural: int)
    requires Valid(idle, live) && AllLive(w, live) && idle.state.Idle?
    ensures Valid(SwipeStarted(idle, w, fingers, natural), live)
  {
    var after := SwipeStarted(idle, w, fingers, natural);
    if after.state.Forward? {
      SendOne(idle.sent, SwipeBegin(fingers));
      assert after == Said(idle, SwipeBegin(fingers)).(state := Forward);
    } else if after.state.Carousel? {
      assert after == idle.(state := Carousel, output := w.pointed, natural := natural);
    } else {
      FreeStateIsValid(idle, live, after);
    }
  }

  lemma CheckKeepsValid(g: Machine, live: set<nat>, w: World)
    requires Valid(g, live)
    ensures Valid(Checked(g, w), live)
  {
  }

  lemma LockKeepsValid(g: Machine, live: set<nat>, w: World, pointer: Option<nat>)
    requires Valid(g, live) && AllLive(w, live) && g.state.Pending?
    ensures Valid(Locked(g, w, pointer), live)
  {
  }

  lemma UpdateKeepsValid(g: Machine, live: set<nat>, w: World, dx: real, dy: real, pointer: Option<nat>)
    requires Valid(g, live) && AllLive(w, live)
    ensures Valid(SwipeUpdated(g, w, dx, dy, pointer), live)
  {
    EndedIsIdle(g, live, Dropped);
    CheckKeepsValid(g, live, w);
    if g.state.Forward? {
      SendOne(g.sent, SwipeUpdate(dx, dy));
    }
    if g.state.Pending? {
      PendingKeepsValid(g, live, w, dx, dy, pointer);
    }
  }

  lemma PendingKeepsValid(g: Machine, live: set<nat>, w: World, dx: real, dy: real, pointer: Option<nat>)
    requires Valid(g, live) && AllLive(w, live) && g.state.Pending?
    ensures Valid(PendingMoved(g, w, dx, dy, pointer), live)
  {
    var moved := g.(accumX := g.accumX + dx, accumY := g.accumY + dy);
    assert Valid(moved, live);
    LockKeepsValid(moved, live, w, pointer);
  }

  lemma EndKeepsValid(g: Machine, live: set<nat>, w: World, cancelled: bool)
    requires Valid(g, live)
    ensures Valid(SwipeEnded(g, w, cancelled), live)
  {
    EndedIsIdle(g, live, Dropped);
    if g.state.Forward? {
      SendOne(g.sent, SwipeEnd(cancelled));
    }
  }

  lemma ScrollKeepsValid(g: Machine, live: set<nat>, w: World)
    requires Valid(g, live) && AllLive(w, live)
    ensures Valid(PointerScrollBegun(g, w), live)
  {
    EndedIsIdle(g, live, SwipeEnd(true));
    if !w.locked {
      ScrollStartKeepsValid(if g.state.Idle? then g else Cancelled(g), live, w);
    }
  }

  lemma ScrollStartKeepsValid(idle: Machine, live: set<nat>, w: World)
    requires Valid(idle, live) && AllLive(w, live) && idle.state.Idle?
    ensures Valid(PointerScrollStarted(idle, w), live)
  {
  }

  lemma ReleasesKeepValid(g: Machine, live: set<nat>, output: nat, pointer: nat)
    requires Valid(g, live)
    ensures Valid(OutputCancelled(g, output), live - {output}) && Valid(PointerScrollEnded(g), live)
    ensures Valid(LayoutChanged(g), live) && Valid(OverviewTakesOver(g), live)
        && Valid(PointerDestroyed(g, pointer), live)
  {
    EndedIsIdle(g, live, SwipeEnd(true));
  }

  lemma StepKeepsValid(g: Machine, live: set<nat>, event: Event)
    requires Valid(g, live) && Possible(event, live)
    ensures Valid(Step(g, event), LiveAfter(live, event))
  {
    match event
    case Begin(w, fingers, natural) => BeginKeepsValid(g, live, w, fingers, natural);
    case Update(w, dx, dy, device) => UpdateKeepsValid(g, live, w, dx, dy, device);
    case End(w, cancelled) => EndKeepsValid(g, live, w, cancelled);
    case ScrollBegin(w) => ScrollKeepsValid(g, live, w);
    case ScrollUpdate(w) => assert Valid(PointerScrollUpdated(g, w), live);
    case OutputRemoved(output) => ReleasesKeepValid(g, live, output, 0);
    case DeviceDestroyed(pointer) => ReleasesKeepValid(g, live, 0, pointer);
    case _ => ReleasesKeepValid(g, live, 0, 0);
  }

  // Every run

  datatype Situation = Situation(machine: Machine, live: set<nat>)

  ghost function Run(live: set<nat>, events: seq<Event>): Situation {
    if events == [] then Situation(START, live)
    else
      var before, last := Run(live, events[..|events| - 1]), events[|events| - 1];
      Situation(Step(before.machine, last), LiveAfter(before.live, last))
  }

  ghost predicate PossibleRun(live: set<nat>, events: seq<Event>) {
    forall i :: 0 <= i < |events| ==> Possible(events[i], Run(live, events[..i]).live)
  }

  /** Over every run, what clients are sent is well bracketed, an open swipe is exactly one being forwarded, and every
      state that works on an output holds one that still exists, together with its workspace or group. */
  lemma {:induction false} AlwaysValid(live: set<nat>, events: seq<Event>)
    requires PossibleRun(live, events)
    ensures var now := Run(live, events); Valid(now.machine, now.live)
  {
    if events == [] {
    } else {
      var n := |events| - 1;
      assert forall i :: 0 <= i < n ==> events[..n][..i] == events[..i];
      AlwaysValid(live, events[..n]);
      var before := Run(live, events[..n]);
      StepKeepsValid(before.machine, before.live, events[n]);
    }
  }

  predicate FoundLocked(event: Event) {
    match event
    case Begin(w, _, _) => w.locked
    case Update(w, _, _, _) => w.locked
    case End(w, _) => w.locked
    case _ => false
  }

  lemma BeginDropsNothing(g: Machine, w: World, fingers: nat, natural: int)
    requires !w.locked && Dropped !in g.sent
    ensures Dropped !in SwipeBegun(g, w, fingers, natural).sent
  {
  }

  lemma StepDropsNothing(g: Machine, event: Event)
    requires !FoundLocked(event) && Dropped !in g.sent
    ensures Dropped !in Step(g, event).sent
  {
    if event.Begin? {
      BeginDropsNothing(g, event.w, event.fingers, event.natural);
    }
  }

  /** Only a swipe event of a locked session withholds an end. */
  lemma {:induction false} DropsNeedALock(live: set<nat>, events: seq<Event>)
    requires forall i :: 0 <= i < |events| ==> !FoundLocked(events[i])
    ensures Dropped !in Run(live, events).machine.sent
  {
    if events == [] {
    } else {
      var n := |events| - 1;
      DropsNeedALock(live, events[..n]);
      StepDropsNothing(Run(live, events[..n]).machine, events[n]);
    }
  }

  /** A layout change leaves nothing captured but the output of an idle machine, which nothing reads. */
  lemma LayoutChangeReleases(g: Machine, live: set<nat>)
    requires Valid(g, live)
    ensures var after := LayoutChanged(g);
            && (after.state.Idle? || after.state.Forward?)
            && after.workspace.None? && after.group.None? && after.pointer.None? && after.source.NoSource?
            && after.sent == g.sent
  {
  }
}
