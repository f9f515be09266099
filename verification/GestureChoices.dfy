/** What each touchpad event makes of the gesture machine: which control a swipe takes, and what ends it. */
module GestureChoices {
  import opened Gestures
  import opened Options
  import opened Reals

  // Beginning a swipe

  /** A scroll by pointer drag or wheel, which swipes leave alone. */
  ghost predicate ScrollsByPointer(g: Machine) {
    g.state == Scroll && (g.source == PointerSource || g.source == OverviewPointerSource)
  }

  /** What clients have been told once an open swipe was cancelled. */
  function Closed(g: Machine): seq<Message> {
    if g.state == Forward then g.sent + [SwipeEnd(true)] else g.sent
  }

  /** Nothing takes the swipe before fingers are counted. */
  predicate LeavesSwipes(w: World) {
    !(w.pointed.Some? && w.presenting) && !w.inputBlocked
  }

  /** Which state a swipe begins in: three fingers over a presentation navigate it, when that starts and nothing is
      being restored; any other swipe over one, or while input is blocked, is swallowed; four fingers work the
      overview if there is one; three select in it while it is open and wait for an axis otherwise; everything else is
      forwarded. */
  lemma BeginPicks(g: Machine, w: World, fingers: nat, natural: int)
    requires !w.locked && !ScrollsByPointer(g)
    ensures var after := Step(g, Begin(w, fingers, natural)).state;
            var navigates := fingers == 3 && !w.restorationPending && w.navigationStarts;
            && (after == Carousel <==> w.pointed.Some? && w.presenting && navigates)
            && (after == Blocked <==>
                  if w.pointed.Some? && w.presenting then !navigates else w.inputBlocked)
            && (after == Overview <==> LeavesSwipes(w) && fingers == 4 && w.overview != NoOverview)
            && (after == OverviewSelect <==> LeavesSwipes(w) && fingers == 3 && w.overview.Opened?)
            && (after == Pending <==> LeavesSwipes(w) && fingers == 3 && !w.overview.Opened?)
            && (after == Forward <==> LeavesSwipes(w) && fingers != 3 && (fingers == 4 ==> w.overview == NoOverview))
  {
  }

  /** What it takes along: the presenting output, or no travel yet; the direction content follows the fingers in.
      Clients hear of it exactly when it is forwarded, after the end of a swipe that was forwarded before. */
  lemma BeginHolds(g: Machine, w: World, fingers: nat, natural: int)
    requires !w.locked && !ScrollsByPointer(g)
    ensures var after := Step(g, Begin(w, fingers, natural));
            && after.sent == Closed(g) + (if after.state == Forward then [SwipeBegin(fingers)] else [])
            && (after.state == Carousel ==> after.output == w.pointed && after.natural == natural)
            && (after.state in {Pending, OverviewSelect} ==>
                  after.output == None && after.natural == natural && after.accumX == 0.0 && after.accumY == 0.0)
            && (after.state == Overview ==> after.accumX == 0.0 && after.accumY == 0.0)
  {
    assert g.sent + [] == g.sent && Closed(g) + [] == Closed(g);
  }

  // Locking an axis

  /** The fingers have moved far enough along one axis. */
  predicate Reaches(x: real, y: real) {
    x <= -16.0 || x >= 16.0 || y <= -16.0 || y >= 16.0
  }

  /** A swipe that has not moved far enough goes on waiting. */
  lemma ShortTravelWaits(g: Machine, w: World, dx: real, dy: real, device: Option<nat>)
    requires !w.locked && g.state == Pending && !Reaches(g.accumX + dx, g.accumY + dy)
    ensures Step(g, Update(w, dx, dy, device)) == g.(accumX := g.accumX + dx, accumY := g.accumY + dy)
  {
  }

  /** The desktop can be moved: an output with workspaces is preferred, and no overview covers it. */
  predicate MovesDesktop(w: World) {
    w.preferred.Some? && w.group.Some? && !w.overview.Opened?
  }

  /** The larger component of the travel, the vertical one of two equal ones, lies along the workspace axis. */
  predicate AlongWorkspaces(w: World, x: real, y: real) {
    if w.horizontal then Abs(x) > Abs(y) else Abs(x) <= Abs(y)
  }

  /** The travel heads for the next workspace: against the axis when content follows the fingers, along it when it moves
      the other way. */
  predicate Forwards(travel: real, natural: int) {
    (natural > 0 && travel < 0.0) || (natural < 0 && travel > 0.0)
  }

  /** There is a workspace on the side the travel heads for. */
  predicate HeadsForWorkspace(w: World, travel: real, natural: int) {
    if Forwards(travel, natural) then w.index + 1 < w.count else 0 < w.index
  }

  lemma SignOfTravel(travel: real, natural: int)
    ensures -travel * (natural as real) > 0.0 <==> Forwards(travel, natural)
  {
    var n := natural as real;
    if travel < 0.0 {
      ProductSigns(-travel, n);
    } else if travel > 0.0 {
      ProductSigns(travel, n);
    }
  }

  lemma ProductSigns(a: real, n: real)
    requires a > 0.0
    ensures a * n > 0.0 <==> n > 0.0
    ensures a * n < 0.0 <==> n < 0.0
  {
    if n > 0.0 {
    } else if n < 0.0 {
      assert a * (-n) > 0.0;
    }
  }

  /** Which control a swipe that has moved far enough takes: the strip across the workspace axis, a transition or else a
      slide along it, and nothing where none of them starts. */
  lemma TravelPicks(g: Machine, w: World, dx: real, dy: real, device: Option<nat>)
    requires !w.locked && g.state == Pending && Reaches(g.accumX + dx, g.accumY + dy)
    ensures var after := Step(g, Update(w, dx, dy, device)).state;
            var x, y := g.accumX + dx, g.accumY + dy;
            var along := AlongWorkspaces(w, x, y);
            var transition := HeadsForWorkspace(w, if w.horizontal then x else y, g.natural) && w.transitionStarts;
            && (after == Scroll <==> MovesDesktop(w) && !along && w.hasStrip)
            && (after == SceneSwitch <==> MovesDesktop(w) && along && transition)
            && (after == Switch <==> MovesDesktop(w) && along && !transition && w.slideStarts)
            && (after == Idle <==> after !in {Scroll, SceneSwitch, Switch})
  {
    SignOfTravel(if w.horizontal then g.accumX + dx else g.accumY + dy, g.natural);
  }

  /** What it then holds. */
  lemma TravelHolds(g: Machine, w: World, dx: real, dy: real, device: Option<nat>)
    requires !w.locked && g.state == Pending && Reaches(g.accumX + dx, g.accumY + dy)
    ensures var after := Step(g, Update(w, dx, dy, device));
            && after.sent == g.sent && after.natural == g.natural
            && (after.state != Idle ==> after.output == w.preferred && after.horizontal == w.horizontal)
            && (after.state == Scroll ==> after.workspace == Some(w.workspace) && after.source == SwipeSource)
            && (after.state in {SceneSwitch, Switch} ==> after.group == w.group)
            && (after.state == SceneSwitch ==> after.pointer == device)
  {
  }

  // The other updates

  /** A forwarded swipe is passed on; a gesture in flight goes on while what it was captured for is in place. */
  lemma UpdateGoesOn(g: Machine, w: World, dx: real, dy: real, device: Option<nat>)
    requires !w.locked && !ScrollsByPointer(g) && g.state != Pending
    ensures var after := Step(g, Update(w, dx, dy, device));
            && after.sent == g.sent + (if g.state == Forward then [SwipeUpdate(dx, dy)] else [])
            && (after.state == g.state <==>
                  && (g.state == Scroll ==> w.scrollHolds) && (g.state == Switch ==> w.slideHolds)
                  && (g.state == OverviewSelect ==> w.overview == Opened(true))
                  && (g.state == Overview ==> w.overview != NoOverview))
            && (after.state == g.state ==> after == g.(sent := after.sent))
            && (after.state != g.state ==>
                after.state == Idle && after.workspace == (if g.state == Scroll then None else
                                                                                     g.workspace)
                && after.group == (if g.state == Switch then None else g.group))
  {
    assert g.sent + [] == g.sent;
  }

  /** A locked session ends whatever is in flight at any swipe event, without a word to clients. */
  lemma LockSilences(g: Machine, event: Event)
    requires (event.Begin? || event.Update? || event.End?) && event.w.locked
    ensures var after := Step(g, event);
            after.state == Idle && after.sent == g.sent + (if g.state == Forward then [Dropped] else [])
  {
    assert g.sent + [] == g.sent;
  }

  /** A pointer scroll is left alone by every swipe event of an unlocked session. */
  lemma PointerScrollStays(g: Machine, event: Event)
    requires (event.Begin? || event.Update? || event.End?) && !event.w.locked && ScrollsByPointer(g)
    ensures Step(g, event) == g
  {
  }

  /** Lifting the fingers ends any swipe; clients that were being told of it hear whether it was cancelled. */
  lemma EndFinishes(g: Machine, w: World, cancelled: bool)
    requires !w.locked && !ScrollsByPointer(g)
    ensures var after := Step(g, End(w, cancelled));
            && after.state == Idle && after.sent == g.sent + (if g.state == Forward then [SwipeEnd(cancelled)] else [])
            && (g.state in {Scroll, Switch, SceneSwitch, Carousel} ==> after.output == None)
            && (g.state in {Switch, SceneSwitch} ==> after.group == None)
            && (g.state == Scroll ==> after.workspace == None && after.source == NoSource)
            && (g.state == SceneSwitch ==> after.pointer == None)
  {
    assert g.sent + [] == g.sent;
  }

  // Scrolling by pointer

  /** A pointer scroll starts on the row of the open overview under the pointer, or else on the active workspace, if
      that has a strip; otherwise nothing stays in flight. */
  lemma PointerScrollPicks(g: Machine, w: World)
    requires !w.locked
    ensures var after := Step(g, ScrollBegin(w));
            var row := w.overview.Opened? && w.row.Some? && w.row.value.1.Some? && w.row.value.2;
            var active := !w.overview.Opened? && w.preferred.Some? && w.group.Some? && w.hasStrip;
            && after.sent == Closed(g) && after.state == (if row || active then Scroll else Idle)
            && (row ==> after.output == w.row.value.1 && after.workspace == Some(w.row.value.0)
                        && after.source == OverviewPointerSource)
            && (active ==> after.output == w.preferred && after.workspace == Some(w.workspace)
                           && after.source == PointerSource)
            && (!row && !active ==> after.output == None)
  {
  }

  /** It goes on while what it was captured for is in place and until it is ended; nothing else ends it, and ending it
      ends nothing else. */
  lemma PointerScrollGoesOn(g: Machine, w: World)
    ensures var after := Step(g, ScrollUpdate(w));
            if ScrollsByPointer(g) && !w.scrollHolds then after.state == Idle && after.workspace == None else after == g
    ensures if ScrollsByPointer(g) then Step(g, ScrollEnd).state == Idle && Step(g, ScrollEnd).workspace == None
            else Step(g, ScrollEnd) == g
    ensures w.locked ==> Step(g, ScrollBegin(w)) == g
  {
  }

  // Ending from outside

  /** The removal of an output ends what was captured on it and nothing else, without a word. */
  lemma RemovalEndsOnlyItsOwn(g: Machine, live: set<nat>, output: nat)
    requires Valid(g, live)
    ensures var after := Step(g, OutputRemoved(output));
            && after.sent == g.sent && (g.output != Some(output) ==> after == g)
            && (g.output == Some(output) && g.state in {Scroll, Switch, SceneSwitch, Carousel} ==>
                  after.state == Idle && after.output == None && after.workspace == None && after.group == None
                  && after.pointer == None)
            && (g.state in {Forward, Overview, Blocked} ==> after == g)
  {
  }

  /** A layout change ends every gesture but a forwarded swipe. */
  lemma LayoutChangeEnds(g: Machine)
    ensures Step(g, LayoutReplaced).state == (if g.state == Forward then Forward else Idle)
    ensures g.state == Forward ==> Step(g, LayoutReplaced) == g
  {
  }

  /** The overview takes over from a switch, a transition or a presentation, and from nothing else. */
  lemma OverviewEndsSwitching(g: Machine)
    ensures var after := Step(g, OverviewOpens);
            if g.state in {Switch, SceneSwitch, Carousel} then
              after.state == Idle && after.output == None && after.sent == g.sent
              && (g.state != Carousel ==> after.group == None)
            else after == g
  {
  }

  /** The destruction of a pointer ends the transition that was started with it. */
  lemma DestroyedPointerEndsItsTransition(g: Machine, live: set<nat>, pointer: nat)
    requires Valid(g, live)
    ensures var after := Step(g, DeviceDestroyed(pointer));
            if g.state == SceneSwitch && g.pointer == Some(pointer) then
              after.state == Idle && after.output == None && after.group == None && after.sent == g.sent
            else after == g
  {
  }
}
