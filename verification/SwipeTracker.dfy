/** A sliding window over touchpad motion, kept on a 32-bit millisecond clock that wraps around. */
module SwipeTracker {

  const WRAP := 0x1_0000_0000
  const HALF := 0x8000_0000
  const LIMIT := 150

  /** A stored reading, stamped by the wrapping clock. */
  datatype Event = Event(delta: real, time: nat)

  /** A reading on an unbounded clock. */
  datatype Stamp = Stamp(delta: real, at: nat)

  /** The difference of two 32-bit times, cast to a signed 32-bit integer. */
  function Elapsed(now: nat, before: nat): int {
    var difference := (now - before) % WRAP;
    if difference < HALF then difference else difference - WRAP
  }

  /** The cast gives the true difference exactly when that fits a signed 32-bit integer. */
  lemma ElapsedIsExact(now: nat, before: nat)
    ensures Elapsed(now % WRAP, before % WRAP) == now - before <==> -HALF <= now - before < HALF
  {
    var d := now - before;
    var wrapped := now % WRAP - before % WRAP;
    assert (d - wrapped) % WRAP == 0;
    assert wrapped % WRAP == d % WRAP;
  }

  function Wrapped(stamps: seq<Stamp>): (events: seq<Event>)
    ensures |events| == |stamps|
    ensures forall i :: 0 <= i < |stamps| ==> events[i] == Event(stamps[i].delta, stamps[i].at % WRAP)
  {
    seq(|stamps|, i requires 0 <= i < |stamps| => Event(stamps[i].delta, stamps[i].at % WRAP))
  }

  // What the tracker computes

  function FirstKept(history: seq<Event>, now: nat, from: nat): (k: nat)
    requires from <= |history|
    ensures from <= k <= |history| && (k < |history| ==> Elapsed(now, history[k].time) <= LIMIT)
    ensures forall i :: from <= i < k ==> Elapsed(now, history[i].time) > LIMIT
    decreases |history| - from
  {
    if from == |history| || Elapsed(now, history[from].time) <= LIMIT then from else FirstKept(history, now, from + 1)
  }

  function Trimmed(history: seq<Event>, now: nat): seq<Event> {
    history[FirstKept(history, now, 0)..]
  }

  predicate Accepts(history: seq<Event>, time: nat) {
    history == [] || 0 <= Elapsed(time, history[|history| - 1].time)
  }

  datatype Track = Track(history: seq<Event>, pos: real)

  function Pushed(track: Track, delta: real, time: nat): Track {
    if Accepts(track.history, time) then
      Track(Trimmed(track.history + [Event(delta, time)], time), track.pos + delta)
    else track
  }

  function Deltas(history: seq<Event>): real {
    if history == [] then 0.0 else Deltas(history[..|history| - 1]) + history[|history| - 1].delta
  }

  function Velocity(history: seq<Event>): real {
    if |history| < 2 then 0.0
    else
      var elapsed := Elapsed(history[|history| - 1].time, history[0].time);
      if elapsed == 0 then 0.0 else Deltas(history[1..]) / (elapsed as real / 1000.0)
  }

  // What it is meant to compute, on the unbounded clock

  ghost predicate InOrder(stamps: seq<Stamp>) {
    forall i, j :: 0 <= i <= j < |stamps| ==> stamps[i].at <= stamps[j].at
  }

  ghost function FirstRecent(stamps: seq<Stamp>, from: nat): (k: nat)
    requires from <= |stamps|
    ensures from <= k <= |stamps| && (from < |stamps| ==> k < |stamps|)
    ensures forall i :: from <= i < k ==> stamps[|stamps| - 1].at - stamps[i].at > LIMIT
    ensures k < |stamps| ==> stamps[|stamps| - 1].at - stamps[k].at <= LIMIT
    decreases |stamps| - from
  {
    if from == |stamps| || stamps[|stamps| - 1].at - stamps[from].at <= LIMIT then from
    else FirstRecent(stamps, from + 1)
  }

  /** The readings from the first that is no older than the limit, counted from the newest. */
  ghost function Window(stamps: seq<Stamp>): (w: seq<Stamp>) {
    stamps[FirstRecent(stamps, 0)..]
  }

  /** The window holds exactly the recent readings, always the newest one. */
  lemma WindowHolds(stamps: seq<Stamp>)
    requires InOrder(stamps) && stamps != []
    ensures var newest := stamps[|stamps| - 1].at;
            forall i :: 0 <= i < |stamps| ==> (FirstRecent(stamps, 0) <= i <==> newest - stamps[i].at <= 150)
    ensures Window(stamps) != [] && Window(stamps)[|Window(stamps)| - 1] == stamps[|stamps| - 1]
  {
    assert stamps[|stamps| - 1].at - stamps[|stamps| - 1].at <= LIMIT;
  }

  lemma FirstRecentIs(stamps: seq<Stamp>, k: nat)
    requires k < |stamps| && stamps[|stamps| - 1].at - stamps[k].at <= LIMIT
    requires forall i :: 0 <= i < k ==> stamps[|stamps| - 1].at - stamps[i].at > LIMIT
    ensures FirstRecent(stamps, 0) == k
  {
  }

  ghost function Total(stamps: seq<Stamp>): real {
    if stamps == [] then 0.0 else Total(stamps[..|stamps| - 1]) + stamps[|stamps| - 1].delta
  }

  /** The tracker's state stands for all readings accepted so far. */
  ghost predicate Tracks(track: Track, accepted: seq<Stamp>) {
    InOrder(accepted) && track.history == Wrapped(Window(accepted)) && track.pos == Total(accepted)
  }

  lemma WindowIsTail(stamps: seq<Stamp>, next: Stamp)
    ensures (stamps + [next])[FirstRecent(stamps, 0)..] == Window(stamps) + [next]
  {
  }

  lemma WindowMovesOn(stamps: seq<Stamp>, next: Stamp)
    requires stamps != [] ==> stamps[|stamps| - 1].at <= next.at
    ensures FirstRecent(stamps + [next], 0) >= FirstRecent(stamps, 0)
  {
    var all := stamps + [next];
    assert forall i :: 0 <= i < FirstRecent(stamps, 0) ==> all[|all| - 1].at - all[i].at > LIMIT;
  }

  lemma TailOfTail(all: seq<Stamp>, first: nat, k: nat)
    requires first <= k == FirstRecent(all, 0) < |all|
    ensures Window(all[first..]) == Window(all)
  {
    var some := all[first..];
    forall i | 0 <= i < k - first ensures some[|some| - 1].at - some[i].at > LIMIT {
      assert some[i] == all[first + i];
    }
    assert some[k - first] == all[k] && some[|some| - 1] == all[|all| - 1];
    FirstRecentIs(some, k - first);
    assert some[k - first..] == all[k..];
  }

  /** Readings that left the window stay out of it. */
  lemma WindowOfWindow(stamps: seq<Stamp>, next: Stamp)
    requires stamps != [] ==> stamps[|stamps| - 1].at <= next.at
    ensures Window(stamps + [next]) == Window(Window(stamps) + [next])
  {
    var all := stamps + [next];
    WindowIsTail(stamps, next);
    WindowMovesOn(stamps, next);
    TailOfTail(all, FirstRecent(stamps, 0), FirstRecent(all, 0));
  }

  lemma {:induction false} SamePlace(stamps: seq<Stamp>, now: nat, from: nat)
    requires InOrder(stamps) && stamps != [] && from <= |stamps| && now == stamps[|stamps| - 1].at
    requires now - stamps[0].at < HALF
    ensures FirstKept(Wrapped(stamps), now % WRAP, from) == FirstRecent(stamps, from)
    decreases |stamps| - from
  {
    if from == |stamps| {
    } else {
      assert stamps[0].at <= stamps[from].at <= now;
      ElapsedIsExact(now, stamps[from].at);
      SamePlace(stamps, now, from + 1);
    }
  }

  lemma TrimIsWindow(stamps: seq<Stamp>)
    requires InOrder(stamps) && stamps != [] && stamps[|stamps| - 1].at - stamps[0].at < HALF
    ensures Trimmed(Wrapped(stamps), stamps[|stamps| - 1].at % WRAP) == Wrapped(Window(stamps))
  {
    SamePlace(stamps, stamps[|stamps| - 1].at, 0);
  }

  lemma OrderInWindow(accepted: seq<Stamp>, next: Stamp)
    requires InOrder(accepted + [next])
    ensures InOrder(accepted) && InOrder(Window(accepted) + [next])
    ensures accepted != [] ==> accepted[|accepted| - 1].at <= next.at
  {
    var all := accepted + [next];
    assert all[..|accepted|] == accepted && all[FirstRecent(accepted, 0)..] == Window(accepted) + [next];
    assert all[|accepted|] == next && (accepted != [] ==> all[|accepted| - 1] == accepted[|accepted| - 1]);
  }

  /** A reading that is newer by less than half the clock is accepted, and afterwards the history is exactly the
      window if and only if the reading and the oldest one kept so far are less than half the clock apart. */
  lemma NearPush(accepted: seq<Stamp>, next: Stamp)
    requires InOrder(accepted + [next]) && accepted != []
    requires next.at - accepted[|accepted| - 1].at < HALF
    ensures Accepts(Wrapped(Window(accepted)), next.at % WRAP) && Window(accepted) != []
    ensures (Trimmed(Wrapped(Window(accepted) + [next]), next.at % WRAP) == Wrapped(Window(accepted + [next])))
            == (next.at - Window(accepted)[0].at < HALF)
  {
    OrderInWindow(accepted, next);
    WindowHolds(accepted);
    ElapsedIsExact(next.at, accepted[|accepted| - 1].at);
    WindowOfWindow(accepted, next);
    NearTrim(Window(accepted), next);
  }

  lemma NearTrim(w: seq<Stamp>, next: Stamp)
    requires InOrder(w + [next]) && w != [] && 0 <= next.at - w[0].at < WRAP
    ensures (Trimmed(Wrapped(w + [next]), next.at % WRAP) == Wrapped(Window(w + [next]))) == (next.at - w[0].at < HALF)
  {
    if next.at - w[0].at < HALF {
      TrimIsWindow(w + [next]);
    } else {
      StaleIsKept(w + [next]);
    }
  }

  /** The signed difference to a reading, from the distance to the newest one. */
  lemma ElapsedByGap(now: nat, last: nat, before: nat)
    requires before <= last <= now && last - before <= LIMIT && (now - last) % WRAP < HALF
    ensures var e := (now - last) % WRAP + (last - before);
            Elapsed(now % WRAP, before % WRAP) == if e < HALF then e else e - WRAP
  {
    var r := (now - last) % WRAP;
    var e := r + (last - before);
    assert ((now - before) - e) % WRAP == 0 by {
      assert (now - last - r) % WRAP == 0;
    }
    assert ((now % WRAP - before % WRAP) - (now - before)) % WRAP == 0;
    SameRemainder(now % WRAP - before % WRAP, e);
  }

  lemma SameRemainder(a: int, b: int)
    requires (a - b) % WRAP == 0 && 0 <= b < WRAP
    ensures a % WRAP == b
  {
  }

  /** A reading a whole turn of the clock or more after the newest one looks as near as the rest of the turns makes
      it: only when that is beyond the limit, for every reading kept, does it leave itself alone in the history. */
  lemma FarPush(accepted: seq<Stamp>, next: Stamp)
    requires InOrder(accepted + [next]) && accepted != []
    requires var gap := next.at - accepted[|accepted| - 1].at; gap >= WRAP && gap % WRAP < HALF
    ensures Window(accepted) != []
    ensures var last := accepted[|accepted| - 1].at;
            var rest := (next.at - last) % WRAP;
            (Trimmed(Wrapped(Window(accepted) + [next]), next.at % WRAP) == Wrapped(Window(accepted + [next])))
            == (rest + (last - Window(accepted)[0].at) < HALF && rest > LIMIT)
  {
    OrderInWindow(accepted, next);
    WindowHolds(accepted);
    AloneInWindow(accepted, next);
    FarTrim(accepted, next);
  }

  lemma FarTrim(accepted: seq<Stamp>, next: Stamp)
    requires InOrder(accepted + [next]) && accepted != [] && Window(accepted) != []
    requires (next.at - accepted[|accepted| - 1].at) % WRAP < HALF
    ensures var w, last := Window(accepted), accepted[|accepted| - 1].at;
            var rest := (next.at - last) % WRAP;
            (Trimmed(Wrapped(w + [next]), next.at % WRAP) == Wrapped([next]))
            == (rest + (last - w[0].at) < HALF && rest > LIMIT)
  {
    var w, last := Window(accepted), accepted[|accepted| - 1].at;
    var n := |w|;
    KeptReading(accepted, next, 0);
    KeptReading(accepted, next, n - 1);
    assert w[n - 1] == accepted[|accepted| - 1];
    if (next.at - last) % WRAP + (last - w[0].at) < HALF && (next.at - last) % WRAP > LIMIT {
      forall i | 0 <= i < n ensures Elapsed(next.at % WRAP, w[i].at % WRAP) > LIMIT {
        KeptReading(accepted, next, i);
      }
      OnlyNewestIsKept(w, next);
    } else {
      SomeOlderIsKept(w, next, if Elapsed(next.at % WRAP, w[0].at % WRAP) <= LIMIT then 0 else n - 1);
    }
  }

  lemma OnlyNewestIsKept(w: seq<Stamp>, next: Stamp)
    requires forall i :: 0 <= i < |w| ==> Elapsed(next.at % WRAP, w[i].at % WRAP) > LIMIT
    ensures Trimmed(Wrapped(w + [next]), next.at % WRAP) == Wrapped([next])
  {
    var events := Wrapped(w + [next]);
    assert forall i :: 0 <= i < |w| ==> events[i].time == w[i].at % WRAP;
    assert events[|w|].time == next.at % WRAP && Elapsed(next.at % WRAP, next.at % WRAP) == 0;
    assert FirstKept(events, next.at % WRAP, 0) == |w|;
  }

  lemma SomeOlderIsKept(w: seq<Stamp>, next: Stamp, i: nat)
    requires i < |w| && Elapsed(next.at % WRAP, w[i].at % WRAP) <= LIMIT
    ensures |Trimmed(Wrapped(w + [next]), next.at % WRAP)| > 1
  {
    assert Wrapped(w + [next])[i].time == w[i].at % WRAP;
  }

  /** How old a reading of the window looks to a new one. */
  lemma KeptReading(accepted: seq<Stamp>, next: Stamp, i: nat)
    requires InOrder(accepted + [next]) && accepted != [] && i < |Window(accepted)|
    requires (next.at - accepted[|accepted| - 1].at) % WRAP < HALF
    ensures var last, w := accepted[|accepted| - 1].at, Window(accepted);
            var e := (next.at - last) % WRAP + (last - w[i].at);
            && w[0].at <= w[i].at <= last <= w[i].at + LIMIT
            && Elapsed(next.at % WRAP, w[i].at % WRAP) == if e < HALF then e else e - WRAP
  {
    var w, first := Window(accepted), FirstRecent(accepted, 0);
    OrderInWindow(accepted, next);
    WindowHolds(accepted);
    assert w[i] == accepted[first + i] && w[0] == accepted[first];
    ElapsedByGap(next.at, accepted[|accepted| - 1].at, w[i].at);
  }

  lemma AloneInWindow(accepted: seq<Stamp>, next: Stamp)
    requires InOrder(accepted + [next]) && (accepted != [] ==> next.at - accepted[|accepted| - 1].at > LIMIT)
    ensures Window(accepted + [next]) == [next]
  {
    var all := accepted + [next];
    forall i | 0 <= i < |accepted| ensures next.at - all[i].at > LIMIT {
      assert all[i].at <= all[|accepted| - 1].at;
    }
    FirstRecentIs(all, |accepted|);
  }

  /** A refused reading is missing from the history, since its time differs from the newest one kept. */
  lemma RefusedIsMissing(accepted: seq<Stamp>, next: Stamp)
    requires InOrder(accepted + [next]) && accepted != []
    requires (next.at - accepted[|accepted| - 1].at) % WRAP >= HALF
    ensures !Accepts(Wrapped(Window(accepted)), next.at % WRAP)
        && Wrapped(Window(accepted)) != Wrapped(Window(accepted + [next]))
  {
    var last := accepted[|accepted| - 1];
    OrderInWindow(accepted, next);
    NewestIsKept(accepted);
    NewestIsKept(accepted + [next]);
    LooksOlder(next.at, last.at);
  }

  lemma NewestIsKept(stamps: seq<Stamp>)
    requires InOrder(stamps) && stamps != []
    ensures var events := Wrapped(Window(stamps));
            events != [] && events[|events| - 1].time == stamps[|stamps| - 1].at % WRAP
  {
    WindowHolds(stamps);
  }

  lemma LooksOlder(now: nat, last: nat)
    requires last <= now && (now - last) % WRAP >= HALF
    ensures now % WRAP != last % WRAP && Elapsed(now % WRAP, last % WRAP) < 0
  {
    SameRemainder(now % WRAP - last % WRAP, (now - last) % WRAP);
  }

  /** What a push has to get right. */
  lemma PushedTracks(track: Track, accepted: seq<Stamp>, next: Stamp)
    requires Tracks(track, accepted) && InOrder(accepted + [next])
    ensures var now, after := next.at % WRAP, Pushed(track, next.delta, next.at % WRAP);
            if Accepts(track.history, now) then
              Tracks(after, accepted + [next])
              <==> Trimmed(Wrapped(Window(accepted) + [next]), now) == Wrapped(Window(accepted + [next]))
            else after == track
  {
    assert (accepted + [next])[..|accepted|] == accepted;
    assert track.history + [Event(next.delta, next.at % WRAP)] == Wrapped(Window(accepted) + [next]);
  }

  lemma FarIsAccepted(accepted: seq<Stamp>, next: Stamp)
    requires InOrder(accepted + [next]) && accepted != []
    requires (next.at - accepted[|accepted| - 1].at) % WRAP < HALF
    ensures Accepts(Wrapped(Window(accepted)), next.at % WRAP)
  {
    var last := accepted[|accepted| - 1].at;
    OrderInWindow(accepted, next);
    WindowHolds(accepted);
    ElapsedByGap(next.at, last, last);
  }

  /** With whole turns of the clock taken off its distance, a reading is less than half the clock after the oldest one
      kept, and no whole turn makes it look recent. */
  ghost predicate LooksRight(accepted: seq<Stamp>, next: Stamp) {
    accepted != [] && Window(accepted) != [] ==>
      var last := accepted[|accepted| - 1].at;
      var gap, span := next.at - last, last - Window(accepted)[0].at;
      gap % WRAP + span < HALF && (gap <= LIMIT || gap % WRAP > LIMIT)
  }

  /** The history ends up as the window. */
  ghost predicate TrimsRight(accepted: seq<Stamp>, next: Stamp) {
    && Accepts(Wrapped(Window(accepted)), next.at % WRAP)
    && Trimmed(Wrapped(Window(accepted) + [next]), next.at % WRAP) == Wrapped(Window(accepted + [next]))
  }

  /** After any reading that is not older than the newest, the tracker stands for all readings if and only if the
      reading looks right. */
  lemma PushIsExactIff(track: Track, accepted: seq<Stamp>, next: Stamp)
    requires Tracks(track, accepted) && InOrder(accepted + [next])
    ensures Tracks(Pushed(track, next.delta, next.at % WRAP), accepted + [next]) <==> LooksRight(accepted, next)
  {
    PushedTracks(track, accepted, next);
    if accepted == [] {
      TrimIsWindow([next]);
      assert Window([]) + [next] == [next] == [] + [next];
    } else if (next.at - accepted[|accepted| - 1].at) % WRAP >= HALF {
      RefusedIsMissing(accepted, next);
      RefusedLooksWrong(accepted, next);
    } else {
      AcceptedCases(accepted, next);
    }
  }

  lemma RefusedLooksWrong(accepted: seq<Stamp>, next: Stamp)
    requires InOrder(accepted + [next]) && accepted != []
    requires (next.at - accepted[|accepted| - 1].at) % WRAP >= HALF
    ensures !LooksRight(accepted, next)
  {
    KeptReadingBounds(accepted, next);
  }

  lemma AcceptedCases(accepted: seq<Stamp>, next: Stamp)
    requires InOrder(accepted + [next]) && accepted != []
    requires (next.at - accepted[|accepted| - 1].at) % WRAP < HALF
    ensures Accepts(Wrapped(Window(accepted)), next.at % WRAP)
    ensures TrimsRight(accepted, next) <==> LooksRight(accepted, next)
  {
    OrderInWindow(accepted, next);
    FarIsAccepted(accepted, next);
    if next.at - accepted[|accepted| - 1].at < WRAP {
      NearCase(accepted, next);
    } else {
      FarPush(accepted, next);
    }
  }

  lemma NearCase(accepted: seq<Stamp>, next: Stamp)
    requires InOrder(accepted + [next]) && accepted != []
    requires 0 <= next.at - accepted[|accepted| - 1].at < HALF
    ensures TrimsRight(accepted, next) <==> LooksRight(accepted, next)
  {
    NearPush(accepted, next);
    NearLooks(accepted, next);
  }

  lemma NearLooks(accepted: seq<Stamp>, next: Stamp)
    requires accepted != [] && Window(accepted) != []
    requires 0 <= next.at - accepted[|accepted| - 1].at < HALF
    ensures LooksRight(accepted, next) <==> next.at - Window(accepted)[0].at < HALF
  {
    WithinTheClock(next.at - accepted[|accepted| - 1].at);
  }

  lemma WithinTheClock(gap: int)
    requires 0 <= gap < HALF
    ensures gap % WRAP == gap
  {
  }

  lemma KeptReadingBounds(accepted: seq<Stamp>, next: Stamp)
    requires InOrder(accepted + [next]) && accepted != []
    ensures Window(accepted) != [] && 0 <= accepted[|accepted| - 1].at - Window(accepted)[0].at
  {
    OrderInWindow(accepted, next);
    WindowHolds(accepted);
    assert Window(accepted)[0] == accepted[FirstRecent(accepted, 0)];
  }

  lemma StaleIsKept(stamps: seq<Stamp>)
    requires stamps != [] && HALF <= stamps[|stamps| - 1].at - stamps[0].at < WRAP
    ensures Trimmed(Wrapped(stamps), stamps[|stamps| - 1].at % WRAP) != Wrapped(Window(stamps))
  {
    NoTrimBeyondHalf(stamps[|stamps| - 1].at, stamps[0].at);
    assert FirstKept(Wrapped(stamps), stamps[|stamps| - 1].at % WRAP, 0) == 0;
    assert FirstRecent(stamps, 0) > 0;
  }

  lemma NoTrimBeyondHalf(now: nat, oldest: nat)
    requires HALF <= now - oldest < WRAP
    ensures Elapsed(now % WRAP, oldest % WRAP) < 0
  {
    var d := now - oldest;
    var wrapped := now % WRAP - oldest % WRAP;
    assert (d - wrapped) % WRAP == 0;
    assert wrapped % WRAP == d % WRAP == d;
  }

  /** With readings at most 2^31 - 151 ms apart, wrapping never shows. */
  lemma PushTracks(track: Track, accepted: seq<Stamp>, next: Stamp)
    requires Tracks(track, accepted)
    requires accepted != [] ==> 0 <= next.at - accepted[|accepted| - 1].at <= HALF - LIMIT - 1
    ensures var after := Pushed(track, next.delta, next.at % WRAP);
            Tracks(after, accepted + [next]) && after.history != []
  {
    assert InOrder(accepted + [next]);
    NearReading(accepted, next);
    PushIsExactIff(track, accepted, next);
    WindowHolds(accepted + [next]);
  }

  lemma NearReading(accepted: seq<Stamp>, next: Stamp)
    requires InOrder(accepted + [next])
    requires accepted != [] ==> next.at - accepted[|accepted| - 1].at <= HALF - LIMIT - 1
    ensures LooksRight(accepted, next)
  {
    OrderInWindow(accepted, next);
    if accepted != [] {
      WindowHolds(accepted);
      assert Window(accepted)[0] == accepted[FirstRecent(accepted, 0)];
    }
  }

  /** A reading from the past, by up to half the clock, changes nothing. */
  lemma PastIsRejected(track: Track, accepted: seq<Stamp>, past: Stamp)
    requires Tracks(track, accepted) && accepted != []
    requires 0 < accepted[|accepted| - 1].at - past.at <= HALF
    ensures Pushed(track, past.delta, past.at % WRAP) == track
  {
    ElapsedIsExact(past.at, accepted[|accepted| - 1].at);
  }

  // Over a whole gesture

  ghost function AfterAll(readings: seq<Stamp>): Track {
    if readings == [] then Track([], 0.0)
    else
      var last := readings[|readings| - 1];
      Pushed(AfterAll(readings[..|readings| - 1]), last.delta, last.at % WRAP)
  }

  /** The readings that are not older than one already taken. */
  ghost function Taken(readings: seq<Stamp>): seq<Stamp> {
    if readings == [] then []
    else
      var earlier, last := Taken(readings[..|readings| - 1]), readings[|readings| - 1];
      if earlier != [] && last.at < earlier[|earlier| - 1].at then earlier else earlier + [last]
  }

  /** No reading is further from the newest one before it than the clock can tell. */
  ghost predicate Spaced(readings: seq<Stamp>) {
    forall i :: 0 <= i < |readings| ==>
      var earlier := Taken(readings[..i]);
      earlier != [] ==> -HALF <= readings[i].at - earlier[|earlier| - 1].at <= HALF - LIMIT - 1
  }

  /** Whatever order readings arrive in, the tracker stands for exactly the ones that were not out of date. */
  lemma {:induction false} TracksTheGesture(readings: seq<Stamp>)
    requires Spaced(readings)
    ensures Tracks(AfterAll(readings), Taken(readings))
  {
    if readings != [] {
      var n := |readings| - 1;
      assert forall i :: 0 <= i < n ==> readings[..n][..i] == readings[..i];
      TracksTheGesture(readings[..n]);
      var track, earlier := AfterAll(readings[..n]), Taken(readings[..n]);
      if earlier != [] && readings[n].at < earlier[|earlier| - 1].at {
        PastIsRejected(track, earlier, readings[n]);
      } else {
        PushTracks(track, earlier, readings[n]);
      }
    }
  }

  /** Two readings 150 ms apart and a third just over 2^31 ms after the first: the first is not dropped. */
  lemma LongGapKeepsStaleReadings()
    ensures var accepted, next := [Stamp(1.0, 0), Stamp(1.0, 150)], Stamp(1.0, HALF + 10);
            var history, time := Wrapped(Window(accepted)), next.at % WRAP;
            && Accepts(history, time)
            && Trimmed(history + [Event(1.0, time)], time) != Wrapped(Window(accepted + [next]))
  {
    var accepted, next := [Stamp(1.0, 0), Stamp(1.0, 150)], Stamp(1.0, HALF + 10);
    assert Window(accepted) == accepted;
    assert Wrapped(accepted) + [Event(1.0, next.at % WRAP)] == Wrapped(accepted + [next]);
    NearPush(accepted, next);
  }

  lemma {:induction false} DeltasAreTotals(stamps: seq<Stamp>)
    ensures Deltas(Wrapped(stamps)) == Total(stamps)
  {
    if stamps == [] {
    } else {
      var n := |stamps| - 1;
      DeltasAreTotals(stamps[..n]);
      assert Wrapped(stamps)[..n] == Wrapped(stamps[..n]);
    }
  }

  /** The velocity is the motion after the oldest reading of the window, per second of true time. */
  lemma VelocityIsTrue(track: Track, accepted: seq<Stamp>)
    requires Tracks(track, accepted)
    ensures var w := Window(accepted);
            Velocity(track.history) ==
              if |w| < 2 || w[|w| - 1].at == w[0].at then 0.0
              else Total(w[1..]) / ((w[|w| - 1].at - w[0].at) as real / 1000.0)
  {
    var w := Window(accepted);
    if |w| >= 2 {
      WindowHolds(accepted);
      ElapsedIsExact(w[|w| - 1].at, w[0].at);
      DeltasAreTotals(w[1..]);
      assert Wrapped(w)[1..] == Wrapped(w[1..]);
    }
  }

  class SwipeTracker {
    var history: seq<Event>
    var pos: real

    constructor ()
      ensures State() == Track([], 0.0)
    {
      history, pos := [], 0.0;
    }

    function State(): Track
      reads this
    {
      Track(history, pos)
    }

    method Push(delta: real, time: nat)
      modifies this
      ensures State() == Pushed(old(State()), delta, time)
    {
      if history != [] {
        var last := history[|history| - 1].time;
        if Elapsed(time, last) < 0 {
          return;
        }
      }
      history := history + [Event(delta, time)];
      pos := pos + delta;
      TrimHistory(time);
    }

    method Reset()
      modifies this
      ensures State() == Track([], 0.0)
    {
      history, pos := [], 0.0;
    }

    method TrimHistory(now: nat)
      modifies this`history
      ensures history == Trimmed(old(history), now)
    {
      ghost var dropped := 0;
      while history != []
        invariant dropped <= |old(history)| && history == old(history)[dropped..]
        invariant FirstKept(old(history), now, dropped) == FirstKept(old(history), now, 0)
        decreases |history|
      {
        if Elapsed(now, history[0].time) <= LIMIT {
          break;
        }
        history, dropped := history[1..], dropped + 1;
      }
    }

    method CurrentVelocity() returns (velocity: real)
      ensures velocity == Velocity(history)
    {
      if |history| < 2 {
        return 0.0;
      }
      var elapsed := Elapsed(history[|history| - 1].time, history[0].time);
      if elapsed == 0 {
        return 0.0;
      }
      var moved := history[1..];
      var total := 0.0;
      for i := 0 to |moved|
        invariant total == Deltas(moved[..i])
      {
        assert moved[..i + 1][..i] == moved[..i];
        total := total + moved[i].delta;
      }
      assert moved[..|moved|] == moved;
      return total / (elapsed as real / 1000.0);
    }
  }
}
