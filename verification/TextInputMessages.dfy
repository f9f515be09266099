/** Who each message of the text input relay is for, over any run of events. */
module TextInputMessages {
  import opened Options
  import opened Sequences
  import opened TextInput

  /** The text input that edits are for: the first that is entered and enabled, while there is an input method. */
  ghost predicate FirstEnabledAt(inputs: seq<TextInput>, k: int, id: nat) {
    && 0 <= k < |inputs| && inputs[k].id == id && inputs[k].focused.Some? && inputs[k].enabled
    && forall j :: 0 <= j < k ==> inputs[j].focused.None? || !inputs[j].enabled
  }

  ghost predicate IsAddressed(relay: Relay, id: nat) {
    relay.inputMethod.Some? && exists k :: FirstEnabledAt(relay.inputs, k, id)
  }

  /** It is the one the relay holds as active. */
  lemma ActiveIsAddressed(relay: Relay, id: nat)
    requires Valid(relay)
    ensures relay.active == Some(id) <==> IsAddressed(relay, id)
  {
    var k := FirstReady(relay.inputs, 0);
    if k < |relay.inputs| {
      assert FirstEnabledAt(relay.inputs, k, relay.inputs[k].id);
    }
    if j :| FirstEnabledAt(relay.inputs, j, id) {
      assert Ready(relay.inputs[j]) && forall i :: 0 <= i < j ==> !Ready(relay.inputs[i]);
      assert j == k;
    }
  }

  /** A text input is entered on the focused surface when that is its client's and there is an input method, and
      otherwise on none. */
  lemma EnteredExactly(relay: Relay, i: nat, surface: Surface)
    requires Valid(relay) && i < |relay.inputs|
    ensures relay.inputs[i].focused == Some(surface) <==>
              && relay.inputMethod.Some? && relay.focusedSurface == Some(surface)
              && surface.client == relay.inputs[i].client
    ensures EnteredOn(relay.sent, relay.inputs[i].id) == relay.inputs[i].focused
  {
  }

  // What one event sends

  ghost predicate OnlyMoves(messages: seq<Sent>) {
    forall i :: 0 <= i < |messages| ==> messages[i].Enter? || messages[i].Leave?
  }

  lemma OnlyMovesConcat(a: seq<Sent>, b: seq<Sent>)
    requires OnlyMoves(a) && OnlyMoves(b)
    ensures OnlyMoves(a + b)
  {
  }

  lemma OneMove(input: TextInput, target: Option<Surface>)
    ensures OnlyMoves(MoveMessages(input, target))
  {
  }

  lemma {:induction false} MovesOnly(inputMethod: Option<nat>, surface: Option<Surface>, inputs: seq<TextInput>, n: nat)
    requires n <= |inputs|
    ensures OnlyMoves(FocusMessages(inputMethod, surface, inputs, n))
  {
    if n == 0 {
    } else {
      var last := inputs[n - 1];
      MovesOnly(inputMethod, surface, inputs, n - 1);
      OneMove(last, Target(inputMethod, surface, last));
      OnlyMovesConcat(FocusMessages(inputMethod, surface, inputs, n - 1),
                      MoveMessages(last, Target(inputMethod, surface, last)));
    }
  }

  lemma FocusSends(relay: Relay) returns (added: seq<Sent>)
    ensures Focused(relay).sent == relay.sent + added && forall m :: m in added ==> m.Enter? || m.Leave?
  {
    added := FocusMessages(relay.inputMethod, relay.focusedSurface, relay.inputs, |relay.inputs|);
    MovesOnly(relay.inputMethod, relay.focusedSurface, relay.inputs, |relay.inputs|);
  }

  /** A choice sends no edit, and a state only of a text input that becomes active. */
  ghost predicate SentByChoice(relay: Relay, after: Relay, message: Sent) {
    && !message.Edit?
    && (message.State? ==> relay.inputMethod == Some(message.inputMethod) && after.active == Some(message.input)
                           && relay.active != Some(message.input))
  }

  lemma ChoiceSends(relay: Relay) returns (added: seq<Sent>)
    ensures Activated(relay).sent == relay.sent + added
    ensures forall m :: m in added ==> SentByChoice(relay, Activated(relay), m)
  {
    var candidate := Candidate(relay);
    if candidate == relay.active {
      added := [];
    } else {
      added := ActiveMessages(relay.inputMethod, candidate);
    }
  }

  /** Moving focus and choosing anew. */
  lemma BothSend(relay: Relay) returns (added: seq<Sent>)
    ensures Activated(Focused(relay)).sent == relay.sent + added
    ensures forall m :: m in added ==> SentByChoice(relay, Activated(Focused(relay)), m)
  {
    var moves := FocusSends(relay);
    var choice := ChoiceSends(Focused(relay));
    added := moves + choice;
    Regroup(relay.sent, moves, choice);
  }

  /** What an event may send: an edit only on a commit of the input method, to the active text input; a state only on a
      commit of the active text input, or of one that the event makes active. */
  ghost predicate SendsWell(relay: Relay, event: Event, message: Sent) {
    && (message.Edit? ==> event == MethodCommitted && relay.active == Some(message.input))
    && (message.State? ==>
          && Step(relay, event).inputMethod == Some(message.inputMethod)
          && Step(relay, event).active == Some(message.input)
          && (event == InputCommitted(message.input) || relay.active != Some(message.input)))
  }

  lemma EnablingSendsWell(relay: Relay, id: nat) returns (added: seq<Sent>)
    ensures Step(relay, InputEnabled(id)).sent == relay.sent + added
    ensures forall m :: m in added ==> SendsWell(relay, InputEnabled(id), m)
  {
    var changed := relay.(inputs := WithEnabled(relay.inputs, id, true));
    var choice := ChoiceSends(changed);
    added := choice + [Done(id)];
    Regroup(relay.sent, choice, [Done(id)]);
    forall m | m in added ensures SendsWell(relay, InputEnabled(id), m) {
      assert m == Done(id) || SentByChoice(changed, Activated(changed), m);
    }
  }

  lemma NewMethodSendsWell(relay: Relay, created: nat, sameSeat: bool) returns (added: seq<Sent>)
    ensures Step(relay, NewMethod(created, sameSeat)).sent == relay.sent + added
    ensures forall m :: m in added ==> SendsWell(relay, NewMethod(created, sameSeat), m)
  {
    if !sameSeat {
      added := [];
    } else if relay.inputMethod.Some? {
      added := [Unavailable(created)];
    } else {
      added := BothSend(relay.(inputMethod := Some(created)));
    }
  }

  lemma CommitSendsWell(relay: Relay, event: Event) returns (added: seq<Sent>)
    requires event.InputCommitted? || event.MethodCommitted?
    ensures Step(relay, event).sent == relay.sent + added && forall m :: m in added ==> SendsWell(relay, event, m)
  {
    added := [];
    match event
    case InputCommitted(id) =>
      if relay.active == Some(id) && relay.inputMethod.Some? {
        added := [State(relay.inputMethod.value, id)];
      }
    case MethodCommitted =>
      if relay.active.Some? {
        added := [Edit(relay.active.value)];
      }
  }

  lemma StepSendsWell(relay: Relay, event: Event) returns (added: seq<Sent>)
    ensures Step(relay, event).sent == relay.sent + added && forall m :: m in added ==> SendsWell(relay, event, m)
  {
    match event
    case NewInput(id, client, sameSeat) =>
      added := [];
      if sameSeat {
        added := FocusSends(relay.(inputs := relay.inputs + [TextInput(id, client, None, false)]));
      }
    case InputDestroyed(id) => added := ChoiceSends(relay.(inputs := Without(relay.inputs, id)));
    case InputEnabled(id) => added := EnablingSendsWell(relay, id);
    case InputDisabled(id) => added := ChoiceSends(relay.(inputs := WithEnabled(relay.inputs, id, false)));
    case InputCommitted(_) => added := CommitSendsWell(relay, event);
    case NewMethod(m, sameSeat) => added := NewMethodSendsWell(relay, m, sameSeat);
    case MethodCommitted => added := CommitSendsWell(relay, event);
    case MethodDestroyed => added := BothSend(relay.(inputMethod := None));
    case FocusChanged(surface) => added := BothSend(relay.(focusedSurface := surface));
  }

  /** A commit of the input method is an edit of the text input it is for, or of none; a commit of a text input is
      passed on exactly when it is that one. */
  lemma CommitsAreAddressed(relay: Relay, id: nat)
    requires Valid(relay)
    ensures IsAddressed(relay, id) ==>
              && Step(relay, MethodCommitted) == relay.(sent := relay.sent + [Edit(id)])
              && Step(relay, InputCommitted(id))
                 == relay.(sent := relay.sent + [State(relay.inputMethod.value, id)])
    ensures !IsAddressed(relay, id) ==> Step(relay, InputCommitted(id)) == relay
    ensures (forall other :: !IsAddressed(relay, other)) ==> Step(relay, MethodCommitted) == relay
  {
    ActiveIsAddressed(relay, id);
    if relay.active.Some? {
      ActiveIsAddressed(relay, relay.active.value);
    }
  }

  /** The flags follow the clients: only enabling and disabling change them, and only of their own text input.
      Enabling is answered, after all else. */
  lemma FlagsFollowClients(relay: Relay, id: nat)
    ensures var on, off := Step(relay, InputEnabled(id)), Step(relay, InputDisabled(id));
            && |on.inputs| == |off.inputs| == |relay.inputs|
            && (forall i :: 0 <= i < |relay.inputs| ==>
                  && on.inputs[i] == relay.inputs[i].(enabled := relay.inputs[i].enabled || relay.inputs[i].id == id)
                  && off.inputs[i] == relay.inputs[i].(enabled := relay.inputs[i].enabled && relay.inputs[i].id != id))
            && on.sent != [] && on.sent[|on.sent| - 1] == Done(id)
  {
  }

  /** The list follows the clients: a new text input of this seat joins it last, disabled; a destroyed one leaves it;
      and the others stay as they are, but for where they are entered. */
  lemma ListFollowsClients(relay: Relay, id: nat, client: nat)
    requires Distinct(relay.inputs)
    ensures var added := Step(relay, NewInput(id, client, true)).inputs;
            && |added| == |relay.inputs| + 1
            && added[|relay.inputs|].(focused := None) == TextInput(id, client, None, false)
            && forall i :: 0 <= i < |relay.inputs| ==>
                 added[i].(focused := None) == relay.inputs[i].(focused := None)
    ensures Step(relay, NewInput(id, client, false)) == relay
    ensures forall input :: input in Step(relay, InputDestroyed(id)).inputs <==>
              input in relay.inputs && input.id != id
  {
    WithoutHolds(relay.inputs, id);
  }

  /** Only the first input method is taken; a later one is told so and changes nothing. */
  lemma SecondMethodIsRefused(relay: Relay, created: nat)
    ensures relay.inputMethod.Some? ==>
              Step(relay, NewMethod(created, true)) == relay.(sent := relay.sent + [Unavailable(created)])
    ensures relay.inputMethod.None? ==> Step(relay, NewMethod(created, true)).inputMethod == Some(created)
    ensures Step(relay, MethodDestroyed).inputMethod == None
    ensures Step(relay, NewMethod(created, false)) == relay
  {
  }

  // Over every run

  /** The event with this number sent the message at this position of the trace. */
  ghost predicate SentBy(events: seq<Event>, n: int, i: int) {
    0 <= n < |events| && |Run(events[..n]).sent| <= i < |Run(events[..n + 1]).sent|
  }

  lemma {:induction false} SomeEventSent(events: seq<Event>, i: nat) returns (n: nat)
    requires i < |Run(events).sent|
    ensures SentBy(events, n, i) && Run(events[..n + 1]) == Step(Run(events[..n]), events[n])
    ensures SendsWell(Run(events[..n]), events[n], Run(events).sent[i])
  {
    var last := |events| - 1;
    var before := Run(events[..last]);
    assert events[..last + 1] == events && events[..last + 1][..last] == events[..last];
    var added := StepSendsWell(before, events[last]);
    if i < |before.sent| {
      n := SomeEventSent(events[..last], i);
      assert events[..last][..n] == events[..n] && events[..last][..n + 1] == events[..n + 1];
    } else {
      n := last;
      assert Run(events).sent[i] == added[i - |before.sent|];
    }
  }

  lemma PrefixIsPossible(events: seq<Event>, n: nat)
    requires PossibleRun(events) && n <= |events|
    ensures PossibleRun(events[..n]) && Valid(Run(events[..n]))
  {
    assert forall i :: 0 <= i < n ==> events[..n][..i] == events[..i];
    AlwaysValid(events[..n]);
  }

  /** Whatever happened before, every edit was sent by a commit of the input method, to the text input that was the
      first entered and enabled one at that moment. */
  lemma EveryEditIsAddressed(events: seq<Event>, i: nat) returns (n: nat)
    requires PossibleRun(events) && i < |Run(events).sent| && Run(events).sent[i].Edit?
    ensures SentBy(events, n, i) && events[n] == MethodCommitted
    ensures IsAddressed(Run(events[..n]), Run(events).sent[i].input)
  {
    n := SomeEventSent(events, i);
    var before := Run(events[..n]);
    PrefixIsPossible(events, n);
    ActiveIsAddressed(before, Run(events).sent[i].input);
  }

  /** And every state was that of the text input edits are for once it was sent, because that one had committed it or
      had only just become the one. */
  lemma EveryStateIsAddressed(events: seq<Event>, i: nat) returns (n: nat)
    requires PossibleRun(events) && i < |Run(events).sent| && Run(events).sent[i].State?
    ensures SentBy(events, n, i)
    ensures var before, after, message := Run(events[..n]), Run(events[..n + 1]), Run(events).sent[i];
            && after.inputMethod == Some(message.inputMethod) && IsAddressed(after, message.input)
            && (events[n] == InputCommitted(message.input) || !IsAddressed(before, message.input))
  {
    n := SomeEventSent(events, i);
    var before, after, message := Run(events[..n]), Run(events[..n + 1]), Run(events).sent[i];
    PrefixIsPossible(events, n);
    PrefixIsPossible(events, n + 1);
    ActiveIsAddressed(before, message.input);
    ActiveIsAddressed(after, message.input);
  }
}
