/** The relay between text input clients and the seat's one input method, over any sequence of events. */
module TextInput {
  import opened Options
  import opened Sequences

  datatype Surface = Surface(id: nat, client: nat)

  /** A client's text input: the surface it was entered on, and whether the client enabled it. */
  datatype TextInput = TextInput(id: nat, client: nat, focused: Option<Surface>, enabled: bool)

  /** What the relay sends. `State` stands for the text state forwarded to the input method and `Edit` for what a
      commit of the input method changes in a text input, each with the `done` that closes it. */
  datatype Sent =
    | Enter(input: nat, surface: Surface)
    | Leave(input: nat)
    | Done(input: nat)
    | Edit(input: nat)
    | Activate(inputMethod: nat)
    | Deactivate(inputMethod: nat)
    | MethodDone(inputMethod: nat)
    | State(inputMethod: nat, input: nat)
    | Unavailable(inputMethod: nat)

  datatype Relay = Relay(
    inputMethod: Option<nat>, focusedSurface: Option<Surface>, active: Option<nat>, inputs: seq<TextInput>,
    sent: seq<Sent>)

  const INITIAL := Relay(None, None, None, [], [])

  // Moving focus

  /** The surface a text input belongs on. */
  function Target(inputMethod: Option<nat>, surface: Option<Surface>, input: TextInput): Option<Surface> {
    if inputMethod.Some? && surface.Some? && surface.value.client == input.client then surface else None
  }

  function Moved(inputMethod: Option<nat>, surface: Option<Surface>, inputs: seq<TextInput>): (moved: seq<TextInput>)
    ensures |moved| == |inputs|
    ensures forall i :: 0 <= i < |inputs| ==> moved[i] == inputs[i].(focused := Target(inputMethod, surface, inputs[i]))
  {
    seq(|inputs|, i requires 0 <= i < |inputs| => inputs[i].(focused := Target(inputMethod, surface, inputs[i])))
  }

  /** The text inputs after the first `n` of them were moved. */
  ghost function MovedFirst(inputMethod: Option<nat>, surface: Option<Surface>, inputs: seq<TextInput>, n: nat)
    : (r: seq<TextInput>)
    ensures |r| == |inputs|
  {
    seq(|inputs|, i requires 0 <= i < |inputs| =>
          if i < n then inputs[i].(focused := Target(inputMethod, surface, inputs[i])) else inputs[i])
  }

  lemma MoveOneMore(inputMethod: Option<nat>, surface: Option<Surface>, inputs: seq<TextInput>, n: nat)
    requires n < |inputs|
    ensures MovedFirst(inputMethod, surface, inputs, n)[n] == inputs[n]
    ensures MovedFirst(inputMethod, surface, inputs, n + 1)
         == MovedFirst(inputMethod, surface, inputs, n)
            [n := inputs[n].(focused := Target(inputMethod, surface, inputs[n]))]
  {
  }

  lemma NoneOrAllMoved(inputMethod: Option<nat>, surface: Option<Surface>, inputs: seq<TextInput>)
    ensures MovedFirst(inputMethod, surface, inputs, 0) == inputs
    ensures MovedFirst(inputMethod, surface, inputs, |inputs|) == Moved(inputMethod, surface, inputs)
  {
  }

  function MoveMessages(input: TextInput, target: Option<Surface>): seq<Sent> {
    if input.focused == target then []
    else if input.focused.None? then [Enter(input.id, target.value)]
    else if target.None? then [Leave(input.id)]
    else [Leave(input.id), Enter(input.id, target.value)]
  }

  /** What moving the first `n` text inputs sends. */
  function FocusMessages(inputMethod: Option<nat>, surface: Option<Surface>, inputs: seq<TextInput>, n: nat): seq<Sent>
    requires n <= |inputs|
  {
    if n == 0 then []
    else
      FocusMessages(inputMethod, surface, inputs, n - 1)
      + MoveMessages(inputs[n - 1], Target(inputMethod, surface, inputs[n - 1]))
  }

  function Focused(relay: Relay): Relay {
    relay.(inputs := Moved(relay.inputMethod, relay.focusedSurface, relay.inputs),
           sent := relay.sent + FocusMessages(relay.inputMethod, relay.focusedSurface, relay.inputs, |relay.inputs|))
  }

  // Choosing the active text input

  predicate Ready(input: TextInput) {
    input.focused.Some? && input.enabled
  }

  /** The position of the first text input that is entered and enabled. */
  function FirstReady(inputs: seq<TextInput>, from: nat): (k: nat)
    requires from <= |inputs|
    ensures from <= k <= |inputs| && (k < |inputs| ==> Ready(inputs[k]))
    ensures forall i :: from <= i < k ==> !Ready(inputs[i])
    decreases |inputs| - from
  {
    if from == |inputs| || Ready(inputs[from]) then from else FirstReady(inputs, from + 1)
  }

  function Candidate(relay: Relay): Option<nat> {
    if relay.inputMethod.None? then None
    else
      var k := FirstReady(relay.inputs, 0);
      if k < |relay.inputs| then Some(relay.inputs[k].id) else None
  }

  function ActiveMessages(inputMethod: Option<nat>, candidate: Option<nat>): seq<Sent> {
    if inputMethod.None? then []
    else
      [if candidate.Some? then Activate(inputMethod.value) else Deactivate(inputMethod.value),
       MethodDone(inputMethod.value)]
      + (if candidate.Some? then [State(inputMethod.value, candidate.value)] else [])
  }

  function Activated(relay: Relay): Relay {
    var candidate := Candidate(relay);
    if candidate == relay.active then relay
    else relay.(active := candidate, sent := relay.sent + ActiveMessages(relay.inputMethod, candidate))
  }

  // Events

  datatype Event =
    | NewInput(id: nat, client: nat, sameSeat: bool)
    | InputDestroyed(id: nat)
    | InputEnabled(id: nat)
    | InputDisabled(id: nat)
    | InputCommitted(id: nat)
    | NewMethod(inputMethod: nat, sameSeat: bool)
    | MethodCommitted
    | MethodDestroyed
    | FocusChanged(surface: Option<Surface>)

  function Without(inputs: seq<TextInput>, id: nat): seq<TextInput> {
    if inputs == [] then []
    else
      var last := inputs[|inputs| - 1];
      Without(inputs[..|inputs| - 1], id) + if last.id == id then [] else [last]
  }

  function WithEnabled(inputs: seq<TextInput>, id: nat, enabled: bool): (r: seq<TextInput>)
    ensures |r| == |inputs|
    ensures forall i :: 0 <= i < |inputs| ==>
              r[i] == if inputs[i].id == id then inputs[i].(enabled := enabled) else inputs[i]
  {
    seq(|inputs|, i requires 0 <= i < |inputs| =>
          if inputs[i].id == id then inputs[i].(enabled := enabled) else inputs[i])
  }

  function Step(relay: Relay, event: Event): Relay {
    match event
    case NewInput(id, client, sameSeat) =>
      if sameSeat then Focused(relay.(inputs := relay.inputs + [TextInput(id, client, None, false)])) else relay
    case InputDestroyed(id) => Activated(relay.(inputs := Without(relay.inputs, id)))
    case InputEnabled(id) =>
      var after := Activated(relay.(inputs := WithEnabled(relay.inputs, id, true)));
      after.(sent := after.sent + [Done(id)])
    case InputDisabled(id) => Activated(relay.(inputs := WithEnabled(relay.inputs, id, false)))
    case InputCommitted(id) =>
      if relay.active == Some(id) && relay.inputMethod.Some? then
        relay.(sent := relay.sent + [State(relay.inputMethod.value, id)])
      else relay
    case NewMethod(inputMethod, sameSeat) =>
      if !sameSeat then relay
      else if relay.inputMethod.Some? then relay.(sent := relay.sent + [Unavailable(inputMethod)])
      else Activated(Focused(relay.(inputMethod := Some(inputMethod))))
    case MethodCommitted =>
      if relay.active.None? then relay else relay.(sent := relay.sent + [Edit(relay.active.value)])
    case MethodDestroyed => Activated(Focused(relay.(inputMethod := None)))
    case FocusChanged(surface) => Activated(Focused(relay.(focusedSurface := surface)))
  }

  class InputMethodRelay {
    var inputMethod: Option<nat>
    var focusedSurface: Option<Surface>
    var activeTextInput: Option<nat>
    var textInputs: seq<TextInput>
    ghost var sent: seq<Sent>

    ghost function Relayed(): Relay
      reads this
    {
      Relay(inputMethod, focusedSurface, activeTextInput, textInputs, sent)
    }

    constructor ()
      ensures Relayed() == INITIAL
    {
      inputMethod, focusedSurface, activeTextInput, textInputs, sent := None, None, None, [], [];
    }

    ghost method Send(message: Sent)
      modifies this`sent
      ensures sent == old(sent) + [message]
    {
      sent := sent + [message];
    }

    method UpdateTextInputFocus()
      modifies this`textInputs, this`sent
      ensures Relayed() == Focused(old(Relayed()))
    {
      ghost var inputs := textInputs;
      NoneOrAllMoved(inputMethod, focusedSurface, inputs);
      for i := 0 to |textInputs|
        invariant |textInputs| == |inputs|
        invariant textInputs == MovedFirst(inputMethod, focusedSurface, inputs, i)
        invariant sent == old(sent) + FocusMessages(inputMethod, focusedSurface, inputs, i)
      {
        MoveOneMore(inputMethod, focusedSurface, inputs, i);
        OneMoreMoved(inputMethod, focusedSurface, inputs, old(sent), i + 1);
        MoveInput(i);
      }
    }

    /** The body of the loop above. */
    method MoveInput(i: nat)
      requires i < |textInputs|
      modifies this`textInputs, this`sent
      ensures var target := Target(inputMethod, focusedSurface, old(textInputs[i]));
              && textInputs == old(textInputs)[i := old(textInputs[i]).(focused := target)]
              && sent == old(sent) + MoveMessages(old(textInputs[i]), target)
    {
      var input, target := textInputs[i], Target(inputMethod, focusedSurface, textInputs[i]);
      SendMove(input, target);
      textInputs := textInputs[i := input.(focused := target)];
    }

    method SendMove(input: TextInput, target: Option<Surface>)
      modifies this`sent
      ensures sent == old(sent) + MoveMessages(input, target)
    {
      if input.focused == target {
        return;
      }
      if input.focused.Some? {
        Send(Leave(input.id));
      }
      if target.Some? {
        Send(Enter(input.id, target.value));
      }
    }

    method FindCandidate() returns (candidate: Option<nat>)
      ensures candidate == Candidate(Relayed())
    {
      candidate := None;
      if inputMethod.Some? {
        for i := 0 to |textInputs|
          invariant FirstReady(textInputs, 0) == FirstReady(textInputs, i)
        {
          if textInputs[i].focused.Some? && textInputs[i].enabled {
            return Some(textInputs[i].id);
          }
        }
      }
    }

    method UpdateActiveTextInput()
      modifies this`activeTextInput, this`sent
      ensures Relayed() == Activated(old(Relayed()))
    {
      var candidate := FindCandidate();
      if candidate == activeTextInput {
        return;
      }
      if inputMethod.Some? {
        if candidate.Some? {
          Send(Activate(inputMethod.value));
        } else {
          Send(Deactivate(inputMethod.value));
        }
        Send(MethodDone(inputMethod.value));
      }
      activeTextInput := candidate;
      if activeTextInput.Some? {
        SendStateToInputMethod();
      }
    }

    method SendStateToInputMethod()
      modifies this`sent
      ensures sent == old(sent) + if inputMethod.Some? && activeTextInput.Some?
                                  then [State(inputMethod.value, activeTextInput.value)] else []
    {
      if inputMethod.None? || activeTextInput.None? {
        return;
      }
      Send(State(inputMethod.value, activeTextInput.value));
    }

    method HandleNewTextInput(id: nat, client: nat, sameSeat: bool)
      modifies this
      ensures Relayed() == Step(old(Relayed()), NewInput(id, client, sameSeat))
    {
      if !sameSeat {
        return;
      }
      textInputs := textInputs + [TextInput(id, client, None, false)];
      UpdateTextInputFocus();
    }

    method HandleTextInputDestroy(id: nat)
      modifies this
      ensures Relayed() == Step(old(Relayed()), InputDestroyed(id))
    {
      var kept := Erase(textInputs, id);
      textInputs := kept;
      UpdateActiveTextInput();
    }

    /** The text input library sets the flag before it raises the event. */
    method OnTextInputEnable(id: nat)
      modifies this
      ensures Relayed() == Step(old(Relayed()), InputEnabled(id))
    {
      textInputs := WithEnabled(textInputs, id, true);
      UpdateActiveTextInput();
      Send(Done(id));
    }

    method OnTextInputDisable(id: nat)
      modifies this
      ensures Relayed() == Step(old(Relayed()), InputDisabled(id))
    {
      textInputs := WithEnabled(textInputs, id, false);
      UpdateActiveTextInput();
    }

    method OnTextInputCommit(id: nat)
      modifies this
      ensures Relayed() == Step(old(Relayed()), InputCommitted(id))
    {
      if activeTextInput == Some(id) {
        SendStateToInputMethod();
      }
    }

    method HandleNewInputMethod(created: nat, sameSeat: bool)
      modifies this
      ensures Relayed() == Step(old(Relayed()), NewMethod(created, sameSeat))
    {
      if !sameSeat {
        return;
      }
      if inputMethod.Some? {
        Send(Unavailable(created));
        return;
      }
      inputMethod := Some(created);
      UpdateTextInputFocus();
      UpdateActiveTextInput();
    }

    method HandleInputMethodCommit()
      modifies this
      ensures Relayed() == Step(old(Relayed()), MethodCommitted)
    {
      if activeTextInput.None? {
        return;
      }
      Send(Edit(activeTextInput.value));
    }

    method HandleInputMethodDestroy()
      modifies this
      ensures Relayed() == Step(old(Relayed()), MethodDestroyed)
    {
      inputMethod := None;
      UpdateTextInputFocus();
      UpdateActiveTextInput();
    }

    method HandleKeyboardFocusChange(surface: Option<Surface>)
      modifies this
      ensures Relayed() == Step(old(Relayed()), FocusChanged(surface))
    {
      focusedSurface := surface;
      UpdateTextInputFocus();
      UpdateActiveTextInput();
    }
  }

  method Erase(inputs: seq<TextInput>, id: nat) returns (kept: seq<TextInput>)
    ensures kept == Without(inputs, id)
  {
    kept := [];
    for i := 0 to |inputs|
      invariant kept == Without(inputs[..i], id)
    {
      assert inputs[..i + 1][..i] == inputs[..i];
      if inputs[i].id != id {
        kept := kept + [inputs[i]];
      }
    }
    assert inputs[..|inputs|] == inputs;
  }

  // What the other side has been told

  /** The surface the client believes a text input is on. */
  ghost function EnteredOn(sent: seq<Sent>, id: nat): Option<Surface> {
    if sent == [] then None
    else
      var last := sent[|sent| - 1];
      if last.Enter? && last.input == id then Some(last.surface)
      else if last.Leave? && last.input == id then None
      else EnteredOn(sent[..|sent| - 1], id)
  }

  /** Whether an input method believes some text input is active. */
  ghost function BelievesActive(sent: seq<Sent>, inputMethod: nat): bool {
    if sent == [] then false
    else
      var last := sent[|sent| - 1];
      if last == Activate(inputMethod) then true
      else if last == Deactivate(inputMethod) then false
      else BelievesActive(sent[..|sent| - 1], inputMethod)
  }

  /** An enter only for a text input that is on no surface, a leave only for one that is on some. */
  ghost predicate Fits(before: seq<Sent>, message: Sent) {
    && (message.Enter? ==> EnteredOn(before, message.input).None?)
    && (message.Leave? ==> EnteredOn(before, message.input).Some?)
  }

  ghost predicate Alternates(sent: seq<Sent>) {
    sent == [] || (Alternates(sent[..|sent| - 1]) && Fits(sent[..|sent| - 1], sent[|sent| - 1]))
  }

  lemma SendOne(sent: seq<Sent>, message: Sent)
    requires Alternates(sent) && Fits(sent, message)
    ensures Alternates(sent + [message])
    ensures forall id :: EnteredOn(sent + [message], id) ==
              if message.Enter? && message.input == id then Some(message.surface)
              else if message.Leave? && message.input == id then None
              else EnteredOn(sent, id)
    ensures forall m :: BelievesActive(sent + [message], m) ==
              (message == Activate(m) || (message != Deactivate(m) && BelievesActive(sent, m)))
  {
    assert (sent + [message])[..|sent|] == sent;
  }

  lemma SendOneTo(sent: seq<Sent>, message: Sent, id: nat, m: nat)
    requires Alternates(sent) && Fits(sent, message) && (message.Enter? || message.Leave?)
    ensures Alternates(sent + [message]) && BelievesActive(sent + [message], m) == BelievesActive(sent, m)
    ensures EnteredOn(sent + [message], id)
         == if message.input != id then EnteredOn(sent, id) else if message.Enter? then Some(message.surface) else None
  {
    SendOne(sent, message);
  }

  // The invariant

  ghost predicate Distinct(inputs: seq<TextInput>) {
    forall i, j :: 0 <= i < j < |inputs| ==> inputs[i].id != inputs[j].id
  }

  /** Clients believe what the relay recorded. */
  ghost predicate Told(inputs: seq<TextInput>, sent: seq<Sent>) {
    Alternates(sent) && forall i :: 0 <= i < |inputs| ==> EnteredOn(sent, inputs[i].id) == inputs[i].focused
  }

  /** Every text input is on the surface it belongs on: the focused one of its own client, while there is an input
      method. */
  ghost predicate Placed(relay: Relay) {
    forall i :: 0 <= i < |relay.inputs| ==>
      relay.inputs[i].focused == Target(relay.inputMethod, relay.focusedSurface, relay.inputs[i])
  }

  /** The active text input is the one that should be, and the input method knows whether there is one. */
  ghost predicate Chosen(relay: Relay) {
    && relay.active == Candidate(relay)
    && (relay.inputMethod.Some? ==> BelievesActive(relay.sent, relay.inputMethod.value) == relay.active.Some?)
  }

  ghost predicate Valid(relay: Relay) {
    Distinct(relay.inputs) && Told(relay.inputs, relay.sent) && Placed(relay) && Chosen(relay)
  }

  /** New objects are new, and other events concern a text input that exists. */
  ghost predicate Possible(relay: Relay, event: Event) {
    match event
    case NewInput(id, _, _) =>
      EnteredOn(relay.sent, id).None? && forall i :: 0 <= i < |relay.inputs| ==> relay.inputs[i].id != id
    case NewMethod(inputMethod, _) => !BelievesActive(relay.sent, inputMethod)
    case _ => true
  }

  lemma MoveOne(sent: seq<Sent>, input: TextInput, target: Option<Surface>, id: nat, m: nat)
    requires Alternates(sent) && EnteredOn(sent, input.id) == input.focused
    ensures var after := sent + MoveMessages(input, target);
            && Alternates(after) && BelievesActive(after, m) == BelievesActive(sent, m)
            && EnteredOn(after, id) == if id == input.id then target else EnteredOn(sent, id)
  {
    if input.focused == target {
      assert sent + [] == sent;
    } else if input.focused.None? {
      SendOneTo(sent, Enter(input.id, target.value), id, m);
      assert MoveMessages(input, target) == [Enter(input.id, target.value)];
    } else {
      LeaveFirst(sent, input, target, id, m);
    }
  }

  lemma LeaveFirst(sent: seq<Sent>, input: TextInput, target: Option<Surface>, id: nat, m: nat)
    requires Alternates(sent) && EnteredOn(sent, input.id) == input.focused != target && input.focused.Some?
    ensures var after := sent + MoveMessages(input, target);
            && Alternates(after) && BelievesActive(after, m) == BelievesActive(sent, m)
            && EnteredOn(after, id) == if id == input.id then target else EnteredOn(sent, id)
  {
    var left := sent + [Leave(input.id)];
    SendOneTo(sent, Leave(input.id), id, m);
    SendOneTo(sent, Leave(input.id), input.id, m);
    if target.Some? {
      SendOneTo(left, Enter(input.id, target.value), id, m);
      assert sent + MoveMessages(input, target) == left + [Enter(input.id, target.value)];
    } else {
      assert MoveMessages(input, target) == [Leave(input.id)];
    }
  }

  /** The first `n` text inputs were told where they belong, and nobody else anything. */
  ghost predicate ToldFirst(
    inputMethod: Option<nat>, surface: Option<Surface>, inputs: seq<TextInput>, sent: seq<Sent>, after: seq<Sent>,
    n: nat,
    id: nat)
    requires n <= |inputs|
  {
    && (forall i :: 0 <= i < n && inputs[i].id == id ==>
        EnteredOn(after, id) == Target(inputMethod, surface, inputs[i]))
    && ((forall i :: 0 <= i < n ==> inputs[i].id != id) ==> EnteredOn(after, id) == EnteredOn(sent, id))
  }

  lemma {:induction false} MoveAll(
    inputMethod: Option<nat>, surface: Option<Surface>, inputs: seq<TextInput>, sent: seq<Sent>, n: nat,
    after: seq<Sent>,
    id: nat, m: nat)
    requires Distinct(inputs) && Told(inputs, sent) && n <= |inputs|
    requires after == sent + FocusMessages(inputMethod, surface, inputs, n)
    ensures Alternates(after) && BelievesActive(after, m) == BelievesActive(sent, m)
    ensures ToldFirst(inputMethod, surface, inputs, sent, after, n, id)
    decreases n
  {
    if n == 0 {
      NoneMoved(inputMethod, surface, inputs, sent);
    } else {
      var before := sent + FocusMessages(inputMethod, surface, inputs, n - 1);
      MoveAll(inputMethod, surface, inputs, sent, n - 1, before, inputs[n - 1].id, m);
      MoveAll(inputMethod, surface, inputs, sent, n - 1, before, id, m);
      MoveLast(inputMethod, surface, inputs, sent, before, n, after, id, m);
    }
  }

  lemma NoneMoved(inputMethod: Option<nat>, surface: Option<Surface>, inputs: seq<TextInput>, sent: seq<Sent>)
    ensures sent + FocusMessages(inputMethod, surface, inputs, 0) == sent
  {
  }

  lemma MoveLast(
    inputMethod: Option<nat>, surface: Option<Surface>, inputs: seq<TextInput>, sent: seq<Sent>, before: seq<Sent>,
    n: nat, after: seq<Sent>,
    id: nat, m: nat)
    requires Distinct(inputs) && Told(inputs, sent) && 0 < n <= |inputs| && Alternates(before)
    requires ToldFirst(inputMethod, surface, inputs, sent, before, n - 1, inputs[n - 1].id)
    requires ToldFirst(inputMethod, surface, inputs, sent, before, n - 1, id)
    requires before == sent + FocusMessages(inputMethod, surface, inputs, n - 1)
    requires after == sent + FocusMessages(inputMethod, surface, inputs, n)
    ensures Alternates(after) && BelievesActive(after, m) == BelievesActive(before, m)
    ensures ToldFirst(inputMethod, surface, inputs, sent, after, n, id)
  {
    OneMoreMoved(inputMethod, surface, inputs, sent, n);
    LastIsUntouched(inputMethod, surface, inputs, sent, before, n);
    MoveNext(inputMethod, surface, inputs, sent, before, n, id, m);
  }

  lemma LastIsUntouched(inputMethod: Option<nat>, surface: Option<Surface>, inputs: seq<TextInput>, sent: seq<Sent>,
                        before: seq<Sent>, n: nat)
    requires Distinct(inputs) && Told(inputs, sent) && 0 < n <= |inputs|
    requires ToldFirst(inputMethod, surface, inputs, sent, before, n - 1, inputs[n - 1].id)
    ensures EnteredOn(before, inputs[n - 1].id) == inputs[n - 1].focused
  {
  }

  lemma OneMoreMoved(inputMethod: Option<nat>, surface: Option<Surface>, inputs: seq<TextInput>, sent: seq<Sent>,
                     n: nat)
    requires 0 < n <= |inputs|
    ensures sent + FocusMessages(inputMethod, surface, inputs, n)
         == sent + FocusMessages(inputMethod, surface, inputs, n - 1)
            + MoveMessages(inputs[n - 1], Target(inputMethod, surface, inputs[n - 1]))
  {
    Regroup(sent, FocusMessages(inputMethod, surface, inputs, n - 1),
            MoveMessages(inputs[n - 1], Target(inputMethod, surface, inputs[n - 1])));
  }

  lemma MoveNext(
    inputMethod: Option<nat>, surface: Option<Surface>, inputs: seq<TextInput>, sent: seq<Sent>, before: seq<Sent>,
    n: nat,
    id: nat, m: nat)
    requires Distinct(inputs) && 0 < n <= |inputs| && Alternates(before)
    requires EnteredOn(before, inputs[n - 1].id) == inputs[n - 1].focused
    requires ToldFirst(inputMethod, surface, inputs, sent, before, n - 1, id)
    ensures var after := before + MoveMessages(inputs[n - 1], Target(inputMethod, surface, inputs[n - 1]));
            && Alternates(after) && BelievesActive(after, m) == BelievesActive(before, m)
            && ToldFirst(inputMethod, surface, inputs, sent, after, n, id)
  {
    MoveOne(before, inputs[n - 1], Target(inputMethod, surface, inputs[n - 1]), id, m);
  }

  /** Moving focus restores everything but the choice of the active text input. */
  lemma FocusedHolds(relay: Relay, m: nat)
    requires Distinct(relay.inputs) && Told(relay.inputs, relay.sent)
    ensures var after := Focused(relay);
            && Distinct(after.inputs) && Told(after.inputs, after.sent) && Placed(after)
            && BelievesActive(after.sent, m) == BelievesActive(relay.sent, m)
  {
    var after := Focused(relay);
    MoveAll(relay.inputMethod, relay.focusedSurface, relay.inputs, relay.sent, |relay.inputs|, after.sent, 0, m);
    forall i | 0 <= i < |after.inputs| ensures EnteredOn(after.sent, after.inputs[i].id) == after.inputs[i].focused {
      MoveAll(relay.inputMethod, relay.focusedSurface, relay.inputs, relay.sent, |relay.inputs|, after.sent,
              relay.inputs[i].id, m);
    }
  }

  /** What the input method must know before the active text input is chosen anew. */
  ghost predicate KnowsActive(relay: Relay) {
    relay.inputMethod.Some? ==> BelievesActive(relay.sent, relay.inputMethod.value) == relay.active.Some?
  }

  lemma ActivatedHolds(relay: Relay)
    requires Distinct(relay.inputs) && Told(relay.inputs, relay.sent) && Placed(relay) && KnowsActive(relay)
    ensures Valid(Activated(relay))
  {
    var candidate := Candidate(relay);
    if candidate != relay.active && relay.inputMethod.Some? {
      var m := relay.inputMethod.value;
      var first := if candidate.Some? then Activate(m) else Deactivate(m);
      SendOne(relay.sent, first);
      SendOne(relay.sent + [first], MethodDone(m));
      var two := relay.sent + [first] + [MethodDone(m)];
      if candidate.Some? {
        SendOne(two, State(m, candidate.value));
      }
      assert relay.sent + ActiveMessages(relay.inputMethod, candidate)
          == if candidate.Some? then two + [State(m, candidate.value)] else two;
    } else {
      assert relay.sent + [] == relay.sent;
    }
  }

  lemma {:induction false} WithoutHolds(inputs: seq<TextInput>, id: nat)
    requires Distinct(inputs)
    ensures Distinct(Without(inputs, id))
    ensures forall x :: x in Without(inputs, id) <==> x in inputs && x.id != id
  {
    if inputs == [] {
    } else {
      var n := |inputs| - 1;
      WithoutHolds(inputs[..n], id);
      assert inputs == inputs[..n] + [inputs[n]];
    }
  }

  lemma OneMore(relay: Relay, message: Sent)
    requires Valid(relay) && !message.Enter? && !message.Leave? && !message.Activate? && !message.Deactivate?
    ensures Valid(relay.(sent := relay.sent + [message]))
  {
    SendOne(relay.sent, message);
  }

  /** Every event keeps the relay valid. */
  lemma StepKeepsValid(relay: Relay, event: Event)
    requires Valid(relay) && Possible(relay, event)
    ensures Valid(Step(relay, event))
  {
    match event
    case NewInput(id, client, sameSeat) =>
      if sameSeat {
        NewInputKeepsValid(relay, id, client);
      }
    case InputDestroyed(id) =>
      WithoutHolds(relay.inputs, id);
      ActivatedHolds(relay.(inputs := Without(relay.inputs, id)));
    case InputEnabled(id) =>
      var changed := relay.(inputs := WithEnabled(relay.inputs, id, true));
      ActivatedHolds(changed);
      OneMore(Activated(changed), Done(id));
    case InputDisabled(id) => ActivatedHolds(relay.(inputs := WithEnabled(relay.inputs, id, false)));
    case InputCommitted(id) =>
      if relay.active == Some(id) && relay.inputMethod.Some? {
        OneMore(relay, State(relay.inputMethod.value, id));
      }
    case NewMethod(m, sameSeat) =>
      if sameSeat && relay.inputMethod.Some? {
        OneMore(relay, Unavailable(m));
      } else if sameSeat {
        var changed := relay.(inputMethod := Some(m));
        FocusedHolds(changed, m);
        ActivatedHolds(Focused(changed));
      }
    case MethodCommitted =>
      if relay.active.Some? {
        OneMore(relay, Edit(relay.active.value));
      }
    case MethodDestroyed =>
      FocusedHolds(relay.(inputMethod := None), 0);
      ActivatedHolds(Focused(relay.(inputMethod := None)));
    case FocusChanged(surface) =>
      var changed := relay.(focusedSurface := surface);
      FocusedHolds(changed, if relay.inputMethod.Some? then relay.inputMethod.value else 0);
      ActivatedHolds(Focused(changed));
  }

  /** A text input starts disabled, so a new one cannot become the active one. */
  lemma NewInputKeepsValid(relay: Relay, id: nat, client: nat)
    requires Valid(relay) && Possible(relay, NewInput(id, client, true))
    ensures Valid(Step(relay, NewInput(id, client, true)))
  {
    var added := TextInput(id, client, None, false);
    var changed := relay.(inputs := relay.inputs + [added]);
    FocusedHolds(changed, if relay.inputMethod.Some? then relay.inputMethod.value else 0);
    var after := Focused(changed);
    assert forall i :: 0 <= i < |relay.inputs| ==> after.inputs[i] == relay.inputs[i];
  }

  // Every run

  ghost function Run(events: seq<Event>): Relay {
    if events == [] then INITIAL else Step(Run(events[..|events| - 1]), events[|events| - 1])
  }

  ghost predicate PossibleRun(events: seq<Event>) {
    forall i :: 0 <= i < |events| ==> Possible(Run(events[..i]), events[i])
  }

  lemma PossibleBefore(events: seq<Event>)
    requires PossibleRun(events) && events != []
    ensures PossibleRun(events[..|events| - 1])
  {
    var n := |events| - 1;
    assert forall i :: 0 <= i < n ==> events[..n][..i] == events[..i];
  }

  /** After every event: exactly the text inputs of the focused client are entered, on the focused surface, while
      there is an input method; the active one is the first of them that is enabled; enters and leaves alternate; and
      the input method believes a text input is active exactly when one is. */
  lemma {:induction false} AlwaysValid(events: seq<Event>)
    requires PossibleRun(events)
    ensures Valid(Run(events))
  {
    if events == [] {
    } else {
      var n := |events| - 1;
      PossibleBefore(events);
      AlwaysValid(events[..n]);
      StepKeepsValid(Run(events[..n]), events[n]);
    }
  }

  /** A commit of the input method only ever reaches a text input while there is an input method to commit. */
  lemma ActiveHasMethod(relay: Relay)
    requires Valid(relay) && relay.active.Some?
    ensures relay.inputMethod.Some? && relay.focusedSurface.Some?
    ensures exists i :: 0 <= i < |relay.inputs| && relay.inputs[i].id == relay.active.value
                        && relay.inputs[i].client == relay.focusedSurface.value.client
  {
    var k := FirstReady(relay.inputs, 0);
    assert relay.inputs[k].focused == Target(relay.inputMethod, relay.focusedSurface, relay.inputs[k]);
  }
}
