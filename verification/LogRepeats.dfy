/** The log's suppression of repeated messages: what is written down stands for everything that was logged. */
module LogRepeats {
  import opened Options

  datatype Level = Debug | Info | Warn | Err

  /** Sections are told apart by address. */
  datatype Message = Message(level: Level, section: Option<int>, text: string)

  datatype Record = Line(message: Message, at: int) | Repeated(level: Level, section: Option<int>, count: nat)

  datatype Log = Log(last: Message, suppressed: nat, windowStart: int, written: seq<Record>)

  datatype Call = Call(message: Message, now: int)

  /** Nanoseconds */
  const WINDOW := 1_000_000_000

  const START := Log(Message(Debug, None, ""), 0, 0, [])

  predicate Swallows(log: Log, call: Call) {
    call.message == log.last && call.now - log.windowStart < WINDOW
  }

  function Flushed(log: Log): Log {
    if log.suppressed == 0 then log
    else log.(suppressed := 0, written := log.written + [Repeated(log.last.level, log.last.section, log.suppressed)])
  }

  function Logged(log: Log, call: Call): Log {
    if Swallows(log, call) then log.(suppressed := log.suppressed + 1)
    else Log(call.message, 0, call.now, Flushed(log).written + [Line(call.message, call.now)])
  }

  class Logger {
    var last: Message
    var suppressed: nat
    var windowStart: int
    /** What reached the console and the file. */
    ghost var written: seq<Record>

    ghost function State(): Log
      reads this
    {
      Log(last, suppressed, windowStart, written)
    }

    constructor ()
      ensures State() == START
    {
      last, suppressed, windowStart, written := Message(Debug, None, ""), 0, 0, [];
    }

    ghost method Emit(record: Record)
      modifies this`written
      ensures written == old(written) + [record]
    {
      written := written + [record];
    }

    method FlushRepeats()
      modifies this`suppressed, this`written
      ensures State() == Flushed(old(State()))
    {
      if suppressed == 0 {
        return;
      }
      var count := suppressed;
      suppressed := 0;
      Emit(Repeated(last.level, last.section, count));
    }

    method LogMessage(message: Message, now: int)
      modifies this
      ensures State() == Logged(old(State()), Call(message, now))
    {
      if message.text == last.text && message.section == last.section && message.level == last.level {
        if now - windowStart < WINDOW {
          suppressed := suppressed + 1;
          return;
        }
        FlushRepeats();
        windowStart := now;
      } else {
        FlushRepeats();
        last := message;
        windowStart := now;
      }
      Emit(Line(message, now));
    }
  }

  // Reading the records back

  function Copies(m: Message, count: nat): seq<Message> {
    seq(count, i => m)
  }

  /** The messages a list of records stands for. */
  function Expanded(records: seq<Record>): seq<Message> {
    if records == [] then []
    else
      var earlier := Expanded(records[..|records| - 1]);
      match records[|records| - 1]
      case Line(m, _) => earlier + [m]
      case Repeated(_, _, count) => if earlier == [] then [] else earlier + Copies(earlier[|earlier| - 1], count)
  }

  function Run(log: Log, calls: seq<Call>): Log {
    if calls == [] then log else Logged(Run(log, calls[..|calls| - 1]), calls[|calls| - 1])
  }

  function Messages(calls: seq<Call>): (messages: seq<Message>)
    ensures |messages| == |calls| && forall i :: 0 <= i < |calls| ==> messages[i] == calls[i].message
  {
    seq(|calls|, i requires 0 <= i < |calls| => calls[i].message)
  }

  /** The pending repeats are of the last line written. */
  ghost predicate Standing(log: Log) {
    var expanded := Expanded(log.written);
    expanded != [] && expanded[|expanded| - 1] == log.last
  }

  /** The messages a state stands for: those written down, and the pending repeats. */
  function StandsFor(log: Log): seq<Message> {
    Expanded(log.written) + Copies(log.last, log.suppressed)
  }

  lemma WrittenStandsFor(records: seq<Record>, m: Message, now: int)
    ensures StandsFor(Log(m, 0, now, records + [Line(m, now)])) == Expanded(records) + [m]
    ensures Standing(Log(m, 0, now, records + [Line(m, now)]))
  {
    assert (records + [Line(m, now)])[..|records|] == records;
    assert Copies(m, 0) == [];
  }

  /** One call adds its message to what the state stands for. */
  lemma LoggedStandsFor(log: Log, call: Call)
    requires Standing(log) || (log == START && !Swallows(log, call))
    ensures Standing(Logged(log, call)) && StandsFor(Logged(log, call)) == StandsFor(log) + [call.message]
  {
    if Swallows(log, call) {
    } else {
      if Standing(log) {
      } else {
        assert StandsFor(log) == [];
      }
      WrittenStandsFor(Flushed(log).written, call.message, call.now);
    }
  }

  /** Over every run that does not begin with a swallowed message, expanding the records and appending the pending
      repeats gives back exactly what was logged. */
  lemma {:induction false} NothingIsLost(calls: seq<Call>)
    requires calls != [] ==> !Swallows(START, calls[0])
    ensures StandsFor(Run(START, calls)) == Messages(calls)
    ensures calls != [] ==> Standing(Run(START, calls))
  {
    if calls == [] {
      assert StandsFor(START) == [];
    } else {
      var n := |calls| - 1;
      var log := Run(START, calls[..n]);
      NothingIsLost(calls[..n]);
      assert calls[..n] == [] ==> log == START;
      LoggedStandsFor(log, calls[n]);
    }
  }

  // Runs that begin with a swallowed message

  lemma {:induction false} OnlySwallowed(calls: seq<Call>)
    requires forall i :: 0 <= i < |calls| ==> Swallows(START, calls[i])
    ensures Run(START, calls) == START.(suppressed := |calls|)
  {
    if calls == [] {
      assert START.(suppressed := 0) == START;
    } else {
      OnlySwallowed(calls[..|calls| - 1]);
    }
  }

  lemma SwallowedStandFor(calls: seq<Call>)
    requires forall i :: 0 <= i < |calls| ==> Swallows(START, calls[i])
    ensures StandsFor(Run(START, calls)) == Messages(calls)
  {
    OnlySwallowed(calls);
    assert Expanded([]) == [] && [] + Copies(START.last, |calls|) == Messages(calls);
  }

  /** A summary with no line before it stands for nothing. */
  lemma SummaryAlone(count: nat)
    ensures Expanded([Repeated(Debug, None, count)]) == []
  {
    assert [Repeated(Debug, None, count)][..0] == [];
  }

  /** The first message written after some swallowed ones is all that is left of them. */
  lemma WrittenAfterSwallowed(count: nat, call: Call)
    requires !Swallows(START, call)
    ensures var after := Logged(START.(suppressed := count), call);
            Standing(after) && |StandsFor(after)| == 1
  {
    var records := Flushed(START.(suppressed := count)).written;
    SummaryAlone(count);
    assert Expanded([]) == [];
    assert records == if count == 0 then [] else [Repeated(Debug, None, count)];
    WrittenStandsFor(records, call.message, call.now);
  }

  lemma OneMoreStands(log: Log, call: Call)
    requires Standing(log)
    ensures Standing(Logged(log, call)) && |StandsFor(Logged(log, call))| == |StandsFor(log)| + 1
  {
    LoggedStandsFor(log, call);
  }

  /** From then on no further message is lost, and none of the swallowed ones comes back. */
  lemma {:induction false} SwallowedStayLost(calls: seq<Call>, k: nat, n: nat)
    requires k < n <= |calls| && (forall i :: 0 <= i < k ==> Swallows(START, calls[i])) && !Swallows(START, calls[k])
    ensures Standing(Run(START, calls[..n])) && |StandsFor(Run(START, calls[..n]))| == n - k
  {
    if n == k + 1 {
      OnlySwallowed(calls[..k]);
      assert calls[..k + 1][..k] == calls[..k];
      WrittenAfterSwallowed(k, calls[k]);
    } else {
      SwallowedStayLost(calls, k, n - 1);
      OneMoreStands(Run(START, calls[..n - 1]), calls[n - 1]);
      RunSnoc(calls, n);
    }
  }

  lemma RunSnoc(calls: seq<Call>, n: nat)
    requires 0 < n <= |calls|
    ensures Run(START, calls[..n]) == Logged(Run(START, calls[..n - 1]), calls[n - 1])
  {
    assert calls[..n][..n - 1] == calls[..n - 1];
  }

  /** An empty debug message without a section, in the first second of the clock: what a log begins with looks like its
      repeat. */
  predicate LooksRepeated(call: Call) {
    call.message == Message(Debug, None, "") && call.now < 1_000_000_000
  }

  /** The records and the pending repeats stand for everything logged if and only if the first message does not look
      repeated, or nothing but such messages was ever logged. */
  lemma NothingIsLostIff(calls: seq<Call>)
    ensures StandsFor(Run(START, calls)) == Messages(calls) <==>
              || calls == [] || !LooksRepeated(calls[0])
              || forall i :: 0 <= i < |calls| ==> LooksRepeated(calls[i])
  {
    assert forall call :: Swallows(START, call) <==> LooksRepeated(call);
    if calls == [] || !Swallows(START, calls[0]) {
      NothingIsLost(calls);
    } else if forall i :: 0 <= i < |calls| ==> Swallows(START, calls[i]) {
      SwallowedStandFor(calls);
    } else {
      var k := FirstKept(calls, 0);
      SwallowedStayLost(calls, k, |calls|);
      assert calls[..|calls|] == calls;
    }
  }

  /** The first call that is not swallowed. */
  ghost function FirstKept(calls: seq<Call>, from: nat): (k: nat)
    requires from < |calls| && exists i :: from <= i < |calls| && !Swallows(START, calls[i])
    ensures from <= k < |calls| && !Swallows(START, calls[k])
    ensures forall i :: from <= i < k ==> Swallows(START, calls[i])
    decreases |calls| - from
  {
    if Swallows(START, calls[from]) then FirstKept(calls, from + 1) else from
  }

  /** A program that first logs the empty debug message, in the first second of the clock, loses it. */
  lemma EmptyFirstMessageIsLost()
    ensures var calls := [Call(START.last, 0), Call(Message(Info, None, "ready"), 0)];
            StandsFor(Run(START, calls)) == [Message(Info, None, "ready")] != Messages(calls)
  {
    var first, second := Call(START.last, 0), Call(Message(Info, None, "ready"), 0);
    var summary := Repeated(Debug, None, 1);
    assert [first, second][..1] == [first] && [first][..0] == [];
    assert Run(START, [first]) == START.(suppressed := 1);
    assert Flushed(START.(suppressed := 1)).written == [summary];
    assert [summary][..0] == [];
    WrittenStandsFor([summary], second.message, 0);
  }

  // How much is written

  /** The last line among the records. */
  function LastLine(records: seq<Record>): (r: Option<Record>)
    ensures r.Some? ==> r.value.Line?
  {
    if records == [] then None
    else if records[|records| - 1].Line? then Some(records[|records| - 1])
    else LastLine(records[..|records| - 1])
  }

  /** A summary counts at least one repeat and carries the level and section of the line it follows; a line that
      repeats the line before it comes at least a window later. */
  ghost predicate FollowsWell(records: seq<Record>, record: Record) {
    var previous := LastLine(records);
    match record
    case Line(m, at) => previous.Some? && previous.value.message == m ==> at - previous.value.at >= WINDOW
    case Repeated(level, section, count) =>
      && count > 0 && records != [] && previous == Some(records[|records| - 1])
      && previous.value.message.level == level && previous.value.message.section == section
  }

  ghost predicate WellSpaced(records: seq<Record>) {
    records == []
    || (WellSpaced(records[..|records| - 1]) && FollowsWell(records[..|records| - 1], records[|records| - 1]))
  }

  /** The state agrees with the last line, which is the last record. */
  ghost predicate Anchored(log: Log) {
    && log.written != [] && log.written[|log.written| - 1] == Line(log.last, log.windowStart)
  }

  lemma AppendSpaced(records: seq<Record>, record: Record)
    requires WellSpaced(records) && FollowsWell(records, record)
    ensures WellSpaced(records + [record])
  {
    assert (records + [record])[..|records|] == records;
  }

  lemma FlushedIsSpaced(log: Log)
    requires WellSpaced(log.written) && (Anchored(log) || log == START)
    ensures WellSpaced(Flushed(log).written)
    ensures Anchored(log) ==> LastLine(Flushed(log).written) == Some(Line(log.last, log.windowStart))
  {
    if log.suppressed > 0 {
      var summary := Repeated(log.last.level, log.last.section, log.suppressed);
      AppendSpaced(log.written, summary);
      assert (log.written + [summary])[..|log.written|] == log.written;
    }
  }

  lemma LoggedIsSpaced(log: Log, call: Call)
    requires WellSpaced(log.written) && !Swallows(log, call)
    requires Anchored(log) || log == START
    ensures WellSpaced(Logged(log, call).written) && Anchored(Logged(log, call))
  {
    FlushedIsSpaced(log);
    AppendSpaced(Flushed(log).written, Line(call.message, call.now));
  }

  /** However often a message repeats, it is written at most once a window, and every summary follows the line it counts
      repeats of. */
  lemma {:induction false} WritesAreSpaced(calls: seq<Call>)
    requires calls != [] ==> !Swallows(START, calls[0])
    ensures WellSpaced(Run(START, calls).written)
    ensures calls != [] ==> Anchored(Run(START, calls))
  {
    if calls == [] {
    } else {
      var n := |calls| - 1;
      WritesAreSpaced(calls[..n]);
      var log := Run(START, calls[..n]);
      if !Swallows(log, calls[n]) {
        LoggedIsSpaced(log, calls[n]);
      }
    }
  }

  /** Once a line was written, a message is held back if and only if it repeats that line within a second of it; any
      other is written, after a summary of what was held back, if anything was. */
  lemma HeldBackExactly(calls: seq<Call>, call: Call)
    requires calls != [] && !LooksRepeated(calls[0])
    ensures LastLine(Run(START, calls).written).Some?
    ensures var before, after := Run(START, calls), Run(START, calls + [call]);
            var line := LastLine(before.written).value;
            if call.message == line.message && call.now - line.at < 1_000_000_000 then
              after == before.(suppressed := before.suppressed + 1)
            else
              && after.suppressed == 0
              && after.written
                 == before.written
                    + (if before.suppressed == 0 then []
                       else [Repeated(line.message.level, line.message.section, before.suppressed)])
                    + [Line(call.message, call.now)]
  {
    var before := Run(START, calls);
    assert Swallows(START, calls[0]) <==> LooksRepeated(calls[0]);
    WritesAreSpaced(calls);
    assert (calls + [call])[..|calls|] == calls;
    assert before.written + [] == before.written;
  }
}
