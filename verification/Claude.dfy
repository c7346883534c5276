/** The Claude session: reading events, relaying them for one message, and handing them to a handler. */
module Claude {
  import opened Wrappers

  datatype Kind = System | Assistant | ResultEvent | OtherKind(name: string)

  datatype Subtype = Init | Success | Error | OtherSubtype(name: string)

  /** One line of the process's output. `body` is an assistant's message. */
  datatype Event = Event(kind: Kind, subtype: Subtype, sessionID: string, body: string, result: string, error: string)

  predicate IsResult(e: Event) {
    e.kind == ResultEvent
  }

  predicate IsErrorResult(e: Event) {
    IsResult(e) && e.subtype == Error
  }

  // ----- the reader -----

  type Decoder = string -> Option<Event>

  predicate Readable(decode: Decoder, line: string) {
    line != "" && decode(line).Some?
  }

  /** The events of some lines: empty and malformed lines are skipped, the rest keep their order. */
  function Decoded(decode: Decoder, lines: seq<string>, n: nat): (r: seq<Event>)
    requires n <= |lines|
    ensures |r| <= n
  {
    if n == 0 then []
    else
      Decoded(decode, lines, n - 1)
      + if Readable(decode, lines[n - 1]) then [decode(lines[n - 1]).value] else []
  }

  /** The k-th readable line yields the event at the place given by the readable lines before it. */
  lemma {:induction false} DecodedInOrder(decode: Decoder, lines: seq<string>, k: nat, n: nat)
    requires k < n <= |lines| && Readable(decode, lines[k])
    ensures |Decoded(decode, lines, k)| < |Decoded(decode, lines, n)|
    ensures Decoded(decode, lines, n)[|Decoded(decode, lines, k)|] == decode(lines[k]).value
    ensures Decoded(decode, lines, k) <= Decoded(decode, lines, n)
    decreases n
  {
    if k < n - 1 { DecodedInOrder(decode, lines, k, n - 1); }
  }

  lemma {:induction false} DecodedGrows(decode: Decoder, lines: seq<string>, k: nat, n: nat)
    requires k <= n <= |lines|
    ensures Decoded(decode, lines, k) <= Decoded(decode, lines, n)
    decreases n
  {
    if k < n { DecodedGrows(decode, lines, k, n - 1); }
  }

  /** An empty line, or one that is no event, yields nothing. */
  lemma OthersAreSkipped(decode: Decoder, lines: seq<string>, k: nat)
    requires k < |lines| && (lines[k] == "" || decode(lines[k]) == None)
    ensures Decoded(decode, lines, k + 1) == Decoded(decode, lines, k)
  {}

  /** Conversely every event comes from a readable line, so there are as many as readable lines. */
  lemma {:induction false} DecodedOnlyReadable(decode: Decoder, lines: seq<string>, n: nat, i: nat)
      returns (k: nat)
    requires n <= |lines| && i < |Decoded(decode, lines, n)|
    ensures k < n && Readable(decode, lines[k]) && |Decoded(decode, lines, k)| == i
    ensures Decoded(decode, lines, n)[i] == decode(lines[k]).value
    decreases n
  {
    if i < |Decoded(decode, lines, n - 1)| {
      k := DecodedOnlyReadable(decode, lines, n - 1, i);
    } else {
      k := n - 1;
    }
  }

  /**
   The reader's scan loop. The context is seen cancelled at the line `cancelled` or while sending
   the event of line `unsent`, if the scan gets that far; `lines` is all the scanner yields.
   */
  method ReadEvents(decode: Decoder, lines: seq<string>, cancelled: nat, unsent: nat)
      returns (sent: seq<Event>, ghost scanned: nat)
    ensures scanned <= |lines| && sent == Decoded(decode, lines, scanned)
    ensures sent <= Decoded(decode, lines, |lines|)
    ensures scanned <= cancelled && (unsent < scanned ==> !Readable(decode, lines[unsent]))
    ensures scanned < |lines| ==> scanned == cancelled || (scanned == unsent && Readable(decode, lines[scanned]))
  {
    sent, scanned := [], 0;
    var i := 0;
    while i < |lines|
      invariant i == scanned <= |lines| && sent == Decoded(decode, lines, scanned)
      invariant i <= cancelled && (unsent < i ==> !Readable(decode, lines[unsent]))
    {
      if i == cancelled { break; }
      var line := lines[i];
      if line != "" {
        var event := decode(line);
        if event.Some? {
          if i == unsent { break; }
          sent := sent + [event.value];
        }
      }
      i, scanned := i + 1, scanned + 1;
    }
    DecodedGrows(decode, lines, scanned, |lines|);
  }

  // ----- the relay of one message -----

  const WATCHDOG: Event := Event(ResultEvent, Error, "", "", "", "watchdog timeout: no response from claude")

  /** Which case the relay's select takes: the next event or the end of the stream, the watchdog, or the context. */
  datatype Move = Receive(delivered: bool) | Timeout | Cancel

  /** What one message's relay may put on its channel, given the stream it reads. */
  ghost predicate Relayed(stream: seq<Event>, out: seq<Event>, timedOut: bool) {
    && (timedOut ==> out != [] && out[|out| - 1] == WATCHDOG)
    && (if timedOut then out[..|out| - 1] else out) <= stream
    && forall i :: 0 <= i < |out| - 1 ==> !IsResult(out[i])
  }

  /** The session id after receiving some events: each init event sets it. */
  function Tracked(id: string, events: seq<Event>, n: nat): string
    requires n <= |events|
  {
    if n == 0 then id
    else if events[n - 1].kind == System && events[n - 1].subtype == Init then events[n - 1].sessionID
    else Tracked(id, events, n - 1)
  }

  /** What the relay has put out, how many events it took, and whether it is still running. */
  datatype Relay = Relay(out: seq<Event>, taken: nat, timedOut: bool, open: bool)

  /** The relay from move `k` on, after taking and delivering `pos` events. */
  function RelayFrom(stream: seq<Event>, moves: seq<Move>, k: nat, pos: nat): Relay
    requires k <= |moves| && pos <= |stream|
    decreases |moves| - k
  {
    if k == |moves| then Relay(stream[..pos], pos, false, true)
    else match moves[k]
      case Receive(delivered) =>
        if pos == |stream| then Relay(stream, pos, false, false)
        else if !delivered then Relay(stream[..pos], pos + 1, false, false)
        else if IsResult(stream[pos]) then Relay(stream[..pos + 1], pos + 1, false, false)
        else RelayFrom(stream, moves, k + 1, pos + 1)
      case Timeout => Relay(stream[..pos] + [WATCHDOG], pos, true, false)
      case Cancel => Relay(stream[..pos], pos, false, false)
  }

  /** Undisturbed, the relay delivers the stream up to its first result, or all of it if it has none, and ends. */
  lemma {:induction false} Undisturbed(stream: seq<Event>, moves: seq<Move>, k: nat, first: nat)
    requires k <= first <= |stream| && first < |moves|
    requires forall i :: 0 <= i <= first ==> moves[i] == Receive(true)
    requires forall i :: 0 <= i < first ==> !IsResult(stream[i])
    requires first < |stream| ==> IsResult(stream[first])
    ensures RelayFrom(stream, moves, k, k)
         == if first < |stream| then Relay(stream[..first + 1], first + 1, false, false)
            else Relay(stream, first, false, false)
    decreases first - k
  {
    if k < first { Undisturbed(stream, moves, k + 1, first); }
  }

  /** A disturbance after `n` delivered events: the watchdog adds its error, a cancellation nothing; the relay ends. */
  lemma {:induction false} Disturbed(stream: seq<Event>, moves: seq<Move>, k: nat, n: nat)
    requires k <= n <= |stream| && n < |moves| && moves[n] != Receive(true)
    requires forall i :: 0 <= i < n ==> moves[i] == Receive(true) && !IsResult(stream[i])
    ensures RelayFrom(stream, moves, k, k)
         == match moves[n]
            case Timeout => Relay(stream[..n] + [WATCHDOG], n, true, false)
            case Cancel => Relay(stream[..n], n, false, false)
            case Receive(_) => Relay(stream[..n], if n < |stream| then n + 1 else n, false, false)
    decreases n - k
  {
    if k < n { Disturbed(stream, moves, k + 1, n); }
    assert stream[..|stream|] == stream;
  }

  /** The watchdog's event is an error result, so a message that times out ends in an error. */
  lemma WatchdogIsError()
    ensures IsErrorResult(WATCHDOG) && WATCHDOG.error == "watchdog timeout: no response from claude"
  {}

  /** No result among the first `pos` events. */
  predicate NoResultYet(stream: seq<Event>, pos: nat) {
    pos <= |stream| && forall i :: 0 <= i < pos ==> !IsResult(stream[i])
  }

  /** What is true of a relay however it was disturbed, and while it runs. */
  ghost predicate WellRelayed(stream: seq<Event>, r: Relay) {
    && Relayed(stream, r.out, r.timedOut)
    && r.taken <= |stream| && |r.out| - (if r.timedOut then 1 else 0) <= r.taken <= |r.out| + 1
    && (r.open ==> forall e :: e in r.out ==> !IsResult(e))
  }

  lemma PrefixIsRelayed(stream: seq<Event>, pos: nat, taken: nat, open: bool)
    requires NoResultYet(stream, pos) && pos <= taken <= pos + 1 && taken <= |stream|
    ensures WellRelayed(stream, Relay(stream[..pos], taken, false, open))
  {}

  lemma TimeoutIsRelayed(stream: seq<Event>, pos: nat)
    requires NoResultYet(stream, pos)
    ensures WellRelayed(stream, Relay(stream[..pos] + [WATCHDOG], pos, true, false))
  {
    assert (stream[..pos] + [WATCHDOG])[..pos] == stream[..pos];
  }

  lemma ResultIsRelayed(stream: seq<Event>, pos: nat)
    requires NoResultYet(stream, pos) && pos < |stream|
    ensures WellRelayed(stream, Relay(stream[..pos + 1], pos + 1, false, false))
  {}

  /** Disturbed or not, what comes out is a prefix with at most the watchdog's error after it, a result only last. */
  lemma {:induction false} RelayIsRelayed(stream: seq<Event>, moves: seq<Move>, k: nat, pos: nat)
    requires k <= |moves| && NoResultYet(stream, pos)
    ensures WellRelayed(stream, RelayFrom(stream, moves, k, pos))
    decreases |moves| - k
  {
    if k == |moves| {
      PrefixIsRelayed(stream, pos, pos, true);
    } else if moves[k].Timeout? {
      TimeoutIsRelayed(stream, pos);
    } else if moves[k].Cancel? || pos == |stream| {
      PrefixIsRelayed(stream, pos, pos, false);
      assert pos == |stream| ==> stream[..pos] == stream;
    } else if !moves[k].delivered {
      PrefixIsRelayed(stream, pos, pos + 1, false);
    } else if IsResult(stream[pos]) {
      ResultIsRelayed(stream, pos);
    } else {
      RelayIsRelayed(stream, moves, k + 1, pos + 1);
    }
  }

  /** The session id a relay leaves: a delivered result's, if it names one, or else the last init event's. */
  function RelayedID(id: string, stream: seq<Event>, r: Relay): string
    requires r.taken <= |stream|
  {
    var ended := r.out != [] && !r.timedOut && r.taken == |r.out| && IsResult(r.out[|r.out| - 1]);
    if ended && r.out[|r.out| - 1].sessionID != "" then r.out[|r.out| - 1].sessionID else Tracked(id, stream, r.taken)
  }

  predicate IsInit(e: Event) {
    e.kind == System && e.subtype == Init
  }

  /** The last init event among the first `n` names the session; without one the id stays. */
  lemma {:induction false} TrackedIs(id: string, events: seq<Event>, n: nat, k: nat)
    requires n <= |events|
    ensures (forall i :: 0 <= i < n ==> !IsInit(events[i])) ==> Tracked(id, events, n) == id
    ensures k < n && IsInit(events[k]) && (forall i :: k < i < n ==> !IsInit(events[i])) ==>
              Tracked(id, events, n) == events[k].sessionID
  {
    if n > 0 { TrackedIs(id, events, n - 1, k); }
  }

  /** A delivered result that names a session decides; otherwise the init events that were taken do. */
  lemma RelayedIDIs(id: string, stream: seq<Event>, moves: seq<Move>)
    ensures var r := RelayFrom(stream, moves, 0, 0);
            && r.taken <= |stream|
            && (r.out != [] && !r.timedOut && IsResult(r.out[|r.out| - 1]) && r.out[|r.out| - 1].sessionID != "" ==>
                  RelayedID(id, stream, r) == r.out[|r.out| - 1].sessionID)
            && ((forall e :: e in r.out ==> !IsResult(e) || e.sessionID == "" || r.timedOut) ==>
                  RelayedID(id, stream, r) == Tracked(id, stream, r.taken))
  {
    RelayIsRelayed(stream, moves, 0, 0);
    ResultIsTaken(stream, moves, 0, 0);
  }

  /** A relay that delivers a result takes nothing after it. */
  lemma {:induction false} ResultIsTaken(stream: seq<Event>, moves: seq<Move>, k: nat, pos: nat)
    requires k <= |moves| && pos <= |stream| && forall i :: 0 <= i < pos ==> !IsResult(stream[i])
    ensures var r := RelayFrom(stream, moves, k, pos);
            r.out != [] && !r.timedOut && IsResult(r.out[|r.out| - 1]) ==> r.taken == |r.out|
    decreases |moves| - k
  {
    if k < |moves| && moves[k].Receive? && moves[k].delivered && pos < |stream| && !IsResult(stream[pos]) {
      ResultIsTaken(stream, moves, k + 1, pos + 1);
    }
  }

  datatype SendFailure = NotStarted | WriteFailed

  class Session {
    var running: bool
    var sessionID: string

    constructor ()
      ensures !running && sessionID == ""
    {
      running, sessionID := false, "";
    }

    /** `launches` is whether a process can be launched. */
    method Start(launches: bool) returns (ok: bool)
      modifies this`running
      ensures ok == (old(running) || launches) && running == ok
    {
      if running { return true; }
      running := launches;
      ok := launches;
    }

    method Close()
      modifies this`running
      ensures !running
    {
      running := false;
    }

    /** A restart keeps the session id, which the new process resumes. */
    method Restart(launches: bool) returns (ok: bool)
      modifies this`running
      ensures running == ok == launches
    {
      Close();
      ok := Start(launches);
    }

    /**
     One message: `stream` is what the reader delivers, `moves` the cases the relay's select takes.
     A relay that is `open` is still running after these moves.
     */
    method Send(writable: bool, stream: seq<Event>, moves: seq<Move>)
        returns (r: Result<seq<Event>, SendFailure>, open: bool, ghost timedOut: bool)
      modifies this`sessionID
      ensures r.Err? <==> !running || !writable
      ensures r == Err(NotStarted) <==> !running
      ensures r.Err? ==> sessionID == old(sessionID) && !open
      ensures var relay := RelayFrom(stream, moves, 0, 0);
              r.Ok? ==> && r.value == relay.out && open == relay.open && timedOut == relay.timedOut
                        && relay.taken <= |stream| && sessionID == RelayedID(old(sessionID), stream, relay)
      ensures r.Ok? ==> Relayed(stream, r.value, timedOut)
      ensures r.Ok? && timedOut ==> r.value != [] && IsErrorResult(r.value[|r.value| - 1])
    {
      timedOut, open := false, false;
      if !running { return Err(NotStarted), false, false; }
      if !writable { return Err(WriteFailed), false, false; }
      RelayIsRelayed(stream, moves, 0, 0);
      WatchdogIsError();
      var out;
      out, open, timedOut := Forward(stream, moves);
      r := Ok(out);
    }

    /** The relay of one message. */
    method Forward(stream: seq<Event>, moves: seq<Move>)
        returns (out: seq<Event>, open: bool, ghost timedOut: bool)
      modifies this`sessionID
      ensures var relay := RelayFrom(stream, moves, 0, 0);
              && out == relay.out && open == relay.open && timedOut == relay.timedOut
              && relay.taken <= |stream| && sessionID == RelayedID(old(sessionID), stream, relay)
    {
      RelayIsRelayed(stream, moves, 0, 0);
      out, open, timedOut := [], false, false;
      var pos := 0;
      for i := 0 to |moves|
        invariant NoResultYet(stream, pos) && out == stream[..pos] && !open && !timedOut
        invariant RelayFrom(stream, moves, i, pos) == RelayFrom(stream, moves, 0, 0)
        invariant sessionID == Tracked(old(sessionID), stream, pos)
      {
        match moves[i] {
          case Receive(delivered) =>
            if pos == |stream| { return; }
            var event := stream[pos];
            if event.kind == System && event.subtype == Init { sessionID := event.sessionID; }
            if !delivered { return; }
            out, pos := out + [event], pos + 1;
            if IsResult(event) {
              if event.sessionID != "" { sessionID := event.sessionID; }
              return;
            }
          case Timeout =>
            out, timedOut := out + [WATCHDOG], true;
            return;
          case Cancel =>
            return;
        }
      }
      open := true;
    }
  }

  // ----- the handler's view of one request -----

  datatype Failure = SendFailed(why: SendFailure) | Reported(error: string)

  datatype Call = OnEvent(event: Event) | OnComplete(result: string, err: Option<Failure>)

  function EventsOf(calls: seq<Call>): (r: seq<Event>)
    requires forall i :: 0 <= i < |calls| ==> calls[i].OnEvent?
    ensures |r| == |calls| && forall i :: 0 <= i < |calls| ==> r[i] == calls[i].event
  {
    seq(|calls|, i requires 0 <= i < |calls| => calls[i].event)
  }

  /** Events, then exactly one completion. */
  predicate Complete(calls: seq<Call>) {
    && calls != [] && calls[|calls| - 1].OnComplete?
    && forall i :: 0 <= i < |calls| - 1 ==> calls[i].OnEvent?
  }

  /** The handler's calls for one request, given what sending it gave. */
  function CallsFor(sent: Result<seq<Event>, SendFailure>): seq<Call> {
    match sent
    case Err(why) => [OnComplete("", Some(SendFailed(why)))]
    case Ok(events) =>
      EventCalls(events) + [OnComplete(LastResult(events, |events|), LastError(events, |events|))]
  }

  function EventCalls(events: seq<Event>): (calls: seq<Call>)
    ensures |calls| == |events| && forall i :: 0 <= i < |calls| ==> calls[i] == OnEvent(events[i])
  {
    seq(|events|, i requires 0 <= i < |events| => OnEvent(events[i]))
  }

  /** The agent's handling of one request: every event of the channel, then the completion. */
  method ProcessRequest(sent: Result<seq<Event>, SendFailure>) returns (calls: seq<Call>)
    ensures calls == CallsFor(sent) && Complete(calls)
    ensures EventsOf(calls[..|calls| - 1]) == if sent.Ok? then sent.value else []
  {
    if sent.Err? { return [OnComplete("", Some(SendFailed(sent.error)))]; }
    calls := [];
    var result, err := "", None;
    for i := 0 to |sent.value|
      invariant |calls| == i && forall k :: 0 <= k < i ==> calls[k] == OnEvent(sent.value[k])
      invariant result == LastResult(sent.value, i) && err == LastError(sent.value, i)
    {
      var event := sent.value[i];
      calls := calls + [OnEvent(event)];
      if event.kind == ResultEvent {
        if event.subtype == Error { err := Some(Reported(event.error)); } else { result := event.result; }
      }
    }
    calls := calls + [OnComplete(result, err)];
  }

  /** What sending may give: a failure, or events of which only the last can be a result. */
  predicate Sendable(sent: Result<seq<Event>, SendFailure>) {
    sent.Ok? ==> forall i :: 0 <= i < |sent.value| - 1 ==> !IsResult(sent.value[i])
  }

  /** What the completion says when sending gave this: the failure, or what the last event reports. */
  function Completion(sent: Result<seq<Event>, SendFailure>): Call {
    match sent
    case Err(why) => OnComplete("", Some(SendFailed(why)))
    case Ok(events) =>
      if events == [] || !IsResult(events[|events| - 1]) then OnComplete("", None)
      else if IsErrorResult(events[|events| - 1]) then OnComplete("", Some(Reported(events[|events| - 1].error)))
      else OnComplete(events[|events| - 1].result, None)
  }

  predicate EndsInError(sent: Result<seq<Event>, SendFailure>) {
    sent.Err? || (sent.value != [] && IsErrorResult(sent.value[|sent.value| - 1]))
  }

  /**
   The calls for one request: its events, then one completion, with an error exactly when the
   sending ended in one, and with what the last event says.
   */
  predicate WellHandled(sent: Result<seq<Event>, SendFailure>, calls: seq<Call>) {
    && Complete(calls)
    && EventsOf(calls[..|calls| - 1]) == (if sent.Ok? then sent.value else [])
    && (calls[|calls| - 1].err.Some? <==> EndsInError(sent))
    && calls[|calls| - 1] == Completion(sent)
  }

  lemma CallsAreWell(sent: Result<seq<Event>, SendFailure>)
    requires Sendable(sent)
    ensures WellHandled(sent, CallsFor(sent))
  {
    var events := if sent.Ok? then sent.value else [];
    CompletionIsRight(sent);
    CallsInOrder(events, Completion(sent));
    assert sent.Err? ==> CallsFor(sent) == EventCalls([]) + [Completion(sent)];
  }

  lemma CallsInOrder(events: seq<Event>, done: Call)
    requires done.OnComplete?
    ensures var calls := EventCalls(events) + [done];
            && Complete(calls) && calls[|calls| - 1] == done && EventsOf(calls[..|calls| - 1]) == events
  {
    var calls := EventCalls(events) + [done];
    assert calls[..|calls| - 1] == EventCalls(events);
  }

  lemma CompletionIsRight(sent: Result<seq<Event>, SendFailure>)
    requires Sendable(sent)
    ensures Completion(sent).OnComplete? && (Completion(sent).err.Some? <==> EndsInError(sent))
    ensures sent.Ok? ==>
              Completion(sent) == OnComplete(LastResult(sent.value, |sent.value|), LastError(sent.value, |sent.value|))
  {
    if sent.Ok? { CompletionIsTheLastEvent(sent.value); }
  }

  function LastResult(events: seq<Event>, n: nat): string
    requires n <= |events|
  {
    if n == 0 then ""
    else if IsResult(events[n - 1]) && !IsErrorResult(events[n - 1]) then events[n - 1].result
    else LastResult(events, n - 1)
  }

  function LastError(events: seq<Event>, n: nat): Option<Failure>
    requires n <= |events|
  {
    if n == 0 then None
    else if IsErrorResult(events[n - 1]) then Some(Reported(events[n - 1].error))
    else LastError(events, n - 1)
  }

  lemma {:induction false} NoResultsNoAnswer(events: seq<Event>, n: nat)
    requires n <= |events| && forall i :: 0 <= i < n ==> !IsResult(events[i])
    ensures LastResult(events, n) == "" && LastError(events, n) == None
  {
    if n > 0 { NoResultsNoAnswer(events, n - 1); }
  }

  /** What the completion says of a channel whose only result can be its last event: that event decides. */
  lemma CompletionIsTheLastEvent(out: seq<Event>)
    requires forall i :: 0 <= i < |out| - 1 ==> !IsResult(out[i])
    ensures LastError(out, |out|)
         == if out != [] && IsErrorResult(out[|out| - 1]) then Some(Reported(out[|out| - 1].error)) else None
    ensures LastResult(out, |out|)
         == if out != [] && IsResult(out[|out| - 1]) && !IsErrorResult(out[|out| - 1]) then out[|out| - 1].result
            else ""
  {
    if out != [] { NoResultsNoAnswer(out, |out| - 1); }
  }

  /**
   One message to the session: of the events read from its output (`stream`), what is sent on is a
   prefix (and at most one watchdog error after it) with at most one result, which comes last, and
   the session id is what this leaves. `moves` runs until the relay stops; if it ends earlier, the
   relay is taken to stop there.
   */
  method Exchange(session: Session, writable: bool, decode: Decoder, lines: seq<string>,
                  cancelled: nat, unsent: nat, moves: seq<Move>)
      returns (sent: Result<seq<Event>, SendFailure>, ghost timedOut: bool, ghost stream: seq<Event>)
    modifies session`sessionID
    ensures sent.Ok? && timedOut ==> EndsInError(sent)
    ensures stream <= Decoded(decode, lines, |lines|)
    ensures sent.Err? <==> !session.running || !writable
    ensures sent.Err? ==> session.sessionID == old(session.sessionID)
    ensures var relay := RelayFrom(stream, moves, 0, 0);
            sent.Ok? ==> && sent.value == relay.out && relay.taken <= |stream|
                         && session.sessionID == RelayedID(old(session.sessionID), stream, relay)
    ensures sent.Ok? ==> Relayed(Decoded(decode, lines, |lines|), sent.value, timedOut)
    ensures sent.Ok? && cancelled >= |lines| && unsent >= |lines| ==>
              sent.value == RelayFrom(Decoded(decode, lines, |lines|), moves, 0, 0).out
  {
    var events, _ := ReadEvents(decode, lines, cancelled, unsent);
    stream := events;
    var open;
    sent, open, timedOut := session.Send(writable, events, moves);
    if sent.Ok? { RelayedFromPrefix(stream, Decoded(decode, lines, |lines|), sent.value, timedOut); }
  }

  /**
   One request from end to end: the handler sees exactly the events sent on, then one completion,
   which carries an error exactly when sending failed or the last event is an error result.
   */
  method HandleMessage(session: Session, writable: bool, decode: Decoder, lines: seq<string>,
                       cancelled: nat, unsent: nat, moves: seq<Move>)
      returns (calls: seq<Call>, ghost sent: Result<seq<Event>, SendFailure>, ghost timedOut: bool)
    modifies session`sessionID
    ensures calls == CallsFor(sent) && Sendable(sent) && WellHandled(sent, calls)
    ensures sent.Err? <==> !session.running || !writable
    ensures sent.Ok? ==> Relayed(Decoded(decode, lines, |lines|), sent.value, timedOut)
    ensures sent.Ok? && cancelled >= |lines| && unsent >= |lines| ==>
              sent.value == RelayFrom(Decoded(decode, lines, |lines|), moves, 0, 0).out
    ensures sent.Ok? && timedOut ==> calls[|calls| - 1].err.Some?
  {
    var r;
    ghost var stream;
    r, timedOut, stream := Exchange(session, writable, decode, lines, cancelled, unsent, moves);
    sent := r;
    CallsAreWell(r);
    calls := ProcessRequest(r);
  }

  lemma RelayedFromPrefix(stream: seq<Event>, whole: seq<Event>, out: seq<Event>, timedOut: bool)
    requires Relayed(stream, out, timedOut) && stream <= whole
    ensures Relayed(whole, out, timedOut)
  {}
}
