/**
 Buffered task submission (controller/task_response_buffer.go and `RelayTask` in controller/relay.go, with the
 header that `RelayTaskSubmit` of relay/relay_task.go sets). An upstream adaptor writes its answer while the task
 is not stored yet, so status and body are held in a buffer, thrown away before every new attempt, and sent only
 after the task row is there. Headers are not held back. Encoding, routing, channel selection and the number of
 retries are parameters.
 */
module TaskRelay {
  import opened Basics

  // What happens during a request, in one log: the settlement, the insert and the refund, and at the client's
  // end of the wire a status line with its headers and stretches of the body.

  type Headers = map<string, string>

  datatype Event =
    | Settled
    | Inserted(ok: bool)
    | Refunded
    | Delivered(status: int, headers: Headers)
    | Wrote(data: Bytes)

  class Log {
    var events: seq<Event>

    constructor ()
      ensures events == []
    {
      events := [];
    }

    method Add(event: Event)
      modifies this
      ensures events == old(events) + [event]
    {
      events := events + [event];
    }
  }

  // The status and body that a writer was given, and all that a client sees.
  datatype Message = Message(status: int, body: Bytes)

  datatype Response = Response(status: int, headers: Headers, body: Bytes)

  // What the client has heard.
  function Heard(events: seq<Event>): Option<Response> {
    if |events| == 0 then None
    else
      var before := Heard(events[..|events| - 1]);
      match events[|events| - 1]
      case Delivered(status, headers) => Some(Response(status, headers, []))
      case Wrote(data) => if before.Some? then Some(before.value.(body := before.value.body + data)) else None
      case _ => before
  }

  predicate ForClient(event: Event) {
    event.Delivered? || event.Wrote?
  }

  predicate Quiet(events: seq<Event>) {
    forall i :: 0 <= i < |events| ==> !ForClient(events[i])
  }

  predicate OneDelivery(events: seq<Event>) {
    forall i, j :: 0 <= i < |events| && 0 <= j < |events| && events[i].Delivered? && events[j].Delivered? ==> i == j
  }

  predicate InsertedBefore(events: seq<Event>, i: nat)
    requires i <= |events|
  {
    exists j :: 0 <= j < i && events[j] == Inserted(true)
  }

  // Nothing reaches the client before the task is stored.
  predicate PersistedFirst(events: seq<Event>) {
    forall i :: 0 <= i < |events| && ForClient(events[i]) ==> InsertedBefore(events, i)
  }

  // The writer to the client

  const OK_STATUS := 200
  const SERVER_ERROR := 500
  const CONTENT_TYPE := "Content-Type"
  const JSON_TYPE := "application/json; charset=utf-8"
  const RATIOS := "X-New-Api-Other-Ratios"

  // Setting a header to an empty value removes it.
  function Put(headers: Headers, name: string, value: string): Headers {
    if |value| == 0 then headers - {name} else headers[name := value]
  }

  // A content type is only filled in where there is none.
  function Fill(headers: Headers, name: string, value: string): Headers {
    if name in headers then headers else headers[name := value]
  }

  // The status line goes out with the first byte.
  function Opening(written: bool, status: int, headers: Headers): seq<Event> {
    if written then [] else [Delivered(status, headers)]
  }

  // The framework's own writer: a status is only remembered until something is written, and the headers that go
  // out are those set by then.
  class ClientWriter {
    const log: Log
    var headers: Headers
    var status: int
    var written: bool

    constructor (log: Log, headers: Headers)
      ensures this.log == log && this.headers == headers && status == OK_STATUS && !written
    {
      this.log, this.headers, status, written := log, headers, OK_STATUS, false;
    }

    method SetHeader(name: string, value: string)
      modifies this`headers
      ensures headers == Put(old(headers), name, value)
    {
      if |value| == 0 {
        headers := headers - {name};
        return;
      }
      headers := headers[name := value];
    }

    method FillHeader(name: string, value: string)
      modifies this`headers
      ensures headers == Fill(old(headers), name, value)
    {
      if name !in headers {
        headers := headers[name := value];
      }
    }

    method WriteHeader(code: int)
      modifies this`status
      ensures status == if code > 0 && !written then code else old(status)
    {
      if code > 0 && status != code {
        if written {
          return;
        }
        status := code;
      }
    }

    method WriteHeaderNow()
      modifies this`written, log
      ensures written
      ensures log.events == old(log.events) + Opening(old(written), status, headers)
    {
      if !written {
        written := true;
        log.Add(Delivered(status, headers));
      }
    }

    method Write(data: Bytes)
      modifies this`written, log
      ensures written
      ensures log.events == old(log.events) + Opening(old(written), status, headers) + [Wrote(data)]
    {
      WriteHeaderNow();
      log.Add(Wrote(data));
    }
  }

  // The buffer

  // What an adaptor may do with the writer it is given.
  datatype Op =
    | Header(code: int)
    | HeaderNow
    | Body(data: Bytes)
    | SetHeader(name: string, value: string)
    | FillHeader(name: string, value: string)

  // The first status code among the operations counts.
  function FirstStatus(ops: seq<Op>): Option<int> {
    if |ops| == 0 then None
    else
      var before := FirstStatus(ops[..|ops| - 1]);
      if before.None? && ops[|ops| - 1].Header? then Some(ops[|ops| - 1].code) else before
  }

  function Written(ops: seq<Op>): Bytes {
    if |ops| == 0 then []
    else Written(ops[..|ops| - 1]) + (if ops[|ops| - 1].Body? then ops[|ops| - 1].data else [])
  }

  // The answer that a run of operations amounts to: nothing if nothing was written.
  function Answer(ops: seq<Op>): Option<Message> {
    var status := FirstStatus(ops);
    if status.None? && |Written(ops)| == 0 then None
    else Some(Message(if status.Some? && status.value > 0 then status.value else OK_STATUS, Written(ops)))
  }

  function HeadersStep(headers: Headers, op: Op): Headers {
    match op
    case SetHeader(name, value) => Put(headers, name, value)
    case FillHeader(name, value) => Fill(headers, name, value)
    case _ => headers
  }

  function HeadersAfter(headers: Headers, ops: seq<Op>): Headers {
    if |ops| == 0 then headers else HeadersStep(HeadersAfter(headers, ops[..|ops| - 1]), ops[|ops| - 1])
  }

  lemma {:induction false} HeadersAfterBoth(headers: Headers, ops: seq<Op>, more: seq<Op>)
    ensures HeadersAfter(headers, ops + more) == HeadersAfter(HeadersAfter(headers, ops), more)
    decreases |more|
  {
    if |more| == 0 {
      assert ops + more == ops;
    } else {
      var n := |more| - 1;
      HeadersAfterBoth(headers, ops, more[..n]);
      assert (ops + more)[..|ops| + n] == ops + more[..n];
    }
  }

  // An answer on the wire.
  function Sending(message: Option<Message>, headers: Headers): seq<Event> {
    if message.None? then []
    else
      [Delivered(message.value.status, headers)]
      + (if |message.value.body| > 0 then [Wrote(message.value.body)] else [])
  }

  class TaskResponseBuffer {
    const client: ClientWriter
    var body: Bytes
    var statusCode: int
    var headerWrote: bool
    var flushed: bool

    constructor (client: ClientWriter)
      ensures this.client == client && Holds([]) && !flushed
    {
      this.client := client;
      body, statusCode, headerWrote, flushed := [], 0, false, false;
    }

    // The buffer holds what these operations wrote.
    ghost predicate Holds(ops: seq<Op>)
      reads this
    {
      && body == Written(ops)
      && headerWrote == FirstStatus(ops).Some?
      && statusCode == if headerWrote then FirstStatus(ops).value else 0
    }

    method WriteHeader(code: int)
      modifies this, client`status
      ensures flushed == old(flushed) && body == old(body)
      ensures !flushed ==>
        unchanged(client) && headerWrote && statusCode == if old(headerWrote) then old(statusCode) else code
      ensures flushed ==> headerWrote == old(headerWrote) && statusCode == old(statusCode)
      ensures flushed ==> client.status == if code > 0 && !client.written then code else old(client.status)
    {
      if flushed {
        client.WriteHeader(code);
        return;
      }
      if !headerWrote {
        headerWrote := true;
        statusCode := code;
      }
    }

    method WriteHeaderNow()
      modifies client`written, client.log
      ensures !flushed ==> unchanged(client) && unchanged(client.log)
      ensures flushed ==> client.written
      ensures var opening := Opening(old(client.written), client.status, client.headers);
        flushed ==> client.log.events == old(client.log.events) + opening
    {
      if flushed {
        client.WriteHeaderNow();
      }
    }

    method Write(data: Bytes)
      modifies this, client`written, client.log
      ensures flushed == old(flushed) && headerWrote == old(headerWrote) && statusCode == old(statusCode)
      ensures !flushed ==> unchanged(client) && unchanged(client.log) && body == old(body) + data
      ensures flushed ==> body == old(body) && client.written
      ensures var opening := Opening(old(client.written), client.status, client.headers);
        flushed ==> client.log.events == old(client.log.events) + opening + [Wrote(data)]
    {
      if flushed {
        client.Write(data);
        return;
      }
      body := body + data;
    }

    // One operation of an adaptor before the flush: headers pass through to the client's writer at once, and the
    // rest stays here.
    method Do(op: Op, ghost ops: seq<Op>)
      requires !flushed && Holds(ops)
      modifies this, client, client.log
      ensures !flushed && Holds(ops + [op]) && unchanged(client.log) && unchanged(client`status)
      ensures unchanged(client`written)
      ensures client.headers == HeadersStep(old(client.headers), op)
    {
      assert (ops + [op])[..|ops|] == ops;
      match op {
        case Header(code) => WriteHeader(code);
        case HeaderNow => WriteHeaderNow();
        case Body(data) => Write(data);
        case SetHeader(name, value) => client.SetHeader(name, value);
        case FillHeader(name, value) => client.FillHeader(name, value);
      }
    }

    method DoAll(ops: seq<Op>)
      requires !flushed && Holds([])
      modifies this, client, client.log
      ensures !flushed && Holds(ops) && unchanged(client.log) && unchanged(client`status) && unchanged(client`written)
      ensures client.headers == HeadersAfter(old(client.headers), ops)
    {
      for i := 0 to |ops|
        invariant !flushed && Holds(ops[..i]) && unchanged(client.log) && unchanged(client`status)
        invariant unchanged(client`written)
        invariant client.headers == HeadersAfter(old(client.headers), ops[..i])
      {
        Do(ops[i], ops[..i]);
        assert ops[..i] + [ops[i]] == ops[..i + 1];
        assert ops[..i + 1][..i] == ops[..i];
      }
      assert ops[..|ops|] == ops;
    }

    // Forgets status and body, not the headers, which are with the client's writer.
    method Reset()
      modifies this
      ensures flushed == old(flushed)
      ensures !flushed ==> Holds([])
      ensures flushed ==> unchanged(this)
    {
      if flushed {
        return;
      }
      headerWrote, statusCode, body := false, 0, [];
    }

    // Sends the answer once, with the headers there are by now; a second flush sends nothing.
    method FlushToClient(ghost ops: seq<Op>)
      requires flushed || (Holds(ops) && !client.written && client.status == OK_STATUS)
      modifies this, client`status, client`written, client.log
      ensures flushed
      ensures old(flushed) ==> unchanged(this) && unchanged(client) && unchanged(client.log)
      ensures !old(flushed) ==> client.log.events == old(client.log.events) + Sending(Answer(ops), client.headers)
    {
      if flushed {
        return;
      }
      flushed := true;
      if !headerWrote && |body| == 0 {
        return;
      }
      var status := if statusCode == 0 then OK_STATUS else statusCode;
      client.WriteHeader(status);
      if |body| > 0 {
        client.Write(body);
      } else {
        client.WriteHeaderNow();
      }
    }
  }

  // Submitting a task

  // An error with its answer already encoded.
  datatype TaskError = TaskError(status: int, body: Bytes)

  // One turn of the retry loop: it ends before the upstream is asked, or the upstream is asked and writes.
  datatype Turn = Refused(error: TaskError) | Tried(ops: seq<Op>, failure: Option<TaskError>, retry: bool)

  predicate BodyAllowed(status: int) {
    !(100 <= status <= 199) && status != 204 && status != 304
  }

  // c.JSON as operations on the writer.
  function Json(status: int, body: Bytes): seq<Op> {
    [Header(status), FillHeader(CONTENT_TYPE, JSON_TYPE), if BodyAllowed(status) then Body(body) else HeaderNow]
  }

  // The first operations of a submission that got as far as the upstream's response.
  function Submission(ratios: string, response: seq<Op>): seq<Op> {
    [SetHeader(RATIOS, ratios)] + response
  }

  lemma JsonIs(status: int, body: Bytes)
    ensures Answer(Json(status, body)) ==
      Some(Message(if status > 0 then status else OK_STATUS, if BodyAllowed(status) then body else []))
  {
    var ops := Json(status, body);
    assert ops[..1] == [Header(status)] && ops[..1][..0] == [];
    assert FirstStatus(ops[..1]) == Some(status) && Written(ops[..1]) == [];
    assert ops[..2][..1] == ops[..1];
    assert FirstStatus(ops[..2]) == Some(status) && Written(ops[..2]) == [];
    assert FirstStatus(ops) == Some(status);
    assert Written(ops) == if BodyAllowed(status) then body else [];
  }

  predicate Ends(turn: Turn) {
    turn.Refused? || turn.failure.None? || !turn.retry
  }

  // The turn that decides: the first that ends the loop, or the last there is.
  function Deciding(turns: seq<Turn>, i: nat): (k: nat)
    requires i < |turns|
    ensures i <= k < |turns| && (Ends(turns[k]) || k == |turns| - 1)
    ensures forall j :: i <= j < k ==> !Ends(turns[j])
    decreases |turns| - i
  {
    if Ends(turns[i]) || i == |turns| - 1 then i else Deciding(turns, i + 1)
  }

  function Decider(turns: seq<Turn>): Turn
    requires |turns| > 0
  {
    turns[Deciding(turns, 0)]
  }

  predicate Succeeds(turn: Turn) {
    turn.Tried? && turn.failure.None?
  }

  function ErrorOf(turn: Turn): TaskError
    requires !Succeeds(turn)
  {
    if turn.Refused? then turn.error else turn.failure.value
  }

  // The operations that make the answer, from the deciding turn alone: its own when its task was stored.
  function Answering(turn: Turn, persists: bool, persistError: Bytes): seq<Op> {
    if !Succeeds(turn) then Json(ErrorOf(turn).status, ErrorOf(turn).body)
    else if !persists then Json(SERVER_ERROR, persistError)
    else turn.ops
  }

  function OpsOf(turn: Turn): seq<Op> {
    if turn.Tried? then turn.ops else []
  }

  // The operations of the first n turns.
  function AllOps(turns: seq<Turn>, n: nat): seq<Op>
    requires n <= |turns|
  {
    if n == 0 then [] else AllOps(turns, n - 1) + OpsOf(turns[n - 1])
  }

  // The headers after the first n turns.
  function HeadersBy(headers: Headers, turns: seq<Turn>, n: nat): Headers
    requires n <= |turns|
  {
    if n == 0 then headers else HeadersAfter(HeadersBy(headers, turns, n - 1), OpsOf(turns[n - 1]))
  }

  lemma {:induction false} HeadersByAll(headers: Headers, turns: seq<Turn>, n: nat)
    requires n <= |turns|
    ensures HeadersBy(headers, turns, n) == HeadersAfter(headers, AllOps(turns, n))
  {
    if n > 0 {
      HeadersByAll(headers, turns, n - 1);
      HeadersAfterBoth(headers, AllOps(turns, n - 1), OpsOf(turns[n - 1]));
    }
  }

  // The operations that are no part of the answer.
  function Discarded(turns: seq<Turn>, persists: bool): seq<Op>
    requires |turns| > 0
  {
    var k := Deciding(turns, 0);
    if Succeeds(turns[k]) && persists then AllOps(turns, k) else AllOps(turns, k + 1)
  }

  function Respond(message: Option<Message>, headers: Headers): Option<Response> {
    if message.None? then None else Some(Response(message.value.status, headers, message.value.body))
  }

  // The response to a run of turns: status and body are those of the answer, the headers are everyone's.
  function Reply(turns: seq<Turn>, headers: Headers, persists: bool, persistError: Bytes): Option<Response>
    requires |turns| > 0
  {
    var answer := Answering(Decider(turns), persists, persistError);
    Respond(Answer(answer), HeadersAfter(HeadersAfter(headers, Discarded(turns, persists)), answer))
  }

  // The response as if nothing but the answer had been written.
  function CleanReply(turns: seq<Turn>, headers: Headers, persists: bool, persistError: Bytes): Option<Response>
    requires |turns| > 0
  {
    var answer := Answering(Decider(turns), persists, persistError);
    Respond(Answer(answer), HeadersAfter(headers, answer))
  }

  // One attempt, after what an earlier one left in the buffer is thrown away.
  method Attempt(buffer: TaskResponseBuffer, turn: Turn) returns (taskErr: Option<TaskError>)
    requires turn.Tried? && !buffer.flushed
    modifies buffer, buffer.client, buffer.client.log
    ensures taskErr == turn.failure && !buffer.flushed && buffer.Holds(turn.ops) && Untouched(buffer.client)
    ensures buffer.client.headers == HeadersAfter(old(buffer.client.headers), turn.ops)
  {
    buffer.Reset();
    buffer.DoAll(turn.ops);
    return turn.failure;
  }

  // The turns before k were tried, failed and are to be retried.
  predicate AllRetried(turns: seq<Turn>, k: nat) {
    k <= |turns| && forall j :: 0 <= j < k ==> turns[j].Tried? && turns[j].failure.Some? && turns[j].retry
  }

  // The retry loop: it ends with turn k, the first that is refused, succeeds or is not to be retried, or the last.
  method RunTurns(buffer: TaskResponseBuffer, turns: seq<Turn>)
    returns (taskErr: Option<TaskError>, ghost ops: seq<Op>, ghost k: nat)
    requires |turns| > 0 && !buffer.flushed && buffer.Holds([])
    modifies buffer, buffer.client, buffer.client.log
    ensures !buffer.flushed && buffer.Holds(ops) && Untouched(buffer.client)
    ensures k < |turns| && AllRetried(turns, k)
    ensures turns[k].Refused? || turns[k].failure.None? || !turns[k].retry || k == |turns| - 1
    ensures buffer.client.headers == HeadersBy(old(buffer.client.headers), turns, k + 1)
    ensures if turns[k].Refused? then taskErr == Some(turns[k].error)
            else taskErr == turns[k].failure && ops == turns[k].ops
  {
    taskErr, ops, k := None, [], 0;
    ghost var headers := buffer.client.headers;
    for i := 0 to |turns|
      invariant !buffer.flushed && buffer.Holds(ops) && Untouched(buffer.client)
      invariant buffer.client.headers == HeadersBy(headers, turns, i) && AllRetried(turns, i)
      invariant i > 0 ==> k == i - 1 && taskErr == turns[k].failure && ops == turns[k].ops
    {
      var turn := turns[i];
      k := i;
      if turn.Refused? {
        taskErr := Some(turn.error);
        return;
      }
      taskErr := Attempt(buffer, turn);
      ops := turn.ops;
      if taskErr.None? || !turn.retry {
        return;
      }
    }
  }

  predicate Undecided(turns: seq<Turn>, n: nat)
    requires n <= |turns|
  {
    forall j :: 0 <= j < n ==> !Ends(turns[j])
  }

  lemma DecidedAt(turns: seq<Turn>, k: nat)
    requires k < |turns| && Undecided(turns, k) && (Ends(turns[k]) || k == |turns| - 1)
    ensures Deciding(turns, 0) == k
  {
  }

  // Nothing went out and no status is pending.
  twostate predicate Untouched(client: ClientWriter)
    reads client, client.log
  {
    unchanged(client.log) && unchanged(client`status) && unchanged(client`written)
  }

  method RespondBuffered(buffer: TaskResponseBuffer, status: int, body: Bytes)
    requires !buffer.flushed
    modifies buffer, buffer.client, buffer.client.log
    ensures !buffer.flushed && buffer.Holds(Json(status, body)) && Untouched(buffer.client)
    ensures buffer.client.headers == HeadersAfter(old(buffer.client.headers), Json(status, body))
  {
    buffer.Reset();
    buffer.DoAll(Json(status, body));
  }

  // How often an event is in a log.
  function Times(events: seq<Event>, e: Event): nat {
    if |events| == 0 then 0
    else Times(events[..|events| - 1], e) + (if events[|events| - 1] == e then 1 else 0)
  }

  // An accepted task is settled and inserted once, and nothing else is; money is refunded once or not at all.
  predicate Counted(events: seq<Event>, accepted: bool, persists: bool, refunds: bool) {
    && Times(events, Settled) == Times(events, Inserted(persists)) == (if accepted then 1 else 0)
    && Times(events, Inserted(!persists)) == 0
    && Times(events, Refunded) == (if refunds then 1 else 0)
  }

  function Bookkeeping(accepted: bool, persists: bool): seq<Event> {
    if accepted then [Settled, Inserted(persists)] else []
  }

  function Refunding(refunds: bool): seq<Event> {
    if refunds then [Refunded] else []
  }

  // Logs with one answer in them

  predicate OneAnswer(events: seq<Event>, before: seq<Event>, message: Option<Message>, headers: Headers,
                      after: seq<Event>) {
    events == before + Sending(message, headers) + after && Quiet(before) && Quiet(after)
  }

  lemma Counts(events: seq<Event>, accepted: bool, persists: bool, message: Option<Message>, headers: Headers,
               refunds: bool)
    requires OneAnswer(events, Bookkeeping(accepted, persists), message, headers, Refunding(refunds))
    ensures Counted(events, accepted, persists, refunds)
  {
    CountsOf(events, accepted, persists, message, headers, refunds, Settled);
    CountsOf(events, accepted, persists, message, headers, refunds, Inserted(persists));
    CountsOf(events, accepted, persists, message, headers, refunds, Inserted(!persists));
    CountsOf(events, accepted, persists, message, headers, refunds, Refunded);
  }

  lemma CountsOf(events: seq<Event>, accepted: bool, persists: bool, message: Option<Message>, headers: Headers,
                 refunds: bool, e: Event)
    requires !ForClient(e) && OneAnswer(events, Bookkeeping(accepted, persists), message, headers, Refunding(refunds))
    ensures Times(events, e) ==
      (if accepted && (e == Settled || e == Inserted(persists)) then 1 else 0)
      + (if refunds && e == Refunded then 1 else 0)
  {
    var before, sending, after := Bookkeeping(accepted, persists), Sending(message, headers), Refunding(refunds);
    TimesBoth(before, sending, e);
    TimesBoth(before + sending, after, e);
    assert accepted ==> before[..1] == [Settled] && Times(before[..1], e) == if e == Settled then 1 else 0;
    NotForClient(message, headers, e);
  }

  lemma NotForClient(message: Option<Message>, headers: Headers, e: Event)
    requires !ForClient(e)
    ensures Times(Sending(message, headers), e) == 0
  {
    var sending := Sending(message, headers);
    if |sending| == 2 {
      assert Times(sending[..1], e) == 0;
    }
  }

  lemma {:induction false} TimesBoth(events: seq<Event>, more: seq<Event>, e: Event)
    ensures Times(events + more, e) == Times(events, e) + Times(more, e)
    decreases |more|
  {
    if |more| == 0 {
      assert events + more == events;
    } else {
      var n := |more| - 1;
      TimesBoth(events, more[..n], e);
      assert (events + more)[..|events| + n] == events + more[..n];
    }
  }

  lemma Hears(events: seq<Event>, before: seq<Event>, message: Option<Message>, headers: Headers, after: seq<Event>)
    requires OneAnswer(events, before, message, headers, after)
    ensures Heard(events) == Respond(message, headers)
  {
    assert [] + before == before;
    HeardQuiet([], before);
    HeardSending(before, message, headers);
    HeardQuiet(before + Sending(message, headers), after);
  }

  lemma DeliversOnce(events: seq<Event>, before: seq<Event>, message: Option<Message>, headers: Headers,
                     after: seq<Event>)
    requires OneAnswer(events, before, message, headers, after)
    ensures OneDelivery(events)
  {
    assert forall i :: 0 <= i < |events| && events[i].Delivered? ==> i == |before|;
  }

  lemma InsertsFirst(events: seq<Event>, before: seq<Event>, message: Option<Message>, headers: Headers,
                     after: seq<Event>, j: nat)
    requires OneAnswer(events, before, message, headers, after) && j < |before| && before[j] == Inserted(true)
    ensures PersistedFirst(events)
  {
    assert events[j] == Inserted(true);
    assert forall i :: 0 <= i < |events| && ForClient(events[i]) ==> |before| <= i;
    assert forall i :: |before| <= i < |events| ==> InsertedBefore(events, i);
  }

  lemma {:induction false} HeardQuiet(events: seq<Event>, quiet: seq<Event>)
    requires Quiet(quiet)
    ensures Heard(events + quiet) == Heard(events)
  {
    if |quiet| == 0 {
      assert events + quiet == events;
    } else {
      var n := |quiet| - 1;
      HeardQuiet(events, quiet[..n]);
      assert (events + quiet)[..|events| + n] == events + quiet[..n];
      assert !ForClient(quiet[n]);
    }
  }

  lemma HeardSending(events: seq<Event>, message: Option<Message>, headers: Headers)
    requires Heard(events).None?
    ensures Heard(events + Sending(message, headers)) == Respond(message, headers)
  {
    if message.None? {
      assert events + Sending(message, headers) == events;
    } else {
      var first := Delivered(message.value.status, headers);
      assert (events + [first])[..|events|] == events;
      assert Heard(events + [first]) == Some(Response(message.value.status, headers, []));
      if |message.value.body| > 0 {
        var all := events + Sending(message, headers);
        assert all[..|events| + 1] == events + [first];
        assert all[|events| + 1] == Wrote(message.value.body) && [] + message.value.body == message.value.body;
      } else {
        assert Sending(message, headers) == [first];
      }
    }
  }

  // After the loop: a task that was accepted is settled and stored, and an error takes the place of the answer.
  method Conclude(buffer: TaskResponseBuffer, ghost turns: seq<Turn>, taskErr: Option<TaskError>, ghost own: seq<Op>,
                  persists: bool, persistError: Bytes)
    returns (ghost ops: seq<Op>)
    requires |turns| > 0 && !buffer.flushed && buffer.Holds(own) && buffer.client.log.events == []
    requires var turn := Decider(turns);
      if Succeeds(turn) then taskErr.None? && own == turn.ops else taskErr == Some(ErrorOf(turn))
    modifies buffer, buffer.client, buffer.client.log
    ensures !buffer.flushed && buffer.Holds(ops) && unchanged(buffer.client`status) && unchanged(buffer.client`written)
    ensures ops == Answering(Decider(turns), persists, persistError)
    ensures buffer.client.headers ==
      HeadersAfter(old(buffer.client.headers), if Succeeds(Decider(turns)) && persists then [] else ops)
    ensures buffer.client.log.events == Bookkeeping(Succeeds(Decider(turns)), persists)
  {
    ops := own;
    if taskErr.None? {
      buffer.client.log.Add(Settled);
      buffer.client.log.Add(Inserted(persists));
      if !persists {
        RespondBuffered(buffer, SERVER_ERROR, persistError);
        ops := Json(SERVER_ERROR, persistError);
      }
    }
    if taskErr.Some? {
      RespondBuffered(buffer, taskErr.value.status, taskErr.value.body);
      ops := Json(taskErr.value.status, taskErr.value.body);
    }
  }

  lemma RunSays(turns: seq<Turn>, headers: Headers, persists: bool, persistError: Bytes, last: Headers, refunds: bool,
                events: seq<Event>)
    requires |turns| > 0
    requires var turn := Decider(turns); var answer := Answering(turn, persists, persistError);
      && last == HeadersAfter(HeadersBy(headers, turns, Deciding(turns, 0) + 1),
                              if Succeeds(turn) && persists then [] else answer)
      && OneAnswer(events, Bookkeeping(Succeeds(turn), persists), Answer(answer), last, Refunding(refunds))
    ensures Heard(events) == Reply(turns, headers, persists, persistError) && OneDelivery(events)
    ensures Succeeds(Decider(turns)) && persists ==> PersistedFirst(events)
    ensures Counted(events, Succeeds(Decider(turns)), persists, refunds)
  {
    var turn := Decider(turns);
    var before, after := Bookkeeping(Succeeds(turn), persists), Refunding(refunds);
    var message := Answer(Answering(turn, persists, persistError));
    HeadersByAll(headers, turns, Deciding(turns, 0));
    HeadersByAll(headers, turns, Deciding(turns, 0) + 1);
    Hears(events, before, message, last, after);
    DeliversOnce(events, before, message, last, after);
    Counts(events, Succeeds(turn), persists, message, last, refunds);
    if Succeeds(turn) && persists {
      InsertsFirst(events, before, message, last, after, 1);
    }
  }

  // Which turn the handler answers for, and how

  // The retry loop ends with turn k exactly when every turn before it was tried, failed and is to be retried, and
  // turn k itself is refused, succeeds, is not to be retried or is the last.
  lemma EndsAt(turns: seq<Turn>, k: nat)
    requires k < |turns|
    ensures k == Deciding(turns, 0) <==>
      && AllRetried(turns, k)
      && (turns[k].Refused? || turns[k].failure.None? || !turns[k].retry || k == |turns| - 1)
  {
    if forall j :: 0 <= j < k ==> !Ends(turns[j]) {
      if Ends(turns[k]) || k == |turns| - 1 {
        DecidedAt(turns, k);
      }
    }
  }

  // The client heard an error as JSON, with the status given if that is one.
  predicate ErrorHeard(events: seq<Event>, status: int, body: Bytes) {
    && Heard(events).Some?
    && Heard(events).value.status == (if status > 0 then status else 200)
    && Heard(events).value.body == if 100 <= status <= 199 || status == 204 || status == 304 then [] else body
  }

  // The client heard what these operations wrote: the first status, 200 if there is none, and all the bytes in
  // order; nothing if there was neither.
  predicate OwnHeard(events: seq<Event>, ops: seq<Op>) {
    if (forall i :: 0 <= i < |ops| ==> !ops[i].Header?) && |Written(ops)| == 0 then Heard(events).None?
    else
      && Heard(events).Some? && Heard(events).value.body == Written(ops)
      && ((forall i :: 0 <= i < |ops| ==> !ops[i].Header?) ==> Heard(events).value.status == 200)
      && (forall i :: 0 <= i < |ops| && ops[i].Header? && (forall j :: 0 <= j < i ==> !ops[j].Header?) ==>
            Heard(events).value.status == if ops[i].code > 0 then ops[i].code else 200)
  }

  // The first status there is.
  lemma {:induction false} FirstStatusIs(ops: seq<Op>)
    ensures FirstStatus(ops).None? <==> forall i :: 0 <= i < |ops| ==> !ops[i].Header?
    ensures forall i :: 0 <= i < |ops| && ops[i].Header? && (forall j :: 0 <= j < i ==> !ops[j].Header?) ==>
      FirstStatus(ops) == Some(ops[i].code)
  {
    if |ops| > 0 {
      var n := |ops| - 1;
      FirstStatusIs(ops[..n]);
      assert forall i :: 0 <= i < n ==> ops[..n][i] == ops[i];
    }
  }

  // The bytes written are those of the writes, one after the other.

  lemma WrittenNext(ops: seq<Op>, op: Op)
    ensures Written(ops + [op]) == Written(ops) + if op.Body? then op.data else []
  {
    assert (ops + [op])[..|ops|] == ops;
  }

  lemma {:induction false} WrittenBoth(ops: seq<Op>, more: seq<Op>)
    ensures Written(ops + more) == Written(ops) + Written(more)
    decreases |more|
  {
    if |more| == 0 {
      assert ops + more == ops;
    } else {
      var front, last := more[..|more| - 1], more[|more| - 1];
      WrittenBoth(ops, front);
      WrittenNext(ops + front, last);
      WrittenNext(front, last);
      assert more == front + [last] && ops + more == ops + front + [last];
      Regroup(Written(ops), Written(front), if last.Body? then last.data else []);
    }
  }

  lemma Regroup(a: Bytes, b: Bytes, c: Bytes)
    ensures a + b + c == a + (b + c)
  {
  }

  // The log of a run and what the client heard, for the turn the loop ends with: a refused or failed turn is
  // answered with its error, never settled or inserted, and refunded if there is something to refund and the upstream
  // has certainly not taken the task; a successful one is settled and inserted, and answered with what it wrote
  // itself if the insert succeeded and with a server error if not.
  predicate AnsweredFor(turn: Turn, events: seq<Event>, billing: bool, uncertain: bool, persists: bool,
                        persistError: Bytes) {
    if turn.Refused? || turn.failure.Some? then
      var error := if turn.Refused? then turn.error else turn.failure.value;
      && ErrorHeard(events, error.status, error.body)
      && Times(events, Settled) == Times(events, Inserted(true)) == Times(events, Inserted(false)) == 0
      && Times(events, Refunded) == if billing && !uncertain then 1 else 0
    else
      && Times(events, Settled) == Times(events, Inserted(persists)) == 1
      && Times(events, Inserted(!persists)) == Times(events, Refunded) == 0
      && if persists then OwnHeard(events, turn.ops) else ErrorHeard(events, 500, persistError)
  }

  lemma AnswersFor(turns: seq<Turn>, headers: Headers, billing: bool, uncertain: bool, persists: bool,
                   persistError: Bytes, events: seq<Event>)
    requires |turns| > 0 && Heard(events) == Reply(turns, headers, persists, persistError)
    requires var accepted := Succeeds(Decider(turns));
      Counted(events, accepted, persists, !accepted && billing && !uncertain)
    ensures AnsweredFor(Decider(turns), events, billing, uncertain, persists, persistError)
  {
    var turn := Decider(turns);
    if !Succeeds(turn) {
      JsonIs(ErrorOf(turn).status, ErrorOf(turn).body);
    } else if !persists {
      JsonIs(SERVER_ERROR, persistError);
    } else {
      FirstStatusIs(turn.ops);
    }
  }

  // The handler, with its deferred calls in the order they run: the flush first, the refund after it.
  method RelayTask(client: ClientWriter, turns: seq<Turn>, billing: bool, uncertain: bool, persists: bool,
                   persistError: Bytes)
    requires |turns| > 0 && client.log.events == [] && !client.written && client.status == OK_STATUS
    modifies client, client.log
    ensures forall k ::
      && 0 <= k < |turns| && AllRetried(turns, k)
      && (turns[k].Refused? || turns[k].failure.None? || !turns[k].retry || k == |turns| - 1) ==>
        AnsweredFor(turns[k], client.log.events, billing, uncertain, persists, persistError)
    ensures Heard(client.log.events) == Reply(turns, old(client.headers), persists, persistError)
    ensures OneDelivery(client.log.events)
    ensures Succeeds(Decider(turns)) && persists ==> PersistedFirst(client.log.events)
    ensures var accepted := Succeeds(Decider(turns));
      Counted(client.log.events, accepted, persists, !accepted && billing && !uncertain)
  {
    ghost var headers := client.headers;
    var buffer := new TaskResponseBuffer(client);
    var taskErr, ops, k := RunTurns(buffer, turns);
    EndsAt(turns, k);
    ops := Conclude(buffer, turns, taskErr, ops, persists, persistError);
    buffer.FlushToClient(ops);
    var refunds := taskErr.Some? && billing && !uncertain;
    if refunds {
      client.log.Add(Refunded);
    }
    RunSays(turns, headers, persists, persistError, client.headers, refunds, client.log.events);
    AnswersFor(turns, headers, billing, uncertain, persists, persistError, client.log.events);
    forall i | 0 <= i < |turns| {
      EndsAt(turns, i);
    }
  }

  // What the headers show of operations that are no part of the answer

  function Value(headers: Headers, name: string): Option<string> {
    if name in headers then Some(headers[name]) else None
  }

  function ValueStep(value: Option<string>, op: Op, name: string): Option<string> {
    if op.SetHeader? && op.name == name then (if |op.value| == 0 then None else Some(op.value))
    else if op.FillHeader? && op.name == name && value.None? then Some(op.value)
    else value
  }

  function ValueAfter(value: Option<string>, ops: seq<Op>, name: string): Option<string> {
    if |ops| == 0 then value else ValueStep(ValueAfter(value, ops[..|ops| - 1], name), ops[|ops| - 1], name)
  }

  lemma {:induction false} ValueOf(headers: Headers, ops: seq<Op>, name: string)
    ensures Value(HeadersAfter(headers, ops), name) == ValueAfter(Value(headers, name), ops, name)
    decreases |ops|
  {
    if |ops| > 0 {
      ValueOf(headers, ops[..|ops| - 1], name);
    }
  }

  // The operations set the header themselves.
  predicate Sets(ops: seq<Op>, name: string) {
    exists i :: 0 <= i < |ops| && ops[i].SetHeader? && ops[i].name == name
  }

  // What they fill it with where there is none.
  function Filling(ops: seq<Op>, name: string): Option<string> {
    if |ops| == 0 then None
    else
      var before := Filling(ops[..|ops| - 1], name);
      var op := ops[|ops| - 1];
      if before.None? && op.FillHeader? && op.name == name then Some(op.value) else before
  }

  function OrElse(value: Option<string>, other: Option<string>): Option<string> {
    if value.Some? then value else other
  }

  // After operations that do not set it, a header has the value it had, or what they fill it with.
  lemma {:induction false} FilledValue(value: Option<string>, ops: seq<Op>, name: string)
    requires !Sets(ops, name)
    ensures ValueAfter(value, ops, name) == OrElse(value, Filling(ops, name))
    decreases |ops|
  {
    if |ops| > 0 {
      var n := |ops| - 1;
      assert !(ops[n].SetHeader? && ops[n].name == name);
      assert forall i :: 0 <= i < n ==> ops[..n][i] == ops[i];
      FilledValue(value, ops[..n], name);
    }
  }

  // After operations that set it, a header has a value that does not depend on the one before.
  lemma {:induction false} SetValue(value: Option<string>, other: Option<string>, ops: seq<Op>, name: string)
    requires Sets(ops, name)
    ensures ValueAfter(value, ops, name) == ValueAfter(other, ops, name)
    decreases |ops|
  {
    var n := |ops| - 1;
    if !(ops[n].SetHeader? && ops[n].name == name) {
      var i :| 0 <= i < |ops| && ops[i].SetHeader? && ops[i].name == name;
      assert ops[..n][i] == ops[i];
      SetValue(value, other, ops[..n], name);
    }
  }

  // The answer has the same header from either start.
  predicate AgreeAt(value: Option<string>, other: Option<string>, answer: seq<Op>, name: string) {
    Sets(answer, name) || OrElse(value, Filling(answer, name)) == OrElse(other, Filling(answer, name))
  }

  ghost predicate AgreeOn(headers: Headers, others: Headers, answer: seq<Op>) {
    forall name: string :: AgreeAt(Value(headers, name), Value(others, name), answer, name)
  }

  lemma AgreesAt(headers: Headers, others: Headers, answer: seq<Op>, name: string)
    ensures Value(HeadersAfter(headers, answer), name) == Value(HeadersAfter(others, answer), name) <==>
      AgreeAt(Value(headers, name), Value(others, name), answer, name)
  {
    ValueOf(headers, answer, name);
    ValueOf(others, answer, name);
    if Sets(answer, name) {
      SetValue(Value(headers, name), Value(others, name), answer, name);
    } else {
      FilledValue(Value(headers, name), answer, name);
      FilledValue(Value(others, name), answer, name);
    }
  }

  lemma SameValues(headers: Headers, others: Headers)
    requires forall name: string :: Value(headers, name) == Value(others, name)
    ensures headers == others
  {
    forall name: string
      ensures name in headers <==> name in others
      ensures name in headers && name in others ==> headers[name] == others[name]
    {
      assert Value(headers, name) == Value(others, name);
    }
  }

  lemma AgreeExactlyWhen(headers: Headers, others: Headers, answer: seq<Op>)
    ensures HeadersAfter(headers, answer) == HeadersAfter(others, answer) <==> AgreeOn(headers, others, answer)
  {
    forall name: string
      ensures Value(HeadersAfter(headers, answer), name) == Value(HeadersAfter(others, answer), name) <==>
        AgreeAt(Value(headers, name), Value(others, name), answer, name)
    {
      AgreesAt(headers, others, answer, name);
    }
    if AgreeOn(headers, others, answer) {
      SameValues(HeadersAfter(headers, answer), HeadersAfter(others, answer));
    }
  }

  // Any two runs with the same deciding turn answer with the same status and body, and with the same headers
  // exactly when, name by name, the answer sets the header itself or both runs left it alike.
  lemma SameDecider(turns: seq<Turn>, others: seq<Turn>, headers: Headers, persists: bool, persistError: Bytes)
    requires |turns| > 0 && |others| > 0 && Decider(turns) == Decider(others)
    ensures var one := Reply(turns, headers, persists, persistError);
      var two := Reply(others, headers, persists, persistError);
      && one.Some? == two.Some?
      && (one.Some? ==> one.value.status == two.value.status && one.value.body == two.value.body)
      && (one.Some? ==>
          (one == two <==>
           AgreeOn(HeadersAfter(headers, Discarded(turns, persists)),
                   HeadersAfter(headers, Discarded(others, persists)),
                   Answering(Decider(turns), persists, persistError))))
  {
    AgreeExactlyWhen(HeadersAfter(headers, Discarded(turns, persists)),
                     HeadersAfter(headers, Discarded(others, persists)),
                     Answering(Decider(turns), persists, persistError));
  }

  // The client gets the deciding answer alone, headers included, exactly when every header is set by the answer
  // itself or was left by the discarded operations as they found it.
  lemma CleanExactlyWhen(turns: seq<Turn>, headers: Headers, persists: bool, persistError: Bytes)
    requires |turns| > 0
    ensures var answer := Answering(Decider(turns), persists, persistError);
      Answer(answer).Some? ==>
        (Reply(turns, headers, persists, persistError) == CleanReply(turns, headers, persists, persistError) <==>
         forall name: string ::
           AgreeAt(ValueAfter(Value(headers, name), Discarded(turns, persists), name), Value(headers, name), answer,
                   name))
  {
    var answer, discarded := Answering(Decider(turns), persists, persistError), Discarded(turns, persists);
    AgreeExactlyWhen(HeadersAfter(headers, discarded), headers, answer);
    forall name: string
      ensures Value(HeadersAfter(headers, discarded), name) == ValueAfter(Value(headers, name), discarded, name)
    {
      ValueOf(headers, discarded, name);
    }
  }

  // A stored submission shows its own ratios, whatever was tried before it.
  lemma RatiosAreOwn(turns: seq<Turn>, headers: Headers, persistError: Bytes, ratios: string, response: seq<Op>)
    requires |turns| > 0 && Succeeds(Decider(turns)) && Decider(turns).ops == Submission(ratios, response)
    requires |ratios| > 0 && !Sets(response, RATIOS)
    ensures var reply := Reply(turns, headers, true, persistError);
      reply.Some? ==> Value(reply.value.headers, RATIOS) == Some(ratios)
  {
    SubmittedRatios(HeadersAfter(headers, Discarded(turns, true)), ratios, response);
  }

  lemma SubmittedRatios(headers: Headers, ratios: string, response: seq<Op>)
    requires |ratios| > 0 && !Sets(response, RATIOS)
    ensures Value(HeadersAfter(headers, Submission(ratios, response)), RATIOS) == Some(ratios)
  {
    var first := [SetHeader(RATIOS, ratios)];
    HeadersAfterBoth(headers, first, response);
    assert first[..0] == [];
    assert Value(HeadersAfter(headers, first), RATIOS) == Some(ratios);
    ValueOf(HeadersAfter(headers, first), response, RATIOS);
    FilledValue(Some(ratios), response, RATIOS);
  }

  // When the submission failed after the upstream's response, or its task could not be stored, the error goes out
  // with the ratios of the attempt that was thrown away.
  lemma ErrorKeepsRatios(turns: seq<Turn>, headers: Headers, persists: bool, persistError: Bytes, ratios: string,
                         response: seq<Op>)
    requires |turns| > 0 && Decider(turns).Tried? && !(Succeeds(Decider(turns)) && persists)
    requires Decider(turns).ops == Submission(ratios, response) && |ratios| > 0 && !Sets(response, RATIOS)
    requires RATIOS !in headers
    ensures var reply := Reply(turns, headers, persists, persistError);
      var clean := CleanReply(turns, headers, persists, persistError);
      && reply.Some? && clean.Some?
      && (Succeeds(Decider(turns)) ==> reply.value.status == SERVER_ERROR)
      && Value(reply.value.headers, RATIOS) == Some(ratios)
      && Value(clean.value.headers, RATIOS) == None
  {
    var k := Deciding(turns, 0);
    var error := if Succeeds(turns[k]) then TaskError(SERVER_ERROR, persistError) else ErrorOf(turns[k]);
    JsonIs(error.status, error.body);
    HeadersAfterBoth(headers, AllOps(turns, k), turns[k].ops);
    SubmittedRatios(HeadersAfter(headers, AllOps(turns, k)), ratios, response);
    JsonLeavesRatios(HeadersAfter(headers, Discarded(turns, persists)), error.status, error.body);
    JsonLeavesRatios(headers, error.status, error.body);
  }

  lemma JsonLeavesRatios(headers: Headers, status: int, body: Bytes)
    ensures Value(HeadersAfter(headers, Json(status, body)), RATIOS) == Value(headers, RATIOS)
  {
    var ops := Json(status, body);
    assert ops[..2][..1] == ops[..1] && ops[..1][..0] == [];
    assert CONTENT_TYPE[0] != RATIOS[0];
    assert HeadersAfter(headers, ops[..1]) == headers;
    assert HeadersAfter(headers, ops[..2]) == Fill(headers, CONTENT_TYPE, JSON_TYPE);
  }
}
