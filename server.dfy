/**
 * The request bookkeeping of the test HTTP server: an ordered list of
 * handlers fixed at construction, a count of the requests handled so far,
 * and an append-only list of the failures captured while handling them.
 *
 * Accepting connections is asynchronous in the server; here each completed
 * accept wait is one call of `HttpServer.Dispatch`, in the order they run.
 * `Step` and `Run` give the same behaviour as values, so that properties of
 * whole sequences of requests can be stated as lemmas.
 */
module Server {
  import opened Wrappers
  import opened Exchange

  /** How a wait for the next connection completed, seen by the handler:
      faulted only with `ObjectDisposedException`s, or with a request. For an
      accepted request, `listening` is whether the listener is still
      listening when handling starts, and `copyFails` whether copying a
      scripted payload to the output stream throws. */
  datatype Accept =
    | DisposedFault
    | Accepted(request: Request, listening: bool, copyFails: bool)

  /** What handling one accept did. `Crashed` is the index out of range that
      an empty handler list raises outside the try block: nothing is
      recorded, and the exception escapes the handler. */
  datatype Outcome =
    | Ignored
    | Crashed
    | Abandoned
    | Answered(reply: Reply)

  /** The server's observable state: the request count and the failures. */
  datatype ServerState = ServerState(requestCount: nat, errors: seq<Fault>)

  /** The state right after construction. */
  const Initial := ServerState(0, [])

  /** The argument error a null handler array raises. */
  datatype ConstructionError = ArgumentNull(paramName: string)

  /** The handler for the request that arrives after `count` others: the one
      at that position, or the last one once the list is used up. */
  function Select(handlers: seq<RequestHandler>, count: nat): (h: RequestHandler)
    requires |handlers| > 0
    ensures h in handlers
    ensures count < |handlers| ==> h == handlers[count]
    ensures count >= |handlers| - 1 ==> h == handlers[|handlers| - 1]
  {
    if count >= |handlers| then handlers[|handlers| - 1] else handlers[count]
  }

  /** The most recent failure, or none (null) when nothing failed. */
  function LastError(errors: seq<Fault>): (e: Option<Fault>)
    ensures e.None? <==> errors == []
    ensures e.Some? ==> e.value == errors[|errors| - 1]
  {
    if |errors| > 0 then Some(errors[|errors| - 1]) else None
  }

  /** Appending failures makes the last one appended the most recent one. */
  lemma LastErrorAppend(errors: seq<Fault>, more: seq<Fault>)
    ensures LastError(errors + more)
      == if more == [] then LastError(errors) else Some(more[|more| - 1])
  {
  }

  /** The failures an outcome adds to the error list: one for a reply that
      captured a failure, none otherwise. */
  function FaultsOf(o: Outcome): seq<Fault>
  {
    if o.Answered? then ToSeq(o.reply.fault) else []
  }

  /** How one request is checked and answered, given the selected handler.
      The server uses `Serve`; the bookkeeping below holds for any. */
  type Exchanger = (RequestHandler, Request, bool) -> Reply

  /**
   * Handling one completed accept wait. A fault caused by disposal returns
   * at once. Otherwise the handler is selected with the count before this
   * request (an empty list crashes here); a listener that stopped listening
   * abandons the request; any other request is served, its failure, if any,
   * appended, and the count advanced by one.
   */
  function Step(serve: Exchanger, handlers: seq<RequestHandler>, s: ServerState, ev: Accept): (r: (ServerState, Outcome))
    ensures r.1.Answered? <==> ev.Accepted? && |handlers| > 0 && ev.listening
    ensures r.1 == Crashed <==> ev.Accepted? && |handlers| == 0
    ensures r.0.requestCount == s.requestCount + (if r.1.Answered? then 1 else 0)
    ensures r.0.errors == s.errors + FaultsOf(r.1)
    ensures r.1.Answered? ==>
      r.1.reply == serve(Select(handlers, s.requestCount), ev.request, ev.copyFails)
  {
    match ev
    case DisposedFault => (s, Ignored)
    case Accepted(req, listening, copyFails) =>
      if |handlers| == 0 then (s, Crashed)
      else if !listening then (s, Abandoned)
      else
        var reply := serve(Select(handlers, s.requestCount), req, copyFails);
        (ServerState(s.requestCount + 1, s.errors + ToSeq(reply.fault)), Answered(reply))
  }

  /** A request accepted while listening, spelled out: it is served with the
      selected handler, counted, and its failure, if any, appended. */
  lemma StepAnswers(serve: Exchanger, handlers: seq<RequestHandler>, s: ServerState, req: Request, copyFails: bool)
    requires |handlers| > 0
    ensures var reply := serve(Select(handlers, s.requestCount), req, copyFails);
      Step(serve, handlers, s, Accepted(req, true, copyFails))
        == (ServerState(s.requestCount + 1, s.errors + ToSeq(reply.fault)), Answered(reply))
  {
  }

  /** Handling a sequence of accepts one after another. */
  function Run(serve: Exchanger, handlers: seq<RequestHandler>, s: ServerState, evs: seq<Accept>): (ServerState, seq<Outcome>)
    decreases |evs|
  {
    if evs == [] then (s, [])
    else
      var (s1, o) := Step(serve, handlers, s, evs[0]);
      var (s2, os) := Run(serve, handlers, s1, evs[1..]);
      (s2, [o] + os)
  }

  /** How many outcomes answered a request. */
  function AnsweredCount(outs: seq<Outcome>): nat
    decreases |outs|
  {
    if outs == [] then 0
    else (if outs[0].Answered? then 1 else 0) + AnsweredCount(outs[1..])
  }

  /** The failures a sequence of outcomes captured, in order. */
  function Faults(outs: seq<Outcome>): seq<Fault>
    decreases |outs|
  {
    if outs == [] then [] else FaultsOf(outs[0]) + Faults(outs[1..])
  }

  /** Over any sequence of accepts, the count grows by exactly the number of
      answered requests, and the error list only grows at its end, by the
      failures those requests captured, in order. */
  lemma {:induction false} RunBookkeeping(serve: Exchanger, handlers: seq<RequestHandler>, s: ServerState, evs: seq<Accept>)
    ensures |Run(serve, handlers, s, evs).1| == |evs|
    ensures Run(serve, handlers, s, evs).0.requestCount
      == s.requestCount + AnsweredCount(Run(serve, handlers, s, evs).1)
    ensures Run(serve, handlers, s, evs).0.errors == s.errors + Faults(Run(serve, handlers, s, evs).1)
    decreases |evs|
  {
    if evs != [] {
      var step := Step(serve, handlers, s, evs[0]);
      RunBookkeeping(serve, handlers, step.0, evs[1..]);
      var os := Run(serve, handlers, step.0, evs[1..]).1;
      assert Run(serve, handlers, s, evs).1 == [step.1] + os;
      assert ([step.1] + os)[1..] == os;
      assert s.errors + FaultsOf(step.1) + Faults(os) == s.errors + (FaultsOf(step.1) + Faults(os));
    }
  }

  /** After any sequence of accepts, `Error` is the last failure captured
      during it, or what it was before when none was captured. */
  lemma RunLastError(serve: Exchanger, handlers: seq<RequestHandler>, s: ServerState, evs: seq<Accept>)
    ensures var fs := Faults(Run(serve, handlers, s, evs).1);
      LastError(Run(serve, handlers, s, evs).0.errors)
        == if fs == [] then LastError(s.errors) else Some(fs[|fs| - 1])
  {
    RunBookkeeping(serve, handlers, s, evs);
    LastErrorAppend(s.errors, Faults(Run(serve, handlers, s, evs).1));
  }

  /** The outcome of the i-th of a sequence of accepts that all bring a
      request while listening: served with the count it started from plus i. */
  lemma {:induction false} RunServesAt(serve: Exchanger, handlers: seq<RequestHandler>, s: ServerState, evs: seq<Accept>, i: nat)
    requires |handlers| > 0
    requires forall j :: 0 <= j < |evs| ==> evs[j].Accepted? && evs[j].listening
    requires i < |evs|
    ensures |Run(serve, handlers, s, evs).1| == |evs|
    ensures Run(serve, handlers, s, evs).1[i]
      == Answered(serve(Select(handlers, s.requestCount + i), evs[i].request, evs[i].copyFails))
    decreases i
  {
    var step := Step(serve, handlers, s, evs[0]);
    assert evs[0] == Accepted(evs[0].request, true, evs[0].copyFails);
    StepAnswers(serve, handlers, s, evs[0].request, evs[0].copyFails);
    RunBookkeeping(serve, handlers, s, evs);
    var os := Run(serve, handlers, step.0, evs[1..]).1;
    assert Run(serve, handlers, s, evs).1 == [step.1] + os;
    if i > 0 {
      RunServesAt(serve, handlers, step.0, evs[1..], i - 1);
      assert step.0.requestCount + (i - 1) == s.requestCount + i;
      assert evs[1..][i - 1] == evs[i];
      assert ([step.1] + os)[i] == os[i - 1];
    }
  }

  /** Accepts that all bring a request while listening are all answered. */
  lemma {:induction false} AllAnswered(outs: seq<Outcome>)
    requires forall i :: 0 <= i < |outs| ==> outs[i].Answered?
    ensures AnsweredCount(outs) == |outs|
    decreases |outs|
  {
    if outs != [] {
      AllAnswered(outs[1..]);
    }
  }

  /** Requests that are all accepted while listening are matched strictly in
      arrival order: the i-th is served by the handler selected with the
      count it started from plus i, and each one advances the count. */
  lemma RunServesInOrder(serve: Exchanger, handlers: seq<RequestHandler>, s: ServerState, evs: seq<Accept>)
    requires |handlers| > 0
    requires forall i :: 0 <= i < |evs| ==> evs[i].Accepted? && evs[i].listening
    ensures |Run(serve, handlers, s, evs).1| == |evs|
    ensures Run(serve, handlers, s, evs).0.requestCount == s.requestCount + |evs|
    ensures forall i :: 0 <= i < |evs| ==>
      Run(serve, handlers, s, evs).1[i]
        == Answered(serve(Select(handlers, s.requestCount + i), evs[i].request, evs[i].copyFails))
  {
    RunBookkeeping(serve, handlers, s, evs);
    forall i | 0 <= i < |evs|
      ensures Run(serve, handlers, s, evs).1[i]
        == Answered(serve(Select(handlers, s.requestCount + i), evs[i].request, evs[i].copyFails))
    {
      RunServesAt(serve, handlers, s, evs, i);
    }
    AllAnswered(Run(serve, handlers, s, evs).1);
  }

  /** From a fresh server, request i is checked against and answered by
      handler i, and every request past the last handler by the last one. */
  lemma FreshServerMatchesInOrder(handlers: seq<RequestHandler>, evs: seq<Accept>)
    requires |handlers| > 0
    requires forall i :: 0 <= i < |evs| ==> evs[i].Accepted? && evs[i].listening
    ensures |Run(Serve, handlers, Initial, evs).1| == |evs|
    ensures Run(Serve, handlers, Initial, evs).0.requestCount == |evs|
    ensures forall i :: 0 <= i < |evs| ==>
      Run(Serve, handlers, Initial, evs).1[i]
        == Answered(Serve(if i < |handlers| then handlers[i] else handlers[|handlers| - 1],
                          evs[i].request, evs[i].copyFails))
  {
    RunServesInOrder(Serve, handlers, Initial, evs);
  }

  /** Builds the response headers in place, as `AddHeader` calls would: the
      `HeadersToSend` entries, then every value of every content header. */
  method AddScriptedHeaders(h: RequestHandler) returns (added: seq<Header>)
    ensures added == ScriptedHeaders(h)
  {
    added := [];
    if h.headersToSend.Some? {
      var send := h.headersToSend.value;
      for i := 0 to |send|
        invariant added == send[..i]
      {
        added := added + [send[i]];
      }
      assert send[..|send|] == send;
    }
    ghost var sent := added;
    if h.contentToSend.Some? {
      var contentHeaders := h.contentToSend.value.headers;
      for i := 0 to |contentHeaders|
        invariant added == sent + Flatten(contentHeaders[..i])
      {
        var name := contentHeaders[i].0;
        var values := contentHeaders[i].1;
        for j := 0 to |values|
          invariant added == sent + Flatten(contentHeaders[..i]) + Pairs(name, values[..j])
        {
          added := added + [(name, values[j])];
        }
        assert values[..|values|] == values;
        assert contentHeaders[..i + 1][..i] == contentHeaders[..i];
      }
      assert contentHeaders[..|contentHeaders|] == contentHeaders;
    }
  }

  /** Runs a handler's assertions in order: method, path and query, body,
      then each expected header; the first that fails ends the checking. */
  method Verify(h: RequestHandler, req: Request) returns (m: Option<Mismatch>)
    ensures m == Validate(h, req)
  {
    ValidateUnfold(h, req);
    if h.estimatedMethod.Some? && h.estimatedMethod.value != req.httpMethod {
      return Some(Mismatch(Method, h.estimatedMethod, Some(req.httpMethod)));
    }
    if h.estimatedPathAndQuery.Some? && h.estimatedPathAndQuery.value != req.pathAndQuery {
      return Some(Mismatch(PathAndQuery, h.estimatedPathAndQuery, Some(req.pathAndQuery)));
    }
    if h.estimatedContent.Some? && h.estimatedContent.value != req.body {
      return Some(Mismatch(Body, h.estimatedContent, Some(req.body)));
    }
    if h.estimatedHeaders.Some? {
      m := VerifyHeaders(h.estimatedHeaders.value, req);
    } else {
      m := None;
    }
  }

  /** The loop over the expected headers: each must have exactly its
      expected value in the request, and the first that does not ends it. */
  method VerifyHeaders(expected: seq<(string, Option<string>)>, req: Request) returns (m: Option<Mismatch>)
    ensures m == FirstFailure(HeaderExpectations(expected), req)
  {
    var checks := HeaderExpectations(expected);
    assert forall k :: 0 <= k < |expected| ==> checks[k] == Expect(RequestHeader(expected[k].0), expected[k].1);
    var i := 0;
    while i < |expected|
      invariant 0 <= i <= |expected|
      invariant forall j :: 0 <= j < i ==> Holds(checks[j], req)
    {
      var name, value := expected[i].0, expected[i].1;
      var actual := HeaderValue(req, name);
      if value != actual {
        FirstFailureSkip(checks, i, req);
        return Some(Mismatch(RequestHeader(name), value, actual));
      }
      i := i + 1;
    }
    FirstFailureIsFirst(checks, req);
    m := None;
  }

  /**
   * The body of the try block for one request: the assertions, then the
   * header loops, the payload copy and the status assignment. A failed
   * assertion or a thrown fault ends it and becomes the reply's fault.
   */
  method Respond(h: RequestHandler, req: Request, copyFails: bool) returns (reply: Reply)
    ensures reply == Serve(h, req, copyFails)
  {
    var mismatch := Verify(h, req);
    if mismatch.Some? {
      return Reply(Untouched, Some(AssertFailed(mismatch.value)));
    }
    var headers := AddScriptedHeaders(h);
    if h.contentToSend.Some? && copyFails {
      return Reply(Response(headers, None, ""), Some(CopyFailed));
    }
    if !ValidStatus(h.statusCodeToSend) {
      return Reply(Response(headers, None, Payload(h)), Some(StatusRejected(h.statusCodeToSend)));
    }
    reply := Reply(Response(headers, Some(h.statusCodeToSend), Payload(h)), None);
  }

  /** The test server. `handlers` is fixed at construction; `requestCount`
      and `errors` change only in `Dispatch`. */
  class HttpServer {
    const handlers: seq<RequestHandler>
    var requestCount: nat
    var errors: seq<Fault>

    function State(): ServerState
      reads this
    {
      ServerState(requestCount, errors)
    }

    /** The most recently captured failure, or none. */
    function Error(): (e: Option<Fault>)
      reads this
      ensures e.None? <==> errors == []
      ensures e.Some? ==> e.value == errors[|errors| - 1]
    {
      LastError(errors)
    }

    /** A server over a list of handlers: nothing handled, nothing failed. */
    constructor (handlers: seq<RequestHandler>)
      ensures this.handlers == handlers
      ensures State() == Initial && Error() == None
    {
      this.handlers := handlers;
      requestCount := 0;
      errors := [];
    }

    /** A server over a single handler: the same as a one-element list. */
    constructor Single(handler: RequestHandler)
      ensures handlers == [handler]
      ensures State() == Initial && Error() == None
    {
      handlers := [handler];
      requestCount := 0;
      errors := [];
    }

    /** Construction from a possibly null handler array: null is rejected
        with an argument error naming the parameter. */
    static method Create(handlers: Option<seq<RequestHandler>>)
      returns (r: Result<HttpServer, ConstructionError>)
      ensures r.Failure? <==> handlers.None?
      ensures r.Failure? ==> r.error == ArgumentNull("handlers")
      ensures r.Success? ==>
        fresh(r.value) && r.value.handlers == handlers.value && r.value.State() == Initial
    {
      if handlers.None? {
        return Failure(ArgumentNull("handlers"));
      }
      var server := new HttpServer(handlers.value);
      return Success(server);
    }

    /**
     * Handles one completed accept wait. Its effect is exactly `Step`: the
     * count goes up by one for every answered request, whether it failed or
     * not, and by nothing otherwise; a failure is appended at the end of the
     * list and becomes `Error`; an unanswered accept changes nothing.
     */
    method Dispatch(ev: Accept) returns (outcome: Outcome)
      modifies this
      ensures (State(), outcome) == Step(Serve, handlers, old(State()), ev)
      ensures requestCount == old(requestCount) + (if outcome.Answered? then 1 else 0)
      ensures errors == old(errors) + FaultsOf(outcome)
      ensures Error() == if FaultsOf(outcome) == [] then old(Error()) else outcome.reply.fault
    {
      match ev
      case DisposedFault =>
        return Ignored;
      case Accepted(req, listening, copyFails) =>
        if |handlers| == 0 {
          return Crashed;
        }
        var handler := Select(handlers, requestCount);
        if !listening {
          return Abandoned;
        }
        var reply := Respond(handler, req, copyFails);
        StepAnswers(Serve, handlers, State(), req, copyFails);
        if reply.fault.Some? {
          errors := errors + [reply.fault.value];
        }
        requestCount := requestCount + 1;
        outcome := Answered(reply);
        assert errors == old(errors) + FaultsOf(outcome);
        LastErrorAppend(old(errors), FaultsOf(outcome));
    }
  }
}
