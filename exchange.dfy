/**
 * One scripted HTTP exchange of the test server: the expectation a request is
 * checked against (a `RequestHandler`), the request as the server sees it, and
 * the response it writes back.
 *
 * This module is the value-level specification. Which checks run, in which
 * order, which one fails first, and which headers, status and body a response
 * receives are all functions here; the imperative code in module `Server`
 * is proved to compute them.
 */
module Exchange {
  import opened Wrappers

  /** A response header as `AddHeader` receives it: a name and one value. */
  type Header = (string, string)

  /** The scripted body: its own headers, each with its list of values (a
      content type, say), and the payload copied to the output stream. */
  datatype Content = Content(headers: seq<(string, seq<string>)>, payload: string)

  /**
   * The expectation/response pair of one request. Every `estimated` field
   * is optional: `None` (null) means that aspect is not checked. The two
   * dictionaries are sequences in their enumeration order; an expected
   * header value may itself be null.
   */
  datatype RequestHandler = RequestHandler(
    estimatedMethod: Option<string>,
    estimatedPathAndQuery: Option<string>,
    estimatedContent: Option<string>,
    estimatedHeaders: Option<seq<(string, Option<string>)>>,
    headersToSend: Option<seq<Header>>,
    contentToSend: Option<Content>,
    statusCodeToSend: int)

  /** A freshly constructed handler: it expects GET and answers 200, and
      sets nothing else. */
  function DefaultHandler(): (h: RequestHandler)
    ensures Expectations(h) == [Expect(Method, Some("GET"))]
    ensures h.statusCodeToSend == 200
    ensures h.headersToSend.None? && h.contentToSend.None?
  {
    RequestHandler(Some("GET"), None, None, None, None, None, 200)
  }

  /** An incoming request: its method, its path and query, its body already
      decoded to text, and its headers. */
  datatype Request = Request(
    httpMethod: string,
    pathAndQuery: string,
    body: string,
    headers: map<string, string>)

  /** Looking up a request header yields null when the header is absent. */
  function HeaderValue(req: Request, name: string): Option<string>
  {
    if name in req.headers then Some(req.headers[name]) else None
  }

  /** The aspect of a request that one check compares. */
  datatype Field = Method | PathAndQuery | Body | RequestHeader(name: string)

  /** The actual value of a field in a request; only a header can be null. */
  function Actual(req: Request, f: Field): Option<string>
  {
    match f
    case Method => Some(req.httpMethod)
    case PathAndQuery => Some(req.pathAndQuery)
    case Body => Some(req.body)
    case RequestHeader(name) => HeaderValue(req, name)
  }

  /** One equality assertion: the field and the value it must have. */
  datatype Expectation = Expect(field: Field, expected: Option<string>)

  /** A failed equality assertion: what was expected and what was found. */
  datatype Mismatch = Mismatch(field: Field, expected: Option<string>, actual: Option<string>)

  /** A failure captured while handling a request: a failed assertion, the
      copy of the scripted payload to the output stream throwing, or the
      response refusing the scripted status code. */
  datatype Fault = AssertFailed(mismatch: Mismatch) | CopyFailed | StatusRejected(code: int)

  predicate Holds(e: Expectation, req: Request)
  {
    e.expected == Actual(req, e.field)
  }

  function MismatchOf(e: Expectation, req: Request): Mismatch
  {
    Mismatch(e.field, e.expected, Actual(req, e.field))
  }

  /** The header checks, in the enumeration order of the expected headers:
      one per expected header, and a check is made for a header and value
      exactly when that header is expected with that value. */
  function HeaderExpectations(hs: seq<(string, Option<string>)>): (es: seq<Expectation>)
    ensures |es| == |hs|
    ensures forall e :: e in es <==> e.field.RequestHeader? && (e.field.name, e.expected) in hs
  {
    var es := seq(|hs|, i requires 0 <= i < |hs| => Expect(RequestHeader(hs[i].0), hs[i].1));
    assert forall i :: 0 <= i < |hs| ==> es[i] == Expect(RequestHeader(hs[i].0), hs[i].1);
    es
  }

  /** The three leading checks, one optional check each. */
  function MethodCheck(h: RequestHandler): seq<Expectation>
  {
    if h.estimatedMethod.Some? then [Expect(Method, h.estimatedMethod)] else []
  }

  function PathCheck(h: RequestHandler): seq<Expectation>
  {
    if h.estimatedPathAndQuery.Some? then [Expect(PathAndQuery, h.estimatedPathAndQuery)] else []
  }

  function BodyCheck(h: RequestHandler): seq<Expectation>
  {
    if h.estimatedContent.Some? then [Expect(Body, h.estimatedContent)] else []
  }

  /** The checks that come before the header checks: method, then path and
      query, then body, each present only when the handler sets it. */
  function LeadingExpectations(h: RequestHandler): seq<Expectation>
  {
    MethodCheck(h) + PathCheck(h) + BodyCheck(h)
  }

  /** The header checks of a handler, empty when it expects no headers. */
  function HeaderChecks(h: RequestHandler): seq<Expectation>
  {
    if h.estimatedHeaders.Some? then HeaderExpectations(h.estimatedHeaders.value) else []
  }

  /** Every check a handler asks for, in the order they run. */
  function Expectations(h: RequestHandler): seq<Expectation>
  {
    LeadingExpectations(h) + HeaderChecks(h)
  }

  /** Runs checks in order and stops at the first that fails. */
  function FirstFailure(es: seq<Expectation>, req: Request): (r: Option<Mismatch>)
    ensures r.Some? ==> Expect(r.value.field, r.value.expected) in es
    ensures r.Some? ==> r.value.actual == Actual(req, r.value.field) && r.value.expected != r.value.actual
    decreases |es|
  {
    if es == [] then None
    else if !Holds(es[0], req) then Some(MismatchOf(es[0], req))
    else FirstFailure(es[1..], req)
  }

  /** The outcome of the assertions of a handler on a request. */
  function Validate(h: RequestHandler, req: Request): (r: Option<Mismatch>)
    ensures r.Some? ==> Expect(r.value.field, r.value.expected) in Expectations(h)
    ensures r.Some? ==> r.value.actual == Actual(req, r.value.field) && r.value.expected != r.value.actual
    ensures Expectations(h) == [] ==> r.None?
  {
    FirstFailure(Expectations(h), req)
  }

  /** `FirstFailure` reports nothing exactly when every check holds, and
      otherwise reports the mismatch of the earliest check that fails. */
  lemma {:induction false} FirstFailureIsFirst(es: seq<Expectation>, req: Request)
    ensures FirstFailure(es, req).None? <==> forall i :: 0 <= i < |es| ==> Holds(es[i], req)
    ensures FirstFailure(es, req).Some? ==>
      exists i :: 0 <= i < |es| && !Holds(es[i], req)
        && (forall j :: 0 <= j < i ==> Holds(es[j], req))
        && FirstFailure(es, req) == Some(MismatchOf(es[i], req))
    decreases |es|
  {
    if es != [] {
      FirstFailureIsFirst(es[1..], req);
      if Holds(es[0], req) {
        if FirstFailure(es, req).Some? {
          var i :| 0 <= i < |es[1..]| && !Holds(es[1..][i], req)
            && (forall j :: 0 <= j < i ==> Holds(es[1..][j], req))
            && FirstFailure(es[1..], req) == Some(MismatchOf(es[1..][i], req));
          assert forall j :: 0 <= j < i + 1 ==> Holds(es[j], req) by {
            forall j | 0 <= j < i + 1 ensures Holds(es[j], req) {
              if j > 0 { assert es[j] == es[1..][j - 1]; }
            }
          }
          assert es[i + 1] == es[1..][i];
        } else {
          forall i | 0 <= i < |es| ensures Holds(es[i], req) {
            if i > 0 { assert es[i] == es[1..][i - 1]; }
          }
        }
      }
    }
  }

  /** Checks that all hold can be skipped: the outcome is decided by the rest. */
  lemma {:induction false} FirstFailureSkip(es: seq<Expectation>, k: nat, req: Request)
    requires k <= |es|
    requires forall j :: 0 <= j < k ==> Holds(es[j], req)
    ensures FirstFailure(es, req) == FirstFailure(es[k..], req)
    decreases k
  {
    if k > 0 {
      assert es[1..][k - 1..] == es[k..];
      FirstFailureSkip(es[1..], k - 1, req);
    }
  }

  /** Checking a concatenation: the first part decides unless all of it holds. */
  lemma {:induction false} FirstFailureAppend(x: seq<Expectation>, y: seq<Expectation>, req: Request)
    ensures FirstFailure(x + y, req)
      == if FirstFailure(x, req).Some? then FirstFailure(x, req) else FirstFailure(y, req)
    decreases |x|
  {
    if x == [] {
      assert x + y == y;
    } else {
      assert (x + y)[1..] == x[1..] + y;
      FirstFailureAppend(x[1..], y, req);
    }
  }

  predicate MethodOk(h: RequestHandler, req: Request)
  {
    h.estimatedMethod.Some? ==> h.estimatedMethod.value == req.httpMethod
  }

  predicate PathOk(h: RequestHandler, req: Request)
  {
    h.estimatedPathAndQuery.Some? ==> h.estimatedPathAndQuery.value == req.pathAndQuery
  }

  predicate BodyOk(h: RequestHandler, req: Request)
  {
    h.estimatedContent.Some? ==> h.estimatedContent.value == req.body
  }

  predicate HeadersOk(h: RequestHandler, req: Request)
  {
    h.estimatedHeaders.Some? ==>
      forall i :: 0 <= i < |h.estimatedHeaders.value| ==>
        h.estimatedHeaders.value[i].1 == HeaderValue(req, h.estimatedHeaders.value[i].0)
  }

  /** The declarative reading of a handler's assertions: every field it sets
      equals the request's, and every header it expects has exactly the
      expected value (an absent header counts as null). */
  predicate Conforms(h: RequestHandler, req: Request)
  {
    MethodOk(h, req) && PathOk(h, req) && BodyOk(h, req) && HeadersOk(h, req)
  }

  predicate AllHold(es: seq<Expectation>, req: Request)
  {
    forall i :: 0 <= i < |es| ==> Holds(es[i], req)
  }

  lemma AllHoldAppend(a: seq<Expectation>, b: seq<Expectation>, req: Request)
    ensures AllHold(a + b, req) <==> AllHold(a, req) && AllHold(b, req)
  {
    if AllHold(a, req) && AllHold(b, req) {
      forall i | 0 <= i < |a + b| ensures Holds((a + b)[i], req) {
        if i >= |a| { assert (a + b)[i] == b[i - |a|]; }
      }
    }
    if AllHold(a + b, req) {
      forall i | 0 <= i < |a| ensures Holds(a[i], req) { assert (a + b)[i] == a[i]; }
      forall i | 0 <= i < |b| ensures Holds(b[i], req) { assert (a + b)[|a| + i] == b[i]; }
    }
  }

  lemma LeadingExpectationsHold(h: RequestHandler, req: Request)
    ensures AllHold(MethodCheck(h), req) <==> MethodOk(h, req)
    ensures AllHold(PathCheck(h), req) <==> PathOk(h, req)
    ensures AllHold(BodyCheck(h), req) <==> BodyOk(h, req)
    ensures AllHold(LeadingExpectations(h), req)
      <==> MethodOk(h, req) && PathOk(h, req) && BodyOk(h, req)
  {
    if h.estimatedMethod.Some? { assert MethodCheck(h)[0] == Expect(Method, h.estimatedMethod); }
    if h.estimatedPathAndQuery.Some? { assert PathCheck(h)[0] == Expect(PathAndQuery, h.estimatedPathAndQuery); }
    if h.estimatedContent.Some? { assert BodyCheck(h)[0] == Expect(Body, h.estimatedContent); }
    AllHoldAppend(MethodCheck(h), PathCheck(h), req);
    AllHoldAppend(MethodCheck(h) + PathCheck(h), BodyCheck(h), req);
  }

  /** Validation passes exactly when the request conforms to the handler. */
  lemma ValidateNoneIff(h: RequestHandler, req: Request)
    ensures Validate(h, req).None? <==> Conforms(h, req)
  {
    FirstFailureIsFirst(Expectations(h), req);
    LeadingExpectationsHold(h, req);
    AllHoldAppend(LeadingExpectations(h), HeaderChecks(h), req);
    if h.estimatedHeaders.Some? {
      var hs := h.estimatedHeaders.value;
      assert forall i :: 0 <= i < |hs| ==>
        HeaderChecks(h)[i] == Expect(RequestHeader(hs[i].0), hs[i].1);
    }
  }

  /** Validation spelled out in the order the checks run. */
  lemma ValidateUnfold(h: RequestHandler, req: Request)
    ensures Validate(h, req)
      == if h.estimatedMethod.Some? && h.estimatedMethod.value != req.httpMethod then
           Some(Mismatch(Method, h.estimatedMethod, Some(req.httpMethod)))
         else if h.estimatedPathAndQuery.Some? && h.estimatedPathAndQuery.value != req.pathAndQuery then
           Some(Mismatch(PathAndQuery, h.estimatedPathAndQuery, Some(req.pathAndQuery)))
         else if h.estimatedContent.Some? && h.estimatedContent.value != req.body then
           Some(Mismatch(Body, h.estimatedContent, Some(req.body)))
         else FirstFailure(HeaderChecks(h), req)
  {
    var a, b, c, d := MethodCheck(h), PathCheck(h), BodyCheck(h), HeaderChecks(h);
    assert Expectations(h) == a + (b + (c + d));
    FirstFailureAppend(a, b + (c + d), req);
    FirstFailureAppend(b, c + d, req);
    FirstFailureAppend(c, d, req);
    if h.estimatedMethod.Some? { assert a[1..] == []; }
    if h.estimatedPathAndQuery.Some? { assert b[1..] == []; }
    if h.estimatedContent.Some? { assert c[1..] == []; }
  }

  /** When the checks before position `i` of `a + b + c + d` hold, so does
      every group that lies wholly before `i`. */
  lemma HoldBefore(a: seq<Expectation>, b: seq<Expectation>, c: seq<Expectation>, d: seq<Expectation>,
                   req: Request, i: nat)
    requires forall j :: 0 <= j < i && j < |a + b + c + d| ==> Holds((a + b + c + d)[j], req)
    ensures i >= |a| ==> AllHold(a, req)
    ensures i >= |a| + |b| ==> AllHold(b, req)
    ensures i >= |a| + |b| + |c| ==> AllHold(c, req)
  {
    var es := a + b + c + d;
    forall k | 0 <= k < |a| && i >= |a| ensures Holds(a[k], req) {
      assert es[k] == a[k];
    }
    forall k | 0 <= k < |b| && i >= |a| + |b| ensures Holds(b[k], req) {
      assert es[|a| + k] == b[k];
    }
    forall k | 0 <= k < |c| && i >= |a| + |b| + |c| ensures Holds(c[k], req) {
      assert es[|a| + |b| + k] == c[k];
    }
  }

  /** A check at position `i` runs only after those before it passed: which
      of the leading fields are then known to match depends on its field. */
  lemma {:induction false} CheckedBefore(h: RequestHandler, req: Request, i: nat)
    requires i < |Expectations(h)|
    requires forall j :: 0 <= j < i ==> Holds(Expectations(h)[j], req)
    ensures Expectations(h)[i].field != Method ==> MethodOk(h, req)
    ensures Expectations(h)[i].field.RequestHeader? || Expectations(h)[i].field == Body ==> PathOk(h, req)
    ensures Expectations(h)[i].field.RequestHeader? ==> BodyOk(h, req)
  {
    var es := Expectations(h);
    var a, b, c, d := MethodCheck(h), PathCheck(h), BodyCheck(h), HeaderChecks(h);
    assert es == a + b + c + d;
    HoldBefore(a, b, c, d, req, i);
    LeadingExpectationsHold(h, req);
    if i < |a| {
      assert es[i] == a[i];
    } else if i < |a| + |b| {
      assert es[i] == b[i - |a|];
    } else if i < |a| + |b| + |c| {
      assert es[i] == c[i - |a| - |b|];
    }
  }

  /** When validation fails, the mismatch is that of a check the handler asks
      for, the values it reports really differ, and every check that runs
      before it holds: the path is only compared once the method matches, the
      body once method and path match, a header once all three match. */
  lemma ValidateReportsFirstMismatch(h: RequestHandler, req: Request, m: Mismatch)
    requires Validate(h, req) == Some(m)
    ensures Expect(m.field, m.expected) in Expectations(h)
    ensures m.actual == Actual(req, m.field) && m.expected != m.actual
    ensures m.field != Method ==> MethodOk(h, req)
    ensures m.field.RequestHeader? || m.field == Body ==> PathOk(h, req)
    ensures m.field.RequestHeader? ==> BodyOk(h, req)
  {
    var es := Expectations(h);
    FirstFailureIsFirst(es, req);
    var i :| 0 <= i < |es| && !Holds(es[i], req)
      && (forall j :: 0 <= j < i ==> Holds(es[j], req))
      && FirstFailure(es, req) == Some(MismatchOf(es[i], req));
    assert Expect(m.field, m.expected) == es[i];
    CheckedBefore(h, req, i);
  }

  /** A default handler accepts a GET and rejects every other method with a
      method mismatch, whatever the path, body and headers. */
  lemma DefaultHandlerExpectsGet(req: Request)
    ensures Validate(DefaultHandler(), req)
      == if req.httpMethod == "GET" then None
         else Some(Mismatch(Method, Some("GET"), Some(req.httpMethod)))
    ensures DefaultHandler().statusCodeToSend == 200
  {
    assert Expectations(DefaultHandler()) == [Expect(Method, Some("GET"))];
    assert [Expect(Method, Some("GET"))][1..] == [];
  }

  /** The header pairs `AddHeader` receives for one named content header:
      one per value, each carrying the header's name and one of its values. */
  function Pairs(name: string, values: seq<string>): (ps: seq<Header>)
    ensures |ps| == |values|
    ensures forall n, v :: (n, v) in ps <==> n == name && v in values
  {
    var ps := seq(|values|, j requires 0 <= j < |values| => (name, values[j]));
    assert forall j :: 0 <= j < |values| ==> ps[j] == (name, values[j]);
    ps
  }

  /** Every value of every content header, header by header, in order. */
  function Flatten(hs: seq<(string, seq<string>)>): seq<Header>
    decreases |hs|
  {
    if hs == [] then []
    else Flatten(hs[..|hs| - 1]) + Pairs(hs[|hs| - 1].0, hs[|hs| - 1].1)
  }

  /** Flattening distributes over concatenation: headers keep their order. */
  lemma {:induction false} FlattenAppend(a: seq<(string, seq<string>)>, b: seq<(string, seq<string>)>)
    ensures Flatten(a + b) == Flatten(a) + Flatten(b)
    decreases |b|
  {
    if b != [] {
      var b' := b[..|b| - 1];
      assert (a + b)[..|a + b| - 1] == a + b';
      FlattenAppend(a, b');
    } else {
      assert a + b == a;
    }
  }

  /** A pair is added for a content header exactly when it is one of that
      header's values: nothing is lost and nothing is invented. */
  lemma {:induction false} FlattenMembership(hs: seq<(string, seq<string>)>, name: string, value: string)
    ensures (name, value) in Flatten(hs)
      <==> exists i :: 0 <= i < |hs| && hs[i].0 == name && value in hs[i].1
    decreases |hs|
  {
    if hs != [] {
      var init := hs[..|hs| - 1];
      var last := hs[|hs| - 1];
      FlattenMembership(init, name, value);
      if exists i :: 0 <= i < |hs| && hs[i].0 == name && value in hs[i].1 {
        var i :| 0 <= i < |hs| && hs[i].0 == name && value in hs[i].1;
        if i < |hs| - 1 { assert init[i] == hs[i]; }
      }
      if exists i :: 0 <= i < |init| && init[i].0 == name && value in init[i].1 {
        var i :| 0 <= i < |init| && init[i].0 == name && value in init[i].1;
        assert hs[i] == init[i];
      }
    }
  }

  /** Total number of content header values. */
  function ValueCount(hs: seq<(string, seq<string>)>): nat
    decreases |hs|
  {
    if hs == [] then 0 else ValueCount(hs[..|hs| - 1]) + |hs[|hs| - 1].1|
  }

  /** One header pair is added per value. */
  lemma {:induction false} FlattenLength(hs: seq<(string, seq<string>)>)
    ensures |Flatten(hs)| == ValueCount(hs)
    decreases |hs|
  {
    if hs != [] { FlattenLength(hs[..|hs| - 1]); }
  }

  /** The headers a handler scripts, in the order they are added: the
      `HeadersToSend` entries, then every value of every content header. */
  function ScriptedHeaders(h: RequestHandler): seq<Header>
  {
    (if h.headersToSend.Some? then h.headersToSend.value else [])
    + (if h.contentToSend.Some? then Flatten(h.contentToSend.value.headers) else [])
  }

  /** What the server wrote to a response before closing it: the headers it
      added, the status it set (`None`: never set), and the body copied out. */
  datatype Response = Response(headers: seq<Header>, status: Option<int>, body: string)

  /** The response and the captured failure, if any, of one handled request. */
  datatype Reply = Reply(response: Response, fault: Option<Fault>)

  /** A response the server closed without writing anything to it. */
  const Untouched := Response([], None, "")

  /** The status codes an `HttpListenerResponse` accepts; setting any other
      throws a protocol violation. */
  predicate ValidStatus(code: int)
  {
    100 <= code <= 999
  }

  /** The body a handler scripts: its content's payload, or nothing. */
  function Payload(h: RequestHandler): string
  {
    if h.contentToSend.Some? then h.contentToSend.value.payload else ""
  }

  /**
   * Handling one request with a handler. `copyFails` says whether copying the
   * payload to the output stream throws (an I/O fault the model does not
   * predict). Assertions come first; a failed one leaves the response
   * untouched. Otherwise the headers are added, the payload copied, and the
   * status set last; a status outside 100..999 is refused after the payload
   * was copied.
   */
  function Serve(h: RequestHandler, req: Request, copyFails: bool): (r: Reply)
    ensures r.fault.Some? ==> r.response.status.None?
    ensures r.fault.Some? && !r.fault.value.StatusRejected? ==> r.response.body == ""
    ensures r.fault.Some? && r.fault.value.AssertFailed? ==>
      r.response == Untouched && Validate(h, req) == Some(r.fault.value.mismatch)
    ensures r.fault == Some(CopyFailed) ==>
      h.contentToSend.Some? && copyFails && r.response.headers == ScriptedHeaders(h)
    ensures r.fault.Some? && r.fault.value.StatusRejected? ==>
      && r.fault.value.code == h.statusCodeToSend && !ValidStatus(h.statusCodeToSend)
      && r.response.headers == ScriptedHeaders(h) && r.response.body == Payload(h)
    ensures r.fault.None? ==> r.response.status == Some(h.statusCodeToSend) && ValidStatus(h.statusCodeToSend)
  {
    match Validate(h, req)
    case Some(m) => Reply(Untouched, Some(AssertFailed(m)))
    case None =>
      if h.contentToSend.Some? && copyFails then
        Reply(Response(ScriptedHeaders(h), None, ""), Some(CopyFailed))
      else if !ValidStatus(h.statusCodeToSend) then
        Reply(Response(ScriptedHeaders(h), None, Payload(h)), Some(StatusRejected(h.statusCodeToSend)))
      else
        Reply(Response(ScriptedHeaders(h), Some(h.statusCodeToSend), Payload(h)), None)
  }

  /**
   * The contract of one exchange. It fails exactly when the request does not
   * conform, the copy of a scripted payload throws, or the scripted status
   * is outside 100..999. A failed assertion is reported with the first
   * mismatch and nothing scripted reaches the response. A failed copy is
   * reported as such, after the scripted headers were added and before any
   * status was set. A refused status is reported with its code, after the
   * headers and the payload were written. On success the response carries
   * the scripted headers, the scripted status and the payload.
   */
  lemma ServeContract(h: RequestHandler, req: Request, copyFails: bool)
    ensures var r := Serve(h, req, copyFails);
      && (r.fault.None? <==>
            Conforms(h, req) && !(h.contentToSend.Some? && copyFails) && ValidStatus(h.statusCodeToSend))
      && (!Conforms(h, req) ==>
            Validate(h, req).Some? && r.response == Untouched && r.fault == Some(AssertFailed(Validate(h, req).value)))
      && (Conforms(h, req) ==> r.response.headers == ScriptedHeaders(h))
      && (Conforms(h, req) && h.contentToSend.Some? && copyFails ==>
            r.fault == Some(CopyFailed) && r.response.status.None?)
      && (Conforms(h, req) && !(h.contentToSend.Some? && copyFails) && !ValidStatus(h.statusCodeToSend) ==>
            && r.fault == Some(StatusRejected(h.statusCodeToSend)) && r.response.status.None?
            && r.response.body == Payload(h))
      && (r.fault.None? ==>
            && r.response.status == Some(h.statusCodeToSend)
            && r.response.body == Payload(h))
  {
    ValidateNoneIff(h, req);
  }
}
