/** The logging interceptor around every unary call: it renders the request,
    calls the handler, renders the response or the error, and emits one audit
    line, leaving the handler's outcome untouched. */
module Interceptor {
  import opened Rpc
  import opened Strings
  import opened Messages
  import opened Matcher
  import opened Service

  /** What the interceptor sees of a call: the procedure name and the request
      message, which may be absent. */
  datatype AnyRequest<M> = AnyRequest(procedure: string, msg: Option<M>)

  /** A unary handler. A successful outcome may carry no message (a nil response). */
  type UnaryFunc<!M, R> = AnyRequest<M> -> Outcome<Option<R>>

  /** A handler's outcome as the interceptor receives it: a success always carries a message. */
  function AsUnary<R>(outcome: Outcome<R>): Outcome<Option<R>>
  {
    match outcome
    case Ok(v) => Ok(Some(v))
    case Err(e) => Err(e)
  }

  /** The JSON rendering of an optional message: "" when the message is absent
      or when `marshal` (standing for protojson.Marshal) fails on it. */
  function Repr<M>(msg: Option<M>, marshal: M -> Option<string>): string
  {
    match msg
    case None => ""
    case Some(m) => match marshal(m) case None => "" case Some(json) => json
  }

  /** The audit line for a call to `procedure` whose request renders as `request`. */
  function AuditLine<R>(procedure: string, request: string, outcome: Outcome<Option<R>>,
                        marshal: R -> Option<string>): string
  {
    match outcome
    case Err(e) =>
      "RPC Call [" + procedure + "] - Request: " + request + " - Error: " + ErrorText(e)
    case Ok(resp) =>
      "RPC Call [" + procedure + "] - Request: " + request + " - Response: " + Repr(resp, marshal)
  }

  /** LoggingInterceptor.WrapUnary around `next`, applied to one call: the outcome
      is exactly that of `next`, and the call yields exactly one audit line. */
  method WrapUnary<M, R>(next: UnaryFunc<M, R>, req: AnyRequest<M>,
                         marshalReq: M -> Option<string>, marshalResp: R -> Option<string>)
    returns (resp: Outcome<Option<R>>, line: string)
    ensures resp == next(req)
    ensures line == AuditLine(req.procedure, Repr(req.msg, marshalReq), next(req), marshalResp)
  {
    var procedure := req.procedure;
    var reqJSON := "";
    if req.msg.Some? {
      var json := marshalReq(req.msg.value);
      if json.Some? {
        reqJSON := json.value;
      }
    }
    resp := next(req);
    if resp.Err? {
      line := "RPC Call [" + procedure + "] - Request: " + reqJSON + " - Error: " + ErrorText(resp.error);
    } else {
      var respJSON := "";
      if resp.value.Some? {
        var json := marshalResp(resp.value.value);
        if json.Some? {
          respJSON := json.value;
        }
      }
      line := "RPC Call [" + procedure + "] - Request: " + reqJSON + " - Response: " + respJSON;
    }
  }

  /** Every audit line starts by naming the call, so it contains "RPC Call", the
      procedure and the rendered request. */
  lemma AuditLineNamesCall<R>(procedure: string, request: string, outcome: Outcome<Option<R>>,
                              marshal: R -> Option<string>)
    ensures var line := AuditLine(procedure, request, outcome, marshal);
      && IsPrefix("RPC Call [" + procedure + "] - Request: " + request, line)
      && Contains(line, "RPC Call") && Contains(line, procedure) && Contains(line, request)
  {
    var line := AuditLine(procedure, request, outcome, marshal);
    var opening := "RPC Call [" + procedure;
    var front := opening + "] - Request: ";
    var head := front + request;
    var tail := if outcome.Err? then " - Error: " + ErrorText(outcome.error)
                else " - Response: " + Repr(outcome.value, marshal);
    assert line == head + tail;
    ContainsPrefix(head, tail);
    ContainsSuffix(front, request);
    ContainsTransitive(line, head, request);
    ContainsPrefix(front, request);
    ContainsPrefix(opening, "] - Request: ");
    ContainsTransitive(line, head, front);
    ContainsTransitive(line, front, opening);
    ContainsSuffix("RPC Call [", procedure);
    ContainsTransitive(line, opening, procedure);
    ContainsPrefix("RPC Call [", procedure);
    ContainsTransitive(line, opening, "RPC Call [");
    ContainsPrefix("RPC Call", " [");
    assert "RPC Call" + " [" == "RPC Call [";
    ContainsTransitive(line, "RPC Call [", "RPC Call");
  }

  /** A failed call's line ends with " - Error: " and the error's text, so it
      carries "Error", that text and hence the error's message. */
  lemma AuditLineError<R>(procedure: string, request: string, e: RpcError, marshal: R -> Option<string>)
    ensures var line := AuditLine(procedure, request, Err(e), marshal);
      && line[|line| - |ErrorText(e)| - 10..] == " - Error: " + ErrorText(e)
      && Contains(line, "Error") && Contains(line, ErrorText(e)) && Contains(line, e.message)
  {
    var line := AuditLine(procedure, request, Err(e), marshal);
    var text := ErrorText(e);
    var front := "RPC Call [" + procedure + "] - Request: " + request;
    var tail := " - Error: " + text;
    assert line == front + tail;
    assert line[|front|..] == tail;
    ContainsSuffix(front, tail);
    ContainsSuffix(" - Error: ", text);
    ContainsTransitive(line, tail, text);
    ContainsTransitive(line, text, e.message);
    ContainsPrefix(" - Error: ", text);
    ErrorTagNamesError();
    ContainsTransitive(tail, " - Error: ", "Error");
    ContainsTransitive(line, tail, "Error");
  }

  /** The separator in front of an error's text contains the word "Error". */
  lemma ErrorTagNamesError()
    ensures Contains(" - Error: ", "Error")
  {
    ContainsInfix(" - ", "Error", ": ");
    assert " - " + "Error" + ": " == " - Error: ";
  }

  /** A successful call's line ends with " - Response: " and the rendered response. */
  lemma AuditLineResponse<R>(procedure: string, request: string, resp: Option<R>, marshal: R -> Option<string>)
    ensures var line := AuditLine(procedure, request, Ok(resp), marshal);
      && line[|line| - |Repr(resp, marshal)| - 13..] == " - Response: " + Repr(resp, marshal)
      && Contains(line, Repr(resp, marshal))
  {
    var line := AuditLine(procedure, request, Ok(resp), marshal);
    var head := "RPC Call [" + procedure + "] - Request: " + request + " - Response: ";
    assert line == head + Repr(resp, marshal);
    ContainsSuffix(head, Repr(resp, marshal));
  }

  /** A failure and a success of the same call never produce the same line:
      right after the request, one reads " - Error: " and the other " - Response: ". */
  lemma AuditLineDistinguishesOutcome<R>(procedure: string, request: string, e: RpcError,
                                         resp: Option<R>, marshal: R -> Option<string>)
    ensures AuditLine(procedure, request, Err(e), marshal) != AuditLine(procedure, request, Ok(resp), marshal)
  {
    var head := "RPC Call [" + procedure + "] - Request: " + request;
    var failed := AuditLine(procedure, request, Err(e), marshal);
    var succeeded := AuditLine(procedure, request, Ok(resp), marshal);
    assert failed == head + " - Error: " + ErrorText(e);
    assert succeeded == head + " - Response: " + Repr(resp, marshal);
    assert failed[|head| + 3] == 'E';
    assert succeeded[|head| + 3] == 'R';
  }

  /** A call to one of the unimplemented operations is audited as an error whose
      line names the operation and says "is not implemented". */
  lemma UnimplementedCallAudited<R>(procedure: string, request: string, operation: string,
                                    marshal: R -> Option<string>)
    ensures var line := AuditLine(procedure, request, Err(NotImplemented(operation)), marshal);
      Contains(line, "RPC Call") && Contains(line, "Error") &&
      Contains(line, operation) && Contains(line, "is not implemented")
  {
    var e := NotImplemented(operation);
    var line := AuditLine(procedure, request, Err(e), marshal);
    AuditLineNamesCall(procedure, request, Err(e), marshal);
    AuditLineError(procedure, request, e, marshal);
    ContainsTransitive(line, ErrorText(e), operation);
    ContainsTransitive(line, ErrorText(e), "is not implemented");
  }

  /** The logged HelloWorld call for "test": through the stub's own table the
      outcome is the canned greeting, and the line carries "RPC Call", the
      procedure, the request data and the greeting whenever the procedure names
      HelloWorld and the request's and response's JSON hold their strings. */
  lemma HelloWorldTestCallLogged(procedure: string, marshalReq: HelloWorldRequest -> Option<string>,
                                 marshalResp: HelloWorldResponse -> Option<string>)
    requires Contains(procedure, "HelloWorld")
    requires marshalReq(HelloWorldRequest("test")).Some?
    requires Contains(marshalReq(HelloWorldRequest("test")).value, "test")
    requires marshalResp(HelloWorldResponse("Hello, test!")).Some?
    requires Contains(marshalResp(HelloWorldResponse("Hello, test!")).value, "Hello, test!")
    ensures var req := HelloWorldRequest("test");
      var outcome := Lookup(req, NewStubService().helloWorldMappings);
      var lifted := AsUnary(outcome);
      var line := AuditLine(procedure, Repr(Some(req), marshalReq), lifted, marshalResp);
      && lifted == Ok(Some(HelloWorldResponse("Hello, test!")))
      && Contains(line, "RPC Call") && Contains(line, "HelloWorld")
      && Contains(line, "test") && Contains(line, "Hello, test!")
  {
    var req := HelloWorldRequest("test");
    HelloWorldTable("test");
    assert "Hello, " + "test" + "!" == "Hello, test!";
    var lifted: Outcome<Option<HelloWorldResponse>> := Ok(Some(HelloWorldResponse("Hello, test!")));
    var request := Repr(Some(req), marshalReq);
    assert request == marshalReq(req).value;
    var line := AuditLine(procedure, request, lifted, marshalResp);
    AuditLineNamesCall(procedure, request, lifted, marshalResp);
    ContainsTransitive(line, procedure, "HelloWorld");
    ContainsTransitive(line, request, "test");
    AuditLineResponse(procedure, request, Some(HelloWorldResponse("Hello, test!")), marshalResp);
    var json := marshalResp(HelloWorldResponse("Hello, test!")).value;
    assert Repr(Some(HelloWorldResponse("Hello, test!")), marshalResp) == json;
    ContainsTransitive(line, json, "Hello, test!");
  }

  /** The logged HelloWorld call for "unknown": no entry of the stub's table
      matches, so the outcome is NotFound and the line carries "RPC Call" and "Error". */
  lemma HelloWorldUnknownCallLogged(procedure: string, marshalReq: HelloWorldRequest -> Option<string>,
                                    marshalResp: HelloWorldResponse -> Option<string>)
    ensures var req := HelloWorldRequest("unknown");
      var outcome := Lookup(req, NewStubService().helloWorldMappings);
      var lifted := AsUnary(outcome);
      var line := AuditLine(procedure, Repr(Some(req), marshalReq), lifted, marshalResp);
      && lifted == Err(NoMatch)
      && Contains(line, "RPC Call") && Contains(line, "Error")
  {
    var req := HelloWorldRequest("unknown");
    HelloWorldTable("unknown");
    var lifted: Outcome<Option<HelloWorldResponse>> := Err(NoMatch);
    var request := Repr(Some(req), marshalReq);
    AuditLineNamesCall(procedure, request, lifted, marshalResp);
    AuditLineError(procedure, request, NoMatch, marshalResp);
  }
}
