/** The canned-response matcher: a table of (request, response) pairs, searched
    in order for the first request structurally equal to the incoming one. */
module Matcher {
  import opened Rpc

  /** One canned pair of a mapping table. */
  datatype Mapping<Req, Resp> = Mapping(request: Req, response: Resp)

  /** The error returned when no request of the table matches. */
  const NoMatch := RpcError(NotFound, "no matching request found")

  /** The outcome FindMatchingResponse computes, as a first-match recursion. */
  function Lookup<Req(==), Resp>(req: Req, mappings: seq<Mapping<Req, Resp>>): Outcome<Resp>
  {
    if mappings == [] then Err(NoMatch)
    else if mappings[0].request == req then Ok(mappings[0].response)
    else Lookup(req, mappings[1..])
  }

  /** Lookup fails with NoMatch exactly when no entry's request equals `req`,
      and otherwise answers with the response of the first entry that does. */
  lemma {:induction false} LookupFirstMatch<Req, Resp>(req: Req, mappings: seq<Mapping<Req, Resp>>)
    ensures Lookup(req, mappings).Err? <==> forall i :: 0 <= i < |mappings| ==> mappings[i].request != req
    ensures Lookup(req, mappings).Err? ==> Lookup(req, mappings).error == NoMatch
    ensures forall i :: 0 <= i < |mappings| && mappings[i].request == req &&
                        (forall j :: 0 <= j < i ==> mappings[j].request != req) ==>
                        Lookup(req, mappings) == Ok(mappings[i].response)
  {
    if mappings != [] && mappings[0].request != req {
      var rest := mappings[1..];
      LookupFirstMatch(req, rest);
      assert forall i :: 1 <= i < |mappings| ==> mappings[i] == rest[i - 1];
    }
  }

  /** Once some entry of `mappings` matches, entries appended after them are
      never consulted, so a later duplicate request cannot change the answer. */
  lemma {:induction false} LookupIgnoresLaterEntries<Req, Resp>(
    req: Req, mappings: seq<Mapping<Req, Resp>>, later: seq<Mapping<Req, Resp>>)
    requires exists i :: 0 <= i < |mappings| && mappings[i].request == req
    ensures Lookup(req, mappings + later) == Lookup(req, mappings)
  {
    if mappings[0].request != req {
      var i :| 0 <= i < |mappings| && mappings[i].request == req;
      assert mappings[1..][i - 1] == mappings[i];
      assert (mappings + later)[1..] == mappings[1..] + later;
      LookupIgnoresLaterEntries(req, mappings[1..], later);
    }
  }

  /** findMatchingResponse: walks the table in order and returns the response of
      the first pair whose request equals `req`, or NotFound. */
  method FindMatchingResponse<Req(==), Resp>(req: Req, mappings: seq<Mapping<Req, Resp>>)
    returns (r: Outcome<Resp>)
    ensures r == Lookup(req, mappings)
  {
    var i := 0;
    while i < |mappings|
      invariant 0 <= i <= |mappings|
      invariant Lookup(req, mappings[i..]) == Lookup(req, mappings)
    {
      if mappings[i].request == req {
        return Ok(mappings[i].response);
      }
      assert mappings[i..][1..] == mappings[i + 1..];
      i := i + 1;
    }
    return Err(NoMatch);
  }
}
