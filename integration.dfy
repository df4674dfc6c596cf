/** The middleware `integrateFederation` returns: translate the request, run
    the federation handler, and either leave the exchange to Express's own
    handlers or project the handler's response and seal the Express response. */
module Integration {
  import opened Fetch
  import opened Express
  import opened RequestTranslation
  import opened ResponseProjection

  /** What the federation handler does with the request: answer it itself,
      invoke one of the two callbacks and return the callback's response, or
      reject (its promise fails before any callback ran). */
  datatype HandlerOutcome = Responded(response: FetchResponse) | DelegatedNotFound | DelegatedNotAcceptable | Rejected

  /** The placeholder the not-found callback returns; it is never sent. */
  const NotFoundResponse: FetchResponse := FetchResponse(404, [], TextBody("Not found"))

  /** The response the not-acceptable callback returns. */
  const NotAcceptableResponse: FetchResponse :=
    FetchResponse(406, [("Content-Type", "text/plain"), ("Vary", "Accept")], TextBody("Not acceptable"))

  /** The adapter's decision after the federation call: leave the exchange
      alone when the not-found callback ran, or when the not-acceptable
      callback ran and Express has matched a route. */
  function SkipsProjection(notFound: bool, notAcceptable: bool, routeMatched: bool): (skips: bool)
    ensures skips ==> notFound || notAcceptable
    ensures !notAcceptable ==> (skips <==> notFound)
    ensures !notFound && notAcceptable ==> (skips <==> routeMatched)
  {
    notFound || (notAcceptable && routeMatched)
  }

  /** The state of a response that was answered with `response` and sealed:
      the projection's status, headers and body, one more end, finalized. */
  function Answered(s: ResponseState, response: FetchResponse): ResponseState {
    s.(status := response.status,
       headers := s.headers + response.headers,
       chunks := s.chunks + BodyChunks(response.body),
       endCount := s.endCount + 1,
       finalized := true)
  }

  /** The calls the adapter makes when it answers: the projection, one end,
      and the replacement of the mutators. */
  function AnswerCalls(response: FetchResponse): seq<Call> {
    ProjectionCalls(response) + [Call.End, Call.DisableMutators]
  }

  /** Answering a response that was not sealed yet leaves it in the Answered state. */
  lemma AnswerEffect(s: ResponseState, response: FetchResponse)
    requires !s.finalized
    ensures Run(s, AnswerCalls(response)) == Answered(s, response)
  {
    var p := ProjectionCalls(response);
    RunAppend(s, p, [Call.End, Call.DisableMutators]);
    ProjectionEffect(s, response);
    var projected := Run(s, p);
    assert Run(projected, [Call.End, Call.DisableMutators])
        == Run(Step(projected, Call.End), [Call.DisableMutators]);
  }

  /** Whatever status, send, end, json, removeHeader or setHeader calls
      Express makes after the adapter answered, the response stays as the
      adapter left it: in particular it was ended exactly once more. */
  lemma {:induction false} LaterCallsIgnored(s: ResponseState, response: FetchResponse, later: seq<Call>)
    requires !s.finalized
    requires forall i :: 0 <= i < |later| ==> later[i].Guarded()
    ensures Run(s, AnswerCalls(response) + later) == Answered(s, response)
    ensures Run(s, AnswerCalls(response) + later).endCount == s.endCount + 1
  {
    RunAppend(s, AnswerCalls(response), later);
    AnswerEffect(s, response);
    GuardedCallsChangeNothing(Answered(s, response), later);
  }

  /** A successful answer with status 200, one header and a two-chunk body,
      made on a fresh response: that status, that header, both chunks in
      order, ended once. */
  lemma SuccessScenario(c1: seq<byte>, c2: seq<byte>)
    ensures var start := ResponseState(200, [], [], 0, false);
            var r := FetchResponse(200, [("Content-Type", "application/activity+json")], Some([c1, c2]));
            var s := Run(start, AnswerCalls(r));
            s.status == 200 && s.headers == [("Content-Type", "application/activity+json")]
            && s.chunks == [c1, c2] && s.endCount == 1 && s.finalized
  {
    var start := ResponseState(200, [], [], 0, false);
    var r := FetchResponse(200, [("Content-Type", "application/activity+json")], Some([c1, c2]));
    AnswerEffect(start, r);
  }

  /** `federation.fetch` with the two callbacks: each callback raises its
      flag and calls `next` once, and the handler returns the callback's
      response; a handler that answers itself raises no flag; a rejected call
      yields no response, and the rest of the exchange's callback is skipped. */
  method CallFederation(outcome: HandlerOutcome)
    returns (response: Option<FetchResponse>, notFound: bool, notAcceptable: bool, nextCalls: nat)
    ensures notFound <==> outcome.DelegatedNotFound?
    ensures notAcceptable <==> outcome.DelegatedNotAcceptable?
    ensures !(notFound && notAcceptable)
    ensures response.None? <==> outcome.Rejected?
    ensures nextCalls == if notFound || notAcceptable then 1 else 0
    ensures outcome.Responded? ==> response == Some(outcome.response)
    ensures notFound ==> response.Some? && response.value.status == 404
    ensures notAcceptable ==> response == Some(NotAcceptableResponse)
  {
    notFound := false;
    notAcceptable := false;
    nextCalls := 0;
    match outcome {
      case Responded(r) =>
        response := Some(r);
      case DelegatedNotFound =>
        notFound := true;
        nextCalls := nextCalls + 1;
        response := Some(NotFoundResponse);
      case DelegatedNotAcceptable =>
        notAcceptable := true;
        nextCalls := nextCalls + 1;
        response := Some(NotAcceptableResponse);
      case Rejected =>
        response := None;
    }
  }

  /** The middleware for one exchange. `routeMatched` is whether Express's
      `req.route` is set when the federation call has returned. */
  method HandleRequest(req: ERequest, outcome: HandlerOutcome, routeMatched: bool, res: NativeResponse)
    returns (request: Request, nextCalls: nat, reader: BodyReader?)
    requires res.Valid() && !res.finalized
    modifies res
    ensures res.Valid()
    ensures request.headers == Flatten(req.headers)
    ensures request.body.None? <==> !CarriesBody(req.httpMethod)
    ensures nextCalls == if outcome.DelegatedNotFound? || outcome.DelegatedNotAcceptable? then 1 else 0
    ensures res.calls == old(res.calls)
        <==> outcome.Rejected? || SkipsProjection(outcome.DelegatedNotFound?, outcome.DelegatedNotAcceptable?, routeMatched)
    ensures outcome.Rejected? ==> res.State() == old(res.State()) && reader == null
    ensures SkipsProjection(outcome.DelegatedNotFound?, outcome.DelegatedNotAcceptable?, routeMatched)
        ==> res.State() == old(res.State()) && reader == null
    ensures outcome.Responded? ==>
              && res.calls == old(res.calls) + AnswerCalls(outcome.response)
              && res.State() == Answered(old(res.State()), outcome.response)
    ensures outcome.DelegatedNotAcceptable? && !routeMatched ==>
              && res.calls == old(res.calls) + AnswerCalls(NotAcceptableResponse)
              && res.State() == Answered(old(res.State()), NotAcceptableResponse)
              && res.status == 406
              && res.headers == old(res.headers) + [("Content-Type", "text/plain"), ("Vary", "Accept")]
    ensures outcome.Responded? ==> (reader != null <==> outcome.response.body.Some?)
    ensures outcome.DelegatedNotAcceptable? && !routeMatched ==>
              reader != null && reader.source == NotAcceptableResponse.body.value
    ensures reader != null ==> reader.pos == |reader.source| && reader.releaseCount == 1
  {
    request := FromERequest(req);
    var answer, notFound, notAcceptable;
    answer, notFound, notAcceptable, nextCalls := CallFederation(outcome);
    if answer.None? || notFound || (notAcceptable && routeMatched) {
      reader := null;
      return;
    }
    var response := answer.value;
    ghost var start := res.calls;
    ghost var startState := res.State();
    reader := SetEResponse(res, response);
    res.End();
    res.DisableMutators();
    assert res.calls == start + AnswerCalls(response);
    RunAppend(res.initial, start, AnswerCalls(response));
    AnswerEffect(startState, response);
  }
}
