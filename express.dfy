/** The Express side of the adapter: the incoming request as the adapter reads
    it, and the outgoing response object whose methods the adapter calls. */
module Express {
  import opened Fetch

  /** A value of Express's `req.headers` map: an array of strings, one
      string, or anything else (which the adapter ignores). */
  datatype HeaderValue = Arr(values: seq<string>) | Str(value: string) | Other

  /** The parts of an incoming Express request the adapter reads. `hostHeader`
      is what `req.header("Host")` yields (None when the header is absent);
      `protocol`, `hostname` and `url` are Express's own computed fields;
      `headers` lists the entries of `req.headers` in iteration order; `body`
      is the request stream, as the chunks it would yield. */
  datatype ERequest = ERequest(
    httpMethod: string,
    protocol: string,
    hostHeader: Option<string>,
    hostname: string,
    url: string,
    headers: seq<(string, HeaderValue)>,
    body: Chunks)

  /** One call the adapter (or anyone else) makes on the response object.
      `DisableMutators` stands for the adapter overwriting six of the
      response's methods with functions that do nothing. */
  datatype Call =
    | Status(code: int)
    | SetHeader(name: string, value: string)
    | Write(chunk: seq<byte>)
    | End
    | Send(body: seq<byte>)
    | Json(body: seq<byte>)
    | RemoveHeader(name: string)
    | DisableMutators
  {
    /** The methods the adapter replaces by no-ops once it has answered. */
    predicate Guarded() {
      Status? || SetHeader? || End? || Send? || Json? || RemoveHeader?
    }
  }

  /** The observable state of a response object. `headers` lists the headers
      set so far, `chunks` the body chunks written, `endCount` how often the
      response was ended, `finalized` whether the mutators were disabled. */
  datatype ResponseState = ResponseState(
    status: int,
    headers: HeaderList,
    chunks: Chunks,
    endCount: nat,
    finalized: bool)

  /** The headers of `h` whose name is not `name`, in order. */
  function Without(h: HeaderList, name: string): (r: HeaderList)
    ensures forall i :: 0 <= i < |r| ==> r[i].0 != name
    ensures forall p :: p in h && p.0 != name ==> p in r
    ensures forall p :: p in r ==> p in h
    ensures (forall i :: 0 <= i < |h| ==> h[i].0 != name) ==> r == h
  {
    if h == [] then []
    else if h[0].0 == name then Without(h[1..], name)
    else [h[0]] + Without(h[1..], name)
  }

  /** Removing a name from a concatenation removes it from each part, so the
      headers that remain keep their relative order. */
  lemma {:induction false} WithoutAppend(a: HeaderList, b: HeaderList, name: string)
    ensures Without(a + b, name) == Without(a, name) + Without(b, name)
    decreases |a|
  {
    if a == [] {
      assert a + b == b;
    } else {
      assert (a + b)[1..] == a[1..] + b;
      WithoutAppend(a[1..], b, name);
    }
  }

  /** The effect of one call. Once finalized, the guarded calls do nothing;
      `Write` is not among the replaced methods and still appends. */
  function Step(s: ResponseState, c: Call): (r: ResponseState)
    ensures s.finalized && c.Guarded() ==> r == s
    ensures r.finalized <==> s.finalized || c.DisableMutators?
    ensures c.Write? ==> r.chunks == s.chunks + [c.chunk]
    ensures !(c.Write? || c.Send? || c.Json?) ==> r.chunks == s.chunks
    ensures !(c.SetHeader? || c.RemoveHeader?) ==> r.headers == s.headers
    ensures r.endCount == if !s.finalized && (c.End? || c.Send? || c.Json?) then s.endCount + 1 else s.endCount
  {
    if s.finalized && c.Guarded() then s
    else match c
      case Status(code) => s.(status := code)
      case SetHeader(name, value) => s.(headers := s.headers + [(name, value)])
      case Write(chunk) => s.(chunks := s.chunks + [chunk])
      case End => s.(endCount := s.endCount + 1)
      case Send(body) => s.(chunks := s.chunks + [body], endCount := s.endCount + 1)
      case Json(body) => s.(chunks := s.chunks + [body], endCount := s.endCount + 1)
      case RemoveHeader(name) => s.(headers := Without(s.headers, name))
      case DisableMutators => s.(finalized := true)
  }

  /** The state after making `calls` in order, starting from `s`. */
  function Run(s: ResponseState, calls: seq<Call>): ResponseState
    decreases |calls|
  {
    if calls == [] then s else Run(Step(s, calls[0]), calls[1..])
  }

  /** Making `a` then `b` is making `a + b`. */
  lemma {:induction false} RunAppend(s: ResponseState, a: seq<Call>, b: seq<Call>)
    ensures Run(s, a + b) == Run(Run(s, a), b)
    decreases |a|
  {
    if a == [] {
      assert a + b == b;
    } else {
      assert (a + b)[1..] == a[1..] + b;
      RunAppend(Step(s, a[0]), a[1..], b);
    }
  }

  /** Once finalized, any sequence of guarded calls leaves the state as it is. */
  lemma {:induction false} GuardedCallsChangeNothing(s: ResponseState, calls: seq<Call>)
    requires s.finalized
    requires forall i :: 0 <= i < |calls| ==> calls[i].Guarded()
    ensures Run(s, calls) == s
    decreases |calls|
  {
    if calls != [] {
      assert Step(s, calls[0]) == s;
      GuardedCallsChangeNothing(s, calls[1..]);
    }
  }

  /** No call ever clears the finalized flag. */
  lemma {:induction false} FinalizedIsPermanent(s: ResponseState, calls: seq<Call>)
    requires s.finalized
    ensures Run(s, calls).finalized
    decreases |calls|
  {
    if calls != [] {
      FinalizedIsPermanent(Step(s, calls[0]), calls[1..]);
    }
  }

  /** The Express response object. Its fields are the state the adapter
      changes; `calls` records every method call made on it, and Valid()
      says the fields are what replaying those calls from the state the
      object was created in gives. */
  class NativeResponse {
    var status: int
    var headers: HeaderList
    var chunks: Chunks
    var endCount: nat
    var finalized: bool
    ghost const initial: ResponseState
    ghost var calls: seq<Call>

    function State(): ResponseState
      reads this
    {
      ResponseState(status, headers, chunks, endCount, finalized)
    }

    ghost predicate Valid()
      reads this
    {
      State() == Run(initial, calls)
    }

    constructor (start: ResponseState)
      ensures Valid() && State() == start && calls == []
    {
      status, headers, chunks := start.status, start.headers, start.chunks;
      endCount, finalized := start.endCount, start.finalized;
      initial := start;
      calls := [];
    }

    /** Records `c` in the log; the fields must already hold Step's result. */
    ghost method Record(before: ResponseState, c: Call)
      requires Run(initial, calls) == before && State() == Step(before, c)
      modifies this`calls
      ensures Valid() && calls == old(calls) + [c]
    {
      RunAppend(initial, calls, [c]);
      calls := calls + [c];
    }

    /** `res.status(code)`. */
    method Status(code: int)
      requires Valid()
      modifies this
      ensures Valid() && calls == old(calls) + [Call.Status(code)]
      ensures State() == Step(old(State()), Call.Status(code))
      ensures old(finalized) ==> State() == old(State())
    {
      if !finalized {
        status := code;
      }
      Record(old(State()), Call.Status(code));
    }

    /** `res.setHeader(name, value)`. */
    method SetHeader(name: string, value: string)
      requires Valid()
      modifies this
      ensures Valid() && calls == old(calls) + [Call.SetHeader(name, value)]
      ensures State() == Step(old(State()), Call.SetHeader(name, value))
      ensures old(finalized) ==> State() == old(State())
    {
      if !finalized {
        headers := headers + [(name, value)];
      }
      Record(old(State()), Call.SetHeader(name, value));
    }

    /** `res.write(chunk)`, which the adapter never disables. */
    method Write(chunk: seq<byte>)
      requires Valid()
      modifies this
      ensures Valid() && calls == old(calls) + [Call.Write(chunk)]
      ensures State() == Step(old(State()), Call.Write(chunk))
      ensures chunks == old(chunks) + [chunk]
    {
      chunks := chunks + [chunk];
      Record(old(State()), Call.Write(chunk));
    }

    /** `res.end()`. */
    method End()
      requires Valid()
      modifies this
      ensures Valid() && calls == old(calls) + [Call.End]
      ensures State() == Step(old(State()), Call.End)
      ensures old(finalized) ==> State() == old(State())
    {
      if !finalized {
        endCount := endCount + 1;
      }
      Record(old(State()), Call.End);
    }

    /** `res.send(body)`: writes the body and ends the response. */
    method Send(body: seq<byte>)
      requires Valid()
      modifies this
      ensures Valid() && calls == old(calls) + [Call.Send(body)]
      ensures State() == Step(old(State()), Call.Send(body))
      ensures old(finalized) ==> State() == old(State())
    {
      if !finalized {
        chunks := chunks + [body];
        endCount := endCount + 1;
      }
      Record(old(State()), Call.Send(body));
    }

    /** `res.json(value)`, given the value's serialized bytes. */
    method Json(body: seq<byte>)
      requires Valid()
      modifies this
      ensures Valid() && calls == old(calls) + [Call.Json(body)]
      ensures State() == Step(old(State()), Call.Json(body))
      ensures old(finalized) ==> State() == old(State())
    {
      if !finalized {
        chunks := chunks + [body];
        endCount := endCount + 1;
      }
      Record(old(State()), Call.Json(body));
    }

    /** `res.removeHeader(name)`. */
    method RemoveHeader(name: string)
      requires Valid()
      modifies this
      ensures Valid() && calls == old(calls) + [Call.RemoveHeader(name)]
      ensures State() == Step(old(State()), Call.RemoveHeader(name))
      ensures old(finalized) ==> State() == old(State())
    {
      if !finalized {
        headers := Without(headers, name);
      }
      Record(old(State()), Call.RemoveHeader(name));
    }

    /** The adapter's replacement of status, send, end, json, removeHeader
        and setHeader by functions that return the response and do nothing. */
    method DisableMutators()
      requires Valid()
      modifies this
      ensures Valid() && calls == old(calls) + [Call.DisableMutators]
      ensures State() == old(State()).(finalized := true)
    {
      finalized := true;
      Record(old(State()), Call.DisableMutators);
    }
  }
}
