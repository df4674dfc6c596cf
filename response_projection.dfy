/** Projection of a standard Response onto the Express response object:
    status, then one setHeader per header entry, then the body chunks in the
    order a stream reader yields them. */
module ResponseProjection {
  import opened Fetch
  import opened Express

  /** A reader locked onto a response body stream. */
  class BodyReader {
    const source: Chunks
    var pos: nat
    var releaseCount: nat

    ghost predicate Valid()
      reads this
    {
      pos <= |source|
    }

    /** `body.getReader()`: a fresh reader, holding the lock, at the start. */
    constructor (body: Chunks)
      ensures Valid() && source == body && pos == 0 && releaseCount == 0
    {
      source := body;
      pos := 0;
      releaseCount := 0;
    }

    /** `reader.read()`: the next chunk, or `done` once the stream is exhausted. */
    method Read() returns (done: bool, value: seq<byte>)
      requires Valid() && releaseCount == 0
      modifies this`pos
      ensures Valid()
      ensures done <==> old(pos) == |source|
      ensures !done ==> value == source[old(pos)] && pos == old(pos) + 1
      ensures done ==> pos == old(pos)
    {
      done := pos == |source|;
      if done {
        value := [];
      } else {
        value := source[pos];
        pos := pos + 1;
      }
    }

    /** `reader.releaseLock()`. */
    method ReleaseLock()
      modifies this`releaseCount
      ensures releaseCount == old(releaseCount) + 1
    {
      releaseCount := releaseCount + 1;
    }
  }

  /** One setHeader call per header entry, in iteration order. */
  function HeaderCalls(h: HeaderList): seq<Call> {
    seq(|h|, i requires 0 <= i < |h| => Call.SetHeader(h[i].0, h[i].1))
  }

  /** One write call per chunk, in read order. */
  function WriteCalls(chunks: Chunks): seq<Call> {
    seq(|chunks|, i requires 0 <= i < |chunks| => Call.Write(chunks[i]))
  }

  /** The chunks a body yields; nothing when there is no body. */
  function BodyChunks(body: Option<Chunks>): Chunks {
    match body
    case None => []
    case Some(chunks) => chunks
  }

  /** The calls `setEResponse` makes on the response, in order. */
  function ProjectionCalls(response: FetchResponse): seq<Call> {
    [Call.Status(response.status)] + HeaderCalls(response.headers) + WriteCalls(BodyChunks(response.body))
  }

  /** The header entries set by a sequence of calls, in call order. */
  function HeadersSetBy(calls: seq<Call>): HeaderList
    decreases |calls|
  {
    if calls == [] then []
    else if calls[0].SetHeader? then [(calls[0].name, calls[0].value)] + HeadersSetBy(calls[1..])
    else HeadersSetBy(calls[1..])
  }

  /** The chunks written by a sequence of calls, in call order. */
  function ChunksWrittenBy(calls: seq<Call>): Chunks
    decreases |calls|
  {
    if calls == [] then []
    else if calls[0].Write? then [calls[0].chunk] + ChunksWrittenBy(calls[1..])
    else ChunksWrittenBy(calls[1..])
  }

  /** No header is set after a body chunk has been written. */
  predicate HeadersBeforeBody(calls: seq<Call>) {
    forall i, j :: 0 <= i < j < |calls| && calls[i].Write? ==> !calls[j].SetHeader?
  }

  lemma {:induction false} HeadersSetByAppend(a: seq<Call>, b: seq<Call>)
    ensures HeadersSetBy(a + b) == HeadersSetBy(a) + HeadersSetBy(b)
    decreases |a|
  {
    if a == [] {
      assert a + b == b;
    } else {
      assert (a + b)[1..] == a[1..] + b;
      HeadersSetByAppend(a[1..], b);
    }
  }

  lemma {:induction false} ChunksWrittenByAppend(a: seq<Call>, b: seq<Call>)
    ensures ChunksWrittenBy(a + b) == ChunksWrittenBy(a) + ChunksWrittenBy(b)
    decreases |a|
  {
    if a == [] {
      assert a + b == b;
    } else {
      assert (a + b)[1..] == a[1..] + b;
      ChunksWrittenByAppend(a[1..], b);
    }
  }

  lemma {:induction false} HeaderCallsSet(h: HeaderList)
    ensures HeadersSetBy(HeaderCalls(h)) == h
    ensures ChunksWrittenBy(HeaderCalls(h)) == []
    decreases |h|
  {
    if h != [] {
      assert HeaderCalls(h)[1..] == HeaderCalls(h[1..]);
      HeaderCallsSet(h[1..]);
    }
  }

  lemma {:induction false} WriteCallsWrite(chunks: Chunks)
    ensures ChunksWrittenBy(WriteCalls(chunks)) == chunks
    ensures HeadersSetBy(WriteCalls(chunks)) == []
    decreases |chunks|
  {
    if chunks != [] {
      assert WriteCalls(chunks)[1..] == WriteCalls(chunks[1..]);
      WriteCallsWrite(chunks[1..]);
    }
  }

  /** Projection first sets the status, then sets exactly the response's
      headers in order, all before any chunk; the chunks written are exactly
      the body's chunks, in read order, each once (none without a body). */
  lemma ProjectionOrder(response: FetchResponse)
    ensures ProjectionCalls(response)[0] == Call.Status(response.status)
    ensures HeadersSetBy(ProjectionCalls(response)) == response.headers
    ensures ChunksWrittenBy(ProjectionCalls(response)) == BodyChunks(response.body)
    ensures response.body.None? ==> ChunksWrittenBy(ProjectionCalls(response)) == []
    ensures HeadersBeforeBody(ProjectionCalls(response))
  {
    var head := [Call.Status(response.status)];
    var hs := HeaderCalls(response.headers);
    var ws := WriteCalls(BodyChunks(response.body));
    HeaderCallsSet(response.headers);
    WriteCallsWrite(BodyChunks(response.body));
    HeadersSetByAppend(head + hs, ws);
    HeadersSetByAppend(head, hs);
    ChunksWrittenByAppend(head + hs, ws);
    ChunksWrittenByAppend(head, hs);
    assert HeadersSetBy(head) == [] && ChunksWrittenBy(head) == [] by {
      assert head[1..] == [];
    }
    var calls := ProjectionCalls(response);
    forall i, j | 0 <= i < j < |calls| && calls[i].Write?
      ensures !calls[j].SetHeader?
    {
      assert i >= 1 + |hs|;
    }
  }

  /** Setting the headers in order appends them to the response's headers. */
  lemma {:induction false} RunHeaderCalls(s: ResponseState, h: HeaderList)
    requires !s.finalized
    ensures Run(s, HeaderCalls(h)) == s.(headers := s.headers + h)
    decreases |h|
  {
    if h == [] {
      assert s.headers + h == s.headers;
    } else {
      assert HeaderCalls(h)[1..] == HeaderCalls(h[1..]);
      var next := Step(s, HeaderCalls(h)[0]);
      RunHeaderCalls(next, h[1..]);
      assert next.headers + h[1..] == s.headers + h;
    }
  }

  /** Writing the chunks in order appends them to the body written so far,
      whether or not the response was finalized. */
  lemma {:induction false} RunWriteCalls(s: ResponseState, chunks: Chunks)
    ensures Run(s, WriteCalls(chunks)) == s.(chunks := s.chunks + chunks)
    decreases |chunks|
  {
    if chunks == [] {
      assert s.chunks + chunks == s.chunks;
    } else {
      assert WriteCalls(chunks)[1..] == WriteCalls(chunks[1..]);
      var next := Step(s, WriteCalls(chunks)[0]);
      RunWriteCalls(next, chunks[1..]);
      assert next.chunks + chunks[1..] == s.chunks + chunks;
    }
  }

  /** The state a projection leaves: the response's status, its headers after
      those already set, its body after what was already written; the end
      count and the finalized flag untouched. */
  lemma ProjectionEffect(s: ResponseState, response: FetchResponse)
    requires !s.finalized
    ensures Run(s, ProjectionCalls(response))
         == s.(status := response.status,
               headers := s.headers + response.headers,
               chunks := s.chunks + BodyChunks(response.body))
  {
    var head := [Call.Status(response.status)];
    var hs := HeaderCalls(response.headers);
    var ws := WriteCalls(BodyChunks(response.body));
    RunAppend(s, head + hs, ws);
    RunAppend(s, head, hs);
    var afterStatus := s.(status := response.status);
    assert Run(s, head) == afterStatus by {
      assert head[1..] == [];
    }
    RunHeaderCalls(afterStatus, response.headers);
    RunWriteCalls(afterStatus.(headers := s.headers + response.headers), BodyChunks(response.body));
  }

  /** `setEResponse`: the status, then each header, then (when there is a
      body) each chunk read until the reader reports `done`, after which the
      reader's lock is released. Returns the reader used, or null without a body. */
  method SetEResponse(res: NativeResponse, response: FetchResponse) returns (reader: BodyReader?)
    requires res.Valid() && !res.finalized
    modifies res
    ensures res.Valid()
    ensures res.calls == old(res.calls) + ProjectionCalls(response)
    ensures res.State() == old(res.State()).(status := response.status,
                                             headers := old(res.headers) + response.headers,
                                             chunks := old(res.chunks) + BodyChunks(response.body))
    ensures reader == null <==> response.body.None?
    ensures reader != null ==> fresh(reader) && reader.source == response.body.value
    ensures reader != null ==> reader.pos == |reader.source| && reader.releaseCount == 1
  {
    ghost var start := res.calls;
    ghost var startState := res.State();
    res.Status(response.status);
    var i := 0;
    while i < |response.headers|
      invariant 0 <= i <= |response.headers|
      invariant res.Valid() && !res.finalized
      invariant res.calls == start + [Call.Status(response.status)] + HeaderCalls(response.headers[..i])
    {
      assert HeaderCalls(response.headers[..i + 1])
          == HeaderCalls(response.headers[..i]) + [Call.SetHeader(response.headers[i].0, response.headers[i].1)];
      res.SetHeader(response.headers[i].0, response.headers[i].1);
      i := i + 1;
    }
    assert response.headers[..i] == response.headers;
    ghost var afterHeaders := res.calls;
    if response.body.None? {
      reader := null;
      assert WriteCalls([]) == [];
      assert res.calls == afterHeaders + WriteCalls([]);
    } else {
      var body := response.body.value;
      reader := new BodyReader(body);
      var done := false;
      while !done
        invariant reader.Valid() && reader.source == body && reader.releaseCount == 0
        invariant done ==> reader.pos == |body|
        invariant res.Valid() && !res.finalized
        invariant res.calls == afterHeaders + WriteCalls(body[..reader.pos])
        decreases |body| - reader.pos, if done then 0 else 1
      {
        var value;
        done, value := reader.Read();
        if !done {
          assert body[..reader.pos] == body[..reader.pos - 1] + [value];
          assert WriteCalls(body[..reader.pos]) == WriteCalls(body[..reader.pos - 1]) + [Call.Write(value)];
          res.Write(value);
        }
      }
      assert body[..reader.pos] == body;
      reader.ReleaseLock();
    }
    assert res.calls == start + ProjectionCalls(response);
    RunAppend(res.initial, start, ProjectionCalls(response));
    ProjectionEffect(startState, response);
  }
}
