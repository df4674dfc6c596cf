/** Translation of an incoming Express request into a standard Request:
    the absolute URL, the flattened header list and the body decision. */
module RequestTranslation {
  import opened Fetch
  import opened Express

  /** The standard Request the adapter builds: method, absolute URL, header
      list in append order, and the body stream (None when bodyless). */
  datatype Request = Request(httpMethod: string, url: string, headers: HeaderList, body: Option<Chunks>)

  /** The host part of the URL: the `Host` header whenever it is present,
      even when empty, and the connection's hostname only when it is absent. */
  function Host(hostHeader: Option<string>, hostname: string): (host: string)
    ensures hostHeader.Some? ==> host == hostHeader.value
    ensures hostHeader.None? ==> host == hostname
  {
    match hostHeader
    case Some(h) => h
    case None => hostname
  }

  /** The absolute URL `protocol://host` followed by the request's path and query. */
  function AbsoluteUrl(protocol: string, host: string, path: string): (u: string)
    ensures |u| == |protocol| + 3 + |host| + |path|
    ensures u[..|protocol|] == protocol
    ensures u[|protocol|..|protocol| + 3] == "://"
    ensures u[|protocol| + 3..|protocol| + 3 + |host|] == host
    ensures u[|protocol| + 3 + |host|..] == path
  {
    protocol + "://" + host + path
  }

  /** The header values one entry contributes, in order. */
  function ValuesOf(v: HeaderValue): seq<string> {
    match v
    case Arr(vs) => vs
    case Str(s) => [s]
    case Other => []
  }

  /** How many appends one entry causes. */
  function AppendCount(v: HeaderValue): nat {
    match v
    case Arr(vs) => |vs|
    case Str(_) => 1
    case Other => 0
  }

  /** The sum of AppendCount over all entries. */
  function TotalAppendCount(entries: seq<(string, HeaderValue)>): nat
    decreases |entries|
  {
    if entries == [] then 0 else AppendCount(entries[0].1) + TotalAppendCount(entries[1..])
  }

  /** Each value paired with the header name it is appended under. */
  function Pairs(name: string, values: seq<string>): HeaderList {
    seq(|values|, i requires 0 <= i < |values| => (name, values[i]))
  }

  /** The reference definition of the flattened header list: every entry, in
      order, contributes its values under its own name. */
  function Flatten(entries: seq<(string, HeaderValue)>): HeaderList
    decreases |entries|
  {
    if entries == [] then [] else Pairs(entries[0].0, ValuesOf(entries[0].1)) + Flatten(entries[1..])
  }

  /** The values stored under `name` in a header list, in order. */
  function ValuesNamed(name: string, h: HeaderList): seq<string>
    decreases |h|
  {
    if h == [] then []
    else if h[0].0 == name then [h[0].1] + ValuesNamed(name, h[1..])
    else ValuesNamed(name, h[1..])
  }

  /** The values of every entry called `name`, entry after entry. */
  function EntryValuesNamed(name: string, entries: seq<(string, HeaderValue)>): seq<string>
    decreases |entries|
  {
    if entries == [] then []
    else if entries[0].0 == name then ValuesOf(entries[0].1) + EntryValuesNamed(name, entries[1..])
    else EntryValuesNamed(name, entries[1..])
  }

  /** Flattening distributes over concatenation of entry lists. */
  lemma {:induction false} FlattenAppend(a: seq<(string, HeaderValue)>, b: seq<(string, HeaderValue)>)
    ensures Flatten(a + b) == Flatten(a) + Flatten(b)
    decreases |a|
  {
    if a == [] {
      assert a + b == b;
    } else {
      assert (a + b)[1..] == a[1..] + b;
      FlattenAppend(a[1..], b);
    }
  }

  /** An entry whose value is neither an array nor a string contributes nothing. */
  lemma OtherEntryDropped(a: seq<(string, HeaderValue)>, name: string, b: seq<(string, HeaderValue)>)
    ensures Flatten(a + [(name, Other)] + b) == Flatten(a + b)
  {
    FlattenAppend(a + [(name, Other)], b);
    FlattenAppend(a, [(name, Other)]);
    FlattenAppend(a, b);
    assert Flatten([(name, Other)]) == [] by {
      assert [(name, Other)][1..] == [];
    }
  }

  /** The number of appended pairs is the sum of the array lengths plus the
      number of string-valued entries. */
  lemma {:induction false} FlattenLength(entries: seq<(string, HeaderValue)>)
    ensures |Flatten(entries)| == TotalAppendCount(entries)
    decreases |entries|
  {
    if entries != [] {
      FlattenLength(entries[1..]);
      match entries[0].1
      case Arr(vs) =>
      case Str(s) =>
      case Other =>
    }
  }

  lemma {:induction false} ValuesNamedAppend(name: string, a: HeaderList, b: HeaderList)
    ensures ValuesNamed(name, a + b) == ValuesNamed(name, a) + ValuesNamed(name, b)
    decreases |a|
  {
    if a == [] {
      assert a + b == b;
    } else {
      assert (a + b)[1..] == a[1..] + b;
      ValuesNamedAppend(name, a[1..], b);
    }
  }

  lemma {:induction false} ValuesNamedPairs(name: string, key: string, values: seq<string>)
    ensures ValuesNamed(name, Pairs(key, values)) == if key == name then values else []
    decreases |values|
  {
    if values != [] {
      assert Pairs(key, values)[1..] == Pairs(key, values[1..]);
      ValuesNamedPairs(name, key, values[1..]);
    }
  }

  /** Looking up one name in the flattened list yields the values of every
      entry of that name, each entry's values in their original order. */
  lemma {:induction false} FlattenKeepsOrderPerName(name: string, entries: seq<(string, HeaderValue)>)
    ensures ValuesNamed(name, Flatten(entries)) == EntryValuesNamed(name, entries)
    decreases |entries|
  {
    if entries != [] {
      var first := Pairs(entries[0].0, ValuesOf(entries[0].1));
      ValuesNamedAppend(name, first, Flatten(entries[1..]));
      ValuesNamedPairs(name, entries[0].0, ValuesOf(entries[0].1));
      FlattenKeepsOrderPerName(name, entries[1..]);
    }
  }

  lemma PairsMembership(key: string, values: seq<string>, name: string, value: string)
    ensures (name, value) in Pairs(key, values) <==> name == key && value in values
  {
    var p := Pairs(key, values);
    if (name, value) in p {
      var i :| 0 <= i < |p| && p[i] == (name, value);
      assert values[i] == value;
    }
    if name == key && value in values {
      var i :| 0 <= i < |values| && values[i] == value;
      assert p[i] == (name, value);
    }
  }

  /** A pair is appended exactly when some entry of that name holds the value. */
  lemma {:induction false} FlattenMembership(entries: seq<(string, HeaderValue)>, name: string, value: string)
    ensures (name, value) in Flatten(entries)
        <==> exists i :: 0 <= i < |entries| && entries[i].0 == name && value in ValuesOf(entries[i].1)
    decreases |entries|
  {
    if entries != [] {
      FlattenMembership(entries[1..], name, value);
      var first := Pairs(entries[0].0, ValuesOf(entries[0].1));
      PairsMembership(entries[0].0, ValuesOf(entries[0].1), name, value);
      if (name, value) in Flatten(entries[1..]) {
        var i :| 0 <= i < |entries[1..]| && entries[1..][i].0 == name && value in ValuesOf(entries[1..][i].1);
        assert entries[i + 1] == entries[1..][i];
      }
      if i :| 0 <= i < |entries| && entries[i].0 == name && value in ValuesOf(entries[i].1) {
        if i > 0 {
          assert entries[1..][i - 1] == entries[i];
        }
      }
    }
  }

  /** Whether a method gets the request body: every method except exactly
      "GET" and "HEAD" (the comparison is case-sensitive). */
  function CarriesBody(httpMethod: string): (carries: bool)
    ensures carries <==> httpMethod != "GET" && httpMethod != "HEAD"
    ensures httpMethod == "get" || httpMethod == "head" ==> carries
  {
    !(httpMethod == "GET" || httpMethod == "HEAD")
  }

  /** `fromERequest`: builds the standard Request. The loop appends into the
      header list as the source appends into its `Headers` object. */
  method FromERequest(req: ERequest) returns (r: Request)
    ensures r.httpMethod == req.httpMethod
    ensures r.url == AbsoluteUrl(req.protocol, Host(req.hostHeader, req.hostname), req.url)
    ensures req.hostHeader.Some? ==> r.url == req.protocol + "://" + req.hostHeader.value + req.url
    ensures req.hostHeader.None? ==> r.url == req.protocol + "://" + req.hostname + req.url
    ensures r.headers == Flatten(req.headers)
    ensures r.body.None? <==> req.httpMethod == "GET" || req.httpMethod == "HEAD"
    ensures r.body.Some? ==> r.body.value == req.body
  {
    var url := AbsoluteUrl(req.protocol, Host(req.hostHeader, req.hostname), req.url);
    var headers: HeaderList := [];
    var i := 0;
    while i < |req.headers|
      invariant 0 <= i <= |req.headers|
      invariant headers == Flatten(req.headers[..i])
    {
      var (key, value) := req.headers[i];
      ghost var before := headers;
      match value {
        case Arr(vs) =>
          var j := 0;
          while j < |vs|
            invariant 0 <= j <= |vs|
            invariant headers == before + Pairs(key, vs[..j])
          {
            assert Pairs(key, vs[..j + 1]) == Pairs(key, vs[..j]) + [(key, vs[j])];
            headers := headers + [(key, vs[j])];
            j := j + 1;
          }
          assert vs[..j] == vs;
        case Str(s) =>
          headers := headers + [(key, s)];
          assert Pairs(key, [s]) == [(key, s)];
        case Other =>
      }
      assert req.headers[..i + 1] == req.headers[..i] + [req.headers[i]];
      FlattenAppend(req.headers[..i], [req.headers[i]]);
      assert Flatten([req.headers[i]]) == Pairs(key, ValuesOf(value)) by {
        assert [req.headers[i]][1..] == [];
      }
      i := i + 1;
    }
    assert req.headers[..i] == req.headers;
    var body := if req.httpMethod == "GET" || req.httpMethod == "HEAD" then None else Some(req.body);
    r := Request(req.httpMethod, url, headers, body);
  }
}
