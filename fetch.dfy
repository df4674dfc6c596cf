/** Values of the Fetch API side of the adapter: bytes, header lists, a
    standard Response, and the optional-value wrapper used for absent fields. */
module Fetch {

  /** One octet of a body stream. */
  newtype byte = x: int | 0 <= x < 256

  /** A body stream, abstracted as the finite sequence of chunks a reader yields. */
  type Chunks = seq<seq<byte>>

  /** A header list as the Fetch `Headers` object holds it: (name, value) pairs in order. */
  type HeaderList = seq<(string, string)>

  datatype Option<+T> = None | Some(value: T)

  /** A standard Response: numeric status, headers, and an optional streamed body. */
  datatype FetchResponse = FetchResponse(status: int, headers: HeaderList, body: Option<Chunks>)

  /** The bytes of a text made only of ASCII characters (its UTF-8 encoding). */
  function AsciiBytes(s: string): (b: seq<byte>)
    requires forall i :: 0 <= i < |s| ==> s[i] as int < 128
    ensures |b| == |s|
    ensures forall i :: 0 <= i < |s| ==> b[i] as int == s[i] as int
  {
    seq(|s|, i requires 0 <= i < |s| => s[i] as int as byte)
  }

  /** A body made from a string: one stream chunk holding its bytes. */
  function TextBody(s: string): Option<Chunks>
    requires forall i :: 0 <= i < |s| ==> s[i] as int < 128
  {
    Some([AsciiBytes(s)])
  }
}
