// Byte streams that arrive in pieces of any size.
module Streams {
  import opened Text

  // All the bytes a stream will give, and whether reading past them fails instead of ending.
  datatype Payload = Payload(data: Bytes, broken: bool)

  class Reader {
    var rest: Bytes
    const broken: bool

    constructor (payload: Payload)
      ensures rest == payload.data && broken == payload.broken
    {
      rest, broken := payload.data, payload.broken;
    }

    // read(limit) or recv(limit): some bytes, fewer than asked for if the stream likes, none only at the end.
    method Read(limit: nat) returns (block: Option<Bytes>)
      requires limit > 0
      modifies this
      ensures block.None? <==> old(rest) == [] && broken
      ensures block.None? ==> rest == []
      ensures block.Some? ==> old(rest) == block.value + rest && |block.value| <= limit
      ensures block.Some? && old(rest) != [] ==> block.value != []
    {
      if rest == [] {
        return if broken then None else Some([]);
      }
      var length: int := *;
      length := if 1 <= length <= limit then length else 1;
      length := if length <= |rest| then length else |rest|;
      block := Some(rest[..length]);
      rest := rest[length..];
    }
  }

  // exactly, exact: the next bytes whatever pieces they come in, or None when the stream ends before them
  // (scripts/smoke_php_transport.py, scripts/smoke_protocol_examples.py).
  method Exactly(stream: Reader, length: nat) returns (r: Option<Bytes>)
    modifies stream
    ensures r.Some? <==> |old(stream.rest)| >= length
    ensures r.Some? ==> r.value == old(stream.rest)[..length] && stream.rest == old(stream.rest)[length..]
  {
    var data: Bytes := [];
    while |data| < length
      invariant |data| <= length && old(stream.rest) == data + stream.rest
      decreases length - |data|
    {
      var chunk := stream.Read(length - |data|);
      if chunk.None? || chunk.value == [] { return None; }
      data := data + chunk.value;
    }
    r := Some(data);
  }
}
