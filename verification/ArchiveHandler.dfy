// The handler that delivers an archive entry to the browser in chunks.
module ArchiveHandler {
  import opened ByteStrings
  import opened Seqs

  function Least(a: nat, b: nat): nat {
    if a < b then a else b
  }

  // The chunk that a request of n bytes gets at a position.
  function Chunk(data: Bytes, pos: nat, n: nat): Bytes
    requires pos <= |data|
  {
    data[pos..Least(|data|, pos + n)]
  }

  class KnossosArchiveHandler {
    const data: Bytes
    var pos: nat

    constructor (data: Bytes)
      ensures this.data == data && pos == 0
    {
      this.data, pos := data, 0;
    }

    // false once everything was delivered.
    method Read(bytesToRead: nat) returns (more: bool, chunk: Bytes)
      requires pos <= |data|
      modifies this
      ensures pos == Least(|data|, old(pos) + bytesToRead) && chunk == Chunk(data, old(pos), bytesToRead)
      ensures more <==> old(pos) == 0 || old(pos) < |data|
    {
      if pos == 0 {
        if bytesToRead >= |data| {
          pos := pos + |data|;
          TakeAll(data);
          return true, data;
        }
      } else if pos >= |data| {
        return false, [];
      }
      var toRead := if |data| - pos < bytesToRead then |data| - pos else bytesToRead;
      chunk := data[pos..pos + toRead];
      pos := pos + toRead;
      more := true;
    }
  }

  function Sum(requests: seq<nat>): nat {
    if requests == [] then 0 else requests[0] + Sum(requests[1..])
  }

  // What a run of requests gets, one chunk behind the other.
  function Delivered(data: Bytes, pos: nat, requests: seq<nat>): Bytes
    requires pos <= |data|
    decreases |requests|
  {
    if requests == [] then []
    else Chunk(data, pos, requests[0]) + Delivered(data, Least(|data|, pos + requests[0]), requests[1..])
  }

  // Whatever the sizes of the requests, the chunks are the data from the position
  // on, without gaps, and all of it once enough was asked for.
  lemma {:induction false} DeliveredIsData(data: Bytes, pos: nat, requests: seq<nat>)
    requires pos <= |data|
    ensures Delivered(data, pos, requests) == Chunk(data, pos, Sum(requests))
    ensures pos == 0 && Sum(requests) >= |data| ==> Delivered(data, pos, requests) == data
    decreases |requests|
  {
    if requests == [] {
      assert Chunk(data, pos, 0) == [];
    } else {
      var n, next, rest := requests[0], Least(|data|, pos + requests[0]), requests[1..];
      DeliveredIsData(data, next, rest);
      assert Delivered(data, pos, requests) == Chunk(data, pos, n) + Chunk(data, next, Sum(rest));
      ChunksJoin(data, pos, n, Sum(rest));
      assert Sum(requests) == n + Sum(rest);
    }
    if Sum(requests) >= |data| {
      TakeAll(data);
    }
  }

  lemma ChunksJoin(data: Bytes, pos: nat, m: nat, n: nat)
    requires pos <= |data|
    ensures Chunk(data, pos, m) + Chunk(data, Least(|data|, pos + m), n) == Chunk(data, pos, m + n)
  {
  }
}
