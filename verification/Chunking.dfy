/** Fixed-size chunking: core/src/chunker/fixed.rs. */
module Chunking {
  import opened Types

  /** The complete chunks of a buffer. */
  function Pieces(buffer: Bytes, size: nat): seq<Bytes>
    requires size > 0
    decreases |buffer|
  {
    if |buffer| < size then [] else [buffer[..size]] + Pieces(buffer[size..], size)
  }

  /** What stays in the buffer. */
  function Leftover(buffer: Bytes, size: nat): Bytes
    requires size > 0
    decreases |buffer|
  {
    if |buffer| < size then buffer else Leftover(buffer[size..], size)
  }

  /** The final chunk, if there is one. */
  function Tail(rest: Bytes): seq<Bytes> {
    if rest == [] then [] else [rest]
  }

  function FixedChunks(data: Bytes, size: nat): seq<Bytes>
    requires size > 0
  {
    Pieces(data, size) + Tail(Leftover(data, size))
  }

  class FixedChunker {
    const chunkSize: nat
    var buffer: Bytes

    constructor (size: nat)
      ensures chunkSize == size && buffer == []
    {
      chunkSize := size;
      buffer := [];
    }

    method Feed(data: Bytes) returns (out: seq<Bytes>)
      requires chunkSize > 0
      modifies this
      ensures out == Pieces(old(buffer) + data, chunkSize)
      ensures buffer == Leftover(old(buffer) + data, chunkSize)
    {
      buffer := buffer + data;
      out := [];
      while |buffer| >= chunkSize
        invariant out + Pieces(buffer, chunkSize) == Pieces(old(buffer) + data, chunkSize)
        invariant Leftover(buffer, chunkSize) == Leftover(old(buffer) + data, chunkSize)
        decreases |buffer|
      {
        var chunk := buffer[..chunkSize];
        assert Pieces(buffer, chunkSize) == [chunk] + Pieces(buffer[chunkSize..], chunkSize);
        buffer := buffer[chunkSize..];
        out := out + [chunk];
      }
    }

    method Finish() returns (out: seq<Bytes>)
      modifies this
      ensures out == Tail(old(buffer)) && buffer == []
    {
      if buffer == [] {
        return [];
      }
      out := [buffer];
      buffer := [];
    }
  }

  /** Feeding in two steps is feeding at once. */
  lemma {:induction false} FeedInTwo(a: Bytes, b: Bytes, size: nat)
    requires size > 0
    ensures Pieces(a + b, size) == Pieces(a, size) + Pieces(Leftover(a, size) + b, size)
    ensures Leftover(a + b, size) == Leftover(Leftover(a, size) + b, size)
    decreases |a|
  {
    if |a| >= size {
      assert (a + b)[..size] == a[..size] && (a + b)[size..] == a[size..] + b;
      FeedInTwo(a[size..], b, size);
    }
  }

  lemma {:induction false} PiecesTile(buffer: Bytes, size: nat)
    requires size > 0
    ensures Concat(Pieces(buffer, size)) + Leftover(buffer, size) == buffer
    decreases |buffer|
  {
    if |buffer| >= size {
      PiecesTile(buffer[size..], size);
      assert buffer == buffer[..size] + buffer[size..];
    }
  }

  /** Everything the chunker emits for a sequence of feeds and a finish. */
  function Emitted(buffer: Bytes, feeds: seq<Bytes>, size: nat): seq<Bytes>
    requires size > 0
    decreases |feeds|
  {
    if feeds == [] then Tail(buffer)
    else Pieces(buffer + feeds[0], size) + Emitted(Leftover(buffer + feeds[0], size), feeds[1..], size)
  }

  lemma {:induction false} EmittedFrom(buffer: Bytes, feeds: seq<Bytes>, size: nat)
    requires size > 0 && |buffer| < size
    ensures Emitted(buffer, feeds, size) == FixedChunks(buffer + Concat(feeds), size)
    decreases |feeds|
  {
    if feeds == [] {
      assert buffer + Concat(feeds) == buffer;
    } else {
      var first, rest := buffer + feeds[0], Concat(feeds[1..]);
      LeftoverShort(first, size);
      EmittedFrom(Leftover(first, size), feeds[1..], size);
      FeedInTwo(first, rest, size);
      assert buffer + Concat(feeds) == first + rest;
    }
  }

  lemma {:induction false} LeftoverShort(buffer: Bytes, size: nat)
    requires size > 0
    ensures |Leftover(buffer, size)| < size
    decreases |buffer|
  {
    if |buffer| >= size {
      LeftoverShort(buffer[size..], size);
    }
  }

  /** The chunk list depends on the whole input, not on how it was fed. */
  lemma SplitIndependence(feeds: seq<Bytes>, others: seq<Bytes>, size: nat)
    requires size > 0
    ensures Emitted([], feeds, size) == FixedChunks(Concat(feeds), size)
    ensures Concat(feeds) == Concat(others) ==> Emitted([], feeds, size) == Emitted([], others, size)
  {
    EmittedFrom([], feeds, size);
    EmittedFrom([], others, size);
    assert [] + Concat(feeds) == Concat(feeds) && [] + Concat(others) == Concat(others);
  }

  /** The chunks tile the input; every chunk but the last has exactly the
      chunk size, and none is empty. */
  lemma {:induction false} FixedChunksTile(data: Bytes, size: nat)
    requires size > 0
    ensures var chunks := FixedChunks(data, size);
            && Concat(chunks) == data
            && (forall i :: 0 <= i < |chunks| ==> 0 < |chunks[i]| <= size)
            && (forall i :: 0 <= i < |chunks| - 1 ==> |chunks[i]| == size)
    decreases |data|
  {
    var chunks := FixedChunks(data, size);
    if data == [] {
    } else if |data| < size {
      assert Concat(chunks) == data + Concat(chunks[1..]);
    } else {
      var rest := FixedChunks(data[size..], size);
      FixedChunksTile(data[size..], size);
      assert chunks == [data[..size]] + rest && chunks[1..] == rest;
      assert data == data[..size] + data[size..];
    }
  }

  /** Their number is the length divided by the chunk size, rounded up. */
  lemma {:induction false} FixedChunksNumber(data: Bytes, size: nat)
    requires size > 0
    ensures |data| <= |FixedChunks(data, size)| * size < |data| + size
    decreases |data|
  {
    var n := |FixedChunks(data, size)|;
    if |data| < size {
      assert n == if data == [] then 0 else 1;
    } else {
      FixedChunksNumber(data[size..], size);
      var m := |FixedChunks(data[size..], size)|;
      assert n == m + 1;
      assert (m + 1) * size == m * size + size;
    }
  }
}
