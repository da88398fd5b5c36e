/** Byte strings, and byte streams that arrive in chunks. */
module Bytes {
  newtype byte = x: int | 0 <= x < 256

  type Text = seq<byte>

  const CR: byte := 13
  const LF: byte := 10

  function Flatten(chunks: seq<Text>): Text {
    if chunks == [] then [] else Flatten(chunks[..|chunks| - 1]) + chunks[|chunks| - 1]
  }

  lemma {:induction false} FlattenConcat(xs: seq<Text>, ys: seq<Text>)
    ensures Flatten(xs + ys) == Flatten(xs) + Flatten(ys)
  {
    if ys == [] {
      assert xs + ys == xs;
    } else {
      assert (xs + ys)[..|xs + ys| - 1] == xs + ys[..|ys| - 1];
      FlattenConcat(xs, ys[..|ys| - 1]);
    }
  }

  lemma {:induction false} FlattenPrefix(chunks: seq<Text>, k: nat)
    requires k <= |chunks|
    ensures Flatten(chunks[..k]) + Flatten(chunks[k..]) == Flatten(chunks)
  {
    assert chunks[..k] + chunks[k..] == chunks;
    FlattenConcat(chunks[..k], chunks[k..]);
  }

  /** What is still to come on one side of a connection: the chunks its reads will return, then EOF. */
  class StreamReader {
    var chunks: seq<Text>

    constructor (chunks: seq<Text>)
      ensures this.chunks == chunks
    {
      this.chunks := chunks;
    }

    /** The next chunk, or nothing at EOF. */
    method Read() returns (chunk: Text)
      modifies this
      ensures old(chunks) == [] ==> chunk == [] && chunks == []
      ensures old(chunks) != [] ==> chunk == old(chunks)[0] && chunks == old(chunks)[1..]
    {
      if chunks == [] {
        return [];
      }
      chunk := chunks[0];
      chunks := chunks[1..];
    }
  }
}
