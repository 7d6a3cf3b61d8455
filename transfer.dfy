/** The RETR and STOR copy loops: a 64 KiB buffer filled and written until the source is exhausted. */
module Transfer {
  import opened Text

  /** `1024 * 64`, the size of the copy buffer. */
  const BufSize: nat := 65536

  /** The successive buffer loads of a read loop over `data`. */
  function Chunks(data: seq<byte>): seq<seq<byte>>
    decreases |data|
  {
    if |data| == 0 then []
    else if |data| <= BufSize then [data]
    else [data[..BufSize]] + Chunks(data[BufSize..])
  }

  function Flatten(chunks: seq<seq<byte>>): seq<byte>
    decreases |chunks|
  {
    if |chunks| == 0 then [] else chunks[0] + Flatten(chunks[1..])
  }

  predicate Bounded(chunks: seq<seq<byte>>) {
    forall i :: 0 <= i < |chunks| ==> 0 < |chunks[i]| <= BufSize
  }

  /** Writing the chunks one after the other reproduces the data. */
  lemma {:induction false} ChunksFlatten(data: seq<byte>)
    ensures Flatten(Chunks(data)) == data
    decreases |data|
  {
    if |data| > BufSize {
      ChunksFlatten(data[BufSize..]);
      assert data[..BufSize] + data[BufSize..] == data;
    } else if |data| > 0 {
      assert data + [] == data;
    }
  }

  /** Every chunk is a non-empty buffer load of at most 64 KiB. */
  lemma {:induction false} ChunksBounded(data: seq<byte>)
    ensures Bounded(Chunks(data))
    decreases |data|
  {
    if |data| > BufSize {
      ChunksBounded(data[BufSize..]);
    }
  }

  function Min(a: int, b: int): int {
    if a < b then a else b
  }

  /** `while ((nread = in.read(buf)) > 0) out.write(buf, 0, nread)`: the chunks written, in order. */
  method Pump(source: seq<byte>) returns (chunks: seq<seq<byte>>)
    ensures chunks == Chunks(source)
    ensures Flatten(chunks) == source && Bounded(chunks)
  {
    chunks := [];
    var pos := 0;
    var nread := Min(BufSize, |source|);
    while nread > 0
      invariant 0 <= pos <= |source| && nread == Min(BufSize, |source| - pos)
      invariant chunks + Chunks(source[pos..]) == Chunks(source)
      decreases |source| - pos
    {
      var rest := source[pos..];
      if |rest| > BufSize {
        assert rest[..BufSize] == source[pos..pos + nread];
        assert rest[BufSize..] == source[pos + nread..];
      } else {
        assert rest == source[pos..pos + nread];
        assert source[pos + nread..] == [];
        assert Chunks(source[pos + nread..]) == [];
      }
      assert Chunks(rest) == [source[pos..pos + nread]] + Chunks(source[pos + nread..]);
      chunks := chunks + [source[pos..pos + nread]];
      pos := pos + nread;
      nread := Min(BufSize, |source| - pos);
    }
    assert source[pos..] == [];
    assert chunks + [] == chunks;
    ChunksFlatten(source);
    ChunksBounded(source);
  }
}
