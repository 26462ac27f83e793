/** `InputStream`: the wrapper whose `read` callback fills a caller's buffer
    from the wrapped stream. */
module InputStreams {
  import opened Python
  import opened MockStream

  class InputStream {
    const stream: MockPythonStream

    constructor (stream: MockPythonStream)
      ensures this.stream == stream
    {
      this.stream := stream;
    }

    /** Asks the stream for at most `m.Length` bytes, copies them into the
        front of `m` and returns how many there were. Whatever the cursor,
        the count fits the buffer, so the slice assignment never has to
        resize it. */
    method Read(m: array<bv8>) returns (n: int)
      requires stream.Valid()
      modifies stream`pos, m
      ensures stream.Valid() && stream.data == old(stream.data)
      ensures stream.pos == NextPos(|stream.data|, old(stream.pos), Some(m.Length))
      ensures 0 <= n <= m.Length
      ensures m[..n] == ReadBytes(stream.data, old(stream.pos), Some(m.Length))
      ensures m[n..] == old(m[n..])
    {
      var data := stream.Read(Some(m.Length));
      n := |data|;
      forall i | 0 <= i < n {
        m[i] := data[i];
      }
    }
  }
}
