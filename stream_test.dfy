/** `InputStreamTest`: drains a stream through a fixed 4-byte buffer and
    compares what it collected with the expected bytes. */
module StreamTest {
  import opened Python
  import opened MockStream
  import opened InputStreams

  /** The size of the reused read buffer. */
  const FixedMvLen: nat := 4

  /** The bytes collected by reading chunks of at most `cap` bytes from `pos`
      until a read returns none. */
  function Drained(data: seq<bv8>, pos: int, cap: nat): seq<bv8>
    requires cap > 0
    decreases |data| - pos
  {
    var chunk := ReadBytes(data, pos, Some(cap));
    if chunk == [] then []
    else chunk + Drained(data, NextPos(|data|, pos, Some(cap)), cap)
  }

  /** Draining from a cursor inside the stream yields exactly the rest of the
      stream, whatever the chunk size. */
  lemma {:induction false} DrainedIsRemainder(data: seq<bv8>, pos: int, cap: nat)
    requires cap > 0 && 0 <= pos <= |data|
    ensures Drained(data, pos, cap) == data[pos..]
    decreases |data| - pos
  {
    if pos < |data| {
      var next := NextPos(|data|, pos, Some(cap));
      ReadClamped(data, pos, cap);
      DrainedIsRemainder(data, next, cap);
      assert data[pos..next] + data[next..] == data[pos..];
    }
  }

  /** Draining from the end or beyond it yields nothing. */
  lemma DrainedPastEnd(data: seq<bv8>, pos: int, cap: nat)
    requires cap > 0 && pos >= |data|
    ensures Drained(data, pos, cap) == []
  {
  }

  /** Reads the wrapped stream through a 4-byte buffer until a read returns
      no bytes and reports whether the collected bytes equal `expected`.
      Every chunk fits the buffer (asserted in the loop). */
  method Test(pythonStream: MockPythonStream, expected: seq<bv8>) returns (passed: bool)
    requires pythonStream.Valid()
    modifies pythonStream`pos
    ensures pythonStream.Valid() && pythonStream.data == old(pythonStream.data)
    ensures passed <==> expected == Drained(pythonStream.data, old(pythonStream.pos), FixedMvLen)
    ensures old(pythonStream.pos) >= 0 ==> pythonStream.pos == |pythonStream.data|
    ensures 0 <= old(pythonStream.pos) <= |pythonStream.data| ==>
              (passed <==> expected == pythonStream.data[old(pythonStream.pos)..])
  {
    var inputStream := new InputStream(pythonStream);
    var result: seq<bv8> := [];
    var fixedMv := new bv8[FixedMvLen];
    ghost var data, start := pythonStream.data, pythonStream.pos;
    while true
      invariant pythonStream.Valid() && pythonStream.data == data
      invariant start <= pythonStream.pos
      invariant result + Drained(data, pythonStream.pos, FixedMvLen) == Drained(data, start, FixedMvLen)
      decreases |data| - pythonStream.pos
    {
      ghost var before := pythonStream.pos;
      ghost var chunk := ReadBytes(data, before, Some(FixedMvLen));
      var readLen := inputStream.Read(fixedMv);
      assert fixedMv[..readLen] == chunk;
      if readLen == 0 {
        if 0 <= before < |data| {
          ReadClamped(data, before, FixedMvLen);
        }
        break;
      }
      assert readLen <= FixedMvLen;
      assert Drained(data, before, FixedMvLen) == chunk + Drained(data, pythonStream.pos, FixedMvLen);
      result := result + fixedMv[0..readLen];
    }
    passed := expected == result;
    if 0 <= start <= |data| {
      DrainedIsRemainder(data, start, FixedMvLen);
    }
  }

  /** The bytes of an ASCII text. */
  function Ascii(s: string): (r: seq<bv8>)
    requires forall i | 0 <= i < |s| :: s[i] < 128 as char
    ensures |r| == |s|
    ensures forall i | 0 <= i < |s| :: r[i] as int == s[i] as int
  {
    seq(|s|, i requires 0 <= i < |s| => (s[i] as int) as bv8)
  }

  /** The duck-typed test: draining a fresh stream over a byte string yields
      that byte string. */
  method TestReadDuckTypedIo() returns (passed: bool)
    ensures passed
  {
    var srcData := Ascii("a man a can a planal canada");
    var pythonStream := new MockPythonStream(srcData);
    passed := Test(pythonStream, srcData);
  }
}
