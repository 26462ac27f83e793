/** `MockPythonStream`: a duck-typed byte stream, an immutable byte string
    with a cursor `pos` that `seek` sets and `read` advances. */
module MockStream {
  import opened Python

  /** How far `read(amount)` moves a cursor at `pos` in a stream of `len`
      bytes: the whole remainder when no amount is given, otherwise the amount
      capped by the remainder. Past the end the remainder is negative, so the
      cursor moves back to `len`. */
  function Advance(len: int, pos: int, amount: Option<int>): int
  {
    match amount
    case None => len - pos
    case Some(k) => Min(k, len - pos)
  }

  /** The cursor after `read(amount)` from `pos`. */
  function NextPos(len: int, pos: int, amount: Option<int>): (p: int)
    ensures amount.None? ==> p == len
    ensures amount.Some? && amount.value >= 0 && pos >= len ==> p == len
    ensures amount.Some? && amount.value >= 0 && pos <= len ==> pos <= p <= len
  {
    pos + Advance(len, pos, amount)
  }

  /** The bytes `read(amount)` returns from `pos`: the slice between the old
      and the new cursor. */
  function ReadBytes(data: seq<bv8>, pos: int, amount: Option<int>): (r: seq<bv8>)
    ensures amount.Some? && amount.value >= 0 ==> |r| <= amount.value
    ensures pos >= |data| && (amount.None? || amount.value >= 0) ==> r == []
  {
    Slice(data, pos, NextPos(|data|, pos, amount))
  }

  /** Inside the stream, `read(k)` returns the next `min(k, len - pos)` bytes
      and moves the cursor past exactly those bytes. */
  lemma ReadClamped(data: seq<bv8>, pos: int, k: int)
    requires 0 <= pos <= |data| && k >= 0
    ensures ReadBytes(data, pos, Some(k)) == data[pos..pos + Min(k, |data| - pos)]
    ensures NextPos(|data|, pos, Some(k)) == pos + |ReadBytes(data, pos, Some(k))| <= |data|
  {
  }

  /** `read()` with no amount returns the whole remainder and leaves the
      cursor at the end. */
  lemma ReadRemainder(data: seq<bv8>, pos: int)
    requires 0 <= pos <= |data|
    ensures ReadBytes(data, pos, None) == data[pos..]
    ensures NextPos(|data|, pos, None) == |data|
  {
  }

  /** From the end of the stream or beyond it (after a seek past the end),
      every read returns no bytes and puts the cursor at the end. */
  lemma ReadPastEnd(data: seq<bv8>, pos: int, amount: Option<int>)
    requires pos >= |data|
    requires amount.None? || amount.value >= 0
    ensures ReadBytes(data, pos, amount) == []
    ensures NextPos(|data|, pos, amount) == |data|
  {
  }

  /** A bounded read followed by a read of the rest returns, together, what a
      single read of the rest would have returned. */
  lemma ReadThenRest(data: seq<bv8>, pos: int, k: int)
    requires 0 <= pos <= |data| && k >= 0
    ensures ReadBytes(data, pos, Some(k)) + ReadBytes(data, NextPos(|data|, pos, Some(k)), None)
            == ReadBytes(data, pos, None)
  {
  }

  class MockPythonStream {
    var data: seq<bv8>
    var len: int
    var pos: int

    /** `len` is the length of `data`; the constructor sets both and no
        method changes them. */
    ghost predicate Valid()
      reads this
    {
      len == |data|
    }

    constructor (srcData: seq<bv8>)
      ensures Valid()
      ensures data == srcData && len == |srcData| && pos == 0
    {
      data := srcData;
      len := |srcData|;
      pos := 0;
    }

    method Seek(where: int)
      modifies this`pos
      ensures pos == where && Tell() == where
      ensures data == old(data) && len == old(len)
    {
      pos := where;
    }

    /** The current cursor. */
    function Tell(): (p: int)
      reads this
      ensures p == pos
    {
      pos
    }

    method Read(amount: Option<int>) returns (bytes: seq<bv8>)
      requires Valid()
      modifies this`pos
      ensures Valid() && data == old(data) && len == old(len)
      ensures bytes == ReadBytes(data, old(pos), amount)
      ensures pos == NextPos(len, old(pos), amount)
      ensures 0 <= old(pos) <= len && (amount.None? || amount.value >= 0) ==>
                bytes == data[old(pos)..pos] && pos == old(pos) + |bytes| <= len
    {
      var n: int;
      if amount.None? {
        n := len - pos;
      } else {
        n := Min(amount.value, len - pos);
      }
      var prevPos := pos;
      pos := pos + n;
      bytes := Slice(data, prevPos, pos);
    }
  }
}
