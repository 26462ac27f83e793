# io_test stream cursor — a Dafny model

This project models the byte-stream logic of `test.py` in the io_test
repository:

- `MockPythonStream` is a duck-typed stream. It holds an immutable byte string
  `data`, its length `len`, and a cursor `pos`. `seek` sets the cursor and
  `tell` reports it. `read(amount)` returns up to `amount` bytes from the cursor
  and advances the cursor. `read()` with no amount returns the rest of the data.
- `InputStream.read(m)` asks the wrapped stream for at most `len(m)` bytes.
  It copies them into the front of the buffer `m` and returns how many there
  were.
- `InputStreamTest._test` drains a stream through one reused 4-byte buffer
  until a read returns 0. It asserts that every chunk fits the buffer and that
  the collected bytes equal the expected bytes.

Files:

- `python.dfy` (module `Python`): the Python semantics the code relies on.
  These are an optional argument, `min`, and byte-string slicing `s[i:j]`.
  Slicing follows Python: a negative bound counts from the end, and both bounds
  are clamped into the string.
- `mock_stream.dfy` (module `MockStream`): the specification functions
  `NextPos` and `ReadBytes` for one `read`, the lemmas about them, and the class
  `MockPythonStream`. Only `Seek` and `Read` change anything, and only `pos`.
- `input_stream.dfy` (module `InputStreams`): the class `InputStream`. Its
  `Read` writes into an `array<bv8>` in place.
- `stream_test.dfy` (module `StreamTest`): the drain loop `Test`, its
  specification function `Drained`, and the duck-typed test case.

Because slicing is modelled as Python does it, `seek` accepts any integer.
`read` is modelled for any cursor, including a negative one or one past the
end. The clean properties (clamped reads, `pos <= len`, the drain yields the
rest of the data) are stated for a cursor in `0..len`. That range is what
construction and the drain loop keep the cursor in.

The final `assert expected == result` of `_test` becomes a returned verdict:
`Test` returns `passed`, and its contract says exactly when `passed` is true.
The in-loop `assert read_len <= fixed_mv_len` is a Dafny `assert`, and it is
proved.

`input_stream.c` keeps no end-of-stream state, has no destroy guard and does
not check that all five callbacks are set, so the model has none of these.

`StreamTest.Drained` is a specification helper: it defines, by recursion over
the reads, the bytes the drain loop of `_test` collects. `Test` is proved
against it, and `DrainedIsRemainder` and `DrainedPastEnd` say what it is.

## Model

| member | source | states |
|---|---|---|
| `Python.Slice` | test.py:57 | Python slicing never fails. For bounds inside the string it is the ordinary subsequence. It is never longer than `j - i`, and it is empty once the start is at or past the end. |
| `MockStream.NextPos` | test.py:50-56 | `read()` always leaves the cursor at `len`. For `amount >= 0`, a cursor at or past the end moves to `len`, and a cursor in `0..len` stays in `pos..len`. |
| `MockStream.ReadBytes` | test.py:50-57 | `read(k)` with `k >= 0` returns at most `k` bytes from any cursor. At or past the end, every read returns no bytes. |
| `MockStream.ReadClamped` | test.py:53-57 | For `0 <= pos <= len` and `k >= 0`, `read(k)` returns exactly `data[pos : pos + min(k, len - pos)]`. The cursor advances by the number of bytes returned and stays `<= len`. |
| `MockStream.ReadRemainder` | test.py:51-52 | For `0 <= pos <= len`, `read()` returns `data[pos:]` and leaves `pos == len`. |
| `MockStream.ReadPastEnd` | test.py:54-57 | From `pos >= len` (for example after a seek past the end), `read()` and `read(k)` with `k >= 0` return empty bytes and put the cursor at `len`. This is the zero-length signal the drain loop stops on. |
| `MockStream.ReadThenRest` | test.py:50-57 | A bounded read followed by a read of the rest returns, concatenated, the same bytes as one read of the rest. |
| `MockStream.MockPythonStream.constructor` | test.py:39-42 | After construction, `data` is the source bytes, `len` is their length, and `pos` is 0. |
| `MockStream.MockPythonStream.Seek` | test.py:44-48 | `seek(where)` sets `pos` to `where`, so a following `tell()` returns `where`. `data` and `len` are unchanged. |
| `MockStream.MockPythonStream.Tell` | test.py:47-48 | Returns the current cursor `pos`, so after `Seek(w)`, `Tell() == w`. |
| `MockStream.MockPythonStream.Read` | test.py:50-57 | Returns `ReadBytes` and moves the cursor to `NextPos`. `data` and `len` are unchanged. From a cursor in `0..len` with `amount >= 0` or no amount, it returns `data[old pos : new pos]` and advances by the count, staying `<= len`. |
| `InputStreams.InputStream.constructor` | test.py:5-6 | The wrapper holds the given stream. |
| `InputStreams.InputStream.Read` | test.py:19-24 | Returns `n` with `0 <= n <= len(m)` whatever the cursor. It writes the bytes `read(len(m))` returned into `m[0:n]` and leaves `m[n:]` unchanged. The stream's cursor moves as one `read(len(m))` moves it. |
| `StreamTest.DrainedIsRemainder` | test.py:65-75 | Draining in chunks of any positive size from a cursor in `0..len` collects exactly `data[pos:]`. |
| `StreamTest.DrainedPastEnd` | test.py:69-70 | Draining from a cursor at or past the end collects nothing. |
| `StreamTest.Test` | test.py:60-75 | The drain loop terminates, and every chunk fits the 4-byte buffer. It collects `Drained(data, pos, 4)`. From `pos >= 0` it leaves `pos == len`. From a cursor in `0..len`, the final assertion holds exactly when `expected == data[pos:]`. |
| `StreamTest.TestReadDuckTypedIo` | test.py:83-87 | Draining a freshly built stream over `b'a man a can a planal canada'` passes the final assertion. |

## Left out

- `input_stream.c` as a whole. It marshals arguments into Python, keeps capsule
  and weak-reference handles, calls the `aws_crt_*` library (whose `api.h` is
  not part of this model), registers the module and prints debug output. Its
  four value-returning callbacks (seek, read, get_length, get_status) return 1
  whatever the handler did, and its `seek`, `read`, `get_status` and
  `get_length` entry points are empty. It computes nothing that can be stated.
- `InputStream.__init__`'s registration of the five callbacks with the native
  library (test.py:7-13). The constructor only stores the wrapped stream.
- `InputStream.seek`, `get_status`, `get_length` and `destroy` (test.py:15-33).
  They only print, or forward. `seek` forwards two arguments; to a `MockPythonStream`,
  whose `seek` takes one, that call would raise in Python.
- `io.BytesIO` and `test_read_official_io` (test.py:77-81). The library class's
  source is not part of this model. The drain is modelled over
  `MockPythonStream` only.
- The module-level script (test.py:98-101), which runs through the native
  extension.
- The `read_len is None` branch of `_test` (test.py:67-68). `InputStream.read`
  always returns an integer, so the branch cannot be taken.
- Every `print` call.
- Non-integer `amount` values and Python's exceptions for them.
- The failure of Python's `assert` is modelled as the returned verdict `passed`
  rather than as a raised `AssertionError`.
