# Blocking input stream over a non-blocking stream channel

Ambry's router reads blob data through a `ReadableStreamChannel`. This is a
push-style source: given a writable sink, it writes whatever bytes it has into
the sink and returns how many it wrote. It may return 0 ("nothing yet, try
again") and returns -1 at end of data. `ReadableStreamChannelInputStream`
puts this source behind `java.io.InputStream`'s pull-style contract:

- `read(b, off, len)` fills the requested range or returns -1 at EOF;
- `read()` returns the next byte as an unsigned value, or -1;
- the caller never sees a zero-byte reply from the channel.

This project models two pieces.

- The test channel `HaltingReadableStreamChannel`. It has:
  - an open flag;
  - a stall counter, a Java `int` decremented on every read of the open
    channel, stall or not;
  - its data, with a read position.

  `ReadStep` is one `read` as a function. The class `HaltingReadableStreamChannel`
  keeps each of these as a field, and its `Read` method is proved against
  `ReadStep`.
- The stream `ReadableStreamChannelInputStream`. Its argument checks come
  first. Its retry loop (`Fill`) hands a `BoundedSink` to the channel again and
  again. The sink is a window `[off, off + len)` of the caller's array and
  takes at most the window's room. The loop stops when the window is full or
  the channel answers -1, and it retries every 0.

Every bulk read is proved to return what `Pull` returns and to consume what
`Pull` consumes. `Pull` is a reference read from a source that never stalls.
The contracts never mention the stall counter, so stalls are invisible to the
caller. At the level of functions, `Retry` writes the loop as repeated
`ReadStep`s, and `StallsInvisible` proves that it equals `Pull` for every
value of the counter.

The module `InputStreamTests` turns the unit tests into methods. Each test's
assertions become that method's postconditions:

- byte-by-byte reads;
- quarter-by-quarter reads;
- one whole-array read, with no stalls and with stalls;
- the rejected arguments.

A further method of that module, `ReadAfterChannelClose`, is a scenario of the
model's own: no test closes a channel. It is built from the channel's `read`
and `close` and shows, through the stream, what those two promise.

A `HaltingReadableStreamChannel` with no stalls stands in for the tests'
in-memory `DataStreamChannel`.

The stream's source file is not part of this model. What the tests assert
fixes part of its behaviour:

- a retry loop that keeps calling the channel through its zero-byte replies
  until the range is full or the channel reports EOF;
- a null array and each bad offset/length refused, and a zero `len` returning 0;
- `read()` giving each byte, then -1.

The rest comes from the stream's intended contract, not from any test:

- a partial count when EOF comes after some bytes (in the tests every
  requested range fits the data, so no read meets EOF after taking bytes);
- the order of the checks: null array, then offset/length bounds, then a zero
  `len`;
- then a check of the stream's own closed flag, which `close()` sets (the
  tests never close the stream);
- `read()` implemented through a one-byte bulk read.

Bytes are Java's signed `byte`. `read()` returns `b & 0xFF` (`JavaTypes.Unsigned`), and the
test's cast `(byte)` is `JavaTypes.ToByte`.

## Model

| member | source | states |
|---|---|---|
| JavaTypes.Decrement | ambry-router/src/test/java/com.github.ambry.router/ReadableStreamChannelInputStreamTest.java:150 | `getAndDecrement` leaves a Java `int` that is one less than before, modulo 2^32 |
| JavaTypes.UnsignedRoundTrip | ambry-router/src/test/java/com.github.ambry.router/ReadableStreamChannelInputStreamTest.java:92 | casting the unsigned value that `read()` returns back with `(byte)` gives the original byte |
| BoundedSinks.Overwrite | ambry-router/src/test/java/com.github.ambry.router/ReadableStreamChannelInputStreamTest.java:155 | the array after a write holds the written bytes in the window and is unchanged everywhere else |
| BoundedSinks.BoundedSink.Write | ambry-router/src/test/java/com.github.ambry.router/ReadableStreamChannelInputStreamTest.java:155 | the sink takes min(remaining data, remaining room) bytes, copies them right after the bytes it already holds, and counts them |
| HaltingChannels.ReadStep | ambry-router/src/test/java/com.github.ambry.router/ReadableStreamChannelInputStreamTest.java:145-158 | closed: throws, nothing changes; open: the counter goes down by one; credits left: 0 bytes and no data consumed; credits gone: -1 exactly when no data remains, otherwise min(room, remaining) bytes and the position advances by that much, never past the end |
| HaltingChannels.StallsComeFirst | ambry-router/src/test/java/com.github.ambry.router/ReadableStreamChannelInputStreamTest.java:134-151 | on an open channel set up with N stalls, each of the first N reads (or fewer) returns 0; the position is unchanged and the counter is N minus the reads made |
| HaltingChannels.ClosedStaysClosed | ambry-router/src/test/java/com.github.ambry.router/ReadableStreamChannelInputStreamTest.java:148-149 | after close, every read in any sequence of reads throws a closed-channel error and the state does not change |
| HaltingChannels.EofRepeats | ambry-router/src/test/java/com.github.ambry.router/ReadableStreamChannelInputStreamTest.java:150-153 | with the credits gone and the data used up, every further read returns -1, until the counter wraps |
| HaltingChannels.CounterWraps | ambry-router/src/test/java/com.github.ambry.router/ReadableStreamChannelInputStreamTest.java:131-150 | the counter keeps going down after the stalls; from the smallest `int` it wraps to the largest, and the next read stalls again |
| HaltingChannels.HaltingReadableStreamChannel.constructor | ambry-router/src/test/java/com.github.ambry.router/ReadableStreamChannelInputStreamTest.java:134-137 | a new channel is open, at position 0, with the given stall count |
| HaltingChannels.HaltingReadableStreamChannel.GetSize | ambry-router/src/test/java/com.github.ambry.router/ReadableStreamChannelInputStreamTest.java:139-142 | the size is the data limit: the bytes consumed plus the bytes left, however far reading has got |
| HaltingChannels.HaltingReadableStreamChannel.Read | ambry-router/src/test/java/com.github.ambry.router/ReadableStreamChannelInputStreamTest.java:144-158 | reply and new state are `ReadStep`'s for the sink's room; the bytes consumed are exactly the ones added to the sink's window |
| HaltingChannels.HaltingReadableStreamChannel.Close | ambry-router/src/test/java/com.github.ambry.router/ReadableStreamChannelInputStreamTest.java:160-164 | the channel is closed and nothing else changes, so a second close has no further effect |
| InputStreams.Pull | ambry-router/src/test/java/com.github.ambry.router/ReadableStreamChannelInputStreamTest.java:103-122 | reference read: a zero length gives 0; otherwise -1 exactly when no data remains, else min(len, remaining) > 0 bytes, which is the full length when enough data is left |
| InputStreams.ChunksReadLikeOne | ambry-router/src/test/java/com.github.ambry.router/ReadableStreamChannelInputStreamTest.java:97-112 | consecutive reads of positive chunk lengths each return exactly their length and end where a single read of the whole range ends |
| InputStreams.ChunksEndAlike | ambry-router/src/test/java/com.github.ambry.router/ReadableStreamChannelInputStreamTest.java:103-111 | for any chunk lengths, also ones that run past the end of the data, consecutive reads end where one read of the total length ends |
| InputStreams.EofIsSticky | ambry-router/src/test/java/com.github.ambry.router/ReadableStreamChannelInputStreamTest.java:111 | after a read has consumed the data to its end, the next read returns -1, and the one after that does too |
| InputStreams.Retry | ambry-router/src/test/java/com.github.ambry.router/ReadableStreamChannelInputStreamTest.java:71-83 | the stream's retry loop as repeated channel `ReadStep`s: every state it reaches still fits the data; what it returns is stated by RetryFills, RetryOnClosed and StallsInvisible. It is a second definition of the loop beside `Fill`: `Fill` is not proved to follow it step by step, and the two agree on the reply and the final position only because both are proved equal to `Pull` |
| InputStreams.RetryFills | ambry-router/src/test/java/com.github.ambry.router/ReadableStreamChannelInputStreamTest.java:71-83 | on an open channel the retry loop ends with the window full or the data exhausted; it returns the count, or -1 if it got nothing, never 0 |
| InputStreams.RetryOnClosed | ambry-router/src/test/java/com.github.ambry.router/ReadableStreamChannelInputStreamTest.java:148-149 | on a closed channel the retry loop throws at once and changes nothing |
| InputStreams.StallsInvisible | ambry-router/src/test/java/com.github.ambry.router/ReadableStreamChannelInputStreamTest.java:76-82 | for every stall count, the retry loop returns what the never-stalling `Pull` returns and leaves the position where `Pull` leaves it |
| InputStreams.ReadableStreamChannelInputStream.constructor | ambry-router/src/test/java/com.github.ambry.router/ReadableStreamChannelInputStreamTest.java:77 | a new stream is open and bound to the given channel |
| InputStreams.ReadableStreamChannelInputStream.Read | ambry-router/src/test/java/com.github.ambry.router/ReadableStreamChannelInputStreamTest.java:43-68 | null array: NullPointer; bad offset/length: IndexOutOfBounds; len 0: 0; a closed stream or channel: ClosedChannel; otherwise `Pull`'s count and position, with the consumed bytes copied into `b[off..]`; failures and zero-length reads change neither the array nor the channel |
| InputStreams.ReadableStreamChannelInputStream.Fill | ambry-router/src/test/java/com.github.ambry.router/ReadableStreamChannelInputStreamTest.java:71-83 | the retry loop over the sink returns `Pull`'s count for any number of stalls, and its window holds exactly the bytes consumed; on a closed channel it throws and nothing changes |
| InputStreams.ReadableStreamChannelInputStream.ReadAll | ambry-router/src/test/java/com.github.ambry.router/ReadableStreamChannelInputStreamTest.java:120-122 | `read(b)` reads the whole array: `Pull`'s count for `b.Length` at the current position, with the array's prefix set to the consumed bytes |
| InputStreams.ReadableStreamChannelInputStream.ReadByte | ambry-router/src/test/java/com.github.ambry.router/ReadableStreamChannelInputStreamTest.java:91-94 | the next byte's unsigned value, advancing one position; -1 when the data is used up; a closed-channel error when closed |
| InputStreamTests.ReadByteByByte | ambry-router/src/test/java/com.github.ambry.router/ReadableStreamChannelInputStreamTest.java:86-95 | for any input, the i-th `read()` is in [0, 255] and casts back to `in[i]`; the read after the last byte returns -1 |
| InputStreamTests.ReadPartByPart | ambry-router/src/test/java/com.github.ambry.router/ReadableStreamChannelInputStreamTest.java:97-112 | each quarter-range read returns exactly its length, the array ends up equal to the input, and the final whole-array read returns -1 |
| InputStreamTests.ReadAllAtOnce | ambry-router/src/test/java/com.github.ambry.router/ReadableStreamChannelInputStreamTest.java:71-83 | for any stall count (5 in `nonBlockingToBlockingTest`, none in `readAllAtOnceTest`), one whole-array read returns the input length, the array equals the input, and the next read returns -1 |
| InputStreamTests.ReadErrorCases | ambry-router/src/test/java/com.github.ambry.router/ReadableStreamChannelInputStreamTest.java:35-69 | a null array gives NullPointer; a negative offset, a negative length and a range past the end each give IndexOutOfBounds; a zero-length read gives 0; the array stays all zeros and a later whole read still gets every byte |
| InputStreamTests.ReadAfterChannelClose | ambry-router/src/test/java/com.github.ambry.router/ReadableStreamChannelInputStreamTest.java:145-164 | on a channel closed before reading, closed twice, a whole-array read, a `read()` and a range read all throw a closed-channel error, and no byte reaches the array |

## Left out

- The random test data (`new Random().nextBytes`): every scenario takes an arbitrary byte sequence instead.
- JUnit's assertion plumbing: each assertion is a postcondition of the scenario method.
- `ByteArrayInputStream` and `DataStreamChannel` are not part of this model. A halting channel with no stalls stands in for them.
- The channel's data is always a buffer at position 0, as `ByteBuffer.wrap(in)` gives it. A `ByteBuffer` passed in at a nonzero position would have a `getSize()` (its limit) larger than the bytes left to read; the model's constructor cannot express that.
- `AtomicBoolean` and `AtomicInteger` are plain fields: concurrent reads and closes are not modelled.
- Transport `IOException`s other than the closed-channel error, and the internals of `ByteBuffer` and `WritableByteChannel`. The sink's write is "copy min(room, remaining data) bytes".
- The channel's "unknown size" value and any backoff or sleep in the retry loop: neither appears in the code.
- `ReadableStreamChannelInputStream`'s source file is not part of this model. The stream follows what the tests assert and the design of a loop that runs until the range is full or EOF.
- The stream's reusable one-byte buffer: `ReadByte` takes a fresh one-byte array each call, which the caller cannot reach either.
- The stream's `close()` does not close the channel.
- InputStreams.ReadableStreamChannelInputStream.Read: does not state the stall counter's value after the call, only that it is still a Java `int`. Every caller-visible result is independent of it.
- InputStreams.ReadableStreamChannelInputStream.Fill: states its outcome through `Pull`, not through `Retry`. It is not proved to follow `Retry` call by call, and it does not state the final stall counter that `Retry` determines. `Fill` and `Retry` agree on the reply and the final data position only because both are proved equal to `Pull` (`StallsInvisible` for `Retry`).
- InputStreamTests.ReadPartByPart: requires at least four bytes. With 1 to 3 bytes a quarter is 0 bytes, and the test's loop never advances. With 0 bytes the loop never runs, and the final `read(out, 0, 0)` returns 0 instead of the -1 the test expects, so the test would fail.
- InputStreamTests.ReadAllAtOnce: requires a non-empty input, because a zero-length read returns 0, not -1.
- Offsets and lengths are unbounded integers, not 32-bit: the bounds check `len > b.length - off` cannot overflow for a non-negative `off` anyway.
