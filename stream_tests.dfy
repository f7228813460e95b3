/** The scenarios of the stream's unit tests, with what each one asserts
    stated as a postcondition. A halting channel with no stalls stands in for
    the tests' in-memory source channel. */
module InputStreamTests {
  import opened JavaTypes
  import opened Outcomes
  import opened BoundedSinks
  import opened HaltingChannels
  import opened InputStreams

  /** `readByteByByteTest`: one `read()` per byte, each giving the byte back
      (as its unsigned value, so `(byte) read()` is the byte), then EOF. */
  method ReadByteByByte(input: seq<byte>) returns (values: seq<int>, last: Result<int>)
    ensures |values| == |input|
    ensures forall i :: 0 <= i < |input| ==> 0 <= values[i] < 256 && ToByte(values[i]) == input[i]
    ensures last == Ok(-1)
  {
    var channel := new HaltingReadableStreamChannel(input, 0);
    var stream := new ReadableStreamChannelInputStream(channel);
    values := [];
    for i := 0 to |input|
      invariant stream.Valid() && stream.open && channel.open
      invariant channel.data == input && channel.pos == i
      invariant |values| == i && forall k :: 0 <= k < i ==> values[k] == Unsigned(input[k])
    {
      var v := stream.ReadByte();
      values := values + [v.value];
    }
    last := stream.ReadByte();
    forall i | 0 <= i < |input| ensures ToByte(values[i]) == input[i] {
      UnsignedRoundTrip(input[i]);
    }
  }

  /** `readPartByPartTest`: consecutive reads of a quarter of the data each;
      every read returns exactly the length asked for and fills its range
      with the source bytes, and a final read of the whole array is EOF.
      With fewer than four bytes a quarter is 0 bytes and the test's loop
      never advances. */
  method ReadPartByPart(input: seq<byte>) returns (lens: seq<int>, counts: seq<Result<int>>, out: array<byte>, last: Result<int>)
    requires |input| >= 4
    ensures |counts| == |lens| && |lens| > 0
    ensures forall k :: 0 <= k < |lens| ==> lens[k] > 0 && counts[k] == Ok(lens[k])
    ensures out[..] == input
    ensures last == Ok(-1)
  {
    var channel := new HaltingReadableStreamChannel(input, 0);
    var stream := new ReadableStreamChannelInputStream(channel);
    out := new byte[|input|](_ => 0);
    lens, counts := [], [];
    var start := 0;
    while start < |input|
      invariant 0 <= start <= |input| && (start == 0 <==> lens == [])
      invariant stream.Valid() && stream.open && channel.open
      invariant channel.data == input && channel.pos == start && out.Length == |input|
      invariant out[..start] == input[..start]
      invariant |counts| == |lens| && forall k :: 0 <= k < |lens| ==> lens[k] > 0 && counts[k] == Ok(lens[k])
      decreases |input| - start
    {
      var end := Min(start + |input| / 4, |input|);
      var len := end - start;
      ghost var before := out[..];
      var n := stream.Read(out, start, len);
      PrefixGrows(before, out[..], input, start, end);
      lens, counts := lens + [len], counts + [n];
      start := end;
    }
    assert out[..] == out[..start];
    last := stream.Read(out, 0, out.Length);
  }

  /** A read that fills `[start, end)` with the source bytes extends the
      prefix of the array that already equals the source. */
  lemma PrefixGrows(before: seq<byte>, after: seq<byte>, input: seq<byte>, start: nat, end: nat)
    requires start <= end <= |input| == |before|
    requires before[..start] == input[..start]
    requires after == Overwrite(before, start, input[start..end])
    ensures after[..end] == input[..end]
  {
    forall i | 0 <= i < end ensures after[i] == input[i] {
      if i < start {
        assert before[..start][i] == input[..start][i];
      }
    }
  }

  /** `readAllAtOnceTest` (with no stalls) and `nonBlockingToBlockingTest`
      (with five): a single read of a whole-length array returns the length
      and the array equals the source; the next read is EOF. Any number of
      stalls gives the same. */
  method ReadAllAtOnce(input: seq<byte>, stalls: int) returns (n: Result<int>, out: array<byte>, last: Result<int>)
    requires |input| > 0 && IsInt(stalls)
    ensures n == Ok(|input|)
    ensures out[..] == input
    ensures last == Ok(-1)
  {
    var channel := new HaltingReadableStreamChannel(input, stalls);
    var stream := new ReadableStreamChannelInputStream(channel);
    out := new byte[|input|](_ => 0);
    n := stream.ReadAll(out);
    assert out[..] == input[0..0 + |input|];
    last := stream.ReadAll(out);
  }

  /** `readErrorCasesTest`: a null array, a negative offset, a negative length
      and a range past the end are each refused, and a zero-length read
      returns 0. None of them touches the array or the channel: the array is
      still all zeros, and a read of the whole array afterwards still gets
      every source byte. */
  method ReadErrorCases(input: seq<byte>) returns (results: seq<Result<int>>, untouched: seq<byte>, followUp: Result<int>, out: array<byte>)
    ensures results == [Err(NullPointer), Err(IndexOutOfBounds), Err(IndexOutOfBounds), Err(IndexOutOfBounds), Ok(0)]
    ensures untouched == seq(|input|, _ => 0 as byte)
    ensures followUp == Ok(|input|) && out[..] == input
  {
    var channel := new HaltingReadableStreamChannel(input, 0);
    var stream := new ReadableStreamChannelInputStream(channel);
    var r0 := stream.Read(null, 0, |input|);
    out := new byte[|input|](_ => 0);
    ghost var zeros := out[..];
    assert zeros == seq(|input|, _ => 0 as byte);
    var r1 := stream.Read(out, -1, out.Length);
    var r2 := stream.Read(out, 0, -1);
    var r3 := stream.Read(out, 0, out.Length + 1);
    var r4 := stream.Read(out, 0, 0);
    results := [r0, r1, r2, r3, r4];
    untouched := out[..];
    followUp := stream.ReadAll(out);
    assert out[..] == input[0..0 + |input|];
  }

  /** A channel closed before the stream reads it makes every bulk and
      single-byte read throw, whatever its stalls; closing it once more
      changes nothing, and no byte reaches the array. */
  method ReadAfterChannelClose(input: seq<byte>, stalls: int) returns (results: seq<Result<int>>, out: array<byte>)
    requires IsInt(stalls)
    ensures results == [Err(ClosedChannel), Err(ClosedChannel), Err(ClosedChannel)]
    ensures out[..] == [0]
  {
    var channel := new HaltingReadableStreamChannel(input, stalls);
    var stream := new ReadableStreamChannelInputStream(channel);
    channel.Close();
    out := new byte[1](_ => 0);
    ghost var zero := out[..];
    assert zero == [0];
    var r0 := stream.ReadAll(out);
    channel.Close();
    var r1 := stream.ReadByte();
    var r2 := stream.Read(out, 0, 1);
    results := [r0, r1, r2];
  }
}
