/** The blocking `InputStream` view of a channel: every bulk read retries the
    channel's zero-byte replies until the requested range is full or the
    channel reports EOF. */
module InputStreams {
  import opened JavaTypes
  import opened Outcomes
  import opened BoundedSinks
  import opened HaltingChannels

  /** What a bulk read returns and where the data position ends up. */
  datatype Pulled = Pulled(count: int, next: nat)

  /** Reference behaviour of a blocking read of `len` bytes at position `pos`
      of a source that never stalls. */
  function Pull(data: seq<byte>, pos: nat, len: nat): (p: Pulled)
    requires pos <= |data|
    ensures pos <= p.next <= |data|
    ensures len == 0 ==> p == Pulled(0, pos)
    // EOF exactly when bytes are asked for and none remain
    ensures len > 0 ==> (p.count == -1 <==> pos == |data|)
    ensures p.count == -1 ==> p.next == pos
    // otherwise the whole range, or everything that is left
    ensures len > 0 && pos < |data| ==> 0 < p.count == p.next - pos == Min(len, |data| - pos)
  {
    if len == 0 then Pulled(0, pos)
    else if pos == |data| then Pulled(-1, pos)
    else
      var n := Min(len, |data| - pos);
      Pulled(n, pos + n)
  }

  function Sum(lens: seq<nat>): nat {
    if lens == [] then 0 else lens[0] + Sum(lens[1..])
  }

  /** Consecutive reads of the given lengths: their returned counts and the final position. */
  function PullEach(data: seq<byte>, pos: nat, lens: seq<nat>): (out: (seq<int>, nat))
    requires pos <= |data|
    ensures |out.0| == |lens| && pos <= out.1 <= |data|
    decreases |lens|
  {
    if lens == [] then ([], pos)
    else
      var p := Pull(data, pos, lens[0]);
      var (counts, last) := PullEach(data, p.next, lens[1..]);
      ([p.count] + counts, last)
  }

  /** Chunking does not matter: while data lasts, each read of a chunk returns
      exactly its length, and the chunks together consume what one read of the
      whole range consumes. */
  lemma {:induction false} ChunksReadLikeOne(data: seq<byte>, pos: nat, lens: seq<nat>)
    requires pos + Sum(lens) <= |data|
    requires forall i :: 0 <= i < |lens| ==> lens[i] > 0
    ensures forall i :: 0 <= i < |lens| ==> PullEach(data, pos, lens).0[i] == lens[i] as int
    ensures PullEach(data, pos, lens).1 == pos + Sum(lens) == Pull(data, pos, Sum(lens)).next
    decreases |lens|
  {
    if lens != [] {
      ChunksReadLikeOne(data, pos + lens[0], lens[1..]);
    }
  }

  /** Chunking does not matter even past the end of the data: consecutive
      reads of any lengths end where one read of their total length ends. */
  lemma {:induction false} ChunksEndAlike(data: seq<byte>, pos: nat, lens: seq<nat>)
    requires pos <= |data|
    ensures PullEach(data, pos, lens).1 == Pull(data, pos, Sum(lens)).next
    decreases |lens|
  {
    if lens != [] {
      ChunksEndAlike(data, Pull(data, pos, lens[0]).next, lens[1..]);
    }
  }

  /** Once a read has consumed the data to its end, every further read of at
      least one byte reports EOF, and keeps doing so. */
  lemma EofIsSticky(data: seq<byte>, pos: nat, len: nat, len2: nat, len3: nat)
    requires pos <= |data| && len > 0 && len2 > 0 && len3 > 0
    requires pos + len >= |data|
    ensures Pull(data, Pull(data, pos, len).next, len2) == Pulled(-1, |data|)
    ensures Pull(data, Pull(data, Pull(data, pos, len).next, len2).next, len3) == Pulled(-1, |data|)
  {
  }

  /** The stream's retry loop over a halting channel: keep calling `read` while
      the sink has room, having already accepted `written` of `len` bytes. */
  function Retry(data: seq<byte>, st: ChannelState, len: nat, written: nat): (out: (Result<int>, ChannelState))
    requires StateFits(data, st) && written < len
    ensures StateFits(data, out.1)
    decreases |data| - st.pos, if st.haltTimes > 0 then st.haltTimes else 0
  {
    var (reply, st') := ReadStep(data, st, len - written);
    match reply
    case Err(e) => (Err(e), st')
    case Ok(n) =>
      if n == -1 then (Ok(if written == 0 then -1 else written), st')
      else if written + n == len then (Ok(len), st')
      else Retry(data, st', len, written + n)
  }

  /** The retry loop on an open channel stops on a full sink or at EOF, and
      never returns a zero count. */
  lemma {:induction false} RetryFills(data: seq<byte>, st: ChannelState, len: nat, written: nat)
    requires StateFits(data, st) && st.open && written < len
    ensures var m := Min(len - written, |data| - st.pos);
      && Retry(data, st, len, written).0 == Ok(if written + m == 0 then -1 else written + m)
      && Retry(data, st, len, written).1.pos == st.pos + m
      && Retry(data, st, len, written).1.open
    decreases |data| - st.pos, if st.haltTimes > 0 then st.haltTimes else 0
  {
    var (reply, st') := ReadStep(data, st, len - written);
    if reply.Ok? && reply.value != -1 && written + reply.value != len {
      RetryFills(data, st', len, written + reply.value);
    }
  }

  /** A closed channel makes the loop throw at once, with nothing changed. */
  lemma RetryOnClosed(data: seq<byte>, st: ChannelState, len: nat)
    requires StateFits(data, st) && !st.open && 0 < len
    ensures Retry(data, st, len, 0) == (Err(ClosedChannel), st)
  {
  }

  /** Stalls are invisible: whatever the stall counter, the retry loop on an
      open channel returns what the never-stalling `Pull` returns and leaves
      the data position where `Pull` leaves it. */
  lemma StallsInvisible(data: seq<byte>, st: ChannelState, len: nat)
    requires StateFits(data, st) && st.open && 0 < len
    ensures Retry(data, st, len, 0).0 == Ok(Pull(data, st.pos, len).count)
    ensures Retry(data, st, len, 0).1.pos == Pull(data, st.pos, len).next
  {
    RetryFills(data, st, len, 0);
  }

  /** The bytes a read pushes right after the ones already in the window
      extend the window's copy of the data. */
  lemma WindowGrows(b0: seq<byte>, b1: seq<byte>, b2: seq<byte>, off: nat, data: seq<byte>, p0: nat, p1: nat, p2: nat)
    requires p0 <= p1 <= p2 <= |data| && off + (p2 - p0) <= |b0|
    requires b1 == Overwrite(b0, off, data[p0..p1])
    requires b2 == Overwrite(b1, off + (p1 - p0), data[p1..p2])
    ensures b2 == Overwrite(b0, off, data[p0..p2])
  {
    assert data[p0..p2] == data[p0..p1] + data[p1..p2];
    OverwriteTwice(b0, off, data[p0..p1], data[p1..p2]);
  }

  class ReadableStreamChannelInputStream {
    const channel: HaltingReadableStreamChannel
    var open: bool

    ghost predicate Valid()
      reads this, channel
    {
      channel.Valid()
    }

    constructor (channel: HaltingReadableStreamChannel)
      requires channel.Valid()
      ensures Valid() && this.channel == channel && open
    {
      this.channel := channel;
      open := true;
    }

    /** `read(b, off, len)`: validates the arguments, then fills `b[off..off + len]`
        from the channel, retrying its zero-byte replies. */
    method Read(b: array?<byte>, off: int, len: int) returns (r: Result<int>)
      requires Valid()
      modifies channel, b
      ensures Valid() && channel.open == old(channel.open)
      ensures b == null ==> r == Err(NullPointer)
      ensures b != null && (off < 0 || len < 0 || len > b.Length - off) ==> r == Err(IndexOutOfBounds)
      ensures b != null && 0 <= off && len == 0 && off <= b.Length ==> r == Ok(0)
      ensures b != null && 0 <= off && 0 < len <= b.Length - off && !open ==> r == Err(ClosedChannel)
      ensures b != null && 0 <= off && 0 < len <= b.Length - off && open && !old(channel.open) ==>
        r == Err(ClosedChannel)
      // an open stream over an open channel delivers what a never-stalling source would
      ensures b != null && 0 <= off && 0 < len <= b.Length - off && open && old(channel.open) ==>
        var p := Pull(channel.data, old(channel.pos), len);
        r == Ok(p.count) && channel.pos == p.next
      // failures and empty requests touch neither the channel nor the array
      ensures r.Err? || len == 0 ==>
        channel.State() == old(channel.State()) && (b != null ==> b[..] == old(b[..]))
      // what was consumed from the data is what the array now holds in the range
      ensures r.Ok? ==>
        && b != null && 0 <= off && old(channel.pos) <= channel.pos
        && off + (channel.pos - old(channel.pos)) <= b.Length
        && b[..] == Overwrite(old(b[..]), off, channel.data[old(channel.pos)..channel.pos])
    {
      if b == null {
        return Err(NullPointer);
      }
      if off < 0 || len < 0 || len > b.Length - off {
        return Err(IndexOutOfBounds);
      }
      if len == 0 {
        OverwriteEmpty(b[..], off);
        return Ok(0);
      }
      if !open {
        return Err(ClosedChannel);
      }
      var sink := new BoundedSink(b, off, len);
      r := Fill(sink);
    }

    /** The retry loop of a bulk read: calls the channel's `read` with `sink`
        until the sink is full, the channel reports EOF, or it throws. Whatever
        the stall counter, the outcome is the never-stalling `Pull`. */
    method Fill(sink: BoundedSink) returns (r: Result<int>)
      requires Valid() && sink.Valid() && sink.written == 0 < sink.length
      modifies channel, sink, sink.buf
      ensures Valid() && channel.open == old(channel.open)
      ensures !old(channel.open) ==>
        r == Err(ClosedChannel) && channel.State() == old(channel.State()) && sink.buf[..] == old(sink.buf[..])
      ensures old(channel.open) ==>
        var p := Pull(channel.data, old(channel.pos), sink.length);
        && r == Ok(p.count) && channel.pos == p.next
        && sink.buf[..] == Overwrite(old(sink.buf[..]), sink.offset, channel.data[old(channel.pos)..p.next])
    {
      ghost var st0 := channel.State();
      ghost var b0 := sink.buf[..];
      OverwriteEmpty(b0, sink.offset);
      while true
        invariant channel.Valid() && sink.Valid() && sink.written < sink.length
        invariant channel.open == st0.open && (!st0.open ==> channel.State() == st0)
        invariant channel.pos == st0.pos + sink.written
        invariant sink.buf[..] == Overwrite(b0, sink.offset, channel.data[st0.pos..channel.pos])
        decreases |channel.data| - channel.pos, if channel.haltTimes > 0 then channel.haltTimes else 0
      {
        ghost var before := channel.State();
        ghost var bBefore := sink.buf[..];
        var w := sink.written;
        var reply := channel.Read(sink);
        WindowGrows(b0, bBefore, sink.buf[..], sink.offset, channel.data, st0.pos, before.pos, channel.pos);
        match reply
        case Err(e) =>
          return Err(e);
        case Ok(n) =>
          if n == -1 {
            return Ok(if w == 0 then -1 else w);
          }
          if sink.IsFull() {
            return Ok(sink.length);
          }
      }
    }

    /** `read(b)`: a read of the whole array. */
    method ReadAll(b: array?<byte>) returns (r: Result<int>)
      requires Valid()
      modifies channel, b
      ensures Valid() && channel.open == old(channel.open)
      ensures b == null ==> r == Err(NullPointer)
      ensures b != null && b.Length == 0 ==> r == Ok(0)
      ensures b != null && 0 < b.Length && open && old(channel.open) ==>
        var p := Pull(channel.data, old(channel.pos), b.Length);
        && r == Ok(p.count) && channel.pos == p.next
        && b[..] == Overwrite(old(b[..]), 0, channel.data[old(channel.pos)..p.next])
      ensures b != null && 0 < b.Length && (!open || !old(channel.open)) ==>
        r == Err(ClosedChannel) && channel.State() == old(channel.State()) && b[..] == old(b[..])
      // a rejected or empty array touches neither the channel nor the array
      ensures r.Err? || (b != null && b.Length == 0) ==>
        channel.State() == old(channel.State()) && (b != null ==> b[..] == old(b[..]))
    {
      if b == null {
        return Err(NullPointer);
      }
      r := Read(b, 0, b.Length);
    }

    /** `read()`: the next byte as a value in [0, 255], or -1 at EOF; goes
        through the bulk read with a one-byte array. */
    method ReadByte() returns (r: Result<int>)
      requires Valid()
      modifies channel
      ensures Valid() && channel.open == old(channel.open)
      ensures !open || !old(channel.open) ==>
        r == Err(ClosedChannel) && channel.State() == old(channel.State())
      ensures open && old(channel.open) && old(channel.pos) == |channel.data| ==>
        r == Ok(-1) && channel.pos == old(channel.pos)
      ensures open && old(channel.open) && old(channel.pos) < |channel.data| ==>
        r == Ok(Unsigned(channel.data[old(channel.pos)])) && channel.pos == old(channel.pos) + 1
    {
      var one := new byte[1];
      var n := Read(one, 0, 1);
      match n
      case Err(e) =>
        r := Err(e);
      case Ok(k) =>
        r := if k == -1 then Ok(-1) else Ok(Unsigned(one[0]));
    }

    /** Marks the stream closed; the channel itself is left as it is. */
    method Close()
      modifies this`open
      ensures !open
    {
      open := false;
    }
  }
}
