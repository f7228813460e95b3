/** A channel over an in-memory byte buffer that answers its first
    `haltTimes` reads with 0 bytes ("nothing yet") before it hands out data. */
module HaltingChannels {
  import opened JavaTypes
  import opened Outcomes
  import opened BoundedSinks

  /** What a read can see and change of the channel: the open flag, the stall
      counter (a Java `int`) and the read position in the data. */
  datatype ChannelState = ChannelState(open: bool, haltTimes: int, pos: nat)

  ghost predicate StateFits(data: seq<byte>, st: ChannelState) {
    st.pos <= |data| && IsInt(st.haltTimes)
  }

  /** One `read` into a sink with `room` free bytes: the reply and the state after it.
      A reply `Ok(n)` with `n > 0` means the bytes `data[st.pos..st.pos + n]` went to the sink. */
  function ReadStep(data: seq<byte>, st: ChannelState, room: nat): (out: (Result<int>, ChannelState))
    requires StateFits(data, st)
    ensures StateFits(data, out.1)
    // a closed channel throws and touches neither the counter nor the data
    ensures !st.open ==> out == (Err(ClosedChannel), st)
    // an open channel spends one unit of the counter on every call, stall or not
    ensures st.open ==> out.1.open && out.1.haltTimes == Decrement(st.haltTimes)
    // while credits remain: 0 bytes, data untouched
    ensures st.open && st.haltTimes > 0 ==> out.0 == Ok(0) && out.1.pos == st.pos
    // credits used up: EOF exactly when no data remains
    ensures st.open && st.haltTimes <= 0 ==> (out.0 == Ok(-1) <==> st.pos == |data|)
    ensures st.open && st.haltTimes <= 0 && st.pos == |data| ==> out.1.pos == st.pos
    // otherwise as many bytes as both the sink and the data allow
    ensures st.open && st.haltTimes <= 0 && st.pos < |data| ==>
      var n := Min(room, |data| - st.pos);
      out.0 == Ok(n) && out.1.pos == st.pos + n
  {
    if !st.open then
      (Err(ClosedChannel), st)
    else
      var st' := st.(haltTimes := Decrement(st.haltTimes));
      if st.haltTimes > 0 then
        (Ok(0), st')
      else if st.pos == |data| then
        (Ok(-1), st')
      else
        var n := Min(room, |data| - st.pos);
        (Ok(n), st'.(pos := st.pos + n))
  }

  /** Successive reads into sinks with the given free room; the replies in order and the final state. */
  function Run(data: seq<byte>, st: ChannelState, rooms: seq<nat>): (out: (seq<Result<int>>, ChannelState))
    requires StateFits(data, st)
    ensures |out.0| == |rooms| && StateFits(data, out.1)
    decreases |rooms|
  {
    if rooms == [] then
      ([], st)
    else
      var (reply, st') := ReadStep(data, st, rooms[0]);
      var (replies, last) := Run(data, st', rooms[1..]);
      ([reply] + replies, last)
  }

  /** Set up with N stalls, the first N reads (N or fewer) answer 0 and consume no data. */
  lemma {:induction false} StallsComeFirst(data: seq<byte>, st: ChannelState, rooms: seq<nat>)
    requires StateFits(data, st) && st.open && |rooms| <= st.haltTimes
    ensures forall i :: 0 <= i < |rooms| ==> Run(data, st, rooms).0[i] == Ok(0)
    ensures Run(data, st, rooms).1 == st.(haltTimes := st.haltTimes - |rooms|)
    decreases |rooms|
  {
    if rooms != [] {
      var st' := ReadStep(data, st, rooms[0]).1;
      StallsComeFirst(data, st', rooms[1..]);
    }
  }

  /** After close every read throws, and nothing about the channel changes. */
  lemma {:induction false} ClosedStaysClosed(data: seq<byte>, st: ChannelState, rooms: seq<nat>)
    requires StateFits(data, st) && !st.open
    ensures forall i :: 0 <= i < |rooms| ==> Run(data, st, rooms).0[i] == Err(ClosedChannel)
    ensures Run(data, st, rooms).1 == st
    decreases |rooms|
  {
    if rooms != [] {
      ClosedStaysClosed(data, st, rooms[1..]);
    }
  }

  /** With the counter at or below zero and the data used up, every read
      answers EOF up to the point where the counter wraps around. */
  lemma {:induction false} EofRepeats(data: seq<byte>, st: ChannelState, rooms: seq<nat>)
    requires StateFits(data, st) && st.open && st.haltTimes <= 0 && st.pos == |data|
    requires |rooms| <= st.haltTimes - INT_MIN + 1
    ensures forall i :: 0 <= i < |rooms| ==> Run(data, st, rooms).0[i] == Ok(-1)
    ensures Run(data, st, rooms).1.pos == |data|
    decreases |rooms|
  {
    if rooms != [] && st.haltTimes > INT_MIN {
      var st' := ReadStep(data, st, rooms[0]).1;
      EofRepeats(data, st', rooms[1..]);
    }
  }

  /** The counter is decremented on every open read, also after the stalls:
      once it has gone down to the smallest `int` it wraps to the largest and
      the channel stalls again. */
  lemma CounterWraps(data: seq<byte>, st: ChannelState, room1: nat, room2: nat)
    requires StateFits(data, st) && st.open && st.haltTimes == INT_MIN
    ensures ReadStep(data, st, room1).1.haltTimes == INT_MAX
    ensures ReadStep(data, ReadStep(data, st, room1).1, room2).0 == Ok(0)
  {
  }

  class HaltingReadableStreamChannel {
    var open: bool
    var haltTimes: int
    const data: seq<byte>
    var pos: nat

    ghost predicate Valid()
      reads this
    {
      StateFits(data, State())
    }

    function State(): ChannelState
      reads this
    {
      ChannelState(open, haltTimes, pos)
    }

    /** A channel over the given data, read position 0, that stalls `haltTimes` times. */
    constructor (data: seq<byte>, haltTimes: int)
      requires IsInt(haltTimes)
      ensures Valid() && this.data == data
      ensures State() == ChannelState(true, haltTimes, 0)
    {
      open := true;
      this.haltTimes := haltTimes;
      this.data := data;
      pos := 0;
    }

    /** The data limit: consumed plus unconsumed bytes, whatever has been read. */
    function GetSize(): (size: int)
      reads this
      requires Valid()
      ensures size == pos + |data[pos..]|
    {
      |data|
    }

    /** Pushes the next bytes into `sink` as `ReadStep` says, reading directly
        from the data at the read position. */
    method Read(sink: BoundedSink) returns (r: Result<int>)
      requires Valid() && sink.Valid()
      modifies this, sink, sink.buf
      ensures Valid() && sink.Valid()
      ensures (r, State()) == ReadStep(data, old(State()), old(sink.Remaining()))
      ensures sink.written == old(sink.written) + (pos - old(pos))
      ensures sink.buf[..] == Overwrite(old(sink.buf[..]), sink.offset + old(sink.written), data[old(pos)..pos])
    {
      if !open {
        OverwriteEmpty(sink.buf[..], sink.offset + sink.written);
        return Err(ClosedChannel);
      }
      var halted := haltTimes;
      haltTimes := Decrement(halted);
      if halted > 0 {
        OverwriteEmpty(sink.buf[..], sink.offset + sink.written);
        return Ok(0);
      }
      if pos == |data| {
        OverwriteEmpty(sink.buf[..], sink.offset + sink.written);
        return Ok(-1);
      }
      var n := sink.Write(data[pos..]);
      assert data[pos..][..n] == data[pos..pos + n];
      pos := pos + n;
      return Ok(n);
    }

    /** Marks the channel closed; closing a closed channel changes nothing. */
    method Close()
      modifies this`open
      ensures State() == old(State()).(open := false)
    {
      open := false;
    }
  }
}
