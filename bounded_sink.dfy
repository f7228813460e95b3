/** The write target a stream hands to the channel: a fixed window
    `[offset, offset + length)` of the caller's array that accepts at most
    `length` bytes in total. */
module BoundedSinks {
  import opened JavaTypes

  /** `s` with `w` written over it, starting at index `at`. */
  function Overwrite(s: seq<byte>, at: nat, w: seq<byte>): (r: seq<byte>)
    requires at + |w| <= |s|
    ensures |r| == |s|
    ensures forall i :: 0 <= i < |s| ==> r[i] == if at <= i < at + |w| then w[i - at] else s[i]
  {
    s[..at] + w + s[at + |w|..]
  }

  /** Writing `w1` and then `w2` right after it is writing `w1 + w2`. */
  lemma OverwriteTwice(s: seq<byte>, at: nat, w1: seq<byte>, w2: seq<byte>)
    requires at + |w1| + |w2| <= |s|
    ensures Overwrite(Overwrite(s, at, w1), at + |w1|, w2) == Overwrite(s, at, w1 + w2)
  {
    var lhs := Overwrite(Overwrite(s, at, w1), at + |w1|, w2);
    var rhs := Overwrite(s, at, w1 + w2);
    forall i | 0 <= i < |s| ensures lhs[i] == rhs[i] {
      if at + |w1| <= i < at + |w1| + |w2| {
        assert (w1 + w2)[i - at] == w2[i - at - |w1|];
      } else if at <= i < at + |w1| {
        assert (w1 + w2)[i - at] == w1[i - at];
      }
    }
  }

  /** Writing nothing changes nothing. */
  lemma OverwriteEmpty(s: seq<byte>, at: nat)
    requires at <= |s|
    ensures Overwrite(s, at, []) == s
  {
  }

  class BoundedSink {
    const buf: array<byte>
    const offset: nat
    const length: nat
    var written: nat

    ghost predicate Valid()
      reads this
    {
      offset + length <= buf.Length && written <= length
    }

    constructor (buf: array<byte>, offset: nat, length: nat)
      requires offset + length <= buf.Length
      ensures Valid()
      ensures this.buf == buf && this.offset == offset && this.length == length && written == 0
    {
      this.buf := buf;
      this.offset := offset;
      this.length := length;
      written := 0;
    }

    /** Room left in the window. */
    function Remaining(): (n: nat)
      reads this
      requires Valid()
      ensures written + n == length
    {
      length - written
    }

    predicate IsFull()
      reads this
      requires Valid()
      ensures IsFull() <==> Remaining() == 0
    {
      written == length
    }

    /** Accepts as much of `src` as fits, copying it right after the bytes
        already accepted; returns how many bytes it took. */
    method Write(src: seq<byte>) returns (n: nat)
      requires Valid()
      modifies this`written, buf
      ensures Valid()
      ensures n == Min(|src|, old(Remaining()))
      ensures written == old(written) + n
      ensures buf[..] == Overwrite(old(buf[..]), offset + old(written), src[..n])
    {
      n := Min(|src|, length - written);
      var at := offset + written;
      for i := 0 to n
        invariant written == old(written)
        invariant buf[..] == Overwrite(old(buf[..]), at, src[..i])
      {
        OverwriteTwice(old(buf[..]), at, src[..i], [src[i]]);
        assert src[..i] + [src[i]] == src[..i + 1];
        buf[at + i] := src[i];
      }
      written := written + n;
    }
  }
}
