/** The unsynchronised ring buffer under the buffered writer. */
module RingBuffer {
  import opened Common

  class RingBuffer {
    const buf: array<byte>
    var start: nat
    var length: nat

    ghost predicate Valid()
      reads this
    {
      1 <= buf.Length && start < buf.Length && length <= buf.Length
    }

    /** Where the i-th buffered byte lives. */
    ghost function Cell(i: nat): (c: nat)
      requires Valid() && i < buf.Length
      reads this
      ensures c < buf.Length
    {
      if start + i < buf.Length then start + i else start + i - buf.Length
    }

    ghost function Contents(): (s: seq<byte>)
      requires Valid()
      reads this, buf
      ensures |s| == length
    {
      seq(length, i requires 0 <= i < length && Valid() reads this, buf => buf[Cell(i)])
    }

    /** The range of the array that Peek(0) returns, or a front part of it. */
    ghost predicate Front(p: nat, l: nat)
      reads this
    {
      p == start && l <= length && p + l <= buf.Length
    }

    /** The source panics on an empty slice. */
    constructor (b: array<byte>)
      requires 1 <= b.Length
      ensures Valid() && buf == b && Contents() == []
    {
      buf := b;
      start, length := 0, 0;
    }

    function Free(): nat
      requires Valid()
      reads this
    {
      buf.Length - length
    }

    /** Copies up to the end of the array or the end of the free space.  The
        cells that hold buffered bytes keep their place and their value. */
    method WriteBlock(b: seq<byte>) returns (copied: nat)
      requires Valid()
      modifies this`length, buf
      ensures Valid() && copied <= |b| && copied <= old(Free())
      ensures copied == 0 <==> b == [] || old(Free()) == 0
      ensures Contents() == old(Contents()) + b[..copied]
      ensures forall i :: 0 <= i < old(length) ==> buf[Cell(i)] == old(buf[Cell(i)])
    {
      ModOnce(start + length, buf.Length);
      var end := (start + length) % buf.Length;
      var rem := buf.Length - length;
      var copyLen := |b|;
      if copyLen > rem {
        copyLen := rem;
      }
      if end + copyLen > buf.Length {
        copyLen := buf.Length - end;
      }
      forall i | 0 <= i < copyLen {
        buf[end + i] := b[i];
      }
      copied := copyLen;
      length := length + copied;
    }

    /** Appends what fits; full is ErrBufferFull. */
    method Append(b: seq<byte>) returns (n: nat, full: bool)
      requires Valid()
      modifies this`length, buf
      ensures Valid() && n == Min(|b|, old(Free())) && full == (n < |b|)
      ensures Contents() == old(Contents()) + b[..n]
      ensures forall i :: 0 <= i < old(length) ==> buf[Cell(i)] == old(buf[Cell(i)])
      ensures forall p: nat, l: nat :: old(Front(p, l)) ==> Front(p, l) && buf[p..p + l] == old(buf[p..p + l])
    {
      n := 0;
      while n < |b|
        invariant Valid() && n <= |b| && n + Free() == old(Free())
        invariant Contents() == old(Contents()) + b[..n]
        invariant forall i :: 0 <= i < old(length) ==> buf[Cell(i)] == old(buf[Cell(i)])
      {
        var written := WriteBlock(b[n..]);
        assert b[..n + written] == b[..n] + b[n..][..written];
        n := n + written;
        if written == 0 {
          break;
        }
      }
      forall p: nat, l: nat | old(Front(p, l)) ensures Front(p, l) && buf[p..p + l] == old(buf[p..p + l]) {
        forall j | p <= j < p + l ensures buf[j] == old(buf[j]) {
          assert Cell(j - p) == j;
        }
      }
      // The source panics here: "unexpected short write".
      assert !(n != |b| && Free() > 0);
      full := n < |b|;
    }

    /** The buffered bytes from off up to the end of the array, as the range of
        the underlying array that the returned slice shares. */
    method Peek(off: nat) returns (peekStart: nat, peekLen: nat)
      requires Valid() && off <= length
      ensures peekStart + peekLen <= buf.Length && peekLen <= length - off
      ensures off < length ==> peekLen == Min(length - off, buf.Length - Cell(off)) > 0
      ensures off == 0 ==> Front(peekStart, peekLen)
      ensures buf[peekStart..peekStart + peekLen] == Contents()[off..off + peekLen]
      ensures forall j :: off <= j < off + peekLen ==> Cell(j) == peekStart + (j - off)
    {
      if off == buf.Length {
        assert length == buf.Length;
      }
      ModOnce(start + off, buf.Length);
      peekStart := (start + off) % buf.Length;
      assert off < length ==> peekStart == Cell(off);
      peekLen := length - off;
      if peekStart + peekLen > buf.Length {
        peekLen := buf.Length - peekStart;
      }
    }

    /** Copies out the bytes from off, without consuming them. */
    method Fetch(b: array<byte>, off: nat) returns (fetchLen: nat)
      requires Valid() && off <= length && b != buf
      modifies b
      ensures fetchLen == Min(b.Length, length - off)
      ensures b[..fetchLen] == Contents()[off..off + fetchLen]
      ensures b[fetchLen..] == old(b[fetchLen..])
    {
      ModOnce(start + off, buf.Length);
      var fetchStart := (start + off) % buf.Length;
      fetchLen := b.Length;
      if fetchLen > length - off {
        fetchLen := length - off;
      }
      var n := fetchLen;
      if fetchStart + n > buf.Length {
        n := buf.Length - fetchStart;
      }
      forall i | 0 <= i < n {
        b[i] := buf[fetchStart + i];
      }
      forall i | 0 <= i < fetchLen - n {
        b[n + i] := buf[i];
      }
      forall i | 0 <= i < fetchLen
        ensures b[i] == Contents()[off..off + fetchLen][i]
      {
        assert Contents()[off + i] == buf[Cell(off + i)];
        if n <= i { assert b[i] == b[n + (i - n)] == buf[i - n]; }
      }
    }

    method Consume(count: nat)
      requires Valid() && count <= length
      modifies this
      ensures Valid() && Contents() == old(Contents())[count..]
    {
      ModOnce(start + count, buf.Length);
      start := (start + count) % buf.Length;
      length := length - count;
      if length == 0 {
        start := 0;
      }
    }
  }
}
