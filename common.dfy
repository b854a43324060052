/**
 * Shared vocabulary of the model: results with error messages, bytes,
 * the zero-padded view of a file, and the raw file handle whose position
 * the seek and read calls move.
 */
module Common {

  /** A value or the message of the error the source throws. */
  datatype Result<T> = Ok(value: T) | Err(msg: string)

  datatype Option<T> = None | Some(value: T)

  /** A byte of the video file. */
  type byte = x: int | 0 <= x < 256

  function Min(a: int, b: int): int { if a <= b then a else b }

  /** The byte at position `p` of the file, or 0 outside it. */
  function ByteAt(data: seq<byte>, p: int): (b: byte)
    ensures b != 0 ==> 0 <= p < |data|
  {
    if 0 <= p < |data| then data[p] else 0
  }

  /** `n` bytes of `data` starting at `pos`; positions outside the file read as 0. */
  function ZeroPadded(data: seq<byte>, pos: int, n: nat): (r: seq<byte>)
    ensures |r| == n
    ensures forall k :: 0 <= k < n ==> r[k] == ByteAt(data, pos + k)
  {
    seq<byte>(n, k => ByteAt(data, pos + k))
  }

  /** How many bytes a read of `n` bytes at `pos` delivers. */
  function Available(len: nat, pos: nat, n: nat): (got: nat)
    ensures got <= n
    ensures pos + got <= len || got == 0
  {
    if pos >= len then 0 else Min(n, len - pos)
  }

  /** Two consecutive reads deliver the zero-padded bytes of one read of their total length. */
  lemma {:induction false} ZeroPaddedSplit(data: seq<byte>, pos: int, m: nat, n: nat)
    ensures ZeroPadded(data, pos, m + n) == ZeroPadded(data, pos, m) + ZeroPadded(data, pos + m, n)
  {
    var whole, left, right := ZeroPadded(data, pos, m + n), ZeroPadded(data, pos, m), ZeroPadded(data, pos + m, n);
    forall k | 0 <= k < m + n
      ensures whole[k] == (left + right)[k]
    {
      if k >= m {
        assert right[k - m] == ByteAt(data, pos + m + (k - m));
      }
    }
  }

  /** Sets `buff[0..n)` to zero (memset). */
  method Zero(buff: array<byte>, n: nat)
    requires n <= buff.Length
    modifies buff
    ensures forall k :: 0 <= k < n ==> buff[k] == 0
    ensures forall k :: n <= k < buff.Length ==> buff[k] == old(buff[k])
  {
    var i := 0;
    while i < n
      invariant i <= n
      invariant forall k :: 0 <= k < i ==> buff[k] == 0
      invariant forall k :: n <= k < buff.Length ==> buff[k] == old(buff[k])
    {
      buff[i] := 0;
      i := i + 1;
    }
  }

  /**
   * An open raw file: its contents (fixed) and the current file position.
   * Seeking and reading move the position as the operating system does.
   */
  class RawFile {
    const data: seq<byte>
    var pos: nat

    constructor (contents: seq<byte>)
      ensures data == contents && pos == 0
    {
      data := contents;
      pos := 0;
    }

    /**
     * Reading from the file position yields the bytes at logical position `at`: the
     * two are equal, or both lie at or past the end of the file, where every read
     * delivers nothing.
     */
    predicate ReadsAt(at: int)
      reads this
    {
      pos == at || (|data| <= pos && |data| <= at)
    }

    /** Absolute seek: a negative offset fails and leaves the position alone; past the end is allowed. */
    method Seek(off: int) returns (ok: bool)
      modifies this
      ensures ok == (off >= 0)
      ensures pos == if ok then off else old(pos)
      ensures ok ==> ReadsAt(off)
    {
      ok := off >= 0;
      if ok {
        pos := off;
      }
    }

    /** Reads up to `n` bytes into `buff[0..)`: fewer at the end of the file, none past it. */
    method Read(buff: array<byte>, n: nat) returns (got: nat)
      requires n <= buff.Length
      modifies this, buff
      ensures got == Available(|data|, old(pos), n)
      ensures pos == old(pos) + got
      ensures forall k :: 0 <= k < got ==> buff[k] == data[old(pos) + k]
      ensures forall k :: got <= k < buff.Length ==> buff[k] == old(buff[k])
    {
      got := Available(|data|, pos, n);
      var i := 0;
      while i < got
        invariant i <= got && pos == old(pos)
        invariant pos + got <= |data| || got == 0
        invariant forall k :: 0 <= k < i ==> buff[k] == data[pos + k]
        invariant forall k :: got <= k < buff.Length ==> buff[k] == old(buff[k])
      {
        buff[i] := data[pos + i];
        i := i + 1;
      }
      pos := pos + got;
    }

    /**
     * The writers' idiom: clear `n` bytes of the scratch buffer, then read `n` bytes
     * into it, so that whatever the file does not supply comes out as 0.  Read from
     * logical position `at`, the buffer holds the zero-padded bytes there, and the
     * file then reads at `at + n`, even when the read came up short.
     */
    method ZeroAndRead(buff: array<byte>, n: nat, ghost at: int)
      requires n <= buff.Length && ReadsAt(at)
      modifies this, buff
      ensures buff[..n] == ZeroPadded(data, at, n)
      ensures ReadsAt(at + n)
      ensures forall k :: n <= k < buff.Length ==> buff[k] == old(buff[k])
    {
      Zero(buff, n);
      var got := Read(buff, n);
      forall k | 0 <= k < n
        ensures buff[k] == ZeroPadded(data, at, n)[k]
      {
        if k < got {
          assert old(pos) == at;
        }
      }
    }
  }
}
