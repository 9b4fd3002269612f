/** The two ends of a connection as one process sees them. */
module Streams {
  import opened Bytes

  const INTERRUPTED := -1

  /** A buffer whose front has been overwritten by `got`. */
  ghost function Filled(was: seq<byte>, got: seq<byte>): seq<byte>
    requires |got| <= |was|
  {
    got + was[|got|..]
  }

  lemma FillMore(was: seq<byte>, at: seq<byte>, k: nat, n: nat)
    requires k + n <= |was| && k + n <= |at|
    ensures Filled(was, at[..k])[..k] + at[k..][..n] + Filled(was, at[..k])[k + n..] == Filled(was, at[..k + n])
    ensures at[k..][n..] == at[k + n..]
  {
  }

  /** A descriptor that is read from.  The bytes that will arrive before end of file are fixed in
      advance; how many of them each `Read` returns is not. */
  class Input {
    var pending: seq<byte>
    var interrupts: nat

    constructor (bytes: seq<byte>, signals: nat)
      ensures pending == bytes && interrupts == signals
    {
      pending, interrupts := bytes, signals;
    }

    /** One `read` of at most `max` bytes into `buf` at `off`. */
    method Read(buf: array<byte>, off: nat, max: nat) returns (n: int)
      requires 0 < max && off + max <= buf.Length
      modifies this, buf
      ensures INTERRUPTED <= n <= max && (n == INTERRUPTED <==> interrupts < old(interrupts))
      ensures n != INTERRUPTED ==> interrupts == old(interrupts)
      ensures n == INTERRUPTED ==> pending == old(pending) && buf[..] == old(buf[..])
      ensures n == 0 ==> pending == old(pending) == [] && buf[..] == old(buf[..])
      ensures n > 0 ==>
                && n <= |old(pending)| && pending == old(pending)[n..]
                && buf[..] == old(buf[..off]) + old(pending)[..n] + old(buf[off + n..])
    {
      var interrupted: bool := *;
      if interrupted && interrupts > 0 {
        interrupts := interrupts - 1;
        return INTERRUPTED;
      }
      if pending == [] {
        return 0;
      }
      n :| 0 < n <= max && n <= |pending|;
      forall i | 0 <= i < n {
        buf[off + i] := pending[i];
      }
      assert buf[..] == old(buf[..off]) + pending[..n] + old(buf[off + n..]);
      pending := pending[n..];
    }
  }

  datatype WriteResult = Done | Interrupted | Error

  /** A descriptor that is written to: a write is interrupted, fails for good, or takes it all. */
  class Output {
    var written: seq<byte>
    var interrupts: nat
    const broken: bool

    constructor (signals: nat, broken: bool)
      ensures written == [] && interrupts == signals && this.broken == broken
    {
      written, interrupts := [], signals;
      this.broken := broken;
    }

    method Write(bytes: seq<byte>) returns (r: WriteResult)
      modifies this
      ensures r == Done ==> !broken && written == old(written) + bytes && interrupts == old(interrupts)
      ensures r != Done ==> written == old(written)
      ensures r == Interrupted ==> interrupts < old(interrupts)
      ensures r == Error ==> broken && interrupts == old(interrupts)
    {
      var interrupted: bool := *;
      if interrupted && interrupts > 0 {
        interrupts := interrupts - 1;
        return Interrupted;
      }
      if broken {
        return Error;
      }
      written := written + bytes;
      return Done;
    }
  }
}
