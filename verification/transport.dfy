/**
 The transport as the engine sees it: octets arrive in pieces of a size it does not
 choose. A read that yields nothing is reported as a failure, as syn_recv does.
 */
module Transport {
  import opened Basics
  import opened Bytes

  class Socket {
    var incoming: seq<byte>
    var readCount: nat
    /** How much the n-th read would like to deliver; 0 makes it fail. */
    const cut: nat -> nat

    constructor (incoming: seq<byte>, cut: nat -> nat)
      ensures this.incoming == incoming && this.readCount == 0 && this.cut == cut
    {
      this.incoming, this.readCount, this.cut := incoming, 0, cut;
    }

    /** How much the next read for at most max octets delivers. */
    function Amount(max: nat): (n: nat)
      reads this
      ensures n <= max && n <= |incoming|
    {
      Min(cut(readCount), Min(max, |incoming|))
    }

    method Receive(buf: array<byte>, at: nat, max: nat) returns (ok: bool, n: nat)
      requires at + max <= buf.Length
      modifies this, buf
      ensures n == old(Amount(max)) && ok == (n > 0)
      ensures readCount == old(readCount) + 1
      ensures incoming == old(incoming)[n..]
      ensures buf[..] == old(buf[..])[..at] + old(incoming)[..n] + old(buf[..])[at + n..]
    {
      n := Amount(max);
      ok := n > 0;
      ghost var got := incoming[..n];
      forall i | 0 <= i < n {
        buf[at + i] := incoming[i];
      }
      assert forall i {:trigger got[i]} :: 0 <= i < n ==> buf[at + i] == got[i];
      assert buf[at..at + n] == got;
      assert buf[..] == buf[..at] + buf[at..at + n] + buf[at + n..];
      incoming := incoming[n..];
      readCount := readCount + 1;
    }
  }
}
