/**
 The receive buffer as a value: what the packet loop leaves in it, and which length the
 client then believes in.
 */
module Buffering {
  import opened Bytes
  import opened Framing

  /** The length field at the front of a buffer announces more than the buffer holds. */
  predicate TooLong(s: seq<byte>) {
    |s| >= 4 && Be32(s) > RECEIVE_BUFFER_SIZE
  }

  /** The buffer after its first packet, which lies within the first n octets, has been moved
      out: octets past the ones that moved stay where they are. */
  function Moved(buf: seq<byte>, n: nat): (r: seq<byte>)
    requires n <= |buf| && Complete(buf[..n])
    ensures |r| == |buf|
  {
    var k := 4 + Be32(buf[..n]);
    buf[k..n] + buf[n - k..]
  }

  /** The buffer once every complete packet of its first n octets has been moved out. */
  function Settled(buf: seq<byte>, n: nat): (r: seq<byte>)
    requires n <= |buf|
    ensures |r| == |buf|
    decreases n
  {
    if Complete(buf[..n]) then Settled(Moved(buf, n), n - 4 - Be32(buf[..n])) else buf
  }

  lemma MovedFront(buf: seq<byte>, n: nat)
    requires n <= |buf| && Complete(buf[..n])
    ensures Moved(buf, n)[..n - 4 - Be32(buf[..n])] == AfterFirst(buf[..n])
  {
  }

  /** The incomplete packet stands at the front of the settled buffer. */
  lemma {:induction false} SettledTail(buf: seq<byte>, n: nat)
    requires n <= |buf|
    ensures var t := Tail(buf[..n]);
      |t| <= n && Settled(buf, n)[..|t|] == t
    decreases n
  {
    if Complete(buf[..n]) {
      MovedFront(buf, n);
      SettledTail(Moved(buf, n), n - 4 - Be32(buf[..n]));
    }
  }

  /** The length the client reads from the settled buffer, stale octets standing in for
      header octets that have not arrived. */
  function Announced(buf: seq<byte>, n: nat): (v: nat)
    requires n <= |buf| && |buf| >= 4
    ensures v < TWO_32
  {
    Be32(Settled(buf, n))
  }

  lemma AnnouncedWhole(buf: seq<byte>, n: nat)
    requires n <= |buf| && |buf| >= 4 && |Tail(buf[..n])| >= 4
    ensures Announced(buf, n) == Be32(Tail(buf[..n]))
  {
    var t := Tail(buf[..n]);
    SettledTail(buf, n);
    assert Settled(buf, n)[..4] == t[..4];
  }

  /** Octets of a header that have not arrived read as zero, as far as they decide whether a
      packet is too long. */
  predicate ZerosFrom(buf: seq<byte>, n: nat) {
    forall j :: n <= j < 2 && j < |buf| ==> buf[j] == 0
  }

  lemma MovedZeros(buf: seq<byte>, n: nat)
    requires n <= |buf| && Complete(buf[..n])
    ensures ZerosFrom(Moved(buf, n), n - 4 - Be32(buf[..n]))
  {
    hide Be32;
    ShortHeader(buf[..n]);
    assert buf[0] == buf[..n][0] == 0 && buf[1] == buf[..n][1] == 0;
  }

  /** A packet that is moved out leaves the zeros of its own header behind. */
  lemma {:induction false} StaleZeros(buf: seq<byte>, n: nat)
    requires 4 <= |buf| && n <= |buf| && |Tail(buf[..n])| < 4 && (n >= 4 || ZerosFrom(buf, n))
    ensures ZerosFrom(Settled(buf, n), |Tail(buf[..n])|)
    decreases n
  {
    hide Moved, Be32;
    if Complete(buf[..n]) {
      MovedFront(buf, n);
      MovedZeros(buf, n);
      StaleZeros(Moved(buf, n), n - 4 - Be32(buf[..n]));
    }
  }

  /** When a read leaves part of a header, disposal starts just when the announced length,
      stale octets included, is too large. If the read left at least four octets in the
      buffer, or the octets not yet there were zero, then the header octets present decide. */
  lemma DisposalIff(buf: seq<byte>, n: nat)
    requires 4 <= |buf| && n <= |buf| && |Tail(buf[..n])| < 4 && (n >= 4 || ZerosFrom(buf, n))
    ensures Announced(buf, n) > RECEIVE_BUFFER_SIZE <==> !HeaderAtMost(Tail(buf[..n]), RECEIVE_BUFFER_SIZE)
  {
    var t := Tail(buf[..n]);
    SettledTail(buf, n);
    StaleZeros(buf, n);
    ShortHeader(Settled(buf, n));
    assert forall j :: 0 <= j < |t| ==> Settled(buf, n)[j] == t[j];
  }

  /** After an announced length that fits, the first two octets of the buffer are zero. */
  lemma FittingIsZeros(buf: seq<byte>, n: nat)
    requires 4 <= |buf| && n <= |buf| && Announced(buf, n) <= RECEIVE_BUFFER_SIZE
    ensures ZerosFrom(Settled(buf, n), 0)
  {
    ShortHeader(Settled(buf, n));
  }

  // ---------------------------------------------------------------- alignment

  /** How many octets disposal takes from the transport. */
  function Missing(buf: seq<byte>, n: nat): (m: nat)
    requires 4 <= |buf| <= RECEIVE_BUFFER_SIZE && n <= |buf| && Announced(buf, n) > RECEIVE_BUFFER_SIZE
  {
    Announced(buf, n) - (|Tail(buf[..n])| - 4)
  }

  /** What is still to come of a stream after an update that read n octets in all: the
      incomplete packet and the rest, or the rest from where disposal stops. */
  function Remaining(buf: seq<byte>, n: nat, rest: seq<byte>): seq<byte>
    requires 4 <= |buf| <= RECEIVE_BUFFER_SIZE && n <= |buf|
  {
    if Announced(buf, n) <= RECEIVE_BUFFER_SIZE then Tail(buf[..n]) + rest
    else if Missing(buf, n) <= |rest| then rest[Missing(buf, n)..]
    else []
  }

  /** The next octet to be looked at is the first of the packet under way, or the first one
      after it. */
  predicate Aligned(stream: seq<byte>, remaining: seq<byte>)
    requires |stream| >= 4
  {
    || remaining == stream
    || (4 + Be32(stream) <= |stream| && remaining == stream[4 + Be32(stream)..])
  }

  lemma Be32Injective(s: seq<byte>, t: seq<byte>)
    requires |s| >= 4 && |t| >= 4
    ensures Be32(s) == Be32(t) <==> s[..4] == t[..4]
  {
    Be32Prefix(s, []);
    Be32Prefix(t, []);
  }

  /** With one to three octets of a header read, the client stays aligned exactly when no
      disposal starts or the stale octets of the buffer are the header octets still to come. */
  lemma SplitHeaderIff(buf: seq<byte>, n: nat, rest: seq<byte>)
    requires 4 <= |buf| <= RECEIVE_BUFFER_SIZE && n <= |buf|
    requires var t := Tail(buf[..n]);
      1 <= |t| < 4 && |t + rest| >= 4 && 4 + Be32(t + rest) <= |t + rest|
    requires Announced(buf, n) > RECEIVE_BUFFER_SIZE ==> Missing(buf, n) <= |rest|
    ensures var t := Tail(buf[..n]);
      Aligned(t + rest, Remaining(buf, n, rest)) <==>
        Announced(buf, n) <= RECEIVE_BUFFER_SIZE || Settled(buf, n)[|t|..4] == rest[..4 - |t|]
  {
    var t, settled := Tail(buf[..n]), Settled(buf, n);
    var stream := t + rest;
    SettledTail(buf, n);
    Be32Injective(settled, stream);
    assert settled[..4] == t + settled[|t|..4];
    assert stream[..4] == t + rest[..4 - |t|];
    assert settled[..4] == stream[..4] <==> settled[|t|..4] == rest[..4 - |t|] by {
      assert settled[..4][|t|..] == settled[|t|..4];
      assert stream[..4][|t|..] == rest[..4 - |t|];
    }
    if Announced(buf, n) > RECEIVE_BUFFER_SIZE {
      assert |Remaining(buf, n, rest)| == |rest| - Missing(buf, n);
      if settled[..4] == stream[..4] {
        assert Remaining(buf, n, rest) == stream[4 + Be32(stream)..];
      }
    }
  }

  /** A buffer with stale octets behind the start of a header. */
  function Stale(front: seq<byte>): (buf: seq<byte>)
    requires |front| == 4
    ensures |buf| == RECEIVE_BUFFER_SIZE && buf[..4] == front
  {
    front + seq(RECEIVE_BUFFER_SIZE - 4, _ => 0)
  }

  lemma NothingMoved(front: seq<byte>, n: nat)
    requires |front| == 4 && n < 4
    ensures Tail(Stale(front)[..n]) == front[..n]
    ensures Announced(Stale(front), n) == Be32(front)
  {
    assert Stale(front)[..n] == front[..n];
    Be32Injective(Stale(front), front);
  }

  /** Two inputs at which alignment is lost. A packet of 0x10000 octets, half of whose header
      arrives over stale octets 0 and 1: one octet too many goes. And a packet of four octets,
      one octet of whose header arrives over a stale 7: more than 0x70000 octets go. */
  lemma SplitHeaderFails(rest: seq<byte>)
    requires |rest| == 0x8_0000
    ensures var buf, stream := Stale([0, 1, 0, 1]), [0, 1, 0, 0] + rest;
      && Tail(buf[..2]) == [0, 1] && !Aligned(stream, Remaining(buf, 2, [0, 0] + rest))
    ensures var buf, stream := Stale([0, 7, 0, 0]), [0, 0, 0, 4] + rest;
      && Tail(buf[..1]) == [0] && !Aligned(stream, Remaining(buf, 1, [0, 0, 4] + rest))
  {
    NothingMoved([0, 1, 0, 1], 2);
    ShiftedValue([0, 1, 0, 1]);
    ShiftedValue([0, 1, 0, 0] + rest);
    NothingMoved([0, 7, 0, 0], 1);
    ShiftedValue([0, 7, 0, 0]);
    ShiftedValue([0, 0, 0, 4] + rest);
  }
}
