/**
 The receiving side: the fixed receive buffer, the packet loop over it and the disposal
 of oversized packets.
 */
module Receive {
  import opened Bytes
  import opened Framing
  import opened Protocol
  import opened Ssp
  import opened Engine
  import opened Transport
  import opened Buffering
  import opened Runs

  /** A round of the packet loop leaves a buffer like the one before it. */
  lemma LoopStep(env: Env, st: State, buf: seq<byte>, n: nat)
    requires st.Sound() && st.connected && n <= |buf| && Complete(buf[..n]) && AllAdmissible(Frames(buf[..n]))
    ensures var body, left := FirstBody(buf[..n]), n - 4 - Be32(buf[..n]);
      && Admissible(body)
      && var rest := Moved(buf, n)[..left];
         && rest == AfterFirst(buf[..n])
         && AllAdmissible(Frames(rest)) && Tail(rest) == Tail(buf[..n])
         && Settled(Moved(buf, n), left) == Settled(buf, n)
         && Dispatch(env, Process(env, st, body), Frames(rest)) == Dispatch(env, st, Frames(buf[..n]))
         && (!Process(env, st, body).connected ==> Process(env, st, body) == Dispatch(env, st, Frames(buf[..n])))
  {
    hide Process, Admissible;
    MovedFront(buf, n);
    var frames := Frames(buf[..n]);
    assert frames[0] == FirstBody(buf[..n]) && frames[1..] == Frames(AfterFirst(buf[..n]));
    assert frames[0] in frames;
  }

  lemma LoopEnd(env: Env, st: State, buf: seq<byte>, n: nat)
    requires st.Sound() && n <= |buf| && AllAdmissible(Frames(buf[..n])) && !Complete(buf[..n])
    ensures Dispatch(env, st, Frames(buf[..n])) == st
    ensures Tail(buf[..n]) == buf[..n] && Settled(buf, n) == buf
  {
  }

  class Receiver {
    const ctx: Context
    const rx: array<byte>
    const net: Socket

    ghost predicate Valid()
      reads ctx, ctx.reply, ctx.reply.buf, ctx.clip0, ctx.clip0.buf, ctx.clip1, ctx.clip1.buf
    {
      && ctx.Valid()
      && rx.Length == RECEIVE_BUFFER_SIZE
      && ctx.receiveOfs <= RECEIVE_BUFFER_SIZE
      && ctx.Outside(rx)
    }

    /** The received octets not yet consumed. */
    ghost function Buffered(): seq<byte>
      reads ctx, rx
      requires ctx.receiveOfs <= rx.Length
    {
      rx[..][..ctx.receiveOfs]
    }

    /** Octets left over from earlier packets cannot make the start of a header look like a
        large length. */
    ghost predicate HeaderSafe()
      reads ctx, rx
    {
      ZerosFrom(rx[..], ctx.receiveOfs)
    }

    constructor (ctx: Context, net: Socket)
      requires ctx.Valid() && ctx.receiveOfs == 0
      ensures Valid() && HeaderSafe() && Buffered() == [] && this.ctx == ctx && this.net == net && fresh(rx)
    {
      this.ctx := ctx;
      this.net := net;
      this.rx := new byte[RECEIVE_BUFFER_SIZE](_ => 0);
    }

    /** What the length field says, even when it is not all there. */
    method PeekLength() returns (packlen: nat)
      requires Valid()
      requires !Complete(Buffered()) ==> Announced(rx[..], ctx.receiveOfs) < TWO_31
      ensures Complete(Buffered()) ==> packlen == Be32(Buffered())
      ensures !Complete(Buffered()) ==> packlen == Announced(rx[..], ctx.receiveOfs)
      ensures (packlen + 4) % TWO_32 > ctx.receiveOfs <==> !Complete(Buffered())
    {
      packlen := Be32(rx[..4]);
      assert rx[..][..4] == rx[..4][..4];
      assert rx[..][..ctx.receiveOfs] == Buffered();
      assert ctx.receiveOfs >= 4 ==> Buffered()[..4] == rx[..4][..4];
    }

    /** memmove of what follows the first packet to the front of the buffer. */
    method DropPacket(packlen: nat)
      requires Valid() && Complete(Buffered()) && packlen == Be32(Buffered())
      modifies rx, ctx`receiveOfs
      ensures Valid() && ctx.View() == old(ctx.View())
      ensures ctx.receiveOfs == old(ctx.receiveOfs) - 4 - packlen
      ensures rx[..] == Moved(old(rx[..]), old(ctx.receiveOfs)) && Buffered() == AfterFirst(old(Buffered()))
    {
      hide Be32;
      ghost var was, n := rx[..], ctx.receiveOfs;
      assert was[..n] == Buffered();
      var left := ctx.receiveOfs - (packlen + 4);
      forall i | 0 <= i < left {
        rx[i] := rx[packlen + 4 + i];
      }
      assert rx[..left] == was[packlen + 4..n];
      assert rx[left..] == was[left..];
      assert rx[..] == rx[..left] + rx[left..];
      MovedFront(was, n);
      ctx.receiveOfs := left;
    }

    /** One round of the packet loop. */
    method EatPacket(packlen: nat)
      requires Valid() && ctx.connected
      requires Complete(Buffered()) && packlen == Be32(Buffered()) && Admissible(FirstBody(Buffered()))
      modifies ctx, ctx.reply, ctx.reply.buf, ctx.clip0, ctx.clip0.buf, ctx.clip1, ctx.clip1.buf, rx
      ensures Valid() && ctx.BufsKept() && ctx.Config() == old(ctx.Config())
      ensures ctx.View() == Process(ctx.Config(), old(ctx.View()), FirstBody(old(Buffered())))
      ensures !ctx.connected ==>
        && rx[..] == old(rx[..])
        && ctx.receiveOfs == if Closing(FirstBody(old(Buffered()))).Some? then 0 else old(ctx.receiveOfs)
      ensures ctx.connected ==>
        && ctx.receiveOfs == old(ctx.receiveOfs) - 4 - packlen
        && rx[..] == Moved(old(rx[..]), old(ctx.receiveOfs)) && Buffered() == AfterFirst(old(Buffered()))
    {
      hide Process, Admissible, Moved, Closing;
      ghost var all := Buffered();
      var msg := new SspBuf(rx, 4, packlen);
      assert msg.Body() == rx[4..4 + packlen] == all[4..4 + packlen] == FirstBody(all);
      ctx.ProcessMessage(msg);
      if ctx.connected {
        DropPacket(packlen);
      }
    }

    /** The packet loop is under way: it will end in state `end` with this buffer. */
    ghost predicate Eating(env: Env, end: State, settled: seq<byte>, tail: seq<byte>)
      reads ctx, rx, ctx.reply, ctx.reply.buf, ctx.clip0, ctx.clip0.buf, ctx.clip1, ctx.clip1.buf
      ensures Eating(env, end, settled, tail) ==> Valid() && ctx.connected && ctx.Config() == env
    {
      && Valid() && ctx.connected && ctx.Config() == env
      && AllAdmissible(Frames(Buffered())) && Dispatch(env, ctx.View(), Frames(Buffered())) == end
      && Settled(rx[..], ctx.receiveOfs) == settled && Tail(Buffered()) == tail
    }

    /** One round of it. */
    method EatRound(packlen: nat, ghost env: Env, ghost end: State, ghost settled: seq<byte>, ghost tail: seq<byte>)
      requires Eating(env, end, settled, tail) && Complete(Buffered()) && packlen == Be32(Buffered())
      modifies ctx, ctx.reply, ctx.reply.buf, ctx.clip0, ctx.clip0.buf, ctx.clip1, ctx.clip1.buf, rx
      ensures Valid() && ctx.BufsKept() && ctx.Config() == env
      ensures if ctx.connected then Eating(env, end, settled, tail) && ctx.receiveOfs < old(ctx.receiveOfs)
        else ctx.View() == end
    {
      hide Frames, Tail, Dispatch, Process, Admissible, Moved, Settled, Be32, AfterFirst, FirstBody;
      LoopStep(env, ctx.View(), rx[..], ctx.receiveOfs);
      EatPacket(packlen);
    }

    /** Where it ends. */
    lemma EatenUp(env: Env, end: State, settled: seq<byte>, tail: seq<byte>)
      requires Eating(env, end, settled, tail) && !Complete(Buffered())
      ensures ctx.View() == end && rx[..] == settled && Buffered() == tail
      ensures Announced(rx[..], ctx.receiveOfs) == Be32(settled)
    {
      hide Frames, Tail, Dispatch, Process, Admissible, Be32;
      LoopEnd(env, ctx.View(), rx[..], ctx.receiveOfs);
    }

    /** The packet loop. */
    method EatAll(ghost env: Env, ghost end: State, ghost settled: seq<byte>, ghost tail: seq<byte>)
      returns (packlen: nat)
      requires Eating(env, end, settled, tail)
      requires |settled| == RECEIVE_BUFFER_SIZE && (end.connected ==> Be32(settled) < TWO_31)
      modifies ctx, ctx.reply, ctx.reply.buf, ctx.clip0, ctx.clip0.buf, ctx.clip1, ctx.clip1.buf, rx
      ensures Valid() && ctx.BufsKept() && ctx.Config() == env && ctx.View() == end
      ensures ctx.connected ==> rx[..] == settled && Buffered() == tail && packlen == Be32(settled)
    {
      hide Eating, Be32, Complete, Announced;
      while true
        invariant Eating(env, end, settled, tail) && ctx.BufsKept()
        decreases ctx.receiveOfs
      {
        if !Complete(Buffered()) {
          EatenUp(env, end, settled, tail);
        }
        packlen := PeekLength();
        if (packlen + 4) % TWO_32 > ctx.receiveOfs {
          break;
        }
        EatRound(packlen, env, end, settled, tail);
        if !ctx.connected {
          return;
        }
      }
    }

    /** Exactly the complete packets are dispatched, whatever stale octets stand behind the
        received ones. */
    method EatPackets() returns (packlen: nat)
      requires Valid() && ctx.connected && AllAdmissible(Frames(Buffered()))
      requires Dispatch(ctx.Config(), ctx.View(), Frames(Buffered())).connected ==>
        Announced(rx[..], ctx.receiveOfs) < TWO_31
      modifies ctx, ctx.reply, ctx.reply.buf, ctx.clip0, ctx.clip0.buf, ctx.clip1, ctx.clip1.buf, rx
      ensures Valid() && ctx.BufsKept() && ctx.Config() == old(ctx.Config())
      ensures ctx.View() == Dispatch(ctx.Config(), old(ctx.View()), Frames(old(Buffered())))
      ensures ctx.connected ==>
        && rx[..] == Settled(old(rx[..]), old(ctx.receiveOfs)) && Buffered() == Tail(old(Buffered()))
        && packlen == Announced(old(rx[..]), old(ctx.receiveOfs))
    {
      hide Frames, Tail, Dispatch, Process, Admissible, Settled, Be32;
      packlen := EatAll(ctx.Config(), Dispatch(ctx.Config(), ctx.View(), Frames(Buffered())),
                        Settled(rx[..], ctx.receiveOfs), Tail(Buffered()));
    }

    /** The disposal loop, until `packlen` octets of the packet are accounted for. */
    method Ditch(counted: int, packlen: nat) returns (ok: bool)
      requires rx.Length == RECEIVE_BUFFER_SIZE && counted <= packlen
      modifies rx, net
      ensures var m := Disposal(net.cut, old(net.readCount), old(rx[..]), old(net.incoming), packlen - counted);
        && ok == m.Some?
        && (ok ==> m.value == Machine(rx[..], 0, net.incoming, net.readCount))
    {
      hide Disposal;
      var received := counted;
      while received != packlen
        invariant counted <= received <= packlen
        invariant Disposal(net.cut, net.readCount, rx[..], net.incoming, packlen - received)
          == Disposal(net.cut, old(net.readCount), old(rx[..]), old(net.incoming), packlen - counted)
        decreases packlen - received
      {
        DisposalStep(net.cut, net.readCount, rx[..], net.incoming, packlen - received);
        var bufferLeft := packlen - received;
        var toReceive := if bufferLeft < RECEIVE_BUFFER_SIZE then bufferLeft else RECEIVE_BUFFER_SIZE;
        var n;
        ok, n := net.Receive(rx, 0, toReceive);
        if !ok {
          return;
        }
        received := received + n;
      }
      DisposalDone(net.cut, net.readCount, rx[..], net.incoming);
      ok := true;
    }

    /** Disposal of a packet that is believed to be longer than the buffer: as many octets
        are consumed as are then missing, those already buffered counted in. */
    method DiscardOversized(packlen: nat)
      requires Valid() && ctx.connected
      requires RECEIVE_BUFFER_SIZE < packlen < TWO_31
      modifies ctx, ctx.reply, rx, net
      ensures Valid() && ctx.receiveOfs == 0
      ensures var m := Disposal(net.cut, old(net.readCount), old(rx[..]), old(net.incoming),
                                packlen - (old(ctx.receiveOfs) - 4));
        if m.Some? then ctx.View() == old(ctx.View()) && Now() == m.value
        else ctx.View() == Disconnected(old(ctx.View()), Timeout)
    {
      hide Disposal;
      var ok := Ditch(ctx.receiveOfs - 4, packlen);
      if !ok {
        ctx.SetDisconnected(Timeout);
      }
      ctx.receiveOfs := 0;
    }

    ghost function Now(): Machine
      reads ctx, rx, net
    {
      Machine(rx[..], ctx.receiveOfs, net.incoming, net.readCount)
    }

    /** The first read of sUpdateContext. */
    method Read() returns (ok: bool)
      requires Valid() && ctx.connected
      modifies ctx`receiveOfs, rx, net
      ensures Valid() && ctx.View() == old(ctx.View())
      ensures var m := old(Now());
        && ok == (m.Arriving(net.cut) > 0)
        && Now() == Machine(m.Filled(net.cut), m.Reached(net.cut), m.Rest(net.cut), m.readCount + 1)
    {
      var size := RECEIVE_BUFFER_SIZE - ctx.receiveOfs;
      var n;
      ghost var m := Now();
      ok, n := net.Receive(rx, ctx.receiveOfs, size);
      assert rx[..] == m.Filled(net.cut);
      ctx.receiveOfs := ctx.receiveOfs + n;
    }

    /** The engine and its input are as an update, or a run, leaves them. */
    ghost predicate At(e: End)
      requires Valid()
      reads ctx, rx, net, ctx.reply, ctx.reply.buf, ctx.clip0, ctx.clip0.buf, ctx.clip1, ctx.clip1.buf
    {
      ctx.View() == e.st && (e.Waiting? ==> Now() == e.m)
    }

    /** What sUpdateContext does after its first read: every packet it completes is dispatched,
        and one believed to be oversized is disposed of. */
    method DigestPackets()
      requires Valid() && ctx.connected && AllAdmissible(Frames(Buffered()))
      requires Dispatch(ctx.Config(), ctx.View(), Frames(Buffered())).connected ==>
        Announced(rx[..], ctx.receiveOfs) < TWO_31
      modifies ctx, ctx.reply, ctx.reply.buf, ctx.clip0, ctx.clip0.buf, ctx.clip1, ctx.clip1.buf, rx, net
      ensures Valid() && ctx.BufsKept() && ctx.Config() == old(ctx.Config())
      ensures At(Digest(old(ctx.Config()), old(ctx.View()), net.cut, old(Now())))
    {
      hide Frames, Tail, Dispatch, Settled, Process, Admissible, Announced, Disposal;
      ghost var buf, n := rx[..], ctx.receiveOfs;
      var packlen := EatPackets();
      if ctx.connected {
        assert ctx.receiveOfs == |Tail(buf[..n])|;
        if packlen > RECEIVE_BUFFER_SIZE {
          DiscardOversized(packlen);
        }
      }
    }

    /** sUpdateContext */
    method UpdateContext()
      requires Valid() && ctx.connected && Meaningful(ctx.Config(), ctx.View(), net.cut, Now())
      modifies ctx, ctx.reply, ctx.reply.buf, ctx.clip0, ctx.clip0.buf, ctx.clip1, ctx.clip1.buf, rx, net
      ensures Valid() && ctx.BufsKept() && ctx.Config() == old(ctx.Config())
      ensures At(Update(old(ctx.Config()), old(ctx.View()), net.cut, old(Now())))
    {
      hide Frames, Tail, Dispatch, Settled, Process, Admissible, Announced, Digest;
      var ok := Read();
      if !ok {
        ctx.SetDisconnected(Timeout);
        return;
      }
      DigestPackets();
    }

    /** netPoll: the engine is updated as long as it is connected and there is something to
        read. Any reads will do, as long as what they bring has a meaning; WholeRun says what
        a run comes to when they decide every header. */
    method Run()
      requires Valid() && Defined(ctx.Config(), ctx.View(), net.cut, Now())
      modifies ctx, ctx.reply, ctx.reply.buf, ctx.clip0, ctx.clip0.buf, ctx.clip1, ctx.clip1.buf, rx, net
      ensures Valid() && ctx.BufsKept() && ctx.Config() == old(ctx.Config())
      ensures At(Polled(old(ctx.Config()), old(ctx.View()), net.cut, old(Now())))
    {
      hide Update, Meaningful;
      ghost var env, end := ctx.Config(), Polled(ctx.Config(), ctx.View(), net.cut, Now());
      while ctx.connected && net.incoming != []
        invariant Valid() && ctx.BufsKept() && ctx.Config() == env
        invariant if ctx.connected
          then Defined(env, ctx.View(), net.cut, Now()) && Polled(env, ctx.View(), net.cut, Now()) == end
          else end == Lost(ctx.View())
        decreases ctx.connected, |net.incoming|
      {
        UpdateContext();
      }
    }
  }
}
