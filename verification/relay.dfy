/**
 Two clients, one wire: what one sends on leaving the screen, received by another in pieces
 of any size.
 */
module Relay {
  import opened Bytes
  import opened Framing
  import opened Protocol
  import opened History
  import opened Transfer
  import opened Ssp
  import opened Engine
  import opened Streams
  import opened Receive
  import opened Runs

  /** A leave message as it stands in a buffer. */
  method LeaveMessage() returns (msg: SspBuf)
    ensures fresh(msg) && fresh(msg.data) && msg.Valid() && msg.pos == 0 && msg.Body() == U32(COUT)
  {
    var tag := new byte[4](_ => 0);
    StoreU32(tag, 0, COUT);
    assert tag[..] == tag[..4] + tag[4..] == U32(COUT);
    msg := new SspBuf(tag, 0, 4);
    assert msg.Body() == tag[..];
  }

  /** What the wire holds after a leave, and where that begins. */
  lemma WireGrows(env: Env, st: State)
    requires st.Sound()
    ensures Admissible(U32(COUT))
    ensures var r := Process(env, st, U32(COUT));
      && |FrameAll(st.replies)| <= |FrameAll(r.replies)|
      && FrameAll(r.replies)[|FrameAll(st.replies)|..] == FrameAll(Sent(env, st))
  {
    hide Process, Admissible, FrameAll, U32;
    LeaveAppends(env, st);
    FrameAllAppend(st.replies, Sent(env, st));
    assert Process(env, st, U32(COUT)).replies == st.replies + Sent(env, st);
  }

  /** A client processes a leave message; the result is what it hands to its transport. */
  method Leave(sender: Context) returns (sent: seq<byte>)
    requires sender.Valid()
    modifies sender, sender.reply, sender.reply.buf, sender.clip0, sender.clip0.buf, sender.clip1, sender.clip1.buf
    ensures sender.Valid() && sent == FrameAll(Sent(old(sender.Config()), old(sender.View())))
  {
    hide Process, Admissible, FrameAll, U32, Sent;
    WireGrows(sender.Config(), sender.View());
    var msg := LeaveMessage();
    var start := |sender.reply.wire|;
    sender.ProcessMessage(msg);
    sent := sender.reply.wire[start..];
  }

  /** However what it sent is cut, the receiver's callback fires once for each clipboard the
      sender held, with the text last offered there, and nothing is left in the buffer. */
  method Deliver(receiver: Receiver, ghost sender: Env, ghost ops: seq<Op>)
    requires AllAllowed(ops) && |sender.name| <= MAX_NAME
    requires receiver.Valid() && receiver.HeaderSafe() && receiver.Buffered() == []
    requires receiver.ctx.connected && Eager(receiver.net.cut)
    requires receiver.net.incoming == FrameAll(Sent(sender, After(sender, ops)))
    modifies receiver.ctx, receiver.ctx.reply, receiver.ctx.reply.buf, receiver.ctx.clip0, receiver.ctx.clip0.buf,
             receiver.ctx.clip1, receiver.ctx.clip1.buf, receiver.rx, receiver.net
    ensures receiver.Valid() && receiver.ctx.connected
    ensures var s := After(sender, ops);
      receiver.ctx.events == old(receiver.ctx.events) + Pasted(s, ops, 0) + Pasted(s, ops, 1)
    ensures receiver.net.incoming == [] && receiver.Buffered() == []
  {
    hide Process, Admissible, Dispatch, HeadersAtMost, Frames, Tail, Sent, After, Pasted, HeadersInTime, Outcome,
         Incomplete, Regular, Defined, Polled;
    ghost var wire, bodies := receiver.net.incoming, Sent(sender, After(sender, ops));
    ghost var env, st, m := receiver.ctx.Config(), receiver.ctx.View(), receiver.Now();
    assert m.buf[..m.n] == [] && m.Stream() == wire;
    LeaveReaches(sender, ops, env, st);
    LeaveFrames(bodies);
    OutcomeOfClean(env, st, wire);
    HeadersWeaken(wire, MAX_BODY, RECEIVE_BUFFER_SIZE);
    AnyCut(receiver.net.cut, Seen(m, true));
    WholeRun(env, st, receiver.net.cut, m, true);
    receiver.Run();
  }

  /** Both together: a client in the state a history led to leaves the screen, and another one
      polls what it sent. */
  method Relay(sender: Context, receiver: Receiver, ghost ops: seq<Op>)
    requires sender.Valid() && AllAllowed(ops) && sender.View() == After(sender.Config(), ops)
    requires |sender.name| <= MAX_NAME
    requires receiver.Valid() && receiver.HeaderSafe() && receiver.Buffered() == []
    requires receiver.ctx.connected && Eager(receiver.net.cut) && receiver.net.incoming == []
    requires {sender, sender.reply, sender.reply.buf, sender.clip0, sender.clip0.buf, sender.clip1, sender.clip1.buf}
          !! {receiver.ctx, receiver.ctx.reply, receiver.ctx.reply.buf, receiver.ctx.clip0, receiver.ctx.clip0.buf,
              receiver.ctx.clip1, receiver.ctx.clip1.buf, receiver.rx, receiver.net}
    modifies sender, sender.reply, sender.reply.buf, sender.clip0, sender.clip0.buf, sender.clip1, sender.clip1.buf
    modifies receiver.ctx, receiver.ctx.reply, receiver.ctx.reply.buf, receiver.ctx.clip0, receiver.ctx.clip0.buf,
             receiver.ctx.clip1, receiver.ctx.clip1.buf, receiver.rx, receiver.net
    ensures receiver.Valid() && receiver.ctx.connected
    ensures var s := old(sender.View());
      receiver.ctx.events == old(receiver.ctx.events) + Pasted(s, ops, 0) + Pasted(s, ops, 1)
    ensures receiver.net.incoming == [] && receiver.Buffered() == []
  {
    hide Sent, Pasted, After, FrameAll;
    ghost var env := sender.Config();
    receiver.net.incoming := Leave(sender);
    Deliver(receiver, env, ops);
  }
}
