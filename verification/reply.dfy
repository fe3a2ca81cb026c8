/**
 The fixed reply buffer: octets are added behind a reserved header, a send fills in the
 header and hands the frame to the transport.
 */
module Reply {
  import opened Basics
  import opened Bytes
  import opened Framing
  import opened Protocol
  import Decimal

  class ReplyBuffer {
    const buf: array<byte>
    var cur: nat
    /** Every octet handed to the transport. */
    var wire: seq<byte>
    var sends: nat
    ghost var replies: seq<seq<byte>>
    const sendOk: nat -> bool

    /** The octets added since the last send. */
    ghost function Text(): seq<byte>
      reads this, buf
      requires Valid()
    {
      buf[4..cur]
    }

    ghost predicate Valid()
      reads this
    {
      && buf.Length == REPLY_BUFFER_SIZE
      && 4 <= cur <= buf.Length
      && sends == |replies|
      && BodiesAtMost(replies, REPLY_BUFFER_SIZE - 4)
      && wire == FrameAll(replies)
    }

    constructor (sendOk: nat -> bool)
      ensures Valid() && Text() == [] && replies == []
      ensures fresh(buf) && this.sendOk == sendOk
    {
      this.buf := new byte[REPLY_BUFFER_SIZE];
      this.cur, this.wire, this.sends, this.replies := 4, [], 0, [];
      this.sendOk := sendOk;
    }

    method Reset()
      requires Valid()
      modifies this`cur
      ensures Valid() && Text() == []
    {
      cur := 4;
    }

    /** sAddString and sAddBin */
    method AddBytes(bs: seq<byte>) returns (ok: bool)
      requires Valid()
      modifies this`cur, buf
      ensures Valid()
      ensures Draft(ok, Text()) == Put(Draft(true, old(Text())), bs)
    {
      if cur + |bs| > REPLY_BUFFER_SIZE {
        return false;
      }
      forall i | 0 <= i < |bs| {
        buf[cur + i] := bs[i];
      }
      assert buf[cur..cur + |bs|] == bs;
      cur := cur + |bs|;
      ok := true;
    }

    /** sAddUInt8 */
    method AddUInt8(value: nat) returns (ok: bool)
      requires Valid()
      modifies this`cur, buf
      ensures Valid()
      ensures Draft(ok, Text()) == Put(Draft(true, old(Text())), [value % 256])
    {
      if cur + 1 > REPLY_BUFFER_SIZE {
        return false;
      }
      buf[cur] := value % 256;
      cur := cur + 1;
      ok := true;
    }

    /** sAddUInt16 */
    method AddUInt16(value: nat) returns (ok: bool)
      requires Valid()
      modifies this`cur, buf
      ensures Valid()
      ensures Draft(ok, Text()) == Put(Draft(true, old(Text())), U16(value))
    {
      if cur + 2 > REPLY_BUFFER_SIZE {
        return false;
      }
      ShiftedOctets(value);
      buf[cur] := value / 0x100 % 256;
      buf[cur + 1] := value % 256;
      cur := cur + 2;
      ok := true;
    }

    /** sAddUInt32 */
    method AddUInt32(value: nat) returns (ok: bool)
      requires Valid()
      modifies this`cur, buf
      ensures Valid()
      ensures Draft(ok, Text()) == Put(Draft(true, old(Text())), U32(value))
    {
      if cur + 4 > REPLY_BUFFER_SIZE {
        return false;
      }
      StoreU32(buf, cur, value);
      assert buf[4..cur + 4] == old(buf[..cur])[4..] + U32(value);
      cur := cur + 4;
      ok := true;
    }

    /** The eight additions of a DINF reply. */
    method AddInfo(width: nat, height: nat) returns (ok: bool)
      requires Valid() && |Text()| <= RESIDUE
      modifies this`cur, buf
      ensures Valid() && ok && Text() == old(Text()) + InfoReply(width, height)
    {
      ghost var t, sent := Text(), U32(DINF);
      ok := AddBytes(U32(DINF));
      ok, sent := ThenUInt16(ok, 0, t, sent);
      ok, sent := ThenUInt16(ok, 0, t, sent);
      ok, sent := ThenUInt16(ok, width, t, sent);
      ok, sent := ThenUInt16(ok, height, t, sent);
      ok, sent := ThenUInt16(ok, 0, t, sent);
      ok, sent := ThenUInt16(ok, 0, t, sent);
      ok, sent := ThenUInt16(ok, 0, t, sent);
    }

    /** `ok && sAddUInt16(value)`, with the ghost `sent` for what was added after t. */
    method ThenUInt16(ok: bool, value: nat, ghost t: seq<byte>, ghost sent: seq<byte>)
      returns (done: bool, ghost now: seq<byte>)
      requires Valid() && |t| <= RESIDUE && |sent| <= 64
      requires ok && Text() == t + sent
      modifies this`cur, buf
      ensures Valid() && done && now == sent + U16(value) && Text() == t + now
    {
      Assoc(t, sent, U16(value));
      now := sent + U16(value);
      done := ok;
      if done {
        done := AddUInt16(value);
      }
    }

    /** The five additions every DCLP message starts with. */
    method AddDclp(id: nat, sequence: nat, mark: nat, size: nat) returns (ok: bool)
      requires Valid() && |Text()| <= RESIDUE
      modifies this`cur, buf
      ensures Valid() && ok && Text() == old(Text()) + DclpHeader(id, sequence, mark, size)
    {
      ghost var t := Text();
      ghost var s1 := U32(DCLP);
      ghost var s2 := s1 + [id % 256];
      ghost var s3 := s2 + U32(sequence);
      ghost var s4 := s3 + [mark % 256];
      Assoc(t, s1, [id % 256]);
      Assoc(t, s2, U32(sequence));
      Assoc(t, s3, [mark % 256]);
      Assoc(t, s4, U32(size));
      ok := AddBytes(U32(DCLP));
      if ok { ok := AddUInt8(id); }
      assert ok && Text() == t + s2;
      if ok { ok := AddUInt32(sequence); }
      assert ok && Text() == t + s3;
      if ok { ok := AddUInt8(mark); }
      assert ok && Text() == t + s4;
      if ok { ok := AddUInt32(size); }
    }

    /** The three additions of a CCLP message. */
    method AddGrab(id: nat, sequence: nat) returns (ok: bool)
      requires Valid() && |Text()| <= RESIDUE && id < 2
      modifies this`cur, buf
      ensures Valid() && ok && Text() == old(Text()) + (U32(CCLP) + [id] + U32(sequence))
    {
      ghost var t := Text();
      ghost var s1 := U32(CCLP);
      ghost var s2 := s1 + [id];
      Assoc(t, s1, [id]);
      Assoc(t, s2, U32(sequence));
      ok := AddBytes(U32(CCLP));
      if ok { ok := AddUInt8(id); }
      assert ok && Text() == t + s2;
      if ok { ok := AddUInt32(sequence); }
    }

    /** The five additions of the greeting; only the last one can fail. */
    method AddHello(imp: seq<byte>, name: seq<byte>) returns (ok: bool)
      requires Valid() && Text() == [] && |imp| == 7
      modifies this`cur, buf
      ensures Valid() && Draft(ok, Text()) == HelloDraft(name, imp)
    {
      ok := AddBytes(imp);
      assert ok && Text() == imp;
      if ok { ok := AddUInt16(PROTOCOL_MAJOR); }
      assert ok && Text() == imp + U16(PROTOCOL_MAJOR);
      if ok { ok := AddUInt16(PROTOCOL_MINOR); }
      assert ok && Text() == imp + U16(PROTOCOL_MAJOR) + U16(PROTOCOL_MINOR);
      if ok { ok := AddUInt32(|name|); }
      assert ok && Text() == imp + U16(PROTOCOL_MAJOR) + U16(PROTOCOL_MINOR) + U32(|name|);
      if ok { ok := AddBytes(name); }
    }

    /** sSendReply: the transport gets one frame whose header is the length of its body. */
    method Send() returns (ok: bool)
      requires Valid()
      modifies this, buf
      ensures Valid() && Text() == []
      ensures replies == old(replies) + [old(Text())]
      ensures wire == old(wire) + Frame(old(Text()))
      ensures ok == sendOk(|old(replies)|)
    {
      var replyLen := cur;
      var bodyLen := replyLen - 4;
      ghost var body := buf[4..cur];
      assert buf[4..][..bodyLen] == body;
      StoreU32(buf, 0, bodyLen);
      assert buf[4..replyLen] == buf[4..][..bodyLen];
      assert buf[..replyLen] == Frame(body);
      FrameAllAppend(replies, [body]);
      assert FrameAll([body]) == Frame(body);
      wire := wire + buf[..replyLen];
      ok := sendOk(sends);
      sends := sends + 1;
      replies := replies + [body];
      cur := 4;
    }

    /** A one-string reply. */
    method SendText(text: seq<byte>)
      requires Valid() && |Text()| <= RESIDUE && |text| <= MAX_CHUNK
      modifies this, buf
      ensures Valid() && Text() == []
      ensures replies == old(replies) + [old(Text()) + text]
    {
      var ok := AddBytes(text);
      if !ok {
        assert false;
      }
      ok := Send();
    }

    method SendInfo(width: nat, height: nat)
      requires Valid() && |Text()| <= RESIDUE
      modifies this, buf
      ensures Valid() && Text() == []
      ensures replies == old(replies) + [old(Text()) + InfoReply(width, height)]
    {
      var ok := AddInfo(width, height);
      if !ok {
        assert false;
      }
      ok := Send();
    }

    /** One DCLP message: header, payload, send. */
    method SendDclp(id: nat, sequence: nat, mark: nat, payload: seq<byte>)
      requires Valid() && |Text()| <= RESIDUE
      requires |payload| <= if Text() == [] then MAX_CHUNK else 10
      modifies this, buf
      ensures Valid() && Text() == []
      ensures replies == old(replies) + [old(Text()) + Dclp(id, sequence, mark, payload)]
      ensures old(Text()) == [] ==> replies == old(replies) + [Dclp(id, sequence, mark, payload)]
    {
      ghost var header := DclpHeader(id, sequence, mark, |payload|);
      Assoc(Text(), header, payload);
      var ok := AddDclp(id, sequence, mark, |payload|);
      if ok && payload != [] {
        ok := AddBytes(payload);
      }
      if !ok {
        assert false;
      }
      assert Text() == old(Text()) + (header + payload);
      assert [] + (header + payload) == header + payload;
      ok := Send();
    }

    /** The chunk loop of uSynergySendClipboard. */
    method SendChunks(id: nat, sequence: nat, len: nat, text: array<byte>)
      requires Valid() && len <= text.Length && text != buf && Text() == []
      modifies this, buf
      ensures Valid() && Text() == []
      ensures replies == old(replies) + ChunkMessages(id, sequence, text[..len])
    {
      hide Dclp, FrameAll;
      ghost var all := text[..len];
      assert all[0..] == all;
      var pos := 0;
      while pos < len
        invariant 0 <= pos <= len && text[..len] == all && Valid() && Text() == []
        invariant old(replies) + ChunkMessages(id, sequence, all) == replies + ChunkMessages(id, sequence, all[pos..])
      {
        var chunkLen := if len - pos > MAX_CHUNK then MAX_CHUNK else len - pos;
        var chunk := text[pos..pos + chunkLen];
        assert chunk == all[pos..pos + chunkLen];
        ChunkStep(id, sequence, all, pos);
        Assoc(replies, [Dclp(id, sequence, DATA_CHUNK, chunk)], ChunkMessages(id, sequence, all[pos + chunkLen..]));
        SendDclp(id, sequence, DATA_CHUNK, chunk);
        pos := pos + chunkLen;
      }
      assert replies + [] == replies;
    }

    /** uSynergySendClipboard over the first len octets of text. */
    method SendClipboard(id: nat, sequence: nat, len: nat, text: array<byte>)
      requires Valid() && |Text()| <= RESIDUE && len <= text.Length && len < TWO_32 && text != buf
      modifies this, buf
      ensures Valid() && Text() == []
      ensures replies == old(replies) + Prefixed(old(Text()), ClipMessages(id, sequence, text[..len]))
    {
      Decimal.DecLength(len);
      var digits := Decimal.Dec(len);
      ghost var was, all := replies, text[..len];
      ghost var first := Text() + Dclp(id, sequence, DATA_START, digits);
      ghost var chunks := ChunkMessages(id, sequence, all);
      ghost var last := Dclp(id, sequence, DATA_END, []);
      PrefixedParts(Text(), Dclp(id, sequence, DATA_START, digits), chunks, last);
      SendDclp(id, sequence, DATA_START, digits);
      assert text[..len] == all;
      SendChunks(id, sequence, len, text);
      SendDclp(id, sequence, DATA_END, []);
      Assoc(was + [first], chunks, [last]);
      Assoc(was, [first], chunks + [last]);
      Assoc([first], chunks, [last]);
    }
  }

  /** The octets handed to the transport decode to the replies, and to nothing else. */
  lemma WireDecodes(r: ReplyBuffer)
    requires r.Valid()
    ensures Frames(r.wire) == r.replies && Tail(r.wire) == []
  {
    FramesOfFrameAll(r.replies, []);
    assert r.wire + [] == r.wire && r.replies + [] == r.replies;
  }
}
