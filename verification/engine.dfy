/**
 uSynergyContext: the protocol client with its buffers in place. Every method is proved
 to do what module Protocol says.
 */
module Engine {
  import opened Basics
  import opened Bytes
  import opened Clipboard
  import opened Protocol
  import opened Ssp
  import opened Reply
  import Decimal

  class Context {
    const name: seq<byte>
    const rawKeys: bool
    var connected: bool
    var greeted: bool
    var infoCurrent: bool
    var captured: bool
    var lastError: Error
    var sequence: nat
    var receiveOfs: nat
    var width: nat
    var height: nat
    var events: seq<Event>
    const reply: ReplyBuffer
    const clip0: Slot
    const clip1: Slot

    ghost function Config(): Env
      reads this
    {
      Env(name, rawKeys, reply.sendOk, clip0.junk, clip0.past)
    }

    ghost predicate Valid()
      reads this, reply, reply.buf, clip0, clip0.buf, clip1, clip1.buf
    {
      && reply.Valid()
      && clip0 != clip1 && clip0.junk == clip1.junk && clip0.past == clip1.past
      && reply.buf != clip0.buf && reply.buf != clip1.buf && clip0.buf != clip1.buf
      && |reply.Text()| <= RESIDUE && sequence < TWO_32 && clip0.Valid() && clip1.Valid()
    }

    ghost function View(): (st: State)
      reads this, reply, reply.buf, clip0, clip0.buf, clip1, clip1.buf
      requires Valid()
      ensures st.Sound()
    {
      State(connected, greeted, infoCurrent, captured, lastError, sequence, width, height,
            reply.Text(), reply.replies, clip0.View(), clip1.View(), events)
    }

    /** An array that is none of the buffers message processing writes to. */
    ghost predicate Outside(a: array<byte>)
      reads this, clip0, clip1
    {
      a != reply.buf && a != clip0.buf && a != clip1.buf
    }

    /** A clipboard buffer is replaced by a newly allocated one, if at all. */
    twostate predicate BufsKept()
      reads this, clip0, clip1
    {
      && (clip0.buf == old(clip0.buf) || fresh(clip0.buf))
      && (clip1.buf == old(clip1.buf) || fresh(clip1.buf))
    }

    ghost predicate Separate(msg: SspBuf)
      reads this, clip0, clip1, msg
    {
      msg.Valid() && Outside(msg.data)
    }

    /** uSynergyInit, with the configuration filled in. */
    constructor (name: seq<byte>, rawKeys: bool, width: nat, height: nat,
                 sendOk: nat -> bool, junk: nat -> byte, past: nat -> byte)
      ensures Valid() && fresh(reply) && fresh(reply.buf)
      ensures fresh(clip0) && fresh(clip0.buf) && fresh(clip1) && fresh(clip1.buf)
      ensures View() == START.(width := width, height := height)
      ensures !connected && !greeted && !infoCurrent && !captured && lastError == Init && events == []
      ensures Config() == Env(name, rawKeys, sendOk, junk, past)
      ensures receiveOfs == 0
    {
      this.name, this.rawKeys := name, rawKeys;
      this.connected, this.greeted, this.infoCurrent, this.captured := false, false, false, false;
      this.lastError, this.sequence, this.receiveOfs := Init, 0, 0;
      this.width, this.height := width, height;
      this.events := [];
      this.reply := new ReplyBuffer(sendOk);
      this.clip0 := new Slot(junk, past);
      this.clip1 := new Slot(junk, past);
    }

    function ClipSlot(id: nat): Slot
      reads this
    {
      if id == 0 then clip0 else clip1
    }

    /** The calls of the callbacks the rest of the program acts on. */
    method Tell(es: seq<Event>)
      requires Valid()
      modifies this`events
      ensures Valid() && View() == old(View()).(events := old(View()).events + es)
    {
      events := events + es;
    }

    method SetCaptured(on: bool, seqNo: nat)
      requires Valid() && seqNo < TWO_32
      modifies this`captured, this`sequence
      ensures Valid() && View() == old(View()).(captured := on, sequence := seqNo)
    {
      captured := on;
      sequence := seqNo;
    }

    method SetConnection(connected: bool, greeted: bool, err: Error)
      requires Valid()
      modifies this`connected, this`greeted, this`lastError
      ensures Valid() && View() == old(View()).(connected := connected, greeted := greeted, lastError := err)
    {
      this.connected := connected;
      this.greeted := greeted;
      lastError := err;
    }

    method SetInfoCurrent(on: bool)
      requires Valid()
      modifies this`infoCurrent
      ensures Valid() && View() == old(View()).(infoCurrent := on)
    {
      infoCurrent := on;
    }

    method DropReply()
      requires Valid()
      modifies reply
      ensures Valid() && View() == old(View()).(draft := [])
    {
      reply.Reset();
    }

    /** sSetDisconnected */
    method SetDisconnected(err: Error)
      requires Valid()
      modifies this, reply
      ensures Valid() && View() == Disconnected(old(View()), err)
      ensures receiveOfs == 0
    {
      receiveOfs := 0;
      SetConnection(false, false, err);
      SetCaptured(false, 0);
      DropReply();
    }

    /** A one-string reply. */
    method SendText(text: seq<byte>)
      requires Valid() && |text| <= 4
      modifies reply, reply.buf
      ensures Valid() && View() == Send(old(View()), text)
    {
      reply.SendText(text);
    }

    /** The reply to a greeting; when it cannot be sent the connection flag is dropped and
        nothing else. */
    method SendHello(imp: seq<byte>)
      requires Valid() && |imp| == 7
      modifies this`connected, this`greeted, reply, reply.buf
      ensures Valid() && View() == Greet(Config(), old(View()), imp)
    {
      reply.Reset();
      ghost var st := View();
      var ok := reply.AddHello(imp, name);
      ghost var hello := reply.Text();
      assert [] + hello == hello;
      if !ok {
        return;
      }
      ok := reply.Send();
      if !ok {
        connected := false;
      } else {
        greeted := true;
      }
    }

    /** The welcome branch. */
    method OnWelcome(msg: SspBuf, imp: seq<byte>)
      requires Valid() && Separate(msg)
      requires |imp| == 7 && msg.pos == 7
      modifies this`connected, this`greeted, reply, reply.buf, msg
      ensures Valid()
      ensures View() == if |old(msg.Body())| < 11 then old(View()) else Greet(Config(), old(View()), imp)
    {
      var ok, version := msg.NetInt(2);
      if ok {
        ok, version := msg.NetInt(2);
      }
      if ok {
        SendHello(imp);
      }
    }

    /** sIsWelcome: a match moves the cursor past the greeting. */
    method IsWelcome(msg: SspBuf) returns (imp: Option<seq<byte>>)
      requires msg.Valid() && msg.pos == 0
      modifies msg
      ensures msg.Valid() && imp == Welcome(msg.Body())
      ensures msg.pos == if imp.Some? then 7 else 0
    {
      var implementations := [BARRIER, SYNERGY];
      var i := 0;
      while i < |implementations|
        invariant 0 <= i <= 2 && msg.pos == 0 && msg.Valid()
        invariant i >= 1 ==> !(BARRIER <= msg.Body())
        invariant i >= 2 ==> !(SYNERGY <= msg.Body())
      {
        var name := implementations[i];
        var found := msg.StartsWith(name);
        if found {
          var ok := msg.Seek(|name|);
          return Some(name);
        }
        i := i + 1;
      }
      imp := None;
    }


    /** CINN */
    method OnEnter(msg: SspBuf) returns (done: bool)
      requires Valid() && Separate(msg) && msg.pos == 4
      modifies this`sequence, this`captured, this`events, msg
      ensures Valid() && Step(View(), done) == Protocol.OnEnter(old(View()), old(msg.Body()))
    {
      var seqNo;
      done, seqNo := ReadEnter(msg);
      if done {
        SetCaptured(true, seqNo);
        Tell([Active(true)]);
      }
    }

    method ReadEnter(msg: SspBuf) returns (ok: bool, seqNo: nat)
      requires msg.Valid() && msg.pos == 4
      modifies msg
      ensures msg.Valid() && ok == (|msg.Body()| >= 12)
      ensures ok ==> seqNo == Be32(msg.Body()[8..])
    {
      seqNo := 0;
      ok := msg.Seek(2);
      if ok {
        ok := msg.Seek(2);
      }
      if ok {
        ok, seqNo := msg.NetInt(4);
      }
    }

    /** One round of the COUT loop. */
    method ReleaseClip(id: nat)
      requires Valid() && id < 2
      modifies reply, reply.buf, clip0`grabbed, clip1`grabbed
      ensures Valid() && View() == Release(old(View()), id)
    {
      var slot := ClipSlot(id);
      if slot.grabbed {
        reply.SendClipboard(id, sequence, slot.pos, slot.buf);
        slot.grabbed := false;
      }
    }

    /** COUT */
    method OnLeave()
      requires Valid()
      modifies this`captured, this`sequence, this`events, reply, reply.buf, clip0`grabbed, clip1`grabbed
      ensures Valid() && Step(View(), true) == Protocol.OnLeave(old(View()))
    {
      SetCaptured(false, sequence);
      ghost var st := View();
      var id := 0;
      while id < 2
        invariant 0 <= id <= 2 && Valid()
        invariant View() == ReleaseFirst(st, id)
      {
        ReleaseClip(id);
        id := id + 1;
      }
      Tell([Active(false)]);
    }

    /** DKDN and DKUP */
    method OnKey(msg: SspBuf, down: bool) returns (done: bool)
      requires Valid() && Separate(msg) && msg.pos == 4
      modifies this`events, msg
      ensures Valid() && Step(View(), done) == Protocol.OnKey(Config(), old(View()), old(msg.Body()), down)
    {
      var id, mods, key;
      done, id, mods, key := ReadKey(msg);
      if done {
        Tell([Key(if rawKeys then key else id, id, mods, down, false)]);
      }
    }

    method ReadKey(msg: SspBuf) returns (ok: bool, id: nat, mods: nat, key: nat)
      requires msg.Valid() && msg.pos == 4
      modifies msg
      ensures msg.Valid() && ok == (|msg.Body()| >= 10)
      ensures ok ==> id == Be16(msg.Body()[4..]) && mods == Be16(msg.Body()[6..]) && key == Be16(msg.Body()[8..])
    {
      id, mods, key := 0, 0, 0;
      ok, id := msg.NetInt(2);
      if ok {
        ok, mods := msg.NetInt(2);
      }
      if ok {
        ok, key := msg.NetInt(2);
      }
    }

    /** DKRP */
    method OnKeyRepeat(msg: SspBuf) returns (done: bool)
      requires Valid() && Separate(msg) && msg.pos == 4
      modifies this`events, msg
      ensures Valid() && Step(View(), done) == Protocol.OnKeyRepeat(Config(), old(View()), old(msg.Body()))
    {
      var id, mods, key;
      done, id, mods, key := ReadKeyRepeat(msg);
      if done {
        Tell([Key(if rawKeys then key else id, id, mods, true, true)]);
      }
    }

    method ReadKeyRepeat(msg: SspBuf) returns (ok: bool, id: nat, mods: nat, key: nat)
      requires msg.Valid() && msg.pos == 4
      modifies msg
      ensures msg.Valid() && ok == (|msg.Body()| >= 12)
      ensures ok ==> id == Be16(msg.Body()[4..]) && mods == Be16(msg.Body()[6..]) && key == Be16(msg.Body()[10..])
    {
      var count := 0;
      id, mods, key := 0, 0, 0;
      ok, id := msg.NetInt(2);
      if ok {
        ok, mods := msg.NetInt(2);
      }
      if ok {
        ok, count := msg.NetInt(2);
      }
      if ok {
        ok, key := msg.NetInt(2);
      }
    }

    /** CCLP */
    method OnClipGrab(msg: SspBuf) returns (done: bool)
      requires Valid() && Separate(msg) && msg.pos == 4
      requires |msg.Body()| >= 4 && ClipIndexOk(msg.Body(), 9)
      modifies clip0`grabbed, clip1`grabbed, msg
      ensures Valid() && Step(View(), done) == Protocol.OnClipGrab(old(View()), old(msg.Body()))
    {
      var id;
      done, id := ReadClipGrab(msg);
      if done {
        LetGo(id);
      }
    }

    method LetGo(id: nat)
      requires Valid() && id < 2
      modifies clip0`grabbed, clip1`grabbed
      ensures Valid() && View() == old(View()).WithClip(id, old(View()).ClipOf(id).(grabbed := false))
    {
      ClipSlot(id).grabbed := false;
    }

    method ReadClipGrab(msg: SspBuf) returns (ok: bool, id: nat)
      requires msg.Valid() && msg.pos == 4
      modifies msg
      ensures msg.Valid() && ok == (|msg.Body()| >= 9)
      ensures ok ==> id == msg.Body()[4]
    {
      var seqNo;
      ok, id := msg.NetInt(1);
      if ok {
        ok, seqNo := msg.NetInt(4);
      }
    }

    /** DCLP */
    method OnClipData(msg: SspBuf) returns (done: bool)
      requires Valid() && Separate(msg) && msg.pos == 4
      requires |msg.Body()| >= 4 && ClipIndexOk(msg.Body(), 14) && StartTextOk(msg.Body())
      modifies this`events, clip0, clip0.buf, clip1, clip1.buf, msg
      ensures Valid() && BufsKept()
      ensures Step(View(), done) == Protocol.OnClipData(Config(), old(View()), old(msg.Body()))
    {
      hide Protocol.OnClipStart, Protocol.OnClipChunk, Protocol.OnClipEnd, Decimal.Atoi;
      var id, mark, size;
      done, id, mark, size := ReadClipHeader(msg);
      if !done {
        return;
      }
      if mark == DATA_START {
        OnClipStart(id, msg, size);
      } else if mark == DATA_CHUNK && ClipSlot(id).inStream {
        done := OnClipChunk(id, msg, size);
      } else if mark == DATA_END && ClipSlot(id).inStream {
        done := OnClipEnd(id);
      }
    }

    method ReadClipHeader(msg: SspBuf) returns (ok: bool, id: nat, mark: nat, size: nat)
      requires msg.Valid() && msg.pos == 4
      modifies msg
      ensures msg.Valid() && ok == (|msg.Body()| >= 14)
      ensures ok ==> id == msg.Body()[4] && mark == msg.Body()[9] && size == Be32(msg.Body()[10..]) && msg.pos == 14
    {
      var seqNo;
      id, mark, size := 0, 0, 0;
      ok, id := msg.NetInt(1);
      if ok {
        ok, seqNo := msg.NetInt(4);
      }
      if ok {
        ok, mark := msg.NetInt(1);
      }
      if ok {
        ok, size := msg.NetInt(4);
      }
    }

    /** DCLP start: the announced total is text of `size` octets. */
    method OnClipStart(id: nat, msg: SspBuf, size: nat)
      requires Valid() && Separate(msg) && id < 2 && msg.pos + size <= msg.len
      requires Decimal.Atoi(msg.Body()[msg.pos..msg.pos + size]) >= 0
      modifies clip0, clip0.buf, clip1, clip1.buf, msg
      ensures Valid() && BufsKept()
      ensures Step(View(), true)
        == Protocol.OnClipStart(Config(), old(View()), id, old(msg.Body()[msg.pos..msg.pos + size]))
    {
      var total := ReadTotal(msg, size);
      StartClip(id, total);
    }

    method StartClip(id: nat, total: nat)
      requires Valid() && id < 2
      modifies clip0, clip0.buf, clip1, clip1.buf
      ensures Valid() && BufsKept()
      ensures View() == old(View()).WithClip(id, Start(old(View()).ClipOf(id), total, Config().junk))
    {
      ClipSlot(id).StartStream(total);
    }

    method ReadTotal(msg: SspBuf, size: nat) returns (total: int)
      requires msg.Valid() && msg.pos + size <= msg.len
      modifies msg
      ensures msg.Valid()
      ensures total == Decimal.Atoi(old(msg.Body()[msg.pos..msg.pos + size]))
    {
      var text := new byte[size + 1];
      ghost var rest := msg.Body()[msg.pos..];
      assert rest[..size] == msg.Body()[msg.pos..msg.pos + size];
      var ok := msg.MemMove(text, 0, size);
      text[size] := 0;
      assert text[..size] == rest[..size];
      total := Decimal.Atoi(text[..size]);
    }

    method OnClipChunk(id: nat, msg: SspBuf, size: nat) returns (done: bool)
      requires Valid() && Separate(msg) && id < 2 && ClipSlot(id).inStream
      modifies clip0, clip0.buf, clip1, clip1.buf, msg
      ensures Valid() && BufsKept()
      ensures Step(View(), done) == Protocol.OnClipChunk(old(View()), id, size, old(msg.Body()[msg.pos..]))
    {
      done := ClipSlot(id).TakeChunk(msg, size);
    }

    method OnClipEnd(id: nat) returns (done: bool)
      requires Valid() && id < 2 && ClipSlot(id).inStream
      modifies this`events, clip0, clip1
      ensures Valid() && BufsKept()
      ensures Step(View(), done) == Protocol.OnClipEnd(old(View()), id)
    {
      var items;
      items, done := ClipSlot(id).EndStream();
      events := events + ClipEvents(id, items);
    }

    /** The branches that only feed a callback this model does not record. */
    method OnPlain(msg: SspBuf, size: nat) returns (done: bool)
      requires Valid() && Separate(msg) && msg.pos == 4
      modifies msg
      ensures Valid() && Step(View(), done) == Protocol.OnPlain(old(View()), old(msg.Body()), size)
    {
      done := msg.Seek(size);
    }

    /** The branches that may fall through to the CNOP reply. */
    method OnTagged(msg: SspBuf, tag: nat) returns (done: bool)
      requires Valid() && Separate(msg) && msg.pos == 4
      requires Admissible(msg.Body()) && Welcome(msg.Body()).None? && |msg.Body()| >= 4 && tag == Be32(msg.Body())
      modifies this, reply, reply.buf, clip0, clip0.buf, clip1, clip1.buf, msg
      ensures Valid() && BufsKept()
      ensures Step(View(), done) == Branch(Config(), old(View()), old(msg.Body()))
      ensures receiveOfs == old(receiveOfs)
    {
      done := true;
      if tag == CINN {
        done := OnEnter(msg);
      } else if tag == COUT {
        OnLeave();
      } else if tag == CSEC || tag == DMDN || tag == DMUP {
        done := OnPlain(msg, 1);
      } else if tag == DMMV || tag == DMRM || tag == DMWM {
        done := OnPlain(msg, 4);
      } else if tag == DKDN {
        done := OnKey(msg, true);
      } else if tag == DKRP {
        done := OnKeyRepeat(msg);
      } else if tag == DKUP {
        done := OnKey(msg, false);
      } else if tag == DGBT {
        done := OnPlain(msg, 3);
      } else if tag == DGST {
        done := OnPlain(msg, 5);
      } else if tag == DSOP {
        done := OnPlain(msg, 0);
      } else if tag == CALV {
        SendText(U32(CALV));
      } else if tag == CCLP {
        done := OnClipGrab(msg);
      } else if tag == DCLP {
        done := OnClipData(msg);
      } else {
        done := false;
      }
    }

    /** sProcessMessage */
    method ProcessMessage(msg: SspBuf)
      requires Valid() && Separate(msg) && msg.pos == 0 && Admissible(msg.Body())
      modifies this, reply, reply.buf, clip0, clip0.buf, clip1, clip1.buf, msg
      ensures Valid() && BufsKept()
      ensures View() == Process(Config(), old(View()), old(msg.Body()))
      ensures receiveOfs == if Closing(old(msg.Body())).Some? then 0 else old(receiveOfs)
      ensures connected ==> receiveOfs == old(receiveOfs)
    {
      var imp := IsWelcome(msg);
      if imp.Some? {
        OnWelcome(msg, imp.value);
        return;
      }
      var ok, tag := msg.NetInt(4);
      if !ok {
        return;
      }
      assert msg.Body()[0..] == msg.Body();
      ProcessTagged(msg, tag);
    }

    method ProcessTagged(msg: SspBuf, tag: nat)
      requires Valid() && Separate(msg) && msg.pos == 4
      requires Admissible(msg.Body()) && Welcome(msg.Body()).None? && |msg.Body()| >= 4 && tag == Be32(msg.Body())
      modifies this, reply, reply.buf, clip0, clip0.buf, clip1, clip1.buf, msg
      ensures Valid() && BufsKept()
      ensures View() == Protocol.ProcessTagged(Config(), old(View()), old(msg.Body()))
      ensures receiveOfs == if Closing(old(msg.Body())).Some? then 0 else old(receiveOfs)
      ensures connected ==> receiveOfs == old(receiveOfs)
    {
      if tag == QINF {
        OnQueryInfo();
      } else if tag == CIAK {
        SetInfoCurrent(true);
      } else if tag == CROP {
        return;
      } else if tag == CBYE {
        SetDisconnected(NoError);
      } else if tag == EBAD {
        SetDisconnected(Bad);
      } else if tag == EBSY {
        SetDisconnected(Busy);
      } else {
        var done := OnTagged(msg, tag);
        if done {
          SendText(U32(CNOP));
        }
      }
    }

    /** QINF, and the report of a changed size. */
    method OnQueryInfo()
      requires Valid()
      modifies this`infoCurrent, reply, reply.buf
      ensures Valid() && View() == Send(old(View()), InfoReply(width, height)).(infoCurrent := false)
    {
      reply.SendInfo(width, height);
      SetInfoCurrent(false);
    }

    /** uSynergyUpdateRes */
    method Resize(width: nat, height: nat)
      requires Valid()
      modifies this, reply, reply.buf
      ensures Valid() && BufsKept()
      ensures View() == UpdateRes(old(View()), width, height)
      ensures receiveOfs == old(receiveOfs)
    {
      this.width := width;
      this.height := height;
      if connected {
        OnQueryInfo();
      }
    }

    /** uSynergyUpdateClipBuf */
    method UpdateClipBuf(id: nat, data: seq<byte>)
      requires Valid() && id < 2 && Storable(data)
      modifies this, reply, reply.buf, clip0, clip0.buf, clip1, clip1.buf
      ensures Valid() && BufsKept()
      ensures View() == Offer(Config(), old(View()), id, data)
      ensures receiveOfs == old(receiveOfs)
    {
      var slot := ClipSlot(id);
      ghost var inside;
      var known;
      known, inside := slot.Contains(data);
      if known {
        return;
      }
      Grab(id, data);
      AnnounceGrab(id);
    }

    method AnnounceGrab(id: nat)
      requires Valid() && id < 2
      modifies reply, reply.buf
      ensures Valid() && View() == Send(old(View()), U32(CCLP) + [id] + U32(sequence))
    {
      var ok := reply.AddGrab(id, sequence);
      if !ok {
        assert false;
      }
      ok := reply.Send();
    }

    method Grab(id: nat, data: seq<byte>)
      requires Valid() && id < 2 && Storable(data)
      modifies clip0, clip0.buf, clip1, clip1.buf
      ensures Valid() && BufsKept()
      ensures View() == old(View()).WithClip(id, Clipboard.Grab(old(View()).ClipOf(id), data, Config().junk))
    {
      ClipSlot(id).TakeLocal(data);
    }
  }
}
