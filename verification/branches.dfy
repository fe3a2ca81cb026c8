/**
 What every kind of message does to the client, by the letters it starts with: each message
 is taken for any length, short ones included, and the whole new state is given.
 */
module Branches {
  import opened Basics
  import opened Bytes
  import opened Clipboard
  import opened Protocol
  import opened History
  import opened Messages
  import opened Transfer
  import Decimal

  function Letter(c: char): byte {
    c as int % 256
  }

  /** The octets of a text. */
  function Ascii(s: string): (r: seq<byte>)
    ensures |r| == |s|
  {
    seq<byte>(|s|, i requires 0 <= i < |s| => Letter(s[i]))
  }

  /** A message that starts with these four letters. */
  predicate Says(m: seq<byte>, name: string) {
    |name| == 4 && Ascii(name) <= m
  }

  /** The number four letters make. */
  function TagOf(name: string): nat
    requires |name| == 4
  {
    Letter(name[0]) as int * 0x100_0000 + Letter(name[1]) as int * 0x1_0000
    + Letter(name[2]) as int * 0x100 + Letter(name[3]) as int
  }

  /** Every identifier but those of the greetings starts with one of these. */
  predicate Initial(c: char) {
    c == 'C' || c == 'D' || c == 'E' || c == 'Q'
  }

  lemma SaysTag(m: seq<byte>, name: string, tag: nat)
    requires Says(m, name) && Initial(name[0]) && TagOf(name) == tag
    ensures |m| >= 4 && Be32(m) == tag && Welcome(m).None?
  {
    hide Welcome;
    var a := Ascii(name);
    ShiftedValue(m);
    assert forall i :: 0 <= i < 4 ==> m[i] == a[i] == Letter(name[i]);
    NoWelcome(m);
  }

  lemma NoWelcome(m: seq<byte>)
    requires |m| >= 4 && m[0] !in {0x42, 0x53}
    ensures Welcome(m).None?
  {
    ShiftedValue(m);
    TagIsNoWelcome(m);
  }

  /** A reply goes out behind whatever was left in the reply buffer. */
  function Answered(st: State, text: seq<byte>): State {
    st.(draft := [], replies := st.replies + [st.draft + text])
  }

  lemma Spelled(name: string, tag: nat)
    requires |name| == 4 && tag == TagOf(name)
    ensures U32(tag) == Ascii(name)
  {
    var a, b, c, d := Letter(name[0]) as int, Letter(name[1]) as int, Letter(name[2]) as int, Letter(name[3]) as int;
    ShiftedOctets(tag);
    assert tag / 0x100 == a * 0x1_0000 + b * 0x100 + c;
    assert tag / 0x1_0000 == a * 0x100 + b;
    assert tag / 0x100_0000 == a;
  }

  // ---------------------------------------------------------------- size and keepalive

  /** "QINF" is answered with the size, as "DINF" and seven 16-bit numbers. */
  lemma InfoQueried(env: Env, st: State, m: seq<byte>)
    requires st.Sound() && Says(m, "QINF")
    ensures Admissible(m)
    ensures var info := InfoReply(st.width, st.height);
      && Process(env, st, m) == Answered(st, info).(infoCurrent := false)
      && |info| == 18 && info[..4] == Ascii("DINF")
      && Be16(info[8..]) == st.width % 0x1_0000 && Be16(info[10..]) == st.height % 0x1_0000
      && forall i :: 4 <= i < 18 && !(8 <= i < 12) ==> info[i] == 0
  {
    hide InfoReply, Says, Ascii, Be32;
    SaysTag(m, "QINF", QINF);
    InfoFields(st.width, st.height);
    InfoTag(st.width, st.height);
  }

  lemma InfoTag(width: nat, height: nat)
    ensures InfoReply(width, height)[..4] == Ascii("DINF")
  {
    hide U16, U32;
    Spelled("DINF", DINF);
  }

  /** A change of size is kept, and reported the same way as long as there is a connection. */
  lemma ResizeTold(st: State, width: nat, height: nat)
    requires st.Sound()
    ensures var sized, info := st.(width := width, height := height), InfoReply(width, height);
      UpdateRes(st, width, height) == if st.connected then Answered(sized, info).(infoCurrent := false) else sized
  {
    hide InfoReply;
  }

  lemma InfoAcknowledged(env: Env, st: State, m: seq<byte>)
    requires st.Sound() && Says(m, "CIAK")
    ensures Admissible(m) && Process(env, st, m) == st.(infoCurrent := true)
  {
    hide Says, Be32;
    SaysTag(m, "CIAK", CIAK);
  }

  lemma OptionsReset(env: Env, st: State, m: seq<byte>)
    requires st.Sound() && Says(m, "CROP")
    ensures Admissible(m) && Process(env, st, m) == st
  {
    hide Says, Be32;
    SaysTag(m, "CROP", CROP);
  }

  /** A keepalive is answered in kind, and then acknowledged. */
  lemma KeepAlive(env: Env, st: State, m: seq<byte>)
    requires st.Sound() && Says(m, "CALV")
    ensures Admissible(m)
    ensures Process(env, st, m)
      == st.(draft := [], replies := st.replies + [st.draft + Ascii("CALV"), Ascii("CNOP")])
  {
    hide U32, Says, Ascii, Be32, Be16;
    SaysTag(m, "CALV", CALV);
    Spelled("CALV", CALV);
    Spelled("CNOP", CNOP);
    assert [] + Ascii("CNOP") == Ascii("CNOP");
    assert st.replies + [st.draft + Ascii("CALV")] + [Ascii("CNOP")]
        == st.replies + [st.draft + Ascii("CALV"), Ascii("CNOP")];
    assert Branch(env, st, m) == Step(Send(st, U32(CALV)), true);
  }

  // ---------------------------------------------------------------- the end of a connection

  /** The three closing messages, by name, with the error each leaves. */
  predicate Closes(m: seq<byte>, err: Error) {
    || (Says(m, "CBYE") && err == NoError)
    || (Says(m, "EBAD") && err == Bad)
    || (Says(m, "EBSY") && err == Busy)
  }

  lemma ConnectionClosed(env: Env, st: State, m: seq<byte>, err: Error)
    requires st.Sound() && Closes(m, err)
    ensures Admissible(m)
    ensures Process(env, st, m) == st.(connected := false, greeted := false, captured := false,
                                       draft := [], sequence := 0, lastError := err)
  {
    hide Says, Be32;
    if Says(m, "CBYE") && err == NoError {
      SaysTag(m, "CBYE", CBYE);
    } else if Says(m, "EBAD") && err == Bad {
      SaysTag(m, "EBAD", EBAD);
    } else {
      SaysTag(m, "EBSY", EBSY);
    }
  }

  /** A failed read ends it in the same way, as a timeout. */
  lemma ReadFailed(env: Env, st: State)
    requires st.Sound() && st.connected
    ensures Perform(env, st, ReceiveFailed) == st.(connected := false, greeted := false, captured := false,
                                                   draft := [], sequence := 0, lastError := Timeout)
  {
  }

  /** Nothing after a message that closes the connection is looked at. */
  lemma NothingAfterClosing(env: Env, st: State, xs: seq<seq<byte>>, m: seq<byte>, err: Error, ys: seq<seq<byte>>)
    requires st.Sound() && AllAdmissible(xs) && AllAdmissible(ys) && Closes(m, err)
    ensures AllAdmissible(xs + [m]) && AllAdmissible(xs + [m] + ys)
    ensures Dispatch(env, st, xs + [m] + ys) == Dispatch(env, st, xs + [m])
    ensures !Dispatch(env, st, xs + [m]).connected
  {
    hide Process, Admissible, Closes;
    var before := Dispatch(env, st, xs);
    ConnectionClosed(env, before, m, err);
    assert AllAdmissible([m]);
    DispatchSplit(env, st, xs, [m]);
    DispatchSplit(env, st, xs + [m], ys);
    assert [m][1..] == [];
  }

  // ---------------------------------------------------------------- entering, leaving, keys

  lemma Entered(env: Env, st: State, m: seq<byte>)
    requires st.Sound() && Says(m, "CINN")
    ensures Admissible(m)
    ensures Process(env, st, m) ==
      if |m| < 12 then st
      else
        Answered(st.(sequence := Be32(m[8..]), captured := true, events := st.events + [Active(true)]),
                 Ascii("CNOP"))
  {
    hide U32, Says, Ascii, Be32, Be16;
    SaysTag(m, "CINN", CINN);
    Spelled("CNOP", CNOP);
    assert Branch(env, st, m) == OnEnter(st, m);
  }

  /** Leaving lets the screen and both clipboards go and changes nothing else that lasts. */
  lemma Left(env: Env, st: State, m: seq<byte>)
    requires st.Sound() && st.draft == [] && Says(m, "COUT")
    ensures Admissible(m)
    ensures Process(env, st, m) == st.(captured := false,
      clip0 := st.clip0.(grabbed := false), clip1 := st.clip1.(grabbed := false),
      replies := st.replies + Owed(st, 0) + Owed(st, 1) + [Ascii("CNOP")],
      events := st.events + [Active(false)])
  {
    hide Says, Ascii, Be32, U32, OnLeave, Owed;
    SaysTag(m, "COUT", COUT);
    Spelled("CNOP", CNOP);
    AllReleased(st);
    assert [] + Ascii("CNOP") == Ascii("CNOP");
    assert Branch(env, st, m) == OnLeave(st);
  }

  lemma AllReleased(st: State)
    requires st.Sound() && st.draft == []
    ensures OnLeave(st) == Step(st.(captured := false,
      clip0 := st.clip0.(grabbed := false), clip1 := st.clip1.(grabbed := false),
      replies := st.replies + Owed(st, 0) + Owed(st, 1), events := st.events + [Active(false)]), true)
  {
    hide ClipMessages, Release;
    var begun := st.(captured := false);
    assert ReleaseFirst(begun, 2) == Release(ReleaseFirst(begun, 1), 1);
    assert ReleaseFirst(begun, 1) == Release(begun, 0);
    Released(begun, 0);
    Released(Release(begun, 0), 1);
  }

  lemma Released(st: State, id: nat)
    requires st.Sound() && st.draft == [] && id < 2
    ensures Release(st, id)
      == st.WithClip(id, st.ClipOf(id).(grabbed := false)).(replies := st.replies + Owed(st, id))
  {
    hide ClipMessages;
    ReleaseSends(st, id);
  }

  /** "DKDN" and "DKUP" */
  lemma KeyTaken(env: Env, st: State, m: seq<byte>, down: bool)
    requires st.Sound() && Says(m, if down then "DKDN" else "DKUP")
    ensures Admissible(m)
    ensures Process(env, st, m) ==
      if |m| < 10 then st
      else
        var id, mods, key := Be16(m[4..]), Be16(m[6..]), Be16(m[8..]);
        Answered(st.(events := st.events + [Key(if env.rawKeys then key else id, id, mods, down, false)]),
                 Ascii("CNOP"))
  {
    hide U32, Says, Ascii, Be32, Be16;
    SaysTag(m, if down then "DKDN" else "DKUP", if down then DKDN else DKUP);
    Spelled("CNOP", CNOP);
    assert Branch(env, st, m) == OnKey(env, st, m, down);
  }

  lemma RepeatTaken(env: Env, st: State, m: seq<byte>)
    requires st.Sound() && Says(m, "DKRP")
    ensures Admissible(m)
    ensures Process(env, st, m) ==
      if |m| < 12 then st
      else
        var id, mods, key := Be16(m[4..]), Be16(m[6..]), Be16(m[10..]);
        Answered(st.(events := st.events + [Key(if env.rawKeys then key else id, id, mods, true, true)]), Ascii("CNOP"))
  {
    hide U32, Says, Ascii, Be32, Be16;
    SaysTag(m, "DKRP", DKRP);
    Spelled("CNOP", CNOP);
    assert Branch(env, st, m) == OnKeyRepeat(env, st, m);
  }

  // ---------------------------------------------------------------- messages without a lasting effect

  /** Screen saver, mouse, joystick and option messages, by name, with the octets they need. */
  predicate Plain(m: seq<byte>, size: nat) {
    || (size == 1 && (Says(m, "CSEC") || Says(m, "DMDN") || Says(m, "DMUP")))
    || (size == 4 && (Says(m, "DMMV") || Says(m, "DMRM") || Says(m, "DMWM")))
    || (size == 3 && Says(m, "DGBT"))
    || (size == 5 && Says(m, "DGST"))
    || (size == 0 && Says(m, "DSOP"))
  }

  lemma PlainTag(m: seq<byte>, size: nat)
    requires Plain(m, size)
    ensures |m| >= 4 && Welcome(m).None? && PlainSize(Be32(m)) == Some(size)
    ensures Be32(m) !in {CINN, COUT, DKDN, DKRP, DKUP, CALV, CCLP, DCLP, QINF, CIAK, CROP, CBYE, EBAD, EBSY}
  {
    hide Welcome, Be32, Says;
    if size == 0 {
      SaysTag(m, "DSOP", DSOP);
    } else if size == 3 {
      SaysTag(m, "DGBT", DGBT);
    } else if size == 5 {
      SaysTag(m, "DGST", DGST);
    } else if Says(m, "CSEC") && size == 1 {
      SaysTag(m, "CSEC", CSEC);
    } else if Says(m, "DMDN") && size == 1 {
      SaysTag(m, "DMDN", DMDN);
    } else if size == 1 {
      SaysTag(m, "DMUP", DMUP);
    } else if Says(m, "DMMV") {
      SaysTag(m, "DMMV", DMMV);
    } else if Says(m, "DMRM") {
      SaysTag(m, "DMRM", DMRM);
    } else {
      SaysTag(m, "DMWM", DMWM);
    }
  }

  lemma PlainTaken(env: Env, st: State, m: seq<byte>, size: nat)
    requires st.Sound() && Plain(m, size)
    ensures Admissible(m)
    ensures Process(env, st, m) == if |m| < 4 + size then st else Answered(st, Ascii("CNOP"))
  {
    hide U32, Plain;
    PlainTag(m, size);
    Spelled("CNOP", CNOP);
    assert Branch(env, st, m) == OnPlain(st, m, size);
  }

  /** Any other tag, and a message too short to have one, is passed over in silence. */
  predicate Known(m: seq<byte>) {
    || Says(m, "QINF") || Says(m, "CIAK") || Says(m, "CROP") || Says(m, "CINN") || Says(m, "COUT")
    || Says(m, "CSEC") || Says(m, "DMDN") || Says(m, "DMUP") || Says(m, "DMMV") || Says(m, "DMRM")
    || Says(m, "DMWM") || Says(m, "DKDN") || Says(m, "DKRP") || Says(m, "DKUP") || Says(m, "DGBT")
    || Says(m, "DGST") || Says(m, "DSOP") || Says(m, "CALV") || Says(m, "CCLP") || Says(m, "DCLP")
    || Says(m, "CBYE") || Says(m, "EBAD") || Says(m, "EBSY")
  }

  predicate Greets(m: seq<byte>) {
    Ascii("Barrier") <= m || Ascii("Synergy") <= m
  }

  lemma TagSays(m: seq<byte>, name: string)
    requires |m| >= 4 && |name| == 4 && Be32(m) == TagOf(name)
    ensures Says(m, name)
  {
    var a := Ascii(name);
    ShiftedValue(m);
    ShiftedValue(a);
    assert Be32(a) == TagOf(name);
    Be32Prefix(m, []);
    Be32Prefix(a, []);
    assert m[..4] == a[..4] == a;
    assert a <= m;
  }

  lemma GreetsIff(m: seq<byte>)
    ensures Greets(m) <==> Welcome(m).Some?
  {
    assert Ascii("Barrier") == BARRIER && Ascii("Synergy") == SYNERGY;
  }

  lemma UnknownTag(m: seq<byte>)
    requires |m| >= 4 && !Known(m)
    ensures Be32(m) !in {QINF, CIAK, CROP, CINN, COUT, CSEC, DMDN, DMUP, DMMV, DMRM, DMWM, DKDN, DKRP, DKUP,
                         DGBT, DGST, DSOP, CALV, CCLP, DCLP, CBYE, EBAD, EBSY}
  {
    hide Be32, Says;
    if Be32(m) == QINF { TagSays(m, "QINF"); }
    if Be32(m) == CIAK { TagSays(m, "CIAK"); }
    if Be32(m) == CROP { TagSays(m, "CROP"); }
    if Be32(m) == CINN { TagSays(m, "CINN"); }
    if Be32(m) == COUT { TagSays(m, "COUT"); }
    if Be32(m) == CSEC { TagSays(m, "CSEC"); }
    if Be32(m) == DMDN { TagSays(m, "DMDN"); }
    if Be32(m) == DMUP { TagSays(m, "DMUP"); }
    if Be32(m) == DMMV { TagSays(m, "DMMV"); }
    if Be32(m) == DMRM { TagSays(m, "DMRM"); }
    if Be32(m) == DMWM { TagSays(m, "DMWM"); }
    if Be32(m) == DKDN { TagSays(m, "DKDN"); }
    if Be32(m) == DKRP { TagSays(m, "DKRP"); }
    if Be32(m) == DKUP { TagSays(m, "DKUP"); }
    if Be32(m) == DGBT { TagSays(m, "DGBT"); }
    if Be32(m) == DGST { TagSays(m, "DGST"); }
    if Be32(m) == DSOP { TagSays(m, "DSOP"); }
    if Be32(m) == CALV { TagSays(m, "CALV"); }
    if Be32(m) == CCLP { TagSays(m, "CCLP"); }
    if Be32(m) == DCLP { TagSays(m, "DCLP"); }
    if Be32(m) == CBYE { TagSays(m, "CBYE"); }
    if Be32(m) == EBAD { TagSays(m, "EBAD"); }
    if Be32(m) == EBSY { TagSays(m, "EBSY"); }
  }

  lemma UnknownIgnored(env: Env, st: State, m: seq<byte>)
    requires st.Sound() && !Known(m) && !Greets(m)
    ensures Admissible(m) && Process(env, st, m) == st
  {
    hide Known, Greets, Welcome;
    GreetsIff(m);
    if |m| >= 4 {
      UnknownTag(m);
      assert Branch(env, st, m) == Step(st, false);
    }
  }

  /** A greeting that stops before its version numbers end is ignored. */
  lemma ShortGreetingIgnored(env: Env, st: State, m: seq<byte>)
    requires st.Sound() && Greets(m) && |m| < 11
    ensures Admissible(m) && Process(env, st, m) == st
  {
    GreetsIff(m);
  }

  // ---------------------------------------------------------------- clipboard messages

  lemma GrabTaken(env: Env, st: State, m: seq<byte>)
    requires st.Sound() && Says(m, "CCLP") && (|m| >= 9 ==> m[4] < 2)
    ensures Admissible(m)
    ensures Process(env, st, m) ==
      if |m| < 9 then st
      else Answered(st.WithClip(m[4], st.ClipOf(m[4]).(grabbed := false)), Ascii("CNOP"))
  {
    hide U32, Says, Ascii, Be32, Be16;
    SaysTag(m, "CCLP", CCLP);
    Spelled("CNOP", CNOP);
    assert Branch(env, st, m) == OnClipGrab(st, m);
  }

  /** A local update that is no repeat fills the clipboard, and "CCLP" tells its number and the
      sequence number of the last enter message. */
  lemma OfferTaken(env: Env, st: State, id: nat, data: seq<byte>)
    requires st.Sound() && id < 2 && Storable(data)
    ensures var c := st.ClipOf(id);
      if Holds(c, env.past, data) then Offer(env, st, id, data) == st
      else
        var d := Grab(c, data, env.junk);
        && Offer(env, st, id, data) == Answered(st.WithClip(id, d), Ascii("CCLP") + [id] + U32(st.sequence))
        && d.grabbed && !d.inStream && EncodeText(data) <= d.buf
  {
    hide U32, Ascii, Holds;
    Spelled("CCLP", CCLP);
  }

  /** A message with clipboard data: 1 starts a transfer, 2 continues it, 3 ends it. */
  predicate Carries(m: seq<byte>, id: nat, mark: nat, size: nat) {
    Says(m, "DCLP") && |m| >= 14 && id < 2 && m[4] == id && m[9] == mark && Be32(m[10..]) == size
  }

  lemma ShortDataIgnored(env: Env, st: State, m: seq<byte>)
    requires st.Sound() && Says(m, "DCLP") && |m| < 14
    ensures Admissible(m) && Process(env, st, m) == st
  {
    hide Says, Be32;
    SaysTag(m, "DCLP", DCLP);
    assert Branch(env, st, m) == OnClipData(env, st, m);
  }

  lemma DataProcessed(env: Env, st: State, m: seq<byte>, id: nat, mark: nat, size: nat)
    requires st.Sound() && Carries(m, id, mark, size) && mark != 1
    ensures Admissible(m)
    ensures var c := st.ClipOf(id);
      var step := if mark == 2 && c.inStream then OnClipChunk(st, id, size, m[14..])
                  else if mark == 3 && c.inStream then OnClipEnd(st, id)
                  else Step(st, true);
      Process(env, st, m) == if step.done then Answered(step.st, Ascii("CNOP")) else step.st
  {
    hide U32, OnClipStart, OnClipChunk, OnClipEnd, Says, Ascii, Be32;
    SaysTag(m, "DCLP", DCLP);
    Spelled("CNOP", CNOP);
    assert Branch(env, st, m) == OnClipData(env, st, m);
  }

  /** The start of a transfer: the total is what atoi makes of the text; the buffer is made as
      large as that if the recorded length is less, and keeps what it held as far as it goes. */
  lemma StartTaken(env: Env, st: State, m: seq<byte>, id: nat, size: nat)
    requires st.Sound() && Carries(m, id, 1, size) && 14 + size <= |m|
    requires 0 <= Decimal.Atoi(m[14..14 + size]) < 0x8000_0000
    ensures Admissible(m)
    ensures var c, total := st.ClipOf(id), Decimal.Atoi(m[14..14 + size]);
      var r := Process(env, st, m).ClipOf(id);
      && Process(env, st, m) == Answered(st.WithClip(id, r), Ascii("CNOP"))
      && r == Clip(r.buf, c.len, 0, total, true, false)
      && |r.buf| == (if total > c.len then total else |c.buf|)
      && forall i :: 0 <= i < |r.buf| && i < |c.buf| ==> r.buf[i] == c.buf[i]
  {
    hide Process, Admissible, U32, Decimal.Atoi;
    StartProcessed(env, st, m, id, size);
  }

  lemma StartProcessed(env: Env, st: State, m: seq<byte>, id: nat, size: nat)
    requires st.Sound() && Carries(m, id, 1, size) && 14 + size <= |m|
    requires 0 <= Decimal.Atoi(m[14..14 + size]) < 0x8000_0000
    ensures Admissible(m)
    ensures var step := OnClipStart(env, st, id, m[14..14 + size]);
      Process(env, st, m) == if step.done then Answered(step.st, Ascii("CNOP")) else step.st
  {
    hide U32, OnClipStart, OnClipChunk, OnClipEnd, Says, Ascii, Be32, Decimal.Atoi;
    SaysTag(m, "DCLP", DCLP);
    Spelled("CNOP", CNOP);
    assert Branch(env, st, m) == OnClipData(env, st, m);
    assert OnClipData(env, st, m) == OnClipStart(env, st, id, m[14..14 + size]);
  }

  /** The three things a chunk can do: overrun the announced total, and be refused without an
      acknowledgement; announce more than it brings, and count without being stored; or be
      stored where the last one ended. */
  lemma ChunkTaken(env: Env, st: State, m: seq<byte>, id: nat, size: nat)
    requires st.Sound() && Carries(m, id, 2, size) && st.ClipOf(id).inStream
    ensures Admissible(m)
    ensures var c := st.ClipOf(id);
      var moved := c.(pos := c.pos + size);
      Process(env, st, m) ==
        if c.pos + size > c.expected then st
        else if size > |m| - 14 then Answered(st.WithClip(id, moved), Ascii("CNOP"))
        else Answered(st.WithClip(id, moved.(buf := c.buf[..c.pos] + m[14..14 + size] + c.buf[c.pos + size..])),
                      Ascii("CNOP"))
  {
    hide Process, Admissible, U32;
    DataProcessed(env, st, m, id, 2, size);
    assert size <= |m| - 14 ==> m[14..][..size] == m[14..14 + size];
  }

  /** The end of a transfer announces the entries that parse; if one does not, the transfer
      stays under way and there is no acknowledgement. */
  lemma EndTaken(env: Env, st: State, m: seq<byte>, id: nat, size: nat)
    requires st.Sound() && Carries(m, id, 3, size) && st.ClipOf(id).inStream
    ensures Admissible(m)
    ensures var c := st.ClipOf(id);
      var parsed := ReadAll(c.buf[..c.expected]);
      var told := st.(events := st.events + ClipEvents(id, parsed.items));
      Process(env, st, m) ==
        if parsed.ok then Answered(told.WithClip(id, c.(inStream := false)), Ascii("CNOP")) else told
  {
    hide Process, Admissible, U32, ReadAll;
    DataProcessed(env, st, m, id, 3, size);
  }

  /** Chunks and ends without a transfer, and other marks, are acknowledged and nothing else. */
  lemma StrayDataIgnored(env: Env, st: State, m: seq<byte>, id: nat, mark: nat, size: nat)
    requires st.Sound() && Carries(m, id, mark, size) && mark != 1
    requires mark == 2 || mark == 3 ==> !st.ClipOf(id).inStream
    ensures Admissible(m) && Process(env, st, m) == Answered(st, Ascii("CNOP"))
  {
    hide Process, Admissible, U32;
    DataProcessed(env, st, m, id, mark, size);
  }

  // ---------------------------------------------------------------- the chunks of a transfer

  /** A transfer starts with the total in decimal under mark 1, carries 995 octets a message
      under mark 2, the last one what is left, and ends with an empty one under mark 3. */
  lemma {:induction false} ChunkAt(id: nat, sequence: nat, text: seq<byte>, k: nat)
    requires 995 * k < |text|
    ensures var bodies, next := ChunkMessages(id, sequence, text), Min(995 * k + 995, |text|);
      k < |bodies| && bodies[k] == Dclp(id, sequence, 2, text[995 * k..next])
    decreases k
  {
    hide Dclp;
    if k > 0 {
      ChunkAt(id, sequence, text[995..], k - 1);
      var next := Min(995 * k + 995, |text|);
      assert text[995..][995 * (k - 1)..next - 995] == text[995 * k..next];
    }
  }

  lemma {:induction false} ChunkCount(id: nat, sequence: nat, text: seq<byte>)
    ensures |ChunkMessages(id, sequence, text)| == (|text| + 994) / 995
    decreases |text|
  {
    hide Dclp;
    if |text| > 995 {
      ChunkCount(id, sequence, text[995..]);
    } else if text != [] {
      assert text[|text|..] == [];
    }
  }

  lemma TransferEnds(id: nat, sequence: nat, text: seq<byte>)
    ensures var bodies := ClipMessages(id, sequence, text);
      && |bodies| == (|text| + 994) / 995 + 2
      && bodies[0] == Dclp(id, sequence, 1, Decimal.Dec(|text|))
      && bodies[1..|bodies| - 1] == ChunkMessages(id, sequence, text)
      && bodies[|bodies| - 1] == Dclp(id, sequence, 3, [])
  {
    hide Dclp;
    ChunkCount(id, sequence, text);
  }
}
