/**
 Messages written out field by field, in the formats the protocol gives them, and what the
 client reads from them or puts into them.
 */
module Messages {
  import opened Basics
  import opened Bytes
  import opened Clipboard
  import opened Protocol
  import opened History
  import opened Transfer
  import Decimal

  const TWO_16: int := 0x1_0000

  /** A field stands in a message where its octets stand. */
  lemma Read16(m: seq<byte>, at: nat, v: nat)
    requires v < TWO_16 && at + 2 <= |m| && m[at..at + 2] == U16(v)
    ensures Be16(m[at..]) == v
  {
    assert m[at..][..2] == m[at..at + 2];
    assert Power256(2) == TWO_16;
    BeValueOfOctets(v, 2);
  }

  lemma Read32(m: seq<byte>, at: nat, v: nat)
    requires v < TWO_32 && at + 4 <= |m| && m[at..at + 4] == U32(v)
    ensures Be32(m[at..]) == v
  {
    assert m[at..] == U32(v) + m[at + 4..];
    U32RoundTrip(v, m[at + 4..]);
  }

  lemma ReadTag(m: seq<byte>, tag: nat)
    requires tag < TWO_32 && tag / 0x100_0000 !in {0x42, 0x53} && |m| >= 4 && m[..4] == U32(tag)
    ensures Be32(m) == tag && Welcome(m).None?
  {
    assert m[0..] == m;
    Read32(m, 0, tag);
    TagIsNoWelcome(m);
  }

  // ---------------------------------------------------------------- keys

  /** "DKDN%2i%2i%2i" and "DKUP%2i%2i%2i" */
  function KeyMessage(down: bool, id: nat, mods: nat, key: nat): seq<byte> {
    U32(if down then DKDN else DKUP) + U16(id) + U16(mods) + U16(key)
  }

  lemma KeyTold(env: Env, st: State, down: bool, id: nat, mods: nat, key: nat)
    requires st.Sound() && id < TWO_16 && mods < TWO_16 && key < TWO_16
    ensures var m := KeyMessage(down, id, mods, key);
      && Admissible(m)
      && Process(env, st, m) == Send(st.(events :=
           st.events + [Key(if env.rawKeys then key else id, id, mods, down, false)]), U32(CNOP))
  {
    hide U16, U32, Octets, Be16, Be32, Send;
    var m := KeyMessage(down, id, mods, key);
    assert m[4..6] == U16(id) && m[6..8] == U16(mods) && m[8..10] == U16(key);
    ReadTag(m, if down then DKDN else DKUP);
    Read16(m, 4, id);
    Read16(m, 6, mods);
    Read16(m, 8, key);
    assert Branch(env, st, m) == OnKey(env, st, m, down);
  }

  /** "DKRP%2i%2i%2i%2i" */
  function RepeatMessage(id: nat, mods: nat, count: nat, key: nat): seq<byte> {
    U32(DKRP) + U16(id) + U16(mods) + U16(count) + U16(key)
  }

  lemma RepeatTold(env: Env, st: State, id: nat, mods: nat, count: nat, key: nat)
    requires st.Sound() && id < TWO_16 && mods < TWO_16 && key < TWO_16
    ensures var m := RepeatMessage(id, mods, count, key);
      && Admissible(m)
      && Process(env, st, m) == Send(st.(events :=
           st.events + [Key(if env.rawKeys then key else id, id, mods, true, true)]), U32(CNOP))
  {
    hide U16, U32, Octets, Be16, Be32, Send;
    var m := RepeatMessage(id, mods, count, key);
    assert m[4..6] == U16(id) && m[6..8] == U16(mods) && m[10..12] == U16(key);
    ReadTag(m, DKRP);
    Read16(m, 4, id);
    Read16(m, 6, mods);
    Read16(m, 10, key);
    assert Branch(env, st, m) == OnKeyRepeat(env, st, m);
  }

  // ---------------------------------------------------------------- entering and leaving

  /** "CINN%2i%2i%4i%2i" */
  function EnterMessage(x: nat, y: nat, sequence: nat, mods: nat): seq<byte> {
    U32(CINN) + U16(x) + U16(y) + U32(sequence) + U16(mods)
  }

  lemma EnterTold(env: Env, st: State, x: nat, y: nat, sequence: nat, mods: nat)
    requires st.Sound() && sequence < TWO_32
    ensures var m := EnterMessage(x, y, sequence, mods);
      && Admissible(m)
      && Process(env, st, m) == Send(st.(sequence := sequence, captured := true,
           events := st.events + [Active(true)]), U32(CNOP))
  {
    hide U16, U32, Octets, Be16, Be32, Send;
    var m := EnterMessage(x, y, sequence, mods);
    ReadTag(m, CINN);
    Read32(m, 8, sequence);
    assert Branch(env, st, m) == OnEnter(st, m);
  }

  /** "DCLP%1i%4i%1i%s": the fields of a clipboard message, the last one with its length. */
  ghost predicate ClipFields(m: seq<byte>, id: nat, sequence: nat) {
    && |m| >= 14 && Be32(m) == DCLP
    && m[4] == id && Be32(m[5..]) == sequence && Be32(m[10..]) == |m| - 14
  }

  lemma DclpFields(id: nat, sequence: nat, mark: nat, payload: seq<byte>)
    requires Fields(id, sequence, mark, payload)
    ensures ClipFields(Dclp(id, sequence, mark, payload), id, sequence)
  {
    DclpShape(id, sequence, mark, payload);
    Read32(Dclp(id, sequence, mark, payload), 5, sequence);
  }

  lemma {:induction false} ChunkFields(id: nat, sequence: nat, text: seq<byte>)
    requires id < 2 && sequence < TWO_32
    ensures forall m :: m in ChunkMessages(id, sequence, text) ==> ClipFields(m, id, sequence)
    decreases |text|
  {
    hide ClipFields, Dclp;
    if text != [] {
      var k := ChunkSize(|text|);
      DclpFields(id, sequence, DATA_CHUNK, text[..k]);
      ChunkFields(id, sequence, text[k..]);
    }
  }

  /** Everything sent for a clipboard carries its number, the sequence number of the last
      enter message, and the true length of what follows. */
  lemma OwedFields(st: State, id: nat)
    requires st.Sound() && id < 2
    ensures forall m :: m in Owed(st, id) ==> ClipFields(m, id, st.sequence)
  {
    hide ClipFields, Dclp;
    var c := st.ClipOf(id);
    if c.grabbed {
      var text := c.buf[..c.pos];
      Decimal.DecLength(|text|);
      DclpFields(id, st.sequence, DATA_START, Decimal.Dec(|text|));
      ChunkFields(id, st.sequence, text);
      DclpFields(id, st.sequence, DATA_END, []);
    }
  }

  // ---------------------------------------------------------------- clipboard grabs

  /** "CCLP%1i%4i" */
  function GrabMessage(id: nat, sequence: nat): seq<byte> {
    U32(CCLP) + [id % 256] + U32(sequence)
  }

  /** What an accepted local update announces makes a client that gets to see it let go of
      that clipboard, and of that one only. */
  lemma GrabPassesOn(env: Env, st: State, id: nat, data: seq<byte>, other: Env, peer: State)
    requires st.Sound() && st.draft == [] && id < 2 && Storable(data) && !Holds(st.ClipOf(id), env.past, data)
    requires peer.Sound()
    ensures var m := GrabMessage(id, st.sequence);
      && Offer(env, st, id, data).replies == st.replies + [m]
      && Admissible(m)
      && Process(other, peer, m)
           == Send(peer.WithClip(id, peer.ClipOf(id).(grabbed := false)), U32(CNOP))
  {
    hide U32, Octets, Be32, Grab, Holds;
    var m := GrabMessage(id, st.sequence);
    assert [] + m == m;
    ReadTag(m, CCLP);
    GrabProcessed(other, peer, m);
  }

  lemma GrabProcessed(env: Env, st: State, m: seq<byte>)
    requires st.Sound() && |m| >= 9 && m[4] < 2 && Be32(m) == CCLP && Welcome(m).None?
    ensures Process(env, st, m) == Send(st.WithClip(m[4], st.ClipOf(m[4]).(grabbed := false)), U32(CNOP))
  {
    hide U32, Octets, Be32, Send;
    assert Branch(env, st, m) == OnClipGrab(st, m);
  }

  // ---------------------------------------------------------------- greeting and size

  /** "Synergy%2i%2i" */
  function GreetingMessage(imp: seq<byte>, major: nat, minor: nat): seq<byte> {
    imp + U16(major) + U16(minor)
  }

  /** A greeting is answered in kind with the client's version and name. */
  lemma GreetingAnswered(env: Env, st: State, imp: seq<byte>, major: nat, minor: nat)
    requires st.Sound() && imp in {BARRIER, SYNERGY} && |env.name| <= MAX_NAME
    ensures var m := GreetingMessage(imp, major, minor);
      && Admissible(m)
      && var r, answer := Process(env, st, m), GreetingMessage(imp, 1, 6) + U32(|env.name|) + env.name;
         && r.replies == st.replies + [answer] && r.draft == []
         && r.greeted == (st.greeted || env.sendOk(|st.replies|))
         && r.connected == (st.connected && env.sendOk(|st.replies|))
  {
    hide U16, U32, Octets;
    var m := GreetingMessage(imp, major, minor);
    assert m[..7] == imp && m[0] == imp[0];
    assert Welcome(m) == Some(imp);
    var answer := GreetingMessage(imp, 1, 6) + U32(|env.name|) + env.name;
    assert [] + answer == answer;
  }

  /** "DINF%2i%2i%2i%2i%2i%2i%2i": the size stands third and fourth, all else is zero. */
  lemma InfoFields(width: nat, height: nat)
    ensures var m := InfoReply(width, height);
      && Be32(m) == DINF
      && Be16(m[8..]) == width % TWO_16 && Be16(m[10..]) == height % TWO_16
      && forall i :: 4 <= i < 18 && !(8 <= i < 12) ==> m[i] == 0
  {
    var m := InfoReply(width, height);
    ReadTag(m, DINF);
    Low16(width);
    Low16(height);
    Read16(m, 8, width % TWO_16);
    Read16(m, 10, height % TWO_16);
    ShiftedOctets(0);
  }

  lemma Low16(v: nat)
    ensures U16(v) == U16(v % TWO_16)
  {
    hide U16, U32;
    ShiftedOctets(v);
    ShiftedOctets(v % TWO_16);
    assert v / 0x100 == v / TWO_16 * 0x100 + v % TWO_16 / 0x100;
  }
}
