/**
 The protocol client as a state machine over message bodies and local requests:
 what src/uSynergy.c does to its state, which callbacks it makes and what it replies.
 */
module Protocol {
  import opened Basics
  import opened Bytes
  import opened Clipboard
  import Decimal

  // ---------------------------------------------------------------- message identifiers

  // Four ASCII letters, read as one big-endian number.
  const QINF: int := 0x5149_4E46
  const CIAK: int := 0x4349_414B
  const CROP: int := 0x4352_4F50
  const CINN: int := 0x4349_4E4E
  const COUT: int := 0x434F_5554
  const CSEC: int := 0x4353_4543
  const DMDN: int := 0x444D_444E
  const DMUP: int := 0x444D_5550
  const DMMV: int := 0x444D_4D56
  const DMRM: int := 0x444D_524D
  const DMWM: int := 0x444D_574D
  const DKDN: int := 0x444B_444E
  const DKRP: int := 0x444B_5250
  const DKUP: int := 0x444B_5550
  const DGBT: int := 0x4447_4254
  const DGST: int := 0x4447_5354
  const DSOP: int := 0x4453_4F50
  const CALV: int := 0x4341_4C56
  const CCLP: int := 0x4343_4C50
  const DCLP: int := 0x4443_4C50
  const CBYE: int := 0x4342_5945
  const EBAD: int := 0x4542_4144
  const EBSY: int := 0x4542_5359
  const DINF: int := 0x4449_4E46
  const CNOP: int := 0x434E_4F50

  /** "Barrier" and "Synergy", the greetings a server may start with. */
  const BARRIER: seq<byte> := [0x42, 0x61, 0x72, 0x72, 0x69, 0x65, 0x72]
  const SYNERGY: seq<byte> := [0x53, 0x79, 0x6E, 0x65, 0x72, 0x67, 0x79]

  const PROTOCOL_MAJOR: nat := 1
  const PROTOCOL_MINOR: nat := 6

  const DATA_START: nat := 1
  const DATA_CHUNK: nat := 2
  const DATA_END: nat := 3

  /** USYNERGY_REPLY_BUFFER_SIZE */
  const REPLY_BUFFER_SIZE: int := 1024
  /** The most clipboard octets one chunk message carries. */
  const MAX_CHUNK: int := REPLY_BUFFER_SIZE - 29
  /** Reply octets that a greeting whose client name does not fit leaves behind. */
  const RESIDUE: int := 15

  // ---------------------------------------------------------------- the state

  datatype Error = Init | NoError | Busy | Bad | Timeout

  /** The callbacks the rest of the program acts on. */
  datatype Event =
    | Active(on: bool)
    | Key(key: nat, id: nat, mods: nat, down: bool, repeat: bool)
    | ClipData(id: nat, format: nat, data: seq<byte>)

  /** What the engine cannot determine itself: its configuration, whether the n-th send
      succeeds, what fresh heap memory holds, and what memory past an allocation holds. */
  datatype Env = Env(name: seq<byte>, rawKeys: bool, sendOk: nat -> bool, junk: nat -> byte, past: nat -> byte)

  datatype State = State(
    connected: bool,
    greeted: bool,
    infoCurrent: bool,
    captured: bool,
    lastError: Error,
    sequence: nat,
    width: nat,
    height: nat,
    draft: seq<byte>,           // reply octets added since the last send
    replies: seq<seq<byte>>,    // bodies handed to the transport
    clip0: Clip,
    clip1: Clip,
    events: seq<Event>)
  {
    predicate Sound() {
      |draft| <= RESIDUE && sequence < TWO_32 && clip0.Sound() && clip1.Sound()
    }

    function ClipOf(id: nat): Clip {
      if id == 0 then clip0 else clip1
    }

    function WithClip(id: nat, c: Clip): State {
      if id == 0 then this.(clip0 := c) else this.(clip1 := c)
    }
  }

  /** uSynergyInit */
  const START := State(false, false, false, false, Init, 0, 0, 0, [], [], EMPTY, EMPTY, [])

  /** sSetDisconnected */
  function Disconnected(st: State, err: Error): State {
    st.(connected := false, greeted := false, captured := false, draft := [], sequence := 0, lastError := err)
  }

  // ---------------------------------------------------------------- replies

  /** A reply under construction: nothing is added once an addition did not fit. */
  datatype Draft = Draft(ok: bool, text: seq<byte>)

  function Put(d: Draft, bs: seq<byte>): Draft {
    if d.ok && 4 + |d.text| + |bs| <= REPLY_BUFFER_SIZE then Draft(true, d.text + bs) else Draft(false, d.text)
  }

  /** sSendReply */
  function Send(st: State, body: seq<byte>): State {
    st.(draft := [], replies := st.replies + [st.draft + body])
  }

  /** What is sent for a list of bodies when octets are left in the buffer before it. */
  function Prefixed(draft: seq<byte>, bodies: seq<seq<byte>>): seq<seq<byte>> {
    if bodies == [] then [] else [draft + bodies[0]] + bodies[1..]
  }

  lemma PrefixedParts(draft: seq<byte>, first: seq<byte>, middle: seq<seq<byte>>, last: seq<byte>)
    ensures Prefixed(draft, [first] + middle + [last]) == [draft + first] + middle + [last]
  {
    var bodies := [first] + middle + [last];
    assert bodies[1..] == middle + [last];
  }

  function SendAll(st: State, bodies: seq<seq<byte>>): State
    requires bodies != []
  {
    st.(draft := [], replies := st.replies + Prefixed(st.draft, bodies))
  }

  // ---------------------------------------------------------------- clipboard messages

  function DclpHeader(id: nat, sequence: nat, mark: nat, size: nat): (s: seq<byte>)
    ensures |s| == 14
  {
    U32(DCLP) + [id % 256] + U32(sequence) + [mark % 256] + U32(size)
  }

  function Dclp(id: nat, sequence: nat, mark: nat, payload: seq<byte>): seq<byte> {
    DclpHeader(id, sequence, mark, |payload|) + payload
  }

  function ChunkSize(left: nat): (k: nat)
    ensures k <= left && (left > 0 ==> k > 0)
  {
    if left > MAX_CHUNK then MAX_CHUNK else left
  }

  function ChunkMessages(id: nat, sequence: nat, text: seq<byte>): seq<seq<byte>>
    decreases |text|
  {
    if text == [] then []
    else
      var k := ChunkSize(|text|);
      [Dclp(id, sequence, DATA_CHUNK, text[..k])] + ChunkMessages(id, sequence, text[k..])
  }

  lemma ChunkStep(id: nat, sequence: nat, text: seq<byte>, pos: nat)
    requires pos < |text|
    ensures var next := pos + ChunkSize(|text| - pos);
      ChunkMessages(id, sequence, text[pos..])
        == [Dclp(id, sequence, DATA_CHUNK, text[pos..next])] + ChunkMessages(id, sequence, text[next..])
  {
    var k := ChunkSize(|text| - pos);
    assert text[pos..][..k] == text[pos..pos + k];
    assert text[pos..][k..] == text[pos + k..];
  }

  /** uSynergySendClipboard: the bodies that carry text. */
  function ClipMessages(id: nat, sequence: nat, text: seq<byte>): (bodies: seq<seq<byte>>)
    ensures bodies != []
  {
    [Dclp(id, sequence, DATA_START, Decimal.Dec(|text|))]
    + ChunkMessages(id, sequence, text)
    + [Dclp(id, sequence, DATA_END, [])]
  }

  /** The COUT branch for one clipboard: a grabbed buffer is sent and let go. */
  function Release(st: State, id: nat): (r: State)
    requires st.Sound() && id < 2
    ensures r.Sound() && r.events == st.events && r.connected == st.connected
    ensures !r.ClipOf(id).grabbed && (id == 1 ==> r.clip0 == st.clip0)
    ensures r.clip0.len == st.clip0.len && r.clip1.len == st.clip1.len
    ensures st.draft == [] ==> r.draft == []
  {
    var c := st.ClipOf(id);
    if !c.grabbed then st
    else
      var sent := SendAll(st, ClipMessages(id, st.sequence, c.buf[..c.pos]));
      sent.WithClip(id, c.(grabbed := false))
  }

  /** The first n rounds of the COUT loop. */
  function ReleaseFirst(st: State, n: nat): (r: State)
    requires st.Sound() && n <= 2
    ensures r.Sound() && r.events == st.events && r.connected == st.connected
    ensures n >= 1 ==> !r.clip0.grabbed
    ensures n == 2 ==> !r.clip1.grabbed
    ensures r.clip0.len == st.clip0.len && r.clip1.len == st.clip1.len
    ensures st.draft == [] ==> r.draft == []
  {
    if n == 0 then st else Release(ReleaseFirst(st, n - 1), n - 1)
  }

  // ---------------------------------------------------------------- the dispatcher

  /** sIsWelcome */
  function Welcome(body: seq<byte>): Option<seq<byte>> {
    if BARRIER <= body then Some(BARRIER)
    else if SYNERGY <= body then Some(SYNERGY)
    else None
  }

  /** A message whose first letter is neither of the greetings' is no greeting. */
  lemma TagIsNoWelcome(body: seq<byte>)
    requires |body| >= 4 && Be32(body) / 0x100_0000 !in {0x42, 0x53}
    ensures Welcome(body).None?
  {
    ShiftedValue(body);
    assert body[0] != BARRIER[0] && body[0] != SYNERGY[0];
  }

  /** The greeting up to the client name. */
  function HelloStart(name: seq<byte>, imp: seq<byte>): (s: seq<byte>)
    ensures |s| == |imp| + 8
  {
    imp + U16(PROTOCOL_MAJOR) + U16(PROTOCOL_MINOR) + U32(|name|)
  }

  function HelloDraft(name: seq<byte>, imp: seq<byte>): Draft {
    Put(Draft(true, HelloStart(name, imp)), name)
  }

  /** The welcome branch: whatever a failed reply left behind is discarded first. */
  function Greet(env: Env, st: State, imp: seq<byte>): (r: State)
    requires st.Sound() && |imp| == 7
    ensures r.Sound()
  {
    var hello := HelloDraft(env.name, imp);
    if !hello.ok then st.(draft := hello.text)
    else
      var sent := Send(st.(draft := []), hello.text);
      if env.sendOk(|st.replies|) then sent.(greeted := true) else sent.(connected := false)
  }

  /** Octets the dispatcher insists on after the identifier of the messages that only
      feed a mouse, joystick or screen saver callback, or none. */
  function PlainSize(tag: int): Option<nat> {
    if tag == CSEC || tag == DMDN || tag == DMUP then Some(1)
    else if tag == DMMV || tag == DMRM || tag == DMWM then Some(4)
    else if tag == DGBT then Some(3)
    else if tag == DGST then Some(5)
    else if tag == DSOP then Some(0)
    else None
  }

  /** The state after a branch, and whether it falls through to the CNOP reply. */
  datatype Step = Step(st: State, done: bool)

  function OnKey(env: Env, st: State, body: seq<byte>, down: bool): Step
    requires |body| >= 4
  {
    if |body| < 10 then Step(st, false)
    else
      var id, mods, key := Be16(body[4..]), Be16(body[6..]), Be16(body[8..]);
      var event := Key(if env.rawKeys then key else id, id, mods, down, false);
      Step(st.(events := st.events + [event]), true)
  }

  function OnKeyRepeat(env: Env, st: State, body: seq<byte>): Step
    requires |body| >= 4
  {
    if |body| < 12 then Step(st, false)
    else
      var id, mods, key := Be16(body[4..]), Be16(body[6..]), Be16(body[10..]);
      var event := Key(if env.rawKeys then key else id, id, mods, true, true);
      Step(st.(events := st.events + [event]), true)
  }

  function OnEnter(st: State, body: seq<byte>): Step
    requires |body| >= 4
  {
    if |body| < 12 then Step(st, false)
    else Step(st.(sequence := Be32(body[8..]), captured := true, events := st.events + [Active(true)]), true)
  }

  function OnLeave(st: State): (r: Step)
    requires st.Sound()
    ensures r.st.Sound() && !r.st.clip0.grabbed && !r.st.clip1.grabbed
    ensures r.st.connected == st.connected
    ensures r.st.clip0.len == st.clip0.len && r.st.clip1.len == st.clip1.len
  {
    var sent := ReleaseFirst(st.(captured := false), 2);
    Step(sent.(events := sent.events + [Active(false)]), true)
  }

  function OnClipGrab(st: State, body: seq<byte>): (r: Step)
    requires st.Sound() && |body| >= 4 && ClipIndexOk(body, 9)
    ensures r.st.Sound()
  {
    if |body| < 9 then Step(st, false)
    else Step(st.WithClip(body[4], st.ClipOf(body[4]).(grabbed := false)), true)
  }

  /** The id of a message whose fields are all there (`size` octets of them) names one
      of the two clipboards. */
  predicate ClipIndexOk(body: seq<byte>, size: nat)
    requires size > 4
  {
    |body| >= size ==> body[4] < 2
  }

  /** The text of a transfer's start is there in full and atoi makes a size of it: for a
      number beyond the range of int it is not defined, and for a negative one the
      allocation fails and the program aborts. */
  predicate StartTextOk(body: seq<byte>) {
    |body| >= 14 && body[9] == DATA_START ==>
      && 14 + Be32(body[10..]) <= |body|
      && var text := body[14..14 + Be32(body[10..])];
         0 <= Decimal.Atoi(text) < TWO_31
  }

  /** Messages on which the program's behaviour is defined by the language. */
  predicate Admissible(body: seq<byte>) {
    Welcome(body).None? && |body| >= 4 && (Be32(body) == CCLP || Be32(body) == DCLP) ==>
      if Be32(body) == CCLP then ClipIndexOk(body, 9) else ClipIndexOk(body, 14) && StartTextOk(body)
  }

  function ClipEvents(id: nat, items: seq<Item>): (es: seq<Event>)
    ensures |es| == |items|
  {
    seq(|items|, i requires 0 <= i < |items| => ClipData(id, items[i].0, items[i].1))
  }

  function OnClipStart(env: Env, st: State, id: nat, text: seq<byte>): (r: Step)
    requires st.Sound() && Decimal.Atoi(text) >= 0
    ensures r.st.Sound()
  {
    Step(st.WithClip(id, Start(st.ClipOf(id), Decimal.Atoi(text), env.junk)), true)
  }

  function OnClipChunk(st: State, id: nat, size: nat, rest: seq<byte>): (r: Step)
    requires st.Sound() && st.ClipOf(id).inStream
    ensures r.st.Sound()
  {
    var c := st.ClipOf(id);
    if c.pos + size > c.expected then Step(st, false)
    else Step(st.WithClip(id, Chunk(c, size, rest)), true)
  }

  function OnClipEnd(st: State, id: nat): (r: Step)
    requires st.Sound() && st.ClipOf(id).inStream
    ensures r.st.Sound()
  {
    var c := st.ClipOf(id);
    var parsed := Finish(c);
    var told := st.(events := st.events + ClipEvents(id, parsed.items));
    Step(told.WithClip(id, c.(inStream := !parsed.ok)), parsed.ok)
  }

  function OnClipData(env: Env, st: State, body: seq<byte>): (r: Step)
    requires st.Sound() && |body| >= 4 && ClipIndexOk(body, 14) && StartTextOk(body)
    ensures r.st.Sound()
  {
    if |body| < 14 then Step(st, false)
    else
      var id, mark, size := body[4], body[9], Be32(body[10..]);
      if mark == DATA_START then OnClipStart(env, st, id, body[14..14 + size])
      else if mark == DATA_CHUNK && st.ClipOf(id).inStream then OnClipChunk(st, id, size, body[14..])
      else if mark == DATA_END && st.ClipOf(id).inStream then OnClipEnd(st, id)
      else Step(st, true)
  }

  function OnPlain(st: State, body: seq<byte>, size: nat): Step {
    Step(st, |body| >= 4 + size)
  }

  /** The branches that may fall through to the CNOP reply. */
  function Branch(env: Env, st: State, body: seq<byte>): (r: Step)
    requires st.Sound() && Admissible(body) && Welcome(body).None? && |body| >= 4
    ensures r.st.Sound()
    ensures st.draft == [] ==> r.st.draft == []
  {
    var tag := Be32(body);
    if tag == CINN then OnEnter(st, body)
    else if tag == COUT then OnLeave(st)
    else if tag == DKDN then OnKey(env, st, body, true)
    else if tag == DKRP then OnKeyRepeat(env, st, body)
    else if tag == DKUP then OnKey(env, st, body, false)
    else if tag == CALV then Step(Send(st, U32(CALV)), true)
    else if tag == CCLP then OnClipGrab(st, body)
    else if tag == DCLP then OnClipData(env, st, body)
    else match PlainSize(tag)
      case Some(size) => OnPlain(st, body, size)
      case None => Step(st, false)
  }

  /** DINF: position, size, warp and mouse position. */
  function InfoReply(width: nat, height: nat): (s: seq<byte>)
    ensures |s| == 18
  {
    U32(DINF) + U16(0) + U16(0) + U16(width) + U16(height) + U16(0) + U16(0) + U16(0)
  }

  /** The error a closing message leaves behind. */
  function Closing(body: seq<byte>): Option<Error> {
    if Welcome(body).Some? || |body| < 4 then None
    else if Be32(body) == CBYE then Some(NoError)
    else if Be32(body) == EBAD then Some(Bad)
    else if Be32(body) == EBSY then Some(Busy)
    else None
  }

  /** The branches after the welcome test, for a message long enough to have a tag. */
  function ProcessTagged(env: Env, st: State, body: seq<byte>): (r: State)
    requires st.Sound() && Admissible(body) && Welcome(body).None? && |body| >= 4
    ensures r.Sound()
  {
    var tag := Be32(body);
    if tag == QINF then Send(st, InfoReply(st.width, st.height)).(infoCurrent := false)
    else if tag == CIAK then st.(infoCurrent := true)
    else if tag == CROP then st
    else if Closing(body).Some? then Disconnected(st, Closing(body).value)
    else
      var step := Branch(env, st, body);
      if step.done then Send(step.st, U32(CNOP)) else step.st
  }

  /** sProcessMessage */
  function Process(env: Env, st: State, body: seq<byte>): (r: State)
    requires st.Sound() && Admissible(body)
    ensures r.Sound()
  {
    match Welcome(body)
    case Some(imp) => if |body| < 11 then st else Greet(env, st, imp)
    case None => if |body| < 4 then st else ProcessTagged(env, st, body)
  }

  ghost predicate AllAdmissible(bodies: seq<seq<byte>>) {
    forall b :: b in bodies ==> Admissible(b)
  }

  /** The packet loop over whole messages: it ends early when the connection is lost. */
  function Dispatch(env: Env, st: State, bodies: seq<seq<byte>>): (r: State)
    requires st.Sound() && AllAdmissible(bodies)
    ensures r.Sound()
    decreases |bodies|
  {
    if bodies == [] || !st.connected then st
    else Dispatch(env, Process(env, st, bodies[0]), bodies[1..])
  }

  lemma {:induction false} DispatchSplit(env: Env, st: State, xs: seq<seq<byte>>, ys: seq<seq<byte>>)
    requires st.Sound() && AllAdmissible(xs) && AllAdmissible(ys)
    ensures AllAdmissible(xs + ys)
    ensures Dispatch(env, st, xs + ys) == Dispatch(env, Dispatch(env, st, xs), ys)
    decreases |xs|
  {
    if xs == [] {
      assert xs + ys == ys;
    } else if st.connected {
      assert (xs + ys)[1..] == xs[1..] + ys;
      DispatchSplit(env, Process(env, st, xs[0]), xs[1..], ys);
    }
  }

  // ---------------------------------------------------------------- local requests

  /** uSynergyUpdateClipBuf */
  function Offer(env: Env, st: State, id: nat, data: seq<byte>): (r: State)
    requires st.Sound() && id < 2 && Storable(data)
    ensures r.Sound()
  {
    if Holds(st.ClipOf(id), env.past, data) then st
    else
      Send(st.WithClip(id, Grab(st.ClipOf(id), data, env.junk)), U32(CCLP) + [id] + U32(st.sequence))
  }

  /** uSynergyUpdateRes */
  function UpdateRes(st: State, width: nat, height: nat): (r: State)
    requires st.Sound()
    ensures r.Sound()
  {
    var sized := st.(width := width, height := height);
    if st.connected then Send(sized, InfoReply(width, height)).(infoCurrent := false) else sized
  }
}
