/**
 A clipboard transfer from one client to another, end to end.
 */
module Transfer {
  import opened Basics
  import opened Bytes
  import opened Framing
  import opened Clipboard
  import opened Protocol
  import opened History
  import Decimal

  predicate Fields(id: nat, sequence: nat, mark: nat, payload: seq<byte>) {
    id < 2 && sequence < TWO_32 && mark < 256 && |payload| < TWO_32
  }

  /** Where the fields of a DCLP message stand. */
  lemma DclpShape(id: nat, sequence: nat, mark: nat, payload: seq<byte>)
    requires Fields(id, sequence, mark, payload)
    ensures var b := Dclp(id, sequence, mark, payload);
      && |b| == 14 + |payload| && Welcome(b).None? && Be32(b) == DCLP
      && b[4] == id && b[9] == mark && Be32(b[10..]) == |payload| && b[14..] == payload
  {
    var b := Dclp(id, sequence, mark, payload);
    U32RoundTrip(DCLP, b[4..]);
    assert b == U32(DCLP) + b[4..];
    U32RoundTrip(|payload|, payload);
    assert b[10..] == U32(|payload|) + payload;
    ShiftedOctets(DCLP);
    assert b[0] == 0x44;
  }

  /** State id of a receiver that has taken the first k octets of text. */
  ghost predicate Receiving(st: State, id: nat, text: seq<byte>, k: nat) {
    && st.Sound() && st.connected && id < 2 && k <= |text|
    && var c := st.ClipOf(id);
       && c.inStream && c.expected == |text| && c.pos == k && c.buf[..k] == text[..k]
       && (|text| > c.len ==> |c.buf| == |text|)
  }

  /** What a transfer leaves alone. */
  ghost predicate Undisturbed(st: State, r: State, id: nat) {
    && r.connected == st.connected && r.lastError == st.lastError && r.captured == st.captured
    && (id == 1 ==> r.clip0 == st.clip0) && (id == 0 ==> r.clip1 == st.clip1)
    && r.ClipOf(id).len == st.ClipOf(id).len
  }

  /** Processing a DCLP message, fields read. */
  lemma DclpProcessed(env: Env, st: State, id: nat, sequence: nat, mark: nat, payload: seq<byte>)
    requires st.Sound() && Fields(id, sequence, mark, payload)
    requires mark == DATA_START ==> 0 <= Decimal.Atoi(payload) < TWO_31
    ensures var b, c := Dclp(id, sequence, mark, payload), st.ClipOf(id);
      && Admissible(b)
      && var step := if mark == DATA_START then OnClipStart(env, st, id, payload)
           else if mark == DATA_CHUNK && c.inStream then OnClipChunk(st, id, |payload|, payload)
           else if mark == DATA_END && c.inStream then OnClipEnd(st, id)
           else Step(st, true);
         Process(env, st, b) == if step.done then Send(step.st, U32(CNOP)) else step.st
  {
    hide OnClipStart, OnClipChunk, OnClipEnd, Dclp;
    var b := Dclp(id, sequence, mark, payload);
    DclpShape(id, sequence, mark, payload);
    assert b[14..14 + |payload|] == payload;
    assert Branch(env, st, b) == OnClipData(env, st, b);
  }

  lemma StartArrives(env: Env, st: State, id: nat, sequence: nat, text: seq<byte>)
    requires st.Sound() && st.connected && id < 2 && sequence < TWO_32 && |text| < TWO_31
    ensures var b := Dclp(id, sequence, DATA_START, Decimal.Dec(|text|));
      && Admissible(b)
      && var r := Process(env, st, b);
         Receiving(r, id, text, 0) && Undisturbed(st, r, id) && r.events == st.events
  {
    hide Process, Admissible, Dclp, U32, OnClipStart, Decimal.Dec, Decimal.Atoi;
    var digits := Decimal.Dec(|text|);
    Decimal.DecLength(|text|);
    Decimal.DecDenotes(|text|);
    Decimal.AtoiDec(|text|);
    DclpProcessed(env, st, id, sequence, DATA_START, digits);
    Started(env, st, id, text, digits);
  }

  lemma Started(env: Env, st: State, id: nat, text: seq<byte>, digits: seq<byte>)
    requires st.Sound() && st.connected && id < 2 && Decimal.Atoi(digits) == |text|
    ensures var step := OnClipStart(env, st, id, digits);
      step.done && Receiving(step.st, id, text, 0) && Undisturbed(st, step.st, id) && step.st.events == st.events
  {
    hide Decimal.Atoi, Realloc;
  }

  lemma ChunkArrives(env: Env, st: State, id: nat, sequence: nat, text: seq<byte>, k: nat, n: nat)
    requires Receiving(st, id, text, k) && sequence < TWO_32 && n <= MAX_CHUNK && k + n <= |text|
    ensures var b := Dclp(id, sequence, DATA_CHUNK, text[k..k + n]);
      && Admissible(b)
      && var r := Process(env, st, b);
         Receiving(r, id, text, k + n) && Undisturbed(st, r, id) && r.events == st.events
  {
    hide Process, Admissible, Dclp;
    var piece := text[k..k + n];
    DclpProcessed(env, st, id, sequence, DATA_CHUNK, piece);
    var c := st.ClipOf(id);
    assert piece[..n] == piece;
    assert Chunk(c, n, piece).buf[..k + n] == c.buf[..k] + piece;
    assert text[..k + n] == text[..k] + piece;
  }

  lemma EndArrives(env: Env, st: State, id: nat, sequence: nat, text: seq<byte>)
    requires Receiving(st, id, text, |text|) && sequence < TWO_32
    ensures var b := Dclp(id, sequence, DATA_END, []);
      && Admissible(b)
      && var r := Process(env, st, b);
         && r.Sound() && Undisturbed(st, r, id)
         && r.events == st.events + ClipEvents(id, ReadAll(text).items)
         && r.ClipOf(id) == st.ClipOf(id).(inStream := !ReadAll(text).ok)
  {
    hide Process, Admissible, Dclp;
    DclpProcessed(env, st, id, sequence, DATA_END, []);
    assert text[..|text|] == text;
  }

  lemma {:induction false} ChunksArrive(env: Env, st: State, id: nat, sequence: nat, text: seq<byte>, k: nat)
    requires Receiving(st, id, text, k) && sequence < TWO_32
    ensures var bodies := ChunkMessages(id, sequence, text[k..]);
      && AllAdmissible(bodies)
      && var r := Dispatch(env, st, bodies);
         Receiving(r, id, text, |text|) && Undisturbed(st, r, id) && r.events == st.events
    decreases |text| - k
  {
    hide Process, Admissible, Dclp;
    if k < |text| {
      var n := ChunkSize(|text| - k);
      ChunkStep(id, sequence, text, k);
      ChunkArrives(env, st, id, sequence, text, k, n);
      var b := Dclp(id, sequence, DATA_CHUNK, text[k..k + n]);
      ChunksArrive(env, Process(env, st, b), id, sequence, text, k + n);
      var bodies := ChunkMessages(id, sequence, text[k..]);
      assert bodies[0] == b && bodies[1..] == ChunkMessages(id, sequence, text[k + n..]);
    }
  }

  /** The messages that carry a text make a receiver announce exactly the entries the
      text encodes, and nothing else; the text ends up at the start of its buffer. */
  lemma TransferArrives(env: Env, st: State, id: nat, sequence: nat, text: seq<byte>)
    requires st.Sound() && st.connected && id < 2 && sequence < TWO_32 && |text| < TWO_31
    ensures var bodies := ClipMessages(id, sequence, text);
      && AllAdmissible(bodies)
      && var r, c := Dispatch(env, st, bodies), Dispatch(env, st, bodies).ClipOf(id);
         && Undisturbed(st, r, id)
         && r.events == st.events + ClipEvents(id, ReadAll(text).items)
         && text <= c.buf && !c.grabbed && c.inStream == !ReadAll(text).ok
         && (|text| > st.ClipOf(id).len ==> |c.buf| == |text|)
  {
    hide Process, Admissible, Dclp;
    var first := Dclp(id, sequence, DATA_START, Decimal.Dec(|text|));
    var middle := ChunkMessages(id, sequence, text);
    var last := Dclp(id, sequence, DATA_END, []);
    StartArrives(env, st, id, sequence, text);
    var st1 := Process(env, st, first);
    assert text[0..] == text;
    ChunksArrive(env, st1, id, sequence, text, 0);
    var st2 := Dispatch(env, st1, middle);
    EndArrives(env, st2, id, sequence, text);
    assert Dispatch(env, st2, [last]) == Process(env, st2, last);
    DispatchSplit(env, st1, middle, [last]);
    var bodies := ClipMessages(id, sequence, text);
    assert bodies[0] == first && bodies[1..] == middle + [last];
    assert st2.ClipOf(id).buf[..|text|] == text;
  }

  // ---------------------------------------------------------------- both ends together

  /** What COUT has to send for one clipboard. */
  function Owed(st: State, id: nat): seq<seq<byte>>
    requires st.Sound()
  {
    var c := st.ClipOf(id);
    if c.grabbed then ClipMessages(id, st.sequence, c.buf[..c.pos]) else []
  }

  /** Leaving the screen sends what is owed, clipboard 0 first, and then acknowledges. */
  lemma LeaveSendsOwed(env: Env, st: State)
    requires st.Sound() && st.draft == []
    ensures var r := Process(env, st, U32(COUT));
      && Admissible(U32(COUT))
      && r.replies == st.replies + Owed(st, 0) + Owed(st, 1) + [U32(CNOP)]
      && r.events == st.events + [Active(false)]
      && !r.clip0.grabbed && !r.clip1.grabbed
  {
    hide ClipMessages, Send;
    TagAlone(COUT);
    ShiftedOctets(COUT);
    var begun := st.(captured := false);
    ReleaseSends(begun, 0);
    ReleaseSends(Release(begun, 0), 1);
    assert ReleaseFirst(begun, 2) == Release(ReleaseFirst(begun, 1), 1);
    assert ReleaseFirst(begun, 1) == Release(begun, 0);
    SendAfter(OnLeave(st).st);
  }

  lemma SendAfter(st: State)
    requires st.draft == []
    ensures Send(st, U32(CNOP)).replies == st.replies + [U32(CNOP)]
    ensures Send(st, U32(CNOP)).events == st.events
    ensures Send(st, U32(CNOP)).clip0 == st.clip0 && Send(st, U32(CNOP)).clip1 == st.clip1
  {
    assert [] + U32(CNOP) == U32(CNOP);
  }

  lemma ReleaseSends(st: State, id: nat)
    requires st.Sound() && st.draft == [] && id < 2
    ensures var r := Release(st, id);
      && r.replies == st.replies + Owed(st, id)
      && r.draft == [] && r.sequence == st.sequence
      && (id == 0 ==> r.clip1 == st.clip1)
  {
    hide ClipMessages;
    if st.ClipOf(id).grabbed {
      var bodies := ClipMessages(id, st.sequence, st.ClipOf(id).buf[..st.ClipOf(id).pos]);
      assert [] + bodies[0] == bodies[0];
      assert Prefixed([], bodies) == bodies;
    } else {
      assert st.replies + [] == st.replies;
    }
  }

  lemma TagAlone(tag: nat)
    requires tag < TWO_32
    ensures Be32(U32(tag)) == tag
  {
    assert U32(tag) + [] == U32(tag);
    U32RoundTrip(tag, []);
  }

  lemma {:induction false} ChunksFit(id: nat, sequence: nat, text: seq<byte>)
    ensures BodiesAtMost(ChunkMessages(id, sequence, text), REPLY_BUFFER_SIZE - 4)
    decreases |text|
  {
    if text != [] {
      ChunksFit(id, sequence, text[ChunkSize(|text|)..]);
    }
  }

  /** The frames of a transfer arrive as the messages of the transfer. */
  lemma TransferFrames(id: nat, sequence: nat, text: seq<byte>)
    requires |text| < TWO_32
    ensures var bodies := ClipMessages(id, sequence, text);
      && BodiesAtMost(bodies, REPLY_BUFFER_SIZE - 4)
      && Frames(FrameAll(bodies)) == bodies && Tail(FrameAll(bodies)) == [] && Clean(FrameAll(bodies))
  {
    var bodies := ClipMessages(id, sequence, text);
    ChunksFit(id, sequence, text);
    Decimal.DecLength(|text|);
    assert FrameAll(bodies) + [] == FrameAll(bodies);
    FramesOfFrameAll(bodies, []);
    CleanOfFrameAll(bodies, []);
    assert bodies + [] == bodies;
  }

  lemma OneText(id: nat, data: seq<byte>)
    requires Storable(data)
    ensures ReadAll(EncodeText(data)) == Parsed([(FORMAT_TEXT, data)], true)
    ensures ClipEvents(id, [(FORMAT_TEXT, data)]) == [ClipData(id, FORMAT_TEXT, data)]
  {
    var items: seq<Item> := [(FORMAT_TEXT, data)];
    EncodeTextIsEncode(data);
    assert Encodable(items);
    ReadAllInvertsEncode(EncodeText(data), items);
  }

  /** What leaving the screen hands to the transport, body by body. */
  function Sent(env: Env, st: State): seq<seq<byte>>
    requires st.Sound()
  {
    LeaveAppends(env, st);
    Process(env, st, U32(COUT)).replies[|st.replies|..]
  }

  lemma LeaveAppends(env: Env, st: State)
    requires st.Sound()
    ensures Admissible(U32(COUT)) && Welcome(U32(COUT)).None? && Be32(U32(COUT)) == COUT
    ensures Process(env, st, U32(COUT)) == Send(OnLeave(st).st, U32(CNOP))
    ensures |st.replies| <= |Process(env, st, U32(COUT)).replies|
    ensures st.replies == Process(env, st, U32(COUT)).replies[..|st.replies|]
  {
    hide ClipMessages, U32;
    TagAlone(COUT);
    TagIsNoWelcome(U32(COUT));
    var begun := st.(captured := false);
    assert ReleaseFirst(begun, 2) == Release(ReleaseFirst(begun, 1), 1);
    assert ReleaseFirst(begun, 1) == Release(begun, 0);
    ReleaseAppends(begun, 0);
    ReleaseAppends(Release(begun, 0), 1);
  }

  lemma ReleaseAppends(st: State, id: nat)
    requires st.Sound() && id < 2
    ensures st.replies <= Release(st, id).replies
  {
    hide ClipMessages;
  }

  /** What there is to announce for a clipboard when the screen is left: the text last offered,
      in format 0, if it is still grabbed. */
  function Pasted(st: State, ops: seq<Op>, id: nat): seq<Event> {
    match LastOffer(ops, id)
    case Some(data) => if st.ClipOf(id).grabbed then [ClipData(id, 0, data)] else []
    case None => []
  }

  /** Every history: what a client sends on leaving makes a connected client announce the texts
      last offered for the clipboards it holds, 0 before 1, and nothing else. */
  ghost predicate Reached(sender: Env, ops: seq<Op>, receiver: Env, st: State)
    requires AllAllowed(ops) && st.Sound()
  {
    var s := After(sender, ops);
    && AllAdmissible(Sent(sender, s))
    && Dispatch(receiver, st, Sent(sender, s)).events == st.events + Pasted(s, ops, 0) + Pasted(s, ops, 1)
  }

  /** The part of one clipboard. */
  lemma OwedArrives(sender: Env, ops: seq<Op>, id: nat, receiver: Env, st: State)
    requires AllAllowed(ops) && id < 2 && st.Sound() && st.connected
    ensures var s := After(sender, ops);
      && BodiesAtMost(Owed(s, id), REPLY_BUFFER_SIZE - 4) && AllAdmissible(Owed(s, id))
      && var r := Dispatch(receiver, st, Owed(s, id));
         r.connected && r.events == st.events + Pasted(s, ops, id)
  {
    hide Process, Admissible, ClipMessages;
    var s := After(sender, ops);
    GrabbedHoldsLastOffer(sender, ops, id);
    if s.ClipOf(id).grabbed {
      var data := LastOffer(ops, id).value;
      TransferFrames(id, s.sequence, EncodeText(data));
      TransferArrives(receiver, st, id, s.sequence, EncodeText(data));
      OneText(id, data);
    } else {
      assert st.events + [] == st.events;
    }
  }

  /** The acknowledgement of a client means nothing to another one. */
  lemma NoopIgnored(env: Env, st: State)
    requires st.Sound()
    ensures Admissible(U32(CNOP)) && Process(env, st, U32(CNOP)) == st
  {
    TagAlone(CNOP);
    TagIsNoWelcome(U32(CNOP));
  }

  /** Leaving, end to end: whatever run came before, with a client name that fits a greeting,
      all that the client hands to the transport arrives as the frames it is made of, and makes
      any connected client announce exactly the texts last offered for the grabbed clipboards. */
  lemma LeaveReaches(sender: Env, ops: seq<Op>, receiver: Env, st: State)
    requires AllAllowed(ops) && |sender.name| <= MAX_NAME && st.Sound() && st.connected
    ensures Reached(sender, ops, receiver, st)
    ensures var bodies := Sent(sender, After(sender, ops));
      && BodiesAtMost(bodies, REPLY_BUFFER_SIZE - 4) && Dispatch(receiver, st, bodies).connected
  {
    hide Process, Admissible, ClipMessages, U32, Owed;
    var s := After(sender, ops);
    DraftStaysEmpty(sender, ops);
    LeaveSendsOwed(sender, s);
    var zero, one, noop := Owed(s, 0), Owed(s, 1), [U32(CNOP)];
    assert s.replies + zero + one + noop == s.replies + (zero + one + noop);
    assert Sent(sender, s) == zero + one + noop;
    OwedArrives(sender, ops, 0, receiver, st);
    var st1 := Dispatch(receiver, st, zero);
    OwedArrives(sender, ops, 1, receiver, st1);
    var st2 := Dispatch(receiver, st1, one);
    NoopIgnored(receiver, st2);
    assert Dispatch(receiver, st2, noop) == st2 by {
      assert noop[1..] == [];
    }
    DispatchSplit(receiver, st, zero, one);
    DispatchSplit(receiver, st, zero + one, noop);
  }

  /** The octets of a leave decode to its messages. */
  lemma LeaveFrames(bodies: seq<seq<byte>>)
    requires BodiesAtMost(bodies, REPLY_BUFFER_SIZE - 4)
    ensures var wire := FrameAll(bodies);
      Clean(wire) && Tail(wire) == [] && Frames(wire) == bodies
  {
    assert FrameAll(bodies) + [] == FrameAll(bodies) && bodies + [] == bodies;
    FramesOfFrameAll(bodies, []);
    CleanOfFrameAll(bodies, []);
  }

  // ---------------------------------------------------------------- the bound on the name

  /** Without a transfer under way chunks and ends mean nothing. */
  lemma PieceIgnored(env: Env, st: State, id: nat, sequence: nat, mark: nat, payload: seq<byte>)
    requires st.Sound() && Fields(id, sequence, mark, payload) && !st.ClipOf(id).inStream
    requires mark == DATA_CHUNK || mark == DATA_END
    ensures Admissible(Dclp(id, sequence, mark, payload))
    ensures Process(env, st, Dclp(id, sequence, mark, payload)) == Send(st, U32(CNOP))
  {
    hide Process, Admissible, Dclp;
    DclpProcessed(env, st, id, sequence, mark, payload);
  }

  lemma {:induction false} ChunksIgnored(env: Env, st: State, id: nat, sequence: nat, text: seq<byte>)
    requires st.Sound() && id < 2 && sequence < TWO_32 && !st.ClipOf(id).inStream
    ensures AllAdmissible(ChunkMessages(id, sequence, text))
    ensures var r := Dispatch(env, st, ChunkMessages(id, sequence, text));
      r.events == st.events && !r.ClipOf(id).inStream
    decreases |text|
  {
    hide Process, Admissible, Dclp;
    if text != [] {
      var k := ChunkSize(|text|);
      PieceIgnored(env, st, id, sequence, DATA_CHUNK, text[..k]);
      ChunksIgnored(env, Send(st, U32(CNOP)), id, sequence, text[k..]);
      var bodies := ChunkMessages(id, sequence, text);
      assert bodies[0] == Dclp(id, sequence, DATA_CHUNK, text[..k]);
      assert bodies[1..] == ChunkMessages(id, sequence, text[k..]);
    }
  }

  lemma GreetingQuiet(env: Env, st: State, body: seq<byte>)
    requires st.Sound() && SYNERGY <= body
    ensures Admissible(body)
    ensures Process(env, st, body).events == st.events && Process(env, st, body).clip0 == st.clip0
  {
    hide HelloDraft;
    assert body[0] == SYNERGY[0];
    assert Welcome(body) == Some(SYNERGY);
  }

  /** A transfer whose first message comes behind the start of a greeting announces nothing. */
  lemma SpoiltTransfer(env: Env, st: State, draft: seq<byte>, sequence: nat, text: seq<byte>)
    requires st.Sound() && !st.clip0.inStream && sequence < TWO_32 && SYNERGY <= draft && |draft| == RESIDUE
    ensures var bodies := Prefixed(draft, ClipMessages(0, sequence, text)) + [U32(CNOP)];
      AllAdmissible(bodies) && Dispatch(env, st, bodies).events == st.events
  {
    hide Dclp, U32, Process, Admissible, Decimal.Dec;
    var first := draft + Dclp(0, sequence, DATA_START, Decimal.Dec(|text|));
    var middle, last := ChunkMessages(0, sequence, text), Dclp(0, sequence, DATA_END, []);
    PrefixedParts(draft, Dclp(0, sequence, DATA_START, Decimal.Dec(|text|)), middle, last);
    GreetingQuiet(env, st, first);
    var st1 := Process(env, st, first);
    ChunksIgnored(env, st1, 0, sequence, text);
    var st2 := Dispatch(env, st1, middle);
    PieceIgnored(env, st2, 0, sequence, DATA_END, []);
    NoopIgnored(env, Process(env, st2, last));
    LastTwo(env, st2, last);
    DispatchSplit(env, st1, middle, [last, U32(CNOP)]);
    var bodies := Prefixed(draft, ClipMessages(0, sequence, text)) + [U32(CNOP)];
    assert bodies == [first] + (middle + [last, U32(CNOP)]);
    assert bodies[0] == first && bodies[1..] == middle + [last, U32(CNOP)];
  }

  lemma LastTwo(env: Env, st: State, last: seq<byte>)
    requires st.Sound() && Admissible(last) && Admissible(U32(CNOP))
    requires Process(env, Process(env, st, last), U32(CNOP)) == Process(env, st, last)
    ensures AllAdmissible([last, U32(CNOP)])
    ensures Dispatch(env, st, [last, U32(CNOP)]) == if st.connected then Process(env, st, last) else st
  {
    hide Process, Admissible, U32;
    var st1, noop := Process(env, st, last), [U32(CNOP)];
    assert noop[1..] == [];
    assert Dispatch(env, st1, noop) == Dispatch(env, st1, noop[1..]) == st1;
    assert [last, U32(CNOP)][1..] == noop;
  }

  /** A local update, then a greeting that does not fit. */
  const SPOILING: seq<Op> := [Connect(true), Local(0, []), Message(HELLO)]

  lemma Spoilt(env: Env)
    requires |env.name| > MAX_NAME
    ensures AllAllowed(SPOILING) && LastOffer(SPOILING, 0) == Some([]) && LastOffer(SPOILING, 1) == None
    ensures var s := After(env, SPOILING);
      && s.clip0.grabbed && !s.clip1.grabbed && s.draft == HelloStart(env.name, SYNERGY)
  {
    hide Grab;
    var one, two := SPOILING[..1], SPOILING[..2];
    assert HELLO[..7] == SYNERGY && HELLO[0] == SYNERGY[0];
    assert Welcome(HELLO) == Some(SYNERGY);
    assert two[..1] == one && one[..0] == [];
    assert After(env, one) == START.(connected := true);
    assert After(env, two) == Offer(env, START.(connected := true), 0, []);
    assert After(env, SPOILING) == Greet(env, After(env, two), SYNERGY);
    assert one == [Connect(true)] && LastOffer(one[..0], 0) == None && LastOffer(one[..0], 1) == None;
    assert LastOffer(one, 0) == LastOffer(one[..0], 0) && LastOffer(one, 1) == LastOffer(one[..0], 1);
    assert LastOffer(two, 0) == Some([]) && LastOffer(two, 1) == None;
  }

  ghost predicate AlwaysReaches(sender: Env, receiver: Env) {
    forall ops: seq<Op>, st: State ::
      AllAllowed(ops) && st.Sound() && st.connected ==> Reached(sender, ops, receiver, st)
  }

  /** The bound on the name is exact: with a longer one there is a history after which the
      first message of the transfer goes out behind the start of a greeting and is lost. */
  lemma ReachesIff(sender: Env, receiver: Env)
    ensures AlwaysReaches(sender, receiver) <==> |sender.name| <= MAX_NAME
  {
    hide Reached;
    if |sender.name| <= MAX_NAME {
      forall ops: seq<Op>, st: State | AllAllowed(ops) && st.Sound() && st.connected
        ensures Reached(sender, ops, receiver, st)
      {
        LeaveReaches(sender, ops, receiver, st);
      }
    } else {
      Spoilt(sender);
      SpoiltNotReached(sender, receiver);
    }
  }

  lemma SpoiltNotReached(sender: Env, receiver: Env)
    requires |sender.name| > MAX_NAME
    ensures AllAllowed(SPOILING) && !Reached(sender, SPOILING, receiver, START.(connected := true))
  {
    hide Process, Admissible, ClipMessages, U32, HelloStart, After, OnLeave;
    Spoilt(sender);
    var s := After(sender, SPOILING);
    var st := START.(connected := true);
    LeaveSpoilt(sender, s);
    StartsHello(sender.name);
    SpoiltTransfer(receiver, st, s.draft, s.sequence, s.clip0.buf[..s.clip0.pos]);
  }

  lemma StartsHello(name: seq<byte>)
    ensures SYNERGY <= HelloStart(name, SYNERGY) && |HelloStart(name, SYNERGY)| == RESIDUE
  {
    hide U16, U32;
  }

  lemma LeaveSpoilt(env: Env, st: State)
    requires st.Sound() && st.clip0.grabbed && !st.clip1.grabbed
    ensures var text := st.clip0.buf[..st.clip0.pos];
      Sent(env, st) == Prefixed(st.draft, ClipMessages(0, st.sequence, text)) + [U32(CNOP)]
  {
    hide ClipMessages, U32, Process, Prefixed;
    LeaveAppends(env, st);
    var begun := st.(captured := false);
    assert ReleaseFirst(begun, 2) == Release(ReleaseFirst(begun, 1), 1);
    assert ReleaseFirst(begun, 1) == Release(begun, 0);
    assert [] + U32(CNOP) == U32(CNOP);
    var bodies := Prefixed(st.draft, ClipMessages(0, st.sequence, st.clip0.buf[..st.clip0.pos]));
    Assoc(st.replies, bodies, [U32(CNOP)]);
  }

  /** What the server has sent for a clipboard, in any number of formats, is announced entry by
      entry. Data offered locally afterwards is then dropped as a repeat exactly when a header
      of the search, which steps eight octets at a time from the first one on within the
      recorded length, announces its length and is followed by it. */
  lemma FeedbackDroppedIff(env: Env, st: State, id: nat, sequence: nat, items: seq<Item>, data: seq<byte>)
    requires st.Sound() && st.connected && id < 2 && sequence < TWO_32 && Storable(data)
    requires Encodable(items) && |Encode(items)| < TWO_31
    ensures var bodies := ClipMessages(id, sequence, Encode(items));
      && AllAdmissible(bodies)
      && var r := Dispatch(env, st, bodies);
         && r.events == st.events + ClipEvents(id, items)
         && (Offer(env, r, id, data) == r <==>
              st.ClipOf(id).len >= 4 && AnyFound(r.ClipOf(id), env.past, data, 4, |items|))
  {
    hide Process, Admissible, ClipMessages, AnyFound, Grab;
    var text := Encode(items);
    TransferArrives(env, st, id, sequence, text);
    ReadAllInvertsEncode(text, items);
    var r := Dispatch(env, st, ClipMessages(id, sequence, text));
    var c := r.ClipOf(id);
    HoldsIff(c, env.past, data);
    if c.len >= 4 {
      assert c.buf == U32(|items|) + c.buf[4..];
      U32RoundTrip(|items|, c.buf[4..]);
    }
    OfferDrops(env, r, id, data);
  }

  lemma OfferDrops(env: Env, st: State, id: nat, data: seq<byte>)
    requires st.Sound() && id < 2 && Storable(data)
    ensures Offer(env, st, id, data) == st <==> Holds(st.ClipOf(id), env.past, data)
  {
    hide Holds, Grab, U32;
    assert |Send(st, []).replies| == |st.replies| + 1;
  }

  /** In particular the data of the first entry is dropped if this clipboard has taken a local
      update before. */
  lemma FirstEntryDropped(env: Env, st: State, id: nat, sequence: nat, items: seq<Item>)
    requires st.Sound() && st.connected && id < 2 && sequence < TWO_32 && st.ClipOf(id).len >= TEXT_HEADER
    requires Encodable(items) && items != [] && |Encode(items)| < TWO_31 && Storable(items[0].1)
    ensures var bodies := ClipMessages(id, sequence, Encode(items));
      AllAdmissible(bodies) && Offer(env, Dispatch(env, st, bodies), id, items[0].1) == Dispatch(env, st, bodies)
  {
    hide Process, Admissible, ClipMessages;
    var text := Encode(items);
    TransferArrives(env, st, id, sequence, text);
    ReadAllInvertsEncode(text, items);
    FirstEntryFound(Dispatch(env, st, ClipMessages(id, sequence, text)).ClipOf(id), env.past, items);
  }

  /** For a single text, and nothing else offered, that is also the only way. */
  lemma TextDroppedIff(env: Env, st: State, id: nat, sequence: nat, text: seq<byte>, data: seq<byte>)
    requires st.Sound() && st.connected && id < 2 && sequence < TWO_32 && Storable(text) && Storable(data)
    ensures var bodies := ClipMessages(id, sequence, EncodeText(text));
      && AllAdmissible(bodies)
      && var r := Dispatch(env, st, bodies);
         Offer(env, r, id, data) == r <==> st.ClipOf(id).len >= TEXT_HEADER && data == text
  {
    hide Process, Admissible, ClipMessages;
    TransferArrives(env, st, id, sequence, EncodeText(text));
    OneText(id, text);
    var r := Dispatch(env, st, ClipMessages(id, sequence, EncodeText(text)));
    HoldsTextIff(r.ClipOf(id), env.past, text, data);
    OfferDrops(env, r, id, data);
  }

  /** A transfer of two formats, whose second one is text. */
  const TWO_FORMATS: seq<Item> := [(1, [9]), (FORMAT_TEXT, [7, 7])]

  lemma Small(v: nat)
    requires v < 256
    ensures U32(v) == [0, 0, 0, v]
  {
    ShiftedOctets(v);
  }

  /** Two entries one after the other, each with its format and size as four octets. */
  lemma TwoEncoded(a: Item, b: Item)
    ensures Encode([a, b]) == U32(2) + EncodeItem(a) + EncodeItem(b)
  {
    hide EncodeItem, U32;
    var rest: seq<Item> := [a, b][1..];
    assert rest == [b] && rest[1..] == [];
    assert EncodeItems([a, b]) == EncodeItem(a) + EncodeItems(rest);
    assert EncodeItems(rest) == EncodeItem(b) + [];
    Assoc(U32(2), EncodeItem(a), EncodeItem(b));
  }

  lemma ItemEncoded(item: Item)
    requires item.0 < 256 && |item.1| < 256
    ensures EncodeItem(item) == [0, 0, 0, item.0, 0, 0, 0, |item.1|] + item.1
  {
    Small(item.0);
    Small(|item.1|);
  }

  lemma TwoFormats()
    ensures Encodable(TWO_FORMATS) && |Encode(TWO_FORMATS)| == 23
    ensures Encode(TWO_FORMATS)[16..20] == [0, 0, 0, 0]
  {
    hide EncodeItem, EncodeItems, Encode, U32;
    var a, b := TWO_FORMATS[0], TWO_FORMATS[1];
    assert TWO_FORMATS == [a, b];
    TwoEncoded(a, b);
    ItemEncoded(a);
    ItemEncoded(b);
    var text := U32(2) + EncodeItem(a) + EncodeItem(b);
    assert text[13..] == EncodeItem(b);
    assert text[16..20] == text[13..][3..7] == [0, 0, 0, 0];
  }

  /** Its text is announced, and grabbed again when it is offered back, whatever has been
      offered before. */
  lemma SecondEntryGrabbed(env: Env, st: State, sequence: nat)
    requires st.Sound() && st.connected && sequence < TWO_32
    ensures var bodies := ClipMessages(0, sequence, Encode(TWO_FORMATS));
      && AllAdmissible(bodies)
      && var r := Dispatch(env, st, bodies);
         && r.events == st.events + [ClipData(0, 1, [9]), ClipData(0, FORMAT_TEXT, [7, 7])]
         && Offer(env, r, 0, [7, 7]) != r
  {
    hide Process, Admissible, ClipMessages, Encode, Be32, Offer, AnyFound;
    var text := Encode(TWO_FORMATS);
    TwoFormats();
    FeedbackDroppedIff(env, st, 0, sequence, TWO_FORMATS, [7, 7]);
    assert ClipEvents(0, TWO_FORMATS) == [ClipData(0, 1, [9]), ClipData(0, FORMAT_TEXT, [7, 7])];
    TransferArrives(env, st, 0, sequence, text);
    var c := Dispatch(env, st, ClipMessages(0, sequence, text)).clip0;
    FirstHeader(c.buf, TWO_FORMATS);
    assert c.buf[16..20] == text[16..20];
    Word(c.buf, 16, [0, 0, 0, 0]);
    NotAmongTwo(c, env.past, [7, 7]);
  }

  lemma NotAmongTwo(c: Clip, past: nat -> byte, data: seq<byte>)
    requires c.Sound()
    requires !Announces(c, 4, |data|) && !Announces(c, 12, |data|)
    ensures !AnyFound(c, past, data, 4, 2)
  {
    hide Announces;
    forall k: nat | k < 2 ensures !Found(c, past, data, 4, k) {
      assert k == 0 || k == 1;
    }
  }

  // ---------------------------------------------------------------- reading past the allocation

  /** Data that looks like a header to the search: 256 octets are announced at octet 20 of 28. */
  const LOOKALIKE: seq<Item> := [(1, [0, 0, 0, 0, 0, 0, 1, 0]), (FORMAT_TEXT, [])]

  lemma Lookalike()
    ensures Encodable(LOOKALIKE) && |Encode(LOOKALIKE)| == 28
    ensures Encode(LOOKALIKE)[16..20] == [0, 0, 1, 0]
  {
    hide EncodeItem, EncodeItems, Encode, U32;
    var a, b := LOOKALIKE[0], LOOKALIKE[1];
    assert LOOKALIKE == [a, b];
    TwoEncoded(a, b);
    ItemEncoded(a);
    ItemEncoded(b);
    var text := U32(2) + EncodeItem(a) + EncodeItem(b);
    assert text[4..20] == EncodeItem(a);
    assert text[16..20] == text[4..20][12..16] == [0, 0, 1, 0];
  }

  lemma Word(buf: seq<byte>, at: nat, w: seq<byte>)
    requires at + 4 <= |buf| && |w| == 4 && buf[at..at + 4] == w
    ensures Be32(buf[at..]) == w[0] as int * 0x100_0000 + w[1] as int * 0x1_0000 + w[2] as int * 0x100 + w[3] as int
  {
    ShiftedValue(buf[at..]);
    assert forall i :: 0 <= i < 4 ==> buf[at..][i] == w[i];
  }

  /** After a local update of eight octets and such a transfer, an offer of 256 octets makes the
      repeat check read past the allocation. */
  lemma OfferOverruns(env: Env, st: State, local: seq<byte>, sequence: nat, data: seq<byte>)
    requires st.Sound() && st.connected && sequence < TWO_32 && |local| == 8 && |data| == 256
    requires st.clip0 == Grab(EMPTY, local, env.junk)
    ensures var bodies := ClipMessages(0, sequence, Encode(LOOKALIKE));
      && AllAdmissible(bodies)
      && !StaysInside(Dispatch(env, st, bodies).clip0, env.past, data)
  {
    hide Process, Admissible, ClipMessages, Encode, Be32, Grab, AnyOverruns;
    var text := Encode(LOOKALIKE);
    Lookalike();
    LocalLength(local, env.junk);
    TransferArrives(env, st, 0, sequence, text);
    ReadAllInvertsEncode(text, LOOKALIKE);
    var c := Dispatch(env, st, ClipMessages(0, sequence, text)).clip0;
    assert c.buf == text && c.len == 20;
    FirstHeader(c.buf, LOOKALIKE);
    Word(c.buf, 16, [0, 0, 1, 0]);
    StaysInsideIff(c, env.past, data);
    SecondOverruns(c, env.past, data);
  }

  lemma LocalLength(local: seq<byte>, junk: nat -> byte)
    requires Storable(local)
    ensures Grab(EMPTY, local, junk).len == TEXT_HEADER + |local|
  {
  }

  lemma SecondOverruns(c: Clip, past: nat -> byte, data: seq<byte>)
    requires c.Sound() && !Announces(c, 4, |data|) && Announces(c, 12, |data|) && 20 + |data| > |c.buf|
    ensures AnyOverruns(c, past, data, 4, 2)
  {
    hide Announces;
    assert forall j: nat :: j < 1 ==> !Found(c, past, data, 4, j);
    assert Overruns(c, past, data, 4, 1);
  }

  predicate Offered(ops: seq<Op>, id: nat) {
    LastOffer(ops, id).Some?
  }

  lemma OfferRecords(env: Env, st: State, id: nat, data: seq<byte>, other: nat)
    requires st.Sound() && id < 2 && other < 2 && Storable(data)
    ensures var r := Offer(env, st, id, data);
      if other == id then r.ClipOf(id).len >= TEXT_HEADER else r.ClipOf(other) == st.ClipOf(other)
  {
  }

  /** The recorded length covers a header exactly when something was offered locally before:
      a client that has only ever received re-grabs what it has just been sent. */
  lemma {:induction false} LengthIffOffered(env: Env, ops: seq<Op>, id: nat)
    requires AllAllowed(ops) && id < 2
    ensures After(env, ops).ClipOf(id).len >= TEXT_HEADER <==> Offered(ops, id)
    decreases |ops|
  {
    if ops != [] {
      var before, op := ops[..|ops| - 1], ops[|ops| - 1];
      var st := After(env, before);
      LengthIffOffered(env, before, id);
      match op {
        case Message(body) => ProcessKeepsGrab(env, st, body, id);
        case Local(other, data) => OfferRecords(env, st, other, data, id);
        case _ =>
      }
    }
  }
}
