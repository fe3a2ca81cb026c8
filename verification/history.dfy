/**
 Whole runs of the protocol client: every interleaving of connections, messages, local
 clipboard updates and size changes.
 */
module History {
  import opened Basics
  import opened Bytes
  import opened Clipboard
  import opened Protocol
  import Decimal

  datatype Op =
    | Connect(ok: bool)                  // uSynergyUpdate while not connected
    | Message(body: seq<byte>)           // one message out of the packet loop
    | Local(id: nat, data: seq<byte>)    // uSynergyUpdateClipBuf
    | Resized(width: nat, height: nat)   // uSynergyUpdateRes
    | ReceiveFailed                      // sUpdateContext, failing read
    | Dropped                            // synNetDisconnect: only the flag is cleared

  predicate Allowed(op: Op) {
    match op
    case Message(body) => Admissible(body)
    case Local(id, data) => id < 2 && Storable(data)
    case _ => true
  }

  ghost predicate AllAllowed(ops: seq<Op>) {
    forall i :: 0 <= i < |ops| ==> Allowed(ops[i])
  }

  function Perform(env: Env, st: State, op: Op): (r: State)
    requires st.Sound() && Allowed(op)
    ensures r.Sound()
  {
    match op
    case Connect(ok) => if st.connected || !ok then st else st.(connected := true)
    case Message(body) => if st.connected then Process(env, st, body) else st
    case Local(id, data) => Offer(env, st, id, data)
    case Resized(width, height) => UpdateRes(st, width, height)
    case ReceiveFailed => if st.connected then Disconnected(st, Timeout) else st
    case Dropped => st.(connected := false)
  }

  /** The state after a run from initialisation. Its soundness says that a clipboard is
      never both grabbed and in a transfer, and that chunk writes, END reads and COUT
      reads stay inside the buffer's allocation. */
  function After(env: Env, ops: seq<Op>): (st: State)
    requires AllAllowed(ops)
    ensures st.Sound()
  {
    if ops == [] then START else Perform(env, After(env, ops[..|ops| - 1]), ops[|ops| - 1])
  }

  /** The data last offered locally for a clipboard, accepted or not. */
  function LastOffer(ops: seq<Op>, id: nat): Option<seq<byte>> {
    if ops == [] then None
    else
      var op := ops[|ops| - 1];
      if op.Local? && op.id == id then Some(op.data) else LastOffer(ops[..|ops| - 1], id)
  }

  // ---------------------------------------------------------------- ownership

  /** While grabbed, the buffer is the encoding of `last`. */
  ghost predicate Owns(c: Clip, last: Option<seq<byte>>) {
    c.grabbed ==>
      && last.Some? && Storable(last.value)
      && c.pos == TEXT_HEADER + |last.value| <= |c.buf|
      && c.buf[..c.pos] == EncodeText(last.value)
  }

  /** What a message may do to a clipboard: it neither grabs it, nor touches a grabbed one
      except to let it go, nor raises the recorded length. */
  ghost predicate Touched(before: Clip, now: Clip) {
    (!now.grabbed || now == before) && now.len == before.len
  }

  lemma ProcessKeepsGrab(env: Env, st: State, body: seq<byte>, id: nat)
    requires st.Sound() && Admissible(body) && id < 2
    ensures Touched(st.ClipOf(id), Process(env, st, body).ClipOf(id))
  {
    hide Branch, InfoReply, HelloDraft;
    if Welcome(body).None? && |body| >= 4 {
      BranchKeepsGrab(env, st, body, id);
    }
  }

  lemma BranchKeepsGrab(env: Env, st: State, body: seq<byte>, id: nat)
    requires st.Sound() && Admissible(body) && Welcome(body).None? && |body| >= 4 && id < 2
    ensures Touched(st.ClipOf(id), Branch(env, st, body).st.ClipOf(id))
  {
    hide OnClipData, OnLeave, StartTextOk, U32, Be16;
    if Be32(body) == DCLP {
      ClipDataKeepsGrab(env, st, body, id);
    }
  }

  /** Only messages handled before the branches can lose the connection. */
  lemma BranchKeepsConnection(env: Env, st: State, body: seq<byte>)
    requires st.Sound() && Admissible(body) && Welcome(body).None? && |body| >= 4
    ensures Branch(env, st, body).st.connected == st.connected
  {
    hide OnClipData, OnLeave;
    if Be32(body) == DCLP {
      ClipDataKeepsConnection(env, st, body);
    }
  }

  lemma ClipDataKeepsConnection(env: Env, st: State, body: seq<byte>)
    requires st.Sound() && |body| >= 4 && ClipIndexOk(body, 14) && StartTextOk(body)
    ensures OnClipData(env, st, body).st.connected == st.connected
  {
    hide Decimal.Atoi, Start, Chunk, Finish;
  }

  lemma ClipDataKeepsGrab(env: Env, st: State, body: seq<byte>, id: nat)
    requires st.Sound() && |body| >= 4 && ClipIndexOk(body, 14) && StartTextOk(body) && id < 2
    ensures Touched(st.ClipOf(id), OnClipData(env, st, body).st.ClipOf(id))
  {
    hide OnClipStart, OnClipChunk, OnClipEnd, Decimal.Atoi;
    if |body| >= 14 {
      var at, mark, size := body[4], body[9], Be32(body[10..]);
      if mark == DATA_START {
        StartTouches(env, st, at, body[14..14 + size], id);
      } else if mark == DATA_CHUNK && st.ClipOf(at).inStream {
        ChunkTouches(st, at, size, body[14..], id);
      } else if mark == DATA_END && st.ClipOf(at).inStream {
        EndTouches(st, at, id);
      }
    }
  }

  lemma StartTouches(env: Env, st: State, at: nat, text: seq<byte>, id: nat)
    requires st.Sound() && at < 2 && id < 2 && Decimal.Atoi(text) >= 0
    ensures Touched(st.ClipOf(id), OnClipStart(env, st, at, text).st.ClipOf(id))
  {
    hide Start, Decimal.Atoi;
  }

  lemma ChunkTouches(st: State, at: nat, size: nat, rest: seq<byte>, id: nat)
    requires st.Sound() && at < 2 && id < 2 && st.ClipOf(at).inStream
    ensures Touched(st.ClipOf(id), OnClipChunk(st, at, size, rest).st.ClipOf(id))
  {
    hide Chunk;
  }

  lemma EndTouches(st: State, at: nat, id: nat)
    requires st.Sound() && at < 2 && id < 2 && st.ClipOf(at).inStream
    ensures Touched(st.ClipOf(id), OnClipEnd(st, at).st.ClipOf(id))
  {
    hide Finish;
  }

  lemma OfferKeepsOwnership(env: Env, st: State, id: nat, data: seq<byte>, last: Option<seq<byte>>)
    requires st.Sound() && id < 2 && Storable(data) && Owns(st.ClipOf(id), last)
    ensures Owns(Offer(env, st, id, data).ClipOf(id), Some(data))
  {
    var c := st.ClipOf(id);
    if c.grabbed && Holds(c, env.past, data) {
      assert EncodeText(last.value) == c.buf[..c.pos] <= c.buf;
      HoldsTextIff(c, env.past, last.value, data);
    }
  }

  /** Ownership: in every reachable state a grabbed clipboard holds exactly the encoding of
      the data last offered locally, even when that offer was dropped as a repeat. */
  lemma {:induction false} GrabbedHoldsLastOffer(env: Env, ops: seq<Op>, id: nat)
    requires AllAllowed(ops) && id < 2
    ensures Owns(After(env, ops).ClipOf(id), LastOffer(ops, id))
    decreases |ops|
  {
    if ops != [] {
      var before, op := ops[..|ops| - 1], ops[|ops| - 1];
      var st := After(env, before);
      GrabbedHoldsLastOffer(env, before, id);
      match op {
        case Message(body) => ProcessKeepsGrab(env, st, body, id);
        case Local(other, data) =>
          if other == id {
            OfferKeepsOwnership(env, st, id, data, LastOffer(before, id));
          }
        case _ =>
      }
    }
  }

  /** While a clipboard is grabbed, the repeat check stays inside its allocation. */
  lemma GrabbedStaysInside(env: Env, ops: seq<Op>, id: nat, data: seq<byte>)
    requires AllAllowed(ops) && id < 2 && After(env, ops).ClipOf(id).grabbed
    ensures StaysInside(After(env, ops).ClipOf(id), env.past, data)
  {
    hide After;
    GrabbedHoldsLastOffer(env, ops, id);
    HoldsTextIff(After(env, ops).ClipOf(id), env.past, LastOffer(ops, id).value, data);
  }

  // ---------------------------------------------------------------- the reply buffer

  /** The longest client name whose greeting fits the reply buffer. */
  const MAX_NAME: int := 1005

  lemma ProcessKeepsDraftEmpty(env: Env, st: State, body: seq<byte>)
    requires st.Sound() && Admissible(body) && st.draft == [] && |env.name| <= MAX_NAME
    ensures Process(env, st, body).draft == []
  {
    hide Branch, InfoReply, Admissible;
  }

  /** Between messages nothing is left in the reply buffer, in any run. */
  lemma {:induction false} DraftStaysEmpty(env: Env, ops: seq<Op>)
    requires AllAllowed(ops) && |env.name| <= MAX_NAME
    ensures After(env, ops).draft == []
    decreases |ops|
  {
    if ops != [] {
      var before, op := ops[..|ops| - 1], ops[|ops| - 1];
      DraftStaysEmpty(env, before);
      if op.Message? {
        ProcessKeepsDraftEmpty(env, After(env, before), op.body);
      }
    }
  }

  ghost predicate DraftAlwaysEmpty(env: Env) {
    forall ops :: AllAllowed(ops) ==> After(env, ops).draft == []
  }

  /** A greeting, the first message of every connection. */
  const HELLO: seq<byte> := SYNERGY + U16(PROTOCOL_MAJOR) + U16(PROTOCOL_MINOR)

  /** With a longer name the greeting fails and its first octets go out with the next
      reply; the bound is exact. */
  lemma DraftEmptyIff(env: Env)
    ensures DraftAlwaysEmpty(env) <==> |env.name| <= MAX_NAME
  {
    if |env.name| <= MAX_NAME {
      forall ops | AllAllowed(ops) ensures After(env, ops).draft == [] {
        DraftStaysEmpty(env, ops);
      }
    } else {
      var ops := [Connect(true), Message(HELLO)];
      assert HELLO[..7] == SYNERGY;
      assert HELLO[0] == SYNERGY[0];
      assert Welcome(HELLO) == Some(SYNERGY);
      assert AllAllowed(ops);
      assert ops[..1] == [Connect(true)] && ops[..1][..0] == [];
      assert After(env, ops[..1]) == START.(connected := true);
      assert After(env, ops) == Greet(env, START.(connected := true), SYNERGY);
      assert After(env, ops).draft == HelloStart(env.name, SYNERGY);
    }
  }
}
