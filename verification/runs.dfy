/**
 Runs of the receiving side, read by read: what one update makes of the buffer and of what
 is still to be read, and what a run of updates comes to.
 */
module Runs {
  import opened Basics
  import opened Bytes
  import opened Framing
  import opened Protocol
  import opened Buffering
  import opened Streams

  /** The receive buffer with its n received octets, what is still to be read, and how often
      has been read. */
  datatype Machine = Machine(buf: seq<byte>, n: nat, incoming: seq<byte>, readCount: nat) {

    predicate Valid() {
      n <= |buf| == RECEIVE_BUFFER_SIZE
    }

    /** How many octets the next read delivers. */
    function Arriving(cut: nat -> nat): (a: nat)
      requires Valid()
      ensures a <= |incoming| && n + a <= |buf|
    {
      Min(cut(readCount), Min(RECEIVE_BUFFER_SIZE - n, |incoming|))
    }

    /** The buffer as it leaves it, its octets up to Reached being received ones. */
    function Filled(cut: nat -> nat): (r: seq<byte>)
      requires Valid()
      ensures |r| == RECEIVE_BUFFER_SIZE
    {
      buf[..n] + incoming[..Arriving(cut)] + buf[n + Arriving(cut)..]
    }

    function Reached(cut: nat -> nat): (r: nat)
      requires Valid()
      ensures r <= RECEIVE_BUFFER_SIZE
    {
      n + Arriving(cut)
    }

    function Rest(cut: nat -> nat): seq<byte>
      requires Valid()
    {
      incoming[Arriving(cut)..]
    }

    /** All that has been received and not consumed, or is still to come. */
    function Stream(): seq<byte>
      requires Valid()
    {
      buf[..n] + incoming
    }
  }

  /** The disposal loop: reads go to the front of the buffer until no octet is missing, or one
      delivers nothing. */
  function Disposal(cut: nat -> nat, readCount: nat, buf: seq<byte>, incoming: seq<byte>, missing: nat):
    (m: Option<Machine>)
    requires |buf| == RECEIVE_BUFFER_SIZE
    ensures m.Some? ==> m.value.Valid() && m.value.n == 0
    ensures m.Some? ==> missing <= |incoming| && m.value.incoming == incoming[missing..]
    decreases missing
  {
    if missing == 0 then Some(Machine(buf, 0, incoming, readCount))
    else
      var k := Min(cut(readCount), Min(Min(missing, RECEIVE_BUFFER_SIZE), |incoming|));
      if k == 0 then None
      else Disposal(cut, readCount + 1, incoming[..k] + buf[k..], incoming[k..], missing - k)
  }

  lemma DisposalStep(cut: nat -> nat, readCount: nat, buf: seq<byte>, incoming: seq<byte>, missing: nat)
    requires |buf| == RECEIVE_BUFFER_SIZE && missing > 0
    ensures var k := Min(cut(readCount), Min(Min(missing, RECEIVE_BUFFER_SIZE), |incoming|));
      Disposal(cut, readCount, buf, incoming, missing) ==
        if k == 0 then None
        else Disposal(cut, readCount + 1, buf[..0] + incoming[..k] + buf[k..], incoming[k..], missing - k)
  {
    var k := Min(cut(readCount), Min(Min(missing, RECEIVE_BUFFER_SIZE), |incoming|));
    assert buf[..0] + incoming[..k] + buf[k..] == incoming[..k] + buf[k..];
  }

  lemma DisposalDone(cut: nat -> nat, readCount: nat, buf: seq<byte>, incoming: seq<byte>)
    requires |buf| == RECEIVE_BUFFER_SIZE
    ensures Disposal(cut, readCount, buf, incoming, 0) == Some(Machine(buf, 0, incoming, readCount))
  {
  }

  /** How an update, or a run, ends: without a connection, or with something in the buffer. */
  datatype End = Lost(st: State) | Waiting(st: State, m: Machine)

  /** The octets one read brings have a meaning: messages with defined behaviour, and a length
      that fits a C int wherever one is believed in. */
  ghost predicate Meaningful(env: Env, st: State, cut: nat -> nat, m: Machine)
    requires st.Sound() && m.Valid()
  {
    var buf, n := m.Filled(cut), m.Reached(cut);
    m.Arriving(cut) > 0 ==>
      AllAdmissible(Frames(buf[..n])) && (Dispatch(env, st, Frames(buf[..n])).connected ==> Announced(buf, n) < TWO_31)
  }

  /** What the packets in a buffer and the disposal after them come to. */
  ghost function Digest(env: Env, st: State, cut: nat -> nat, m: Machine): (e: End)
    requires st.Sound() && m.Valid() && AllAdmissible(Frames(m.buf[..m.n]))
    ensures e.st.Sound() && e.st.connected == e.Waiting?
    ensures e.Waiting? ==> e.m.Valid() && |e.m.incoming| <= |m.incoming|
  {
    var next := Dispatch(env, st, Frames(m.buf[..m.n]));
    if !next.connected then Lost(next)
    else if Announced(m.buf, m.n) <= RECEIVE_BUFFER_SIZE then
      SettledTail(m.buf, m.n);
      Waiting(next, Machine(Settled(m.buf, m.n), |Tail(m.buf[..m.n])|, m.incoming, m.readCount))
    else
      match Disposal(cut, m.readCount, Settled(m.buf, m.n), m.incoming, Missing(m.buf, m.n))
      case Some(after) => Waiting(next, after)
      case None => Lost(Disconnected(next, Timeout))
  }

  /** sUpdateContext */
  ghost function Update(env: Env, st: State, cut: nat -> nat, m: Machine): (e: End)
    requires st.Sound() && m.Valid() && Meaningful(env, st, cut, m)
    ensures e.st.Sound() && e.st.connected == e.Waiting?
    ensures e.Waiting? ==> e.m.Valid() && (m.incoming != [] ==> |e.m.incoming| < |m.incoming|)
  {
    if m.Arriving(cut) == 0 then Lost(Disconnected(st, Timeout))
    else Digest(env, st, cut, Machine(m.Filled(cut), m.Reached(cut), m.Rest(cut), m.readCount + 1))
  }

  /** Every read of a run brings octets with a meaning. */
  ghost predicate Defined(env: Env, st: State, cut: nat -> nat, m: Machine)
    requires st.Sound() && m.Valid()
    decreases |m.incoming|
  {
    st.connected && m.incoming != [] ==>
      && Meaningful(env, st, cut, m)
      && var e := Update(env, st, cut, m);
         e.Waiting? ==> Defined(env, e.st, cut, e.m)
  }

  /** The poll loop: updates as long as there is a connection and something to read. */
  ghost function Polled(env: Env, st: State, cut: nat -> nat, m: Machine): (e: End)
    requires st.Sound() && m.Valid() && Defined(env, st, cut, m)
    ensures e.st.Sound() && e.st.connected == e.Waiting?
    ensures e.Waiting? ==> e.m.Valid() && e.m.incoming == []
    decreases |m.incoming|
  {
    if !st.connected then Lost(st)
    else if m.incoming == [] then Waiting(st, m)
    else
      var e := Update(env, st, cut, m);
      if e.Waiting? then Polled(env, e.st, cut, e.m) else e
  }

  /** A read that brings nothing ends the connection as a timeout. */
  lemma NothingRead(env: Env, st: State, cut: nat -> nat, m: Machine)
    requires st.Sound() && m.Valid() && m.Arriving(cut) == 0
    ensures Update(env, st, cut, m) == Lost(st.(connected := false, greeted := false, captured := false,
                                                draft := [], sequence := 0, lastError := Timeout))
  {
  }

  // ---------------------------------------------------------------- one update

  /** What is still to come after an update that keeps the connection. */
  lemma UpdateRemaining(env: Env, st: State, cut: nat -> nat, m: Machine)
    requires st.Sound() && m.Valid() && Meaningful(env, st, cut, m) && Update(env, st, cut, m).Waiting?
    ensures Update(env, st, cut, m).m.Stream() == Remaining(m.Filled(cut), m.Reached(cut), m.Rest(cut))
  {
    hide Dispatch, Settled, Frames, Tail, Announced;
    SettledTail(m.Filled(cut), m.Reached(cut));
  }

  /** With one to three octets of a header read, the client is still aligned with the stream
      after the update exactly when no disposal started or the stale octets in the buffer
      were the header octets still to come. */
  lemma AlignedIff(env: Env, st: State, cut: nat -> nat, m: Machine)
    requires st.Sound() && m.Valid() && Meaningful(env, st, cut, m) && Update(env, st, cut, m).Waiting?
    requires var t, rest := Tail(m.Filled(cut)[..m.Reached(cut)]), m.Rest(cut);
      1 <= |t| < 4 && |t + rest| >= 4 && 4 + Be32(t + rest) <= |t + rest|
    ensures var buf, n, rest := m.Filled(cut), m.Reached(cut), m.Rest(cut);
      var t := Tail(buf[..n]);
      Aligned(t + rest, Update(env, st, cut, m).m.Stream()) <==>
        Announced(buf, n) <= RECEIVE_BUFFER_SIZE || Settled(buf, n)[|t|..4] == rest[..4 - |t|]
  {
    hide Frames, Tail, Dispatch, Settled, Announced, Aligned, Remaining;
    UpdateRemaining(env, st, cut, m);
    SplitHeaderIff(m.Filled(cut), m.Reached(cut), m.Rest(cut));
  }

  lemma {:induction false} DisposalEager(cut: nat -> nat, readCount: nat, buf: seq<byte>, incoming: seq<byte>,
                                         missing: nat)
    requires Eager(cut) && |buf| == RECEIVE_BUFFER_SIZE
    ensures var m := Disposal(cut, readCount, buf, incoming, missing);
      && (m.Some? <==> missing <= |incoming|)
      && (m.Some? ==> m.value.readCount == ReadsFor(cut, readCount, missing))
    decreases missing
  {
    hide Disposal;
    if missing == 0 {
      DisposalDone(cut, readCount, buf, incoming);
    } else {
      var k := Min(cut(readCount), Min(Min(missing, RECEIVE_BUFFER_SIZE), |incoming|));
      DisposalStep(cut, readCount, buf, incoming, missing);
      assert cut(readCount) > 0;
      if k > 0 {
        var stored := buf[..0] + incoming[..k] + buf[k..];
        assert |stored| == |buf|;
        DisposalEager(cut, readCount + 1, stored, incoming[k..], missing - k);
      }
    }
  }

  // ---------------------------------------------------------------- whole streams

  /** After a read that decides the header under way, the announced length is the packet's
      own whenever it starts a disposal. */
  lemma HeaderDecides(buf: seq<byte>, n: nat, rest: seq<byte>, zeros: bool)
    requires 4 <= |buf| && n <= |buf| && HeaderInTime(buf[..n], zeros) && (zeros ==> ZerosFrom(buf, n))
    requires Regular(Tail(buf[..n]) + rest)
    ensures Announced(buf, n) < TWO_31
    ensures Announced(buf, n) > RECEIVE_BUFFER_SIZE <==> TooLong(Tail(buf[..n]))
    ensures TooLong(Tail(buf[..n])) ==> Announced(buf, n) == Be32(Tail(buf[..n]))
    ensures Announced(buf, n) <= RECEIVE_BUFFER_SIZE ==> ZerosFrom(Settled(buf, n), 0)
  {
    hide Regular, Settled, Tail;
    var t := Tail(buf[..n]);
    if |t| >= 4 {
      AnnouncedWhole(buf, n);
      FrontLength(t, rest);
    } else {
      DisposalIff(buf, n);
    }
    if Announced(buf, n) <= RECEIVE_BUFFER_SIZE {
      FittingIsZeros(buf, n);
    }
  }

  /** A state of a run of which the stream is to be followed: its reads decide every header. */
  ghost predicate Followed(st: State, cut: nat -> nat, m: Machine, zeros: bool) {
    && st.Sound() && m.Valid() && Eager(cut) && (zeros ==> ZerosFrom(m.buf, m.n))
    && !Complete(m.buf[..m.n]) && !TooLong(m.buf[..m.n])
    && Regular(m.Stream()) && HeadersInTime(cut, Seen(m, zeros))
  }

  /** The next read of such a run. */
  lemma FollowedReads(st: State, cut: nat -> nat, m: Machine, zeros: bool)
    requires Followed(st, cut, m, zeros) && m.incoming != [] && m.n < RECEIVE_BUFFER_SIZE
    ensures var buf, n, rest := m.Filled(cut), m.Reached(cut), m.Rest(cut);
      && m.Arriving(cut) > 0 && buf[..n] + rest == m.Stream()
      && HeaderInTime(buf[..n], zeros) && (zeros ==> ZerosFrom(buf, n))
      && HeadersInTime(cut, NextReading(cut, buf[..n], rest, m.readCount + 1))
  {
    hide Regular, NextReading, HeaderInTime;
    var r := Seen(m, zeros);
    assert cut(m.readCount) > 0;
    assert r.Filled(cut) == m.Filled(cut)[..m.Reached(cut)];
  }

  /** The three ways an update ends while its messages keep the connection. */
  lemma DigestFits(env: Env, st: State, cut: nat -> nat, m: Machine)
    requires st.Sound() && m.Valid() && AllAdmissible(Frames(m.buf[..m.n]))
    requires Dispatch(env, st, Frames(m.buf[..m.n])).connected && Announced(m.buf, m.n) <= RECEIVE_BUFFER_SIZE
    ensures var e, t, next := Digest(env, st, cut, m), Tail(m.buf[..m.n]), Dispatch(env, st, Frames(m.buf[..m.n]));
      && e == Waiting(next, Machine(Settled(m.buf, m.n), |t|, m.incoming, m.readCount))
      && e.m.buf[..e.m.n] == t && e.m.Stream() == t + m.incoming
  {
    hide Frames, Tail, Dispatch, Settled, Announced, AllAdmissible;
    SettledTail(m.buf, m.n);
  }

  lemma DigestDisposes(env: Env, st: State, cut: nat -> nat, m: Machine)
    requires st.Sound() && m.Valid() && AllAdmissible(Frames(m.buf[..m.n])) && Eager(cut)
    requires Dispatch(env, st, Frames(m.buf[..m.n])).connected && Announced(m.buf, m.n) > RECEIVE_BUFFER_SIZE
    ensures var e, next := Digest(env, st, cut, m), Dispatch(env, st, Frames(m.buf[..m.n]));
      var missing := Missing(m.buf, m.n);
      if missing <= |m.incoming| then
        && e.Waiting? && e.st == next && e.m.n == 0 && e.m.incoming == m.incoming[missing..]
        && e.m.readCount == ReadsFor(cut, m.readCount, missing) && e.m.Stream() == m.incoming[missing..]
      else e == Lost(Disconnected(next, Timeout))
  {
    hide Frames, Tail, Dispatch, Settled, Announced, AllAdmissible, ReadsFor;
    DisposalEager(cut, m.readCount, Settled(m.buf, m.n), m.incoming, Missing(m.buf, m.n));
    var e := Digest(env, st, cut, m);
    if e.Waiting? {
      assert e.m.buf[..0] + e.m.incoming == e.m.incoming;
    }
  }

  /** What a machine shows of a reading. */
  function Seen(m: Machine, zeros: bool): Reading
    requires m.Valid()
  {
    Reading(m.buf[..m.n], m.incoming, m.readCount, zeros)
  }

  /** After a read that decides the header under way, an update is a step of the outcome of
      the whole stream. */
  lemma DigestStep(env: Env, st: State, cut: nat -> nat, m: Machine, zeros: bool)
    requires st.Sound() && m.Valid() && Eager(cut) && st.connected
    requires HeaderInTime(m.buf[..m.n], zeros) && (zeros ==> ZerosFrom(m.buf, m.n)) && Regular(m.Stream())
    ensures AllAdmissible(Frames(m.buf[..m.n])) && Announced(m.buf, m.n) < TWO_31
    ensures var e, next := Digest(env, st, cut, m), Announced(m.buf, m.n) <= RECEIVE_BUFFER_SIZE;
      if e.Waiting? then
        && (next ==> ZerosFrom(e.m.buf, e.m.n)) && Regular(e.m.Stream())
        && !Complete(e.m.buf[..e.m.n]) && !TooLong(e.m.buf[..e.m.n])
        && Incomplete(e.m.Stream()) == Incomplete(m.Stream())
        && Outcome(env, st, m.Stream()) == Outcome(env, e.st, e.m.Stream())
        && Seen(e.m, next) == NextReading(cut, m.buf[..m.n], m.incoming, m.readCount)
      else Outcome(env, st, m.Stream()) == e.st
  {
    hide Frames, Tail, Dispatch, Process, Admissible, Outcome, Regular, Incomplete, Settled, Announced,
         ReadsFor, HeaderInTime, Digest;
    var all, t := m.buf[..m.n], Tail(m.buf[..m.n]);
    OutcomeStep(env, st, all, m.incoming);
    HeaderDecides(m.buf, m.n, m.incoming, zeros);
    var state := Dispatch(env, st, Frames(all));
    assert !Complete(t) && |t| <= m.n;
    if !state.connected {
      DigestLost(env, st, cut, m);
    } else if Announced(m.buf, m.n) <= RECEIVE_BUFFER_SIZE {
      DigestFits(env, st, cut, m);
    } else {
      OutcomeSkips(env, state, t, m.incoming);
      DigestDisposes(env, st, cut, m);
    }
  }

  lemma DigestLost(env: Env, st: State, cut: nat -> nat, m: Machine)
    requires st.Sound() && m.Valid() && AllAdmissible(Frames(m.buf[..m.n]))
    requires !Dispatch(env, st, Frames(m.buf[..m.n])).connected
    ensures Digest(env, st, cut, m) == Lost(Dispatch(env, st, Frames(m.buf[..m.n])))
  {
  }

  /** An update is a step of the outcome of the whole stream. */
  lemma FollowedStep(env: Env, st: State, cut: nat -> nat, m: Machine, zeros: bool) returns (next: bool)
    requires Followed(st, cut, m, zeros) && st.connected && m.incoming != []
    ensures Meaningful(env, st, cut, m)
    ensures var e := Update(env, st, cut, m);
      if e.Waiting? then
        && Followed(e.st, cut, e.m, next) && Incomplete(e.m.Stream()) == Incomplete(m.Stream())
        && Outcome(env, st, m.Stream()) == Outcome(env, e.st, e.m.Stream())
      else Outcome(env, st, m.Stream()) == e.st
  {
    hide Frames, Tail, Dispatch, Process, Admissible, Outcome, Regular, Incomplete, Settled, Announced,
         HeadersInTime, HeaderInTime, Digest, NextReading;
    next := false;
    if m.n == RECEIVE_BUFFER_SIZE {
      OutcomeStuck(env, st, m.buf[..m.n], m.incoming);
    } else {
      FollowedReads(st, cut, m, zeros);
      var read := Machine(m.Filled(cut), m.Reached(cut), m.Rest(cut), m.readCount + 1);
      assert read.Stream() == m.Stream();
      DigestStep(env, st, cut, read, zeros);
      next := Announced(read.buf, read.n) <= RECEIVE_BUFFER_SIZE;
    }
  }

  /** However a stream is cut into reads that decide every header, the run comes to the outcome
      of the stream as a whole, and what is left in the buffer is the incomplete packet. */
  lemma {:induction false} WholeRun(env: Env, st: State, cut: nat -> nat, m: Machine, zeros: bool)
    requires Followed(st, cut, m, zeros) && st.connected
    ensures Defined(env, st, cut, m)
    ensures var e := Polled(env, st, cut, m);
      && e.st == Outcome(env, st, m.Stream())
      && (e.Waiting? ==> e.m.buf[..e.m.n] == Incomplete(m.Stream()))
    decreases |m.incoming|
  {
    hide Outcome, Incomplete, Update, Meaningful, Followed;
    if m.incoming == [] {
      NothingToRead(env, st, cut, m, zeros);
    } else {
      FollowedIsSound(st, cut, m, zeros);
      var next := FollowedStep(env, st, cut, m, zeros);
      var e := Update(env, st, cut, m);
      if e.Waiting? {
        WholeRun(env, e.st, cut, e.m, next);
      }
    }
  }

  lemma FollowedIsSound(st: State, cut: nat -> nat, m: Machine, zeros: bool)
    requires Followed(st, cut, m, zeros)
    ensures st.Sound() && m.Valid() && Regular(m.Stream())
  {
  }

  lemma NothingToRead(env: Env, st: State, cut: nat -> nat, m: Machine, zeros: bool)
    requires Followed(st, cut, m, zeros) && st.connected && m.incoming == []
    ensures m.Valid() && Regular(m.Stream()) && st.Sound()
    ensures Outcome(env, st, m.Stream()) == st && Incomplete(m.Stream()) == m.buf[..m.n]
  {
    assert m.Stream() == m.buf[..m.n];
    OutcomeDone(env, st, m.buf[..m.n]);
  }

  // ---------------------------------------------------------------- how stale octets come about

  /** A client that has received nothing yet. */
  function Fresh(incoming: seq<byte>): (m: Machine)
    ensures m.Valid()
  {
    Machine(Stale([0, 0, 0, 0]), 0, incoming, 0)
  }

  /** A message too short to have a tag means nothing. */
  lemma ShortIgnored(env: Env, st: State, b: byte)
    requires st.Sound()
    ensures AllAdmissible([[b]]) && Dispatch(env, st, [[b]]) == st
  {
    assert [[b]][1..] == [];
    assert Dispatch(env, st, []) == st;
  }

  /** A read into an empty buffer that delivers just `a`. */
  lemma FrontRead(cut: nat -> nat, m: Machine, a: seq<byte>, b: seq<byte>)
    requires m.Valid() && m.n == 0 && m.incoming == a + b && cut(m.readCount) == |a| <= RECEIVE_BUFFER_SIZE
    ensures m.Arriving(cut) == |a| && m.Reached(cut) == |a| && m.Rest(cut) == b
    ensures m.Filled(cut) == a + m.buf[|a|..] && m.Filled(cut)[..|a|] == a
  {
    assert m.incoming[..|a|] == a && m.buf[..0] == [];
  }

  const ONE_OCTET: seq<byte> := [0, 0, 0, 1, 0]

  lemma OneOctet()
    ensures Complete(ONE_OCTET) && Be32(ONE_OCTET) == 1
    ensures Frames(ONE_OCTET) == [[0]] && Tail(ONE_OCTET) == []
  {
    hide Be32;
    ShiftedValue(ONE_OCTET);
    assert FirstBody(ONE_OCTET) == [0] && AfterFirst(ONE_OCTET) == [];
    assert Frames(ONE_OCTET) == [[0]] + Frames([]) == [[0]];
  }

  /** A packet of one octet is consumed and leaves the buffer as it is. */
  lemma OnePacket(env: Env, st: State, buf: seq<byte>, n: nat, b: byte)
    requires st.Sound() && n <= |buf| == RECEIVE_BUFFER_SIZE && Complete(buf[..n]) && n == 4 + Be32(buf[..n])
    requires Frames(buf[..n]) == [[b]]
    ensures AllAdmissible(Frames(buf[..n])) && Dispatch(env, st, Frames(buf[..n])) == st
    ensures Settled(buf, n) == buf && Announced(buf, n) == Be32(buf)
  {
    hide Dispatch, AllAdmissible, Frames, Be32, Complete;
    ShortIgnored(env, st, b);
    assert Moved(buf, n) == buf;
    NoPacket(env, st, buf, 0);
  }

  lemma NoPacket(env: Env, st: State, buf: seq<byte>, n: nat)
    requires st.Sound() && n <= |buf| == RECEIVE_BUFFER_SIZE && (n < 4 || !Complete(buf[..n]))
    ensures AllAdmissible(Frames(buf[..n])) && Dispatch(env, st, Frames(buf[..n])) == st
    ensures Tail(buf[..n]) == buf[..n] && Settled(buf, n) == buf && Announced(buf, n) == Be32(buf)
  {
  }

  /** The first input of SplitHeaderFails comes about in two reads: a packet of one octet, and
      half the header of the next one. */
  lemma SplitHeaderReached(env: Env, st: State, cut: nat -> nat, rest: seq<byte>)
    requires st.Sound() && st.connected && cut(0) == 5 && cut(1) == 2
    ensures var m := Fresh(ONE_OCTET + ([0, 1] + rest));
      && Meaningful(env, st, cut, m)
      && var e := Update(env, st, cut, m);
         && e.Waiting? && e.st == st
         && e.m.Filled(cut) == Stale([0, 1, 0, 1]) && e.m.Reached(cut) == 2 && e.m.Rest(cut) == rest
  {
    hide Dispatch, Frames, Tail, Settled, Announced, AllAdmissible, Stale, Digest;
    var m := Fresh(ONE_OCTET + ([0, 1] + rest));
    FrontRead(cut, m, ONE_OCTET, [0, 1] + rest);
    var buf := m.Filled(cut);
    OneOctet();
    Be32Injective(buf, ONE_OCTET);
    OnePacket(env, st, buf, 5, 0);
    DigestFits(env, st, cut, Machine(buf, 5, [0, 1] + rest, 1));
    var after := Machine(buf, 0, [0, 1] + rest, 1);
    assert Update(env, st, cut, m) == Waiting(st, after);
    FrontRead(cut, after, [0, 1], rest);
    PacketLeaves(buf);
  }

  /** What that packet leaves behind, and the buffer after two more octets. */
  lemma PacketLeaves(buf: seq<byte>)
    requires buf == ONE_OCTET + Stale([0, 0, 0, 0])[5..]
    ensures [0, 1] + buf[2..] == Stale([0, 1, 0, 1])
  {
    var after := [0, 1] + buf[2..];
    assert after[..4] == [0, 1, 0, 1];
    assert forall i :: 4 <= i < |after| ==> after[i] == 0;
    assert after == after[..4] + after[4..];
  }

  /** The second one comes about in a disposal, whose reads leave a 7 in the buffer, and a read
      of one octet after it. */
  lemma StaleReached(env: Env, st: State, cut: nat -> nat, rest: seq<byte>)
    requires st.Sound() && st.connected
    requires cut(0) == 4 && cut(1) == RECEIVE_BUFFER_SIZE && cut(2) == 1 && cut(3) == 1
    ensures var m := Fresh([0, 1, 0, 0] + (Stale([0, 7, 0, 0]) + ([0] + ([0] + rest))));
      && Meaningful(env, st, cut, m)
      && var e := Update(env, st, cut, m);
         && e.Waiting? && e.st == st
         && e.m.Filled(cut) == Stale([0, 7, 0, 0]) && e.m.Reached(cut) == 1 && e.m.Rest(cut) == rest
  {
    hide Dispatch, Frames, Tail, Settled, Announced, AllAdmissible, Stale, Disposal;
    var header: seq<byte> := [0, 1, 0, 0];
    var last, junk := [0] + rest, Stale([0, 7, 0, 0]);
    var m := Fresh(header + (junk + ([0] + last)));
    FrontRead(cut, m, header, junk + ([0] + last));
    var buf := m.Filled(cut);
    LongHeader(buf);
    NoPacket(env, st, buf, 4);
    assert Missing(buf, 4) == 0x1_0000;
    JunkStarts();
    DisposalOfTwo(cut, buf, junk, last);
    var after := Machine(junk, 0, last, 3);
    assert Update(env, st, cut, m) == Waiting(st, after);
    FrontRead(cut, after, [0], rest);
    assert [0] + junk[1..] == junk;
  }

  lemma LongHeader(buf: seq<byte>)
    requires |buf| >= 4 && buf[..4] == [0, 1, 0, 0]
    ensures Be32(buf) == Be32(buf[..4]) == 0x1_0000 && !Complete(buf[..4])
  {
    ShiftedValue(buf[..4]);
    Be32Injective(buf[..4], buf);
  }

  lemma JunkStarts()
    ensures Stale([0, 7, 0, 0])[0] == 0
  {
  }

  /** A read of a disposal that delivers just `a`. */
  lemma DisposalReads(cut: nat -> nat, readCount: nat, buf: seq<byte>, a: seq<byte>, b: seq<byte>, missing: nat)
    requires |buf| == RECEIVE_BUFFER_SIZE && 0 < |a| <= RECEIVE_BUFFER_SIZE && |a| <= missing
    requires cut(readCount) == |a|
    ensures Disposal(cut, readCount, buf, a + b, missing)
      == Disposal(cut, readCount + 1, a + buf[|a|..], b, missing - |a|)
  {
    hide Disposal;
    DisposalStep(cut, readCount, buf, a + b, missing);
    assert (a + b)[..|a|] == a && (a + b)[|a|..] == b;
    assert buf[..0] + a + buf[|a|..] == a + buf[|a|..];
  }

  /** Two reads of a disposal: one fills the buffer, one replaces its first octet. */
  lemma DisposalOfTwo(cut: nat -> nat, buf: seq<byte>, junk: seq<byte>, last: seq<byte>)
    requires |buf| == |junk| == RECEIVE_BUFFER_SIZE && junk[0] == 0
    requires cut(1) == RECEIVE_BUFFER_SIZE && cut(2) == 1
    ensures Disposal(cut, 1, buf, junk + ([0] + last), 0x1_0000) == Some(Machine(junk, 0, last, 3))
  {
    hide Disposal;
    DisposalReads(cut, 1, buf, junk, [0] + last, 0x1_0000);
    assert junk + buf[|junk|..] == junk;
    DisposalReads(cut, 2, junk, [0], last, 1);
    assert [0] + junk[1..] == junk;
    DisposalDone(cut, 3, junk, last);
  }
}
