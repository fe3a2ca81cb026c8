/**
 What a client makes of a whole stream of packets, fitting and oversized ones, and the reads
 under which it does.
 */
module Streams {
  import opened Basics
  import opened Bytes
  import opened Framing
  import opened Protocol
  import opened Buffering

  // ---------------------------------------------------------------- packets of a stream

  /** An oversized packet, all of it, stands at the front. */
  predicate Skippable(t: seq<byte>) {
    TooLong(t) && 4 + Be32(t) <= |t|
  }

  /** What follows an oversized packet. */
  function Past(t: seq<byte>): (rest: seq<byte>)
    requires Skippable(t)
    ensures |rest| < |t|
  {
    t[4 + Be32(t)..]
  }

  /** Streams whose messages have defined behaviour and whose lengths fit a C int. */
  ghost predicate Regular(s: seq<byte>)
    decreases |s|
  {
    var t := Tail(s);
    && AllAdmissible(Frames(s))
    && (|t| >= 4 ==> Be32(t) < TWO_31)
    && (Skippable(t) ==> Regular(Past(t)))
  }

  /** The octets of the last packet, if it is incomplete. */
  function Incomplete(s: seq<byte>): seq<byte>
    decreases |s|
  {
    var t := Tail(s);
    if Skippable(t) then Incomplete(Past(t)) else t
  }

  /** What a run over a whole stream comes to: messages are dispatched, oversized packets
      skipped, until the connection is lost. It is given up when an oversized packet does not
      end, or a packet fits neither beside its header nor the test for oversized ones. */
  ghost function Outcome(env: Env, st: State, s: seq<byte>): (r: State)
    requires st.Sound() && Regular(s)
    ensures r.Sound()
    decreases |s|
  {
    var end, t := Dispatch(env, st, Frames(s)), Tail(s);
    if !end.connected then end
    else if Skippable(t) then Outcome(env, end, Past(t))
    else if TooLong(t) || |t| > RECEIVE_BUFFER_SIZE then Disconnected(end, Timeout)
    else end
  }

  /** The first part of a stream can be dispatched on its own, the second after its tail. */
  lemma OutcomeStep(env: Env, st: State, a: seq<byte>, b: seq<byte>)
    requires st.Sound() && Regular(a + b)
    ensures AllAdmissible(Frames(a)) && Regular(Tail(a) + b)
    ensures Incomplete(Tail(a) + b) == Incomplete(a + b)
    ensures var next := Dispatch(env, st, Frames(a));
      Outcome(env, st, a + b) == if next.connected then Outcome(env, next, Tail(a) + b) else next
  {
    hide Process, Admissible;
    FramesSplit(a, b);
    var xs, ys := Frames(a), Frames(Tail(a) + b);
    assert forall x :: x in xs ==> x in xs + ys;
    assert forall y :: y in ys ==> y in xs + ys;
    DispatchSplit(env, st, xs, ys);
  }

  /** The length at the front of an incomplete part is that of the whole. */
  lemma FrontLength(t: seq<byte>, b: seq<byte>)
    requires !Complete(t) && |t| >= 4 && Regular(t + b)
    ensures Be32(t) == Be32(t + b) < TWO_31
    ensures TooLong(t) ==> Tail(t + b) == t + b && Frames(t + b) == []
  {
    Be32Prefix(t, b);
  }

  /** An oversized packet whose header is there is skipped, if all of it comes. */
  lemma OutcomeSkips(env: Env, st: State, t: seq<byte>, b: seq<byte>)
    requires st.Sound() && st.connected && !Complete(t) && TooLong(t) && |t| <= RECEIVE_BUFFER_SIZE && Regular(t + b)
    ensures var missing := Be32(t) - (|t| - 4);
      if missing <= |b| then
        && Regular(b[missing..]) && Incomplete(b[missing..]) == Incomplete(t + b)
        && Outcome(env, st, t + b) == Outcome(env, st, b[missing..])
      else Outcome(env, st, t + b) == Disconnected(st, Timeout)
  {
    FrontLength(t, b);
    var missing := Be32(t) - (|t| - 4);
    if missing <= |b| {
      assert (t + b)[4 + Be32(t)..] == b[missing..];
    }
  }

  /** A full buffer without a whole packet in it stays so. */
  lemma OutcomeStuck(env: Env, st: State, a: seq<byte>, b: seq<byte>)
    requires st.Sound() && st.connected && Regular(a + b)
    requires |a| == RECEIVE_BUFFER_SIZE && !Complete(a) && !TooLong(a) && b != []
    ensures Outcome(env, st, a + b) == Disconnected(st, Timeout)
  {
    Be32Prefix(a, b);
    assert !Complete(a + b);
  }

  lemma OutcomeDone(env: Env, st: State, a: seq<byte>)
    requires st.Sound() && !Complete(a) && !TooLong(a) && |a| <= RECEIVE_BUFFER_SIZE && Regular(a)
    ensures Outcome(env, st, a) == st && Incomplete(a) == a
  {
  }

  // ---------------------------------------------------------------- streams of given bodies

  /** The bodies that fit the buffer. */
  function Fitting(bodies: seq<seq<byte>>): seq<seq<byte>> {
    if bodies == [] then []
    else (if |bodies[0]| <= MAX_BODY then [bodies[0]] else []) + Fitting(bodies[1..])
  }

  /** Bodies that either fit or are disposed of. */
  ghost predicate Sized(bodies: seq<seq<byte>>) {
    forall b :: b in bodies ==> |b| <= MAX_BODY || RECEIVE_BUFFER_SIZE < |b| < TWO_31
  }

  /** A packet too long for the buffer, and whatever follows it. */
  lemma LongFrame(body: seq<byte>, rest: seq<byte>)
    requires RECEIVE_BUFFER_SIZE < |body| < TWO_31
    ensures var s := Frame(body) + rest;
      !Complete(s) && Skippable(s) && Past(s) == rest && Be32(s) == |body|
  {
    var s := Frame(body) + rest;
    assert s == U32(|body|) + (body + rest);
    U32RoundTrip(|body|, body + rest);
  }

  /** A packet that fits neither beside its header nor the test for oversized ones. */
  lemma GapFrame(body: seq<byte>, rest: seq<byte>)
    requires MAX_BODY < |body| <= RECEIVE_BUFFER_SIZE
    ensures var s := Frame(body) + rest;
      && !Complete(s) && !TooLong(s) && |s| > RECEIVE_BUFFER_SIZE
      && Frames(s) == [] && Tail(s) == s && Be32(s) == |body|
  {
    var s := Frame(body) + rest;
    assert s == U32(|body|) + (body + rest);
    U32RoundTrip(|body|, body + rest);
  }

  ghost predicate AllBelow(bodies: seq<seq<byte>>, max: int) {
    forall b :: b in bodies ==> |b| < max
  }

  predicate Handled(body: seq<byte>) {
    |body| <= MAX_BODY || |body| > RECEIVE_BUFFER_SIZE
  }

  /** The bodies before the first that blocks the buffer. */
  function BeforeGap(bodies: seq<seq<byte>>): seq<seq<byte>> {
    if bodies == [] || !Handled(bodies[0]) then [] else [bodies[0]] + BeforeGap(bodies[1..])
  }

  lemma SizedNext(bodies: seq<seq<byte>>)
    requires bodies != [] && AllBelow(bodies, TWO_31)
    ensures AllBelow(bodies[1..], TWO_31) && |bodies[0]| < TWO_31
    ensures Sized(bodies) <==> Handled(bodies[0]) && Sized(bodies[1..])
  {
    assert bodies == [bodies[0]] + bodies[1..];
  }

  /** A stream of packets is followed to its end exactly when none of them blocks the buffer. */
  lemma {:induction false} FollowedIff(bodies: seq<seq<byte>>)
    requires AllBelow(bodies, TWO_31)
    ensures Incomplete(FrameAll(bodies)) == [] <==> Sized(bodies)
    ensures Sized(bodies) ==> BeforeGap(bodies) == bodies
    decreases |bodies|
  {
    if bodies != [] {
      hide Sized, AllBelow, Be32;
      var rest := FrameAll(bodies[1..]);
      SizedNext(bodies);
      FollowedIff(bodies[1..]);
      if |bodies[0]| <= MAX_BODY {
        FrameComplete(bodies[0], rest);
      } else if |bodies[0]| > RECEIVE_BUFFER_SIZE {
        LongFrame(bodies[0], rest);
      } else {
        GapFrame(bodies[0], rest);
      }
    }
  }

  lemma {:induction false} PacketsRegular(bodies: seq<seq<byte>>)
    requires AllBelow(bodies, TWO_31) && AllAdmissible(Fitting(BeforeGap(bodies)))
    ensures Regular(FrameAll(bodies))
    decreases |bodies|
  {
    hide Admissible;
    if bodies != [] {
      var rest := FrameAll(bodies[1..]);
      SizedNext(bodies);
      if Handled(bodies[0]) {
        FittingNext(bodies);
        PacketsRegular(bodies[1..]);
        if |bodies[0]| <= MAX_BODY {
          FrameComplete(bodies[0], rest);
        } else {
          LongFrame(bodies[0], rest);
        }
      } else {
        GapFrame(bodies[0], rest);
      }
    }
  }

  lemma FittingNext(bodies: seq<seq<byte>>)
    requires bodies != [] && Handled(bodies[0]) && AllAdmissible(Fitting(BeforeGap(bodies)))
    ensures var others := Fitting(BeforeGap(bodies[1..]));
      && AllAdmissible(others)
      && Fitting(BeforeGap(bodies)) == (if |bodies[0]| <= MAX_BODY then [bodies[0]] else []) + others
      && (|bodies[0]| <= MAX_BODY ==> Admissible(bodies[0]))
  {
    hide Admissible;
    assert BeforeGap(bodies)[1..] == BeforeGap(bodies[1..]);
    var all, others := Fitting(BeforeGap(bodies)), Fitting(BeforeGap(bodies[1..]));
    assert forall b :: b in others ==> b in all;
    assert |bodies[0]| <= MAX_BODY ==> bodies[0] in all;
  }

  /** What any stream of packets comes to: the packets that fit are dispatched in order and
      oversized ones skipped, up to the first that blocks the buffer; that one costs the
      connection. */
  lemma {:induction false} OutcomeOfPackets(env: Env, st: State, bodies: seq<seq<byte>>)
    requires st.Sound() && AllBelow(bodies, TWO_31) && AllAdmissible(Fitting(BeforeGap(bodies)))
    ensures Regular(FrameAll(bodies))
    ensures var end := Dispatch(env, st, Fitting(BeforeGap(bodies)));
      Outcome(env, st, FrameAll(bodies)) == if end.connected && !Sized(bodies) then Disconnected(end, Timeout) else end
    decreases |bodies|
  {
    hide Admissible, Process, Sized, AllBelow, BeforeGap, Fitting, AllAdmissible, Regular;
    PacketsRegular(bodies);
    if bodies == [] {
      NoPackets(env, st);
    } else {
      var rest := FrameAll(bodies[1..]);
      SizedNext(bodies);
      if !Handled(bodies[0]) {
        GapOutcome(env, st, bodies);
      } else {
        FittingNext(bodies);
        PacketsRegular(bodies[1..]);
        if |bodies[0]| <= MAX_BODY {
          OneFrame(env, st, bodies[0], rest);
          DispatchFirst(env, st, bodies[0], Fitting(BeforeGap(bodies[1..])));
          if st.connected {
            OutcomeOfPackets(env, Process(env, st, bodies[0]), bodies[1..]);
          }
        } else {
          LongOutcome(env, st, bodies[0], rest);
          assert [] + Fitting(BeforeGap(bodies[1..])) == Fitting(BeforeGap(bodies[1..]));
          if st.connected {
            OutcomeOfPackets(env, st, bodies[1..]);
          }
        }
      }
    }
  }

  lemma NoPackets(env: Env, st: State)
    requires st.Sound()
    ensures Regular([]) && Outcome(env, st, []) == st && Dispatch(env, st, Fitting(BeforeGap([]))) == st && Sized([])
  {
    assert Frames([]) == [] && Tail([]) == [];
  }

  lemma DispatchFirst(env: Env, st: State, first: seq<byte>, others: seq<seq<byte>>)
    requires st.Sound() && AllAdmissible([first] + others) && AllAdmissible(others) && Admissible(first)
    ensures Dispatch(env, st, [first] + others)
      == if st.connected then Dispatch(env, Process(env, st, first), others) else st
  {
    hide Process, Admissible;
    assert ([first] + others)[1..] == others;
  }

  lemma GapOutcome(env: Env, st: State, bodies: seq<seq<byte>>)
    requires st.Sound() && bodies != [] && MAX_BODY < |bodies[0]| <= RECEIVE_BUFFER_SIZE
    requires Regular(FrameAll(bodies))
    ensures Fitting(BeforeGap(bodies)) == [] && Dispatch(env, st, []) == st
    ensures Outcome(env, st, FrameAll(bodies)) == if st.connected then Disconnected(st, Timeout) else st
  {
    GapFrame(bodies[0], FrameAll(bodies[1..]));
  }

  lemma OneFrame(env: Env, st: State, body: seq<byte>, rest: seq<byte>)
    requires st.Sound() && |body| <= MAX_BODY && Regular(Frame(body) + rest) && Regular(rest)
    ensures Admissible(body)
    ensures Outcome(env, st, Frame(body) + rest)
      == if st.connected then Outcome(env, Process(env, st, body), rest) else st
  {
    hide Process, Admissible;
    var s := Frame(body) + rest;
    FrameComplete(body, rest);
    var frames := Frames(s);
    assert frames[0] == body && frames[1..] == Frames(rest) && body in frames;
  }

  lemma LongOutcome(env: Env, st: State, body: seq<byte>, rest: seq<byte>)
    requires st.Sound() && RECEIVE_BUFFER_SIZE < |body| < TWO_31
    requires Regular(Frame(body) + rest) && Regular(rest)
    ensures Outcome(env, st, Frame(body) + rest) == if st.connected then Outcome(env, st, rest) else st
  {
    LongFrame(body, rest);
    assert Frames(Frame(body) + rest) == [] && Dispatch(env, st, []) == st;
  }

  /** Streams whose packets all fit are dispatched frame by frame and nothing else happens. */
  lemma OutcomeOfClean(env: Env, st: State, s: seq<byte>)
    requires st.Sound() && Clean(s) && AllAdmissible(Frames(s))
    ensures Regular(s) && Incomplete(s) == Tail(s)
    ensures Outcome(env, st, s) == Dispatch(env, st, Frames(s))
  {
    CleanTail(s);
  }

  // ---------------------------------------------------------------- reads

  /** A transport that delivers as long as it has something to. */
  ghost predicate Eager(cut: nat -> nat) {
    forall n :: cut(n) > 0
  }

  /** What the client holds of a stream, what is still to be read, how often it has read, and
      whether the octets of the buffer behind the start of a header are known to be zero. */
  datatype Reading = Reading(buffered: seq<byte>, incoming: seq<byte>, readCount: nat, zeros: bool) {

    function Taken(cut: nat -> nat): (n: nat)
      requires |buffered| <= RECEIVE_BUFFER_SIZE
      ensures n <= |incoming|
    {
      Min(cut(readCount), Min(RECEIVE_BUFFER_SIZE - |buffered|, |incoming|))
    }

    /** The buffer as the next read leaves it. */
    function Filled(cut: nat -> nat): seq<byte>
      requires |buffered| <= RECEIVE_BUFFER_SIZE
    {
      buffered + incoming[..Taken(cut)]
    }

    function Rest(cut: nat -> nat): seq<byte>
      requires |buffered| <= RECEIVE_BUFFER_SIZE
    {
      incoming[Taken(cut)..]
    }
  }

  /** Nothing stale decides after this read: the header of the packet under way is there as a
      whole, or the octets missing from it read as zero and those present fit. */
  predicate HeaderInTime(all: seq<byte>, zeros: bool) {
    var t := Tail(all);
    |t| >= 4 || ((zeros || |all| >= 4) && HeaderAtMost(t, RECEIVE_BUFFER_SIZE))
  }

  /** How often the transport has been read when disposal has taken so many octets. */
  ghost function ReadsFor(cut: nat -> nat, readCount: nat, missing: nat): nat
    requires Eager(cut)
    decreases missing
  {
    if missing == 0 then readCount
    else ReadsFor(cut, readCount + 1, missing - Min(cut(readCount), Min(missing, RECEIVE_BUFFER_SIZE)))
  }

  /** What is to be read next once `all` has been received and its packets are gone. */
  ghost function NextReading(cut: nat -> nat, all: seq<byte>, rest: seq<byte>, readCount: nat): (r: Reading)
    requires |all| <= RECEIVE_BUFFER_SIZE && Eager(cut)
    ensures |r.incoming| <= |rest|
  {
    var t := Tail(all);
    if TooLong(t) then
      var missing := Be32(t) - (|t| - 4);
      if missing <= |rest| then Reading([], rest[missing..], ReadsFor(cut, readCount, missing), false)
      else Reading([], [], readCount, false)
    else Reading(t, rest, readCount, true)
  }

  /** Every read of a run leaves the header of the packet under way decided. */
  ghost predicate HeadersInTime(cut: nat -> nat, r: Reading)
    requires Eager(cut)
    decreases |r.incoming|
  {
    r.incoming != [] && |r.buffered| < RECEIVE_BUFFER_SIZE ==>
      HeaderInTime(r.Filled(cut), r.zeros)
      && HeadersInTime(cut, NextReading(cut, r.Filled(cut), r.Rest(cut), r.readCount + 1))
  }

  /** A stream without oversized packets may be cut in any way. */
  lemma {:induction false} AnyCut(cut: nat -> nat, r: Reading)
    requires Eager(cut)
    requires r.zeros && HeadersAtMost(r.buffered + r.incoming, RECEIVE_BUFFER_SIZE)
    ensures HeadersInTime(cut, r)
    decreases |r.incoming|
  {
    if r.incoming != [] && |r.buffered| < RECEIVE_BUFFER_SIZE {
      var all, rest := r.Filled(cut), r.Rest(cut);
      assert r.buffered + r.incoming == all + rest;
      HeadersSplit(all, rest, RECEIVE_BUFFER_SIZE);
      HeadersSplit(Tail(all), rest, RECEIVE_BUFFER_SIZE);
      assert HeaderAtMost(Tail(all), RECEIVE_BUFFER_SIZE);
      AnyCut(cut, NextReading(cut, all, rest, r.readCount + 1));
    }
  }
}
