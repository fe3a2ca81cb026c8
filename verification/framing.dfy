/**
 The length-prefixed frame format, on octet strings: what a receiver that buffers and
 cuts ought to deliver, independently of how it does so.
 */
module Framing {
  import opened Basics
  import opened Bytes

  /** USYNERGY_RECEIVE_BUFFER_SIZE */
  const RECEIVE_BUFFER_SIZE: int := 0xFFFF
  /** The longest body that fits the receive buffer together with its length header. */
  const MAX_BODY: int := RECEIVE_BUFFER_SIZE - 4

  /** A whole frame that fits the receive buffer stands at the start of s. */
  predicate Complete(s: seq<byte>) {
    |s| >= 4 && Be32(s) <= MAX_BODY && 4 + Be32(s) <= |s|
  }

  function FirstBody(s: seq<byte>): seq<byte>
    requires Complete(s)
  {
    s[4..4 + Be32(s)]
  }

  function AfterFirst(s: seq<byte>): (rest: seq<byte>)
    requires Complete(s)
    ensures |rest| < |s|
  {
    s[4 + Be32(s)..]
  }

  /** The bodies of the complete frames of s, in order, up to the first that does not
      fit. */
  function Frames(s: seq<byte>): seq<seq<byte>>
    decreases |s|
  {
    if Complete(s) then [FirstBody(s)] + Frames(AfterFirst(s)) else []
  }

  /** What is left of s after these frames: the start of the next one. */
  function Tail(s: seq<byte>): (t: seq<byte>)
    ensures |t| <= |s| && !Complete(t)
    decreases |s|
  {
    if Complete(s) then Tail(AfterFirst(s)) else s
  }

  /** A frame: the body length as four octets, then the body. */
  function Frame(body: seq<byte>): seq<byte> {
    U32(|body|) + body
  }

  function FrameAll(bodies: seq<seq<byte>>): seq<byte> {
    if bodies == [] then [] else Frame(bodies[0]) + FrameAll(bodies[1..])
  }

  ghost predicate BodiesAtMost(bodies: seq<seq<byte>>, max: int) {
    forall b :: b in bodies ==> |b| <= max
  }

  /** The header octets present announce, or can still be completed to announce, a
      body of at most max octets. */
  predicate HeaderAtMost(s: seq<byte>, max: int) {
    if |s| >= 4 then Be32(s) <= max
    else (|s| > 0 ==> s[0] == 0) && (|s| > 1 ==> s[1] == 0)
  }

  /** So do all headers of s, up to that of the first frame that does not fit. */
  predicate HeadersAtMost(s: seq<byte>, max: int)
    decreases |s|
  {
    HeaderAtMost(s, max) && (Complete(s) ==> HeadersAtMost(AfterFirst(s), max))
  }

  /** Every header of s fits the buffer. CleanIsPrefix says what that means. */
  predicate Clean(s: seq<byte>) {
    HeadersAtMost(s, MAX_BODY)
  }

  lemma FirstOfAppend(a: seq<byte>, b: seq<byte>)
    requires Complete(a)
    ensures Complete(a + b)
    ensures FirstBody(a + b) == FirstBody(a)
    ensures AfterFirst(a + b) == AfterFirst(a) + b
  {
    Be32Prefix(a, b);
  }

  /** Segmentation independence of the format: cutting a stream anywhere and carrying
      the tail over yields the frames of the whole stream. */
  lemma {:induction false} FramesSplit(a: seq<byte>, b: seq<byte>)
    ensures Frames(a + b) == Frames(a) + Frames(Tail(a) + b)
    ensures Tail(a + b) == Tail(Tail(a) + b)
    decreases |a|
  {
    if Complete(a) {
      var first, rest := FirstBody(a), AfterFirst(a);
      FirstOfAppend(a, b);
      FramesSplit(rest, b);
      Assoc([first], Frames(rest), Frames(Tail(rest) + b));
    } else {
      assert [] + Frames(a + b) == Frames(a + b);
    }
  }

  lemma ShortHeader(s: seq<byte>)
    requires |s| >= 4
    ensures Be32(s) <= RECEIVE_BUFFER_SIZE <==> s[0] == 0 && s[1] == 0
  {
    ShiftedValue(s);
  }

  lemma {:induction false} HeadersSplit(a: seq<byte>, b: seq<byte>, max: int)
    requires HeadersAtMost(a + b, max) && max <= RECEIVE_BUFFER_SIZE
    ensures HeadersAtMost(a, max) && HeadersAtMost(Tail(a) + b, max)
    decreases |a|
  {
    if |a| >= 4 {
      Be32Prefix(a, b);
    } else if |a + b| >= 4 {
      ShortHeader(a + b);
    }
    if Complete(a) {
      FirstOfAppend(a, b);
      HeadersSplit(AfterFirst(a), b, max);
    }
  }

  lemma {:induction false} HeadersWeaken(s: seq<byte>, max: int, top: int)
    requires HeadersAtMost(s, max) && max <= top
    ensures HeadersAtMost(s, top)
    decreases |s|
  {
    if Complete(s) {
      HeadersWeaken(AfterFirst(s), max, top);
    }
  }

  lemma FirstFrame(s: seq<byte>)
    requires Complete(s)
    ensures s == Frame(FirstBody(s)) + AfterFirst(s)
  {
    Be32Prefix(s, []);
    assert s == s[..4] + FirstBody(s) + AfterFirst(s);
  }

  /** The frames and the tail are all there is in a stream, and frames survive framing. */
  lemma {:induction false} FramesPartition(s: seq<byte>)
    ensures FrameAll(Frames(s)) + Tail(s) == s
    decreases |s|
  {
    if Complete(s) {
      var rest := AfterFirst(s);
      FramesPartition(rest);
      FirstFrame(s);
      assert Frames(s)[1..] == Frames(rest);
      Assoc(Frame(FirstBody(s)), FrameAll(Frames(rest)), Tail(rest));
    }
  }

  lemma FrameComplete(body: seq<byte>, rest: seq<byte>)
    requires |body| <= MAX_BODY
    ensures Complete(Frame(body) + rest)
    ensures FirstBody(Frame(body) + rest) == body
    ensures AfterFirst(Frame(body) + rest) == rest
    ensures Be32(Frame(body) + rest) == |body|
  {
    assert Frame(body) + rest == U32(|body|) + (body + rest);
    U32RoundTrip(|body|, body + rest);
  }

  /** A framed list of bodies decodes to exactly that list. */
  lemma {:induction false} FramesOfFrameAll(bodies: seq<seq<byte>>, rest: seq<byte>)
    requires BodiesAtMost(bodies, MAX_BODY)
    ensures Frames(FrameAll(bodies) + rest) == bodies + Frames(rest)
    ensures Tail(FrameAll(bodies) + rest) == Tail(rest)
  {
    if bodies == [] {
      assert FrameAll(bodies) + rest == rest;
    } else {
      var tail := FrameAll(bodies[1..]) + rest;
      FramesOfFrameAll(bodies[1..], rest);
      Assoc(Frame(bodies[0]), FrameAll(bodies[1..]), rest);
      FrameComplete(bodies[0], tail);
      Assoc([bodies[0]], bodies[1..], Frames(rest));
      assert bodies == [bodies[0]] + bodies[1..];
    }
  }

  lemma {:induction false} CleanOfFrameAll(bodies: seq<seq<byte>>, rest: seq<byte>)
    requires BodiesAtMost(bodies, MAX_BODY) && Clean(rest)
    ensures Clean(FrameAll(bodies) + rest)
  {
    if bodies == [] {
      assert FrameAll(bodies) + rest == rest;
    } else {
      var tail := FrameAll(bodies[1..]) + rest;
      CleanOfFrameAll(bodies[1..], rest);
      Assoc(Frame(bodies[0]), FrameAll(bodies[1..]), rest);
      FrameComplete(bodies[0], tail);
    }
  }

  lemma {:induction false} FramesFit(s: seq<byte>)
    ensures BodiesAtMost(Frames(s), MAX_BODY)
    decreases |s|
  {
    if Complete(s) {
      FramesFit(AfterFirst(s));
    }
  }

  /** The tail of a clean stream leaves room in the buffer for at least one octet. */
  lemma {:induction false} CleanTail(s: seq<byte>)
    requires Clean(s)
    ensures Clean(Tail(s)) && |Tail(s)| < RECEIVE_BUFFER_SIZE
    decreases |s|
  {
    if Complete(s) {
      CleanTail(AfterFirst(s));
    }
  }

  ghost predicate ExtendsTo(s: seq<byte>, bodies: seq<seq<byte>>) {
    BodiesAtMost(bodies, MAX_BODY) && s <= FrameAll(bodies)
  }

  /** Clean streams are exactly the prefixes of framed bodies that fit the buffer. */
  lemma CleanIsPrefix(s: seq<byte>)
    ensures Clean(s) <==> exists bodies :: ExtendsTo(s, bodies)
  {
    if Clean(s) {
      var bodies := CleanExtends(s);
    }
    if bodies :| ExtendsTo(s, bodies) {
      var rest := FrameAll(bodies)[|s|..];
      CleanOfFrameAll(bodies, []);
      assert FrameAll(bodies) + [] == s + rest;
      HeadersSplit(s, rest, MAX_BODY);
    }
  }

  lemma CleanExtends(s: seq<byte>) returns (bodies: seq<seq<byte>>)
    requires Clean(s)
    ensures ExtendsTo(s, bodies)
  {
    CleanTail(s);
    FramesFit(s);
    var last := Completion(Tail(s));
    bodies := Frames(s) + [last];
    FramesPartition(s);
    FrameAllAppend(Frames(s), [last]);
    assert FrameAll([last]) == Frame(last) + [];
    assert FrameAll(bodies) == FrameAll(Frames(s)) + Frame(last);
  }

  lemma {:induction false} FrameAllAppend(xs: seq<seq<byte>>, ys: seq<seq<byte>>)
    ensures FrameAll(xs + ys) == FrameAll(xs) + FrameAll(ys)
  {
    if xs == [] {
      assert xs + ys == ys;
    } else {
      assert (xs + ys)[1..] == xs[1..] + ys;
      FrameAllAppend(xs[1..], ys);
      Assoc(Frame(xs[0]), FrameAll(xs[1..]), FrameAll(ys));
    }
  }

  /** A body that completes an incomplete frame whose header fits. */
  lemma Completion(t: seq<byte>) returns (body: seq<byte>)
    requires Clean(t) && !Complete(t)
    ensures |body| <= MAX_BODY && t <= Frame(body)
  {
    if |t| >= 4 {
      Be32Prefix(t, []);
      body := t[4..] + seq(4 + Be32(t) - |t|, _ => 0);
      assert Frame(body) == t + seq(4 + Be32(t) - |t|, _ => 0);
    } else {
      var third: int := if |t| > 2 then t[2] else 0;
      body := seq(third * 0x100, _ => 0);
      ShiftedOctets(third * 0x100);
      assert Frame(body)[..|t|] == t;
    }
  }

  // ---------------------------------------------------------------- octets left over

  /** Octets left in front of any stream add their own frames and change nothing else. */
  ghost predicate CarriesOver(left: seq<byte>) {
    forall s: seq<byte> :: Frames(left + s) == Frames(left) + Frames(s)
  }

  /** A stream that starts anew behind octets left over from another one is aligned, whatever
      it is, exactly when these are whole frames. */
  lemma CarriesOverIff(left: seq<byte>)
    ensures CarriesOver(left) <==> Tail(left) == []
  {
    var t := Tail(left);
    if t == [] {
      forall s: seq<byte> ensures Frames(left + s) == Frames(left) + Frames(s) {
        FramesSplit(left, s);
        assert [] + s == s;
      }
    } else {
      var s := Disturbed(t);
      FramesSplit(left, s);
      SameBehind(Frames(left), Frames(t + s), Frames(s));
    }
  }

  lemma SameBehind<T>(a: seq<T>, b: seq<T>, c: seq<T>)
    requires b != c
    ensures a + b != a + c
  {
    assert (a + b)[|a|..] == b && (a + c)[|a|..] == c;
  }

  /** A stream whose frames the start of another frame in front of it changes. */
  lemma Disturbed(t: seq<byte>) returns (s: seq<byte>)
    requires t != [] && !Complete(t)
    ensures Frames(t + s) != Frames(s)
  {
    if HeaderAtMost(t, MAX_BODY) {
      var body := Completion(t);
      s := Frame(body)[|t|..];
      assert t + s == Frame(body) + [];
      FrameComplete(body, []);
      FramesPartition(s);
      assert Frames(t + s) == [body] + Frames([]) == [body];
      assert FrameAll([body]) == Frame(body) + [];
    } else {
      s := Frame([]);
      assert s == Frame([]) + [];
      FrameComplete([], []);
      assert Frames(s) == [[]] + Frames([]);
      assert !Complete(t + s) by {
        if |t| >= 4 {
          Be32Prefix(t, s);
        } else {
          ShortHeader(t + s);
        }
      }
    }
  }
}
