/**
 The glue of src/main.c: protocol callbacks drive the key ledger.
 */
module Session {
  import opened Bytes
  import opened Protocol
  import opened History
  import opened Keys
  import opened Branches

  /** An announced key maps to a code the ledger can count. */
  predicate Countable(maps: Maps, e: Event)
    requires maps.Sound()
  {
    e.Key? && !e.repeat ==> Usable(maps, e.key, e.id)
  }

  ghost predicate AllCountable(maps: Maps, es: seq<Event>)
    requires maps.Sound()
  {
    forall i :: 0 <= i < |es| ==> Countable(maps, es[i])
  }

  /** syn_key_cb and syn_active_cb */
  function Feed(maps: Maps, l: Ledger, e: Event): Ledger
    requires maps.Sound() && Countable(maps, e)
  {
    match e
    case Key(key, id, _, down, repeat) => if repeat then l else Press(maps, l, key, id, down)
    case Active(on) => if on then l else ReleaseAll(l)
    case ClipData(_, _, _) => l
  }

  function FeedAll(maps: Maps, l: Ledger, es: seq<Event>): Ledger
    requires maps.Sound() && AllCountable(maps, es)
  {
    if es == [] then l else Feed(maps, FeedAll(maps, l, es[..|es| - 1]), es[|es| - 1])
  }

  lemma FeedOne(maps: Maps, l: Ledger, es: seq<Event>, e: Event)
    requires maps.Sound() && AllCountable(maps, es) && Countable(maps, e)
    ensures AllCountable(maps, es + [e])
    ensures FeedAll(maps, l, es + [e]) == Feed(maps, FeedAll(maps, l, es), e)
  {
    assert (es + [e])[..|es|] == es;
  }

  /** Whatever is announced, every key's count is its presses less its releases. */
  lemma {:induction false} FeedAllBalanced(maps: Maps, l: Ledger, es: seq<Event>)
    requires maps.Sound() && AllCountable(maps, es) && l.Balanced()
    ensures FeedAll(maps, l, es).Balanced()
    decreases |es|
  {
    if es != [] {
      var before, e := es[..|es| - 1], es[|es| - 1];
      FeedAllBalanced(maps, l, before);
      var m := FeedAll(maps, l, before);
      match e {
        case Key(key, id, _, down, repeat) =>
          if !repeat && MapKey(maps, key, id) != -1 {
            RawKeepsBalance(m, MapKey(maps, key, id), down);
          }
        case Active(on) => ReleaseAllFrees(m);
        case ClipData(_, _, _) =>
      }
    }
  }

  /** A message with a given tag and at least n octets. */
  predicate IsMessage(body: seq<byte>, tag: nat, n: nat) {
    n >= 4 && |body| >= n && Be32(body) == tag
  }

  lemma LeaveAnnounced(env: Env, st: State, body: seq<byte>)
    requires st.Sound() && IsMessage(body, COUT, 4)
    ensures Admissible(body)
    ensures Process(env, st, body).events == st.events + [Active(false)]
  {
    hide ReleaseFirst;
    TagIsNoWelcome(body);
    assert Branch(env, st, body) == OnLeave(st);
  }

  /** When a leave message has been dispatched, in whatever state, no key is held. */
  lemma LeaveFreesKeys(env: Env, st: State, body: seq<byte>, maps: Maps, l: Ledger)
    requires st.Sound() && IsMessage(body, COUT, 4)
    requires maps.Sound() && AllCountable(maps, st.events) && l.Balanced()
    ensures Admissible(body) && AllCountable(maps, Process(env, st, body).events)
    ensures var r := FeedAll(maps, l, Process(env, st, body).events);
      forall key :: Keys.Net(r.trace, key) == 0 && r.Count(key) == 0
  {
    hide Process, Admissible;
    LeaveAnnounced(env, st, body);
    FeedOne(maps, l, st.events, Active(false));
    FeedAllBalanced(maps, l, st.events);
    ReleaseAllFrees(FeedAll(maps, l, st.events));
  }

  /** Whole-run key safety: whatever happened before, when the screen has been left the
      backend holds no key. */
  lemma NoKeyHeldAfterLeave(env: Env, ops: seq<Op>, body: seq<byte>, maps: Maps, l: Ledger)
    requires AllAllowed(ops) && IsMessage(body, COUT, 4) && After(env, ops).connected
    requires maps.Sound() && AllCountable(maps, After(env, ops).events) && l.Balanced()
    ensures Admissible(body) && AllCountable(maps, Perform(env, After(env, ops), Message(body)).events)
    ensures var r := FeedAll(maps, l, Perform(env, After(env, ops), Message(body)).events);
      forall key :: Keys.Net(r.trace, key) == 0 && r.Count(key) == 0
  {
    hide Process, Admissible, After, FeedAll;
    LeaveFreesKeys(env, After(env, ops), body, maps, l);
  }

  lemma KeyAnnounced(env: Env, st: State, body: seq<byte>, down: bool)
    requires st.Sound() && IsMessage(body, if down then DKDN else DKUP, 10)
    ensures Admissible(body)
    ensures var key := Key(if env.rawKeys then Be16(body[8..]) else Be16(body[4..]),
                           Be16(body[4..]), Be16(body[6..]), down, false);
      && Process(env, st, body).events == st.events + [key]
      && Process(env, st, body).connected == st.connected
  {
    TagIsNoWelcome(body);
    assert Branch(env, st, body) == OnKey(env, st, body, down);
  }

  /** A key message reaches the backend as the key the tables map it to. */
  lemma KeyReaches(env: Env, st: State, m: seq<byte>, down: bool, maps: Maps, l: Ledger, code: nat)
    requires st.Sound() && maps.Sound() && AllCountable(maps, st.events)
    requires Says(m, if down then "DKDN" else "DKUP") && |m| >= 10
    requires MapsTo(maps, if env.rawKeys then Be16(m[8..]) else Be16(m[4..]), Be16(m[4..]), code)
    ensures Admissible(m) && AllCountable(maps, Process(env, st, m).events)
    ensures var before, after := FeedAll(maps, l, st.events), FeedAll(maps, l, Process(env, st, m).events);
      && after.trace == before.trace + (if down || before.Count(code) > 0 then [Stroke(code, down)] else [])
      && forall k: nat :: k != code ==> after.Count(k) == before.Count(k)
  {
    hide Process, Admissible, Says, Press, Be16;
    KeyTaken(env, st, m, down);
    var id, mods, key := Be16(m[4..]), Be16(m[6..]), Be16(m[8..]);
    var e := Key(if env.rawKeys then key else id, id, mods, down, false);
    PressEmits(maps, FeedAll(maps, l, st.events), e.key, id, code, down);
    FeedOne(maps, l, st.events, e);
  }

  /** Entering the screen releases nothing, and clipboard data is no matter of keys. */
  lemma OthersKeepKeys(maps: Maps, l: Ledger, e: Event)
    requires maps.Sound() && !e.Key? && e != Active(false)
    ensures Countable(maps, e) && Feed(maps, l, e) == l
  {
  }

  /** Repeats of a held key do not reach the ledger. */
  lemma RepeatIgnored(env: Env, st: State, body: seq<byte>, maps: Maps, l: Ledger)
    requires st.Sound() && IsMessage(body, DKRP, 4) && maps.Sound() && AllCountable(maps, st.events)
    ensures Admissible(body) && AllCountable(maps, Process(env, st, body).events)
    ensures FeedAll(maps, l, Process(env, st, body).events) == FeedAll(maps, l, st.events)
  {
    TagIsNoWelcome(body);
    assert Branch(env, st, body) == OnKeyRepeat(env, st, body);
    if |body| >= 12 {
      FeedOne(maps, l, st.events, Process(env, st, body).events[|st.events|]);
    }
  }

  /** A press and a release of the same key and identifier go through the same mapping:
      together they leave every count as it was, and the backend sees the pair of the mapped
      key, or nothing if there is none. */
  lemma PressThenRelease(env: Env, st: State, press: seq<byte>, release: seq<byte>, maps: Maps, l: Ledger)
    requires st.Sound() && maps.Sound() && AllCountable(maps, st.events)
    requires IsMessage(press, DKDN, 10) && IsMessage(release, DKUP, 10)
    requires Be16(press[4..]) == Be16(release[4..]) && Be16(press[8..]) == Be16(release[8..])
    requires Usable(maps, if env.rawKeys then Be16(press[8..]) else Be16(press[4..]), Be16(press[4..]))
    ensures Admissible(press) && Admissible(release)
    ensures AllCountable(maps, Process(env, Process(env, st, press), release).events)
    ensures var m := FeedAll(maps, l, st.events);
      var r := FeedAll(maps, l, Process(env, Process(env, st, press), release).events);
      && (forall k :: r.Count(k) == m.Count(k))
      && var key, id := if env.rawKeys then Be16(press[8..]) else Be16(press[4..]), Be16(press[4..]);
         && (forall code: nat :: MapsTo(maps, key, id, code) ==>
               r.trace == m.trace + [Stroke(code, true), Stroke(code, false)])
         && ((forall code: nat :: !MapsTo(maps, key, id, code)) ==> r.trace == m.trace)
  {
    hide Process, Admissible, Raw;
    KeyAnnounced(env, st, press, true);
    var st1 := Process(env, st, press);
    KeyAnnounced(env, st1, release, false);
    var st2 := Process(env, st1, release);
    var down, up := st1.events[|st.events|], st2.events[|st1.events|];
    FeedOne(maps, l, st.events, down);
    FeedOne(maps, l, st1.events, up);
    var m, code := FeedAll(maps, l, st.events), MapKey(maps, down.key, down.id);
    if code != -1 {
      forall k ensures Raw(Raw(m, code, true), code, false).Count(k) == m.Count(k) {
        PressRelease(m, code, k);
      }
      PressRelease(m, code, 0);
      assert MapsTo(maps, down.key, down.id, code);
    }
  }

  /** No step that loses the connection lets keys go, be it a closing message, a greeting that
      cannot be answered, a failed read or the network: what is held then stays held. */
  lemma LosingKeepsKeys(env: Env, st: State, op: Op, maps: Maps, l: Ledger)
    requires st.Sound() && Allowed(op) && st.connected && !Perform(env, st, op).connected
    requires maps.Sound() && AllCountable(maps, st.events)
    ensures Perform(env, st, op).events == st.events
    ensures FeedAll(maps, l, Perform(env, st, op).events) == FeedAll(maps, l, st.events)
  {
    hide Branch, Admissible, FeedAll, InfoReply, HelloDraft;
    match op {
      case Message(body) =>
        if Welcome(body).None? && |body| >= 4 {
          BranchKeepsConnection(env, st, body);
        }
      case _ =>
    }
  }

  /** Closing messages do lose it. */
  lemma ClosingLoses(env: Env, st: State, body: seq<byte>)
    requires st.Sound() && Closing(body).Some?
    ensures Admissible(body) && !Process(env, st, body).connected
  {
  }

  /** The callbacks in the order the engine makes them. */
  method Deliver(input: KeyInput, es: seq<Event>)
    requires input.Mapping().Sound() && AllCountable(input.Mapping(), es)
    modifies input, input.pressed
    ensures input.View() == FeedAll(old(input.Mapping()), old(input.View()), es)
  {
    ghost var maps, l := input.Mapping(), input.View();
    var i := 0;
    while i < |es|
      invariant 0 <= i <= |es| && input.Mapping() == maps
      invariant input.pressed == old(input.pressed) || fresh(input.pressed)
      invariant input.View() == FeedAll(maps, l, es[..i])
    {
      assert es[..i + 1] == es[..i] + [es[i]];
      FeedOne(maps, l, es[..i], es[i]);
      match es[i] {
        case Key(key, id, _, down, repeat) =>
          if !repeat {
            input.Key(key, id, down);
          }
        case Active(on) =>
          if !on {
            input.ReleaseAllKeys();
          }
        case ClipData(_, _, _) =>
      }
      i := i + 1;
    }
    assert es[..|es|] == es;
  }
}
