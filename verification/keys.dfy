/**
 The key ledger of src/wl_input.c: how often each raw key is held, kept so that every key
 can be let go when the screen is left.
 */
module Keys {

  /** A call of the input backend. */
  datatype Stroke = Stroke(key: nat, down: bool)

  /** Presses minus releases of a key. */
  function Net(trace: seq<Stroke>, key: nat): int {
    if trace == [] then 0
    else
      var last := trace[|trace| - 1];
      Net(trace[..|trace| - 1], key) + if last.key != key then 0 else if last.down then 1 else -1
  }

  lemma NetLast(trace: seq<Stroke>, last: Stroke, key: nat)
    ensures Net(trace + [last], key)
      == Net(trace, key) + if last.key != key then 0 else if last.down then 1 else -1
  {
    assert (trace + [last])[..|trace|] == trace;
  }

  /** No key has been released more often than pressed, at any time. */
  ghost predicate NeverNegative(trace: seq<Stroke>) {
    forall n, key :: 0 <= n <= |trace| ==> Net(trace[..n], key) >= 0
  }

  datatype Ledger = Ledger(counts: seq<nat>, trace: seq<Stroke>) {

    function Count(key: nat): nat {
      if key < |counts| then counts[key] else 0
    }

    /** Every key's count is what the backend has been told about it. */
    ghost predicate Balanced() {
      (forall key :: Count(key) == Net(trace, key)) && NeverNegative(trace)
    }
  }

  lemma EmptyBalanced(n: nat)
    ensures Ledger(seq(n, _ => 0), []).Balanced()
  {
  }

  /** The table made long enough for a key. */
  function Grown(counts: seq<nat>, key: nat): (r: seq<nat>)
    ensures |r| > key && |r| >= |counts|
  {
    if key < |counts| then counts else counts + seq(key + 1 - |counts|, _ => 0)
  }

  /** wlKeyRaw */
  function Raw(l: Ledger, key: nat, down: bool): (r: Ledger)
    ensures |r.counts| > key && |r.counts| >= |l.counts|
  {
    var counts := Grown(l.counts, key);
    if counts[key] == 0 && !down then Ledger(counts, l.trace)
    else
      var count := if down then counts[key] + 1 else counts[key] - 1;
      Ledger(counts[key := count], l.trace + [Stroke(key, down)])
  }

  lemma RawCounts(l: Ledger, key: nat, down: bool, k: nat)
    ensures Raw(l, key, down).Count(k)
      == if k != key then l.Count(k) else if down then l.Count(k) + 1
         else if l.Count(k) == 0 then 0 else l.Count(k) - 1
  {
  }

  lemma RawKeepsBalance(l: Ledger, key: nat, down: bool)
    requires l.Balanced()
    ensures Raw(l, key, down).Balanced()
  {
    var r, stroke := Raw(l, key, down), Stroke(key, down);
    forall k ensures r.Count(k) == Net(r.trace, k) >= 0 {
      RawCounts(l, key, down, k);
      NetLast(l.trace, stroke, k);
      assert l.Count(k) == Net(l.trace, k);
    }
    forall n, k | 0 <= n <= |r.trace| ensures Net(r.trace[..n], k) >= 0 {
      if n <= |l.trace| {
        assert r.trace[..n] == l.trace[..n];
      } else {
        assert r.trace[..n] == r.trace;
      }
    }
  }

  /** A release undoes a press. */
  lemma PressRelease(l: Ledger, key: nat, k: nat)
    ensures var r := Raw(Raw(l, key, true), key, false);
      && r.trace == l.trace + [Stroke(key, true), Stroke(key, false)]
      && r.Count(k) == l.Count(k)
  {
    RawCounts(l, key, true, k);
    RawCounts(Raw(l, key, true), key, false, k);
    RawCounts(l, key, true, key);
    assert l.trace + [Stroke(key, true)] + [Stroke(key, false)] == l.trace + [Stroke(key, true), Stroke(key, false)];
  }

  // ---------------------------------------------------------------- release all

  /** n releases of a key. */
  function Releases(key: nat, n: nat): seq<Stroke> {
    seq(n, _ => Stroke(key, false))
  }

  /** The releases outstanding for the keys below n, in the order of the keys. */
  function Outstanding(counts: seq<nat>, n: nat): seq<Stroke>
    requires n <= |counts|
  {
    if n == 0 then [] else Outstanding(counts, n - 1) + Releases(n - 1, counts[n - 1])
  }

  function Zeros(n: nat): seq<nat> {
    seq(n, _ => 0)
  }

  /** wlKeyReleaseAll: exactly the outstanding releases, and nothing is held after. */
  function ReleaseAll(l: Ledger): Ledger {
    Ledger(Zeros(|l.counts|), l.trace + Outstanding(l.counts, |l.counts|))
  }

  lemma {:induction false} ReleasingBalances(l: Ledger, key: nat, n: nat)
    requires l.Balanced() && key < |l.counts| && n <= l.counts[key]
    ensures Ledger(l.counts[key := l.counts[key] - n], l.trace + Releases(key, n)).Balanced()
  {
    if n == 0 {
      assert l.trace + [] == l.trace;
    } else {
      ReleasingBalances(l, key, n - 1);
      var m := Ledger(l.counts[key := l.counts[key] - (n - 1)], l.trace + Releases(key, n - 1));
      RawKeepsBalance(m, key, false);
      assert Releases(key, n) == Releases(key, n - 1) + [Stroke(key, false)];
      assert l.trace + Releases(key, n) == l.trace + Releases(key, n - 1) + [Stroke(key, false)];
    }
  }

  /** The ledger once the keys below n are let go. */
  function Released(l: Ledger, n: nat): Ledger
    requires n <= |l.counts|
  {
    Ledger(Zeros(n) + l.counts[n..], l.trace + Outstanding(l.counts, n))
  }

  lemma ReleasedEnds(l: Ledger)
    ensures Released(l, 0) == l && Released(l, |l.counts|) == ReleaseAll(l)
  {
  }

  lemma ReleasedNext(l: Ledger, n: nat)
    requires n < |l.counts|
    ensures var m := Released(l, n);
      && |m.counts| == |l.counts| && m.counts[n] == l.counts[n]
      && Released(l, n + 1) == Ledger(m.counts[n := 0], m.trace + Releases(n, l.counts[n]))
  {
    assert Zeros(n + 1) == Zeros(n) + [0];
    assert Released(l, n + 1).counts == Released(l, n).counts[n := 0];
    assert l.trace + (Outstanding(l.counts, n) + Releases(n, l.counts[n]))
        == l.trace + Outstanding(l.counts, n) + Releases(n, l.counts[n]);
  }

  lemma {:induction false} ReleasedBalances(l: Ledger, n: nat)
    requires l.Balanced() && n <= |l.counts|
    ensures Released(l, n).Balanced()
  {
    if n == 0 {
      ReleasedEnds(l);
    } else {
      ReleasedBalances(l, n - 1);
      ReleasedNext(l, n - 1);
      ReleasingBalances(Released(l, n - 1), n - 1, l.counts[n - 1]);
    }
  }

  /** After a release of all keys the backend holds none, whatever was pressed before. */
  lemma ReleaseAllFrees(l: Ledger)
    requires l.Balanced()
    ensures ReleaseAll(l).Balanced()
    ensures forall key :: Net(ReleaseAll(l).trace, key) == 0
  {
    var r := ReleaseAll(l);
    ReleasedEnds(l);
    ReleasedBalances(l, |l.counts|);
    forall key ensures Net(r.trace, key) == 0 {
      assert r.Count(key) == Net(r.trace, key);
    }
  }

  // ---------------------------------------------------------------- mapping

  /** The two keymaps: raw keys by position, and identifiers where marked valid. */
  datatype Maps = Maps(raw: seq<int>, ids: seq<int>, valid: seq<bool>) {
    predicate Sound() {
      |ids| == |valid|
    }
  }

  /** The key code for a key and identifier: the valid id entry, else the raw entry, else
      none; -1 means none. */
  function MapKey(maps: Maps, key: nat, id: nat): int
    requires maps.Sound()
  {
    if id < |maps.ids| && maps.valid[id] then maps.ids[id]
    else if key < |maps.raw| then maps.raw[key]
    else -1
  }

  /** The code is one the program can count: for codes below -1 the allocation of the press
      table fails and it aborts. */
  predicate Usable(maps: Maps, key: nat, id: nat)
    requires maps.Sound()
  {
    MapKey(maps, key, id) >= -1
  }

  /** wlKey */
  function Press(maps: Maps, l: Ledger, key: nat, id: nat, down: bool): Ledger
    requires maps.Sound() && Usable(maps, key, id)
  {
    var code := MapKey(maps, key, id);
    if code == -1 then l else Raw(l, code, down)
  }

  /** An identifier marked valid goes before the key. */
  predicate ById(maps: Maps, id: nat)
    requires maps.Sound()
  {
    id < |maps.ids| && maps.valid[id]
  }

  /** What the tables hold for a key and an identifier. */
  predicate MapsTo(maps: Maps, key: nat, id: nat, code: int)
    requires maps.Sound()
  {
    if ById(maps, id) then maps.ids[id] == code else key < |maps.raw| && maps.raw[key] == code
  }

  /** A press reaches the backend as the mapped key, and no other; so does a release, if that
      key is held. */
  lemma PressEmits(maps: Maps, l: Ledger, key: nat, id: nat, code: nat, down: bool)
    requires maps.Sound() && MapsTo(maps, key, id, code)
    ensures Usable(maps, key, id)
    ensures Press(maps, l, key, id, down).trace
      == l.trace + if down || l.Count(code) > 0 then [Stroke(code, down)] else []
    ensures Press(maps, l, key, id, down).Count(code)
      == if down then l.Count(code) + 1 else if l.Count(code) > 0 then l.Count(code) - 1 else 0
    ensures forall k: nat :: k != code ==> Press(maps, l, key, id, down).Count(k) == l.Count(k)
  {
    forall k: nat ensures Raw(l, code, down).Count(k)
      == if k != code then l.Count(k) else if down then l.Count(k) + 1
         else if l.Count(k) == 0 then 0 else l.Count(k) - 1
    {
      RawCounts(l, code, down, k);
    }
    assert l.trace + [] == l.trace;
    assert Grown(l.counts, code)[code] == l.Count(code);
  }

  /** A key that is in no table, or is mapped to -1, reaches neither backend nor ledger. */
  lemma PressDrops(maps: Maps, l: Ledger, key: nat, id: nat, down: bool)
    requires maps.Sound()
    requires MapsTo(maps, key, id, -1) || (!ById(maps, id) && key >= |maps.raw|)
    ensures Usable(maps, key, id) && Press(maps, l, key, id, down) == l
  {
  }

  // ---------------------------------------------------------------- the state in place

  class KeyInput {
    var pressed: array<nat>       // key_press_state
    var rawMap: array<int>        // raw_keymap
    var idMap: array<int>         // id_keymap
    var idValid: array<bool>      // id_keymap_valid
    var trace: seq<Stroke>        // calls of the backend's key function

    ghost function View(): Ledger
      reads this, pressed
    {
      Ledger(pressed[..], trace)
    }

    ghost function Mapping(): Maps
      reads this, rawMap, idMap, idValid
    {
      Maps(rawMap[..], idMap[..], idValid[..])
    }

    ghost predicate Valid()
      reads this, pressed, rawMap, idMap, idValid
    {
      Mapping().Sound() && View().Balanced()
    }

    constructor (raw: array<int>, ids: array<int>, valid: array<bool>, len: nat)
      requires Maps(raw[..], ids[..], valid[..]).Sound()
      ensures View() == Ledger(Zeros(len), []) && Mapping() == Maps(raw[..], ids[..], valid[..])
      ensures fresh(pressed)
    {
      this.pressed := new nat[len](_ => 0);
      this.rawMap, this.idMap, this.idValid := raw, ids, valid;
      this.trace := [];
      new;
      assert pressed[..] == Zeros(len);
    }

    /** The resizing at the start of wlKeyRaw. */
    method Grow(key: nat)
      modifies this`pressed
      ensures pressed[..] == Grown(old(pressed[..]), key)
      ensures if key < old(pressed.Length) then pressed == old(pressed) else fresh(pressed)
    {
      if key >= pressed.Length {
        var was := pressed;
        var moved := new nat[key + 1];
        forall i | 0 <= i < was.Length {
          moved[i] := was[i];
        }
        var i := was.Length;
        while i < key + 1
          invariant was.Length <= i <= key + 1
          invariant forall k :: 0 <= k < was.Length ==> moved[k] == was[k]
          invariant forall k :: was.Length <= k < i ==> moved[k] == 0
          invariant was[..] == old(pressed[..])
        {
          moved[i] := 0;
          i := i + 1;
        }
        pressed := moved;
      }
    }

    /** wlKeyRaw */
    method KeyRaw(key: nat, down: bool)
      modifies this`pressed, this`trace, pressed
      ensures View() == Raw(old(View()), key, down)
      ensures if key < old(pressed.Length) then pressed == old(pressed) else fresh(pressed)
    {
      Grow(key);
      if pressed[key] == 0 && !down {
        return;
      }
      pressed[key] := if down then pressed[key] + 1 else pressed[key] - 1;
      trace := trace + [Stroke(key, down)];
    }

    /** wlKey: a key outside the configured map and a key mapped to -1 are dropped. */
    method Key(key: nat, id: nat, down: bool)
      requires Mapping().Sound() && Usable(Mapping(), key, id)
      modifies this`pressed, this`trace, pressed
      ensures View() == Press(old(Mapping()), old(View()), key, id, down)
      ensures Mapping() == old(Mapping()) && (pressed == old(pressed) || fresh(pressed))
    {
      var code: int := key;
      if id < idMap.Length && idValid[id] {
        code := idMap[id];
      } else {
        if key >= rawMap.Length {
          return;
        }
        code := rawMap[key];
      }
      if code == -1 {
        return;
      }
      KeyRaw(code, down);
    }

    /** The inner loop of wlKeyReleaseAll. */
    method ReleaseKey(key: nat)
      requires key < pressed.Length
      modifies this`pressed, this`trace, pressed
      ensures pressed == old(pressed)
      ensures pressed[..] == old(pressed[..])[key := 0]
      ensures trace == old(trace) + Releases(key, old(pressed[key]))
    {
      ghost var l, n := View(), 0;
      assert l.trace + Releases(key, 0) == l.trace;
      while pressed[key] != 0
        invariant pressed == old(pressed) && n + pressed[key] == l.counts[key]
        invariant pressed[..] == l.counts[key := l.counts[key] - n]
        invariant trace == l.trace + Releases(key, n)
        decreases pressed[key]
      {
        assert Releases(key, n + 1) == Releases(key, n) + [Stroke(key, false)];
        assert l.trace + Releases(key, n + 1) == l.trace + Releases(key, n) + [Stroke(key, false)];
        KeyRaw(key, false);
        n := n + 1;
      }
    }

    /** wlKeyReleaseAll */
    method ReleaseAllKeys()
      modifies this`pressed, this`trace, pressed
      ensures View() == ReleaseAll(old(View())) && pressed == old(pressed)
      ensures Mapping() == old(Mapping())
    {
      hide Released, Releases;
      ghost var l := View();
      ReleasedEnds(l);
      var i := 0;
      while i < pressed.Length
        invariant 0 <= i <= pressed.Length && pressed == old(pressed) && pressed.Length == |l.counts|
        invariant View() == Released(l, i)
      {
        ReleasedNext(l, i);
        ReleaseKey(i);
        i := i + 1;
      }
    }
  }
}
