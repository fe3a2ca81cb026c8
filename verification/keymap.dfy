/**
 The two-pass keymap loaders of src/wl_input.c: a table sized by a first pass over the
 settings and filled by a second one refines a map in which the last setting wins.
 */
module Keymap {
  import opened Basics
  import opened Keys

  /** A name and a value of a configuration section, as strtol reads them; None is text
      that is no number. */
  datatype Setting = Setting(key: Option<int>, value: Option<int>)

  /** Keys that can index a table, values that can be key codes. */
  predicate Readable(settings: seq<Setting>) {
    forall i :: 0 <= i < |settings| ==>
      && (settings[i].key.Some? ==> settings[i].key.value >= 0)
      && (settings[i].value.Some? ==> settings[i].value.value >= -1)
  }

  /** The value of the last setting for a key. */
  function LastValue(settings: seq<Setting>, key: nat): Option<int> {
    if settings == [] then None
    else
      var last := settings[|settings| - 1];
      if last.key == Some(key) && last.value.Some? then last.value
      else LastValue(settings[..|settings| - 1], key)
  }

  /** First pass: the table covers every key that is a number. */
  function TableSize(base: nat, settings: seq<Setting>): nat
    requires Readable(settings)
  {
    if settings == [] then base
    else
      var size, last := TableSize(base, settings[..|settings| - 1]), settings[|settings| - 1];
      if last.key.Some? && last.key.value >= size then last.key.value + 1 else size
  }

  lemma {:induction false} TableCovers(base: nat, settings: seq<Setting>, i: nat)
    requires Readable(settings) && i < |settings| && settings[i].key.Some?
    ensures settings[i].key.value < TableSize(base, settings)
    decreases |settings|
  {
    if i < |settings| - 1 {
      TableCovers(base, settings[..|settings| - 1], i);
    }
  }

  /** The length of the press table after one more value: a value of -1, compared as an
      unsigned number, starts the length over. */
  function PressLength(len: nat, settings: seq<Setting>): nat
    requires Readable(settings)
  {
    if settings == [] then len
    else
      var n, last := PressLength(len, settings[..|settings| - 1]), settings[|settings| - 1];
      if last.key.Some? && last.value.Some? && (last.value.value < 0 || last.value.value >= n)
      then last.value.value + 1 else n
  }

  /** The entry of the raw keymap: the last explicit value, or the key itself, shifted. */
  function RawEntry(settings: seq<Setting>, offset: int, onExplicit: bool, key: nat): int {
    match LastValue(settings, key)
    case None => key + offset
    case Some(v) => v + if onExplicit then offset else 0
  }

  lemma Snoc(settings: seq<Setting>, i: nat)
    requires i < |settings|
    ensures settings[..i + 1][..i] == settings[..i] && settings[..i + 1][i] == settings[i]
  {
  }

  method CountKeys(base: nat, settings: seq<Setting>) returns (size: nat)
    requires Readable(settings)
    ensures size == TableSize(base, settings)
  {
    size := base;
    var i := 0;
    while i < |settings|
      invariant 0 <= i <= |settings| && size == TableSize(base, settings[..i])
    {
      Snoc(settings, i);
      var key := settings[i].key;
      if key.Some? {
        if key.value >= size {
          size := key.value + 1;
        }
      }
      i := i + 1;
    }
    assert settings[..|settings|] == settings;
  }

  /** load_raw_keymap; a missing section is one without settings. */
  method LoadRaw(maxKeycode: nat, settings: seq<Setting>, offset: int, onExplicit: bool, len: nat)
    returns (table: array<int>, pressLen: nat)
    requires Readable(settings)
    ensures fresh(table) && table.Length == TableSize(maxKeycode + 1, settings)
    ensures forall k :: 0 <= k < table.Length ==> table[k] == RawEntry(settings, offset, onExplicit, k)
    ensures pressLen == PressLength(len, settings)
  {
    var count := CountKeys(maxKeycode + 1, settings);
    table := new int[count];
    var i := 0;
    while i < count
      invariant 0 <= i <= count
      invariant forall k :: 0 <= k < i ==> table[k] == k + offset
    {
      table[i] := i + offset;
      i := i + 1;
    }
    pressLen := len;
    i := 0;
    while i < |settings|
      invariant 0 <= i <= |settings|
      invariant forall k :: 0 <= k < count ==> table[k] == RawEntry(settings[..i], offset, onExplicit, k)
      invariant pressLen == PressLength(len, settings[..i])
    {
      Snoc(settings, i);
      var s := settings[i];
      if s.key.Some? && s.value.Some? {
        TableCovers(maxKeycode + 1, settings, i);
        table[s.key.value] := s.value.value + if onExplicit then offset else 0;
        if s.value.value < 0 || s.value.value >= pressLen {
          pressLen := s.value.value + 1;
        }
      }
      i := i + 1;
    }
    assert settings[..|settings|] == settings;
  }

  const ID_BASE: nat := 0xF000

  /** load_id_keymap */
  method LoadIds(settings: seq<Setting>, len: nat)
    returns (table: array<int>, valid: array<bool>, pressLen: nat)
    requires Readable(settings)
    ensures fresh(table) && fresh(valid) && table.Length == valid.Length == TableSize(ID_BASE, settings)
    ensures forall k :: 0 <= k < table.Length ==>
      valid[k] == LastValue(settings, k).Some? && table[k] == if valid[k] then LastValue(settings, k).value else 0
    ensures pressLen == PressLength(len, settings)
  {
    var count := CountKeys(ID_BASE, settings);
    table := new int[count](_ => 0);
    valid := new bool[count](_ => false);
    pressLen := len;
    var i := 0;
    while i < |settings|
      invariant 0 <= i <= |settings|
      invariant forall k :: 0 <= k < count ==>
        var v := LastValue(settings[..i], k);
        valid[k] == v.Some? && table[k] == if v.Some? then v.value else 0
      invariant pressLen == PressLength(len, settings[..i])
    {
      Snoc(settings, i);
      var s := settings[i];
      if s.key.Some? && s.value.Some? {
        TableCovers(ID_BASE, settings, i);
        table[s.key.value] := s.value.value;
        valid[s.key.value] := true;
        if s.value.value < 0 || s.value.value >= pressLen {
          pressLen := s.value.value + 1;
        }
      }
      i := i + 1;
    }
    assert settings[..|settings|] == settings;
  }

  lemma {:induction false} LastValueGiven(settings: seq<Setting>, key: nat)
    requires Readable(settings) && LastValue(settings, key).Some?
    ensures exists i :: 0 <= i < |settings| && settings[i].key == Some(key)
    decreases |settings|
  {
    var n := |settings| - 1;
    if settings[n].key != Some(key) || settings[n].value.None? {
      LastValueGiven(settings[..n], key);
      var i :| 0 <= i < n && settings[..n][i].key == Some(key);
      assert settings[i].key == Some(key);
    }
  }

  /** A setting with both numbers readable. */
  predicate Sets(s: Setting, key: nat, value: int) {
    s.key == Some(key) && s.value == Some(value)
  }

  ghost predicate Unset(settings: seq<Setting>, key: nat) {
    forall i, v :: 0 <= i < |settings| ==> !Sets(settings[i], key, v)
  }

  /** The i-th setting gives a key its value, and none after it gives it another. */
  ghost predicate Decides(settings: seq<Setting>, i: nat, key: nat, value: int) {
    && i < |settings| && Sets(settings[i], key, value)
    && forall j, v :: i < j < |settings| ==> !Sets(settings[j], key, v)
  }

  lemma {:induction false} UnsetHasNone(settings: seq<Setting>, key: nat)
    requires Unset(settings, key)
    ensures LastValue(settings, key) == None
  {
    if settings != [] {
      var n := |settings| - 1;
      assert forall i :: 0 <= i < n ==> settings[..n][i] == settings[i];
      UnsetHasNone(settings[..n], key);
      if settings[n].value.Some? {
        assert !Sets(settings[n], key, settings[n].value.value);
      }
    }
  }

  lemma {:induction false} DecidesIsLast(settings: seq<Setting>, i: nat, key: nat, value: int)
    requires Decides(settings, i, key, value)
    ensures LastValue(settings, key) == Some(value)
    decreases |settings|
  {
    var n := |settings| - 1;
    if i < n {
      assert forall j :: 0 <= j < n ==> settings[..n][j] == settings[j];
      if settings[n].value.Some? && settings[n].value != Some(value) {
        assert !Sets(settings[n], key, settings[n].value.value);
      }
      DecidesIsLast(settings[..n], i, key, value);
    }
  }

  /** The entry of an unmapped key is the key plus the offset; that of a mapped one the last
      value given, with the offset or without it as configured. */
  lemma EntryIs(settings: seq<Setting>, offset: int, onExplicit: bool, key: nat, i: nat, value: int)
    ensures Unset(settings, key) ==> RawEntry(settings, offset, onExplicit, key) == key + offset
    ensures Decides(settings, i, key, value) ==>
      RawEntry(settings, offset, onExplicit, key) == if onExplicit then value + offset else value
  {
    if Unset(settings, key) {
      UnsetHasNone(settings, key);
    }
    if Decides(settings, i, key, value) {
      DecidesIsLast(settings, i, key, value);
    }
  }

  /** The first pass makes the table no longer than its base, or the greatest key, needs. */
  lemma {:induction false} TableExact(base: nat, settings: seq<Setting>)
    requires Readable(settings)
    ensures TableSize(base, settings) >= base
    ensures TableSize(base, settings) == base
      || exists i :: 0 <= i < |settings| && settings[i].key == Some(TableSize(base, settings) - 1)
  {
    if settings != [] {
      var n := |settings| - 1;
      TableExact(base, settings[..n]);
      if TableSize(base, settings) == TableSize(base, settings[..n]) && TableSize(base, settings) != base {
        var i :| 0 <= i < n && settings[..n][i].key == Some(TableSize(base, settings) - 1);
        assert settings[i].key == Some(TableSize(base, settings) - 1);
      } else if TableSize(base, settings) != base {
        assert settings[n].key == Some(TableSize(base, settings) - 1);
      }
    }
  }

  /** A setting takes part in sizing the press table. */
  predicate Counts(s: Setting) {
    s.key.Some? && s.value.Some?
  }

  /** As long as no value is -1, the press table covers every value given, and is no longer
      than its start or the greatest of them needs; a value of -1 starts it over. */
  lemma {:induction false} PressLengthIs(len: nat, settings: seq<Setting>)
    requires Readable(settings)
    ensures var n := PressLength(len, settings);
      (forall i :: 0 <= i < |settings| && Counts(settings[i]) ==> settings[i].value != Some(-1)) ==>
        && n >= len
        && (forall i :: 0 <= i < |settings| && Counts(settings[i]) ==> settings[i].value.value < n)
        && (n == len || exists i :: 0 <= i < |settings| && Counts(settings[i]) && settings[i].value == Some(n - 1))
    ensures settings != [] && Counts(settings[|settings| - 1]) && settings[|settings| - 1].value == Some(-1) ==>
      PressLength(len, settings) == 0
  {
    if settings != [] {
      var k := |settings| - 1;
      var front := settings[..k];
      PressLengthIs(len, front);
      assert forall i :: 0 <= i < k ==> front[i] == settings[i];
      if forall i :: 0 <= i < |settings| && Counts(settings[i]) ==> settings[i].value != Some(-1) {
        var n, m := PressLength(len, settings), PressLength(len, front);
        if n == m && n != len {
          var i :| 0 <= i < k && Counts(front[i]) && front[i].value == Some(m - 1);
          assert Counts(settings[i]) && settings[i].value == Some(n - 1);
        } else if n != m {
          assert Counts(settings[k]) && settings[k].value == Some(n - 1);
        }
      }
    }
  }

  /** What the settings say about a key with an identifier. */
  function Configured(maxKeycode: nat, raws: seq<Setting>, offset: int, onExplicit: bool,
                      ids: seq<Setting>, key: nat, id: nat): int
    requires Readable(raws)
  {
    match LastValue(ids, id)
    case Some(v) => v
    case None =>
      if key < TableSize(maxKeycode + 1, raws) then RawEntry(raws, offset, onExplicit, key) else -1
  }

  /** A key above the greatest of the keyboard and above all configured ones. */
  ghost predicate Beyond(raws: seq<Setting>, maxKeycode: nat, key: nat) {
    key > maxKeycode && forall j :: 0 <= j < |raws| && raws[j].key.Some? ==> raws[j].key.value < key
  }

  /** The same without reference to tables: a setting for the identifier decides; without one,
      a setting for the key does; without any, a key within the table is shifted and one
      beyond it is dropped. */
  lemma ConfiguredIs(maxKeycode: nat, raws: seq<Setting>, offset: int, onExplicit: bool,
                     ids: seq<Setting>, key: nat, id: nat, i: nat, v: int)
    requires Readable(raws) && Readable(ids)
    ensures var code := Configured(maxKeycode, raws, offset, onExplicit, ids, key, id);
      && (Decides(ids, i, id, v) ==> code == v)
      && (Unset(ids, id) && Decides(raws, i, key, v) ==> code == if onExplicit then v + offset else v)
      && (Unset(ids, id) && Unset(raws, key) && key <= maxKeycode ==> code == key + offset)
      && (Unset(ids, id) && Beyond(raws, maxKeycode, key) ==> code == -1)
  {
    EntryIs(raws, offset, onExplicit, key, i, v);
    TableExact(maxKeycode + 1, raws);
    if Decides(ids, i, id, v) {
      DecidesIsLast(ids, i, id, v);
    }
    if Unset(ids, id) {
      UnsetHasNone(ids, id);
    }
    if Decides(raws, i, key, v) {
      TableCovers(maxKeycode + 1, raws, i);
    }
  }

  /** The tables taken together answer for every key and identifier as the settings do. */
  lemma TablesRefineSettings(maps: Maps, maxKeycode: nat, raws: seq<Setting>, offset: int, onExplicit: bool,
                             ids: seq<Setting>, key: nat, id: nat)
    requires Readable(raws) && Readable(ids) && maps.Sound()
    requires |maps.raw| == TableSize(maxKeycode + 1, raws) && |maps.ids| == TableSize(ID_BASE, ids)
    requires forall k :: 0 <= k < |maps.raw| ==> maps.raw[k] == RawEntry(raws, offset, onExplicit, k)
    requires forall k :: 0 <= k < |maps.ids| ==>
      maps.valid[k] == LastValue(ids, k).Some? && (maps.valid[k] ==> maps.ids[k] == LastValue(ids, k).value)
    ensures MapKey(maps, key, id) == Configured(maxKeycode, raws, offset, onExplicit, ids, key, id)
  {
    if LastValue(ids, id).Some? {
      LastValueGiven(ids, id);
      var i :| 0 <= i < |ids| && ids[i].key == Some(id);
      TableCovers(ID_BASE, ids, i);
    }
  }

  /** wlKeySetConfigLayout */
  method SetLayout(maxKeycode: nat, raws: seq<Setting>, offset: int, onExplicit: bool, ids: seq<Setting>)
    returns (input: KeyInput)
    requires Readable(raws) && Readable(ids)
    ensures fresh(input) && input.Valid() && input.trace == []
    ensures forall key: nat, id: nat ::
      MapKey(input.Mapping(), key, id) == Configured(maxKeycode, raws, offset, onExplicit, ids, key, id)
  {
    var raw, len := LoadRaw(maxKeycode, raws, offset, onExplicit, 0);
    var idMap, valid;
    idMap, valid, len := LoadIds(ids, len);
    input := new KeyInput(raw, idMap, valid, len);
    EmptyBalanced(len);
    forall key: nat, id: nat
      ensures MapKey(input.Mapping(), key, id) == Configured(maxKeycode, raws, offset, onExplicit, ids, key, id)
    {
      TablesRefineSettings(input.Mapping(), maxKeycode, raws, offset, onExplicit, ids, key, id);
    }
  }
}
