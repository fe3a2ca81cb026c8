/**
 One clipboard of the protocol engine: its transfer buffer and state machine, and the
 multi-format encoding the buffer holds.
 */
module Clipboard {
  import opened Bytes
  import opened Ssp

  /** An entry of the encoding: a format number and the data in that format. */
  type Item = (nat, seq<byte>)

  const FORMAT_TEXT: nat := 0
  /** Octets before the data of a single-format buffer: count, format, size. */
  const TEXT_HEADER: nat := 12

  // ---------------------------------------------------------------- the encoding

  function EncodeItem(item: Item): seq<byte> {
    U32(item.0) + U32(|item.1|) + item.1
  }

  function EncodeItems(items: seq<Item>): seq<byte> {
    if items == [] then [] else EncodeItem(items[0]) + EncodeItems(items[1..])
  }

  function Encode(items: seq<Item>): seq<byte> {
    U32(|items|) + EncodeItems(items)
  }

  /** The buffer of a local update: one entry, in text format. */
  function EncodeText(data: seq<byte>): (s: seq<byte>)
    ensures |s| == TEXT_HEADER + |data|
  {
    U32(1) + EncodeItem((FORMAT_TEXT, data))
  }

  ghost predicate Encodable(items: seq<Item>) {
    |items| < TWO_32
    && forall i :: 0 <= i < |items| ==> items[i].0 < TWO_32 && |items[i].1| < TWO_32
  }

  /** Entries read so far, and whether reading got through. */
  datatype Parsed = Parsed(items: seq<Item>, ok: bool)

  predicate EntryFits(data: seq<byte>, pos: nat) {
    pos + 8 <= |data| && pos + 8 + Be32(data[pos + 4..]) <= |data|
  }

  function EntryAt(data: seq<byte>, pos: nat): (item: Item)
    requires EntryFits(data, pos)
    ensures |item.1| == Be32(data[pos + 4..])
  {
    (Be32(data[pos..]), data[pos + 8..pos + 8 + Be32(data[pos + 4..])])
  }

  function Extend(items: seq<Item>, p: Parsed): Parsed {
    Parsed(items + p.items, p.ok)
  }

  lemma ExtendTwice(items: seq<Item>, item: Item, p: Parsed)
    ensures Extend(items, Extend([item], p)) == Extend(items + [item], p)
  {
    assert items + ([item] + p.items) == items + [item] + p.items;
  }

  /** Reads n entries of data from pos. */
  function ReadItems(data: seq<byte>, pos: nat, n: nat): Parsed
    requires pos <= |data|
    decreases n
  {
    if n == 0 then Parsed([], true)
    else if !EntryFits(data, pos) then Parsed([], false)
    else
      var rest := ReadItems(data, pos + 8 + |EntryAt(data, pos).1|, n - 1);
      Extend([EntryAt(data, pos)], rest)
  }

  function ReadAll(data: seq<byte>): Parsed {
    if |data| < 4 then Parsed([], false) else ReadItems(data, 4, Be32(data))
  }

  lemma ItemAt(s: seq<byte>, item: Item)
    requires item.0 < TWO_32 && |item.1| < TWO_32
    requires EncodeItem(item) <= s
    ensures Be32(s) == item.0 && Be32(s[4..]) == |item.1|
    ensures s[8..8 + |item.1|] == item.1
  {
    var post := s[8 + |item.1|..];
    assert s == U32(item.0) + (U32(|item.1|) + item.1 + post);
    assert s[4..] == U32(|item.1|) + (item.1 + post);
    U32RoundTrip(item.0, U32(|item.1|) + item.1 + post);
    U32RoundTrip(|item.1|, item.1 + post);
  }

  /** The first of some encoded entries stands at its place, the others behind it. */
  lemma EntryStands(data: seq<byte>, pos: nat, items: seq<Item>)
    requires Encodable(items) && items != []
    requires pos <= |data| && EncodeItems(items) <= data[pos..]
    ensures EntryFits(data, pos) && EntryAt(data, pos) == items[0]
    ensures var next := pos + 8 + |items[0].1|;
      && next <= |data| && EncodeItems(items[1..]) <= data[next..]
      && pos + |EncodeItems(items)| == next + |EncodeItems(items[1..])|
  {
    var item, s := items[0], data[pos..];
    ItemAt(s, item);
    var next := pos + 8 + |item.1|;
    assert data[pos + 4..] == s[4..];
    assert data[next..] == s[|EncodeItem(item)|..];
    assert data[pos + 8..next] == s[8..8 + |item.1|];
    assert EncodeItems(items)[|EncodeItem(item)|..] == EncodeItems(items[1..]);
  }

  lemma {:induction false} ReadItemsInverts(data: seq<byte>, pos: nat, items: seq<Item>)
    requires Encodable(items)
    requires pos <= |data| && EncodeItems(items) <= data[pos..]
    ensures ReadItems(data, pos, |items|) == Parsed(items, true)
    decreases |items|
  {
    hide EntryFits, EntryAt, EncodeItems;
    if items != [] {
      EntryStands(data, pos, items);
      ReadItemsInverts(data, pos + 8 + |items[0].1|, items[1..]);
    }
  }

  /** Reading stops behind the last entry that fits, and keeps those before it. */
  lemma {:induction false} ReadItemsStops(data: seq<byte>, pos: nat, items: seq<Item>, n: nat)
    requires Encodable(items) && n > |items| && pos <= |data|
    requires EncodeItems(items) <= data[pos..] && !EntryFits(data, pos + |EncodeItems(items)|)
    ensures ReadItems(data, pos, n) == Parsed(items, false)
    decreases |items|
  {
    if items == [] {
      assert EncodeItems(items) == [];
    } else {
      hide EntryFits, EntryAt, EncodeItems;
      EntryStands(data, pos, items);
      var next, others := pos + 8 + |items[0].1|, items[1..];
      assert ReadItems(data, next, n - 1) == Parsed(others, false) by {
        ReadItemsStops(data, next, others, n - 1);
      }
      assert [items[0]] + others == items;
    }
  }

  lemma {:induction false} ReadItemsSound(data: seq<byte>, pos: nat, n: nat)
    requires pos <= |data|
    requires ReadItems(data, pos, n).ok
    ensures var items := ReadItems(data, pos, n).items;
      |items| == n && EncodeItems(items) <= data[pos..]
      && forall i :: 0 <= i < n ==> items[i].0 < TWO_32 && |items[i].1| < TWO_32
    decreases n
  {
    if n > 0 {
      var item := EntryAt(data, pos);
      var next := pos + 8 + |item.1|;
      ReadItemsSound(data, next, n - 1);
      EntryIsEncoded(data, pos);
      var rest := ReadItems(data, next, n - 1).items;
      assert ReadItems(data, pos, n).items == [item] + rest;
      assert EncodeItems([item] + rest) == EncodeItem(item) + EncodeItems(rest) by {
        assert ([item] + rest)[1..] == rest;
      }
      assert data[pos..] == data[pos..next] + data[next..];
    }
  }

  lemma EntryIsEncoded(data: seq<byte>, pos: nat)
    requires EntryFits(data, pos)
    ensures var item := EntryAt(data, pos);
      EncodeItem(item) == data[pos..pos + 8 + |item.1|]
  {
    Be32Prefix(data[pos..], []);
    Be32Prefix(data[pos + 4..], []);
    assert data[pos..][..4] == data[pos..pos + 4];
    assert data[pos + 4..][..4] == data[pos + 4..pos + 8];
  }

  /** Reading a buffer succeeds with exactly these entries just when the buffer starts
      with their encoding. */
  lemma ReadAllInvertsEncode(data: seq<byte>, items: seq<Item>)
    ensures ReadAll(data) == Parsed(items, true) <==> Encodable(items) && Encode(items) <= data
  {
    if ReadAll(data) == Parsed(items, true) {
      ReadItemsSound(data, 4, Be32(data));
      Be32Prefix(data, []);
      assert data == data[..4] + data[4..];
    }
    if Encodable(items) && Encode(items) <= data {
      assert data == U32(|items|) + data[4..];
      U32RoundTrip(|items|, data[4..]);
      assert Encode(items)[4..] == EncodeItems(items);
      ReadItemsInverts(data, 4, items);
    }
  }

  lemma EncodeTextIsEncode(data: seq<byte>)
    ensures EncodeText(data) == Encode([(FORMAT_TEXT, data)])
  {
    var items: seq<Item> := [(FORMAT_TEXT, data)];
    assert EncodeItems(items[1..]) == [];
    assert EncodeItems(items) == EncodeItem(items[0]);
  }

  // ---------------------------------------------------------------- the state machine

  /** The fields of one clipboard; |buf| is the size of the allocation, 0 standing for
      the null pointer. */
  datatype Clip = Clip(buf: seq<byte>, len: nat, pos: nat, expected: nat, inStream: bool, grabbed: bool) {

    /** What every access to the buffer relies on. `len` is raised by local updates
        only, hence it is a lower bound of the allocation and no more. */
    predicate Sound() {
      && len <= |buf|
      && (len == 0 || TEXT_HEADER <= len)
      && (inStream ==> pos <= expected <= |buf|)
      && (grabbed ==> pos <= len && pos < TWO_31)
      && !(grabbed && inStream)
    }
  }

  const EMPTY := Clip([], 0, 0, 0, false, false)

  /** realloc: the common prefix stays, octets beyond it are whatever the heap holds. */
  function Realloc(buf: seq<byte>, n: nat, junk: nat -> byte): (r: seq<byte>)
    ensures |r| == n
  {
    seq(n, i requires 0 <= i < n => if i < |buf| then buf[i] else junk(i))
  }

  /** DCLP start: a transfer of n octets begins. */
  function Start(c: Clip, n: nat, junk: nat -> byte): (r: Clip)
    requires c.Sound()
    ensures r.Sound() && r.inStream && r.pos == 0 && r.expected == n && r.len == c.len
  {
    var buf := if n > c.len then Realloc(c.buf, n, junk) else c.buf;
    Clip(buf, c.len, 0, n, true, false)
  }

  /** DCLP chunk within a transfer: n octets are announced, `rest` is what the message
      still holds. A short message advances the position without storing anything. */
  function Chunk(c: Clip, n: nat, rest: seq<byte>): (r: Clip)
    requires c.Sound() && c.inStream && c.pos + n <= c.expected
    ensures r.Sound() && r.inStream && r.len == c.len
  {
    var buf := if n <= |rest| then c.buf[..c.pos] + rest[..n] + c.buf[c.pos + n..] else c.buf;
    c.(buf := buf, pos := c.pos + n)
  }

  /** The entries announced to the clipboard callback at DCLP end. */
  function Finish(c: Clip): Parsed
    requires c.Sound() && c.inStream
  {
    ReadAll(c.buf[..c.expected])
  }

  /** Local data whose encoding stays below the sizes that fit a C int. */
  predicate Storable(data: seq<byte>) {
    TEXT_HEADER + |data| < TWO_31
  }

  /** Local data replaces the buffer and the clipboard is grabbed. */
  function Grab(c: Clip, data: seq<byte>, junk: nat -> byte): (r: Clip)
    requires c.Sound() && Storable(data)
    ensures r.Sound() && r.grabbed && r.buf[..r.pos] == EncodeText(data)
    ensures r.len >= TEXT_HEADER
  {
    var size := TEXT_HEADER + |data|;
    var buf := if c.len < size then Realloc(c.buf, size, junk) else c.buf;
    var len := if c.len < size then size else c.len;
    Clip(EncodeText(data) + buf[size..], len, size, c.expected, false, true)
  }

  function OctetAt(c: Clip, past: nat -> byte, i: nat): byte {
    if i < |c.buf| then c.buf[i] else past(i)
  }

  /** The n octets from pos on, with whatever memory holds past the allocation. */
  function Region(c: Clip, past: nat -> byte, pos: nat, n: nat): (r: seq<byte>)
    ensures |r| == n
  {
    if pos + n <= |c.buf| then c.buf[pos..pos + n]
    else seq<byte>(n, i requires 0 <= i < n => OctetAt(c, past, pos + i))
  }

  /** memcmp against the buffer, which the program does not keep inside the allocation. */
  predicate HoldsAt(c: Clip, past: nat -> byte, pos: nat, data: seq<byte>) {
    Region(c, past, pos, |data|) == data
  }

  /** The header at pos lies within the recorded length and announces this many octets. */
  predicate Announces(c: Clip, pos: nat, size: nat)
    requires c.Sound()
  {
    pos + 8 <= c.len && Be32(c.buf[pos + 4..]) == size
  }

  /** The search loop over n format headers from pos. It steps from header to header
      without skipping the data between them. */
  predicate HoldsFrom(c: Clip, past: nat -> byte, data: seq<byte>, pos: nat, n: nat)
    requires c.Sound()
    decreases n
  {
    n > 0 && pos + 8 <= c.len
    && ((Announces(c, pos, |data|) && HoldsAt(c, past, pos + 8, data)) || HoldsFrom(c, past, data, pos + 8, n - 1))
  }

  /** All comparisons of that loop stay inside the allocation. */
  predicate InsideFrom(c: Clip, past: nat -> byte, data: seq<byte>, pos: nat, n: nat)
    requires c.Sound()
    decreases n
  {
    n > 0 && pos + 8 <= c.len ==>
      && (Announces(c, pos, |data|) ==> pos + 8 + |data| <= |c.buf|)
      && (!(Announces(c, pos, |data|) && HoldsAt(c, past, pos + 8, data)) ==> InsideFrom(c, past, data, pos + 8, n - 1))
  }

  /** The search is made at all. */
  predicate Searched(c: Clip)
    requires c.Sound()
  {
    !c.inStream && c.len >= 4
  }

  /** uSynergyClipBufContains: the buffer is believed to hold this data already. */
  predicate Holds(c: Clip, past: nat -> byte, data: seq<byte>)
    requires c.Sound()
  {
    Searched(c) && HoldsFrom(c, past, data, 4, Be32(c.buf))
  }

  predicate StaysInside(c: Clip, past: nat -> byte, data: seq<byte>)
    requires c.Sound()
  {
    Searched(c) ==> InsideFrom(c, past, data, 4, Be32(c.buf))
  }

  // ---------------------------------------------------------------- what the search finds

  /** The k-th header the search would look at, eight octets apart from pos on, matches. */
  predicate Found(c: Clip, past: nat -> byte, data: seq<byte>, pos: nat, k: nat)
    requires c.Sound()
  {
    Announces(c, pos + 8 * k, |data|) && HoldsAt(c, past, pos + 8 * k + 8, data)
  }

  ghost predicate AnyFound(c: Clip, past: nat -> byte, data: seq<byte>, pos: nat, n: nat)
    requires c.Sound()
  {
    exists k: nat :: k < n && Found(c, past, data, pos, k)
  }

  lemma FoundNext(c: Clip, past: nat -> byte, data: seq<byte>, pos: nat, k: nat)
    requires c.Sound()
    ensures Found(c, past, data, pos + 8, k) == Found(c, past, data, pos, k + 1)
  {
    assert pos + 8 + 8 * k == pos + 8 * (k + 1);
  }

  lemma {:induction false} HoldsFromIff(c: Clip, past: nat -> byte, data: seq<byte>, pos: nat, n: nat)
    requires c.Sound()
    ensures HoldsFrom(c, past, data, pos, n) <==> AnyFound(c, past, data, pos, n)
    decreases n
  {
    hide Be32, HoldsAt;
    if n > 0 {
      HoldsFromIff(c, past, data, pos + 8, n - 1);
      assert Found(c, past, data, pos, 0) == (Announces(c, pos, |data|) && HoldsAt(c, past, pos + 8, data));
      if AnyFound(c, past, data, pos + 8, n - 1) {
        var k: nat :| k < n - 1 && Found(c, past, data, pos + 8, k);
        FoundNext(c, past, data, pos, k);
      }
      if AnyFound(c, past, data, pos, n) && !Found(c, past, data, pos, 0) {
        var k: nat :| k < n && Found(c, past, data, pos, k);
        FoundNext(c, past, data, pos, k - 1);
      }
    }
  }

  /** The repeat check says yes exactly when a header it steps to, every eight octets from the
      first one, announces the length of the data and is followed by it: such a header is a
      format header of the encoding for certain only if it is the first. */
  lemma HoldsIff(c: Clip, past: nat -> byte, data: seq<byte>)
    requires c.Sound()
    ensures Holds(c, past, data) <==> Searched(c) && AnyFound(c, past, data, 4, Be32(c.buf))
  {
    if Searched(c) {
      HoldsFromIff(c, past, data, 4, Be32(c.buf));
    }
  }

  /** The k-th header announces more than the allocation holds behind it, and the search gets
      that far. */
  ghost predicate Overruns(c: Clip, past: nat -> byte, data: seq<byte>, pos: nat, k: nat)
    requires c.Sound()
  {
    && Announces(c, pos + 8 * k, |data|) && pos + 8 * k + 8 + |data| > |c.buf|
    && forall j: nat :: j < k ==> !Found(c, past, data, pos, j)
  }

  ghost predicate AnyOverruns(c: Clip, past: nat -> byte, data: seq<byte>, pos: nat, n: nat)
    requires c.Sound()
  {
    exists k: nat :: k < n && Overruns(c, past, data, pos, k)
  }

  lemma OverrunsNext(c: Clip, past: nat -> byte, data: seq<byte>, pos: nat, k: nat)
    requires c.Sound() && !Found(c, past, data, pos, 0)
    ensures Overruns(c, past, data, pos + 8, k) == Overruns(c, past, data, pos, k + 1)
  {
    hide Be32, Found;
    var next := pos + 8;
    assert next + 8 * k == pos + 8 * (k + 1);
    if Overruns(c, past, data, next, k) {
      forall j: nat | j < k + 1 ensures !Found(c, past, data, pos, j) {
        if j > 0 {
          FoundNext(c, past, data, pos, j - 1);
        }
      }
    }
    if Overruns(c, past, data, pos, k + 1) {
      forall j: nat | j < k ensures !Found(c, past, data, next, j) {
        FoundNext(c, past, data, pos, j);
      }
    }
  }

  lemma {:induction false} InsideFromIff(c: Clip, past: nat -> byte, data: seq<byte>, pos: nat, n: nat)
    requires c.Sound()
    ensures InsideFrom(c, past, data, pos, n) <==> !AnyOverruns(c, past, data, pos, n)
    decreases n
  {
    hide Be32, HoldsAt;
    if n > 0 {
      assert Found(c, past, data, pos, 0) == (Announces(c, pos, |data|) && HoldsAt(c, past, pos + 8, data));
      assert Overruns(c, past, data, pos, 0) == (Announces(c, pos, |data|) && pos + 8 + |data| > |c.buf|);
      if Found(c, past, data, pos, 0) {
        assert forall k: nat :: k > 0 ==> !Overruns(c, past, data, pos, k);
      } else {
        InsideFromIff(c, past, data, pos + 8, n - 1);
        if AnyOverruns(c, past, data, pos + 8, n - 1) {
          var k: nat :| k < n - 1 && Overruns(c, past, data, pos + 8, k);
          OverrunsNext(c, past, data, pos, k);
        }
        if AnyOverruns(c, past, data, pos, n) && !Overruns(c, past, data, pos, 0) {
          var k: nat :| k < n && Overruns(c, past, data, pos, k);
          OverrunsNext(c, past, data, pos, k - 1);
        }
      }
    }
  }

  /** The repeat check reads past the allocation exactly when a header it reaches announces
      the length of the data and less than that is allocated behind it. */
  lemma StaysInsideIff(c: Clip, past: nat -> byte, data: seq<byte>)
    requires c.Sound()
    ensures StaysInside(c, past, data) <==> !(Searched(c) && AnyOverruns(c, past, data, 4, Be32(c.buf)))
  {
    if Searched(c) {
      InsideFromIff(c, past, data, 4, Be32(c.buf));
    }
  }

  lemma FirstHeader(buf: seq<byte>, items: seq<Item>)
    requires Encodable(items) && items != [] && Encode(items) <= buf
    ensures |buf| >= TEXT_HEADER + |items[0].1|
    ensures Be32(buf) == |items| && Be32(buf[8..]) == |items[0].1|
    ensures buf[TEXT_HEADER..TEXT_HEADER + |items[0].1|] == items[0].1
  {
    var item := items[0];
    assert buf == U32(|items|) + buf[4..];
    U32RoundTrip(|items|, buf[4..]);
    assert Encode(items)[4..] == EncodeItem(item) + EncodeItems(items[1..]);
    assert EncodeItem(item) <= buf[4..];
    ItemAt(buf[4..], item);
    assert buf[4..][4..] == buf[8..];
    assert buf[4..][8..8 + |item.1|] == buf[TEXT_HEADER..TEXT_HEADER + |item.1|];
  }

  /** The data of the first entry is recognised, if the recorded length covers its header. */
  lemma FirstEntryFound(c: Clip, past: nat -> byte, items: seq<Item>)
    requires c.Sound() && Encodable(items) && items != [] && Encode(items) <= c.buf
    ensures !c.inStream && c.len >= TEXT_HEADER ==> Holds(c, past, items[0].1)
  {
    FirstHeader(c.buf, items);
    if !c.inStream && c.len >= TEXT_HEADER {
      HoldsIff(c, past, items[0].1);
      assert c.buf[4 + 4..] == c.buf[8..];
      assert Found(c, past, items[0].1, 4, 0);
    }
  }

  /** Over a buffer that starts with one encoded text, the repeat check stays inside the
      allocation and answers yes for that very text and nothing else; and it needs the recorded
      length, which only local updates raise, to cover the header. */
  lemma HoldsTextIff(c: Clip, past: nat -> byte, text: seq<byte>, data: seq<byte>)
    requires c.Sound() && |text| < TWO_32
    requires EncodeText(text) <= c.buf
    ensures Holds(c, past, data) <==> !c.inStream && c.len >= TEXT_HEADER && data == text
    ensures StaysInside(c, past, data)
  {
    var items: seq<Item> := [(FORMAT_TEXT, text)];
    EncodeTextIsEncode(text);
    FirstHeader(c.buf, items);
    assert c.buf[4 + 4..] == c.buf[8..];
    if Searched(c) {
      OneHeader(c, past, data);
    }
  }

  lemma OneHeader(c: Clip, past: nat -> byte, data: seq<byte>)
    requires c.Sound()
    ensures HoldsFrom(c, past, data, 4, 1) == (Announces(c, 4, |data|) && HoldsAt(c, past, 12, data))
    ensures InsideFrom(c, past, data, 4, 1) == (Announces(c, 4, |data|) ==> 12 + |data| <= |c.buf|)
  {
    hide Be32, HoldsAt;
    assert !HoldsFrom(c, past, data, 12, 0) && InsideFrom(c, past, data, 12, 0);
  }

  // ---------------------------------------------------------------- the fields in place

  /** One round of the format loop of DCLP end. */
  method ReadEntry(msg: SspBuf) returns (ok: bool, item: Item)
    requires msg.Valid()
    modifies msg
    ensures msg.Valid()
    ensures ok == EntryFits(msg.Body(), old(msg.pos))
    ensures ok ==> item == EntryAt(msg.Body(), old(msg.pos))
    ensures ok ==> msg.pos == old(msg.pos) + 8 + |item.1|
  {
    var format, size;
    item := (0, []);
    ok, format := msg.NetInt(4);
    if !ok {
      return;
    }
    ok, size := msg.NetInt(4);
    if !ok {
      return;
    }
    if msg.pos + size > msg.len {
      return false, item;
    }
    var from := msg.base + msg.pos;
    item := (format, msg.data[from..from + size]);
    assert item.1 == msg.Body()[msg.pos..msg.pos + size];
    ok := msg.Seek(size);
  }

  lemma ReadItemsStep(data: seq<byte>, pos: nat, n: nat)
    requires pos <= |data| && n > 0
    ensures ReadItems(data, pos, n) ==
      if !EntryFits(data, pos) then Parsed([], false)
      else Extend([EntryAt(data, pos)], ReadItems(data, pos + 8 + |EntryAt(data, pos).1|, n - 1))
  {
  }

  /** The format loop of DCLP end; an entry that does not parse stops it. */
  method ReadEntries(msg: SspBuf, count: nat) returns (items: seq<Item>, ok: bool)
    requires msg.Valid()
    modifies msg
    ensures msg.Valid()
    ensures Parsed(items, ok) == ReadItems(msg.Body(), old(msg.pos), count)
  {
    hide ReadItems, EntryFits, EntryAt, Be32;
    ghost var data, whole := msg.Body(), ReadItems(msg.Body(), msg.pos, count);
    var n, item := count, (0, []);
    items := [];
    assert whole.items == items + whole.items;
    while n > 0
      invariant msg.Valid() && msg.Body() == data
      invariant whole == Extend(items, ReadItems(data, msg.pos, n))
    {
      ReadItemsStep(data, msg.pos, n);
      ok, item := ReadEntry(msg);
      if !ok {
        assert items + [] == items;
        return;
      }
      ExtendTwice(items, item, ReadItems(data, msg.pos, n - 1));
      items := items + [item];
      n := n - 1;
    }
    ReadNone(data, msg.pos);
    assert items + [] == items;
    ok := true;
  }

  lemma ReadNone(data: seq<byte>, pos: nat)
    requires pos <= |data|
    ensures ReadItems(data, pos, 0) == Parsed([], true)
  {
  }

  class Slot {
    var buf: array<byte>
    var len: nat
    var pos: nat
    var expected: nat
    var inStream: bool
    var grabbed: bool
    const junk: nat -> byte
    const past: nat -> byte

    ghost function View(): Clip
      reads this, buf
    {
      Clip(buf[..], len, pos, expected, inStream, grabbed)
    }

    ghost predicate Valid()
      reads this, buf
    {
      View().Sound()
    }

    constructor (junk: nat -> byte, past: nat -> byte)
      ensures View() == EMPTY && Valid() && fresh(buf) && this.junk == junk && this.past == past
    {
      this.buf := new byte[0];
      this.len, this.pos, this.expected := 0, 0, 0;
      this.inStream, this.grabbed := false, false;
      this.junk, this.past := junk, past;
    }

    method Resize(n: nat)
      modifies this`buf
      ensures fresh(buf) && buf[..] == Realloc(old(buf[..]), n, junk)
    {
      var was := buf;
      var moved := new byte[n];
      var i := 0;
      while i < n
        invariant 0 <= i <= n
        invariant forall k :: 0 <= k < i ==> moved[k] == if k < was.Length then was[k] else junk(k)
        invariant was[..] == old(buf[..])
      {
        moved[i] := if i < was.Length then was[i] else junk(i);
        i := i + 1;
      }
      buf := moved;
    }

    method StartStream(n: nat)
      requires Valid()
      modifies this
      ensures View() == Start(old(View()), n, junk) && Valid()
      ensures fresh(buf) || buf == old(buf)
    {
      grabbed := false;
      inStream := true;
      pos := 0;
      expected := n;
      if expected > len {
        Resize(expected);
      }
    }

    /** Returns false when the chunk overruns the announced total. */
    method TakeChunk(msg: SspBuf, n: nat) returns (ok: bool)
      requires Valid() && inStream && msg.Valid() && msg.data != buf
      modifies this, buf, msg
      ensures Valid() && msg.Valid() && buf == old(buf)
      ensures ok == old(pos + n <= expected)
      ensures View() == if ok then Chunk(old(View()), n, old(msg.Body()[msg.pos..])) else old(View())
    {
      if pos + n > expected {
        return false;
      }
      ghost var rest := msg.Body()[msg.pos..];
      ghost var was := buf[..];
      var copied := msg.MemMove(buf, pos, n);
      if copied {
        assert buf[..] == buf[..pos] + buf[pos..pos + n] + buf[pos + n..];
      }
      pos := pos + n;
      ok := true;
    }

    /** DCLP end within a transfer. */
    method EndStream() returns (items: seq<Item>, ok: bool)
      requires Valid() && inStream
      modifies this`inStream
      ensures Parsed(items, ok) == Finish(old(View()))
      ensures View() == old(View()).(inStream := !ok)
      ensures Valid()
    {
      items := [];
      var msg := new SspBuf(buf, 0, expected);
      assert msg.Body() == buf[..][..expected];
      var n;
      ok, n := msg.NetInt(4);
      if !ok {
        return;
      }
      assert msg.Body()[0..] == msg.Body();
      items, ok := ReadEntries(msg, n);
      if ok {
        inStream := false;
      }
    }

    /** memcmp of the data with the octets from a position on. */
    method Compare(at: nat, data: seq<byte>) returns (same: bool)
      ensures same == HoldsAt(View(), past, at, data)
    {
      ghost var region := Region(View(), past, at, |data|);
      var i := 0;
      while i < |data|
        invariant 0 <= i <= |data| && region[..i] == data[..i]
      {
        var octet := if at + i < buf.Length then buf[at + i] else past(at + i);
        assert octet == OctetAt(View(), past, at + i) == region[i];
        if octet != data[i] {
          return false;
        }
        i := i + 1;
      }
      assert region[..i] == region && data[..i] == data;
      same := true;
    }

    /** uSynergyClipBufContains; `inside` says whether it kept to the allocation. */
    method Contains(data: seq<byte>) returns (r: bool, ghost inside: bool)
      requires Valid()
      ensures r == Holds(View(), past, data) && inside == StaysInside(View(), past, data)
    {
      hide HoldsAt, Be32;
      inside := true;
      var msg := new SspBuf(buf, 0, len);
      ghost var c := View();
      assert msg.Body() == c.buf[..len];
      if buf.Length == 0 || inStream {
        return false, inside;
      }
      var ok, n := msg.NetInt(4);
      if !ok {
        return false, inside;
      }
      Be32Within(c.buf, len, 0);
      while n > 0
        invariant msg.Valid() && fresh(msg) && msg.Body() == c.buf[..len] && msg.len == len
        invariant Holds(c, past, data) == HoldsFrom(c, past, data, msg.pos, n)
        invariant StaysInside(c, past, data) == (inside && InsideFrom(c, past, data, msg.pos, n))
      {
        ghost var pos := msg.pos;
        var flen;
        ok, flen := msg.SkipThenU32();
        if !ok {
          return false, inside;
        }
        Be32Within(c.buf, len, pos + 4);
        if flen == |data| {
          inside := inside && msg.pos + |data| <= buf.Length;
          var same := Compare(msg.pos, data);
          if same {
            return true, inside;
          }
        }
        n := n - 1;
      }
      return false, inside;
    }

    method PutBytes(at: nat, data: seq<byte>)
      requires at + |data| <= buf.Length
      modifies buf
      ensures buf[..at + |data|] == old(buf[..at]) + data
      ensures buf[at + |data|..] == old(buf[at + |data|..])
    {
      forall i | 0 <= i < |data| {
        buf[at + i] := data[i];
      }
      assert buf[at..at + |data|] == data;
    }

    method PutText(data: seq<byte>)
      requires TEXT_HEADER + |data| <= buf.Length
      modifies buf
      ensures buf[..] == EncodeText(data) + old(buf[TEXT_HEADER + |data|..])
    {
      hide U32;
      PutHeader(|data|);
      ghost var rest := buf[TEXT_HEADER..];
      PutBytes(TEXT_HEADER, data);
      ghost var size := TEXT_HEADER + |data|;
      assert buf[size..] == rest[|data|..];
      assert buf[..size] == EncodeText(data);
      assert buf[..] == buf[..size] + buf[size..];
    }

    /** The three numbers in front of the data. */
    method PutHeader(size: nat)
      requires TEXT_HEADER <= buf.Length
      modifies buf
      ensures buf[..TEXT_HEADER] == U32(1) + U32(FORMAT_TEXT) + U32(size)
      ensures buf[TEXT_HEADER..] == old(buf[TEXT_HEADER..])
    {
      hide U32;
      ghost var rest := buf[TEXT_HEADER..];
      StoreU32(buf, 0, 1);
      assert buf[4..][8..] == rest;
      StoreU32(buf, 4, FORMAT_TEXT);
      assert buf[8..][4..] == rest;
      StoreU32(buf, 8, size);
    }

    /** The part of uSynergyUpdateClipBuf that fills the buffer. */
    method TakeLocal(data: seq<byte>)
      requires Valid() && Storable(data)
      modifies this, buf
      ensures View() == Grab(old(View()), data, junk) && Valid()
      ensures fresh(buf) || buf == old(buf)
    {
      inStream := false;
      grabbed := true;
      pos := |data| + TEXT_HEADER;
      if len < pos {
        len := pos;
        Resize(len);
      }
      PutText(data);
    }
  }
}
