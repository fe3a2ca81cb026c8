/**
 ini_load and ini_save: the scanner and the printer as loops over a text and a buffer.
 */
module IniFile {
  import opened Basics
  import opened IniText
  import opened IniStore

  // ---------------------------------------------------------------- scanning

  lemma Suffix(t: string, a: nat, b: nat)
    requires a + b <= |t|
    ensures t[a..][b..] == t[a + b..]
  {
  }

  /** Past the blanks. */
  method SkipBlanks(t: string, from: nat) returns (ptr: nat)
    requires from <= |t|
    ensures ptr == from + BlankRun(t[from..])
  {
    ptr := from;
    while ptr < |t| && t[ptr] <= ' '
      invariant from <= ptr <= |t|
      invariant from + BlankRun(t[from..]) == ptr + BlankRun(t[ptr..])
    {
      Suffix(t, ptr, 1);
      ptr := ptr + 1;
    }
  }

  /** Past the blanks, within the line. */
  method SkipInlineBlanks(t: string, from: nat) returns (ptr: nat)
    requires from <= |t|
    ensures ptr == from + InlineBlankRun(t[from..])
  {
    ptr := from;
    while ptr < |t| && t[ptr] <= ' ' && t[ptr] != '\n'
      invariant from <= ptr <= |t|
      invariant from + InlineBlankRun(t[from..]) == ptr + InlineBlankRun(t[ptr..])
    {
      Suffix(t, ptr, 1);
      ptr := ptr + 1;
    }
  }

  /** To the stop character or the end of the line. */
  method SkipTo(t: string, from: nat, stop: char) returns (ptr: nat)
    requires from <= |t|
    ensures ptr == from + RunTo(t[from..], stop)
  {
    ptr := from;
    while ptr < |t| && t[ptr] != stop && t[ptr] != '\n'
      invariant from <= ptr <= |t|
      invariant from + RunTo(t[from..], stop) == ptr + RunTo(t[ptr..], stop)
    {
      Suffix(t, ptr, 1);
      ptr := ptr + 1;
    }
  }

  /** Back over the blanks at the end of a value; over an empty one the search only stops
      at the equals sign. */
  method TrimBack(t: string, equals: nat, start: nat, end: nat) returns (ptr: nat)
    requires equals < start <= end <= |t| && !Blank(t[equals])
    requires forall i :: equals < i < start ==> Blank(t[i])
    ensures var n := Trimmed(t[start..end]);
      ptr == if n > 0 then start + n else equals + 1
  {
    ptr := end - 1;
    assert t[start..end] == t[start..ptr + 1] || ptr + 1 == start;
    while t[ptr] <= ' '
      invariant equals <= ptr < end
      invariant ptr + 1 >= start ==> Trimmed(t[start..end]) == Trimmed(t[start..ptr + 1])
      invariant ptr + 1 < start ==> Trimmed(t[start..end]) == 0
      decreases ptr
    {
      if ptr >= start {
        assert t[start..ptr + 1][..ptr - start] == t[start..ptr];
      }
      ptr := ptr - 1;
    }
    ptr := ptr + 1;
  }

  /** The state of ini_load: what is still to be read completes the store to the loaded one. */
  ghost predicate Loading(text: string, ptr: nat, section: nat, ini: Store)
    reads ini, ini.sections, ini.props
  {
    && ini.Valid() && ini.Slack() && section < ini.sectionCount && ptr <= |text|
    && Scan(text[ptr..], section, ini.View()) == IniText.Load(text)
  }

  /** The section branch, from the opening bracket on: where the name starts, how long it
      is, and where the scan goes on. */
  method ReadSection(text: string, from: nat) returns (found: bool, start: nat, length: nat, ptr: nat)
    requires from < |text|
    ensures from < start && start + length <= |text| && from < ptr <= |text|
    ensures SectionAt(text[from..])
      == if found then Section(Field(text[start..], length), text[ptr..]) else Skipped(text[ptr..])
  {
    hide RunTo, Field;
    start := from + 1;
    Suffix(text, from, 1);
    ptr := SkipTo(text, start, ']');
    length := ptr - start;
    Suffix(text, from, 1 + length);
    found := ptr < |text| && text[ptr] == ']';
    if found {
      Suffix(text, ptr, 1);
      ptr := ptr + 1;
    }
  }

  /** The value after an equals sign. */
  method ReadValue(text: string, equals: nat) returns (start: nat, ptr: nat)
    requires equals < |text| && text[equals] == '='
    ensures equals < start <= |text| && equals < ptr <= |text|
    ensures text[start..] == ValueText(text[equals..])
    ensures var n := ValueLength(text[start..]);
      ptr == if n > 0 then start + n else equals + 1
  {
    hide RunTo, Trimmed;
    Suffix(text, equals, 1);
    start := SkipInlineBlanks(text, equals + 1);
    InlineBlanksBlank(text[equals + 1..]);
    Suffix(text, equals, 1 + (start - (equals + 1)));
    var end := SkipTo(text, start, '\n');
    assert text[start..][..end - start] == text[start..end];
    assert forall i :: equals < i < start ==> text[i] == text[equals + 1..][i - (equals + 1)];
    ptr := TrimBack(text, equals, start, end);
  }

  /** The property branch. */
  method ReadEntry(text: string, from: nat)
    returns (found: bool, length: nat, start: nat, valueLength: int, ptr: nat)
    requires from < |text| && !Blank(text[from])
    ensures from + length <= |text| && start <= |text| && start + valueLength <= |text| && from < ptr <= |text|
    ensures EntryAt(text[from..])
      == if found then Entry(Field(text[from..], length), Field(text[start..], valueLength), text[ptr..])
         else Skipped(text[ptr..])
  {
    hide RunTo, Field, ValueText, ValueLength;
    ptr := SkipTo(text, from, '=');
    length := ptr - from;
    Suffix(text, from, length);
    start, valueLength := from, 0;
    found := ptr < |text| && text[ptr] == '=';
    if found {
      var equals := ptr;
      start, ptr := ReadValue(text, equals);
      valueLength := ptr - start;
      Suffix(text, equals, 1);
      ghost var n := ValueLength(text[start..]);
      FieldBySign(text[start..], n, valueLength);
      if n > 0 {
        Suffix(text, start, n);
      }
    }
  }

  lemma FieldBySign(t: string, a: int, b: int)
    requires a <= |t| && b <= |t| && (a == b || (a <= 0 && b <= 0))
    ensures Field(t, a) == Field(t, b)
  {
  }

  lemma InlineBlanksBlank(t: string)
    ensures forall i :: 0 <= i < InlineBlankRun(t) ==> Blank(t[i])
  {
  }

  /** One round of ini_load. */
  method LoadItem(text: string, from: nat, section: nat, ini: Store) returns (ptr: nat, current: nat)
    requires Loading(text, from, section, ini) && from < |text| && !Blank(text[from])
    modifies ini, ini.sections, ini.props
    ensures from < ptr && Loading(text, ptr, current, ini)
    ensures fresh(ini.sections) || ini.sections == old(ini.sections)
    ensures fresh(ini.props) || ini.props == old(ini.props)
  {
    hide Scan, BlankRun, RunTo, SectionAt, EntryAt, Field;
    ghost var t := text[from..];
    ScanItem(t, section, ini.View());
    current := section;
    if text[from] == ';' {
      ptr := SkipTo(text, from, '\n');
      Suffix(text, from, ptr - from);
    } else if text[from] == '[' {
      var found, start, length;
      found, start, length, ptr := ReadSection(text, from);
      if found {
        current := ini.SectionAdd(text[start..], length);
      }
    } else {
      var found, length, start, valueLength;
      found, length, start, valueLength, ptr := ReadEntry(text, from);
      if found {
        ini.PropertyAdd(section, text[from..], length, text[start..], valueLength);
      }
    }
  }

  /** The scan from an item on. */
  ghost function Continue(item: Item, section: nat, doc: Doc): Doc {
    match item
    case End => doc
    case Skipped(rest) => Scan(rest, section, doc)
    case Section(name, rest) => Scan(rest, |doc.sections|, AddSection(doc, name))
    case Entry(name, value, rest) => Scan(rest, section, AddProperty(doc, section, name, value))
  }

  lemma ScanItem(t: string, section: nat, doc: Doc)
    requires t != "" && !Blank(t[0])
    ensures Scan(t, section, doc) == Continue(ItemAt(t), section, doc)
  {
    hide ItemAt;
    assert BlankRun(t) == 0 && t[0..] == t;
    assert NextItem(t) == ItemAt(t);
  }

  lemma ScanPastBlanks(t: string, section: nat, doc: Doc)
    ensures Scan(t[BlankRun(t)..], section, doc) == Scan(t, section, doc)
  {
    var u := t[BlankRun(t)..];
    assert u[0..] == u && BlankRun(u) == 0;
    assert NextItem(u) == NextItem(t);
  }

  /** ini_load */
  method Load(text: string) returns (ini: Store)
    ensures ini.Valid() && ini.Slack() && ini.View() == IniText.Load(text)
  {
    hide Scan, BlankRun;
    ini := new Store();
    var ptr, section := 0, 0;
    assert text[0..] == text;
    while ptr < |text|
      invariant Loading(text, ptr, section, ini)
      invariant fresh(ini) && fresh(ini.sections) && fresh(ini.props)
      decreases |text| - ptr
    {
      ScanPastBlanks(text[ptr..], section, ini.View());
      Suffix(text, ptr, BlankRun(text[ptr..]));
      ptr := SkipBlanks(text, ptr);
      if ptr >= |text| {
        break;
      }
      ptr, section := LoadItem(text, ptr, section, ini);
    }
    assert text[ptr..] == "";
    ScanNothing(section, ini.View());
  }

  // ---------------------------------------------------------------- printing

  /** The buffer holds as much of `out` as fits the given size, and is otherwise as it was. */
  ghost predicate Holds(data: array?<char>, size: int, out: string, was: seq<char>)
    reads data
  {
    data != null ==>
      && size <= data.Length == |was|
      && forall i :: 0 <= i < data.Length ==> data[i] == if i < Min(size, |out|) then out[i] else was[i]
  }

  method PutChar(data: array?<char>, size: int, pos: nat, c: char, ghost out: string, ghost was: seq<char>)
    returns (next: nat)
    requires Holds(data, size, out, was) && pos == |out|
    modifies data
    ensures Holds(data, size, out + [c], was) && next == pos + 1
  {
    if data != null && pos < size {
      data[pos] := c;
    }
    next := pos + 1;
  }

  method PutString(data: array?<char>, size: int, pos: nat, s: string, ghost out: string, ghost was: seq<char>)
    returns (next: nat)
    requires Holds(data, size, out, was) && pos == |out|
    modifies data
    ensures Holds(data, size, out + s, was) && next == pos + |s|
  {
    next := pos;
    assert out + s[..0] == out;
    var i := 0;
    while i < |s|
      invariant 0 <= i <= |s| && next == pos + i && Holds(data, size, out + s[..i], was)
    {
      assert out + s[..i + 1] == out + s[..i] + [s[i]];
      next := PutChar(data, size, next, s[i], out + s[..i], was);
      i := i + 1;
    }
    assert s[..|s|] == s;
  }

  /** The lines of one section. */
  method PutLines(ini: Store, section: nat, data: array?<char>, size: int, pos: nat,
                  ghost out: string, ghost was: seq<char>)
    returns (next: nat)
    requires ini.Valid() && Holds(data, size, out, was) && pos == |out|
    modifies data
    ensures var lines := Lines(ini.View().props, section);
      Holds(data, size, out + lines, was) && next == pos + |lines|
    ensures ini.View() == old(ini.View())
  {
    ghost var props := ini.props[..ini.propCount];
    ghost var written := out;
    next := pos;
    assert props[0..] == props;
    var p := 0;
    while p < ini.propCount
      invariant 0 <= p <= ini.propCount && ini.props[..ini.propCount] == props
      invariant Holds(data, size, written, was) && next == |written|
      invariant written + Lines(props[p..], section) == out + Lines(props, section)
    {
      var prop := ini.props[p];
      assert props[p..][0] == prop && props[p..][1..] == props[p + 1..];
      if prop.section == section {
        Assoc(written, Line(prop), Lines(props[p + 1..], section));
        next := PutString(data, size, next, prop.name, written, was);
        next := PutChar(data, size, next, '=', written + prop.name, was);
        next := PutString(data, size, next, prop.value, written + prop.name + "=", was);
        next := PutChar(data, size, next, '\n', written + prop.name + "=" + prop.value, was);
        assert written + prop.name + "=" + prop.value + "\n" == written + Line(prop);
        written := written + Line(prop);
      }
      p := p + 1;
    }
    assert written + "" == written;
  }

  method PutHeader(name: string, data: array?<char>, size: int, pos: nat, ghost out: string, ghost was: seq<char>)
    returns (next: nat)
    requires Holds(data, size, out, was) && pos == |out|
    modifies data
    ensures Holds(data, size, out + Header(name), was) && next == pos + |Header(name)|
  {
    next := pos;
    if |name| > 0 {
      next := PutChar(data, size, next, '[', out, was);
      next := PutString(data, size, next, name, out + "[", was);
      next := PutChar(data, size, next, ']', out + "[" + name, was);
      next := PutChar(data, size, next, '\n', out + "[" + name + "]", was);
      assert out + "[" + name + "]" + "\n" == out + Header(name);
    } else {
      assert out + "" == out;
    }
  }

  lemma PrintOne(doc: Doc, n: nat, written: string)
    requires n < |doc.sections|
    ensures var part := written + (Header(doc.sections[n]) + Lines(doc.props, n));
      var next := if part != "" then part + "\n" else part;
      written + PrintFrom(doc, n, written != "") == next + PrintFrom(doc, n + 1, next != "")
  {
    var part := Header(doc.sections[n]) + Lines(doc.props, n);
    var gap := if written + part != "" then "\n" else "";
    var next := written + part + gap;
    Assoc(part, gap, PrintFrom(doc, n + 1, next != ""));
    Assoc(written, part, gap + PrintFrom(doc, n + 1, next != ""));
    Assoc(written + part, gap, PrintFrom(doc, n + 1, next != ""));
    assert (written != "" || part != "") <==> next != "";
  }

  /** ini_save: whatever the buffer's size, or without a buffer, the size of the whole text
      with its terminator is returned, and as much of it as fits is written. */
  method Save(ini: Store, data: array?<char>, size: int) returns (pos: nat)
    requires ini.Valid() && (data != null ==> size <= data.Length)
    modifies data
    ensures pos == |Print(ini.View())| + 1
    ensures Holds(data, size, Print(ini.View()) + "\0", if data == null then [] else old(data[..]))
    ensures ini.View() == old(ini.View())
  {
    hide PrintFrom, Header, Lines;
    ghost var doc := ini.View();
    ghost var was := if data == null then [] else data[..];
    ghost var written := "";
    pos := 0;
    var s := 0;
    assert "" + PrintFrom(doc, 0, false) == PrintFrom(doc, 0, false);
    while s < ini.sectionCount
      invariant 0 <= s <= ini.sectionCount == |doc.sections| && ini.View() == doc && ini.Valid()
      invariant Holds(data, size, written, was) && pos == |written|
      invariant written + PrintFrom(doc, s, written != "") == Print(doc)
    {
      PrintOne(doc, s, written);
      ghost var head, lines := Header(doc.sections[s]), Lines(doc.props, s);
      Assoc(written, head, lines);
      pos := PutHeader(ini.sections[s], data, size, pos, written, was);
      pos := PutLines(ini, s, data, size, pos, written + head, was);
      written := written + (head + lines);
      if pos > 0 {
        pos := PutChar(data, size, pos, '\n', written, was);
        written := written + "\n";
      }
      s := s + 1;
    }
    PrintedAll(doc, written);
    pos := PutChar(data, size, pos, '\0', written, was);
  }

  lemma PrintedAll(doc: Doc, written: string)
    ensures written + PrintFrom(doc, |doc.sections|, written != "") == written
  {
  }
}
