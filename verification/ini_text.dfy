/**
 The text form of an INI store (include/ini.h): what the scanner makes of a text, what the
 printer writes for a store, and that one undoes the other. Text is 7-bit and contains no
 NUL.
 */
module IniText {
  import opened Basics

  datatype Property = Property(section: nat, name: string, value: string)

  /** A store: section names by number, number 0 being the global section, and the
      properties of all sections in one list. */
  datatype Doc = Doc(sections: seq<string>, props: seq<Property>)

  const EMPTY := Doc([""], [])

  /** ini_section_add and ini_property_add */
  function AddSection(doc: Doc, name: string): Doc {
    doc.(sections := doc.sections + [name])
  }

  function AddProperty(doc: Doc, section: nat, name: string, value: string): Doc {
    doc.(props := doc.props + [Property(section, name, value)])
  }

  /** A name or value given by pointer and length: a length that is not positive stands
      for all that follows the pointer. */
  function Field(text: string, length: int): string
    requires length <= |text|
  {
    if length <= 0 then text else text[..length]
  }

  // ---------------------------------------------------------------- the scanner

  predicate Blank(c: char) {
    c <= ' '
  }

  function BlankRun(t: string): (n: nat)
    ensures n <= |t| && (n < |t| ==> !Blank(t[n]))
  {
    if t != "" && Blank(t[0]) then 1 + BlankRun(t[1..]) else 0
  }

  /** Blanks before the end of the line. */
  function InlineBlankRun(t: string): (n: nat)
    ensures n <= |t| && (n < |t| ==> !Blank(t[n]) || t[n] == '\n')
  {
    if t != "" && Blank(t[0]) && t[0] != '\n' then 1 + InlineBlankRun(t[1..]) else 0
  }

  /** Characters before the next stop character or end of line. */
  function RunTo(t: string, stop: char): (n: nat)
    ensures n <= |t| && (n < |t| ==> t[n] == stop || t[n] == '\n')
    ensures forall i :: 0 <= i < n ==> t[i] != stop && t[i] != '\n'
  {
    if t != "" && t[0] != stop && t[0] != '\n' then 1 + RunTo(t[1..], stop) else 0
  }

  /** Length of a line without the blanks at its end. */
  function Trimmed(line: string): (n: nat)
    ensures n <= |line| && (n > 0 ==> !Blank(line[n - 1]))
  {
    if line != "" && Blank(line[|line| - 1]) then Trimmed(line[..|line| - 1]) else |line|
  }

  /** What ini_load finds next, and the text after it. */
  datatype Item =
    | End
    | Skipped(rest: string)
    | Section(name: string, rest: string)
    | Entry(name: string, value: string, rest: string)

  /** The branches of ini_load at a character that is no blank. */
  function ItemAt(u: string): (item: Item)
    requires u != "" ==> !Blank(u[0])
    ensures !item.End? ==> |item.rest| < |u|
  {
    if u == "" then End
    else if u[0] == ';' then Skipped(u[RunTo(u, '\n')..])
    else if u[0] == '[' then SectionAt(u)
    else EntryAt(u)
  }

  function SectionAt(u: string): (item: Item)
    requires u != ""
    ensures !item.End? && |item.rest| < |u|
  {
    var k := RunTo(u[1..], ']');
    var r := u[1 + k..];
    if r != "" && r[0] == ']' then Section(Field(u[1..], k), r[1..]) else Skipped(r)
  }

  /** From an equals sign on: the text where the value starts, and its length without the
      blanks at its end. */
  function ValueText(r: string): (v: string)
    requires r != ""
    ensures |v| < |r|
  {
    r[1 + InlineBlankRun(r[1..])..]
  }

  function ValueLength(v: string): (n: nat)
    ensures n <= |v|
  {
    Trimmed(v[..RunTo(v, '\n')])
  }

  function EntryAt(u: string): (item: Item)
    requires u != "" && !Blank(u[0])
    ensures !item.End? && |item.rest| < |u|
  {
    var k := RunTo(u, '=');
    var r := u[k..];
    if r != "" && r[0] == '=' then
      var v := ValueText(r);
      var n := ValueLength(v);
      Entry(Field(u, k), Field(v, n), if n > 0 then v[n..] else r[1..])
    else Skipped(r)
  }

  function NextItem(t: string): (item: Item)
    ensures !item.End? ==> |item.rest| < |t|
  {
    ItemAt(t[BlankRun(t)..])
  }

  /** ini_load from some position on, with `section` the current one. */
  function Scan(t: string, section: nat, doc: Doc): Doc
    decreases |t|
  {
    match NextItem(t)
    case End => doc
    case Skipped(rest) => Scan(rest, section, doc)
    case Section(name, rest) => Scan(rest, |doc.sections|, AddSection(doc, name))
    case Entry(name, value, rest) => Scan(rest, section, AddProperty(doc, section, name, value))
  }

  function Load(t: string): Doc {
    Scan(t, 0, EMPTY)
  }

  // ---------------------------------------------------------------- the printer

  function Header(name: string): string {
    if name == "" then "" else "[" + name + "]\n"
  }

  function Line(p: Property): string {
    p.name + "=" + p.value + "\n"
  }

  function Lines(props: seq<Property>, section: nat): string {
    if props == [] then ""
    else (if props[0].section == section then Line(props[0]) else "") + Lines(props[1..], section)
  }

  /** Sections n and up; an empty line follows each, once anything has been written. */
  function PrintFrom(doc: Doc, n: nat, started: bool): string
    requires n <= |doc.sections|
    decreases |doc.sections| - n
  {
    if n == |doc.sections| then ""
    else
      var part := Header(doc.sections[n]) + Lines(doc.props, n);
      var begun := started || part != "";
      part + (if begun then "\n" else "") + PrintFrom(doc, n + 1, begun)
  }

  /** ini_save, without the terminator. */
  function Print(doc: Doc): string {
    PrintFrom(doc, 0, false)
  }

  // ---------------------------------------------------------------- what can be printed

  predicate Lacks(s: string, c: char) {
    c !in s && '\n' !in s
  }

  predicate SectionName(s: string) {
    s != "" && Lacks(s, ']')
  }

  predicate PropertyName(s: string) {
    s != "" && !Blank(s[0]) && s[0] != ';' && s[0] != '[' && Lacks(s, '=')
  }

  predicate PropertyValue(s: string) {
    s != "" && !Blank(s[0]) && !Blank(s[|s| - 1]) && '\n' !in s
  }

  /** Names can be told from what surrounds them, and values keep to their lines. */
  ghost predicate Lined(doc: Doc) {
    && doc.sections != [] && doc.sections[0] == ""
    && (forall i :: 1 <= i < |doc.sections| ==> SectionName(doc.sections[i]))
    && LinedProperties(doc.props, |doc.sections|)
  }

  ghost predicate LinedProperties(props: seq<Property>, sections: nat) {
    forall i :: 0 <= i < |props| ==>
      props[i].section < sections && PropertyName(props[i].name) && '\n' !in props[i].value
  }

  /** The values of a section survive trimming. */
  ghost predicate ProperIn(props: seq<Property>, section: nat) {
    forall i :: 0 <= i < |props| && props[i].section == section ==> PropertyValue(props[i].value)
  }

  ghost predicate Proper(props: seq<Property>) {
    forall i :: 0 <= i < |props| ==> PropertyValue(props[i].value)
  }

  ghost predicate WellFormed(doc: Doc) {
    Lined(doc) && Proper(doc.props)
  }

  /** The properties of one section, in order. */
  function Of(props: seq<Property>, section: nat): seq<Property> {
    if props == [] then []
    else (if props[0].section == section then [props[0]] else []) + Of(props[1..], section)
  }

  /** The properties of sections n and up, section by section. */
  function GroupedFrom(doc: Doc, n: nat): seq<Property>
    requires n <= |doc.sections|
    decreases |doc.sections| - n
  {
    if n == |doc.sections| then [] else Of(doc.props, n) + GroupedFrom(doc, n + 1)
  }

  // ---------------------------------------------------------------- round trip

  lemma BlankRunAt(t: string, n: nat)
    requires n <= |t| && (forall i :: 0 <= i < n ==> Blank(t[i])) && (n < |t| ==> !Blank(t[n]))
    ensures BlankRun(t) == n
  {
    if n > 0 {
      BlankRunAt(t[1..], n - 1);
    }
  }

  lemma RunToAt(t: string, stop: char, n: nat)
    requires n < |t| && (forall i :: 0 <= i < n ==> t[i] != stop && t[i] != '\n')
    requires t[n] == stop || t[n] == '\n'
    ensures RunTo(t, stop) == n
  {
    if n > 0 {
      RunToAt(t[1..], stop, n - 1);
    }
  }

  /** A blank between items makes no difference. */
  lemma ScanBlank(c: char, rest: string, section: nat, doc: Doc)
    requires Blank(c)
    ensures Scan([c] + rest, section, doc) == Scan(rest, section, doc)
  {
    hide ItemAt;
    var t := [c] + rest;
    assert t[1..] == rest;
    assert t[BlankRun(t)..] == rest[BlankRun(rest)..];
    assert NextItem(t) == NextItem(rest);
  }

  lemma HeaderItem(name: string, rest: string)
    requires SectionName(name)
    ensures NextItem("[" + name + "]\n" + rest) == Section(name, "\n" + rest)
  {
    var t := "[" + name + "]\n" + rest;
    assert BlankRun(t) == 0 && t[0..] == t;
    var u := t[1..];
    assert u == name + ("]\n" + rest);
    RunToAt(u, ']', |name|);
    assert u[..|name|] == name;
    assert t[1 + |name|..] == "]" + ("\n" + rest);
  }

  lemma ScanHeader(name: string, rest: string, section: nat, doc: Doc)
    requires SectionName(name)
    ensures Scan("[" + name + "]\n" + rest, section, doc) == Scan(rest, |doc.sections|, AddSection(doc, name))
  {
    hide NextItem;
    HeaderItem(name, rest);
    ScanBlank('\n', rest, |doc.sections|, AddSection(doc, name));
  }

  lemma ValueItem(value: string, rest: string)
    requires PropertyValue(value)
    ensures var v := value + "\n" + rest;
      InlineBlankRun(v) == 0 && ValueLength(v) == |value|
      && v[..|value|] == value && v[|value|..] == "\n" + rest
  {
    var v := value + "\n" + rest;
    RunToAt(v, '\n', |value|);
    assert v[..|value|] == value;
  }

  lemma NoBlanks(t: string)
    requires t != "" && !Blank(t[0])
    ensures BlankRun(t) == 0 && t[BlankRun(t)..] == t
  {
  }

  lemma LineItem(p: Property, rest: string)
    requires PropertyName(p.name) && PropertyValue(p.value)
    ensures NextItem(Line(p) + rest) == Entry(p.name, p.value, "\n" + rest)
  {
    hide RunTo, Trimmed, BlankRun, InlineBlankRun, ValueLength, PropertyValue;
    var t := Line(p) + rest;
    var v := p.value + "\n" + rest;
    NoBlanks(t);
    RunToAt(t, '=', |p.name|);
    assert t == p.name + ("=" + v);
    assert t[..|p.name|] == p.name;
    var r := t[|p.name|..];
    assert r == "=" + v && r[1..] == v;
    ValueItem(p.value, rest);
    assert r[1 + 0..] == v;
    ValueGiven(p.value);
  }

  lemma ValueGiven(value: string)
    requires PropertyValue(value)
    ensures value != ""
  {
  }

  lemma ScanLine(p: Property, rest: string, doc: Doc)
    requires PropertyName(p.name) && PropertyValue(p.value)
    ensures Scan(Line(p) + rest, p.section, doc) == Scan(rest, p.section, AddProperty(doc, p.section, p.name, p.value))
  {
    hide NextItem;
    LineItem(p, rest);
    ScanBlank('\n', rest, p.section, AddProperty(doc, p.section, p.name, p.value));
  }

  lemma {:induction false} ScanLines(props: seq<Property>, section: nat, n: nat, rest: string, doc: Doc)
    requires LinedProperties(props, n) && ProperIn(props, section)
    ensures Scan(Lines(props, section) + rest, section, doc)
      == Scan(rest, section, doc.(props := doc.props + Of(props, section)))
    decreases |props|
  {
    hide Scan;
    if props == [] {
      assert "" + rest == rest && doc.props + [] == doc.props;
    } else {
      var p, after := props[0], Lines(props[1..], section) + rest;
      if p.section == section {
        assert Lines(props, section) + rest == Line(p) + after;
        ScanLine(p, after, doc);
        ScanLines(props[1..], section, n, rest, AddProperty(doc, section, p.name, p.value));
        assert doc.props + [p] + Of(props[1..], section) == doc.props + Of(props, section);
      } else {
        assert Lines(props, section) == Lines(props[1..], section);
        assert Of(props, section) == Of(props[1..], section);
        ScanLines(props[1..], section, n, rest, doc);
      }
    }
  }

  lemma PrintStep(doc: Doc, n: nat, started: bool)
    requires Lined(doc) && 1 <= n < |doc.sections|
    ensures PrintFrom(doc, n, started)
      == "[" + doc.sections[n] + "]\n" + (Lines(doc.props, n) + (['\n'] + PrintFrom(doc, n + 1, true)))
  {
    var head, lines, rest := Header(doc.sections[n]), Lines(doc.props, n), PrintFrom(doc, n + 1, true);
    assert head + lines != "";
    Assoc(head + lines, "\n", rest);
    Assoc(head, lines, ['\n'] + rest);
  }

  /** Reading the sections from n on into a store that holds those before. */
  lemma {:induction false} ScanSections(doc: Doc, n: nat, started: bool, read: Doc)
    requires WellFormed(doc) && 1 <= n <= |doc.sections|
    requires read.sections == doc.sections[..n]
    ensures Scan(PrintFrom(doc, n, started), n - 1, read)
      == Doc(doc.sections, read.props + GroupedFrom(doc, n))
    decreases |doc.sections| - n
  {
    hide Scan;
    if n == |doc.sections| {
      ScanNothing(n - 1, read);
      assert read.sections == doc.sections && read.props + [] == read.props;
    } else {
      hide PrintFrom, Of;
      ScanOneSection(doc, n, started, read);
      ScanSections(doc, n + 1, true, Doc(doc.sections[..n + 1], read.props + Of(doc.props, n)));
      Assoc(read.props, Of(doc.props, n), GroupedFrom(doc, n + 1));
    }
  }

  lemma ScanOneSection(doc: Doc, n: nat, started: bool, read: Doc)
    requires Lined(doc) && ProperIn(doc.props, n) && 1 <= n < |doc.sections|
    requires read.sections == doc.sections[..n]
    ensures Scan(PrintFrom(doc, n, started), n - 1, read)
      == Scan(PrintFrom(doc, n + 1, true), n, Doc(doc.sections[..n + 1], read.props + Of(doc.props, n)))
  {
    hide Scan, PrintFrom, Lines, Of, SectionName, LinedProperties, ProperIn;
    var tail := PrintFrom(doc, n + 1, true);
    PrintStep(doc, n, started);
    ScanHeader(doc.sections[n], Lines(doc.props, n) + (['\n'] + tail), n - 1, read);
    var named := AddSection(read, doc.sections[n]);
    assert named.sections == doc.sections[..n + 1];
    ScanLines(doc.props, n, |doc.sections|, ['\n'] + tail, named);
    ScanBlank('\n', tail, n, Doc(doc.sections[..n + 1], read.props + Of(doc.props, n)));
  }

  lemma ScanNothing(section: nat, doc: Doc)
    ensures Scan("", section, doc) == doc
  {
    assert NextItem("") == End;
  }

  /** The global section's part of the text: its lines and, if there are any, a gap. */
  function Gap(doc: Doc): string {
    if Lines(doc.props, 0) != "" then "\n" else ""
  }

  lemma PrintStart(doc: Doc)
    requires Lined(doc)
    ensures Print(doc) == Lines(doc.props, 0) + (Gap(doc) + PrintFrom(doc, 1, Gap(doc) != ""))
  {
    var lines, rest := Lines(doc.props, 0), PrintFrom(doc, 1, Gap(doc) != "");
    assert Header("") + lines == lines;
    Assoc(lines, Gap(doc), rest);
  }

  /** Round trip: loading the saved text gives the same sections in order, and in each
      the same properties in order. */
  lemma {:induction false} LoadInvertsPrint(doc: Doc)
    requires WellFormed(doc)
    ensures Load(Print(doc)) == Doc(doc.sections, GroupedFrom(doc, 0))
    ensures forall s :: Of(Load(Print(doc)).props, s) == Of(doc.props, s)
  {
    LoadPrinted(doc);
    forall s ensures Of(GroupedFrom(doc, 0), s) == Of(doc.props, s) {
      GroupedKeeps(doc, 0, s);
    }
  }

  lemma {:induction false} LoadPrinted(doc: Doc)
    requires WellFormed(doc)
    ensures Load(Print(doc)) == Doc(doc.sections, GroupedFrom(doc, 0))
  {
    hide Scan, Print, PrintFrom, Lines, Of;
    var rest := PrintFrom(doc, 1, Gap(doc) != "");
    PrintStart(doc);
    ScanLines(doc.props, 0, |doc.sections|, Gap(doc) + rest, EMPTY);
    var first := EMPTY.(props := EMPTY.props + Of(doc.props, 0));
    if Gap(doc) != "" {
      ScanBlank('\n', rest, 0, first);
    } else {
      assert Gap(doc) + rest == rest;
    }
    assert doc.sections[..1] == [""];
    ScanSections(doc, 1, Gap(doc) != "", first);
    Assoc([], Of(doc.props, 0), GroupedFrom(doc, 1));
    assert [] + GroupedFrom(doc, 0) == GroupedFrom(doc, 0);
  }

  lemma {:induction false} OfAppend(xs: seq<Property>, ys: seq<Property>, s: nat)
    ensures Of(xs + ys, s) == Of(xs, s) + Of(ys, s)
  {
    if xs == [] {
      assert xs + ys == ys;
    } else {
      assert (xs + ys)[1..] == xs[1..] + ys;
      OfAppend(xs[1..], ys, s);
      Assoc(if xs[0].section == s then [xs[0]] else [], Of(xs[1..], s), Of(ys, s));
    }
  }

  lemma {:induction false} OfTwice(props: seq<Property>, n: nat, s: nat)
    ensures Of(Of(props, n), s) == if n == s then Of(props, s) else []
  {
    if props != [] {
      OfTwice(props[1..], n, s);
      OfAppend(if props[0].section == n then [props[0]] else [], Of(props[1..], n), s);
    }
  }

  /** Every property belongs to one of the first n sections. */
  ghost predicate Within(props: seq<Property>, n: nat) {
    forall i :: 0 <= i < |props| ==> props[i].section < n
  }

  lemma {:induction false} GroupedKeeps(doc: Doc, n: nat, s: nat)
    requires n <= |doc.sections| && Within(doc.props, |doc.sections|)
    ensures Of(GroupedFrom(doc, n), s) == if s >= n then Of(doc.props, s) else []
    decreases |doc.sections| - n
  {
    hide Of, Within;
    if n == |doc.sections| {
      NoneOf(s);
      if s >= n {
        NoneBeyond(doc.props, n, s);
      }
    } else {
      GroupedKeeps(doc, n + 1, s);
      OfAppend(Of(doc.props, n), GroupedFrom(doc, n + 1), s);
      OfTwice(doc.props, n, s);
    }
  }

  lemma NoneOf(s: nat)
    ensures Of([], s) == []
  {
  }

  lemma {:induction false} NoneBeyond(props: seq<Property>, n: nat, s: nat)
    requires Within(props, n) && s >= n
    ensures Of(props, s) == []
  {
    if props != [] {
      NoneBeyond(props[1..], n, s);
    }
  }

  // ---------------------------------------------------------------- and no more than that

  lemma {:induction false} ScanExtends(t: string, section: nat, doc: Doc)
    ensures doc.props <= Scan(t, section, doc).props
    decreases |t|
  {
    match NextItem(t) {
      case End =>
      case Skipped(rest) => ScanExtends(rest, section, doc);
      case Section(name, rest) => ScanExtends(rest, |doc.sections|, AddSection(doc, name));
      case Entry(name, value, rest) => ScanExtends(rest, section, AddProperty(doc, section, name, value));
    }
  }

  /** What the scanner never makes: a section or a property without a name, a property of no
      section, or a first section that is not the global one. */
  ghost predicate Loadable(doc: Doc) {
    && doc.sections != [] && doc.sections[0] == ""
    && (forall i :: 1 <= i < |doc.sections| ==> doc.sections[i] != "")
    && (forall i :: 0 <= i < |doc.props| ==> doc.props[i].section < |doc.sections| && doc.props[i].name != "")
  }

  lemma {:induction false} ScanKeepsLoadable(t: string, section: nat, doc: Doc)
    requires Loadable(doc) && section < |doc.sections|
    ensures Loadable(Scan(t, section, doc))
    decreases |t|
  {
    match NextItem(t) {
      case End =>
      case Skipped(rest) => ScanKeepsLoadable(rest, section, doc);
      case Section(name, rest) => ScanKeepsLoadable(rest, |doc.sections|, AddSection(doc, name));
      case Entry(name, value, rest) => ScanKeepsLoadable(rest, section, AddProperty(doc, section, name, value));
    }
  }

  /** Whatever the text, a loaded store has the shape removal and merging rely on. */
  lemma LoadedShape(t: string)
    ensures Loadable(Load(t))
  {
    ScanKeepsLoadable(t, 0, EMPTY);
  }

  /** What is read of any value in a line of its own is that value only if it is proper. */
  lemma AnyValue(value: string, rest: string)
    requires '\n' !in value
    ensures var v := ValueText("=" + value + "\n" + rest);
      Field(v, ValueLength(v)) == value ==> PropertyValue(value)
  {
    var r := "=" + value + "\n" + rest;
    var v := ValueText(r);
    assert r[1..][|value|] == '\n';
    InlineBlankStops(r[1..], |value|);
    assert v[|value| - InlineBlankRun(r[1..])] == '\n';
  }

  /** What the scanner makes of a line with any value in it. */
  lemma AnyValueItem(name: string, value: string, rest: string)
    requires PropertyName(name) && '\n' !in value
    ensures var item := NextItem(name + "=" + value + "\n" + rest);
      item.Entry? && item.name == name && (item.value == value ==> PropertyValue(value))
  {
    hide ValueText, ValueLength;
    var t := name + "=" + value + "\n" + rest;
    assert BlankRun(t) == 0 && t[0..] == t;
    RunToAt(t, '=', |name|);
    assert t[..|name|] == name;
    assert t[|name|..] == "=" + value + "\n" + rest;
    AnyValue(value, rest);
  }

  lemma InlineBlankStops(t: string, k: nat)
    requires k < |t| && t[k] == '\n'
    ensures InlineBlankRun(t) <= k
  {
    if k > 0 && Blank(t[0]) && t[0] != '\n' {
      InlineBlankStops(t[1..], k - 1);
    }
  }

  /** A section with a value that does not survive is not read back as it is. */
  lemma {:induction false} LinesDiffer(props: seq<Property>, section: nat, n: nat, rest: string, doc: Doc)
    requires LinedProperties(props, n) && !ProperIn(props, section)
    ensures !(doc.props + Of(props, section) <= Scan(Lines(props, section) + rest, section, doc).props)
    decreases |props|
  {
    hide Scan, PropertyName, PropertyValue;
    var p, after := props[0], Lines(props[1..], section) + rest;
    if p.section != section {
      assert Lines(props, section) == Lines(props[1..], section);
      assert Of(props, section) == Of(props[1..], section);
      LinesDiffer(props[1..], section, n, rest, doc);
    } else {
      assert Lines(props, section) + rest == Line(p) + after;
      assert Of(props, section) == [p] + Of(props[1..], section);
      if PropertyValue(p.value) {
        ScanLine(p, after, doc);
        LinesDiffer(props[1..], section, n, rest, AddProperty(doc, section, p.name, p.value));
        assert doc.props + [p] + Of(props[1..], section) == doc.props + Of(props, section);
      } else {
        LineDiffers(p, after, doc);
        assert (doc.props + Of(props, section))[|doc.props|] == p;
      }
    }
  }

  /** A line with such a value gives a property that is not the one printed. */
  lemma LineDiffers(p: Property, rest: string, doc: Doc)
    requires PropertyName(p.name) && '\n' !in p.value && !PropertyValue(p.value)
    ensures var read := Scan(Line(p) + rest, p.section, doc).props;
      |doc.props| < |read| && read[|doc.props|] != p
  {
    hide NextItem, PropertyValue;
    AnyValueItem(p.name, p.value, rest);
    assert Line(p) + rest == p.name + "=" + p.value + "\n" + rest;
    var item := NextItem(Line(p) + rest);
    var read := AddProperty(doc, p.section, item.name, item.value);
    ScanExtends(item.rest, p.section, read);
    assert read.props[|doc.props|].value != p.value;
  }

  lemma {:induction false} SectionsDiffer(doc: Doc, n: nat, started: bool, read: Doc)
    requires Lined(doc) && 1 <= n <= |doc.sections| && read.sections == doc.sections[..n]
    requires exists i :: 0 <= i < |doc.props| && doc.props[i].section >= n && !PropertyValue(doc.props[i].value)
    ensures !(read.props + GroupedFrom(doc, n) <= Scan(PrintFrom(doc, n, started), n - 1, read).props)
    decreases |doc.sections| - n
  {
    hide Scan, PrintFrom, Of, Lines, PropertyValue, PropertyName, SectionName;
    var part, others := Of(doc.props, n), GroupedFrom(doc, n + 1);
    Assoc(read.props, part, others);
    if ProperIn(doc.props, n) {
      ScanOneSection(doc, n, started, read);
      SectionsDiffer(doc, n + 1, true, Doc(doc.sections[..n + 1], read.props + part));
    } else {
      var after := ['\n'] + PrintFrom(doc, n + 1, true);
      PrintStep(doc, n, started);
      ScanHeader(doc.sections[n], Lines(doc.props, n) + after, n - 1, read);
      LinesDiffer(doc.props, n, |doc.sections|, after, AddSection(read, doc.sections[n]));
      FrontOfPrefix(read.props + part, others, Scan(PrintFrom(doc, n, started), n - 1, read).props);
    }
  }

  lemma FrontOfPrefix<T>(a: seq<T>, b: seq<T>, c: seq<T>)
    ensures a + b <= c ==> a <= c
  {
    if a + b <= c {
      assert forall i :: 0 <= i < |a| ==> a[i] == (a + b)[i];
    }
  }

  lemma LoadDiffers(doc: Doc)
    requires Lined(doc) && !Proper(doc.props)
    ensures !(GroupedFrom(doc, 0) <= Load(Print(doc)).props)
  {
    hide Scan, Print, PrintFrom, Lines, Of, PropertyValue, PropertyName, SectionName;
    var part, others := Of(doc.props, 0), GroupedFrom(doc, 1);
    var rest := PrintFrom(doc, 1, Gap(doc) != "");
    PrintStart(doc);
    assert [] + part == part && doc.sections[..1] == [""];
    if ProperIn(doc.props, 0) {
      ScanLines(doc.props, 0, |doc.sections|, Gap(doc) + rest, EMPTY);
      var first := Doc([""], part);
      if Gap(doc) != "" {
        ScanBlank('\n', rest, 0, first);
      } else {
        assert Gap(doc) + rest == rest;
      }
      SectionsDiffer(doc, 1, Gap(doc) != "", first);
    } else {
      LinesDiffer(doc.props, 0, |doc.sections|, Gap(doc) + rest, EMPTY);
      FrontOfPrefix(part, others, Load(Print(doc)).props);
    }
  }

  /** The conditions on values are exact: a store with proper names and one-line values
      survives saving and loading just when none of its values is empty, starts or ends with
      a blank. */
  lemma {:induction false} ValueRoundTripIff(doc: Doc)
    requires Lined(doc)
    ensures Load(Print(doc)) == Doc(doc.sections, GroupedFrom(doc, 0)) <==> Proper(doc.props)
  {
    hide Load, Print, GroupedFrom, Lined, Proper;
    if Proper(doc.props) {
      LoadInvertsPrint(doc);
    } else {
      LoadDiffers(doc);
    }
  }
}
