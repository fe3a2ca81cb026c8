/**
 What the scanner of an INI text makes of each kind of line, wherever it stands: `section` is
 the current section and `doc` what has been read before.
 */
module IniLines {
  import opened Basics
  import opened IniText

  ghost predicate Inline(s: string) {
    '\n' !in s
  }

  ghost predicate AllBlank(s: string) {
    forall i :: 0 <= i < |s| ==> s[i] <= ' ' && s[i] != '\n'
  }

  /** The end of a line: a newline and what follows, or the end of the text. */
  predicate LineEnd(rest: string) {
    rest == "" || rest[0] == '\n'
  }

  lemma RunToEnd(line: string, stop: char, rest: string)
    requires (forall i :: 0 <= i < |line| ==> line[i] != stop && line[i] != '\n')
    requires rest == "" || rest[0] == stop || rest[0] == '\n'
    ensures RunTo(line + rest, stop) == |line|
    ensures (line + rest)[|line|..] == rest && (line + rest)[..|line|] == line
  {
    if line == "" {
      assert line + rest == rest;
    } else {
      assert (line + rest)[1..] == line[1..] + rest;
      RunToEnd(line[1..], stop, rest);
    }
  }

  lemma {:induction false} InlineRun(blanks: string, rest: string)
    requires AllBlank(blanks) && (rest == "" || rest[0] > ' ' || rest[0] == '\n')
    ensures InlineBlankRun(blanks + rest) == |blanks| && (blanks + rest)[|blanks|..] == rest
  {
    if blanks == "" {
      assert blanks + rest == rest;
    } else {
      assert (blanks + rest)[1..] == blanks[1..] + rest;
      InlineRun(blanks[1..], rest);
    }
  }

  lemma {:induction false} TrimmedEnd(value: string, blanks: string)
    requires AllBlank(blanks) && (value == "" || value[|value| - 1] > ' ')
    ensures Trimmed(value + blanks) == |value|
  {
    if blanks == "" {
      assert value + blanks == value;
    } else {
      assert (value + blanks)[..|value + blanks| - 1] == value + blanks[..|blanks| - 1];
      TrimmedEnd(value, blanks[..|blanks| - 1]);
    }
  }

  lemma ItemHere(t: string)
    requires t != "" && t[0] > ' '
    ensures NextItem(t) == ItemAt(t)
  {
    NoBlanks(t);
  }

  // ---------------------------------------------------------------- lines that say nothing

  /** A blank line, or any other blanks between items. */
  lemma {:induction false} BlanksSkipped(blanks: string, rest: string, section: nat, doc: Doc)
    requires forall i :: 0 <= i < |blanks| ==> blanks[i] <= ' '
    ensures Scan(blanks + rest, section, doc) == Scan(rest, section, doc)
  {
    if blanks == "" {
      assert blanks + rest == rest;
    } else {
      assert blanks + rest == [blanks[0]] + (blanks[1..] + rest);
      ScanBlank(blanks[0], blanks[1..] + rest, section, doc);
      BlanksSkipped(blanks[1..], rest, section, doc);
    }
  }

  /** A comment, whatever it looks like, up to the end of its line. */
  lemma CommentSkipped(line: string, rest: string, section: nat, doc: Doc)
    requires Inline(line) && LineEnd(rest)
    ensures Scan(";" + line + rest, section, doc) == Scan(rest, section, doc)
  {
    hide Scan;
    var t := ";" + line + rest;
    assert t == (";" + line) + rest;
    RunToEnd(";" + line, '\n', rest);
    ItemHere(t);
    ScanSkipped(t, rest, section, doc);
  }

  lemma ScanSkipped(t: string, rest: string, section: nat, doc: Doc)
    requires NextItem(t) == Skipped(rest)
    ensures Scan(t, section, doc) == Scan(rest, section, doc)
  {
  }

  lemma ScanEntry(t: string, name: string, value: string, rest: string, section: nat, doc: Doc)
    requires NextItem(t) == Entry(name, value, rest)
    ensures Scan(t, section, doc) == Scan(rest, section, AddProperty(doc, section, name, value))
  {
  }

  lemma ScanSection(t: string, name: string, rest: string, section: nat, doc: Doc)
    requires NextItem(t) == Section(name, rest)
    ensures Scan(t, section, doc) == Scan(rest, |doc.sections|, AddSection(doc, name))
  {
  }

  /** A line that is no comment, opens no section and has no equals sign. */
  lemma WordsSkipped(line: string, rest: string, section: nat, doc: Doc)
    requires line != "" && line[0] > ' ' && line[0] != ';' && line[0] != '['
    requires Inline(line) && '=' !in line && LineEnd(rest)
    ensures Scan(line + rest, section, doc) == Scan(rest, section, doc)
  {
    hide Scan;
    RunToEnd(line, '=', rest);
    ItemHere(line + rest);
    ScanSkipped(line + rest, rest, section, doc);
  }

  // ---------------------------------------------------------------- sections

  /** A name in brackets opens a section; what follows on its line is read on its own. */
  lemma SectionOpened(name: string, rest: string, section: nat, doc: Doc)
    requires name != "" && Inline(name) && ']' !in name
    ensures Scan("[" + name + "]" + rest, section, doc)
      == Scan(rest, |doc.sections|, doc.(sections := doc.sections + [name]))
  {
    hide Scan, RunTo;
    var t, inside := "[" + name + "]" + rest, name + ("]" + rest);
    assert t[1..] == inside;
    RunToEnd(name, ']', "]" + rest);
    assert t[1 + |name|..] == inside[|name|..] == "]" + rest;
    ItemHere(t);
    ScanSection(t, name, rest, section, doc);
  }

  /** Brackets with nothing between them take all the rest of the text for the name. */
  lemma EmptyBrackets(rest: string, section: nat, doc: Doc)
    ensures Scan("[]" + rest, section, doc) == Scan(rest, |doc.sections|, doc.(sections := doc.sections + ["]" + rest]))
  {
    hide Scan;
    var t := "[]" + rest;
    assert t[1..] == "]" + rest && t[1 + 0..] == "]" + rest;
    assert RunTo(t[1..], ']') == 0;
    ItemHere(t);
    ScanSection(t, "]" + rest, rest, section, doc);
  }

  /** A bracket that is not closed on its line. */
  lemma OpenBracketSkipped(line: string, rest: string, section: nat, doc: Doc)
    requires Inline(line) && ']' !in line && LineEnd(rest)
    ensures Scan("[" + line + rest, section, doc) == Scan(rest, section, doc)
  {
    hide Scan, RunTo;
    var t := "[" + line + rest;
    assert t[1..] == line + rest;
    RunToEnd(line, ']', rest);
    assert t[1 + |line|..] == (line + rest)[|line|..] == rest;
    ItemHere(t);
    ScanSkipped(t, rest, section, doc);
  }

  // ---------------------------------------------------------------- properties

  /** The usual line: a name up to the equals sign, blanks before it included, and a value
      without the blanks around it. */
  lemma PropertyRead(name: string, before: string, value: string, behind: string, rest: string,
                     section: nat, doc: Doc)
    requires name != "" && name[0] > ' ' && name[0] != ';' && name[0] != '[' && Inline(name) && '=' !in name
    requires AllBlank(before) && AllBlank(behind) && LineEnd(rest)
    requires value != "" && value[0] > ' ' && value[|value| - 1] > ' ' && Inline(value)
    ensures Scan(name + "=" + before + value + behind + rest, section, doc)
      == Scan(rest, section, doc.(props := doc.props + [Property(section, name, value)]))
  {
    hide Scan, NextItem, ValueLength, PropertyName;
    var v := value + behind + rest;
    var t := name + "=" + before + value + behind + rest;
    Regrouped(name + "=" + before, value, behind, rest);
    Assoc(name, "=", before);
    Assoc(name, "=" + before, v);
    PropertyItem(name, before, v, t);
    ValueThere(value, behind, rest);
    var after := AddProperty(doc, section, name, value);
    ScanEntry(t, name, value, behind + rest, section, doc);
    BlanksSkipped(behind, rest, section, after);
  }

  /** How far the name goes, and where the value starts. */
  lemma PropertyItem(name: string, before: string, v: string, t: string)
    requires name != "" && name[0] > ' ' && name[0] != ';' && name[0] != '[' && Inline(name) && '=' !in name
    requires AllBlank(before) && (v == "" || v[0] > ' ' || v[0] == '\n')
    requires t == name + ("=" + before + v)
    ensures NextItem(t) == Entry(name, Field(v, ValueLength(v)),
                                 if ValueLength(v) > 0 then v[ValueLength(v)..] else before + v)
  {
    hide RunTo, InlineBlankRun, ValueLength, BlankRun;
    var r := "=" + before + v;
    RunToEnd(name, '=', r);
    assert r[1..] == before + v;
    InlineRun(before, v);
    assert r[1 + |before|..] == r[1..][|before|..] == v;
    NoBlanks(t);
  }

  lemma ValueThere(value: string, behind: string, rest: string)
    requires AllBlank(behind) && LineEnd(rest) && Inline(value)
    requires value == "" || value[|value| - 1] > ' '
    ensures var v := value + behind + rest;
      && ValueLength(v) == |value| && v[..|value|] == value && v[|value|..] == behind + rest
      && (value != "" ==> v != "" && v[0] == value[0])
  {
    var v := value + behind + rest;
    assert forall i :: 0 <= i < |value + behind| ==> (value + behind)[i] != '\n';
    RunToEnd(value + behind, '\n', rest);
    TrimmedEnd(value, behind);
    Assoc(value, behind, rest);
  }

  lemma Regrouped(front: string, value: string, behind: string, rest: string)
    ensures front + value + behind + rest == front + (value + behind + rest)
  {
    Assoc(front, value, behind);
    Assoc(front, value + behind, rest);
  }

  /** An equals sign with nothing but blanks behind it takes all the rest of the text, from the
      end of the line on, for the value; the scan goes on behind the equals sign all the same. */
  lemma EmptyValueRead(name: string, before: string, rest: string, section: nat, doc: Doc)
    requires name != "" && name[0] > ' ' && name[0] != ';' && name[0] != '[' && Inline(name) && '=' !in name
    requires AllBlank(before) && LineEnd(rest)
    ensures Scan(name + "=" + before + rest, section, doc)
      == Scan(rest, section, doc.(props := doc.props + [Property(section, name, rest)]))
  {
    hide Scan;
    var t := name + "=" + before + rest;
    PropertyItem(name, before, rest, t);
    ValueThere("", "", rest);
    assert "" + "" + rest == rest;
    ScanEntry(t, name, rest, before + rest, section, doc);
    BlanksSkipped(before, rest, section, AddProperty(doc, section, name, rest));
  }

  /** An equals sign with no name takes all the rest of the text, itself included, for the
      name. */
  lemma EmptyNameRead(before: string, value: string, behind: string, rest: string, section: nat, doc: Doc)
    requires AllBlank(before) && AllBlank(behind) && LineEnd(rest)
    requires value != "" && value[0] > ' ' && value[|value| - 1] > ' ' && Inline(value)
    ensures var t := "=" + before + value + behind + rest;
      Scan(t, section, doc) == Scan(rest, section, doc.(props := doc.props + [Property(section, t, value)]))
  {
    hide Scan, NextItem, ValueLength;
    var t := "=" + before + value + behind + rest;
    var v := value + behind + rest;
    Regrouped("=" + before, value, behind, rest);
    ValueThere(value, behind, rest);
    NamelessItem(before, v, t);
    ScanEntry(t, t, value, behind + rest, section, doc);
    BlanksSkipped(behind, rest, section, AddProperty(doc, section, t, value));
  }

  lemma NamelessItem(before: string, v: string, t: string)
    requires AllBlank(before) && v != "" && v[0] > ' ' && t == "=" + before + v
    ensures NextItem(t) == Entry(t, Field(v, ValueLength(v)),
                                 if ValueLength(v) > 0 then v[ValueLength(v)..] else before + v)
  {
    hide InlineBlankRun, ValueLength, BlankRun;
    assert RunTo(t, '=') == 0 && t[0..] == t;
    assert t[1..] == before + v;
    InlineRun(before, v);
    assert t[1 + |before|..] == t[1..][|before|..] == v;
    NoBlanks(t);
  }

  // ---------------------------------------------------------------- the printed text

  /** The text of a small store, character by character: an empty line follows each section, and
      the global one only if it has properties. */
  lemma PrintedExample()
    ensures Print(Doc(["", "s"], [Property(0, "a", "1"), Property(1, "b", "2")])) == "a=1\n\n[s]\nb=2\n\n"
    ensures Print(Doc(["", "s"], [Property(1, "b", "2")])) == "[s]\nb=2\n\n"
  {
    hide PrintFrom, Lines;
    var a, b := Property(0, "a", "1"), Property(1, "b", "2");
    PrintedLines(a, b);
    SectionPrinted(Doc(["", "s"], [a, b]), true);
    SectionPrinted(Doc(["", "s"], [b]), false);
    GlobalPrinted(Doc(["", "s"], [a, b]));
    GlobalPrinted(Doc(["", "s"], [b]));
  }

  lemma PrintedLines(a: Property, b: Property)
    requires a == Property(0, "a", "1") && b == Property(1, "b", "2")
    ensures Lines([a, b], 0) == "a=1\n" && Lines([a, b], 1) == "b=2\n"
    ensures Lines([b], 0) == "" && Lines([b], 1) == "b=2\n"
  {
    assert [b][1..] == [] && [a, b][1..] == [b];
    assert Lines([b], 0) == "" + "" == "" && Lines([b], 1) == "b=2\n" + "" == "b=2\n";
    assert Lines([a, b], 0) == "a=1\n" + "" == "a=1\n";
    assert Lines([a, b], 1) == "" + "b=2\n" == "b=2\n";
  }

  lemma SectionPrinted(doc: Doc, started: bool)
    requires doc.sections == ["", "s"] && Lines(doc.props, 1) == "b=2\n"
    ensures PrintFrom(doc, 1, started) == "[s]\nb=2\n\n"
  {
    hide Lines;
    assert PrintFrom(doc, 2, true) == "";
    assert PrintFrom(doc, 1, started) == "[s]\n" + "b=2\n" + "\n" + "";
  }

  lemma GlobalPrinted(doc: Doc)
    requires doc.sections == ["", "s"]
    ensures Lines(doc.props, 0) == "" ==> Print(doc) == PrintFrom(doc, 1, false)
    ensures Lines(doc.props, 0) == "a=1\n" ==> Print(doc) == "a=1\n\n" + PrintFrom(doc, 1, true)
  {
    hide Lines;
    assert "" + Lines(doc.props, 0) == Lines(doc.props, 0);
  }
}
