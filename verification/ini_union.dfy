/**
 What a merge of INI stores means for lookups: the source wins where it has a value.
 */
module IniUnion {
  import opened Basics
  import opened IniText
  import opened IniStore
  import opened IniMerge

  /** The value a property query finds in a section. */
  function ValueOf(doc: Doc, section: nat, query: string): Option<string> {
    if FindProperty(doc.props, section, query) == NOT_FOUND then None
    else Some(doc.props[FoundSlot(doc, section, query)].value)
  }

  /** The value try_read_ini finds for a section and a property. */
  function Lookup(doc: Doc, section: string, name: string): Option<string> {
    var s := FindSection(doc.sections, section);
    if s == NOT_FOUND then None else ValueOf(doc, s, name)
  }

  /** The i-th property is the first of its section that the query matches. */
  ghost predicate FirstHit(props: seq<Property>, section: int, query: string, i: nat) {
    && i < |props| && Hit(props[i], section, query)
    && forall j :: 0 <= j < i ==> !Hit(props[j], section, query)
  }

  /** A lookup takes the first section and in it the first property that match. */
  lemma LookupIs(doc: Doc, section: string, name: string, s: nat, i: nat)
    ensures FirstMatch(doc.sections, section, s) && FirstHit(doc.props, s, name, i) ==>
      Lookup(doc, section, name) == Some(doc.props[i].value)
    ensures FirstMatch(doc.sections, section, s) && !AnyHit(doc.props, s, name) ==>
      Lookup(doc, section, name) == None
    ensures (forall k :: 0 <= k < |doc.sections| ==> !Matches(section, doc.sections[k])) ==>
      Lookup(doc, section, name) == None
  {
    hide Matches;
    FindSectionFirst(doc.sections, section);
    FoundIffHit(doc.props, s, name);
    if FirstMatch(doc.sections, section, s) && FirstHit(doc.props, s, name, i) {
      FirstHitFound(doc, s, name, i);
    }
  }

  lemma FirstHitFound(doc: Doc, s: nat, name: string, i: nat)
    requires FirstHit(doc.props, s, name, i)
    ensures ValueOf(doc, s, name) == Some(doc.props[i].value)
  {
    hide Matches;
    FoundIffHit(doc.props, s, name);
    FindPropertyFirst(doc.props, s, name);
    SlotsExact(doc.props, s);
    var slots, r := Slots(doc.props, s), FindProperty(doc.props, s, name);
    assert i in slots;
    var k :| 0 <= k < |slots| && slots[k] == i;
    assert k >= r && slots[r] <= i;
    assert Hit(doc.props[slots[r]], s, name);
  }

  // ---------------------------------------------------------------- reading by path

  function BeforeSlash(path: string): (n: nat)
    ensures n <= |path| && (n < |path| ==> path[n] == '/')
  {
    if path == "" || path[0] == '/' then 0 else 1 + BeforeSlash(path[1..])
  }

  /** A path names a section and a property, or a property of the global section. */
  function Read(doc: Doc, path: string): Option<string> {
    var n := BeforeSlash(path);
    if n < |path| then Lookup(doc, path[..n], path[n + 1..]) else ValueOf(doc, 0, path)
  }

  lemma {:induction false} NoSlash(front: string, rest: string)
    requires '/' !in front && (rest == "" || rest[0] == '/')
    ensures BeforeSlash(front + rest) == |front|
  {
    if front == "" {
      assert front + rest == rest;
    } else {
      assert (front + rest)[1..] == front[1..] + rest;
      NoSlash(front[1..], rest);
    }
  }

  /** The section's name goes up to the first slash; without one the section is the global. */
  lemma ReadSplits(doc: Doc, section: string, name: string)
    requires '/' !in section
    ensures Read(doc, section + "/" + name) == Lookup(doc, section, name)
    ensures Read(doc, section) == ValueOf(doc, 0, section)
  {
    NoSlash(section, "/" + name);
    assert section + "/" + name == section + ("/" + name);
    var path := section + "/" + name;
    assert path[..|section|] == section && path[|section| + 1..] == name;
    NoSlash(section, "");
    assert section + "" == section;
  }

  /** The number PropertyFind gives leads back to a live property or to none. */
  lemma LiveOrNone(props: seq<Property>, n: nat, section: nat, query: string)
    requires n <= |props|
    ensures var found, live := FindProperty(props, section, query), FindProperty(props[..n], section, query);
      if live != NOT_FOUND then found == live else found == NOT_FOUND || found >= |Slots(props[..n], section)|
  {
    if FindProperty(props[..n], section, query) != NOT_FOUND {
      FindPropertyPrefix(props, n, section, query);
    } else if FindProperty(props, section, query) != NOT_FOUND {
      StaleNumber(props, n, section, query);
    }
  }

  /** try_read_ini: although the search runs over the whole capacity, what is read is always
      what the properties in use say. */
  method TryRead(ini: Store, name: string) returns (r: Option<string>)
    requires ini.Valid() && ini.sectionCount > 0
    ensures r == Read(ini.View(), name)
  {
    ghost var doc := ini.View();
    var section, prop := 0, name;
    var i := 0;
    assert name[0..] == name;
    while i < |name| && name[i] != '/'
      invariant 0 <= i <= |name| && BeforeSlash(name) == i + BeforeSlash(name[i..])
    {
      assert name[i..][1..] == name[i + 1..];
      i := i + 1;
    }
    if i < |name| {
      section := ini.SectionFind(name[..i]);
      if section == NOT_FOUND {
        return None;
      }
      prop := name[i + 1..];
    }
    r := ReadIn(ini, section, prop);
  }

  method ReadIn(ini: Store, section: nat, prop: string) returns (r: Option<string>)
    requires ini.Valid() && section < ini.sectionCount
    ensures r == ValueOf(ini.View(), section, prop)
  {
    ghost var doc := ini.View();
    LiveOrNone(ini.props[..], ini.propCount, section, prop);
    assert ini.props[..][..ini.propCount] == doc.props;
    SlotsExact(doc.props, section);
    var found := ini.PropertyFind(section, prop);
    if found == NOT_FOUND {
      return None;
    }
    var slot := ini.PropertyIndex(section, found);
    if slot == NOT_FOUND {
      return None;
    }
    r := Some(ini.props[slot].value);
  }

  lemma {:induction false} ReplacingKeepsPlaces(props: seq<Property>, slot: nat, value: string,
                                                section: int, query: string)
    requires slot < |props|
    ensures var after := props[slot := props[slot].(value := value)];
      && Slots(after, section) == Slots(props, section)
      && FindProperty(after, section, query) == FindProperty(props, section, query)
    decreases |props|
  {
    var n := |props| - 1;
    var after := props[slot := props[slot].(value := value)];
    if slot < n {
      assert after[..n] == props[..n][slot := props[slot].(value := value)];
      ReplacingKeepsPlaces(props[..n], slot, value, section, query);
    } else {
      assert after[..n] == props[..n];
    }
  }

  /** One step of the merge and any query, without conditions on the names: a query that
      found something finds the same slot, which has the new value just when the step's own
      name found it too; a query that found nothing finds at most a property newly added. */
  lemma PutPropertyValue(t: Target, section: nat, name: string, value: string, query: string)
    ensures var found, asked := FindProperty(t.doc.props, section, name), FindProperty(t.doc.props, section, query);
      ValueOf(PutProperty(t, section, name, value).doc, section, query)
        == if asked != NOT_FOUND then (if asked == found then Some(value) else ValueOf(t.doc, section, query))
           else if found == NOT_FOUND && Matches(query, name) then Some(value)
           else None
  {
    hide Matches;
    if FindProperty(t.doc.props, section, name) == NOT_FOUND {
      AddedValue(t, section, name, value, query);
    } else {
      ReplacedValue(t, section, name, value, query);
    }
  }

  lemma AddedValue(t: Target, section: nat, name: string, value: string, query: string)
    requires FindProperty(t.doc.props, section, name) == NOT_FOUND
    ensures var asked := FindProperty(t.doc.props, section, query);
      ValueOf(PutProperty(t, section, name, value).doc, section, query)
        == if asked != NOT_FOUND then ValueOf(t.doc, section, query)
           else if Matches(query, name) then Some(value)
           else None
  {
    hide Matches;
    var props, r := t.doc.props, PutProperty(t, section, name, value).doc;
    assert r.props[..|props|] == props;
    SlotsExact(props, section);
  }

  lemma ReplacedValue(t: Target, section: nat, name: string, value: string, query: string)
    requires FindProperty(t.doc.props, section, name) != NOT_FOUND
    ensures var found, asked := FindProperty(t.doc.props, section, name), FindProperty(t.doc.props, section, query);
      ValueOf(PutProperty(t, section, name, value).doc, section, query)
        == if asked == NOT_FOUND then None
           else if asked == found then Some(value)
           else ValueOf(t.doc, section, query)
  {
    hide Matches, FindProperty;
    var props := t.doc.props;
    ReplacingKeepsPlaces(props, FoundSlot(t.doc, section, name), value, section, query);
    SlotsExact(props, section);
  }

  /** So a name that starts another one takes its place instead of being added. */
  lemma PrefixTakesPlace(room: nat)
    ensures var t := Target(Doc([""], [Property(0, "ab", "1")]), room, true);
      PutProperty(t, 0, "a", "2").doc == Doc([""], [Property(0, "ab", "2")])
  {
    var props := [Property(0, "ab", "1")];
    assert props[..0] == [];
    assert FindProperty(props, 0, "a") == 0 by {
      assert FindProperty(props[..0], 0, "a") == NOT_FOUND;
      assert Matches("a", "ab");
    }
    assert Slots(props, 0) == [0];
  }

  /** No name of the set starts with another one, ignoring case. */
  ghost predicate PrefixFree(names: set<string>) {
    forall a, b :: a in names && b in names && a != "" && Matches(a, b) ==> a == b
  }

  ghost predicate Unique(sections: seq<string>) {
    forall i, j :: 0 <= i < j < |sections| ==> sections[i] != sections[j]
  }

  /** A store as the loader makes it, with names from the given sets. */
  ghost predicate Proper(doc: Doc, sectionNames: set<string>, names: set<string>) {
    && doc.sections != [] && doc.sections[0] == ""
    && (forall i :: 0 <= i < |doc.sections| ==> doc.sections[i] in sectionNames)
    && Within(doc.props, |doc.sections|)
    && (forall i :: 0 <= i < |doc.props| ==> doc.props[i].name in names)
  }

  // ---------------------------------------------------------------- exact lookup

  /** The position of a name. */
  function IndexOf(sections: seq<string>, name: string): (r: int)
    ensures r == NOT_FOUND || (0 <= r < |sections| && sections[r] == name)
    ensures r == NOT_FOUND ==> name !in sections
  {
    if sections == [] then NOT_FOUND
    else
      var n := |sections| - 1;
      var r := IndexOf(sections[..n], name);
      if r != NOT_FOUND then r else if sections[n] == name then n else NOT_FOUND
  }

  /** The value of a section's first, or last, property of a name. */
  function First(props: seq<Property>, section: int, name: string): Option<string> {
    if props == [] then None
    else
      var n := |props| - 1;
      var r := First(props[..n], section, name);
      if r.Some? then r
      else if props[n].section == section && props[n].name == name then Some(props[n].value)
      else None
  }

  function Last(props: seq<Property>, section: int, name: string): Option<string> {
    if props == [] then None
    else
      var n := |props| - 1;
      if props[n].section == section && props[n].name == name then Some(props[n].value)
      else Last(props[..n], section, name)
  }

  lemma {:induction false} FindSectionExact(sections: seq<string>, names: set<string>, query: string)
    requires PrefixFree(names) && query in names
    requires forall i :: 0 <= i < |sections| ==> sections[i] in names
    requires query == "" ==> sections == [] || sections[0] == ""
    ensures FindSection(sections, query) == IndexOf(sections, query)
    decreases |sections|
  {
    if sections != [] {
      var n := |sections| - 1;
      FindSectionExact(sections[..n], names, query);
      assert sections[n] in names;
    }
  }

  lemma {:induction false} FindPropertyExact(props: seq<Property>, names: set<string>, section: int, query: string)
    requires PrefixFree(names) && query in names && query != ""
    requires forall i :: 0 <= i < |props| ==> props[i].name in names
    ensures var r, slots := FindProperty(props, section, query), Slots(props, section);
      && (r == NOT_FOUND ==> First(props, section, query) == None)
      && (r != NOT_FOUND ==>
            && slots[r] < |props| && props[slots[r]].name == query
            && First(props, section, query) == Some(props[slots[r]].value)
            && First(props[..slots[r]], section, query) == None)
    decreases |props|
  {
    if props != [] {
      var n := |props| - 1;
      FindPropertyExact(props[..n], names, section, query);
      assert props[n].name in names;
      var r := FindProperty(props[..n], section, query);
      if r != NOT_FOUND {
        var slot := Slots(props[..n], section)[r];
        assert Slots(props, section)[r] == slot;
        assert props[..n][..slot] == props[..slot];
      } else {
        assert props[..n][..n] == props[..n];
      }
    }
  }

  /** Giving the first property of a name a new value changes that name's lookup only. */
  lemma {:induction false} FirstReplaced(props: seq<Property>, slot: nat, value: string, section: int, name: string)
    requires slot < |props| && First(props[..slot], props[slot].section, props[slot].name) == None
    ensures First(props[slot := props[slot].(value := value)], section, name)
      == if section == props[slot].section && name == props[slot].name then Some(value)
         else First(props, section, name)
    decreases |props|
  {
    var n := |props| - 1;
    var after := props[slot := props[slot].(value := value)];
    if slot < n {
      assert props[..n][..slot] == props[..slot];
      assert after[..n] == props[..n][slot := props[slot].(value := value)];
      FirstReplaced(props[..n], slot, value, section, name);
    } else {
      assert after[..n] == props[..n];
    }
  }

  /** One step of the merge, seen through a lookup. */
  lemma PutPropertyLookup(t: Target, sectionNames: set<string>, names: set<string>,
                          section: nat, name: string, value: string, s: int, q: string)
    requires Proper(t.doc, sectionNames, names) && PrefixFree(names) && "" !in names
    requires name in names && section < |t.doc.sections|
    ensures var r := PutProperty(t, section, name, value).doc;
      && Proper(r, sectionNames, names) && r.sections == t.doc.sections
      && First(r.props, s, q) == if s == section && q == name then Some(value) else First(t.doc.props, s, q)
  {
    var doc, r := t.doc, PutProperty(t, section, name, value).doc;
    FindPropertyExact(doc.props, names, section, name);
    if FindProperty(doc.props, section, name) == NOT_FOUND {
      assert r.props[..|doc.props|] == doc.props;
    } else {
      FirstReplaced(doc.props, FoundSlot(doc, section, name), value, s, q);
    }
  }

  /** The last value among the first k properties of a section. */
  function LastOf(src: Doc, from: nat, k: nat, name: string): Option<string>
    requires k <= |Slots(src.props, from)|
  {
    if k == 0 then None
    else
      var p := Nth(src, from, k - 1);
      if p.name == name then Some(p.value) else LastOf(src, from, k - 1, name)
  }

  function Or(a: Option<string>, b: Option<string>): Option<string> {
    if a.Some? then a else b
  }

  lemma {:induction false} PutPropertiesLookup(t: Target, sectionNames: set<string>, names: set<string>,
                                               section: nat, src: Doc, from: nat, k: nat, s: int, q: string)
    requires Proper(t.doc, sectionNames, names) && PrefixFree(names) && "" !in names
    requires section < |t.doc.sections| && k <= |Slots(src.props, from)|
    requires forall i :: 0 <= i < |src.props| ==> src.props[i].name in names
    ensures var r := PutProperties(t, section, src, from, k).doc;
      && Proper(r, sectionNames, names) && r.sections == t.doc.sections
      && First(r.props, s, q) == if s == section then Or(LastOf(src, from, k, q), First(t.doc.props, s, q))
                                 else First(t.doc.props, s, q)
  {
    if k > 0 {
      hide PutProperty, First, Slots, Proper, PrefixFree;
      PutPropertiesLookup(t, sectionNames, names, section, src, from, k - 1, s, q);
      var p := Nth(src, from, k - 1);
      assert p.name in names;
      PutPropertyLookup(PutProperties(t, section, src, from, k - 1), sectionNames, names,
                        section, p.name, p.value, s, q);
    }
  }

  lemma {:induction false} LastOfAll(src: Doc, from: nat, name: string)
    ensures LastOf(src, from, |Slots(src.props, from)|, name) == Last(src.props, from, name)
    decreases |src.props|
  {
    if src.props != [] {
      var n := |src.props| - 1;
      var front := Doc(src.sections, src.props[..n]);
      LastOfAll(front, from, name);
      var k := |Slots(front.props, from)|;
      LastOfFront(src, from, k, name);
    }
  }

  /** The properties of a section in the front of a list are its first ones. */
  lemma {:induction false} LastOfFront(src: Doc, from: nat, k: nat, name: string)
    requires src.props != []
    requires k <= |Slots(src.props[..|src.props| - 1], from)|
    ensures k <= |Slots(src.props, from)|
    ensures LastOf(src, from, k, name) == LastOf(Doc(src.sections, src.props[..|src.props| - 1]), from, k, name)
  {
    if k > 0 {
      var front := src.props[..|src.props| - 1];
      LastOfFront(src, from, k - 1, name);
      SlotInUse(front, from, k - 1);
      assert Slots(src.props, from)[k - 1] == Slots(front, from)[k - 1];
    }
  }

  // ---------------------------------------------------------------- the union

  /** The source's value for a section and a property: the last one given. */
  function SourceValue(src: Doc, n: nat, section: string, name: string): Option<string>
    requires n <= |src.sections|
  {
    var s := IndexOf(src.sections[..n], section);
    if s == NOT_FOUND then None else Last(src.props, s, name)
  }

  /** Lookup by exact names. */
  function Exact(doc: Doc, section: string, name: string): Option<string> {
    var s := IndexOf(doc.sections, section);
    if s == NOT_FOUND then None else First(doc.props, s, name)
  }

  lemma LookupExact(doc: Doc, sectionNames: set<string>, names: set<string>, section: string, name: string)
    requires Proper(doc, sectionNames, names) && PrefixFree(sectionNames) && PrefixFree(names) && "" !in names
    requires section in sectionNames && name in names
    ensures Lookup(doc, section, name) == Exact(doc, section, name)
  {
    FindSectionExact(doc.sections, sectionNames, section);
    var s := IndexOf(doc.sections, section);
    if s != NOT_FOUND {
      FindPropertyExact(doc.props, names, s, name);
    }
  }

  lemma {:induction false} FirstBeyond(props: seq<Property>, section: nat, name: string)
    requires Within(props, section)
    ensures First(props, section, name) == None
    decreases |props|
  {
    if props != [] {
      FirstBeyond(props[..|props| - 1], section, name);
    }
  }

  /** Placing a source section: no lookup changes, and the section is there afterwards. */
  lemma PutSectionLookup(t: Target, sectionNames: set<string>, names: set<string>, name: string, s: string, q: string)
    requires Proper(t.doc, sectionNames, names) && PrefixFree(sectionNames) && name in sectionNames
    ensures var (r, section) := PutSection(t, name);
      && Proper(r.doc, sectionNames, names) && r.doc.props == t.doc.props
      && IndexOf(r.doc.sections, name) == section && Exact(r.doc, s, q) == Exact(t.doc, s, q)
  {
    var (r, section) := PutSection(t, name);
    FindSectionExact(t.doc.sections, sectionNames, name);
    if FindSection(t.doc.sections, name) == NOT_FOUND {
      assert r.doc.sections[..|t.doc.sections|] == t.doc.sections;
      FirstBeyond(t.doc.props, section, q);
    }
  }

  /** Merging one source section, seen through a lookup. */
  lemma PutAllLookup(t: Target, sectionNames: set<string>, names: set<string>, src: Doc, from: nat,
                     s: string, q: string)
    requires Proper(t.doc, sectionNames, names) && Proper(src, sectionNames, names) && from < |src.sections|
    requires PrefixFree(sectionNames) && PrefixFree(names) && "" !in names
    ensures var r := PutAll(t, src, from).doc;
      && Proper(r, sectionNames, names)
      && Exact(r, s, q)
           == if s == src.sections[from] then Or(Last(src.props, from, q), Exact(t.doc, s, q)) else Exact(t.doc, s, q)
  {
    hide PutSection, PutProperties, PrefixFree, First;
    var name, k := src.sections[from], |Slots(src.props, from)|;
    PutSectionLookup(t, sectionNames, names, name, s, q);
    var (placed, section) := PutSection(t, name);
    PutPropertiesLookup(placed, sectionNames, names, section, src, from, k, IndexOf(placed.doc.sections, s), q);
    LastOfAll(src, from, q);
  }

  /** The first section whose name starts with the query, as a condition on the names. */
  lemma {:induction false} FindSectionFirst(sections: seq<string>, query: string)
    ensures var r := FindSection(sections, query);
      && (forall i :: 0 <= i < (if r == NOT_FOUND then |sections| else r) ==> !Matches(query, sections[i]))
      && (r != NOT_FOUND ==> Matches(query, sections[r]))
  {
    if sections != [] {
      FindSectionFirst(sections[..|sections| - 1], query);
    }
  }

  ghost predicate FirstMatch(sections: seq<string>, query: string, i: nat) {
    && i < |sections| && Matches(query, sections[i])
    && forall j :: 0 <= j < i ==> !Matches(query, sections[j])
  }

  /** A source section goes to one of its own name, found or added, exactly when no section
      of another name is the first that its name starts. */
  lemma PutSectionIff(t: Target, name: string)
    ensures var (r, section) := PutSection(t, name);
      r.doc.sections[section] == name <==>
        forall i: nat :: FirstMatch(t.doc.sections, name, i) ==> t.doc.sections[i] == name
  {
    FindSectionFirst(t.doc.sections, name);
    var found := FindSection(t.doc.sections, name);
    if found != NOT_FOUND {
      assert FirstMatch(t.doc.sections, name, found);
    }
  }

  /** So a section whose name starts another one's is merged into that one. */
  lemma PrefixSectionTaken(room: nat)
    ensures var t := Target(Doc(["", "network"], []), room, true);
      PutSection(t, "net") == (t, 1)
  {
    var sections := ["", "network"];
    FindSectionFirst(sections, "net");
    assert Matches("net", sections[1]) && !Matches("net", sections[0]);
  }

  lemma IndexOfNext(sections: seq<string>, n: nat, name: string)
    requires n < |sections| && Unique(sections)
    ensures IndexOf(sections[..n + 1], name) == if name == sections[n] then n else IndexOf(sections[..n], name)
    ensures name == sections[n] ==> IndexOf(sections[..n], name) == NOT_FOUND
  {
    assert sections[..n + 1][..n] == sections[..n];
  }

  lemma SourceValueNext(src: Doc, n: nat, s: string, q: string)
    requires n < |src.sections| && Unique(src.sections)
    ensures s == src.sections[n] ==>
      SourceValue(src, n + 1, s, q) == Last(src.props, n, q) && SourceValue(src, n, s, q) == None
    ensures s != src.sections[n] ==> SourceValue(src, n + 1, s, q) == SourceValue(src, n, s, q)
  {
    IndexOfNext(src.sections, n, s);
  }

  lemma SourceValueNone(src: Doc, s: string, q: string)
    ensures SourceValue(src, 0, s, q) == None
  {
    assert IndexOf(src.sections[..0], s) == NOT_FOUND;
  }

  lemma {:induction false} MergeLookup(t: Target, sectionNames: set<string>, names: set<string>,
                                       src: Doc, n: nat, s: string, q: string)
    requires Proper(t.doc, sectionNames, names) && Proper(src, sectionNames, names) && n <= |src.sections|
    requires PrefixFree(sectionNames) && PrefixFree(names) && "" !in names && Unique(src.sections)
    ensures var r := Merge(t, src, n).doc;
      Proper(r, sectionNames, names) && Exact(r, s, q) == Or(SourceValue(src, n, s, q), Exact(t.doc, s, q))
  {
    hide PutAll, PrefixFree, Exact, Proper, Last, Unique, SourceValue;
    if n == 0 {
      SourceValueNone(src, s, q);
    } else {
      MergeLookup(t, sectionNames, names, src, n - 1, s, q);
      PutAllLookup(Merge(t, src, n - 1), sectionNames, names, src, n - 1, s, q);
      SourceValueNext(src, n - 1, s, q);
    }
  }

  /** After a merge every lookup gives the source's last value, or else the old one: the
      section and property names of both stores and of the query must be prefix-free. */
  lemma MergeIsRightBiasedUnion(t: Target, src: Doc, sectionNames: set<string>, names: set<string>,
                                section: string, name: string)
    requires Proper(t.doc, sectionNames, names) && Proper(src, sectionNames, names) && Unique(src.sections)
    requires PrefixFree(sectionNames) && PrefixFree(names) && "" !in names
    requires section in sectionNames && name in names
    ensures Lookup(Merge(t, src, |src.sections|).doc, section, name)
      == Or(SourceValue(src, |src.sections|, section, name), Lookup(t.doc, section, name))
  {
    hide Merge, Lookup, Exact, SourceValue;
    MergeLookup(t, sectionNames, names, src, |src.sections|, section, name);
    LookupExact(t.doc, sectionNames, names, section, name);
    LookupExact(Merge(t, src, |src.sections|).doc, sectionNames, names, section, name);
  }
}
