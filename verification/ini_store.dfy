/**
 The INI store of include/ini.h with its arrays in place: growth, scanning, printing,
 lookup and removal.
 */
module IniStore {
  import opened IniText

  const INITIAL_CAPACITY: nat := 256
  const NOT_FOUND: int := -1
  /** A slot that has never been used, as calloc leaves it. */
  const UNUSED := Property(0, "", "")

  // ---------------------------------------------------------------- lookup

  function Lower(c: char): char {
    if 'A' <= c <= 'Z' then (c as int + 32) as char else c
  }

  /** strncasecmp(query, name, |query|) == 0 */
  predicate Matches(query: string, name: string) {
    |query| <= |name| && forall i :: 0 <= i < |query| ==> Lower(query[i]) == Lower(name[i])
  }

  /** The same character, or the same letter in the other case. */
  predicate SameLetter(a: char, b: char) {
    || a == b
    || ('A' <= a <= 'Z' && b as int == a as int + 32)
    || ('A' <= b <= 'Z' && a as int == b as int + 32)
  }

  ghost predicate SameText(s: string, t: string) {
    |s| == |t| && forall i :: 0 <= i < |s| ==> SameLetter(s[i], t[i])
  }

  lemma SameLetterIff(a: char, b: char)
    ensures Lower(a) == Lower(b) <==> SameLetter(a, b)
  {
  }

  /** A query matches the names that start with it but for the case of letters, and no other. */
  lemma MatchesIff(query: string, name: string)
    ensures Matches(query, name) <==> |query| <= |name| && SameText(query, name[..|query|])
  {
    if |query| <= |name| {
      forall i | 0 <= i < |query|
        ensures Lower(query[i]) == Lower(name[i]) <==> SameLetter(query[i], name[..|query|][i])
      {
        SameLetterIff(query[i], name[i]);
      }
    }
  }

  /** The case of letters makes no difference, in the query or in a name. */
  lemma MatchesFolds(query: string, query': string, name: string, name': string)
    requires SameText(query, query') && SameText(name, name')
    ensures Matches(query, name) == Matches(query', name')
  {
    forall i | 0 <= i < |query| ensures Lower(query[i]) == Lower(query'[i]) {
      SameLetterIff(query[i], query'[i]);
    }
    forall i | 0 <= i < |name| ensures Lower(name[i]) == Lower(name'[i]) {
      SameLetterIff(name[i], name'[i]);
    }
  }

  /** The slots of a section's properties, in order. */
  function Slots(props: seq<Property>, section: int): seq<nat> {
    if props == [] then []
    else
      var n := |props| - 1;
      Slots(props[..n], section) + if props[n].section == section then [n] else []
  }

  /** The first section whose name starts with the query, ignoring case. */
  function FindSection(sections: seq<string>, query: string): (r: int)
    ensures r == NOT_FOUND || 0 <= r < |sections|
  {
    if sections == [] then NOT_FOUND
    else
      var n := |sections| - 1;
      var r := FindSection(sections[..n], query);
      if r != NOT_FOUND then r else if Matches(query, sections[n]) then n else NOT_FOUND
  }

  /** The number, within its section, of the first property whose name starts with the
      query, ignoring case. */
  function FindProperty(props: seq<Property>, section: int, query: string): (r: int)
    ensures r == NOT_FOUND || 0 <= r < |Slots(props, section)|
  {
    if props == [] then NOT_FOUND
    else
      var n := |props| - 1;
      var r := FindProperty(props[..n], section, query);
      if r != NOT_FOUND then r
      else if props[n].section == section && Matches(query, props[n].name) then |Slots(props[..n], section)|
      else NOT_FOUND
  }

  /** Slots is an order-preserving bijection onto the slots of the section. */
  lemma {:induction false} SlotsExact(props: seq<Property>, section: int)
    ensures var slots := Slots(props, section);
      && (forall c :: 0 <= c < |slots| ==> slots[c] < |props| && props[slots[c]].section == section)
      && (forall c, d :: 0 <= c < d < |slots| ==> slots[c] < slots[d])
      && (forall i :: 0 <= i < |props| && props[i].section == section ==> i in slots)
  {
    if props != [] {
      SlotsExact(props[..|props| - 1], section);
    }
  }

  /** What the found number means: that property's name starts with the query and no
      earlier one of the section does; otherwise none does. */
  lemma {:induction false} FindPropertyFirst(props: seq<Property>, section: int, query: string)
    ensures var slots, r := Slots(props, section), FindProperty(props, section, query);
      && (forall c :: 0 <= c < |slots| ==> slots[c] < |props|)
      && (forall c :: 0 <= c < (if r == NOT_FOUND then |slots| else r) ==> !Matches(query, props[slots[c]].name))
      && (r != NOT_FOUND ==> Matches(query, props[slots[r]].name))
  {
    hide Matches;
    SlotsExact(props, section);
    if props != [] {
      var front := props[..|props| - 1];
      FindPropertyFirst(front, section, query);
      SlotsExact(front, section);
    }
  }

  /** So neither search depends on it. */
  lemma {:induction false} FindSectionFolds(sections: seq<string>, sections': seq<string>,
                                            query: string, query': string)
    requires SameText(query, query') && |sections| == |sections'|
    requires forall i :: 0 <= i < |sections| ==> SameText(sections[i], sections'[i])
    ensures FindSection(sections, query) == FindSection(sections', query')
  {
    if sections != [] {
      var n := |sections| - 1;
      FindSectionFolds(sections[..n], sections'[..n], query, query');
      MatchesFolds(query, query', sections[n], sections'[n]);
    }
  }

  ghost predicate SameNames(props: seq<Property>, props': seq<Property>) {
    && |props| == |props'|
    && forall i :: 0 <= i < |props| ==>
         props[i].section == props'[i].section && SameText(props[i].name, props'[i].name)
  }

  lemma {:induction false} FindPropertyFolds(props: seq<Property>, props': seq<Property>, section: int,
                                             query: string, query': string)
    requires SameText(query, query') && SameNames(props, props')
    ensures FindProperty(props, section, query) == FindProperty(props', section, query')
    ensures Slots(props, section) == Slots(props', section)
  {
    if props != [] {
      var n := |props| - 1;
      FindPropertyFolds(props[..n], props'[..n], section, query, query');
      MatchesFolds(query, query', props[n].name, props'[n].name);
    }
  }

  class Store {
    var sections: array<string>
    var sectionCount: nat
    var props: array<Property>
    var propCount: nat

    ghost predicate Valid()
      reads this
    {
      && sectionCount <= sections.Length && 0 < sections.Length
      && propCount <= props.Length && 0 < props.Length
    }

    ghost function View(): Doc
      reads this, sections, props
      requires Valid()
    {
      Doc(sections[..sectionCount], props[..propCount])
    }

    /** No property was ever removed: slots past the last one are unused. */
    ghost predicate Slack()
      reads this, props
    {
      forall i :: propCount <= i < props.Length ==> props[i] == UNUSED
    }

    /** ini_create */
    constructor ()
      ensures Valid() && Slack() && View() == EMPTY && fresh(sections) && fresh(props)
      ensures props.Length == INITIAL_CAPACITY
    {
      sections := new string[INITIAL_CAPACITY](_ => "");
      sectionCount := 1;
      props := new Property[INITIAL_CAPACITY](_ => UNUSED);
      propCount := 0;
      new;
      assert sections[..1] == [""];
    }

    /** ini_section_add; text stands for the characters from the name's pointer on. */
    method SectionAdd(text: string, length: int) returns (index: nat)
      requires Valid() && length <= |text|
      modifies this`sections, this`sectionCount, sections
      ensures Valid() && index == |old(View()).sections|
      ensures View() == AddSection(old(View()), Field(text, length))
      ensures fresh(sections) || sections == old(sections)
    {
      if sectionCount >= sections.Length {
        var was := sections;
        sections := new string[was.Length * 2](_ => "");
        forall i | 0 <= i < sectionCount {
          sections[i] := was[i];
        }
      }
      sections[sectionCount] := if length <= 0 then text else text[..length];
      index := sectionCount;
      sectionCount := sectionCount + 1;
    }

    /** ini_property_add; a section that does not exist gets nothing. */
    method PropertyAdd(section: int, name: string, nameLength: int, value: string, valueLength: int)
      requires Valid() && nameLength <= |name| && valueLength <= |value|
      modifies this`props, this`propCount, props
      ensures Valid() && (old(Slack()) ==> Slack())
      ensures View() == if 0 <= section < sectionCount
        then AddProperty(old(View()), section, Field(name, nameLength), Field(value, valueLength))
        else old(View())
      ensures fresh(props) || props == old(props)
      ensures props.Length == if 0 <= section < sectionCount && old(propCount) >= old(props.Length)
        then 2 * old(props.Length) else old(props.Length)
    {
      if section < 0 || section >= sectionCount {
        return;
      }
      if propCount >= props.Length {
        var was := props;
        props := new Property[was.Length * 2](_ => UNUSED);
        forall i | 0 <= i < propCount {
          props[i] := was[i];
        }
      }
      props[propCount] := Property(section, if nameLength <= 0 then name else name[..nameLength],
                                   if valueLength <= 0 then value else value[..valueLength]);
      propCount := propCount + 1;
    }

    /** ini_property_count */
    method CountProperties(section: int) returns (count: nat)
      requires Valid()
      ensures count == |Slots(View().props, section)|
    {
      count := 0;
      var i := 0;
      while i < propCount
        invariant 0 <= i <= propCount && count == |Slots(props[..i], section)|
      {
        assert props[..i + 1][..i] == props[..i];
        if props[i].section == section {
          count := count + 1;
        }
        i := i + 1;
      }
    }

    /** ini_internal_property_index */
    method PropertyIndex(section: int, property: int) returns (slot: int)
      requires Valid()
      ensures var slots := Slots(View().props, section);
        slot == if 0 <= section < sectionCount && 0 <= property < |slots| then slots[property] else NOT_FOUND
    {
      if section < 0 || section >= sectionCount {
        return NOT_FOUND;
      }
      var p := 0;
      var i := 0;
      while i < propCount
        invariant 0 <= i <= propCount && p == |Slots(props[..i], section)|
        invariant !(0 <= property < p)
      {
        assert props[..i + 1][..i] == props[..i];
        if props[i].section == section {
          if p == property {
            SlotsPrefix(props[..propCount], i + 1, section);
            assert props[..propCount][..i + 1] == props[..i + 1];
            return i;
          }
          p := p + 1;
        }
        i := i + 1;
      }
      return NOT_FOUND;
    }

    /** ini_find_section; a query of length 0 is a prefix of every name. */
    method SectionFind(query: string) returns (index: int)
      requires Valid()
      ensures index == FindSection(View().sections, query)
    {
      var i := 0;
      while i < sectionCount
        invariant 0 <= i <= sectionCount && FindSection(sections[..i], query) == NOT_FOUND
      {
        assert sections[..i + 1][..i] == sections[..i];
        if Matches(query, sections[i]) {
          FindSectionPrefix(sections[..sectionCount], i + 1, query);
          assert sections[..sectionCount][..i + 1] == sections[..i + 1];
          return i;
        }
        i := i + 1;
      }
      return NOT_FOUND;
    }

    /** ini_find_property; the loop runs over the whole capacity, not only over the slots
        in use. SlackHarmlessIff says when that makes no difference. */
    method PropertyFind(section: int, query: string) returns (index: int)
      requires Valid()
      ensures index == if 0 <= section < sectionCount then FindProperty(props[..], section, query) else NOT_FOUND
    {
      if section < 0 || section >= sectionCount {
        return NOT_FOUND;
      }
      var c := 0;
      var i := 0;
      while i < props.Length
        invariant 0 <= i <= props.Length && c == |Slots(props[..i], section)|
        invariant FindProperty(props[..i], section, query) == NOT_FOUND
      {
        assert props[..i + 1][..i] == props[..i];
        if props[i].section == section {
          if Matches(query, props[i].name) {
            FindPropertyPrefix(props[..], i + 1, section, query);
            assert props[..][..i + 1] == props[..i + 1];
            return c;
          }
          c := c + 1;
        }
        i := i + 1;
      }
      assert props[..i] == props[..];
      return NOT_FOUND;
    }
  }

  /** A property of the section whose name starts with the query, ignoring case. */
  predicate Hit(p: Property, section: int, query: string) {
    p.section == section && Matches(query, p.name)
  }

  ghost predicate AnyHit(props: seq<Property>, section: int, query: string) {
    exists i :: 0 <= i < |props| && Hit(props[i], section, query)
  }

  /** Something is found exactly when something matches. */
  lemma {:induction false} FoundIffHit(props: seq<Property>, section: int, query: string)
    ensures FindProperty(props, section, query) != NOT_FOUND <==> AnyHit(props, section, query)
  {
    if props != [] {
      var front, last := props[..|props| - 1], props[|props| - 1];
      FoundIffHit(front, section, query);
      assert props == front + [last];
      if AnyHit(front, section, query) {
        var i :| 0 <= i < |front| && Hit(front[i], section, query);
        assert Hit(props[i], section, query);
      }
      if AnyHit(props, section, query) && !Hit(last, section, query) {
        var i :| 0 <= i < |props| && Hit(props[i], section, query);
        assert Hit(front[i], section, query);
      }
    }
  }

  lemma HitsSplit(xs: seq<Property>, ys: seq<Property>, section: int, query: string)
    ensures AnyHit(xs + ys, section, query) <==> AnyHit(xs, section, query) || AnyHit(ys, section, query)
  {
    var all := xs + ys;
    assert forall i :: 0 <= i < |xs| ==> xs[i] == all[i];
    assert forall i :: 0 <= i < |ys| ==> ys[i] == all[|xs| + i];
    assert forall i :: |xs| <= i < |all| ==> all[i] == ys[i - |xs|];
  }

  /** Looking past the n slots in use finds what looking at them finds, or nothing as well,
      just when one of them matches or no slot past them does. */
  lemma SlackHarmlessIff(props: seq<Property>, n: nat, section: int, query: string)
    requires n <= |props|
    ensures FindProperty(props, section, query) == FindProperty(props[..n], section, query) <==>
      AnyHit(props[..n], section, query) || !AnyHit(props[n..], section, query)
  {
    FoundIffHit(props[..n], section, query);
    FoundIffHit(props, section, query);
    assert props == props[..n] + props[n..];
    HitsSplit(props[..n], props[n..], section, query);
    if AnyHit(props[..n], section, query) {
      FindPropertyPrefix(props, n, section, query);
    }
  }

  /** When a stale slot is found, the number given is one that no live property has. */
  lemma {:induction false} StaleNumber(props: seq<Property>, n: nat, section: int, query: string)
    requires n <= |props|
    requires FindProperty(props, section, query) != FindProperty(props[..n], section, query)
    ensures FindProperty(props, section, query) >= |Slots(props[..n], section)|
    decreases |props|
  {
    assert n < |props| by {
      assert props[..|props|] == props;
    }
    var front := props[..|props| - 1];
    assert front[..n] == props[..n];
    SlotsPrefix(front, n, section);
    if FindProperty(front, section, query) != NOT_FOUND {
      StaleNumber(front, n, section, query);
    } else if FindProperty(props[..n], section, query) != NOT_FOUND {
      FindPropertyPrefix(front, n, section, query);
    }
  }

  /** Unused slots are never found by a query that is not empty. */
  lemma SlackHarmless(props: seq<Property>, n: nat, section: int, query: string)
    requires n <= |props| && query != "" && forall i :: n <= i < |props| ==> props[i] == UNUSED
    ensures FindProperty(props, section, query) == FindProperty(props[..n], section, query)
  {
    SlackHarmlessIff(props, n, section, query);
    assert forall i {:trigger props[n..][i]} :: 0 <= i < |props[n..]| ==> props[n..][i] == props[n + i];
  }

  lemma {:induction false} SlotsPrefix(props: seq<Property>, n: nat, section: int)
    requires n <= |props|
    ensures Slots(props[..n], section) <= Slots(props, section)
    decreases |props|
  {
    if n < |props| {
      assert props[..|props| - 1][..n] == props[..n];
      SlotsPrefix(props[..|props| - 1], n, section);
    } else {
      assert props[..n] == props;
    }
  }

  lemma {:induction false} FindSectionPrefix(sections: seq<string>, n: nat, query: string)
    requires n <= |sections| && FindSection(sections[..n], query) != NOT_FOUND
    ensures FindSection(sections, query) == FindSection(sections[..n], query)
    decreases |sections|
  {
    if n < |sections| {
      assert sections[..|sections| - 1][..n] == sections[..n];
      FindSectionPrefix(sections[..|sections| - 1], n, query);
    } else {
      assert sections[..n] == sections;
    }
  }

  lemma {:induction false} FindPropertyPrefix(props: seq<Property>, n: nat, section: int, query: string)
    requires n <= |props| && FindProperty(props[..n], section, query) != NOT_FOUND
    ensures FindProperty(props, section, query) == FindProperty(props[..n], section, query)
    decreases |props|
  {
    if n < |props| {
      assert props[..|props| - 1][..n] == props[..n];
      FindPropertyPrefix(props[..|props| - 1], n, section, query);
    } else {
      assert props[..n] == props;
    }
  }
}
