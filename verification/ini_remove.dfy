/**
 Removal from an INI store: the last slot moves into the hole.
 */
module IniRemove {
  import opened IniText
  import opened IniStore

  /** Section name, property name, value. */
  type Triple = (string, string, string)

  /** The properties with their sections by name. */
  function Named(sections: seq<string>, props: seq<Property>): seq<Triple>
    requires Within(props, |sections|)
  {
    seq(|props|, i requires 0 <= i < |props| => (sections[props[i].section], props[i].name, props[i].value))
  }

  /** The properties of all other sections. */
  function Others(props: seq<Property>, section: nat): (r: seq<Property>)
    ensures forall n :: Within(props, n) ==> Within(r, n)
  {
    if props == [] then []
    else
      var n := |props| - 1;
      assert forall m :: Within(props, m) ==> Within(props[..n], m) && props[n].section < m;
      Others(props[..n], section) + if props[n].section == section then [] else [props[n]]
  }

  lemma {:induction false} OthersAppend(xs: seq<Property>, ys: seq<Property>, section: nat)
    ensures Others(xs + ys, section) == Others(xs, section) + Others(ys, section)
    decreases |ys|
  {
    if ys == [] {
      assert xs + ys == xs;
    } else {
      var n := |ys| - 1;
      assert (xs + ys)[..|xs| + n] == xs + ys[..n];
      OthersAppend(xs, ys[..n], section);
    }
  }

  lemma {:induction false} OthersAll(props: seq<Property>, section: nat)
    requires forall i :: 0 <= i < |props| ==> props[i].section != section
    ensures Others(props, section) == props
  {
    if props != [] {
      OthersAll(props[..|props| - 1], section);
    }
  }

  lemma NamedAppend(sections: seq<string>, xs: seq<Property>, ys: seq<Property>)
    requires Within(xs, |sections|) && Within(ys, |sections|)
    ensures Within(xs + ys, |sections|)
    ensures Named(sections, xs + ys) == Named(sections, xs) + Named(sections, ys)
  {
  }

  /** What stands at p is replaced by the last element, which is dropped. */
  function Filled<T>(s: seq<T>, p: nat): (r: seq<T>)
    requires p < |s|
    ensures |r| == |s| - 1
  {
    s[p := s[|s| - 1]][..|s| - 1]
  }

  lemma FilledParts<T>(s: seq<T>, p: nat)
    requires p < |s|
    ensures p == |s| - 1 ==> Filled(s, p) == s[..p] && s == s[..p] + [s[p]]
    ensures p < |s| - 1 ==>
      var b, y := s[p + 1..|s| - 1], s[|s| - 1];
      s == s[..p] + [s[p]] + b + [y] && Filled(s, p) == s[..p] + [y] + b
  {
  }

  /** Filling the hole of a property of the section conserves all other properties. */
  lemma FillingConserves(sections: seq<string>, props: seq<Property>, p: nat, section: nat)
    requires Within(props, |sections|) && p < |props| && props[p].section == section
    ensures Within(Filled(props, p), |sections|)
    ensures multiset(Named(sections, Others(Filled(props, p), section)))
      == multiset(Named(sections, Others(props, section)))
  {
    FilledParts(props, p);
    var a, x := props[..p], [props[p]];
    assert Others(x, section) == [];
    if p == |props| - 1 {
      OthersAppend(a, x, section);
      assert Others(a, section) + [] == Others(a, section);
    } else {
      var b, y := props[p + 1..|props| - 1], [props[|props| - 1]];
      OthersAppend(a + x + b, y, section);
      OthersAppend(a + x, b, section);
      OthersAppend(a, x, section);
      OthersAppend(a + y, b, section);
      OthersAppend(a, y, section);
      var oa, ob, oy := Others(a, section), Others(b, section), Others(y, section);
      assert Others(props, section) == oa + ob + oy by { assert oa + [] == oa; }
      assert Others(Filled(props, p), section) == oa + oy + ob;
      NamedAppend(sections, oa + ob, oy);
      NamedAppend(sections, oa, ob);
      NamedAppend(sections, oa + oy, ob);
      NamedAppend(sections, oa, oy);
    }
  }

  /** The number of a property's section once the last section has taken a removed one's. */
  function Renumbered(p: Property, last: nat, section: nat): Property {
    if p.section == last then p.(section := section) else p
  }

  /** ini_section_remove: exactly the section's properties go; every other one keeps its
      section's name, its name and its value, as often as it occurs. */
  method SectionRemove(ini: Store, section: nat)
    requires ini.Valid() && section < ini.sectionCount && Within(ini.View().props, ini.sectionCount)
    modifies ini, ini.sections, ini.props
    ensures ini.Valid() && Within(ini.View().props, ini.sectionCount)
    ensures ini.View().sections == Filled(old(ini.View()).sections, section)
    ensures multiset(Named(ini.View().sections, ini.View().props))
      == multiset(Named(old(ini.View()).sections, Others(old(ini.View()).props, section)))
  {
    hide Named, RenumberAll, Others, Filled;
    ghost var doc := ini.View();
    DropProperties(ini, section);
    ghost var kept := ini.View().props;
    OthersAll(kept, section);
    MoveSection(ini, section);
    Renumber(ini, section);
    RenumberedKeepsNames(doc.sections, kept, section);
  }

  method MoveSection(ini: Store, section: nat)
    requires ini.Valid() && section < ini.sectionCount
    modifies ini`sectionCount, ini.sections
    ensures ini.Valid() && ini.View() == Doc(Filled(old(ini.View()).sections, section), old(ini.View()).props)
  {
    ini.sectionCount := ini.sectionCount - 1;
    ini.sections[section] := ini.sections[ini.sectionCount];
  }

  function RenumberAll(props: seq<Property>, last: nat, section: nat): seq<Property> {
    seq(|props|, i requires 0 <= i < |props| => Renumbered(props[i], last, section))
  }

  /** The forward loop of ini_section_remove. */
  method Renumber(ini: Store, section: nat)
    requires ini.Valid()
    modifies ini.props
    ensures ini.View() == old(ini.View()).(props := RenumberAll(old(ini.View()).props, ini.sectionCount, section))
  {
    ghost var was := ini.View().props;
    var p := 0;
    while p < ini.propCount
      invariant 0 <= p <= ini.propCount == |was| && ini.View().sections == old(ini.View().sections)
      invariant forall k :: 0 <= k < |was| ==>
        ini.props[k] == if k < p then Renumbered(was[k], ini.sectionCount, section) else was[k]
    {
      if ini.props[p].section == ini.sectionCount {
        ini.props[p] := ini.props[p].(section := section);
      }
      p := p + 1;
    }
  }

  lemma RenumberedKeepsNames(sections: seq<string>, props: seq<Property>, section: nat)
    requires section < |sections| && Within(props, |sections|)
    requires forall i :: 0 <= i < |props| ==> props[i].section != section
    ensures var after := RenumberAll(props, |sections| - 1, section);
      && Within(after, |sections| - 1)
      && Named(Filled(sections, section), after) == Named(sections, props)
  {
  }

  /** The backward loop of ini_section_remove. */
  method DropProperties(ini: Store, section: nat)
    requires ini.Valid() && Within(ini.View().props, ini.sectionCount)
    modifies ini`propCount, ini.props
    ensures ini.Valid() && ini.View().sections == old(ini.View()).sections
    ensures Within(ini.View().props, ini.sectionCount)
    ensures forall i :: 0 <= i < ini.propCount ==> ini.props[i].section != section
    ensures multiset(Named(ini.View().sections, Others(ini.View().props, section)))
      == multiset(Named(ini.View().sections, Others(old(ini.View()).props, section)))
  {
    hide Named, Others;
    ghost var sections, all := ini.View().sections, ini.View().props;
    var p := ini.propCount;
    while p > 0
      invariant 0 <= p <= ini.propCount && ini.Valid() && ini.View().sections == sections
      invariant Within(ini.View().props, ini.sectionCount)
      invariant forall i :: p <= i < ini.propCount ==> ini.props[i].section != section
      invariant multiset(Named(sections, Others(ini.View().props, section)))
        == multiset(Named(sections, Others(all, section)))
    {
      p := p - 1;
      if ini.props[p].section == section {
        ghost var q := ini.View().props;
        FillingConserves(sections, q, p, section);
        ini.propCount := ini.propCount - 1;
        ini.props[p] := ini.props[ini.propCount];
        assert ini.View().props == Filled(q, p);
      }
    }
  }

  /** ini_property_remove: the last property moves into the slot of the section's property of
      that number, and its old slot, now past the ones in use, keeps a copy of it. */
  method PropertyRemove(ini: Store, section: int, property: int)
    requires ini.Valid()
    modifies ini`propCount, ini.props
    ensures ini.Valid() && ini.View().sections == old(ini.View()).sections
    ensures var props := old(ini.View()).props;
      var slots := Slots(props, section);
      if 0 <= section < ini.sectionCount && 0 <= property < |slots|
      then slots[property] < |props| && ini.View().props == Filled(props, slots[property])
           && ini.props[..] == old(ini.props[..])[slots[property] := props[|props| - 1]]
      else ini.View().props == props && ini.props[..] == old(ini.props[..])
  {
    ghost var props := ini.View().props;
    SlotsExact(props, section);
    var p := ini.PropertyIndex(section, property);
    if p != NOT_FOUND {
      ini.propCount := ini.propCount - 1;
      ini.props[p] := ini.props[ini.propCount];
      assert ini.View().props == Filled(props, p);
    }
  }

  /** A lookup after a property was removed from a store from which none had been before: it
      differs from a lookup among the properties left exactly when none of these matches and
      the property that was last does. It then gives a number none of them has. */
  lemma StaleFoundIff(was: seq<Property>, n: nat, slot: nat, section: int, query: string)
    requires slot < n <= |was| && query != "" && forall i :: n <= i < |was| ==> was[i] == UNUSED
    ensures var now := was[slot := was[n - 1]];
      var live := now[..n - 1];
      && live == Filled(was[..n], slot)
      && (FindProperty(now, section, query) != FindProperty(live, section, query) <==>
            !AnyHit(live, section, query) && Hit(was[n - 1], section, query))
      && (FindProperty(now, section, query) != FindProperty(live, section, query) ==>
            FindProperty(now, section, query) >= |Slots(live, section)|)
  {
    hide Slots, FindProperty;
    var now := was[slot := was[n - 1]];
    var live, past := now[..n - 1], now[n - 1..];
    SlackHarmlessIff(now, n - 1, section, query);
    assert past[0] == was[n - 1];
    assert forall i {:trigger past[i]} :: 1 <= i < |past| ==> past[i] == UNUSED;
    if FindProperty(now, section, query) != FindProperty(live, section, query) {
      StaleNumber(now, n - 1, section, query);
    }
  }

  /** A store at which it happens: its only property is removed, and found nevertheless. */
  method RemovedStillFound() returns (ini: Store, index: int)
    ensures ini.Valid() && ini.View() == Doc([""], []) && index == 0
  {
    var only := Property(0, "a", "1");
    assert Field(only.name, 1) == only.name && Field(only.value, 1) == only.value;
    ini := new Store();
    ini.PropertyAdd(0, only.name, 1, only.value, 1);
    assert ini.View() == Doc([""], [only]);
    assert [only][..0] == [] && Slots([], 0) == [] && Slots([only], 0) == [0];
    PropertyRemove(ini, 0, 0);
    index := ini.PropertyFind(0, "a");
    FoundFirst(ini.props[..], "a");
  }

  lemma FoundFirst(props: seq<Property>, query: string)
    requires props != [] && Hit(props[0], 0, query)
    ensures FindProperty(props, 0, query) == 0
  {
    assert props[..1] == [props[0]] && props[..1][..0] == [];
    assert FindProperty(props[..1], 0, query) == 0;
    FindPropertyPrefix(props, 1, 0, query);
  }
}
