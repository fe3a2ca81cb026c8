/**
 Merging one INI store into another (ini_cat of src/config.c): a right-biased union.
 */
module IniMerge {
  import opened IniText
  import opened IniStore

  /** Values this long are kept on the heap. */
  const HEAP_LENGTH: nat := 63

  // ---------------------------------------------------------------- the merge

  /** The destination: its contents, the capacity of its property array, and whether every
      replacement so far stayed within what ini_property_value_set handles: a slot past
      the last one exists, and no heap-stored value gave way to an inline one. */
  datatype Target = Target(doc: Doc, room: nat, sound: bool)

  lemma SlotInUse(props: seq<Property>, section: int, c: nat)
    requires c < |Slots(props, section)|
    ensures var slot := Slots(props, section)[c];
      slot < |props| && props[slot].section == section && props[slot] in props
  {
    SlotsExact(props, section);
  }

  function FoundSlot(doc: Doc, section: nat, name: string): (slot: nat)
    requires FindProperty(doc.props, section, name) != NOT_FOUND
    ensures slot < |doc.props| && doc.props[slot].section == section
  {
    var slots, found := Slots(doc.props, section), FindProperty(doc.props, section, name);
    SlotInUse(doc.props, section, found);
    slots[found]
  }

  function PutProperty(t: Target, section: nat, name: string, value: string): Target {
    if FindProperty(t.doc.props, section, name) == NOT_FOUND then
      Target(AddProperty(t.doc, section, name, value),
             if |t.doc.props| >= t.room then 2 * t.room else t.room, t.sound)
    else
      var slot := FoundSlot(t.doc, section, name);
      var p := t.doc.props[slot];
      Target(t.doc.(props := t.doc.props[slot := p.(value := value)]), t.room,
             t.sound && |t.doc.props| < t.room && (|p.value| < HEAP_LENGTH || |value| >= HEAP_LENGTH))
  }

  /** The k-th property of a section. */
  function Nth(doc: Doc, section: nat, k: nat): (p: Property)
    requires k < |Slots(doc.props, section)|
    ensures p.section == section && p in doc.props
  {
    var slots := Slots(doc.props, section);
    SlotInUse(doc.props, section, k);
    doc.props[slots[k]]
  }

  /** The first k properties of a source section. */
  function PutProperties(t: Target, section: nat, src: Doc, from: nat, k: nat): Target
    requires k <= |Slots(src.props, from)|
  {
    if k == 0 then t
    else
      var p := Nth(src, from, k - 1);
      PutProperty(PutProperties(t, section, src, from, k - 1), section, p.name, p.value)
  }

  /** The destination's section for a name, added if need be. */
  function PutSection(t: Target, name: string): (r: (Target, nat))
    ensures r.1 < |r.0.doc.sections|
  {
    var found := FindSection(t.doc.sections, name);
    if found == NOT_FOUND then (t.(doc := AddSection(t.doc, name)), |t.doc.sections|) else (t, found)
  }

  /** One section of the source. */
  function PutAll(t: Target, src: Doc, from: nat): Target
    requires from < |src.sections|
  {
    var (placed, section) := PutSection(t, src.sections[from]);
    PutProperties(placed, section, src, from, |Slots(src.props, from)|)
  }

  /** The first n sections of the source. */
  function Merge(t: Target, src: Doc, n: nat): Target
    requires n <= |src.sections|
  {
    if n == 0 then t else PutAll(Merge(t, src, n - 1), src, n - 1)
  }

  /** A step is one the store can carry out unless it replaces a value although the array is
      full, or a value of 63 characters or more by a shorter one. */
  lemma PutPropertySoundIff(t: Target, section: nat, name: string, value: string)
    ensures PutProperty(t, section, name, value).sound <==>
      t.sound && (FindProperty(t.doc.props, section, name) != NOT_FOUND ==>
        && |t.doc.props| < t.room
        && (|t.doc.props[FoundSlot(t.doc, section, name)].value| >= 63 ==> |value| >= 63))
  {
  }

  lemma {:induction false} PutPropertiesSound(t: Target, section: nat, src: Doc, from: nat, k: nat)
    requires k <= |Slots(src.props, from)| && PutProperties(t, section, src, from, k).sound
    ensures t.sound && forall j :: 0 <= j <= k ==> PutProperties(t, section, src, from, j).sound
  {
    hide FindProperty, FoundSlot, Slots;
    if k > 0 {
      PutPropertiesSound(t, section, src, from, k - 1);
    }
  }

  lemma PutAllSound(t: Target, src: Doc, from: nat)
    requires from < |src.sections| && PutAll(t, src, from).sound
    ensures t.sound
  {
    hide PutProperties;
    var (placed, section) := PutSection(t, src.sections[from]);
    PutPropertiesSound(placed, section, src, from, |Slots(src.props, from)|);
  }

  lemma {:induction false} MergeSound(t: Target, src: Doc, n: nat)
    requires n <= |src.sections| && Merge(t, src, n).sound
    ensures t.sound && forall j :: 0 <= j <= n ==> Merge(t, src, j).sound
  {
    hide PutAll;
    if n > 0 {
      PutAllSound(Merge(t, src, n - 1), src, n - 1);
      MergeSound(t, src, n - 1);
    }
  }

  ghost predicate Inline(props: seq<Property>) {
    forall i :: 0 <= i < |props| ==> |props[i].value| < HEAP_LENGTH
  }

  /** How many properties the first n sections of a source have. */
  function Total(src: Doc, n: nat): nat {
    if n == 0 then 0 else Total(src, n - 1) + |Slots(src.props, n - 1)|
  }

  lemma {:induction false} PutPropertiesFits(t: Target, section: nat, src: Doc, from: nat, k: nat)
    requires k <= |Slots(src.props, from)| && t.sound && Inline(t.doc.props) && Inline(src.props)
    requires |t.doc.props| + k < t.room
    ensures var r := PutProperties(t, section, src, from, k);
      r.sound && Inline(r.doc.props) && r.room == t.room && |r.doc.props| <= |t.doc.props| + k
  {
    hide FindProperty, FoundSlot, Slots;
    if k > 0 {
      PutPropertiesFits(t, section, src, from, k - 1);
      var p := Nth(src, from, k - 1);
      assert p in src.props;
    }
  }

  /** Room for everything and short values are enough for every replacement. */
  lemma {:induction false} MergeFits(t: Target, src: Doc, n: nat)
    requires n <= |src.sections| && t.sound && Inline(t.doc.props) && Inline(src.props)
    requires |t.doc.props| + Total(src, n) < t.room
    ensures var r := Merge(t, src, n);
      r.sound && Inline(r.doc.props) && r.room == t.room && |r.doc.props| <= |t.doc.props| + Total(src, n)
  {
    if n > 0 {
      hide PutProperties, Slots;
      MergeFits(t, src, n - 1);
      var (placed, section) := PutSection(Merge(t, src, n - 1), src.sections[n - 1]);
      PutPropertiesFits(placed, section, src, n - 1, |Slots(src.props, n - 1)|);
    }
  }

  // ---------------------------------------------------------------- in place

  ghost function View(ini: Store): Target
    reads ini, ini.sections, ini.props
    requires ini.Valid()
  {
    Target(ini.View(), ini.props.Length, true)
  }

  /** ini_property_value_set, which also writes to the slot past the last one, so that there
      has to be one. A property that does not exist is left alone. */
  method ValueSet(ini: Store, section: int, property: int, value: string)
    requires ini.Valid() && ini.Slack()
    requires 0 <= section < ini.sectionCount && 0 <= property < |Slots(ini.View().props, section)| ==>
      ini.propCount < ini.props.Length
    modifies ini.props
    ensures ini.Slack()
    ensures var doc := old(ini.View());
      var slots := Slots(doc.props, section);
      if 0 <= section < ini.sectionCount && 0 <= property < |slots|
      then slots[property] < |doc.props|
           && ini.View() == doc.(props := doc.props[slots[property] := doc.props[slots[property]].(value := value)])
      else ini.View() == doc
  {
    SlotsExact(ini.View().props, section);
    var p := ini.PropertyIndex(section, property);
    if p != NOT_FOUND {
      ini.props[p] := ini.props[p].(value := value);
    }
  }

  /** One round of the inner loop. */
  method CatProperty(dst: Store, section: nat, name: string, value: string)
    requires dst.Valid() && dst.Slack() && section < dst.sectionCount && name != ""
    requires PutProperty(View(dst), section, name, value).sound
    modifies dst, dst.props
    ensures dst.Valid() && dst.Slack() && View(dst) == PutProperty(old(View(dst)), section, name, value)
    ensures dst.sections == old(dst.sections) && dst.sectionCount == old(dst.sectionCount)
    ensures dst.props == old(dst.props) || fresh(dst.props)
  {
    SlackHarmless(dst.props[..], dst.propCount, section, name);
    assert dst.props[..][..dst.propCount] == dst.props[..dst.propCount];
    var found := dst.PropertyFind(section, name);
    if found == NOT_FOUND {
      dst.PropertyAdd(section, name, 0, value, 0);
    } else {
      SlotsExact(dst.View().props, section);
      ValueSet(dst, section, found, value);
    }
  }

  ghost predicate NamesGiven(doc: Doc) {
    forall i :: 0 <= i < |doc.props| ==> doc.props[i].name != ""
  }

  /** The inner loop of ini_cat. */
  method CatProperties(dst: Store, section: nat, src: Store, from: nat)
    requires dst.Valid() && dst.Slack() && section < dst.sectionCount
    requires src.Valid() && from < src.sectionCount && NamesGiven(src.View())
    requires dst != src && dst.props != src.props && dst.sections != src.sections
    requires PutProperties(View(dst), section, src.View(), from, |Slots(src.View().props, from)|).sound
    modifies dst, dst.props
    ensures dst.Valid() && dst.Slack() && src.View() == old(src.View())
    ensures View(dst)
      == PutProperties(old(View(dst)), section, src.View(), from, |Slots(src.View().props, from)|)
    ensures dst.sections == old(dst.sections) && dst.sectionCount == old(dst.sectionCount)
    ensures dst.props == old(dst.props) || fresh(dst.props)
  {
    hide PutProperty, Slots;
    ghost var t, doc := View(dst), src.View();
    var count := src.CountProperties(from);
    PutPropertiesSound(t, section, doc, from, count);
    var k := 0;
    while k < count
      invariant 0 <= k <= count && dst.Valid() && dst.Slack() && src.View() == doc
      invariant View(dst) == PutProperties(t, section, doc, from, k)
      invariant dst.sections == old(dst.sections) && dst.sectionCount == old(dst.sectionCount)
      invariant dst.props == old(dst.props) || fresh(dst.props)
    {
      var slot := src.PropertyIndex(from, k);
      SlotInUse(doc.props, from, k);
      var p := src.props[slot];
      assert p == Nth(doc, from, k);
      assert PutProperties(t, section, doc, from, k + 1).sound;
      CatProperty(dst, section, p.name, p.value);
      k := k + 1;
    }
  }

  /** One round of the outer loop. */
  method CatSection(dst: Store, src: Store, from: nat)
    requires dst.Valid() && dst.Slack() && src.Valid() && NamesGiven(src.View()) && from < src.sectionCount
    requires dst != src && dst.props != src.props && dst.sections != src.sections
    requires PutAll(View(dst), src.View(), from).sound
    modifies dst, dst.props, dst.sections
    ensures dst.Valid() && dst.Slack() && src.View() == old(src.View())
    ensures View(dst) == PutAll(old(View(dst)), src.View(), from)
    ensures dst.sections == old(dst.sections) || fresh(dst.sections)
    ensures dst.props == old(dst.props) || fresh(dst.props)
  {
    hide PutProperties, Slots, FindSection;
    ghost var t, doc := View(dst), src.View();
    var name := src.sections[from];
    var section := dst.SectionFind(name);
    if section == NOT_FOUND {
      section := dst.SectionAdd(name, 0);
    }
    assert (View(dst), section as nat) == PutSection(t, name);
    CatProperties(dst, section, src, from);
  }

  /** ini_cat */
  method Cat(dst: Store, src: Store)
    requires dst.Valid() && dst.Slack() && src.Valid() && NamesGiven(src.View())
    requires dst != src && dst.props != src.props && dst.sections != src.sections
    requires Merge(View(dst), src.View(), src.sectionCount).sound
    modifies dst, dst.props, dst.sections
    ensures dst.Valid() && dst.Slack() && src.View() == old(src.View())
    ensures View(dst) == Merge(old(View(dst)), src.View(), src.sectionCount)
  {
    hide PutAll;
    ghost var t, doc := View(dst), src.View();
    MergeSound(t, doc, |doc.sections|);
    var n := 0;
    while n < src.sectionCount
      invariant 0 <= n <= src.sectionCount == |doc.sections| && dst.Valid() && dst.Slack() && src.View() == doc
      invariant View(dst) == Merge(t, doc, n)
      invariant dst.sections == old(dst.sections) || fresh(dst.sections)
      invariant dst.props == old(dst.props) || fresh(dst.props)
    {
      assert Merge(t, doc, n + 1).sound;
      CatSection(dst, src, n);
      n := n + 1;
    }
  }
}
