/**
 * The keyboard object: its current (group, level) index into every key's
 * symbol matrix, its layout, the one-shot realize step, and its sections of
 * keys, searched by keycode.
 */
module Keyboard {
  import opened Layout

  /** `G_MAXINT`: the upper end of the "group" and "level" property ranges. */
  const MaxInt: int := 0x7fff_ffff

  /**
   * A key as far as the keyboard touches it: its keycode and the cell of its
   * symbol matrix it currently shows.
   */
  datatype Key = Key(keycode: nat, group: int, level: int)

  /** A section: its keys in child order. */
  datatype Section = Section(keys: seq<Key>)

  /** A layout object; the keyboard only stores it and asks it to apply itself. */
  datatype EekLayout = EekLayout(id: nat)

  /** Where a key is: the section's position among the keyboard's children, and the key's in the section. */
  datatype KeyRef = KeyRef(section: nat, index: nat)

  /** The two properties the keyboard handles itself. */
  datatype Property = GroupProperty | LevelProperty

  // ---------------------------------------------------------------------
  // Selecting a cell of every key's symbol matrix

  /** `set_keysym_index_for_section`: every key of the section shows cell (group, level). */
  function SectionWithKeysymIndex(s: Section, group: int, level: int): (r: Section)
    ensures |r.keys| == |s.keys|
    ensures forall j :: 0 <= j < |s.keys| ==>
      r.keys[j].keycode == s.keys[j].keycode && r.keys[j].group == group && r.keys[j].level == level
  {
    Section(seq(|s.keys|, j requires 0 <= j < |s.keys| => s.keys[j].(group := group, level := level)))
  }

  /**
   * The keyboard's children after `eek_keyboard_real_set_keysym_index`: the
   * same sections with the same keys, each key now showing (group, level).
   */
  function WithKeysymIndex(sections: seq<Section>, group: int, level: int): (r: seq<Section>)
    ensures |r| == |sections|
    ensures forall i :: 0 <= i < |sections| ==> r[i] == SectionWithKeysymIndex(sections[i], group, level)
  {
    seq(|sections|, i requires 0 <= i < |sections| => SectionWithKeysymIndex(sections[i], group, level))
  }

  /** Every key of every section shows cell (group, level). */
  predicate ShowsKeysymIndex(sections: seq<Section>, group: int, level: int) {
    forall i, j :: 0 <= i < |sections| && 0 <= j < |sections[i].keys| ==>
      sections[i].keys[j].group == group && sections[i].keys[j].level == level
  }

  /** Setting the index twice is the same as setting it once with the second value. */
  lemma {:induction false} KeysymIndexLastWins(sections: seq<Section>, g1: int, l1: int, g2: int, l2: int)
    ensures WithKeysymIndex(WithKeysymIndex(sections, g1, l1), g2, l2) == WithKeysymIndex(sections, g2, l2)
  {
    var once := WithKeysymIndex(sections, g1, l1);
    forall i | 0 <= i < |sections|
      ensures SectionWithKeysymIndex(once[i], g2, l2) == SectionWithKeysymIndex(sections[i], g2, l2)
    {
      var a, b := SectionWithKeysymIndex(once[i], g2, l2), SectionWithKeysymIndex(sections[i], g2, l2);
      assert forall j :: 0 <= j < |a.keys| ==> a.keys[j] == b.keys[j];
    }
  }

  // ---------------------------------------------------------------------
  // Finding a key by keycode

  /**
   * `eek_section_find_key_by_keycode`, which is not part of this model,
   * taken as the first key, from position `from` on, with the keycode.
   */
  function FirstKey(keys: seq<Key>, keycode: nat, from: nat): Option<nat>
    decreases |keys| - from
  {
    if from >= |keys| then None
    else if keys[from].keycode == keycode then Some(from)
    else FirstKey(keys, keycode, from + 1)
  }

  /** The first key with the keycode is found, and no key with it is missed. */
  lemma {:induction false} FirstKeyIsFirst(keys: seq<Key>, keycode: nat, from: nat)
    ensures var r := FirstKey(keys, keycode, from);
      && (r.Some? ==>
            && from <= r.value < |keys| && keys[r.value].keycode == keycode
            && forall m :: from <= m < r.value ==> keys[m].keycode != keycode)
      && (r.None? ==> forall m :: from <= m < |keys| ==> keys[m].keycode != keycode)
    decreases |keys| - from
  {
    if from < |keys| && keys[from].keycode != keycode {
      FirstKeyIsFirst(keys, keycode, from + 1);
    }
  }

  /**
   * `eek_keyboard_real_find_key_by_keycode` as a definition: the key found
   * in the first section, from position `from` on, that holds the keycode.
   */
  function Locate(sections: seq<Section>, keycode: nat, from: nat): Option<KeyRef>
    decreases |sections| - from
  {
    if from >= |sections| then None
    else match FirstKey(sections[from].keys, keycode, 0)
      case Some(j) => Some(KeyRef(from, j))
      case None => Locate(sections, keycode, from + 1)
  }

  /** True when some key of the section has the keycode. */
  predicate HasKeycode(s: Section, keycode: nat) {
    exists j :: 0 <= j < |s.keys| && s.keys[j].keycode == keycode
  }

  /**
   * The search result is a key with the keycode in the first section that
   * has one, and the first such key there; nothing is found exactly when
   * no section has the keycode.
   */
  lemma {:induction false} LocateIsFirstMatch(sections: seq<Section>, keycode: nat, from: nat)
    ensures var r := Locate(sections, keycode, from);
      && (r.Some? ==>
            && from <= r.value.section < |sections|
            && r.value.index < |sections[r.value.section].keys|
            && sections[r.value.section].keys[r.value.index].keycode == keycode
            && (forall m :: 0 <= m < r.value.index ==>
                  sections[r.value.section].keys[m].keycode != keycode)
            && forall i :: from <= i < r.value.section ==> !HasKeycode(sections[i], keycode))
      && (r.None? ==> forall i :: from <= i < |sections| ==> !HasKeycode(sections[i], keycode))
    decreases |sections| - from
  {
    if from < |sections| {
      FirstKeyIsFirst(sections[from].keys, keycode, 0);
      if FirstKey(sections[from].keys, keycode, 0).None? {
        LocateIsFirstMatch(sections, keycode, from + 1);
      }
    }
  }

  /** Which cell the keys show does not change which key the search finds. */
  lemma {:induction false} LocateIgnoresKeysymIndex(sections: seq<Section>, keycode: nat, from: nat,
                                                   group: int, level: int)
    ensures Locate(WithKeysymIndex(sections, group, level), keycode, from) == Locate(sections, keycode, from)
    decreases |sections| - from
  {
    if from < |sections| {
      var r := WithKeysymIndex(sections, group, level);
      FirstKeyIgnoresKeysymIndex(sections[from].keys, r[from].keys, keycode, 0);
      LocateIgnoresKeysymIndex(sections, keycode, from + 1, group, level);
    }
  }

  /** `FirstKey` looks at keycodes only. */
  lemma {:induction false} FirstKeyIgnoresKeysymIndex(a: seq<Key>, b: seq<Key>, keycode: nat, from: nat)
    requires |a| == |b| && forall j :: 0 <= j < |a| ==> a[j].keycode == b[j].keycode
    ensures FirstKey(a, keycode, from) == FirstKey(b, keycode, from)
    decreases |a| - from
  {
    if from < |a| {
      FirstKeyIgnoresKeysymIndex(a, b, keycode, from + 1);
    }
  }

  // ---------------------------------------------------------------------
  // The keyboard object

  /** An `EekKeyboard`: its private fields and its children, the sections. */
  class EekKeyboard {
    var group: int
    var level: int
    var layout: Option<EekLayout>
    var isRealized: bool
    var sections: seq<Section>

    /** `eek_keyboard_init`: group and level 0, no layout, not realized, no sections. */
    constructor()
      ensures group == 0 && level == 0 && layout == None && !isRealized && sections == []
      ensures ShowsKeysymIndex(sections, group, level)
    {
      group, level := 0, 0;
      layout := None;
      isRealized := false;
      sections := [];
    }

    /**
     * `eek_keyboard_real_set_keysym_index`: stores (group, level) and walks
     * every section and every key in it, selecting that cell.
     */
    method SetKeysymIndex(g: int, l: int)
      modifies this
      ensures group == g && level == l
      ensures sections == WithKeysymIndex(old(sections), g, l)
      ensures ShowsKeysymIndex(sections, group, level)
      ensures layout == old(layout) && isRealized == old(isRealized)
    {
      group := g;
      level := l;
      var i := 0;
      while i < |sections|
        invariant 0 <= i <= |sections| == |old(sections)|
        invariant forall k :: 0 <= k < i ==> sections[k] == SectionWithKeysymIndex(old(sections)[k], g, l)
        invariant forall k :: i <= k < |sections| ==> sections[k] == old(sections)[k]
        invariant group == g && level == l && layout == old(layout) && isRealized == old(isRealized)
      {
        var keys := sections[i].keys;
        var j := 0;
        while j < |keys|
          invariant 0 <= j <= |keys| == |sections[i].keys|
          invariant forall m :: 0 <= m < j ==> keys[m] == sections[i].keys[m].(group := g, level := l)
          invariant forall m :: j <= m < |keys| ==> keys[m] == sections[i].keys[m]
        {
          keys := keys[j := keys[j].(group := g, level := l)];
          j := j + 1;
        }
        assert Section(keys) == SectionWithKeysymIndex(sections[i], g, l);
        sections := sections[i := Section(keys)];
        i := i + 1;
      }
    }

    /**
     * `eek_keyboard_real_get_keysym_index`: reports the group and level to
     * whichever of the two outputs is asked for; asked for neither, it
     * returns early and reports nothing.  Nothing changes.
     */
    method GetKeysymIndex(wantGroup: bool, wantLevel: bool) returns (g: Option<int>, l: Option<int>)
      ensures g == (if wantGroup then Some(group) else None)
      ensures l == (if wantLevel then Some(level) else None)
    {
      g, l := None, None;
      if !(wantGroup || wantLevel) {
        return;
      }
      if wantGroup {
        g := Some(group);
      }
      if wantLevel {
        l := Some(level);
      }
    }

    /**
     * `eek_keyboard_set_property` for "group" and "level": reads the current
     * index and sets it again with the one named part replaced, so the other
     * part is kept.  GObject checks the value against the property's range
     * 0 to `G_MAXINT` before calling.
     */
    method SetProperty(prop: Property, value: int)
      requires 0 <= value <= MaxInt
      modifies this
      ensures prop == GroupProperty ==> group == value && level == old(level)
      ensures prop == LevelProperty ==> level == value && group == old(group)
      ensures sections == WithKeysymIndex(old(sections), group, level)
      ensures ShowsKeysymIndex(sections, group, level)
      ensures layout == old(layout) && isRealized == old(isRealized)
    {
      var g, l := GetKeysymIndex(true, true);
      match prop {
        case GroupProperty =>
          SetKeysymIndex(value, l.value);
        case LevelProperty =>
          SetKeysymIndex(g.value, value);
      }
    }

    /**
     * `eek_keyboard_get_property` for "group" and "level".  For "level" both
     * outputs point at the same variable: the group is written first and
     * then overwritten by the level, so the level is what is reported.
     */
    method GetProperty(prop: Property) returns (value: int)
      ensures value == (if prop == GroupProperty then group else level)
    {
      match prop {
        case GroupProperty =>
          var g, l := GetKeysymIndex(true, true);
          value := g.value;
        case LevelProperty =>
          var g, l := GetKeysymIndex(true, true);
          var slot := g.value;
          slot := l.value;
          value := slot;
      }
    }

    /**
     * `eek_keyboard_real_create_section`: appends one new, empty section as
     * the last child and returns it (here, its position).
     */
    method CreateSection() returns (index: nat)
      modifies this
      ensures sections == old(sections) + [Section([])]
      ensures index == |old(sections)| && index < |sections| && sections[index] == Section([])
      ensures group == old(group) && level == old(level)
      ensures layout == old(layout) && isRealized == old(isRealized)
      ensures ShowsKeysymIndex(old(sections), group, level) ==> ShowsKeysymIndex(sections, group, level)
    {
      sections := sections + [Section([])];
      index := |sections| - 1;
    }

    /** `eek_keyboard_real_set_layout`: stores the layout and nothing else. */
    method SetLayout(l: EekLayout)
      modifies this
      ensures layout == Some(l)
      ensures group == old(group) && level == old(level)
      ensures isRealized == old(isRealized) && sections == old(sections)
    {
      layout := Some(l);
    }

    /**
     * `eek_keyboard_real_realize`: without a layout, or when already
     * realized, nothing happens; otherwise the layout applies itself (it
     * leaves `applied` as the keyboard's sections; the layout's own code is
     * not part of this model) and the keyboard is realized, so a second
     * call is rejected.
     */
    method Realize(applied: seq<Section>)
      modifies this
      ensures old(layout).None? || old(isRealized) ==> unchanged(this)
      ensures old(layout).Some? && !old(isRealized) ==> isRealized && sections == applied
      ensures isRealized == (old(isRealized) || old(layout).Some?)
      ensures layout == old(layout) && group == old(group) && level == old(level)
    {
      if layout.None? {
        return;
      }
      if isRealized {
        return;
      }
      sections := applied;
      isRealized := true;
    }

    /**
     * `eek_keyboard_real_find_key_by_keycode`: asks each section in child
     * order for a key with the keycode and stops at the first that has one.
     */
    method FindKeyByKeycode(keycode: nat) returns (r: Option<KeyRef>)
      ensures r == Locate(sections, keycode, 0)
    {
      var i := 0;
      while i < |sections|
        invariant 0 <= i <= |sections|
        invariant Locate(sections, keycode, 0) == Locate(sections, keycode, i)
      {
        var found := FirstKey(sections[i].keys, keycode, 0);
        if found.Some? {
          return Some(KeyRef(i, found.value));
        }
        i := i + 1;
      }
      return None;
    }
  }
}
