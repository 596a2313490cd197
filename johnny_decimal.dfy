/**
 * The hierarchy editor: categories, each with areas, each with IDs (items).
 * Category ranges are the strings "10-19", "20-29", ...; an area is numbered
 * from the start of its category's range; an ID is numbered from 1 within its
 * area.  The editor's state (the category list and the notes dictionary) is
 * held by `Manager`, whose methods are the editor's handlers.
 */
module JohnnyDecimal {
  import opened Wrappers
  import opened Text

  datatype Item = Item(number: nat, name: string)

  datatype Area = Area(number: nat, name: string, ids: seq<Item>)

  datatype Category = Category(range: string, name: string, areas: seq<Area>)

  /** `addCategory` does nothing once this many categories exist. */
  const MaxCategories: nat := 9

  /** The range written for the category at position `n`: "(10n+10)-(10n+19)". */
  function RangeLabel(n: nat): (r: string) {
    NatToString(10 * n + 10) + "-" + NatToString(10 * n + 19)
  }

  /** `parseInt(range.split('-')[0])`: the start that `addArea` reads back from a range. */
  function CategoryStart(range: string): (r: Option<nat>) {
    ParseInt(Split(range, '-')[0])
  }

  /** The start `addArea` parses out of a range is the one `addCategory` wrote into it. */
  lemma CategoryStartOfRangeLabel(n: nat)
    ensures CategoryStart(RangeLabel(n)) == Some(10 * n + 10)
  {
    var lo, hi := NatToString(10 * n + 10), NatToString(10 * n + 19);
    DigitsAvoid(lo, '-');
    assert RangeLabel(n) == lo + ['-'] + hi;
    SplitAt(lo, '-', hi);
    ParseIntOfNatToString(10 * n + 10);
  }

  /**
   * The label shown for an ID: the area number, a '.', then the ID number
   * left-padded with '0' to two characters.
   */
  function Label(areaNumber: nat, idNumber: nat): (r: string)
    ensures var a := NatToString(areaNumber);
      && |r| >= |a| + 3
      && r[..|a|] == a && r[|a|] == '.'
      && AllDigits(r[|a| + 1..])
      && (1 <= idNumber < 100 ==> |r| == |a| + 3)
  {
    NatToString(areaNumber) + "." + PadStart(NatToString(idNumber), 2, '0')
  }

  /** The notes key for the ID at a path: "c-a-i". */
  function NoteKey(c: nat, a: nat, i: nat): (r: string) {
    NatToString(c) + "-" + NatToString(a) + "-" + NatToString(i)
  }

  /** A notes key splits back into exactly the three rendered indices. */
  lemma NoteKeyParts(c: nat, a: nat, i: nat)
    ensures Split(NoteKey(c, a, i), '-') == [NatToString(c), NatToString(a), NatToString(i)]
  {
    var sc, sa, si := NatToString(c), NatToString(a), NatToString(i);
    DigitsAvoid(sc, '-');
    DigitsAvoid(sa, '-');
    DigitsAvoid(si, '-');
    assert NoteKey(c, a, i) == sc + ['-'] + sa + ['-'] + si;
    SplitThree(sc, sa, si, '-');
  }

  /** Distinct paths have distinct notes keys, so a note is written for one ID only. */
  lemma NoteKeyInjective(c: nat, a: nat, i: nat, c': nat, a': nat, i': nat)
    requires NoteKey(c, a, i) == NoteKey(c', a', i')
    ensures c == c' && a == a' && i == i'
  {
    NoteKeyParts(c, a, i);
    NoteKeyParts(c', a', i');
    DigitsValueOfNatToString(c);
    DigitsValueOfNatToString(c');
    DigitsValueOfNatToString(a);
    DigitsValueOfNatToString(a');
    DigitsValueOfNatToString(i);
    DigitsValueOfNatToString(i');
  }

  /** The IDs of an area are numbered 1..n in list order. */
  predicate IdsNumbered(area: Area) {
    forall i :: 0 <= i < |area.ids| ==> area.ids[i].number == i + 1
  }

  /**
   * The category at position `c` carries the range written for `c`, at most
   * ten areas, and its areas are numbered consecutively from 10c+10, so every
   * area number lies in [10c+10, 10c+19].
   */
  predicate CategoryNumbered(cat: Category, c: nat) {
    && cat.range == RangeLabel(c)
    && |cat.areas| <= 10
    && forall a :: 0 <= a < |cat.areas| ==>
         cat.areas[a].number == 10 * c + 10 + a && IdsNumbered(cat.areas[a])
  }

  /** The numbering invariant of the whole category list. */
  predicate Numbered(cats: seq<Category>) {
    && |cats| <= MaxCategories
    && forall c :: 0 <= c < |cats| ==> CategoryNumbered(cats[c], c)
  }

  /** Appending the category for the next position keeps the list well numbered. */
  lemma NumberedAppend(cats: seq<Category>, cat: Category)
    requires Numbered(cats) && |cats| < MaxCategories && CategoryNumbered(cat, |cats|)
    ensures Numbered(cats + [cat])
  {
  }

  /** Replacing one category by a well-numbered one keeps the list well numbered. */
  lemma NumberedUpdate(cats: seq<Category>, c: nat, cat: Category)
    requires Numbered(cats) && c < |cats| && CategoryNumbered(cat, c)
    ensures Numbered(cats[c := cat])
  {
  }

  /** The editor's state: the category list and the notes dictionary. */
  class Manager {
    var categories: seq<Category>
    var notes: map<string, string>

    ghost predicate Valid()
      reads this
    {
      Numbered(categories)
    }

    /** The initial state: one unnamed category "10-19" without areas, and no notes. */
    constructor ()
      ensures Valid()
      ensures categories == [Category("10-19", "", [])] && notes == map[]
    {
      categories := [Category("10-19", "", [])];
      notes := map[];
      assert NatToString(10) == "10" && NatToString(19) == "19";
    }

    /** Appends the next category, unless nine exist already. */
    method AddCategory()
      requires Valid()
      modifies this
      ensures Valid() && notes == old(notes)
      ensures old(|categories|) < MaxCategories ==>
        categories == old(categories) + [Category(RangeLabel(old(|categories|)), "", [])]
      ensures old(|categories|) >= MaxCategories ==> categories == old(categories)
    {
      if |categories| < MaxCategories {
        var n := |categories|;
        var newRange := NatToString(n * 10 + 10) + "-" + NatToString(n * 10 + 19);
        assert newRange == RangeLabel(n) by {
          assert n * 10 == 10 * n;
        }
        NumberedAppend(categories, Category(newRange, "", []));
        categories := categories + [Category(newRange, "", [])];
      }
    }

    /** Renames the category at `index`; nothing else changes. */
    method UpdateCategory(index: nat, name: string)
      requires Valid() && index < |categories|
      modifies this
      ensures Valid() && notes == old(notes)
      ensures |categories| == old(|categories|)
      ensures categories[index] == old(categories[index]).(name := name)
      ensures forall k :: 0 <= k < |categories| && k != index ==> categories[k] == old(categories[k])
    {
      var newCategories := categories;
      newCategories := newCategories[index := newCategories[index].(name := name)];
      categories := newCategories;
    }

    /**
     * Appends an area to category `c`, numbered from the start parsed out of
     * its range, while that number stays within the range (at most ten areas).
     */
    method AddArea(c: nat)
      requires Valid() && c < |categories|
      modifies this
      ensures Valid() && notes == old(notes)
      ensures |categories| == old(|categories|)
      ensures forall k :: 0 <= k < |categories| && k != c ==> categories[k] == old(categories[k])
      ensures categories[c].range == old(categories[c].range)
      ensures categories[c].name == old(categories[c].name)
      ensures var before := old(categories[c].areas);
        if |before| < 10 then categories[c].areas == before + [Area(10 * c + 10 + |before|, "", [])]
        else categories[c].areas == before
    {
      var newCategories := categories;
      var categoryStart := CategoryStart(categories[c].range);
      CategoryStartOfRangeLabel(c);
      if categoryStart.Some? {
        var newAreaNumber := categoryStart.value + |newCategories[c].areas|;
        if newAreaNumber <= categoryStart.value + 9 {
          var cat := newCategories[c];
          var newCat := cat.(areas := cat.areas + [Area(newAreaNumber, "", [])]);
          assert CategoryNumbered(cat, c);
          assert CategoryNumbered(newCat, c) by {
            assert forall k :: 0 <= k < |cat.areas| ==> newCat.areas[k] == cat.areas[k];
          }
          NumberedUpdate(categories, c, newCat);
          newCategories := newCategories[c := newCat];
          categories := newCategories;
        }
      }
    }

    /** Renames area `a` of category `c`; nothing else changes. */
    method UpdateArea(c: nat, a: nat, name: string)
      requires Valid() && c < |categories| && a < |categories[c].areas|
      modifies this
      ensures Valid() && notes == old(notes)
      ensures |categories| == old(|categories|)
      ensures forall k :: 0 <= k < |categories| && k != c ==> categories[k] == old(categories[k])
      ensures categories[c].range == old(categories[c].range)
      ensures categories[c].name == old(categories[c].name)
      ensures |categories[c].areas| == old(|categories[c].areas|)
      ensures categories[c].areas[a] == old(categories[c].areas[a]).(name := name)
      ensures forall k :: 0 <= k < |categories[c].areas| && k != a ==>
        categories[c].areas[k] == old(categories[c].areas[k])
    {
      var newCategories := categories;
      var cat := newCategories[c];
      var area := cat.areas[a];
      newCategories := newCategories[c := cat.(areas := cat.areas[a := area.(name := name)])];
      categories := newCategories;
    }

    /** Appends an unnamed ID to area `a` of category `c`, numbered one past the area's ID count. */
    method AddID(c: nat, a: nat)
      requires Valid() && c < |categories| && a < |categories[c].areas|
      modifies this
      ensures Valid() && notes == old(notes)
      ensures |categories| == old(|categories|)
      ensures forall k :: 0 <= k < |categories| && k != c ==> categories[k] == old(categories[k])
      ensures categories[c].range == old(categories[c].range)
      ensures categories[c].name == old(categories[c].name)
      ensures |categories[c].areas| == old(|categories[c].areas|)
      ensures forall k :: 0 <= k < |categories[c].areas| && k != a ==>
        categories[c].areas[k] == old(categories[c].areas[k])
      ensures var before := old(categories[c].areas[a]);
        categories[c].areas[a] == before.(ids := before.ids + [Item(|before.ids| + 1, "")])
    {
      var newCategories := categories;
      var cat := newCategories[c];
      var area := cat.areas[a];
      var newID := Item(|area.ids| + 1, "");
      newCategories := newCategories[c := cat.(areas := cat.areas[a := area.(ids := area.ids + [newID])])];
      categories := newCategories;
    }

    /** Renames ID `i` of area `a` of category `c`; nothing else changes. */
    method UpdateID(c: nat, a: nat, i: nat, name: string)
      requires Valid() && c < |categories| && a < |categories[c].areas| && i < |categories[c].areas[a].ids|
      modifies this
      ensures Valid() && notes == old(notes)
      ensures |categories| == old(|categories|)
      ensures forall k :: 0 <= k < |categories| && k != c ==> categories[k] == old(categories[k])
      ensures categories[c].range == old(categories[c].range)
      ensures categories[c].name == old(categories[c].name)
      ensures |categories[c].areas| == old(|categories[c].areas|)
      ensures forall k :: 0 <= k < |categories[c].areas| && k != a ==>
        categories[c].areas[k] == old(categories[c].areas[k])
      ensures categories[c].areas[a].number == old(categories[c].areas[a].number)
      ensures categories[c].areas[a].name == old(categories[c].areas[a].name)
      ensures |categories[c].areas[a].ids| == old(|categories[c].areas[a].ids|)
      ensures categories[c].areas[a].ids[i] == old(categories[c].areas[a].ids[i]).(name := name)
      ensures forall k :: 0 <= k < |categories[c].areas[a].ids| && k != i ==>
        categories[c].areas[a].ids[k] == old(categories[c].areas[a].ids[k])
    {
      var newCategories := categories;
      var cat := newCategories[c];
      var area := cat.areas[a];
      var item := area.ids[i];
      var newArea := area.(ids := area.ids[i := item.(name := name)]);
      newCategories := newCategories[c := cat.(areas := cat.areas[a := newArea])];
      categories := newCategories;
    }

    /** Writes `content` under the key "c-a-i"; every other note is kept. */
    method UpdateNotes(c: nat, a: nat, i: nat, content: string)
      requires Valid()
      modifies this
      ensures Valid() && categories == old(categories)
      ensures notes.Keys == old(notes).Keys + {NoteKey(c, a, i)}
      ensures notes[NoteKey(c, a, i)] == content
      ensures forall key :: key in old(notes) && key != NoteKey(c, a, i) ==> notes[key] == old(notes)[key]
    {
      var key := NatToString(c) + "-" + NatToString(a) + "-" + NatToString(i);
      notes := notes[key := content];
    }

    /** The label rendered for ID `i` of area `a` of category `c`. */
    method IdLabel(c: nat, a: nat, i: nat) returns (shown: string)
      requires Valid() && c < |categories| && a < |categories[c].areas| && i < |categories[c].areas[a].ids|
      ensures shown == Label(10 * c + 10 + a, i + 1)
    {
      var area := categories[c].areas[a];
      shown := NatToString(area.number) + "." + PadStart(NatToString(area.ids[i].number), 2, '0');
    }
  }
}
