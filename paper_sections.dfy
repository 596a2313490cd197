/**
 * The section tagger: a list of document sections, each of which can be
 * checked and tagged with ID labels ("AA.II") from the hierarchy editor.
 * Every handler is a function from the current state to the next one.
 */
module PaperSections {
  import opened Wrappers
  import opened Text

  datatype Section = Section(id: int, name: string, isChecked: bool, selectedIDs: seq<string>)

  /** The indices an ID label is resolved to: category, area and ID position. */
  datatype JdRef = JdRef(category: int, area: int, id: int)

  /** The tagger's state: its sections and the ID last resolved from a clicked label. */
  datatype State = State(sections: seq<Section>, active: Option<JdRef>)

  predicate UniqueIds(s: seq<Section>) {
    forall i, j :: 0 <= i < j < |s| ==> s[i].id != s[j].id
  }

  predicate NoDuplicates<T(==)>(l: seq<T>) {
    forall i, j :: 0 <= i < j < |l| ==> l[i] != l[j]
  }

  predicate TagListsDuplicateFree(s: seq<Section>) {
    forall sec :: sec in s ==> NoDuplicates(sec.selectedIDs)
  }

  /** What every handler preserves: distinct section ids and duplicate-free tag lists. */
  predicate Invariant(st: State) {
    UniqueIds(st.sections) && TagListsDuplicateFree(st.sections)
  }

  /** The initial state: sections 1 "Abstract" and 2 "Introduction", unchecked and untagged. */
  function Initial(): (st: State)
    ensures Invariant(st) && st.active == None
    ensures |st.sections| == 2 && st.sections[0].id == 1 && st.sections[1].id == 2
  {
    State([Section(1, "Abstract", false, []), Section(2, "Introduction", false, [])], None)
  }

  /** `Math.max` over the section ids. */
  function MaxId(s: seq<Section>): (m: int)
    requires |s| > 0
    ensures forall k :: 0 <= k < |s| ==> s[k].id <= m
    ensures exists k :: 0 <= k < |s| && s[k].id == m
    decreases |s|
  {
    if |s| == 1 then s[0].id
    else
      var m := MaxId(s[1..]);
      assert exists k :: 0 <= k < |s| - 1 && s[1..][k].id == m;
      if s[0].id > m then s[0].id else m
  }

  /** The id `addSection` gives the new section: one past the largest id, or 1 for an empty list. */
  function NextId(s: seq<Section>): (id: int)
    ensures forall k :: 0 <= k < |s| ==> s[k].id < id
    ensures |s| == 0 ==> id == 1
    ensures |s| > 0 ==> exists k :: 0 <= k < |s| && s[k].id == id - 1
  {
    if |s| > 0 then MaxId(s) + 1 else 1
  }

  /** `addSection`: appends an unnamed, unchecked, untagged section under a fresh id. */
  function AddSection(st: State): (r: State)
    ensures |r.sections| == |st.sections| + 1 && r.sections[..|st.sections|] == st.sections
    ensures var added := r.sections[|st.sections|];
      && added.id == NextId(st.sections)
      && added.name == "" && !added.isChecked && added.selectedIDs == []
    ensures forall k :: 0 <= k < |st.sections| ==> st.sections[k].id != r.sections[|st.sections|].id
    ensures r.active == st.active
    ensures Invariant(st) ==> Invariant(r)
  {
    var newId := if |st.sections| > 0 then MaxId(st.sections) + 1 else 1;
    st.(sections := st.sections + [Section(newId, "", false, [])])
  }

  /** The sections whose id differs from `id`, in their original order. */
  function WithoutId(s: seq<Section>, id: int): (r: seq<Section>)
    ensures |r| <= |s|
    ensures forall sec :: sec in r <==> sec in s && sec.id != id
    ensures (forall k :: 0 <= k < |s| ==> s[k].id != id) ==> r == s
    decreases |s|
  {
    if s == [] then []
    else
      var rest := WithoutId(s[1..], id);
      assert s == [s[0]] + s[1..];
      if s[0].id != id then [s[0]] + rest else rest
  }

  lemma TailUniqueIds(s: seq<Section>)
    requires UniqueIds(s) && s != []
    ensures UniqueIds(s[1..]) && forall k :: 0 <= k < |s| - 1 ==> s[1..][k].id != s[0].id
  {
    var tail := s[1..];
    forall a, b | 0 <= a < b < |tail| ensures tail[a].id != tail[b].id {
      assert tail[a] == s[a + 1] && tail[b] == s[b + 1];
    }
    forall k | 0 <= k < |tail| ensures tail[k].id != s[0].id {
      assert tail[k] == s[k + 1];
    }
  }

  lemma ConsUniqueIds(head: Section, rest: seq<Section>)
    requires UniqueIds(rest) && forall sec :: sec in rest ==> sec.id != head.id
    ensures UniqueIds([head] + rest)
  {
    var r := [head] + rest;
    forall a, b | 0 <= a < b < |r| ensures r[a].id != r[b].id {
      assert r[b] == rest[b - 1];
      if a > 0 {
        assert r[a] == rest[a - 1];
      }
    }
  }

  /** Dropping sections keeps the remaining ids distinct. */
  lemma {:induction false} WithoutIdKeepsUniqueIds(s: seq<Section>, id: int)
    ensures UniqueIds(s) ==> UniqueIds(WithoutId(s, id))
    decreases |s|
  {
    if s != [] && UniqueIds(s) {
      var tail := s[1..];
      TailUniqueIds(s);
      WithoutIdKeepsUniqueIds(tail, id);
      var rest := WithoutId(tail, id);
      if s[0].id != id {
        forall sec | sec in rest ensures sec.id != s[0].id {
          var m :| 0 <= m < |tail| && tail[m] == sec;
        }
        ConsUniqueIds(s[0], rest);
      }
    }
  }

  /** Cutting position j out of a list is keeping its head and cutting position j - 1 out of its tail. */
  lemma SpliceTail<T>(l: seq<T>, j: nat)
    requires 0 < j < |l|
    ensures l[..j] + l[j + 1..] == [l[0]] + (l[1..][..j - 1] + l[1..][j..])
  {
    assert l[..j] == [l[0]] + l[1..][..j - 1];
    assert l[j + 1..] == l[1..][j..];
  }

  /** With distinct ids, removing the id at position `j` removes exactly that position. */
  lemma {:induction false} WithoutIdRemovesOne(s: seq<Section>, j: nat)
    requires UniqueIds(s) && j < |s|
    ensures WithoutId(s, s[j].id) == s[..j] + s[j + 1..]
    decreases j
  {
    var id, tail := s[j].id, s[1..];
    TailUniqueIds(s);
    if j == 0 {
      assert s[..j] + s[j + 1..] == tail;
    } else {
      assert s[0].id != id;
      assert tail[j - 1] == s[j];
      WithoutIdRemovesOne(tail, j - 1);
      SpliceTail(s, j);
    }
  }

  /** `removeSection(id)`. */
  function RemoveSection(st: State, id: int): (r: State)
    ensures |r.sections| <= |st.sections|
    ensures forall sec :: sec in r.sections <==> sec in st.sections && sec.id != id
    ensures r.active == st.active
    ensures Invariant(st) ==> Invariant(r)
  {
    WithoutIdKeepsUniqueIds(st.sections, id);
    st.(sections := WithoutId(st.sections, id))
  }

  /** `updateSectionName(id, name)`: only the name of the section with that id changes. */
  function UpdateSectionName(st: State, id: int, name: string): (r: State)
    ensures |r.sections| == |st.sections| && r.active == st.active
    ensures forall k :: 0 <= k < |st.sections| ==>
      && r.sections[k].id == st.sections[k].id
      && r.sections[k].isChecked == st.sections[k].isChecked
      && r.sections[k].selectedIDs == st.sections[k].selectedIDs
      && r.sections[k].name == (if st.sections[k].id == id then name else st.sections[k].name)
    ensures Invariant(st) ==> Invariant(r)
  {
    var s := st.sections;
    st.(sections := seq(|s|, k requires 0 <= k < |s| =>
      if s[k].id == id then s[k].(name := name) else s[k]))
  }

  /** `toggleSectionCheck(id, checked)`: only the checkbox of the section with that id changes. */
  function ToggleSectionCheck(st: State, id: int, checked: bool): (r: State)
    ensures |r.sections| == |st.sections| && r.active == st.active
    ensures forall k :: 0 <= k < |st.sections| ==>
      && r.sections[k].id == st.sections[k].id
      && r.sections[k].name == st.sections[k].name
      && r.sections[k].selectedIDs == st.sections[k].selectedIDs
      && r.sections[k].isChecked == (if st.sections[k].id == id then checked else st.sections[k].isChecked)
    ensures Invariant(st) ==> Invariant(r)
  {
    var s := st.sections;
    st.(sections := seq(|s|, k requires 0 <= k < |s| =>
      if s[k].id == id then s[k].(isChecked := checked) else s[k]))
  }

  /**
   * `[...new Set(l)]`: a duplicate-free list with the same elements. Order is
   * stated only for duplicate-free inputs (returned unchanged) and, in
   * `SetInsert`, for one element appended to such a list.
   */
  function Dedup<T(==, !new)>(l: seq<T>): (r: seq<T>)
    ensures NoDuplicates(r)
    ensures forall x :: x in r <==> x in l
    ensures NoDuplicates(l) ==> r == l
    decreases |l|
  {
    if l == [] then []
    else
      var init := l[..|l| - 1];
      var d := Dedup(init);
      assert l == init + [l[|l| - 1]];
      if l[|l| - 1] in d then d else d + [l[|l| - 1]]
  }

  /** On a duplicate-free list, the set dedup of `l + [x]` is a set insertion of `x`. */
  lemma SetInsert<T(!new)>(l: seq<T>, x: T)
    requires NoDuplicates(l)
    ensures Dedup(l + [x]) == if x in l then l else l + [x]
  {
    assert (l + [x])[..|l|] == l;
  }

  /** One section under `handleIDSelect(x)`: a checked section gets `x` added to its tag set. */
  function TagSection(sec: Section, x: string): (r: Section)
    ensures r.id == sec.id && r.name == sec.name && r.isChecked == sec.isChecked
    ensures !sec.isChecked ==> r == sec
    ensures sec.isChecked ==>
      && x in r.selectedIDs
      && NoDuplicates(r.selectedIDs)
      && forall y :: y in r.selectedIDs <==> y in sec.selectedIDs || y == x
    ensures sec.isChecked && NoDuplicates(sec.selectedIDs) ==>
      r.selectedIDs == if x in sec.selectedIDs then sec.selectedIDs else sec.selectedIDs + [x]
  {
    if sec.isChecked then
      if NoDuplicates(sec.selectedIDs) then SetInsert(sec.selectedIDs, x); sec.(selectedIDs := Dedup(sec.selectedIDs + [x]))
      else sec.(selectedIDs := Dedup(sec.selectedIDs + [x]))
    else sec
  }

  /**
   * `handleIDSelect(x)`: every checked section gets `x` in its tags (once);
   * unchecked sections are untouched; the resolved ID is cleared.
   */
  function IDSelect(st: State, x: string): (r: State)
    ensures |r.sections| == |st.sections| && r.active == None
    ensures forall k :: 0 <= k < |st.sections| ==>
      && r.sections[k].id == st.sections[k].id
      && r.sections[k].name == st.sections[k].name
      && r.sections[k].isChecked == st.sections[k].isChecked
    ensures forall k :: 0 <= k < |st.sections| && !st.sections[k].isChecked ==>
      r.sections[k] == st.sections[k]
    ensures forall k :: 0 <= k < |st.sections| && st.sections[k].isChecked ==>
      && x in r.sections[k].selectedIDs
      && NoDuplicates(r.sections[k].selectedIDs)
      && forall y :: y in r.sections[k].selectedIDs <==> y in st.sections[k].selectedIDs || y == x
    ensures forall k :: 0 <= k < |st.sections| && st.sections[k].isChecked && NoDuplicates(st.sections[k].selectedIDs) ==>
      r.sections[k].selectedIDs ==
        if x in st.sections[k].selectedIDs then st.sections[k].selectedIDs else st.sections[k].selectedIDs + [x]
    ensures Invariant(st) ==> Invariant(r)
  {
    var s := st.sections;
    State(seq(|s|, k requires 0 <= k < |s| => TagSection(s[k], x)), None)
  }

  /** The entries of `l` other than `x`, in their original order. */
  function WithoutValue<T(==, !new)>(l: seq<T>, x: T): (r: seq<T>)
    ensures |r| <= |l|
    ensures forall y :: y in r <==> y in l && y != x
    ensures x !in l ==> r == l
    ensures NoDuplicates(l) ==> NoDuplicates(r)
    decreases |l|
  {
    if l == [] then []
    else
      var rest := WithoutValue(l[1..], x);
      assert forall k :: 0 <= k < |rest| ==> rest[k] in l[1..];
      if l[0] != x then [l[0]] + rest else rest
  }

  /** On a duplicate-free list, removing the entry at position `j` removes exactly that position. */
  lemma {:induction false} WithoutValueRemovesOne<T(!new)>(l: seq<T>, j: nat)
    requires NoDuplicates(l) && j < |l|
    ensures WithoutValue(l, l[j]) == l[..j] + l[j + 1..]
    decreases j
  {
    var x, tail := l[j], l[1..];
    assert NoDuplicates(tail) by {
      forall a, b | 0 <= a < b < |tail| ensures tail[a] != tail[b] {
        assert tail[a] == l[a + 1] && tail[b] == l[b + 1];
      }
    }
    if j == 0 {
      assert x !in tail by {
        forall k | 0 <= k < |tail| ensures tail[k] != x {
          assert tail[k] == l[k + 1];
        }
      }
      assert l[..j] + l[j + 1..] == tail;
    } else {
      assert l[0] != x;
      assert tail[j - 1] == x;
      WithoutValueRemovesOne(tail, j - 1);
      SpliceTail(l, j);
    }
  }

  /** `removeIDFromSection(sectionId, x)`: drops every `x` from that section's tags only. */
  function RemoveIDFromSection(st: State, sectionId: int, x: string): (r: State)
    ensures |r.sections| == |st.sections| && r.active == st.active
    ensures forall k :: 0 <= k < |st.sections| ==>
      && r.sections[k].id == st.sections[k].id
      && r.sections[k].name == st.sections[k].name
      && r.sections[k].isChecked == st.sections[k].isChecked
    ensures forall k :: 0 <= k < |st.sections| && st.sections[k].id != sectionId ==>
      r.sections[k] == st.sections[k]
    ensures forall k :: 0 <= k < |st.sections| && st.sections[k].id == sectionId ==>
      forall y :: y in r.sections[k].selectedIDs <==> y in st.sections[k].selectedIDs && y != x
    ensures Invariant(st) ==> Invariant(r)
  {
    var s := st.sections;
    st.(sections := seq(|s|, k requires 0 <= k < |s| =>
      if s[k].id == sectionId then s[k].(selectedIDs := WithoutValue(s[k].selectedIDs, x)) else s[k]))
  }

  /**
   * `handleSelectedIDClick` as written: `"A.I"` becomes
   * (A div 10, A mod 10, I - 1), or None where a part is not a number.
   */
  function ParseSelectedID(idLabel: string): (r: Option<JdRef>)
    ensures r.Some? ==> r.value.category >= 0 && 0 <= r.value.area < 10 && r.value.id >= -1
    ensures var parts := Split(idLabel, '.');
      r.Some? <==> (|parts| > 1 && ParseInt(parts[0]).Some? && ParseInt(parts[1]).Some?)
  {
    var parts := Split(idLabel, '.');
    var category := ParseInt(parts[0]);
    var areaId := if |parts| > 1 then ParseInt(parts[1]) else None;
    if category.Some? && areaId.Some? then
      Some(JdRef(category.value / 10, category.value % 10, (areaId.value as int) - 1))
    else
      None
  }

  /**
   * The indices a label names in the hierarchy editor: as `ParseSelectedID`,
   * except that the category position is A div 10 - 1, because the category
   * at position c has the range starting at 10c+10. This is the corrected
   * reading of the click handler's category; the handler itself is
   * `SelectedIDClick`, modelled as written.
   */
  function ResolveSelectedID(idLabel: string): (r: Option<JdRef>)
    ensures r.Some? <==> ParseSelectedID(idLabel).Some?
    ensures r.Some? ==>
      && r.value.area == ParseSelectedID(idLabel).value.area
      && r.value.id == ParseSelectedID(idLabel).value.id
      && r.value.category + 1 == ParseSelectedID(idLabel).value.category
  {
    match ParseSelectedID(idLabel)
    case Some(ref) => Some(ref.(category := ref.category - 1))
    case None => None
  }

  /**
   * `handleSelectedIDClick(idLabel)` as written, on a label both of whose
   * parts start with digits: records the parsed (A div 10, A mod 10, I - 1).
   */
  function SelectedIDClick(st: State, idLabel: string): (r: State)
    requires ParseSelectedID(idLabel).Some?
    ensures r.sections == st.sections
    ensures r.active.Some? && 0 <= r.active.value.area < 10
    ensures r.active == ParseSelectedID(idLabel)
    ensures Invariant(st) ==> Invariant(r)
  {
    st.(active := ParseSelectedID(idLabel))
  }
}
