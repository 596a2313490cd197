# Johnny-Decimal editor: hierarchy builder and section tagger

A Dafny model of the two state reducers of a small editor for Johnny-Decimal
numbering.

- The **hierarchy builder** (`app/JohnnyDecimal.tsx`) holds a list of
  categories; each category holds a list of areas, and each area a list of IDs.
  Category ranges are "10-19", "20-29", and so on, and there are at most nine
  categories. An area is numbered from the start of its category's range, at
  most ten areas per category. IDs are numbered 1, 2, … within their area.
  Notes are stored per ID under the key "c-a-i". An ID is shown as the label
  `area.NN`.
- The **section tagger** (`app/PaperSections.tsx`) holds a list of document
  sections `{id, name, isChecked, selectedIDs}`. It adds sections with a fresh
  id, removes, renames and checks them, tags every checked section with an ID
  label (set-style, without duplicates), untags one section, and reads a
  clicked label back into category, area and ID indices.

Files:

- `wrappers.dfy`: `Option`.
- `text.dfy`: the JavaScript string operations the handlers use. These are
  decimal rendering of a number, `parseInt` on digit strings, `split` on one
  character and `padStart`, with their round-trip lemmas.
- `johnny_decimal.dfy`: `Item`, `Area`, `Category`, the numbering invariant
  `Numbered`, and the class `Manager`. Its fields `categories` and `notes` are
  the component's state hooks, and its methods are the handlers.
- `paper_sections.dfy`: `Section` and the tagger `State`, with every handler
  as a function from state to state.
- `cross_reference.dfy`: the rendered label read back by the tagger, and the
  category off-by-one listed under "Findings".

The hierarchy builder's nested `push` and field assignment are modelled as
updates of `seq` fields that the methods reassign. The tagger builds new
lists with `map`, `filter` and a `Set`, so it is modelled with pure functions.

The model follows the code as it stands in these two files; the one corrected
definition, `PaperSections.ResolveSelectedID`, is the intended reading of a
category index listed under "Findings" and is not used by any handler. There are at most
9 categories, ranges start at "10-19", and a new category has no areas. There
is no removal of areas or IDs, no selection reset, no active tab and no
persistence, so none of these appears in the model.

## Model

| member | source | states |
|---|---|---|
| `JohnnyDecimal.Manager.constructor` | app/JohnnyDecimal.tsx:10-14 | The initial state: one unnamed category "10-19" with no areas, no notes. The numbering invariant holds. |
| `JohnnyDecimal.Manager.AddCategory` | app/JohnnyDecimal.tsx:17-22 | With n < 9 categories, appends exactly one category with range `RangeLabel(n)` = "(10n+10)-(10n+19)", an empty name and no areas. With n ≥ 9 nothing changes, so the count never exceeds 9. Notes are untouched; the invariant is kept. |
| `JohnnyDecimal.Manager.UpdateCategory` | app/JohnnyDecimal.tsx:24-28 | Only the name of the category at the index changes; length, ranges, areas, other categories and notes are unchanged. |
| `JohnnyDecimal.Manager.AddArea` | app/JohnnyDecimal.tsx:30-38 | Works from the start parsed out of the range. With k < 10 areas, it appends exactly one unnamed, empty area numbered 10c+10+k. With 10 areas nothing changes. Every other category, and this category's range and name, are unchanged. The invariant is kept: area numbers are consecutive from the range start, each in [start, start+9], so they are distinct and at most 10. |
| `JohnnyDecimal.Manager.UpdateArea` | app/JohnnyDecimal.tsx:40-44 | Only the name of the area at the path changes; its number and IDs, the other areas, the other categories and the notes are unchanged. |
| `JohnnyDecimal.Manager.AddID` | app/JohnnyDecimal.tsx:46-54 | Appends one unnamed ID numbered (prior count)+1 to the targeted area, with no cap. Every other area and category is unchanged, so ID numbers in an area stay exactly 1..n in list order. |
| `JohnnyDecimal.Manager.UpdateID` | app/JohnnyDecimal.tsx:56-60 | Only the name of the ID at the path changes; its number, the other IDs, the area's number and name, the other areas and categories are unchanged. |
| `JohnnyDecimal.Manager.UpdateNotes` | app/JohnnyDecimal.tsx:62-65 | The notes key set gains exactly "c-a-i". That key maps to the content, every other key keeps its value, and the categories are unchanged. |
| `JohnnyDecimal.NoteKeyParts` | app/JohnnyDecimal.tsx:63 | A notes key splits on '-' into exactly the three rendered indices. |
| `JohnnyDecimal.NoteKeyInjective` | app/JohnnyDecimal.tsx:62-65 | Different (c, a, i) paths give different notes keys, so a note write touches only the note of that one ID. |
| `JohnnyDecimal.CategoryStartOfRangeLabel` | app/JohnnyDecimal.tsx:19-32 | Parsing the integer before the '-' of the range written for position n gives back 10n+10, the start `addCategory` wrote. |
| `JohnnyDecimal.Label` | app/JohnnyDecimal.tsx:165 | An ID label is the area number, then '.', then an all-digit suffix. For ID numbers 1..99 the suffix is exactly two characters. |
| `JohnnyDecimal.Manager.IdLabel` | app/JohnnyDecimal.tsx:165 | In a well-numbered state, the label of ID i of area a of category c is `Label(10c+10+a, i+1)`. |
| `Text.NatToString` | app/JohnnyDecimal.tsx:19 | The decimal rendering is a non-empty digit string with no leading zero. It has one digit exactly below 10 and two digits exactly in 10..99. |
| `Text.DigitsValueOfNatToString` | app/JohnnyDecimal.tsx:19-32 | Reading a rendered number's digits gives the number back. |
| `Text.DigitsValueZeroPrefix` | app/JohnnyDecimal.tsx:165 | A leading '0' (the padding) does not change a digit string's value. |
| `Text.ParseInt` | app/JohnnyDecimal.tsx:32 | On strings without a "0x"/"0X" prefix, `parseInt` gives no number exactly when the string does not start with a digit. On a non-empty digit string it gives that string's value. |
| `Text.ParseIntOfNatToString` | app/JohnnyDecimal.tsx:32 | `parseInt` inverts decimal rendering. |
| `Text.LeadingDigits` | app/JohnnyDecimal.tsx:32 | The digits `parseInt` reads are the longest digit prefix; for an all-digit string that is the whole string. |
| `Text.IndexOf` | app/JohnnyDecimal.tsx:32 | The first occurrence of the separator: it is there, and nothing before it is the separator. |
| `Text.Split` | app/JohnnyDecimal.tsx:32 | `split` gives at least one piece. No piece contains the separator. A string without the separator is its own single piece. |
| `Text.SplitAt` | app/JohnnyDecimal.tsx:32 | Splitting `x + sep + y` with `sep` not in `x` yields `x` followed by the pieces of `y`. |
| `Text.SplitThree` | app/JohnnyDecimal.tsx:63 | A string built as x-y-z from separator-free parts splits into exactly [x, y, z]. |
| `Text.PadStart` | app/JohnnyDecimal.tsx:165 | `padStart` gives length max(len, width). The input is a suffix and every added character is the pad. |
| `PaperSections.Initial` | app/PaperSections.tsx:17-21 | Sections 1 and 2 with no resolved ID; ids are distinct and tag lists duplicate-free. |
| `PaperSections.MaxId` | app/PaperSections.tsx:24 | The result is an upper bound of all ids and is the id of some section. |
| `PaperSections.NextId` | app/PaperSections.tsx:24 | The new id is above every existing id. It is 1 for an empty list, otherwise exactly one past an existing id. |
| `PaperSections.AddSection` | app/PaperSections.tsx:23-26 | Appends exactly one section (new id, empty name, unchecked, untagged) after the unchanged old list. The new id differs from every existing id. The invariant is preserved. |
| `PaperSections.WithoutId` | app/PaperSections.tsx:29 | A section stays exactly when it was there and its id differs. No match leaves the list unchanged. |
| `PaperSections.WithoutIdKeepsUniqueIds` | app/PaperSections.tsx:28-30 | Removing sections keeps ids distinct. |
| `PaperSections.WithoutIdRemovesOne` | app/PaperSections.tsx:28-30 | With distinct ids, removing the id at position j gives exactly the list without position j, with the other sections in their original order. |
| `PaperSections.RemoveSection` | app/PaperSections.tsx:28-30 | The remaining sections are exactly those whose id differs. The resolved ID is unchanged and the invariant is preserved. |
| `PaperSections.UpdateSectionName` | app/PaperSections.tsx:32-36 | Length, order, ids, checkboxes and tags are preserved. Only sections with the matching id get the new name. The invariant is preserved. |
| `PaperSections.ToggleSectionCheck` | app/PaperSections.tsx:38-42 | Length, order, ids, names and tags are preserved. Only sections with the matching id get the new checkbox value. The invariant is preserved. |
| `PaperSections.Dedup` | app/PaperSections.tsx:46 | The set-and-spread result is duplicate-free with the same elements. A duplicate-free list is returned unchanged. |
| `PaperSections.SetInsert` | app/PaperSections.tsx:46 | On a duplicate-free list, deduplicating `l + [x]` yields `l` if `x` is present, otherwise `l + [x]` (set insertion order). |
| `PaperSections.TagSection` | app/PaperSections.tsx:46 | An unchecked section is unchanged. A checked one contains `x` (once) in a duplicate-free tag list whose elements are the old ones plus `x`. Prior entries keep their order. |
| `PaperSections.IDSelect` | app/PaperSections.tsx:44-49 | Every checked section holds `x` exactly once, with prior entries in order and `x` appended only if absent. Unchecked sections are unchanged; ids, names and checkboxes are too. The resolved ID becomes None and the invariant is preserved. |
| `PaperSections.WithoutValue` | app/PaperSections.tsx:61 | The remaining tags are exactly the old ones other than `x`. Absence of `x` leaves the list unchanged, and duplicate-freeness is kept. |
| `PaperSections.WithoutValueRemovesOne` | app/PaperSections.tsx:59-63 | On a duplicate-free tag list, removing the entry at position j gives exactly the list without position j, other entries in order. |
| `PaperSections.RemoveIDFromSection` | app/PaperSections.tsx:59-63 | Only the section with the given id loses `x`. Its other tags stay, and every other section and the resolved ID are untouched. The invariant is preserved. |
| `PaperSections.ParseSelectedID` | app/PaperSections.tsx:51-55 | The click handler's parse as written. It yields indices exactly when both parts before and after '.' start with digits; the area component is a single digit. |
| `PaperSections.SelectedIDClick` | app/PaperSections.tsx:51-57 | As written: the resolved ID becomes the parsed (A div 10, A mod 10, I − 1) of the label "A.I", so its area is a single digit; the sections are unchanged and the invariant is kept. On a rendered label this is (c+1, a, i) for the ID at path (c, a, i), see Findings. |
| `PaperSections.ResolveSelectedID` | app/PaperSections.tsx:53 | The corrected reading (see Findings): defined exactly where the as-written parse is, with the same area and ID and a category one lower. |
| `CrossReference.PaddedParsesBack` | app/PaperSections.tsx:55 | The zero-padded ID number of a label parses back to the ID number. |
| `CrossReference.LabelParsesBack` | app/PaperSections.tsx:51-57 | Parsing the label of area A and ID number I gives (A div 10, A mod 10, I − 1), for every A and I. |
| `CrossReference.LabelOfPosition` | app/PaperSections.tsx:51-57 | The label of ID position i in area position a < 10 of category position c parses to (c+1, a, i). |
| `CrossReference.SelectedIDCategoryOffByOne` | app/PaperSections.tsx:53 | As written, in every well-numbered hierarchy, the label of the ID at path (c, a, i) parses to (c+1, a, i). |
| `CrossReference.FirstIdLabelMisresolved` | app/PaperSections.tsx:53 | The first ID of the first category (position 0) is labelled "10.01" and parsed to category 1. |
| `CrossReference.ResolveSelectedIDRecoversPath` | app/PaperSections.tsx:51-57 | With the corrected category, the label of the ID at path (c, a, i) resolves to exactly (c, a, i). |

## Left out

- `startResize`, the column widths and the drag listeners: floating-point widths and DOM events.
- Rendering, markdown preview, dialogs and widgets; the disabled-button guards (app/JohnnyDecimal.tsx:137, 176, 186) are presentation. In particular, the 99-ID limit is not part of `addID`, and `Manager.AddID` has no cap.
- The selection hooks `selectedCategory`, `selectedArea`, `selectedID` and their setters: they only store indices the view hands them.
- The props passed to the hierarchy builder from the tagger (app/PaperSections.tsx:93): the builder accepts no props, so nothing flows between the two components.
- Aliasing: the source copies only the outer category list, so `push` and `.name =` also change the previous state's nested arrays. The model replaces values and does not represent that sharing.
- JavaScript numbers are doubles; the model uses unbounded integers, and the numbers involved stay far below where that matters.
- `Text.ParseInt`: does not model leading spaces, a sign, or the "0x"/"0X" prefix that JavaScript's `parseInt` reads as hexadecimal (`parseInt("0xA")` is 10, `parseInt("0x")` is `NaN`, where the model gives `Some(0)`). The handlers only parse rendered decimal numbers and labels, which never carry these. Elsewhere it yields `None` where JavaScript yields `NaN`.
- `PaperSections.SelectedIDClick`: requires a label both of whose parts start with digits; on a malformed label the source records `NaN` indices, which the model does not represent.
- `JohnnyDecimal.Manager.AddArea`: requires the numbering invariant, so the case of a range that does not parse (no area added) is not stated; no handler can produce such a range.
- `JohnnyDecimal.Manager.UpdateCategory`, `AddArea`, `UpdateArea`, `AddID`, `UpdateID` and `IdLabel`: require their category, area or ID indices to exist; out of range, the source throws a `TypeError` on `undefined`, which the model does not represent. `AddCategory` takes no path, and `UpdateNotes`, as in the source, writes its key for any indices.

## Findings

| source | as written | input that shows it | evidently intended | confidence | as-written member | corrected member |
|---|---|---|---|---|---|---|
| app/PaperSections.tsx:53 | The category index is the label's area number divided by 10, rounded down. | "10.01", the first ID of the first category (position 0), gives category 1. | The area number divided by 10, minus 1, since the category at position c has range start 10c+10 (app/JohnnyDecimal.tsx:19); the area and ID components already are positions. | medium, not executed; the resolved value is never read by the hierarchy builder | `CrossReference.SelectedIDCategoryOffByOne` | `CrossReference.ResolveSelectedIDRecoversPath` |
