/**
 * How the two editors meet: the label the hierarchy editor renders for an ID
 * is the string the section tagger stores and later parses back into indices.
 */
module CrossReference {
  import opened Wrappers
  import opened Text
  import JD = JohnnyDecimal
  import PS = PaperSections

  /** The zero-padded ID number reads back as the ID number. */
  lemma PaddedParsesBack(idNumber: nat)
    ensures var padded := PadStart(NatToString(idNumber), 2, '0');
      AllDigits(padded) && ParseInt(padded) == Some(idNumber)
  {
    var digits := NatToString(idNumber);
    var padded := PadStart(digits, 2, '0');
    DigitsValueOfNatToString(idNumber);
    if |digits| >= 2 {
      assert padded == digits;
    } else {
      assert padded == ['0'] + digits;
      DigitsValueZeroPrefix(digits);
    }
  }

  /** Parsing a rendered label "A.II" gives (A div 10, A mod 10, I - 1). */
  lemma LabelParsesBack(areaNumber: nat, idNumber: nat)
    ensures PS.ParseSelectedID(JD.Label(areaNumber, idNumber))
         == Some(PS.JdRef(areaNumber / 10, areaNumber % 10, idNumber - 1))
  {
    var a := NatToString(areaNumber);
    var padded := PadStart(NatToString(idNumber), 2, '0');
    PaddedParsesBack(idNumber);
    ParseIntOfNatToString(areaNumber);
    DigitsAvoid(a, '.');
    DigitsAvoid(padded, '.');
    assert JD.Label(areaNumber, idNumber) == a + ['.'] + padded;
    SplitAt(a, '.', padded);
    var parts := Split(JD.Label(areaNumber, idNumber), '.');
    assert parts == [a, padded];
    assert ParseInt(parts[0]) == Some(areaNumber);
    assert ParseInt(parts[1]) == Some(idNumber);
  }

  lemma DivModTen(c: nat, a: nat)
    requires a < 10
    ensures (10 * c + 10 + a) / 10 == c + 1 && (10 * c + 10 + a) % 10 == a
  {
  }

  /** The label of ID position i in area position a of category position c. */
  lemma LabelOfPosition(c: nat, a: nat, i: nat)
    requires a < 10
    ensures PS.ParseSelectedID(JD.Label(10 * c + 10 + a, i + 1)) == Some(PS.JdRef(c + 1, a, i))
  {
    DivModTen(c, a);
    LabelParsesBack(10 * c + 10 + a, i + 1);
  }

  /**
   * As written, the category component is one more than the position of the
   * category that holds the ID: area numbers in the category at position c
   * start at 10c+10.
   */
  lemma SelectedIDCategoryOffByOne(cats: seq<JD.Category>, c: nat, a: nat, i: nat)
    requires JD.Numbered(cats)
    requires c < |cats| && a < |cats[c].areas| && i < |cats[c].areas[a].ids|
    ensures PS.ParseSelectedID(JD.Label(cats[c].areas[a].number, cats[c].areas[a].ids[i].number))
         == Some(PS.JdRef(c + 1, a, i))
  {
    var area := cats[c].areas[a];
    assert JD.CategoryNumbered(cats[c], c);
    assert area.number == 10 * c + 10 + a && a < 10;
    assert JD.IdsNumbered(area);
    assert area.ids[i].number == i + 1;
    LabelOfPosition(c, a, i);
  }

  /** The first ID of the first category is labelled "10.01" and parsed to category 1, not 0. */
  lemma FirstIdLabelMisresolved()
    ensures JD.Label(10, 1) == "10.01"
    ensures PS.ParseSelectedID("10.01") == Some(PS.JdRef(1, 0, 0))
  {
    assert NatToString(10) == "10" && NatToString(1) == "1";
    assert PadStart("1", 2, '0') == "01";
    LabelParsesBack(10, 1);
  }

  /** The corrected resolution recovers exactly the path of the labelled ID. */
  lemma ResolveSelectedIDRecoversPath(cats: seq<JD.Category>, c: nat, a: nat, i: nat)
    requires JD.Numbered(cats)
    requires c < |cats| && a < |cats[c].areas| && i < |cats[c].areas[a].ids|
    ensures PS.ResolveSelectedID(JD.Label(cats[c].areas[a].number, cats[c].areas[a].ids[i].number))
         == Some(PS.JdRef(c, a, i))
  {
    var area := cats[c].areas[a];
    var shown := JD.Label(area.number, area.ids[i].number);
    SelectedIDCategoryOffByOne(cats, c, a, i);
    var parsed := PS.ParseSelectedID(shown);
    assert parsed == Some(PS.JdRef(c + 1, a, i));
    assert PS.ResolveSelectedID(shown) == Some(parsed.value.(category := c));
  }
}
