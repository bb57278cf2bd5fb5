/**
  `build_selection`: the answers of the search questionnaire put into the
  shape the parser produces (lower-case code lists, canonical size tokens,
  optional slot values), so that one matcher serves typed codes and
  questionnaire answers alike.
 */
module Selections {
  import opened Wrappers
  import opened Strings
  import opened Vocabulary
  import opened Normalize
  import opened Parsing

  /** The normalised selection; absent answers are empty lists or `None`. */
  datatype Selection = Selection(
    material: seq<string>,
    color: seq<string>,
    size: seq<string>,
    designs: seq<string>,
    supplier: Option<string>,
    folderCode: Option<string>,
    fileToken: Option<string>)

  // ---------------------------------------------------------------------------
  // Label tables as dictionaries
  // ---------------------------------------------------------------------------

  /**
    `{k.lower(): v.lower() for k, v in table}`: the keys are the lower-cased
    labels, and a key's value is the code of the LAST entry with that key.
   */
  function LabelDict(table: seq<(string, string)>): (m: map<string, string>)
    ensures forall k :: k in m <==> exists i :: 0 <= i < |table| && LowerStr(table[i].0) == k
    ensures forall i :: 0 <= i < |table| && LastWithLabel(table, i) ==> m[LowerStr(table[i].0)] == LowerStr(table[i].1)
    decreases |table|
  {
    if |table| == 0 then map[]
    else
      var last := table[|table| - 1];
      var d := LabelDict(table[..|table| - 1]);
      LabelDictExtend(table, table[..|table| - 1], d);
      d[LowerStr(last.0) := LowerStr(last.1)]
  }

  /** Adding the last entry of a table to the dictionary of the entries before it. */
  lemma LabelDictExtend(table: seq<(string, string)>, init: seq<(string, string)>, d: map<string, string>)
    requires |table| > 0 && init == table[..|table| - 1]
    requires forall k :: k in d <==> exists i :: 0 <= i < |init| && LowerStr(init[i].0) == k
    requires forall i :: 0 <= i < |init| && LastWithLabel(init, i) ==> d[LowerStr(init[i].0)] == LowerStr(init[i].1)
    ensures var m := d[LowerStr(table[|table| - 1].0) := LowerStr(table[|table| - 1].1)];
      && (forall k :: k in m <==> exists i :: 0 <= i < |table| && LowerStr(table[i].0) == k)
      && (forall i :: 0 <= i < |table| && LastWithLabel(table, i) ==> m[LowerStr(table[i].0)] == LowerStr(table[i].1))
  {
    LabelDictExtendKeys(table, init, d);
    LabelDictExtendValues(table, init, d);
  }

  lemma LabelDictExtendKeys(table: seq<(string, string)>, init: seq<(string, string)>, d: map<string, string>)
    requires |table| > 0 && init == table[..|table| - 1]
    requires forall k :: k in d <==> exists i :: 0 <= i < |init| && LowerStr(init[i].0) == k
    ensures var m := d[LowerStr(table[|table| - 1].0) := LowerStr(table[|table| - 1].1)];
      forall k :: k in m <==> exists i :: 0 <= i < |table| && LowerStr(table[i].0) == k
  {
    var n := |table| - 1;
    var key := LowerStr(table[n].0);
    var m := d[key := LowerStr(table[n].1)];
    forall k ensures k in m <==> exists i :: 0 <= i < |table| && LowerStr(table[i].0) == k {
      if k in d && k != key {
        var i :| 0 <= i < |init| && LowerStr(init[i].0) == k;
        assert init[i] == table[i];
      }
      if k != key && exists i :: 0 <= i < |table| && LowerStr(table[i].0) == k {
        var i :| 0 <= i < |table| && LowerStr(table[i].0) == k;
        assert init[i] == table[i];
      }
    }
  }

  lemma LabelDictExtendValues(table: seq<(string, string)>, init: seq<(string, string)>, d: map<string, string>)
    requires |table| > 0 && init == table[..|table| - 1]
    requires forall k :: k in d <==> exists i :: 0 <= i < |init| && LowerStr(init[i].0) == k
    requires forall i :: 0 <= i < |init| && LastWithLabel(init, i) ==> d[LowerStr(init[i].0)] == LowerStr(init[i].1)
    ensures var m := d[LowerStr(table[|table| - 1].0) := LowerStr(table[|table| - 1].1)];
      forall i :: 0 <= i < |table| && LastWithLabel(table, i) ==> LowerStr(table[i].0) in m && m[LowerStr(table[i].0)] == LowerStr(table[i].1)
  {
    var n := |table| - 1;
    var key := LowerStr(table[n].0);
    var m := d[key := LowerStr(table[n].1)];
    forall i | 0 <= i < |table| && LastWithLabel(table, i)
      ensures LowerStr(table[i].0) in m && m[LowerStr(table[i].0)] == LowerStr(table[i].1)
    {
      if i < n {
        assert LowerStr(table[i].0) != key;
        assert init[i] == table[i];
        assert LastWithLabel(init, i) by {
          forall j | i < j < |init| ensures LowerStr(init[j].0) != LowerStr(init[i].0) {
            assert init[j] == table[j];
          }
        }
        assert LowerStr(init[i].0) in d;
      }
    }
  }

  /** No later entry of `table` has the same lower-cased label as entry `i`. */
  predicate LastWithLabel(table: seq<(string, string)>, i: nat)
    requires i < |table|
  {
    forall j :: i < j < |table| ==> LowerStr(table[j].0) != LowerStr(table[i].0)
  }

  /**
    A questionnaire answer mapped through a label table: a known label
    (case-insensitively) becomes its lower-case code, anything else is kept,
    lower-cased.
   */
  function MapLabel(table: seq<(string, string)>, x: string): (r: string)
    ensures forall i :: 0 <= i < |table| && LowerStr(table[i].0) == LowerStr(x) && LastWithLabel(table, i)
              ==> r == LowerStr(table[i].1)
    ensures (forall i :: 0 <= i < |table| ==> LowerStr(table[i].0) != LowerStr(x)) ==> r == LowerStr(x)
  {
    var d := LabelDict(table);
    var xl := LowerStr(x);
    if xl in d then d[xl] else xl
  }

  /** Length and first two characters, case-insensitively: enough to tell the labels of each table apart. */
  function LabelKey(s: string): (int, char, char) {
    (|s|, if |s| > 0 then Lower(s[0]) else ' ', if |s| > 1 then Lower(s[1]) else ' ')
  }

  lemma LabelKeyDiffers(a: string, b: string)
    requires LabelKey(a) != LabelKey(b)
    ensures LowerStr(a) != LowerStr(b)
  {
    if |a| == |b| && |a| > 0 {
      assert LowerStr(a)[0] == Lower(a[0]) && LowerStr(b)[0] == Lower(b[0]);
      if |a| > 1 {
        assert LowerStr(a)[1] == Lower(a[1]) && LowerStr(b)[1] == Lower(b[1]);
      }
    }
  }

  /** No two labels of the table share a key. */
  predicate DistinctLabelKeys(table: seq<(string, string)>) {
    forall i, j :: 0 <= i < j < |table| ==> LabelKey(table[i].0) != LabelKey(table[j].0)
  }

  /** No code of the table shares a key with any label of it. */
  predicate CodesApartFromLabels(table: seq<(string, string)>) {
    forall i, j :: 0 <= i < |table| && 0 <= j < |table| ==> LabelKey(table[j].0) != LabelKey(table[i].1)
  }

  /**
    In a table whose labels are case-insensitively distinct and differ from
    every code, answering with an entry's label or with its code selects that
    entry's code.
   */
  lemma TableAnswers(table: seq<(string, string)>)
    requires DistinctLabelKeys(table) && CodesApartFromLabels(table)
    ensures forall i :: 0 <= i < |table| ==>
      MapLabel(table, table[i].0) == LowerStr(table[i].1) && MapLabel(table, table[i].1) == LowerStr(table[i].1)
  {
    forall i | 0 <= i < |table|
      ensures MapLabel(table, table[i].0) == LowerStr(table[i].1) && MapLabel(table, table[i].1) == LowerStr(table[i].1)
    {
      forall j | i < j < |table| ensures LowerStr(table[j].0) != LowerStr(table[i].0) {
        LabelKeyDiffers(table[j].0, table[i].0);
      }
      assert LastWithLabel(table, i);
      forall j | 0 <= j < |table| ensures LowerStr(table[j].0) != LowerStr(table[i].1) {
        LabelKeyDiffers(table[j].0, table[i].1);
      }
      LowerStrIdempotent(table[i].1);
    }
  }

  /** The key conditions of a table, read off precomputed key lists. */
  lemma KeysFromLists(table: seq<(string, string)>, labelKeys: seq<(int, char, char)>, codeKeys: seq<(int, char, char)>)
    requires |labelKeys| == |table| && |codeKeys| == |table|
    requires forall i :: 0 <= i < |table| ==> LabelKey(table[i].0) == labelKeys[i] && LabelKey(table[i].1) == codeKeys[i]
    requires forall i, j :: 0 <= i < j < |labelKeys| ==> labelKeys[i] != labelKeys[j]
    requires forall i, j :: 0 <= i < |codeKeys| && 0 <= j < |labelKeys| ==> labelKeys[j] != codeKeys[i]
    ensures DistinctLabelKeys(table) && CodesApartFromLabels(table)
  {
  }

  // Materials

  const MaterialLabelKeys: seq<(int, char, char)> := [
    (8, 'c', 'h'), (3, 'p', 'v'), (3, 'w', 'p'), (11, 's', 'u'), (24, 'u', 'l'), (25, 'u', 'l'), (12, 't', 'i'), (7, 'a', 'c')]

  const MaterialCodeKeys: seq<(int, char, char)> := [
    (2, 'c', 'h'), (2, 'p', 'v'), (2, 'w', 'p'), (4, 's', 'p'), (4, 'u', 'v'), (4, 'u', 'v'), (2, 't', 'g'), (3, 'a', 'c')]

  lemma MaterialKeyLists()
    ensures forall i :: 0 <= i < |MaterialMap| ==>
      LabelKey(MaterialMap[i].0) == MaterialLabelKeys[i] && LabelKey(MaterialMap[i].1) == MaterialCodeKeys[i]
  {
  }

  lemma MaterialKeysApart()
    ensures forall i, j :: 0 <= i < j < |MaterialLabelKeys| ==> MaterialLabelKeys[i] != MaterialLabelKeys[j]
    ensures forall i, j :: 0 <= i < |MaterialCodeKeys| && 0 <= j < |MaterialLabelKeys| ==> MaterialLabelKeys[j] != MaterialCodeKeys[i]
  {
  }

  /** A material answered by its label or by its code, in any case, selects the material code. */
  lemma MaterialAnswers()
    ensures forall i :: 0 <= i < |MaterialMap| ==>
      MapLabel(MaterialMap, MaterialMap[i].0) == MaterialCodes[i] && MapLabel(MaterialMap, MaterialMap[i].1) == MaterialCodes[i]
  {
    MaterialKeyLists();
    MaterialKeysApart();
    KeysFromLists(MaterialMap, MaterialLabelKeys, MaterialCodeKeys);
    MaterialCodesDerived();
    TableAnswers(MaterialMap);
  }

  // Colours

  const ColorLabelKeys: seq<(int, char, char)> := [
    (3, 'r', 'e'), (5, 'b', 'l'), (4, 'g', 'o'), (6, 's', 'i'), (4, 't', 'e'),
    (6, 'w', 'a'), (6, 'y', 'e'), (4, 'b', 'l'), (5, 's', 't'), (4, 'g', 'r'),
    (5, 'b', 'r'), (5, 'w', 'h'), (6, 'p', 'u'), (5, 'g', 'r'), (9, 'r', 'o'),
    (5, 'b', 'e'), (5, 'c', 'r'), (4, 'm', 'o'), (7, 'm', 'e'), (6, 'm', 'a')]

  lemma ColorLabelKeysFirst()
    ensures forall i :: 0 <= i < 10 ==> LabelKey(ColorMap[i].0) == ColorLabelKeys[i]
  {
  }

  lemma ColorLabelKeysSecond()
    ensures forall i :: 10 <= i < 20 ==> LabelKey(ColorMap[i].0) == ColorLabelKeys[i]
  {
  }

  lemma ColorKeysDistinct()
    ensures forall i, j :: 0 <= i < j < |ColorLabelKeys| ==> ColorLabelKeys[i] != ColorLabelKeys[j]
  {
  }

  /** Colour labels are distinct and at least three characters long; colour codes have two. */
  lemma ColorKeys()
    ensures DistinctLabelKeys(ColorMap) && CodesApartFromLabels(ColorMap)
  {
    ColorLabelKeysFirst();
    ColorLabelKeysSecond();
    ColorKeysDistinct();
    assert forall j :: 0 <= j < |ColorMap| ==> LabelKey(ColorMap[j].0).0 >= 3;
    assert forall j :: 0 <= j < |ColorMap| ==> |ColorMap[j].1| == 2;
  }

  /** A colour answered by its label or by its code, in any case, selects the colour code. */
  lemma ColorAnswers()
    ensures forall i :: 0 <= i < |ColorMap| ==>
      MapLabel(ColorMap, ColorMap[i].0) == ColorCodes[i] && MapLabel(ColorMap, ColorMap[i].1) == ColorCodes[i]
  {
    ColorKeys();
    ColorCodesDerived();
    TableAnswers(ColorMap);
  }

  // Designs

  /** The flattened design table, written out. */
  const DesignTable: seq<(string, string)> := [
    ("Flutted", "FT"), ("Equal Distance Between The Lines", "EQ"), ("Line", "L"), ("Step", "S"),
    ("Double Tone", "DT"), ("Rounded", "RD"), ("Louver Style", "LV"), ("Texture", "TX"), ("Matt", "MTT"),
    ("Seamless", "SL"), ("Printed", "PR"), ("Wooden", "WD"), ("Digital Marble Sheet", "DMS"),
    ("Flutted Marble Sheet", "FMS"), ("Book Match Digital Marble", "BMDM"), ("Digital Marble Gold Line", "DMGL"),
    ("High/3D Sheet", "H3D"), ("Panel No Line", "PL"), ("Volume", "VO"), ("Catalogue", "CT")]

  lemma DesignMapExplicit()
    ensures DesignMap == DesignTable
  {
  }

  const DesignLabelKeys: seq<(int, char, char)> := [
    (7, 'f', 'l'), (32, 'e', 'q'), (4, 'l', 'i'), (4, 's', 't'), (11, 'd', 'o'), (7, 'r', 'o'), (12, 'l', 'o'),
    (7, 't', 'e'), (4, 'm', 'a'), (8, 's', 'e'), (7, 'p', 'r'), (6, 'w', 'o'), (20, 'd', 'i'), (20, 'f', 'l'),
    (25, 'b', 'o'), (24, 'd', 'i'), (13, 'h', 'i'), (13, 'p', 'a'), (6, 'v', 'o'), (9, 'c', 'a')]

  const DesignCodeKeys: seq<(int, char, char)> := [
    (2, 'f', 't'), (2, 'e', 'q'), (1, 'l', ' '), (1, 's', ' '), (2, 'd', 't'), (2, 'r', 'd'), (2, 'l', 'v'),
    (2, 't', 'x'), (3, 'm', 't'), (2, 's', 'l'), (2, 'p', 'r'), (2, 'w', 'd'), (3, 'd', 'm'), (3, 'f', 'm'),
    (4, 'b', 'm'), (4, 'd', 'm'), (3, 'h', '3'), (2, 'p', 'l'), (2, 'v', 'o'), (2, 'c', 't')]

  lemma DesignKeyListsFirst()
    ensures forall i :: 0 <= i < 10 ==>
      LabelKey(DesignTable[i].0) == DesignLabelKeys[i] && LabelKey(DesignTable[i].1) == DesignCodeKeys[i]
  {
  }

  lemma DesignKeyListsSecond()
    ensures forall i :: 10 <= i < 20 ==>
      LabelKey(DesignTable[i].0) == DesignLabelKeys[i] && LabelKey(DesignTable[i].1) == DesignCodeKeys[i]
  {
  }

  lemma DesignKeysDistinct()
    ensures forall i, j :: 0 <= i < j < |DesignLabelKeys| ==> DesignLabelKeys[i] != DesignLabelKeys[j]
  {
  }

  lemma DesignKeysApart()
    ensures forall i, j :: 0 <= i < |DesignCodeKeys| && 0 <= j < |DesignLabelKeys| ==> DesignLabelKeys[j] != DesignCodeKeys[i]
  {
  }

  lemma DesignTableAnswers()
    ensures forall i :: 0 <= i < |DesignTable| ==>
      MapLabel(DesignTable, DesignTable[i].0) == LowerStr(DesignTable[i].1)
      && MapLabel(DesignTable, DesignTable[i].1) == LowerStr(DesignTable[i].1)
  {
    DesignKeyListsFirst();
    DesignKeyListsSecond();
    DesignKeysDistinct();
    DesignKeysApart();
    KeysFromLists(DesignTable, DesignLabelKeys, DesignCodeKeys);
    TableAnswers(DesignTable);
  }

  /** Every design code, lower-cased, belongs to the design vocabulary. */
  lemma DesignCodesKnown()
    ensures forall i :: 0 <= i < |DesignMap| ==> LowerStr(DesignMap[i].1) in DesignCodesLower
  {
    DesignCodesDerived();
    assert forall i :: 0 <= i < |DesignMap| ==> LowerStr(DesignMap[i].1) == LowerCodes(DesignMap)[i];
  }

  /** A design answered by its label or by its code, in any case, selects its design code, one of the design vocabulary. */
  lemma DesignAnswers()
    ensures forall i :: 0 <= i < |DesignMap| ==>
      MapLabel(DesignMap, DesignMap[i].0) == LowerStr(DesignMap[i].1)
      && MapLabel(DesignMap, DesignMap[i].1) == LowerStr(DesignMap[i].1)
      && LowerStr(DesignMap[i].1) in DesignCodesLower
  {
    DesignCodesKnown();
    DesignMapExplicit();
    DesignTableAnswers();
  }

  // ---------------------------------------------------------------------------
  // Sizes
  // ---------------------------------------------------------------------------

  /**
    The width answer: stripped of white space; unless it already ends with an
    inch mark, its digits are kept and an inch mark is appended; then it is
    canonicalised like any size token.
   */
  function WidthEntry(w: string): (r: string)
    ensures |r| > 0 && r[|r| - 1] == '_'
    ensures IsSizeToken(r)
  {
    var s := StripSpace(w);
    var marked := if EndsWith(s, "\"") then s else Filter(s, IsDigit) + "\"";
    assert marked[|marked| - 1] == '"';
    NormalizeSizeTokenShape(marked);
    MarkedEndsWithUnderscore(marked);
    NormalizeSizeToken(marked)
  }

  /** A size whose last character is an inch mark canonicalises to one ending in `_`. */
  lemma MarkedEndsWithUnderscore(s: string)
    requires |s| > 0 && s[|s| - 1] == '"'
    ensures |NormalizeSizeToken(s)| > 0 && NormalizeSizeToken(s)[|NormalizeSizeToken(s)| - 1] == '_'
  {
    var c := CollapseUnderscores(MarkSizeSeps(s));
    assert c[|c| - 1] == '_';
    assert LowerStr(c)[|c| - 1] == Lower(c[|c| - 1]);
  }

  /**
    A width typed as bare digits or with its inch mark gives the same size
    token, and it is the one the parser derives from the inches token
    `<digits>"`.
   */
  lemma WidthAgreesWithInches(d: string)
    requires AllDigits(d)
    ensures WidthEntry(d) == WidthEntry(d + "\"") == NormalizeSizeToken(d + "\"")
    ensures InchesFragment(d + "\"") == Some(d + "\"")
  {
    WidthOfDigits(d);
    InchesOfDigits(d);
  }

  lemma WidthOfDigits(d: string)
    requires AllDigits(d)
    ensures WidthEntry(d) == WidthEntry(d + "\"") == NormalizeSizeToken(d + "\"")
  {
    var q := d + "\"";
    StripSpaceIdentity(d);
    assert q[0] == d[0] && q[|q| - 1] == '"';
    StripSpaceIdentity(q);
    assert !EndsWith(d, "\"") by { assert d[|d| - 1] != '"'; }
    assert EndsWith(q, "\"");
    FilterIdentity(d, IsDigit);
  }

  lemma InchesOfDigits(d: string)
    requires AllDigits(d)
    ensures InchesFragment(d + "\"") == Some(d + "\"")
  {
    var q := d + "\"";
    assert q[..|d|] == d;
    LeadingDigitsAt(q, |d|);
    assert q[..|d| + 1] == q;
  }

  /** The height (if given) and then the width (if given), each canonicalised. */
  function SizeEntries(height: Option<string>, width: Option<string>): (r: seq<string>)
    ensures |r| == (if Truthy(height) then 1 else 0) + (if Truthy(width) then 1 else 0)
    ensures forall k :: 0 <= k < |r| ==> |r[k]| > 0 && IsSizeToken(r[k])
    ensures Truthy(height) ==> r[0] == NormalizeSizeToken(height.value)
    ensures Truthy(width) ==> r[|r| - 1] == WidthEntry(width.value)
  {
    var h := if Truthy(height) then NormalizeSizeTokenShape(height.value); [NormalizeSizeToken(height.value)] else [];
    var w := if Truthy(width) then [WidthEntry(width.value)] else [];
    h + w
  }

  // ---------------------------------------------------------------------------
  // Designs
  // ---------------------------------------------------------------------------

  /** The lower-cased, stripped form of one design answer; `None` stands for Python's `None`. */
  function DesignAnswer(d: Option<string>): string {
    LowerStr(StripSpace(d.GetOr("")))
  }

  /**
    The design answers in order, blank ones skipped, each mapped through the
    label table (the flattened design table in `BuildSelection`).
   */
  function DesignEntries(table: seq<(string, string)>, ds: seq<Option<string>>): (r: seq<string>)
    requires CodesNonEmpty(table)
    ensures |r| <= |ds|
    ensures forall k :: 0 <= k < |r| ==> |r[k]| > 0
    decreases |ds|
  {
    if |ds| == 0 then []
    else
      var dl := DesignAnswer(ds[0]);
      var rest := DesignEntries(table, ds[1..]);
      if |dl| == 0 then rest else [LabelValue(table, dl)] + rest
  }

  /**
    When every answer is filled in, entry `k` is the table value of answer
    `k`; when every answer is blank, there are no entries.
   */
  lemma {:induction false} DesignEntriesMeaning(table: seq<(string, string)>, ds: seq<Option<string>>)
    requires CodesNonEmpty(table)
    ensures AllAnswered(ds) ==> MappedAnswers(table, DesignEntries(table, ds), ds)
    ensures NoneAnswered(ds) ==> DesignEntries(table, ds) == []
    decreases |ds|
  {
    if |ds| > 0 {
      AnsweredTail(ds);
      DesignEntriesMeaning(table, ds[1..]);
      if AllAnswered(ds) {
        MappedCons(table, LabelValue(table, DesignAnswer(ds[0])), DesignEntries(table, ds[1..]), ds);
      }
    }
  }

  /** The non-blank design answers, in order. */
  function Answered(ds: seq<Option<string>>): (r: seq<Option<string>>)
    ensures |r| <= |ds|
    ensures AllAnswered(r)
    decreases |ds|
  {
    if |ds| == 0 then []
    else
      var rest := Answered(ds[1..]);
      if |DesignAnswer(ds[0])| > 0 then
        assert forall j :: 0 < j < |rest| + 1 ==> ([ds[0]] + rest)[j] == rest[j - 1];
        [ds[0]] + rest
      else rest
  }

  /** Picking the non-blank answers of two lists one after the other is picking them from the whole. */
  lemma {:induction false} AnsweredAppend(a: seq<Option<string>>, b: seq<Option<string>>)
    ensures Answered(a + b) == Answered(a) + Answered(b)
    decreases |a|
  {
    if |a| == 0 {
      assert a + b == b;
    } else {
      assert (a + b)[0] == a[0];
      assert (a + b)[1..] == a[1..] + b;
      AnsweredAppend(a[1..], b);
    }
  }

  /**
    Blank answers are skipped and the others kept in order: entry `k` is the
    table value of the `k`-th non-blank answer, whatever mix of blank and
    filled-in answers the list holds.
   */
  lemma {:induction false} DesignEntriesSkipBlank(table: seq<(string, string)>, ds: seq<Option<string>>)
    requires CodesNonEmpty(table)
    ensures MappedAnswers(table, DesignEntries(table, ds), Answered(ds))
    decreases |ds|
  {
    if |ds| > 0 {
      DesignEntriesSkipBlank(table, ds[1..]);
      var dl := DesignAnswer(ds[0]);
      if |dl| > 0 {
        assert Answered(ds)[1..] == Answered(ds[1..]);
        MappedCons(table, LabelValue(table, dl), DesignEntries(table, ds[1..]), Answered(ds));
      }
    }
  }

  /** The entries of two answer lists one after the other are the entries of the whole. */
  lemma {:induction false} DesignEntriesAppend(table: seq<(string, string)>, a: seq<Option<string>>, b: seq<Option<string>>)
    requires CodesNonEmpty(table)
    ensures DesignEntries(table, a + b) == DesignEntries(table, a) + DesignEntries(table, b)
    decreases |a|
  {
    if |a| == 0 {
      assert a + b == b;
    } else {
      assert (a + b)[0] == a[0];
      assert (a + b)[1..] == a[1..] + b;
      DesignEntriesAppend(table, a[1..], b);
    }
  }

  /** Every code of the table is non-empty. */
  predicate CodesNonEmpty(table: seq<(string, string)>) {
    forall i :: 0 <= i < |table| ==> |table[i].1| > 0
  }

  /** Every design answer is non-blank. */
  predicate AllAnswered(ds: seq<Option<string>>) {
    forall j :: 0 <= j < |ds| ==> |DesignAnswer(ds[j])| > 0
  }

  /** Every design answer is blank. */
  predicate NoneAnswered(ds: seq<Option<string>>) {
    forall j :: 0 <= j < |ds| ==> |DesignAnswer(ds[j])| == 0
  }

  /** `r` holds, position by position, the table value of each (non-blank) answer. */
  predicate MappedAnswers(table: seq<(string, string)>, r: seq<string>, ds: seq<Option<string>>)
    requires CodesNonEmpty(table)
  {
    |r| == |ds| && forall k :: 0 <= k < |ds| ==> |DesignAnswer(ds[k])| > 0 && r[k] == LabelValue(table, DesignAnswer(ds[k]))
  }

  lemma AnsweredTail(ds: seq<Option<string>>)
    requires |ds| > 0
    ensures AllAnswered(ds) ==> AllAnswered(ds[1..]) && |DesignAnswer(ds[0])| > 0
    ensures NoneAnswered(ds) ==> NoneAnswered(ds[1..]) && |DesignAnswer(ds[0])| == 0
  {
    assert forall j :: 0 <= j < |ds[1..]| ==> ds[1..][j] == ds[j + 1];
  }

  lemma MappedCons(table: seq<(string, string)>, v: string, rest: seq<string>, ds: seq<Option<string>>)
    requires CodesNonEmpty(table)
    requires |ds| > 0 && |DesignAnswer(ds[0])| > 0 && v == LabelValue(table, DesignAnswer(ds[0]))
    requires MappedAnswers(table, rest, ds[1..])
    ensures MappedAnswers(table, [v] + rest, ds)
  {
    var r := [v] + rest;
    forall k | 0 <= k < |ds|
      ensures |DesignAnswer(ds[k])| > 0 && r[k] == LabelValue(table, DesignAnswer(ds[k]))
    {
      if k > 0 { assert r[k] == rest[k - 1] && ds[k] == ds[1..][k - 1]; }
    }
  }

  /** A non-empty answer looked up in a table without empty codes: never empty. */
  function LabelValue(table: seq<(string, string)>, dl: string): (v: string)
    requires CodesNonEmpty(table) && |dl| > 0
    ensures |v| > 0
  {
    LabelValueNonEmpty(table, dl);
    MapLabel(table, dl)
  }

  /** Mapping a non-empty answer through a table without empty codes never yields the empty string. */
  lemma LabelValueNonEmpty(table: seq<(string, string)>, dl: string)
    requires CodesNonEmpty(table) && |dl| > 0
    ensures |MapLabel(table, dl)| > 0
  {
    var d := LabelDict(table);
    if LowerStr(dl) in d {
      var i :| 0 <= i < |table| && LowerStr(table[i].0) == LowerStr(dl);
      var j := LastLabelIndex(table, i);
      assert |LowerStr(table[j].1)| > 0;
    }
  }

  /** Among the entries sharing entry `i`'s label, the last one. */
  lemma LastLabelIndex(table: seq<(string, string)>, i: nat) returns (j: nat)
    requires i < |table|
    ensures i <= j < |table| && LowerStr(table[j].0) == LowerStr(table[i].0) && LastWithLabel(table, j)
    decreases |table| - i
  {
    if LastWithLabel(table, i) {
      j := i;
    } else {
      var k :| i < k < |table| && LowerStr(table[k].0) == LowerStr(table[i].0);
      j := LastLabelIndex(table, k);
    }
  }

  /** Every design code in the table is non-empty. */
  lemma DesignTableCodes()
    ensures CodesNonEmpty(DesignMap)
  {
  }

  // ---------------------------------------------------------------------------
  // build_selection
  // ---------------------------------------------------------------------------

  /** The material or colour answer as a list of at most one code. */
  function LabelEntries(table: seq<(string, string)>, x: Option<string>): (r: seq<string>)
    ensures |r| == (if Truthy(x) then 1 else 0)
    ensures |r| == 1 ==> r[0] == MapLabel(table, x.value)
  {
    if Truthy(x) then [MapLabel(table, x.value)] else []
  }

  /** `normalize_token(x) if x else None` */
  function OptionalToken(x: Option<string>): (r: Option<string>)
    ensures r.Some? <==> Truthy(x)
    ensures r.Some? ==> IsToken(r.value)
  {
    if Truthy(x) then Some(NormalizeToken(x.value)) else None
  }

  /** `build_selection`; `designs == None` stands for a missing list. */
  function BuildSelection(material: Option<string>, height: Option<string>, widthInches: Option<string>,
                          color: Option<string>, designs: Option<seq<Option<string>>>,
                          supplier: Option<string>, folderCode: Option<string>, fileToken: Option<string>)
    : (r: Selection)
    ensures |r.material| == (if Truthy(material) then 1 else 0)
    ensures |r.color| == (if Truthy(color) then 1 else 0)
    ensures Truthy(material) ==> r.material[0] == MapLabel(MaterialMap, material.value)
    ensures Truthy(color) ==> r.color[0] == MapLabel(ColorMap, color.value)
    ensures |r.size| == (if Truthy(height) then 1 else 0) + (if Truthy(widthInches) then 1 else 0)
    ensures forall k :: 0 <= k < |r.size| ==> |r.size[k]| > 0 && IsSizeToken(r.size[k])
    ensures |r.designs| <= |designs.GetOr([])|
    ensures forall k :: 0 <= k < |r.designs| ==> |r.designs[k]| > 0
    ensures r.supplier.Some? <==> Truthy(supplier)
    ensures r.folderCode.Some? <==> Truthy(folderCode)
    ensures r.fileToken.Some? <==> Truthy(fileToken)
    ensures r.supplier.Some? ==> IsToken(r.supplier.value)
    ensures r.folderCode.Some? ==> IsToken(r.folderCode.value)
    ensures r.fileToken.Some? ==> IsToken(r.fileToken.value)
  {
    DesignTableCodes();
    Selection(
      LabelEntries(MaterialMap, material),
      LabelEntries(ColorMap, color),
      SizeEntries(height, widthInches),
      DesignEntries(DesignMap, designs.GetOr([])),
      OptionalToken(supplier),
      OptionalToken(folderCode),
      OptionalToken(fileToken))
  }
}
