/**
  The closed vocabularies the parser, the matcher and the indexer depend on:
  material, colour and design codes (each a label -> code table, kept in the
  order the source lists them), the supplier allow-list and the file-extension
  allow-list. The lower-case code lists are derived exactly as the source
  derives them.
 */
module Vocabulary {
  import opened Strings

  /** Extensions a file must end with (after trimming) to be indexed. */
  const FileExts: seq<string> :=
    [".jpg", ".jpeg", ".png", ".webp", ".bmp", ".tif", ".tiff", ".pdf", ".heic", ".jfif"]

  /** Colour label -> colour code. */
  const ColorMap: seq<(string, string)> := [
    ("Red", "RD"), ("Black", "BL"), ("Gold", "GD"), ("Silver", "SV"), ("Teak", "TK"),
    ("Walnut", "WL"), ("Yellow", "YL"), ("Blue", "BU"), ("Steel", "ST"), ("Grey", "GY"),
    ("Brown", "BR"), ("White", "WT"), ("Purple", "PL"), ("Green", "GN"), ("Rose Gold", "RG"),
    ("Beage", "BG"), ("Cream", "CR"), ("Mobe", "MO"), ("Metalic", "MT"), ("Marble", "MB")
  ]

  /** Material label -> material code. */
  const MaterialMap: seq<(string, string)> := [
    ("Charcoal", "CH"), ("PVC", "PV"), ("WPC", "WP"), ("Super Heavy", "SPHV"),
    ("Ultra Voilet Foarm Sheet", "UVFS"), ("Ultra Voilet Marble Sheet", "UVMB"),
    ("Tiger Fabric", "TG"), ("Acrylic", "ACY")
  ]

  /** Design category -> (design label -> design code). */
  const DesignCategories: seq<(string, seq<(string, string)>)> := [
    ("Pattern Type", [
      ("Flutted", "FT"), ("Equal Distance Between The Lines", "EQ"), ("Line", "L"),
      ("Step", "S"), ("Double Tone", "DT"), ("Rounded", "RD"), ("Louver Style", "LV")]),
    ("Surface Finish", [
      ("Texture", "TX"), ("Matt", "MTT"), ("Seamless", "SL"), ("Printed", "PR"), ("Wooden", "WD")]),
    ("Special Types", [
      ("Digital Marble Sheet", "DMS"), ("Flutted Marble Sheet", "FMS"),
      ("Book Match Digital Marble", "BMDM"), ("Digital Marble Gold Line", "DMGL"),
      ("High/3D Sheet", "H3D"), ("Panel No Line", "PL"), ("Volume", "VO"), ("Catalogue", "CT")])
  ]

  /** The supplier allow-list. */
  const SupplierCodes: set<string> := {
    "RYPP", "MHPP", "JAWD", "GSPD", "MPKD", "NXSP", "LPSM", "DSSP", "JGSP",
    "ETNU", "HEHH", "SWSP", "KYKN", "KKGH", "OJLD", "RKGD", "LVGU", "MUNU",
    "SSSG", "LDZP", "STSG", "DERG", "SSSD", "KYGH", "REPP", "HCIM"
  }

  /** The codes of a label -> code table, lower-cased, in table order. */
  function LowerCodes(table: seq<(string, string)>): (r: seq<string>)
    ensures |r| == |table|
    ensures forall i :: 0 <= i < |table| ==> r[i] == LowerStr(table[i].1)
  {
    seq(|table|, i requires 0 <= i < |table| => LowerStr(table[i].1))
  }

  /** `[v.lower() for v in MATERIAL_MAP.values()]` (derivation proved in `MaterialCodesDerived`) */
  const MaterialCodes: seq<string> := ["ch", "pv", "wp", "sphv", "uvfs", "uvmb", "tg", "acy"]

  /** `[v.lower() for v in COLOR_MAP.values()]` (derivation proved in `ColorCodesDerived`) */
  const ColorCodes: seq<string> := ["rd", "bl", "gd", "sv", "tk", "wl", "yl", "bu", "st", "gy",
                                    "br", "wt", "pl", "gn", "rg", "bg", "cr", "mo", "mt", "mb"]

  /** The flattened design table (`DESIGN_MAP`), categories in order. */
  function FlattenDesigns(cats: seq<(string, seq<(string, string)>)>): seq<(string, string)>
  {
    if |cats| == 0 then [] else cats[0].1 + FlattenDesigns(cats[1..])
  }

  const DesignMap: seq<(string, string)> := FlattenDesigns(DesignCategories)

  /** `{v.lower() for v in DESIGN_MAP.values()}` (derivation proved in `DesignCodesDerived`) */
  const DesignCodesLower: set<string> := {"ft", "eq", "l", "s", "dt", "rd", "lv", "tx", "mtt", "sl", "pr",
                                          "wd", "dms", "fms", "bmdm", "dmgl", "h3d", "pl", "vo", "ct"}

  /** `{s.lower() for s in SUPPLIER_CODES}` (derivation proved in `SupplierCodesDerived`) */
  const SupplierCodesLower: set<string> := {
    "rypp", "mhpp", "jawd", "gspd", "mpkd", "nxsp", "lpsm", "dssp", "jgsp",
    "etnu", "hehh", "swsp", "kykn", "kkgh", "ojld", "rkgd", "lvgu", "munu",
    "sssg", "ldzp", "stsg", "derg", "sssd", "kygh", "repp", "hcim"}

  // ---------------------------------------------------------------------------
  // Explicit forms of the derived tables
  // ---------------------------------------------------------------------------

  lemma MaterialCodesDerived()
    ensures MaterialCodes == LowerCodes(MaterialMap)
  {
    assert LowerStr("CH") == "ch";
    assert LowerStr("PV") == "pv";
    assert LowerStr("WP") == "wp";
    assert LowerStr("SPHV") == "sphv";
    assert LowerStr("UVFS") == "uvfs";
    assert LowerStr("UVMB") == "uvmb";
    assert LowerStr("TG") == "tg";
    assert LowerStr("ACY") == "acy";
  }

  lemma ColorCodesDerived()
    ensures ColorCodes == LowerCodes(ColorMap)
  {
    assert LowerStr("RD") == "rd";
    assert LowerStr("BL") == "bl";
    assert LowerStr("GD") == "gd";
    assert LowerStr("SV") == "sv";
    assert LowerStr("TK") == "tk";
    assert LowerStr("WL") == "wl";
    assert LowerStr("YL") == "yl";
    assert LowerStr("BU") == "bu";
    assert LowerStr("ST") == "st";
    assert LowerStr("GY") == "gy";
    assert LowerStr("BR") == "br";
    assert LowerStr("WT") == "wt";
    assert LowerStr("PL") == "pl";
    assert LowerStr("GN") == "gn";
    assert LowerStr("RG") == "rg";
    assert LowerStr("BG") == "bg";
    assert LowerStr("CR") == "cr";
    assert LowerStr("MO") == "mo";
    assert LowerStr("MT") == "mt";
    assert LowerStr("MB") == "mb";
  }

  lemma DesignCodesDerived()
    ensures DesignCodesLower == set c | c in LowerCodes(DesignMap)
  {
    var cats := DesignCategories;
    DesignMapParts();
    LowerCodesAppend(cats[0].1 + cats[1].1, cats[2].1);
    LowerCodesAppend(cats[0].1, cats[1].1);
    PatternCodes();
    FinishCodes();
    SpecialCodes();
    var codes := ["ft", "eq", "l", "s", "dt", "rd", "lv"] + ["tx", "mtt", "sl", "pr", "wd"]
                 + ["dms", "fms", "bmdm", "dmgl", "h3d", "pl", "vo", "ct"];
    assert LowerCodes(DesignMap) == codes;
  }

  /** The flattened design table is its three categories one after another. */
  lemma DesignMapParts()
    ensures DesignMap == DesignCategories[0].1 + DesignCategories[1].1 + DesignCategories[2].1
  {
    var cats := DesignCategories;
    assert FlattenDesigns(cats[3..]) == [];
    assert FlattenDesigns(cats[2..]) == cats[2].1 by { assert cats[2..][1..] == cats[3..]; }
    assert FlattenDesigns(cats[1..]) == cats[1].1 + cats[2].1 by { assert cats[1..][1..] == cats[2..]; }
  }

  lemma LowerCodesAppend(a: seq<(string, string)>, b: seq<(string, string)>)
    ensures LowerCodes(a + b) == LowerCodes(a) + LowerCodes(b)
  {
  }

  lemma PatternCodes()
    ensures LowerCodes(DesignCategories[0].1) == ["ft", "eq", "l", "s", "dt", "rd", "lv"]
  {
    assert LowerStr("FT") == "ft";
    assert LowerStr("EQ") == "eq";
    assert LowerStr("L") == "l";
    assert LowerStr("S") == "s";
    assert LowerStr("DT") == "dt";
    assert LowerStr("RD") == "rd";
    assert LowerStr("LV") == "lv";
  }

  lemma FinishCodes()
    ensures LowerCodes(DesignCategories[1].1) == ["tx", "mtt", "sl", "pr", "wd"]
  {
    assert LowerStr("TX") == "tx";
    assert LowerStr("MTT") == "mtt";
    assert LowerStr("SL") == "sl";
    assert LowerStr("PR") == "pr";
    assert LowerStr("WD") == "wd";
  }

  lemma SpecialCodes()
    ensures LowerCodes(DesignCategories[2].1) == ["dms", "fms", "bmdm", "dmgl", "h3d", "pl", "vo", "ct"]
  {
    assert LowerStr("DMS") == "dms";
    assert LowerStr("FMS") == "fms";
    assert LowerStr("BMDM") == "bmdm";
    assert LowerStr("DMGL") == "dmgl";
    assert LowerStr("H3D") == "h3d";
    assert LowerStr("PL") == "pl";
    assert LowerStr("VO") == "vo";
    assert LowerStr("CT") == "ct";
  }

  lemma SupplierCodesDerived()
    ensures SupplierCodesLower == set s | s in SupplierCodes :: LowerStr(s)
  {
    assert LowerStr("RYPP") == "rypp";
    assert LowerStr("MHPP") == "mhpp";
    assert LowerStr("JAWD") == "jawd";
    assert LowerStr("GSPD") == "gspd";
    assert LowerStr("MPKD") == "mpkd";
    assert LowerStr("NXSP") == "nxsp";
    assert LowerStr("LPSM") == "lpsm";
    assert LowerStr("DSSP") == "dssp";
    assert LowerStr("JGSP") == "jgsp";
    assert LowerStr("ETNU") == "etnu";
    assert LowerStr("HEHH") == "hehh";
    assert LowerStr("SWSP") == "swsp";
    assert LowerStr("KYKN") == "kykn";
    assert LowerStr("KKGH") == "kkgh";
    assert LowerStr("OJLD") == "ojld";
    assert LowerStr("RKGD") == "rkgd";
    assert LowerStr("LVGU") == "lvgu";
    assert LowerStr("MUNU") == "munu";
    assert LowerStr("SSSG") == "sssg";
    assert LowerStr("LDZP") == "ldzp";
    assert LowerStr("STSG") == "stsg";
    assert LowerStr("DERG") == "derg";
    assert LowerStr("SSSD") == "sssd";
    assert LowerStr("KYGH") == "kygh";
    assert LowerStr("REPP") == "repp";
    assert LowerStr("HCIM") == "hcim";
  }

  // ---------------------------------------------------------------------------
  // Properties the parser's priority order relies on
  // ---------------------------------------------------------------------------

  lemma SupplierCodeLengths()
    ensures forall s :: s in SupplierCodes ==> |s| == 4
  {
  }

  lemma SupplierLowerCodeLengths()
    ensures forall s :: s in SupplierCodesLower ==> |s| == 4
  {
  }

  lemma ColorCodeLengths()
    ensures forall c :: c in ColorCodes ==> |c| == 2
  {
  }

  lemma MaterialNotColor()
    ensures forall m :: m in MaterialCodes ==> m !in ColorCodes
  {
    var cols := {"rd", "bl", "gd", "sv", "tk", "wl", "yl", "bu", "st", "gy",
                 "br", "wt", "pl", "gn", "rg", "bg", "cr", "mo", "mt", "mb"};
    assert forall c :: c in ColorCodes ==> c in cols;
    assert forall m :: m in MaterialCodes ==> m !in cols;
  }

  lemma MaterialNotSupplier()
    ensures forall m :: m in MaterialCodes ==> m !in SupplierCodesLower
  {
    SupplierLowerCodeHalves();
    MaterialNotSupplierFirst();
    MaterialNotSupplierSecond();
  }

  lemma MaterialNotSupplierFirst()
    ensures forall m :: m in MaterialCodes ==> m !in {"rypp", "mhpp", "jawd", "gspd", "mpkd", "nxsp", "lpsm", "dssp", "jgsp", "etnu", "hehh", "swsp", "kykn"}
  {
  }

  lemma MaterialNotSupplierSecond()
    ensures forall m :: m in MaterialCodes ==> m !in {"kkgh", "ojld", "rkgd", "lvgu", "munu", "sssg", "ldzp", "stsg", "derg", "sssd", "kygh", "repp", "hcim"}
  {
  }

  /** Material, colour and supplier codes never collide, so a token has at most one of these roles. */
  lemma VocabulariesDisjoint()
    ensures forall m :: m in MaterialCodes ==> m !in ColorCodes && m !in SupplierCodesLower
    ensures forall c :: c in ColorCodes ==> c !in SupplierCodesLower
  {
    MaterialNotColor();
    MaterialNotSupplier();
    SupplierLowerCodeLengths();
    ColorCodeLengths();
  }

  /** Colour and design codes overlap in exactly `rd` and `pl`. */
  lemma ColorDesignOverlap()
    ensures (set c | c in ColorCodes && c in DesignCodesLower) == {"rd", "pl"}
  {
    ColorsOutsideDesigns();
  }

  /** The colour codes other than `rd` and `pl` are not design codes. */
  lemma ColorsOutsideDesigns()
    ensures forall c :: c in ColorCodes && c != "rd" && c != "pl" ==> c !in DesignCodesLower
  {
    ColorsOutsideDesignsFirst();
    ColorsOutsideDesignsSecond();
  }

  lemma ColorsOutsideDesignsFirst()
    ensures forall j :: 0 <= j < 10 && ColorCodes[j] != "rd" ==> ColorCodes[j] !in DesignCodesLower
  {
    assert "bl" !in DesignCodesLower;
    assert "gd" !in DesignCodesLower;
    assert "sv" !in DesignCodesLower;
    assert "tk" !in DesignCodesLower;
    assert "wl" !in DesignCodesLower;
    assert "yl" !in DesignCodesLower;
    assert "bu" !in DesignCodesLower;
    assert "st" !in DesignCodesLower;
    assert "gy" !in DesignCodesLower;
  }

  lemma ColorsOutsideDesignsSecond()
    ensures forall j :: 10 <= j < 20 && ColorCodes[j] != "pl" ==> ColorCodes[j] !in DesignCodesLower
  {
    assert "br" !in DesignCodesLower;
    assert "wt" !in DesignCodesLower;
    assert "gn" !in DesignCodesLower;
    assert "rg" !in DesignCodesLower;
    assert "bg" !in DesignCodesLower;
    assert "cr" !in DesignCodesLower;
    assert "mo" !in DesignCodesLower;
    assert "mt" !in DesignCodesLower;
    assert "mb" !in DesignCodesLower;
  }

  lemma DesignCodeHalves()
    ensures DesignCodesLower == {"ft", "eq", "l", "s", "dt", "rd", "lv", "tx", "mtt", "sl"} + {"pr", "wd", "dms", "fms", "bmdm", "dmgl", "h3d", "pl", "vo", "ct"}
    ensures {"ft", "eq", "l", "s", "dt", "rd", "lv", "tx", "mtt", "sl"} !! {"pr", "wd", "dms", "fms", "bmdm", "dmgl", "h3d", "pl", "vo", "ct"}
  {
  }

  lemma DesignCodeFirstHalf()
    ensures |{"ft", "eq", "l", "s", "dt", "rd", "lv", "tx", "mtt", "sl"}| == 10
  {
  }

  lemma DesignCodeSecondHalf()
    ensures |{"pr", "wd", "dms", "fms", "bmdm", "dmgl", "h3d", "pl", "vo", "ct"}| == 10
  {
  }

  /** The three design categories hold twenty distinct codes. */
  lemma DesignCodeCount()
    ensures |DesignCodesLower| == 20
  {
    DesignCodeHalves();
    DesignCodeFirstHalf();
    DesignCodeSecondHalf();
  }

  lemma SupplierCodeHalves()
    ensures SupplierCodes == {"RYPP", "MHPP", "JAWD", "GSPD", "MPKD", "NXSP", "LPSM", "DSSP", "JGSP", "ETNU", "HEHH", "SWSP", "KYKN"} + {"KKGH", "OJLD", "RKGD", "LVGU", "MUNU", "SSSG", "LDZP", "STSG", "DERG", "SSSD", "KYGH", "REPP", "HCIM"}
    ensures {"RYPP", "MHPP", "JAWD", "GSPD", "MPKD", "NXSP", "LPSM", "DSSP", "JGSP", "ETNU", "HEHH", "SWSP", "KYKN"} !! {"KKGH", "OJLD", "RKGD", "LVGU", "MUNU", "SSSG", "LDZP", "STSG", "DERG", "SSSD", "KYGH", "REPP", "HCIM"}
  {
  }

  lemma SupplierCodeFirstHalf()
    ensures |{"RYPP", "MHPP", "JAWD", "GSPD", "MPKD", "NXSP", "LPSM", "DSSP", "JGSP", "ETNU", "HEHH", "SWSP", "KYKN"}| == 13
  {
  }

  lemma SupplierCodeSecondHalf()
    ensures |{"KKGH", "OJLD", "RKGD", "LVGU", "MUNU", "SSSG", "LDZP", "STSG", "DERG", "SSSD", "KYGH", "REPP", "HCIM"}| == 13
  {
  }

  lemma SupplierLowerCodeHalves()
    ensures SupplierCodesLower == {"rypp", "mhpp", "jawd", "gspd", "mpkd", "nxsp", "lpsm", "dssp", "jgsp", "etnu", "hehh", "swsp", "kykn"} + {"kkgh", "ojld", "rkgd", "lvgu", "munu", "sssg", "ldzp", "stsg", "derg", "sssd", "kygh", "repp", "hcim"}
    ensures {"rypp", "mhpp", "jawd", "gspd", "mpkd", "nxsp", "lpsm", "dssp", "jgsp", "etnu", "hehh", "swsp", "kykn"} !! {"kkgh", "ojld", "rkgd", "lvgu", "munu", "sssg", "ldzp", "stsg", "derg", "sssd", "kygh", "repp", "hcim"}
  {
  }

  lemma SupplierLowerCodeFirstHalf()
    ensures |{"rypp", "mhpp", "jawd", "gspd", "mpkd", "nxsp", "lpsm", "dssp", "jgsp", "etnu", "hehh", "swsp", "kykn"}| == 13
  {
  }

  lemma SupplierLowerCodeSecondHalf()
    ensures |{"kkgh", "ojld", "rkgd", "lvgu", "munu", "sssg", "ldzp", "stsg", "derg", "sssd", "kygh", "repp", "hcim"}| == 13
  {
  }

  /** Twenty-six distinct supplier codes. */
  lemma SupplierCodeCount()
    ensures |SupplierCodes| == 26
  {
    SupplierCodeHalves();
    SupplierCodeFirstHalf();
    SupplierCodeSecondHalf();
  }

  /** Twenty-six distinct lower-case supplier codes. */
  lemma SupplierLowerCodeCount()
    ensures |SupplierCodesLower| == 26
  {
    SupplierLowerCodeHalves();
    SupplierLowerCodeFirstHalf();
    SupplierLowerCodeSecondHalf();
  }

  lemma UpperLettersHalves()
    ensures forall s :: s in {"RYPP", "MHPP", "JAWD", "GSPD", "MPKD", "NXSP", "LPSM", "DSSP", "JGSP", "ETNU", "HEHH", "SWSP", "KYKN"} ==> |s| == 4 && AllChars(s, IsUpperLetter)
    ensures forall s :: s in {"KKGH", "OJLD", "RKGD", "LVGU", "MUNU", "SSSG", "LDZP", "STSG", "DERG", "SSSD", "KYGH", "REPP", "HCIM"} ==> |s| == 4 && AllChars(s, IsUpperLetter)
  {
    UpperLettersFirst();
    UpperLettersSecond();
  }

  lemma UpperLettersFirst()
    ensures forall s :: s in {"RYPP", "MHPP", "JAWD", "GSPD", "MPKD", "NXSP", "LPSM", "DSSP", "JGSP", "ETNU", "HEHH", "SWSP", "KYKN"} ==> |s| == 4 && AllChars(s, IsUpperLetter)
  {
  }

  lemma UpperLettersSecond()
    ensures forall s :: s in {"KKGH", "OJLD", "RKGD", "LVGU", "MUNU", "SSSG", "LDZP", "STSG", "DERG", "SSSD", "KYGH", "REPP", "HCIM"} ==> |s| == 4 && AllChars(s, IsUpperLetter)
  {
  }

  lemma LowerLettersHalves()
    ensures forall s :: s in {"rypp", "mhpp", "jawd", "gspd", "mpkd", "nxsp", "lpsm", "dssp", "jgsp", "etnu", "hehh", "swsp", "kykn"} ==> |s| == 4 && AllChars(s, IsLowerLetter)
    ensures forall s :: s in {"kkgh", "ojld", "rkgd", "lvgu", "munu", "sssg", "ldzp", "stsg", "derg", "sssd", "kygh", "repp", "hcim"} ==> |s| == 4 && AllChars(s, IsLowerLetter)
  {
    LowerLettersFirst();
    LowerLettersSecond();
  }

  lemma LowerLettersFirst()
    ensures forall s :: s in {"rypp", "mhpp", "jawd", "gspd", "mpkd", "nxsp", "lpsm", "dssp", "jgsp", "etnu", "hehh", "swsp", "kykn"} ==> |s| == 4 && AllChars(s, IsLowerLetter)
  {
  }

  lemma LowerLettersSecond()
    ensures forall s :: s in {"kkgh", "ojld", "rkgd", "lvgu", "munu", "sssg", "ldzp", "stsg", "derg", "sssd", "kygh", "repp", "hcim"} ==> |s| == 4 && AllChars(s, IsLowerLetter)
  {
  }

  /** Every supplier code is four upper-case letters. */
  lemma SupplierCodeLetters()
    ensures forall s :: s in SupplierCodes ==> |s| == 4 && AllChars(s, IsUpperLetter)
  {
    SupplierCodeHalves();
    UpperLettersHalves();
  }

  /** Every lower-case supplier code is four lower-case letters. */
  lemma SupplierLowerCodeLetters()
    ensures forall s :: s in SupplierCodesLower ==> |s| == 4 && AllChars(s, IsLowerLetter)
  {
    SupplierLowerCodeHalves();
    LowerLettersHalves();
  }

  /** Ten lower-case extensions, each starting with a dot. */
  lemma FileExtsShape()
    ensures |FileExts| == 10
    ensures forall i :: 0 <= i < |FileExts| ==> |FileExts[i]| > 1 && FileExts[i][0] == '.'
    ensures forall i :: 0 <= i < |FileExts| ==> LowerStr(FileExts[i]) == FileExts[i]
  {
    assert LowerStr(".jpg") == ".jpg";
    assert LowerStr(".jpeg") == ".jpeg";
    assert LowerStr(".png") == ".png";
    assert LowerStr(".webp") == ".webp";
    assert LowerStr(".bmp") == ".bmp";
    assert LowerStr(".tif") == ".tif";
    assert LowerStr(".tiff") == ".tiff";
    assert LowerStr(".pdf") == ".pdf";
    assert LowerStr(".heic") == ".heic";
    assert LowerStr(".jfif") == ".jfif";
  }
}
