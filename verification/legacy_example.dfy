/** The worked example of the first version's parser. */
module LegacyExample {
  import opened Wrappers
  import opened Strings
  import opened Vocabulary
  import opened Normalize
  import opened Parsing
  import opened LegacyParsing

  /** The tokens of `24_PK_PV_BR_MRP_975_FT_Pr_Eq_14L_12"9.5F_02_KYGH_Q8`. */
  predicate IsLegacySample(t: seq<string>) {
    && |t| == 15
    && t[0] == "24" && t[1] == "PK" && t[2] == "PV" && t[3] == "BR" && t[4] == "MRP"
    && t[5] == "975" && t[6] == "FT" && t[7] == "Pr" && t[8] == "Eq" && t[9] == "14L"
    && t[10] == "12\"9" && t[11] == "5F" && t[12] == "02" && t[13] == "KYGH" && t[14] == "Q8"
  }

  /**
    The sample tokens are what the tokenizer makes of the code
    `24_PK_PV_BR_MRP_975_FT_Pr_Eq_14L_12"9.5F_02_KYGH_Q8`.
   */
  lemma LegacySampleCode(tokens: seq<string>)
    requires IsLegacySample(tokens)
    ensures NormalizeInput(Join(tokens[..11], '_') + "." + Join(tokens[11..], '_')) == tokens
  {
    assert forall k :: 0 <= k < |tokens| ==> |tokens[k]| > 0 && AllChars(tokens[k], IsCodeChar);
    var a, b := tokens[..11], tokens[11..];
    assert a + b == tokens;
    JoinAppend(a, b, '_');
    JoinChars(a);
    JoinChars(b);
    NormalizeInputSplice(Join(a, '_'), '.', Join(b, '_'));
    TokenizeJoin(tokens);
  }

  /** The lower-cased tokens. */
  function Lowered(ts: seq<string>): (r: seq<string>)
    ensures |r| == |ts| && forall i :: 0 <= i < |ts| ==> r[i] == LowerStr(ts[i])
  {
    seq(|ts|, i requires 0 <= i < |ts| => LowerStr(ts[i]))
  }

  lemma {:induction false} PickNone(ts: seq<string>, k: Kind)
    requires forall i :: 0 <= i < |ts| ==> KindOf(LowerStr(ts[i])) != k
    ensures Pick(ts, k) == []
    decreases |ts|
  {
    PickUnfold(ts, k);
    if |ts| > 0 {
      PickNone(ts[1..], k);
    }
  }

  lemma {:induction false} PickEvery(ts: seq<string>, k: Kind)
    requires forall i :: 0 <= i < |ts| ==> KindOf(LowerStr(ts[i])) == k
    ensures Pick(ts, k) == Lowered(ts)
    decreases |ts|
  {
    PickUnfold(ts, k);
    if |ts| > 0 {
      PickEvery(ts[1..], k);
      assert Lowered(ts) == [LowerStr(ts[0])] + Lowered(ts[1..]);
    }
  }

  lemma {:induction false} PickAppend(a: seq<string>, b: seq<string>, k: Kind)
    ensures Pick(a + b, k) == Pick(a, k) + Pick(b, k)
    decreases |a|
  {
    PickUnfold(a, k);
    if |a| > 0 {
      PickUnfold(a + b, k);
      assert (a + b)[0] == a[0];
      assert (a + b)[1..] == a[1..] + b;
      PickAppend(a[1..], b, k);
      Assoc(Pick1(a[0], k), Pick(a[1..], k), Pick(b, k));
    } else {
      assert a + b == b;
    }
  }

  lemma SizeUnitAt(t: string, i: nat)
    requires 0 < i < |t| && IsDigit(t[i - 1]) && (t[i] == 'f' || t[i] == 'l')
    ensures HasSizeUnit(t)
  {
  }

  /** A token without digits, or whose digits are never followed by `f` or `l`, has no size unit. */
  lemma NoSizeUnit(t: string)
    requires forall i :: 0 < i < |t| && IsDigit(t[i - 1]) ==> t[i] != 'f' && t[i] != 'l'
    ensures !HasSizeUnit(t)
  {
  }

  /** A plain token: no material, no colour, no size unit. */
  lemma Plain(t: string)
    requires t !in MaterialCodes && t !in ColorCodes
    requires forall i :: 0 < i < |t| && IsDigit(t[i - 1]) ==> t[i] != 'f' && t[i] != 'l'
    ensures KindOf(t) == LeftoverKind
  {
    KindUnfold(t);
    NoSizeUnit(t);
  }

  lemma LeftoverMrp() ensures KindOf("mrp") == LeftoverKind { Plain("mrp"); }
  lemma Leftover975() ensures KindOf("975") == LeftoverKind { Plain("975"); }
  lemma LeftoverFt() ensures KindOf("ft") == LeftoverKind { Plain("ft"); }
  lemma LeftoverPr() ensures KindOf("pr") == LeftoverKind { Plain("pr"); }
  lemma LeftoverEq() ensures KindOf("eq") == LeftoverKind { Plain("eq"); }
  lemma LeftoverInch() ensures KindOf("12\"9") == LeftoverKind { Plain("12\"9"); }
  lemma Leftover02() ensures KindOf("02") == LeftoverKind { Plain("02"); }
  lemma LeftoverKygh() ensures KindOf("kygh") == LeftoverKind { Plain("kygh"); }
  lemma LeftoverQ8() ensures KindOf("q8") == LeftoverKind { Plain("q8"); }

  /** The tokens after the material, in the runs the proof handles one by one. */
  function Runs(tokens: seq<string>): seq<seq<string>>
    requires |tokens| == 15
  {
    [tokens[3..4], tokens[4..9], tokens[9..10], tokens[10..11], tokens[11..12], tokens[12..]]
  }

  lemma PickRuns(tokens: seq<string>, k: Kind)
    requires |tokens| == 15
    ensures var R := Runs(tokens);
      Pick(tokens[3..], k) == Pick(R[0], k) + Pick(R[1], k) + Pick(R[2], k) + Pick(R[3], k) + Pick(R[4], k) + Pick(R[5], k)
  {
    var R := Runs(tokens);
    var a, b, c, d, e, f := R[0], R[1], R[2], R[3], R[4], R[5];
    assert tokens[3..] == a + b + c + d + e + f;
    PickAppend(a + b + c + d + e, f, k);
    PickAppend(a + b + c + d, e, k);
    PickAppend(a + b + c, d, k);
    PickAppend(a + b, c, k);
    PickAppend(a, b, k);
  }

  lemma SizeKind14() ensures KindOf("14l") == SizeKind { KindUnfold("14l"); SizeUnitAt("14l", 2); }
  lemma SizeKind5() ensures KindOf("5f") == SizeKind { KindUnfold("5f"); SizeUnitAt("5f", 1); }

  /** `BR` is the colour. */
  lemma RunColor(tokens: seq<string>, k: Kind)
    requires IsLegacySample(tokens)
    ensures Pick(Runs(tokens)[0], k) == if k == ColorKind then ["br"] else []
  {
    var a := Runs(tokens)[0];
    assert a == ["BR"] && LowerStr("BR") == "br";
    KindUnfold("br");
    assert KindOf("br") == ColorKind;
    if k == ColorKind { PickEvery(a, k); } else { PickNone(a, k); }
  }

  /** `14L` is a size. */
  lemma RunSize14(tokens: seq<string>, k: Kind)
    requires IsLegacySample(tokens)
    ensures Pick(Runs(tokens)[2], k) == if k == SizeKind then ["14l"] else []
  {
    var c := Runs(tokens)[2];
    assert c == ["14L"] && LowerStr("14L") == "14l";
    SizeKind14();
    if k == SizeKind { PickEvery(c, k); } else { PickNone(c, k); }
  }

  /** `5F` is a size. */
  lemma RunSize5(tokens: seq<string>, k: Kind)
    requires IsLegacySample(tokens)
    ensures Pick(Runs(tokens)[4], k) == if k == SizeKind then ["5f"] else []
  {
    var e := Runs(tokens)[4];
    assert e == ["5F"] && LowerStr("5F") == "5f";
    SizeKind5();
    if k == SizeKind { PickEvery(e, k); } else { PickNone(e, k); }
  }

  lemma LowerRunB(tokens: seq<string>)
    requires IsLegacySample(tokens)
    ensures Lowered(Runs(tokens)[1]) == ["mrp", "975", "ft", "pr", "eq"]
  {
    var b := Runs(tokens)[1];
    assert LowerStr(b[0]) == "mrp" && LowerStr(b[1]) == "975" && LowerStr(b[2]) == "ft";
    assert LowerStr(b[3]) == "pr" && LowerStr(b[4]) == "eq";
  }

  lemma LowerRunF(tokens: seq<string>)
    requires IsLegacySample(tokens)
    ensures Lowered(Runs(tokens)[5]) == ["02", "kygh", "q8"]
  {
    var f := Runs(tokens)[5];
    assert LowerStr(f[0]) == "02" && LowerStr(f[1]) == "kygh" && LowerStr(f[2]) == "q8";
  }

  /** `MRP`, `975`, `FT`, `Pr`, `Eq` are left over. */
  lemma RunLeftoverB(tokens: seq<string>, k: Kind)
    requires IsLegacySample(tokens)
    ensures Pick(Runs(tokens)[1], k) == if k == LeftoverKind then ["mrp", "975", "ft", "pr", "eq"] else []
  {
    var b := Runs(tokens)[1];
    LowerRunB(tokens);
    LeftoverMrp(); Leftover975(); LeftoverFt(); LeftoverPr(); LeftoverEq();
    if k == LeftoverKind { PickEvery(b, k); } else { PickNone(b, k); }
  }

  /** `12"9` is left over. */
  lemma RunLeftoverD(tokens: seq<string>, k: Kind)
    requires IsLegacySample(tokens)
    ensures Pick(Runs(tokens)[3], k) == if k == LeftoverKind then ["12\"9"] else []
  {
    var d := Runs(tokens)[3];
    assert d == ["12\"9"] && LowerStr("12\"9") == "12\"9";
    LeftoverInch();
    if k == LeftoverKind { PickEvery(d, k); } else { PickNone(d, k); }
  }

  /** `02`, `KYGH`, `Q8` are left over. */
  lemma RunLeftoverF(tokens: seq<string>, k: Kind)
    requires IsLegacySample(tokens)
    ensures Pick(Runs(tokens)[5], k) == if k == LeftoverKind then ["02", "kygh", "q8"] else []
  {
    var f := Runs(tokens)[5];
    LowerRunF(tokens);
    Leftover02(); LeftoverKygh(); LeftoverQ8();
    if k == LeftoverKind { PickEvery(f, k); } else { PickNone(f, k); }
  }

  /** Every run's share of kind `k`. */
  lemma RunPicks(tokens: seq<string>, k: Kind)
    requires IsLegacySample(tokens)
    ensures var R := Runs(tokens);
      Pick(tokens[3..], k) == Pick(R[0], k) + Pick(R[1], k) + Pick(R[2], k) + Pick(R[3], k) + Pick(R[4], k) + Pick(R[5], k)
    ensures Pick(Runs(tokens)[0], k) == if k == ColorKind then ["br"] else []
    ensures Pick(Runs(tokens)[1], k) == if k == LeftoverKind then ["mrp", "975", "ft", "pr", "eq"] else []
    ensures Pick(Runs(tokens)[2], k) == if k == SizeKind then ["14l"] else []
    ensures Pick(Runs(tokens)[3], k) == if k == LeftoverKind then ["12\"9"] else []
    ensures Pick(Runs(tokens)[4], k) == if k == SizeKind then ["5f"] else []
    ensures Pick(Runs(tokens)[5], k) == if k == LeftoverKind then ["02", "kygh", "q8"] else []
  {
    PickRuns(tokens, k);
    RunColor(tokens, k);
    RunLeftoverB(tokens, k);
    RunSize14(tokens, k);
    RunLeftoverD(tokens, k);
    RunSize5(tokens, k);
    RunLeftoverF(tokens, k);
  }

  /** Where the first material sits, and the prefix before it. */
  lemma SamplePrefix(tokens: seq<string>)
    requires IsLegacySample(tokens)
    ensures FirstMaterial(tokens, 0) == 2
    ensures Join(tokens[..2], '_') == "24_PK"
    ensures LowerStr(tokens[2]) == "pv"
  {
    assert LowerStr("24") == "24" && LowerStr("PK") == "pk" && LowerStr("PV") == "pv";
    assert tokens[..2] == ["24", "PK"];
    assert Join(["PK"], '_') == "PK";
  }

  lemma Concat6(a: seq<string>, b: seq<string>, c: seq<string>, d: seq<string>, e: seq<string>, f: seq<string>,
                a': seq<string>, b': seq<string>, c': seq<string>, d': seq<string>, e': seq<string>, f': seq<string>)
    requires a == a' && b == b' && c == c' && d == d' && e == e' && f == f'
    ensures a + b + c + d + e + f == a' + b' + c' + d' + e' + f'
  {
  }

  lemma ColorsLiteral()
    ensures ["br"] + [] + [] + [] + [] + [] == ["br"]
  {
  }

  lemma SizesLiteral()
    ensures [] + [] + ["14l"] + [] + ["5f"] + [] == ["14l", "5f"]
  {
  }

  lemma LeftoversLiteral()
    ensures [] + ["mrp", "975", "ft", "pr", "eq"] + [] + ["12\"9"] + [] + ["02", "kygh", "q8"]
         == ["mrp", "975", "ft", "pr", "eq", "12\"9", "02", "kygh", "q8"]
  {
  }

  /** No second material. */
  lemma SampleMaterials(tokens: seq<string>)
    requires IsLegacySample(tokens)
    ensures Pick(tokens[3..], MaterialKind) == []
  {
    RunPicks(tokens, MaterialKind);
    var R := Runs(tokens);
    var e: seq<string> := [];
    Concat6(Pick(R[0], MaterialKind), Pick(R[1], MaterialKind), Pick(R[2], MaterialKind),
            Pick(R[3], MaterialKind), Pick(R[4], MaterialKind), Pick(R[5], MaterialKind),
            e, e, e, e, e, e);
    assert e + e + e + e + e + e == e;
  }

  /** One colour. */
  lemma SampleColors(tokens: seq<string>)
    requires IsLegacySample(tokens)
    ensures Pick(tokens[3..], ColorKind) == ["br"]
  {
    RunPicks(tokens, ColorKind);
    var R := Runs(tokens);
    Concat6(Pick(R[0], ColorKind), Pick(R[1], ColorKind), Pick(R[2], ColorKind),
            Pick(R[3], ColorKind), Pick(R[4], ColorKind), Pick(R[5], ColorKind),
            ["br"], [], [], [], [], []);
    ColorsLiteral();
  }

  /** Two sizes. */
  lemma SampleSizes(tokens: seq<string>)
    requires IsLegacySample(tokens)
    ensures Pick(tokens[3..], SizeKind) == ["14l", "5f"]
  {
    RunPicks(tokens, SizeKind);
    var R := Runs(tokens);
    Concat6(Pick(R[0], SizeKind), Pick(R[1], SizeKind), Pick(R[2], SizeKind),
            Pick(R[3], SizeKind), Pick(R[4], SizeKind), Pick(R[5], SizeKind),
            [], [], ["14l"], [], ["5f"], []);
    SizesLiteral();
  }

  /** Nine leftovers. */
  lemma SampleLeftovers(tokens: seq<string>)
    requires IsLegacySample(tokens)
    ensures Pick(tokens[3..], LeftoverKind) == ["mrp", "975", "ft", "pr", "eq", "12\"9", "02", "kygh", "q8"]
  {
    RunPicks(tokens, LeftoverKind);
    var R := Runs(tokens);
    Concat6(Pick(R[0], LeftoverKind), Pick(R[1], LeftoverKind), Pick(R[2], LeftoverKind),
            Pick(R[3], LeftoverKind), Pick(R[4], LeftoverKind), Pick(R[5], LeftoverKind),
            [], ["mrp", "975", "ft", "pr", "eq"], [], ["12\"9"], [], ["02", "kygh", "q8"]);
    LeftoversLiteral();
  }

  /**
    The first version's parse of the sample: prefix `24_PK`, material
    `pv`, colour `br`, sizes `14l` and `5f`; of the nine leftovers `mrp`
    becomes the folder code, `975` the supplier and the last, `q8`, the
    file token.
   */
  lemma LegacySampleParse(tokens: seq<string>)
    requires IsLegacySample(tokens)
    ensures var r := LegacyReference(tokens);
      && r.prefix == Some("24_PK") && r.material == ["pv"] && r.color == ["br"]
      && r.size == ["14l", "5f"]
      && r.folderCode == Some("mrp") && r.supplier == Some("975") && r.fileToken == Some("q8")
  {
    SampleParseLists(tokens);
    SampleParseSlots(tokens);
  }

  lemma SampleSizeForms()
    ensures SizeForms(["14l", "5f"]) == ["14l", "5f"]
  {
    assert MarkLegacySeps("14l") == "14l" && MarkLegacySeps("5f") == "5f";
    assert CollapseUnderscores("14l") == "14l" && CollapseUnderscores("5f") == "5f";
    assert LowerStr("14l") == "14l" && LowerStr("5f") == "5f";
  }

  lemma SampleParseLists(tokens: seq<string>)
    requires IsLegacySample(tokens)
    ensures var r := LegacyReference(tokens);
      && r.prefix == Some("24_PK") && r.material == ["pv"] && r.color == ["br"] && r.size == ["14l", "5f"]
  {
    SamplePrefix(tokens);
    SampleMaterials(tokens);
    SampleColors(tokens);
    SampleSizes(tokens);
    SampleSizeForms();
    assert ["pv"] + [] == ["pv"];
  }

  lemma SampleParseSlots(tokens: seq<string>)
    requires IsLegacySample(tokens)
    ensures var r := LegacyReference(tokens);
      r.folderCode == Some("mrp") && r.supplier == Some("975") && r.fileToken == Some("q8")
  {
    SamplePrefix(tokens);
    SampleLeftovers(tokens);
  }

  /** Parsing the sample code itself gives the fields above and its fifteen tokens. */
  lemma LegacySampleEndToEnd(tokens: seq<string>)
    requires IsLegacySample(tokens)
    ensures var r := LegacyParse(Join(tokens[..11], '_') + "." + Join(tokens[11..], '_'));
      && r.tokens == tokens
      && r.prefix == Some("24_PK") && r.material == ["pv"] && r.color == ["br"]
      && r.size == ["14l", "5f"]
      && r.folderCode == Some("mrp") && r.supplier == Some("975") && r.fileToken == Some("q8")
  {
    var code := Join(tokens[..11], '_') + "." + Join(tokens[11..], '_');
    LegacySampleCode(tokens);
    LegacyParseMeaning(code);
    LegacySampleParse(tokens);
  }
}
