/** The worked example of the parser, step by step. */
module ParsingExample {
  import opened Wrappers
  import opened Strings
  import opened Vocabulary
  import opened Normalize
  import opened Parsing

  /** The tokens of `63_PK_PV_BR_MRP_975_FT_Pr_Eq_14L_12"9.5F_02_KYGH_Q8`. */
  predicate IsSample(t: seq<string>) {
    && |t| == 15
    && t[0] == "63" && t[1] == "PK" && t[2] == "PV" && t[3] == "BR" && t[4] == "MRP"
    && t[5] == "975" && t[6] == "FT" && t[7] == "Pr" && t[8] == "Eq" && t[9] == "14L"
    && t[10] == "12\"9" && t[11] == "5F" && t[12] == "02" && t[13] == "KYGH" && t[14] == "Q8"
  }

  /** Every sample token is a non-empty run of code characters. */
  lemma SampleTokenChars(tokens: seq<string>)
    requires IsSample(tokens)
    ensures forall k :: 0 <= k < |tokens| ==> |tokens[k]| > 0 && AllChars(tokens[k], IsCodeChar)
  {
  }

  /**
   * The sample tokens are what the normaliser makes of the code
   * `63_PK_PV_BR_MRP_975_FT_Pr_Eq_14L_12"9.5F_02_KYGH_Q8`: the dot between
   * `12"9` and `5F` separates tokens as an underscore does.
   */
  lemma SampleCode(tokens: seq<string>)
    requires IsSample(tokens)
    ensures NormalizeInput(Join(tokens[..11], '_') + "." + Join(tokens[11..], '_')) == tokens
  {
    SampleTokenChars(tokens);
    var a, b := tokens[..11], tokens[11..];
    assert a + b == tokens;
    JoinAppend(a, b, '_');
    JoinChars(a);
    JoinChars(b);
    NormalizeInputSplice(Join(a, '_'), '.', Join(b, '_'));
    TokenizeJoin(tokens);
  }

  // Classification of each sample token, in order; tokens 5 and 11 are consumed
  // by the MRP marker and the inches merge and are never classified.

  lemma Class0(tokens: seq<string>) requires IsSample(tokens) ensures Classify(tokens, 0, false) == AddPrefix("63") { ClassifyUnfold(tokens, 0, false); assert LowerStr("63") == "63"; }
  lemma Class1(tokens: seq<string>) requires IsSample(tokens) ensures Classify(tokens, 1, false) == AddPrefix("PK") { ClassifyUnfold(tokens, 1, false); assert LowerStr("PK") == "pk"; }
  lemma Class2(tokens: seq<string>) requires IsSample(tokens) ensures Classify(tokens, 2, false) == StartMaterial("pv") { ClassifyUnfold(tokens, 2, false); assert LowerStr("PV") == "pv"; }
  lemma Class3(tokens: seq<string>) requires IsSample(tokens) ensures Classify(tokens, 3, true) == AddColor("br") { ClassifyUnfold(tokens, 3, true); assert LowerStr("BR") == "br"; }
  lemma Class4(tokens: seq<string>) requires IsSample(tokens) ensures Classify(tokens, 4, true) == SkipMrp(2) { ClassifyUnfold(tokens, 4, true); assert LowerStr("MRP") == "mrp"; assert LowerStr("975") == "975"; }
  /** After a material, a token of no size or vocabulary kind is skipped as a design or offered to the slots. */
  lemma ClassifyPlain(tokens: seq<string>, i: nat, tl: string)
    requires i < |tokens| && tl == LowerStr(tokens[i])
    requires !IsMrpToken(tl) && tl !in MaterialCodes && tl !in ColorCodes && !IsHeightFeetToken(tl)
    requires !IsInchesToken(tokens[i]) && InchesFragment(tokens[i]).None?
    ensures Classify(tokens, i, true) == if IsDesignToken(tokens[i]) then SkipDesign else Leftover(tl)
  {
    ClassifyUnfold(tokens, i, true);
  }

  lemma Class6(tokens: seq<string>) requires IsSample(tokens) ensures Classify(tokens, 6, true) == SkipDesign {
    assert LowerStr("FT") == "ft"; assert LeadingDigits("FT") == 0;
    ClassifyPlain(tokens, 6, "ft");
  }
  lemma Class7(tokens: seq<string>) requires IsSample(tokens) ensures Classify(tokens, 7, true) == SkipDesign {
    assert LowerStr("Pr") == "pr"; assert LeadingDigits("Pr") == 0;
    ClassifyPlain(tokens, 7, "pr");
  }
  lemma Class8(tokens: seq<string>) requires IsSample(tokens) ensures Classify(tokens, 8, true) == SkipDesign {
    assert LowerStr("Eq") == "eq"; assert LeadingDigits("Eq") == 0;
    ClassifyPlain(tokens, 8, "eq");
  }
  lemma Class9(tokens: seq<string>) requires IsSample(tokens) ensures Classify(tokens, 9, true) == SkipDesign {
    assert LowerStr("14L") == "14l"; assert LeadingDigits("14L") == 2;
    assert "14l"[..2] == "14";
    ClassifyPlain(tokens, 9, "14l");
  }
  lemma Class12(tokens: seq<string>) requires IsSample(tokens) ensures Classify(tokens, 12, true) == Leftover("02") {
    assert LowerStr("02") == "02"; assert LeadingDigits("02") == 2;
    ClassifyPlain(tokens, 12, "02");
  }
  lemma Class13(tokens: seq<string>) requires IsSample(tokens) ensures Classify(tokens, 13, true) == Leftover("kygh") {
    assert LowerStr("KYGH") == "kygh"; assert LeadingDigits("KYGH") == 0;
    ClassifyPlain(tokens, 13, "kygh");
  }
  lemma Class14(tokens: seq<string>) requires IsSample(tokens) ensures Classify(tokens, 14, true) == Leftover("q8") {
    assert LowerStr("Q8") == "q8"; assert LeadingDigits("Q8") == 0;
    ClassifyPlain(tokens, 14, "q8");
  }

  lemma Frag() ensures InchesFragment("12\"9") == Some("12\"") && LeftoverAfterInches("12\"9") == "9" {
    assert LeadingDigits("12\"9") == 2;
    assert "12\"9"[..3] == "12\"";
    assert "12\"9"[3..] == "9";
    assert FirstNewline("9") == 1;
  }
  lemma NextHeight() ensures LowerStr("5F") == "5f" && IsHeightFeetToken("5f") && MergedHeight("9", "5f") == "9.5F" {
    assert LowerStr("5F") == "5f";
    assert LowerStr("5f") == "5f";
    assert "5f"[..1] == "5";
  }
  lemma SizeA() ensures NormalizeSizeToken("12\"") == "12_" {
    assert MarkSizeSeps("12\"") == "12_";
    assert CollapseUnderscores("12_") == "12_";
    assert LowerStr("12_") == "12_";
  }
  lemma SizeB() ensures NormalizeSizeToken("9.5F") == "9_5f" {
    assert MarkSizeSeps("9.5F") == "9_5F";
    assert CollapseUnderscores("9_5F") == "9_5F";
    assert LowerStr("9_5F") == "9_5f";
  }
  lemma Inches10(tokens: seq<string>) requires IsSample(tokens) ensures InchesFragment(tokens[10]) == Some("12\"") && InchesStep(tokens, 10, "12\"") == AddSizes(["12_", "9_5f"], 2) {
    Frag(); NextHeight(); SizeA(); SizeB();
  }
  lemma Plain10() ensures var t := "12\"9"; LowerStr(t) == t && !IsMrpToken(t) && t !in MaterialCodes && t !in ColorCodes && !IsHeightFeetToken(t) && !IsInchesToken(t) {
    var t := "12\"9";
    assert LowerStr(t) == t;
    assert t[0] == '1' && t[3] == '9';
    assert t[..3] != "mrp" by { assert t[..3][0] == '1'; }
  }
  lemma Class10(tokens: seq<string>) requires IsSample(tokens) ensures Classify(tokens, 10, true) == AddSizes(["12_", "9_5f"], 2) {
    ClassifyUnfold(tokens, 10, true);
    Plain10(); Frag(); Inches10(tokens);
  }

  /** The steps the sample tokens classify into. */
  const SampleSteps: seq<Step> := [
    AddPrefix("63"), AddPrefix("PK"), StartMaterial("pv"), AddColor("br"), SkipMrp(2),
    SkipDesign, SkipDesign, SkipDesign, SkipDesign, AddSizes(["12_", "9_5f"], 2),
    Leftover("02"), Leftover("kygh"), Leftover("q8")]

  /** One more step in front of a suffix of the sample steps. */
  lemma SampleStepsAt(j: nat)
    requires j < |SampleSteps|
    ensures SampleSteps[j..] == [SampleSteps[j]] + SampleSteps[j + 1..]
  {
  }

  // The step list from each classified position onwards, built back to front.

  lemma SampleTail14(tokens: seq<string>)
    requires IsSample(tokens)
    ensures Steps(tokens, 14, true) == SampleSteps[12..]
  {
    Class14(tokens);
    assert Steps(tokens, 15, true) == SampleSteps[13..];
    SampleStepsAt(12);
    StepsPrepend(tokens, 14, true, SampleSteps[13..]);
  }

  lemma SampleTail13(tokens: seq<string>)
    requires IsSample(tokens)
    ensures Steps(tokens, 13, true) == SampleSteps[11..]
  {
    Class13(tokens);
    SampleTail14(tokens);
    SampleStepsAt(11);
    StepsPrepend(tokens, 13, true, SampleSteps[12..]);
  }

  lemma SampleTail12(tokens: seq<string>)
    requires IsSample(tokens)
    ensures Steps(tokens, 12, true) == SampleSteps[10..]
  {
    Class12(tokens);
    SampleTail13(tokens);
    SampleStepsAt(10);
    StepsPrepend(tokens, 12, true, SampleSteps[11..]);
  }

  lemma SampleTail10(tokens: seq<string>)
    requires IsSample(tokens)
    ensures Steps(tokens, 10, true) == SampleSteps[9..]
  {
    Class10(tokens);
    SampleTail12(tokens);
    SampleStepsAt(9);
    StepsPrepend(tokens, 10, true, SampleSteps[10..]);
  }

  lemma SampleTail9(tokens: seq<string>)
    requires IsSample(tokens)
    ensures Steps(tokens, 9, true) == SampleSteps[8..]
  {
    Class9(tokens);
    SampleTail10(tokens);
    SampleStepsAt(8);
    StepsPrepend(tokens, 9, true, SampleSteps[9..]);
  }

  lemma SampleTail8(tokens: seq<string>)
    requires IsSample(tokens)
    ensures Steps(tokens, 8, true) == SampleSteps[7..]
  {
    Class8(tokens);
    SampleTail9(tokens);
    SampleStepsAt(7);
    StepsPrepend(tokens, 8, true, SampleSteps[8..]);
  }

  lemma SampleTail7(tokens: seq<string>)
    requires IsSample(tokens)
    ensures Steps(tokens, 7, true) == SampleSteps[6..]
  {
    Class7(tokens);
    SampleTail8(tokens);
    SampleStepsAt(6);
    StepsPrepend(tokens, 7, true, SampleSteps[7..]);
  }

  lemma SampleTail6(tokens: seq<string>)
    requires IsSample(tokens)
    ensures Steps(tokens, 6, true) == SampleSteps[5..]
  {
    Class6(tokens);
    SampleTail7(tokens);
    SampleStepsAt(5);
    StepsPrepend(tokens, 6, true, SampleSteps[6..]);
  }

  lemma SampleTail4(tokens: seq<string>)
    requires IsSample(tokens)
    ensures Steps(tokens, 4, true) == SampleSteps[4..]
  {
    Class4(tokens);
    SampleTail6(tokens);
    SampleStepsAt(4);
    StepsPrepend(tokens, 4, true, SampleSteps[5..]);
  }

  lemma SampleTail3(tokens: seq<string>)
    requires IsSample(tokens)
    ensures Steps(tokens, 3, true) == SampleSteps[3..]
  {
    Class3(tokens);
    SampleTail4(tokens);
    SampleStepsAt(3);
    StepsPrepend(tokens, 3, true, SampleSteps[4..]);
  }

  lemma SampleTail2(tokens: seq<string>)
    requires IsSample(tokens)
    ensures Steps(tokens, 2, false) == SampleSteps[2..]
  {
    Class2(tokens);
    SampleTail3(tokens);
    SampleStepsAt(2);
    StepsPrepend(tokens, 2, false, SampleSteps[3..]);
  }

  lemma SampleTail1(tokens: seq<string>)
    requires IsSample(tokens)
    ensures Steps(tokens, 1, false) == SampleSteps[1..]
  {
    Class1(tokens);
    SampleTail2(tokens);
    SampleStepsAt(1);
    StepsPrepend(tokens, 1, false, SampleSteps[2..]);
  }

  lemma SampleTail0(tokens: seq<string>)
    requires IsSample(tokens)
    ensures Steps(tokens, 0, false) == SampleSteps[0..]
  {
    Class0(tokens);
    SampleTail1(tokens);
    SampleStepsAt(0);
    StepsPrepend(tokens, 0, false, SampleSteps[1..]);
  }

  /** The parse state after all sample steps. */
  const SampleState := ParseState(["63", "PK"], ["pv"], ["br"], ["12_", "9_5f"], Slots(Some("02"), Some("kygh"), Some("q8")), true)

  /** Running two step lists one after the other is running their concatenation. */
  lemma {:induction false} RunAppend(st: ParseState, a: seq<Step>, b: seq<Step>)
    ensures Run(st, a + b) == Run(Run(st, a), b)
    decreases |a|
  {
    if |a| > 0 {
      assert (a + b)[0] == a[0];
      assert (a + b)[1..] == a[1..] + b;
      RunAppend(Apply(st, a[0]), a[1..], b);
    } else {
      assert a + b == b;
    }
  }

  // The steps up to and including the first design token, and the rest.
  const SampleHead: seq<Step> := [AddPrefix("63"), AddPrefix("PK"), StartMaterial("pv"), AddColor("br"), SkipMrp(2), SkipDesign]
  const SampleRest: seq<Step> := [SkipDesign, SkipDesign, SkipDesign, AddSizes(["12_", "9_5f"], 2), Leftover("02"), Leftover("kygh"), Leftover("q8")]
  const HeadState := ParseState(["63", "PK"], ["pv"], ["br"], [], NoSlots, true)

  lemma RunOfSampleHead()
    ensures Run(Initial, SampleHead) == HeadState
  {
  }

  lemma RunOfSampleRest()
    ensures Run(HeadState, SampleRest) == SampleState
  {
  }

  lemma RunOfSample()
    ensures Run(Initial, SampleSteps) == SampleState
  {
    assert SampleSteps == SampleHead + SampleRest;
    RunAppend(Initial, SampleHead, SampleRest);
    RunOfSampleHead();
    RunOfSampleRest();
  }

  /** How the final parse state becomes the parsed code. */
  lemma ParseTokensOf(tokens: seq<string>, st: ParseState)
    requires st == Run(Initial, Steps(tokens, 0, false))
    ensures ParseTokens(tokens)
         == ParsedCode(if |st.prefix| > 0 then Some(Join(st.prefix, '_')) else None,
                       st.material, st.color, st.size, st.slots.supplier, st.slots.folderCode, st.slots.fileToken, tokens)
  {
  }


  lemma ParseFinal(tokens: seq<string>)
    requires Run(Initial, Steps(tokens, 0, false)) == SampleState
    ensures ParseTokens(tokens)
         == ParsedCode(Some("63_PK"), ["pv"], ["br"], ["12_", "9_5f"], Some("kygh"), Some("02"), Some("q8"), tokens)
  {
    ParseTokensOf(tokens, SampleState);
    assert Join(["63", "PK"], '_') == "63_PK";
  }

  /** The sample code parses into prefix `63_PK`, material `pv`, colour `br`, sizes `12_` and `9_5f`, folder `02`, supplier `kygh`, file token `q8`. */
  lemma ParseSample(tokens: seq<string>)
    requires IsSample(tokens)
    ensures ParseTokens(tokens)
         == ParsedCode(Some("63_PK"), ["pv"], ["br"], ["12_", "9_5f"], Some("kygh"), Some("02"), Some("q8"), tokens)
  {
    SampleTail0(tokens);
    RunOfSample();
    ParseFinal(tokens);
  }

  /** End to end: the raw sample code, tokenised and parsed. */
  lemma ParseSampleCode(tokens: seq<string>)
    requires IsSample(tokens)
    ensures ParseProductCode(Join(tokens[..11], '_') + "." + Join(tokens[11..], '_'))
         == ParsedCode(Some("63_PK"), ["pv"], ["br"], ["12_", "9_5f"], Some("kygh"), Some("02"), Some("q8"), tokens)
  {
    SampleCode(tokens);
    ParseSample(tokens);
  }
}
