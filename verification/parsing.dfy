/**
  The V2 product-code parser: token classifiers, the inches helpers, the
  left-to-right classification of a code's tokens into prefix, material,
  colour, size and the three free slots (folder code, supplier, file token),
  and the questionnaire-to-selection builder.
 */
module Parsing {
  import opened Wrappers
  import opened Strings
  import opened Vocabulary
  import opened Normalize

  // ---------------------------------------------------------------------------
  // Token classifiers
  // ---------------------------------------------------------------------------

  /** `s` is one or more digits followed by `c`, matched in full (`\d+c`). */
  predicate DigitsThen(s: string, c: char) {
    |s| >= 2 && s[|s| - 1] == c && AllDigits(s[..|s| - 1])
  }

  /** `is_mrp_token`: `mrp`, or `mrp` followed by digits, in any case. */
  predicate IsMrpToken(t: string) {
    var tl := LowerStr(t);
    tl == "mrp" || (|tl| > 3 && tl[..3] == "mrp" && AllDigits(tl[3..]))
  }

  /** `is_design_token`: a design code, or digits followed by `l`, in any case. */
  predicate IsDesignToken(t: string) {
    var tl := LowerStr(t);
    tl in DesignCodesLower || DigitsThen(tl, 'l')
  }

  /** `\d+(?:\.\d+)?`: digits, optionally followed by a dot and more digits. */
  predicate IsDecimal(b: string) {
    || AllDigits(b)
    || exists k :: 0 < k < |b| - 1 && b[k] == '.' && AllDigits(b[..k]) && AllDigits(b[k + 1..])
  }

  /** `is_height_feet_token`: a decimal followed by `f`, in any case. */
  predicate IsHeightFeetToken(t: string) {
    var tl := LowerStr(t);
    |tl| >= 2 && tl[|tl| - 1] == 'f' && IsDecimal(tl[..|tl| - 1])
  }

  /** A whole inches token, `\d+"`. */
  predicate IsInchesToken(t: string) { DigitsThen(t, '"') }

  /** `s` starts with digits and an inch mark (`re.match(r'^(\d+)"', s)` succeeds). */
  predicate HasInchesPrefix(s: string) {
    exists j :: 0 < j < |s| && s[j] == '"' && AllDigits(s[..j])
  }

  /** The leading digits end exactly at the inch mark. */
  lemma {:induction false} LeadingDigitsAt(s: string, j: nat)
    requires 0 < j < |s| && s[j] == '"' && AllDigits(s[..j])
    ensures LeadingDigits(s) == j
  {
    assert forall i :: 0 <= i < j ==> IsDigit(s[i]) by {
      forall i | 0 <= i < j ensures IsDigit(s[i]) {
        assert s[..j][i] == s[i];
      }
    }
    assert !IsDigit(s[j]);
  }

  lemma {:induction false} LeadingDigitsAtMark(s: string)
    ensures HasInchesPrefix(s) ==> 0 < LeadingDigits(s) < |s| && s[LeadingDigits(s)] == '"'
  {
    if HasInchesPrefix(s) {
      var j :| 0 < j < |s| && s[j] == '"' && AllDigits(s[..j]);
      LeadingDigitsAt(s, j);
    }
  }

  /** `inches_fragment`: the leading digits of `s` with their inch mark, if `s` starts that way. */
  function InchesFragment(s: string): Option<string> {
    var k := LeadingDigits(s);
    if 0 < k < |s| && s[k] == '"' then Some(s[..k + 1]) else None
  }

  /** The fragment exists exactly when `s` starts with digits and an inch mark, and then it is that start. */
  lemma {:induction false} InchesFragmentMeaning(s: string)
    ensures InchesFragment(s).Some? <==> HasInchesPrefix(s)
    ensures InchesFragment(s).Some? ==> IsInchesToken(InchesFragment(s).value) && StartsWith(s, InchesFragment(s).value)
  {
    var k := LeadingDigits(s);
    LeadingDigitsAtMark(s);
    if 0 < k < |s| && s[k] == '"' {
      assert AllDigits(s[..k]);
      assert s[..k + 1][..k] == s[..k];
      assert HasInchesPrefix(s);
    }
  }

  /** Index of the first newline in `s`, or `|s|` when there is none. */
  function FirstNewline(s: string): (p: nat)
    ensures p <= |s|
    ensures forall i :: 0 <= i < p ==> s[i] != '\n'
    ensures p < |s| ==> s[p] == '\n'
    decreases |s|
  {
    if |s| == 0 || s[0] == '\n' then 0 else 1 + FirstNewline(s[1..])
  }

  /**
    `leftover_after_inches`: what follows the inches fragment. The pattern is
    `^\d+"(.*)$`: `.` stops at a newline and `$` matches at the end or just
    before a final newline, so a newline anywhere else makes the match fail
    and the result is empty.
   */
  function LeftoverAfterInches(s: string): (r: string)
    ensures forall i :: 0 <= i < |r| ==> r[i] != '\n'
    ensures InchesFragment(s).None? ==> r == ""
  {
    match InchesFragment(s)
    case None => ""
    case Some(f) =>
      var rest := s[|f|..];
      var p := FirstNewline(rest);
      if p == |rest| then rest
      else if p == |rest| - 1 then rest[..p]
      else ""
  }

  lemma FirstNewlineAbsent(s: string)
    requires forall i :: 0 <= i < |s| ==> s[i] != '\n'
    ensures FirstNewline(s) == |s|
  {
  }

  /** On newline-free text the fragment and the leftover put back together give the whole. */
  lemma {:induction false} InchesRoundTrip(s: string)
    requires forall i :: 0 <= i < |s| ==> s[i] != '\n'
    requires HasInchesPrefix(s)
    ensures InchesFragment(s).Some? && InchesFragment(s).value + LeftoverAfterInches(s) == s
  {
    InchesFragmentMeaning(s);
    var f := InchesFragment(s).value;
    var rest := s[|f|..];
    forall k | 0 <= k < |rest| ensures rest[k] != '\n' {
      assert rest[k] == s[|f| + k];
    }
    FirstNewlineAbsent(rest);
    assert LeftoverAfterInches(s) == rest;
    assert s == s[..|f|] + rest;
  }

  /** Text after the inch mark does not change the fragment. */
  lemma {:induction false} InchesFragmentExtend(s: string, x: string)
    requires HasInchesPrefix(s)
    ensures InchesFragment(s + x) == InchesFragment(s)
  {
    var j :| 0 < j < |s| && s[j] == '"' && AllDigits(s[..j]);
    assert (s + x)[..j] == s[..j];
    LeadingDigitsAt(s, j);
    LeadingDigitsAt(s + x, j);
    assert (s + x)[..j + 1] == s[..j + 1];
  }

  /** A final newline is not part of the leftover; the rest still comes back. */
  lemma {:induction false} InchesTrailingNewline(s: string)
    requires forall i :: 0 <= i < |s| ==> s[i] != '\n'
    requires HasInchesPrefix(s)
    ensures InchesFragment(s + "\n") == InchesFragment(s)
    ensures InchesFragment(s).Some? && InchesFragment(s).value + LeftoverAfterInches(s + "\n") == s
  {
    InchesFragmentMeaning(s);
    InchesFragmentExtend(s, "\n");
    var f := InchesFragment(s).value;
    var body := s[|f|..];
    assert (s + "\n")[|f|..] == body + "\n";
    forall i | 0 <= i < |body| ensures body[i] != '\n' {
      assert body[i] == s[|f| + i];
    }
    FirstNewlineOfLine(body);
    assert (body + "\n")[..|body|] == body;
    assert s == f + body;
  }

  /** In one line followed by a newline, the first newline is that final one. */
  lemma {:induction false} FirstNewlineOfLine(body: string)
    requires forall i :: 0 <= i < |body| ==> body[i] != '\n'
    ensures FirstNewline(body + "\n") == |body|
  {
    assert (body + "\n")[|body|] == '\n';
    assert forall i :: 0 <= i < |body| ==> (body + "\n")[i] == body[i];
  }

  /** A height token holds a digit. */
  lemma {:induction false} HeightHasDigit(t: string)
    requires IsHeightFeetToken(t)
    ensures HasDigit(t)
  {
    var l := LowerStr(t);
    assert IsDigit(l[..|l| - 1][0]);
    assert HasDigit(l);
    LowerKeepsNonLetters(t);
  }

  lemma {:induction false} UpperKeepsDigit(t: string)
    requires HasDigit(t)
    ensures HasDigit(UpperStr(t))
  {
    var i :| 0 <= i < |t| && IsDigit(t[i]);
    assert UpperStr(t)[i] == t[i];
  }

  /** Lower-casing leaves digits, dots and inch marks where they are. */
  lemma {:induction false} LowerKeepsNonLetters(t: string)
    ensures IsInchesToken(LowerStr(t)) ==> IsInchesToken(t)
    ensures HasInchesPrefix(LowerStr(t)) ==> HasInchesPrefix(t)
    ensures HasDigit(LowerStr(t)) ==> HasDigit(t)
  {
    var l := LowerStr(t);
    assert forall i :: 0 <= i < |t| ==> (IsDigit(l[i]) <==> IsDigit(t[i])) && (l[i] == '"' <==> t[i] == '"');
    if IsInchesToken(l) {
      assert forall i :: 0 <= i < |t| - 1 ==> l[..|l| - 1][i] == l[i] && t[..|t| - 1][i] == t[i];
    }
    if HasInchesPrefix(l) {
      var j :| 0 < j < |l| && l[j] == '"' && AllDigits(l[..j]);
      assert forall i :: 0 <= i < j ==> l[..j][i] == l[i] && t[..j][i] == t[i];
      assert AllDigits(t[..j]);
    }
  }

  // ---------------------------------------------------------------------------
  // One step of the parse loop
  // ---------------------------------------------------------------------------

  /** What one iteration of the parse loop does with the token(s) at the cursor. */
  datatype Step =
    | SkipMrp(width: nat)                      // an MRP marker, with its price when `mrp` is followed by digits
    | StartMaterial(code: string)              // the first material code: the prefix ends here
    | AddPrefix(token: string)                 // a token before the first material, kept as written
    | AddMaterial(code: string)
    | AddColor(code: string)
    | AddSizes(sizes: seq<string>, width: nat) // height and/or inches, possibly merged from two tokens
    | SkipDesign
    | Leftover(token: string)                  // anything else, offered to the free slots
  {
    /** How many tokens the step consumes. */
    function Advance(): nat {
      if SkipMrp? || AddSizes? then width else 1
    }
  }

  /** A value that may sit in one of the free slots: none of the recognised kinds of token. */
  predicate SlotOk(v: string) {
    && !IsMrpToken(v)
    && v !in MaterialCodes
    && v !in ColorCodes
    && !IsHeightFeetToken(v)
    && !IsInchesToken(v)
    && !HasInchesPrefix(v)
    && !IsDesignToken(v)
  }

  /** Every entry is a canonical size token holding a digit. */
  predicate SizesOk(sizes: seq<string>) {
    forall j :: 0 <= j < |sizes| ==> HasDigit(sizes[j]) && IsSizeToken(sizes[j])
  }

  /**
    The inches branch: `t` starts with `inc`; the fragment is a size, and
    what follows it either joins the next token into a height (`12"9` then
    `5F` gives `9.5F`), is a height itself, or is dropped.
   */
  function InchesStep(tokens: seq<string>, i: nat, inc: string): (k: Step)
    requires i < |tokens| && InchesFragment(tokens[i]) == Some(inc)
    ensures k.AddSizes? && 1 <= k.width && i + k.width <= |tokens|
  {
    var first := NormalizeSizeToken(inc);
    var rest := LeftoverAfterInches(tokens[i]);
    var nextT := if i + 1 < |tokens| then LowerStr(tokens[i + 1]) else "";
    if |rest| > 0 && IsHeightFeetToken(nextT) then
      AddSizes([first, NormalizeSizeToken(MergedHeight(rest, nextT))], 2)
    else if |rest| > 0 && EndsWith(LowerStr(rest), "f") && IsHeightFeetToken(LowerStr(rest)) then
      AddSizes([first, NormalizeSizeToken(rest)], 1)
    else
      AddSizes([first], 1)
  }

  /**
    The height made from an inches leftover and the following height token:
    digits `9` and `5f` give `9.5F`; any other leftover leaves the next
    token on its own, upper-cased.
   */
  function MergedHeight(rest: string, nextT: string): string
    requires IsHeightFeetToken(nextT)
  {
    if AllDigits(rest) then rest + "." + nextT[..|nextT| - 1] + "F" else UpperStr(nextT)
  }

  /** A merged height keeps the digits of the height token it was made from. */
  lemma {:induction false} MergedHeightHasDigit(rest: string, nextT: string)
    requires IsHeightFeetToken(nextT)
    ensures HasDigit(MergedHeight(rest, nextT))
  {
    var h := MergedHeight(rest, nextT);
    if AllDigits(rest) {
      assert IsDigit(h[0]);
    } else {
      HeightHasDigit(nextT);
      UpperKeepsDigit(nextT);
    }
  }

  /** The fragment itself becomes a canonical size holding a digit. */
  lemma {:induction false} FragmentSizeOk(t: string, inc: string)
    requires InchesFragment(t) == Some(inc)
    ensures HasDigit(NormalizeSizeToken(inc)) && IsSizeToken(NormalizeSizeToken(inc))
  {
    InchesFragmentMeaning(t);
    assert HasDigit(inc) by { assert IsDigit(inc[..|inc| - 1][0]); }
    NormalizeSizeKeepsDigit(inc);
  }

  /** A merged height becomes a canonical size holding a digit. */
  lemma {:induction false} MergedSizeOk(rest: string, nextT: string)
    requires IsHeightFeetToken(nextT)
    ensures HasDigit(NormalizeSizeToken(MergedHeight(rest, nextT))) && IsSizeToken(NormalizeSizeToken(MergedHeight(rest, nextT)))
  {
    MergedHeightHasDigit(rest, nextT);
    NormalizeSizeKeepsDigit(MergedHeight(rest, nextT));
  }

  /** A leftover that is itself a height becomes a canonical size holding a digit. */
  lemma {:induction false} RestSizeOk(rest: string)
    requires IsHeightFeetToken(LowerStr(rest))
    ensures HasDigit(NormalizeSizeToken(rest)) && IsSizeToken(NormalizeSizeToken(rest))
  {
    HeightHasDigit(LowerStr(rest));
    LowerKeepsNonLetters(rest);
    NormalizeSizeKeepsDigit(rest);
  }

  predicate SizeOk(v: string) { HasDigit(v) && IsSizeToken(v) }

  lemma {:induction false} SizesOkPair(a: string, b: string)
    requires SizeOk(a) && SizeOk(b)
    ensures SizesOk([a]) && SizesOk([a, b])
  {
  }

  /** Every size the inches branch records is a canonical size token with a digit in it. */
  lemma {:induction false} InchesStepOk(tokens: seq<string>, i: nat, inc: string)
    requires i < |tokens| && InchesFragment(tokens[i]) == Some(inc)
    ensures var k := InchesStep(tokens, i, inc); 1 <= |k.sizes| <= 2 && SizesOk(k.sizes)
  {
    var rest := LeftoverAfterInches(tokens[i]);
    var nextT := if i + 1 < |tokens| then LowerStr(tokens[i + 1]) else "";
    var a := NormalizeSizeToken(inc);
    FragmentSizeOk(tokens[i], inc);
    if |rest| > 0 && IsHeightFeetToken(nextT) {
      MergedSizeOk(rest, nextT);
      SizesOkPair(a, NormalizeSizeToken(MergedHeight(rest, nextT)));
    } else if |rest| > 0 && EndsWith(LowerStr(rest), "f") && IsHeightFeetToken(LowerStr(rest)) {
      RestSizeOk(rest);
      SizesOkPair(a, NormalizeSizeToken(rest));
    } else {
      SizesOkPair(a, a);
    }
  }

  /**
    Classifies the token at `i`, given whether a material has been seen:
    MRP markers first, then (before any material) material-or-prefix, then
    material, colour, height, whole inches, inches fragment, design, and
    finally a leftover for the free slots.
   */
  function ClassifyToken(tokens: seq<string>, i: nat, found: bool): (k: Step)
    requires i < |tokens|
    ensures 1 <= k.Advance() && i + k.Advance() <= |tokens|
  {
    var t := tokens[i];
    var tl := LowerStr(t);
    if IsMrpToken(tl) then
      if tl == "mrp" && i + 1 < |tokens| && AllDigits(LowerStr(tokens[i + 1])) then SkipMrp(2) else SkipMrp(1)
    else if !found && tl in MaterialCodes then StartMaterial(tl)
    else if !found then AddPrefix(t)
    else if tl in MaterialCodes then AddMaterial(tl)
    else if tl in ColorCodes then AddColor(tl)
    else if IsHeightFeetToken(tl) then AddSizes([NormalizeSizeToken(t)], 1)
    else if IsInchesToken(t) then AddSizes([NormalizeSizeToken(t)], 1)
    else match InchesFragment(t)
      case Some(inc) => InchesStep(tokens, i, inc)
      case None => if IsDesignToken(t) then SkipDesign else Leftover(tl)
  }

  /**
    `ClassifyToken` behind `layers` trivial unfoldings. The parse loop
    classifies through `Classify`, whose layer count comes from the input
    rather than a literal, so the solver cannot see through it on its own:
    proofs about the loop work from `ClassifyOk`, and only the proofs that
    need the tests themselves look inside, with `ClassifyUnfold`.
   */
  function ClassifyLayered(layers: nat, tokens: seq<string>, i: nat, found: bool): (k: Step)
    requires i < |tokens|
    ensures 1 <= k.Advance() && i + k.Advance() <= |tokens|
    decreases layers
  {
    if layers == 0 then ClassifyToken(tokens, i, found) else ClassifyLayered(layers - 1, tokens, i, found)
  }

  /** The step the parse loop takes at token `i`: `ClassifyToken`, by `ClassifyUnfold`. */
  function Classify(tokens: seq<string>, i: nat, found: bool): (k: Step)
    requires i < |tokens|
    ensures 1 <= k.Advance() && i + k.Advance() <= |tokens|
  {
    ClassifyLayered(|tokens| + 2, tokens, i, found)
  }

  /** However many layers are put in front, the step is the one `ClassifyToken` gives. */
  lemma {:induction false} LayersImmaterial(layers: nat, tokens: seq<string>, i: nat, found: bool)
    requires i < |tokens|
    ensures ClassifyLayered(layers, tokens, i, found) == ClassifyToken(tokens, i, found)
    decreases layers
  {
    if layers > 0 {
      LayersImmaterial(layers - 1, tokens, i, found);
    }
  }

  lemma ClassifyUnfold(tokens: seq<string>, i: nat, found: bool)
    requires i < |tokens|
    ensures Classify(tokens, i, found) == ClassifyToken(tokens, i, found)
  {
    LayersImmaterial(|tokens| + 2, tokens, i, found);
  }

  /**
    What each kind of step means: MRP markers are recognised in any case;
    before a material only material-or-prefix is decided; material and
    colour codes come from their vocabularies; sizes are canonical and hold
    a digit; a leftover is none of the recognised kinds of token.
   */
  lemma {:induction false} ClassifyOk(tokens: seq<string>, i: nat, found: bool)
    requires i < |tokens|
    ensures var k := Classify(tokens, i, found);
            && (k.SkipMrp? <==> IsMrpToken(tokens[i]))
            && (!found ==> k.SkipMrp? || k.StartMaterial? || k.AddPrefix?)
            && (k.StartMaterial? ==> !found && k.code == LowerStr(tokens[i]) && k.code in MaterialCodes)
            && (k.AddPrefix? ==> !found && k.token == tokens[i] && LowerStr(tokens[i]) !in MaterialCodes)
            && (k.AddMaterial? ==> found && k.code == LowerStr(tokens[i]) && k.code in MaterialCodes)
            && (k.AddColor? ==> found && k.code == LowerStr(tokens[i]) && k.code in ColorCodes)
            && (k.AddSizes? ==> found && 1 <= |k.sizes| <= 2 && SizesOk(k.sizes))
            && (k.SkipDesign? ==> found && IsDesignToken(tokens[i]))
            && (k.Leftover? ==> found && k.token == LowerStr(tokens[i]) && SlotOk(k.token))
            && StepOk(k, found)
  {
    var t := tokens[i];
    var tl := LowerStr(t);
    LowerStrIdempotent(t);
    ClassifyUnfold(tokens, i, found);
    if IsMrpToken(tl) {
    } else if !found {
    } else if tl in MaterialCodes || tl in ColorCodes {
    } else if IsHeightFeetToken(tl) {
      HeightHasDigit(t);
      NormalizeSizeKeepsDigit(t);
    } else if IsInchesToken(t) {
      assert IsDigit(t[..|t| - 1][0]);
      NormalizeSizeKeepsDigit(t);
    } else if InchesFragment(t).Some? {
      InchesStepOk(tokens, i, InchesFragment(t).value);
    } else {
      InchesFragmentMeaning(t);
      LowerKeepsNonLetters(t);
    }
  }

  /**
    After the first material a colour code, in any case, is recorded as a
    colour: the colour test comes before the size and design tests.
   */
  lemma ColorTokenIsColor(tokens: seq<string>, i: nat)
    requires i < |tokens| && LowerStr(tokens[i]) in ColorCodes
    ensures Classify(tokens, i, true) == AddColor(LowerStr(tokens[i]))
  {
    ClassifyUnfold(tokens, i, true);
    MaterialNotColor();
    ColorCodeLengths();
    assert |LowerStr(LowerStr(tokens[i]))| == 2;
  }

  /**
    `rd` and `pl` are both colour and design codes; after the first material
    they are always taken as colours, never skipped as designs.
   */
  lemma OverlapCodesAreColors(tokens: seq<string>, i: nat)
    requires i < |tokens| && LowerStr(tokens[i]) in ColorCodes && LowerStr(tokens[i]) in DesignCodesLower
    ensures LowerStr(tokens[i]) == "rd" || LowerStr(tokens[i]) == "pl"
    ensures IsDesignToken(tokens[i])
    ensures Classify(tokens, i, true) == AddColor(LowerStr(tokens[i]))
  {
    ColorsOutsideDesigns();
    ColorTokenIsColor(tokens, i);
  }

  /**
    A bare `mrp` followed by an all-digit token swallows both, whether or not
    a material was seen, so the price never reaches the free slots.
   */
  lemma MrpSwallowsPrice(tokens: seq<string>, i: nat, found: bool)
    requires i + 1 < |tokens| && LowerStr(tokens[i]) == "mrp" && AllDigits(LowerStr(tokens[i + 1]))
    ensures Classify(tokens, i, found) == SkipMrp(2)
  {
    ClassifyUnfold(tokens, i, found);
    assert LowerStr(LowerStr(tokens[i])) == "mrp";
  }

  /**
    Any other MRP marker (`mrp` at the end, `mrp` before a non-number, or
    `mrp` with its digits attached) is skipped on its own.
   */
  lemma MrpAloneSkipsOne(tokens: seq<string>, i: nat, found: bool)
    requires i < |tokens| && IsMrpToken(tokens[i])
    requires !(LowerStr(tokens[i]) == "mrp" && i + 1 < |tokens| && AllDigits(LowerStr(tokens[i + 1])))
    ensures Classify(tokens, i, found) == SkipMrp(1)
  {
    ClassifyUnfold(tokens, i, found);
    LowerStrIdempotent(tokens[i]);
  }

  // ---------------------------------------------------------------------------
  // The parse loop
  // ---------------------------------------------------------------------------

  /** The three free slots, in the order the loop fills them. */
  datatype Slots = Slots(folderCode: Option<string>, supplier: Option<string>, fileToken: Option<string>)

  const NoSlots := Slots(None, None, None)

  datatype ParseState = ParseState(
    prefix: seq<string>,
    material: seq<string>,
    color: seq<string>,
    size: seq<string>,
    slots: Slots,
    found: bool)

  const Initial := ParseState([], [], [], [], NoSlots, false)

  /** Python truthiness of an optional string: present and non-empty. */
  predicate Truthy(o: Option<string>) { o.Some? && |o.value| > 0 }

  /**
    The slot-filling rule for a leftover token: the folder code first, then
    the supplier if the token is on the allow-list, otherwise the file token
    while it is still unset; once the supplier is set, only the file token.
   */
  function FillSlot(s: Slots, v: string): (r: Slots)
    ensures r.folderCode.Some? && (r.supplier.Some? ==> r.supplier == s.supplier || v in SupplierCodesLower)
  {
    if !Truthy(s.folderCode) then s.(folderCode := Some(v))
    else if !Truthy(s.supplier) then
      if v in SupplierCodesLower then s.(supplier := Some(v))
      else if !Truthy(s.fileToken) then s.(fileToken := Some(v))
      else s
    else if !Truthy(s.fileToken) then s.(fileToken := Some(v))
    else s
  }

  function Apply(st: ParseState, k: Step): ParseState {
    match k
    case SkipMrp(_) => st
    case StartMaterial(c) => st.(found := true, material := st.material + [c])
    case AddPrefix(t) => st.(prefix := st.prefix + [t])
    case AddMaterial(c) => st.(material := st.material + [c])
    case AddColor(c) => st.(color := st.color + [c])
    case AddSizes(ss, _) => st.(size := st.size + ss)
    case SkipDesign => st
    case Leftover(v) => st.(slots := FillSlot(st.slots, v))
  }

  predicate SlotsOk(s: Slots) {
    && (s.folderCode.Some? ==> SlotOk(s.folderCode.value))
    && (s.supplier.Some? ==> SlotOk(s.supplier.value) && s.supplier.value in SupplierCodesLower)
    && (s.fileToken.Some? ==> SlotOk(s.fileToken.value))
    && (s.supplier.Some? || s.fileToken.Some? ==> s.folderCode.Some?)
  }

  /** What holds of the parse state between iterations. */
  predicate StateOk(st: ParseState) {
    && (forall j :: 0 <= j < |st.material| ==> st.material[j] in MaterialCodes)
    && (forall j :: 0 <= j < |st.color| ==> st.color[j] in ColorCodes)
    && SizesOk(st.size)
    && SlotsOk(st.slots)
    && (st.found <==> |st.material| > 0)
    && (!st.found ==> st.color == [] && st.size == [] && st.slots == NoSlots)
  }

  /** The steps the loop takes from token `i` to the end, `found` telling whether a material has been seen. */
  function Steps(tokens: seq<string>, i: nat, found: bool): seq<Step>
    requires i <= |tokens|
    decreases |tokens| - i
  {
    if i == |tokens| then []
    else
      var k := Classify(tokens, i, found);
      [k] + Steps(tokens, i + k.Advance(), found || k.StartMaterial?)
  }

  /** The parse state after taking `ks` in turn. */
  function Run(st: ParseState, ks: seq<Step>): ParseState
    decreases |ks|
  {
    if |ks| == 0 then st else Run(Apply(st, ks[0]), ks[1..])
  }

  /** Each step is well-formed for the material flag in force when it is taken. */
  predicate StepsOk(ks: seq<Step>, found: bool)
    decreases |ks|
  {
    |ks| > 0 ==> StepOk(ks[0], found) && StepsOk(ks[1..], found || ks[0].StartMaterial?)
  }

  lemma {:induction false} StepsAreOk(tokens: seq<string>, i: nat, found: bool)
    requires i <= |tokens|
    ensures StepsOk(Steps(tokens, i, found), found)
    decreases |tokens| - i
  {
    if i < |tokens| {
      var k := Classify(tokens, i, found);
      ClassifyOk(tokens, i, found);
      StepsAreOk(tokens, i + k.Advance(), found || k.StartMaterial?);
      assert Steps(tokens, i, found)[1..] == Steps(tokens, i + k.Advance(), found || k.StartMaterial?);
    }
  }

  /**
    The loop keeps the state invariant; it only ever extends the prefix and
    the material list, and the prefix no longer grows once a material is seen.
   */
  lemma {:induction false} RunOk(st: ParseState, ks: seq<Step>)
    requires StateOk(st) && StepsOk(ks, st.found)
    ensures StateOk(Run(st, ks))
    ensures |st.prefix| <= |Run(st, ks).prefix| && Run(st, ks).prefix[..|st.prefix|] == st.prefix
    ensures st.found ==> Run(st, ks).prefix == st.prefix
    ensures |st.material| <= |Run(st, ks).material| && Run(st, ks).material[..|st.material|] == st.material
    decreases |ks|
  {
    if |ks| > 0 {
      ApplyOk(st, ks[0]);
      RunOk(Apply(st, ks[0]), ks[1..]);
    }
  }

  /** What a classified step is known to carry, given whether a material has been seen. */
  predicate StepOk(k: Step, found: bool) {
    && (!found ==> k.SkipMrp? || k.StartMaterial? || k.AddPrefix?)
    && (k.StartMaterial? ==> !found && k.code in MaterialCodes)
    && (k.AddPrefix? ==> !found)
    && (k.AddMaterial? ==> found && k.code in MaterialCodes)
    && (k.AddColor? ==> found && k.code in ColorCodes)
    && (k.AddSizes? ==> found && SizesOk(k.sizes))
    && (k.Leftover? ==> found && SlotOk(k.token))
  }

  lemma {:induction false} FillSlotOk(s: Slots, v: string)
    requires SlotsOk(s) && SlotOk(v)
    ensures SlotsOk(FillSlot(s, v))
  {
  }

  lemma {:induction false} SizesAppend(a: seq<string>, b: seq<string>)
    requires SizesOk(a) && SizesOk(b)
    ensures SizesOk(a + b)
  {
    assert forall j :: 0 <= j < |a + b| ==> (a + b)[j] == (if j < |a| then a[j] else b[j - |a|]);
  }

  /** One classified step keeps the state invariant and only ever extends the prefix, and only before a material. */
  lemma {:induction false} ApplyOk(st: ParseState, k: Step)
    requires StateOk(st) && StepOk(k, st.found)
    ensures StateOk(Apply(st, k))
    ensures Apply(st, k).prefix[..|st.prefix|] == st.prefix
    ensures st.found ==> Apply(st, k).prefix == st.prefix
    ensures Apply(st, k).material[..|st.material|] == st.material
  {
    var st' := Apply(st, k);
    assert st'.prefix[..|st.prefix|] == st.prefix;
    assert st'.material[..|st.material|] == st.material;
    match k {
      case AddSizes(ss, _) => SizesAppend(st.size, ss);
      case Leftover(v) => FillSlotOk(st.slots, v);
      case StartMaterial(c) =>
      case AddMaterial(c) =>
      case AddColor(c) =>
      case AddPrefix(t) =>
      case SkipMrp(_) =>
      case SkipDesign =>
    }
  }

  /** The parsed fields of a code; `prefix` is the prefix tokens joined with `_`, or `None`. */
  datatype ParsedCode = ParsedCode(
    prefix: Option<string>,
    material: seq<string>,
    color: seq<string>,
    size: seq<string>,
    supplier: Option<string>,
    folderCode: Option<string>,
    fileToken: Option<string>,
    tokens: seq<string>)

  /** Parses an already tokenised code. */
  function ParseTokens(tokens: seq<string>): (r: ParsedCode)
    ensures r.tokens == tokens
    ensures forall j :: 0 <= j < |r.material| ==> r.material[j] in MaterialCodes
    ensures forall j :: 0 <= j < |r.color| ==> r.color[j] in ColorCodes
    ensures SizesOk(r.size)
    ensures r.supplier.Some? ==> r.supplier.value in SupplierCodesLower
    ensures SlotsOk(Slots(r.folderCode, r.supplier, r.fileToken))
    ensures r.material == [] ==> r.color == [] && r.size == [] && r.folderCode == None && r.supplier == None && r.fileToken == None
  {
    var ks := Steps(tokens, 0, false);
    var st := Run(Initial, ks);
    StepsAreOk(tokens, 0, false);
    RunOk(Initial, ks);
    ParsedCode(
      if |st.prefix| > 0 then Some(Join(st.prefix, '_')) else None,
      st.material, st.color, st.size,
      st.slots.supplier, st.slots.folderCode, st.slots.fileToken,
      tokens)
  }

  /** `parse_product_code`: tokenise the raw code, then classify its tokens. */
  function ParseProductCode(code: string): (r: ParsedCode)
    ensures r.tokens == NormalizeInput(code)
    ensures forall j :: 0 <= j < |r.material| ==> r.material[j] in MaterialCodes
    ensures forall j :: 0 <= j < |r.color| ==> r.color[j] in ColorCodes
    ensures SizesOk(r.size)
    ensures SlotsOk(Slots(r.folderCode, r.supplier, r.fileToken))
  {
    ParseTokens(NormalizeInput(code))
  }

  // ---------------------------------------------------------------------------
  // The prefix: everything before the first material code, MRP markers aside
  // ---------------------------------------------------------------------------

  /** `m` is the first position from `i` on that holds a material code, or the end when none does. */
  predicate FirstMaterialAt(tokens: seq<string>, i: nat, m: nat) {
    && i <= m <= |tokens|
    && (forall j :: i <= j < m ==> LowerStr(tokens[j]) !in MaterialCodes)
    && (m < |tokens| ==> LowerStr(tokens[m]) in MaterialCodes)
  }

  /** Index of the first token, from `i` on, whose lower-case form is a material code; `|tokens|` if none. */
  function FirstMaterial(tokens: seq<string>, i: nat): (m: nat)
    requires i <= |tokens|
    ensures i <= m <= |tokens|
    ensures forall j :: i <= j < m ==> LowerStr(tokens[j]) !in MaterialCodes
    ensures m < |tokens| ==> LowerStr(tokens[m]) in MaterialCodes
    decreases |tokens| - i
  {
    if i == |tokens| || LowerStr(tokens[i]) in MaterialCodes then i else FirstMaterial(tokens, i + 1)
  }

  /**
    Reference definition of the prefix tokens: `ts` without its MRP markers,
    where a bare `mrp` also takes the all-digit price after it.
   */
  function WithoutMrp(ts: seq<string>, i: nat): seq<string>
    requires i <= |ts|
    decreases |ts| - i
  {
    if i == |ts| then []
    else if IsMrpToken(ts[i]) then
      if LowerStr(ts[i]) == "mrp" && i + 1 < |ts| && AllDigits(LowerStr(ts[i + 1])) then WithoutMrp(ts, i + 2)
      else WithoutMrp(ts, i + 1)
    else [ts[i]] + WithoutMrp(ts, i + 1)
  }

  /** A material code is neither an MRP marker nor a price. */
  lemma {:induction false} MaterialCodeIsPlain(t: string)
    requires LowerStr(t) in MaterialCodes
    ensures !IsMrpToken(t) && !AllDigits(LowerStr(t))
  {
    var c := LowerStr(t);
    assert |c| >= 2 && c[0] != 'm' && !IsDigit(c[0]);
  }

  /** Before the first material, a step either skips an MRP marker or keeps the token, as `WithoutMrp` does. */
  lemma {:induction false} PrefixStep(tokens: seq<string>, i: nat, m: nat)
    requires i < m && FirstMaterialAt(tokens, i, m)
    ensures var k := Classify(tokens, i, false);
            && i + k.Advance() <= m
            && (k.SkipMrp? || (k.AddPrefix? && k.token == tokens[i]))
            && WithoutMrp(tokens[..m], i)
               == (if k.AddPrefix? then [tokens[i]] else []) + WithoutMrp(tokens[..m], i + k.Advance())
  {
    var ts := tokens[..m];
    var k := Classify(tokens, i, false);
    ClassifyOk(tokens, i, false);
    assert ts[i] == tokens[i];
    if k.SkipMrp? {
      ClassifyUnfold(tokens, i, false);
      if i + 1 < m {
        assert ts[i + 1] == tokens[i + 1];
      } else if i + 1 < |tokens| {
        MaterialCodeIsPlain(tokens[m]);
      }
    }
  }

  /** Once the first material is taken, the prefix is final and the material list starts with that code. */
  lemma {:induction false} RunFromMaterial(st: ParseState, c: string, ks: seq<Step>)
    requires StateOk(st) && !st.found && c in MaterialCodes && StepsOk(ks, true)
    ensures var r := Run(st, [StartMaterial(c)] + ks);
            && r.prefix == st.prefix
            && r.found
            && |r.material| > |st.material| && r.material[|st.material|] == c
  {
    var st' := Apply(st, StartMaterial(c));
    assert ([StartMaterial(c)] + ks)[1..] == ks;
    ApplyOk(st, StartMaterial(c));
    RunOk(st', ks);
    var r := Run(st', ks);
    assert r.material[|st.material|] == r.material[..|st'.material|][|st.material|];
  }

  /** At the first material the prefix is complete and the material list starts with that code. */
  lemma {:induction false} PrefixAtMaterial(tokens: seq<string>, m: nat, st: ParseState)
    requires m < |tokens| && LowerStr(tokens[m]) in MaterialCodes
    requires StateOk(st) && !st.found
    ensures var r := Run(st, Steps(tokens, m, false));
            && r.prefix == st.prefix
            && r.found
            && |r.material| > |st.material| && r.material[|st.material|] == LowerStr(tokens[m])
  {
    MaterialCodeIsPlain(tokens[m]);
    ClassifyOk(tokens, m, false);
    var ks := Steps(tokens, m, false);
    StepsAreOk(tokens, m, false);
    assert ks[0] == StartMaterial(LowerStr(tokens[m]));
    assert ks == [ks[0]] + ks[1..];
    RunFromMaterial(st, LowerStr(tokens[m]), ks[1..]);
  }

  /** Running the steps from `i` is running the step at `i`, then the steps after it. */
  lemma {:induction false} RunStepsTail(st: ParseState, tokens: seq<string>, i: nat, found: bool)
    requires i < |tokens|
    ensures var k := Classify(tokens, i, found);
            Run(st, Steps(tokens, i, found)) == Run(Apply(st, k), Steps(tokens, i + k.Advance(), found || k.StartMaterial?))
  {
    StepsTail(tokens, i, found);
  }

  /** A step that skips an MRP marker or keeps a prefix token extends the prefix by what it keeps. */
  lemma {:induction false} ApplyPrefixStep(st: ParseState, k: Step, t: string, w: seq<string>)
    requires StateOk(st) && !st.found
    requires k.SkipMrp? || (k.AddPrefix? && k.token == t)
    ensures var st' := Apply(st, k);
            && StateOk(st') && !st'.found && st'.material == st.material
            && st'.prefix + w == st.prefix + ((if k.AddPrefix? then [t] else []) + w)
  {
    ApplyOk(st, k);
  }

  /** One step before the first material, in terms of the state it leaves and the prefix still to come. */
  lemma {:induction false} PrefixFromStep(tokens: seq<string>, i: nat, m: nat, st: ParseState)
    requires i < m && FirstMaterialAt(tokens, i, m)
    requires StateOk(st) && !st.found
    ensures var k := Classify(tokens, i, false);
            var st' := Apply(st, k);
            && i + k.Advance() <= m
            && !k.StartMaterial?
            && Run(st, Steps(tokens, i, false)) == Run(st', Steps(tokens, i + k.Advance(), false))
            && StateOk(st') && !st'.found && st'.material == st.material
            && st'.prefix + WithoutMrp(tokens[..m], i + k.Advance()) == st.prefix + WithoutMrp(tokens[..m], i)
  {
    PrefixStepRun(tokens, i, m, st);
    PrefixStepState(tokens, i, m, st);
  }

  /** Before the first material a step never starts the material list, and the run goes on after it. */
  lemma PrefixStepRun(tokens: seq<string>, i: nat, m: nat, st: ParseState)
    requires i < m && FirstMaterialAt(tokens, i, m)
    ensures var k := Classify(tokens, i, false);
            && !k.StartMaterial?
            && Run(st, Steps(tokens, i, false)) == Run(Apply(st, k), Steps(tokens, i + k.Advance(), false))
  {
    PrefixStep(tokens, i, m);
    RunStepsTail(st, tokens, i, false);
  }

  /** Before the first material a step keeps the state invariant and moves what it keeps into the prefix. */
  lemma PrefixStepState(tokens: seq<string>, i: nat, m: nat, st: ParseState)
    requires i < m && FirstMaterialAt(tokens, i, m)
    requires StateOk(st) && !st.found
    ensures var k := Classify(tokens, i, false);
            var st' := Apply(st, k);
            && i + k.Advance() <= m
            && StateOk(st') && !st'.found && st'.material == st.material
            && st'.prefix + WithoutMrp(tokens[..m], i + k.Advance()) == st.prefix + WithoutMrp(tokens[..m], i)
  {
    var k := Classify(tokens, i, false);
    PrefixStep(tokens, i, m);
    ApplyPrefixStep(st, k, tokens[i], WithoutMrp(tokens[..m], i + k.Advance()));
  }

  lemma {:induction false} PrefixFrom(tokens: seq<string>, i: nat, m: nat, st: ParseState)
    requires FirstMaterialAt(tokens, i, m)
    requires StateOk(st) && !st.found
    ensures var r := Run(st, Steps(tokens, i, false));
            && r.prefix == st.prefix + WithoutMrp(tokens[..m], i)
            && (r.found <==> m < |tokens|)
    decreases |tokens| - i
  {
    if i == m {
      if m < |tokens| {
        PrefixAtMaterial(tokens, m, st);
      }
    } else {
      var k := Classify(tokens, i, false);
      PrefixFromStep(tokens, i, m, st);
      PrefixFrom(tokens, i + k.Advance(), m, Apply(st, k));
    }
  }

  /** The first material code found is the first material token, lower-cased. */
  lemma {:induction false} MaterialFrom(tokens: seq<string>, i: nat, m: nat, st: ParseState)
    requires m < |tokens| && FirstMaterialAt(tokens, i, m)
    requires StateOk(st) && !st.found
    ensures var r := Run(st, Steps(tokens, i, false));
            |r.material| > |st.material| && r.material[|st.material|] == LowerStr(tokens[m])
    decreases |tokens| - i
  {
    if i == m {
      PrefixAtMaterial(tokens, m, st);
    } else {
      var j, st' := MaterialStep(tokens, i, m, st);
      MaterialFrom(tokens, j, m, st');
    }
  }

  /** One step before the first material leaves the material list and the first material where they were. */
  lemma MaterialStep(tokens: seq<string>, i: nat, m: nat, st: ParseState) returns (j: nat, st': ParseState)
    requires i < m && FirstMaterialAt(tokens, i, m)
    requires StateOk(st) && !st.found
    ensures i < j && FirstMaterialAt(tokens, j, m)
    ensures Run(st, Steps(tokens, i, false)) == Run(st', Steps(tokens, j, false))
    ensures StateOk(st') && !st'.found && st'.material == st.material
  {
    var k := Classify(tokens, i, false);
    PrefixFromStep(tokens, i, m, st);
    j, st' := i + k.Advance(), Apply(st, k);
  }

  /**
    The prefix is the tokens before the first material code, as written,
    without MRP markers, joined with `_`; a material is found exactly when
    some token is a material code, and the first one found is the first material.
   */
  lemma {:induction false} PrefixBeforeMaterial(tokens: seq<string>)
    ensures var m := FirstMaterial(tokens, 0);
            var before := WithoutMrp(tokens[..m], 0);
            && ParseTokens(tokens).prefix == (if |before| > 0 then Some(Join(before, '_')) else None)
            && (|ParseTokens(tokens).material| > 0 <==> m < |tokens|)
            && (m < |tokens| ==> ParseTokens(tokens).material[0] == LowerStr(tokens[m]))
  {
    var m := FirstMaterial(tokens, 0);
    var st := Run(Initial, Steps(tokens, 0, false));
    PrefixFrom(tokens, 0, m, Initial);
    if m < |tokens| {
      MaterialFrom(tokens, 0, m, Initial);
    }
    assert st.prefix == WithoutMrp(tokens[..m], 0);
    StepsAreOk(tokens, 0, false);
    RunOk(Initial, Steps(tokens, 0, false));
    var r := ParseTokens(tokens);
    assert r.prefix == (if |st.prefix| > 0 then Some(Join(st.prefix, '_')) else None);
    assert r.material == st.material;
  }

  // ---------------------------------------------------------------------------
  // The free slots
  // ---------------------------------------------------------------------------

  /** The tokens that reached the free slots, in order. */
  function LeftoverTokens(ks: seq<Step>): seq<string>
    decreases |ks|
  {
    if |ks| == 0 then []
    else if ks[0].Leftover? then [ks[0].token] + LeftoverTokens(ks[1..])
    else LeftoverTokens(ks[1..])
  }

  /** The leftover tokens of a tokenised code. */
  function Leftovers(tokens: seq<string>): seq<string> {
    LeftoverTokens(Steps(tokens, 0, false))
  }

  /** One step of the loop: the classified step at `i`, followed by the steps from where it leaves off. */
  lemma {:induction false} StepsTail(tokens: seq<string>, i: nat, found: bool)
    requires i < |tokens|
    ensures var k := Classify(tokens, i, found);
            var ks := Steps(tokens, i, found);
            |ks| > 0 && ks[0] == k && ks[1..] == Steps(tokens, i + k.Advance(), found || k.StartMaterial?)
  {
  }

  /** `Steps` before the end, with the steps after the first one given by name. */
  lemma StepsPrepend(tokens: seq<string>, i: nat, found: bool, rest: seq<Step>)
    requires i < |tokens|
    requires var k := Classify(tokens, i, found);
             Steps(tokens, i + k.Advance(), found || k.StartMaterial?) == rest
    ensures Steps(tokens, i, found) == [Classify(tokens, i, found)] + rest
  {
  }

  /** A non-empty sequence is its head in front of its tail. */
  lemma HeadAndTail<T>(s: seq<T>, h: T, t: seq<T>)
    requires |s| > 0 && s[0] == h && s[1..] == t
    ensures s == [h] + t
  {
    assert s == [s[0]] + s[1..];
  }

  lemma {:induction false} LeftoversHead(ks: seq<Step>)
    requires |ks| > 0
    ensures LeftoverTokens(ks) == (if ks[0].Leftover? then [ks[0].token] else []) + LeftoverTokens(ks[1..])
  {
  }

  /** A leftover step carries its token lower-cased. */
  lemma {:induction false} ClassifyLeftover(tokens: seq<string>, i: nat, found: bool)
    requires i < |tokens|
    ensures Classify(tokens, i, found).Leftover? ==> Classify(tokens, i, found).token == LowerStr(tokens[i])
  {
    ClassifyOk(tokens, i, found);
  }

  /** Every token that reaches the free slots is of none of the recognised kinds. */
  lemma {:induction false} LeftoversOk(ks: seq<Step>, found: bool)
    requires StepsOk(ks, found)
    ensures forall j :: 0 <= j < |LeftoverTokens(ks)| ==> SlotOk(LeftoverTokens(ks)[j])
    decreases |ks|
  {
    if |ks| > 0 {
      LeftoversHead(ks);
      LeftoversOk(ks[1..], found || ks[0].StartMaterial?);
    }
  }

  /** Whether every entry of `vs` is a lower-cased token of `tokens` at index `lo` or later. */
  predicate FromTokens(vs: seq<string>, tokens: seq<string>, lo: nat) {
    forall j :: 0 <= j < |vs| ==> exists n :: lo <= n < |tokens| && vs[j] == LowerStr(tokens[n])
  }

  lemma {:induction false} FromTokensCons(head: seq<string>, vs: seq<string>, tokens: seq<string>, i: nat, lo: nat)
    requires i < lo && i < |tokens| && FromTokens(vs, tokens, lo)
    requires head == [] || head == [LowerStr(tokens[i])]
    ensures FromTokens(head + vs, tokens, i)
  {
    var ws := head + vs;
    forall j | 0 <= j < |ws| ensures exists n :: i <= n < |tokens| && ws[j] == LowerStr(tokens[n]) {
      if j < |head| {
        assert ws[j] == LowerStr(tokens[i]);
      } else {
        assert ws[j] == vs[j - |head|];
      }
    }
  }

  /** The leftovers from `i` on: the token at `i`, lower-cased, if it is one, then those after its step. */
  lemma {:induction false} LeftoversStep(tokens: seq<string>, i: nat, found: bool)
    requires i < |tokens|
    ensures var k := Classify(tokens, i, found);
            && LeftoverTokens(Steps(tokens, i, found))
               == (if k.Leftover? then [LowerStr(tokens[i])] else [])
                  + LeftoverTokens(Steps(tokens, i + k.Advance(), found || k.StartMaterial?))
  {
    StepsTail(tokens, i, found);
    ClassifyLeftover(tokens, i, found);
    LeftoversHead(Steps(tokens, i, found));
  }

  /** Every leftover is a lower-cased token of the code. */
  lemma {:induction false} LeftoversOrigin(tokens: seq<string>, i: nat, found: bool)
    requires i <= |tokens|
    ensures FromTokens(LeftoverTokens(Steps(tokens, i, found)), tokens, i)
    decreases |tokens| - i
  {
    if i < |tokens| {
      var k := Classify(tokens, i, found);
      var next := i + k.Advance();
      var found' := found || k.StartMaterial?;
      var head := if k.Leftover? then [LowerStr(tokens[i])] else [];
      var rest := LeftoverTokens(Steps(tokens, next, found'));
      LeftoversStep(tokens, i, found);
      assert LeftoverTokens(Steps(tokens, i, found)) == head + rest;
      LeftoversOrigin(tokens, next, found');
      FromTokensCons(head, rest, tokens, i, next);
    }
  }

  /** The slots after offering each of `vs` in turn. */
  function FoldSlots(s: Slots, vs: seq<string>): Slots
    decreases |vs|
  {
    if |vs| == 0 then s else FoldSlots(FillSlot(s, vs[0]), vs[1..])
  }

  /** Running the steps fills the slots exactly as offering the leftovers one by one does. */
  lemma {:induction false} SlotsFollowLeftovers(st: ParseState, ks: seq<Step>)
    ensures Run(st, ks).slots == FoldSlots(st.slots, LeftoverTokens(ks))
    decreases |ks|
  {
    if |ks| > 0 {
      SlotsFollowLeftovers(Apply(st, ks[0]), ks[1..]);
      if ks[0].Leftover? {
        var rest := LeftoverTokens(ks[1..]);
        assert ([ks[0].token] + rest)[1..] == rest;
      }
    }
  }

  /** The first of `vs` on the supplier allow-list. */
  function FirstSupplier(vs: seq<string>): (r: Option<string>)
    ensures r.Some? ==> r.value in vs && r.value in SupplierCodesLower
    ensures r.None? ==> forall j :: 0 <= j < |vs| ==> vs[j] !in SupplierCodesLower
    decreases |vs|
  {
    if |vs| == 0 then None
    else if vs[0] in SupplierCodesLower then Some(vs[0])
    else FirstSupplier(vs[1..])
  }

  /**
    Reference slot assignment for leftovers `vs`: the folder code is the
    first; the supplier is the first allow-listed one after it; the file
    token is the second, unless that one is a supplier code, then the third.
   */
  function SlotsOf(vs: seq<string>): Slots {
    if |vs| == 0 then NoSlots
    else
      var rest := vs[1..];
      var file :=
        if |rest| == 0 then None
        else if rest[0] !in SupplierCodesLower then Some(rest[0])
        else if |rest| >= 2 then Some(rest[1])
        else None;
      Slots(Some(vs[0]), FirstSupplier(rest), file)
  }

  predicate AllNonEmpty(vs: seq<string>) { forall j :: 0 <= j < |vs| ==> |vs[j]| > 0 }

  lemma {:induction false} FoldAllSet(f: string, sp: string, ft: string, vs: seq<string>)
    requires |f| > 0 && |sp| > 0 && |ft| > 0
    ensures FoldSlots(Slots(Some(f), Some(sp), Some(ft)), vs) == Slots(Some(f), Some(sp), Some(ft))
    decreases |vs|
  {
    if |vs| > 0 {
      FoldAllSet(f, sp, ft, vs[1..]);
    }
  }

  lemma {:induction false} FoldNoSupplier(f: string, ft: string, vs: seq<string>)
    requires |f| > 0 && |ft| > 0 && AllNonEmpty(vs)
    ensures FoldSlots(Slots(Some(f), None, Some(ft)), vs) == Slots(Some(f), FirstSupplier(vs), Some(ft))
    decreases |vs|
  {
    if |vs| > 0 {
      if vs[0] in SupplierCodesLower {
        FoldAllSet(f, vs[0], ft, vs[1..]);
      } else {
        FoldNoSupplier(f, ft, vs[1..]);
      }
    }
  }

  lemma {:induction false} FoldNoFile(f: string, sp: string, vs: seq<string>)
    requires |f| > 0 && |sp| > 0 && AllNonEmpty(vs)
    ensures FoldSlots(Slots(Some(f), Some(sp), None), vs)
         == Slots(Some(f), Some(sp), if |vs| == 0 then None else Some(vs[0]))
  {
    if |vs| > 0 {
      FoldAllSet(f, sp, vs[0], vs[1..]);
    }
  }

  /** Offering leftovers one by one fills the slots as `SlotsOf` describes. */
  lemma {:induction false} SlotRule(vs: seq<string>)
    requires AllNonEmpty(vs)
    ensures FoldSlots(NoSlots, vs) == SlotsOf(vs)
  {
    if |vs| > 0 {
      var f := vs[0];
      var rest := vs[1..];
      assert FoldSlots(NoSlots, vs) == FoldSlots(Slots(Some(f), None, None), rest);
      if |rest| > 0 {
        assert FoldSlots(Slots(Some(f), None, None), rest) == FoldSlots(FillSlot(Slots(Some(f), None, None), rest[0]), rest[1..]);
        if rest[0] in SupplierCodesLower {
          FoldNoFile(f, rest[0], rest[1..]);
        } else {
          FoldNoSupplier(f, rest[0], rest[1..]);
          assert FirstSupplier(rest) == FirstSupplier(rest[1..]);
        }
      }
    }
  }

  /**
    The free slots of a parsed code follow `SlotsOf` over its leftover
    tokens: folder code, then the first allow-listed supplier, then the
    first other token as file token.
   */
  lemma {:induction false} ParseSlots(code: string)
    ensures var r := ParseProductCode(code);
            Slots(r.folderCode, r.supplier, r.fileToken) == SlotsOf(Leftovers(NormalizeInput(code)))
  {
    var toks := NormalizeInput(code);
    var ks := Steps(toks, 0, false);
    SlotsFollowLeftovers(Initial, ks);
    var vs := Leftovers(toks);
    assert vs == LeftoverTokens(ks);
    LeftoversOrigin(toks, 0, false);
    forall j | 0 <= j < |vs| ensures |vs[j]| > 0 {
      var n :| 0 <= n < |toks| && vs[j] == LowerStr(toks[n]);
    }
    SlotRule(vs);
  }
}
