/**
  The first version's parser and matchers: a plainer searchable form, a
  size canonicaliser without apostrophe handling, a one-pass classifier
  whose slots take the first leftover as folder code, the second as
  supplier (no allow-list) and the last as file token, and substring-only
  colour and size tests. Its tokenizer is the same function as the second
  version's `NormalizeInput`.
 */
module LegacyParsing {
  import opened Wrappers
  import opened Strings
  import opened Vocabulary
  import opened Normalize
  import opened Parsing
  import opened Matching

  // ---------------------------------------------------------------------------
  // make_searchable
  // ---------------------------------------------------------------------------

  /** `[0-9A-Za-z_]` */
  predicate IsWordChar(c: char) { IsAlnum(c) || c == '_' }

  /** `[0-9a-z_]` */
  predicate IsLowerWordChar(c: char) { IsLowerAlnum(c) || c == '_' }

  /**
    `make_searchable`: every run of characters outside `[0-9A-Za-z_]`
    becomes one `_`, then the text is lower-cased. Existing underscores are
    kept as they are: nothing is trimmed or collapsed.
   */
  function LegacySearchable(name: string): (r: string)
    ensures |r| <= |name|
    ensures AllChars(r, IsLowerWordChar)
  {
    var replaced := ReplaceRuns(name, IsWordChar);
    ReplaceRunsChars(name, IsWordChar, false);
    assert forall i :: 0 <= i < |replaced| ==> IsWordChar(replaced[i]);
    var r := LowerStr(replaced);
    assert forall i :: 0 <= i < |r| ==> r[i] == Lower(replaced[i]) && IsLowerWordChar(r[i]);
    ReplaceRunsLength(name, IsWordChar, false);
    r
  }

  lemma {:induction false} ReplaceRunsLength(s: string, keep: char -> bool, inRun: bool)
    ensures |ReplaceRunsFrom(s, keep, inRun)| <= |s|
    decreases |s|
  {
    if |s| > 0 {
      ReplaceRunsLength(s[1..], keep, !keep(s[0]));
    }
  }

  /** A name already made of word characters only changes case: underscores at the ends or in pairs survive. */
  lemma {:induction false} LegacySearchableOfWord(name: string)
    requires AllChars(name, IsWordChar)
    ensures LegacySearchable(name) == LowerStr(name)
  {
    ReplaceRunsAllKept(name, IsWordChar, false);
  }

  lemma {:induction false} ReplaceRunsAllKept(s: string, keep: char -> bool, inRun: bool)
    requires AllChars(s, keep)
    ensures ReplaceRunsFrom(s, keep, inRun) == s
    decreases |s|
  {
    if |s| > 0 {
      ReplaceRunsAllKept(s[1..], keep, false);
    }
  }

  /** Where the two versions part: `_A` stays `_a` in the first, and loses its underscore in the second. */
  lemma SearchableVersionsDiffer()
    ensures LegacySearchable("_A") == "_a"
    ensures NormalizeToken("_A") == "a"
  {
    LegacySearchableOfWord("_A");
    assert LowerStr("_A") == "_a";
    var l := LowerStr("_A");
    assert ReplaceRuns(l, IsLowerAlnum) == "_a" by {
      assert ReplaceRunsFrom(l[1..], IsLowerAlnum, true) == "a" by {
        assert l[1..] == "a";
        assert ReplaceRunsFrom("a"[1..], IsLowerAlnum, false) == "";
      }
    }
    assert StripLeft("_a", '_') == "a" by { assert "_a"[1..] == "a"; }
  }

  // ---------------------------------------------------------------------------
  // normalize_size_token
  // ---------------------------------------------------------------------------

  /** The characters the first version's size canonicaliser turns into `_`: double quote, dot, space. */
  predicate IsLegacySizeSep(c: char) { c == '"' || c == '.' || c == ' ' }

  function MarkLegacySeps(s: string): (r: string)
    ensures |r| == |s|
    ensures forall i :: 0 <= i < |s| ==> r[i] == (if IsLegacySizeSep(s[i]) then '_' else s[i])
  {
    seq(|s|, i requires 0 <= i < |s| => if IsLegacySizeSep(s[i]) then '_' else s[i])
  }

  /**
    `normalize_size_token` of the first version: the empty string as is;
    otherwise quotes, dots and spaces become `_`, runs of `_` shrink to
    one, and the text is lower-cased.
   */
  function LegacySizeToken(s: string): (r: string)
    ensures |r| == 0 <==> |s| == 0
    ensures AllChars(r, c => !IsLegacySizeSep(c) && !IsUpperLetter(c))
    ensures NoDoubleUnderscore(r)
  {
    if |s| == 0 then s
    else
      var marked := MarkLegacySeps(s);
      CollapseNoDouble(marked);
      CollapseChars(marked, c => !IsLegacySizeSep(c) || c == '_');
      var collapsed := CollapseUnderscores(marked);
      var r := LowerStr(collapsed);
      assert forall i :: 0 <= i < |r| ==> r[i] == Lower(collapsed[i]);
      r
  }

  /**
    On sizes without apostrophes or typographic quotes the two versions'
    canonical size forms agree; the second version only adds those
    separators.
   */
  lemma SizeTokenVersionsAgree(s: string)
    requires forall i :: 0 <= i < |s| ==> (IsSizeSep(s[i]) <==> IsLegacySizeSep(s[i]))
    ensures LegacySizeToken(s) == NormalizeSizeToken(s)
  {
    if |s| > 0 {
      assert MarkLegacySeps(s) == MarkSizeSeps(s);
    }
  }

  /** An apostrophe is where they differ: the second version separates at it, the first keeps it. */
  lemma SizeTokenVersionsDiffer()
    ensures LegacySizeToken("5'") == "5'"
    ensures NormalizeSizeToken("5'") == "5_"
  {
    assert MarkLegacySeps("5'") == "5'";
    assert MarkSizeSeps("5'") == "5_";
    assert CollapseUnderscores("5'") == "5'";
    assert CollapseUnderscores("5_") == "5_";
    assert LowerStr("5'") == "5'";
    assert LowerStr("5_") == "5_";
  }

  // ---------------------------------------------------------------------------
  // parse_product_code
  // ---------------------------------------------------------------------------

  /** `re.search(r'\d+[fl]', t)`: a digit directly followed by `f` or `l` somewhere in `t`. */
  predicate HasSizeUnit(t: string) {
    exists i :: 0 < i < |t| && IsDigit(t[i - 1]) && (t[i] == 'f' || t[i] == 'l')
  }

  /** What a lower-cased token after the first material is taken for, in the order the parser tests. */
  datatype Kind = MaterialKind | ColorKind | SizeKind | LeftoverKind

  function KindTest(tl: string): Kind {
    if tl in MaterialCodes then MaterialKind
    else if tl in ColorCodes then ColorKind
    else if HasSizeUnit(tl) then SizeKind
    else LeftoverKind
  }

  /**
    Layers in front of `KindTest`, so that a proof about the parse loop
    sees the kind as a value and only unfolds its tests through `KindUnfold`.
   */
  function KindLayered(layers: nat, tl: string): Kind
    decreases layers
  {
    if layers == 0 then KindTest(tl) else KindLayered(layers - 1, tl)
  }

  /** The kind of a lower-cased token: `KindTest`, by `KindUnfold`. */
  function KindOf(tl: string): Kind {
    KindLayered(|tl| + 2, tl)
  }

  lemma {:induction false} KindLayersImmaterial(layers: nat, tl: string)
    ensures KindLayered(layers, tl) == KindTest(tl)
    decreases layers
  {
    if layers > 0 {
      KindLayersImmaterial(layers - 1, tl);
    }
  }

  lemma KindUnfold(tl: string)
    ensures KindOf(tl) == KindTest(tl)
  {
    KindLayersImmaterial(|tl| + 2, tl);
  }

  /** The kind is `MaterialKind` exactly for the material codes, the parser's first test. */
  lemma KindMaterial(tl: string)
    ensures KindOf(tl) == MaterialKind <==> tl in MaterialCodes
  {
    KindUnfold(tl);
  }

  /** The parser's state: whether a material was seen, and the fields filled so far. */
  datatype LegacyState = LegacyState(
    found: bool,
    prefix: seq<string>,
    material: seq<string>,
    color: seq<string>,
    size: seq<string>,
    folderCode: Option<string>,
    supplier: Option<string>,
    fileToken: Option<string>)

  const Start: LegacyState := LegacyState(false, [], [], [], [], None, None, None)

  /** One iteration of the loop over the tokens. */
  function Step(st: LegacyState, t: string): LegacyState {
    var tl := LowerStr(t);
    var kind := KindOf(tl);
    if !st.found && kind == MaterialKind then st.(found := true, material := st.material + [tl])
    else if !st.found then st.(prefix := st.prefix + [t])
    else
      match kind
      case MaterialKind => st.(material := st.material + [tl])
      case ColorKind => st.(color := st.color + [tl])
      case SizeKind => st.(size := st.size + [LegacySizeToken(tl)])
      case LeftoverKind =>
        if !Truthy(st.folderCode) then st.(folderCode := Some(tl))
        else if !Truthy(st.supplier) then st.(supplier := Some(tl))
        else st.(fileToken := Some(tl))
  }

  function Run(st: LegacyState, ts: seq<string>): LegacyState
    decreases |ts|
  {
    if |ts| == 0 then st else Run(Step(st, ts[0]), ts[1..])
  }

  /** The fields `parse_product_code` returns. */
  datatype LegacyParsed = LegacyParsed(
    prefix: Option<string>,
    material: seq<string>,
    color: seq<string>,
    size: seq<string>,
    supplier: Option<string>,
    folderCode: Option<string>,
    fileToken: Option<string>,
    tokens: seq<string>)

  /** `parse_product_code` of the first version. */
  function LegacyParse(code: string): (r: LegacyParsed)
    ensures r.tokens == NormalizeInput(code)
    ensures forall j :: 0 <= j < |r.material| ==> r.material[j] in MaterialCodes
    ensures forall j :: 0 <= j < |r.color| ==> r.color[j] in ColorCodes
  {
    LegacyFromTokens(NormalizeInput(code))
  }

  /** The loop of `parse_product_code` over the tokens `ts`, and the fields it returns. */
  function LegacyFromTokens(ts: seq<string>): (r: LegacyParsed)
    ensures r.tokens == ts
    ensures forall j :: 0 <= j < |r.material| ==> r.material[j] in MaterialCodes
    ensures forall j :: 0 <= j < |r.color| ==> r.color[j] in ColorCodes
  {
    var st := Run(Start, ts);
    RunKeepsVocabulary(Start, ts);
    LegacyParsed(if |st.prefix| > 0 then Some(Join(st.prefix, '_')) else None,
                 st.material, st.color, st.size, st.supplier, st.folderCode, st.fileToken, ts)
  }

  predicate VocabularyOk(st: LegacyState) {
    && (forall j :: 0 <= j < |st.material| ==> st.material[j] in MaterialCodes)
    && (forall j :: 0 <= j < |st.color| ==> st.color[j] in ColorCodes)
  }

  lemma {:induction false} RunKeepsVocabulary(st: LegacyState, ts: seq<string>)
    requires VocabularyOk(st)
    ensures VocabularyOk(Run(st, ts))
    decreases |ts|
  {
    if |ts| > 0 {
      KindUnfold(LowerStr(ts[0]));
      RunKeepsVocabulary(Step(st, ts[0]), ts[1..]);
    }
  }

  // Reference definition: the fields read off the token list directly.

  /** `[tl]` when the lower-cased token `t` is of kind `k`, else nothing. */
  function Pick1(t: string, k: Kind): seq<string> {
    if KindOf(LowerStr(t)) == k then [LowerStr(t)] else []
  }

  function PickBody(ts: seq<string>, k: Kind): (r: seq<string>)
    ensures |r| <= |ts|
    decreases |ts|, 0, 0
  {
    if |ts| == 0 then [] else Pick1(ts[0], k) + Pick(ts[1..], k)
  }

  /**
    Layers in front of `PickBody`, so that a proof which only carries picks
    along does not unfold them into concatenations; `PickUnfold` does.
   */
  function PickLayered(layers: nat, ts: seq<string>, k: Kind): (r: seq<string>)
    ensures |r| <= |ts|
    decreases |ts|, 1, layers
  {
    if layers == 0 then PickBody(ts, k) else PickLayered(layers - 1, ts, k)
  }

  /** The lower-cased tokens of kind `k`, in order. */
  function Pick(ts: seq<string>, k: Kind): (r: seq<string>)
    ensures |r| <= |ts|
    decreases |ts|, 2, 0
  {
    PickLayered(|ts| + 2, ts, k)
  }

  lemma {:induction false} PickLayersImmaterial(layers: nat, ts: seq<string>, k: Kind)
    ensures PickLayered(layers, ts, k) == PickBody(ts, k)
    decreases layers
  {
    if layers > 0 {
      PickLayersImmaterial(layers - 1, ts, k);
    }
  }

  lemma PickUnfold(ts: seq<string>, k: Kind)
    ensures Pick(ts, k) == if |ts| == 0 then [] else Pick1(ts[0], k) + Pick(ts[1..], k)
  {
    PickLayersImmaterial(|ts| + 2, ts, k);
  }

  function SizeForms(ts: seq<string>): (r: seq<string>)
    ensures |r| == |ts| && forall j :: 0 <= j < |ts| ==> r[j] == LegacySizeToken(ts[j])
  {
    seq(|ts|, j requires 0 <= j < |ts| => LegacySizeToken(ts[j]))
  }

  /** Of the leftovers: the first is the folder code, the second the supplier, the last of three or more the file token. */
  function FolderSlot(left: seq<string>): Option<string> {
    if |left| >= 1 then Some(left[0]) else None
  }

  function SupplierSlot(left: seq<string>): Option<string> {
    if |left| >= 2 then Some(left[1]) else None
  }

  function FileSlot(left: seq<string>): Option<string> {
    if |left| >= 3 then Some(left[|left| - 1]) else None
  }

  /**
    Reference definition of the parse, read off the tokens in one look:
    the tokens before the first material joined as the prefix; every later
    material, colour and size token in order; of the leftovers, the first is
    the folder code, the second the supplier and the last of three or more
    the file token. Without a material only the prefix is set.
   */
  function LegacyReference(ts: seq<string>): LegacyParsed {
    var m := FirstMaterial(ts, 0);
    var prefix := if m == 0 then None else Some(Join(ts[..m], '_'));
    if m == |ts| then LegacyParsed(prefix, [], [], [], None, None, None, ts)
    else
      var rest := ts[m + 1..];
      var left := Pick(rest, LeftoverKind);
      LegacyParsed(prefix, [LowerStr(ts[m])] + Pick(rest, MaterialKind), Pick(rest, ColorKind),
                   SizeForms(Pick(rest, SizeKind)),
                   SupplierSlot(left), FolderSlot(left), FileSlot(left),
                   ts)
  }

  /** The three slots as a function of all leftovers so far. */
  predicate SlotsFrom(st: LegacyState, left: seq<string>) {
    && st.folderCode == FolderSlot(left)
    && st.supplier == SupplierSlot(left)
    && st.fileToken == FileSlot(left)
  }

  predicate AllNonEmpty(ts: seq<string>) {
    forall j :: 0 <= j < |ts| ==> |ts[j]| > 0
  }

  /** After the first material a step only appends the token to the list its kind names. */
  lemma StepLists(st: LegacyState, t: string, next: LegacyState)
    requires st.found && next == Step(st, t)
    ensures next.found && next.prefix == st.prefix
    ensures next.material == st.material + Pick1(t, MaterialKind)
    ensures next.color == st.color + Pick1(t, ColorKind)
    ensures next.size == st.size + SizeForms(Pick1(t, SizeKind))
  {
    var tl := LowerStr(t);
    assert SizeForms([tl]) == [LegacySizeToken(tl)];
    assert SizeForms([]) == [];
  }

  /** After the first material a leftover fills the next slot, and the last slot keeps the latest. */
  lemma StepSlots(st: LegacyState, t: string, left: seq<string>, next: LegacyState)
    requires st.found && SlotsFrom(st, left) && AllNonEmpty(left) && |t| > 0 && next == Step(st, t)
    ensures SlotsFrom(next, left + Pick1(t, LeftoverKind))
    ensures AllNonEmpty(left + Pick1(t, LeftoverKind))
  {
    var tl := LowerStr(t);
    if KindOf(tl) == LeftoverKind {
      var l' := left + [tl];
      assert l'[|l'| - 1] == tl;
      assert |left| >= 1 ==> l'[0] == left[0];
      assert |left| >= 2 ==> l'[1] == left[1];
    } else {
      assert left + [] == left;
    }
  }

  /** One step after the first material, in terms of the token's kind. */
  lemma StepAfterMaterial(st: LegacyState, t: string, left: seq<string>)
    requires st.found && SlotsFrom(st, left) && AllNonEmpty(left) && |t| > 0
    ensures var next := Step(st, t);
      && next.found && next.prefix == st.prefix
      && next.material == st.material + Pick1(t, MaterialKind)
      && next.color == st.color + Pick1(t, ColorKind)
      && next.size == st.size + SizeForms(Pick1(t, SizeKind))
      && SlotsFrom(next, left + Pick1(t, LeftoverKind))
      && AllNonEmpty(left + Pick1(t, LeftoverKind))
  {
    StepLists(st, t, Step(st, t));
    StepSlots(st, t, left, Step(st, t));
  }

  lemma {:induction false} SizeFormsAppend(a: seq<string>, b: seq<string>)
    ensures SizeForms(a + b) == SizeForms(a) + SizeForms(b)
  {
  }

  /** `r` is `st` after the tokens `ts`, given the leftovers `left` seen before them. */
  predicate Landed(st: LegacyState, r: LegacyState, ts: seq<string>, left: seq<string>) {
    && r.found && r.prefix == st.prefix
    && r.material == st.material + Pick(ts, MaterialKind)
    && r.color == st.color + Pick(ts, ColorKind)
    && r.size == st.size + SizeForms(Pick(ts, SizeKind))
    && SlotsFrom(r, left + Pick(ts, LeftoverKind))
  }

  lemma PickCons(t: string, ts: seq<string>, k: Kind)
    ensures Pick([t] + ts, k) == Pick1(t, k) + Pick(ts, k)
  {
    PickUnfold([t] + ts, k);
    assert ([t] + ts)[1..] == ts;
  }

  /** `Pick` over `[t] + ts` and over `[t]` alone, for every kind. */
  lemma PickSplit(t: string, ts: seq<string>, k: Kind)
    ensures Pick([t], k) == Pick1(t, k)
    ensures Pick([t] + ts, k) == Pick1(t, k) + Pick(ts, k)
  {
    PickCons(t, [], k);
    assert [t] + [] == [t];
    assert Pick1(t, k) + [] == Pick1(t, k);
    PickCons(t, ts, k);
  }

  /** Landing after `[t]` and then after `ts` is landing after `[t] + ts`. */
  lemma LandedCons(st: LegacyState, next: LegacyState, r: LegacyState, t: string, ts: seq<string>, left: seq<string>)
    requires Landed(st, next, [t], left)
    requires Landed(next, r, ts, left + Pick1(t, LeftoverKind))
    ensures Landed(st, r, [t] + ts, left)
  {
    PickSplit(t, ts, MaterialKind);
    PickSplit(t, ts, ColorKind);
    PickSplit(t, ts, SizeKind);
    PickSplit(t, ts, LeftoverKind);
    Assoc(st.material, Pick1(t, MaterialKind), Pick(ts, MaterialKind));
    Assoc(st.color, Pick1(t, ColorKind), Pick(ts, ColorKind));
    SizeFormsAppend(Pick1(t, SizeKind), Pick(ts, SizeKind));
    Assoc(st.size, SizeForms(Pick1(t, SizeKind)), SizeForms(Pick(ts, SizeKind)));
    SlotsAssoc(r, left, Pick1(t, LeftoverKind), Pick(ts, LeftoverKind));
  }

  lemma Assoc(a: seq<string>, b: seq<string>, c: seq<string>)
    ensures a + b + c == a + (b + c)
  {
  }

  lemma SlotsAssoc(r: LegacyState, a: seq<string>, b: seq<string>, c: seq<string>)
    requires SlotsFrom(r, a + b + c)
    ensures SlotsFrom(r, a + (b + c))
  {
    assert a + b + c == a + (b + c);
  }

  /** No tokens: the state is where it was. */
  lemma LandedNothing(st: LegacyState, left: seq<string>)
    requires st.found && SlotsFrom(st, left)
    ensures Landed(st, st, [], left)
  {
    var none: seq<string> := [];
    PickUnfold(none, MaterialKind);
    PickUnfold(none, ColorKind);
    PickUnfold(none, SizeKind);
    PickUnfold(none, LeftoverKind);
    assert left + [] == left;
    assert st.material + [] == st.material;
    assert st.color + [] == st.color;
    assert st.size + SizeForms([]) == st.size;
  }

  /** One token after the first material lands where its kind says. */
  lemma LandedStep(st: LegacyState, t: string, left: seq<string>, next: LegacyState)
    requires st.found && SlotsFrom(st, left) && AllNonEmpty(left) && |t| > 0 && next == Step(st, t)
    ensures Landed(st, next, [t], left)
    ensures next.found && SlotsFrom(next, left + Pick1(t, LeftoverKind)) && AllNonEmpty(left + Pick1(t, LeftoverKind))
  {
    StepAfterMaterial(st, t, left);
    forall k: Kind ensures Pick([t], k) == Pick1(t, k) {
      PickSplit(t, [], k);
    }
  }

  /** After the first material each token lands where its kind says. */
  lemma {:induction false} RunAfterMaterial(st: LegacyState, ts: seq<string>, left: seq<string>)
    requires st.found && SlotsFrom(st, left) && AllNonEmpty(left) && AllNonEmpty(ts)
    ensures Landed(st, Run(st, ts), ts, left)
    decreases |ts|
  {
    if |ts| == 0 {
      LandedNothing(st, left);
    } else {
      var t, rest := ts[0], ts[1..];
      var next := Step(st, t);
      LandedStep(st, t, left, next);
      SuffixNonEmpty(ts, 1, rest);
      RunAfterMaterial(next, rest, left + Pick1(t, LeftoverKind));
      assert [t] + rest == ts;
      LandedCons(st, next, Run(st, ts), t, rest, left);
    }
  }

  /** Before the first material every token goes verbatim into the prefix. */
  lemma {:induction false} RunBeforeMaterial(st: LegacyState, ts: seq<string>, m: nat)
    requires !st.found && m <= |ts|
    requires forall j :: 0 <= j < m ==> LowerStr(ts[j]) !in MaterialCodes
    requires m < |ts| ==> LowerStr(ts[m]) in MaterialCodes
    ensures m == |ts| ==> Run(st, ts) == st.(prefix := st.prefix + ts)
    ensures m < |ts| ==> Run(st, ts) == Run(st.(prefix := st.prefix + ts[..m], found := true,
                                                   material := st.material + [LowerStr(ts[m])]), ts[m + 1..])
    decreases |ts|
  {
    if |ts| > 0 {
      KindMaterial(LowerStr(ts[0]));
    }
    if |ts| == 0 {
      assert st.prefix + ts == st.prefix;
    } else if m == 0 {
      assert ts[..0] == [];
      assert st.prefix + [] == st.prefix;
    } else {
      var next := Step(st, ts[0]);
      assert next == st.(prefix := st.prefix + [ts[0]]);
      RunBeforeMaterial(next, ts[1..], m - 1);
      if m < |ts| {
        assert ts[1..][..m - 1] == ts[1..m];
        assert st.prefix + [ts[0]] + ts[1..m] == st.prefix + ts[..m];
        assert ts[1..][m..] == ts[m + 1..];
      } else {
        assert st.prefix + [ts[0]] + ts[1..] == st.prefix + ts;
      }
    }
  }

  /** Without a material every token lands in the prefix and nothing else is set. */
  lemma RunWithoutMaterial(ts: seq<string>)
    requires FirstMaterial(ts, 0) == |ts|
    ensures Run(Start, ts) == Start.(prefix := ts)
  {
    RunBeforeMaterial(Start, ts, |ts|);
    assert Start.prefix + ts == ts;
  }

  /** The state right after the first material `tl`, with `p` the tokens before it. */
  function MaterialState(p: seq<string>, tl: string): LegacyState {
    LegacyState(true, p, [tl], [], [], None, None, None)
  }

  /** From the state after the first material, every later token lands where its kind says. */
  lemma RunFromMaterialState(p: seq<string>, tl: string, rest: seq<string>)
    requires AllNonEmpty(rest)
    ensures var r := Run(MaterialState(p, tl), rest);
      && r.prefix == p
      && r.material == [tl] + Pick(rest, MaterialKind)
      && r.color == Pick(rest, ColorKind)
      && r.size == SizeForms(Pick(rest, SizeKind))
      && SlotsFrom(r, Pick(rest, LeftoverKind))
  {
    RunAfterMaterial(MaterialState(p, tl), rest, []);
    assert [] + Pick(rest, LeftoverKind) == Pick(rest, LeftoverKind);
    assert [] + Pick(rest, ColorKind) == Pick(rest, ColorKind);
    assert [] + SizeForms(Pick(rest, SizeKind)) == SizeForms(Pick(rest, SizeKind));
  }

  /** With a material, the parse runs on from the state after it over the tokens after it. */
  lemma RunWithMaterial(ts: seq<string>, m: nat, rest: seq<string>, st: LegacyState)
    requires m == FirstMaterial(ts, 0) < |ts|
    requires rest == ts[m + 1..] && st == MaterialState(ts[..m], LowerStr(ts[m]))
    ensures Run(Start, ts) == Run(st, rest)
  {
    var tl := LowerStr(ts[m]);
    var st0 := Start.(prefix := Start.prefix + ts[..m], found := true, material := Start.material + [tl]);
    assert Run(Start, ts) == Run(st0, rest) by {
      RunBeforeMaterial(Start, ts, m);
    }
    assert st0 == st by {
      assert Start.prefix + ts[..m] == ts[..m];
      assert Start.material + [tl] == [tl];
    }
  }

  lemma ParseWithoutMaterial(ts: seq<string>, p: LegacyParsed, q: LegacyParsed)
    requires FirstMaterial(ts, 0) == |ts|
    requires p == LegacyFromTokens(ts) && q == LegacyReference(ts)
    ensures p == q
  {
    RunWithoutMaterial(ts);
    assert ts[..|ts|] == ts;
  }

  /** The parse's fields are the final state's. */
  lemma ParseFields(ts: seq<string>, p: LegacyParsed, r: LegacyState)
    requires p == LegacyFromTokens(ts) && r == Run(Start, ts)
    ensures p.prefix == (if |r.prefix| > 0 then Some(Join(r.prefix, '_')) else None)
    ensures p.material == r.material && p.color == r.color && p.size == r.size
    ensures p.supplier == r.supplier && p.folderCode == r.folderCode && p.fileToken == r.fileToken
    ensures p.tokens == ts
  {
  }

  /** The reference's fields when there is a material at `m`, in terms of the leftovers after it. */
  lemma ReferenceFields(ts: seq<string>, m: nat, rest: seq<string>, left: seq<string>, q: LegacyParsed)
    requires m == FirstMaterial(ts, 0) < |ts| && rest == ts[m + 1..]
    requires left == Pick(rest, LeftoverKind) && q == LegacyReference(ts)
    ensures q.prefix == (if m == 0 then None else Some(Join(ts[..m], '_')))
    ensures q.material == [LowerStr(ts[m])] + Pick(rest, MaterialKind)
    ensures q.color == Pick(rest, ColorKind) && q.size == SizeForms(Pick(rest, SizeKind))
    ensures q.folderCode == FolderSlot(left)
    ensures q.supplier == SupplierSlot(left)
    ensures q.fileToken == FileSlot(left)
    ensures q.tokens == ts
  {
  }

  lemma SuffixNonEmpty(ts: seq<string>, i: nat, rest: seq<string>)
    requires AllNonEmpty(ts) && i <= |ts| && rest == ts[i..]
    ensures AllNonEmpty(rest)
  {
    forall j | 0 <= j < |rest| ensures |rest[j]| > 0 { assert rest[j] == ts[i + j]; }
  }

  /**
    With a material at `m`, the final state holds the tokens before it as the
    prefix, that code and the later materials, the later colours and sizes,
    and the slots of the later leftovers.
   */
  lemma RunFieldsWithMaterial(ts: seq<string>, m: nat, rest: seq<string>, pre: seq<string>, tl: string, r: LegacyState)
    requires AllNonEmpty(ts) && m == FirstMaterial(ts, 0) < |ts|
    requires rest == ts[m + 1..] && pre == ts[..m] && tl == LowerStr(ts[m]) && r == Run(Start, ts)
    ensures r.prefix == pre && r.material == [tl] + Pick(rest, MaterialKind)
    ensures r.color == Pick(rest, ColorKind) && r.size == SizeForms(Pick(rest, SizeKind))
    ensures SlotsFrom(r, Pick(rest, LeftoverKind))
  {
    SuffixNonEmpty(ts, m + 1, rest);
    RunWithMaterial(ts, m, rest, MaterialState(pre, tl));
    RunFromMaterialState(pre, tl, rest);
  }

  lemma ParseWithMaterial(ts: seq<string>, p: LegacyParsed, q: LegacyParsed)
    requires AllNonEmpty(ts) && FirstMaterial(ts, 0) < |ts|
    requires p == LegacyFromTokens(ts) && q == LegacyReference(ts)
    ensures p == q
  {
    var m := FirstMaterial(ts, 0);
    var rest, pre := ts[m + 1..], ts[..m];
    var r := Run(Start, ts);
    RunFieldsWithMaterial(ts, m, rest, pre, LowerStr(ts[m]), r);
    ParseFields(ts, p, r);
    ReferenceFields(ts, m, rest, Pick(rest, LeftoverKind), q);
  }

  /** The one-pass parser computes the reference parse of its tokens. */
  lemma LegacyParseMeaning(code: string)
    ensures LegacyParse(code) == LegacyReference(NormalizeInput(code))
  {
    var ts := NormalizeInput(code);
    if FirstMaterial(ts, 0) == |ts| {
      ParseWithoutMaterial(ts, LegacyFromTokens(ts), LegacyReference(ts));
    } else {
      assert AllNonEmpty(ts);
      ParseWithMaterial(ts, LegacyFromTokens(ts), LegacyReference(ts));
    }
  }

  // ---------------------------------------------------------------------------
  // color_matches and matches_size
  // ---------------------------------------------------------------------------

  /**
    `color_matches` of the first version: the colours are used as given,
    tried as a whole segment and then as a plain substring.
   */
  function LegacyColorMatches(searchable: string, colors: seq<string>): (r: bool)
    ensures r <==> exists k :: 0 <= k < |colors| && Contains(searchable, colors[k])
    decreases |colors|
  {
    if |colors| == 0 then false
    else
      SegmentImpliesContains(searchable, colors[0]);
      var rest := LegacyColorMatches(searchable, colors[1..]);
      assert forall k :: 0 <= k < |colors[1..]| ==> colors[1..][k] == colors[k + 1];
      if HasSegment(searchable, colors[0]) then true
      else if Contains(searchable, colors[0]) then true
      else rest
  }

  /** The three forms a size is looked for in: lower-cased, without `_`, and without trailing `f`s then `l`s. */
  function LegacySizeForms(sz: string): (r: seq<string>)
    ensures |r| == 3
  {
    var v1 := LowerStr(sz);
    [v1, RemoveChar(v1, '_'), StripRight(StripRight(v1, 'f'), 'l')]
  }

  /** `matches_size` of the first version: some non-empty form of some size occurs. */
  function LegacyMatchesSize(searchable: string, sizes: seq<string>): (r: bool)
    ensures r <==> exists k, j :: 0 <= k < |sizes| && 0 <= j < 3 &&
                     |LegacySizeForms(sizes[k])[j]| > 0 && Contains(searchable, LegacySizeForms(sizes[k])[j])
    decreases |sizes|
  {
    if |sizes| == 0 then false
    else
      var vs := LegacySizeForms(sizes[0]);
      var rest := LegacyMatchesSize(searchable, sizes[1..]);
      assert forall k :: 0 <= k < |sizes[1..]| ==> sizes[1..][k] == sizes[k + 1];
      if exists j :: 0 <= j < 3 && |vs[j]| > 0 && Contains(searchable, vs[j]) then true
      else rest
  }

  /** No sizes match nothing in the first version, where the second version's `matches_size` accepts everything. */
  lemma NoSizesVersionsDiffer(searchable: string)
    ensures !LegacyMatchesSize(searchable, [])
    ensures MatchesSize(searchable, [])
  {
  }
}
