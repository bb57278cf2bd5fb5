/**
  The match predicates and the weighted scorer: how well a searchable file
  name (already put through `normalize_token`) fits a parsed code or a
  questionnaire selection.
 */
module Matching {
  import opened Wrappers
  import opened Strings
  import opened Normalize
  import opened Parsing

  // ---------------------------------------------------------------------------
  // score_supplier_selected_path
  // ---------------------------------------------------------------------------

  /**
    `score_supplier_selected_path`, with the path given as its separator-split
    segments (`str.split` always yields at least one): +3 when the supplier
    code is a whole `_`-segment of the normalised last segment, +4 when that
    contains `selected`, +1 when it contains `item`, plus
    `max(0, 3 - segments % 3)`.
   */
  function ScoreSupplierSelectedPath(path: seq<string>, supplierCode: Option<string>): (r: int)
    requires |path| > 0
    ensures 1 <= r <= 11
    ensures SupplierSegment(path, supplierCode) ==> r >= 4
    ensures Contains(NormalizeToken(path[|path| - 1]), "selected") ==> r >= 5
  {
    FeaturesUnfold(path, supplierCode, "selected");
    Bonus(SupplierSegment(path, supplierCode), 3) + Bonus(NameHas(path, "selected"), 4)
      + Bonus(NameHas(path, "item"), 1) + DepthBonus(|path|)
  }

  /** The supplier code, normalised and non-empty, is a whole segment of the normalised last path segment. */
  predicate SupplierSegmentTest(path: seq<string>, supplierCode: Option<string>)
    requires |path| > 0
  {
    var sc := NormalizeToken(supplierCode.GetOr(""));
    |sc| > 0 && HasSegment(NormalizeToken(path[|path| - 1]), sc)
  }

  /** The normalised last segment contains `word`. */
  predicate NameHasTest(path: seq<string>, word: string)
    requires |path| > 0
  {
    Contains(NormalizeToken(path[|path| - 1]), word)
  }

  /*
    The two features of a path behind layers, so that a proof about the
    score weighs them as truth values and unfolds the text tests only
    through `FeaturesUnfold`.
   */

  predicate SupplierSegmentLayered(layers: nat, path: seq<string>, supplierCode: Option<string>)
    requires |path| > 0
    decreases layers
  {
    if layers == 0 then SupplierSegmentTest(path, supplierCode)
    else SupplierSegmentLayered(layers - 1, path, supplierCode)
  }

  predicate NameHasLayered(layers: nat, path: seq<string>, word: string)
    requires |path| > 0
    decreases layers
  {
    if layers == 0 then NameHasTest(path, word) else NameHasLayered(layers - 1, path, word)
  }

  /** `SupplierSegmentTest`, by `FeaturesUnfold`. */
  predicate SupplierSegment(path: seq<string>, supplierCode: Option<string>)
    requires |path| > 0
  {
    SupplierSegmentLayered(|path| + 2, path, supplierCode)
  }

  /** `NameHasTest`, by `FeaturesUnfold`. */
  predicate NameHas(path: seq<string>, word: string)
    requires |path| > 0
  {
    NameHasLayered(|path| + 2, path, word)
  }

  lemma {:induction false} SupplierLayersImmaterial(layers: nat, path: seq<string>, supplierCode: Option<string>)
    requires |path| > 0
    ensures SupplierSegmentLayered(layers, path, supplierCode) == SupplierSegmentTest(path, supplierCode)
    decreases layers
  {
    if layers > 0 {
      SupplierLayersImmaterial(layers - 1, path, supplierCode);
    }
  }

  lemma {:induction false} NameLayersImmaterial(layers: nat, path: seq<string>, word: string)
    requires |path| > 0
    ensures NameHasLayered(layers, path, word) == NameHasTest(path, word)
    decreases layers
  {
    if layers > 0 {
      NameLayersImmaterial(layers - 1, path, word);
    }
  }

  lemma FeaturesUnfold(path: seq<string>, supplierCode: Option<string>, word: string)
    requires |path| > 0
    ensures SupplierSegment(path, supplierCode) == SupplierSegmentTest(path, supplierCode)
    ensures NameHas(path, word) == NameHasTest(path, word)
  {
    SupplierLayersImmaterial(|path| + 2, path, supplierCode);
    NameLayersImmaterial(|path| + 2, path, word);
  }

  /** `w` points when the feature is present, none otherwise. */
  function Bonus(present: bool, w: nat): int {
    if present then w else 0
  }

  /** The depth term `max(0, 3 - n % 3)`: the clamp never bites, the term is 1, 2 or 3. */
  function DepthBonus(n: nat): (r: int)
    ensures 1 <= r <= 3
    ensures r == 3 <==> n % 3 == 0
  {
    var d := 3 - n % 3;
    if d > 0 then d else 0
  }

  /**
    The supplier score is the sum of its parts: 3 for the supplier segment,
    4 for `selected`, 1 for `item`, each counted once, plus the depth term.
   */
  lemma ScoreParts(path: seq<string>, supplierCode: Option<string>)
    requires |path| > 0
    ensures ScoreSupplierSelectedPath(path, supplierCode)
         == Bonus(SupplierSegment(path, supplierCode), 3) + Bonus(NameHas(path, "selected"), 4)
          + Bonus(NameHas(path, "item"), 1) + DepthBonus(|path|)
  {
  }

  /**
    Only the last segment and the depth modulo 3 matter: two paths ending in
    the same name whose lengths agree modulo 3 score alike, so a folder three
    levels deeper scores as its ancestor would with that name.
   */
  lemma ScoreDependsOnNameAndDepth(p: seq<string>, q: seq<string>, supplierCode: Option<string>)
    requires |p| > 0 && |q| > 0
    requires p[|p| - 1] == q[|q| - 1] && |p| % 3 == |q| % 3
    ensures ScoreSupplierSelectedPath(p, supplierCode) == ScoreSupplierSelectedPath(q, supplierCode)
  {
    FeaturesOfLast(p, q, supplierCode, "selected");
    FeaturesOfLast(p, q, supplierCode, "item");
    DepthBonusMod(|p|, |q|);
    ScoreParts(p, supplierCode);
    ScoreParts(q, supplierCode);
  }

  /** Both features read the last segment only. */
  lemma FeaturesOfLast(p: seq<string>, q: seq<string>, supplierCode: Option<string>, word: string)
    requires |p| > 0 && |q| > 0 && p[|p| - 1] == q[|q| - 1]
    ensures SupplierSegment(p, supplierCode) == SupplierSegment(q, supplierCode)
    ensures NameHas(p, word) == NameHas(q, word)
  {
    FeaturesUnfold(p, supplierCode, word);
    FeaturesUnfold(q, supplierCode, word);
  }

  lemma DepthBonusMod(a: nat, b: nat)
    requires a % 3 == b % 3
    ensures DepthBonus(a) == DepthBonus(b)
  {
  }

  /**
    At equal depth, a name with the supplier segment outscores one without it
    by 3, and a `selected` name one without it by 4, when the names agree on
    the other two features.
   */
  lemma ScoreFeatureWeights(p: seq<string>, q: seq<string>, supplierCode: Option<string>)
    requires |p| > 0 && |q| > 0 && |p| % 3 == |q| % 3
    requires NameHas(p, "item") == NameHas(q, "item")
    ensures SupplierSegment(p, supplierCode) && !SupplierSegment(q, supplierCode)
            && NameHas(p, "selected") == NameHas(q, "selected") ==>
              ScoreSupplierSelectedPath(p, supplierCode) == ScoreSupplierSelectedPath(q, supplierCode) + 3
    ensures NameHas(p, "selected") && !NameHas(q, "selected")
            && SupplierSegment(p, supplierCode) == SupplierSegment(q, supplierCode) ==>
              ScoreSupplierSelectedPath(p, supplierCode) == ScoreSupplierSelectedPath(q, supplierCode) + 4
  {
    DepthBonusMod(|p|, |q|);
    ScoreParts(p, supplierCode);
    ScoreParts(q, supplierCode);
    BonusDifference(SupplierSegment(p, supplierCode), SupplierSegment(q, supplierCode),
                    NameHas(p, "selected"), NameHas(q, "selected"), NameHas(p, "item"),
                    DepthBonus(|p|), ScoreSupplierSelectedPath(p, supplierCode), ScoreSupplierSelectedPath(q, supplierCode));
  }

  lemma BonusDifference(sp: bool, sq: bool, lp: bool, lq: bool, item: bool, depth: int, a: int, b: int)
    requires a == Bonus(sp, 3) + Bonus(lp, 4) + Bonus(item, 1) + depth
    requires b == Bonus(sq, 3) + Bonus(lq, 4) + Bonus(item, 1) + depth
    ensures sp && !sq && lp == lq ==> a == b + 3
    ensures lp && !lq && sp == sq ==> a == b + 4
  {
  }

  // ---------------------------------------------------------------------------
  // Field predicates
  // ---------------------------------------------------------------------------

  /** Some code of `codes`, normalised, occurs in `searchable`. */
  predicate SomeContained(searchable: string, codes: seq<string>) {
    exists k :: 0 <= k < |codes| && CodeHit(searchable, codes[k])
  }

  /** The code, normalised, occurs in `searchable`. */
  predicate CodeHit(searchable: string, code: string) {
    Contains(searchable, NormalizeToken(code))
  }

  lemma SomeContainedCons(searchable: string, codes: seq<string>)
    requires |codes| > 0
    ensures SomeContained(searchable, codes) <==> CodeHit(searchable, codes[0]) || SomeContained(searchable, codes[1..])
  {
    if SomeContained(searchable, codes) {
      var k :| 0 <= k < |codes| && CodeHit(searchable, codes[k]);
      if k > 0 {
        assert codes[1..][k - 1] == codes[k];
      }
    }
    if SomeContained(searchable, codes[1..]) {
      var k :| 0 <= k < |codes[1..]| && CodeHit(searchable, codes[1..][k]);
      assert codes[k + 1] == codes[1..][k];
    }
  }

  /**
    `color_matches`: the colours in order, each normalised, tried first as a
    whole segment and then as a plain substring.
   */
  function ColorMatches(searchable: string, colors: seq<string>): (r: bool)
    ensures r <==> SomeContained(searchable, colors)
    decreases |colors|
  {
    if |colors| == 0 then false
    else
      var c := NormalizeToken(colors[0]);
      SegmentImpliesContains(searchable, c);
      SomeContainedCons(searchable, colors);
      var rest := ColorMatches(searchable, colors[1..]);
      if HasSegment(searchable, c) then true
      else if Contains(searchable, c) then true
      else rest
  }

  /** The size loop: does some generated variant of some size token occur? */
  function AnySizeVariant(searchable: string, sizes: seq<string>): (r: bool)
    ensures r <==> exists k, v :: 0 <= k < |sizes| && v in SizeVariants(sizes[k]) && Contains(searchable, v)
    decreases |sizes|
  {
    if |sizes| == 0 then false
    else
      var rest := AnySizeVariant(searchable, sizes[1..]);
      assert forall k :: 0 <= k < |sizes[1..]| ==> sizes[1..][k] == sizes[k + 1];
      if exists v :: v in SizeVariants(sizes[0]) && |v| > 0 && Contains(searchable, v) then true
      else rest
  }

  /** `matches_size`: vacuously true for no sizes. */
  function MatchesSize(searchable: string, sizes: seq<string>): (r: bool)
    ensures |sizes| == 0 ==> r
    ensures |sizes| > 0 ==> (r <==> exists k, v :: 0 <= k < |sizes| && v in SizeVariants(sizes[k]) && Contains(searchable, v))
  {
    |sizes| == 0 || AnySizeVariant(searchable, sizes)
  }

  /**
    `file_token_match`: true without a token or when the token normalises
    to nothing; otherwise the normalised token must occur.
   */
  function FileTokenMatch(searchable: string, fileToken: Option<string>): (r: bool)
    ensures r <==> !Truthy(fileToken) || Contains(searchable, NormalizeToken(fileToken.value))
  {
    if !Truthy(fileToken) then true
    else
      var n := NormalizeToken(fileToken.value);
      assert |n| == 0 ==> OccursAt(searchable, n, 0);
      if |n| == 0 then true else Contains(searchable, n)
  }

  /** Some code of `codes` normalises to something non-empty that occurs in `searchable`. */
  predicate SomeDesign(searchable: string, codes: seq<string>) {
    exists k :: 0 <= k < |codes| && DesignHit(searchable, codes[k])
  }

  /** The design code normalises to something non-empty that occurs in `searchable`. */
  predicate DesignHit(searchable: string, code: string) {
    var d := NormalizeToken(code);
    |d| > 0 && Contains(searchable, d)
  }

  lemma SomeDesignCons(searchable: string, codes: seq<string>)
    requires |codes| > 0
    ensures SomeDesign(searchable, codes) <==> DesignHit(searchable, codes[0]) || SomeDesign(searchable, codes[1..])
  {
    if SomeDesign(searchable, codes) {
      var k :| 0 <= k < |codes| && DesignHit(searchable, codes[k]);
      if k > 0 {
        assert codes[1..][k - 1] == codes[k];
      }
    }
    if SomeDesign(searchable, codes[1..]) {
      var k :| 0 <= k < |codes[1..]| && DesignHit(searchable, codes[1..][k]);
      assert codes[k + 1] == codes[1..][k];
    }
  }

  /** The design loop: codes that normalise to nothing are skipped. */
  function AnyDesign(searchable: string, codes: seq<string>): (r: bool)
    ensures r <==> SomeDesign(searchable, codes)
    decreases |codes|
  {
    if |codes| == 0 then false
    else
      var d := NormalizeToken(codes[0]);
      SegmentImpliesContains(searchable, d);
      SomeDesignCons(searchable, codes);
      var rest := AnyDesign(searchable, codes[1..]);
      if |d| == 0 then rest
      else if HasSegment(searchable, d) then true
      else if Contains(searchable, d) then true
      else rest
  }

  /** `design_matches`: vacuously true for no codes. */
  function DesignMatches(searchable: string, codes: seq<string>): (r: bool)
    ensures |codes| == 0 ==> r
    ensures |codes| > 0 ==> (r <==> SomeDesign(searchable, codes))
  {
    |codes| == 0 || AnyDesign(searchable, codes)
  }

  /** `any(normalize_token(m) in searchable for m in codes)` */
  function AnyContains(searchable: string, codes: seq<string>): (r: bool)
    ensures r <==> SomeContained(searchable, codes)
    decreases |codes|
  {
    if |codes| == 0 then false
    else
      SomeContainedCons(searchable, codes);
      Contains(searchable, NormalizeToken(codes[0])) || AnyContains(searchable, codes[1..])
  }

  /** `[normalize_token(c) for c in codes]` */
  function NormalizeAll(codes: seq<string>): (r: seq<string>)
    ensures |r| == |codes|
    ensures forall k :: 0 <= k < |codes| ==> r[k] == NormalizeToken(codes[k])
  {
    seq(|codes|, k requires 0 <= k < |codes| => NormalizeToken(codes[k]))
  }

  /**
    A code that normalises to nothing is treated oppositely by the two
    segment tests: as a colour it matches everything (the empty string is a
    substring of any text), as a design it is skipped, so a list of only
    such codes never matches.
   */
  lemma BlankColorVersusDesign(searchable: string, c: string)
    requires |NormalizeToken(c)| == 0
    ensures ColorMatches(searchable, [c])
    ensures !DesignMatches(searchable, [c])
  {
    assert OccursAt(searchable, NormalizeToken(c), 0);
  }

  // ---------------------------------------------------------------------------
  // compute_match_score
  // ---------------------------------------------------------------------------

  /** The query side of `compute_match_score`. */
  datatype Query = Query(
    material: seq<string>,
    color: seq<string>,
    size: seq<string>,
    designs: seq<string>,
    fileToken: Option<string>)

  datatype MatchScore = MatchScore(score: int, missing: seq<string>)

  /** The field names in the order the scorer checks them. */
  const FieldNames: seq<string> := ["material", "color", "size", "design", "file_token"]

  /** The points a field is worth. */
  function FieldWeight(name: string): nat {
    if name == "design" then 2
    else if name in ["material", "color", "size", "file_token"] then 3
    else 0
  }

  /** One field of the query: whether it was given and whether the searchable text satisfies it. */
  datatype Check = Check(name: string, provided: bool, holds: bool)

  /** Whether the query gives field `k` (in `FieldNames` order). */
  predicate Provided(q: Query, k: nat) {
    if k == 0 then |q.material| > 0
    else if k == 1 then |q.color| > 0
    else if k == 2 then |q.size| > 0
    else if k == 3 then |q.designs| > 0
    else if k == 4 then Truthy(q.fileToken)
    else false
  }

  /** Whether the searchable text satisfies field `k` of the query, by that field's test. */
  predicate Holds(searchable: string, q: Query, k: nat) {
    if k == 0 then AnyContains(searchable, q.material)
    else if k == 1 then ColorMatches(searchable, NormalizeAll(q.color))
    else if k == 2 then AnySizeVariant(searchable, q.size)
    else if k == 3 then DesignMatches(searchable, q.designs)
    else if k == 4 then FileTokenMatch(searchable, q.fileToken)
    else false
  }

  /** The five checks of a query against a searchable string, in scoring order. */
  function Checks(searchable: string, q: Query): (cs: seq<Check>)
    ensures |cs| == 5
    ensures forall k :: 0 <= k < 5 ==> cs[k] == Check(FieldNames[k], Provided(q, k), Holds(searchable, q, k))
  {
    seq(5, k requires 0 <= k < 5 => Check(FieldNames[k], Provided(q, k), Holds(searchable, q, k)))
  }

  function SumWeights(names: seq<string>): nat
    decreases |names|
  {
    if |names| == 0 then 0 else FieldWeight(names[0]) + SumWeights(names[1..])
  }

  /** The total weight of the checks that were provided. */
  function ProvidedWeight(cs: seq<Check>): nat
    decreases |cs|
  {
    if |cs| == 0 then 0
    else (if cs[0].provided then FieldWeight(cs[0].name) else 0) + ProvidedWeight(cs[1..])
  }

  /** `a` is `b` with some elements left out, order kept. */
  predicate IsSubsequence<T(==)>(a: seq<T>, b: seq<T>)
    decreases |b|
  {
    if |a| == 0 then true
    else if |b| == 0 then false
    else if a[0] == b[0] then IsSubsequence(a[1..], b[1..])
    else IsSubsequence(a, b[1..])
  }

  function Names(cs: seq<Check>): (r: seq<string>)
    ensures |r| == |cs| && forall k :: 0 <= k < |cs| ==> r[k] == cs[k].name
  {
    seq(|cs|, k requires 0 <= k < |cs| => cs[k].name)
  }

  /**
    The scoring pass over the checks in order: a provided check adds its
    weight when it holds and its name to `missing` when it does not.
   */
  function Tally(cs: seq<Check>): (r: MatchScore)
    ensures r.score + SumWeights(r.missing) == ProvidedWeight(cs)
    ensures 0 <= r.score
    ensures forall n :: n in r.missing <==> exists k :: 0 <= k < |cs| && cs[k].name == n && cs[k].provided && !cs[k].holds
    ensures IsSubsequence(r.missing, Names(cs))
    decreases |cs|
  {
    if |cs| == 0 then MatchScore(0, [])
    else
      var rest := Tally(cs[1..]);
      var c := cs[0];
      assert forall k :: 0 <= k < |cs[1..]| ==> cs[1..][k] == cs[k + 1];
      assert Names(cs)[1..] == Names(cs[1..]);
      if !c.provided then
        SubsequenceSkip(rest.missing, Names(cs));
        rest
      else if c.holds then
        SubsequenceSkip(rest.missing, Names(cs));
        MatchScore(rest.score + FieldWeight(c.name), rest.missing)
      else
        assert ([c.name] + rest.missing)[1..] == rest.missing;
        MatchScore(rest.score, [c.name] + rest.missing)
  }

  /** Dropping the head of `b` keeps every subsequence of its tail a subsequence. */
  lemma {:induction false} SubsequenceSkip<T>(a: seq<T>, b: seq<T>)
    requires |b| > 0 && IsSubsequence(a, b[1..])
    ensures IsSubsequence(a, b)
    decreases |b|, 0
  {
    if |a| > 0 && a[0] == b[0] {
      SubsequenceTail(a, b[1..]);
    }
  }

  /** Dropping the head of `a` keeps a subsequence a subsequence. */
  lemma {:induction false} SubsequenceTail<T>(a: seq<T>, b: seq<T>)
    requires |a| > 0 && IsSubsequence(a, b)
    ensures IsSubsequence(a[1..], b)
    decreases |b|, 1
  {
    if a[0] != b[0] {
      SubsequenceTail(a, b[1..]);
    }
    SubsequenceSkip(a[1..], b);
  }

  /** `compute_match_score`: the score and the names of the provided fields that are missing. */
  function ComputeMatchScore(searchable: string, q: Query): (r: MatchScore)
    ensures 0 <= r.score <= 14
    ensures r.score + SumWeights(r.missing) == QueryWeight(q)
    ensures IsSubsequence(r.missing, FieldNames)
    ensures forall k :: 0 <= k < 5 ==> (FieldNames[k] in r.missing <==> Provided(q, k) && !Holds(searchable, q, k))
    ensures |r.missing| == 0 <==> forall k :: 0 <= k < 5 && Provided(q, k) ==> Holds(searchable, q, k)
    ensures Distinct(r.missing)
    ensures r.score == QueryWeight(q) <==> |r.missing| == 0
  {
    var r := Tally(Checks(searchable, q));
    TallyOfChecks(searchable, q);
    FieldNamesDistinct();
    SubsequenceDistinct(r.missing, FieldNames);
    MissingWeighs(r.missing, FieldNames);
    r
  }

  predicate Distinct(xs: seq<string>) {
    forall i, j :: 0 <= i < j < |xs| ==> xs[i] != xs[j]
  }

  /** Every element of a subsequence is an element of the whole. */
  lemma {:induction false} SubsequenceElements(a: seq<string>, b: seq<string>)
    requires IsSubsequence(a, b)
    ensures forall x :: x in a ==> x in b
    decreases |b|
  {
    if |a| > 0 {
      if a[0] == b[0] {
        SubsequenceElements(a[1..], b[1..]);
        assert forall x :: x in a ==> x == a[0] || x in a[1..];
      } else {
        SubsequenceElements(a, b[1..]);
      }
    }
  }

  /** A subsequence of a list without repetitions has none either. */
  lemma {:induction false} SubsequenceDistinct(a: seq<string>, b: seq<string>)
    requires IsSubsequence(a, b) && Distinct(b)
    ensures Distinct(a)
    decreases |b|
  {
    if |a| > 0 {
      if a[0] == b[0] {
        SubsequenceDistinct(a[1..], b[1..]);
        SubsequenceElements(a[1..], b[1..]);
        assert a[0] !in b[1..];
        forall i, j | 0 <= i < j < |a| ensures a[i] != a[j] {
          if i == 0 {
            assert a[j] == a[1..][j - 1];
          } else {
            assert a[i] == a[1..][i - 1] && a[j] == a[1..][j - 1];
          }
        }
      } else {
        assert Distinct(b[1..]) by {
          forall i, j | 0 <= i < j < |b[1..]| ensures b[1..][i] != b[1..][j] {
            assert b[1..][i] == b[i + 1] && b[1..][j] == b[j + 1];
          }
        }
        SubsequenceDistinct(a, b[1..]);
      }
    }
  }

  /** Missing field names weigh something, so nothing is missing exactly when they weigh nothing. */
  lemma {:induction false} MissingWeighs(a: seq<string>, b: seq<string>)
    requires IsSubsequence(a, b) && b == FieldNames
    ensures SumWeights(a) == 0 <==> |a| == 0
  {
    if |a| > 0 {
      SubsequenceElements(a, b);
      assert a[0] in FieldNames;
      assert FieldWeight(a[0]) > 0;
    }
  }

  /**
    Scoring is monotone: when every field test that one searchable string
    passes is also passed by another, the other scores at least as high.
   */
  lemma ScoreMonotone(a: string, b: string, q: Query)
    requires forall k :: 0 <= k < 5 && Holds(a, q, k) ==> Holds(b, q, k)
    ensures ComputeMatchScore(a, q).score <= ComputeMatchScore(b, q).score
  {
    TallyMonotone(Checks(a, q), Checks(b, q));
  }

  lemma {:induction false} TallyMonotone(c1: seq<Check>, c2: seq<Check>)
    requires |c1| == |c2|
    requires forall k :: 0 <= k < |c1| ==> c1[k].name == c2[k].name && c1[k].provided == c2[k].provided
    requires forall k :: 0 <= k < |c1| && c1[k].holds ==> c2[k].holds
    ensures Tally(c1).score <= Tally(c2).score
    decreases |c1|
  {
    if |c1| > 0 {
      assert forall k :: 0 <= k < |c1[1..]| ==> c1[1..][k] == c1[k + 1] && c2[1..][k] == c2[k + 1];
      TallyMonotone(c1[1..], c2[1..]);
    }
  }

  /** A provided check that fails is named in `missing`, and only those. */
  lemma MissingExactly(cs: seq<Check>)
    requires forall i, j :: 0 <= i < j < |cs| ==> cs[i].name != cs[j].name
    ensures forall k :: 0 <= k < |cs| ==> (cs[k].name in Tally(cs).missing <==> cs[k].provided && !cs[k].holds)
    ensures |Tally(cs).missing| == 0 <==> forall k :: 0 <= k < |cs| && cs[k].provided ==> cs[k].holds
  {
    var r := Tally(cs);
    if |r.missing| > 0 {
      assert r.missing[0] in r.missing;
    }
  }

  lemma TallyOfChecks(searchable: string, q: Query)
    ensures var r := Tally(Checks(searchable, q));
      && 0 <= r.score <= 14
      && r.score + SumWeights(r.missing) == QueryWeight(q)
      && IsSubsequence(r.missing, FieldNames)
      && (forall k :: 0 <= k < 5 ==> (FieldNames[k] in r.missing <==> Provided(q, k) && !Holds(searchable, q, k)))
      && (|r.missing| == 0 <==> forall k :: 0 <= k < 5 && Provided(q, k) ==> Holds(searchable, q, k))
  {
    var cs := Checks(searchable, q);
    assert Names(cs) == FieldNames;
    ProvidedWeightOfChecks(searchable, q);
    FieldNamesDistinct();
    MissingExactly(cs);
  }

  lemma FieldNamesDistinct()
    ensures forall i, j :: 0 <= i < j < |FieldNames| ==> FieldNames[i] != FieldNames[j]
  {
  }

  /** The total weight of the fields a query provides. */
  function QueryWeight(q: Query): nat {
    (if |q.material| > 0 then 3 else 0) + (if |q.color| > 0 then 3 else 0) + (if |q.size| > 0 then 3 else 0)
    + (if |q.designs| > 0 then 2 else 0) + (if Truthy(q.fileToken) then 3 else 0)
  }

  lemma ProvidedWeightStep(cs: seq<Check>, k: nat)
    requires k < |cs|
    ensures ProvidedWeight(cs[k..]) == (if cs[k].provided then FieldWeight(cs[k].name) else 0) + ProvidedWeight(cs[k + 1..])
  {
    assert cs[k..][0] == cs[k] && cs[k..][1..] == cs[k + 1..];
  }

  lemma FieldWeights()
    ensures FieldWeight("material") == 3 && FieldWeight("color") == 3 && FieldWeight("size") == 3
    ensures FieldWeight("design") == 2 && FieldWeight("file_token") == 3
  {
  }

  lemma ProvidedWeightOfChecks(searchable: string, q: Query)
    ensures ProvidedWeight(Checks(searchable, q)) == QueryWeight(q)
  {
    var cs := Checks(searchable, q);
    FieldWeights();
    ProvidedWeightStep(cs, 0);
    ProvidedWeightStep(cs, 1);
    ProvidedWeightStep(cs, 2);
    ProvidedWeightStep(cs, 3);
    ProvidedWeightStep(cs, 4);
    assert cs[0..] == cs && cs[5..] == [];
  }
}
