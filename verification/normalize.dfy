/**
  The normalisers of the V2 parser: canonical tokens for names and paths,
  canonical size tokens and their matching variants, the raw-code tokenizer,
  and the alphanumeric "series signature" of a code.
 */
module Normalize {
  import opened Strings

  // ---------------------------------------------------------------------------
  // normalize_token
  // ---------------------------------------------------------------------------

  predicate IsTokenChar(c: char) { IsLowerAlnum(c) || c == '_' }

  /** The canonical token shape: `[0-9a-z_]`, single underscores, none at either end. */
  predicate IsToken(t: string) {
    && AllChars(t, IsTokenChar)
    && NoDoubleUnderscore(t)
    && (|t| > 0 ==> t[0] != '_' && t[|t| - 1] != '_')
  }

  /**
    `normalize_token`: lower-case, turn every run of characters outside
    `[0-9a-z]` into one underscore, and trim underscores from both ends.
   */
  function NormalizeToken(s: string): (r: string)
    ensures IsToken(r)
  {
    var replaced := ReplaceRuns(LowerStr(s), IsLowerAlnum);
    ReplaceRunsChars(LowerStr(s), IsLowerAlnum, false);
    ReplaceRunsNoDouble(LowerStr(s), IsLowerAlnum, false);
    StripKeeps(replaced, '_', IsTokenChar);
    Strip(replaced, '_')
  }

  /** A string is left unchanged by `NormalizeToken` exactly when it already has the token shape. */
  lemma {:induction false} NormalizeTokenFixpoint(s: string)
    ensures NormalizeToken(s) == s <==> IsToken(s)
  {
    if IsToken(s) {
      assert LowerStr(s) == s by {
        forall i | 0 <= i < |s| ensures LowerStr(s)[i] == s[i] {
          assert IsTokenChar(s[i]);
        }
      }
      ReplaceRunsIdentity(s, IsLowerAlnum, false);
      StripIdentity(s, '_');
    }
  }

  /** Normalising twice is the same as normalising once. */
  lemma {:induction false} NormalizeTokenIdempotent(s: string)
    ensures NormalizeToken(NormalizeToken(s)) == NormalizeToken(s)
  {
    NormalizeTokenFixpoint(NormalizeToken(s));
  }

  // ---------------------------------------------------------------------------
  // normalize_size_token and generate_size_variants
  // ---------------------------------------------------------------------------

  /** The characters `normalize_size_token` turns into underscores: quotes, dot, space, apostrophes. */
  predicate IsSizeSep(c: char) {
    c == '"' || c == '.' || c == ' ' || c == '\'' || c == '\U{2018}' || c == '\U{2019}'
    || c == '\U{201C}' || c == '\U{201D}'
  }

  function MarkSizeSeps(s: string): (r: string)
    ensures |r| == |s|
    ensures forall i :: 0 <= i < |s| ==> r[i] == (if IsSizeSep(s[i]) then '_' else s[i])
  {
    seq(|s|, i requires 0 <= i < |s| => if IsSizeSep(s[i]) then '_' else s[i])
  }

  /** No quote, dot, space or apostrophe, no double underscore, no upper-case letter. */
  predicate IsSizeToken(t: string) {
    && AllChars(t, c => !IsSizeSep(c) && !IsUpperLetter(c))
    && NoDoubleUnderscore(t)
  }

  /**
    `normalize_size_token`: the empty string is returned as is; otherwise
    every separator becomes `_`, runs of `_` shrink to one, and the result is
    lower-cased.
   */
  function NormalizeSizeToken(s: string): string {
    if |s| == 0 then s else LowerStr(CollapseUnderscores(MarkSizeSeps(s)))
  }

  /** The canonical size form has the size-token shape and is empty only for empty input. */
  lemma {:induction false} NormalizeSizeTokenShape(s: string)
    ensures IsSizeToken(NormalizeSizeToken(s))
    ensures |NormalizeSizeToken(s)| == 0 <==> |s| == 0
  {
    if |s| > 0 {
      var marked := MarkSizeSeps(s);
      CollapseNoDouble(marked);
      CollapseChars(marked, c => !IsSizeSep(c) || c == '_');
      LowerKeepsSizeShape(CollapseUnderscores(marked));
    }
  }

  lemma {:induction false} LowerKeepsSizeShape(s: string)
    requires AllChars(s, c => !IsSizeSep(c) || c == '_') && NoDoubleUnderscore(s)
    ensures IsSizeToken(LowerStr(s))
  {
    var l := LowerStr(s);
    forall i | 0 <= i < |l| ensures !IsSizeSep(l[i]) && !IsUpperLetter(l[i]) {
      assert l[i] == Lower(s[i]);
    }
    forall i | 0 < i < |l| ensures !(l[i - 1] == '_' && l[i] == '_') {
      assert l[i - 1] == Lower(s[i - 1]) && l[i] == Lower(s[i]);
    }
  }

  /** A canonical size token is its own canonical form. */
  lemma {:induction false} NormalizeSizeTokenFixpoint(s: string)
    ensures NormalizeSizeToken(s) == s <==> IsSizeToken(s)
  {
    NormalizeSizeTokenShape(s);
    if IsSizeToken(s) && |s| > 0 {
      assert MarkSizeSeps(s) == s;
      CollapseIdentity(s);
      assert LowerStr(s) == s;
    }
  }

  /** Canonicalising a size token twice changes nothing more. */
  lemma {:induction false} NormalizeSizeTokenIdempotent(s: string)
    ensures NormalizeSizeToken(NormalizeSizeToken(s)) == NormalizeSizeToken(s)
  {
    NormalizeSizeTokenShape(s);
    NormalizeSizeTokenFixpoint(NormalizeSizeToken(s));
  }

  /** Canonicalising a size never loses its digits. */
  lemma {:induction false} NormalizeSizeKeepsDigit(s: string)
    requires HasDigit(s)
    ensures HasDigit(NormalizeSizeToken(s)) && IsSizeToken(NormalizeSizeToken(s))
  {
    NormalizeSizeTokenShape(s);
    var i :| 0 <= i < |s| && IsDigit(s[i]);
    var marked := MarkSizeSeps(s);
    assert marked[i] == s[i];
    CollapseKeeps(marked, i);
    var collapsed := CollapseUnderscores(marked);
    var j :| 0 <= j < |collapsed| && collapsed[j] == s[i];
    assert LowerStr(collapsed)[j] == s[i];
  }

  predicate IsSuffixUnit(c: char) { c == 'f' || c == 'l' }

  /**
    `re.sub(r'(?:_)?[fl]$', '', base)`: drops a final `f` or `l` together
    with an underscore right before it. As in Python, `$` also matches just
    before a final newline, which is kept.
   */
  function StripSizeUnit(base: string): (r: string)
    ensures |r| <= |base|
  {
    var n := |base|;
    if n >= 1 && IsSuffixUnit(base[n - 1]) then
      if n >= 2 && base[n - 2] == '_' then base[..n - 2] else base[..n - 1]
    else if n >= 2 && base[n - 1] == '\n' && IsSuffixUnit(base[n - 2]) then
      if n >= 3 && base[n - 3] == '_' then base[..n - 3] + "\n" else base[..n - 2] + "\n"
    else base
  }

  /**
    `generate_size_variants`: the canonical form, its underscore-free form,
    both again without a trailing unit letter, the canonical form with
    underscores written as inch marks, and its digits alone; empty strings
    are dropped.
   */
  function SizeVariants(sz: string): (r: set<string>)
    ensures |sz| == 0 ==> r == {}
    ensures forall v :: v in r ==> |v| > 0
    ensures |sz| > 0 ==> NormalizeSizeToken(sz) in r
    ensures |sz| > 0 && |RemoveChar(NormalizeSizeToken(sz), '_')| > 0 ==>
              RemoveChar(NormalizeSizeToken(sz), '_') in r
  {
    if |sz| == 0 then {}
    else
      var base := NormalizeSizeToken(sz);
      NormalizeSizeTokenShape(sz);
      var noUnit := StripSizeUnit(base);
      var all := {base, RemoveChar(base, '_'), noUnit, RemoveChar(noUnit, '_'),
                  ReplaceChar(base, '_', '"'), Filter(base, IsDigit)};
      set v | v in all && |v| > 0
  }

  // ---------------------------------------------------------------------------
  // normalize_input
  // ---------------------------------------------------------------------------

  /** `[0-9A-Za-z_"]`: the characters the tokenizer keeps. */
  predicate IsInputChar(c: char) { IsAlnum(c) || c == '_' || c == '"' }

  /** `[0-9A-Za-z"]`: the characters a token may hold. */
  predicate IsCodeChar(c: char) { IsAlnum(c) || c == '"' }

  /** The non-empty strings of `parts`, in order (`[t for t in parts if t]`). */
  function NonEmpty(parts: seq<string>): (r: seq<string>)
    ensures |r| <= |parts|
    ensures forall k :: 0 <= k < |r| ==> |r[k]| > 0
    ensures forall k :: 0 <= k < |r| ==> r[k] in parts
    decreases |parts|
  {
    if |parts| == 0 then []
    else if |parts[0]| > 0 then [parts[0]] + NonEmpty(parts[1..])
    else NonEmpty(parts[1..])
  }

  /**
    `normalize_input`: runs of characters outside `[0-9A-Za-z_"]` become `_`,
    runs of `_` shrink to one, the text is split at `_` and empty pieces
    are dropped. A missing code is the empty string.
   */
  function NormalizeInput(code: string): (r: seq<string>)
    ensures forall k :: 0 <= k < |r| ==> |r[k]| > 0 && AllChars(r[k], IsCodeChar)
    ensures |code| == 0 ==> r == []
  {
    var parts := Pieces(code);
    InputPieces(code);
    CodePieces(parts);
    NonEmpty(parts)
  }

  /** The text of `normalize_input` split at `_`, empty pieces included. */
  function Pieces(code: string): seq<string> {
    Split(CollapseUnderscores(ReplaceRuns(code, IsInputChar)), '_')
  }

  /** The pieces `normalize_input` splits into hold code characters only. */
  lemma {:induction false} InputPieces(code: string)
    ensures forall k :: 0 <= k < |Pieces(code)| ==> AllChars(Pieces(code)[k], IsCodeChar)
  {
    var replaced := ReplaceRuns(code, IsInputChar);
    ReplaceRunsChars(code, IsInputChar, false);
    var collapsed := CollapseUnderscores(replaced);
    CollapseChars(replaced, IsInputChar);
    SplitChars(collapsed, '_', IsInputChar);
    var parts := Split(collapsed, '_');
    forall k | 0 <= k < |parts| ensures AllChars(parts[k], IsCodeChar) {
      forall i | 0 <= i < |parts[k]| ensures IsCodeChar(parts[k][i]) {
        assert IsInputChar(parts[k][i]) && parts[k][i] != '_';
      }
    }
  }

  /** Keeping the non-empty pieces keeps them made of code characters. */
  lemma {:induction false} CodePieces(parts: seq<string>)
    requires forall k :: 0 <= k < |parts| ==> AllChars(parts[k], IsCodeChar)
    ensures forall k :: 0 <= k < |NonEmpty(parts)| ==> AllChars(NonEmpty(parts)[k], IsCodeChar)
  {
    var r := NonEmpty(parts);
    forall k | 0 <= k < |r| ensures AllChars(r[k], IsCodeChar) {
      assert r[k] in parts;
    }
  }

  /** Every piece of a split consists of characters of the split text other than the separator. */
  lemma {:induction false} SplitChars(s: string, sep: char, ok: char -> bool)
    requires AllChars(s, ok)
    ensures forall k :: 0 <= k < |Split(s, sep)| ==> AllChars(Split(s, sep)[k], c => ok(c) && c != sep)
    decreases |s|
  {
    if |s| > 0 {
      SplitChars(s[1..], sep, ok);
    }
  }

  /** Text drawn only from `keep` is not changed by run replacement. */
  lemma {:induction false} ReplaceRunsKeepsKept(s: string, keep: char -> bool, inRun: bool)
    requires AllChars(s, keep)
    ensures ReplaceRunsFrom(s, keep, inRun) == s
    decreases |s|
  {
    if |s| > 0 {
      ReplaceRunsKeepsKept(s[1..], keep, false);
    }
  }

  lemma {:induction false} NonEmptyIdentity(parts: seq<string>)
    requires forall k :: 0 <= k < |parts| ==> |parts[k]| > 0
    ensures NonEmpty(parts) == parts
  {
    if |parts| > 0 {
      NonEmptyIdentity(parts[1..]);
    }
  }

  /** The join of non-empty, underscore-free pieces has no double underscore. */
  lemma {:induction false} JoinNoDouble(parts: seq<string>)
    requires forall k :: 0 <= k < |parts| ==> |parts[k]| > 0 && '_' !in parts[k]
    ensures NoDoubleUnderscore(Join(parts, '_'))
    ensures AllChars(Join(parts, '_'), c => c == '_' || exists k :: 0 <= k < |parts| && c in parts[k])
    decreases |parts|
  {
    if |parts| > 1 {
      JoinNoDouble(parts[1..]);
      var rest := Join(parts[1..], '_');
      var j := Join(parts, '_');
      assert j == parts[0] + ['_'] + rest;
      assert |rest| > 0 && rest[0] != '_' by {
        assert rest[..|parts[1]|] == parts[1] by {
          if |parts[1..]| > 1 {
            assert rest == parts[1] + ['_'] + Join(parts[2..], '_');
          }
        }
        assert rest[0] == parts[1][0];
      }
      forall i | 0 < i < |j| ensures !(j[i - 1] == '_' && j[i] == '_') {
        if i < |parts[0]| {
          assert j[i] == parts[0][i];
        } else if i == |parts[0]| {
          assert j[i - 1] == parts[0][i - 1];
        } else if i == |parts[0]| + 1 {
          assert j[i] == rest[0];
        } else {
          assert j[i - 1] == rest[i - 1 - |parts[0]| - 1] && j[i] == rest[i - |parts[0]| - 1];
        }
      }
      forall i | 0 <= i < |j|
        ensures j[i] == '_' || exists k :: 0 <= k < |parts| && j[i] in parts[k]
      {
        if i < |parts[0]| {
          assert j[i] == parts[0][i];
          assert j[i] in parts[0];
        } else if i > |parts[0]| {
          assert j[i] == rest[i - |parts[0]| - 1];
          var c := rest[i - |parts[0]| - 1];
          assert c == '_' || exists k :: 0 <= k < |parts[1..]| && c in parts[1..][k];
          if c != '_' {
            var k :| 0 <= k < |parts[1..]| && c in parts[1..][k];
            assert c in parts[k + 1];
          }
        }
      }
    } else if |parts| == 1 {
      assert Join(parts, '_') == parts[0];
      forall i | 0 <= i < |parts[0]| ensures parts[0][i] in parts[0] {
      }
    }
  }

  /** Re-tokenising the underscore-join of a code's tokens gives the same tokens. */
  /** The underscore-join of non-empty code-character tokens is free of double underscores and of characters the normaliser replaces. */
  lemma {:induction false} JoinChars(toks: seq<string>)
    requires forall k :: 0 <= k < |toks| ==> |toks[k]| > 0 && AllChars(toks[k], IsCodeChar)
    ensures NoDoubleUnderscore(Join(toks, '_')) && AllChars(Join(toks, '_'), IsInputChar)
  {
    var j := Join(toks, '_');
    assert forall k :: 0 <= k < |toks| ==> '_' !in toks[k];
    JoinNoDouble(toks);
    forall i | 0 <= i < |j| ensures IsInputChar(j[i]) {
      if j[i] != '_' {
        var k :| 0 <= k < |toks| && j[i] in toks[k];
        var m :| 0 <= m < |toks[k]| && toks[k][m] == j[i];
        assert IsCodeChar(toks[k][m]);
      }
    }
  }

  /** Tokens that are non-empty and drawn from `[0-9A-Za-z"]` come back unchanged from their underscore-join. */
  lemma {:induction false} TokenizeJoin(toks: seq<string>)
    requires forall k :: 0 <= k < |toks| ==> |toks[k]| > 0 && AllChars(toks[k], IsCodeChar)
    ensures NormalizeInput(Join(toks, '_')) == toks
  {
    var j := Join(toks, '_');
    if |toks| == 0 {
      assert j == "";
    } else {
      JoinChars(toks);
      ReplaceRunsKeepsKept(j, IsInputChar, false);
      CollapseIdentity(j);
      SplitJoin(toks, '_');
      NonEmptyIdentity(toks);
    }
  }

  /** Re-tokenising the underscore-join of a code's tokens gives the same tokens. */
  lemma {:induction false} NormalizeInputRejoin(code: string)
    ensures NormalizeInput(Join(NormalizeInput(code), '_')) == NormalizeInput(code)
  {
    TokenizeJoin(NormalizeInput(code));
  }

  /** Kept characters in front pass through unchanged. */
  lemma {:induction false} ReplaceRunsKeptPrefix(a: string, t: string, keep: char -> bool)
    requires AllChars(a, keep)
    ensures ReplaceRunsFrom(a + t, keep, false) == a + ReplaceRunsFrom(t, keep, false)
    decreases |a|
  {
    if |a| == 0 {
      assert a + t == t;
    } else {
      var s := a + t;
      assert s[0] == a[0] && keep(a[0]);
      assert s[1..] == a[1..] + t;
      assert AllChars(a[1..], keep) by {
        forall i | 0 <= i < |a[1..]| ensures keep(a[1..][i]) { assert a[1..][i] == a[i + 1]; }
      }
      ReplaceRunsKeptPrefix(a[1..], t, keep);
      assert a == [a[0]] + a[1..];
    }
  }

  /** One character outside the kept set, between kept text, becomes an underscore. */
  lemma {:induction false} ReplaceRunsSplice(a: string, x: char, b: string, keep: char -> bool)
    requires AllChars(a, keep) && !keep(x) && AllChars(b, keep)
    ensures ReplaceRunsFrom(a + [x] + b, keep, false) == a + "_" + b
  {
    var t := [x] + b;
    assert a + [x] + b == a + t;
    ReplaceRunsKeptPrefix(a, t, keep);
    assert t[0] == x && t[1..] == b;
    ReplaceRunsKeepsKept(b, keep, true);
    assert ReplaceRunsFrom(t, keep, false) == "_" + b;
  }

  /** A separator character other than `_` between two stretches of code text splits tokens exactly as `_` does. */
  lemma {:induction false} NormalizeInputSplice(a: string, x: char, b: string)
    requires AllChars(a, IsInputChar) && !IsInputChar(x) && AllChars(b, IsInputChar)
    ensures NormalizeInput(a + [x] + b) == NormalizeInput(a + "_" + b)
  {
    ReplaceRunsSplice(a, x, b, IsInputChar);
    var u := a + "_" + b;
    assert AllChars(u, IsInputChar) by {
      forall i | 0 <= i < |u| ensures IsInputChar(u[i]) {
        if i < |a| { assert u[i] == a[i]; } else if i > |a| { assert u[i] == b[i - |a| - 1]; }
      }
    }
    ReplaceRunsKeepsKept(u, IsInputChar, false);
  }

  // ---------------------------------------------------------------------------
  // Series signatures
  // ---------------------------------------------------------------------------

  /** `normalize_alnum_only`: lower-case and keep only `[a-z0-9]`. */
  function AlnumOnly(s: string): (r: string)
    ensures AllChars(r, IsLowerAlnum)
    ensures |r| <= |s|
  {
    Filter(LowerStr(s), IsLowerAlnum)
  }

  /** An alphanumeric-only string has its own alphanumeric-only form. */
  lemma {:induction false} AlnumOnlyIdempotent(s: string)
    ensures AlnumOnly(AlnumOnly(s)) == AlnumOnly(s)
  {
    var a := AlnumOnly(s);
    assert LowerStr(a) == a by {
      forall i | 0 <= i < |a| ensures LowerStr(a)[i] == a[i] {
        assert IsLowerAlnum(a[i]);
      }
    }
    FilterIdentity(a, IsLowerAlnum);
  }

  predicate IsPalindrome(s: string) { Reverse(s) == s }

  /**
    `extract_series_signatures`: the alphanumeric-only code and its reverse,
    without empties and without repeating a palindrome.
   */
  function SeriesSignatures(code: string): (r: set<string>)
    ensures forall x :: x in r <==> |x| > 0 && (x == AlnumOnly(code) || x == Reverse(AlnumOnly(code)))
    ensures |r| <= 2
    ensures r == {} <==> |AlnumOnly(code)| == 0
    ensures |r| == 1 <==> |AlnumOnly(code)| > 0 && IsPalindrome(AlnumOnly(code))
  {
    var sig := AlnumOnly(code);
    var rev := Reverse(sig);
    var out := (if |sig| > 0 then {sig} else {}) + (if |rev| > 0 && rev != sig then {rev} else {});
    assert |sig| > 0 ==> sig in out;
    out
  }

  /** `path_contains_any_signature`: some non-empty signature occurs in the path's alphanumeric form. */
  predicate PathContainsAnySignature(relPath: string, signatures: set<string>) {
    exists sig :: sig in signatures && |sig| > 0 && Contains(AlnumOnly(relPath), sig)
  }

  /** With no signatures nothing matches. */
  lemma {:induction false} NoSignatureNoMatch(relPath: string)
    ensures !PathContainsAnySignature(relPath, {})
  {
  }

  /** A path matches a code's signatures exactly when it contains the code, or the code reversed, squeezed to alphanumerics. */
  lemma {:induction false} SignatureMatchMeaning(relPath: string, code: string)
    ensures PathContainsAnySignature(relPath, SeriesSignatures(code)) <==>
              |AlnumOnly(code)| > 0 &&
              (Contains(AlnumOnly(relPath), AlnumOnly(code)) || Contains(AlnumOnly(relPath), Reverse(AlnumOnly(code))))
  {
    var sig := AlnumOnly(code);
    if |sig| > 0 && Contains(AlnumOnly(relPath), sig) {
      assert sig in SeriesSignatures(code);
    }
    if |sig| > 0 && Contains(AlnumOnly(relPath), Reverse(sig)) {
      assert Reverse(sig) in SeriesSignatures(code);
    }
  }
}
