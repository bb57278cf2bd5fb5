/**
  Character classes and the handful of Python string operations the resolver
  relies on (`lower`, `in`, `split`, `join`, `strip`, slicing, and the few
  regular-expression substitutions it performs), stated over `seq<char>`.
  Only ASCII case mapping is modelled.
 */
module Strings {

  // ---------------------------------------------------------------------------
  // Character classes
  // ---------------------------------------------------------------------------

  predicate IsDigit(c: char) { '0' <= c <= '9' }
  predicate IsLowerLetter(c: char) { 'a' <= c <= 'z' }
  predicate IsUpperLetter(c: char) { 'A' <= c <= 'Z' }

  /** `[0-9a-z]` */
  predicate IsLowerAlnum(c: char) { IsDigit(c) || IsLowerLetter(c) }

  /** `[0-9A-Za-z]` */
  predicate IsAlnum(c: char) { IsDigit(c) || IsLowerLetter(c) || IsUpperLetter(c) }

  /** The ASCII characters Python's `str.strip()` treats as whitespace. */
  predicate IsSpace(c: char) {
    c == ' ' || c == '\t' || c == '\n' || c == '\r' || c == '\U{B}' || c == '\U{C}'
    || c == '\U{1C}' || c == '\U{1D}' || c == '\U{1E}' || c == '\U{1F}'
  }

  function Lower(c: char): (r: char)
    ensures IsUpperLetter(c) ==> IsLowerLetter(r)
    ensures !IsUpperLetter(c) ==> r == c
  {
    if IsUpperLetter(c) then (c as int + 32) as char else c
  }

  function Upper(c: char): (r: char)
    ensures IsLowerLetter(c) ==> IsUpperLetter(r)
    ensures !IsLowerLetter(c) ==> r == c
  {
    if IsLowerLetter(c) then (c as int - 32) as char else c
  }

  /** `s.lower()` on ASCII text. */
  function LowerStr(s: string): (r: string)
    ensures |r| == |s|
    ensures forall i :: 0 <= i < |s| ==> r[i] == Lower(s[i])
  {
    seq(|s|, i requires 0 <= i < |s| => Lower(s[i]))
  }

  /** `s.upper()` on ASCII text. */
  function UpperStr(s: string): (r: string)
    ensures |r| == |s|
    ensures forall i :: 0 <= i < |s| ==> r[i] == Upper(s[i])
  {
    seq(|s|, i requires 0 <= i < |s| => Upper(s[i]))
  }

  /** A lower-cased string has no upper-case letter, so lower-casing it again changes nothing. */
  lemma {:induction false} LowerStrIdempotent(s: string)
    ensures LowerStr(LowerStr(s)) == LowerStr(s)
  {
    var l := LowerStr(s);
    assert forall i :: 0 <= i < |l| ==> Lower(l[i]) == l[i];
  }

  /** `re.fullmatch(r'\d+', s)` */
  /** Some character of `s` is a decimal digit. */
  predicate HasDigit(s: string) {
    exists i :: 0 <= i < |s| && IsDigit(s[i])
  }

  predicate AllDigits(s: string) {
    |s| > 0 && forall i :: 0 <= i < |s| ==> IsDigit(s[i])
  }

  /** Every character of `s` is drawn from `ok`. */
  predicate AllChars(s: string, ok: char -> bool) {
    forall i :: 0 <= i < |s| ==> ok(s[i])
  }

  predicate StartsWith(s: string, p: string) { |p| <= |s| && s[..|p|] == p }
  predicate EndsWith(s: string, p: string) { |p| <= |s| && s[|s| - |p|..] == p }

  // ---------------------------------------------------------------------------
  // Substrings and `_`-delimited segments
  // ---------------------------------------------------------------------------

  /** `needle` occurs in `hay` starting at index `i`. */
  predicate OccursAt(hay: string, needle: string, i: int) {
    0 <= i && i + |needle| <= |hay| && hay[i..i + |needle|] == needle
  }

  /** Python's `needle in hay`. */
  predicate Contains(hay: string, needle: string) {
    exists i :: 0 <= i <= |hay| - |needle| && OccursAt(hay, needle, i)
  }

  /** Where the group `(_|$)` can match: an underscore, the end, or just before a final newline. */
  predicate SegmentEnd(hay: string, j: int) {
    j == |hay| || (0 <= j < |hay| && hay[j] == '_') || (j == |hay| - 1 && 0 <= j && hay[j] == '\n')
  }

  /** `needle` sits at `i` with `(^|_)` before it and `(_|$)` after it. */
  predicate SegmentAt(hay: string, needle: string, i: int) {
    OccursAt(hay, needle, i) && (i == 0 || hay[i - 1] == '_') && SegmentEnd(hay, i + |needle|)
  }

  /** `re.search(r'(^|_)' + re.escape(needle) + r'(_|$)', hay)` is not None. */
  predicate HasSegment(hay: string, needle: string) {
    exists i :: 0 <= i <= |hay| - |needle| && SegmentAt(hay, needle, i)
  }

  lemma {:induction false} SegmentImpliesContains(hay: string, needle: string)
    ensures HasSegment(hay, needle) ==> Contains(hay, needle)
  {
  }

  // ---------------------------------------------------------------------------
  // Regular-expression substitutions
  // ---------------------------------------------------------------------------

  /**
    `re.sub('[^K]+', '_', s)` where `keep` is the class `K`: every maximal run of
    characters outside `keep` becomes one underscore. `inRun` records that the
    previous character already started such a run.
   */
  function ReplaceRunsFrom(s: string, keep: char -> bool, inRun: bool): (r: string)
    decreases |s|
  {
    if |s| == 0 then ""
    else if keep(s[0]) then [s[0]] + ReplaceRunsFrom(s[1..], keep, false)
    else if inRun then ReplaceRunsFrom(s[1..], keep, true)
    else "_" + ReplaceRunsFrom(s[1..], keep, true)
  }

  function ReplaceRuns(s: string, keep: char -> bool): string {
    ReplaceRunsFrom(s, keep, false)
  }

  /** No two adjacent underscores. */
  predicate NoDoubleUnderscore(s: string) {
    forall i :: 0 < i < |s| ==> !(s[i - 1] == '_' && s[i] == '_')
  }

  lemma {:induction false} ReplaceRunsChars(s: string, keep: char -> bool, inRun: bool)
    ensures AllChars(ReplaceRunsFrom(s, keep, inRun), c => keep(c) || c == '_')
    decreases |s|
  {
    if |s| > 0 {
      ReplaceRunsChars(s[1..], keep, !keep(s[0]));
    }
  }

  /** When `_` itself is replaced, the output never holds two underscores in a row. */
  lemma {:induction false} ReplaceRunsNoDouble(s: string, keep: char -> bool, inRun: bool)
    requires !keep('_')
    ensures NoDoubleUnderscore(ReplaceRunsFrom(s, keep, inRun))
    ensures inRun && |ReplaceRunsFrom(s, keep, inRun)| > 0 ==> ReplaceRunsFrom(s, keep, inRun)[0] != '_'
    decreases |s|
  {
    if |s| > 0 {
      ReplaceRunsNoDouble(s[1..], keep, !keep(s[0]));
      ReplaceRunsChars(s[1..], keep, !keep(s[0]));
    }
  }

  /** Text whose only outside characters are lone underscores is left unchanged. */
  lemma {:induction false} ReplaceRunsIdentity(s: string, keep: char -> bool, inRun: bool)
    requires !keep('_')
    requires AllChars(s, c => keep(c) || c == '_')
    requires NoDoubleUnderscore(s)
    requires inRun ==> |s| == 0 || s[0] != '_'
    ensures ReplaceRunsFrom(s, keep, inRun) == s
    decreases |s|
  {
    if |s| > 0 {
      assert NoDoubleUnderscore(s[1..]) by {
        forall i | 0 < i < |s[1..]| ensures !(s[1..][i - 1] == '_' && s[1..][i] == '_') {
          assert s[1..][i - 1] == s[i] && s[1..][i] == s[i + 1];
        }
      }
      ReplaceRunsIdentity(s[1..], keep, !keep(s[0]));
    }
  }

  /** `re.sub('__+', '_', s)`: every run of underscores shrinks to one. */
  function CollapseUnderscores(s: string): (r: string)
    ensures |r| <= |s|
    ensures |r| == 0 <==> |s| == 0
    ensures |s| > 0 ==> r[0] == s[0] && r[|r| - 1] == s[|s| - 1]
    decreases |s|
  {
    if |s| <= 1 then s
    else if s[0] == '_' && s[1] == '_' then CollapseUnderscores(s[1..])
    else [s[0]] + CollapseUnderscores(s[1..])
  }

  lemma {:induction false} CollapseNoDouble(s: string)
    ensures NoDoubleUnderscore(CollapseUnderscores(s))
    decreases |s|
  {
    if |s| > 1 {
      CollapseNoDouble(s[1..]);
    }
  }

  /** Collapsing only removes characters: whatever class `s` is drawn from, so is the result. */
  lemma {:induction false} CollapseChars(s: string, ok: char -> bool)
    requires AllChars(s, ok)
    ensures AllChars(CollapseUnderscores(s), ok)
    decreases |s|
  {
    if |s| > 1 {
      CollapseChars(s[1..], ok);
    }
  }

  /** Collapsing never drops a character other than an underscore. */
  lemma {:induction false} CollapseKeeps(s: string, i: nat)
    requires i < |s| && s[i] != '_'
    ensures s[i] in CollapseUnderscores(s)
    decreases |s|
  {
    if |s| > 1 && i > 0 {
      assert s[i] == s[1..][i - 1];
      CollapseKeeps(s[1..], i - 1);
    }
  }

  lemma {:induction false} CollapseIdentity(s: string)
    requires NoDoubleUnderscore(s)
    ensures CollapseUnderscores(s) == s
    decreases |s|
  {
    if |s| > 1 {
      assert !(s[0] == '_' && s[1] == '_');
      assert NoDoubleUnderscore(s[1..]) by {
        forall i | 0 < i < |s[1..]| ensures !(s[1..][i - 1] == '_' && s[1..][i] == '_') {
          assert s[1..][i - 1] == s[i] && s[1..][i] == s[i + 1];
        }
      }
      CollapseIdentity(s[1..]);
    }
  }

  // ---------------------------------------------------------------------------
  // strip
  // ---------------------------------------------------------------------------

  function StripLeft(s: string, c: char): (r: string)
    ensures |r| <= |s| && r == s[|s| - |r|..]
    ensures |r| > 0 ==> r[0] != c
    ensures (|s| == 0 || s[0] != c) ==> r == s
    decreases |s|
  {
    if |s| > 0 && s[0] == c then StripLeft(s[1..], c) else s
  }

  function StripRight(s: string, c: char): (r: string)
    ensures |r| <= |s| && r == s[..|r|]
    ensures |r| > 0 ==> r[|r| - 1] != c
    ensures (|s| == 0 || s[|s| - 1] != c) ==> r == s
    decreases |s|
  {
    if |s| > 0 && s[|s| - 1] == c then StripRight(s[..|s| - 1], c) else s
  }

  /** `s.strip(c)` */
  function Strip(s: string, c: char): (r: string)
    ensures |r| > 0 ==> r[0] != c && r[|r| - 1] != c
    ensures Contains(s, r)
  {
    var l := StripLeft(s, c);
    var r := StripRight(l, c);
    assert OccursAt(s, r, |s| - |l|);
    r
  }

  lemma {:induction false} StripIdentity(s: string, c: char)
    requires |s| == 0 || (s[0] != c && s[|s| - 1] != c)
    ensures Strip(s, c) == s
  {
  }

  /** Characters and underscore pairs of a stripped string come from the original. */
  lemma {:induction false} StripKeeps(s: string, c: char, ok: char -> bool)
    requires AllChars(s, ok) && NoDoubleUnderscore(s)
    ensures AllChars(Strip(s, c), ok) && NoDoubleUnderscore(Strip(s, c))
  {
    var r := Strip(s, c);
    var i :| 0 <= i <= |s| - |r| && OccursAt(s, r, i);
    SliceKeeps(s, r, i, ok);
  }

  /** A slice keeps the per-character property and the absence of underscore pairs. */
  lemma {:induction false} SliceKeeps(s: string, r: string, i: int, ok: char -> bool)
    requires OccursAt(s, r, i)
    requires AllChars(s, ok) && NoDoubleUnderscore(s)
    ensures AllChars(r, ok) && NoDoubleUnderscore(r)
  {
    forall k | 0 <= k < |r| ensures r[k] == s[i + k] {
      assert r[k] == s[i..i + |r|][k];
    }
  }

  function StripSpaceLeft(s: string): (r: string)
    ensures |r| <= |s|
    ensures |r| > 0 ==> !IsSpace(r[0])
    decreases |s|
  {
    if |s| > 0 && IsSpace(s[0]) then StripSpaceLeft(s[1..]) else s
  }

  function StripSpaceRight(s: string): (r: string)
    ensures |r| <= |s|
    ensures |r| > 0 ==> !IsSpace(r[|r| - 1])
    decreases |s|
  {
    if |s| > 0 && IsSpace(s[|s| - 1]) then StripSpaceRight(s[..|s| - 1]) else s
  }

  /** `s.strip()` with no argument (ASCII whitespace). */
  function StripSpace(s: string): (r: string)
    ensures |r| > 0 ==> !IsSpace(r[0]) && !IsSpace(r[|r| - 1])
  {
    var l := StripSpaceLeft(s);
    var r := StripSpaceRight(l);
    if |r| > 0 then
      assert r[0] == l[0] by { assert r == l[..|r|] by { StripSpaceRightPrefix(l); } }
      r
    else r
  }

  /** Text that neither starts nor ends with white space is its own `strip()`. */
  lemma StripSpaceIdentity(s: string)
    requires |s| == 0 || (!IsSpace(s[0]) && !IsSpace(s[|s| - 1]))
    ensures StripSpace(s) == s
  {
  }

  lemma {:induction false} StripSpaceRightPrefix(s: string)
    ensures StripSpaceRight(s) == s[..|StripSpaceRight(s)|]
    decreases |s|
  {
    if |s| > 0 && IsSpace(s[|s| - 1]) {
      StripSpaceRightPrefix(s[..|s| - 1]);
    }
  }

  // ---------------------------------------------------------------------------
  // Character filters and replacements
  // ---------------------------------------------------------------------------

  /** Keeps the characters satisfying `keep`, in order (`re.sub('[^K]', '', s)`). */
  function Filter(s: string, keep: char -> bool): (r: string)
    ensures |r| <= |s|
    ensures AllChars(r, keep)
    decreases |s|
  {
    if |s| == 0 then ""
    else if keep(s[0]) then [s[0]] + Filter(s[1..], keep)
    else Filter(s[1..], keep)
  }

  /** Filtering a string already drawn from `keep` changes nothing. */
  lemma {:induction false} FilterIdentity(s: string, keep: char -> bool)
    requires AllChars(s, keep)
    ensures Filter(s, keep) == s
    decreases |s|
  {
    if |s| > 0 {
      FilterIdentity(s[1..], keep);
    }
  }

  /** `s.replace(c, '')` */
  function RemoveChar(s: string, c: char): (r: string)
    ensures c !in r
    ensures |r| <= |s|
  {
    var r := Filter(s, x => x != c);
    assert forall i :: 0 <= i < |r| ==> r[i] != c;
    r
  }

  /** `s.replace(a, b)` for single characters. */
  function ReplaceChar(s: string, a: char, b: char): (r: string)
    ensures |r| == |s|
    ensures forall i :: 0 <= i < |s| ==> r[i] == (if s[i] == a then b else s[i])
  {
    seq(|s|, i requires 0 <= i < |s| => if s[i] == a then b else s[i])
  }

  function Reverse(s: string): (r: string)
    ensures |r| == |s|
    ensures forall i :: 0 <= i < |s| ==> r[i] == s[|s| - 1 - i]
  {
    seq(|s|, i requires 0 <= i < |s| => s[|s| - 1 - i])
  }

  /** Number of leading decimal digits of `s`. */
  function LeadingDigits(s: string): (k: nat)
    ensures k <= |s|
    ensures forall i :: 0 <= i < k ==> IsDigit(s[i])
    ensures k < |s| ==> !IsDigit(s[k])
    decreases |s|
  {
    if |s| > 0 && IsDigit(s[0]) then 1 + LeadingDigits(s[1..]) else 0
  }

  // ---------------------------------------------------------------------------
  // split and join
  // ---------------------------------------------------------------------------

  /** Python's `s.split(sep)`: always at least one piece, none holding `sep`. */
  function Split(s: string, sep: char): (r: seq<string>)
    ensures |r| >= 1
    ensures forall k :: 0 <= k < |r| ==> sep !in r[k]
    decreases |s|
  {
    if |s| == 0 then [""]
    else
      var rest := Split(s[1..], sep);
      if s[0] == sep then [""] + rest
      else [[s[0]] + rest[0]] + rest[1..]
  }

  /** Python's `sep.join(parts)`. */
  function Join(parts: seq<string>, sep: char): string
    decreases |parts|
  {
    if |parts| == 0 then ""
    else if |parts| == 1 then parts[0]
    else parts[0] + [sep] + Join(parts[1..], sep)
  }

  /** Joining two non-empty lists puts one separator between their joins. */
  lemma {:induction false} JoinAppend(a: seq<string>, b: seq<string>, sep: char)
    requires |a| > 0 && |b| > 0
    ensures Join(a + b, sep) == Join(a, sep) + [sep] + Join(b, sep)
    decreases |a|
  {
    if |a| > 1 {
      assert (a + b)[1..] == a[1..] + b;
      JoinAppend(a[1..], b, sep);
    } else {
      assert (a + b)[1..] == b;
    }
  }

  /** Joining the pieces of a split gives back the original text. */
  lemma {:induction false} JoinSplit(s: string, sep: char)
    ensures Join(Split(s, sep), sep) == s
    decreases |s|
  {
    if |s| > 0 {
      var rest := Split(s[1..], sep);
      JoinSplit(s[1..], sep);
      if s[0] == sep {
        assert s == [sep] + s[1..];
      } else {
        if |rest| == 1 {
          assert s == [s[0]] + rest[0];
        } else {
          var r := Split(s, sep);
          assert r[1..] == rest[1..];
          assert Join(r, sep) == r[0] + [sep] + Join(rest[1..], sep);
          assert Join(rest, sep) == rest[0] + [sep] + Join(rest[1..], sep);
          assert s == [s[0]] + s[1..];
        }
      }
    }
  }

  /** Splitting a join of separator-free pieces gives back the pieces. */
  lemma {:induction false} SplitJoin(parts: seq<string>, sep: char)
    requires |parts| >= 1
    requires forall k :: 0 <= k < |parts| ==> sep !in parts[k]
    ensures Split(Join(parts, sep), sep) == parts
    decreases |parts|, |parts[0]|
  {
    var p := parts[0];
    if |p| == 0 {
      if |parts| > 1 {
        SplitJoin(parts[1..], sep);
        var j := Join(parts, sep);
        assert j == [sep] + Join(parts[1..], sep);
        assert j[1..] == Join(parts[1..], sep);
        assert Split(j, sep) == [""] + parts[1..];
        assert [""] + parts[1..] == parts;
      }
    } else {
      var parts' := [p[1..]] + parts[1..];
      SplitJoin(parts', sep);
      var j := Join(parts, sep);
      assert j == [p[0]] + Join(parts', sep) by {
        if |parts| == 1 {
          assert j == p;
        } else {
          assert parts'[1..] == parts[1..];
          assert Join(parts', sep) == p[1..] + [sep] + Join(parts[1..], sep);
        }
      }
      assert j[1..] == Join(parts', sep);
      assert p[0] != sep by { assert p[0] in parts[0]; }
      assert Split(j, sep) == [[p[0]] + parts'[0]] + parts'[1..];
      assert [p[0]] + p[1..] == p;
      assert parts'[1..] == parts[1..];
      assert [p] + parts[1..] == parts;
    }
  }
}
