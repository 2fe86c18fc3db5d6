/**
 * The fixed regular expressions the plugin hands to preg_replace, and the
 * literal search of str_replace, as first-order matchers, together with the
 * left-to-right, non-overlapping replacement both functions perform.
 *
 * Each matcher tries its alternatives in the order PCRE's backtracking does:
 * a greedy `\d{3,4}` first tries four digits, then three.
 */
module Patterns {
  import opened Wrappers
  import opened Php

  datatype Pattern =
    /** `-\d{3,4}x\d{3,4}`, followed by one more character other than a newline when `anyTrailing` (the `.` of the pattern). */
    | SizeSuffix(anyTrailing: bool)
    /** `name="\d{2,3}"`. */
    | DimensionAttr(name: string)
    /** A literal search string, as str_replace uses it. */
    | Literal(text: string)

  /** `n` decimal digits start at offset `q` of `t`. */
  predicate DigitsAt(t: string, q: nat, n: nat) {
    q + n <= |t| && forall j | q <= j < q + n :: IsDigit(t[j])
  }

  /** The trailing `.` of the pattern, when there is one, can match at offset `j`. */
  predicate TrailOk(t: string, j: nat, anyTrailing: bool) {
    !anyTrailing || (j < |t| && t[j] != '\n')
  }

  function TrailLength(anyTrailing: bool): nat { if anyTrailing then 1 else 0 }

  /** Match end of the height group `\d{3,4}` (and the trailing character) that starts at offset `q`. */
  function HeightEnd(t: string, q: nat, anyTrailing: bool): (r: Option<nat>)
    ensures r.Some? ==> q + 3 <= r.value <= |t|
  {
    if DigitsAt(t, q, 4) && TrailOk(t, q + 4, anyTrailing) then Some(q + 4 + TrailLength(anyTrailing))
    else if DigitsAt(t, q, 3) && TrailOk(t, q + 3, anyTrailing) then Some(q + 3 + TrailLength(anyTrailing))
    else None
  }

  /** Length of the match of `-\d{3,4}x\d{3,4}` (plus trailing character) at the start of `t`. */
  function SizeSuffixLength(t: string, anyTrailing: bool): (r: Option<nat>)
    ensures r.Some? ==> 8 + TrailLength(anyTrailing) <= r.value <= |t|
  {
    if |t| == 0 || t[0] != '-' then None
    else if DigitsAt(t, 1, 4) && 5 < |t| && t[5] == 'x' && HeightEnd(t, 6, anyTrailing).Some? then HeightEnd(t, 6, anyTrailing)
    else if DigitsAt(t, 1, 3) && 4 < |t| && t[4] == 'x' then HeightEnd(t, 5, anyTrailing)
    else None
  }

  /** Length of the match of `name="\d{2,3}"` at the start of `t`. */
  function DimensionAttrLength(t: string, name: string): (r: Option<nat>)
    ensures r.Some? ==> |name| + 5 <= r.value <= |t|
  {
    var q := |name| + 2;
    if !(name + "=\"" <= t) then None
    else if DigitsAt(t, q, 3) && q + 3 < |t| && t[q + 3] == '"' then Some(q + 4)
    else if DigitsAt(t, q, 2) && q + 2 < |t| && t[q + 2] == '"' then Some(q + 3)
    else None
  }

  /** The shortest text a pattern can match. */
  function MinLength(p: Pattern): nat {
    match p
    case SizeSuffix(anyTrailing) => 8 + TrailLength(anyTrailing)
    case DimensionAttr(name) => |name| + 5
    case Literal(text) => |text|
  }

  /** Length of the match of `p` at the start of `t`, if `p` matches there. */
  function MatchLength(p: Pattern, t: string): (r: Option<nat>)
    ensures r.Some? ==> 0 < r.value <= |t| && MinLength(p) <= r.value
  {
    match p
    case SizeSuffix(anyTrailing) => SizeSuffixLength(t, anyTrailing)
    case DimensionAttr(name) => DimensionAttrLength(t, name)
    case Literal(text) => if text != [] && text <= t then Some(|text|) else None
  }

  /** `p` matches somewhere in `s`. */
  predicate HasMatch(p: Pattern, s: string)
    decreases |s|
  {
    s != [] && (MatchLength(p, s).Some? || HasMatch(p, s[1..]))
  }

  /**
   * preg_replace / str_replace: scan `s` from the left; where `p` matches,
   * emit `repl` and resume after the match, otherwise copy one character.
   */
  function Replace(p: Pattern, repl: string, s: string): string
    decreases |s|
  {
    if s == [] then []
    else
      match MatchLength(p, s)
      case Some(n) => repl + Replace(p, repl, s[n..])
      case None => [s[0]] + Replace(p, repl, s[1..])
  }

  /** Text in which `p` matches nowhere comes back byte for byte. */
  lemma {:induction false} ReplaceNoMatch(p: Pattern, repl: string, s: string)
    requires !HasMatch(p, s)
    ensures Replace(p, repl, s) == s
    decreases |s|
  {
    if s != [] {
      ReplaceNoMatch(p, repl, s[1..]);
      assert [s[0]] + s[1..] == s;
    }
  }

  /** A replacement no longer than the shortest match never lengthens the text. */
  lemma {:induction false} ReplaceNotLonger(p: Pattern, repl: string, s: string)
    requires |repl| <= MinLength(p)
    ensures |Replace(p, repl, s)| <= |s|
    decreases |s|
  {
    if s != [] {
      match MatchLength(p, s)
      case Some(n) => ReplaceNotLonger(p, repl, s[n..]);
      case None => ReplaceNotLonger(p, repl, s[1..]);
    }
  }

  /** A replacement shorter than the shortest match shortens every text in which `p` matches. */
  lemma {:induction false} ReplaceShortens(p: Pattern, repl: string, s: string)
    requires |repl| < MinLength(p)
    requires HasMatch(p, s)
    ensures |Replace(p, repl, s)| < |s|
    decreases |s|
  {
    match MatchLength(p, s)
    case Some(n) => ReplaceNotLonger(p, repl, s[n..]);
    case None => ReplaceShortens(p, repl, s[1..]);
  }

  /** With a shorter replacement, the text is left unchanged exactly when `p` matches nowhere in it. */
  lemma ReplaceUnchangedIff(p: Pattern, repl: string, s: string)
    requires |repl| < MinLength(p)
    ensures Replace(p, repl, s) == s <==> !HasMatch(p, s)
  {
    if HasMatch(p, s) {
      ReplaceShortens(p, repl, s);
    } else {
      ReplaceNoMatch(p, repl, s);
    }
  }

  /** Where `p` does not match at the scan position, the first character is copied. */
  lemma ReplaceCopiesFirst(p: Pattern, repl: string, s: string)
    requires s != [] && MatchLength(p, s).None?
    ensures Replace(p, repl, s) == [s[0]] + Replace(p, repl, s[1..])
  {
  }

  /** A prefix at none of whose offsets `p` matches is copied, and the scan goes on after it. */
  lemma {:induction false} ReplaceSkipsPrefix(p: Pattern, repl: string, pre: string, post: string)
    requires forall i | 0 <= i < |pre| :: MatchLength(p, (pre + post)[i..]).None?
    ensures Replace(p, repl, pre + post) == pre + Replace(p, repl, post)
    decreases |pre|
  {
    if pre != [] {
      var s := pre + post;
      var tail := pre[1..] + post;
      assert s[0..] == s;
      assert s[1..] == tail;
      forall i | 0 <= i < |pre[1..]| ensures MatchLength(p, tail[i..]).None? {
        assert tail[i..] == s[i + 1..];
      }
      ReplaceSkipsPrefix(p, repl, pre[1..], post);
      ReplaceCopiesFirst(p, repl, s);
      assert [pre[0]] + (pre[1..] + Replace(p, repl, post)) == pre + Replace(p, repl, post);
    } else {
      assert pre + post == post;
    }
  }

  /** Where `p` matches `m` at the scan position, `m` becomes the replacement. */
  lemma ReplaceAtMatch(p: Pattern, repl: string, m: string, rest: string)
    requires MatchLength(p, m + rest) == Some(|m|)
    ensures Replace(p, repl, m + rest) == repl + Replace(p, repl, rest)
  {
    assert (m + rest)[|m|..] == rest;
  }

  /** Every `-WWWxHHH<c>` (three or four digits each side, `c` not a newline) is one match of the thumbnail suffix pattern. */
  lemma SizeSuffixMatches(w: string, h: string, c: char, rest: string)
    requires 3 <= |w| <= 4 && 3 <= |h| <= 4
    requires forall j | 0 <= j < |w| :: IsDigit(w[j])
    requires forall j | 0 <= j < |h| :: IsDigit(h[j])
    requires c != '\n'
    requires |h| == 4 || !IsDigit(c)
    ensures MatchLength(SizeSuffix(true), "-" + w + "x" + h + [c] + rest) == Some(|w| + |h| + 3)
  {
    var t := "-" + w + "x" + h + [c] + rest;
    assert forall j | 1 <= j <= |w| :: t[j] == w[j - 1];
    assert t[|w| + 1] == 'x';
    var q := |w| + 2;
    assert forall j | q <= j < q + |h| :: t[j] == h[j - q];
    assert t[q + |h|] == c;
    if |w| == 3 {
      assert !DigitsAt(t, 1, 4);
    }
    if |h| == 3 {
      assert !DigitsAt(t, q, 4);
    }
  }

  /** Every `-WWWxHHH` not followed by a further digit is one match of the suffix pattern without trailing character. */
  lemma BareSizeSuffixMatches(w: string, h: string, rest: string)
    requires 3 <= |w| <= 4 && 3 <= |h| <= 4
    requires forall j | 0 <= j < |w| :: IsDigit(w[j])
    requires forall j | 0 <= j < |h| :: IsDigit(h[j])
    requires |h| == 4 || rest == [] || !IsDigit(rest[0])
    ensures MatchLength(SizeSuffix(false), "-" + w + "x" + h + rest) == Some(|w| + |h| + 2)
  {
    var t := "-" + w + "x" + h + rest;
    assert forall j | 1 <= j <= |w| :: t[j] == w[j - 1];
    assert t[|w| + 1] == 'x';
    var q := |w| + 2;
    assert forall j | q <= j < q + |h| :: t[j] == h[j - q];
    if |w| == 3 {
      assert !DigitsAt(t, 1, 4);
    }
    if |h| == 3 && rest != [] {
      assert t[q + 3] == rest[0];
      assert !DigitsAt(t, q, 4);
    }
  }

  /** An attribute `name="DD"` or `name="DDD"` is one match of the dimension pattern. */
  lemma DimensionAttrMatches(name: string, d: string, rest: string)
    requires 2 <= |d| <= 3
    requires forall j | 0 <= j < |d| :: IsDigit(d[j])
    ensures MatchLength(DimensionAttr(name), name + "=\"" + d + "\"" + rest) == Some(|name| + |d| + 3)
  {
    var t := name + "=\"" + d + "\"" + rest;
    var q := |name| + 2;
    assert (name + "=\"") <= t;
    assert forall j | q <= j < q + |d| :: t[j] == d[j - q];
    assert t[q + |d|] == '"';
    if |d| == 2 {
      assert !DigitsAt(t, q, 3);
    }
  }

  /** An attribute whose quoted value is a run of one digit, or of four or more, is not matched by the dimension pattern. */
  lemma DimensionAttrKeeps(name: string, d: string, rest: string)
    requires |d| == 1 || |d| >= 4
    requires forall j | 0 <= j < |d| :: IsDigit(d[j])
    ensures MatchLength(DimensionAttr(name), name + "=\"" + d + "\"" + rest).None?
  {
    var t := name + "=\"" + d + "\"" + rest;
    var q := |name| + 2;
    assert forall j | q <= j < q + |d| :: t[j] == d[j - q];
    assert t[q + |d|] == '"';
  }

  /** No dash in `s`: the thumbnail suffix pattern, which starts with one, cannot match in it. */
  predicate NoDash(s: string) {
    forall j | 0 <= j < |s| :: s[j] != '-'
  }

  lemma {:induction false} NoDashNoSuffix(s: string, anyTrailing: bool)
    requires NoDash(s)
    ensures !HasMatch(SizeSuffix(anyTrailing), s)
    decreases |s|
  {
    if s != [] {
      NoDashNoSuffix(s[1..], anyTrailing);
    }
  }

  /** A prefix without a dash is copied by the thumbnail suffix rewrite, which goes on after it. */
  lemma SuffixScanSkipsNoDash(anyTrailing: bool, repl: string, pre: string, post: string)
    requires NoDash(pre)
    ensures Replace(SizeSuffix(anyTrailing), repl, pre + post) == pre + Replace(SizeSuffix(anyTrailing), repl, post)
  {
    forall i | 0 <= i < |pre| ensures MatchLength(SizeSuffix(anyTrailing), (pre + post)[i..]).None? {
      assert (pre + post)[i..][0] == pre[i];
    }
    ReplaceSkipsPrefix(SizeSuffix(anyTrailing), repl, pre, post);
  }
}
