/**
 * The few JavaScript string operations the application relies on:
 * `includes`, `indexOf`, `toLowerCase`, `trim`, `split`, `join`,
 * a global literal `replace`, `String(n)` for integers and the
 * relational `<` on strings.
 */
module Strings {
  import opened Wrappers

  /** `pat` occurs in `s` starting at position `i`. */
  predicate OccursAt(s: string, pat: string, i: nat) {
    i + |pat| <= |s| && s[i..i + |pat|] == pat
  }

  /** The first occurrence of `pat` in `s` at or after position `k`. */
  function IndexFrom(s: string, pat: string, k: nat): (r: Option<nat>)
    ensures r.Some? ==> k <= r.value && OccursAt(s, pat, r.value)
    ensures r.Some? ==> forall j :: k <= j < r.value ==> !OccursAt(s, pat, j)
    ensures r.None? ==> forall j: nat :: k <= j ==> !OccursAt(s, pat, j)
    decreases |s| - k
  {
    if k + |pat| > |s| then None
    else if s[k..k + |pat|] == pat then Some(k)
    else IndexFrom(s, pat, k + 1)
  }

  /** `s.indexOf(pat)`, with `None` for -1. */
  function IndexOf(s: string, pat: string): (r: Option<nat>)
    ensures r.Some? ==> OccursAt(s, pat, r.value) && r.value + |pat| <= |s|
    ensures r.Some? ==> forall j :: 0 <= j < r.value ==> !OccursAt(s, pat, j)
    ensures r.None? ==> forall j: nat :: !OccursAt(s, pat, j)
  {
    IndexFrom(s, pat, 0)
  }

  /** `s.includes(pat)`. */
  predicate Contains(s: string, pat: string) {
    IndexOf(s, pat).Some?
  }

  /** Every string includes the empty string (so an empty search term matches). */
  lemma ContainsEmpty(s: string)
    ensures Contains(s, "")
  {
    assert OccursAt(s, "", 0);
  }

  /** A pattern that occurs somewhere is found by `includes`. */
  lemma ContainsWhenOccurs(s: string, pat: string, i: nat)
    requires OccursAt(s, pat, i)
    ensures Contains(s, pat)
  {
  }

  /** `pat` occurs inside `u + pat + v`. */
  lemma ContainsInfix(u: string, pat: string, v: string)
    ensures Contains(u + pat + v, pat)
  {
    var s := u + pat + v;
    assert s[|u|..|u| + |pat|] == pat;
    ContainsWhenOccurs(s, pat, |u|);
  }

  // ---------------------------------------------------------------------
  // Case folding

  /** `toLowerCase` of one character, restricted to the ASCII letters. */
  function LowerChar(c: char): (d: char)
    ensures 'A' <= c <= 'Z' ==> d as int == c as int + 32
    ensures !('A' <= c <= 'Z') ==> d == c
  {
    if 'A' <= c <= 'Z' then (c as int + 32) as char else c
  }

  /** `s.toLowerCase()` (ASCII letters only). */
  function Lower(s: string): (r: string)
    ensures |r| == |s|
    ensures forall i :: 0 <= i < |s| ==> r[i] == LowerChar(s[i])
  {
    seq(|s|, i requires 0 <= i < |s| => LowerChar(s[i]))
  }

  /** Lower-casing twice is lower-casing once. */
  lemma LowerIdempotent(s: string)
    ensures Lower(Lower(s)) == Lower(s)
  {
  }

  // ---------------------------------------------------------------------
  // Trimming

  /** The characters `String.prototype.trim` removes (white space and line terminators). */
  predicate IsWhitespace(c: char) {
    c == '\t' || c == '\n' || c == '\U{000B}' || c == '\U{000C}' || c == '\r' || c == ' '
    || c == '\U{00A0}' || c == '\U{1680}' || ('\U{2000}' <= c <= '\U{200A}')
    || c == '\U{2028}' || c == '\U{2029}' || c == '\U{202F}' || c == '\U{205F}'
    || c == '\U{3000}' || c == '\U{FEFF}'
  }

  predicate AllWhitespace(s: string) {
    forall i :: 0 <= i < |s| ==> IsWhitespace(s[i])
  }

  function TrimStart(s: string): (r: string)
    ensures r != [] ==> !IsWhitespace(r[0])
    ensures r == [] <==> AllWhitespace(s)
  {
    if s != [] && IsWhitespace(s[0]) then
      var r := TrimStart(s[1..]);
      assert AllWhitespace(s[1..]) ==> AllWhitespace(s) by {
        if AllWhitespace(s[1..]) {
          forall i | 0 <= i < |s| ensures IsWhitespace(s[i]) {
            if i > 0 { assert s[i] == s[1..][i - 1]; }
          }
        }
      }
      r
    else s
  }

  function TrimEnd(s: string): (r: string)
    ensures r == [] <==> AllWhitespace(s)
    ensures |r| <= |s| && r == s[..|r|]
  {
    if s != [] && IsWhitespace(s[|s| - 1]) then
      var r := TrimEnd(s[..|s| - 1]);
      assert AllWhitespace(s[..|s| - 1]) ==> AllWhitespace(s) by {
        if AllWhitespace(s[..|s| - 1]) {
          forall i | 0 <= i < |s| ensures IsWhitespace(s[i]) {
            if i < |s| - 1 { assert s[i] == s[..|s| - 1][i]; }
          }
        }
      }
      r
    else s
  }

  /** `s.trim()`. */
  function Trim(s: string): string {
    TrimEnd(TrimStart(s))
  }

  /** `s.trim() !== ''` holds exactly when `s` has a character that is not white space. */
  lemma {:induction false} TrimEmptyIff(s: string)
    ensures Trim(s) == "" <==> AllWhitespace(s)
  {
    var t := TrimStart(s);
    if Trim(s) == "" {
      assert AllWhitespace(t);
      if t != [] {
        assert false;
      }
    }
  }

  // ---------------------------------------------------------------------
  // Splitting and joining

  /** `s.split(sep)` for a non-empty separator string. */
  function Split(s: string, sep: string): (parts: seq<string>)
    requires sep != ""
    ensures |parts| >= 1
    decreases |s|
  {
    match IndexOf(s, sep)
    case None => [s]
    case Some(i) => [s[..i]] + Split(s[i + |sep|..], sep)
  }

  /** `parts.join(sep)`. */
  function Join(parts: seq<string>, sep: string): string
    decreases |parts|
  {
    if |parts| == 0 then ""
    else if |parts| == 1 then parts[0]
    else parts[0] + sep + Join(parts[1..], sep)
  }

  /** Joining the pieces of a split with the same separator gives the string back. */
  lemma {:induction false} JoinSplit(s: string, sep: string)
    requires sep != ""
    ensures Join(Split(s, sep), sep) == s
    decreases |s|
  {
    match IndexOf(s, sep)
    case None =>
    case Some(i) =>
      var rest := s[i + |sep|..];
      var tail := Split(rest, sep);
      JoinSplit(rest, sep);
      var parts := Split(s, sep);
      assert parts == [s[..i]] + tail;
      assert parts[1..] == tail;
      assert Join(parts, sep) == s[..i] + sep + rest;
      assert s == s[..i] + s[i..i + |sep|] + rest;
  }

  /** No piece of a split contains the separator. */
  lemma {:induction false} SplitPiecesFree(s: string, sep: string)
    requires sep != ""
    ensures forall k :: 0 <= k < |Split(s, sep)| ==> !Contains(Split(s, sep)[k], sep)
    decreases |s|
  {
    match IndexOf(s, sep)
    case None =>
      assert Split(s, sep) == [s];
    case Some(i) =>
      var rest := s[i + |sep|..];
      SplitPiecesFree(rest, sep);
      var head := s[..i];
      if Contains(head, sep) {
        var j := IndexOf(head, sep).value;
        assert head[j..j + |sep|] == s[j..j + |sep|];
        assert OccursAt(s, sep, j);
        assert false;
      }
      assert Split(s, sep) == [head] + Split(rest, sep);
  }

  /**
   * For a one-character separator that occurs in no piece, splitting the
   * joined string gives the pieces back.
   */
  lemma {:induction false} SplitJoin(parts: seq<string>, c: char)
    requires parts != []
    requires forall k :: 0 <= k < |parts| ==> c !in parts[k]
    ensures Split(Join(parts, [c]), [c]) == parts
    decreases |parts|
  {
    var sep := [c];
    var p := parts[0];
    if |parts| == 1 {
      var s := Join(parts, sep);
      assert s == p;
      forall j: nat ensures !OccursAt(s, sep, j) {
        if j < |s| { assert s[j..j + 1] == [s[j]] && s[j] in p; }
      }
      assert IndexOf(s, sep) == None;
    } else {
      var tail := Join(parts[1..], sep);
      var s := Join(parts, sep);
      assert s == p + sep + tail;
      assert OccursAt(s, sep, |p|) by { assert s[|p|..|p| + 1] == sep; }
      forall j | 0 <= j < |p| ensures !OccursAt(s, sep, j) {
        assert s[j..j + 1] == [p[j]] && p[j] in p;
      }
      assert IndexOf(s, sep) == Some(|p|);
      assert s[|p| + 1..] == tail;
      assert s[..|p|] == p;
      SplitJoin(parts[1..], c);
      assert parts == [p] + parts[1..];
    }
  }

  /** `s.replace(new RegExp(pat, 'g'), rep)` for a literal pattern: every occurrence, left to right. */
  function ReplaceAll(s: string, pat: string, rep: string): string
    requires pat != ""
  {
    Join(Split(s, pat), rep)
  }

  /** Replacing a pattern that does not occur leaves the string as it is. */
  lemma ReplaceAbsent(s: string, pat: string, rep: string)
    requires pat != ""
    requires !Contains(s, pat)
    ensures ReplaceAll(s, pat, rep) == s
  {
  }

  /** Replacing a pattern by itself changes nothing. */
  lemma ReplaceBySelf(s: string, pat: string)
    requires pat != ""
    ensures ReplaceAll(s, pat, pat) == s
  {
    JoinSplit(s, pat);
  }

  /**
   * The first occurrence is replaced and the scan resumes after it: when no
   * occurrence of `pat` starts inside `u`, `u + pat + v` becomes
   * `u + rep + replace(v)`.
   */
  lemma {:induction false} ReplaceFirst(u: string, pat: string, rep: string, v: string)
    requires pat != ""
    requires !Contains(u + pat[..|pat| - 1], pat)
    ensures ReplaceAll(u + pat + v, pat, rep) == u + rep + ReplaceAll(v, pat, rep)
  {
    var s := u + pat + v;
    var w := u + pat[..|pat| - 1];
    assert OccursAt(s, pat, |u|) by { assert s[|u|..|u| + |pat|] == pat; }
    forall j | 0 <= j < |u| ensures !OccursAt(s, pat, j) {
      if OccursAt(s, pat, j) {
        assert s[..|w|] == w;
        assert w[j..j + |pat|] == s[j..j + |pat|];
        ContainsWhenOccurs(w, pat, j);
      }
    }
    assert IndexOf(s, pat) == Some(|u|);
    assert s[..|u|] == u;
    assert s[|u| + |pat|..] == v;
    var rest := Split(v, pat);
    assert Split(s, pat) == [u] + rest;
    assert ([u] + rest)[1..] == rest;
  }

  // ---------------------------------------------------------------------
  // Numbers as text

  function DigitChar(d: nat): (c: char)
    requires d < 10
    ensures '0' <= c <= '9' && c as int - '0' as int == d
  {
    (d + '0' as int) as char
  }

  /** `String(n)` for a non-negative integer: its decimal digits. */
  function NatToString(n: nat): (r: string)
    ensures |r| >= 1
    ensures forall i :: 0 <= i < |r| ==> '0' <= r[i] <= '9'
    decreases n
  {
    if n < 10 then [DigitChar(n)] else NatToString(n / 10) + [DigitChar(n % 10)]
  }

  /** `String(i)` for any integer. */
  function IntToString(i: int): string {
    if i < 0 then "-" + NatToString(-i) else NatToString(i)
  }

  /** The value of a string of decimal digits. */
  function DigitsValue(s: string): nat
    requires forall i :: 0 <= i < |s| ==> '0' <= s[i] <= '9'
    decreases |s|
  {
    if s == [] then 0
    else DigitsValue(s[..|s| - 1]) * 10 + (s[|s| - 1] as int - '0' as int)
  }

  /** Reading the digits back gives the number: `String(n)` is a faithful decimal rendering. */
  lemma {:induction false} NatToStringRoundTrip(n: nat)
    ensures DigitsValue(NatToString(n)) == n
    decreases n
  {
    if n >= 10 {
      NatToStringRoundTrip(n / 10);
      var s := NatToString(n);
      assert s[..|s| - 1] == NatToString(n / 10);
    }
  }

  // ---------------------------------------------------------------------
  // Ordering

  /** JavaScript's `a < b` on strings: lexicographic by character. */
  predicate StrLt(a: string, b: string)
    decreases |a|
  {
    if a == [] then b != []
    else if b == [] then false
    else if a[0] != b[0] then a[0] < b[0]
    else StrLt(a[1..], b[1..])
  }

  lemma {:induction false} StrLtIrreflexive(a: string)
    ensures !StrLt(a, a)
    decreases |a|
  {
    if a != [] { StrLtIrreflexive(a[1..]); }
  }

  lemma {:induction false} StrLtTransitive(a: string, b: string, c: string)
    requires StrLt(a, b) && StrLt(b, c)
    ensures StrLt(a, c)
    decreases |a|
  {
    if a != [] && b != [] && c != [] && a[0] == b[0] == c[0] {
      StrLtTransitive(a[1..], b[1..], c[1..]);
    }
  }

  lemma {:induction false} StrLtTotal(a: string, b: string)
    ensures a == b || StrLt(a, b) || StrLt(b, a)
    decreases |a|
  {
    if a != [] && b != [] && a[0] == b[0] {
      StrLtTotal(a[1..], b[1..]);
      if a[1..] == b[1..] {
        assert a == [a[0]] + a[1..] && b == [b[0]] + b[1..];
      }
    }
  }

  lemma StrLtAsymmetric(a: string, b: string)
    requires StrLt(a, b)
    ensures !StrLt(b, a)
  {
    if StrLt(b, a) {
      StrLtTransitive(a, b, a);
      StrLtIrreflexive(a);
    }
  }
}
