/** String primitives of JavaScript that the source relies on: character
    classes of its regular expressions, `String.prototype.replace` with a
    string pattern, `trim`, `split`/`join`, and decimal digits. */
module Strings {
  import opened Wrappers

  /** `\d` without the `u` flag: ASCII digits only. */
  predicate IsDigit(c: char) { '0' <= c <= '9' }

  /** `[a-z]` */
  predicate IsLower(c: char) { 'a' <= c <= 'z' }

  /** `\w`, the characters on one side of a `\b` boundary. */
  predicate IsWordChar(c: char) {
    IsDigit(c) || IsLower(c) || ('A' <= c <= 'Z') || c == '_'
  }

  /** `\s`, which is also the set `String.prototype.trim` removes:
      WhiteSpace and LineTerminator of the ECMAScript grammar. */
  predicate IsJsSpace(c: char) {
    ('\t' <= c <= '\r') || c == ' ' || c == '\U{A0}' || c == '\U{1680}'
    || ('\U{2000}' <= c <= '\U{200A}') || c == '\U{2028}' || c == '\U{2029}'
    || c == '\U{202F}' || c == '\U{205F}' || c == '\U{3000}' || c == '\U{FEFF}'
  }

  predicate AllDigits(s: string) { forall i :: 0 <= i < |s| ==> IsDigit(s[i]) }

  predicate NoSpace(s: string) { forall i :: 0 <= i < |s| ==> !IsJsSpace(s[i]) }

  /** The number a run of decimal digits denotes (`+s`, `parseInt(s)`). */
  function DigitsValue(s: string): nat
    requires AllDigits(s)
  {
    if |s| == 0 then 0 else 10 * DigitsValue(s[..|s| - 1]) + (s[|s| - 1] as int - '0' as int)
  }

  function DigitChar(d: nat): (c: char)
    requires d < 10
    ensures IsDigit(c) && c as int - '0' as int == d
  {
    (d + '0' as int) as char
  }

  /** How JavaScript renders a non-negative integer: its decimal digits,
      without leading zeros. */
  function NatToString(n: nat): (s: string)
    ensures |s| > 0 && AllDigits(s)
    ensures DigitsValue(s) == n
  {
    var last := [DigitChar(n % 10)];
    if n < 10 then last
    else
      var prefix := NatToString(n / 10);
      assert (prefix + last)[..|prefix + last| - 1] == prefix;
      prefix + last
  }

  // ----- occurrences and String.prototype.replace with a string pattern -----

  predicate OccursAt(s: string, pat: string, i: nat) {
    i + |pat| <= |s| && s[i..i + |pat|] == pat
  }

  /** `s.indexOf(pat)`: the first position at which `pat` occurs. */
  function IndexOf(s: string, pat: string, from: nat := 0): (r: Option<nat>)
    decreases |s| - from
    ensures r.Some? ==> from <= r.value && OccursAt(s, pat, r.value)
    ensures r.Some? ==> forall j :: from <= j < r.value ==> !OccursAt(s, pat, j)
    ensures r.None? ==> forall j :: from <= j ==> !OccursAt(s, pat, j)
  {
    if from + |pat| > |s| then None
    else if s[from..from + |pat|] == pat then Some(from)
    else IndexOf(s, pat, from + 1)
  }

  /** `s.replace(pat, rep)` with a plain-string pattern: only the first
      occurrence is replaced. (None of the replacement texts in this model
      contains `$`, so JavaScript's `$`-patterns play no part.) */
  function ReplaceFirst(s: string, pat: string, rep: string): (r: string)
    ensures IndexOf(s, pat).None? ==> r == s
    ensures IndexOf(s, pat).Some? ==>
      var i := IndexOf(s, pat).value;
      r == s[..i] + rep + s[i + |pat|..]
  {
    match IndexOf(s, pat)
    case None => s
    case Some(i) => s[..i] + rep + s[i + |pat|..]
  }

  lemma ReplaceFirstAbsent(s: string, pat: string, rep: string)
    requires forall j :: 0 <= j ==> !OccursAt(s, pat, j)
    ensures ReplaceFirst(s, pat, rep) == s
  {
  }

  lemma {:induction false} IndexOfFirst(s: string, pat: string, from: nat, k: nat)
    requires from <= k && OccursAt(s, pat, k) && forall m :: from <= m < k ==> !OccursAt(s, pat, m)
    decreases k - from
    ensures IndexOf(s, pat, from) == Some(k)
  {
    if from < k {
      IndexOfFirst(s, pat, from + 1, k);
    }
  }

  /** Removing a pattern that ends the text, and whose first character
      does not occur before it. */
  lemma RemoveTail(s: string, pat: string, k: nat)
    requires k < |s| && s[k..] == pat && s[k] !in s[..k]
    ensures ReplaceFirst(s, pat, "") == s[..k]
  {
    forall m | 0 <= m < k ensures !OccursAt(s, pat, m) {
      assert s[m] in s[..k];
    }
    IndexOfFirst(s, pat, 0, k);
  }

  /** A character that does not occur is not replaced. */
  lemma ReplaceAbsentChar(s: string, c: char, rep: string)
    requires c !in s
    ensures ReplaceFirst(s, [c], rep) == s
  {
    forall j | 0 <= j ensures !OccursAt(s, [c], j) {
      if j < |s| {
        assert s[j..j + 1] == [s[j]] && s[j] in s;
      }
    }
    ReplaceFirstAbsent(s, [c], rep);
  }

  /** The first occurrence of a character is where it is replaced. */
  lemma ReplaceFirstChar(s: string, k: nat, rep: string)
    requires k < |s| && forall m :: 0 <= m < k ==> s[m] != s[k]
    ensures ReplaceFirst(s, [s[k]], rep) == s[..k] + rep + s[k + 1..]
  {
    IndexOfChar(s, s[k], 0, k);
  }

  lemma {:induction false} IndexOfChar(s: string, c: char, from: nat, k: nat)
    requires from <= k < |s| && s[k] == c && forall m :: from <= m < k ==> s[m] != c
    decreases k - from
    ensures IndexOf(s, [c], from) == Some(k)
  {
    if from < k {
      assert s[from..from + 1] != [c] by { assert s[from..from + 1][0] == s[from]; }
      IndexOfChar(s, c, from + 1, k);
    } else {
      assert s[k..k + 1] == [c];
    }
  }

  /** JavaScript's case-insensitive matching folds ASCII letters. */
  function ToLowerAscii(c: char): char {
    if 'A' <= c <= 'Z' then (c as int + 32) as char else c
  }

  function LowerAscii(s: string): (r: string)
    ensures |r| == |s| && forall i :: 0 <= i < |s| ==> r[i] == ToLowerAscii(s[i])
  {
    if |s| == 0 then [] else [ToLowerAscii(s[0])] + LowerAscii(s[1..])
  }

  /** `s.replace(/pat/i, rep)` for a pattern of lower-case letters: the
      first occurrence, ignoring the case of ASCII letters, is replaced. */
  function ReplaceFirstIgnoreCase(s: string, pat: string, rep: string): (r: string)
    ensures IndexOf(LowerAscii(s), pat).None? ==> r == s
    ensures IndexOf(LowerAscii(s), pat).Some? ==>
      var i := IndexOf(LowerAscii(s), pat).value;
      i + |pat| <= |s| && r == s[..i] + rep + s[i + |pat|..]
  {
    match IndexOf(LowerAscii(s), pat)
    case None => s
    case Some(i) => s[..i] + rep + s[i + |pat|..]
  }

  /** Maps every character through `f` (a global single-character replace). */
  function MapChars(s: string, f: char -> char): (r: string)
    ensures |r| == |s| && forall i :: 0 <= i < |s| ==> r[i] == f(s[i])
  {
    if |s| == 0 then [] else [f(s[0])] + MapChars(s[1..], f)
  }

  // ----- trim -----

  function TrimStart(s: string): (r: string)
    ensures |r| <= |s| && r == s[|s| - |r|..]
    ensures r == [] || !IsJsSpace(r[0])
    ensures forall i :: 0 <= i < |s| - |r| ==> IsJsSpace(s[i])
  {
    if |s| > 0 && IsJsSpace(s[0]) then TrimStart(s[1..]) else s
  }

  function TrimEnd(s: string): (r: string)
    ensures |r| <= |s| && r == s[..|r|]
    ensures r == [] || !IsJsSpace(r[|r| - 1])
    ensures forall i :: |r| <= i < |s| ==> IsJsSpace(s[i])
  {
    if |s| > 0 && IsJsSpace(s[|s| - 1]) then TrimEnd(s[..|s| - 1]) else s
  }

  /** `String.prototype.trim` */
  function Trim(s: string): string {
    TrimEnd(TrimStart(s))
  }

  // ----- split and join -----

  /** `ws.join(sep)` */
  function Join(ws: seq<string>, sep: string): string {
    if |ws| == 0 then ""
    else if |ws| == 1 then ws[0]
    else ws[0] + sep + Join(ws[1..], sep)
  }

  /** `s.split(c)` for a single-character separator: the pieces between the
      occurrences of `c`, of which there is always at least one. */
  function SplitOn(s: string, c: char): (r: seq<string>)
    ensures |r| > 0
    ensures forall k :: 0 <= k < |r| ==> c !in r[k]
  {
    if c !in s then [s]
    else
      var i := FirstIndexOf(s, c);
      [s[..i]] + SplitOn(s[i + 1..], c)
  }

  function FirstIndexOf(s: string, c: char): (i: nat)
    requires c in s
    ensures i < |s| && s[i] == c && c !in s[..i]
  {
    if s[0] == c then 0 else 1 + FirstIndexOf(s[1..], c)
  }

  /** Splitting what `Join` glued together gives the pieces back, provided
      none of them contains the separator. */
  lemma {:induction false} SplitJoin(ws: seq<string>, c: char)
    requires |ws| > 0
    requires forall k :: 0 <= k < |ws| ==> c !in ws[k]
    ensures SplitOn(Join(ws, [c]), c) == ws
  {
    if |ws| == 1 {
    } else {
      var rest := Join(ws[1..], [c]);
      var s := ws[0] + [c] + rest;
      assert s[|ws[0]|] == c;
      assert s[..|ws[0]|] == ws[0];
      assert FirstIndexOf(s, c) == |ws[0]|;
      assert s[|ws[0]| + 1..] == rest;
      SplitJoin(ws[1..], c);
    }
  }

  /** The number of words separated by single spaces, `s.split(' ').length`. */
  function CountOf(s: string, c: char): nat {
    if |s| == 0 then 0 else (if s[0] == c then 1 else 0) + CountOf(s[1..], c)
  }

  lemma {:induction false} SplitOnLength(s: string, c: char)
    ensures |SplitOn(s, c)| == CountOf(s, c) + 1
  {
    if c !in s {
      CountOfAbsent(s, c);
    } else {
      var i := FirstIndexOf(s, c);
      SplitOnLength(s[i + 1..], c);
      CountOfSplit(s, c, i);
    }
  }

  lemma {:induction false} CountOfAbsent(s: string, c: char)
    requires c !in s
    ensures CountOf(s, c) == 0
  {
    if |s| > 0 {
      assert c !in s[1..];
      CountOfAbsent(s[1..], c);
    }
  }

  lemma {:induction false} CountOfSplit(s: string, c: char, i: nat)
    requires i < |s| && s[i] == c && c !in s[..i]
    ensures CountOf(s, c) == 1 + CountOf(s[i + 1..], c)
  {
    if i > 0 {
      assert s[0] != c by { assert s[..i][0] == s[0]; }
      assert s[1..][..i - 1] == s[..i][1..];
      CountOfSplit(s[1..], c, i - 1);
      assert s[1..][i..] == s[i + 1..];
    }
  }
}
