/** lib/util/parse-fraction.ts: rewriting the fractions and mixed numbers of
    a text as decimals. The steps are those of `parseFraction`: entity
    decoding, the Unicode fraction glyphs, the fraction slash, the spacing
    and the super-/subscript numerals of fractions, and finally the numbers
    themselves. */
module Fraction {
  import opened Wrappers
  import opened Strings

  /** `fractionGlyphs`, in the order of its entries. */
  const FractionGlyphs: seq<(char, string)> := [
    ('\U{BC}', "1/4"), ('\U{BD}', "1/2"), ('\U{BE}', "3/4"),
    ('\U{2150}', "1/7"), ('\U{2151}', "1/9"), ('\U{2152}', "1/10"),
    ('\U{2153}', "1/3"), ('\U{2154}', "2/3"), ('\U{2155}', "1/5"),
    ('\U{2156}', "2/5"), ('\U{2157}', "3/5"), ('\U{2158}', "4/5"),
    ('\U{2159}', "1/6"), ('\U{215A}', "5/6"), ('\U{215B}', "1/8"),
    ('\U{215C}', "3/8"), ('\U{215D}', "5/8"), ('\U{215E}', "7/8")
  ]

  /** The characters of the glyph table: U+00BC to U+00BE and U+2150 to
      U+215E. */
  predicate IsGlyph(c: char) {
    ('\U{BC}' <= c <= '\U{BE}') || ('\U{2150}' <= c <= '\U{215E}')
  }

  /** Every key of `gs` is a glyph character. */
  predicate AllGlyphs(gs: seq<(char, string)>) {
    forall k :: 0 <= k < |gs| ==> IsGlyph(gs[k].0)
  }

  lemma GlyphTable()
    ensures |FractionGlyphs| == 18
    ensures AllGlyphs(FractionGlyphs)
  {
  }

  lemma GlyphForms()
    ensures FormsPlain(FractionGlyphs)
  {
  }

  /** The entries are in code point order, one per glyph. */
  function GlyphPosition(c: char): int {
    if c <= '\U{BE}' then c as int - 0xBC else c as int - 0x2150 + 3
  }

  lemma GlyphKeys()
    ensures KeysDistinct(FractionGlyphs)
  {
    assert forall i :: 0 <= i < |FractionGlyphs| ==> GlyphPosition(FractionGlyphs[i].0) == i;
  }

  /** No glyph is listed twice. */
  predicate KeysDistinct(gs: seq<(char, string)>) {
    forall i, j :: 0 <= i < j < |gs| ==> gs[i].0 != gs[j].0
  }

  /** The numerals `convertSuperscript` maps to 0 to 9, in that order. */
  const SuperscriptDigits: string :=
    ['\U{2070}', '\U{B9}', '\U{B2}', '\U{B3}', '\U{2074}', '\U{2075}', '\U{2076}', '\U{2077}', '\U{2078}', '\U{2079}']

  /** The numerals `convertSubscript` maps to 0 to 9, in that order. */
  const SubscriptDigits: string :=
    ['\U{2080}', '\U{2081}', '\U{2082}', '\U{2083}', '\U{2084}', '\U{2085}', '\U{2086}', '\U{2087}', '\U{2088}', '\U{2089}']

  /** The class `[⁰¹²³⁴⁵⁶⁷⁸⁹\d]` */
  predicate IsSuperOrDigit(c: char) {
    IsDigit(c) || c == '\U{2070}' || c == '\U{B9}' || c == '\U{B2}' || c == '\U{B3}' || ('\U{2074}' <= c <= '\U{2079}')
  }

  /** The class `[₀₁₂₃₄₅₆₇₈₉\d]` */
  predicate IsSubOrDigit(c: char) {
    IsDigit(c) || ('\U{2080}' <= c <= '\U{2089}')
  }

  /** The fraction slash U+2044 */
  const FractionSlash: char := '\U{2044}'

  /** `text.replace(fractionSlash, '/')`, character by character. */
  function SlashToSolidus(c: char): char {
    if c == FractionSlash then '/' else c
  }

  // ----- scanning helpers -----

  /** The end of the longest run of characters satisfying `p` from `i`. */
  function RunEnd(s: string, i: nat, p: char -> bool): (j: nat)
    requires i <= |s|
    decreases |s| - i
    ensures i <= j <= |s|
    ensures forall k :: i <= k < j ==> p(s[k])
    ensures j == |s| || !p(s[j])
  {
    if i == |s| || !p(s[i]) then i else RunEnd(s, i + 1, p)
  }

  /** A run is where its characters stop satisfying `p`. */
  lemma {:induction false} RunEndIs(s: string, i: nat, p: char -> bool, j: nat)
    requires i <= j <= |s|
    requires forall k :: i <= k < j ==> p(s[k])
    requires j == |s| || !p(s[j])
    decreases j - i
    ensures RunEnd(s, i, p) == j
  {
    if i < j {
      RunEndIs(s, i + 1, p, j);
    }
  }

  /** The position of the first character of `t` satisfying `p`. */
  function FindChar(t: string, p: char -> bool): (r: Option<nat>)
    ensures r.Some? ==> r.value < |t| && p(t[r.value]) && forall k :: 0 <= k < r.value ==> !p(t[k])
    ensures r.None? ==> forall k :: 0 <= k < |t| ==> !p(t[k])
  {
    var e := RunEnd(t, 0, c => !p(c));
    if e == |t| then None else Some(e)
  }

  /** `mapNumerals(cipher)(t)`: the pattern `[cipher]` has no global flag,
      so only the FIRST numeral of `t` found in the cipher becomes the ASCII
      digit of its position there. */
  function MapNumerals(cipher: string, t: string): (r: string)
    requires |cipher| == 10
    ensures |r| == |t|
    ensures (forall k :: 0 <= k < |t| ==> t[k] !in cipher) ==> r == t
    ensures forall k :: 0 <= k < |t| && t[k] in cipher && (forall m :: 0 <= m < k ==> t[m] !in cipher) ==>
      r == t[..k] + [DigitChar(FirstIndexOf(cipher, t[k]))] + t[k + 1..]
  {
    match FindChar(t, c => c in cipher)
    case None => t
    case Some(k) => t[..k] + [DigitChar(FirstIndexOf(cipher, t[k]))] + t[k + 1..]
  }

  lemma MapNumeralsDigits(cipher: string, t: string)
    requires |cipher| == 10 && AllDigits(t) && forall k :: 0 <= k < |cipher| ==> !IsDigit(cipher[k])
    ensures MapNumerals(cipher, t) == t
  {
    forall k | 0 <= k < |t| ensures t[k] !in cipher {
      assert forall m :: 0 <= m < |cipher| ==> cipher[m] != t[k];
    }
  }

  // ----- the glyph table -----

  /** The `forEach` over `fractionGlyphs`: for each glyph in turn, its
      first occurrence becomes a space followed by its text form. */
  function ApplyGlyphs(text: string, gs: seq<(char, string)>): string
    decreases |gs|
  {
    if gs == [] then text
    else ApplyGlyphs(ReplaceFirst(text, [gs[0].0], " " + gs[0].1), gs[1..])
  }

  /** One turn of the `forEach`. */
  lemma GlyphStep(text: string, gs: seq<(char, string)>, i: nat)
    requires i < |gs|
    ensures ApplyGlyphs(text, gs[i..]) == ApplyGlyphs(ReplaceFirst(text, [gs[i].0], " " + gs[i].1), gs[i + 1..])
  {
    assert gs[i..][1..] == gs[i + 1..];
  }

  /** A glyph that does not occur leaves the text alone. */
  lemma {:induction false} ApplyGlyphsAbsent(text: string, gs: seq<(char, string)>)
    requires forall k :: 0 <= k < |gs| ==> gs[k].0 !in text
    ensures ApplyGlyphs(text, gs) == text
  {
    if gs != [] {
      ReplaceAbsentChar(text, gs[0].0, " " + gs[0].1);
      ApplyGlyphsAbsent(text, gs[1..]);
    }
  }

  // ----- spacing and numerals of fractions -----

  /** A match of `([⁰¹²³⁴⁵⁶⁷⁸⁹\d]+)\s*\/\s*([₀₁₂₃₄₅₆₇₈₉\d]+)` at `i`: the end of
      the first group, and the start and the end of the second. The runs are
      greedy, and giving characters back never helps, because a run is
      followed by a character outside its class. */
  function SlashFractionAt(s: string, i: nat): (r: Option<(nat, nat, nat)>)
    requires i <= |s|
    ensures r.Some? ==> i < r.value.0 < r.value.1 < r.value.2 <= |s|
    ensures r.Some? ==> exists k :: i <= k < |s| && s[k] == '/'
  {
    var a := RunEnd(s, i, IsSuperOrDigit);
    var sp := RunEnd(s, a, IsJsSpace);
    if a == i || sp == |s| || s[sp] != '/' then None
    else
      var b := RunEnd(s, sp + 1, IsJsSpace);
      var e := RunEnd(s, b, IsSubOrDigit);
      if e == b then None else Some((a, b, e))
  }

  /** The global replace of that pattern by the first group with its first
      superscript numeral mapped, `/`, and the second group with its first
      subscript numeral mapped, scanning from `i`. */
  function TightenFrom(s: string, i: nat): string
    requires i <= |s|
    decreases |s| - i
  {
    if i == |s| then []
    else match SlashFractionAt(s, i)
      case None => [s[i]] + TightenFrom(s, i + 1)
      case Some((a, b, e)) =>
        MapNumerals(SuperscriptDigits, s[i..a]) + "/" + MapNumerals(SubscriptDigits, s[b..e]) + TightenFrom(s, e)
  }

  function Tighten(s: string): string { TightenFrom(s, 0) }

  /** Without a `/` there is no fraction to tighten. */
  lemma {:induction false} TightenNoSlash(s: string, i: nat)
    requires i <= |s| && forall k :: i <= k < |s| ==> s[k] != '/'
    decreases |s| - i
    ensures TightenFrom(s, i) == s[i..]
  {
    if i < |s| {
      assert SlashFractionAt(s, i).None?;
      TightenNoSlash(s, i + 1);
      assert s[i..] == [s[i]] + s[i + 1..];
    }
  }

  /** A number `s[i..a]` followed by spaces up to `p` and then neither a
      `/` nor a numeral holds no fraction: the scan keeps it. */
  lemma {:induction false} TightenSkipNumber(s: string, i: nat, a: nat, p: nat)
    requires i <= a < p < |s|
    requires forall k :: i <= k < a ==> IsDigit(s[k])
    requires forall k :: a <= k < p ==> IsJsSpace(s[k])
    requires s[p] != '/' && !IsJsSpace(s[p])
    decreases p - i
    ensures TightenFrom(s, i) == s[i..p] + TightenFrom(s, p)
  {
    NoSlashFractionAt(s, i, a, p);
    TightenKeeps(s, i);
    if i + 1 < p {
      TightenSkipNumber(s, i + 1, if i < a then a else i + 1, p);
    }
    ConsSlice(s, i, p, TightenFrom(s, p));
  }

  lemma ConsSlice(s: string, i: nat, p: nat, rest: string)
    requires i < p <= |s|
    ensures [s[i]] + (s[i + 1..p] + rest) == s[i..p] + rest
  {
    assert s[i..p] == [s[i]] + s[i + 1..p];
  }

  lemma TightenKeeps(s: string, i: nat)
    requires i < |s| && SlashFractionAt(s, i).None?
    ensures TightenFrom(s, i) == [s[i]] + TightenFrom(s, i + 1)
  {
  }

  lemma NoSlashFractionAt(s: string, i: nat, a: nat, p: nat)
    requires i <= a < p < |s|
    requires forall k :: i <= k < a ==> IsDigit(s[k])
    requires forall k :: a <= k < p ==> IsJsSpace(s[k])
    requires s[p] != '/' && !IsJsSpace(s[p])
    ensures SlashFractionAt(s, i).None?
  {
    if i < a {
      assert !IsSuperOrDigit(s[a]) by { assert IsJsSpace(s[a]); }
      RunEndIs(s, i, IsSuperOrDigit, a);
      RunEndIs(s, a, IsJsSpace, p);
    } else {
      assert !IsSuperOrDigit(s[i]) by { assert IsJsSpace(s[i]); }
    }
  }

  /** A fraction of ASCII digits loses the spaces around its slash:
      digits `s[i..a]`, spaces, `/` at `sl`, spaces, digits `s[b..e]`
      become `s[i..a] + "/" + s[b..e]`. */
  lemma TightenDigits(s: string, i: nat, a: nat, sl: nat, b: nat, e: nat)
    requires i < a <= sl < b < e <= |s| && s[sl] == '/'
    requires forall k :: i <= k < a ==> IsDigit(s[k])
    requires forall k :: a <= k < sl ==> IsJsSpace(s[k])
    requires forall k :: sl < k < b ==> IsJsSpace(s[k])
    requires forall k :: b <= k < e ==> IsDigit(s[k])
    requires e == |s| || !IsSubOrDigit(s[e])
    ensures TightenFrom(s, i) == s[i..a] + "/" + s[b..e] + TightenFrom(s, e)
  {
    SlashFractionDigits(s, i, a, sl, b, e);
    GlyphCiphers();
    MapNumeralsDigits(SuperscriptDigits, s[i..a]);
    MapNumeralsDigits(SubscriptDigits, s[b..e]);
  }

  /** The same for a fraction that ends the text. */
  lemma TightenDigitsLast(s: string, i: nat, a: nat, sl: nat, b: nat)
    requires i < a <= sl < b < |s| && s[sl] == '/'
    requires forall k :: i <= k < a ==> IsDigit(s[k])
    requires forall k :: a <= k < sl ==> IsJsSpace(s[k])
    requires forall k :: sl < k < b ==> IsJsSpace(s[k])
    requires forall k :: b <= k < |s| ==> IsDigit(s[k])
    ensures TightenFrom(s, i) == s[i..a] + "/" + s[b..]
  {
    assert TightenFrom(s, i) == s[i..a] + "/" + s[b..|s|] + TightenFrom(s, |s|) by {
      TightenDigits(s, i, a, sl, b, |s|);
    }
    assert TightenFrom(s, |s|) == [];
    assert s[b..|s|] == s[b..];
  }

  lemma SlashFractionDigits(s: string, i: nat, a: nat, sl: nat, b: nat, e: nat)
    requires i < a <= sl < b < e <= |s| && s[sl] == '/'
    requires forall k :: i <= k < a ==> IsDigit(s[k])
    requires forall k :: a <= k < sl ==> IsJsSpace(s[k])
    requires forall k :: sl < k < b ==> IsJsSpace(s[k])
    requires forall k :: b <= k < e ==> IsDigit(s[k])
    requires e == |s| || !IsSubOrDigit(s[e])
    ensures SlashFractionAt(s, i) == Some((a, b, e))
  {
    assert !IsSuperOrDigit(s[a]) by { if a < sl { assert IsJsSpace(s[a]); } }
    RunEndIs(s, i, IsSuperOrDigit, a);
    RunEndIs(s, a, IsJsSpace, sl);
    assert !IsJsSpace(s[b]) by { assert IsDigit(s[b]); }
    RunEndIs(s, sl + 1, IsJsSpace, b);
    RunEndIs(s, b, IsSubOrDigit, e);
    SlashFractionRuns(s, i, a, sl, b, e);
  }

  lemma SlashFractionRuns(s: string, i: nat, a: nat, sl: nat, b: nat, e: nat)
    requires i < a <= sl < b < e <= |s| && s[sl] == '/'
    requires RunEnd(s, i, IsSuperOrDigit) == a && RunEnd(s, a, IsJsSpace) == sl
    requires RunEnd(s, sl + 1, IsJsSpace) == b && RunEnd(s, b, IsSubOrDigit) == e
    ensures SlashFractionAt(s, i) == Some((a, b, e))
  {
  }

  lemma GlyphCiphers()
    ensures |SuperscriptDigits| == 10 && forall k :: 0 <= k < 10 ==> !IsDigit(SuperscriptDigits[k])
    ensures |SubscriptDigits| == 10 && forall k :: 0 <= k < 10 ==> !IsDigit(SubscriptDigits[k])
  {
  }

  /** Each numeral is listed once. */
  lemma CiphersDistinct()
    ensures forall i, j :: 0 <= i < j < 10 ==> SuperscriptDigits[i] != SuperscriptDigits[j]
    ensures forall i, j :: 0 <= i < j < 10 ==> SubscriptDigits[i] != SubscriptDigits[j]
  {
  }

  /** A numeral is mapped to its place in its list. */
  lemma NumeralMapped(cipher: string, p: nat)
    requires |cipher| == 10 && p < 10
    requires forall i, j :: 0 <= i < j < 10 ==> cipher[i] != cipher[j]
    ensures MapNumerals(cipher, [cipher[p]]) == [DigitChar(p)]
  {
    assert FirstIndexOf(cipher, cipher[p]) == p;
    assert [cipher[p]][..0] == [] && [cipher[p]][1..] == [];
  }

  /** A superscript numeral, `/` and a subscript numeral become the two
      digits either side of `/`. */
  lemma NumeralFractionTightened(s: string, p: nat, q: nat)
    requires p < 10 && q < 10
    requires |s| == 3 && s[0] == SuperscriptDigits[p] && s[1] == '/' && s[2] == SubscriptDigits[q]
    ensures Tighten(s) == [DigitChar(p)] + "/" + [DigitChar(q)]
  {
    CipherClasses(p, q);
    OneCharFractionTightened(s);
    FirstNumeralMapped(SuperscriptDigits, p);
    FirstNumeralMapped(SubscriptDigits, q);
  }

  /** A one-numeral operand becomes the digit of its place. */
  lemma FirstNumeralMapped(cipher: string, p: nat)
    requires (cipher == SuperscriptDigits || cipher == SubscriptDigits) && p < 10
    ensures MapNumerals(cipher, [cipher[p]]) == [DigitChar(p)]
  {
    CiphersDistinct();
    NumeralMapped(cipher, p);
  }

  lemma CipherClasses(p: nat, q: nat)
    requires p < 10 && q < 10
    ensures IsSuperOrDigit(SuperscriptDigits[p]) && IsSubOrDigit(SubscriptDigits[q]) && !IsJsSpace(SubscriptDigits[q])
    ensures !IsGlyph(SuperscriptDigits[p]) && !IsGlyph(SubscriptDigits[q])
    ensures SuperscriptDigits[p] != FractionSlash && SubscriptDigits[q] != FractionSlash
  {
  }

  lemma OneCharFractionTightened(s: string)
    requires |s| == 3 && s[1] == '/' && IsSuperOrDigit(s[0]) && IsSubOrDigit(s[2]) && !IsJsSpace(s[2])
    ensures Tighten(s) == MapNumerals(SuperscriptDigits, [s[0]]) + "/" + MapNumerals(SubscriptDigits, [s[2]])
  {
    assert s[0..1] == [s[0]] && s[2..3] == [s[2]];
    RunEndIs(s, 0, IsSuperOrDigit, 1);
    RunEndIs(s, 1, IsJsSpace, 1);
    RunEndIs(s, 2, IsJsSpace, 2);
    RunEndIs(s, 2, IsSubOrDigit, 3);
    assert TightenFrom(s, 3) == [];
  }

  // ----- numbers -----

  /** A JavaScript number as dividing two digit strings can give it. */
  datatype Number = Finite(v: real) | Infinity | NaN

  /** `a / b` on the digit strings: `Infinity` for a zero divisor, `NaN`
      for 0/0. */
  function Divide(a: nat, b: nat): (r: Number)
    ensures b != 0 <==> r.Finite?
    ensures r.Finite? ==> r.v * b as real == a as real
  {
    if b != 0 then Finite(a as real / b as real) else if a == 0 then NaN else Infinity
  }

  /** `parseInt(num) + x` */
  function AddWhole(n: nat, x: Number): (r: Number)
    ensures r.Finite? <==> x.Finite?
    ensures r.Finite? ==> r.v == n as real + x.v
  {
    match x
    case Finite(v) => Finite(n as real + v)
    case _ => x
  }

  /** What the replacement callback returns: the matched number as written,
      or a computed number. */
  datatype Piece = Text(s: string) | Value(n: Number)

  /** `(?:\s+(\d+)\/(\d+))?` at `n`: the quotient and the end, if the group
      matches. */
  function FractionAfter(s: string, n: nat): (r: Option<(Number, nat)>)
    requires n <= |s|
    ensures r.Some? ==> n < r.value.1 <= |s|
  {
    var w := RunEnd(s, n, IsJsSpace);
    var f1 := RunEnd(s, w, IsDigit);
    if w == n || f1 == w || f1 == |s| || s[f1] != '/' then None
    else
      var f2 := RunEnd(s, f1 + 1, IsDigit);
      if f2 == f1 + 1 then None
      else Some((Divide(DigitsValue(s[w..f1]), DigitsValue(s[f1 + 1..f2])), f2))
  }

  /** A match of `(?:(\d+)\/(\d+)|(\d+(?:\.\d+)?)(?:\s+(\d+)\/(\d+))?)` at
      `i`, as the piece the callback returns for it and the end of the
      match: a fraction gives its quotient; a number followed by a fraction
      gives `parseInt` of the number (its digits before any `.`) plus the
      quotient; a lone number is returned as written. */
  function NumberAt(s: string, i: nat): (r: Option<(Piece, nat)>)
    requires i <= |s|
    ensures r.Some? <==> i < |s| && IsDigit(s[i])
    ensures r.Some? ==> i < r.value.1 <= |s|
    ensures r.Some? && r.value.0.Text? ==> r.value.0.s == s[i..r.value.1]
  {
    var d := RunEnd(s, i, IsDigit);
    if d == i then None
    else if d < |s| && s[d] == '/' && RunEnd(s, d + 1, IsDigit) > d + 1 then
      var e := RunEnd(s, d + 1, IsDigit);
      Some((Value(Divide(DigitsValue(s[i..d]), DigitsValue(s[d + 1..e]))), e))
    else
      var n := if d + 1 < |s| && s[d] == '.' && IsDigit(s[d + 1]) then RunEnd(s, d + 1, IsDigit) else d;
      match FractionAfter(s, n)
      case Some((f, e)) => Some((Value(AddWhole(DigitsValue(s[i..d]), f)), e))
      case None => Some((Text(s[i..n]), n))
  }

  /** The global replace of the number pattern, scanning from `i`: a
      character where no number starts is kept. */
  function ConvertFrom(s: string, i: nat): seq<Piece>
    requires i <= |s|
    decreases |s| - i
  {
    if i == |s| then []
    else match NumberAt(s, i)
      case None => [Text([s[i]])] + ConvertFrom(s, i + 1)
      case Some((p, e)) => [p] + ConvertFrom(s, e)
  }

  /** The text of the replaced pieces. How JavaScript prints a finite
      number is the parameter `show`. */
  function Render(ps: seq<Piece>, show: real -> string): string {
    if ps == [] then ""
    else
      var head := match ps[0]
        case Text(t) => t
        case Value(n) => ShowNumber(n, show);
      head + Render(ps[1..], show)
  }

  /** `String(n)` */
  function ShowNumber(n: Number, show: real -> string): string {
    match n
    case Finite(v) => show(v)
    case Infinity => "Infinity"
    case NaN => "NaN"
  }

  lemma {:induction false} RenderAppend(a: seq<Piece>, b: seq<Piece>, show: real -> string)
    ensures Render(a + b, show) == Render(a, show) + Render(b, show)
  {
    if a != [] {
      assert (a + b)[1..] == a[1..] + b;
      RenderAppend(a[1..], b, show);
    } else {
      assert a + b == b;
    }
  }

  /** Without a `/`, every number is returned as written, so the text
      comes back unchanged. */
  lemma {:induction false} ConvertNoSlash(s: string, i: nat, show: real -> string)
    requires i <= |s| && forall k :: i <= k < |s| ==> s[k] != '/'
    decreases |s| - i
    ensures Render(ConvertFrom(s, i), show) == s[i..]
  {
    if i < |s| {
      var e := StepNoSlash(s, i);
      calc {
        Render(ConvertFrom(s, i), show);
        Render([Text(s[i..e])] + ConvertFrom(s, e), show);
        { RenderCons(Text(s[i..e]), ConvertFrom(s, e), show); }
        s[i..e] + Render(ConvertFrom(s, e), show);
        { ConvertNoSlash(s, e, show); }
        s[i..e] + s[e..];
        { SliceJoin(s, i, e); }
        s[i..];
      }
    }
  }

  lemma SliceJoin(s: string, i: nat, e: nat)
    requires i <= e <= |s|
    ensures s[i..e] + s[e..] == s[i..]
  {
  }

  lemma RenderCons(p: Piece, ps: seq<Piece>, show: real -> string)
    ensures p.Text? ==> Render([p] + ps, show) == p.s + Render(ps, show)
  {
    assert ([p] + ps)[1..] == ps;
  }

  /** Without a `/`, one step of the scan keeps what it passes over. */
  lemma StepNoSlash(s: string, i: nat) returns (e: nat)
    requires i < |s| && forall k :: i <= k < |s| ==> s[k] != '/'
    ensures i < e <= |s|
    ensures ConvertFrom(s, i) == [Text(s[i..e])] + ConvertFrom(s, e)
  {
    NumberNoSlash(s, i);
    match NumberAt(s, i)
    case None =>
      e := i + 1;
      assert s[i..e] == [s[i]];
    case Some((p, end)) =>
      e := end;
  }

  lemma NumberNoSlash(s: string, i: nat)
    requires i <= |s| && forall k :: i <= k < |s| ==> s[k] != '/'
    ensures NumberAt(s, i).Some? ==> NumberAt(s, i).value.0.Text?
  {
    var d := RunEnd(s, i, IsDigit);
    if d > i {
      var n := if d + 1 < |s| && s[d] == '.' && IsDigit(s[d + 1]) then RunEnd(s, d + 1, IsDigit) else d;
      var w := RunEnd(s, n, IsJsSpace);
      var f1 := RunEnd(s, w, IsDigit);
      assert FractionAfter(s, n).None?;
    }
  }

  /** A fraction of ASCII digits, `s[i..d]`, `/`, `s[d + 1..e]`, becomes
      their quotient. */
  lemma ConvertFraction(s: string, i: nat, d: nat, e: nat)
    requires i < d && d + 1 < e <= |s| && s[d] == '/'
    requires forall k :: i <= k < d ==> IsDigit(s[k])
    requires forall k :: d < k < e ==> IsDigit(s[k])
    requires e == |s| || !IsDigit(s[e])
    ensures ConvertFrom(s, i)
      == [Value(Divide(DigitsValue(s[i..d]), DigitsValue(s[d + 1..e])))] + ConvertFrom(s, e)
  {
    NumberFraction(s, i, d, e);
  }

  lemma NumberFraction(s: string, i: nat, d: nat, e: nat)
    requires i < d && d + 1 < e <= |s| && s[d] == '/'
    requires forall k :: i <= k < d ==> IsDigit(s[k])
    requires forall k :: d < k < e ==> IsDigit(s[k])
    requires e == |s| || !IsDigit(s[e])
    ensures NumberAt(s, i) == Some((Value(Divide(DigitsValue(s[i..d]), DigitsValue(s[d + 1..e]))), e))
  {
    RunEndIs(s, i, IsDigit, d);
    RunEndIs(s, d + 1, IsDigit, e);
  }

  /** A whole number `s[i..d]`, spaces, and a fraction `s[w..f]`, `/`,
      `s[f + 1..e]` become the number plus the quotient. */
  lemma ConvertMixed(s: string, i: nat, d: nat, w: nat, f: nat, e: nat)
    requires i < d < w < f && f + 1 < e <= |s| && s[f] == '/'
    requires forall k :: i <= k < d ==> IsDigit(s[k])
    requires forall k :: d <= k < w ==> IsJsSpace(s[k])
    requires forall k :: w <= k < f ==> IsDigit(s[k])
    requires forall k :: f < k < e ==> IsDigit(s[k])
    requires e == |s| || !IsDigit(s[e])
    ensures ConvertFrom(s, i)
      == [Value(AddWhole(DigitsValue(s[i..d]), Divide(DigitsValue(s[w..f]), DigitsValue(s[f + 1..e]))))]
         + ConvertFrom(s, e)
  {
    RunEndIs(s, i, IsDigit, d);
    assert !IsDigit(s[d]) by { assert IsJsSpace(s[d]); }
    FractionAfterIs(s, d, w, f, e);
  }

  lemma FractionAfterIs(s: string, n: nat, w: nat, f: nat, e: nat)
    requires n < w < f && f + 1 < e <= |s| && s[f] == '/'
    requires forall k :: n <= k < w ==> IsJsSpace(s[k])
    requires forall k :: w <= k < f ==> IsDigit(s[k])
    requires forall k :: f < k < e ==> IsDigit(s[k])
    requires e == |s| || !IsDigit(s[e])
    ensures FractionAfter(s, n) == Some((Divide(DigitsValue(s[w..f]), DigitsValue(s[f + 1..e])), e))
  {
    assert !IsJsSpace(s[w]) by { assert IsDigit(s[w]); }
    RunEndIs(s, n, IsJsSpace, w);
    RunEndIs(s, w, IsDigit, f);
    RunEndIs(s, f + 1, IsDigit, e);
    FractionAfterRuns(s, n, w, f, e);
  }

  lemma FractionAfterRuns(s: string, n: nat, w: nat, f: nat, e: nat)
    requires n < w < f && f + 1 < e <= |s| && s[f] == '/'
    requires RunEnd(s, n, IsJsSpace) == w && RunEnd(s, w, IsDigit) == f && RunEnd(s, f + 1, IsDigit) == e
    ensures FractionAfter(s, n) == Some((Divide(DigitsValue(s[w..f]), DigitsValue(s[f + 1..e])), e))
  {
  }

  // ----- parseFraction -----

  /** `parseFraction(text)`. `decode` is `he.decode`; `show` is how
      JavaScript prints a finite number. */
  function ParseFractionOf(input: string, decode: string -> string, show: real -> string): string {
    var glyphed := ApplyGlyphs(decode(input), FractionGlyphs);
    var slashed := MapChars(glyphed, SlashToSolidus);
    Trim(Render(ConvertFrom(Tighten(slashed), 0), show))
  }

  /** `parseFraction`, step by step as the source rewrites `text`. */
  method ParseFraction(input: string, decode: string -> string, show: real -> string) returns (r: string)
    ensures r == ParseFractionOf(input, decode, show)
  {
    var text := decode(input);
    ghost var decoded := text;
    var i := 0;
    while i < |FractionGlyphs|
      invariant 0 <= i <= |FractionGlyphs|
      invariant ApplyGlyphs(text, FractionGlyphs[i..]) == ApplyGlyphs(decoded, FractionGlyphs)
    {
      var (glyph, textForm) := FractionGlyphs[i];
      GlyphStep(text, FractionGlyphs, i);
      text := ReplaceFirst(text, [glyph], " " + textForm);
      i := i + 1;
    }
    text := MapChars(text, SlashToSolidus);
    text := Tighten(text);
    r := Trim(Render(ConvertFrom(text, 0), show));
  }

  lemma NoGlyphs(t: string)
    requires forall k :: 0 <= k < |t| ==> !IsGlyph(t[k])
    ensures ApplyGlyphs(t, FractionGlyphs) == t
  {
    GlyphTable();
    ApplyGlyphsNone(t, FractionGlyphs);
  }

  lemma {:induction false} ApplyGlyphsNone(t: string, gs: seq<(char, string)>)
    requires forall k :: 0 <= k < |t| ==> !IsGlyph(t[k])
    requires AllGlyphs(gs)
    ensures ApplyGlyphs(t, gs) == t
  {
    forall k | 0 <= k < |gs| ensures gs[k].0 !in t {
      assert IsGlyph(gs[k].0);
    }
    ApplyGlyphsAbsent(t, gs);
  }

  /** The texts of the glyphs hold no glyph. */
  predicate FormsPlain(gs: seq<(char, string)>) {
    forall i, m :: 0 <= i < |gs| && 0 <= m < |gs[i].1| ==> !IsGlyph(gs[i].1[m])
  }

  /** A text with one glyph gets that glyph's text form, after a space,
      in its place; the rest of the text is kept. */
  lemma {:induction false} ApplyOneGlyph(t: string, k: nat, gs: seq<(char, string)>, j: nat)
    requires k < |t| && j < |gs| && AllGlyphs(gs) && FormsPlain(gs)
    requires forall m :: 0 <= m < |t| && m != k ==> !IsGlyph(t[m])
    requires gs[j].0 == t[k] && forall i :: 0 <= i < j ==> gs[i].0 != t[k]
    decreases j
    ensures ApplyGlyphs(t, gs) == t[..k] + " " + gs[j].1 + t[k + 1..]
  {
    var g := gs[0].0;
    assert IsGlyph(g);
    if j == 0 {
      var u := t[..k] + " " + gs[0].1 + t[k + 1..];
      assert forall m :: 0 <= m < k ==> t[m] != t[k] by {
        forall m | 0 <= m < k ensures t[m] != t[k] { assert !IsGlyph(t[m]); }
      }
      ReplaceFirstChar(t, k, " " + gs[0].1);
      assert t[..k] + (" " + gs[0].1) + t[k + 1..] == u;
      assert ApplyGlyphs(t, gs) == ApplyGlyphs(u, gs[1..]);
      OneGlyphReplaced(t, k, gs[0].1);
      ApplyGlyphsNone(u, gs[1..]);
    } else {
      assert g !in t by {
        forall m | 0 <= m < |t| ensures t[m] != g { if m != k { assert !IsGlyph(t[m]); } }
      }
      ReplaceAbsentChar(t, g, " " + gs[0].1);
      assert gs[1..][j - 1] == gs[j];
      ApplyOneGlyph(t, k, gs[1..], j - 1);
    }
  }

  lemma OneGlyphReplaced(t: string, k: nat, form: string)
    requires k < |t| && forall m :: 0 <= m < |t| && m != k ==> !IsGlyph(t[m])
    requires forall m :: 0 <= m < |form| ==> !IsGlyph(form[m])
    ensures var u := t[..k] + " " + form + t[k + 1..]; forall m :: 0 <= m < |u| ==> !IsGlyph(u[m])
  {
    var u := t[..k] + " " + form + t[k + 1..];
    forall m | 0 <= m < |u| ensures !IsGlyph(u[m]) {
      if m < k { assert u[m] == t[m]; }
      else if m == k { assert u[m] == ' '; }
      else if m < k + 1 + |form| { assert u[m] == form[m - k - 1]; }
      else { assert u[m] == t[m - |form|]; }
    }
  }

  /** With distinct glyph keys (as `FractionGlyphs` has, by `GlyphTable`,
      `GlyphForms` and `GlyphKeys`), a text whose one glyph is the key of
      entry `j` gets that entry's text form, after a space, in its place. */
  lemma ApplyDistinctGlyph(t: string, k: nat, gs: seq<(char, string)>, j: nat)
    requires k < |t| && j < |gs| && AllGlyphs(gs) && FormsPlain(gs) && KeysDistinct(gs)
    requires forall m :: 0 <= m < |t| && m != k ==> !IsGlyph(t[m])
    requires gs[j].0 == t[k]
    ensures ApplyGlyphs(t, gs) == t[..k] + " " + gs[j].1 + t[k + 1..]
  {
    assert forall i :: 0 <= i < j ==> gs[i].0 != gs[j].0;
    ApplyOneGlyph(t, k, gs, j);
  }

  lemma NoFractionSlash(t: string)
    requires forall k :: 0 <= k < |t| ==> t[k] != FractionSlash
    ensures MapChars(t, SlashToSolidus) == t
  {
  }

  /** Text without glyphs, fraction slashes or `/` comes back trimmed but
      otherwise unchanged: numbers in it are kept as written. */
  lemma PlainTextUnchanged(input: string, decode: string -> string, show: real -> string)
    requires forall k :: 0 <= k < |decode(input)| ==>
      !IsGlyph(decode(input)[k]) && decode(input)[k] != FractionSlash && decode(input)[k] != '/'
    ensures ParseFractionOf(input, decode, show) == Trim(decode(input))
  {
    var t := decode(input);
    NoGlyphs(t);
    NoFractionSlash(t);
    TightenNoSlash(t, 0);
    ConvertNoSlash(t, 0, show);
  }
}
