/** What `parseFraction` does to whole inputs of a few shapes: a fraction,
    with or without spaces around its slash, and a whole number followed by
    a fraction. */
module FractionLaws {
  import opened Wrappers
  import opened Strings
  import opened Fraction

  predicate AllSpaces(s: string) { forall k :: 0 <= k < |s| ==> IsJsSpace(s[k]) }

  /** Only digits, spaces and `/`. */
  predicate PlainChars(t: string) {
    forall k :: 0 <= k < |t| ==> IsDigit(t[k]) || IsJsSpace(t[k]) || t[k] == '/'
  }

  /** Digits, spaces and `/` are none of the characters the first two
      steps rewrite. */
  lemma PlainCharsKept(t: string)
    requires PlainChars(t)
    ensures MapChars(ApplyGlyphs(t, FractionGlyphs), SlashToSolidus) == t
  {
    PlainNoGlyph(t);
    PlainNoFractionSlash(t);
  }

  lemma PlainNoGlyph(t: string)
    requires PlainChars(t)
    ensures ApplyGlyphs(t, FractionGlyphs) == t
  {
    forall k | 0 <= k < |t| ensures !IsGlyph(t[k]) {
      PlainCharNotRewritten(t[k]);
    }
    NoGlyphs(t);
  }

  lemma PlainNoFractionSlash(t: string)
    requires PlainChars(t)
    ensures MapChars(t, SlashToSolidus) == t
  {
    forall k | 0 <= k < |t| ensures t[k] != FractionSlash {
      PlainCharNotRewritten(t[k]);
    }
    NoFractionSlash(t);
  }

  lemma PlainCharNotRewritten(c: char)
    requires IsDigit(c) || IsJsSpace(c) || c == '/'
    ensures !IsGlyph(c) && c != FractionSlash
  {
  }

  /** A fraction of ASCII digits, with any spaces around its slash, becomes
      the quotient of the two numbers (`Infinity` or `NaN` for a zero
      denominator). */
  lemma LoneFraction(input: string, decode: string -> string, show: real -> string,
                     x: string, sp1: string, sp2: string, y: string)
    requires decode(input) == x + sp1 + "/" + sp2 + y
    requires x != [] && y != [] && AllDigits(x) && AllDigits(y) && AllSpaces(sp1) && AllSpaces(sp2)
    ensures ParseFractionOf(input, decode, show) == Trim(ShowNumber(Divide(DigitsValue(x), DigitsValue(y)), show))
  {
    var t := decode(input);
    SpacedFractionPlain(x, sp1, sp2, y);
    PlainCharsKept(t);
    SpacedFractionTightened(x, sp1, sp2, y);
    FractionConverted(x, y);
    RenderOne(Value(Divide(DigitsValue(x), DigitsValue(y))), show);
  }

  lemma SpacedFractionPlain(x: string, sp1: string, sp2: string, y: string)
    requires AllDigits(x) && AllDigits(y) && AllSpaces(sp1) && AllSpaces(sp2)
    ensures PlainChars(x + sp1 + "/" + sp2 + y)
  {
    var t := x + sp1 + "/" + sp2 + y;
    forall k | 0 <= k < |t| ensures IsDigit(t[k]) || IsJsSpace(t[k]) || t[k] == '/' {
      if k < |x| { assert t[k] == x[k]; }
      else if k < |x| + |sp1| { assert t[k] == sp1[k - |x|]; }
      else if k == |x| + |sp1| { assert t[k] == '/'; }
      else if k < |x| + |sp1| + 1 + |sp2| { assert t[k] == sp2[k - |x| - |sp1| - 1]; }
      else { assert t[k] == y[k - |x| - |sp1| - 1 - |sp2|]; }
    }
  }

  lemma SpacedFractionTightened(x: string, sp1: string, sp2: string, y: string)
    requires x != [] && y != [] && AllDigits(x) && AllDigits(y) && AllSpaces(sp1) && AllSpaces(sp2)
    ensures Tighten(x + sp1 + "/" + sp2 + y) == x + "/" + y
  {
    var t := x + sp1 + "/" + sp2 + y;
    var sl := |x| + |sp1|;
    var b := sl + 1 + |sp2|;
    SpacedFractionShape(x, sp1, sp2, y);
    TightenDigits(t, 0, |x|, sl, b, |t|);
  }

  /** Where the parts of a spaced fraction sit. */
  lemma SpacedFractionShape(x: string, sp1: string, sp2: string, y: string)
    requires AllDigits(x) && AllDigits(y) && AllSpaces(sp1) && AllSpaces(sp2)
    ensures var t := x + sp1 + "/" + sp2 + y; var sl := |x| + |sp1|; var b := sl + 1 + |sp2|;
      && |t| == b + |y| && t[sl] == '/' && t[0..|x|] == x && t[b..|t|] == y
      && (forall k :: 0 <= k < |x| ==> IsDigit(t[k]))
      && (forall k :: |x| <= k < sl ==> IsJsSpace(t[k]))
      && (forall k :: sl < k < b ==> IsJsSpace(t[k]))
      && (forall k :: b <= k < |t| ==> IsDigit(t[k]))
  {
    var t := x + sp1 + "/" + sp2 + y;
    var sl := |x| + |sp1|;
    var b := sl + 1 + |sp2|;
    forall k | 0 <= k < |x| ensures IsDigit(t[k]) { assert t[k] == x[k]; }
    forall k | |x| <= k < sl ensures IsJsSpace(t[k]) { assert t[k] == sp1[k - |x|]; }
    forall k | sl < k < b ensures IsJsSpace(t[k]) { assert t[k] == sp2[k - sl - 1]; }
    forall k | b <= k < |t| ensures IsDigit(t[k]) { assert t[k] == y[k - b]; }
    assert t[0..|x|] == x;
    assert t[b..|t|] == y;
  }

  lemma FractionConverted(x: string, y: string)
    requires x != [] && y != [] && AllDigits(x) && AllDigits(y)
    ensures ConvertFrom(x + "/" + y, 0) == [Value(Divide(DigitsValue(x), DigitsValue(y)))]
  {
    var c := x + "/" + y;
    forall k | 0 <= k < |x| ensures IsDigit(c[k]) { assert c[k] == x[k]; }
    forall k | |x| < k < |c| ensures IsDigit(c[k]) { assert c[k] == y[k - |x| - 1]; }
    ConvertFraction(c, 0, |x|, |c|);
    assert c[0..|x|] == x;
    assert c[|x| + 1..|c|] == y;
  }

  /** `t` is a whole number `t[..d]`, spaces up to `p`, and a fraction
      `t[p..f]`, `/`, `t[f + 1..]` of ASCII digits. */
  predicate MixedAt(t: string, d: nat, p: nat, f: nat) {
    && 0 < d < p < f && f + 1 < |t| && t[f] == '/'
    && (forall k :: 0 <= k < d ==> IsDigit(t[k]))
    && (forall k :: d <= k < p ==> IsJsSpace(t[k]))
    && (forall k :: p <= k < f ==> IsDigit(t[k]))
    && (forall k :: f < k < |t| ==> IsDigit(t[k]))
  }

  /** A whole number, spaces and a fraction of ASCII digits become the
      number plus the quotient. */
  lemma MixedNumber(input: string, decode: string -> string, show: real -> string, d: nat, p: nat, f: nat)
    requires MixedAt(decode(input), d, p, f)
    ensures var t := decode(input);
      ParseFractionOf(input, decode, show)
      == Trim(ShowNumber(AddWhole(DigitsValue(t[..d]), Divide(DigitsValue(t[p..f]), DigitsValue(t[f + 1..]))), show))
  {
    var t := decode(input);
    var n := AddWhole(DigitsValue(t[..d]), Divide(DigitsValue(t[p..f]), DigitsValue(t[f + 1..])));
    assert ParseFractionOf(input, decode, show) == Trim(Render(ConvertFrom(t, 0), show)) by {
      MixedPlain(t, d, p, f);
      PlainCharsKept(t);
      MixedTightened(t, d, p, f);
    }
    assert Render(ConvertFrom(t, 0), show) == ShowNumber(n, show) by {
      MixedConverted(t, d, p, f);
      RenderOne(Value(n), show);
    }
  }

  lemma MixedPlain(t: string, d: nat, p: nat, f: nat)
    requires MixedAt(t, d, p, f)
    ensures PlainChars(t)
  {
    forall k | 0 <= k < |t| ensures IsDigit(t[k]) || IsJsSpace(t[k]) || t[k] == '/' {
      if k < d { } else if k < p { } else if k < f { } else if k == f { } else { }
    }
  }

  /** A mixed number has no spaces around its slash to remove. */
  lemma MixedTightened(t: string, d: nat, p: nat, f: nat)
    requires MixedAt(t, d, p, f)
    ensures Tighten(t) == t
  {
    assert TightenFrom(t, p) == t[p..f] + "/" + t[f + 1..] by {
      TightenDigitsLast(t, p, f, f, f + 1);
    }
    assert TightenFrom(t, 0) == t[0..p] + TightenFrom(t, p) by {
      assert IsDigit(t[p]);
      TightenSkipNumber(t, 0, d, p);
    }
    SlashSplit(t, p, f);
  }

  lemma SlashSplit(t: string, p: nat, f: nat)
    requires p <= f < |t| && t[f] == '/'
    ensures t[0..p] + (t[p..f] + "/" + t[f + 1..]) == t
  {
    assert t[p..f] + "/" + t[f + 1..] == t[p..];
  }

  lemma MixedConverted(t: string, d: nat, p: nat, f: nat)
    requires MixedAt(t, d, p, f)
    ensures ConvertFrom(t, 0)
      == [Value(AddWhole(DigitsValue(t[..d]), Divide(DigitsValue(t[p..f]), DigitsValue(t[f + 1..]))))]
  {
    ConvertMixed(t, 0, d, p, f, |t|);
    assert ConvertFrom(t, |t|) == [];
    assert t[0..d] == t[..d] && t[f + 1..|t|] == t[f + 1..];
  }

  /** A superscript numeral, the fraction slash U+2044 and a subscript
      numeral are read as the fraction of the two digits. */
  lemma NumeralFraction(input: string, decode: string -> string, show: real -> string, p: nat, q: nat)
    requires p < 10 && q < 10
    requires |decode(input)| == 3 && decode(input)[0] == SuperscriptDigits[p]
    requires decode(input)[1] == FractionSlash && decode(input)[2] == SubscriptDigits[q]
    ensures ParseFractionOf(input, decode, show) == Trim(ShowNumber(Divide(p, q), show))
  {
    var c := [DigitChar(p)] + "/" + [DigitChar(q)];
    NumeralFractionRewritten(decode(input), p, q);
    assert Render(ConvertFrom(c, 0), show) == ShowNumber(Divide(p, q), show) by {
      DigitFractionConverted(p, q);
      RenderOne(Value(Divide(p, q)), show);
    }
  }

  /** The first three steps turn such a text into the digit fraction. */
  lemma NumeralFractionRewritten(t: string, p: nat, q: nat)
    requires p < 10 && q < 10
    requires |t| == 3 && t[0] == SuperscriptDigits[p] && t[1] == FractionSlash && t[2] == SubscriptDigits[q]
    ensures Tighten(MapChars(ApplyGlyphs(t, FractionGlyphs), SlashToSolidus)) == [DigitChar(p)] + "/" + [DigitChar(q)]
  {
    NumeralsNoGlyph(t, p, q);
    var u := MapChars(t, SlashToSolidus);
    assert |u| == 3 && u[0] == SuperscriptDigits[p] && u[1] == '/' && u[2] == SubscriptDigits[q] by {
      CipherClasses(p, q);
    }
    NumeralFractionTightened(u, p, q);
  }

  lemma NumeralsNoGlyph(t: string, p: nat, q: nat)
    requires p < 10 && q < 10
    requires |t| == 3 && t[0] == SuperscriptDigits[p] && t[1] == FractionSlash && t[2] == SubscriptDigits[q]
    ensures ApplyGlyphs(t, FractionGlyphs) == t
  {
    CipherClasses(p, q);
    assert !IsGlyph(FractionSlash);
    NoGlyphs(t);
  }

  lemma DigitFractionConverted(p: nat, q: nat)
    requires p < 10 && q < 10
    ensures ConvertFrom([DigitChar(p)] + "/" + [DigitChar(q)], 0) == [Value(Divide(p, q))]
  {
    var x, y := [DigitChar(p)], [DigitChar(q)];
    assert AllDigits(x) && AllDigits(y);
    assert DigitsValue(x) == p && DigitsValue(y) == q;
    FractionConverted(x, y);
  }

  lemma RenderOne(p: Piece, show: real -> string)
    ensures p.Value? ==> Render([p], show) == ShowNumber(p.n, show)
  {
    assert [p][1..] == [];
  }
}
