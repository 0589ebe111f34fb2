/** lib/util/convert-oven-temperatures.ts: rewriting an oven temperature
    given in Fahrenheit or as a gas mark in Celsius. Each of the three
    regular expressions is applied once, without the `g` flag, so only its
    first match is rewritten; the regular expression engine is left abstract
    and stands here as the first match it would return, broken into the text
    before it, its groups and the text after it. `fahrenheitToCelsius`,
    whose file is not part of this model, is the parameter `f2c`. */
module Oven {
  import opened Wrappers
  import opened Strings
  import opened Number
  import opened GasMark

  /** A run of decimal digits, as `(\d+)` captures. */
  type Digits = s: string | AllDigits(s)

  /** A single decimal digit, as `([0-9])` captures. */
  type Digit = c: char | IsDigit(c) witness '0'

  /** A match of `(\d+)(\s*)(°|'|degrees?)?(\s*)(F|Fahrenheit|C|Centigrate|Celsius)`:
      the five groups, of which the third may be absent, and the text on
      either side. */
  datatype TempMatch = TempMatch(before: string, temp: Digits, space1: string, deg: Option<string>, space2: string, unit: string, after: string)

  /** A match of `oven\s*to\s*(\d+)\s*(°|'|degrees?)?`: the matched text,
      its first group and the text on either side. */
  datatype OvenToMatch = OvenToMatch(before: string, matched: string, temp: Digits, after: string)

  /** A match of `gas\s*mark\s*([0-9])`: the matched text, its digit and the
      text on either side. */
  datatype GasMarkMatch = GasMarkMatch(before: string, matched: string, mark: Digit, after: string)

  /** The first match of each of the three patterns in a text, or `None`. */
  datatype Matchers = Matchers(
    temperature: string -> Option<TempMatch>,
    ovenTo: string -> Option<OvenToMatch>,
    gasMark: string -> Option<GasMarkMatch>)

  /** The text a present degree group matched. */
  function DegText(deg: Option<string>): string {
    match deg
    case Some(d) => d
    case None => ""
  }

  /** The text the first rule matched. */
  function TempMatched(m: TempMatch): string {
    m.temp + m.space1 + DegText(m.deg) + m.space2 + m.unit
  }

  /** A match as the engine returns it: the text is the part before, the
      match and the part after. */
  predicate TempSplits(text: string, m: TempMatch) {
    text == m.before + TempMatched(m) + m.after
  }

  predicate OvenToSplits(text: string, m: OvenToMatch) {
    text == m.before + m.matched + m.after
  }

  predicate GasMarkSplits(text: string, m: GasMarkMatch) {
    text == m.before + m.matched + m.after
  }

  // ----- rule 1: a number followed by a temperature unit -----

  /** `unit.toLowerCase().startsWith('f')` */
  predicate FahrenheitUnit(unit: string) {
    |unit| > 0 && ToLowerAscii(unit[0]) == 'f'
  }

  /** The rule converts when the unit names Fahrenheit or the number is
      above 250, whatever unit it has. */
  predicate TempConverts(m: TempMatch) {
    FahrenheitUnit(m.unit) || DigitsValue(m.temp) > 250
  }

  /** `round5(fahrenheitToCelsius(+temp))`, as JavaScript writes it. */
  function CelsiusText(temp: Digits, f2c: real -> real): string {
    NatToString(Round5(f2c(DigitsValue(temp) as real)))
  }

  /** How the replacement callback writes the degree group: an absent
      group is JavaScript's `undefined`, which the concatenation spells out. */
  function DegAsWritten(deg: Option<string>): string {
    match deg
    case Some(d) => d
    case None => "undefined"
  }

  /** The replacement text of the first rule, and whether it converted. */
  function TempReplacement(m: TempMatch, f2c: real -> real): (string, bool) {
    if TempConverts(m) then
      (CelsiusText(m.temp, f2c) + m.space1 + DegAsWritten(m.deg) + m.space2 + (if |m.unit| == 1 then "C" else "Celsius"), true)
    else
      (m.temp + m.space1 + DegAsWritten(m.deg) + m.space2 + m.unit, false)
  }

  /** The first rule applied to `text`: the new text and the `matched`
      flag. */
  function TempStep(text: string, rules: Matchers, f2c: real -> real): (string, bool) {
    match rules.temperature(text)
    case None => (text, false)
    case Some(m) =>
      var (rep, converted) := TempReplacement(m, f2c);
      (m.before + rep + m.after, converted)
  }

  // ----- rule 2: "oven to" and a number -----

  /** The replacement text of the second rule, and whether it converted:
      only a number above 250 is taken for Fahrenheit. */
  function OvenToReplacement(m: OvenToMatch, f2c: real -> real): (string, bool) {
    if DigitsValue(m.temp) > 250 then ("oven to " + CelsiusText(m.temp, f2c) + "°C", true)
    else (m.matched, false)
  }

  function OvenToStep(text: string, rules: Matchers, f2c: real -> real): (string, bool) {
    match rules.ovenTo(text)
    case None => (text, false)
    case Some(m) =>
      var (rep, converted) := OvenToReplacement(m, f2c);
      (m.before + rep + m.after, converted)
  }

  // ----- rule 3: a gas mark -----

  /** `gasMarkToCelsius(+mark)` for a single digit, which is always a mark
      the table knows (JavaScript prints such a mark as the digit itself). */
  function DigitGasMarkCelsius(d: Digit): (c: int)
    ensures d == '0' ==> c == 107
    ensures d != '0' ==> c == CelsiusTempForMark[d as int - '0' as int]
  {
    var mark := (d as int - '0' as int) as real;
    match GasMarkToCelsius(mark, (x: real) => [d])
    case Ok(Some(c)) => c
    case _ => assert false; 0
  }

  /** `${round5(gasMarkToCelsius(+mark))}°C`, which replaces the whole
      phrase. */
  function GasMarkReplacement(m: GasMarkMatch): string {
    NatToString(Round5(DigitGasMarkCelsius(m.mark) as real)) + "°C"
  }

  function GasMarkStep(text: string, rules: Matchers): (string, bool) {
    match rules.gasMark(text)
    case None => (text, false)
    case Some(m) => (m.before + GasMarkReplacement(m) + m.after, true)
  }

  // ----- convertOvenTemperatures -----

  /** `convertOvenTemperatures(text)`: the rules in order, each on the text
      the previous one left, stopping after the first that converted. */
  function OvenConverted(text: string, rules: Matchers, f2c: real -> real): string {
    var (t1, c1) := TempStep(text, rules, f2c);
    if c1 then t1
    else
      var (t2, c2) := OvenToStep(t1, rules, f2c);
      if c2 then t2
      else GasMarkStep(t2, rules).0
  }

  /** `convertOvenTemperatures(text)` as the source runs it: `text` is
      reassigned by each rule, and `matched` is set by the replacement
      callbacks. */
  method ConvertOvenTemperatures(text0: string, rules: Matchers, f2c: real -> real) returns (text: string)
    ensures text == OvenConverted(text0, rules, f2c)
  {
    var matched := false;
    text := text0;
    var m1 := rules.temperature(text);
    if m1.Some? {
      var m := m1.value;
      var (rep, converted) := TempReplacement(m, f2c);
      text := m.before + rep + m.after;
      matched := converted;
    }
    if matched {
      return;
    }
    var m2 := rules.ovenTo(text);
    if m2.Some? {
      var m := m2.value;
      var (rep, converted) := OvenToReplacement(m, f2c);
      text := m.before + rep + m.after;
      matched := converted;
    }
    if matched {
      return;
    }
    var m3 := rules.gasMark(text);
    if m3.Some? {
      var m := m3.value;
      text := m.before + GasMarkReplacement(m) + m.after;
      matched := true;
    }
  }

  // ----- properties -----

  /** A text in which none of the three patterns matches is returned as
      it is. */
  lemma NoMatchUnchanged(text: string, rules: Matchers, f2c: real -> real)
    requires rules.temperature(text).None? && rules.ovenTo(text).None? && rules.gasMark(text).None?
    ensures OvenConverted(text, rules, f2c) == text
  {
  }

  /** When the first rule converts, it alone rewrites the text: its first
      match becomes Celsius, the text around that match is kept, and the
      other two patterns are never consulted. */
  lemma FirstRuleWins(text: string, rules: Matchers, f2c: real -> real, m: TempMatch, ovenTo: string -> Option<OvenToMatch>, gasMark: string -> Option<GasMarkMatch>)
    requires rules.temperature(text) == Some(m) && TempConverts(m)
    ensures OvenConverted(text, rules, f2c) == m.before + TempReplacement(m, f2c).0 + m.after
    ensures OvenConverted(text, rules, f2c) == OvenConverted(text, Matchers(rules.temperature, ovenTo, gasMark), f2c)
  {
  }

  /** The second rule runs only when the first did not convert, on the text
      the first left; when it converts, the gas-mark pattern is never
      consulted. */
  lemma SecondRuleWins(text: string, rules: Matchers, f2c: real -> real, m: OvenToMatch, gasMark: string -> Option<GasMarkMatch>)
    requires !TempStep(text, rules, f2c).1
    requires rules.ovenTo(TempStep(text, rules, f2c).0) == Some(m) && DigitsValue(m.temp) > 250
    ensures OvenConverted(text, rules, f2c) == m.before + "oven to " + CelsiusText(m.temp, f2c) + "°C" + m.after
    ensures OvenConverted(text, rules, f2c) == OvenConverted(text, Matchers(rules.temperature, rules.ovenTo, gasMark), f2c)
  {
  }

  /** The gas-mark rule runs only when neither of the others converted, and
      it always converts. */
  lemma GasMarkRuleLast(text: string, rules: Matchers, f2c: real -> real, m: GasMarkMatch)
    requires !TempStep(text, rules, f2c).1 && !OvenToStep(TempStep(text, rules, f2c).0, rules, f2c).1
    requires rules.gasMark(OvenToStep(TempStep(text, rules, f2c).0, rules, f2c).0) == Some(m)
    ensures OvenConverted(text, rules, f2c) == m.before + NatToString(Round5(DigitGasMarkCelsius(m.mark) as real)) + "°C" + m.after
  {
  }

  /** A Celsius temperature of the first rule is converted too once it is
      above 250, and a one-letter unit becomes `C`, a word `Celsius`. */
  lemma HighCelsiusTakenForFahrenheit(m: TempMatch, f2c: real -> real)
    requires DigitsValue(m.temp) > 250
    ensures TempReplacement(m, f2c).1
    ensures |m.unit| == 1 ==> TempReplacement(m, f2c).0 == CelsiusText(m.temp, f2c) + m.space1 + DegAsWritten(m.deg) + m.space2 + "C"
    ensures |m.unit| != 1 ==> TempReplacement(m, f2c).0 == CelsiusText(m.temp, f2c) + m.space1 + DegAsWritten(m.deg) + m.space2 + "Celsius"
  {
  }

  /** The second rule leaves a number up to 250 as it was matched. */
  lemma LowOvenToKept(text: string, m: OvenToMatch, f2c: real -> real)
    requires OvenToSplits(text, m) && DigitsValue(m.temp) <= 250
    ensures m.before + OvenToReplacement(m, f2c).0 + m.after == text
    ensures !OvenToReplacement(m, f2c).1
  {
  }

  /** A converted temperature is a non-negative multiple of five, written
      in decimal digits. */
  lemma CelsiusTextMultipleOf5(temp: Digits, f2c: real -> real)
    ensures |CelsiusText(temp, f2c)| > 0 && AllDigits(CelsiusText(temp, f2c))
    ensures DigitsValue(CelsiusText(temp, f2c)) % 5 == 0
  {
  }

  /** Gas marks 1 to 9 come out as the table's temperature, already a
      multiple of five, and mark 0 as 105. */
  lemma GasMarkTemperatures()
    ensures Round5(DigitGasMarkCelsius('0') as real) == 105
    ensures forall d: Digit :: d != '0' ==> Round5(DigitGasMarkCelsius(d) as real) == CelsiusTempForMark[d as int - '0' as int]
  {
    Round5Unique(107.0, 105);
    forall d: Digit | d != '0'
      ensures Round5(DigitGasMarkCelsius(d) as real) == CelsiusTempForMark[d as int - '0' as int]
    {
      var c := CelsiusTempForMark[d as int - '0' as int];
      assert c % 5 == 0 && c >= 5;
      Round5Fixed(c / 5);
    }
  }

  // ----- examples -----

  /** The textbook conversion, for the examples below. */
  function StandardF2C(f: real): real {
    (f - 32.0) * 5.0 / 9.0
  }

  lemma {:induction false} ThreeDigitsValue(s: Digits)
    requires |s| == 3
    ensures DigitsValue(s) == 100 * (s[0] as int - '0' as int) + 10 * (s[1] as int - '0' as int) + (s[2] as int - '0' as int)
  {
    var a, b := s[..2], s[..1];
    assert a[..1] == b && b[..0] == [];
    assert DigitsValue(b) == s[0] as int - '0' as int;
    assert DigitsValue(a) == 10 * DigitsValue(b) + (s[1] as int - '0' as int);
  }

  lemma {:induction false} ThreeDigitsText(n: nat)
    requires 100 <= n < 1000
    ensures NatToString(n) == [DigitChar(n / 100), DigitChar(n / 10 % 10), DigitChar(n % 10)]
  {
    assert NatToString(n / 10) == NatToString(n / 10 / 10) + [DigitChar(n / 10 % 10)];
  }

  /** 390 and 350 degrees Fahrenheit are 200 and 175 degrees Celsius. */
  lemma CelsiusTextExamples()
    ensures DigitsValue("390") == 390 && CelsiusText("390", StandardF2C) == "200"
    ensures DigitsValue("350") == 350 && CelsiusText("350", StandardF2C) == "175"
  {
    ThreeDigitsValue("390");
    ThreeDigitsValue("350");
    Round5Unique(StandardF2C(390.0), 200);
    Round5Unique(StandardF2C(350.0), 175);
    ThreeDigitsText(200);
    ThreeDigitsText(175);
  }

  /** "390 ' F" becomes "200 ' C". */
  lemma FahrenheitExample(rules: Matchers)
    requires rules.temperature("390 ' F") == Some(TempMatch("", "390", " ", Some("'"), " ", "F", ""))
    ensures OvenConverted("390 ' F", rules, StandardF2C) == "200 ' C"
  {
    hide OvenConverted, TempStep, OvenToStep, GasMarkStep, CelsiusText, DigitsValue, NatToString, StandardF2C;
    var m := TempMatch("", "390", " ", Some("'"), " ", "F", "");
    CelsiusTextExamples();
    assert TempConverts(m);
    FirstRuleWins("390 ' F", rules, StandardF2C, m, rules.ovenTo, rules.gasMark);
  }

  /** "390 degrees Fahrenheit" becomes "200 degrees Celsius". */
  lemma FahrenheitWordExample(rules: Matchers)
    requires rules.temperature("390 degrees Fahrenheit") == Some(TempMatch("", "390", " ", Some("degrees"), " ", "Fahrenheit", ""))
    ensures OvenConverted("390 degrees Fahrenheit", rules, StandardF2C) == "200 degrees Celsius"
  {
    hide OvenConverted, TempStep, OvenToStep, GasMarkStep, CelsiusText, DigitsValue, NatToString, StandardF2C;
    var m := TempMatch("", "390", " ", Some("degrees"), " ", "Fahrenheit", "");
    CelsiusTextExamples();
    assert TempConverts(m);
    FirstRuleWins("390 degrees Fahrenheit", rules, StandardF2C, m, rules.ovenTo, rules.gasMark);
    assert TempReplacement(m, StandardF2C).0 == "200" + " " + "degrees" + " " + "Celsius";
    assert "" + ("200" + " " + "degrees" + " " + "Celsius") + "" == "200 degrees Celsius";
  }

  /** "preheat oven to 350" becomes "preheat oven to 175°C". */
  lemma OvenToExample(rules: Matchers)
    requires rules.temperature("preheat oven to 350") == None
    requires rules.ovenTo("preheat oven to 350") == Some(OvenToMatch("preheat ", "oven to 350", "350", ""))
    ensures OvenConverted("preheat oven to 350", rules, StandardF2C) == "preheat oven to 175°C"
  {
    CelsiusTextExamples();
    SecondRuleWins("preheat oven to 350", rules, StandardF2C, OvenToMatch("preheat ", "oven to 350", "350", ""), rules.gasMark);
  }

  /** "gas mark 3" becomes "160°C". */
  lemma GasMarkExample(rules: Matchers, f2c: real -> real)
    requires rules.temperature("gas mark 3") == None && rules.ovenTo("gas mark 3") == None
    requires rules.gasMark("gas mark 3") == Some(GasMarkMatch("", "gas mark 3", '3', ""))
    ensures OvenConverted("gas mark 3", rules, f2c) == "160°C"
  {
    assert DigitGasMarkCelsius('3') == 160;
    Round5Fixed(32);
    ThreeDigitsText(160);
    GasMarkRuleLast("gas mark 3", rules, f2c, GasMarkMatch("", "gas mark 3", '3', ""));
  }

  // ----- the absent degree group -----

  /** As written, a first-rule match without a degree group that does not
      convert still rewrites the text: "200 C" becomes "200 undefinedC",
      and the later rules then run on that. */
  lemma UndefinedDegree(rules: Matchers, f2c: real -> real)
    requires rules.temperature("200 C") == Some(TempMatch("", "200", " ", None, "", "C", ""))
    requires rules.ovenTo("200 undefinedC") == None && rules.gasMark("200 undefinedC") == None
    ensures TempSplits("200 C", TempMatch("", "200", " ", None, "", "C", ""))
    ensures OvenConverted("200 C", rules, f2c) == "200 undefinedC"
  {
    var m := TempMatch("", "200", " ", None, "", "C", "");
    ThreeDigitsValue("200");
    assert !TempConverts(m);
    assert TempReplacement(m, f2c) == ("200" + " " + "undefined" + "" + "C", false);
    assert "" + ("200" + " " + "undefined" + "" + "C") + "" == "200 undefinedC";
    assert TempStep("200 C", rules, f2c) == ("200 undefinedC", false);
  }

  /** The replacement the callback evidently means to build: an absent
      degree group adds nothing. */
  function TempReplacementIntended(m: TempMatch, f2c: real -> real): (r: (string, bool))
    ensures r.1 <==> TempConverts(m)
    ensures r.1 == TempReplacement(m, f2c).1
  {
    if TempConverts(m) then
      (CelsiusText(m.temp, f2c) + m.space1 + DegText(m.deg) + m.space2 + (if |m.unit| == 1 then "C" else "Celsius"), true)
    else
      (TempMatched(m), false)
  }

  /** With it, a match that does not convert leaves the text exactly as it
      was, and one that does changes only the number and the unit. */
  lemma IntendedKeepsUnconverted(text: string, m: TempMatch, f2c: real -> real)
    requires TempSplits(text, m)
    ensures !TempReplacementIntended(m, f2c).1 ==> m.before + TempReplacementIntended(m, f2c).0 + m.after == text
    ensures TempReplacementIntended(m, f2c).1 ==>
      m.before + TempReplacementIntended(m, f2c).0 + m.after
      == m.before + CelsiusText(m.temp, f2c) + m.space1 + DegText(m.deg) + m.space2 + (if |m.unit| == 1 then "C" else "Celsius") + m.after
    ensures m.deg.Some? ==> TempReplacementIntended(m, f2c) == TempReplacement(m, f2c)
  {
  }
}
