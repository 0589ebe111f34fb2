/** lib/convert.ts: `convertRecipeText`, which rewrites every measure the
    scanner finds into metric units, cups into grams of the ingredient, and
    then the oven temperatures. */
module RecipeConvert {
  import opened Wrappers
  import opened Strings
  import opened UnitData
  import opened Units
  import opened Assoc
  import opened CupLUT
  import opened CupSearch
  import opened Measures
  import opened Oven

  /** The gram, the unit `setUnitAndAmount('gram', …)` names. */
  const GramUnit: Unit := AllUnits[1]

  lemma GramUnitNamed()
    ensures Named("gram") == Ok(GramUnit) && ShortForm(GramUnit) == Some("g")
    ensures GramUnit.domain == Mass && GramUnit.system == Metric
  {
    NamedExamples();
    ShortFormExamples();
    TableDomains();
  }

  /** `x.toBest('metric')`: the unit and amount `convertBest` settles on
      among the metric units of the measure's domain. */
  function BestMetric(u: Unit, val: real): (r: (Unit, real))
    ensures Chosen(u, val, PossibleConversions(u, Some(Metric)), r.0, r.1)
  {
    var cands := PossibleConversions(u, Some(Metric));
    var (k, v) := MostReadable(val, Converted(u, val, cands));
    (if k < 0 then u else cands[k], v)
  }

  /** A JavaScript string in a condition: defined and not empty. */
  predicate Truthy(s: Option<string>) {
    s.Some? && s.value != ""
  }

  /** The body of the loop, on one measure: a metric measure is left as it
      is, a measure in cups becomes grams of its ingredient (printed in short
      form), and any other imperial measure takes its best metric unit. */
  function Rewritten(m: MeasureState, lut: Table<Node>): Result<MeasureState> {
    if IsMetric(m.unit) then Ok(m)
    else if m.unit.name == "cup" then
      match GramsOf(m, lut)
      case Err(e) => Err(e)
      case Ok(grams) =>
        match Named("gram")
        case Err(e) => Err(e)
        case Ok(gram) =>
          var m' := m.(unit := gram, amount := grams);
          Ok(if Truthy(ShortForm(gram)) then m'.(isShort := true) else m')
    else
      var (best, val) := BestMetric(m.unit, m.amount);
      Ok(m.(unit := best, amount := val))
  }

  /** A metric measure is kept; a measure in cups weighs what its
      ingredient's cups weigh, in grams flagged short, or fails as
      `toGrams` does; any other imperial measure keeps its quantity, in a
      metric unit of its domain or in its own unit, and no metric unit of
      the domain reads better. The texts of the measure never change. */
  lemma RewrittenSpec(m: MeasureState, lut: Table<Node>)
    ensures IsMetric(m.unit) ==> Rewritten(m, lut).Ok? && Rewritten(m, lut).value == m
    ensures !IsMetric(m.unit) && m.unit.name == "cup" ==>
      (Rewritten(m, lut).Ok? <==> GramsOf(m, lut).Ok?)
      && (Rewritten(m, lut).Err? ==> Rewritten(m, lut).message == GramsOf(m, lut).message)
      && (Rewritten(m, lut).Ok? ==>
            Rewritten(m, lut).value == m.(unit := GramUnit, amount := GramsOf(m, lut).value, isShort := true))
    ensures !IsMetric(m.unit) && m.unit.name != "cup" ==>
      Rewritten(m, lut).Ok?
      && var r := Rewritten(m, lut).value;
      r.originalString == m.originalString && r.context == m.context && r.isShort == m.isShort
      && r.unit.domain == m.unit.domain && BaseAmount(r.unit, r.amount) == BaseAmount(m.unit, m.amount)
      && (r.unit == m.unit || IsMetric(r.unit))
      && var cands := PossibleConversions(m.unit, Some(Metric));
      forall i :: 0 <= i < |cands| ==> !MoreReadable(ConvertValue(m.unit, m.amount, cands[i]), r.amount)
  {
    hide GramsOf, Named, PossibleConversions, MostReadable, Converted;
    if IsMetric(m.unit) {
    } else if m.unit.name == "cup" {
      GramUnitNamed();
    } else {
      var (best, val) := BestMetric(m.unit, m.amount);
      var cands := PossibleConversions(m.unit, Some(Metric));
      MostReadableConversion(m.unit, m.amount, cands, best, val);
      assert best == m.unit || best in cands;
    }
  }

  /** One turn of the loop on the text: the measure's original text is
      replaced, at its first occurrence, by the rewritten measure. */
  function ReplaceMeasure(text: string, m: MeasureState, lut: Table<Node>, show: real -> string): Result<string> {
    match Rewritten(m, lut)
    case Err(e) => Err(e)
    case Ok(m') => Ok(ReplaceFirst(text, m.originalString, MeasureText(m', show)))
  }

  /** The loop over the measures, in order; the first failure ends it. */
  function RewriteAll(text: string, ms: seq<MeasureState>, lut: Table<Node>, show: real -> string): Result<string>
    decreases |ms|
  {
    if |ms| == 0 then Ok(text)
    else
      match RewriteAll(text, ms[..|ms| - 1], lut, show)
      case Err(e) => Err(e)
      case Ok(t) => ReplaceMeasure(t, ms[|ms| - 1], lut, show)
  }

  /** `convertRecipeText(text)`, given the matches `cs` of the scanner's
      expression in `text` and the three oven patterns `rules`. */
  function RecipeText(text: string, cs: seq<ScanMatch>, env: Env, rules: Matchers, f2c: real -> real): Result<string> {
    match Found(cs, env)
    case Err(e) => Err(e)
    case Ok(ms) =>
      match RewriteAll(text, ms, TheCupLUT(env.plural), env.show)
      case Err(e) => Err(e)
      case Ok(t) => Ok(OvenConverted(t, rules, f2c))
  }

  /** Once a measure fails, the whole loop fails with its message. */
  lemma {:induction false} RewriteErrSticks(text: string, ms: seq<MeasureState>, lut: Table<Node>, show: real -> string, i: nat)
    requires i <= |ms| && RewriteAll(text, ms[..i], lut, show).Err?
    ensures RewriteAll(text, ms, lut, show).Err?
    ensures RewriteAll(text, ms, lut, show).message == RewriteAll(text, ms[..i], lut, show).message
    decreases |ms| - i
  {
    hide ReplaceMeasure;
    if i < |ms| {
      assert ms[..i + 1][..i] == ms[..i];
      RewriteErrSticks(text, ms, lut, show, i + 1);
    } else {
      assert ms[..i] == ms;
    }
  }

  /** `convertRecipeText`, step by step: find the measures, rewrite each in
      turn, replace its text, then convert the oven temperatures once. */
  method ConvertRecipeText(text0: string, cs: seq<ScanMatch>, env: Env, rules: Matchers, f2c: real -> real) returns (r: Result<string>)
    ensures r.Ok? <==> RecipeText(text0, cs, env, rules, f2c).Ok?
    ensures r.Ok? ==> r.value == RecipeText(text0, cs, env, rules, f2c).value
    ensures r.Err? ==> r.message == RecipeText(text0, cs, env, rules, f2c).message
  {
    hide TheCupLUT, GramsOf, Named, BestMetric, ReplaceFirst, OvenConverted, Found, MeasureText;
    var found := FindAll(cs, env);
    if found.Err? {
      return Err(found.message);
    }
    var matches := found.value;
    ghost var states := Found(cs, env).value;
    var lut := TheCupLUT(env.plural);
    var text := text0;
    var i := 0;
    while i < |matches|
      invariant i <= |matches|
      invariant RewriteAll(text0, states[..i], lut, env.show) == Ok(text)
      invariant forall k :: i <= k < |matches| ==> matches[k].State() == states[k]
    {
      assert states[..i + 1][..i] == states[..i];
      var m := matches[i];
      if IsMetric(m.unit) {
      } else if m.unit.name == "cup" {
        var grams := m.ToGrams(lut);
        if grams.Err? {
          RewriteErrSticks(text0, states, lut, env.show, i + 1);
          return Err(grams.message);
        }
        var named := m.SetUnitAndAmountNamed("gram", grams.value);
        if named.Err? {
          RewriteErrSticks(text0, states, lut, env.show, i + 1);
          return Err(named.message);
        }
        if Truthy(ShortForm(m.unit)) {
          m.MarkShortForm();
        }
      } else {
        var best, val := ConvertBest(m.unit, m.amount, Some(Metric));
        m.SetUnitAndAmount(best, val);
      }
      text := ReplaceFirst(text, m.originalString, m.ToString(env.show));
      i := i + 1;
    }
    assert states[..i] == states;
    text := ConvertOvenTemperatures(text, rules, f2c);
    r := Ok(text);
  }

  // ----- properties -----

  /** A text in which the scanner accepts no measure and no oven pattern
      matches comes back unchanged. */
  lemma NothingToConvert(text: string, cs: seq<ScanMatch>, env: Env, rules: Matchers, f2c: real -> real)
    requires forall k :: 0 <= k < |cs| ==> Accept(cs[k], env).Ok? && Accept(cs[k], env).value.None?
    requires rules.temperature(text).None? && rules.ovenTo(text).None? && rules.gasMark(text).None?
    ensures RecipeText(text, cs, env, rules, f2c).Ok? && RecipeText(text, cs, env, rules, f2c).value == text
  {
    hide Accept, TheCupLUT, OvenConverted;
    NothingAccepted(cs, env);
    NoMatchUnchanged(text, rules, f2c);
  }

  /** A measure in cups of an ingredient the table knows is replaced, at its
      first occurrence, by its weight in grams printed as "<n> g". */
  lemma CupsBecomeGrams(text: string, m: MeasureState, lut: Table<Node>, show: real -> string, g: int)
    requires m.unit == CupUnit && GramsPerCup(m.context, lut) == Some(Leaf(g))
    ensures ReplaceMeasure(text, m, lut, show).Ok?
    ensures ReplaceMeasure(text, m, lut, show).value == ReplaceFirst(text, m.originalString, show(m.amount * g as real) + " g")
  {
    hide GramsOf, GramsPerCup, ReplaceFirst, MeasureText, Named;
    CupUnitNamed();
    TableDomains();
    assert !IsMetric(m.unit);
    RewrittenSpec(m, lut);
    CupMeasureGrams(m, lut, g);
    var m' := Rewritten(m, lut).value;
    assert m'.unit == AllUnits[1] && m'.isShort && m'.amount == m.amount * g as real;
    ShortGramsText(m', show);
  }

  /** A measure in cups of an ingredient the table does not know makes the
      whole conversion fail with `toGrams`'s message. */
  lemma UnknownCupsFail(text: string, m: MeasureState, lut: Table<Node>, show: real -> string)
    requires m.unit == CupUnit && GramsPerCup(m.context, lut).None?
    ensures ReplaceMeasure(text, m, lut, show).Err?
    ensures ReplaceMeasure(text, m, lut, show).message == "conversion to grams failed: unknown ingredient '" + m.context + "'"
  {
    hide GramsOf, GramsPerCup, ReplaceFirst, MeasureText, Named;
    CupUnitNamed();
    TableDomains();
    assert !IsMetric(m.unit);
    RewrittenSpec(m, lut);
    GramsOfSpec(m, lut);
  }

  /** A metric measure is printed back as its amount and its unit's name,
      in place of its original text. */
  lemma MetricReprinted(text: string, m: MeasureState, lut: Table<Node>, show: real -> string)
    requires IsMetric(m.unit) && !m.isShort
    ensures ReplaceMeasure(text, m, lut, show).Ok?
    ensures ReplaceMeasure(text, m, lut, show).value == ReplaceFirst(text, m.originalString, show(m.amount) + " " + m.unit.name)
  {
    hide GramsOf, ReplaceFirst, Named;
    RewrittenSpec(m, lut);
  }

  /** A measure whose original text no longer occurs leaves the text as it
      is, whatever it converts to. */
  lemma AbsentMeasureKeepsText(text: string, m: MeasureState, lut: Table<Node>, show: real -> string)
    requires IndexOf(text, m.originalString).None?
    ensures ReplaceMeasure(text, m, lut, show).Ok? ==> ReplaceMeasure(text, m, lut, show).value == text
  {
    hide Rewritten, MeasureText;
  }
}
