/** lib/measure-finder.ts: a `Measure` (a unit, an amount, the text it was
    read from and the words around it) and `MeasureFinder.findAll`, which
    keeps the matches of the scanner's expression whose amount and unit
    read back cleanly. */
module Measures {
  import opened Wrappers
  import opened UnitData
  import opened Units
  import opened Assoc
  import opened CupData
  import opened CupLUT
  import opened CupSearch
  import opened UnitRegistry
  import Fraction

  /** The fields of a `Measure`, as a value; `isShort` is `_isShortForm`. */
  datatype MeasureState = MeasureState(unit: Unit, amount: real, originalString: string, context: string, isShort: bool)

  /** The unit word `toString` prints: the short form when the flag is set
      (`undefined` for a unit without one), else the name. */
  function UnitLabel(u: Unit, isShort: bool): string {
    if !isShort then u.name
    else match ShortForm(u)
      case Some(s) => s
      case None => "undefined"
  }

  /** `measure.toString()`; `show` is how JavaScript prints a number. */
  function MeasureText(m: MeasureState, show: real -> string): string {
    show(m.amount) + " " + UnitLabel(m.unit, m.isShort)
  }

  /** The cup, the unit `to('cup')` names. */
  const CupUnit: Unit := AllUnits[14]

  /** How many cups a volume measure holds. */
  function CupsIn(m: MeasureState): (c: real)
    requires m.unit.domain == Volume
    ensures BaseAmount(CupUnit, c) == BaseAmount(m.unit, m.amount)
  {
    ConvertValue(m.unit, m.amount, CupUnit)
  }

  /** `measure.toGrams()`, with `lut` standing for `cupLUT`. */
  function GramsOf(m: MeasureState, lut: Table<Node>): Result<real> {
    if m.unit.domain == Mass then
      match Named("grams")
      case Err(e) => Err(e)
      case Ok(to) => Convert(m.unit, m.amount, to)
    else
      match GramsPerCup(m.context, lut)
      case None => Err("conversion to grams failed: unknown ingredient '" + m.context + "'")
      case Some(Branch(_)) => Err("NaN")
      case Some(Leaf(g)) =>
        match Named("cup")
        case Err(e) => Err(e)
        case Ok(cup) =>
          match Convert(m.unit, m.amount, cup)
          case Err(e) => Err(e)
          case Ok(cups) => Ok(Weight(cups, g))
  }

  /** The weight of `cups` cups of an ingredient of `gramsPerCup` grams per
      cup. */
  function Weight(cups: real, gramsPerCup: int): real {
    cups * gramsPerCup as real
  }

  /** The unit `to('cup')` finds. */
  lemma CupUnitNamed()
    ensures CupUnit.domain == Volume && CupUnit.name == "cup" && Named("cup") == Ok(CupUnit)
  {
    NamedExamples();
    TableDomains();
  }

  /** `to('grams')` asks for a unit that does not exist. */
  lemma GramsMissing()
    ensures Named("grams").Err? && Named("grams").message == "unit grams does not exist"
  {
    hide *;
    NamedRejects();
    var r := Named("grams");
    assert r.Err? ==> r.message == "unit " + "grams" + " does not exist";
    assert "unit " + "grams" + " does not exist" == "unit grams does not exist";
  }

  /** A mass asks for the unit named "grams", which does not exist, and so
      fails; a volume is its number of cups times the grams per cup of the
      ingredient found in the context, and fails when none is found. */
  lemma GramsOfSpec(m: MeasureState, lut: Table<Node>)
    ensures m.unit.domain == Mass ==>
      GramsOf(m, lut).Err? && GramsOf(m, lut).message == "unit grams does not exist"
    ensures m.unit.domain == Volume && GramsPerCup(m.context, lut).None? ==>
      GramsOf(m, lut).Err?
      && GramsOf(m, lut).message == "conversion to grams failed: unknown ingredient '" + m.context + "'"
    ensures GramsOf(m, lut).Ok? <==>
      m.unit.domain == Volume && GramsPerCup(m.context, lut).Some? && GramsPerCup(m.context, lut).value.Leaf?
    ensures GramsOf(m, lut).Ok? ==>
      GramsOf(m, lut).value == Weight(CupsIn(m), GramsPerCup(m.context, lut).value.grams)
  {
    hide *;
    if m.unit.domain == Mass {
      MassGrams(m, lut);
    } else {
      VolumeGrams(m, lut);
    }
  }

  lemma MassGrams(m: MeasureState, lut: Table<Node>)
    requires m.unit.domain == Mass
    ensures GramsOf(m, lut).Err? && GramsOf(m, lut).message == "unit grams does not exist"
  {
    hide Named, NameTable, GramsPerCup, ConvertValue, Convert, BaseAmount;
    GramsMissing();
  }

  lemma VolumeGrams(m: MeasureState, lut: Table<Node>)
    requires m.unit.domain == Volume
    ensures GramsPerCup(m.context, lut).None? ==>
      GramsOf(m, lut).Err?
      && GramsOf(m, lut).message == "conversion to grams failed: unknown ingredient '" + m.context + "'"
    ensures GramsOf(m, lut).Ok? <==> GramsPerCup(m.context, lut).Some? && GramsPerCup(m.context, lut).value.Leaf?
    ensures GramsOf(m, lut).Ok? ==>
      GramsOf(m, lut).value == Weight(CupsIn(m), GramsPerCup(m.context, lut).value.grams)
  {
    hide *;
    match GramsPerCup(m.context, lut)
    case None => UnknownIngredient(m, lut);
    case Some(Branch(_)) => TableFound(m, lut);
    case Some(Leaf(g)) => GramsFound(m, lut, g);
  }

  lemma UnknownIngredient(m: MeasureState, lut: Table<Node>)
    requires m.unit.domain == Volume && GramsPerCup(m.context, lut).None?
    ensures GramsOf(m, lut).Err?
    ensures GramsOf(m, lut).message == "conversion to grams failed: unknown ingredient '" + m.context + "'"
  {
    hide Named, NameTable, GramsPerCup, ConvertValue, BaseAmount, Convert, CupsIn;
  }

  lemma TableFound(m: MeasureState, lut: Table<Node>)
    requires m.unit.domain == Volume && GramsPerCup(m.context, lut).Some? && GramsPerCup(m.context, lut).value.Branch?
    ensures GramsOf(m, lut).Err?
  {
    hide Named, NameTable, GramsPerCup, ConvertValue, BaseAmount, Convert, CupsIn;
  }

  lemma GramsFound(m: MeasureState, lut: Table<Node>, g: int)
    requires m.unit.domain == Volume && GramsPerCup(m.context, lut) == Some(Leaf(g))
    ensures GramsOf(m, lut).Ok? && GramsOf(m, lut).value == Weight(CupsIn(m), g)
  {
    hide Named, NameTable, GramsPerCup, ConvertValue, BaseAmount, Convert, CupsIn, Weight;
    CupUnitNamed();
    CupsConverted(m);
  }

  lemma CupsConverted(m: MeasureState)
    requires m.unit.domain == Volume
    ensures Convert(m.unit, m.amount, CupUnit) == Ok(CupsIn(m))
  {
    hide ConvertValue, BaseAmount;
    CupUnitNamed();
  }

  /** A measure in cups weighs its number of cups times the grams per cup. */
  lemma CupMeasureGrams(m: MeasureState, lut: Table<Node>, g: int)
    requires m.unit == CupUnit && GramsPerCup(m.context, lut) == Some(Leaf(g))
    ensures GramsOf(m, lut).Ok? && GramsOf(m, lut).value == m.amount * g as real
  {
    hide GramsOf, GramsPerCup;
    GramsOfSpec(m, lut);
    ConvertSameUnit(CupUnit, m.amount);
  }

  /** A tablespoon is a sixteenth of a cup. */
  lemma TablespoonGrams(m: MeasureState, lut: Table<Node>, g: int)
    requires m.unit == AllUnits[11] && GramsPerCup(m.context, lut) == Some(Leaf(g))
    ensures GramsOf(m, lut).Ok? && GramsOf(m, lut).value == m.amount / 16.0 * g as real
  {
    hide GramsOf, GramsPerCup;
    GramsOfSpec(m, lut);
    TablespoonCups(m.amount);
  }

  lemma TablespoonCups(a: real)
    ensures ConvertValue(AllUnits[11], a, CupUnit) == a / 16.0
  {
    hide BaseAmount;
    assert AllUnits[11] == Unit("tablespoon", ["tbsp", "tbs", "tbspn", "T"], 1.0 / 2.0, Volume, Imperial);
    assert CupUnit == Unit("cup", ["c"], 8.0, Volume, Imperial);
  }

  /** A mass measure never converts to grams here. */
  lemma MassNeverInGrams(m: MeasureState, lut: Table<Node>)
    requires m.unit.domain == Mass
    ensures GramsOf(m, lut).Err?
  {
    GramsOfSpec(m, lut);
  }

  /** Every unit of the table prints as its name, or as its short form when
      flagged; so as one of its own names. */
  lemma LabelIsOwnName(u: Unit, isShort: bool)
    requires u in AllUnits
    ensures !isShort ==> UnitLabel(u, isShort) == u.name
    ensures isShort ==> UnitLabel(u, isShort) == u.altnames[0]
  {
    AltnamesNonEmpty();
  }

  /** A gram amount flagged short prints as the number and "g". */
  lemma ShortGramsText(m: MeasureState, show: real -> string)
    requires m.unit == AllUnits[1] && m.isShort
    ensures MeasureText(m, show) == show(m.amount) + " g"
  {
    ShortFormExamples();
  }

  class Measure {
    var unit: Unit
    var amount: real
    var originalString: string
    var context: string
    var isShort: bool

    function State(): MeasureState
      reads this
    {
      MeasureState(unit, amount, originalString, context, isShort)
    }

    /** `new Measure(unit, amount, originalString, context)`: not flagged
        short. */
    constructor (unit: Unit, amount: real, originalString: string, context: string)
      ensures State() == MeasureState(unit, amount, originalString, context, false)
    {
      this.unit := unit;
      this.amount := amount;
      this.originalString := originalString;
      this.context := context;
      this.isShort := false;
    }

    /** `setUnitAndAmount(unit, amount)` with a unit: the unit and the
        amount change, nothing else. */
    method SetUnitAndAmount(unit: Unit, amount: real)
      modifies this
      ensures State() == old(State()).(unit := unit, amount := amount)
    {
      this.unit := unit;
      this.amount := amount;
    }

    /** `setUnitAndAmount(name, amount)` with a unit name: `Unit.named`
        throws before anything is assigned. */
    method SetUnitAndAmountNamed(name: string, amount: real) returns (r: Result<()>)
      modifies this
      ensures r.Err? <==> Named(name).Err?
      ensures r.Err? ==> r.message == Named(name).message && State() == old(State())
      ensures r.Ok? ==> State() == old(State()).(unit := Named(name).value, amount := amount)
    {
      var u := Named(name);
      if u.Err? {
        return Err(u.message);
      }
      this.unit := u.value;
      this.amount := amount;
      r := Ok(());
    }

    /** `isShortForm()`: sets the flag, nothing else. */
    method MarkShortForm()
      modifies this
      ensures State() == old(State()).(isShort := true)
    {
      isShort := true;
    }

    /** `toGrams()` */
    function ToGrams(lut: Table<Node>): Result<real>
      reads this
    {
      GramsOf(State(), lut)
    }

    /** `toString()` */
    function ToString(show: real -> string): string
      reads this
    {
      MeasureText(State(), show)
    }
  }

  // ----- findAll -----

  /** One match of the scanner's expression: `match[0]` (the amount and
      unit with up to five following words), `match[1]` (the amount and
      unit), `match[2]` (the number) and `match[3]` (the unit). */
  datatype ScanMatch = ScanMatch(context: string, original: string, number: string, unitText: string)

  /** The collaborators of `findAll`: `he.decode`, how JavaScript prints a
      number, `+text` (`None` for NaN), `pluralize`, and the first match of
      the unit expression in a text. */
  datatype Env = Env(
    decode: string -> string,
    show: real -> string,
    toNumber: string -> Option<real>,
    plural: string -> string,
    firstUnit: string -> Option<string>)

  /** The amount of a match, when its parsed text is the canonical printing
      of a number. */
  function CanonicalAmount(c: ScanMatch, env: Env): (r: Option<real>)
    ensures r.Some? ==> env.show(r.value) == Fraction.ParseFractionOf(c.number, env.decode, env.show)
    ensures r.Some? <==> var x := env.toNumber(Fraction.ParseFractionOf(c.number, env.decode, env.show));
      x.Some? && env.show(x.value) == Fraction.ParseFractionOf(c.number, env.decode, env.show)
  {
    var amountText := Fraction.ParseFractionOf(c.number, env.decode, env.show);
    match env.toNumber(amountText)
    case None => None
    case Some(x) => if env.show(x) == amountText then Some(x) else None
  }

  /** What one turn of the loop does with a match: a new measure, nothing,
      or the exception of `Unit.fromString`. */
  function Accept(c: ScanMatch, env: Env): Result<Option<MeasureState>> {
    match CanonicalAmount(c, env)
    case None => Ok(None)
    case Some(x) =>
      match FromString(c.unitText, env.plural, env.firstUnit)
      case Err(e) => Err(e)
      case Ok(None) => Ok(None)
      case Ok(Some(u)) => Ok(Some(MeasureState(u, x, c.original, c.context, false)))
  }

  /** A match throws exactly when its amount reads back and its unit text
      is not in the unit table; it yields a measure exactly when its amount
      reads back and its unit is found. The measure is not flagged short,
      has a unit of the table, an amount that prints as the parsed text,
      the match's text as its original string and the whole match as its
      context. */
  lemma AcceptSpec(c: ScanMatch, env: Env)
    ensures Accept(c, env).Err? <==>
      CanonicalAmount(c, env).Some? && FromString(c.unitText, env.plural, env.firstUnit).Err?
    ensures Accept(c, env).Ok? && Accept(c, env).value.Some? <==>
      CanonicalAmount(c, env).Some? && FromString(c.unitText, env.plural, env.firstUnit).Ok?
      && FromString(c.unitText, env.plural, env.firstUnit).value.Some?
    ensures Accept(c, env).Ok? && Accept(c, env).value.Some? ==>
      var m := Accept(c, env).value.value;
      m.unit in AllUnits && env.show(m.amount) == Fraction.ParseFractionOf(c.number, env.decode, env.show)
      && m.originalString == c.original && m.context == c.context && !m.isShort
  {
    hide Fraction.ParseFractionOf;
  }

  /** `findAll` over the matches `cs`, in text order. */
  function Found(cs: seq<ScanMatch>, env: Env): Result<seq<MeasureState>>
    decreases |cs|
  {
    if |cs| == 0 then Ok([])
    else
      match Found(cs[..|cs| - 1], env)
      case Err(e) => Err(e)
      case Ok(ms) =>
        match Accept(cs[|cs| - 1], env)
        case Err(e) => Err(e)
        case Ok(None) => Ok(ms)
        case Ok(Some(m)) => Ok(ms + [m])
  }

  /** The positions of the matches `Found` keeps. */
  function Kept(cs: seq<ScanMatch>, env: Env): seq<int>
    decreases |cs|
  {
    if |cs| == 0 then []
    else
      var ks := Kept(cs[..|cs| - 1], env);
      var a := Accept(cs[|cs| - 1], env);
      if a.Ok? && a.value.Some? then ks + [|cs| - 1] else ks
  }

  /** `findAll` succeeds exactly when no match throws. */
  lemma {:induction false} FoundOk(cs: seq<ScanMatch>, env: Env)
    ensures Found(cs, env).Ok? <==> forall k :: 0 <= k < |cs| ==> Accept(cs[k], env).Ok?
    decreases |cs|
  {
    hide Accept;
    if |cs| > 0 {
      var init := cs[..|cs| - 1];
      FoundOk(init, env);
      assert forall k :: 0 <= k < |init| ==> init[k] == cs[k];
    }
  }

  /** When it succeeds, `findAll` yields, in text order, one measure for
      each match whose amount and unit are accepted, and skips exactly the
      others. */
  lemma {:induction false} FoundKept(cs: seq<ScanMatch>, env: Env)
    requires Found(cs, env).Ok?
    ensures |Kept(cs, env)| == |Found(cs, env).value|
    ensures forall i :: 0 <= i < |Kept(cs, env)| ==>
      0 <= Kept(cs, env)[i] < |cs| && Accept(cs[Kept(cs, env)[i]], env).Ok?
      && Accept(cs[Kept(cs, env)[i]], env).value == Some(Found(cs, env).value[i])
    ensures forall i, j :: 0 <= i < j < |Kept(cs, env)| ==> Kept(cs, env)[i] < Kept(cs, env)[j]
    ensures forall k :: 0 <= k < |cs| && k !in Kept(cs, env) ==>
      Accept(cs[k], env).Ok? && Accept(cs[k], env).value.None?
    decreases |cs|
  {
    hide Accept;
    if |cs| > 0 {
      var init := cs[..|cs| - 1];
      var last := |cs| - 1;
      assert forall k :: 0 <= k < |init| ==> init[k] == cs[k];
      FoundKept(init, env);
      var ks0 := Kept(init, env);
      var ms0 := Found(init, env).value;
      assert forall i :: 0 <= i < |ks0| ==> 0 <= ks0[i] < last;
      match Accept(cs[last], env)
      case Ok(None) =>
        assert Kept(cs, env) == ks0 && Found(cs, env).value == ms0;
      case Ok(Some(m)) =>
        assert Kept(cs, env) == ks0 + [last] && Found(cs, env).value == ms0 + [m];
    }
  }

  /** Matches none of which is accepted give no measure. */
  lemma {:induction false} NothingAccepted(cs: seq<ScanMatch>, env: Env)
    requires forall k :: 0 <= k < |cs| ==> Accept(cs[k], env).Ok? && Accept(cs[k], env).value.None?
    ensures Found(cs, env).Ok? && |Found(cs, env).value| == 0
    decreases |cs|
  {
    hide Accept;
    if |cs| > 0 {
      var init := cs[..|cs| - 1];
      assert forall k :: 0 <= k < |init| ==> init[k] == cs[k];
      NothingAccepted(init, env);
    }
  }

  /** Once a match throws, the whole scan throws that exception. */
  lemma {:induction false} FoundErrSticks(cs: seq<ScanMatch>, env: Env, i: nat)
    requires i <= |cs| && Found(cs[..i], env).Err?
    ensures Found(cs, env) == Err(Found(cs[..i], env).message)
    decreases |cs| - i
  {
    if i < |cs| {
      assert cs[..i + 1][..i] == cs[..i];
      FoundErrSticks(cs, env, i + 1);
    } else {
      assert cs[..i] == cs;
    }
  }

  /** `MeasureFinder.findAll(text)`, given the matches `cs` of its
      expression in `text`: a fresh measure per accepted match. */
  method FindAll(cs: seq<ScanMatch>, env: Env) returns (r: Result<seq<Measure>>)
    ensures r.Ok? <==> Found(cs, env).Ok?
    ensures r.Err? ==> r.message == Found(cs, env).message
    ensures r.Ok? ==> |r.value| == |Found(cs, env).value|
    ensures r.Ok? ==> forall i :: 0 <= i < |r.value| ==> fresh(r.value[i]) && r.value[i].State() == Found(cs, env).value[i]
    ensures r.Ok? ==> forall i, j :: 0 <= i < j < |r.value| ==> r.value[i] != r.value[j]
  {
    hide FromString, Fraction.ParseFractionOf, GramsOf, MatchTable, Named;
    var matches: seq<Measure> := [];
    var i := 0;
    while i < |cs|
      invariant i <= |cs| && Found(cs[..i], env).Ok?
      invariant |matches| == |Found(cs[..i], env).value|
      invariant forall k :: 0 <= k < |matches| ==> fresh(matches[k]) && matches[k].State() == Found(cs[..i], env).value[k]
      invariant forall k, l :: 0 <= k < l < |matches| ==> matches[k] != matches[l]
    {
      assert cs[..i + 1][..i] == cs[..i];
      var c := cs[i];
      var amount := Fraction.ParseFraction(c.number, env.decode, env.show);
      var x := env.toNumber(amount);
      if x.Some? && env.show(x.value) == amount {
        var unit := FromString(c.unitText, env.plural, env.firstUnit);
        if unit.Err? {
          FoundErrSticks(cs, env, i + 1);
          return Err(unit.message);
        }
        if unit.value.Some? {
          var m := new Measure(unit.value.value, x.value, c.original, c.context);
          matches := matches + [m];
        }
      }
      i := i + 1;
    }
    assert cs[..i] == cs;
    r := Ok(matches);
  }
}
