/** lib/unit.ts: looking units up, converting amounts between units of a
    domain, choosing the most readable unit, and the lookup tables built
    once from the unit data. */
module Units {
  import opened Wrappers
  import opened Strings
  import opened UnitData
  import opened Assoc
  import RegExp

  /** `extractUnitData.allUnits`: the units in table order. */
  const AllUnits: seq<Unit> := UnitTable

  // ----- lookup by canonical name -----

  /** `nameToUnit`: `nameToUnit[unit.name] = unit` for each unit in order. */
  function NameTable(us: seq<Unit>): map<string, Unit> {
    if us == [] then map[] else NameTable(us[..|us| - 1])[us[|us| - 1].name := us[|us| - 1]]
  }

  /** The name table holds exactly the units' names, each mapped to a unit of
      that name. */
  lemma {:induction false} NameTableSpec(us: seq<Unit>, name: string)
    ensures name in NameTable(us) <==> exists u :: u in us && u.name == name
    ensures name in NameTable(us) ==> NameTable(us)[name] in us && NameTable(us)[name].name == name
  {
    if us != [] {
      var init := us[..|us| - 1];
      NameTableSpec(init, name);
      assert forall u :: u in us <==> u in init || u == us[|us| - 1];
    }
  }

  /** `Unit.named(name)`: the unit whose canonical name is `name`; any other
      string, plural or short form included, fails. */
  function Named(name: string): (r: Result<Unit>)
    ensures r.Ok? <==> exists u :: u in AllUnits && u.name == name
    ensures r.Ok? ==> r.value in AllUnits && r.value.name == name
    ensures r.Err? ==> r.message == "unit " + name + " does not exist"
  {
    NameTableSpec(AllUnits, name);
    if name in NameTable(AllUnits) then Ok(NameTable(AllUnits)[name])
    else Err("unit " + name + " does not exist")
  }

  /** Every unit of the table is found by its own name. */
  lemma NamedFindsEveryUnit(i: nat)
    requires i < |AllUnits|
    ensures Named(AllUnits[i].name) == Ok(AllUnits[i])
  {
    var r := Named(AllUnits[i].name);
    assert AllUnits[i] in AllUnits;
    var j :| 0 <= j < |AllUnits| && AllUnits[j] == r.value;
    NamesDistinct();
    assert !(i < j) && !(j < i);
  }

  /** The names of tests/unit.spec.ts resolve to their units. */
  lemma NamedExamples()
    ensures Named("gram") == Ok(AllUnits[1]) && Named("kilogram") == Ok(AllUnits[2])
    ensures Named("cup") == Ok(AllUnits[14])
  {
    TableContents();
    NamedFindsEveryUnit(1);
    NamedFindsEveryUnit(2);
    NamedFindsEveryUnit(14);
  }

  /** A plural or a short form is no canonical name. */
  lemma NamedRejects()
    ensures Named("grams").Err? && Named("g").Err?
  {
    NotUnitNames();
    NamedUnknown("grams");
    NamedUnknown("g");
  }

  lemma NamedUnknown(name: string)
    requires forall i :: 0 <= i < |AllUnits| ==> AllUnits[i].name != name
    ensures Named(name).Err?
  {
  }

  /** `unit.shortForm()`: the first alternative name, `undefined` (`None`)
      when there is none. */
  function ShortForm(u: Unit): (r: Option<string>)
    ensures r.Some? <==> |u.altnames| > 0
    ensures r.Some? ==> r.value in u.altnames
  {
    if |u.altnames| > 0 then Some(u.altnames[0]) else None
  }

  /** `unit.isMetric()` */
  predicate IsMetric(u: Unit) { u.system == Metric }

  /** tests/unit.spec.ts: short forms and the metric check. */
  lemma ShortFormExamples()
    ensures ShortForm(AllUnits[1]) == Some("g") && ShortForm(AllUnits[10]) == Some("tsp")
    ensures ShortForm(AllUnits[13]) == Some("fl oz")
    ensures forall u :: u in AllUnits ==> ShortForm(u).Some?
    ensures IsMetric(AllUnits[1]) && !IsMetric(AllUnits[4])
  {
    AltnamesNonEmpty();
  }

  // ----- possible conversions -----

  /** The filter of `possibleConversions`: the same domain and, when a system
      is given, that system. */
  predicate Compatible(u: Unit, w: Unit, system: Option<System>) {
    w.domain == u.domain && (system.None? || w.system == system.value)
  }

  function FilterCompatible(us: seq<Unit>, u: Unit, system: Option<System>): (r: seq<Unit>)
    ensures |r| <= |us|
    ensures forall i :: 0 <= i < |r| ==> Compatible(u, r[i], system)
  {
    if us == [] then []
    else
      var rest := FilterCompatible(us[1..], u, system);
      if Compatible(u, us[0], system) then [us[0]] + rest else rest
  }

  /** The filter keeps exactly the compatible units. */
  lemma {:induction false} FilterMembers(us: seq<Unit>, u: Unit, system: Option<System>, w: Unit)
    ensures w in FilterCompatible(us, u, system) <==> w in us && Compatible(u, w, system)
  {
    if us != [] {
      FilterMembers(us[1..], u, system, w);
      assert w in us <==> w == us[0] || w in us[1..];
    }
  }

  /** `unit.possibleConversions(system)`: the units of the same domain (and
      system, if given), in table order. */
  function PossibleConversions(u: Unit, system: Option<System>): (r: seq<Unit>)
    ensures forall i :: 0 <= i < |r| ==> Compatible(u, r[i], system)
  {
    FilterCompatible(AllUnits, u, system)
  }

  lemma {:induction false} FilterAppend(a: seq<Unit>, b: seq<Unit>, u: Unit, system: Option<System>)
    ensures FilterCompatible(a + b, u, system) == FilterCompatible(a, u, system) + FilterCompatible(b, u, system)
  {
    if a == [] {
      assert a + b == b;
    } else {
      assert (a + b)[1..] == a[1..] + b;
      FilterAppend(a[1..], b, u, system);
    }
  }

  lemma {:induction false} FilterKeepsAll(a: seq<Unit>, u: Unit, system: Option<System>)
    requires forall i :: 0 <= i < |a| ==> Compatible(u, a[i], system)
    ensures FilterCompatible(a, u, system) == a
  {
    if a != [] {
      FilterKeepsAll(a[1..], u, system);
    }
  }

  lemma {:induction false} FilterDropsAll(a: seq<Unit>, u: Unit, system: Option<System>)
    requires forall i :: 0 <= i < |a| ==> !Compatible(u, a[i], system)
    ensures FilterCompatible(a, u, system) == []
  {
    if a != [] {
      FilterDropsAll(a[1..], u, system);
    }
  }

  /** tests/unit.spec.ts: the conversions of the gram, in table order. */
  lemma PossibleConversionsExamples(g: Unit)
    requires g == AllUnits[1]
    ensures PossibleConversions(g, None) == AllUnits[..5]
    ensures PossibleConversions(g, Some(Metric)) == AllUnits[..3]
  {
    GramCompatibility(g);
    PossibleConversionsPrefix(g, None, 5);
    PossibleConversionsPrefix(g, Some(Metric), 3);
  }

  lemma GramCompatibility(g: Unit)
    requires g == AllUnits[1]
    ensures forall i :: 0 <= i < 5 ==> Compatible(g, AllUnits[i], None)
    ensures forall i :: 5 <= i < |AllUnits| ==> !Compatible(g, AllUnits[i], None)
    ensures forall i :: 0 <= i < 3 ==> Compatible(g, AllUnits[i], Some(Metric))
    ensures forall i :: 3 <= i < |AllUnits| ==> !Compatible(g, AllUnits[i], Some(Metric))
  {
    TableDomains();
  }

  lemma PossibleConversionsPrefix(u: Unit, system: Option<System>, n: nat)
    requires n <= |AllUnits|
    requires forall i :: 0 <= i < n ==> Compatible(u, AllUnits[i], system)
    requires forall i :: n <= i < |AllUnits| ==> !Compatible(u, AllUnits[i], system)
    ensures PossibleConversions(u, system) == AllUnits[..n]
  {
    FilterPrefix(AllUnits, u, system, n);
  }

  /** A filter that keeps a prefix and drops the rest returns the prefix. */
  lemma FilterPrefix(us: seq<Unit>, u: Unit, system: Option<System>, n: nat)
    requires n <= |us|
    requires forall i :: 0 <= i < n ==> Compatible(u, us[i], system)
    requires forall i :: n <= i < |us| ==> !Compatible(u, us[i], system)
    ensures FilterCompatible(us, u, system) == us[..n]
  {
    assert us == us[..n] + us[n..];
    FilterAppend(us[..n], us[n..], u, system);
    FilterKeepsAll(us[..n], u, system);
    FilterDropsAll(us[n..], u, system);
  }

  /** `unit.canConvert(to)`: some possible conversion has the name of `to`. */
  predicate CanConvert(u: Unit, to: Unit) {
    exists w :: w in PossibleConversions(u, None) && w.name == to.name
  }

  /** Between units of the table, a conversion is possible exactly within a
      domain. */
  lemma CanConvertSameDomain(u: Unit, to: Unit)
    requires to in AllUnits
    ensures CanConvert(u, to) <==> u.domain == to.domain
  {
    NamesDistinct();
    FilterMembers(AllUnits, u, None, to);
    if CanConvert(u, to) {
      var w :| w in PossibleConversions(u, None) && w.name == to.name;
      FilterMembers(AllUnits, u, None, w);
    }
  }

  // ----- conversion -----

  /** How much of the metric base unit (gram, litre) `val` of `u` is. */
  function BaseAmount(u: Unit, val: real): real {
    val * u.value * (if u.system == Imperial then ImperialToMetricMultiplier(u.domain) else 1.0)
  }

  /** `unit.convert({to, val})` between units of one domain: zero stays zero;
      within a system the ratio of the scales; across systems through the
      base units and the multiplier, or its reciprocal from metric. */
  function ConvertValue(from: Unit, val: real, to: Unit): (r: real)
    requires from.domain == to.domain
    ensures BaseAmount(to, r) == BaseAmount(from, val)
  {
    var m := ImperialToMetricMultiplier(from.domain);
    if val == 0.0 then 0.0
    else if from.system == to.system then
      var r := val * (from.value / to.value);
      assert r * to.value == val * from.value;
      r
    else
      var rate := if from.system == Metric then 1.0 / m else m;
      var r := val * from.value * rate / to.value;
      assert r * to.value == val * from.value * rate;
      assert from.system == Metric ==> rate * m == 1.0;
      r
  }

  /** `unit.convert({to, val})`, throwing across domains. */
  function Convert(from: Unit, val: real, to: Unit): (r: Result<real>)
    ensures r.Err? <==> from.domain != to.domain
    ensures r.Err? ==> r.message == "cannot convert between two different domains"
    ensures r.Ok? ==> BaseAmount(to, r.value) == BaseAmount(from, val)
  {
    if from.domain != to.domain then Err("cannot convert between two different domains")
    else Ok(ConvertValue(from, val, to))
  }

  /** An amount of a unit is determined by the quantity it stands for. */
  lemma BaseAmountInjective(u: Unit, x: real, y: real)
    requires BaseAmount(u, x) == BaseAmount(u, y)
    ensures x == y
  {
    var k := u.value * (if u.system == Imperial then ImperialToMetricMultiplier(u.domain) else 1.0);
    assert BaseAmount(u, x) == x * k && BaseAmount(u, y) == y * k;
    assert k > 0.0;
  }

  /** Converting to the same unit keeps the amount. */
  lemma ConvertSameUnit(u: Unit, val: real)
    ensures ConvertValue(u, val, u) == val
  {
  }

  /** Converting there and back returns the amount. */
  lemma ConvertRoundTrip(a: Unit, b: Unit, val: real)
    requires a.domain == b.domain
    ensures ConvertValue(b, ConvertValue(a, val, b), a) == val
  {
    BaseAmountInjective(a, ConvertValue(b, ConvertValue(a, val, b), a), val);
  }

  /** Converting through an intermediate unit is converting directly. */
  lemma ConvertCompose(a: Unit, b: Unit, c: Unit, val: real)
    requires a.domain == b.domain == c.domain
    ensures ConvertValue(b, ConvertValue(a, val, b), c) == ConvertValue(a, val, c)
  {
    BaseAmountInjective(c, ConvertValue(b, ConvertValue(a, val, b), c), ConvertValue(a, val, c));
  }

  function Abs(x: real): real { if x < 0.0 then -x else x }

  /** The exact mass values of tests/unit.spec.ts. */
  lemma ConvertMassExamples()
    ensures Convert(AllUnits[1], 1000.0, AllUnits[2]) == Ok(1.0)
    ensures Convert(AllUnits[1], 1000.0, AllUnits[0]) == Ok(1000000.0)
    ensures Convert(AllUnits[1], 1000.0, AllUnits[1]) == Ok(1000.0)
    ensures Convert(AllUnits[1], 0.0, AllUnits[4]) == Ok(0.0)
  {
    TableContents(); TableDomains();
    var mg, g, kg := AllUnits[0], AllUnits[1], AllUnits[2];
    assert ConvertValue(g, 1000.0, kg) == 1000.0 * (1.0 / 1000.0);
    assert ConvertValue(g, 1000.0, mg) == 1000.0 * (1.0 / (1.0 / 1000.0));
  }

  /** The exact volume values of tests/unit.spec.ts, and a conversion across
      domains. */
  lemma ConvertVolumeExamples()
    ensures Convert(AllUnits[9], 1.0, AllUnits[7]) == Ok(100.0)
    ensures Convert(AllUnits[7], 100.0, AllUnits[9]) == Ok(1.0)
    ensures Convert(AllUnits[10], 6.0, AllUnits[11]) == Ok(2.0)
    ensures Convert(AllUnits[14], 1.0, AllUnits[1]).Err?
  {
    TableContents(); TableDomains();
    var cl, l, tsp, tbsp := AllUnits[7], AllUnits[9], AllUnits[10], AllUnits[11];
    assert ConvertValue(l, 1.0, cl) == 1.0 * (1.0 / (1.0 / 100.0));
    assert ConvertValue(cl, 100.0, l) == 100.0 * ((1.0 / 100.0) / 1.0);
    assert ConvertValue(tsp, 6.0, tbsp) == 6.0 * ((1.0 / 6.0) / (1.0 / 2.0));
    assert AllUnits[14].domain != AllUnits[1].domain;
  }

  /** The approximate values of tests/unit.spec.ts, within its tolerance of
      0.001. */
  lemma ConvertAcrossSystemsExamples()
    ensures Abs(Convert(AllUnits[2], 1.0, AllUnits[4]).value - 2.20462) < 0.001
    ensures Abs(Convert(AllUnits[9], 2.0, AllUnits[17]).value - 0.528344) < 0.001
    ensures Abs(Convert(AllUnits[17], 2.0, AllUnits[9]).value - 7.57082) < 0.001
  {
    TableContents(); TableDomains();
    var kg, lb, l, gal := AllUnits[2], AllUnits[4], AllUnits[9], AllUnits[17];
    assert ConvertValue(kg, 1.0, lb) == 1000.0 / 453.592;
    assert ConvertValue(l, 2.0, gal) == 2.0 * 33.8140226 / 128.0;
    assert ConvertValue(gal, 2.0, l) == 256.0 / 33.8140226;
  }

  // ----- the most readable conversion -----

  /** `score` in `convertBest` is 0.5 up to magnitude 1 and
      `1 - log10(|v|) / 10` above it: the smaller the magnitude above 1 the
      better, and a magnitude of at most 1 scores like 100000. The key ranks
      values the same way, smaller being better. */
  function ReadabilityKey(v: real): real {
    if Abs(v) <= 1.0 then 100000.0 else Abs(v)
  }

  /** `score(a) > score(b)` */
  predicate MoreReadable(a: real, b: real) { ReadabilityKey(a) < ReadabilityKey(b) }

  /** The amounts the candidates of `convertBest` give, in order. */
  function Converted(u: Unit, val: real, cands: seq<Unit>): (vs: seq<real>)
    requires forall i :: 0 <= i < |cands| ==> cands[i].domain == u.domain
    ensures |vs| == |cands| && forall i :: 0 <= i < |cands| ==> vs[i] == ConvertValue(u, val, cands[i])
  {
    if cands == [] then [] else Converted(u, val, cands[..|cands| - 1]) + [ConvertValue(u, val, cands[|cands| - 1])]
  }

  /** The choice the `forEach` of `convertBest` makes among the amounts
      `vals`: the index of the chosen one, or -1 for the starting amount,
      and the amount itself. It moves only to a strictly more readable
      amount. */
  function MostReadable(val: real, vals: seq<real>): (r: (int, real))
    ensures -1 <= r.0 < |vals|
  {
    if vals == [] then (-1, val)
    else
      var prev := MostReadable(val, vals[..|vals| - 1]);
      if MoreReadable(vals[|vals| - 1], prev.1) then (|vals| - 1, vals[|vals| - 1]) else prev
  }

  /** No amount reads better than the chosen one; and unless the starting
      amount is kept, the chosen one is the first that reads better than
      every earlier one and than the starting amount. */
  lemma {:induction false} MostReadableSpec(val: real, vals: seq<real>)
    ensures var (k, v) := MostReadable(val, vals);
      -1 <= k < |vals| && v == (if k < 0 then val else vals[k])
      && !MoreReadable(val, v)
      && (forall j :: 0 <= j < |vals| ==> !MoreReadable(vals[j], v))
      && (k >= 0 ==> MoreReadable(v, val) && forall j :: 0 <= j < k ==> MoreReadable(v, vals[j]))
  {
    if vals != [] {
      var init := vals[..|vals| - 1];
      MostReadableSpec(val, init);
      assert forall j :: 0 <= j < |init| ==> vals[j] == init[j];
    }
  }

  /** The choice among converted amounts, stated about the units: the
      chosen amount is the starting amount converted to the chosen unit, and
      neither the starting amount nor any candidate's reads better. */
  lemma MostReadableConversion(u: Unit, val: real, cands: seq<Unit>, best: Unit, bestVal: real)
    requires forall i :: 0 <= i < |cands| ==> cands[i].domain == u.domain
    requires Chosen(u, val, cands, best, bestVal)
    ensures best.domain == u.domain && bestVal == ConvertValue(u, val, best)
    ensures !MoreReadable(val, bestVal)
    ensures forall i :: 0 <= i < |cands| ==> !MoreReadable(ConvertValue(u, val, cands[i]), bestVal)
  {
    MostReadableSpec(val, Converted(u, val, cands));
    ConvertSameUnit(u, val);
  }

  /** `best` and `bestVal` are the choice `MostReadable` makes among the
      amounts the candidates `cands` give. */
  predicate Chosen(u: Unit, val: real, cands: seq<Unit>, best: Unit, bestVal: real)
    requires forall i :: 0 <= i < |cands| ==> cands[i].domain == u.domain
  {
    var (k, v) := MostReadable(val, Converted(u, val, cands));
    best == (if k < 0 then u else cands[k]) && bestVal == v
  }

  /** One more candidate: the choice moves to it exactly when its amount
      reads better. */
  lemma ChosenStep(u: Unit, val: real, cands: seq<Unit>, i: nat, best: Unit, bestVal: real)
    requires i < |cands| && forall j :: 0 <= j < |cands| ==> cands[j].domain == u.domain
    requires Chosen(u, val, cands[..i], best, bestVal)
    ensures var newVal := ConvertValue(u, val, cands[i]);
      if MoreReadable(newVal, bestVal) then Chosen(u, val, cands[..i + 1], cands[i], newVal)
      else Chosen(u, val, cands[..i + 1], best, bestVal)
  {
    assert cands[..i + 1][..i] == cands[..i];
  }

  /** `unit.convertBest({val, system})` */
  method ConvertBest(u: Unit, val: real, system: Option<System>) returns (best: Unit, bestVal: real)
    ensures Chosen(u, val, PossibleConversions(u, system), best, bestVal)
    ensures best.domain == u.domain && bestVal == ConvertValue(u, val, best)
    ensures !MoreReadable(val, bestVal)
    ensures var cands := PossibleConversions(u, system);
      forall i :: 0 <= i < |cands| ==> !MoreReadable(ConvertValue(u, val, cands[i]), bestVal)
  {
    var unitsToTry := PossibleConversions(u, system);
    best, bestVal := u, val;
    var i := 0;
    while i < |unitsToTry|
      invariant 0 <= i <= |unitsToTry|
      invariant Chosen(u, val, unitsToTry[..i], best, bestVal)
    {
      ChosenStep(u, val, unitsToTry, i, best, bestVal);
      var newVal := ConvertValue(u, val, unitsToTry[i]);
      if MoreReadable(newVal, bestVal) {
        best, bestVal := unitsToTry[i], newVal;
      }
      i := i + 1;
    }
    assert unitsToTry[..i] == unitsToTry;
    MostReadableConversion(u, val, unitsToTry, best, bestVal);
  }

  lemma MetricGramAmounts(g: Unit, x: real)
    requires g == AllUnits[1]
    ensures forall i :: 0 <= i < 3 ==> AllUnits[..3][i].domain == g.domain
    ensures Converted(g, x, AllUnits[..3]) == [x * 1000.0, x, x / 1000.0]
  {
    TableContents();
    TableDomains();
    var us := AllUnits[..3];
    assert ConvertValue(g, x, us[0]) == x * 1000.0;
    assert ConvertValue(g, x, us[1]) == x;
    assert ConvertValue(g, x, us[2]) == x / 1000.0;
  }

  lemma MassGramAmounts(g: Unit, x: real)
    requires g == AllUnits[1]
    ensures forall i :: 0 <= i < 5 ==> AllUnits[..5][i].domain == g.domain
    ensures Converted(g, x, AllUnits[..5]) == [x * 1000.0, x, x / 1000.0, x * 16.0 / 453.592, x / 453.592]
  {
    TableContents();
    TableDomains();
    var us := AllUnits[..5];
    assert ConvertValue(g, x, us[0]) == x * 1000.0;
    assert ConvertValue(g, x, us[1]) == x;
    assert ConvertValue(g, x, us[2]) == x / 1000.0;
    assert ConvertValue(g, x, us[3]) == x * 16.0 / 453.592;
    assert ConvertValue(g, x, us[4]) == x / 453.592;
  }

  /** tests/unit.spec.ts: 500 g and 900 g stay in grams among the metric
      units. */
  lemma BestMetricExamples(g: Unit)
    requires g == AllUnits[1]
    ensures MostReadable(500.0, Converted(g, 500.0, PossibleConversions(g, Some(Metric)))) == (-1, 500.0)
    ensures MostReadable(900.0, Converted(g, 900.0, PossibleConversions(g, Some(Metric)))) == (-1, 900.0)
  {
    PossibleConversionsExamples(g);
    MetricGramAmounts(g, 500.0);
    MetricGramAmounts(g, 900.0);
    KeepsGrams(500.0);
    KeepsGrams(900.0);
  }

  /** Between 1 and 1000 grams, neither milligrams nor kilograms read
      better. */
  lemma KeepsGrams(x: real)
    requires 1.0 < x < 1000.0
    ensures MostReadable(x, [x * 1000.0, x, x / 1000.0]) == (-1, x)
  {
    var a := [x * 1000.0, x, x / 1000.0];
    assert a[..2][..1] == [a[0]] && a[..2] == [a[0], a[1]];
    assert MostReadable(x, [a[0]]) == (-1, x);
    assert MostReadable(x, [a[0], a[1]]) == (-1, x);
  }

  /** 1000 g among all mass units becomes about 2.2 lb: 2.2 scores better
      than 1000, and 1 kg only scores 0.5. tests/unit.spec.ts expects 1 kg
      here. */
  lemma BestMassExample(g: Unit)
    requires g == AllUnits[1]
    ensures MostReadable(1000.0, Converted(g, 1000.0, PossibleConversions(g, None))) == (4, 1000.0 / 453.592)
  {
    PossibleConversionsExamples(g);
    MassGramAmounts(g, 1000.0);
    PoundWins();
  }

  lemma PoundWins()
    ensures MostReadable(1000.0, [1000.0 * 1000.0, 1000.0, 1000.0 / 1000.0, 1000.0 * 16.0 / 453.592, 1000.0 / 453.592])
      == (4, 1000.0 / 453.592)
  {
    var a := [1000.0 * 1000.0, 1000.0, 1000.0 / 1000.0, 1000.0 * 16.0 / 453.592, 1000.0 / 453.592];
    assert a[..4][..3][..2][..1] == [a[0]];
    assert a[..4][..3][..2] == [a[0], a[1]];
    assert a[..4][..3] == [a[0], a[1], a[2]];
    assert MostReadable(1000.0, [a[0]]) == (-1, 1000.0);
    assert MostReadable(1000.0, [a[0], a[1]]) == (-1, 1000.0);
    assert MostReadable(1000.0, [a[0], a[1], a[2]]) == (-1, 1000.0);
    assert MostReadable(1000.0, a[..4]) == (3, a[3]);
  }

  // ----- 1000 g as 1 kg -----

  /** The ranking `score` evidently means, going by its own comment (1000 g
      should read as 1 kg, not 2.2 lb): only magnitudes below 1 score 0.5,
      so an amount of exactly 1 scores 1, the best there is. */
  function ReadabilityKeyIntended(v: real): real {
    if Abs(v) < 1.0 then 100000.0 else Abs(v)
  }

  predicate MoreReadableIntended(a: real, b: real) { ReadabilityKeyIntended(a) < ReadabilityKeyIntended(b) }

  /** The choice of `convertBest` under the intended ranking. */
  function MostReadableIntended(val: real, vals: seq<real>): (r: (int, real))
    ensures -1 <= r.0 < |vals|
    ensures r.1 == (if r.0 < 0 then val else vals[r.0])
  {
    if vals == [] then (-1, val)
    else
      var prev := MostReadableIntended(val, vals[..|vals| - 1]);
      if MoreReadableIntended(vals[|vals| - 1], prev.1) then (|vals| - 1, vals[|vals| - 1]) else prev
  }

  /** Under the intended ranking nothing reads better than an amount of
      magnitude one: when a candidate gives one, the choice ends on such an
      amount. */
  lemma {:induction false} OneIsKept(val: real, vals: seq<real>, k: nat)
    requires k < |vals| && Abs(vals[k]) == 1.0
    ensures Abs(MostReadableIntended(val, vals).1) == 1.0
  {
    var init := vals[..|vals| - 1];
    var prev := MostReadableIntended(val, init);
    if k < |vals| - 1 {
      assert init[k] == vals[k];
      OneIsKept(val, init, k);
    }
  }

  /** 1000 g among all mass units, under the intended ranking: 1 kg. */
  lemma KilogramIntended()
    ensures MostReadableIntended(1000.0, [1000.0 * 1000.0, 1000.0, 1000.0 / 1000.0, 1000.0 * 16.0 / 453.592, 1000.0 / 453.592])
      == (2, 1.0)
  {
    var a := [1000.0 * 1000.0, 1000.0, 1000.0 / 1000.0, 1000.0 * 16.0 / 453.592, 1000.0 / 453.592];
    assert a[..4][..3][..2][..1] == [a[0]];
    assert a[..4][..3][..2] == [a[0], a[1]];
    assert a[..4][..3] == [a[0], a[1], a[2]];
    assert MostReadableIntended(1000.0, [a[0]]) == (-1, 1000.0);
    assert MostReadableIntended(1000.0, [a[0], a[1]]) == (-1, 1000.0);
    assert MostReadableIntended(1000.0, [a[0], a[1], a[2]]) == (2, 1.0);
    assert MostReadableIntended(1000.0, a[..4]) == (2, 1.0);
  }
}
