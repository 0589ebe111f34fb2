/** lib/data/unit-data.ts: the table of units, by domain and system, with
    each unit's scale relative to the unit of value 1 in its domain and
    system. */
module UnitData {

  /** `UnitDomain`: what a unit measures. */
  datatype Domain = Mass | Volume

  /** `UnitSystem` */
  datatype System = Metric | Imperial

  /** Scales are positive in every entry. */
  type Scale = r: real | r > 0.0 witness 1.0

  /** A `UnitDataEntry` together with the domain and system of the list it
      sits in: the fields of the `Unit` object built from it (lib/unit.ts). */
  datatype Unit = Unit(name: string, altnames: seq<string>, value: Scale, domain: Domain, system: System)

  /** `imperialToMetricMultiplier`: from the imperial unit of value 1 (pound,
      fluid ounce) to the metric unit of value 1 (gram, litre). */
  function ImperialToMetricMultiplier(d: Domain): (m: Scale)
    ensures d == Mass ==> m == 453.592
    ensures d == Volume ==> m * 33.8140226 == 1.0
  {
    match d
    case Mass => 453.592
    case Volume => 1.0 / 33.8140226
  }

  /** `unitData`: its four lists (mass metric, mass imperial, volume metric,
      volume imperial) one after the other, in the order in which the nested
      loops over `Object.keys` visit them. */
  const UnitTable: seq<Unit> := [
    Unit("milligram", ["mg"], 1.0 / 1000.0, Mass, Metric),
    Unit("gram", ["g"], 1.0, Mass, Metric),
    Unit("kilogram", ["kg"], 1000.0, Mass, Metric),
    Unit("ounce", ["oz"], 1.0 / 16.0, Mass, Imperial),
    Unit("pound", ["lb"], 1.0, Mass, Imperial),
    Unit("cubic centimeter", ["cc", "cubic centimetre", "cubic cm"], 1.0 / 1000.0, Volume, Metric),
    Unit("millilitre", ["ml", "milliliter"], 1.0 / 1000.0, Volume, Metric),
    Unit("centilitre", ["cl", "centiliter"], 1.0 / 100.0, Volume, Metric),
    Unit("declilitre", ["dl", "deliliter"], 1.0 / 10.0, Volume, Metric),
    Unit("litre", ["l", "liter"], 1.0, Volume, Metric),
    Unit("teaspoon", ["tsp", "tspn", "t"], 1.0 / 6.0, Volume, Imperial),
    Unit("tablespoon", ["tbsp", "tbs", "tbspn", "T"], 1.0 / 2.0, Volume, Imperial),
    Unit("dessert spoon", ["dsp", "desert spoon"], 0.4, Volume, Imperial),
    Unit("fluid ounce", ["fl oz", "floz", "oz fl", "fl ounce", "fluid oz"], 1.0, Volume, Imperial),
    Unit("cup", ["c"], 8.0, Volume, Imperial),
    Unit("pint", ["pnt"], 16.0, Volume, Imperial),
    Unit("quart", ["qt", "qrt"], 32.0, Volume, Imperial),
    Unit("gallon", ["gal", "glln", "galln"], 128.0, Volume, Imperial),
    Unit("stick", ["stk"], 4.0, Volume, Imperial)
  ]

  /** The names and scales of the units, by position. */
  lemma TableContents()
    ensures |UnitTable| == 19
    ensures UnitTable[0].name == "milligram" && UnitTable[0].value == 1.0 / 1000.0
    ensures UnitTable[1].name == "gram" && UnitTable[1].value == 1.0
    ensures UnitTable[2].name == "kilogram" && UnitTable[2].value == 1000.0
    ensures UnitTable[3].name == "ounce" && UnitTable[3].value == 1.0 / 16.0
    ensures UnitTable[4].name == "pound" && UnitTable[4].value == 1.0
    ensures UnitTable[6].name == "millilitre" && UnitTable[6].value == 1.0 / 1000.0
    ensures UnitTable[7].name == "centilitre" && UnitTable[7].value == 1.0 / 100.0
    ensures UnitTable[9].name == "litre" && UnitTable[9].value == 1.0
    ensures UnitTable[10].name == "teaspoon" && UnitTable[10].value == 1.0 / 6.0
    ensures UnitTable[11].name == "tablespoon" && UnitTable[11].value == 1.0 / 2.0
    ensures UnitTable[13].name == "fluid ounce" && UnitTable[13].value == 1.0
    ensures UnitTable[14].name == "cup" && UnitTable[14].value == 8.0
    ensures UnitTable[17].name == "gallon" && UnitTable[17].value == 128.0
  {
    MassContents();
    VolumeContents();
  }

  lemma MassContents()
    ensures |UnitTable| == 19
    ensures UnitTable[0].name == "milligram" && UnitTable[0].value == 1.0 / 1000.0
    ensures UnitTable[1].name == "gram" && UnitTable[1].value == 1.0
    ensures UnitTable[2].name == "kilogram" && UnitTable[2].value == 1000.0
    ensures UnitTable[3].name == "ounce" && UnitTable[3].value == 1.0 / 16.0
    ensures UnitTable[4].name == "pound" && UnitTable[4].value == 1.0
  {
  }

  lemma VolumeContents()
    ensures UnitTable[6].name == "millilitre" && UnitTable[6].value == 1.0 / 1000.0
    ensures UnitTable[7].name == "centilitre" && UnitTable[7].value == 1.0 / 100.0
    ensures UnitTable[9].name == "litre" && UnitTable[9].value == 1.0
    ensures UnitTable[10].name == "teaspoon" && UnitTable[10].value == 1.0 / 6.0
    ensures UnitTable[11].name == "tablespoon" && UnitTable[11].value == 1.0 / 2.0
    ensures UnitTable[13].name == "fluid ounce" && UnitTable[13].value == 1.0
    ensures UnitTable[14].name == "cup" && UnitTable[14].value == 8.0
    ensures UnitTable[17].name == "gallon" && UnitTable[17].value == 128.0
  {
  }

  /** The mass units come first, then the volume units; metric before
      imperial in each. */
  lemma TableDomains()
    ensures |UnitTable| == 19
    ensures forall i :: 0 <= i < 5 ==> UnitTable[i].domain == Mass
    ensures forall i :: 5 <= i < 19 ==> UnitTable[i].domain == Volume
    ensures forall i :: 0 <= i < 19 ==>
      UnitTable[i].system == (if i < 3 || 5 <= i < 10 then Metric else Imperial)
  {
  }

  /** The position of the unit of value 1 of a domain and system (gram,
      pound, litre, fluid ounce): the bases the multiplier links. */
  function BaseIndex(d: Domain, s: System): (i: nat)
    ensures i < |UnitTable| && UnitTable[i].value == 1.0
    ensures UnitTable[i].domain == d && UnitTable[i].system == s
  {
    match (d, s)
    case (Mass, Metric) => 1
    case (Mass, Imperial) => 4
    case (Volume, Metric) => 9
    case (Volume, Imperial) => 13
  }

  /** No other unit of the same domain and system has value 1. */
  lemma OneBasePerList()
    ensures forall i :: 0 <= i < |UnitTable| && UnitTable[i].value == 1.0 ==>
      i == BaseIndex(UnitTable[i].domain, UnitTable[i].system)
  {
  }

  /** No two units share a name. */
  lemma NamesDistinct()
    ensures forall i, j :: 0 <= i < j < |UnitTable| ==> UnitTable[i].name != UnitTable[j].name
  {
    NamesDistinctFrom0();
    NamesDistinctFrom5();
    NamesDistinctFrom10();
    NamesDistinctFrom15();
  }

  /** No unit's name is an alternative name of any unit. */
  lemma NamesNotAltnames()
    ensures forall i, j, k :: 0 <= i < |UnitTable| && 0 <= j < |UnitTable| && 0 <= k < |UnitTable[j].altnames| ==>
      UnitTable[i].name != UnitTable[j].altnames[k]
  {
    NamesNotAltnamesFrom0();
    NamesNotAltnamesFrom5();
    NamesNotAltnamesFrom7();
    NamesNotAltnamesFrom10();
    NamesNotAltnamesFrom15();
  }

  lemma NamesDistinctFrom0()
    ensures forall i, j :: 0 <= i < 5 && i < j < |UnitTable| ==> UnitTable[i].name != UnitTable[j].name
  {
  }

  lemma NamesDistinctFrom5()
    ensures forall i, j :: 5 <= i < 10 && i < j < |UnitTable| ==> UnitTable[i].name != UnitTable[j].name
  {
  }

  lemma NamesDistinctFrom10()
    ensures forall i, j :: 10 <= i < 15 && i < j < |UnitTable| ==> UnitTable[i].name != UnitTable[j].name
  {
  }

  lemma NamesDistinctFrom15()
    ensures forall i, j :: 15 <= i < 19 && i < j < |UnitTable| ==> UnitTable[i].name != UnitTable[j].name
  {
  }

  lemma NamesNotAltnamesFrom0()
    ensures forall i, j, k :: 0 <= i < 5 && 0 <= j < |UnitTable| && 0 <= k < |UnitTable[j].altnames| ==>
      UnitTable[i].name != UnitTable[j].altnames[k]
  {
  }

  lemma NamesNotAltnamesFrom5()
    ensures forall i, j, k :: 5 <= i < 7 && 0 <= j < |UnitTable| && 0 <= k < |UnitTable[j].altnames| ==>
      UnitTable[i].name != UnitTable[j].altnames[k]
  {
  }

  lemma NamesNotAltnamesFrom7()
    ensures forall i, j, k :: 7 <= i < 10 && 0 <= j < |UnitTable| && 0 <= k < |UnitTable[j].altnames| ==>
      UnitTable[i].name != UnitTable[j].altnames[k]
  {
  }

  lemma NamesNotAltnamesFrom10()
    ensures forall i, j, k :: 10 <= i < 15 && 0 <= j < |UnitTable| && 0 <= k < |UnitTable[j].altnames| ==>
      UnitTable[i].name != UnitTable[j].altnames[k]
  {
  }

  lemma NamesNotAltnamesFrom15()
    ensures forall i, j, k :: 15 <= i < 19 && 0 <= j < |UnitTable| && 0 <= k < |UnitTable[j].altnames| ==>
      UnitTable[i].name != UnitTable[j].altnames[k]
  {
  }

  /** "grams" (the name `toGrams` asks for) and "g" are no unit names. */
  lemma NotUnitNames()
    ensures forall i :: 0 <= i < |UnitTable| ==> UnitTable[i].name != "grams" && UnitTable[i].name != "g"
  {
  }

  /** The millilitre's alternative names; no unit's short form is
      "milliliter". */
  lemma AltnameFacts()
    ensures UnitTable[6].altnames == ["ml", "milliliter"]
    ensures forall i :: 0 <= i < |UnitTable| ==> UnitTable[i].altnames[0] != "milliliter"
  {
  }

  /** Every unit has an alternative name; the first is its short form. */
  lemma AltnamesNonEmpty()
    ensures forall i :: 0 <= i < |UnitTable| ==> |UnitTable[i].altnames| > 0
  {
  }
}
