/** The lookup tables lib/unit.ts builds once from the unit data
    (`precomputeExtractUnitData`), and the lookups that read them:
    `Unit.fromString` and `Unit.isShortForm`. */
module UnitRegistry {
  import opened Wrappers
  import opened Strings
  import opened UnitData
  import opened Assoc
  import opened Units
  import RegExp

  /** `ExtractUnitData`. The regular expression is kept as its source text;
      it carries the case-insensitive flag. */
  datatype Registry = Registry(
    regex: string,
    matchToUnit: Table<Unit>,
    nameToUnit: map<string, Unit>,
    shortForm: map<string, Unit>,
    allUnits: seq<Unit>)

  // ----- matchToUnit -----

  /** The assignments `matchToUnit[unit.name]` and
      `matchToUnit[pluralize(unit.name)]`. */
  function NameRegistrations(u: Unit, plural: string -> string): seq<Pair<Unit>> {
    [Pair(u.name, u), Pair(plural(u.name), u)]
  }

  /** The assignments `matchToUnit[altname]` and
      `matchToUnit[pluralize(altname)]` for each of `alts` in order. */
  function AltRegistrations(u: Unit, alts: seq<string>, plural: string -> string): seq<Pair<Unit>> {
    if alts == [] then []
    else
      var a := alts[|alts| - 1];
      AltRegistrations(u, alts[..|alts| - 1], plural) + [Pair(a, u), Pair(plural(a), u)]
  }

  /** Every assignment to `matchToUnit` for the units `us`, in order. */
  function Registrations(us: seq<Unit>, plural: string -> string): seq<Pair<Unit>> {
    if us == [] then []
    else
      var u := us[|us| - 1];
      Registrations(us[..|us| - 1], plural) + NameRegistrations(u, plural) + AltRegistrations(u, u.altnames, plural)
  }

  /** `matchToUnit` as the assignments leave it. */
  function MatchTable(us: seq<Unit>, plural: string -> string): Table<Unit> {
    PutAll([], Registrations(us, plural))
  }

  lemma {:induction false} AltRegistrationsSpec(u: Unit, alts: seq<string>, plural: string -> string)
    ensures var rs := AltRegistrations(u, alts, plural);
      |rs| == 2 * |alts|
      && (forall i :: 0 <= i < |rs| ==> rs[i].val == u)
      && (forall j :: 0 <= j < |alts| ==> rs[2 * j].key == alts[j])
  {
    if alts != [] {
      var init := alts[..|alts| - 1];
      AltRegistrationsSpec(u, init, plural);
    }
  }

  /** Each assignment maps to one of the units. */
  lemma {:induction false} RegistrationsValues(us: seq<Unit>, plural: string -> string)
    ensures forall p :: p in Registrations(us, plural) ==> p.val in us
  {
    if us != [] {
      var init := us[..|us| - 1];
      var u := us[|us| - 1];
      RegistrationsValues(init, plural);
      AltRegistrationsSpec(u, u.altnames, plural);
      var prev := Registrations(init, plural);
      var alt := AltRegistrations(u, u.altnames, plural);
      var rs := prev + NameRegistrations(u, plural) + alt;
      assert Registrations(us, plural) == rs;
      forall p | p in rs ensures p.val in us {
        if p in prev {
          assert p.val in init;
        } else if p in alt {
          var k :| 0 <= k < |alt| && alt[k] == p;
        }
      }
    }
  }

  /** Each unit's name is assigned to it. */
  lemma {:induction false} RegistrationsNames(us: seq<Unit>, plural: string -> string)
    ensures forall i :: 0 <= i < |us| ==> Pair(us[i].name, us[i]) in Registrations(us, plural)
  {
    if us != [] {
      var init := us[..|us| - 1];
      var u := us[|us| - 1];
      RegistrationsNames(init, plural);
      var prev := Registrations(init, plural);
      var rs := prev + NameRegistrations(u, plural) + AltRegistrations(u, u.altnames, plural);
      assert Registrations(us, plural) == rs;
      forall i | 0 <= i < |us| ensures Pair(us[i].name, us[i]) in rs {
        if i < |init| {
          assert us[i] == init[i];
          assert Pair(init[i].name, init[i]) in prev;
        } else {
          assert rs[|prev|] == Pair(u.name, u);
        }
      }
    }
  }

  /** Each unit's alternative names are assigned to it. */
  lemma {:induction false} RegistrationsAltnames(us: seq<Unit>, plural: string -> string)
    ensures forall i, j :: 0 <= i < |us| && 0 <= j < |us[i].altnames| ==>
      Pair(us[i].altnames[j], us[i]) in Registrations(us, plural)
  {
    if us != [] {
      var init := us[..|us| - 1];
      var u := us[|us| - 1];
      RegistrationsAltnames(init, plural);
      AltRegistrationsSpec(u, u.altnames, plural);
      var prev := Registrations(init, plural);
      var alt := AltRegistrations(u, u.altnames, plural);
      var rs := prev + NameRegistrations(u, plural) + alt;
      assert Registrations(us, plural) == rs;
      forall i, j | 0 <= i < |us| && 0 <= j < |us[i].altnames|
        ensures Pair(us[i].altnames[j], us[i]) in rs
      {
        if i < |init| {
          assert us[i] == init[i];
          assert Pair(init[i].altnames[j], init[i]) in prev;
        } else {
          assert rs[|prev| + 2 + 2 * j] == alt[2 * j];
        }
      }
    }
  }

  /** The value the last assignment to `k` gave. */
  lemma {:induction false} LastValueFound<V>(ps: seq<Pair<V>>, k: string, v: V)
    requires Pair(k, v) in ps
    ensures LastValue(ps, k).Some?
  {
    var last := ps[|ps| - 1];
    if last.key != k {
      var init := ps[..|ps| - 1];
      assert Pair(k, v) in init;
      LastValueFound(init, k, v);
    }
  }

  /** Looking a string up in `matchToUnit` finds the unit of the last
      assignment to it: every unit name and alternative name is found, and
      every value found is one of the units. */
  lemma MatchTableLookup(us: seq<Unit>, plural: string -> string, k: string)
    ensures Get(MatchTable(us, plural), k) == LastValue(Registrations(us, plural), k)
    ensures (exists i :: 0 <= i < |us| && k == us[i].name) ==> Get(MatchTable(us, plural), k).Some?
    ensures (exists i, j :: 0 <= i < |us| && 0 <= j < |us[i].altnames| && k == us[i].altnames[j]) ==>
      Get(MatchTable(us, plural), k).Some?
    ensures Get(MatchTable(us, plural), k).Some? ==> Get(MatchTable(us, plural), k).value in us
  {
    var rs := Registrations(us, plural);
    PutAllGet([], rs, k);
    RegistrationsValues(us, plural);
    RegistrationsNames(us, plural);
    RegistrationsAltnames(us, plural);
    if exists i :: 0 <= i < |us| && k == us[i].name {
      var i :| 0 <= i < |us| && k == us[i].name;
      LastValueFound(rs, k, us[i]);
    }
    if exists i, j :: 0 <= i < |us| && 0 <= j < |us[i].altnames| && k == us[i].altnames[j] {
      var i, j :| 0 <= i < |us| && 0 <= j < |us[i].altnames| && k == us[i].altnames[j];
      LastValueFound(rs, k, us[i]);
    }
    if LastValue(rs, k).Some? {
      LastValueIn(rs, k);
    }
  }

  lemma {:induction false} LastValueIn<V>(ps: seq<Pair<V>>, k: string)
    requires LastValue(ps, k).Some?
    ensures Pair(k, LastValue(ps, k).value) in ps
  {
    if ps[|ps| - 1].key != k {
      LastValueIn(ps[..|ps| - 1], k);
    }
  }

  /** The keys of `matchToUnit` (the words of the unit regular expression)
      come in the order of their first assignment. */
  lemma MatchTableKeys(us: seq<Unit>, plural: string -> string)
    ensures Keys(MatchTable(us, plural)) == Dedup(Keys(Registrations(us, plural)))
  {
    PutAllKeys(Registrations(us, plural));
  }

  /** The source of `extractUnitData.regex`: a unit word, preceded by the
      start, a word boundary or a digit, and followed by the end or a word
      boundary. */
  function UnitPattern(words: seq<string>): (r: string)
    ensures |r| > 15 && r[..14] == "(?:^|\\b|\\d)(?:"
  {
    "(?:^|\\b|\\d)" + RegExp.BuildAlternationRaw(words) + "(?:$|\\b)"
  }

  // ----- shortForm -----

  /** The inner loop's update of `shortForm` AS WRITTEN: it tests whether the
      unit's NAME is a key, but the keys are alternative names. */
  function ShortFormAltsAsWritten(m: map<string, Unit>, u: Unit, alts: seq<string>): map<string, Unit> {
    if alts == [] then m
    else
      var prev := ShortFormAltsAsWritten(m, u, alts[..|alts| - 1]);
      if u.name in prev then prev else prev[alts[|alts| - 1] := u]
  }

  function ShortFormAsWritten(us: seq<Unit>): map<string, Unit> {
    if us == [] then map[]
    else ShortFormAltsAsWritten(ShortFormAsWritten(us[..|us| - 1]), us[|us| - 1], us[|us| - 1].altnames)
  }

  function SetOf(xs: seq<string>): set<string> { set x | x in xs }

  /** Every alternative name of the units. */
  function AllAltnames(us: seq<Unit>): set<string> {
    if us == [] then {} else AllAltnames(us[..|us| - 1]) + SetOf(us[|us| - 1].altnames)
  }

  lemma {:induction false} AltsAsWrittenKeys(m: map<string, Unit>, u: Unit, alts: seq<string>)
    requires u.name !in m && u.name !in alts
    ensures ShortFormAltsAsWritten(m, u, alts).Keys == m.Keys + set a | a in alts
  {
    if alts != [] {
      var init := alts[..|alts| - 1];
      assert u.name !in init by { assert forall a :: a in init ==> a in alts; }
      AltsAsWrittenKeys(m, u, init);
      assert (set a | a in alts) == (set a | a in init) + {alts[|alts| - 1]} by {
        assert forall a :: a in alts <==> a in init || a == alts[|alts| - 1];
      }
    }
  }

  /** As written, when no unit's name is an alternative name (true of the
      table), EVERY alternative name becomes a key, not only the first. */
  lemma {:induction false} ShortFormAsWrittenKeys(us: seq<Unit>)
    requires forall i, j, k :: 0 <= i < |us| && 0 <= j < |us| && 0 <= k < |us[j].altnames| ==>
      us[i].name != us[j].altnames[k]
    ensures ShortFormAsWritten(us).Keys == AllAltnames(us)
  {
    if us != [] {
      var init := us[..|us| - 1];
      var u := us[|us| - 1];
      ShortFormAsWrittenKeys(init);
      assert u.name !in AllAltnames(init) by { AllAltnamesIndexed(init, u.name); }
      assert u.name !in u.altnames by {
        forall k | 0 <= k < |u.altnames| ensures u.altnames[k] != u.name {
          assert u == us[|us| - 1];
        }
      }
      AltsAsWrittenKeys(ShortFormAsWritten(init), u, u.altnames);
    }
  }

  lemma {:induction false} AllAltnamesIndexed(us: seq<Unit>, a: string)
    ensures a in AllAltnames(us) <==> exists j, k :: 0 <= j < |us| && 0 <= k < |us[j].altnames| && us[j].altnames[k] == a
  {
    if us != [] {
      var init := us[..|us| - 1];
      AllAltnamesIndexed(init, a);
      if a in AllAltnames(us) && a !in AllAltnames(init) {
        var k :| 0 <= k < |us[|us| - 1].altnames| && us[|us| - 1].altnames[k] == a;
      }
      if exists j, k :: 0 <= j < |us| && 0 <= k < |us[j].altnames| && us[j].altnames[k] == a {
        var j, k :| 0 <= j < |us| && 0 <= k < |us[j].altnames| && us[j].altnames[k] == a;
        if j < |init| {
          assert init[j] == us[j];
        } else {
          assert a in us[|us| - 1].altnames;
        }
      }
    }
  }

  /** The evidently intended `shortForm`: the first alternative name of each
      unit, as the comment in the loop says. */
  function ShortFormTable(us: seq<Unit>): map<string, Unit> {
    if us == [] then map[]
    else
      var m := ShortFormTable(us[..|us| - 1]);
      var u := us[|us| - 1];
      if |u.altnames| > 0 then m[u.altnames[0] := u] else m
  }

  /** Its keys are exactly the units' short forms. */
  lemma {:induction false} ShortFormTableKeys(us: seq<Unit>, s: string)
    ensures s in ShortFormTable(us) <==> exists i :: 0 <= i < |us| && ShortForm(us[i]) == Some(s)
  {
    if us != [] {
      var init := us[..|us| - 1];
      ShortFormTableKeys(init, s);
      if exists i :: 0 <= i < |us| && ShortForm(us[i]) == Some(s) {
        var i :| 0 <= i < |us| && ShortForm(us[i]) == Some(s);
        if i < |init| { assert init[i] == us[i]; }
      }
      if exists i :: 0 <= i < |init| && ShortForm(init[i]) == Some(s) {
        var i :| 0 <= i < |init| && ShortForm(init[i]) == Some(s);
        assert us[i] == init[i];
      }
    }
  }

  /** `Unit.isShortForm(str)`, over the table as the precompute step
      builds it. */
  predicate IsShortForm(str: string) { str in ShortFormAsWritten(AllUnits) }

  /** `Unit.isShortForm(str)` over the evidently intended table. */
  predicate IsShortFormIntended(str: string) { str in ShortFormTable(AllUnits) }

  /** "milliliter", the second alternative name of the millilitre, counts as
      a short form as written, but is no unit's short form; "ml" is one
      either way. */
  lemma ShortFormFinding()
    ensures IsShortForm("milliliter")
    ensures !IsShortFormIntended("milliliter") && IsShortFormIntended("ml")
  {
    MillilitreAltnameRecorded();
    ShortFormsOfTable();
  }

  lemma MillilitreAltnameRecorded()
    ensures "milliliter" in ShortFormAsWritten(AllUnits)
  {
    NamesNotAltnames();
    ShortFormAsWrittenKeys(AllUnits);
    AltnameFacts();
    AllAltnamesIndexed(AllUnits, "milliliter");
    assert AllUnits[6].altnames[1] == "milliliter";
  }

  lemma ShortFormsOfTable()
    ensures !IsShortFormIntended("milliliter") && IsShortFormIntended("ml")
  {
    AltnameFacts();
    ShortFormTableKeys(AllUnits, "milliliter");
    ShortFormTableKeys(AllUnits, "ml");
    assert ShortForm(AllUnits[6]) == Some("ml");
  }

  // ----- building the tables -----

  /** The body of the nested loops of `precomputeExtractUnitData`, which
      visit the units `units` in order, followed by the regular expression.
      `shortForm` is updated as written, inside the loop over the
      alternative names (see ShortFormFinding). */
  method BuildTables(units: seq<Unit>, plural: string -> string) returns (r: Registry)
    ensures r.allUnits == units
    ensures r.nameToUnit == NameTable(units)
    ensures r.matchToUnit == MatchTable(units, plural)
    ensures r.shortForm == ShortFormAsWritten(units)
    ensures r.regex == UnitPattern(Keys(r.matchToUnit))
  {
    var matchToUnit: Table<Unit> := [];
    var nameToUnit: map<string, Unit> := map[];
    var allUnits: seq<Unit> := [];
    var shortForm: map<string, Unit> := map[];
    ghost var regs: seq<Pair<Unit>> := [];
    var i := 0;
    while i < |units|
      invariant 0 <= i <= |units|
      invariant allUnits == units[..i]
      invariant nameToUnit == NameTable(units[..i])
      invariant regs == Registrations(units[..i], plural)
      invariant matchToUnit == PutAll([], regs)
      invariant shortForm == ShortFormAsWritten(units[..i])
    {
      var unit := units[i];
      TablesStep(units, i, plural);
      nameToUnit := nameToUnit[unit.name := unit];
      allUnits := allUnits + [unit];
      ghost var prev := regs;
      matchToUnit, regs := Register(matchToUnit, regs, unit.name, unit);
      matchToUnit, regs := Register(matchToUnit, regs, plural(unit.name), unit);
      assert regs == prev + [Pair(unit.name, unit), Pair(plural(unit.name), unit)];
      matchToUnit, regs, shortForm := RegisterAltnames(matchToUnit, regs, shortForm, unit, plural);
      i := i + 1;
    }
    assert units[..i] == units;
    var unitRegex := RegExp.BuildAlternationRaw(Keys(matchToUnit));
    r := Registry("(?:^|\\b|\\d)" + unitRegex + "(?:$|\\b)", matchToUnit, nameToUnit, shortForm, allUnits);
  }

  /** The inner loop of `precomputeExtractUnitData` over one unit's
      alternative names: each and its plural go into `matchToUnit`, and the
      name goes into `shortForm` unless the unit's NAME is a key there. */
  method RegisterAltnames(t: Table<Unit>, ghost regs: seq<Pair<Unit>>, sf: map<string, Unit>, unit: Unit, plural: string -> string)
    returns (t': Table<Unit>, ghost regs': seq<Pair<Unit>>, sf': map<string, Unit>)
    requires t == PutAll([], regs)
    ensures regs' == regs + AltRegistrations(unit, unit.altnames, plural)
    ensures t' == PutAll([], regs')
    ensures sf' == ShortFormAltsAsWritten(sf, unit, unit.altnames)
  {
    hide PutAll, Put;
    t', regs', sf' := t, regs, sf;
    var j := 0;
    assert unit.altnames[..0] == [];
    while j < |unit.altnames|
      invariant 0 <= j <= |unit.altnames|
      invariant regs' == regs + AltRegistrations(unit, unit.altnames[..j], plural)
      invariant t' == PutAll([], regs')
      invariant sf' == ShortFormAltsAsWritten(sf, unit, unit.altnames[..j])
    {
      var altname := unit.altnames[j];
      ghost var before := regs';
      t', regs' := Register(t', regs', altname, unit);
      t', regs' := Register(t', regs', plural(altname), unit);
      AltRegistrationsStep(regs, before, unit, j, plural);
      ShortFormAltsSnoc(sf, unit, unit.altnames, j);
      if !(unit.name in sf') {
        sf' := sf'[altname := unit];
      }
      j := j + 1;
    }
    assert unit.altnames[..j] == unit.altnames;
  }

  lemma ShortFormAltsSnoc(m: map<string, Unit>, u: Unit, alts: seq<string>, j: nat)
    requires j < |alts|
    ensures ShortFormAltsAsWritten(m, u, alts[..j + 1])
      == var prev := ShortFormAltsAsWritten(m, u, alts[..j]);
         if u.name in prev then prev else prev[alts[j] := u]
  {
    assert alts[..j + 1][..j] == alts[..j];
  }

  /** What one more unit adds to each table. */
  lemma TablesStep(units: seq<Unit>, i: nat, plural: string -> string)
    requires i < |units|
    ensures units[..i + 1] == units[..i] + [units[i]]
    ensures NameTable(units[..i + 1]) == NameTable(units[..i])[units[i].name := units[i]]
    ensures Registrations(units[..i + 1], plural)
      == Registrations(units[..i], plural) + [Pair(units[i].name, units[i]), Pair(plural(units[i].name), units[i])]
         + AltRegistrations(units[i], units[i].altnames, plural)
    ensures ShortFormAsWritten(units[..i + 1])
      == ShortFormAltsAsWritten(ShortFormAsWritten(units[..i]), units[i], units[i].altnames)
  {
    assert units[..i + 1][..i] == units[..i];
  }

  /** One more alternative name in the inner loop. */
  lemma AltRegistrationsStep(regs: seq<Pair<Unit>>, before: seq<Pair<Unit>>, u: Unit, j: nat, plural: string -> string)
    requires j < |u.altnames|
    requires before == regs + AltRegistrations(u, u.altnames[..j], plural)
    ensures before + [Pair(u.altnames[j], u)] + [Pair(plural(u.altnames[j]), u)]
      == regs + AltRegistrations(u, u.altnames[..j + 1], plural)
  {
    AltRegistrationsSnoc(u, u.altnames, j, plural);
  }

  lemma AltRegistrationsSnoc(u: Unit, alts: seq<string>, j: nat, plural: string -> string)
    requires j < |alts|
    ensures AltRegistrations(u, alts[..j + 1], plural)
      == AltRegistrations(u, alts[..j], plural) + [Pair(alts[j], u), Pair(plural(alts[j]), u)]
  {
    assert alts[..j + 1][..j] == alts[..j];
  }

  /** `matchToUnit[key] = unit`, with the run of assignments so far. */
  method Register(t: Table<Unit>, ghost regs: seq<Pair<Unit>>, key: string, unit: Unit)
    returns (t': Table<Unit>, ghost regs': seq<Pair<Unit>>)
    requires t == PutAll([], regs)
    ensures regs' == regs + [Pair(key, unit)]
    ensures t' == PutAll([], regs') && t' == Put(t, key, unit)
  {
    t' := Put(t, key, unit);
    regs' := regs + [Pair(key, unit)];
    PutAllSnoc([], regs, Pair(key, unit));
  }

  /** `precomputeExtractUnitData()` over the unit table. */
  method PrecomputeExtractUnitData(plural: string -> string) returns (r: Registry)
    ensures r.allUnits == AllUnits
    ensures r.nameToUnit == NameTable(AllUnits)
    ensures r.matchToUnit == MatchTable(AllUnits, plural)
    ensures r.shortForm == ShortFormAsWritten(AllUnits)
    ensures r.regex == UnitPattern(Keys(r.matchToUnit))
  {
    r := BuildTables(AllUnits, plural);
  }

  // ----- fromString -----

  /** `Unit.fromString(str)`. The first occurrence of "liter" in any case is
      spelt "litre"; `firstMatch` is the text the unit regular expression
      matches first in the result (`match[0]`), if any. That text is looked
      up in `matchToUnit`; a miss, which the case-insensitive regular
      expression allows (e.g. "Grams"), throws. */
  function FromString(str: string, plural: string -> string, firstMatch: string -> Option<string>): (r: Result<Option<Unit>>)
    ensures var s := ReplaceFirstIgnoreCase(str, "liter", "litre");
      (r == Ok(None) <==> firstMatch(s).None?)
      && (r.Err? <==> firstMatch(s).Some? && Get(MatchTable(AllUnits, plural), firstMatch(s).value).None?)
      && (r.Ok? && r.value.Some? ==>
            firstMatch(s).Some? && r.value.value in AllUnits
            && r.value == Get(MatchTable(AllUnits, plural), firstMatch(s).value))
  {
    var s := ReplaceFirstIgnoreCase(str, "liter", "litre");
    match firstMatch(s)
    case None => Ok(None)
    case Some(m) =>
      MatchTableLookup(AllUnits, plural, m);
      match Get(MatchTable(AllUnits, plural), m)
      case None => Err("unexpected: " + m + " returned by regex should be in matchToUnit")
      case Some(u) => Ok(Some(u))
  }

  /** A match that is one of the units' names or alternative names is
      always found. */
  lemma FromStringFindsTableWords(str: string, plural: string -> string, firstMatch: string -> Option<string>, i: nat, j: nat)
    requires i < |AllUnits| && j < |AllUnits[i].altnames|
    requires firstMatch(ReplaceFirstIgnoreCase(str, "liter", "litre")) == Some(AllUnits[i].altnames[j])
    ensures FromString(str, plural, firstMatch).Ok? && FromString(str, plural, firstMatch).value.Some?
  {
    MatchTableLookup(AllUnits, plural, AllUnits[i].altnames[j]);
  }
}
