/** lib/data/cup-to-grams.ts: `makeCupLUT` and `makeCupLUTVariantTable`,
    which turn the raw table into the lookup tree that `cupToGrams`
    searches. A node of the tree is grams per cup or a table of keys, kept
    in the order JavaScript gives the keys of the object it builds. */
module CupLUT {
  import opened Wrappers
  import opened Strings
  import opened Assoc
  import opened AmericanTerms
  import opened CupData

  datatype Node = Leaf(grams: int) | Branch(table: Table<Node>)

  // ----- splitting keys -----

  /** One piece of `s.split` on the pattern `\s*,\s*`: the spaces next to a comma go with
      the separator. */
  function CommaPiece(p: string, first: bool, last: bool): string {
    var a := if first then p else TrimStart(p);
    if last then a else TrimEnd(a)
  }

  /** `s.split` on the pattern `\s*,\s*` */
  function SplitCommas(s: string): (r: seq<string>)
    ensures |r| == |SplitOn(s, ',')| && forall k :: 0 <= k < |r| ==> ',' !in r[k]
  {
    var ps := SplitOn(s, ',');
    var r := seq(|ps|, k requires 0 <= k < |ps| => CommaPiece(ps[k], k == 0, k == |ps| - 1));
    assert forall k :: 0 <= k < |r| ==> ',' !in r[k] by {
      forall k | 0 <= k < |r| ensures ',' !in r[k] {
        var a := if k == 0 then ps[k] else TrimStart(ps[k]);
        assert forall m :: 0 <= m < |a| ==> a[m] in ps[k];
        assert forall m :: 0 <= m < |r[k]| ==> r[k][m] in a;
      }
    }
    r
  }

  /** A key without a comma is one alternative. */
  lemma SplitCommasSingle(s: string)
    requires ',' !in s
    ensures SplitCommas(s) == [s]
  {
  }

  /** Alternatives written `a, b, c` come back as written. */
  lemma SplitCommasJoin(ws: seq<string>)
    requires |ws| > 0
    requires forall k :: 0 <= k < |ws| ==> ',' !in ws[k] && (ws[k] == [] || (!IsJsSpace(ws[k][0]) && !IsJsSpace(ws[k][|ws[k]| - 1])))
    ensures SplitCommas(Join(ws, ", ")) == ws
  {
    SplitJoinSpaced(ws);
    TrimPieces(Join(ws, ", "), ws);
  }

  lemma SplitJoinSpaced(ws: seq<string>)
    requires |ws| > 0 && forall k :: 0 <= k < |ws| ==> ',' !in ws[k]
    ensures SplitOn(Join(ws, ", "), ',') == [ws[0]] + Spaced(ws[1..])
  {
    var pieces := [ws[0]] + Spaced(ws[1..]);
    JoinSpaced(ws);
    forall k | 0 <= k < |pieces| ensures ',' !in pieces[k] {
      if k > 0 { assert pieces[k] == " " + ws[k]; }
    }
    SplitJoin(pieces, ',');
  }

  lemma TrimPieces(s: string, ws: seq<string>)
    requires |ws| > 0 && SplitOn(s, ',') == [ws[0]] + Spaced(ws[1..])
    requires forall k :: 0 <= k < |ws| ==> ws[k] == [] || (!IsJsSpace(ws[k][0]) && !IsJsSpace(ws[k][|ws[k]| - 1]))
    ensures SplitCommas(s) == ws
  {
    hide SplitCommas, SplitOn;
    var pieces := SplitOn(s, ',');
    var r := SplitCommas(s);
    forall k | 0 <= k < |ws| ensures r[k] == ws[k] {
      SplitCommasAt(s, k);
      if k > 0 { assert pieces[k] == " " + ws[k]; }
      TrimStartEnd(ws[k], k != 0);
    }
  }

  lemma SplitCommasAt(s: string, k: nat)
    requires k < |SplitOn(s, ',')|
    ensures SplitCommas(s)[k] == CommaPiece(SplitOn(s, ',')[k], k == 0, k == |SplitOn(s, ',')| - 1)
  {
  }

  /** Each word with a space in front. */
  function Spaced(ws: seq<string>): (r: seq<string>)
    ensures |r| == |ws| && forall k :: 0 <= k < |ws| ==> r[k] == " " + ws[k]
  {
    if |ws| == 0 then [] else [" " + ws[0]] + Spaced(ws[1..])
  }

  lemma JoinSpaced(ws: seq<string>)
    requires |ws| > 0
    ensures Join(ws, ", ") == Join([ws[0]] + Spaced(ws[1..]), [','])
  {
    var pieces := [ws[0]] + Spaced(ws[1..]);
    if |ws| > 1 {
      var rest := Join(ws[1..], ", ");
      assert " " + rest == Join(Spaced(ws[1..]), [',']) by { JoinShift(ws[1..]); }
      assert pieces[1..] == Spaced(ws[1..]);
      CommaSpace(ws[0], rest);
    }
  }

  lemma CommaSpace(a: string, b: string)
    ensures a + ", " + b == a + [','] + (" " + b)
  {
    assert ", " == [','] + " ";
  }

  /** Joining with `", "` is joining with `","` the words with a space in
      front, less that first space. */
  lemma {:induction false} JoinShift(ws: seq<string>)
    requires |ws| > 0
    ensures " " + Join(ws, ", ") == Join(Spaced(ws), [','])
  {
    if |ws| > 1 {
      var rest := Join(ws[1..], ", ");
      JoinShift(ws[1..]);
      assert Spaced(ws)[1..] == Spaced(ws[1..]);
      CommaSpace(ws[0], rest);
      assert " " + (ws[0] + [','] + (" " + rest)) == (" " + ws[0]) + [','] + (" " + rest);
    }
  }

  lemma TrimStartEnd(w: string, spaced: bool)
    requires w == [] || (!IsJsSpace(w[0]) && !IsJsSpace(w[|w| - 1]))
    ensures TrimStart(w) == w && TrimEnd(w) == w
    ensures spaced ==> TrimStart(" " + w) == w
  {
    if spaced {
      assert (" " + w)[1..] == w;
    }
  }

  // ----- makeCupLUTVariantTable -----

  /** A key starting with `*`, other than `*` itself, is the default: the
      flag says so, and the star is dropped (`substr(1)`). */
  function StarStripped(variants: string): (r: (bool, string))
    ensures r.0 <==> |variants| > 1 && variants[0] == '*'
    ensures r.1 == if r.0 then variants[1..] else variants
  {
    if |variants| > 0 && variants[0] == '*' && variants != "*" then (true, variants[1..]) else (false, variants)
  }

  /** The words of `ws` before the first one equal to `stop`: the loop
      over `britishToAmerican` leaves at `break`. */
  function TakeUntil(ws: seq<string>, stop: string): (r: seq<string>)
    ensures |r| <= |ws| && r == ws[..|r|] && stop !in r
    ensures |r| < |ws| ==> ws[|r|] == stop
  {
    if |ws| == 0 || ws[0] == stop then [] else [ws[0]] + TakeUntil(ws[1..], stop)
  }

  /** Each American word with ` ingredient` taken out, assigned `v`. */
  function Yanked(ws: seq<string>, ingredient: string, v: Node): (r: seq<Pair<Node>>)
    ensures |r| == |ws|
    ensures forall k :: 0 <= k < |ws| ==> r[k] == Pair(ReplaceFirst(ws[k], " " + ingredient, ""), v)
  {
    seq(|ws|, k requires 0 <= k < |ws| => Pair(ReplaceFirst(ws[k], " " + ingredient, ""), v))
  }

  /** The assignments the source makes for one variant: the American names
      of `variant ingredient`, then the variant itself. */
  function VariantAssignments(variant: string, ingredient: string, v: Node, american: string -> seq<string>): seq<Pair<Node>> {
    var full := variant + " " + ingredient;
    Yanked(TakeUntil(american(full), full), ingredient, v) + [Pair(variant, v)]
  }

  /** The same for each comma-separated variant in turn. */
  function VariantsAssignments(vs: seq<string>, ingredient: string, v: Node, american: string -> seq<string>): seq<Pair<Node>> {
    if |vs| == 0 then []
    else VariantsAssignments(vs[..|vs| - 1], ingredient, v, american) + VariantAssignments(vs[|vs| - 1], ingredient, v, american)
  }

  /** The assignments for one key of a variant table, whose value has
      become `v`. */
  function EntryAssignments(key: string, ingredient: string, v: Node, american: string -> seq<string>): seq<Pair<Node>> {
    var (star, variants) := StarStripped(key);
    (if star then [Pair("*", v)] else []) + VariantsAssignments(SplitCommas(variants), ingredient, v, american)
  }

  /** The assignments for the first `n` keys of `raw`. */
  function EntriesAssignments(raw: Raw, n: nat, ingredient: string, american: string -> seq<string>): seq<Pair<Node>>
    requires raw.Nested? && n <= |raw.entries|
    decreases raw, 0, n
  {
    if n == 0 then []
    else
      var e := raw.entries[n - 1];
      EntriesAssignments(raw, n - 1, ingredient, american) + EntryAssignments(e.key, ingredient, VariantTable(e.value, ingredient, american), american)
  }

  /** A table whose only key is `*` is that value. */
  function Collapse(t: Table<Node>): (r: Node)
    ensures r.Leaf? ==> |t| == 1 && t[0].key == "*"
    ensures (|t| == 1 && t[0].key == "*") || r == Branch(t)
  {
    if |t| == 1 && t[0].key == "*" then t[0].val else Branch(t)
  }

  /** `makeCupLUTVariantTable(raw, ingredient)` */
  function VariantTable(raw: Raw, ingredient: string, american: string -> seq<string>): Node
    decreases raw, 1, 0
  {
    match raw
    case Num(n) => Leaf(n)
    case Nested(es) => Collapse(PutAll([], EntriesAssignments(raw, |es|, ingredient, american)))
  }

  /** `makeCupLUTVariantTable`, filling `out` key by key as the source does. */
  method MakeVariantTable(raw: Raw, ingredient: string, american: string -> seq<string>) returns (r: Node)
    decreases raw
    ensures r == VariantTable(raw, ingredient, american)
  {
    if raw.Num? {
      return Leaf(raw.grams);
    }
    var out: Table<Node> := [];
    var i := 0;
    while i < |raw.entries|
      invariant i <= |raw.entries|
      invariant out == PutAll([], EntriesAssignments(raw, i, ingredient, american))
    {
      var subValue := MakeVariantTable(raw.entries[i].value, ingredient, american);
      out := AddEntry(out, raw.entries[i].key, ingredient, subValue, american);
      assert out == PutAll([], EntriesAssignments(raw, i + 1, ingredient, american)) by {
        EntriesAssignmentsStep(raw, i, ingredient, american);
        PutAllAppend([], EntriesAssignments(raw, i, ingredient, american), EntryAssignments(raw.entries[i].key, ingredient, subValue, american));
      }
      i := i + 1;
    }
    if |out| == 1 && out[0].key == "*" {
      r := out[0].val;
    } else {
      r := Branch(out);
    }
  }

  lemma EntriesAssignmentsStep(raw: Raw, i: nat, ingredient: string, american: string -> seq<string>)
    requires raw.Nested? && i < |raw.entries|
    ensures EntriesAssignments(raw, i + 1, ingredient, american) == EntriesAssignments(raw, i, ingredient, american)
      + EntryAssignments(raw.entries[i].key, ingredient, VariantTable(raw.entries[i].value, ingredient, american), american)
  {
  }

  /** The assignments for one key of the raw table, made on `out`. */
  method AddEntry(out: Table<Node>, key: string, ingredient: string, subValue: Node, american: string -> seq<string>)
    returns (out': Table<Node>)
    ensures out' == PutAll(out, EntryAssignments(key, ingredient, subValue, american))
  {
    out' := out;
    var variants := key;
    ghost var star: seq<Pair<Node>> := [];
    if |variants| > 0 && variants[0] == '*' && variants != "*" {
      variants := variants[1..];
      out' := Put(out', "*", subValue);
      star := [Pair("*", subValue)];
      assert out' == PutAll(out, star) by { PutAllSnoc(out, [], Pair("*", subValue)); }
    }
    assert star == (if StarStripped(key).0 then [Pair("*", subValue)] else []) && variants == StarStripped(key).1;
    out' := AddVariants(out', SplitCommas(variants), ingredient, subValue, american);
    EntryAssignmentsUnfold(key, ingredient, subValue, american);
    PutAllAppend(out, star, VariantsAssignments(SplitCommas(variants), ingredient, subValue, american));
  }

  lemma EntryAssignmentsUnfold(key: string, ingredient: string, v: Node, american: string -> seq<string>)
    ensures EntryAssignments(key, ingredient, v, american)
      == (if StarStripped(key).0 then [Pair("*", v)] else []) + VariantsAssignments(SplitCommas(StarStripped(key).1), ingredient, v, american)
  {
  }

  /** The comma-separated variants of one key in turn, made on `out`. */
  method AddVariants(out: Table<Node>, vs: seq<string>, ingredient: string, subValue: Node, american: string -> seq<string>)
    returns (out': Table<Node>)
    ensures out' == PutAll(out, VariantsAssignments(vs, ingredient, subValue, american))
  {
    out' := out;
    var j := 0;
    assert VariantsAssignments(vs[..0], ingredient, subValue, american) == [] by { assert vs[..0] == []; }
    while j < |vs|
      invariant j <= |vs|
      invariant out' == PutAll(out, VariantsAssignments(vs[..j], ingredient, subValue, american))
    {
      out' := AddVariant(out', vs[j], ingredient, subValue, american);
      assert out' == PutAll(out, VariantsAssignments(vs[..j + 1], ingredient, subValue, american)) by {
        VariantsSnoc(vs, j, ingredient, subValue, american);
        PutAllAppend(out, VariantsAssignments(vs[..j], ingredient, subValue, american), VariantAssignments(vs[j], ingredient, subValue, american));
      }
      j := j + 1;
    }
    assert vs[..j] == vs;
  }

  lemma VariantsSnoc(vs: seq<string>, j: nat, ingredient: string, v: Node, american: string -> seq<string>)
    requires j < |vs|
    ensures VariantsAssignments(vs[..j + 1], ingredient, v, american) == VariantsAssignments(vs[..j], ingredient, v, american) + VariantAssignments(vs[j], ingredient, v, american)
  {
    assert vs[..j + 1][..j] == vs[..j];
  }

  /** The assignments for one variant, made on `out`: its American names
      up to the `break`, then the variant itself. */
  method AddVariant(out: Table<Node>, variant: string, ingredient: string, subValue: Node, american: string -> seq<string>)
    returns (out': Table<Node>)
    ensures out' == PutAll(out, VariantAssignments(variant, ingredient, subValue, american))
  {
    out' := out;
    var fullIngredient := variant + " " + ingredient;
    var yanks := american(fullIngredient);
    ghost var taken := TakeUntil(yanks, fullIngredient);
    var m := 0;
    assert Yanked(taken[..0], ingredient, subValue) == [];
    while m < |yanks|
      invariant m <= |taken|
      invariant out' == PutAll(out, Yanked(taken[..m], ingredient, subValue))
    {
      if yanks[m] == fullIngredient {
        break;
      }
      assert m < |taken|;
      var yankWord := ReplaceFirst(yanks[m], " " + ingredient, "");
      out' := Put(out', yankWord, subValue);
      assert out' == PutAll(out, Yanked(taken[..m + 1], ingredient, subValue)) by {
        YankedSnoc(taken, m, ingredient, subValue);
        PutAllSnoc(out, Yanked(taken[..m], ingredient, subValue), Pair(yankWord, subValue));
      }
      m := m + 1;
    }
    assert taken[..m] == taken;
    out' := Put(out', variant, subValue);
    PutAllSnoc(out, Yanked(taken, ingredient, subValue), Pair(variant, subValue));
  }

  lemma YankedSnoc(ws: seq<string>, m: nat, ingredient: string, v: Node)
    requires m < |ws|
    ensures Yanked(ws[..m + 1], ingredient, v) == Yanked(ws[..m], ingredient, v) + [Pair(ReplaceFirst(ws[m], " " + ingredient, ""), v)]
  {
  }


  // ----- makeCupLUT -----

  /** `_.flatten(ws.map((x) => [x, pluralize(x)]))`; `plural` is
      `pluralize`. */
  function WithPlurals(ws: seq<string>, plural: string -> string): (r: seq<string>)
    ensures |r| == 2 * |ws|
  {
    if |ws| == 0 then [] else [ws[0], plural(ws[0])] + WithPlurals(ws[1..], plural)
  }

  /** Each word is followed by its plural. */
  lemma {:induction false} WithPluralsAt(ws: seq<string>, plural: string -> string)
    ensures forall k :: 0 <= k < |ws| ==> WithPlurals(ws, plural)[2 * k] == ws[k] && WithPlurals(ws, plural)[2 * k + 1] == plural(ws[k])
  {
    if |ws| > 0 {
      WithPluralsAt(ws[1..], plural);
      var r := WithPlurals(ws, plural);
      forall k | 1 <= k < |ws| ensures r[2 * k] == ws[k] && r[2 * k + 1] == plural(ws[k]) {
        assert r[2 * k] == WithPlurals(ws[1..], plural)[2 * (k - 1)];
        assert r[2 * k + 1] == WithPlurals(ws[1..], plural)[2 * (k - 1) + 1];
      }
    }
  }

  /** The keywords an ingredient is registered under: `_.uniq(forms)`,
      where the forms are its American forms with their plurals, and for
      barley and parsley also the `-lies` plural. */
  function Keywords(ingredient: string, plural: string -> string, american: string -> seq<string>): seq<string> {
    var forms := WithPlurals(american(ingredient), plural);
    var forms' := if ingredient == "barley" || ingredient == "parsley"
      then forms + [ingredient[..|ingredient| - 3] + "lies"] else forms;
    Dedup(forms')
  }

  /** The table of one ingredient: a bare number `n` is first made
      `{'*': n}`. */
  function IngredientTable(raw: Raw, ingredient: string, american: string -> seq<string>): Node {
    if raw.Num? then VariantTable(Nested([RawEntry("*", raw)]), ingredient, american) else VariantTable(raw, ingredient, american)
  }

  /** `out[keyword] = table` for each keyword in turn. */
  function Registrations(ws: seq<string>, v: Node): seq<Pair<Node>> {
    if |ws| == 0 then [] else Registrations(ws[..|ws| - 1], v) + [Pair(ws[|ws| - 1], v)]
  }

  /** The assignments for one ingredient: its table under each of its
      keywords. */
  function IngredientAssignments(ingredient: string, raw: Raw, plural: string -> string, american: string -> seq<string>): seq<Pair<Node>> {
    Registrations(Keywords(ingredient, plural, american), IngredientTable(raw, ingredient, american))
  }

  /** The assignments for the first `n` ingredients of a comma-separated
      key, all with the value `raw`. */
  function KeyAssignments(ingredients: seq<string>, n: nat, raw: Raw, plural: string -> string, american: string -> seq<string>): seq<Pair<Node>>
    requires n <= |ingredients|
  {
    if n == 0 then []
    else KeyAssignments(ingredients, n - 1, raw, plural, american) + IngredientAssignments(ingredients[n - 1], raw, plural, american)
  }

  /** The assignments for the first `n` keys of the raw table. */
  function RootAssignments(data: seq<RawEntry>, n: nat, plural: string -> string, american: string -> seq<string>): seq<Pair<Node>>
    requires n <= |data|
  {
    if n == 0 then []
    else
      var ingredients := SplitCommas(data[n - 1].key);
      RootAssignments(data, n - 1, plural, american) + KeyAssignments(ingredients, |ingredients|, data[n - 1].value, plural, american)
  }

  /** `out` once one ingredient is registered. */
  function IngredientStep(out: Table<Node>, ingredient: string, raw: Raw, plural: string -> string, american: string -> seq<string>): Table<Node> {
    PutAll(out, IngredientAssignments(ingredient, raw, plural, american))
  }

  /** `out` once the first `n` ingredients of a key are registered. */
  function KeyRun(out: Table<Node>, ingredients: seq<string>, n: nat, raw: Raw, plural: string -> string, american: string -> seq<string>): Table<Node>
    requires n <= |ingredients|
  {
    if n == 0 then out
    else IngredientStep(KeyRun(out, ingredients, n - 1, raw, plural, american), ingredients[n - 1], raw, plural, american)
  }

  /** The table once the first `n` keys of the raw table are registered. */
  function RootRun(data: seq<RawEntry>, n: nat, plural: string -> string, american: string -> seq<string>): Table<Node>
    requires n <= |data|
  {
    if n == 0 then []
    else
      var ingredients := SplitCommas(data[n - 1].key);
      KeyRun(RootRun(data, n - 1, plural, american), ingredients, |ingredients|, data[n - 1].value, plural, american)
  }

  /** `makeCupLUT(rawData)` */
  function CupLUTOf(data: seq<RawEntry>, plural: string -> string, american: string -> seq<string>): Table<Node> {
    RootRun(data, |data|, plural, american)
  }

  /** `cupLUT`, built from `cupConversions` with `britishToAmerican`. */
  function TheCupLUT(plural: string -> string): Table<Node> {
    CupLUTOf(CupConversions, plural, BritishToAmerican)
  }

  /** Registering ingredient after ingredient is making all their
      assignments in order. */
  lemma {:induction false} KeyRunAssignments(out: Table<Node>, ingredients: seq<string>, n: nat, raw: Raw, plural: string -> string, american: string -> seq<string>)
    requires n <= |ingredients|
    ensures KeyRun(out, ingredients, n, raw, plural, american) == PutAll(out, KeyAssignments(ingredients, n, raw, plural, american))
  {
    hide IngredientAssignments;
    if n > 0 {
      KeyRunAssignments(out, ingredients, n - 1, raw, plural, american);
      PutAllAppend(out, KeyAssignments(ingredients, n - 1, raw, plural, american), IngredientAssignments(ingredients[n - 1], raw, plural, american));
    }
  }

  /** The lookup table is made by all the assignments of the raw table, in
      order. */
  lemma {:induction false} RootRunAssignments(data: seq<RawEntry>, n: nat, plural: string -> string, american: string -> seq<string>)
    requires n <= |data|
    ensures RootRun(data, n, plural, american) == PutAll([], RootAssignments(data, n, plural, american))
  {
    hide *;
    if n > 0 {
      RootRunAssignments(data, n - 1, plural, american);
      RootRunStep(data, n, plural, american);
    } else {
      RootRunNone(data, plural, american);
    }
  }

  lemma RootRunNone(data: seq<RawEntry>, plural: string -> string, american: string -> seq<string>)
    ensures RootRun(data, 0, plural, american) == PutAll([], RootAssignments(data, 0, plural, american))
  {
  }

  lemma RootRunStep(data: seq<RawEntry>, n: nat, plural: string -> string, american: string -> seq<string>)
    requires 0 < n <= |data|
    requires RootRun(data, n - 1, plural, american) == PutAll([], RootAssignments(data, n - 1, plural, american))
    ensures RootRun(data, n, plural, american) == PutAll([], RootAssignments(data, n, plural, american))
  {
    hide KeyRun, KeyAssignments, IngredientAssignments, IngredientStep, PutAll;
    var ingredients := SplitCommas(data[n - 1].key);
    var value := data[n - 1].value;
    var before := RootRun(data, n - 1, plural, american);
    KeyRunAssignments(before, ingredients, |ingredients|, value, plural, american);
    PutAllAppend([], RootAssignments(data, n - 1, plural, american), KeyAssignments(ingredients, |ingredients|, value, plural, american));
  }

  /** `makeCupLUT`, filling `out` as the source does. */
  method MakeCupLUT(rawData: seq<RawEntry>, plural: string -> string, american: string -> seq<string>) returns (out: Table<Node>)
    ensures out == CupLUTOf(rawData, plural, american)
  {
    hide IngredientStep;
    out := [];
    var i := 0;
    while i < |rawData|
      invariant i <= |rawData|
      invariant out == RootRun(rawData, i, plural, american)
    {
      var ingredients := SplitCommas(rawData[i].key);
      out := AddKey(out, ingredients, rawData[i].value, plural, american);
      i := i + 1;
    }
  }

  /** The registrations of the comma-separated ingredients of one key of
      the raw table, made on `out`. */
  method AddKey(out: Table<Node>, ingredients: seq<string>, rawValue: Raw, plural: string -> string, american: string -> seq<string>)
    returns (out': Table<Node>)
    ensures out' == KeyRun(out, ingredients, |ingredients|, rawValue, plural, american)
  {
    hide IngredientStep;
    out' := out;
    var j := 0;
    while j < |ingredients|
      invariant j <= |ingredients|
      invariant out' == KeyRun(out, ingredients, j, rawValue, plural, american)
    {
      out' := AddIngredient(out', ingredients[j], rawValue, plural, american);
      j := j + 1;
    }
  }

  /** The registrations of one ingredient, made on `out`. */
  method AddIngredient(out: Table<Node>, ingredient: string, rawValue: Raw, plural: string -> string, american: string -> seq<string>)
    returns (out': Table<Node>)
    ensures out' == IngredientStep(out, ingredient, rawValue, plural, american)
  {
    var table;
    if rawValue.Num? {
      table := MakeVariantTable(Nested([RawEntry("*", rawValue)]), ingredient, american);
    } else {
      table := MakeVariantTable(rawValue, ingredient, american);
    }
    var forms := WithPlurals(american(ingredient), plural);
    if ingredient == "barley" || ingredient == "parsley" {
      forms := forms + [ingredient[..|ingredient| - 3] + "lies"];
    }
    var keywords := Dedup(forms);
    out' := Register(out, keywords, table);
  }

  /** `for (const keyword of keywords) out[keyword] = table`, made on `out`. */
  method Register(out: Table<Node>, keywords: seq<string>, table: Node) returns (out': Table<Node>)
    ensures out' == PutAll(out, Registrations(keywords, table))
  {
    hide Put;
    out' := out;
    var m := 0;
    while m < |keywords|
      invariant m <= |keywords|
      invariant out' == PutAll(out, Registrations(keywords[..m], table))
    {
      RegistrationsSnoc(keywords, m, table);
      PutAllSnoc(out, Registrations(keywords[..m], table), Pair(keywords[m], table));
      out' := Put(out', keywords[m], table);
      m := m + 1;
    }
    assert keywords[..m] == keywords;
  }

  lemma RegistrationsSnoc(ws: seq<string>, m: nat, v: Node)
    requires m < |ws|
    ensures Registrations(ws[..m + 1], v) == Registrations(ws[..m], v) + [Pair(ws[m], v)]
  {
    assert ws[..m + 1][..m] == ws[..m];
  }
}
