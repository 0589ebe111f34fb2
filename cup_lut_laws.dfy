/** What `makeCupLUT` and `makeCupLUTVariantTable` promise about the tree
    they build. */
module CupLUTLaws {
  import opened Wrappers
  import opened Strings
  import opened Assoc
  import opened AmericanTerms
  import opened CupData
  import opened CupLUT

  // ----- the American forms of a variant -----

  /** No American name but for "icing sugar": a variant is stored under its
      own name only. */
  lemma PlainVariant(variant: string, ingredient: string, v: Node)
    requires variant + " " + ingredient != "icing sugar"
    ensures VariantAssignments(variant, ingredient, v, BritishToAmerican) == [Pair(variant, v)]
  {
    var full := variant + " " + ingredient;
    assert BritishToAmerican(full)[0] == full;
    assert TakeUntil(BritishToAmerican(full), full) == [];
  }

  /** The `icing` variant of `sugar` is also stored under `powdered`,
      `confectioners` and `powder`, before `icing` itself. */
  lemma IcingVariant(v: Node)
    ensures VariantAssignments("icing", "sugar", v, BritishToAmerican)
      == [Pair("powdered", v), Pair("confectioners", v), Pair("powder", v), Pair("icing", v)]
  {
    IcingYanks();
    SugarYanked(v);
  }

  lemma IcingYanks()
    ensures TakeUntil(BritishToAmerican("icing" + " " + "sugar"), "icing" + " " + "sugar")
      == ["powdered sugar", "confectioners sugar", "powder sugar"]
  {
    var yanks := ["powdered sugar", "confectioners sugar", "powder sugar"];
    assert "icing" + " " + "sugar" == "icing sugar";
    assert BritishToAmerican("icing sugar") == yanks;
    assert yanks[0] != "icing sugar" && yanks[1] != "icing sugar" && yanks[2] != "icing sugar";
    assert yanks[1..][1..][1..] == [];
  }

  lemma SugarYanked(v: Node)
    ensures Yanked(["powdered sugar", "confectioners sugar", "powder sugar"], "sugar", v)
      == [Pair("powdered", v), Pair("confectioners", v), Pair("powder", v)]
  {
    hide Yanked, ReplaceFirst;
    YankedThree("powdered sugar", "confectioners sugar", "powder sugar", "sugar", v);
    PowderedDropped();
    ConfectionersDropped();
    PowderDropped();
  }

  lemma YankedThree(a: string, b: string, c: string, ingredient: string, v: Node)
    ensures Yanked([a, b, c], ingredient, v) == [Pair(ReplaceFirst(a, " " + ingredient, ""), v),
      Pair(ReplaceFirst(b, " " + ingredient, ""), v), Pair(ReplaceFirst(c, " " + ingredient, ""), v)]
  {
    hide ReplaceFirst;
  }

  lemma PowderedDropped()
    ensures ReplaceFirst("powdered sugar", " " + "sugar", "") == "powdered"
  {
    assert " " + "sugar" == " sugar";
    SugarDropped("powdered sugar", 8);
  }

  lemma ConfectionersDropped()
    ensures ReplaceFirst("confectioners sugar", " " + "sugar", "") == "confectioners"
  {
    assert " " + "sugar" == " sugar";
    SugarDropped("confectioners sugar", 13);
  }

  lemma PowderDropped()
    ensures ReplaceFirst("powder sugar", " " + "sugar", "") == "powder"
  {
    assert " " + "sugar" == " sugar";
    SugarDropped("powder sugar", 6);
  }

  /** `yankWord.replace(' sugar', '')` */
  lemma SugarDropped(s: string, k: nat)
    requires k < |s| && s[k..] == " sugar" && ' ' !in s[..k]
    ensures ReplaceFirst(s, " sugar", "") == s[..k]
  {
    RemoveTail(s, " sugar", k);
  }

  // ----- one key of a variant table -----

  /** Every assignment of a key carries the key's value; a starred key is
      also the default `*`, first; and each comma-separated alternative is
      assigned. */
  lemma EntryShares(key: string, ingredient: string, v: Node, american: string -> seq<string>)
    ensures forall p :: p in EntryAssignments(key, ingredient, v, american) ==> p.val == v
    ensures StarStripped(key).0 ==> EntryAssignments(key, ingredient, v, american)[0] == Pair("*", v)
    ensures forall w :: w in SplitCommas(StarStripped(key).1) ==> Pair(w, v) in EntryAssignments(key, ingredient, v, american)
  {
    var vs := SplitCommas(StarStripped(key).1);
    VariantsShare(vs, ingredient, v, american);
  }

  lemma {:induction false} VariantsShare(vs: seq<string>, ingredient: string, v: Node, american: string -> seq<string>)
    ensures forall p :: p in VariantsAssignments(vs, ingredient, v, american) ==> p.val == v
    ensures forall w :: w in vs ==> Pair(w, v) in VariantsAssignments(vs, ingredient, v, american)
  {
    if |vs| > 0 {
      var init := vs[..|vs| - 1];
      VariantsShare(init, ingredient, v, american);
      var last := VariantAssignments(vs[|vs| - 1], ingredient, v, american);
      assert last[|last| - 1] == Pair(vs[|vs| - 1], v);
      forall w | w in vs ensures Pair(w, v) in VariantsAssignments(vs, ingredient, v, american) {
        if w in init {
        } else {
          assert w == vs[|vs| - 1];
        }
      }
    }
  }

  // ----- a variant table -----

  /** A bare number becomes `{'*': n}`, which collapses back to `n`. */
  lemma BareNumber(n: int, ingredient: string)
    ensures IngredientTable(Num(n), ingredient, BritishToAmerican) == Leaf(n)
  {
    var raw := Nested([RawEntry("*", Num(n))]);
    assert SplitCommas("*") == ["*"] by { SplitCommasSingle("*"); }
    assert ("* " + ingredient)[0] != "icing sugar"[0];
    PlainVariant("*", ingredient, Leaf(n));
    assert VariantsAssignments(["*"], ingredient, Leaf(n), BritishToAmerican) == [Pair("*", Leaf(n))];
    assert EntriesAssignments(raw, 1, ingredient, BritishToAmerican) == [Pair("*", Leaf(n))];
    assert PutAll([], [Pair("*", Leaf(n))]) == [Pair("*", Leaf(n))];
  }

  /** A table of variants is built by its assignments in order, the last
      one for a key winning, and has distinct keys; it stands for its `*`
      value exactly when `*` is its one key. */
  lemma VariantTableLookup(raw: Raw, ingredient: string, k: string, american: string -> seq<string>)
    requires raw.Nested?
    ensures var t := PutAll([], EntriesAssignments(raw, |raw.entries|, ingredient, american));
      && UniqueKeys(t)
      && Get(t, k) == LastValue(EntriesAssignments(raw, |raw.entries|, ingredient, american), k)
      && VariantTable(raw, ingredient, american) == if Keys(t) == ["*"] then t[0].val else Branch(t)
  {
    PutAllGet([], EntriesAssignments(raw, |raw.entries|, ingredient, american), k);
  }

  // ----- the lookup table -----

  /** `makeCupLUT` is last-write-wins over all registrations, in the order
      of the raw table, its comma-separated names, and their keywords. */
  lemma CupLUTLookup(data: seq<RawEntry>, plural: string -> string, k: string, american: string -> seq<string>)
    ensures UniqueKeys(CupLUTOf(data, plural, american))
    ensures Get(CupLUTOf(data, plural, american), k) == LastValue(RootAssignments(data, |data|, plural, american), k)
  {
    RootRunAssignments(data, |data|, plural, american);
    PutAllGet([], RootAssignments(data, |data|, plural, american), k);
  }

  /** An ingredient is registered under each American form and its plural,
      under its own name unless it is "icing sugar", and barley and parsley
      also under the `-lies` plural; under nothing else. */
  lemma KeywordsCover(ingredient: string, plural: string -> string)
    ensures forall w :: w in BritishToAmerican(ingredient) ==> w in Keywords(ingredient, plural, BritishToAmerican) && plural(w) in Keywords(ingredient, plural, BritishToAmerican)
    ensures ingredient != "icing sugar" ==> ingredient in Keywords(ingredient, plural, BritishToAmerican)
    ensures ingredient == "barley" ==> "barlies" in Keywords(ingredient, plural, BritishToAmerican)
    ensures ingredient == "parsley" ==> "parslies" in Keywords(ingredient, plural, BritishToAmerican)
    ensures forall w :: w in Keywords(ingredient, plural, BritishToAmerican) ==>
      w in WithPlurals(BritishToAmerican(ingredient), plural) || w == "barlies" || w == "parslies"
  {
    hide Invert, BritishToAmerican;
    var ws := BritishToAmerican(ingredient);
    var forms := WithPlurals(ws, plural);
    WithPluralsAt(ws, plural);
    DedupMembers(if ingredient == "barley" || ingredient == "parsley" then forms + [ingredient[..|ingredient| - 3] + "lies"] else forms);
    forall w | w in ws ensures w in forms && plural(w) in forms {
      var k :| 0 <= k < |ws| && ws[k] == w;
      assert forms[2 * k] == w && forms[2 * k + 1] == plural(w);
    }
    if ingredient != "icing sugar" {
      assert ws[0] == ingredient;
    }
    if ingredient == "barley" {
      assert ingredient[..|ingredient| - 3] + "lies" == "barlies";
    }
    if ingredient == "parsley" {
      assert ingredient[..|ingredient| - 3] + "lies" == "parslies";
    }
  }
}
