/** lib/data/american-terms.ts: the dictionary of American and British
    ingredient names, and the British-to-American lookup built from it. */
module AmericanTerms {

  /** `_americanToBritish`, in the order of its entries. */
  const AmericanToBritish: seq<(string, string)> := [
    ("eggplant", "aubergine"),
    ("canadian bacon", "back bacon"),
    ("beet", "beetroot"),
    ("hard candy", "boiled sweet"),
    ("fava bean", "broad bean"),
    ("cotton candy", "candyfloss"),
    ("cilantro", "coriander"),
    ("cornstarch", "cornflour"),
    ("zucchini", "courgette"),
    ("heavy cream", "double cream"),
    ("graham crackers", "digestive biscuits"),
    ("ginger snap", "ginger nut"),
    ("bell pepper", "green pepper"),
    ("powdered sugar", "icing sugar"),
    ("confectioners sugar", "icing sugar"),
    ("baked potato", "jacket potato"),
    ("light cream", "single cream"),
    ("white raisin", "saltana"),
    ("molasses", "treacle"),
    ("all-purpose flour", "plain flour"),
    ("ap flour", "plain flour"),
    ("canola oil", "rapeseed oil"),
    ("kentucky beans", "runner beans"),
    ("navy beans", "haricot beans"),
    ("pie shell", "pastry case"),
    ("saran wrap", "cling film"),
    ("plastic wrap", "cling film"),
    ("popsicle", "ice lolly"),
    ("potato chips", "crisps"),
    ("superfine granulated sugar", "caster sugar"),
    ("tomato paste", "tomato puree"),
    ("wax paper", "greaseproof paper")
  ]

  /** lodash `invert`: each value becomes a key mapped to its key; when
      several keys share a value, the later assignment overwrites, so the
      last key wins. */
  function Invert(ps: seq<(string, string)>): (r: map<string, string>)
    ensures |r| <= |ps|
    ensures ps != [] ==> ps[|ps| - 1].1 in r && r[ps[|ps| - 1].1] == ps[|ps| - 1].0
  {
    if ps == [] then map[]
    else Invert(ps[..|ps| - 1])[ps[|ps| - 1].1 := ps[|ps| - 1].0]
  }

  /** A value maps to the key of its LAST entry. */
  lemma {:induction false} InvertLastWins(ps: seq<(string, string)>, i: nat)
    requires i < |ps|
    requires forall j :: i < j < |ps| ==> ps[j].1 != ps[i].1
    ensures ps[i].1 in Invert(ps) && Invert(ps)[ps[i].1] == ps[i].0
  {
    if i < |ps| - 1 {
      InvertLastWins(ps[..|ps| - 1], i);
    }
  }

  /** Only values of the dictionary become keys of the inversion. */
  lemma {:induction false} InvertAbsent(ps: seq<(string, string)>, v: string)
    requires forall j :: 0 <= j < |ps| ==> ps[j].1 != v
    ensures v !in Invert(ps)
  {
    if ps != [] {
      InvertAbsent(ps[..|ps| - 1], v);
    }
  }

  /** `_britishToAmerican` */
  const BritishToAmericanTable: map<string, string> := Invert(AmericanToBritish)

  /** `britishToAmerican(word)`: the special list for "icing sugar"; otherwise
      the word itself, followed by its American name when the word is one of
      the British names. The lookup is exact and case-sensitive. */
  function BritishToAmerican(word: string): (r: seq<string>)
    ensures 1 <= |r| <= 3
    ensures r[0] == word <==> word != "icing sugar"
    ensures word != "icing sugar" ==>
      (|r| == 2 <==> word in BritishToAmericanTable)
      && (|r| == 2 ==> r[1] == BritishToAmericanTable[word])
  {
    if word == "icing sugar" then ["powdered sugar", "confectioners sugar", "powder sugar"]
    else if word in BritishToAmericanTable then [word, BritishToAmericanTable[word]]
    else [word]
  }

  /** A word that is no British name in the dictionary stays on its own. */
  lemma {:induction false} BritishToAmericanUnknown(word: string)
    requires word != "icing sugar"
    requires forall j :: 0 <= j < |AmericanToBritish| ==> AmericanToBritish[j].1 != word
    ensures BritishToAmerican(word) == [word]
  {
    InvertAbsent(AmericanToBritish, word);
  }

  /** A British name comes back first, followed by the American key of the
      last entry that has it. */
  lemma {:induction false} BritishToAmericanKnown(i: nat)
    requires i < |AmericanToBritish| && AmericanToBritish[i].1 != "icing sugar"
    requires forall j :: i < j < |AmericanToBritish| ==> AmericanToBritish[j].1 != AmericanToBritish[i].1
    ensures BritishToAmerican(AmericanToBritish[i].1) == [AmericanToBritish[i].1, AmericanToBritish[i].0]
  {
    InvertLastWins(AmericanToBritish, i);
  }

  /** tests/data/cups-to-grams.spec.ts and the entries shared by two keys. */
  lemma BritishToAmericanExamples()
    ensures BritishToAmerican("aubergine") == ["aubergine", "eggplant"]
    ensures BritishToAmerican("plain flour") == ["plain flour", "ap flour"]
    ensures BritishToAmerican("cling film") == ["cling film", "plastic wrap"]
    ensures BritishToAmerican("treacle") == ["treacle", "molasses"]
  {
    hide Invert;
    BritishToAmericanKnown(0);
    BritishToAmericanKnown(20);
    BritishToAmericanKnown(26);
    BritishToAmericanKnown(18);
  }

  /** The lookup is case-sensitive; "icing sugar" has its own list. */
  lemma BritishToAmericanSpecialCases()
    ensures BritishToAmerican("Aubergine") == ["Aubergine"]
    ensures BritishToAmerican("icing sugar") == ["powdered sugar", "confectioners sugar", "powder sugar"]
  {
    BritishToAmericanUnknown("Aubergine");
  }
}
