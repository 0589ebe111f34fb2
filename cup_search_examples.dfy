/** Worked searches of `cupToGrams` (lib/data/cup-to-grams.ts): ingredient
    phrases looked up in the branches the lookup table holds for flour,
    sugar and corn flour, written out entry by entry in the order
    `makeCupLUTVariantTable` gives them. */
module CupSearchExamples {
  import opened Wrappers
  import opened Strings
  import opened RegExp
  import opened Assoc
  import opened CupLUT
  import opened CupSearch

  // ----- the branches searched -----

  /** `flour` / `all purpose`: the default and the sifted variant. */
  const AllPurposeTable: Table<Node> := [
    Pair("*", Leaf(120)), Pair("well sifted", Leaf(110)), Pair("wellsifted", Leaf(110))
  ]

  /** The variants of flour. */
  const FlourTable: Table<Node> := [
    Pair("*", Leaf(120)), Pair("white", Leaf(120)), Pair("plain", Leaf(120)), Pair("sieved", Leaf(110)),
    Pair("allpurpose", Branch(AllPurposeTable)), Pair("ap", Branch(AllPurposeTable)),
    Pair("all purpose", Branch(AllPurposeTable)), Pair("wheat", Leaf(140)), Pair("bread", Leaf(136)),
    Pair("cake", Leaf(114)), Pair("rice", Leaf(130)), Pair("pastry", Leaf(130)), Pair("rye", Leaf(120))
  ]

  /** `sugar` / `brown`. */
  const BrownTable: Table<Node> := [
    Pair("*", Leaf(180)), Pair("soft", Leaf(220)), Pair("light", Leaf(220)), Pair("packed", Leaf(220)),
    Pair("dark", Leaf(200))
  ]

  /** `sugar` / `granulated`. */
  const GranulatedTable: Table<Node> := [Pair("*", Leaf(200)), Pair("cane", Leaf(200))]

  /** The variants of sugar. The American names of icing sugar come before
      it; `confectioners` keeps the place the first of them gave it and the
      value of the later `confectioners, confectioner` key. */
  const SugarTable: Table<Node> := [
    Pair("*", Leaf(200)), Pair("white", Leaf(200)), Pair("caster", Leaf(200)), Pair("superfine", Leaf(225)),
    Pair("super fine", Leaf(225)), Pair("granulated", Branch(GranulatedTable)), Pair("brown", Branch(BrownTable)),
    Pair("muscovado", Leaf(200)), Pair("powdered", Leaf(120)), Pair("confectioners", Leaf(128)),
    Pair("powder", Leaf(120)), Pair("icing", Leaf(120)), Pair("confectioner", Leaf(128))
  ]

  /** The variants of corn flour. */
  const CornflourTable: Table<Node> := [Pair("*", Leaf(120)), Pair("masa", Leaf(114))]

  /** A root with flour, and with corn flour after it as in the source's
      table, and one with sugar. */
  const FlourRoot: Table<Node> := [Pair("flour", Branch(FlourTable))]
  const CornRoot: Table<Node> := [Pair("flour", Branch(FlourTable)), Pair("corn flour", Branch(CornflourTable))]
  const SugarRoot: Table<Node> := [Pair("sugar", Branch(SugarTable))]

  // ----- deciding whole-word matches on written-out phrases -----

  /** A key of the letters a to z and spaces. */
  predicate Plain(word: string) {
    forall i :: 0 <= i < |word| ==> LowerOrSpace(word[i])
  }

  /** A plain key has no metacharacter, so `escape` leaves it as it is. */
  lemma PlainEscaped(word: string)
    requires Plain(word)
    ensures EscapedText(word) == word
  {
    forall i | 0 <= i < |word| ensures !IsMeta(word[i]) {
      assert LowerOrSpace(word[i]);
    }
    EscapedTextPlain(word);
  }

  /** A word with a character the phrase lacks does not occur in it. */
  lemma NoWordChar(s: string, word: string, c: char)
    requires Plain(word) && c in word && c !in s
    ensures FindWord(s, word).None? && RemoveWord(s, word).None?
  {
    PlainEscaped(word);
    var j :| 0 <= j < |word| && word[j] == c;
    forall m: nat ensures !WordAt(s, word, m) {
      if m + |word| <= |s| {
        assert s[m..m + |word|][j] == s[m + j] != c;
      }
    }
  }

  /** No whole-word occurrence starts in `a1 + [word[0]] + a3`, when the
      first character of `word` occurs there only right after `a1`, and not
      as a match: that place is no word start, or the `k`-th character of
      `word` is missing after it. */
  lemma NoneBefore(s: string, a1: string, a3: string, word: string, k: nat)
    requires 0 < |word| && k < |word|
    requires |a1| + 1 + |a3| <= |s| && s[..|a1| + 1 + |a3|] == a1 + [word[0]] + a3
    requires word[0] !in a1 && word[0] !in a3
    requires !Boundary(s, |a1|) || |a1| + k >= |s| || s[|a1| + k] != word[k]
    ensures forall m: nat :: m < |a1| + 1 + |a3| ==> !WordAt(s, word, m)
  {
    var p := |a1|;
    var pre := a1 + [word[0]] + a3;
    forall m: nat | m < |pre| ensures !WordAt(s, word, m) {
      if m + |word| <= |s| {
        assert s[m..m + |word|][0] == s[m] == pre[m];
        if m < p {
          assert pre[m] == a1[m];
        } else if m > p {
          assert pre[m] == a3[m - p - 1];
        } else if Boundary(s, p) && p + k < |s| {
          assert s[m..m + |word|][k] == s[p + k];
        }
      }
    }
  }

  /** No whole-word occurrence starts in `a`, which lacks the first
      character of `word`. */
  lemma NoneBeforeFirst(s: string, a: string, word: string)
    requires 0 < |word| && |a| <= |s| && s[..|a|] == a && word[0] !in a
    ensures forall m: nat :: m < |a| ==> !WordAt(s, word, m)
  {
    forall m: nat | m < |a| ensures !WordAt(s, word, m) {
      if m + |word| <= |s| {
        assert s[m..m + |word|][0] == s[m] == a[m];
      }
    }
  }

  /** A word whose first character occurs in `s` once, right after `a1`,
      and not as a match there, does not occur. */
  lemma NoWordExcept(s: string, a1: string, a3: string, word: string, k: nat)
    requires Plain(word) && 0 < |word| && k < |word| && s == a1 + [word[0]] + a3
    requires word[0] !in a1 && word[0] !in a3
    requires !Boundary(s, |a1|) || |a1| + k >= |s| || s[|a1| + k] != word[k]
    ensures FindWord(s, word).None? && RemoveWord(s, word).None?
  {
    PlainEscaped(word);
    assert s[..|s|] == s;
    NoneBefore(s, a1, a3, word, k);
  }

  /** `word` stands as a whole word between `a` and `b`. */
  lemma WordBetween(a: string, word: string, b: string)
    requires 0 < |word| && IsLower(word[0]) && IsLower(word[|word| - 1])
    requires |a| == 0 || a[|a| - 1] == ' '
    requires |b| == 0 || b[0] == ' '
    ensures WordAt(a + word + b, word, |a|)
  {
    var s := a + word + b;
    assert s[|a|..|a| + |word|] == word;
    assert s[|a|] == word[0];
    assert s[|a| + |word| - 1] == word[|word| - 1];
    if |a| > 0 {
      assert s[|a| - 1] == ' ';
    }
    if |b| > 0 {
      assert s[|a| + |word|] == ' ';
    }
  }

  /** A word standing between `a` and `b`, whose first character `a` lacks,
      is removed there. */
  lemma FirstAt(s: string, a: string, word: string, b: string)
    requires Plain(word) && 0 < |word| && IsLower(word[0]) && IsLower(word[|word| - 1])
    requires s == a + word + b && word[0] !in a
    requires |a| == 0 || a[|a| - 1] == ' '
    requires |b| == 0 || b[0] == ' '
    ensures RemoveWord(s, word) == Some(a + b)
  {
    PlainEscaped(word);
    WordBetween(a, word, b);
    assert s[..|a|] == a && s[|a| + |word|..] == b;
    NoneBeforeFirst(s, a, word);
  }

  /** The same, when the first character of `word` also occurs once
      before it, right after `a1`, not as a match. */
  lemma FirstAtAfter(s: string, a1: string, a3: string, word: string, b: string, k: nat)
    requires Plain(word) && 0 < |word| && IsLower(word[0]) && IsLower(word[|word| - 1]) && k < |word|
    requires s == a1 + [word[0]] + a3 + word + b
    requires word[0] !in a1 && word[0] !in a3
    requires (if |a3| == 0 then word[0] else a3[|a3| - 1]) == ' ' && (|b| == 0 || b[0] == ' ')
    requires !Boundary(s, |a1|) || |a1| + k >= |s| || s[|a1| + k] != word[k]
    ensures RemoveWord(s, word) == Some(a1 + [word[0]] + a3 + b)
  {
    PlainEscaped(word);
    var pre := a1 + [word[0]] + a3;
    assert pre[|pre| - 1] == ' ';
    WordBetween(pre, word, b);
    assert s[..|pre|] == pre && s[|pre| + |word|..] == b;
    NoneBefore(s, a1, a3, word, k);
  }

  /** An entry whose word does not occur is passed over. */
  lemma ScanSkips(input: string, t: Table<Node>, i: nat, words: int, best: Best)
    requires i < |t| && (t[i].key == "*" || RemoveWord(input, t[i].key).None?)
    ensures Scan(input, t, i, words, best) == Scan(input, t, i + 1, words, best)
  {
    hide RemoveWord, Search, WordCount;
  }

  /** A plain entry whose word occurs adds its words to the running count,
      and becomes the best match when that count beats it. */
  lemma ScanTakesLeaf(input: string, t: Table<Node>, i: nat, words: int, best: Best)
    requires i < |t| && t[i].key != "*" && RemoveWord(input, t[i].key).Some? && t[i].val.Leaf?
    ensures var w := words + WordCount(t[i].key);
      Scan(input, t, i, words, best) == Scan(input, t, i + 1, w, if w > best.words then Best(w, Some(t[i].val)) else best)
  {
    hide RemoveWord, Search, WordCount;
  }

  /** A nested entry whose word occurs is searched with the rest of the
      phrase and the running count. */
  lemma ScanTakesBranch(input: string, t: Table<Node>, i: nat, words: int, best: Best, rest: string)
    requires i < |t| && t[i].key != "*" && RemoveWord(input, t[i].key) == Some(rest) && t[i].val.Branch?
    ensures var w := words + WordCount(t[i].key);
      Scan(input, t, i, words, best) == Scan(input, t, i + 1, w, Search(rest, t[i].val.table, w, best))
  {
    hide RemoveWord, Search, WordCount;
  }

  /** After the loop, the wildcard is taken on a strictly higher count. */
  lemma SearchOf(input: string, t: Table<Node>, words: int, best: Best, w: int, b: Best)
    requires Scan(input, t, |t|, w, b) == Scan(input, t, 0, words, best)
    ensures Search(input, t, words, best) == if Get(t, "*").Some? && w > b.words then Best(w, Get(t, "*")) else b
  {
    hide RemoveWord, WordCount;
  }

  /** A key of one word counts one. */
  lemma OneWord(w: string)
    requires ' ' !in w && w != "*"
    ensures WordCount(w) == 1
  {
    CountOfAbsent(w, ' ');
  }

  /** A key of two words counts two. */
  lemma TwoWords(a: string, b: string)
    requires ' ' !in a && ' ' !in b
    ensures WordCount(a + " " + b) == 2
  {
    var w := a + " " + b;
    assert w[|a|] == ' ' && w[..|a|] == a && w[|a| + 1..] == b;
    CountOfSplit(w, ' ', |a|);
    CountOfAbsent(b, ' ');
  }

  // ----- the shape of the branches, as far as the searches below look -----

  predicate AllPurposeShape(t: Table<Node>) {
    |t| == 3 && t[0] == Pair("*", Leaf(120)) && t[1] == Pair("well sifted", Leaf(110)) && t[2].key == "wellsifted"
  }

  predicate FlourShape(t: Table<Node>) {
    |t| == 13 && t[0] == Pair("*", Leaf(120)) && t[1].key == "white" && t[2].key == "plain"
    && t[3].key == "sieved" && t[4].key == "allpurpose" && t[5].key == "ap"
    && t[6].key == "all purpose" && t[6].val.Branch? && AllPurposeShape(t[6].val.table)
    && t[7].key == "wheat" && t[8].key == "bread" && t[9].key == "cake" && t[10].key == "rice"
    && t[11] == Pair("pastry", Leaf(130)) && t[12].key == "rye"
  }

  predicate BrownShape(t: Table<Node>) {
    |t| == 5 && t[0] == Pair("*", Leaf(180)) && t[1] == Pair("soft", Leaf(220))
    && t[2].key == "light" && t[3].key == "packed" && t[4].key == "dark"
  }

  predicate SugarShape(t: Table<Node>) {
    |t| == 13 && t[0] == Pair("*", Leaf(200)) && t[1].key == "white" && t[2].key == "caster"
    && t[3].key == "superfine" && t[4].key == "super fine" && t[5].key == "granulated"
    && t[6].key == "brown" && t[6].val.Branch? && BrownShape(t[6].val.table)
    && t[7].key == "muscovado" && t[8].key == "powdered" && t[9].key == "confectioners"
    && t[10].key == "powder" && t[11].key == "icing" && t[12].key == "confectioner"
  }

  predicate CornflourShape(t: Table<Node>) {
    |t| == 2 && t[0] == Pair("*", Leaf(120)) && t[1] == Pair("masa", Leaf(114))
  }

  lemma FlourTableShape()
    ensures FlourShape(FlourTable)
  {
  }

  lemma SugarTableShape()
    ensures SugarShape(SugarTable)
  {
  }

  lemma CornflourTableShape()
    ensures CornflourShape(CornflourTable)
  {
  }

  // ----- "pastry flour" -----

  lemma PastryPhrase()
    ensures Normalise("pastry flour") == "pastry flour"
  {
    NormaliseCanonical(["pastry", "flour"]);
    assert Join(["pastry", "flour"], " ") == "pastry flour";
  }

  lemma PastryFound()
    ensures FindWord("pastry flour", "melted").None?
    ensures RemoveWord("pastry flour", "flour") == Some("pastry ")
  {
    hide RemoveWord, FindWord, EscapedText;
    NoWordChar("pastry flour", "melted", 'm');
    FirstAt("pastry flour", "pastry ", "flour", "");
    assert "pastry " + "" == "pastry ";
  }

  /** Of the flour variants, only `pastry` occurs in "pastry ". */
  lemma PastryMisses()
    ensures RemoveWord("pastry ", "white").None?
    ensures RemoveWord("pastry ", "plain").None?
    ensures RemoveWord("pastry ", "sieved").None?
    ensures RemoveWord("pastry ", "allpurpose").None?
  {
    hide RemoveWord, FindWord, EscapedText;
    NoWordChar("pastry ", "white", 'w');
    NoWordChar("pastry ", "plain", 'l');
    NoWordChar("pastry ", "sieved", 'i');
    NoWordChar("pastry ", "allpurpose", 'l');
  }

  lemma PastryMissesMore()
    ensures RemoveWord("pastry ", "ap").None?
    ensures RemoveWord("pastry ", "all purpose").None?
    ensures RemoveWord("pastry ", "wheat").None?
    ensures RemoveWord("pastry ", "bread").None?
  {
    hide RemoveWord, FindWord, EscapedText;
    NoWordExcept("pastry ", "p", "stry ", "ap", 0);
    NoWordChar("pastry ", "all purpose", 'l');
    NoWordChar("pastry ", "wheat", 'w');
    NoWordChar("pastry ", "bread", 'b');
  }

  lemma PastryMissesLast()
    ensures RemoveWord("pastry ", "cake").None?
    ensures RemoveWord("pastry ", "rice").None?
    ensures RemoveWord("pastry ", "rye").None?
    ensures RemoveWord("pastry ", "pastry") == Some(" ")
  {
    hide RemoveWord, FindWord, EscapedText;
    NoWordChar("pastry ", "cake", 'c');
    NoWordChar("pastry ", "rice", 'i');
    NoWordChar("pastry ", "rye", 'e');
    FirstAt("pastry ", "", "pastry", " ");
    assert "" + " " == " ";
  }

  lemma PastrySkipsFlour(t: Table<Node>)
    requires FlourShape(t)
    ensures Scan("pastry ", t, 0, 1, Best(0, None)) == Scan("pastry ", t, 11, 1, Best(0, None))
  {
    hide RemoveWord, FindWord, Scan, Search, WordCount, CountOf;
    var s := "pastry ";
    var b0 := Best(0, None);
    PastryMisses();
    PastryMissesMore();
    PastryMissesLast();
    ScanSkips(s, t, 0, 1, b0);
    ScanSkips(s, t, 1, 1, b0);
    ScanSkips(s, t, 2, 1, b0);
    ScanSkips(s, t, 3, 1, b0);
    ScanSkips(s, t, 4, 1, b0);
    ScanSkips(s, t, 5, 1, b0);
    ScanSkips(s, t, 6, 1, b0);
    ScanSkips(s, t, 7, 1, b0);
    ScanSkips(s, t, 8, 1, b0);
    ScanSkips(s, t, 9, 1, b0);
    ScanSkips(s, t, 10, 1, b0);
  }

  /** In the flour branch, the rest "pastry " matches `pastry` only, one
      word more than the one `flour` counted. */
  lemma PastryInFlour(t: Table<Node>)
    requires FlourShape(t)
    ensures Search("pastry ", t, 1, Best(0, None)) == Best(2, Some(Leaf(130)))
  {
    hide RemoveWord, FindWord, Scan, Search, WordCount, CountOf;
    var s := "pastry ";
    var b0 := Best(0, None);
    var b := Best(2, Some(Leaf(130)));
    PastrySkipsFlour(t);
    PastryMissesLast();
    OneWord("pastry");
    ScanTakesLeaf(s, t, 11, 1, b0);
    ScanSkips(s, t, 12, 2, b);
    SearchOf(s, t, 1, b0, 2, b);
  }

  /** "pastry flour", in a root whose one entry is the flour branch. */
  lemma PastryFlourIn(root: Table<Node>)
    requires |root| == 1 && root[0].key == "flour" && root[0].val.Branch? && FlourShape(root[0].val.table)
    ensures GramsPerCup("pastry flour", root) == Some(Leaf(130))
  {
    hide RemoveWord, FindWord, Scan, Search, WordCount, CountOf, Normalise;
    var s := "pastry flour";
    var b0 := Best(0, None);
    var b := Best(2, Some(Leaf(130)));
    PastryPhrase();
    PastryFound();
    OneWord("flour");
    PastryInFlour(root[0].val.table);
    ScanTakesBranch(s, root, 0, 0, b0, "pastry ");
    SearchOf(s, root, 0, b0, 1, b);
  }

  /** "pastry flour" weighs 130 grams a cup. */
  lemma PastryFlour()
    ensures GramsPerCup("pastry flour", FlourRoot) == Some(Leaf(130))
  {
    hide GramsPerCup, FlourShape;
    FlourTableShape();
    PastryFlourIn(FlourRoot);
  }

  // ----- the keys of two words -----

  lemma WellSiftedCount()
    ensures WordCount("well sifted") == 2
  {
    TwoWords("well", "sifted");
    assert "well" + " " + "sifted" == "well sifted";
  }

  lemma AllPurposeCount()
    ensures WordCount("all purpose") == 2
  {
    TwoWords("all", "purpose");
    assert "all" + " " + "purpose" == "all purpose";
  }

  lemma CornFlourCount()
    ensures WordCount("corn flour") == 2
  {
    TwoWords("corn", "flour");
    assert "corn" + " " + "flour" == "corn flour";
  }

  // ----- "well sifted all purpose flour" -----

  lemma SiftedPhraseWords()
    ensures forall k :: 0 <= k < |["well", "sifted", "all", "purpose", "flour"]| ==> |["well", "sifted", "all", "purpose", "flour"][k]| > 0 && forall i :: 0 <= i < |["well", "sifted", "all", "purpose", "flour"][k]| ==> IsLower(["well", "sifted", "all", "purpose", "flour"][k][i])
  {
  }

  lemma SiftedPhraseJoin()
    ensures Join(["well", "sifted", "all", "purpose", "flour"], " ") == "well sifted all purpose flour"
  {
  }

  lemma SiftedPhrase()
    ensures Normalise("well sifted all purpose flour") == "well sifted all purpose flour"
  {
    hide Join, Normalise;
    SiftedPhraseWords();
    SiftedPhraseJoin();
    NormaliseCanonical(["well", "sifted", "all", "purpose", "flour"]);
  }

  lemma SiftedFound()
    ensures FindWord("well sifted all purpose flour", "melted").None?
  {
    hide RemoveWord, FindWord, EscapedText;
    NoWordChar("well sifted all purpose flour", "melted", 'm');
  }

  /** The phrase around its one `flour`; the only other `f` is inside "sifted". */
  lemma SiftedFlourPieces()
    ensures "well sifted all purpose flour" == "well si" + ['f'] + "ted all purpose " + "flour" + ""
    ensures "well si" + ['f'] + "ted all purpose " + "" == "well sifted all purpose "
  {
  }

  lemma SiftedFlourStart()
    ensures 'f' !in "well si" && 'f' !in "ted all purpose "
    ensures !Boundary("well sifted all purpose flour", |"well si"|)
  {
  }

  lemma SiftedFoundMore()
    ensures RemoveWord("well sifted all purpose flour", "flour") == Some("well sifted all purpose ")
  {
    hide RemoveWord, FindWord, EscapedText, Boundary;
    SiftedFlourPieces();
    SiftedFlourStart();
    FirstAtAfter("well sifted all purpose flour", "well si", "ted all purpose ", "flour", "", 0);
  }

  /** Of the flour variants, only `all purpose` occurs in "well sifted all purpose ". */
  lemma SiftedOnWhite()
    ensures RemoveWord("well sifted all purpose ", "white").None?
    ensures RemoveWord("well sifted all purpose ", "plain").None?
  {
    hide RemoveWord, FindWord, EscapedText;
    NoWordChar("well sifted all purpose ", "white", 'h');
    NoWordChar("well sifted all purpose ", "plain", 'n');
  }

  lemma SiftedOnSieved()
    ensures RemoveWord("well sifted all purpose ", "sieved").None?
    ensures RemoveWord("well sifted all purpose ", "allpurpose").None?
  {
    hide RemoveWord, FindWord, EscapedText;
    NoWordChar("well sifted all purpose ", "sieved", 'v');
    NoWordExcept("well sifted all purpose ", "well sifted ", "ll purpose ", "allpurpose", 3);
  }

  lemma SiftedOnAp()
    ensures RemoveWord("well sifted all purpose ", "ap").None?
    ensures RemoveWord("well sifted all purpose ", "all purpose") == Some("well sifted  ")
  {
    hide RemoveWord, FindWord, EscapedText;
    NoWordExcept("well sifted all purpose ", "well sifted ", "ll purpose ", "ap", 1);
    FirstAt("well sifted all purpose ", "well sifted ", "all purpose", " ");
    assert "well sifted " + " " == "well sifted  ";
  }

  lemma SiftedOnWheat()
    ensures RemoveWord("well sifted all purpose ", "wheat").None?
    ensures RemoveWord("well sifted all purpose ", "bread").None?
  {
    hide RemoveWord, FindWord, EscapedText;
    NoWordChar("well sifted all purpose ", "wheat", 'h');
    NoWordChar("well sifted all purpose ", "bread", 'b');
  }

  lemma SiftedOnCake()
    ensures RemoveWord("well sifted all purpose ", "cake").None?
    ensures RemoveWord("well sifted all purpose ", "rice").None?
  {
    hide RemoveWord, FindWord, EscapedText;
    NoWordChar("well sifted all purpose ", "cake", 'c');
    NoWordChar("well sifted all purpose ", "rice", 'c');
  }

  lemma SiftedOnPastry()
    ensures RemoveWord("well sifted all purpose ", "pastry").None?
    ensures RemoveWord("well sifted all purpose ", "rye").None?
  {
    hide RemoveWord, FindWord, EscapedText;
    NoWordChar("well sifted all purpose ", "pastry", 'y');
    NoWordChar("well sifted all purpose ", "rye", 'y');
  }

  lemma SiftedAllPurpose()
    ensures RemoveWord("well sifted  ", "well sifted") == Some("  ")
    ensures RemoveWord("well sifted  ", "wellsifted").None?
  {
    hide RemoveWord, FindWord, EscapedText;
    FirstAt("well sifted  ", "", "well sifted", "  ");
    assert "" + "  " == "  ";
    NoWordExcept("well sifted  ", "", "ell sifted  ", "wellsifted", 4);
  }

  /** In the all-purpose branch, "well sifted" adds its two words to the three counted so far. */
  lemma SiftedInAllPurpose(t: Table<Node>)
    requires AllPurposeShape(t)
    ensures Search("well sifted  ", t, 3, Best(0, None)) == Best(5, Some(Leaf(110)))
  {
    hide RemoveWord, FindWord, Scan, Search, WordCount, CountOf;
    var s := "well sifted  ";
    var b0 := Best(0, None);
    SiftedAllPurpose();
    WellSiftedCount();
    ScanSkips(s, t, 0, 3, b0);
    ScanTakesLeaf(s, t, 1, 3, b0);
    ScanSkips(s, t, 2, 5, Best(5, Some(Leaf(110))));
    SearchOf(s, t, 3, b0, 5, Best(5, Some(Leaf(110))));
  }

  lemma SiftedSkipsFlour(t: Table<Node>)
    requires FlourShape(t)
    ensures Scan("well sifted all purpose ", t, 0, 1, Best(0, None)) == Scan("well sifted all purpose ", t, 6, 1, Best(0, None))
  {
    hide RemoveWord, FindWord, Scan, Search, WordCount, CountOf;
    var s := "well sifted all purpose ";
    var b0 := Best(0, None);
    SiftedOnWhite();
    SiftedOnSieved();
    SiftedOnAp();
    ScanSkips(s, t, 0, 1, b0);
    ScanSkips(s, t, 1, 1, b0);
    ScanSkips(s, t, 2, 1, b0);
    ScanSkips(s, t, 3, 1, b0);
    ScanSkips(s, t, 4, 1, b0);
    ScanSkips(s, t, 5, 1, b0);
  }

  lemma SiftedSkipsFlourLate(t: Table<Node>, b: Best)
    requires FlourShape(t)
    ensures Scan("well sifted all purpose ", t, 7, 3, b) == Scan("well sifted all purpose ", t, 13, 3, b)
  {
    hide RemoveWord, FindWord, Scan, Search, WordCount, CountOf;
    var s := "well sifted all purpose ";
    SiftedOnWheat();
    SiftedOnCake();
    SiftedOnPastry();
    ScanSkips(s, t, 7, 3, b);
    ScanSkips(s, t, 8, 3, b);
    ScanSkips(s, t, 9, 3, b);
    ScanSkips(s, t, 10, 3, b);
    ScanSkips(s, t, 11, 3, b);
    ScanSkips(s, t, 12, 3, b);
  }

  /** In the flour branch, "all purpose" leads to its own branch and nothing later beats the match found there. */
  lemma SiftedInFlour(t: Table<Node>)
    requires FlourShape(t)
    ensures Search("well sifted all purpose ", t, 1, Best(0, None)) == Best(5, Some(Leaf(110)))
  {
    hide RemoveWord, FindWord, Scan, Search, WordCount, CountOf;
    var s := "well sifted all purpose ";
    var b0 := Best(0, None);
    SiftedSkipsFlour(t);
    SiftedOnAp();
    AllPurposeCount();
    SiftedInAllPurpose(t[6].val.table);
    ScanTakesBranch(s, t, 6, 1, b0, "well sifted  ");
    SiftedSkipsFlourLate(t, Best(5, Some(Leaf(110))));
    SearchOf(s, t, 1, b0, 3, Best(5, Some(Leaf(110))));
  }

  /** "well sifted all purpose flour", in a root whose one entry is the flour branch. */
  lemma SiftedFlourIn(root: Table<Node>)
    requires |root| == 1 && root[0].key == "flour" && root[0].val.Branch? && FlourShape(root[0].val.table)
    ensures GramsPerCup("well sifted all purpose flour", root) == Some(Leaf(110))
  {
    hide RemoveWord, FindWord, Scan, Search, WordCount, CountOf, Normalise;
    var s := "well sifted all purpose flour";
    var b0 := Best(0, None);
    SiftedPhrase();
    SiftedFound();
    SiftedFoundMore();
    OneWord("flour");
    SiftedInFlour(root[0].val.table);
    ScanTakesBranch(s, root, 0, 0, b0, "well sifted all purpose ");
    SearchOf(s, root, 0, b0, 1, Best(5, Some(Leaf(110))));
  }

  /** "well sifted all purpose flour" weighs 110 grams a cup: the longest match, `well sifted` inside `all purpose`, wins. */
  lemma WellSiftedAllPurposeFlour()
    ensures GramsPerCup("well sifted all purpose flour", FlourRoot) == Some(Leaf(110))
  {
    hide GramsPerCup, FlourShape;
    FlourTableShape();
    SiftedFlourIn(FlourRoot);
  }

  // ----- "masa corn flour" -----

  lemma MasaPhraseWords()
    ensures forall k :: 0 <= k < |["masa", "corn", "flour"]| ==> |["masa", "corn", "flour"][k]| > 0 && forall i :: 0 <= i < |["masa", "corn", "flour"][k]| ==> IsLower(["masa", "corn", "flour"][k][i])
  {
  }

  lemma MasaPhraseJoin()
    ensures Join(["masa", "corn", "flour"], " ") == "masa corn flour"
  {
  }

  lemma MasaPhrase()
    ensures Normalise("masa corn flour") == "masa corn flour"
  {
    hide Join, Normalise;
    MasaPhraseWords();
    MasaPhraseJoin();
    NormaliseCanonical(["masa", "corn", "flour"]);
  }

  lemma MasaFound()
    ensures FindWord("masa corn flour", "melted").None?
    ensures RemoveWord("masa corn flour", "flour") == Some("masa corn ")
    ensures RemoveWord("masa corn flour", "corn flour") == Some("masa ")
  {
    hide RemoveWord, FindWord, EscapedText;
    NoWordChar("masa corn flour", "melted", 'e');
    FirstAt("masa corn flour", "masa corn ", "flour", "");
    assert "masa corn " + "" == "masa corn ";
    FirstAt("masa corn flour", "masa ", "corn flour", "");
    assert "masa " + "" == "masa ";
  }

  lemma MasaInCornFacts()
    ensures RemoveWord("masa ", "masa") == Some(" ")
  {
    hide RemoveWord, FindWord, EscapedText;
    FirstAt("masa ", "", "masa", " ");
    assert "" + " " == " ";
  }

  /** No flour variant occurs in "masa corn ". */
  lemma MasaMisses()
    ensures RemoveWord("masa corn ", "white").None?
    ensures RemoveWord("masa corn ", "plain").None?
    ensures RemoveWord("masa corn ", "sieved").None?
  {
    hide RemoveWord, FindWord, EscapedText;
    NoWordChar("masa corn ", "white", 'w');
    NoWordChar("masa corn ", "plain", 'p');
    NoWordChar("masa corn ", "sieved", 'i');
  }

  lemma MasaMissesMore()
    ensures RemoveWord("masa corn ", "allpurpose").None?
    ensures RemoveWord("masa corn ", "ap").None?
    ensures RemoveWord("masa corn ", "all purpose").None?
  {
    hide RemoveWord, FindWord, EscapedText;
    NoWordChar("masa corn ", "allpurpose", 'l');
    NoWordChar("masa corn ", "ap", 'p');
    NoWordChar("masa corn ", "all purpose", 'l');
  }

  lemma MasaMissesLast()
    ensures RemoveWord("masa corn ", "wheat").None?
    ensures RemoveWord("masa corn ", "bread").None?
    ensures RemoveWord("masa corn ", "cake").None?
  {
    hide RemoveWord, FindWord, EscapedText;
    NoWordChar("masa corn ", "wheat", 'w');
    NoWordChar("masa corn ", "bread", 'b');
    NoWordChar("masa corn ", "cake", 'k');
  }

  lemma MasaMissesRest()
    ensures RemoveWord("masa corn ", "rice").None?
    ensures RemoveWord("masa corn ", "pastry").None?
    ensures RemoveWord("masa corn ", "rye").None?
  {
    hide RemoveWord, FindWord, EscapedText;
    NoWordChar("masa corn ", "rice", 'i');
    NoWordChar("masa corn ", "pastry", 'p');
    NoWordChar("masa corn ", "rye", 'y');
  }

  lemma MasaSkipsFlour(t: Table<Node>)
    requires FlourShape(t)
    ensures Scan("masa corn ", t, 0, 1, Best(0, None)) == Scan("masa corn ", t, 7, 1, Best(0, None))
  {
    hide RemoveWord, FindWord, Scan, Search, WordCount, CountOf;
    var s := "masa corn ";
    var b0 := Best(0, None);
    MasaMisses();
    MasaMissesMore();
    ScanSkips(s, t, 0, 1, b0);
    ScanSkips(s, t, 1, 1, b0);
    ScanSkips(s, t, 2, 1, b0);
    ScanSkips(s, t, 3, 1, b0);
    ScanSkips(s, t, 4, 1, b0);
    ScanSkips(s, t, 5, 1, b0);
    ScanSkips(s, t, 6, 1, b0);
  }

  lemma MasaSkipsFlourLate(t: Table<Node>)
    requires FlourShape(t)
    ensures Scan("masa corn ", t, 7, 1, Best(0, None)) == Scan("masa corn ", t, 13, 1, Best(0, None))
  {
    hide RemoveWord, FindWord, Scan, Search, WordCount, CountOf;
    var s := "masa corn ";
    var b0 := Best(0, None);
    MasaMissesLast();
    MasaMissesRest();
    ScanSkips(s, t, 7, 1, b0);
    ScanSkips(s, t, 8, 1, b0);
    ScanSkips(s, t, 9, 1, b0);
    ScanSkips(s, t, 10, 1, b0);
    ScanSkips(s, t, 11, 1, b0);
    ScanSkips(s, t, 12, 1, b0);
  }

  /** In the flour branch nothing but the wildcard applies: one word, 120 grams. */
  lemma MasaInFlour(t: Table<Node>)
    requires FlourShape(t)
    ensures Search("masa corn ", t, 1, Best(0, None)) == Best(1, Some(Leaf(120)))
  {
    hide Scan;
    MasaSkipsFlour(t);
    MasaSkipsFlourLate(t);
    SearchOf("masa corn ", t, 1, Best(0, None), 1, Best(0, None));
  }

  /** In the corn-flour branch, `masa` makes four words and beats the flour wildcard. */
  lemma MasaInCorn(t: Table<Node>)
    requires CornflourShape(t)
    ensures Search("masa ", t, 3, Best(1, Some(Leaf(120)))) == Best(4, Some(Leaf(114)))
  {
    hide RemoveWord, FindWord, Scan, Search, WordCount, CountOf;
    var s := "masa ";
    MasaInCornFacts();
    OneWord("masa");
    ScanSkips(s, t, 0, 3, Best(1, Some(Leaf(120))));
    ScanTakesLeaf(s, t, 1, 3, Best(1, Some(Leaf(120))));
    SearchOf(s, t, 3, Best(1, Some(Leaf(120))), 4, Best(4, Some(Leaf(114))));
  }

  /** "masa corn flour", in a root of the flour branch and then the corn-flour branch. */
  lemma MasaCornFlourIn(root: Table<Node>)
    requires |root| == 2 && root[0].key == "flour" && root[0].val.Branch? && FlourShape(root[0].val.table)
    requires root[1].key == "corn flour" && root[1].val.Branch? && CornflourShape(root[1].val.table)
    ensures GramsPerCup("masa corn flour", root) == Some(Leaf(114))
  {
    hide RemoveWord, FindWord, Scan, Search, WordCount, CountOf, Normalise;
    var s := "masa corn flour";
    var b0 := Best(0, None);
    MasaPhrase();
    MasaFound();
    OneWord("flour");
    CornFlourCount();
    MasaInFlour(root[0].val.table);
    MasaInCorn(root[1].val.table);
    ScanTakesBranch(s, root, 0, 0, b0, "masa corn ");
    ScanTakesBranch(s, root, 1, 1, Best(1, Some(Leaf(120))), "masa ");
    SearchOf(s, root, 0, b0, 3, Best(4, Some(Leaf(114))));
  }

  /** "masa corn flour" weighs 114 grams a cup: both `flour` and `corn flour` match, and the longer match wins. */
  lemma MasaCornFlour()
    ensures GramsPerCup("masa corn flour", CornRoot) == Some(Leaf(114))
  {
    hide GramsPerCup, FlourShape, CornflourShape;
    FlourTableShape();
    CornflourTableShape();
    MasaCornFlourIn(CornRoot);
  }

  // ----- "soft brown sugar" -----

  lemma SoftPhraseWords()
    ensures forall k :: 0 <= k < |["soft", "brown", "sugar"]| ==> |["soft", "brown", "sugar"][k]| > 0 && forall i :: 0 <= i < |["soft", "brown", "sugar"][k]| ==> IsLower(["soft", "brown", "sugar"][k][i])
  {
  }

  lemma SoftPhraseJoin()
    ensures Join(["soft", "brown", "sugar"], " ") == "soft brown sugar"
  {
  }

  lemma SoftPhrase()
    ensures Normalise("soft brown sugar") == "soft brown sugar"
  {
    hide Join, Normalise;
    SoftPhraseWords();
    SoftPhraseJoin();
    NormaliseCanonical(["soft", "brown", "sugar"]);
  }

  lemma SoftFound()
    ensures FindWord("soft brown sugar", "melted").None?
  {
    hide RemoveWord, FindWord, EscapedText;
    NoWordChar("soft brown sugar", "melted", 'm');
  }

  lemma SoftFoundMore()
    ensures RemoveWord("soft brown sugar", "sugar") == Some("soft brown ")
  {
    hide RemoveWord, FindWord, EscapedText;
    FirstAtAfter("soft brown sugar", "", "oft brown ", "sugar", "", 1);
    assert "" + ['s'] + "oft brown " + "" == "soft brown ";
  }

  /** Of the sugar variants, only `brown` occurs in "soft brown ". */
  lemma SoftOnWhite()
    ensures RemoveWord("soft brown ", "white").None?
    ensures RemoveWord("soft brown ", "caster").None?
  {
    hide RemoveWord, FindWord, EscapedText;
    NoWordChar("soft brown ", "white", 'h');
    NoWordChar("soft brown ", "caster", 'c');
  }

  lemma SoftOnSuperfine()
    ensures RemoveWord("soft brown ", "superfine").None?
    ensures RemoveWord("soft brown ", "super fine").None?
  {
    hide RemoveWord, FindWord, EscapedText;
    NoWordChar("soft brown ", "superfine", 'u');
    NoWordChar("soft brown ", "super fine", 'u');
  }

  lemma SoftOnGranulated()
    ensures RemoveWord("soft brown ", "granulated").None?
    ensures RemoveWord("soft brown ", "brown") == Some("soft  ")
  {
    hide RemoveWord, FindWord, EscapedText;
    NoWordChar("soft brown ", "granulated", 'g');
    FirstAt("soft brown ", "soft ", "brown", " ");
    assert "soft " + " " == "soft  ";
  }

  lemma SoftOnMuscovado()
    ensures RemoveWord("soft brown ", "muscovado").None?
    ensures RemoveWord("soft brown ", "powdered").None?
  {
    hide RemoveWord, FindWord, EscapedText;
    NoWordChar("soft brown ", "muscovado", 'm');
    NoWordChar("soft brown ", "powdered", 'p');
  }

  lemma SoftOnConfectioners()
    ensures RemoveWord("soft brown ", "confectioners").None?
    ensures RemoveWord("soft brown ", "powder").None?
  {
    hide RemoveWord, FindWord, EscapedText;
    NoWordChar("soft brown ", "confectioners", 'c');
    NoWordChar("soft brown ", "powder", 'p');
  }

  lemma SoftOnIcing()
    ensures RemoveWord("soft brown ", "icing").None?
    ensures RemoveWord("soft brown ", "confectioner").None?
  {
    hide RemoveWord, FindWord, EscapedText;
    NoWordChar("soft brown ", "icing", 'i');
    NoWordChar("soft brown ", "confectioner", 'c');
  }

  lemma SoftInBrownFacts()
    ensures RemoveWord("soft  ", "soft") == Some("  ")
    ensures RemoveWord("soft  ", "light").None?
    ensures RemoveWord("soft  ", "packed").None?
  {
    hide RemoveWord, FindWord, EscapedText;
    FirstAt("soft  ", "", "soft", "  ");
    assert "" + "  " == "  ";
    NoWordChar("soft  ", "light", 'l');
    NoWordChar("soft  ", "packed", 'p');
  }

  lemma SoftInBrownFactsMore()
    ensures RemoveWord("soft  ", "dark").None?
  {
    hide RemoveWord, FindWord, EscapedText;
    NoWordChar("soft  ", "dark", 'd');
  }

  /** In the brown-sugar branch, `soft` makes three words. */
  lemma SoftInBrown(t: Table<Node>)
    requires BrownShape(t)
    ensures Search("soft  ", t, 2, Best(0, None)) == Best(3, Some(Leaf(220)))
  {
    hide RemoveWord, FindWord, Scan, Search, WordCount, CountOf;
    var s := "soft  ";
    var b0 := Best(0, None);
    SoftInBrownFacts();
    SoftInBrownFactsMore();
    OneWord("soft");
    ScanSkips(s, t, 0, 2, b0);
    ScanTakesLeaf(s, t, 1, 2, b0);
    ScanSkips(s, t, 2, 3, Best(3, Some(Leaf(220))));
    ScanSkips(s, t, 3, 3, Best(3, Some(Leaf(220))));
    ScanSkips(s, t, 4, 3, Best(3, Some(Leaf(220))));
    SearchOf(s, t, 2, b0, 3, Best(3, Some(Leaf(220))));
  }

  lemma SoftSkipsSugar(t: Table<Node>)
    requires SugarShape(t)
    ensures Scan("soft brown ", t, 0, 1, Best(0, None)) == Scan("soft brown ", t, 6, 1, Best(0, None))
  {
    hide RemoveWord, FindWord, Scan, Search, WordCount, CountOf;
    var s := "soft brown ";
    var b0 := Best(0, None);
    SoftOnWhite();
    SoftOnSuperfine();
    SoftOnGranulated();
    ScanSkips(s, t, 0, 1, b0);
    ScanSkips(s, t, 1, 1, b0);
    ScanSkips(s, t, 2, 1, b0);
    ScanSkips(s, t, 3, 1, b0);
    ScanSkips(s, t, 4, 1, b0);
    ScanSkips(s, t, 5, 1, b0);
  }

  lemma SoftSkipsSugarLate(t: Table<Node>, b: Best)
    requires SugarShape(t)
    ensures Scan("soft brown ", t, 7, 2, b) == Scan("soft brown ", t, 13, 2, b)
  {
    hide RemoveWord, FindWord, Scan, Search, WordCount, CountOf;
    var s := "soft brown ";
    SoftOnMuscovado();
    SoftOnConfectioners();
    SoftOnIcing();
    ScanSkips(s, t, 7, 2, b);
    ScanSkips(s, t, 8, 2, b);
    ScanSkips(s, t, 9, 2, b);
    ScanSkips(s, t, 10, 2, b);
    ScanSkips(s, t, 11, 2, b);
    ScanSkips(s, t, 12, 2, b);
  }

  /** In the sugar branch, `brown` leads to its own branch, whose match no later entry beats. */
  lemma SoftInSugar(t: Table<Node>)
    requires SugarShape(t)
    ensures Search("soft brown ", t, 1, Best(0, None)) == Best(3, Some(Leaf(220)))
  {
    hide RemoveWord, FindWord, Scan, Search, WordCount, CountOf;
    var s := "soft brown ";
    var b0 := Best(0, None);
    SoftSkipsSugar(t);
    SoftOnGranulated();
    OneWord("brown");
    SoftInBrown(t[6].val.table);
    ScanTakesBranch(s, t, 6, 1, b0, "soft  ");
    SoftSkipsSugarLate(t, Best(3, Some(Leaf(220))));
    SearchOf(s, t, 1, b0, 2, Best(3, Some(Leaf(220))));
  }

  /** "soft brown sugar", in a root whose one entry is the sugar branch. */
  lemma SoftSugarIn(root: Table<Node>)
    requires |root| == 1 && root[0].key == "sugar" && root[0].val.Branch? && SugarShape(root[0].val.table)
    ensures GramsPerCup("soft brown sugar", root) == Some(Leaf(220))
  {
    hide RemoveWord, FindWord, Scan, Search, WordCount, CountOf, Normalise;
    var s := "soft brown sugar";
    var b0 := Best(0, None);
    SoftPhrase();
    SoftFound();
    SoftFoundMore();
    OneWord("sugar");
    SoftInSugar(root[0].val.table);
    ScanTakesBranch(s, root, 0, 0, b0, "soft brown ");
    SearchOf(s, root, 0, b0, 1, Best(3, Some(Leaf(220))));
  }

  /** "soft brown sugar" weighs 220 grams a cup, the weight of soft brown sugar rather than of brown or plain sugar. */
  lemma SoftBrownSugar()
    ensures GramsPerCup("soft brown sugar", SugarRoot) == Some(Leaf(220))
  {
    hide GramsPerCup, SugarShape;
    SugarTableShape();
    SoftSugarIn(SugarRoot);
  }


  // ----- the carried count -----

  /** The sugar branch cut to its default and `white`, then butter and
      honey, at the chart's values. */
  const CarryBranch: Table<Node> := [Pair("*", Leaf(200)), Pair("white", Leaf(200))]
  const CarryRoot: Table<Node> := [Pair("sugar", Branch(CarryBranch)), Pair("butter", Leaf(225)), Pair("honey", Leaf(340))]

  /** As written, in any phrase where `white`, `sugar`, `butter` and
      `honey` occur as words, the one-word `honey` beats the two-word `white
      sugar`: the words counted for `sugar` and `butter` are carried on to
      `honey`, which did not match them. */
  lemma CarriedCountWins(s: string, r: string)
    requires RemoveWord(s, "sugar") == Some(r) && RemoveWord(r, "white").Some?
    requires RemoveWord(s, "butter").Some? && RemoveWord(s, "honey").Some?
    ensures Search(s, CarryRoot, 0, Best(0, None)) == Best(3, Some(Leaf(340)))
  {
    hide RemoveWord, FindWord, Scan, Search, WordCount, CountOf, EscapedText;
    var b0 := Best(0, None);
    var b2 := Best(2, Some(Leaf(200)));
    var b3 := Best(3, Some(Leaf(340)));
    OneWord("sugar");
    OneWord("white");
    OneWord("butter");
    OneWord("honey");
    ScanSkips(r, CarryBranch, 0, 1, b0);
    ScanTakesLeaf(r, CarryBranch, 1, 1, b0);
    SearchOf(r, CarryBranch, 1, b0, 2, b2);
    ScanTakesBranch(s, CarryRoot, 0, 0, b0, r);
    ScanTakesLeaf(s, CarryRoot, 1, 1, b2);
    ScanTakesLeaf(s, CarryRoot, 2, 2, b2);
    SearchOf(s, CarryRoot, 0, b0, 3, b3);
  }

  /** In the same phrases the intended search keeps `white sugar`, the
      longest match. */
  lemma LongestMatchKept(s: string, r: string)
    requires RemoveWord(s, "sugar") == Some(r) && RemoveWord(r, "white").Some?
    requires RemoveWord(s, "butter").Some? && RemoveWord(s, "honey").Some?
    ensures SearchIntended(s, CarryRoot, 0, Best(0, None)) == Best(2, Some(Leaf(200)))
  {
    hide RemoveWord, FindWord, WordCount, CountOf, EscapedText;
    var b0 := Best(0, None);
    var b2 := Best(2, Some(Leaf(200)));
    OneWord("sugar");
    OneWord("white");
    OneWord("butter");
    OneWord("honey");
    assert ScanIntended(r, CarryBranch, 0, 1, b0) == b2;
    assert SearchIntended(r, CarryBranch, 1, b0) == b2;
    assert ScanIntended(s, CarryRoot, 0, 0, b0) == ScanIntended(s, CarryRoot, 1, 0, b2);
    assert ScanIntended(s, CarryRoot, 2, 0, b2) == ScanIntended(s, CarryRoot, 3, 0, b2) == b2;
    assert ScanIntended(s, CarryRoot, 1, 0, b2) == b2;
  }

  lemma CarrySugar()
    ensures RemoveWord("white sugar butter honey", "sugar") == Some("white  butter honey")
  {
    hide RemoveWord, FindWord, EscapedText;
    FirstAt("white sugar butter honey", "white ", "sugar", " butter honey");
    assert "white " + " butter honey" == "white  butter honey";
  }

  lemma CarryWhite()
    ensures RemoveWord("white  butter honey", "white") == Some("  butter honey")
  {
    hide RemoveWord, FindWord, EscapedText;
    FirstAt("white  butter honey", "", "white", "  butter honey");
    assert "" + "  butter honey" == "  butter honey";
  }

  lemma CarryButter()
    ensures RemoveWord("white sugar butter honey", "butter") == Some("white sugar  honey")
  {
    hide RemoveWord, FindWord, EscapedText;
    FirstAt("white sugar butter honey", "white sugar ", "butter", " honey");
    assert "white sugar " + " honey" == "white sugar  honey";
  }

  lemma CarryHoney()
    ensures RemoveWord("white sugar butter honey", "honey") == Some("white sugar butter ")
  {
    hide RemoveWord, FindWord, EscapedText;
    FirstAtAfter("white sugar butter honey", "w", "ite sugar butter ", "honey", "", 0);
    assert "w" + ['h'] + "ite sugar butter " + "" == "white sugar butter ";
  }

  /** "white sugar butter honey": as written it weighs as honey, 340 grams
      a cup; as intended, as white sugar, 200. */
  lemma WhiteSugarButterHoney()
    ensures Search("white sugar butter honey", CarryRoot, 0, Best(0, None)).found == Some(Leaf(340))
    ensures SearchIntended("white sugar butter honey", CarryRoot, 0, Best(0, None)).found == Some(Leaf(200))
  {
    hide RemoveWord, Search, SearchIntended;
    CarrySugar();
    CarryWhite();
    CarryButter();
    CarryHoney();
    CarriedCountWins("white sugar butter honey", "white  butter honey");
    LongestMatchKept("white sugar butter honey", "white  butter honey");
  }
}
