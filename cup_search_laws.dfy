/** What `searchLUT` and `cupToGrams` (lib/data/cup-to-grams.ts) promise:
    the best match only ever gives way to a match of more words, whatever is
    returned is a value of the table, a phrase with none of the table's words
    has no match, one with a word of a plain entry has one, and anything
    melted weighs as a liquid. */
module CupSearchLaws {
  import opened Wrappers
  import opened Strings
  import opened Assoc
  import opened CupData
  import opened CupLUT
  import opened CupSearch

  /** `b` is `b0`, or a match of strictly more words. */
  predicate Improves(b0: Best, b: Best) {
    b == b0 || (b.words > b0.words && b.found.Some?)
  }

  /** `v` is a value a search of `t` can return: the value of a `*` key, a
      number under any other key, or such a value of a table nested under a
      key other than `*`. */
  predicate Offered(v: Node, t: Table<Node>)
    decreases t
  {
    exists i :: 0 <= i < |t| &&
      ((t[i].key == "*" && t[i].val == v)
       || (t[i].key != "*" && t[i].val.Leaf? && t[i].val == v)
       || (t[i].key != "*" && t[i].val.Branch? && Offered(v, t[i].val.table)))
  }

  /** The result of a search keeps the match it started from or holds a
      value the table offers. */
  predicate FromTable(b0: Best, b: Best, t: Table<Node>) {
    b.found == b0.found || (b.found.Some? && Offered(b.found.value, t))
  }

  /** The loop of `searchLUT` never lowers the running word count, replaces
      the best match only by one of more words, and takes its values from
      the table. */
  lemma {:induction false} ScanImproves(input: string, t: Table<Node>, i: nat, words: int, best: Best)
    requires i <= |t|
    ensures Scan(input, t, i, words, best).0 >= words
    ensures Improves(best, Scan(input, t, i, words, best).1)
    ensures FromTable(best, Scan(input, t, i, words, best).1, t)
    decreases t, 0, |t| - i
  {
    if i < |t| && t[i].key != "*" && RemoveWord(input, t[i].key).Some? {
      var rest := RemoveWord(input, t[i].key).value;
      var w := words + WordCount(t[i].key);
      var b := match t[i].val
        case Leaf(_) => if w > best.words then Best(w, Some(t[i].val)) else best
        case Branch(sub) => Search(rest, sub, w, best);
      assert Improves(best, b) && FromTable(best, b, t) by {
        match t[i].val
        case Leaf(_) =>
        case Branch(sub) =>
          SearchImproves(rest, sub, w, best);
          if b.found != best.found {
            assert Offered(b.found.value, sub);
          }
      }
      ScanImproves(input, t, i + 1, w, b);
    } else if i < |t| {
      ScanImproves(input, t, i + 1, words, best);
    }
  }

  /** `searchLUT` as a whole: the best match gives way only to one of more
      words, and only to a value the table offers. */
  lemma {:induction false} SearchImproves(input: string, t: Table<Node>, words: int, best: Best)
    ensures Improves(best, Search(input, t, words, best))
    ensures FromTable(best, Search(input, t, words, best), t)
    decreases t, 1, 0
  {
    ScanImproves(input, t, 0, words, best);
    var (w, b) := Scan(input, t, 0, words, best);
    match Get(t, "*")
    case None =>
    case Some(v) =>
      var k := Find(t, "*").value;
      assert t[k].key == "*" && t[k].val == v;
  }

  /** The wildcard of a table is taken last, and only when the running word
      count beats every match the loop found: the result is the loop's best
      match, or the `*` value with strictly more words. */
  lemma StarTakenLast(input: string, t: Table<Node>, words: int, best: Best)
    ensures var (w, b) := Scan(input, t, 0, words, best);
      var r := Search(input, t, words, best);
      r == b || (Get(t, "*").Some? && r.found == Get(t, "*") && r.words == w && w > b.words)
  {
  }

  /** A loop over entries none of whose words occurs leaves everything as
      it was. */
  lemma {:induction false} ScanNoWord(input: string, t: Table<Node>, i: nat, words: int, best: Best)
    requires i <= |t|
    requires forall j :: 0 <= j < |t| && t[j].key != "*" ==> RemoveWord(input, t[j].key).None?
    ensures Scan(input, t, i, words, best) == (words, best)
    decreases |t| - i
  {
    if i < |t| {
      ScanNoWord(input, t, i + 1, words, best);
    }
  }

  /** A phrase in which no word of the table occurs has no match. */
  lemma NoWordNoMatch(input: string, t: Table<Node>)
    requires forall j :: 0 <= j < |t| && t[j].key != "*" ==> RemoveWord(input, t[j].key).None?
    ensures Search(input, t, 0, Best(0, None)).found.None?
  {
    ScanNoWord(input, t, 0, 0, Best(0, None));
  }

  /** A best match of some words always holds a value. */
  predicate Sound(b: Best) {
    b.words >= 0 && (b.words > 0 ==> b.found.Some?)
  }

  /** One entry of the loop keeps the best match sound and the running
      word count non-negative. */
  lemma EntryKeepsSound(input: string, t: Table<Node>, j: nat, words: int, best: Best)
    requires j < |t| && words >= 0 && Sound(best)
    ensures var rest := RemoveWord(input, t[j].key);
      t[j].key != "*" && rest.Some? ==>
        var w := words + WordCount(t[j].key);
        var b := match t[j].val
          case Leaf(_) => if w > best.words then Best(w, Some(t[j].val)) else best
          case Branch(sub) => Search(rest.value, sub, w, best);
        w >= 1 && Sound(b) && Scan(input, t, j, words, best) == Scan(input, t, j + 1, w, b)
          && (t[j].val.Leaf? ==> b.words >= w)
    ensures t[j].key == "*" || RemoveWord(input, t[j].key).None? ==>
      Scan(input, t, j, words, best) == Scan(input, t, j + 1, words, best)
  {
    hide RemoveWord, FindWord;
    var rest := RemoveWord(input, t[j].key);
    if t[j].key != "*" && rest.Some? {
      var w := words + WordCount(t[j].key);
      match t[j].val
      case Leaf(_) =>
      case Branch(sub) => SearchImproves(rest.value, sub, w, best);
    }
  }

  /** From entry `j` on, a word of a plain entry `i` that occurs makes the
      loop end with a match. */
  lemma {:induction false} ScanFindsLeaf(input: string, t: Table<Node>, j: nat, words: int, best: Best, i: nat)
    requires j <= i < |t| && t[i].key != "*" && t[i].val.Leaf? && RemoveWord(input, t[i].key).Some?
    requires words >= 0 && Sound(best)
    ensures Scan(input, t, j, words, best).1.words > 0 && Scan(input, t, j, words, best).1.found.Some?
    decreases i - j
  {
    hide RemoveWord, Search, FindWord, Scan, WordCount;
    EntryKeepsSound(input, t, j, words, best);
    var rest := RemoveWord(input, t[j].key);
    if t[j].key != "*" && rest.Some? {
      var w := words + WordCount(t[j].key);
      var b := match t[j].val
        case Leaf(_) => if w > best.words then Best(w, Some(t[j].val)) else best
        case Branch(sub) => Search(rest.value, sub, w, best);
      if j == i {
        ScanImproves(input, t, j + 1, w, b);
      } else {
        ScanFindsLeaf(input, t, j + 1, w, b, i);
      }
    } else {
      ScanFindsLeaf(input, t, j + 1, words, best, i);
    }
  }

  /** A phrase in which the word of a plain entry occurs has a match. */
  lemma LeafWordMatches(input: string, t: Table<Node>, i: nat)
    requires i < |t| && t[i].key != "*" && t[i].val.Leaf? && RemoveWord(input, t[i].key).Some?
    ensures Search(input, t, 0, Best(0, None)).found.Some?
  {
    ScanFindsLeaf(input, t, 0, 0, Best(0, None), i);
    var (w, b) := Scan(input, t, 0, 0, Best(0, None));
    SearchImproves(input, t, 0, Best(0, None));
    assert Improves(b, Search(input, t, 0, Best(0, None)));
  }

  /** `cupToGrams` answers exactly with a value the table offers, or
      nothing; anything melted weighs 240 grams per cup. */
  lemma GramsPerCupSpec(text: string, lut: Table<Node>)
    ensures FindWord(Normalise(text), "melted").Some? ==> GramsPerCup(text, lut) == Some(Leaf(240))
    ensures FindWord(Normalise(text), "melted").None? && GramsPerCup(text, lut).Some? ==>
      Offered(GramsPerCup(text, lut).value, lut)
  {
    SearchImproves(Normalise(text), lut, 0, Best(0, None));
  }

  // ----- the intended search finds a longest match -----

  /** The entry `j` of `t`, reached after `words` matched words, leads to
      the value `v` after `n` matched words: a plain entry directly, a
      nested table through one of its own paths. */
  predicate EntryReaches(input: string, t: Table<Node>, j: nat, words: int, n: int, v: Node)
    requires j < |t|
    decreases t, 0
  {
    t[j].key != "*" && RemoveWord(input, t[j].key).Some? &&
    match t[j].val
    case Leaf(_) => n == words + WordCount(t[j].key) && v == t[j].val
    case Branch(sub) => Reaches(RemoveWord(input, t[j].key).value, sub, words + WordCount(t[j].key), n, v)
  }

  /** A path through `t`, matching its keys as whole words one after the
      other, leads to `v` after `n` matched words in all: the wildcard of
      `t`, or a path through one of its entries. */
  predicate Reaches(input: string, t: Table<Node>, words: int, n: int, v: Node)
    decreases t, 1
  {
    (Get(t, "*") == Some(v) && n == words)
    || exists j :: 0 <= j < |t| && EntryReaches(input, t, j, words, n, v)
  }

  /** The best match after the intended loop visits the matched entry `i`. */
  function IntendedTook(input: string, t: Table<Node>, i: nat, words: int, best: Best): Best
    requires i < |t| && t[i].key != "*" && RemoveWord(input, t[i].key).Some?
  {
    var w := words + WordCount(t[i].key);
    match t[i].val
    case Leaf(_) => if w > best.words then Best(w, Some(t[i].val)) else best
    case Branch(sub) => SearchIntended(RemoveWord(input, t[i].key).value, sub, w, best)
  }

  /** One entry of the intended loop: passed over when its word does not
      occur, taken otherwise, with the running count left as it was. */
  lemma ScanIntendedStep(input: string, t: Table<Node>, i: nat, words: int, best: Best)
    requires i < |t|
    ensures t[i].key == "*" || RemoveWord(input, t[i].key).None? ==>
      ScanIntended(input, t, i, words, best) == ScanIntended(input, t, i + 1, words, best)
    ensures t[i].key != "*" && RemoveWord(input, t[i].key).Some? ==>
      ScanIntended(input, t, i, words, best) == ScanIntended(input, t, i + 1, words, IntendedTook(input, t, i, words, best))
  {
  }

  /** The loop of the intended search, from entry `i` on, ends with at
      least as many words as any path through an entry from `i` on. */
  lemma {:induction false} ScanIntendedBeats(input: string, t: Table<Node>, i: nat, words: int, best: Best, j: nat, n: int, v: Node)
    requires i <= j < |t| && EntryReaches(input, t, j, words, n, v)
    ensures ScanIntended(input, t, i, words, best).words >= n
    decreases t, 0, |t| - i
  {
    hide ScanIntended, SearchIntended, RemoveWord, WordCount;
    ScanIntendedStep(input, t, i, words, best);
    if t[i].key == "*" || RemoveWord(input, t[i].key).None? {
      ScanIntendedBeats(input, t, i + 1, words, best, j, n, v);
    } else {
      var b := IntendedTook(input, t, i, words, best);
      if i == j {
        match t[i].val
        case Leaf(_) =>
        case Branch(sub) =>
          SearchIntendedBeats(RemoveWord(input, t[i].key).value, sub, words + WordCount(t[i].key), best, n, v);
      } else {
        ScanIntendedBeats(input, t, i + 1, words, b, j, n, v);
      }
    }
  }

  /** The intended search ends with at least as many words as any path
      through the table. */
  lemma {:induction false} SearchIntendedBeats(input: string, t: Table<Node>, words: int, best: Best, n: int, v: Node)
    requires Reaches(input, t, words, n, v)
    ensures SearchIntended(input, t, words, best).words >= n
    decreases t, 1
  {
    hide ScanIntended, RemoveWord, WordCount;
    if !(Get(t, "*") == Some(v) && n == words) {
      var j :| 0 <= j < |t| && EntryReaches(input, t, j, words, n, v);
      ScanIntendedBeats(input, t, 0, words, best, j, n, v);
    }
  }

  /** What the loop of the intended search returns, when it is not the
      match it started from, is the end of a path through an entry from `i`
      on. */
  lemma {:induction false} ScanIntendedSound(input: string, t: Table<Node>, i: nat, words: int, best: Best)
    requires i <= |t|
    ensures var r := ScanIntended(input, t, i, words, best);
      r == best || (r.found.Some? && exists j :: i <= j < |t| && EntryReaches(input, t, j, words, r.words, r.found.value))
    decreases t, 0, |t| - i
  {
    if i < |t| {
      hide ScanIntended, SearchIntended, RemoveWord, WordCount;
      ScanIntendedStep(input, t, i, words, best);
      if t[i].key == "*" || RemoveWord(input, t[i].key).None? {
        ScanIntendedSound(input, t, i + 1, words, best);
      } else {
        var b := IntendedTook(input, t, i, words, best);
        assert b == best || (b.found.Some? && EntryReaches(input, t, i, words, b.words, b.found.value)) by {
          match t[i].val
          case Leaf(_) =>
          case Branch(sub) =>
            SearchIntendedSound(RemoveWord(input, t[i].key).value, sub, words + WordCount(t[i].key), best);
        }
        ScanIntendedSound(input, t, i + 1, words, b);
        var r := ScanIntended(input, t, i, words, best);
        if r != best && r == b {
          assert i <= i < |t| && EntryReaches(input, t, i, words, r.words, r.found.value);
        } else if r != best {
          var j :| i + 1 <= j < |t| && EntryReaches(input, t, j, words, r.words, r.found.value);
          assert i <= j < |t|;
        }
      }
    }
  }

  /** What the intended search returns, when it is not the match it started
      from, is the end of a path through the table. */
  lemma {:induction false} SearchIntendedSound(input: string, t: Table<Node>, words: int, best: Best)
    ensures var r := SearchIntended(input, t, words, best);
      r == best || (r.found.Some? && Reaches(input, t, words, r.words, r.found.value))
    decreases t, 1
  {
    ScanIntendedSound(input, t, 0, words, best);
    hide ScanIntended, RemoveWord, WordCount;
    var b := ScanIntended(input, t, 0, words, best);
    var r := SearchIntended(input, t, words, best);
    if r != best && r == b {
      var j :| 0 <= j < |t| && EntryReaches(input, t, j, words, r.words, r.found.value);
    }
  }

  /** The search as its comment describes it: the largest combination of
      words matched wins. No path through the table matches more words than
      the returned value, and the returned value ends such a path. */
  lemma IntendedSearchLongest(input: string, lut: Table<Node>)
    ensures forall n: int, v: Node :: Reaches(input, lut, 0, n, v) ==> SearchIntended(input, lut, 0, Best(0, None)).words >= n
    ensures SearchIntended(input, lut, 0, Best(0, None)).found.Some? ==>
      Reaches(input, lut, 0, SearchIntended(input, lut, 0, Best(0, None)).words, SearchIntended(input, lut, 0, Best(0, None)).found.value)
  {
    forall n: int, v: Node | Reaches(input, lut, 0, n, v)
      ensures SearchIntended(input, lut, 0, Best(0, None)).words >= n
    {
      SearchIntendedBeats(input, lut, 0, Best(0, None), n, v);
    }
    SearchIntendedSound(input, lut, 0, Best(0, None));
  }
}
