/** lib/data/cup-to-grams.ts, second half: normalising an ingredient
    phrase and searching the lookup table for the best match. */
module CupSearch {
  import opened Wrappers
  import opened Strings
  import opened Assoc
  import opened RegExp
  import opened CupData
  import opened CupLUT

  // ----- extractWords -----

  /** The end of the run of whitespace that starts at `i`. */
  function SpaceRunEnd(s: string, i: nat): (j: nat)
    requires i <= |s|
    decreases |s| - i
    ensures i <= j <= |s| && (j < |s| ==> !IsJsSpace(s[j]))
    ensures forall m :: i <= m < j ==> IsJsSpace(s[m])
  {
    if i < |s| && IsJsSpace(s[i]) then SpaceRunEnd(s, i + 1) else i
  }

  /** The first whitespace character at or after `i`, or `|s|`. */
  function NextSpace(s: string, i: nat): (j: nat)
    requires i <= |s|
    decreases |s| - i
    ensures i <= j <= |s| && (j < |s| ==> IsJsSpace(s[j]))
    ensures forall m :: i <= m < j ==> !IsJsSpace(s[m])
  {
    if i == |s| || IsJsSpace(s[i]) then i else NextSpace(s, i + 1)
  }

  /** `s.split(/\s+/)`: the pieces between maximal runs of whitespace; a
      leading or trailing run gives an empty first or last piece. */
  function SplitSpaces(s: string): (r: seq<string>)
    decreases |s|
    ensures |r| > 0
    ensures forall k :: 0 <= k < |r| ==> NoSpace(r[k])
  {
    var i := NextSpace(s, 0);
    if i == |s| then [s]
    else [s[..i]] + SplitSpaces(s[SpaceRunEnd(s, i)..])
  }

  /** Splitting words glued with single spaces gives them back, when none is
      empty or holds whitespace. */
  lemma {:induction false} SplitSpacesJoin(ws: seq<string>)
    requires |ws| > 0
    requires forall k :: 0 <= k < |ws| ==> |ws[k]| > 0 && NoSpace(ws[k])
    ensures SplitSpaces(Join(ws, " ")) == ws
  {
    var s := Join(ws, " ");
    var w := ws[0];
    assert NextSpace(s, 0) == |w| by { NextSpaceWord(s, w); }
    if |ws| > 1 {
      var rest := Join(ws[1..], " ");
      assert s == w + " " + rest;
      assert s[..|w|] == w;
      assert rest[0] == ws[1][0] by { JoinHead(ws[1..], " "); }
      assert SpaceRunEnd(s, |w|) == |w| + 1 by {
        assert s[|w|] == ' ' && s[|w| + 1] == rest[0];
      }
      assert s[|w| + 1..] == rest;
      SplitSpacesJoin(ws[1..]);
    }
  }

  lemma NextSpaceWord(s: string, w: string)
    requires |w| <= |s| && s[..|w|] == w && NoSpace(w)
    requires |w| < |s| ==> s[|w|] == ' '
    ensures NextSpace(s, 0) == |w|
  {
    assert forall m :: 0 <= m < |w| ==> s[m] == w[m];
  }

  lemma JoinHead(ws: seq<string>, sep: string)
    requires |ws| > 0 && |ws[0]| > 0
    ensures |Join(ws, sep)| > 0 && Join(ws, sep)[0] == ws[0][0]
  {
  }

  /** `s.replace(/[^a-z]/g, '')`: the characters a to z of a word, in order. */
  function KeepLower(w: string): (r: string)
    ensures |r| <= |w|
    ensures forall c :: c in r <==> c in w && IsLower(c)
  {
    if |w| == 0 then []
    else
      var rest := KeepLower(w[1..]);
      assert forall c :: c in w <==> c == w[0] || c in w[1..];
      if IsLower(w[0]) then [w[0]] + rest else rest
  }

  /** A word of the letters a to z only is kept as it is. */
  lemma {:induction false} KeepLowerPlain(w: string)
    requires forall i :: 0 <= i < |w| ==> IsLower(w[i])
    ensures KeepLower(w) == w
  {
    if |w| > 0 {
      KeepLowerPlain(w[1..]);
      assert [w[0]] + w[1..] == w;
    }
  }

  function KeepLowerAll(ws: seq<string>): (r: seq<string>)
    ensures |r| == |ws| && forall k :: 0 <= k < |ws| ==> r[k] == KeepLower(ws[k])
  {
    if |ws| == 0 then [] else [KeepLower(ws[0])] + KeepLowerAll(ws[1..])
  }

  /** `extractWords(text)`. `toLowerCase` runs after everything but a to z
      has been removed, so it changes nothing and is left implicit: upper-case
      letters are dropped, not lowered. */
  function ExtractWords(text: string): seq<string> {
    KeepLowerAll(SplitSpaces(text))
  }

  /** `extractWords(text).join(' ')`, the normalised ingredient phrase. */
  function Normalise(text: string): string {
    Join(ExtractWords(text), " ")
  }

  predicate LowerOrSpace(c: char) { IsLower(c) || c == ' ' }

  /** A normalised phrase holds only the letters a to z and spaces. */
  lemma NormaliseAlphabet(text: string)
    ensures forall i :: 0 <= i < |Normalise(text)| ==> LowerOrSpace(Normalise(text)[i])
  {
    var ws := ExtractWords(text);
    forall k | 0 <= k < |ws| ensures forall i :: 0 <= i < |ws[k]| ==> LowerOrSpace(ws[k][i]) {
      forall i | 0 <= i < |ws[k]| ensures LowerOrSpace(ws[k][i]) {
        assert ws[k][i] in KeepLower(SplitSpaces(text)[k]);
      }
    }
    JoinAlphabet(ws);
  }

  lemma {:induction false} JoinAlphabet(ws: seq<string>)
    requires forall k :: 0 <= k < |ws| ==> forall i :: 0 <= i < |ws[k]| ==> LowerOrSpace(ws[k][i])
    ensures forall i :: 0 <= i < |Join(ws, " ")| ==> LowerOrSpace(Join(ws, " ")[i])
  {
    if |ws| > 1 {
      JoinAlphabet(ws[1..]);
      var s := Join(ws, " ");
      var rest := Join(ws[1..], " ");
      assert s == ws[0] + " " + rest;
      forall i | 0 <= i < |s| ensures LowerOrSpace(s[i]) {
        if i < |ws[0]| {
          assert s[i] == ws[0][i];
        } else if i > |ws[0]| {
          assert s[i] == rest[i - |ws[0]| - 1];
        }
      }
    }
  }

  /** A phrase already in normal form, lower-case words joined by single
      spaces, is left unchanged. */
  lemma NormaliseCanonical(ws: seq<string>)
    requires |ws| > 0
    requires forall k :: 0 <= k < |ws| ==> |ws[k]| > 0 && forall i :: 0 <= i < |ws[k]| ==> IsLower(ws[k][i])
    ensures Normalise(Join(ws, " ")) == Join(ws, " ")
  {
    forall k | 0 <= k < |ws| ensures NoSpace(ws[k]) {
      forall i | 0 <= i < |ws[k]| ensures !IsJsSpace(ws[k][i]) { assert IsLower(ws[k][i]); }
    }
    SplitSpacesJoin(ws);
    forall k | 0 <= k < |ws| ensures KeepLower(ws[k]) == ws[k] { KeepLowerPlain(ws[k]); }
    assert KeepLowerAll(ws) == ws;
  }

  // ----- removeWord and wordCount -----

  predicate WordCharAt(s: string, p: int) {
    0 <= p < |s| && IsWordChar(s[p])
  }

  /** `\b` at position `p`: a word character on exactly one side. */
  predicate Boundary(s: string, p: int) {
    WordCharAt(s, p - 1) != WordCharAt(s, p)
  }

  /** `lit` occurs at `i` of `s` between two `\b` boundaries. */
  predicate WordAt(s: string, lit: string, i: nat) {
    OccursAt(s, lit, i) && Boundary(s, i) && Boundary(s, i + |lit|)
  }

  /** The leftmost match of `\b lit \b` at or after `from`. */
  function FindWord(s: string, lit: string, from: nat := 0): (r: Option<nat>)
    decreases |s| - from
    ensures r.Some? ==> from <= r.value && WordAt(s, lit, r.value)
    ensures r.Some? ==> forall m :: from <= m < r.value ==> !WordAt(s, lit, m)
    ensures r.None? ==> forall m :: from <= m ==> !WordAt(s, lit, m)
  {
    if from + |lit| > |s| then None
    else if WordAt(s, lit, from) then Some(from)
    else FindWord(s, lit, from + 1)
  }

  /** `removeWord(input, word)`: the input without the leftmost whole-word
      occurrence of `word`, or `None` when there is none. The regular
      expression is built from `escape(word)`, which matches `EscapedText(word)`. */
  function RemoveWord(input: string, word: string): Option<string> {
    var lit := EscapedText(word);
    match FindWord(input, lit)
    case None => None
    case Some(i) => Some(input[..i] + input[i + |lit|..])
  }

  /** The word is gone when it does not occur; otherwise its leftmost
      whole-word occurrence is cut out and nothing else. */
  lemma RemoveWordSpec(input: string, word: string)
    ensures RemoveWord(input, word).None? ==> forall m: nat :: !WordAt(input, EscapedText(word), m)
    ensures RemoveWord(input, word).Some? ==> |RemoveWord(input, word).value| == |input| - |EscapedText(word)|
    ensures RemoveWord(input, word).Some? ==> exists i: nat ::
      (WordAt(input, EscapedText(word), i)
       && (forall m: nat :: m < i ==> !WordAt(input, EscapedText(word), m))
       && RemoveWord(input, word).value == input[..i] + input[i + |EscapedText(word)|..])
  {
    var lit := EscapedText(word);
    match FindWord(input, lit)
    case None =>
    case Some(i) =>
      assert WordAt(input, lit, i);
  }

  /** What was removed can be put back where it was. */
  lemma RemoveWordRestores(input: string, word: string)
    requires RemoveWord(input, word).Some?
    ensures exists i: nat ::
      (i <= |RemoveWord(input, word).value|
       && RemoveWord(input, word).value[..i] + EscapedText(word) + RemoveWord(input, word).value[i..] == input)
  {
    var lit := EscapedText(word);
    var i := FindWord(input, lit).value;
    var r := RemoveWord(input, word).value;
    assert r == input[..i] + input[i + |lit|..];
    assert r[..i] == input[..i] && r[i..] == input[i + |lit|..];
    assert input[i..i + |lit|] == lit;
    assert input == input[..i] + input[i..i + |lit|] + input[i + |lit|..];
    assert r[..i] + lit + r[i..] == input;
  }

  /** `wordCount(string)`: `*` counts 0 words, any other key its spaces
      plus one. */
  function WordCount(key: string): (n: nat)
    ensures key == "*" ==> n == 0
    ensures key != "*" ==> n == CountOf(key, ' ') + 1 && n >= 1
  {
    if key == "*" then 0
    else
      SplitOnLength(key, ' ');
      |SplitOn(key, ' ')|
  }

  // ----- searchLUT -----

  /** `bestMatch`: the word count of the best match so far and its value. */
  datatype Best = Best(words: int, found: Option<Node>)

  /** The `for` loop of `searchLUT(input, t, words)` from the entry at `i`
      on: the running word count, which is carried from one matched entry to
      the next, and the best match after the loop. */
  function Scan(input: string, t: Table<Node>, i: nat, words: int, best: Best): (int, Best)
    requires i <= |t|
    decreases t, 0, |t| - i
  {
    if i == |t| then (words, best)
    else if t[i].key == "*" then Scan(input, t, i + 1, words, best)
    else match RemoveWord(input, t[i].key)
      case None => Scan(input, t, i + 1, words, best)
      case Some(rest) =>
        var w := words + WordCount(t[i].key);
        var b := match t[i].val
          case Leaf(_) => if w > best.words then Best(w, Some(t[i].val)) else best
          case Branch(sub) => Search(rest, sub, w, best);
        Scan(input, t, i + 1, w, b)
  }

  /** `searchLUT(input, t, words)`: the loop, then the wildcard `*`. */
  function Search(input: string, t: Table<Node>, words: int, best: Best): Best
    decreases t, 1, 0
  {
    var (w, b) := Scan(input, t, 0, words, best);
    match Get(t, "*")
    case Some(v) => if w > b.words then Best(w, Some(v)) else b
    case None => b
  }

  /** `searchLUT`, with the closure variable `bestMatch` passed in and out. */
  method SearchLUT(input: string, t: Table<Node>, words0: int, best0: Best) returns (best: Best)
    decreases t, 1
    ensures best == Search(input, t, words0, best0)
  {
    var words := words0;
    best := best0;
    var i := 0;
    while i < |t|
      invariant i <= |t|
      invariant Scan(input, t, i, words, best) == Scan(input, t, 0, words0, best0)
    {
      words, best := VisitEntry(input, t, i, words, best);
      i := i + 1;
    }
    var star := Get(t, "*");
    if star.Some? && words > best.words {
      best := Best(words, star);
    }
  }

  /** One turn of the loop of `searchLUT`, at the entry `i`. */
  method VisitEntry(input: string, t: Table<Node>, i: nat, words0: int, best0: Best) returns (words: int, best: Best)
    requires i < |t|
    decreases t, 0
    ensures Scan(input, t, i + 1, words, best) == Scan(input, t, i, words0, best0)
  {
    words, best := words0, best0;
    var k := t[i].key;
    if k != "*" {
      var newInput := RemoveWord(input, k);
      if newInput.Some? {
        words := words + WordCount(k);
        match t[i].val
        case Leaf(_) =>
          if words > best.words {
            best := Best(words, Some(t[i].val));
          }
        case Branch(sub) =>
          best := SearchLUT(newInput.value, sub, words, best);
      }
    }
  }

  // ----- cupToGrams -----

  /** `cupToGrams(text)` over the table `lut`, which stands for `cupLUT`,
      that is `CupLUTOf(CupConversions, plural)`. */
  function GramsPerCup(text: string, lut: Table<Node>): Option<Node> {
    var s := Normalise(text);
    if FindWord(s, "melted").Some? then Some(Leaf(LIQUID))
    else Search(s, lut, 0, Best(0, None)).found
  }

  method CupToGrams(text: string, lut: Table<Node>) returns (r: Option<Node>)
    ensures r == GramsPerCup(text, lut)
  {
    var s := Normalise(text);
    if FindWord(s, "melted").Some? {
      return Some(Leaf(LIQUID));
    }
    var best := SearchLUT(s, lut, 0, Best(0, None));
    r := best.found;
  }

  // ----- the search its comment describes -----

  /** The loop of `searchLUT` as its comment means it ("the largest
      combination of words matched is considered the winner"): each matched
      entry counts its own words on top of those of the path that led to
      this table, and no entry's words are carried to its later siblings. */
  function ScanIntended(input: string, t: Table<Node>, i: nat, words: int, best: Best): (r: Best)
    requires i <= |t|
    decreases t, 0, |t| - i
    ensures r == best || (r.words > best.words && r.found.Some?)
  {
    if i == |t| then best
    else if t[i].key == "*" then ScanIntended(input, t, i + 1, words, best)
    else match RemoveWord(input, t[i].key)
      case None => ScanIntended(input, t, i + 1, words, best)
      case Some(rest) =>
        var w := words + WordCount(t[i].key);
        var b := match t[i].val
          case Leaf(_) => if w > best.words then Best(w, Some(t[i].val)) else best
          case Branch(sub) => SearchIntended(rest, sub, w, best);
        ScanIntended(input, t, i + 1, words, b)
  }

  /** `searchLUT` with the intended count: the loop, then the wildcard with
      the words of the path to this table. */
  function SearchIntended(input: string, t: Table<Node>, words: int, best: Best): (r: Best)
    decreases t, 1, 0
    ensures r == best || (r.words > best.words && r.found.Some?)
  {
    var b := ScanIntended(input, t, 0, words, best);
    match Get(t, "*")
    case Some(v) => if words > b.words then Best(words, Some(v)) else b
    case None => b
  }
}
