/** lib/util/regexp.ts: building the source text of a regular-expression
    alternation from a list of words. */
module RegExp {
  import opened Strings

  /** The characters of the class in `escape`'s pattern:
      `. * + ? ^ = ! : $ { } ( ) | [ ] / \` */
  predicate IsMeta(c: char) {
    c == '.' || c == '*' || c == '+' || c == '?' || c == '^' || c == '=' || c == '!' || c == ':'
    || c == '$' || c == '{' || c == '}' || c == '(' || c == ')' || c == '|' || c == '[' || c == ']'
    || c == '/' || c == '\\'
  }

  predicate MetaFree(s: string) { forall i :: 0 <= i < |s| ==> !IsMeta(s[i]) }

  /** What `escape` puts in place of a metacharacter. The replacement
      template is `\$1`, but the pattern has no capturing group, so `$1` is
      not substituted and the three characters `\`, `$`, `1` appear instead of
      the escaped character. */
  const MetaReplacement: string := "\\$1"

  function CountMeta(s: string): nat {
    if |s| == 0 then 0 else (if IsMeta(s[0]) then 1 else 0) + CountMeta(s[1..])
  }

  /** `escape(string)` */
  function Escape(s: string): (r: string)
    ensures |r| == |s| + 2 * CountMeta(s)
  {
    if |s| == 0 then []
    else (if IsMeta(s[0]) then MetaReplacement else [s[0]]) + Escape(s[1..])
  }

  /** Escaping leaves a string alone exactly when it has no metacharacter. */
  lemma {:induction false} EscapeIdentity(s: string)
    ensures Escape(s) == s <==> MetaFree(s)
  {
    if |s| > 0 {
      EscapeIdentity(s[1..]);
      CountMetaZero(s);
      if MetaFree(s) {
        assert MetaFree(s[1..]) by {
          forall i | 0 <= i < |s| - 1 ensures !IsMeta(s[1..][i]) { assert s[1..][i] == s[i + 1]; }
        }
      }
    }
  }

  lemma {:induction false} CountMetaZero(s: string)
    ensures CountMeta(s) == 0 <==> MetaFree(s)
  {
    if |s| > 0 {
      CountMetaZero(s[1..]);
      if MetaFree(s[1..]) && !IsMeta(s[0]) {
        forall i | 0 <= i < |s| ensures !IsMeta(s[i]) {
          if i > 0 { assert s[i] == s[1..][i - 1]; }
        }
      }
      if MetaFree(s) {
        forall i | 0 <= i < |s| - 1 ensures !IsMeta(s[1..][i]) { assert s[1..][i] == s[i + 1]; }
      }
    }
  }

  /** Escaping distributes over concatenation: each character is treated on
      its own. */
  lemma {:induction false} EscapeAppend(a: string, b: string)
    ensures Escape(a + b) == Escape(a) + Escape(b)
  {
    if |a| > 0 {
      assert (a + b)[0] == a[0];
      assert (a + b)[1..] == a[1..] + b;
      EscapeAppend(a[1..], b);
      var h := if IsMeta(a[0]) then MetaReplacement else [a[0]];
      calc {
        Escape(a + b);
        h + Escape(a[1..] + b);
        h + (Escape(a[1..]) + Escape(b));
        (h + Escape(a[1..])) + Escape(b);
        Escape(a) + Escape(b);
      }
    } else {
      assert a + b == b;
    }
  }

  lemma EscapeExample()
    ensures Escape("a.b") == "a\\$1b"
  {
    assert !IsMeta('a') && IsMeta('.') && !IsMeta('b');
    assert Escape("b") == "b";
    assert ".b"[1..] == "b";
    assert Escape(".b") == MetaReplacement + "b";
    assert "a.b"[1..] == ".b";
    assert Escape("a.b") == "a" + Escape(".b");
  }

  /** The text that a regular expression whose source is `Escape(s)`
      matches: in the source `\$1` the dollar sign is escaped and `1` is a
      plain character, so each metacharacter of `s` stands for the two
      characters `$1`; every other character stands for itself. */
  function EscapedText(s: string): (r: string)
    ensures |r| == |s| + CountMeta(s)
  {
    if |s| == 0 then [] else (if IsMeta(s[0]) then "$1" else [s[0]]) + EscapedText(s[1..])
  }

  /** A word without metacharacters is matched as written. */
  lemma {:induction false} EscapedTextPlain(s: string)
    requires MetaFree(s)
    ensures EscapedText(s) == s
  {
    if |s| > 0 {
      assert MetaFree(s[1..]) by {
        forall i | 0 <= i < |s| - 1 ensures !IsMeta(s[1..][i]) { assert s[1..][i] == s[i + 1]; }
      }
      EscapedTextPlain(s[1..]);
      assert !IsMeta(s[0]);
      assert [s[0]] + s[1..] == s;
    }
  }

  function EscapeAll(ws: seq<string>): (r: seq<string>)
    ensures |r| == |ws| && forall k :: 0 <= k < |ws| ==> r[k] == Escape(ws[k])
  {
    if |ws| == 0 then [] else [Escape(ws[0])] + EscapeAll(ws[1..])
  }

  /** `buildAlternationRaw(words)`: a non-capturing group of the escaped
      words in the given order, separated by `|`. */
  function BuildAlternationRaw(ws: seq<string>): (r: string)
    ensures |r| >= 4 && r[..3] == "(?:" && r[|r| - 1] == ')'
  {
    "(?:" + Join(EscapeAll(ws), "|") + ")"
  }

  /** The inside of the group splits back into the words, in their order, so
      a regular-expression engine meets them in list order and the first
      listed word that matches wins. */
  lemma {:induction false} AlternationRoundTrip(ws: seq<string>)
    requires |ws| > 0
    requires forall k :: 0 <= k < |ws| ==> MetaFree(ws[k])
    ensures var r := BuildAlternationRaw(ws); SplitOn(r[3..|r| - 1], '|') == ws
  {
    var es := EscapeAll(ws);
    forall k | 0 <= k < |ws| ensures es[k] == ws[k] { EscapeIdentity(ws[k]); }
    assert es == ws;
    var r := BuildAlternationRaw(ws);
    assert r[3..|r| - 1] == Join(ws, "|");
    assert forall k :: 0 <= k < |ws| ==> '|' !in ws[k];
    SplitJoin(ws, '|');
  }
}
