/** How a `words(...)` rule with `\b` on both sides behaves on the keyword lists: it
    matches exactly when the whole `\w` run at the cursor is a listed word. */
module WordMatch {
  import opened Tokens
  import opened CharClasses
  import opened Patterns
  import opened LeanWords
  import opened Starts

  /** The `\w` run that starts at `pos`. */
  function WordAt(s: string, pos: nat): (w: string)
    requires pos <= |s|
    ensures pos + |w| <= |s| && w == s[pos..pos + |w|]
    ensures forall k :: 0 <= k < |w| ==> IsWord(w[k])
    ensures pos + |w| == |s| || !IsWord(s[pos + |w|])
  {
    s[pos..pos + RunLen(Word, s, pos)]
  }

  /** `w` is one of the words of `ws`. */
  predicate InList(w: string, ws: seq<string>)
  {
    exists i :: 0 <= i < |ws| && ws[i] == w
  }

  /** A run of class `k` characters that ends at a character outside `k`, or at the end,
      is the longest run. */
  lemma {:induction false} RunLenExact(k: Class, s: string, pos: nat, n: nat)
    requires pos + n <= |s|
    requires forall i :: pos <= i < pos + n ==> InClass(k, s[i])
    requires pos + n == |s| || !InClass(k, s[pos + n])
    ensures RunLen(k, s, pos) == n
    decreases n
  {
    if n > 0 {
      RunLenExact(k, s, pos + 1, n - 1);
    }
  }

  /** A plain word matches between two `\b`s exactly when it is the whole `\w` run at `pos`,
      with no `\w` character just before `pos`. */
  lemma PlainWordMatches(w: string, s: string, pos: nat)
    requires pos <= |s| && PlainWord(w)
    ensures WordMatches(w, true, true, s, pos) <==> IsBoundary(s, pos) && w == WordAt(s, pos)
  {
    if WordMatches(w, true, true, s, pos) {
      var e := pos + |w|;
      assert forall i :: pos <= i < e ==> s[i] == w[i - pos];
      assert IsWord(s[e - 1]);
      RunLenExact(Word, s, pos, |w|);
    }
    if IsBoundary(s, pos) && w == WordAt(s, pos) {
      var e := pos + |w|;
      assert s[e - 1] == w[|w| - 1];
    }
  }

  /** On a list of plain words, the `\b`-anchored rule finds the `\w` run at `pos` when
      the run is listed and `pos` is at a boundary, and finds nothing otherwise. */
  lemma PlainListMatch(ws: seq<string>, s: string, pos: nat)
    requires pos <= |s|
    requires forall i :: 0 <= i < |ws| ==> PlainWord(ws[i])
    ensures LongestWord(ws, true, true, s, pos).Some? <==> IsBoundary(s, pos) && InList(WordAt(s, pos), ws)
    ensures LongestWord(ws, true, true, s, pos).Some? ==> ws[LongestWord(ws, true, true, s, pos).value] == WordAt(s, pos)
  {
    var r := LongestWord(ws, true, true, s, pos);
    if r.Some? {
      PlainWordMatches(ws[r.value], s, pos);
    }
    if IsBoundary(s, pos) && InList(WordAt(s, pos), ws) {
      var i :| 0 <= i < |ws| && ws[i] == WordAt(s, pos);
      PlainWordMatches(ws[i], s, pos);
    }
  }

  /** A `\b`-anchored rule over a list of plain words matches exactly the listed,
      `\b`-delimited `\w` run. */
  lemma PlainRuleMatch(p: Pattern, s: string, pos: nat)
    requires pos <= |s| && p.Words? && p.before && p.after
    requires forall i :: 0 <= i < |ListOf(p.list)| ==> PlainWord(ListOf(p.list)[i])
    ensures MatchLen(p, s, pos).Some? <==> IsBoundary(s, pos) && InList(WordAt(s, pos), ListOf(p.list))
    ensures MatchLen(p, s, pos).Some? ==> MatchLen(p, s, pos).value == |WordAt(s, pos)|
  {
    PlainListMatch(ListOf(p.list), s, pos);
  }

  /** `noncomputable theory`, the one listed entry with a space in it, stands at `pos`
      between two `\b`s. */
  predicate NoncomputableTheoryAt(s: string, pos: nat)
    requires pos <= |s|
  {
    WordMatches("noncomputable theory", true, true, s, pos)
  }

  /** Where `noncomputable theory` stands, a plain word that starts at `pos` is at most
      13 characters long: it cannot run over the space. */
  lemma PlainWordStopsAtSpace(w: string, s: string, pos: nat)
    requires pos <= |s| && NoncomputableTheoryAt(s, pos) && PlainWord(w) && StartsWith(s, pos, w)
    ensures |w| <= 13
  {
    assert s[pos + 13] == ' ' by {
      assert s[pos..pos + 20][13] == ' ';
    }
    forall i | pos <= i < pos + |w|
      ensures IsWord(s[i])
    {
      assert s[pos..pos + |w|][i - pos] == w[i - pos];
    }
  }

  /** A list of plain words but for one entry `noncomputable theory` at index `x`: that entry
      wins over every other where it matches, and otherwise the listed `\w` run at a
      boundary is matched. */
  lemma MixedListMatch(ws: seq<string>, x: nat, s: string, pos: nat)
    requires pos <= |s| && x < |ws| && ws[x] == "noncomputable theory"
    requires forall i :: 0 <= i < |ws| && i != x ==> PlainWord(ws[i])
    ensures LongestWord(ws, true, true, s, pos).Some? <==>
              NoncomputableTheoryAt(s, pos) || (IsBoundary(s, pos) && InList(WordAt(s, pos), ws))
    ensures NoncomputableTheoryAt(s, pos) ==> ws[LongestWord(ws, true, true, s, pos).value] == ws[x]
    ensures !NoncomputableTheoryAt(s, pos) && LongestWord(ws, true, true, s, pos).Some? ==>
              ws[LongestWord(ws, true, true, s, pos).value] == WordAt(s, pos)
  {
    var r := LongestWord(ws, true, true, s, pos);
    if r.Some? && r.value != x {
      PlainWordMatches(ws[r.value], s, pos);
    }
    if IsBoundary(s, pos) && InList(WordAt(s, pos), ws) {
      var i :| 0 <= i < |ws| && ws[i] == WordAt(s, pos);
      assert ws[x] != WordAt(s, pos) by {
        assert !IsWord(ws[x][13]);
      }
      PlainWordMatches(ws[i], s, pos);
    }
    if NoncomputableTheoryAt(s, pos) {
      assert WordMatches(ws[x], true, true, s, pos);
      var w := ws[r.value];
      assert |w| >= 20;
      assert r.value == x by {
        forall i | 0 <= i < |ws| && i != x && StartsWith(s, pos, ws[i])
          ensures |ws[i]| <= 13
        {
          PlainWordStopsAtSpace(ws[i], s, pos);
        }
      }
    }
  }

  /** A `\b`-anchored rule over a list of plain words but for one entry
      `noncomputable theory`: where that entry matches it wins over `noncomputable`;
      otherwise the listed `\w` run at a boundary is matched. */
  lemma MixedRuleMatch(p: Pattern, x: nat, s: string, pos: nat)
    requires pos <= |s| && p.Words? && p.before && p.after
    requires x < |ListOf(p.list)| && ListOf(p.list)[x] == "noncomputable theory"
    requires forall i :: 0 <= i < |ListOf(p.list)| && i != x ==> PlainWord(ListOf(p.list)[i])
    ensures MatchLen(p, s, pos).Some? <==>
              NoncomputableTheoryAt(s, pos) || (IsBoundary(s, pos) && InList(WordAt(s, pos), ListOf(p.list)))
    ensures NoncomputableTheoryAt(s, pos) ==> MatchLen(p, s, pos) == Some(20)
    ensures !NoncomputableTheoryAt(s, pos) && MatchLen(p, s, pos).Some? ==> MatchLen(p, s, pos) == Some(|WordAt(s, pos)|)
  {
    MixedListMatch(ListOf(p.list), x, s, pos);
  }

  /** A command word matches, with `\b` after it, exactly when it is `#` followed by the
      whole `\w` run after the `#`. */
  lemma CommandWordMatches(w: string, s: string, pos: nat)
    requires pos <= |s| && CommandWord(w)
    ensures WordMatches(w, false, true, s, pos) <==> pos < |s| && s[pos] == '#' && w == ['#'] + WordAt(s, pos + 1)
  {
    if WordMatches(w, false, true, s, pos) {
      var e := pos + |w|;
      assert s[pos..e] == w;
      assert s[pos] == w[0];
      forall i | pos + 1 <= i < e
        ensures InClass(Word, s[i])
      {
        assert s[i] == w[i - pos] == w[1..][i - pos - 1];
      }
      assert IsWord(s[e - 1]) by {
        assert s[e - 1] == w[1..][|w| - 2];
      }
      RunLenExact(Word, s, pos + 1, |w| - 1);
      assert w == [w[0]] + w[1..];
      assert s[pos + 1..e] == w[1..];
    }
    if pos < |s| && s[pos] == '#' && w == ['#'] + WordAt(s, pos + 1) {
      var e := pos + |w|;
      assert s[pos..e] == w;
      assert w[1..] == WordAt(s, pos + 1);
      assert s[e - 1] == w[1..][|w| - 2];
    }
  }

  /** On a list of command words, the rule finds `#` and the `\w` run after it when that is
      listed, and nothing otherwise. */
  lemma CommandListMatch(ws: seq<string>, s: string, pos: nat)
    requires pos <= |s|
    requires forall i :: 0 <= i < |ws| ==> CommandWord(ws[i])
    ensures LongestWord(ws, false, true, s, pos).Some? <==>
              pos < |s| && s[pos] == '#' && InList(['#'] + WordAt(s, pos + 1), ws)
    ensures LongestWord(ws, false, true, s, pos).Some? ==>
              ws[LongestWord(ws, false, true, s, pos).value] == ['#'] + WordAt(s, pos + 1)
  {
    var r := LongestWord(ws, false, true, s, pos);
    if r.Some? {
      CommandWordMatches(ws[r.value], s, pos);
    }
    if pos < |s| && s[pos] == '#' && InList(['#'] + WordAt(s, pos + 1), ws) {
      var i :| 0 <= i < |ws| && ws[i] == ['#'] + WordAt(s, pos + 1);
      CommandWordMatches(ws[i], s, pos);
    }
  }

  /** The command rule matches `#` and the `\w` run after it, when that is a listed command. */
  lemma CommandRuleMatch(p: Pattern, s: string, pos: nat)
    requires pos <= |s| && p.Words? && !p.before && p.after
    requires forall i :: 0 <= i < |ListOf(p.list)| ==> CommandWord(ListOf(p.list)[i])
    ensures MatchLen(p, s, pos).Some? <==>
              pos < |s| && s[pos] == '#' && InList(['#'] + WordAt(s, pos + 1), ListOf(p.list))
    ensures MatchLen(p, s, pos).Some? ==> MatchLen(p, s, pos).value == 1 + |WordAt(s, pos + 1)|
  {
    CommandListMatch(ListOf(p.list), s, pos);
  }

  /** An operator is `:=` where `:=` stands, and otherwise the single character. */
  function OperatorLen(s: string, pos: nat): (n: nat)
    ensures n == 1 || n == 2
  {
    if StartsWith(s, pos, ":=") then 2 else 1
  }

  /** On a list of one-character operators and `:=`, the longest match at a listed character
      is `:=` where it stands and the character otherwise. */
  lemma OperatorListMatch(ws: seq<string>, x: nat, s: string, pos: nat)
    requires pos < |s| && x < |ws| && ws[x] == ":="
    requires forall i :: 0 <= i < |ws| && i != x ==> |ws[i]| == 1
    requires exists i :: 0 <= i < |ws| && ws[i] == [s[pos]]
    ensures var r := LongestWord(ws, false, false, s, pos);
            r.Some? && |ws[r.value]| == OperatorLen(s, pos)
  {
    var j :| 0 <= j < |ws| && ws[j] == [s[pos]];
    assert WordMatches(ws[j], false, false, s, pos);
    if StartsWith(s, pos, ":=") {
      assert WordMatches(ws[x], false, false, s, pos);
    }
  }

  /** The operator rule matches `:=` where it stands, and otherwise one listed character. */
  lemma OperatorRuleMatch(p: Pattern, x: nat, s: string, pos: nat)
    requires pos < |s| && p.Words? && !p.before && !p.after
    requires x < |ListOf(p.list)| && ListOf(p.list)[x] == ":="
    requires forall i :: 0 <= i < |ListOf(p.list)| && i != x ==> |ListOf(p.list)[i]| == 1
    requires exists i :: 0 <= i < |ListOf(p.list)| && ListOf(p.list)[i] == [s[pos]]
    ensures MatchLen(p, s, pos) == Some(OperatorLen(s, pos))
  {
    OperatorListMatch(ListOf(p.list), x, s, pos);
  }

  /** The `\w` run at `pos` is a word of list `l`, and a `\b` stands before it. */
  predicate Listed(s: string, pos: nat, l: WordList)
    requires pos <= |s|
  {
    IsBoundary(s, pos) && InList(WordAt(s, pos), ListOf(l))
  }

  /** A list whose words all start with a letter holds no `\w` run that starts with
      anything else. */
  lemma UnlistedFromStart(ws: seq<string>, s: string, pos: nat)
    requires pos < |s| && !IsAsciiLetter(s[pos])
    requires forall i :: 0 <= i < |ws| ==> ws[i] != [] && IsAsciiLetter(ws[i][0])
    ensures !InList(WordAt(s, pos), ws)
  {
    var w := WordAt(s, pos);
    assert w != [] ==> w[0] == s[pos];
  }

  /** None of the four keyword lists matches at a character that is not an ASCII letter. */
  lemma UnlistedUnlessLetter(s: string, pos: nat)
    requires pos < |s| && !IsAsciiLetter(s[pos])
    ensures !Listed(s, pos, Namespaces) && !Listed(s, pos, Declarations)
    ensures !Listed(s, pos, Keywords) && !Listed(s, pos, Sorts)
    ensures !NoncomputableTheoryAt(s, pos)
  {
    ListStarts(Namespaces);
    UnlistedFromStart(ListOf(Namespaces), s, pos);
    ListStarts(Declarations);
    UnlistedFromStart(ListOf(Declarations), s, pos);
    ListStarts(Keywords);
    UnlistedFromStart(ListOf(Keywords), s, pos);
    ListStarts(Sorts);
    UnlistedFromStart(ListOf(Sorts), s, pos);
    assert pos + 20 <= |s| ==> s[pos..pos + 20][0] == s[pos];
  }
}
