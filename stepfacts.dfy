/** Generic facts about one step of the scan: which rule fires, and how a rule is ruled out
    by the character under the cursor. */
module StepFacts {
  import opened Tokens
  import opened Patterns
  import opened LeanTable
  import opened Starts
  import opened Engine

  /** No rule of `m` before rule `k` matches at `pos`. */
  predicate NoneBefore(m: Mode, s: string, pos: nat, k: nat)
    requires pos <= |s| && k <= |Table(m)|
  {
    forall j :: 0 <= j < k ==> MatchLen(Table(m)[j].pattern, s, pos).None?
  }

  /** First match wins: when every earlier rule of the top mode fails and rule `k` matches
      `n` characters, the step fires rule `k`. */
  lemma RuleWins(s: string, pos: nat, stack: seq<Mode>, k: nat, n: nat)
    requires pos < |s| && stack != [] && k < |Table(Top(stack))|
    requires NoneBefore(Top(stack), s, pos, k)
    requires MatchLen(Table(Top(stack))[k].pattern, s, pos) == Some(n)
    ensures FirstMatch(Top(stack), s, pos) == Some((k, n))
    ensures Step(s, pos, stack) == Fire(Table(Top(stack))[k], s, pos, n, stack)
  {
    var r := FirstMatch(Top(stack), s, pos);
    assert r.Some?;
    assert r.value.0 == k;
  }

  /** The same, for a rule of mode `m` with token type `kind` that leaves the stack as it
      is: the step emits the matched text as one `kind` token. */
  lemma RuleStays(s: string, pos: nat, stack: seq<Mode>, m: Mode, k: nat, n: nat, kind: TokenType)
    requires pos < |s| && stack != [] && Top(stack) == m && k < |Table(m)|
    requires NoneBefore(m, s, pos, k) && Table(m)[k].kind == kind && Table(m)[k].action == Stay
    requires MatchLen(Table(m)[k].pattern, s, pos) == Some(n)
    ensures pos + n <= |s|
    ensures Step(s, pos, stack) == StepResult(Token(pos, kind, s[pos..pos + n]), pos + n, stack)
  {
    RuleWins(s, pos, stack, k, n);
  }

  /** A rule whose pattern cannot start with the character under the cursor fails there. */
  lemma RuleSkipped(m: Mode, j: nat, s: string, pos: nat)
    requires j < |Table(m)| && pos < |s| && !CanStart(Table(m)[j].pattern, s[pos])
    ensures MatchLen(Table(m)[j].pattern, s, pos).None?
  {
    TableValid(m, j);
    MatchNeedsStart(Table(m)[j].pattern, s, pos);
  }

  /** One more failing rule extends the run of failing rules. */
  lemma NoneBeforeNext(m: Mode, s: string, pos: nat, k: nat)
    requires pos <= |s| && k < |Table(m)| && NoneBefore(m, s, pos, k)
    requires MatchLen(Table(m)[k].pattern, s, pos).None?
    ensures NoneBefore(m, s, pos, k + 1)
  {
  }
}
