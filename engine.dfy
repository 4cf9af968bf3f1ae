/** The scanning loop of Pygments' `RegexLexer`, driven by the Lean 3 rule table:
    a cursor and a mode stack, first-match-wins at the cursor, one token per step. */
module Engine {
  import opened Tokens
  import opened Patterns
  import opened LeanTable

  /** The mode on top of the stack, whose rules are tried. */
  function Top(stack: seq<Mode>): Mode
    requires stack != []
  {
    stack[|stack| - 1]
  }

  /** The stack after a rule's action. `'#pop'` never removes the bottom entry:
      with one entry left the stack is kept as it is. */
  function Apply(a: Action, stack: seq<Mode>): (r: seq<Mode>)
    requires stack != []
    ensures r != [] && r[0] == stack[0]
    ensures a.Stay? ==> r == stack
    ensures a.Enter? ==> r == stack + [a.mode]
    ensures a.PushSelf? ==> r == stack + [Top(stack)]
    ensures a.Pop? ==> r == if |stack| == 1 then stack else stack[..|stack| - 1]
  {
    match a
    case Stay => stack
    case Enter(m) => stack + [m]
    case PushSelf => stack + [Top(stack)]
    case Pop => if |stack| == 1 then stack else stack[..|stack| - 1]
  }

  datatype StepResult = StepResult(token: Token, pos: nat, stack: seq<Mode>)

  /** One step at `pos`: the first matching rule of the top mode emits its whole match and
      applies its action. When none matches, a newline is emitted as `Text` and the stack is
      reset to root; any other character is emitted alone as `Error`. */
  function Step(s: string, pos: nat, stack: seq<Mode>): (r: StepResult)
    requires pos < |s| && stack != []
    ensures pos < r.pos <= |s| && r.stack != []
    ensures r.token.start == pos && r.token.text == s[pos..r.pos]
  {
    match FirstMatch(Top(stack), s, pos)
    case Some((i, n)) => Fire(Table(Top(stack))[i], s, pos, n, stack)
    case None =>
      if s[pos] == '\n' then StepResult(Token(pos, Text, "\n"), pos + 1, [Root])
      else StepResult(Token(pos, Error, [s[pos]]), pos + 1, stack)
  }

  /** Rule `rule` matched `n` characters at `pos`: its token covers them, and its action
      is applied to the stack. */
  function Fire(rule: Rule, s: string, pos: nat, n: nat, stack: seq<Mode>): (r: StepResult)
    requires 1 <= n && pos + n <= |s| && stack != []
    ensures r.pos == pos + n && r.stack != []
    ensures r.token == Token(pos, rule.kind, s[pos..pos + n])
  {
    StepResult(Token(pos, rule.kind, s[pos..pos + n]), pos + n, Apply(rule.action, stack))
  }

  datatype LexResult = LexResult(tokens: seq<Token>, stack: seq<Mode>)

  /** All tokens from `pos` to the end of `s`, and the mode stack left at the end of input. */
  function Lex(s: string, pos: nat, stack: seq<Mode>): (r: LexResult)
    requires pos <= |s| && stack != []
    decreases |s| - pos
  {
    if pos == |s| then LexResult([], stack)
    else
      var st := Step(s, pos, stack);
      var rest := Lex(s, st.pos, st.stack);
      LexResult([st.token] + rest.tokens, rest.stack)
  }

  /** The whole scan of `s`, starting with the stack `[root]`. */
  function Tokenize(s: string): LexResult
  {
    Lex(s, 0, [Root])
  }

  /** `get_tokens_unprocessed`: the loop over the cursor, with the inner loop over the rules
      of the current mode; it produces what `Tokenize` specifies, and the token texts
      put together give back the input. */
  method GetTokensUnprocessed(s: string) returns (tokens: seq<Token>, stack: seq<Mode>)
    ensures LexResult(tokens, stack) == Tokenize(s)
    ensures Texts(tokens) == s
    ensures stack != [] && stack[0] == Root
  {
    var pos := 0;
    stack := [Root];
    tokens := [];
    while pos < |s|
      invariant pos <= |s| && stack != [] && stack[0] == Root
      invariant Tokenize(s) == LexResult(tokens + Lex(s, pos, stack).tokens, Lex(s, pos, stack).stack)
      invariant Texts(tokens) == s[..pos]
      decreases |s| - pos
    {
      var token, next, newStack := NextToken(s, pos, stack);
      LoopStep(s, pos, stack, tokens, token, next, newStack);
      tokens, pos, stack := tokens + [token], next, newStack;
    }
  }

  /** One pass of the loop body: try the rules of the top mode in order and act on the
      first that matches, or fall back when none does. */
  method NextToken(s: string, pos: nat, stack: seq<Mode>) returns (token: Token, next: nat, newStack: seq<Mode>)
    requires pos < |s| && stack != []
    ensures StepResult(token, next, newStack) == Step(s, pos, stack)
  {
    var rules := Table(Top(stack));
    var i := FirstRule(rules, s, pos);
    if i < |rules| {
      var n := MatchLen(rules[i].pattern, s, pos).value;
      token, next := Token(pos, rules[i].kind, s[pos..pos + n]), pos + n;
      newStack := Apply(rules[i].action, stack);
    } else if s[pos] == '\n' {
      token, next, newStack := Token(pos, Text, "\n"), pos + 1, [Root];
    } else {
      token, next, newStack := Token(pos, Error, [s[pos]]), pos + 1, stack;
    }
    FirstMatchIsScan(rules, s, pos, i);
  }

  /** The `for` loop over the rules of the current mode: the index of the first rule that
      matches at `pos`, or `|rules|` when none does. */
  method FirstRule(rules: seq<Rule>, s: string, pos: nat) returns (i: nat)
    requires pos <= |s|
    ensures i <= |rules|
    ensures forall j :: 0 <= j < i ==> MatchLen(rules[j].pattern, s, pos).None?
    ensures i < |rules| ==> MatchLen(rules[i].pattern, s, pos).Some?
  {
    i := 0;
    while i < |rules| && MatchLen(rules[i].pattern, s, pos).None?
      invariant 0 <= i <= |rules|
      invariant forall j :: 0 <= j < i ==> MatchLen(rules[j].pattern, s, pos).None?
    {
      i := i + 1;
    }
  }

  /** The rule the scan over the rules stops at is the one `FirstMatchFrom` chooses. */
  lemma FirstMatchIsScan(rules: seq<Rule>, s: string, pos: nat, i: nat)
    requires pos <= |s| && i <= |rules|
    requires forall j :: 0 <= j < i ==> MatchLen(rules[j].pattern, s, pos).None?
    requires i < |rules| ==> MatchLen(rules[i].pattern, s, pos).Some?
    ensures i < |rules| ==> FirstMatchFrom(rules, 0, s, pos) == Some((i, MatchLen(rules[i].pattern, s, pos).value))
    ensures i == |rules| ==> FirstMatchFrom(rules, 0, s, pos).None?
  {
  }

  /** One pass of the loop keeps its invariant: the tokens so far followed by the scan of
      the rest are the whole scan, and their texts are the input up to the cursor. */
  lemma LoopStep(s: string, pos: nat, stack: seq<Mode>, tokens: seq<Token>,
                 token: Token, next: nat, newStack: seq<Mode>)
    requires pos < |s| && stack != []
    requires Tokenize(s) == LexResult(tokens + Lex(s, pos, stack).tokens, Lex(s, pos, stack).stack)
    requires Texts(tokens) == s[..pos]
    requires StepResult(token, next, newStack) == Step(s, pos, stack)
    ensures next <= |s| && newStack != []
    ensures Tokenize(s) == LexResult((tokens + [token]) + Lex(s, next, newStack).tokens, Lex(s, next, newStack).stack)
    ensures Texts(tokens + [token]) == s[..next]
  {
    LexUnfold(s, pos, stack);
    AppendOne(tokens, token, Lex(s, next, newStack).tokens);
    TextsAppend(tokens, token);
    PrefixJoin(s, pos, next);
  }

  lemma AppendOne<T>(xs: seq<T>, x: T, ys: seq<T>)
    ensures xs + ([x] + ys) == (xs + [x]) + ys
  {
  }

  lemma PrefixJoin(s: string, pos: nat, next: nat)
    requires pos <= next <= |s|
    ensures s[..next] == s[..pos] + s[pos..next]
  {
  }

  /** The scan from `pos` is the token of the step at `pos` followed by the scan from
      where that step leaves the cursor and the stack. */
  lemma LexUnfold(s: string, pos: nat, stack: seq<Mode>)
    requires pos < |s| && stack != []
    ensures var st := Step(s, pos, stack);
            Lex(s, pos, stack) == LexResult([st.token] + Lex(s, st.pos, st.stack).tokens, Lex(s, st.pos, st.stack).stack)
  {
  }

  /** The scan from `pos` is a step's token followed by the scan from where the step ends. */
  lemma LexCons(s: string, pos: nat, stack: seq<Mode>, t: Token, next: nat, after: seq<Mode>)
    requires pos < |s| && stack != [] && Step(s, pos, stack) == StepResult(t, next, after)
    ensures next <= |s| && after != []
    ensures Lex(s, pos, stack) == LexResult([t] + Lex(s, next, after).tokens, Lex(s, next, after).stack)
  {
    LexUnfold(s, pos, stack);
  }

  lemma TextsAppend(ts: seq<Token>, t: Token)
    ensures Texts(ts + [t]) == Texts(ts) + t.text
  {
    if ts != [] {
      assert (ts + [t])[1..] == ts[1..] + [t];
      TextsAppend(ts[1..], t);
    }
  }
}
