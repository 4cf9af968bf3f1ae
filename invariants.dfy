/** Properties of the whole scan: which stacks it reaches, that it can only fail at a bad
    string escape, that its tokens tile the input, and how comments and doc comments end. */
module Invariants {
  import opened Tokens
  import opened CharClasses
  import opened Patterns
  import opened LeanTable
  import opened Engine
  import opened StepFacts
  import opened ModeSteps

  /** The actions the rules of mode `m` take: root enters one of the other three modes,
      a comment pushes itself or pops, a doc comment and a string only pop. */
  predicate ActionFits(m: Mode, a: Action)
  {
    match m
    case Root => a.Stay? || a == Enter(DocstringMode) || a == Enter(CommentMode) || a == Enter(StringMode)
    case CommentMode => a.Stay? || a.PushSelf? || a.Pop?
    case DocstringMode => a.Stay? || a.Pop?
    case StringMode => a.Stay? || a.Pop?
  }

  lemma TableActions(m: Mode, i: nat)
    requires i < |Table(m)|
    ensures ActionFits(m, Table(m)[i].action)
    ensures Table(m)[i].kind != Error
  {
  }

  /** The stack `[root]` with `d` block comments open on top of it. */
  function CommentStack(d: nat): (r: seq<Mode>)
    ensures |r| == d + 1 && r[0] == Root
    ensures forall i :: 1 <= i < |r| ==> r[i] == CommentMode
  {
    if d == 0 then [Root] else CommentStack(d - 1) + [CommentMode]
  }

  /** The stacks the scan can reach from `[root]`. */
  predicate WellFormed(stack: seq<Mode>)
  {
    || stack == [Root, DocstringMode]
    || stack == [Root, StringMode]
    || (stack != [] && stack[0] == Root && forall i :: 1 <= i < |stack| ==> stack[i] == CommentMode)
  }

  lemma CommentStackTop(d: nat)
    ensures Top(CommentStack(d)) == if d == 0 then Root else CommentMode
    ensures d > 0 ==> Popped(CommentStack(d)) == CommentStack(d - 1)
    ensures CommentStack(d) + [CommentMode] == CommentStack(d + 1)
  {
  }

  /** One step keeps the stack among the reachable ones. */
  lemma StepKeepsWellFormed(s: string, pos: nat, stack: seq<Mode>)
    requires pos < |s| && WellFormed(stack)
    ensures WellFormed(Step(s, pos, stack).stack)
  {
    var m := Top(stack);
    match FirstMatch(m, s, pos)
    case Some((i, n)) =>
      TableActions(m, i);
      var a := Table(m)[i].action;
      var next := Apply(a, stack);
      assert Step(s, pos, stack).stack == next;
      if stack != [Root, DocstringMode] && stack != [Root, StringMode] && |stack| == 1 {
        assert stack == [Root];
      }
    case None =>
      NoMatchIff(m, s, pos);
  }

  /** The whole scan from a reachable stack ends at a reachable stack. */
  lemma {:induction false} LexKeepsWellFormed(s: string, pos: nat, stack: seq<Mode>)
    requires pos <= |s| && WellFormed(stack)
    ensures WellFormed(Lex(s, pos, stack).stack)
    decreases |s| - pos
  {
    if pos < |s| {
      StepKeepsWellFormed(s, pos, stack);
      var st := Step(s, pos, stack);
      LexKeepsWellFormed(s, st.pos, st.stack);
    }
  }

  /** Scanning any input ends in one of the reachable stacks. */
  lemma TokenizeWellFormed(s: string)
    ensures WellFormed(Tokenize(s).stack)
  {
    LexKeepsWellFormed(s, 0, [Root]);
  }

  /** A step emits an `Error` token exactly at a backslash in a string that begins no escape,
      and then the token is that backslash and the stack is unchanged. The newline fallback,
      which resets the stack to root, never fires: some rule always matches a newline. */
  lemma StepError(s: string, pos: nat, stack: seq<Mode>)
    requires pos < |s| && stack != []
    ensures Step(s, pos, stack).token.kind == Error <==>
              Top(stack) == StringMode && s[pos] == '\\' && !(pos + 1 < |s| && InClass(StringEscapable, s[pos + 1]))
    ensures Step(s, pos, stack).token.kind == Error ==>
              Step(s, pos, stack).token.text == "\\" && Step(s, pos, stack).stack == stack
    ensures FirstMatch(Top(stack), s, pos).None? ==> s[pos] != '\n'
  {
    var m := Top(stack);
    NoMatchIff(m, s, pos);
    match FirstMatch(m, s, pos)
    case Some((i, n)) =>
      TableActions(m, i);
    case None =>
  }

  /** Every `Error` token of a scan is a lone backslash. */
  lemma {:induction false} LexErrors(s: string, pos: nat, stack: seq<Mode>)
    requires pos <= |s| && stack != []
    ensures forall i :: 0 <= i < |Lex(s, pos, stack).tokens| && Lex(s, pos, stack).tokens[i].kind == Error ==>
              Lex(s, pos, stack).tokens[i].text == "\\"
    decreases |s| - pos
  {
    if pos < |s| {
      var st := Step(s, pos, stack);
      StepError(s, pos, stack);
      LexErrors(s, st.pos, st.stack);
      var ts := Lex(s, pos, stack).tokens;
      assert ts == [st.token] + Lex(s, st.pos, st.stack).tokens;
      forall i | 0 <= i < |ts| && ts[i].kind == Error
        ensures ts[i].text == "\\"
      {
        if i > 0 {
          assert ts[i] == Lex(s, st.pos, st.stack).tokens[i - 1];
        }
      }
    }
  }

  /** `ts` tiles `s` from `from` to its end: the tokens are non-empty, each starts where the
      previous one ended, and each carries the characters of `s` it covers. */
  predicate Covers(ts: seq<Token>, s: string, from: nat)
    decreases |ts|
  {
    if ts == [] then from == |s|
    else
      && ts[0].start == from
      && ts[0].text != []
      && from + |ts[0].text| <= |s|
      && ts[0].text == s[from..from + |ts[0].text|]
      && Covers(ts[1..], s, from + |ts[0].text|)
  }

  /** The scan from `pos` tiles the rest of the input. */
  lemma {:induction false} LexCovers(s: string, pos: nat, stack: seq<Mode>)
    requires pos <= |s| && stack != []
    ensures Covers(Lex(s, pos, stack).tokens, s, pos)
    decreases |s| - pos
  {
    if pos < |s| {
      var st := Step(s, pos, stack);
      var rest := Lex(s, st.pos, st.stack).tokens;
      LexCovers(s, st.pos, st.stack);
      LexUnfold(s, pos, stack);
      CoversCons(st.token, rest, s, pos, st.pos);
    }
  }

  lemma CoversCons(t: Token, rest: seq<Token>, s: string, pos: nat, next: nat)
    requires pos < next <= |s| && t.start == pos && t.text == s[pos..next]
    requires Covers(rest, s, next)
    ensures Covers([t] + rest, s, pos)
  {
    assert ([t] + rest)[1..] == rest;
  }

  /** Tiling gives back exactly the input covered. */
  lemma {:induction false} CoversTexts(ts: seq<Token>, s: string, from: nat)
    requires from <= |s| && Covers(ts, s, from)
    ensures Texts(ts) == s[from..]
    decreases |ts|
  {
    if ts != [] {
      CoversTexts(ts[1..], s, from + |ts[0].text|);
      assert s[from..] == s[from..from + |ts[0].text|] + s[from + |ts[0].text|..];
    }
  }

  /** The whole scan of `s` tiles `s` from offset 0. */
  lemma TokenizeCovers(s: string)
    ensures Covers(Tokenize(s).tokens, s, 0)
    ensures Texts(Tokenize(s).tokens) == s
  {
    LexCovers(s, 0, [Root]);
    CoversTexts(Tokenize(s).tokens, s, 0);
  }
}
