/** What one step of the scan does inside a block comment, a doc comment and a string. */
module ModeSteps {
  import opened Tokens
  import opened CharClasses
  import opened Patterns
  import opened LeanTable
  import opened Engine
  import opened StepFacts

  /** The stack after a `'#pop'`. */
  function Popped(stack: seq<Mode>): (r: seq<Mode>)
    requires stack != []
    ensures |stack| > 1 ==> r == stack[..|stack| - 1]
    ensures |stack| == 1 ==> r == stack
  {
    Apply(Pop, stack)
  }

  // Block comments: `/-` nests one level deeper, `-/` closes one level, and every other
  // character is a token of its own.

  lemma CommentNestStep(s: string, pos: nat, stack: seq<Mode>)
    requires pos < |s| && stack != [] && Top(stack) == CommentMode && StartsWith(s, pos, "/-")
    ensures Step(s, pos, stack) == StepResult(Token(pos, CommentMultiline, "/-"), pos + 2, stack + [CommentMode])
  {
    assert s[pos] == s[pos..pos + 2][0];
    RuleSkipped(CommentMode, 0, s, pos);
    RuleWins(s, pos, stack, 1, 2);
  }

  lemma CommentCloseStep(s: string, pos: nat, stack: seq<Mode>)
    requires pos < |s| && stack != [] && Top(stack) == CommentMode && StartsWith(s, pos, "-/")
    ensures Step(s, pos, stack) == StepResult(Token(pos, CommentMultiline, "-/"), pos + 2, Popped(stack))
  {
    assert s[pos] == s[pos..pos + 2][0];
    RuleSkipped(CommentMode, 0, s, pos);
    RuleSkipped(CommentMode, 1, s, pos);
    RuleWins(s, pos, stack, 2, 2);
  }

  lemma CommentCharStep(s: string, pos: nat, stack: seq<Mode>)
    requires pos < |s| && stack != [] && Top(stack) == CommentMode && s[pos] != '/' && s[pos] != '-'
    ensures Step(s, pos, stack) == StepResult(Token(pos, CommentMultiline, s[pos..pos + 1]), pos + 1, stack)
  {
    RuleWins(s, pos, stack, 0, 1);
  }

  /** A `/` or `-` that neither opens nor closes a comment is a token of its own. */
  lemma CommentDashStep(s: string, pos: nat, stack: seq<Mode>)
    requires pos < |s| && stack != [] && Top(stack) == CommentMode && (s[pos] == '/' || s[pos] == '-')
    requires !StartsWith(s, pos, "/-") && !StartsWith(s, pos, "-/")
    ensures Step(s, pos, stack) == StepResult(Token(pos, CommentMultiline, s[pos..pos + 1]), pos + 1, stack)
  {
    RuleSkipped(CommentMode, 0, s, pos);
    RuleWins(s, pos, stack, 3, 1);
  }

  // Doc comments: only `-/` is special; a `/-` inside does not nest.

  lemma DocCloseStep(s: string, pos: nat, stack: seq<Mode>)
    requires pos < |s| && stack != [] && Top(stack) == DocstringMode && StartsWith(s, pos, "-/")
    ensures Step(s, pos, stack) == StepResult(Token(pos, StringDoc, "-/"), pos + 2, Popped(stack))
  {
    assert s[pos] == s[pos..pos + 2][0];
    RuleSkipped(DocstringMode, 0, s, pos);
    RuleWins(s, pos, stack, 1, 2);
  }

  /** Any character of a doc comment that does not start `-/` is a token of its own, and the
      mode stays: `/-` opens nothing here. */
  lemma DocCharStep(s: string, pos: nat, stack: seq<Mode>)
    requires pos < |s| && stack != [] && Top(stack) == DocstringMode && !StartsWith(s, pos, "-/")
    ensures Step(s, pos, stack) == StepResult(Token(pos, StringDoc, s[pos..pos + 1]), pos + 1, stack)
  {
    if s[pos] != '/' && s[pos] != '-' {
      RuleWins(s, pos, stack, 0, 1);
    } else {
      RuleSkipped(DocstringMode, 0, s, pos);
      RuleWins(s, pos, stack, 2, 1);
    }
  }

  // Strings: runs of plain characters, three escapes, and the closing quote.

  lemma StringRunStep(s: string, pos: nat, stack: seq<Mode>)
    requires pos < |s| && stack != [] && Top(stack) == StringMode && s[pos] != '\\' && s[pos] != '"'
    ensures var n := RunLen(NotBackslashQuote, s, pos);
            Step(s, pos, stack) == StepResult(Token(pos, StringDouble, s[pos..pos + n]), pos + n, stack)
  {
    RuleWins(s, pos, stack, 0, RunLen(NotBackslashQuote, s, pos));
  }

  lemma StringEscapeStep(s: string, pos: nat, stack: seq<Mode>)
    requires pos + 1 < |s| && stack != [] && Top(stack) == StringMode
    requires s[pos] == '\\' && (s[pos + 1] == 'n' || s[pos + 1] == '"' || s[pos + 1] == '\\')
    ensures Step(s, pos, stack) == StepResult(Token(pos, StringEscape, s[pos..pos + 2]), pos + 2, stack)
  {
    RuleSkipped(StringMode, 0, s, pos);
    RuleWins(s, pos, stack, 1, 2);
  }

  lemma StringCloseStep(s: string, pos: nat, stack: seq<Mode>)
    requires pos < |s| && stack != [] && Top(stack) == StringMode && s[pos] == '"'
    ensures Step(s, pos, stack) == StepResult(Token(pos, StringDouble, "\""), pos + 1, Popped(stack))
  {
    RuleSkipped(StringMode, 0, s, pos);
    RuleSkipped(StringMode, 1, s, pos);
    RuleWins(s, pos, stack, 2, 1);
  }

  /** A backslash before anything but `n`, `"` or another backslash, or at the end of the
      input, matches no rule: it becomes a one-character `Error` token, and the scan stays
      in the string. */
  lemma StringBadEscapeStep(s: string, pos: nat, stack: seq<Mode>)
    requires pos < |s| && stack != [] && Top(stack) == StringMode && s[pos] == '\\'
    requires !(pos + 1 < |s| && InClass(StringEscapable, s[pos + 1]))
    ensures Step(s, pos, stack) == StepResult(Token(pos, Error, "\\"), pos + 1, stack)
  {
    BadEscapeNoMatch(s, pos);
  }

  lemma BadEscapeNoMatch(s: string, pos: nat)
    requires pos < |s| && s[pos] == '\\' && !(pos + 1 < |s| && InClass(StringEscapable, s[pos + 1]))
    ensures FirstMatch(StringMode, s, pos).None?
  {
    RuleSkipped(StringMode, 0, s, pos);
    RuleSkipped(StringMode, 2, s, pos);
  }

  /** Some rule always matches, except in a string at a backslash that does not start one
      of the three escapes. */
  lemma NoMatchIff(m: Mode, s: string, pos: nat)
    requires pos < |s|
    ensures FirstMatch(m, s, pos).None? <==>
              m == StringMode && s[pos] == '\\' && !(pos + 1 < |s| && InClass(StringEscapable, s[pos + 1]))
  {
    var c := s[pos];
    match m
    case Root =>
      assert MatchLen(Table(Root)[0].pattern, s, pos).Some? || MatchLen(Table(Root)[18].pattern, s, pos).Some?;
    case CommentMode =>
      assert MatchLen(Table(CommentMode)[0].pattern, s, pos).Some? || MatchLen(Table(CommentMode)[3].pattern, s, pos).Some?;
    case DocstringMode =>
      assert MatchLen(Table(DocstringMode)[0].pattern, s, pos).Some? || MatchLen(Table(DocstringMode)[2].pattern, s, pos).Some?;
    case StringMode =>
      if c == '\\' {
        if pos + 1 < |s| && InClass(StringEscapable, s[pos + 1]) {
          assert MatchLen(Table(StringMode)[1].pattern, s, pos).Some?;
        } else {
          BadEscapeNoMatch(s, pos);
        }
      } else {
        assert MatchLen(Table(StringMode)[0].pattern, s, pos).Some? || MatchLen(Table(StringMode)[2].pattern, s, pos).Some?;
      }
  }
}
