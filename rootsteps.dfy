/** What one step of the scan does in the `root` mode, case by case on the text under the
    cursor: the rule that fires, the token it emits and the mode it enters. */
module RootSteps {
  import opened Tokens
  import opened CharClasses
  import opened Patterns
  import opened LeanWords
  import opened LeanTable
  import opened Starts
  import opened Engine
  import opened StepFacts
  import opened WordMatch

  // Each lemma below rules out one rule of the `root` mode, given that the rules before it
  // are already ruled out, under a condition on the text at the cursor.

  lemma SkipSpace(s: string, pos: nat)
    requires pos < |s| && !IsSpace(s[pos])
    ensures NoneBefore(Root, s, pos, 1)
  {
    RuleSkipped(Root, 0, s, pos);
  }

  lemma SkipDocOpen(s: string, pos: nat)
    requires pos < |s| && NoneBefore(Root, s, pos, 1) && !StartsWith(s, pos, "/--")
    ensures NoneBefore(Root, s, pos, 2)
  {
    NoneBeforeNext(Root, s, pos, 1);
  }

  lemma SkipCommentOpen(s: string, pos: nat)
    requires pos < |s| && NoneBefore(Root, s, pos, 2) && !StartsWith(s, pos, "/-")
    ensures NoneBefore(Root, s, pos, 3)
  {
    NoneBeforeNext(Root, s, pos, 2);
  }

  lemma SkipLineComment(s: string, pos: nat)
    requires pos < |s| && NoneBefore(Root, s, pos, 3) && !StartsWith(s, pos, "--")
    ensures NoneBefore(Root, s, pos, 4)
  {
    NoneBeforeNext(Root, s, pos, 3);
  }

  lemma SkipNamespace(s: string, pos: nat)
    requires pos < |s| && NoneBefore(Root, s, pos, 4) && !Listed(s, pos, Namespaces)
    ensures NoneBefore(Root, s, pos, 5)
  {
    NamespaceFacts();
    PlainRuleMatch(Table(Root)[4].pattern, s, pos);
    NoneBeforeNext(Root, s, pos, 4);
  }

  lemma SkipDeclaration(s: string, pos: nat)
    requires pos < |s| && NoneBefore(Root, s, pos, 5)
    requires !Listed(s, pos, Declarations) && !NoncomputableTheoryAt(s, pos)
    ensures NoneBefore(Root, s, pos, 6)
  {
    DeclarationFacts();
    MixedRuleMatch(Table(Root)[5].pattern, 17, s, pos);
    NoneBeforeNext(Root, s, pos, 5);
  }

  lemma SkipAttribute(s: string, pos: nat)
    requires pos < |s| && NoneBefore(Root, s, pos, 6) && MatchLen(Attribute, s, pos).None?
    ensures NoneBefore(Root, s, pos, 7)
  {
    NoneBeforeNext(Root, s, pos, 6);
  }

  lemma SkipKeyword(s: string, pos: nat)
    requires pos < |s| && NoneBefore(Root, s, pos, 7) && !Listed(s, pos, Keywords)
    ensures NoneBefore(Root, s, pos, 8)
  {
    KeywordFacts();
    PlainRuleMatch(Table(Root)[7].pattern, s, pos);
    NoneBeforeNext(Root, s, pos, 7);
  }

  lemma SkipSort(s: string, pos: nat)
    requires pos < |s| && NoneBefore(Root, s, pos, 8) && !Listed(s, pos, Sorts)
    ensures NoneBefore(Root, s, pos, 9)
  {
    KeywordFacts();
    PlainRuleMatch(Table(Root)[8].pattern, s, pos);
    NoneBeforeNext(Root, s, pos, 8);
  }

  lemma SkipCommand(s: string, pos: nat)
    requires pos < |s| && NoneBefore(Root, s, pos, 9)
    requires s[pos] != '#' || !InList(['#'] + WordAt(s, pos + 1), CommandWords)
    ensures NoneBefore(Root, s, pos, 10)
  {
    CommandFacts();
    CommandRuleMatch(Table(Root)[9].pattern, s, pos);
    NoneBeforeNext(Root, s, pos, 9);
  }

  lemma SkipOperator(s: string, pos: nat)
    requires pos < |s| && NoneBefore(Root, s, pos, 10) && !IsOperatorStart(s[pos])
    ensures NoneBefore(Root, s, pos, 11)
  {
    RuleSkipped(Root, 10, s, pos);
    NoneBeforeNext(Root, s, pos, 10);
  }

  lemma SkipIdentifier(s: string, pos: nat)
    requires pos < |s| && NoneBefore(Root, s, pos, 11) && !IsIdentStart(s[pos])
    ensures NoneBefore(Root, s, pos, 12)
  {
    RuleSkipped(Root, 11, s, pos);
    NoneBeforeNext(Root, s, pos, 11);
  }

  lemma SkipHex(s: string, pos: nat)
    requires pos < |s| && NoneBefore(Root, s, pos, 12)
    requires !(StartsWith(s, pos, "0x") && RunLen(AsciiAlnum, s, pos + 2) > 0)
    ensures NoneBefore(Root, s, pos, 13)
  {
    NoneBeforeNext(Root, s, pos, 12);
  }

  lemma SkipBinary(s: string, pos: nat)
    requires pos < |s| && NoneBefore(Root, s, pos, 13)
    requires !(StartsWith(s, pos, "0b") && RunLen(Binary, s, pos + 2) > 0)
    ensures NoneBefore(Root, s, pos, 14)
  {
    NoneBeforeNext(Root, s, pos, 13);
  }

  lemma SkipDecimal(s: string, pos: nat)
    requires pos < |s| && NoneBefore(Root, s, pos, 14) && !IsDigit(s[pos])
    ensures NoneBefore(Root, s, pos, 15)
  {
    NoneBeforeNext(Root, s, pos, 14);
  }

  lemma SkipString(s: string, pos: nat)
    requires pos < |s| && NoneBefore(Root, s, pos, 15) && s[pos] != '"'
    ensures NoneBefore(Root, s, pos, 16)
  {
    RuleSkipped(Root, 15, s, pos);
    NoneBeforeNext(Root, s, pos, 15);
  }

  lemma SkipChar(s: string, pos: nat)
    requires pos < |s| && NoneBefore(Root, s, pos, 16) && MatchLen(CharLiteral, s, pos).None?
    ensures NoneBefore(Root, s, pos, 17)
  {
    NoneBeforeNext(Root, s, pos, 16);
  }

  lemma SkipVariable(s: string, pos: nat)
    requires pos < |s| && NoneBefore(Root, s, pos, 17) && MatchLen(Variable, s, pos).None?
    ensures NoneBefore(Root, s, pos, 18)
  {
    NoneBeforeNext(Root, s, pos, 17);
  }

  /** At a character that is not white space, `/` or `-`, the white-space and comment rules fail. */
  lemma CommentRulesSkipped(s: string, pos: nat)
    requires pos < |s| && !IsSpace(s[pos]) && s[pos] != '/' && s[pos] != '-'
    ensures NoneBefore(Root, s, pos, 4)
  {
    assert !StartsWith(s, pos, "/--") && !StartsWith(s, pos, "/-") && !StartsWith(s, pos, "--") by {
      assert pos + 2 <= |s| ==> s[pos..pos + 2][0] == s[pos];
      assert pos + 3 <= |s| ==> s[pos..pos + 3][0] == s[pos];
    }
    SkipSpace(s, pos);
    SkipDocOpen(s, pos);
    SkipCommentOpen(s, pos);
    SkipLineComment(s, pos);
  }

  /** At a character that starts no comment and no keyword, rules 0 to 5 fail. */
  lemma SymbolSkipsTo6(s: string, pos: nat)
    requires pos < |s| && !IsSpace(s[pos]) && s[pos] != '/' && s[pos] != '-' && !IsAsciiLetter(s[pos])
    ensures NoneBefore(Root, s, pos, 6)
  {
    CommentRulesSkipped(s, pos);
    UnlistedUnlessLetter(s, pos);
    SkipNamespace(s, pos);
    SkipDeclaration(s, pos);
  }

  /** ... and rules 6 to 8 too, unless it is the `@` of an attribute. */
  lemma SymbolSkipsTo9(s: string, pos: nat)
    requires pos < |s| && !IsSpace(s[pos]) && s[pos] != '/' && s[pos] != '-' && !IsAsciiLetter(s[pos])
    requires s[pos] != '@'
    ensures NoneBefore(Root, s, pos, 9)
  {
    SymbolSkipsTo6(s, pos);
    RuleSkipped(Root, 6, s, pos);
    SkipAttribute(s, pos);
    UnlistedUnlessLetter(s, pos);
    SkipKeyword(s, pos);
    SkipSort(s, pos);
  }

  /** At a character that starts no comment, keyword, attribute, command, operator or
      identifier (a digit, a quote, `~`, `?` and most other symbols), rules 0 to 11 all fail. */
  lemma WordRulesSkipped(s: string, pos: nat)
    requires pos < |s|
    requires !IsSpace(s[pos]) && s[pos] != '/' && s[pos] != '-' && !IsAsciiLetter(s[pos])
    requires s[pos] != '@' && s[pos] != '#' && !IsOperatorStart(s[pos]) && !IsIdentStart(s[pos])
    ensures NoneBefore(Root, s, pos, 12)
  {
    SymbolSkipsTo9(s, pos);
    SkipCommand(s, pos);
    SkipOperator(s, pos);
    SkipIdentifier(s, pos);
  }

  /** White space: the whole run of `\s` characters is one `Text` token. */
  lemma RootSpace(s: string, pos: nat, stack: seq<Mode>)
    requires pos < |s| && stack != [] && Top(stack) == Root && IsSpace(s[pos])
    ensures var n := RunLen(Space, s, pos);
            Step(s, pos, stack) == StepResult(Token(pos, Text, s[pos..pos + n]), pos + n, stack)
  {
    RuleWins(s, pos, stack, 0, RunLen(Space, s, pos));
  }

  /** `/--` opens a doc comment, although `/-` and `--` match there too. */
  lemma RootDocOpen(s: string, pos: nat, stack: seq<Mode>)
    requires pos < |s| && stack != [] && Top(stack) == Root && StartsWith(s, pos, "/--")
    ensures Step(s, pos, stack) == StepResult(Token(pos, StringDoc, "/--"), pos + 3, stack + [DocstringMode])
  {
    assert s[pos] == s[pos..pos + 3][0];
    SkipSpace(s, pos);
    RuleWins(s, pos, stack, 1, 3);
  }

  /** `/-` not followed by `-` opens a block comment. */
  lemma RootCommentOpen(s: string, pos: nat, stack: seq<Mode>)
    requires pos < |s| && stack != [] && Top(stack) == Root
    requires StartsWith(s, pos, "/-") && !StartsWith(s, pos, "/--")
    ensures Step(s, pos, stack) == StepResult(Token(pos, Comment, "/-"), pos + 2, stack + [CommentMode])
  {
    assert s[pos] == s[pos..pos + 2][0];
    SkipSpace(s, pos);
    SkipDocOpen(s, pos);
    RuleWins(s, pos, stack, 2, 2);
  }

  /** `--.*?$` stops at the first newline, or at the end of the input. */
  lemma LineCommentMatch(s: string, pos: nat)
    requires pos <= |s| && StartsWith(s, pos, "--")
    ensures var e := pos + 2 + RunLen(NotNewline, s, pos + 2);
            && MatchLen(LineComment, s, pos) == Some(e - pos)
            && '\n' !in s[pos..e]
            && (e == |s| || s[e] == '\n')
  {
    var e := pos + 2 + RunLen(NotNewline, s, pos + 2);
    assert s[pos] == s[pos..pos + 2][0];
    assert s[pos + 1] == s[pos..pos + 2][1];
    forall i | 0 <= i < e - pos
      ensures s[pos..e][i] != '\n'
    {
      assert s[pos..e][i] == s[pos + i];
    }
  }

  /** `--` starts a line comment, which runs up to the next newline (not included) or to the
      end of the input. */
  lemma RootLineComment(s: string, pos: nat, stack: seq<Mode>)
    requires pos < |s| && stack != [] && Top(stack) == Root && StartsWith(s, pos, "--")
    ensures var e := pos + 2 + RunLen(NotNewline, s, pos + 2);
            && Step(s, pos, stack) == StepResult(Token(pos, CommentSingle, s[pos..e]), e, stack)
            && '\n' !in s[pos..e]
            && (e == |s| || s[e] == '\n')
  {
    var e := pos + 2 + RunLen(NotNewline, s, pos + 2);
    LineCommentMatch(s, pos);
    assert s[pos] == s[pos..pos + 2][0];
    SkipSpace(s, pos);
    SkipDocOpen(s, pos);
    SkipCommentOpen(s, pos);
    RuleWins(s, pos, stack, 3, e - pos);
  }
}
