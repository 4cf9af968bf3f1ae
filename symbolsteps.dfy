/** What one step of the scan does in the `root` mode at anything other than white space,
    a comment or a word: attributes, commands, operators, numbers, strings, characters,
    variables, and the one-character fallback. */
module SymbolSteps {
  import opened Tokens
  import opened CharClasses
  import opened Patterns
  import opened LeanWords
  import opened LeanTable
  import opened Starts
  import opened Engine
  import opened StepFacts
  import opened WordMatch
  import opened RootSteps

  /** The text of the attribute that starts at `pos`: up to its first `]`. */
  function AttributeLen(s: string, pos: nat): (n: nat)
    requires pos + 2 <= |s|
    ensures pos + n <= |s| + 1
  {
    3 + RunLen(NotCloseBracket, s, pos + 2)
  }

  /** Rule 6 is the first to match at `@[` when a `]` closes it. */
  lemma AttributeWins(s: string, pos: nat)
    requires StartsWith(s, pos, "@[") && pos + AttributeLen(s, pos) <= |s|
    ensures NoneBefore(Root, s, pos, 6)
    ensures MatchLen(Table(Root)[6].pattern, s, pos) == Some(AttributeLen(s, pos))
  {
    assert s[pos] == s[pos..pos + 2][0];
    SymbolSkipsTo6(s, pos);
  }

  lemma AttributeStep(s: string, pos: nat, stack: seq<Mode>)
    requires StartsWith(s, pos, "@[") && pos + AttributeLen(s, pos) <= |s|
    requires stack != [] && Top(stack) == Root
    requires NoneBefore(Root, s, pos, 6) && MatchLen(Table(Root)[6].pattern, s, pos) == Some(AttributeLen(s, pos))
    ensures var n := AttributeLen(s, pos);
            Step(s, pos, stack) == StepResult(Token(pos, KeywordDeclaration, s[pos..pos + n]), pos + n, stack)
  {
    RuleStays(s, pos, stack, Root, 6, AttributeLen(s, pos), KeywordDeclaration);
  }

  /** An attribute ends at the first `]` after its `@[`. */
  lemma AttributeEnds(s: string, pos: nat)
    requires StartsWith(s, pos, "@[") && pos + AttributeLen(s, pos) <= |s|
    ensures s[pos + AttributeLen(s, pos) - 1] == ']'
    ensures ']' !in s[pos + 2..pos + AttributeLen(s, pos) - 1]
  {
    var n := AttributeLen(s, pos);
    var body := s[pos + 2..pos + n - 1];
    forall i | 0 <= i < |body|
      ensures body[i] != ']'
    {
      assert body[i] == s[pos + 2 + i];
    }
  }

  /** `@[`, then everything up to and including the first `]`, is one `Keyword.Declaration`
      token, which may span lines. */
  lemma RootAttribute(s: string, pos: nat, stack: seq<Mode>)
    requires StartsWith(s, pos, "@[") && pos + AttributeLen(s, pos) <= |s|
    requires stack != [] && Top(stack) == Root
    ensures var n := AttributeLen(s, pos);
            Step(s, pos, stack) == StepResult(Token(pos, KeywordDeclaration, s[pos..pos + n]), pos + n, stack)
    ensures s[pos + AttributeLen(s, pos) - 1] == ']'
    ensures ']' !in s[pos + 2..pos + AttributeLen(s, pos) - 1]
  {
    AttributeWins(s, pos);
    AttributeStep(s, pos, stack);
    AttributeEnds(s, pos);
  }
  /** The length of the command that starts at `pos`: `#` and the `\w` run after it. */
  function CommandLen(s: string, pos: nat): (n: nat)
    requires pos < |s|
    ensures pos + n <= |s|
  {
    1 + |WordAt(s, pos + 1)|
  }

  /** The text at `pos` is a listed command: `#` and the `\w` run after it. */
  predicate CommandAt(s: string, pos: nat)
    requires pos < |s|
  {
    s[pos] == '#' && InList(['#'] + WordAt(s, pos + 1), CommandWords)
  }

  /** Rule 9 is the first to match at `#` followed by a command word and a `\b`. */
  lemma CommandWins(s: string, pos: nat)
    requires pos < |s| && CommandAt(s, pos)
    ensures NoneBefore(Root, s, pos, 9)
    ensures MatchLen(Table(Root)[9].pattern, s, pos) == Some(CommandLen(s, pos))
  {
    SymbolSkipsTo9(s, pos);
    CommandFacts();
    CommandRuleMatch(Table(Root)[9].pattern, s, pos);
  }

  lemma CommandStep(s: string, pos: nat, stack: seq<Mode>)
    requires pos < |s| && stack != [] && Top(stack) == Root
    requires NoneBefore(Root, s, pos, 9) && MatchLen(Table(Root)[9].pattern, s, pos) == Some(CommandLen(s, pos))
    ensures var n := CommandLen(s, pos);
            Step(s, pos, stack) == StepResult(Token(pos, Keyword, s[pos..pos + n]), pos + n, stack)
  {
    RuleStays(s, pos, stack, Root, 9, CommandLen(s, pos), Keyword);
  }

  /** `#check` and the other commands: `#` and the `\w` run after it, when that is a listed
      command, is one `Keyword` token. */
  lemma RootCommand(s: string, pos: nat, stack: seq<Mode>)
    requires pos < |s| && stack != [] && Top(stack) == Root && CommandAt(s, pos)
    ensures var n := CommandLen(s, pos);
            Step(s, pos, stack) == StepResult(Token(pos, Keyword, s[pos..pos + n]), pos + n, stack)
  {
    CommandWins(s, pos);
    CommandStep(s, pos, stack);
  }

  /** Rule 10 is the first to match at an operator character. */
  lemma OperatorWins(s: string, pos: nat)
    requires pos < |s| && IsOperatorStart(s[pos])
    ensures NoneBefore(Root, s, pos, 10)
    ensures MatchLen(Table(Root)[10].pattern, s, pos) == Some(OperatorLen(s, pos))
  {
    SymbolSkipsTo9(s, pos);
    SkipCommand(s, pos);
    OperatorFacts(s[pos]);
    OperatorRuleMatch(Table(Root)[10].pattern, 13, s, pos);
  }

  lemma OperatorStep(s: string, pos: nat, stack: seq<Mode>)
    requires pos < |s| && stack != [] && Top(stack) == Root
    requires NoneBefore(Root, s, pos, 10) && MatchLen(Table(Root)[10].pattern, s, pos) == Some(OperatorLen(s, pos))
    ensures var n := OperatorLen(s, pos);
            Step(s, pos, stack) == StepResult(Token(pos, Operator, s[pos..pos + n]), pos + n, stack)
  {
    RuleStays(s, pos, stack, Root, 10, OperatorLen(s, pos), Operator);
  }

  /** Brackets, `:`, `,` and the Unicode brackets are one-character `Operator` tokens,
      and `:=` is a two-character one. */
  lemma RootOperator(s: string, pos: nat, stack: seq<Mode>)
    requires pos < |s| && stack != [] && Top(stack) == Root && IsOperatorStart(s[pos])
    ensures var n := OperatorLen(s, pos);
            Step(s, pos, stack) == StepResult(Token(pos, Operator, s[pos..pos + n]), pos + n, stack)
  {
    OperatorWins(s, pos);
    OperatorStep(s, pos, stack);
  }
  /** Rule 12 is the first to match at `0x` followed by a letter or digit. */
  lemma HexWins(s: string, pos: nat)
    requires StartsWith(s, pos, "0x") && RunLen(AsciiAlnum, s, pos + 2) > 0
    ensures NoneBefore(Root, s, pos, 12)
    ensures MatchLen(Table(Root)[12].pattern, s, pos) == Some(2 + RunLen(AsciiAlnum, s, pos + 2))
  {
    assert s[pos] == s[pos..pos + 2][0];
    WordRulesSkipped(s, pos);
  }

  lemma HexStep(s: string, pos: nat, stack: seq<Mode>)
    requires pos + 2 <= |s| && stack != [] && Top(stack) == Root
    requires NoneBefore(Root, s, pos, 12)
    requires MatchLen(Table(Root)[12].pattern, s, pos) == Some(2 + RunLen(AsciiAlnum, s, pos + 2))
    ensures var n := 2 + RunLen(AsciiAlnum, s, pos + 2);
            Step(s, pos, stack) == StepResult(Token(pos, NumberInteger, s[pos..pos + n]), pos + n, stack)
  {
    RuleStays(s, pos, stack, Root, 12, 2 + RunLen(AsciiAlnum, s, pos + 2), NumberInteger);
  }

  /** `0x` and the run of ASCII letters and digits after it is one `Number.Integer` token,
      whether or not those are hexadecimal digits. */
  lemma RootHex(s: string, pos: nat, stack: seq<Mode>)
    requires StartsWith(s, pos, "0x") && RunLen(AsciiAlnum, s, pos + 2) > 0
    requires stack != [] && Top(stack) == Root
    ensures var n := 2 + RunLen(AsciiAlnum, s, pos + 2);
            Step(s, pos, stack) == StepResult(Token(pos, NumberInteger, s[pos..pos + n]), pos + n, stack)
  {
    HexWins(s, pos);
    HexStep(s, pos, stack);
  }

  /** Rule 13 is the first to match at `0b` followed by a binary digit. */
  lemma BinaryWins(s: string, pos: nat)
    requires StartsWith(s, pos, "0b") && RunLen(Binary, s, pos + 2) > 0
    ensures NoneBefore(Root, s, pos, 13)
    ensures MatchLen(Table(Root)[13].pattern, s, pos) == Some(2 + RunLen(Binary, s, pos + 2))
  {
    assert s[pos] == s[pos..pos + 2][0] && s[pos + 1] == s[pos..pos + 2][1];
    WordRulesSkipped(s, pos);
    assert !StartsWith(s, pos, "0x") by {
      assert s[pos..pos + 2][1] == 'b';
    }
    SkipHex(s, pos);
  }

  lemma BinaryStep(s: string, pos: nat, stack: seq<Mode>)
    requires pos + 2 <= |s| && stack != [] && Top(stack) == Root
    requires NoneBefore(Root, s, pos, 13)
    requires MatchLen(Table(Root)[13].pattern, s, pos) == Some(2 + RunLen(Binary, s, pos + 2))
    ensures var n := 2 + RunLen(Binary, s, pos + 2);
            Step(s, pos, stack) == StepResult(Token(pos, NumberInteger, s[pos..pos + n]), pos + n, stack)
  {
    RuleStays(s, pos, stack, Root, 13, 2 + RunLen(Binary, s, pos + 2), NumberInteger);
  }

  /** `0b` and the run of `0`s and `1`s after it is one `Number.Integer` token. */
  lemma RootBinary(s: string, pos: nat, stack: seq<Mode>)
    requires StartsWith(s, pos, "0b") && RunLen(Binary, s, pos + 2) > 0
    requires stack != [] && Top(stack) == Root
    ensures var n := 2 + RunLen(Binary, s, pos + 2);
            Step(s, pos, stack) == StepResult(Token(pos, NumberInteger, s[pos..pos + n]), pos + n, stack)
  {
    BinaryWins(s, pos);
    BinaryStep(s, pos, stack);
  }

  /** The digits at `pos` do not begin a hexadecimal or binary literal. */
  predicate PlainNumber(s: string, pos: nat)
    requires pos < |s|
  {
    && IsDigit(s[pos])
    && !(StartsWith(s, pos, "0x") && RunLen(AsciiAlnum, s, pos + 2) > 0)
    && !(StartsWith(s, pos, "0b") && RunLen(Binary, s, pos + 2) > 0)
  }

  /** Rule 14 is the first to match at a digit that starts no prefixed literal. */
  lemma DecimalWins(s: string, pos: nat)
    requires pos < |s| && PlainNumber(s, pos)
    ensures NoneBefore(Root, s, pos, 14)
    ensures MatchLen(Table(Root)[14].pattern, s, pos) == Some(RunLen(Digit, s, pos))
  {
    WordRulesSkipped(s, pos);
    SkipHex(s, pos);
    SkipBinary(s, pos);
  }

  lemma DecimalStep(s: string, pos: nat, stack: seq<Mode>)
    requires pos < |s| && stack != [] && Top(stack) == Root
    requires NoneBefore(Root, s, pos, 14) && MatchLen(Table(Root)[14].pattern, s, pos) == Some(RunLen(Digit, s, pos))
    ensures var n := RunLen(Digit, s, pos);
            Step(s, pos, stack) == StepResult(Token(pos, NumberInteger, s[pos..pos + n]), pos + n, stack)
  {
    RuleStays(s, pos, stack, Root, 14, RunLen(Digit, s, pos), NumberInteger);
  }

  /** Otherwise the whole run of digits is one `Number.Integer` token: `0b2` starts with
      the token `0`. */
  lemma RootDecimal(s: string, pos: nat, stack: seq<Mode>)
    requires pos < |s| && stack != [] && Top(stack) == Root && PlainNumber(s, pos)
    ensures var n := RunLen(Digit, s, pos);
            Step(s, pos, stack) == StepResult(Token(pos, NumberInteger, s[pos..pos + n]), pos + n, stack)
  {
    DecimalWins(s, pos);
    DecimalStep(s, pos, stack);
  }

  /** At a character that is no digit, nor a start character of any earlier rule, rules 0
      to 14 fail. */
  lemma NumberRulesSkipped(s: string, pos: nat)
    requires pos < |s|
    requires !IsSpace(s[pos]) && s[pos] != '/' && s[pos] != '-' && !IsIdentStart(s[pos])
    requires s[pos] != '@' && s[pos] != '#' && !IsOperatorStart(s[pos]) && !IsDigit(s[pos])
    ensures NoneBefore(Root, s, pos, 15)
  {
    WordRulesSkipped(s, pos);
    SkipHex(s, pos);
    SkipBinary(s, pos);
    SkipDecimal(s, pos);
  }

  /** Rule 15 is the first to match at a double quote. */
  lemma QuoteWins(s: string, pos: nat)
    requires pos < |s| && s[pos] == '"'
    ensures NoneBefore(Root, s, pos, 15)
    ensures MatchLen(Table(Root)[15].pattern, s, pos) == Some(1)
  {
    NumberRulesSkipped(s, pos);
  }

  lemma QuoteStep(s: string, pos: nat, stack: seq<Mode>)
    requires pos < |s| && stack != [] && Top(stack) == Root
    requires NoneBefore(Root, s, pos, 15) && MatchLen(Table(Root)[15].pattern, s, pos) == Some(1)
    ensures Step(s, pos, stack) == StepResult(Token(pos, StringDouble, s[pos..pos + 1]), pos + 1, stack + [StringMode])
  {
    RuleWins(s, pos, stack, 15, 1);
  }

  /** A double quote is a `String.Double` token and enters the `string` mode. */
  lemma RootQuote(s: string, pos: nat, stack: seq<Mode>)
    requires pos < |s| && stack != [] && Top(stack) == Root && s[pos] == '"'
    ensures Step(s, pos, stack) == StepResult(Token(pos, StringDouble, "\""), pos + 1, stack + [StringMode])
  {
    QuoteWins(s, pos);
    QuoteStep(s, pos, stack);
  }

  /** Rule 16 is the first to match at a closed character literal. */
  lemma CharWins(s: string, pos: nat)
    requires pos < |s| && s[pos] == '\'' && CharLiteralLen(s, pos).Some?
    ensures NoneBefore(Root, s, pos, 16)
    ensures MatchLen(Table(Root)[16].pattern, s, pos) == CharLiteralLen(s, pos)
  {
    NumberRulesSkipped(s, pos);
    SkipString(s, pos);
  }

  lemma CharStep(s: string, pos: nat, stack: seq<Mode>)
    requires pos < |s| && stack != [] && Top(stack) == Root
    requires s[pos] == '\'' && CharLiteralLen(s, pos).Some?
    requires NoneBefore(Root, s, pos, 16) && MatchLen(Table(Root)[16].pattern, s, pos) == CharLiteralLen(s, pos)
    ensures var n := CharLiteralLen(s, pos).value;
            Step(s, pos, stack) == StepResult(Token(pos, StringChar, s[pos..pos + n]), pos + n, stack)
  {
    RuleStays(s, pos, stack, Root, 16, CharLiteralLen(s, pos).value, StringChar);
  }

  /** A character literal (`'a'`, `'\n'`, `'\x41'`) is one `String.Char` token. */
  lemma RootChar(s: string, pos: nat, stack: seq<Mode>)
    requires pos < |s| && stack != [] && Top(stack) == Root
    requires s[pos] == '\'' && CharLiteralLen(s, pos).Some?
    ensures var n := CharLiteralLen(s, pos).value;
            Step(s, pos, stack) == StepResult(Token(pos, StringChar, s[pos..pos + n]), pos + n, stack)
  {
    CharWins(s, pos);
    CharStep(s, pos, stack);
  }

  /** Rule 17 is the first to match at a `~` or `?` variable. */
  lemma VariableWins(s: string, pos: nat)
    requires pos < |s| && (s[pos] == '~' || s[pos] == '?') && MatchLen(Variable, s, pos).Some?
    ensures NoneBefore(Root, s, pos, 17)
    ensures MatchLen(Table(Root)[17].pattern, s, pos) == MatchLen(Variable, s, pos)
  {
    NumberRulesSkipped(s, pos);
    SkipString(s, pos);
    SkipChar(s, pos);
  }

  lemma VariableStep(s: string, pos: nat, stack: seq<Mode>)
    requires pos < |s| && stack != [] && Top(stack) == Root && MatchLen(Variable, s, pos).Some?
    requires NoneBefore(Root, s, pos, 17) && MatchLen(Table(Root)[17].pattern, s, pos) == MatchLen(Variable, s, pos)
    ensures var n := MatchLen(Variable, s, pos).value;
            Step(s, pos, stack) == StepResult(Token(pos, NameVariable, s[pos..pos + n]), pos + n, stack)
  {
    RuleStays(s, pos, stack, Root, 17, MatchLen(Variable, s, pos).value, NameVariable);
  }

  /** `~x:` or `?x:` (a lower-case letter, then `\w` and `'` characters, then `:`) is one
      `Name.Variable` token, the colon included. */
  lemma RootVariable(s: string, pos: nat, stack: seq<Mode>)
    requires pos < |s| && stack != [] && Top(stack) == Root
    requires (s[pos] == '~' || s[pos] == '?') && MatchLen(Variable, s, pos).Some?
    ensures var n := MatchLen(Variable, s, pos).value;
            Step(s, pos, stack) == StepResult(Token(pos, NameVariable, s[pos..pos + n]), pos + n, stack)
  {
    VariableWins(s, pos);
    VariableStep(s, pos, stack);
  }
  /** A non-blank character at which no rule but the last matches: a `/` or `-` that opens no
      comment, an `@` that opens no closed attribute, a `#` that starts no command, a quote
      that starts no character literal, a `~` or `?` that starts no variable, and any other
      character that starts no rule at all. */
  predicate OtherSymbol(s: string, pos: nat)
    requires pos < |s|
  {
    var c := s[pos];
    && !IsSpace(c) && !IsIdentStart(c) && !IsOperatorStart(c) && !IsDigit(c) && c != '"'
    && (c == '/' ==> !StartsWith(s, pos, "/-"))
    && (c == '-' ==> !StartsWith(s, pos, "--"))
    && (c == '@' ==> MatchLen(Attribute, s, pos).None?)
    && (c == '#' ==> !CommandAt(s, pos))
    && (c == '\'' ==> CharLiteralLen(s, pos).None?)
    && (c == '~' || c == '?' ==> MatchLen(Variable, s, pos).None?)
  }

  lemma OtherSkipsTo6(s: string, pos: nat)
    requires pos < |s| && OtherSymbol(s, pos)
    ensures NoneBefore(Root, s, pos, 6)
  {
    assert !StartsWith(s, pos, "/--") by {
      if pos + 3 <= |s| {
        assert s[pos..pos + 2] == s[pos..pos + 3][..2];
      }
    }
    assert pos + 2 <= |s| ==> s[pos..pos + 2][0] == s[pos];
    SkipSpace(s, pos);
    SkipDocOpen(s, pos);
    SkipCommentOpen(s, pos);
    SkipLineComment(s, pos);
    UnlistedUnlessLetter(s, pos);
    SkipNamespace(s, pos);
    SkipDeclaration(s, pos);
  }

  lemma OtherSkipsTo12(s: string, pos: nat)
    requires pos < |s| && OtherSymbol(s, pos)
    ensures NoneBefore(Root, s, pos, 12)
  {
    OtherSkipsTo6(s, pos);
    assert MatchLen(Attribute, s, pos).None? by {
      assert pos + 2 <= |s| ==> s[pos..pos + 2][0] == s[pos];
    }
    SkipAttribute(s, pos);
    UnlistedUnlessLetter(s, pos);
    SkipKeyword(s, pos);
    SkipSort(s, pos);
    SkipCommand(s, pos);
    SkipOperator(s, pos);
    SkipIdentifier(s, pos);
  }

  /** Rule 18 is the first to match at any other non-blank character. */
  lemma OtherWins(s: string, pos: nat)
    requires pos < |s| && OtherSymbol(s, pos)
    ensures NoneBefore(Root, s, pos, 18)
    ensures MatchLen(Table(Root)[18].pattern, s, pos) == Some(1)
  {
    OtherSkipsTo12(s, pos);
    assert !StartsWith(s, pos, "0x") && !StartsWith(s, pos, "0b") by {
      assert pos + 2 <= |s| ==> s[pos..pos + 2][0] == s[pos];
    }
    SkipHex(s, pos);
    SkipBinary(s, pos);
    SkipDecimal(s, pos);
    SkipString(s, pos);
    SkipChar(s, pos);
    SkipVariable(s, pos);
  }

  lemma OtherStep(s: string, pos: nat, stack: seq<Mode>)
    requires pos < |s| && stack != [] && Top(stack) == Root
    requires NoneBefore(Root, s, pos, 18) && MatchLen(Table(Root)[18].pattern, s, pos) == Some(1)
    ensures Step(s, pos, stack) == StepResult(Token(pos, NameBuiltinPseudo, s[pos..pos + 1]), pos + 1, stack)
  {
    RuleStays(s, pos, stack, Root, 18, 1, NameBuiltinPseudo);
  }

  /** Any other non-blank character is a one-character `Name.Builtin.Pseudo` token: `=`, `+`,
      `→`, `λ`, a lone `'`, a `#` that starts no command. */
  lemma RootOther(s: string, pos: nat, stack: seq<Mode>)
    requires pos < |s| && stack != [] && Top(stack) == Root && OtherSymbol(s, pos)
    ensures Step(s, pos, stack) == StepResult(Token(pos, NameBuiltinPseudo, s[pos..pos + 1]), pos + 1, stack)
  {
    OtherWins(s, pos);
    OtherStep(s, pos, stack);
  }
}
