/** What one step of the scan does in the `root` mode at a word: a keyword of one of the
    four `\b`-anchored lists, `noncomputable theory`, or a `Name`. */
module WordSteps {
  import opened Tokens
  import opened CharClasses
  import opened Patterns
  import opened LeanWords
  import opened LeanTable
  import opened Starts
  import opened Engine
  import opened StepFacts
  import opened WordMatch
  import opened RootSteps

  /** A listed word starts with an ASCII letter. */
  lemma ListedStartsWithLetter(s: string, pos: nat, l: WordList)
    requires pos <= |s| && l != Commands && l != Operators && Listed(s, pos, l)
    ensures pos < |s| && IsAsciiLetter(s[pos])
  {
    ListStarts(l);
    var w := WordAt(s, pos);
    assert w[0] == s[pos];
  }

  /** At the first character of a `Name`, the rules before the keyword lists fail, and so do
      the first two lists and the attribute rule unless one of those lists holds the word. */
  lemma IdentSkipsTo7(s: string, pos: nat)
    requires pos < |s| && IsIdentStart(s[pos])
    requires !Listed(s, pos, Namespaces) && !Listed(s, pos, Declarations) && !NoncomputableTheoryAt(s, pos)
    ensures NoneBefore(Root, s, pos, 7)
  {
    CommentRulesSkipped(s, pos);
    SkipNamespace(s, pos);
    SkipDeclaration(s, pos);
    RuleSkipped(Root, 6, s, pos);
    SkipAttribute(s, pos);
  }

  /** Where `noncomputable theory` stands, the `\w` run at `pos` is `noncomputable`. */
  lemma NoncomputableWord(s: string, pos: nat)
    requires pos <= |s| && NoncomputableTheoryAt(s, pos)
    ensures WordAt(s, pos) == "noncomputable"
  {
    assert s[pos..pos + 20] == "noncomputable theory";
    forall i | pos <= i < pos + 13
      ensures InClass(Word, s[i])
    {
      assert s[i] == s[pos..pos + 20][i - pos];
    }
    assert s[pos + 13] == s[pos..pos + 20][13];
    RunLenExact(Word, s, pos, 13);
    assert s[pos..pos + 13] == s[pos..pos + 20][..13];
  }

  /** `noncomputable` is not a `Keyword.Namespace` word. */
  lemma NoncomputableNotNamespace(s: string, pos: nat)
    requires pos <= |s| && NoncomputableTheoryAt(s, pos)
    ensures !Listed(s, pos, Namespaces)
  {
    NoncomputableWord(s, pos);
    assert forall i :: 0 <= i < |NamespaceWords| ==> |NamespaceWords[i]| < 13;
  }

  /** A rule of the `root` mode that matches the `\w` run at `pos` and leaves the stack
      alone, with every rule before it failing, emits that run as one token of its type. */
  lemma WordStays(s: string, pos: nat, stack: seq<Mode>, k: nat, kind: TokenType)
    requires pos < |s| && stack != [] && Top(stack) == Root && k < |Table(Root)|
    requires NoneBefore(Root, s, pos, k) && Table(Root)[k].kind == kind && Table(Root)[k].action == Stay
    requires MatchLen(Table(Root)[k].pattern, s, pos) == Some(|WordAt(s, pos)|)
    ensures var w := WordAt(s, pos);
            Step(s, pos, stack) == StepResult(Token(pos, kind, w), pos + |w|, stack)
  {
    RuleStays(s, pos, stack, Root, k, |WordAt(s, pos)|, kind);
  }

  /** Rule 4 is the first to match at a word of the `Keyword.Namespace` list. */
  lemma NamespaceWins(s: string, pos: nat)
    requires pos <= |s| && Listed(s, pos, Namespaces)
    ensures pos < |s| && NoneBefore(Root, s, pos, 4)
    ensures MatchLen(Table(Root)[4].pattern, s, pos) == Some(|WordAt(s, pos)|)
  {
    ListedStartsWithLetter(s, pos, Namespaces);
    CommentRulesSkipped(s, pos);
    NamespaceFacts();
    PlainRuleMatch(Table(Root)[4].pattern, s, pos);
  }

  lemma NamespaceStep(s: string, pos: nat, stack: seq<Mode>)
    requires pos < |s| && stack != [] && Top(stack) == Root
    requires NoneBefore(Root, s, pos, 4) && MatchLen(Table(Root)[4].pattern, s, pos) == Some(|WordAt(s, pos)|)
    ensures var w := WordAt(s, pos);
            Step(s, pos, stack) == StepResult(Token(pos, KeywordNamespace, w), pos + |w|, stack)
  {
    WordStays(s, pos, stack, 4, KeywordNamespace);
  }

  /** A word of the `Keyword.Namespace` list, between two `\b`s, is one token of that type. */
  lemma RootNamespace(s: string, pos: nat, stack: seq<Mode>)
    requires pos <= |s| && stack != [] && Top(stack) == Root
    requires Listed(s, pos, Namespaces)
    ensures pos < |s|
    ensures var w := WordAt(s, pos);
            Step(s, pos, stack) == StepResult(Token(pos, KeywordNamespace, w), pos + |w|, stack)
  {
    NamespaceWins(s, pos);
    NamespaceStep(s, pos, stack);
  }

  /** Rule 5 is the first to match at a `Keyword.Declaration` word that is not also a
      `Keyword.Namespace` word. */
  lemma DeclarationWins(s: string, pos: nat)
    requires pos <= |s| && !Listed(s, pos, Namespaces) && Listed(s, pos, Declarations)
    requires !NoncomputableTheoryAt(s, pos)
    ensures pos < |s| && NoneBefore(Root, s, pos, 5)
    ensures MatchLen(Table(Root)[5].pattern, s, pos) == Some(|WordAt(s, pos)|)
  {
    ListedStartsWithLetter(s, pos, Declarations);
    CommentRulesSkipped(s, pos);
    SkipNamespace(s, pos);
    DeclarationFacts();
    MixedRuleMatch(Table(Root)[5].pattern, 17, s, pos);
  }

  lemma DeclarationStep(s: string, pos: nat, stack: seq<Mode>)
    requires pos < |s| && stack != [] && Top(stack) == Root
    requires NoneBefore(Root, s, pos, 5) && MatchLen(Table(Root)[5].pattern, s, pos) == Some(|WordAt(s, pos)|)
    ensures var w := WordAt(s, pos);
            Step(s, pos, stack) == StepResult(Token(pos, KeywordDeclaration, w), pos + |w|, stack)
  {
    WordStays(s, pos, stack, 5, KeywordDeclaration);
  }

  /** A `Keyword.Declaration` word that the namespace list does not claim first is one token. */
  lemma RootDeclaration(s: string, pos: nat, stack: seq<Mode>)
    requires pos <= |s| && stack != [] && Top(stack) == Root
    requires !Listed(s, pos, Namespaces) && Listed(s, pos, Declarations) && !NoncomputableTheoryAt(s, pos)
    ensures pos < |s|
    ensures var w := WordAt(s, pos);
            Step(s, pos, stack) == StepResult(Token(pos, KeywordDeclaration, w), pos + |w|, stack)
  {
    DeclarationWins(s, pos);
    DeclarationStep(s, pos, stack);
  }

  /** `noncomputable theory` is the longest word of its list that matches, so rule 5 takes
      all twenty characters. */
  lemma NoncomputableTheoryWins(s: string, pos: nat)
    requires pos <= |s| && NoncomputableTheoryAt(s, pos)
    ensures pos < |s| && NoneBefore(Root, s, pos, 5)
    ensures MatchLen(Table(Root)[5].pattern, s, pos) == Some(20)
  {
    assert s[pos] == s[pos..pos + 20][0];
    NoncomputableNotNamespace(s, pos);
    CommentRulesSkipped(s, pos);
    SkipNamespace(s, pos);
    DeclarationFacts();
    MixedRuleMatch(Table(Root)[5].pattern, 17, s, pos);
  }

  lemma NoncomputableTheoryStep(s: string, pos: nat, stack: seq<Mode>)
    requires pos < |s| && stack != [] && Top(stack) == Root && NoncomputableTheoryAt(s, pos)
    requires NoneBefore(Root, s, pos, 5) && MatchLen(Table(Root)[5].pattern, s, pos) == Some(20)
    ensures Step(s, pos, stack) == StepResult(Token(pos, KeywordDeclaration, "noncomputable theory"), pos + 20, stack)
  {
    RuleStays(s, pos, stack, Root, 5, 20, KeywordDeclaration);
  }

  /** `noncomputable theory`, space included, is a single `Keyword.Declaration` token. */
  lemma RootNoncomputableTheory(s: string, pos: nat, stack: seq<Mode>)
    requires pos <= |s| && stack != [] && Top(stack) == Root && NoncomputableTheoryAt(s, pos)
    ensures Step(s, pos, stack) == StepResult(Token(pos, KeywordDeclaration, "noncomputable theory"), pos + 20, stack)
  {
    NoncomputableTheoryWins(s, pos);
    NoncomputableTheoryStep(s, pos, stack);
  }

  /** Rule 7 is the first to match at a `Keyword` word not listed before it. */
  lemma KeywordWins(s: string, pos: nat)
    requires pos <= |s| && !Listed(s, pos, Namespaces) && !Listed(s, pos, Declarations)
    requires !NoncomputableTheoryAt(s, pos) && Listed(s, pos, Keywords)
    ensures pos < |s| && NoneBefore(Root, s, pos, 7)
    ensures MatchLen(Table(Root)[7].pattern, s, pos) == Some(|WordAt(s, pos)|)
  {
    ListedStartsWithLetter(s, pos, Keywords);
    IdentSkipsTo7(s, pos);
    KeywordFacts();
    PlainRuleMatch(Table(Root)[7].pattern, s, pos);
  }

  lemma KeywordStep(s: string, pos: nat, stack: seq<Mode>)
    requires pos < |s| && stack != [] && Top(stack) == Root
    requires NoneBefore(Root, s, pos, 7) && MatchLen(Table(Root)[7].pattern, s, pos) == Some(|WordAt(s, pos)|)
    ensures var w := WordAt(s, pos);
            Step(s, pos, stack) == StepResult(Token(pos, Keyword, w), pos + |w|, stack)
  {
    WordStays(s, pos, stack, 7, Keyword);
  }

  /** A `Keyword` word that no earlier list holds is one token. */
  lemma RootKeyword(s: string, pos: nat, stack: seq<Mode>)
    requires pos <= |s| && stack != [] && Top(stack) == Root
    requires !Listed(s, pos, Namespaces) && !Listed(s, pos, Declarations)
    requires !NoncomputableTheoryAt(s, pos) && Listed(s, pos, Keywords)
    ensures pos < |s|
    ensures var w := WordAt(s, pos);
            Step(s, pos, stack) == StepResult(Token(pos, Keyword, w), pos + |w|, stack)
  {
    KeywordWins(s, pos);
    KeywordStep(s, pos, stack);
  }

  /** Rule 8 is the first to match at `Sort`, `Prop` or `Type`. */
  lemma SortWins(s: string, pos: nat)
    requires pos <= |s| && !Listed(s, pos, Namespaces) && !Listed(s, pos, Declarations)
    requires !NoncomputableTheoryAt(s, pos) && !Listed(s, pos, Keywords) && Listed(s, pos, Sorts)
    ensures pos < |s| && NoneBefore(Root, s, pos, 8)
    ensures MatchLen(Table(Root)[8].pattern, s, pos) == Some(|WordAt(s, pos)|)
  {
    ListedStartsWithLetter(s, pos, Sorts);
    IdentSkipsTo7(s, pos);
    SkipKeyword(s, pos);
    KeywordFacts();
    PlainRuleMatch(Table(Root)[8].pattern, s, pos);
  }

  lemma SortStep(s: string, pos: nat, stack: seq<Mode>)
    requires pos < |s| && stack != [] && Top(stack) == Root
    requires NoneBefore(Root, s, pos, 8) && MatchLen(Table(Root)[8].pattern, s, pos) == Some(|WordAt(s, pos)|)
    ensures var w := WordAt(s, pos);
            Step(s, pos, stack) == StepResult(Token(pos, KeywordType, w), pos + |w|, stack)
  {
    WordStays(s, pos, stack, 8, KeywordType);
  }

  /** `Sort`, `Prop` and `Type` are `Keyword.Type` tokens. */
  lemma RootSort(s: string, pos: nat, stack: seq<Mode>)
    requires pos <= |s| && stack != [] && Top(stack) == Root
    requires !Listed(s, pos, Namespaces) && !Listed(s, pos, Declarations)
    requires !NoncomputableTheoryAt(s, pos) && !Listed(s, pos, Keywords) && Listed(s, pos, Sorts)
    ensures pos < |s|
    ensures var w := WordAt(s, pos);
            Step(s, pos, stack) == StepResult(Token(pos, KeywordType, w), pos + |w|, stack)
  {
    SortWins(s, pos);
    SortStep(s, pos, stack);
  }

  /** No list holds the word at `pos`. */
  predicate Unlisted(s: string, pos: nat)
    requires pos <= |s|
  {
    && !Listed(s, pos, Namespaces) && !Listed(s, pos, Declarations) && !NoncomputableTheoryAt(s, pos)
    && !Listed(s, pos, Keywords) && !Listed(s, pos, Sorts)
  }

  /** The length of the `Name` that starts at `pos`. */
  function NameLen(s: string, pos: nat): (n: nat)
    requires pos < |s|
    ensures pos + n <= |s|
  {
    1 + RunLen(IdentRest, s, pos + 1)
  }

  /** Rule 11 is the first to match at the start of a `Name` that no list holds. */
  lemma IdentifierWins(s: string, pos: nat)
    requires pos < |s| && IsIdentStart(s[pos]) && Unlisted(s, pos)
    ensures NoneBefore(Root, s, pos, 11)
    ensures MatchLen(Table(Root)[11].pattern, s, pos) == Some(NameLen(s, pos))
  {
    IdentSkipsTo7(s, pos);
    SkipKeyword(s, pos);
    SkipSort(s, pos);
    SkipCommand(s, pos);
    SkipOperator(s, pos);
  }

  lemma IdentifierStep(s: string, pos: nat, stack: seq<Mode>)
    requires pos < |s| && stack != [] && Top(stack) == Root
    requires NoneBefore(Root, s, pos, 11) && MatchLen(Table(Root)[11].pattern, s, pos) == Some(NameLen(s, pos))
    ensures var n := NameLen(s, pos);
            Step(s, pos, stack) == StepResult(Token(pos, Name, s[pos..pos + n]), pos + n, stack)
  {
    RuleStays(s, pos, stack, Root, 11, NameLen(s, pos), Name);
  }

  /** A `Name`: an identifier start character followed by the longest run of continuation
      characters, unless a keyword list holds the `\w` run there. */
  lemma RootIdentifier(s: string, pos: nat, stack: seq<Mode>)
    requires pos < |s| && stack != [] && Top(stack) == Root && IsIdentStart(s[pos]) && Unlisted(s, pos)
    ensures var n := NameLen(s, pos);
            Step(s, pos, stack) == StepResult(Token(pos, Name, s[pos..pos + n]), pos + n, stack)
  {
    IdentifierWins(s, pos);
    IdentifierStep(s, pos, stack);
  }
}
