/** What the first character of a match must be, for every pattern of the table: the
    facts that let a rule be ruled out by looking at one character. */
module Starts {
  import opened Tokens
  import opened CharClasses
  import opened Patterns
  import opened LeanWords

  /** A word of the keyword lists: it starts with an ASCII letter and is made of `\w`
      characters only. */
  predicate PlainWord(w: string)
  {
    w != [] && IsAsciiLetter(w[0]) && forall k :: 0 <= k < |w| ==> IsWord(w[k])
  }

  /** A word of the command list: `#` followed by a plain word. */
  predicate CommandWord(w: string)
  {
    |w| > 1 && w[0] == '#' && PlainWord(w[1..])
  }

  /** The first characters of the operator list. */
  predicate IsOperatorStart(c: char)
  {
    c in "(){}[]⟨⟩‹›⦃⦄:,"
  }

  /** The characters a word of list `l` can start with. */
  predicate WordStart(l: WordList, c: char)
  {
    match l
    case Commands => c == '#'
    case Operators => IsOperatorStart(c)
    case _ => IsAsciiLetter(c)
  }

  lemma NamespaceFacts()
    ensures forall i :: 0 <= i < |NamespaceWords| ==> PlainWord(NamespaceWords[i])
  {
  }

  lemma DeclarationFacts()
    ensures forall i :: 0 <= i < |DeclarationWords| && i != 17 ==> PlainWord(DeclarationWords[i])
    ensures DeclarationWords[17] == "noncomputable theory"
  {
    DeclarationHead();
    DeclarationMiddle();
    DeclarationTail();
  }

  lemma DeclarationHead()
    ensures forall i :: 0 <= i < 17 ==> PlainWord(DeclarationWords[i])
  {
  }

  lemma DeclarationMiddle()
    ensures forall i :: 17 < i < 28 ==> PlainWord(DeclarationWords[i])
  {
  }

  lemma DeclarationTail()
    ensures forall i :: 28 <= i < |DeclarationWords| ==> PlainWord(DeclarationWords[i])
  {
  }

  lemma KeywordFacts()
    ensures forall i :: 0 <= i < |KeywordWords| ==> PlainWord(KeywordWords[i])
    ensures forall i :: 0 <= i < |SortWords| ==> PlainWord(SortWords[i])
  {
  }

  lemma SymbolFacts()
    ensures forall i :: 0 <= i < |CommandWords| ==> CommandWords[i] != [] && CommandWords[i][0] == '#'
    ensures forall i :: 0 <= i < |OperatorWords| ==> OperatorWords[i] != [] && IsOperatorStart(OperatorWords[i][0])
  {
  }

  lemma CommandFacts()
    ensures forall i :: 0 <= i < |CommandWords| ==> CommandWord(CommandWords[i])
  {
  }

  /** Every operator start character is itself a listed operator; `:=`, at index 13, is the
      only longer one. */
  lemma OperatorFacts(c: char)
    requires IsOperatorStart(c)
    ensures exists i :: 0 <= i < |OperatorWords| && OperatorWords[i] == [c]
    ensures OperatorWords[13] == ":="
    ensures forall i :: 0 <= i < |OperatorWords| && i != 13 ==> |OperatorWords[i]| == 1
  {
    var i := if c == '(' then 0 else if c == ')' then 1 else if c == ':' then 2
      else if c == '{' then 3 else if c == '}' then 4 else if c == '[' then 5
      else if c == ']' then 6 else if c == '⟨' then 7 else if c == '⟩' then 8
      else if c == '‹' then 9 else if c == '›' then 10 else if c == '⦃' then 11
      else if c == '⦄' then 12 else 14;
    assert OperatorWords[i] == [c];
  }

  /** Every listed word is non-empty and starts with a character of its list's class. */
  lemma ListStarts(l: WordList)
    ensures forall i :: 0 <= i < |ListOf(l)| ==> ListOf(l)[i] != [] && WordStart(l, ListOf(l)[i][0])
  {
    match l
    case Namespaces => NamespaceFacts();
    case Declarations =>
      DeclarationFacts();
      assert IsAsciiLetter(DeclarationWords[17][0]);
    case Keywords => KeywordFacts();
    case Sorts => KeywordFacts();
    case Commands => SymbolFacts();
    case Operators => SymbolFacts();
  }

  /** A necessary condition on the first character of a match of `p`. */
  predicate CanStart(p: Pattern, c: char)
  {
    match p
    case Plus(k) => InClass(k, c)
    case One(k) => InClass(k, c)
    case Literal(t) => t == [] || c == t[0]
    case LineComment => c == '-'
    case Words(l, _, _) => WordStart(l, c)
    case Attribute => c == '@'
    case Identifier => IsIdentStart(c)
    case Prefixed(lead, k) => if lead == [] then InClass(k, c) else c == lead[0]
    case Escape => c == '\\'
    case CharLiteral => c == '\''
    case Variable => c == '~' || c == '?'
  }

  /** A pattern that matches at `pos` matches from a character it can start with. */
  lemma MatchNeedsStart(p: Pattern, s: string, pos: nat)
    requires pos <= |s| && ValidPattern(p)
    ensures MatchLen(p, s, pos).Some? ==> pos < |s| && CanStart(p, s[pos])
  {
    if MatchLen(p, s, pos).Some? {
      match p
      case Literal(t) =>
        assert s[pos..pos + |t|][0] == s[pos];
      case LineComment =>
        assert s[pos..pos + 2][0] == s[pos];
      case Attribute =>
        assert s[pos..pos + 2][0] == s[pos];
      case Prefixed(lead, k) =>
        if lead != [] { assert s[pos..pos + |lead|][0] == s[pos]; }
      case Words(l, before, after) => WordsNeedStart(l, before, after, s, pos);
      case _ =>
    }
  }

  lemma WordsNeedStart(l: WordList, before: bool, after: bool, s: string, pos: nat)
    requires pos <= |s| && LongestWord(ListOf(l), before, after, s, pos).Some?
    ensures pos < |s| && WordStart(l, s[pos])
  {
    var w := LongestWord(ListOf(l), before, after, s, pos).value;
    ListStarts(l);
    assert ListOf(l)[w][0] == s[pos..pos + |ListOf(l)[w]|][0];
  }
}
