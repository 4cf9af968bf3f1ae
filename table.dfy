/** The rule table of the Lean 3 lexer: four modes, each an ordered list of
    (pattern, token type, action) rules, and the first-match choice among them. */
module LeanTable {
  import opened Tokens
  import opened CharClasses
  import opened Patterns
  import opened LeanWords

  datatype Rule = Rule(pattern: Pattern, kind: TokenType, action: Action)

  /** The `root` mode, rules 0 to 18 in source order. */
  const RootRules: seq<Rule> := [
    Rule(Plus(Space), Text, Stay),                                            // \s+
    Rule(Literal("/--"), StringDoc, Enter(DocstringMode)),                    // /--
    Rule(Literal("/-"), Comment, Enter(CommentMode)),                         // /-
    Rule(LineComment, CommentSingle, Stay),                                   // --.*?$
    Rule(Words(Namespaces, true, true), KeywordNamespace, Stay),
    Rule(Words(Declarations, true, true), KeywordDeclaration, Stay),
    Rule(Attribute, KeywordDeclaration, Stay),                                // @\[[^\]]*\]
    Rule(Words(Keywords, true, true), Keyword, Stay),
    Rule(Words(Sorts, true, true), KeywordType, Stay),
    Rule(Words(Commands, false, true), Keyword, Stay),
    Rule(Words(Operators, false, false), Operator, Stay),
    Rule(Identifier, Name, Stay),
    Rule(Prefixed("0x", AsciiAlnum), NumberInteger, Stay),                    // 0x[A-Za-z0-9]+
    Rule(Prefixed("0b", Binary), NumberInteger, Stay),                        // 0b[01]+
    Rule(Plus(Digit), NumberInteger, Stay),                                   // \d+
    Rule(Literal("\""), StringDouble, Enter(StringMode)),                     // "
    Rule(CharLiteral, StringChar, Stay),
    Rule(Variable, NameVariable, Stay),                                       // [~?][a-z][\w\']*:
    Rule(One(NonSpace), NameBuiltinPseudo, Stay)                              // \S
  ]

  /** The `comment` mode: nested block comments. */
  const CommentRules: seq<Rule> := [
    Rule(One(NotSlashDash), CommentMultiline, Stay),                          // [^/-]
    Rule(Literal("/-"), CommentMultiline, PushSelf),                          // /-  '#push'
    Rule(Literal("-/"), CommentMultiline, Pop),                               // -/  '#pop'
    Rule(One(SlashDash), CommentMultiline, Stay)                              // [/-]
  ]

  /** The `docstring` mode: doc comments, which do not nest. */
  const DocstringRules: seq<Rule> := [
    Rule(One(NotSlashDash), StringDoc, Stay),                                 // [^/-]
    Rule(Literal("-/"), StringDoc, Pop),                                      // -/  '#pop'
    Rule(One(SlashDash), StringDoc, Stay)                                     // [/-]
  ]

  /** The `string` mode: the body of a double-quoted string. */
  const StringRules: seq<Rule> := [
    Rule(Plus(NotBackslashQuote), StringDouble, Stay),                        // [^\\"]+
    Rule(Escape, StringEscape, Stay),                                         // \\[n"\\]
    Rule(Literal("\""), StringDouble, Pop)                                    // "  '#pop'
  ]

  /** The rules of a mode. */
  function Table(m: Mode): seq<Rule>
  {
    match m
    case Root => RootRules
    case CommentMode => CommentRules
    case DocstringMode => DocstringRules
    case StringMode => StringRules
  }

  /** The first rule of `rules`, at index `from` or later, that matches at `pos`, with its length. */
  function FirstMatchFrom(rules: seq<Rule>, from: nat, s: string, pos: nat): (r: Option<(nat, nat)>)
    requires from <= |rules| && pos <= |s|
    ensures r.Some? ==> from <= r.value.0 < |rules|
                        && MatchLen(rules[r.value.0].pattern, s, pos) == Some(r.value.1)
                        && forall j :: from <= j < r.value.0 ==> MatchLen(rules[j].pattern, s, pos).None?
    ensures r.None? ==> forall j :: from <= j < |rules| ==> MatchLen(rules[j].pattern, s, pos).None?
    decreases |rules| - from
  {
    if from == |rules| then None
    else
      var k := MatchLen(rules[from].pattern, s, pos);
      if k.Some? then Some((from, k.value))
      else
        var r := FirstMatchFrom(rules, from + 1, s, pos);
        assert forall j :: from < j < |rules| && (r.None? || j < r.value.0) ==> MatchLen(rules[j].pattern, s, pos).None?;
        r
  }

  /** First match wins: the index of the first rule of mode `m` that matches at `pos`, and its length. */
  function FirstMatch(m: Mode, s: string, pos: nat): (r: Option<(nat, nat)>)
    requires pos <= |s|
    ensures r.Some? ==> r.value.0 < |Table(m)|
                        && MatchLen(Table(m)[r.value.0].pattern, s, pos) == Some(r.value.1)
                        && 1 <= r.value.1 && pos + r.value.1 <= |s|
                        && forall j :: 0 <= j < r.value.0 ==> MatchLen(Table(m)[j].pattern, s, pos).None?
    ensures r.None? ==> forall j :: 0 <= j < |Table(m)| ==> MatchLen(Table(m)[j].pattern, s, pos).None?
  {
    var r := FirstMatchFrom(Table(m), 0, s, pos);
    if r.Some? then TableValid(m, r.value.0); r else r
  }

  /** No rule of the table has an empty literal or an empty listed word. */
  lemma TableValid(m: Mode, i: nat)
    requires i < |Table(m)|
    ensures ValidPattern(Table(m)[i].pattern)
  {
    AllListsNonEmpty();
  }

  lemma AllListsNonEmpty()
    ensures forall l: WordList, i :: 0 <= i < |ListOf(l)| ==> |ListOf(l)[i]| > 0
  {
    forall l: WordList
      ensures forall i :: 0 <= i < |ListOf(l)| ==> |ListOf(l)[i]| > 0
    {
      NonEmptyWords(l);
    }
  }

  lemma NonEmptyWords(l: WordList)
    ensures forall i :: 0 <= i < |ListOf(l)| ==> |ListOf(l)[i]| > 0
  {
  }
}
