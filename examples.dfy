/** Concrete inputs and the tokens the scan produces for them. */
module Examples {
  import opened Tokens
  import opened CharClasses
  import opened Patterns
  import opened LeanWords
  import opened LeanTable
  import opened Engine
  import opened WordMatch
  import opened RootSteps
  import opened WordSteps
  import opened SymbolSteps
  import opened ModeSteps

  // A scan of a few tokens, from the steps that emit them. The positions and stacks are
  // parameters, so these are proved once for every input.

  /** The last step of a scan: its token is the last one, and its stack is the final stack. */
  lemma LexLast(s: string, pos: nat, stack: seq<Mode>, t: Token, after: seq<Mode>)
    requires pos < |s| && stack != [] && Step(s, pos, stack) == StepResult(t, |s|, after)
    ensures Lex(s, pos, stack) == LexResult([t], after)
  {
    LexUnfold(s, pos, stack);
  }

  lemma LexTwo(s: string, p0: nat, m0: seq<Mode>, t0: Token, p1: nat, m1: seq<Mode>, t1: Token, m2: seq<Mode>)
    requires p0 < |s| && m0 != [] && Step(s, p0, m0) == StepResult(t0, p1, m1)
    requires p1 < |s| && Step(s, p1, m1) == StepResult(t1, |s|, m2)
    ensures Lex(s, p0, m0) == LexResult([t0, t1], m2)
  {
    LexCons(s, p0, m0, t0, p1, m1);
    LexLast(s, p1, m1, t1, m2);
  }

  lemma LexThree(s: string, p0: nat, m0: seq<Mode>, t0: Token, p1: nat, m1: seq<Mode>, t1: Token,
                 p2: nat, m2: seq<Mode>, t2: Token, m3: seq<Mode>)
    requires p0 < |s| && m0 != [] && Step(s, p0, m0) == StepResult(t0, p1, m1)
    requires p1 < |s| && Step(s, p1, m1) == StepResult(t1, p2, m2)
    requires p2 < |s| && Step(s, p2, m2) == StepResult(t2, |s|, m3)
    ensures Lex(s, p0, m0) == LexResult([t0, t1, t2], m3)
  {
    LexCons(s, p0, m0, t0, p1, m1);
    LexTwo(s, p1, m1, t1, p2, m2, t2, m3);
  }

  lemma LexFour(s: string, p0: nat, m0: seq<Mode>, t0: Token, p1: nat, m1: seq<Mode>, t1: Token,
                p2: nat, m2: seq<Mode>, t2: Token, p3: nat, m3: seq<Mode>, t3: Token, m4: seq<Mode>)
    requires p0 < |s| && m0 != [] && Step(s, p0, m0) == StepResult(t0, p1, m1)
    requires p1 < |s| && Step(s, p1, m1) == StepResult(t1, p2, m2)
    requires p2 < |s| && Step(s, p2, m2) == StepResult(t2, p3, m3)
    requires p3 < |s| && Step(s, p3, m3) == StepResult(t3, |s|, m4)
    ensures Lex(s, p0, m0) == LexResult([t0, t1, t2, t3], m4)
  {
    LexCons(s, p0, m0, t0, p1, m1);
    LexThree(s, p1, m1, t1, p2, m2, t2, p3, m3, t3, m4);
  }

  lemma LexFive(s: string, p0: nat, m0: seq<Mode>, t0: Token, p1: nat, m1: seq<Mode>, t1: Token,
                p2: nat, m2: seq<Mode>, t2: Token, p3: nat, m3: seq<Mode>, t3: Token,
                p4: nat, m4: seq<Mode>, t4: Token, m5: seq<Mode>)
    requires p0 < |s| && m0 != [] && Step(s, p0, m0) == StepResult(t0, p1, m1)
    requires p1 < |s| && Step(s, p1, m1) == StepResult(t1, p2, m2)
    requires p2 < |s| && Step(s, p2, m2) == StepResult(t2, p3, m3)
    requires p3 < |s| && Step(s, p3, m3) == StepResult(t3, p4, m4)
    requires p4 < |s| && Step(s, p4, m4) == StepResult(t4, |s|, m5)
    ensures Lex(s, p0, m0) == LexResult([t0, t1, t2, t3, t4], m5)
  {
    LexCons(s, p0, m0, t0, p1, m1);
    LexFour(s, p1, m1, t1, p2, m2, t2, p3, m3, t3, p4, m4, t4, m5);
  }

  lemma LexSix(s: string, p0: nat, m0: seq<Mode>, t0: Token, p1: nat, m1: seq<Mode>, t1: Token,
               p2: nat, m2: seq<Mode>, t2: Token, p3: nat, m3: seq<Mode>, t3: Token,
               p4: nat, m4: seq<Mode>, t4: Token, p5: nat, m5: seq<Mode>, t5: Token, m6: seq<Mode>)
    requires p0 < |s| && m0 != [] && Step(s, p0, m0) == StepResult(t0, p1, m1)
    requires p1 < |s| && Step(s, p1, m1) == StepResult(t1, p2, m2)
    requires p2 < |s| && Step(s, p2, m2) == StepResult(t2, p3, m3)
    requires p3 < |s| && Step(s, p3, m3) == StepResult(t3, p4, m4)
    requires p4 < |s| && Step(s, p4, m4) == StepResult(t4, p5, m5)
    requires p5 < |s| && Step(s, p5, m5) == StepResult(t5, |s|, m6)
    ensures Lex(s, p0, m0) == LexResult([t0, t1, t2, t3, t4, t5], m6)
  {
    LexCons(s, p0, m0, t0, p1, m1);
    LexFive(s, p1, m1, t1, p2, m2, t2, p3, m3, t3, p4, m4, t4, p5, m5, t5, m6);
    SixTokens(t0, t1, t2, t3, t4, t5);
  }

  lemma SixTokens(t0: Token, t1: Token, t2: Token, t3: Token, t4: Token, t5: Token)
    ensures [t0] + [t1, t2, t3, t4, t5] == [t0, t1, t2, t3, t4, t5]
  {
  }

  lemma NotListedDefabc()
    ensures !InList("defabc", NamespaceWords) && !InList("defabc", DeclarationWords)
    ensures !InList("defabc", KeywordWords) && !InList("defabc", SortWords)
  {
  }

  lemma DefabcUnlisted(s: string)
    requires s == "defabc"
    ensures Unlisted(s, 0) && NameLen(s, 0) == 6
  {
    RunLenExact(Word, s, 0, 6);
    RunLenExact(IdentRest, s, 1, 5);
    NotListedDefabc();
    assert !NoncomputableTheoryAt(s, 0);
  }

  lemma DefabcStep(s: string)
    requires s == "defabc"
    ensures Step(s, 0, [Root]) == StepResult(Token(0, Name, s), 6, [Root])
  {
    DefabcUnlisted(s);
    RootIdentifier(s, 0, [Root]);
    assert s[0..6] == s;
  }

  /** `\b` after a keyword: `defabc` is one `Name`, not `def` followed by `abc`. */
  lemma DefabcIsName(s: string)
    requires s == "defabc"
    ensures Tokenize(s) == LexResult([Token(0, Name, "defabc")], [Root])
  {
    DefabcStep(s);
    LexLast(s, 0, [Root], Token(0, Name, "defabc"), [Root]);
  }

  lemma DefWord(s: string)
    requires s == "def"
    ensures WordAt(s, 0) == s && !Listed(s, 0, Namespaces) && Listed(s, 0, Declarations)
    ensures !NoncomputableTheoryAt(s, 0)
  {
    RunLenExact(Word, s, 0, 3);
    assert s[0..3] == s;
    assert !InList("def", NamespaceWords);
    assert DeclarationWords[2] == s;
  }

  /** `def` is a `Keyword.Declaration`. */
  lemma DefIsDeclaration(s: string)
    requires s == "def"
    ensures Tokenize(s) == LexResult([Token(0, KeywordDeclaration, "def")], [Root])
  {
    DefWord(s);
    RootDeclaration(s, 0, [Root]);
    LexLast(s, 0, [Root], Token(0, KeywordDeclaration, s), [Root]);
  }

  lemma AttributeWordStep(s: string)
    requires s == "attribute"
    ensures Step(s, 0, [Root]) == StepResult(Token(0, KeywordNamespace, s), 9, [Root])
  {
    RunLenExact(Word, s, 0, 9);
    assert NamespaceWords[14] == s;
    assert Listed(s, 0, Namespaces);
    RootNamespace(s, 0, [Root]);
    assert s[0..9] == s;
  }

  /** `attribute` is in the namespace list and in the declaration list; the namespace rule
      comes first, so it is a `Keyword.Namespace`. */
  lemma AttributeIsNamespace(s: string)
    requires s == "attribute"
    ensures Tokenize(s) == LexResult([Token(0, KeywordNamespace, "attribute")], [Root])
  {
    AttributeWordStep(s);
    LexLast(s, 0, [Root], Token(0, KeywordNamespace, s), [Root]);
  }

  lemma HexStep(s: string)
    requires s == "0x1F" || s == "0xZZ"
    ensures Step(s, 0, [Root]) == StepResult(Token(0, NumberInteger, s), 4, [Root])
  {
    assert StartsWith(s, 0, "0x");
    RunLenExact(AsciiAlnum, s, 2, 2);
    RootHex(s, 0, [Root]);
    assert s[0..4] == s;
  }

  /** `0x1F` is one hexadecimal `Number.Integer`. */
  lemma HexLiteral(s: string)
    requires s == "0x1F"
    ensures Tokenize(s) == LexResult([Token(0, NumberInteger, "0x1F")], [Root])
  {
    HexStep(s);
    LexLast(s, 0, [Root], Token(0, NumberInteger, s), [Root]);
  }

  /** The hexadecimal rule takes any ASCII letters after `0x`: `0xZZ` is one `Number.Integer` too. */
  lemma HexTakesAnyLetter(s: string)
    requires s == "0xZZ"
    ensures Tokenize(s) == LexResult([Token(0, NumberInteger, "0xZZ")], [Root])
  {
    HexStep(s);
    LexLast(s, 0, [Root], Token(0, NumberInteger, s), [Root]);
  }

  lemma BinaryDigitStep(s: string)
    requires s == "0b2"
    ensures Step(s, 0, [Root]) == StepResult(Token(0, NumberInteger, "0"), 1, [Root])
  {
    assert s[0..2][1] == 'b';
    RunLenExact(Binary, s, 2, 0);
    RunLenExact(Digit, s, 0, 1);
    RootDecimal(s, 0, [Root]);
  }

  lemma BinaryNameStep(s: string)
    requires s == "0b2"
    ensures Step(s, 1, [Root]) == StepResult(Token(1, Name, "b2"), 3, [Root])
  {
    assert !IsBoundary(s, 1);
    RunLenExact(IdentRest, s, 2, 1);
    RootIdentifier(s, 1, [Root]);
  }

  /** `0b2` is no binary literal: the decimal rule takes `0`, and `b2` is a `Name`. */
  lemma BadBinary(s: string)
    requires s == "0b2"
    ensures Tokenize(s) == LexResult([Token(0, NumberInteger, "0"), Token(1, Name, "b2")], [Root])
  {
    BinaryDigitStep(s);
    BinaryNameStep(s);
    LexTwo(s, 0, [Root], Token(0, NumberInteger, "0"), 1, [Root], Token(1, Name, "b2"), [Root]);
  }

  lemma EscapeSteps(s: string)
    requires s == "\"a\\nb\""
    ensures Step(s, 0, [Root]) == StepResult(Token(0, StringDouble, "\""), 1, [Root, StringMode])
    ensures Step(s, 2, [Root, StringMode]) == StepResult(Token(2, StringEscape, "\\n"), 4, [Root, StringMode])
  {
    RootQuote(s, 0, [Root]);
    StringEscapeStep(s, 2, [Root, StringMode]);
  }

  lemma EscapeRuns(s: string)
    requires s == "\"a\\nb\""
    ensures Step(s, 1, [Root, StringMode]) == StepResult(Token(1, StringDouble, "a"), 2, [Root, StringMode])
    ensures Step(s, 4, [Root, StringMode]) == StepResult(Token(4, StringDouble, "b"), 5, [Root, StringMode])
  {
    RunLenExact(NotBackslashQuote, s, 1, 1);
    StringRunStep(s, 1, [Root, StringMode]);
    RunLenExact(NotBackslashQuote, s, 4, 1);
    StringRunStep(s, 4, [Root, StringMode]);
  }

  lemma EscapeClose(s: string)
    requires s == "\"a\\nb\""
    ensures Step(s, 5, [Root, StringMode]) == StepResult(Token(5, StringDouble, "\""), 6, [Root])
  {
    StringCloseStep(s, 5, [Root, StringMode]);
  }

  /** A string with an escape in it: the quotes and the plain runs are `String.Double`, the
      escape `\n` is `String.Escape`, and the closing quote returns to root mode. */
  lemma StringWithEscape(s: string)
    requires s == "\"a\\nb\""
    ensures Tokenize(s) == LexResult([Token(0, StringDouble, "\""), Token(1, StringDouble, "a"),
                                      Token(2, StringEscape, "\\n"), Token(4, StringDouble, "b"),
                                      Token(5, StringDouble, "\"")], [Root])
  {
    EscapeSteps(s);
    EscapeRuns(s);
    EscapeClose(s);
    LexFive(s, 0, [Root], Token(0, StringDouble, "\""), 1, [Root, StringMode], Token(1, StringDouble, "a"),
            2, [Root, StringMode], Token(2, StringEscape, "\\n"), 4, [Root, StringMode], Token(4, StringDouble, "b"),
            5, [Root, StringMode], Token(5, StringDouble, "\""), [Root]);
  }

  lemma BadEscapeOpen(s: string)
    requires s == "\"\\q\""
    ensures Step(s, 0, [Root]) == StepResult(Token(0, StringDouble, "\""), 1, [Root, StringMode])
  {
    RootQuote(s, 0, [Root]);
  }

  lemma BadEscapeStep(s: string)
    requires s == "\"\\q\""
    ensures Step(s, 1, [Root, StringMode]) == StepResult(Token(1, Error, "\\"), 2, [Root, StringMode])
  {
    StringBadEscapeStep(s, 1, [Root, StringMode]);
  }

  lemma BadEscapeRest(s: string)
    requires s == "\"\\q\""
    ensures Step(s, 2, [Root, StringMode]) == StepResult(Token(2, StringDouble, "q"), 3, [Root, StringMode])
    ensures Step(s, 3, [Root, StringMode]) == StepResult(Token(3, StringDouble, "\""), 4, [Root])
  {
    RunLenExact(NotBackslashQuote, s, 2, 1);
    StringRunStep(s, 2, [Root, StringMode]);
    StringCloseStep(s, 3, [Root, StringMode]);
  }

  /** A backslash that begins no escape is an `Error` token, and the string goes on after it. */
  lemma StringWithBadEscape(s: string)
    requires s == "\"\\q\""
    ensures Tokenize(s) == LexResult([Token(0, StringDouble, "\""), Token(1, Error, "\\"),
                                      Token(2, StringDouble, "q"), Token(3, StringDouble, "\"")], [Root])
  {
    BadEscapeOpen(s);
    BadEscapeStep(s);
    BadEscapeRest(s);
    LexFour(s, 0, [Root], Token(0, StringDouble, "\""), 1, [Root, StringMode], Token(1, Error, "\\"),
            2, [Root, StringMode], Token(2, StringDouble, "q"), 3, [Root, StringMode], Token(3, StringDouble, "\""), [Root]);
  }

  lemma CharStep(s: string)
    requires s == "'a'" || s == "'\\n'" || s == "'\\x41'"
    ensures Step(s, 0, [Root]) == StepResult(Token(0, StringChar, s), |s|, [Root])
  {
    assert CharLiteralLen(s, 0) == Some(|s|);
    RootChar(s, 0, [Root]);
    assert s[0..|s|] == s;
  }

  /** Character literals: a plain character, a backslash escape and a `\x` escape, each one
      `String.Char` token. */
  lemma CharLiterals(s: string)
    requires s == "'a'" || s == "'\\n'" || s == "'\\x41'"
    ensures Tokenize(s) == LexResult([Token(0, StringChar, s)], [Root])
  {
    CharStep(s);
    LexLast(s, 0, [Root], Token(0, StringChar, s), [Root]);
  }

  lemma NestedOpenSteps(s: string)
    requires s == "/-a/-b-/"
    ensures Step(s, 0, [Root]) == StepResult(Token(0, Comment, "/-"), 2, [Root, CommentMode])
    ensures Step(s, 3, [Root, CommentMode]) ==
              StepResult(Token(3, CommentMultiline, "/-"), 5, [Root, CommentMode, CommentMode])
  {
    assert s[0..3][2] == 'a';
    RootCommentOpen(s, 0, [Root]);
    CommentNestStep(s, 3, [Root, CommentMode]);
  }

  lemma NestedInnerSteps(s: string)
    requires s == "/-a/-b-/"
    ensures Step(s, 2, [Root, CommentMode]) == StepResult(Token(2, CommentMultiline, "a"), 3, [Root, CommentMode])
    ensures Step(s, 5, [Root, CommentMode, CommentMode]) ==
              StepResult(Token(5, CommentMultiline, "b"), 6, [Root, CommentMode, CommentMode])
  {
    CommentCharStep(s, 2, [Root, CommentMode]);
    CommentCharStep(s, 5, [Root, CommentMode, CommentMode]);
  }

  lemma NestedCloseStep(s: string)
    requires s == "/-a/-b-/"
    ensures Step(s, 6, [Root, CommentMode, CommentMode]) ==
              StepResult(Token(6, CommentMultiline, "-/"), 8, [Root, CommentMode])
  {
    CommentCloseStep(s, 6, [Root, CommentMode, CommentMode]);
  }

  /** Comments nest: in `/-a/-b-/` the inner `/-` opens a second level and the one `-/`
      closes only that, so the input ends inside the outer comment. */
  lemma NestedCommentStaysOpen(s: string)
    requires s == "/-a/-b-/"
    ensures Tokenize(s) == LexResult([Token(0, Comment, "/-"), Token(2, CommentMultiline, "a"),
                                      Token(3, CommentMultiline, "/-"), Token(5, CommentMultiline, "b"),
                                      Token(6, CommentMultiline, "-/")], [Root, CommentMode])
  {
    NestedOpenSteps(s);
    NestedInnerSteps(s);
    NestedCloseStep(s);
    LexFive(s, 0, [Root], Token(0, Comment, "/-"), 2, [Root, CommentMode], Token(2, CommentMultiline, "a"),
            3, [Root, CommentMode], Token(3, CommentMultiline, "/-"), 5, [Root, CommentMode, CommentMode],
            Token(5, CommentMultiline, "b"), 6, [Root, CommentMode, CommentMode], Token(6, CommentMultiline, "-/"),
            [Root, CommentMode]);
  }

  lemma EarlyCloseSteps(s: string)
    requires s == "/-a-/b-/"
    ensures Step(s, 0, [Root]) == StepResult(Token(0, Comment, "/-"), 2, [Root, CommentMode])
    ensures Step(s, 2, [Root, CommentMode]) == StepResult(Token(2, CommentMultiline, "a"), 3, [Root, CommentMode])
    ensures Step(s, 3, [Root, CommentMode]) == StepResult(Token(3, CommentMultiline, "-/"), 5, [Root])
  {
    assert s[0..3][2] == 'a';
    RootCommentOpen(s, 0, [Root]);
    CommentCharStep(s, 2, [Root, CommentMode]);
    CommentCloseStep(s, 3, [Root, CommentMode]);
  }

  lemma EarlyCloseUnlisted(s: string)
    requires s == "/-a-/b-/"
    ensures Unlisted(s, 5) && NameLen(s, 5) == 1
  {
    RunLenExact(Word, s, 5, 1);
    RunLenExact(IdentRest, s, 6, 0);
  }

  lemma EarlyCloseName(s: string)
    requires s == "/-a-/b-/"
    ensures Step(s, 5, [Root]) == StepResult(Token(5, Name, "b"), 6, [Root])
  {
    EarlyCloseUnlisted(s);
    RootIdentifier(s, 5, [Root]);
  }

  lemma StrayOthers(s: string)
    requires s == "/-a-/b-/"
    ensures OtherSymbol(s, 6) && OtherSymbol(s, 7)
  {
    assert s[6..8][1] == '/';
  }

  lemma EarlyCloseStray(s: string)
    requires s == "/-a-/b-/"
    ensures Step(s, 6, [Root]) == StepResult(Token(6, NameBuiltinPseudo, "-"), 7, [Root])
  {
    StrayOthers(s);
    RootOther(s, 6, [Root]);
  }

  lemma EarlyCloseSlash(s: string)
    requires s == "/-a-/b-/"
    ensures Step(s, 7, [Root]) == StepResult(Token(7, NameBuiltinPseudo, "/"), 8, [Root])
  {
    StrayOthers(s);
    RootOther(s, 7, [Root]);
  }

  /** The first `-/` of an unnested comment returns to root: in `/-a-/b-/` the `b` is a
      `Name`, and the stray `-` and `/` are one `Name.Builtin.Pseudo` token each. */
  lemma CommentClosesAtFirstEnd(s: string)
    requires s == "/-a-/b-/"
    ensures Tokenize(s) == LexResult([Token(0, Comment, "/-"), Token(2, CommentMultiline, "a"),
                                      Token(3, CommentMultiline, "-/"), Token(5, Name, "b"),
                                      Token(6, NameBuiltinPseudo, "-"), Token(7, NameBuiltinPseudo, "/")], [Root])
  {
    EarlyCloseSteps(s);
    EarlyCloseName(s);
    EarlyCloseStray(s);
    EarlyCloseSlash(s);
    LexSix(s, 0, [Root], Token(0, Comment, "/-"), 2, [Root, CommentMode], Token(2, CommentMultiline, "a"),
           3, [Root, CommentMode], Token(3, CommentMultiline, "-/"), 5, [Root], Token(5, Name, "b"),
           6, [Root], Token(6, NameBuiltinPseudo, "-"), 7, [Root], Token(7, NameBuiltinPseudo, "/"), [Root]);
  }

  lemma DocOpenSteps(s: string)
    requires s == "/--a/-b-/"
    ensures Step(s, 0, [Root]) == StepResult(Token(0, StringDoc, "/--"), 3, [Root, DocstringMode])
    ensures Step(s, 7, [Root, DocstringMode]) == StepResult(Token(7, StringDoc, "-/"), 9, [Root])
  {
    RootDocOpen(s, 0, [Root]);
    DocCloseStep(s, 7, [Root, DocstringMode]);
  }

  lemma DocInnerSteps(s: string)
    requires s == "/--a/-b-/"
    ensures forall i | 3 <= i < 7 :: Step(s, i, [Root, DocstringMode]) ==
              StepResult(Token(i, StringDoc, s[i..i + 1]), i + 1, [Root, DocstringMode])
  {
    forall i | 3 <= i < 7
      ensures Step(s, i, [Root, DocstringMode]) == StepResult(Token(i, StringDoc, s[i..i + 1]), i + 1, [Root, DocstringMode])
    {
      assert s[i..i + 2][0] != '-' || s[i..i + 2][1] != '/';
      DocCharStep(s, i, [Root, DocstringMode]);
    }
  }

  /** Doc comments do not nest: in `/--a/-b-/` the inner `/-` is plain text and the `-/`
      closes the doc comment. */
  lemma DocCommentCloses(s: string)
    requires s == "/--a/-b-/"
    ensures Tokenize(s) == LexResult([Token(0, StringDoc, "/--"), Token(3, StringDoc, "a"), Token(4, StringDoc, "/"),
                                      Token(5, StringDoc, "-"), Token(6, StringDoc, "b"), Token(7, StringDoc, "-/")],
                                     [Root])
  {
    DocOpenSteps(s);
    DocInnerSteps(s);
    assert s[3..4] == "a" && s[4..5] == "/" && s[5..6] == "-" && s[6..7] == "b";
    var doc := [Root, DocstringMode];
    LexSix(s, 0, [Root], Token(0, StringDoc, "/--"), 3, doc, Token(3, StringDoc, "a"), 4, doc, Token(4, StringDoc, "/"),
           5, doc, Token(5, StringDoc, "-"), 6, doc, Token(6, StringDoc, "b"), 7, doc, Token(7, StringDoc, "-/"), [Root]);
  }

  lemma LineCommentStep(s: string)
    requires s == "-- a\nb"
    ensures Step(s, 0, [Root]) == StepResult(Token(0, CommentSingle, "-- a"), 4, [Root])
  {
    RunLenExact(NotNewline, s, 2, 2);
    RootLineComment(s, 0, [Root]);
  }

  lemma NewlineStep(s: string)
    requires s == "-- a\nb"
    ensures Step(s, 4, [Root]) == StepResult(Token(4, Text, "\n"), 5, [Root])
  {
    RunLenExact(Space, s, 4, 1);
    RootSpace(s, 4, [Root]);
  }

  lemma NextLineUnlisted(s: string)
    requires s == "-- a\nb"
    ensures Unlisted(s, 5) && NameLen(s, 5) == 1
  {
    RunLenExact(Word, s, 5, 1);
    RunLenExact(IdentRest, s, 6, 0);
  }

  lemma NextLineStep(s: string)
    requires s == "-- a\nb"
    ensures Step(s, 5, [Root]) == StepResult(Token(5, Name, "b"), 6, [Root])
  {
    NextLineUnlisted(s);
    RootIdentifier(s, 5, [Root]);
  }

  /** A line comment stops before the newline; the newline is `Text`, and the next line is
      scanned in root mode. */
  lemma LineCommentEndsAtNewline(s: string)
    requires s == "-- a\nb"
    ensures Tokenize(s) == LexResult([Token(0, CommentSingle, "-- a"), Token(4, Text, "\n"), Token(5, Name, "b")], [Root])
  {
    LineCommentStep(s);
    NewlineStep(s);
    NextLineStep(s);
    LexThree(s, 0, [Root], Token(0, CommentSingle, "-- a"), 4, [Root], Token(4, Text, "\n"),
             5, [Root], Token(5, Name, "b"), [Root]);
  }
}
