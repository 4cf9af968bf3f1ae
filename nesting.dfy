/** The two nesting inputs worked out through the block readings: a balanced nested comment,
    which returns to root mode, and a doc comment with `/--` inside it, which does not nest. */
module NestingExamples {
  import opened Tokens
  import opened CharClasses
  import opened Patterns
  import opened LeanTable
  import opened Engine
  import opened Invariants
  import opened Blocks
  import opened WordMatch
  import opened RootSteps
  import opened WordSteps
  import opened SymbolSteps
  import opened Examples

  // One step of each reading, stated from the characters under the cursor.

  lemma ScanChar(s: string, pos: nat, depth: nat)
    requires pos < |s| && depth >= 1 && s[pos] != '/' && s[pos] != '-'
    ensures var c := CommentScan(s, pos + 1, depth);
            CommentScan(s, pos, depth) == Scanned([Token(pos, CommentMultiline, [s[pos]])] + c.tokens, c.end, c.depth)
  {
    assert !StartsWith(s, pos, "/-") && !StartsWith(s, pos, "-/") by {
      assert pos + 2 <= |s| ==> s[pos..pos + 2][0] == s[pos];
    }
    assert s[pos..pos + 1] == [s[pos]];
  }

  lemma ScanOpen(s: string, pos: nat, depth: nat)
    requires pos + 1 < |s| && depth >= 1 && s[pos] == '/' && s[pos + 1] == '-'
    ensures var c := CommentScan(s, pos + 2, depth + 1);
            CommentScan(s, pos, depth) == Scanned([Token(pos, CommentMultiline, "/-")] + c.tokens, c.end, c.depth)
  {
    assert StartsWith(s, pos, "/-");
  }

  lemma ScanClose(s: string, pos: nat, depth: nat)
    requires pos + 1 < |s| && depth >= 2 && s[pos] == '-' && s[pos + 1] == '/'
    ensures var c := CommentScan(s, pos + 2, depth - 1);
            CommentScan(s, pos, depth) == Scanned([Token(pos, CommentMultiline, "-/")] + c.tokens, c.end, c.depth)
  {
    assert StartsWith(s, pos, "-/");
    assert !StartsWith(s, pos, "/-") by {
      assert s[pos..pos + 2][0] == '-';
    }
  }

  lemma ScanCloseLast(s: string, pos: nat)
    requires pos + 1 < |s| && s[pos] == '-' && s[pos + 1] == '/'
    ensures CommentScan(s, pos, 1) == Scanned([Token(pos, CommentMultiline, "-/")], pos + 2, 0)
  {
    assert StartsWith(s, pos, "-/");
    assert !StartsWith(s, pos, "/-") by {
      assert s[pos..pos + 2][0] == '-';
    }
  }

  lemma DocStepChar(s: string, pos: nat)
    requires pos < |s| && !(pos + 1 < |s| && s[pos] == '-' && s[pos + 1] == '/')
    ensures var c := DocScan(s, pos + 1);
            DocScan(s, pos) == Scanned([Token(pos, StringDoc, [s[pos]])] + c.tokens, c.end, c.depth)
  {
    assert !StartsWith(s, pos, "-/") by {
      if pos + 2 <= |s| {
        assert s[pos..pos + 2][0] == s[pos] && s[pos..pos + 2][1] == s[pos + 1];
      }
    }
    assert s[pos..pos + 1] == [s[pos]];
  }

  lemma DocStepClose(s: string, pos: nat)
    requires pos + 1 < |s| && s[pos] == '-' && s[pos + 1] == '/'
    ensures DocScan(s, pos) == Scanned([Token(pos, StringDoc, "-/")], pos + 2, 0)
  {
    assert StartsWith(s, pos, "-/");
  }

  /** The scan at the end of the input produces nothing and keeps the stack. */
  lemma AtEnd(s: string)
    ensures Lex(s, |s|, [Root]) == LexResult([], [Root])
  {
  }

  /** `BlockComment` at offset 0, for a comment whose reading closes at the end of the input. */
  lemma ClosedAtEnd(s: string, body: seq<Token>)
    requires StartsWith(s, 0, "/-") && !StartsWith(s, 0, "/--")
    requires CommentScan(s, 2, 1) == Scanned(body, |s|, 0)
    ensures var c := CommentScan(s, 2, 1);
            Lex(s, 0, [Root]) == Join(Scanned([Token(0, Comment, "/-")] + c.tokens, c.end, c.depth),
                                     Lex(s, c.end, [Root]), CommentStack(c.depth))
  {
    BlockComment(s, 0);
  }

  /** An input that is one block comment, closed at its end, scans as `/-` and the reading
      of the body. */
  lemma WholeComment(s: string, body: seq<Token>)
    requires StartsWith(s, 0, "/-") && !StartsWith(s, 0, "/--")
    requires CommentScan(s, 2, 1) == Scanned(body, |s|, 0)
    ensures Tokenize(s) == LexResult([Token(0, Comment, "/-")] + body, [Root])
  {
    ClosedAtEnd(s, body);
    AtEnd(s);
    assert ([Token(0, Comment, "/-")] + body) + [] == [Token(0, Comment, "/-")] + body;
  }

  /** An input that opens with a doc comment closed at `end` scans as `/--`, the reading of
      the doc comment, and the scan in root mode from `end`. */
  lemma LeadingDocComment(s: string, body: seq<Token>, end: nat, rest: seq<Token>)
    requires StartsWith(s, 0, "/--") && end <= |s|
    requires DocScan(s, 3) == Scanned(body, end, 0)
    requires Lex(s, end, [Root]) == LexResult(rest, [Root])
    ensures Tokenize(s) == LexResult([Token(0, StringDoc, "/--")] + body + rest, [Root])
  {
    DocComment(s, 0);
  }

  // `/- a /- b -/ c -/`: the body is read with the depth counter.

  lemma BalancedChars(s: string)
    requires s == "/- a /- b -/ c -/"
    ensures |s| == 17 && s[2] == ' ' && s[3] == 'a' && s[4] == ' ' && s[5] == '/'
          && s[6] == '-' && s[7] == ' ' && s[8] == 'b' && s[9] == ' ' && s[10] == '-'
          && s[11] == '/' && s[12] == ' ' && s[13] == 'c' && s[14] == ' ' && s[15] == '-'
          && s[16] == '/'
  {
  }

  /** From just after the outer `/-`: the inner `/-` raises the depth to 2, the first `-/`
      lowers it to 1, and the second `-/` ends the comment at offset 17. */
  lemma BalancedBody(s: string)
    requires |s| == 17 && s[2] == ' ' && s[3] == 'a' && s[4] == ' ' && s[5] == '/'
          && s[6] == '-' && s[7] == ' ' && s[8] == 'b' && s[9] == ' ' && s[10] == '-'
          && s[11] == '/' && s[12] == ' ' && s[13] == 'c' && s[14] == ' ' && s[15] == '-'
          && s[16] == '/'
    ensures CommentScan(s, 2, 1) ==
            Scanned([Token(2, CommentMultiline, " ")] + ([Token(3, CommentMultiline, "a")] + (
              [Token(4, CommentMultiline, " ")] + ([Token(5, CommentMultiline, "/-")] + (
              [Token(7, CommentMultiline, " ")] + ([Token(8, CommentMultiline, "b")] + (
              [Token(9, CommentMultiline, " ")] + ([Token(10, CommentMultiline, "-/")] + (
              [Token(12, CommentMultiline, " ")] + ([Token(13, CommentMultiline, "c")] + (
              [Token(14, CommentMultiline, " ")] + ([Token(15, CommentMultiline, "-/")]))))))))))), 17, 0)
  {
    ScanChar(s, 2, 1); ScanChar(s, 3, 1); ScanChar(s, 4, 1); ScanOpen(s, 5, 1);
    ScanChar(s, 7, 2); ScanChar(s, 8, 2); ScanChar(s, 9, 2); ScanClose(s, 10, 2);
    ScanChar(s, 12, 1); ScanChar(s, 13, 1); ScanChar(s, 14, 1); ScanCloseLast(s, 15);
  }

  lemma BalancedBodyListed()
    ensures [Token(2, CommentMultiline, " ")] + ([Token(3, CommentMultiline, "a")] + (
            [Token(4, CommentMultiline, " ")] + ([Token(5, CommentMultiline, "/-")] + (
            [Token(7, CommentMultiline, " ")] + ([Token(8, CommentMultiline, "b")] + (
            [Token(9, CommentMultiline, " ")] + ([Token(10, CommentMultiline, "-/")] + (
            [Token(12, CommentMultiline, " ")] + ([Token(13, CommentMultiline, "c")] + (
            [Token(14, CommentMultiline, " ")] + ([Token(15, CommentMultiline, "-/")]))))))))))) ==
      [Token(2, CommentMultiline, " "), Token(3, CommentMultiline, "a"), Token(4, CommentMultiline, " "),
       Token(5, CommentMultiline, "/-"), Token(7, CommentMultiline, " "), Token(8, CommentMultiline, "b"),
       Token(9, CommentMultiline, " "), Token(10, CommentMultiline, "-/"), Token(12, CommentMultiline, " "),
       Token(13, CommentMultiline, "c"), Token(14, CommentMultiline, " "), Token(15, CommentMultiline, "-/")]
  {
  }

  /** Comments nest: in `/- a /- b -/ c -/` the inner `/-` opens a second level, the first
      `-/` closes only that one, and the second `-/` returns to root mode at the end. */
  lemma BalancedCommentCloses(s: string)
    requires s == "/- a /- b -/ c -/"
    ensures Tokenize(s) ==
            LexResult([Token(0, Comment, "/-")] +
                      [Token(2, CommentMultiline, " "), Token(3, CommentMultiline, "a"), Token(4, CommentMultiline, " "),
                       Token(5, CommentMultiline, "/-"), Token(7, CommentMultiline, " "), Token(8, CommentMultiline, "b"),
                       Token(9, CommentMultiline, " "), Token(10, CommentMultiline, "-/"), Token(12, CommentMultiline, " "),
                       Token(13, CommentMultiline, "c"), Token(14, CommentMultiline, " "), Token(15, CommentMultiline, "-/")], [Root])
  {
    BalancedChars(s);
    BalancedBody(s);
    BalancedBodyListed();
    assert s[0..3][2] == ' ';
    WholeComment(s, [Token(2, CommentMultiline, " "), Token(3, CommentMultiline, "a"), Token(4, CommentMultiline, " "),
                     Token(5, CommentMultiline, "/-"), Token(7, CommentMultiline, " "), Token(8, CommentMultiline, "b"),
                     Token(9, CommentMultiline, " "), Token(10, CommentMultiline, "-/"), Token(12, CommentMultiline, " "),
                     Token(13, CommentMultiline, "c"), Token(14, CommentMultiline, " "), Token(15, CommentMultiline, "-/")]);
  }

  // `/-- a /-- b -/ c -/`: the doc comment ends at the first `-/`, and ` c -/` is in root mode.

  lemma DocChars(s: string)
    requires s == "/-- a /-- b -/ c -/"
    ensures |s| == 19 && s[3] == ' ' && s[4] == 'a' && s[5] == ' ' && s[6] == '/'
          && s[7] == '-' && s[8] == '-' && s[9] == ' ' && s[10] == 'b' && s[11] == ' '
          && s[12] == '-' && s[13] == '/'
  {
  }

  /** From just after `/--`: the inner `/--` is three characters of doc text, and the first
      `-/`, at offset 12, closes the doc comment. */
  lemma DocBody(s: string)
    requires |s| == 19 && s[3] == ' ' && s[4] == 'a' && s[5] == ' ' && s[6] == '/'
          && s[7] == '-' && s[8] == '-' && s[9] == ' ' && s[10] == 'b' && s[11] == ' '
          && s[12] == '-' && s[13] == '/'
    ensures DocScan(s, 3) ==
            Scanned([Token(3, StringDoc, " ")] + ([Token(4, StringDoc, "a")] + (
              [Token(5, StringDoc, " ")] + ([Token(6, StringDoc, "/")] + (
              [Token(7, StringDoc, "-")] + ([Token(8, StringDoc, "-")] + (
              [Token(9, StringDoc, " ")] + ([Token(10, StringDoc, "b")] + (
              [Token(11, StringDoc, " ")] + ([Token(12, StringDoc, "-/")]))))))))), 14, 0)
  {
    DocStepChar(s, 3); DocStepChar(s, 4); DocStepChar(s, 5); DocStepChar(s, 6);
    DocStepChar(s, 7); DocStepChar(s, 8); DocStepChar(s, 9); DocStepChar(s, 10);
    DocStepChar(s, 11); DocStepClose(s, 12);
  }

  lemma DocBodyListed()
    ensures [Token(3, StringDoc, " ")] + ([Token(4, StringDoc, "a")] + (
            [Token(5, StringDoc, " ")] + ([Token(6, StringDoc, "/")] + (
            [Token(7, StringDoc, "-")] + ([Token(8, StringDoc, "-")] + (
            [Token(9, StringDoc, " ")] + ([Token(10, StringDoc, "b")] + (
            [Token(11, StringDoc, " ")] + ([Token(12, StringDoc, "-/")]))))))))) ==
      [Token(3, StringDoc, " "), Token(4, StringDoc, "a"), Token(5, StringDoc, " "),
       Token(6, StringDoc, "/"), Token(7, StringDoc, "-"), Token(8, StringDoc, "-"),
       Token(9, StringDoc, " "), Token(10, StringDoc, "b"), Token(11, StringDoc, " "),
       Token(12, StringDoc, "-/")]
  {
  }

  lemma RestSpaces(s: string)
    requires s == "/-- a /-- b -/ c -/"
    ensures Step(s, 14, [Root]) == StepResult(Token(14, Text, " "), 15, [Root])
    ensures Step(s, 16, [Root]) == StepResult(Token(16, Text, " "), 17, [Root])
  {
    RunLenExact(Space, s, 14, 1);
    RootSpace(s, 14, [Root]);
    RunLenExact(Space, s, 16, 1);
    RootSpace(s, 16, [Root]);
  }

  lemma RestUnlisted(s: string)
    requires s == "/-- a /-- b -/ c -/"
    ensures Unlisted(s, 15) && NameLen(s, 15) == 1
  {
    RunLenExact(Word, s, 15, 1);
    RunLenExact(IdentRest, s, 16, 0);
  }

  lemma RestName(s: string)
    requires s == "/-- a /-- b -/ c -/"
    ensures Step(s, 15, [Root]) == StepResult(Token(15, Name, "c"), 16, [Root])
  {
    RestUnlisted(s);
    RootIdentifier(s, 15, [Root]);
  }

  lemma RestOthers(s: string)
    requires s == "/-- a /-- b -/ c -/"
    ensures OtherSymbol(s, 17) && OtherSymbol(s, 18)
  {
    assert s[17..19][1] == '/';
  }

  lemma RestDash(s: string)
    requires s == "/-- a /-- b -/ c -/"
    ensures Step(s, 17, [Root]) == StepResult(Token(17, NameBuiltinPseudo, "-"), 18, [Root])
  {
    RestOthers(s);
    RootOther(s, 17, [Root]);
  }

  lemma RestSlash(s: string)
    requires s == "/-- a /-- b -/ c -/"
    ensures Step(s, 18, [Root]) == StepResult(Token(18, NameBuiltinPseudo, "/"), 19, [Root])
  {
    RestOthers(s);
    RootOther(s, 18, [Root]);
  }

  /** What follows the doc comment is scanned in root mode. */
  lemma DocRest(s: string)
    requires s == "/-- a /-- b -/ c -/"
    ensures Lex(s, 14, [Root]) == LexResult([Token(14, Text, " "), Token(15, Name, "c"), Token(16, Text, " "),
                                             Token(17, NameBuiltinPseudo, "-"), Token(18, NameBuiltinPseudo, "/")], [Root])
  {
    RestSpaces(s);
    RestName(s);
    RestDash(s);
    RestSlash(s);
    LexFive(s, 14, [Root], Token(14, Text, " "), 15, [Root], Token(15, Name, "c"), 16, [Root], Token(16, Text, " "),
            17, [Root], Token(17, NameBuiltinPseudo, "-"), 18, [Root], Token(18, NameBuiltinPseudo, "/"), [Root]);
  }

  /** Doc comments do not nest: in `/-- a /-- b -/ c -/` the inner `/--` is doc text, the
      first `-/` closes the doc comment, and ` c -/` is scanned in root mode, where the stray
      `-` and `/` are `Name.Builtin.Pseudo` tokens. */
  lemma DocInsideDocCloses(s: string)
    requires s == "/-- a /-- b -/ c -/"
    ensures Tokenize(s) ==
            LexResult([Token(0, StringDoc, "/--")] +
                      [Token(3, StringDoc, " "), Token(4, StringDoc, "a"), Token(5, StringDoc, " "),
                       Token(6, StringDoc, "/"), Token(7, StringDoc, "-"), Token(8, StringDoc, "-"),
                       Token(9, StringDoc, " "), Token(10, StringDoc, "b"), Token(11, StringDoc, " "),
                       Token(12, StringDoc, "-/")] +
                      [Token(14, Text, " "), Token(15, Name, "c"), Token(16, Text, " "),
                       Token(17, NameBuiltinPseudo, "-"), Token(18, NameBuiltinPseudo, "/")], [Root])
  {
    DocChars(s);
    DocBody(s);
    DocBodyListed();
    DocRest(s);
    LeadingDocComment(s, [Token(3, StringDoc, " "), Token(4, StringDoc, "a"), Token(5, StringDoc, " "),
                         Token(6, StringDoc, "/"), Token(7, StringDoc, "-"), Token(8, StringDoc, "-"),
                         Token(9, StringDoc, " "), Token(10, StringDoc, "b"), Token(11, StringDoc, " "),
                         Token(12, StringDoc, "-/")], 14,
                      [Token(14, Text, " "), Token(15, Name, "c"), Token(16, Text, " "),
                       Token(17, NameBuiltinPseudo, "-"), Token(18, NameBuiltinPseudo, "/")]);
  }
}
