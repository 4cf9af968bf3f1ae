/** Block comments, doc comments and string literals as wholes: what the scan emits from an
    opener to the point where it is back in root mode. */
module Blocks {
  import opened Tokens
  import opened CharClasses
  import opened Patterns
  import opened LeanTable
  import opened Engine
  import opened ModeSteps
  import opened Invariants
  import opened RootSteps
  import opened SymbolSteps

  /** A block-comment body scanned with a depth counter instead of a mode stack: the tokens,
      the offset after the `-/` that brings the depth to 0 (or the end of the input), and the
      depth left there (0 when the comment was closed). */
  datatype Scanned = Scanned(tokens: seq<Token>, end: nat, depth: nat)

  /** The counter reading of a block comment at depth `depth`: `/-` counts one level up, `-/`
      one level down, and every other character is a token of its own. */
  function CommentScan(s: string, pos: nat, depth: nat): (r: Scanned)
    requires pos <= |s| && depth >= 1
    ensures pos <= r.end <= |s|
    ensures r.depth == 0 || r.end == |s|
    decreases |s| - pos
  {
    if pos == |s| then Scanned([], pos, depth)
    else if StartsWith(s, pos, "/-") then
      var r := CommentScan(s, pos + 2, depth + 1);
      Scanned([Token(pos, CommentMultiline, "/-")] + r.tokens, r.end, r.depth)
    else if StartsWith(s, pos, "-/") then
      if depth == 1 then Scanned([Token(pos, CommentMultiline, "-/")], pos + 2, 0)
      else
        var r := CommentScan(s, pos + 2, depth - 1);
        Scanned([Token(pos, CommentMultiline, "-/")] + r.tokens, r.end, r.depth)
    else
      var r := CommentScan(s, pos + 1, depth);
      Scanned([Token(pos, CommentMultiline, s[pos..pos + 1])] + r.tokens, r.end, r.depth)
  }

  /** The scan result that a reading `c` of a block stands for: when the block was closed,
      `c`'s tokens followed by `rest`, the scan in root mode after it; when it was not, `c`'s
      tokens, and the input ends inside the block with the stack `open`. */
  function Join(c: Scanned, rest: LexResult, open: seq<Mode>): LexResult
  {
    if c.depth == 0 then LexResult(c.tokens + rest.tokens, rest.stack) else LexResult(c.tokens, open)
  }

  /** The scan from `pos` inside `depth` open block comments, as `CommentScan` reads it. */
  function CommentReading(s: string, pos: nat, depth: nat): LexResult
    requires pos <= |s| && depth >= 1
  {
    var c := CommentScan(s, pos, depth);
    Join(c, Lex(s, c.end, [Root]), CommentStack(c.depth))
  }

  /** One more token in front of a reading is one more token in front of what it stands for. */
  lemma JoinCons(t: Token, c: Scanned, rest: LexResult, open: seq<Mode>)
    ensures Join(Scanned([t] + c.tokens, c.end, c.depth), rest, open)
            == LexResult([t] + Join(c, rest, open).tokens, Join(c, rest, open).stack)
  {
    if c.depth == 0 {
      assert [t] + (c.tokens + rest.tokens) == ([t] + c.tokens) + rest.tokens;
    }
  }

  /** Comments nest: inside `depth` open block comments the mode stack is a depth counter.
      The scan emits what `CommentScan` emits and then, when the depth reaches 0, goes on in
      root mode; an unclosed comment runs to the end of the input with its depth still open. */
  lemma {:induction false} CommentsNest(s: string, pos: nat, depth: nat)
    requires pos <= |s| && depth >= 1
    ensures Lex(s, pos, CommentStack(depth)) == CommentReading(s, pos, depth)
    decreases |s| - pos, 1
  {
    if pos == |s| {
      NestEnd(s, depth);
    } else if StartsWith(s, pos, "/-") {
      NestOpen(s, pos, depth, pos + 2, depth + 1);
    } else if StartsWith(s, pos, "-/") {
      NestClose(s, pos, depth, pos + 2, depth - 1);
    } else {
      NestChar(s, pos, depth, pos + 1);
    }
  }

  lemma NestEnd(s: string, depth: nat)
    requires depth >= 1
    ensures Lex(s, |s|, CommentStack(depth)) == CommentReading(s, |s|, depth)
  {
    assert CommentScan(s, |s|, depth) == Scanned([], |s|, depth);
  }

  /** `/-` inside a comment opens one more level. */
  lemma {:induction false} NestOpen(s: string, pos: nat, depth: nat, next: nat, deeper: nat)
    requires pos < |s| && depth >= 1 && StartsWith(s, pos, "/-") && next == pos + 2 && deeper == depth + 1
    ensures Lex(s, pos, CommentStack(depth)) == CommentReading(s, pos, depth)
    decreases |s| - pos, 0
  {
    CommentsNest(s, next, deeper);
    var stack := CommentStack(depth);
    var t := Token(pos, CommentMultiline, "/-");
    CommentStackTop(depth);
    CommentNestStep(s, pos, stack);
    LexCons(s, pos, stack, t, next, CommentStack(deeper));
    var c := CommentScan(s, next, deeper);
    assert CommentScan(s, pos, depth) == Scanned([t] + c.tokens, c.end, c.depth);
    JoinCons(t, c, Lex(s, c.end, [Root]), CommentStack(c.depth));
  }

  /** `-/` closes one level; at depth 1 it closes the comment and the scan is back in root mode. */
  lemma {:induction false} NestClose(s: string, pos: nat, depth: nat, next: nat, outer: nat)
    requires pos < |s| && depth >= 1 && StartsWith(s, pos, "-/") && !StartsWith(s, pos, "/-")
    requires next == pos + 2 && outer == depth - 1
    ensures Lex(s, pos, CommentStack(depth)) == CommentReading(s, pos, depth)
    decreases |s| - pos, 0
  {
    var stack := CommentStack(depth);
    var t := Token(pos, CommentMultiline, "-/");
    CommentStackTop(depth);
    CommentCloseStep(s, pos, stack);
    LexCons(s, pos, stack, t, next, CommentStack(outer));
    if outer == 0 {
      assert CommentScan(s, pos, depth) == Scanned([t], next, 0);
      assert CommentStack(0) == [Root];
    } else {
      CommentsNest(s, next, outer);
      var c := CommentScan(s, next, outer);
      assert CommentScan(s, pos, depth) == Scanned([t] + c.tokens, c.end, c.depth);
      JoinCons(t, c, Lex(s, c.end, [Root]), CommentStack(c.depth));
    }
  }

  /** Any other character is a token of its own and leaves the depth as it is. */
  lemma {:induction false} NestChar(s: string, pos: nat, depth: nat, next: nat)
    requires pos < |s| && depth >= 1 && !StartsWith(s, pos, "-/") && !StartsWith(s, pos, "/-") && next == pos + 1
    ensures Lex(s, pos, CommentStack(depth)) == CommentReading(s, pos, depth)
    decreases |s| - pos, 0
  {
    CommentsNest(s, next, depth);
    var stack := CommentStack(depth);
    var t := Token(pos, CommentMultiline, s[pos..next]);
    CommentStackTop(depth);
    if s[pos] == '/' || s[pos] == '-' {
      CommentDashStep(s, pos, stack);
    } else {
      CommentCharStep(s, pos, stack);
    }
    LexCons(s, pos, stack, t, next, stack);
    var c := CommentScan(s, next, depth);
    assert CommentScan(s, pos, depth) == Scanned([t] + c.tokens, c.end, c.depth);
    JoinCons(t, c, Lex(s, c.end, [Root]), CommentStack(c.depth));
  }

  /** A block comment seen from root mode: `/-` (not `/--`) is a `Comment` token, and the
      body is read with the depth counter starting at 1. */
  lemma BlockComment(s: string, pos: nat)
    requires pos < |s| && StartsWith(s, pos, "/-") && !StartsWith(s, pos, "/--")
    ensures var c := CommentScan(s, pos + 2, 1);
            Lex(s, pos, [Root]) == Join(Scanned([Token(pos, Comment, "/-")] + c.tokens, c.end, c.depth),
                                     Lex(s, c.end, [Root]), CommentStack(c.depth))
  {
    var t := Token(pos, Comment, "/-");
    RootCommentOpen(s, pos, [Root]);
    assert CommentStack(1) == [Root, CommentMode];
    LexCons(s, pos, [Root], t, pos + 2, CommentStack(1));
    CommentsNest(s, pos + 2, 1);
    var c := CommentScan(s, pos + 2, 1);
    JoinCons(t, c, Lex(s, c.end, [Root]), CommentStack(c.depth));
  }

  /** The reading of a doc comment body: every character is a token of its own up to the
      first `-/`, which closes it; `/-` inside it opens nothing. */
  function DocScan(s: string, pos: nat): (r: Scanned)
    requires pos <= |s|
    ensures pos <= r.end <= |s| && r.depth <= 1
    ensures r.depth == 0 ==>
              && pos + 2 <= r.end && StartsWith(s, r.end - 2, "-/")
              && forall i :: pos <= i < r.end - 2 ==> !StartsWith(s, i, "-/")
    ensures r.depth == 1 ==> r.end == |s| && forall i :: pos <= i < |s| ==> !StartsWith(s, i, "-/")
    decreases |s| - pos
  {
    if pos == |s| then Scanned([], pos, 1)
    else if StartsWith(s, pos, "-/") then Scanned([Token(pos, StringDoc, "-/")], pos + 2, 0)
    else
      var r := DocScan(s, pos + 1);
      Scanned([Token(pos, StringDoc, s[pos..pos + 1])] + r.tokens, r.end, r.depth)
  }

  /** The scan from `pos` inside a doc comment, as `DocScan` reads it. */
  function DocReading(s: string, pos: nat): LexResult
    requires pos <= |s|
  {
    var c := DocScan(s, pos);
    Join(c, Lex(s, c.end, [Root]), [Root, DocstringMode])
  }

  /** Doc comments do not nest: the scan inside one follows `DocScan`. */
  lemma {:induction false} DocstringsDoNotNest(s: string, pos: nat)
    requires pos <= |s|
    ensures Lex(s, pos, [Root, DocstringMode]) == DocReading(s, pos)
    decreases |s| - pos, 1
  {
    if pos == |s| {
      assert DocScan(s, pos) == Scanned([], pos, 1);
    } else if StartsWith(s, pos, "-/") {
      DocClose(s, pos, pos + 2);
    } else {
      DocChar(s, pos, pos + 1);
    }
  }

  /** `-/` closes the doc comment. */
  lemma DocClose(s: string, pos: nat, next: nat)
    requires pos < |s| && StartsWith(s, pos, "-/") && next == pos + 2
    ensures Lex(s, pos, [Root, DocstringMode]) == DocReading(s, pos)
  {
    var stack := [Root, DocstringMode];
    var t := Token(pos, StringDoc, "-/");
    DocCloseStep(s, pos, stack);
    LexCons(s, pos, stack, t, next, [Root]);
    assert DocScan(s, pos) == Scanned([t], next, 0);
  }

  /** Any other character, `/-` included, is a token of its own inside the doc comment. */
  lemma {:induction false} DocChar(s: string, pos: nat, next: nat)
    requires pos < |s| && !StartsWith(s, pos, "-/") && next == pos + 1
    ensures Lex(s, pos, [Root, DocstringMode]) == DocReading(s, pos)
    decreases |s| - pos, 0
  {
    DocstringsDoNotNest(s, next);
    var stack := [Root, DocstringMode];
    var t := Token(pos, StringDoc, s[pos..next]);
    DocCharStep(s, pos, stack);
    LexCons(s, pos, stack, t, next, stack);
    var c := DocScan(s, next);
    assert DocScan(s, pos) == Scanned([t] + c.tokens, c.end, c.depth);
    JoinCons(t, c, Lex(s, c.end, [Root]), stack);
  }

  /** A doc comment seen from root mode: `/--` is a `String.Doc` token, and the body runs to
      the first `-/` after it. */
  lemma DocComment(s: string, pos: nat)
    requires pos < |s| && StartsWith(s, pos, "/--")
    ensures var c := DocScan(s, pos + 3);
            Lex(s, pos, [Root]) == Join(Scanned([Token(pos, StringDoc, "/--")] + c.tokens, c.end, c.depth),
                                     Lex(s, c.end, [Root]), [Root, DocstringMode])
  {
    var t := Token(pos, StringDoc, "/--");
    RootDocOpen(s, pos, [Root]);
    LexCons(s, pos, [Root], t, pos + 3, [Root, DocstringMode]);
    DocstringsDoNotNest(s, pos + 3);
    var c := DocScan(s, pos + 3);
    JoinCons(t, c, Lex(s, c.end, [Root]), [Root, DocstringMode]);
  }

  /** The token a string body starts with at `pos`, before its closing `"`: a run of
      characters other than `\` and `"`, one of the escapes `\n`, `\"` and `\\`, or a lone
      backslash as an error. */
  function StringPiece(s: string, pos: nat): (t: Token)
    requires pos < |s| && s[pos] != '"'
    ensures t.start == pos && 0 < |t.text| && pos + |t.text| <= |s|
    ensures s[pos] == '\\' <==> t.kind != StringDouble
  {
    if s[pos] == '\\' then
      if pos + 1 < |s| && InClass(StringEscapable, s[pos + 1]) then Token(pos, StringEscape, s[pos..pos + 2])
      else Token(pos, Error, s[pos..pos + 1])
    else
      assert InClass(NotBackslashQuote, s[pos]);
      Token(pos, StringDouble, s[pos..pos + RunLen(NotBackslashQuote, s, pos)])
  }

  /** Where the piece at `pos` ends. */
  function StringPieceEnd(s: string, pos: nat): (e: nat)
    requires pos < |s| && s[pos] != '"'
    ensures pos < e <= |s|
  {
    pos + |StringPiece(s, pos).text|
  }

  /** The reading of a string body: its pieces, up to the first `"` that is not part of an
      escape. */
  function StringScan(s: string, pos: nat): (r: Scanned)
    requires pos <= |s|
    ensures pos <= r.end <= |s| && r.depth <= 1
    decreases |s| - pos
  {
    if pos == |s| then Scanned([], pos, 1)
    else if s[pos] == '"' then Scanned([Token(pos, StringDouble, "\"")], pos + 1, 0)
    else
      var r := StringScan(s, StringPieceEnd(s, pos));
      Scanned([StringPiece(s, pos)] + r.tokens, r.end, r.depth)
  }

  /** A string body read to its end is closed by the `"` just before where the reading
      stops; one that is not closed runs to the end of the input. */
  lemma {:induction false} StringScanEnds(s: string, pos: nat)
    requires pos <= |s|
    ensures var r := StringScan(s, pos);
            && (r.depth == 0 ==> pos < r.end && s[r.end - 1] == '"')
            && (r.depth == 1 ==> r.end == |s|)
    decreases |s| - pos
  {
    if pos < |s| && s[pos] != '"' {
      StringScanEnds(s, StringPieceEnd(s, pos));
      StringScanPiece(s, pos);
    }
  }

  /** The scan from `pos` inside a string, as `StringScan` reads it. */
  function StringReading(s: string, pos: nat): LexResult
    requires pos <= |s|
  {
    var c := StringScan(s, pos);
    Join(c, Lex(s, c.end, [Root]), [Root, StringMode])
  }

  /** One step in the `string` mode, anywhere but at a `"`, emits the piece at the cursor and
      stays in the string: rule 0 for a run, rule 1 for an escape, and for a backslash no
      rule matches, so it is a one-character `Error` token. */
  lemma StringPieceStep(s: string, pos: nat)
    requires pos < |s| && s[pos] != '"'
    ensures Step(s, pos, [Root, StringMode]) == StepResult(StringPiece(s, pos), StringPieceEnd(s, pos), [Root, StringMode])
  {
    var stack := [Root, StringMode];
    if s[pos] == '\\' {
      if pos + 1 < |s| && InClass(StringEscapable, s[pos + 1]) {
        StringEscapeStep(s, pos, stack);
      } else {
        StringBadEscapeStep(s, pos, stack);
      }
    } else {
      StringRunStep(s, pos, stack);
    }
  }

  /** The scan inside a string follows `StringScan`: it ends at the first unescaped `"`, and
      a backslash that starts no escape is an `Error` token that does not leave the string. */
  lemma {:induction false} StringsEnd(s: string, pos: nat)
    requires pos <= |s|
    ensures Lex(s, pos, [Root, StringMode]) == StringReading(s, pos)
    decreases |s| - pos, 1
  {
    if pos == |s| {
      assert StringScan(s, pos) == Scanned([], pos, 1);
    } else if s[pos] == '"' {
      StringClose(s, pos, pos + 1);
    } else {
      StringBody(s, pos);
    }
  }

  /** `"` closes the string. */
  lemma StringClose(s: string, pos: nat, next: nat)
    requires pos < |s| && s[pos] == '"' && next == pos + 1
    ensures Lex(s, pos, [Root, StringMode]) == StringReading(s, pos)
  {
    var stack := [Root, StringMode];
    var t := Token(pos, StringDouble, "\"");
    StringCloseStep(s, pos, stack);
    LexCons(s, pos, stack, t, next, [Root]);
    assert StringScan(s, pos) == Scanned([t], next, 0);
  }

  /** Any other piece is a token of its own, and the string goes on after it. */
  lemma {:induction false} StringBody(s: string, pos: nat)
    requires pos < |s| && s[pos] != '"'
    ensures Lex(s, pos, [Root, StringMode]) == StringReading(s, pos)
    decreases |s| - pos, 0
  {
    StringsEnd(s, StringPieceEnd(s, pos));
    var stack := [Root, StringMode];
    StringPieceStep(s, pos);
    LexCons(s, pos, stack, StringPiece(s, pos), StringPieceEnd(s, pos), stack);
    StringScanPiece(s, pos);
    var c := StringScan(s, StringPieceEnd(s, pos));
    JoinCons(StringPiece(s, pos), c, Lex(s, c.end, [Root]), stack);
  }

  /** Past anything but a `"`, the reading of a string body is its first piece followed by
      the reading from the end of that piece. */
  lemma StringScanPiece(s: string, pos: nat)
    requires pos < |s| && s[pos] != '"'
    ensures var c := StringScan(s, StringPieceEnd(s, pos));
            StringScan(s, pos) == Scanned([StringPiece(s, pos)] + c.tokens, c.end, c.depth)
  {
  }

  /** A string seen from root mode: `"` is a `String.Double` token followed by the body. */
  lemma StringLiteral(s: string, pos: nat)
    requires pos < |s| && s[pos] == '"'
    ensures var c := StringScan(s, pos + 1);
            Lex(s, pos, [Root]) == Join(Scanned([Token(pos, StringDouble, "\"")] + c.tokens, c.end, c.depth),
                                     Lex(s, c.end, [Root]), [Root, StringMode])
  {
    var t := Token(pos, StringDouble, "\"");
    RootQuote(s, pos, [Root]);
    LexCons(s, pos, [Root], t, pos + 1, [Root, StringMode]);
    StringsEnd(s, pos + 1);
    var c := StringScan(s, pos + 1);
    JoinCons(t, c, Lex(s, c.end, [Root]), [Root, StringMode]);
  }
}
