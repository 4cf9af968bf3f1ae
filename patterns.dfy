/** The regular expressions of the rule table, each hand-coded as a matcher that is
    anchored at a position and returns the length of the match it finds there. */
module Patterns {
  import opened Tokens
  import opened CharClasses
  import opened LeanWords

  /** The character classes the patterns use. */
  datatype Class =
    | Space              // \s
    | NonSpace           // \S
    | Digit              // \d
    | AsciiAlnum         // [A-Za-z0-9]
    | Binary             // [01]
    | LowerAscii         // [a-z]
    | IdentRest          // continuation class of the identifier rule
    | Word               // \w   (the class \b looks at)
    | WordOrPrime        // [\w']
    | NotNewline         // .   (no DOTALL flag)
    | NotCloseBracket    // [^\]]
    | NotSlashDash       // [^/-]
    | SlashDash          // [/-]
    | NotBackslashQuote  // [^\\"]
    | StringEscapable    // [n"\\]
    | CharEscapable      // [\\"'ntbr ]

  predicate InClass(k: Class, c: char)
  {
    match k
    case Space => IsSpace(c)
    case NonSpace => !IsSpace(c)
    case Digit => IsDigit(c)
    case AsciiAlnum => IsAsciiAlnum(c)
    case Binary => c == '0' || c == '1'
    case LowerAscii => 'a' <= c <= 'z'
    case IdentRest => IsIdentRest(c)
    case Word => IsWord(c)
    case WordOrPrime => IsWord(c) || c == '\''
    case NotNewline => c != '\n'
    case NotCloseBracket => c != ']'
    case NotSlashDash => c != '/' && c != '-'
    case SlashDash => c == '/' || c == '-'
    case NotBackslashQuote => c != '\\' && c != '"'
    case StringEscapable => c == 'n' || c == '"' || c == '\\'
    case CharEscapable =>
      c == '\\' || c == '"' || c == '\'' || c == 'n' || c == 't' || c == 'b' || c == 'r' || c == ' '
  }

  /** The pattern shapes that occur in the rule table. */
  datatype Pattern =
    | Plus(cls: Class)                                     // cls+ (greedy)
    | One(cls: Class)                                      // a single character of cls
    | Literal(text: string)                                // a fixed string
    | LineComment                                          // --.*?$ (MULTILINE)
    | Words(list: WordList, before: bool, after: bool)     // words(...), \b prefix / \b suffix
    | Attribute                                            // @\[[^\]]*\]
    | Identifier                                           // start class, then continuation class*
    | Prefixed(lead: string, cls: Class)                   // lead cls+
    | Escape                                               // \\[n"\\]
    | CharLiteral                                          // '(?:\\[\\"'ntbr ]|\\x[0-9a-fA-F]{2}|.)'
    | Variable                                             // [~?][a-z][\w']*:

  /** Only literals and word lists could be empty; the table has neither empty. */
  predicate ValidPattern(p: Pattern)
  {
    match p
    case Literal(t) => t != []
    case Words(l, _, _) => forall i :: 0 <= i < |ListOf(l)| ==> |ListOf(l)[i]| > 0
    case _ => true
  }

  /** The length of the longest run of class `k` characters starting at `pos`. */
  function RunLen(k: Class, s: string, pos: nat): (n: nat)
    requires pos <= |s|
    ensures pos + n <= |s|
    ensures forall i :: pos <= i < pos + n ==> InClass(k, s[i])
    ensures pos + n == |s| || !InClass(k, s[pos + n])
    decreases |s| - pos
  {
    if pos < |s| && InClass(k, s[pos]) then 1 + RunLen(k, s, pos + 1) else 0
  }

  /** `t` occurs in `s` at `pos`. */
  predicate StartsWith(s: string, pos: nat, t: string)
  {
    pos + |t| <= |s| && s[pos..pos + |t|] == t
  }

  /** `\b` at index `i`: exactly one of the characters around `i` is a word character
      (a position outside the string counts as a non-word character). */
  predicate IsBoundary(s: string, i: nat)
    requires i <= |s|
  {
    (0 < i && IsWord(s[i - 1])) != (i < |s| && IsWord(s[i]))
  }

  /** Word `w` of a `words(...)` list matches at `pos`, with the required boundaries. */
  predicate WordMatches(w: string, before: bool, after: bool, s: string, pos: nat)
    requires pos <= |s|
  {
    && StartsWith(s, pos, w)
    && (before ==> IsBoundary(s, pos))
    && (after ==> IsBoundary(s, pos + |w|))
  }

  /** The index of the longest word of `ws` that matches at `pos`, if any does. */
  function LongestWord(ws: seq<string>, before: bool, after: bool, s: string, pos: nat): (r: Option<nat>)
    requires pos <= |s|
    ensures r.Some? ==> r.value < |ws| && WordMatches(ws[r.value], before, after, s, pos)
    ensures forall i :: 0 <= i < |ws| && WordMatches(ws[i], before, after, s, pos) ==>
              r.Some? && |ws[i]| <= |ws[r.value]|
    decreases |ws|
  {
    if ws == [] then None
    else
      var rest := LongestWord(ws[1..], before, after, s, pos);
      if WordMatches(ws[0], before, after, s, pos) && (rest.None? || |ws[1..][rest.value]| < |ws[0]|)
      then Some(0)
      else if rest.Some? then Some(rest.value + 1)
      else None
  }

  /** The character literal rule: the three alternatives are tried in order, each followed by
      the closing quote, so the first one that closes wins. */
  function CharLiteralLen(s: string, pos: nat): (r: Option<nat>)
    requires pos < |s| && s[pos] == '\''
    ensures r.Some? ==> r.value in {3, 4, 6} && pos + r.value <= |s| && s[pos + r.value - 1] == '\''
    ensures r == Some(4) <==> pos + 3 < |s| && s[pos + 1] == '\\' && InClass(CharEscapable, s[pos + 2]) && s[pos + 3] == '\''
    ensures r == Some(6) <==>
              && !(pos + 3 < |s| && s[pos + 1] == '\\' && InClass(CharEscapable, s[pos + 2]) && s[pos + 3] == '\'')
              && (pos + 5 < |s| && s[pos + 1] == '\\' && s[pos + 2] == 'x'
                  && IsHexDigit(s[pos + 3]) && IsHexDigit(s[pos + 4]) && s[pos + 5] == '\'')
    ensures r.None? <==>
              && !(pos + 3 < |s| && s[pos + 1] == '\\' && InClass(CharEscapable, s[pos + 2]) && s[pos + 3] == '\'')
              && !(pos + 5 < |s| && s[pos + 1] == '\\' && s[pos + 2] == 'x'
                   && IsHexDigit(s[pos + 3]) && IsHexDigit(s[pos + 4]) && s[pos + 5] == '\'')
              && !(pos + 2 < |s| && s[pos + 1] != '\n' && s[pos + 2] == '\'')
  {
    if pos + 3 < |s| && s[pos + 1] == '\\' && InClass(CharEscapable, s[pos + 2]) && s[pos + 3] == '\'' then
      Some(4)
    else if pos + 5 < |s| && s[pos + 1] == '\\' && s[pos + 2] == 'x'
            && IsHexDigit(s[pos + 3]) && IsHexDigit(s[pos + 4]) && s[pos + 5] == '\'' then
      Some(6)
    else if pos + 2 < |s| && s[pos + 1] != '\n' && s[pos + 2] == '\'' then
      Some(3)
    else
      None
  }

  /** The length of the match of `p` anchored at `pos`, or None when `p` does not match there. */
  function MatchLen(p: Pattern, s: string, pos: nat): (r: Option<nat>)
    requires pos <= |s|
    ensures r.Some? ==> pos + r.value <= |s|
    ensures r.Some? && ValidPattern(p) ==> 1 <= r.value
  {
    match p
    case Plus(k) =>
      var n := RunLen(k, s, pos);
      if n == 0 then None else Some(n)
    case One(k) =>
      if pos < |s| && InClass(k, s[pos]) then Some(1) else None
    case Literal(t) =>
      if StartsWith(s, pos, t) then Some(|t|) else None
    case LineComment =>
      if StartsWith(s, pos, "--") then Some(2 + RunLen(NotNewline, s, pos + 2)) else None
    case Words(l, before, after) =>
      var w := LongestWord(ListOf(l), before, after, s, pos);
      if w.Some? then Some(|ListOf(l)[w.value]|) else None
    case Attribute =>
      if StartsWith(s, pos, "@[") then
        var n := RunLen(NotCloseBracket, s, pos + 2);
        if pos + 2 + n < |s| then Some(3 + n) else None
      else None
    case Identifier =>
      if pos < |s| && IsIdentStart(s[pos]) then Some(1 + RunLen(IdentRest, s, pos + 1)) else None
    case Prefixed(lead, k) =>
      if StartsWith(s, pos, lead) then
        var n := RunLen(k, s, pos + |lead|);
        if n == 0 then None else Some(|lead| + n)
      else None
    case Escape =>
      if pos + 1 < |s| && s[pos] == '\\' && InClass(StringEscapable, s[pos + 1]) then Some(2) else None
    case CharLiteral =>
      if pos < |s| && s[pos] == '\'' then CharLiteralLen(s, pos) else None
    case Variable =>
      if pos + 1 < |s| && (s[pos] == '~' || s[pos] == '?') && InClass(LowerAscii, s[pos + 1]) then
        var n := RunLen(WordOrPrime, s, pos + 2);
        if pos + 2 + n < |s| && s[pos + 2 + n] == ':' then Some(3 + n) else None
      else None
  }
}
