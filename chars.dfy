/** Character classes used by the patterns of the rule table, as code-point predicates. */
module CharClasses {

  /** `\s` for a str pattern: Python's Unicode whitespace (the characters for which `str.isspace()` holds). */
  predicate IsSpace(c: char)
  {
    || ('\U{0009}' <= c <= '\U{000d}')
    || ('\U{001c}' <= c <= '\U{001f}')
    || c == ' '
    || c == '\U{0085}'
    || c == '\U{00a0}'
    || c == '\U{1680}'
    || ('\U{2000}' <= c <= '\U{200a}')
    || c == '\U{2028}'
    || c == '\U{2029}'
    || c == '\U{202f}'
    || c == '\U{205f}'
    || c == '\U{3000}'
  }

  predicate IsAsciiLetter(c: char)
  {
    ('A' <= c <= 'Z') || ('a' <= c <= 'z')
  }

  /** `[0-9]` */
  predicate IsAsciiDigit(c: char)
  {
    '0' <= c <= '9'
  }

  /** `\d`, restricted to the ASCII digits. */
  predicate IsDigit(c: char)
  {
    IsAsciiDigit(c)
  }

  /** `\w`, restricted to ASCII: letters, digits and underscore. `\b` is defined from it. */
  predicate IsWord(c: char)
  {
    IsAsciiLetter(c) || IsAsciiDigit(c) || c == '_'
  }

  /** `[A-Za-z0-9]` */
  predicate IsAsciiAlnum(c: char)
  {
    IsAsciiLetter(c) || IsAsciiDigit(c)
  }

  /** `[0-9a-fA-F]` */
  predicate IsHexDigit(c: char)
  {
    IsAsciiDigit(c) || ('a' <= c <= 'f') || ('A' <= c <= 'F')
  }

  /** Greek and letter-like ranges shared by both identifier classes:
      U+03B1-U+03BA, U+03BC-U+03FB (so U+03BB, lambda, is left out),
      U+1F00-U+1FFE and U+2100-U+214F. */
  predicate IsIdentUnicodeLetter(c: char)
  {
    || ('\U{03b1}' <= c <= '\U{03ba}')
    || ('\U{03bc}' <= c <= '\U{03fb}')
    || ('\U{1f00}' <= c <= '\U{1ffe}')
    || ('\U{2100}' <= c <= '\U{214f}')
  }

  /** Sub- and superscript ranges allowed after the first identifier character:
      U+2070-U+2079, U+207F-U+2089 and U+2090-U+209C. */
  predicate IsSubscript(c: char)
  {
    || ('\U{2070}' <= c <= '\U{2079}')
    || ('\U{207f}' <= c <= '\U{2089}')
    || ('\U{2090}' <= c <= '\U{209c}')
  }

  /** First character of a `Name`. */
  predicate IsIdentStart(c: char)
  {
    IsAsciiLetter(c) || c == '_' || IsIdentUnicodeLetter(c)
  }

  /** Later characters of a `Name`: also `.`, `'`, digits and sub/superscripts. */
  predicate IsIdentRest(c: char)
  {
    IsIdentStart(c) || c == '.' || c == '\'' || IsAsciiDigit(c) || IsSubscript(c)
  }
}
