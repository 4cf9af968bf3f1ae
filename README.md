# Lean 3 lexer for Pygments, modelled in Dafny

`LeanLexer` (`pygments_lean3/lexer.py`) is a Pygments `RegexLexer` for Lean 3 source text.
Its behaviour is its rule table `tokens`, which has four states:

- `root`: 19 rules, for whitespace, doc comments, block and line comments, keyword lists,
  attributes, commands, operators, identifiers, numbers, strings, character literals,
  variables, and a catch-all;
- `comment`: nested block comments;
- `docstring`: doc comments, which do not nest;
- `string`: the body of a string literal.

These rules are driven by the `RegexLexer` scanning loop:

- it keeps a cursor and a stack of states;
- the first rule of the state on top of the stack that matches at the cursor wins;
- the winning rule emits its whole match as one token and then changes the stack: it pushes
  a named state, pushes the current state again (`#push`), or pops (`#pop`);
- when no rule matches, a newline becomes a `Text` token and the stack is reset to `root`,
  and any other character becomes a one-character `Error` token.

The model has three layers:

- **The rule table as data.**
  - `Tokens` holds the token types, the four modes and the stack actions.
  - `LeanWords` holds the six `words(...)` lists, entry by entry, in source order and with
    their repetitions.
  - `Patterns` gives each regular expression of the table a hand-written anchored matcher,
    `MatchLen`, which returns the length of the match at a position or `None`.
  - `LeanTable.Table(mode)` is the list of rules of a mode, in source order.
- **The engine.**
  - `Engine.Step` is one pass of the scanning loop, and `Engine.Lex` / `Engine.Tokenize` is
    the whole scan as a recursive function.
  - `Engine.GetTokensUnprocessed` is the loop itself, as a method. Its inner loop over the
    rules is `Engine.FirstRule`.
  - The method is proved to produce exactly `Tokenize`, and its token texts put together
    give back the input.
- **What the table does.**
  - `RootSteps`, `WordSteps`, `SymbolSteps` and `ModeSteps` say, rule by rule, which token one
    step emits from which input and what happens to the stack.
  - `Invariants` proves these properties of the whole scan from any input:
    - which stacks can occur;
    - that the only `Error` token is a lone backslash in a string;
    - that the tokens tile the input.
  - `Blocks` reads block comments, doc comments and string literals with a depth counter in
    place of the stack, and proves that the scan is that reading:
    - comments nest;
    - doc comments close at the first `-/`;
    - strings close at the first unescaped `"`.
  - `Examples` and `NestingExamples` work out the token streams of concrete inputs.

Two consequences of the table are worth stating:

- In comment and docstring mode, each character other than `/` and `-` is a token of its own.
  The `[^/-]` rules (lines 99 and 105) have no `+`, so they match one character at a time
  (`ModeSteps.CommentCharStep`, `ModeSteps.DocCharStep`).
- A bad escape in a string becomes an `Error` token. A backslash not followed by `n`, `"` or
  `\` matches none of the string rules (lines 110-112), so the engine emits it as a
  one-character `Error` token (`ModeSteps.StringBadEscapeStep`, `Invariants.StepError`).

The `RegexLexer` loop belongs to Pygments (`pygments/lexer.py`), and that file is not part of
this model. The rows below that model the loop cite the `class LeanLexer(RegexLexer)` line,
and the engine follows the documented behaviour of Pygments' `get_tokens_unprocessed`.

## Model

| member | source | states |
|---|---|---|
| Engine.Apply | pygments_lean3/lexer.py:100-101 | A named state is pushed on top, `#push` pushes the top state again, and `#pop` removes the top state unless it is the only one left. The bottom entry never changes. |
| Engine.Step | pygments_lean3/lexer.py:19 | One step moves the cursor forward by at least one character and never past the end. Its token starts at the old cursor and holds exactly the characters it passed over. |
| Engine.Lex | pygments_lean3/lexer.py:19 | The scan from a cursor and a stack as a recursive function: one `Step`, then the scan from where that step left off, and no tokens at the end of input. It has no contract of its own. `Invariants.LexCovers`, `Invariants.LexKeepsWellFormed`, `Invariants.LexErrors` and `Engine.GetTokensUnprocessed` state what it produces. |
| Engine.Tokenize | pygments_lean3/lexer.py:19 | The scan of the whole input from offset 0 with the stack `[root]`. It has no contract of its own. `Invariants.TokenizeCovers`, `Invariants.TokenizeWellFormed` and `Engine.GetTokensUnprocessed` state what it produces. |
| Engine.GetTokensUnprocessed | pygments_lean3/lexer.py:19 | The scanning loop yields exactly the token stream and final stack of `Tokenize`. The token texts concatenated are the input. `root` is still at the bottom of the stack at the end. |
| Engine.NextToken | pygments_lean3/lexer.py:19 | One pass of the loop body computes exactly one `Step`: the first matching rule fires; otherwise a newline resets the stack and emits `Text`, and any other character is an `Error`. |
| Engine.FirstRule | pygments_lean3/lexer.py:33-114 | The loop over a state's rules stops at a rule that matches, with no earlier rule matching. When no rule matches, it stops past the end. |
| Engine.LoopStep | pygments_lean3/lexer.py:19 | One pass keeps the loop invariant: the tokens so far followed by the scan of the rest are the whole scan, and the texts so far are the input up to the cursor. |
| CharClasses.IsSpace | pygments_lean3/lexer.py:35 | `\s` under `re.UNICODE`: exactly the characters for which Python's `str.isspace()` holds. It has no contract; `RootSteps.RootSpace` and `RootSteps.CommentRulesSkipped` rely on it. |
| CharClasses.IsIdentStart | pygments_lean3/lexer.py:87 | The first character of a `Name`: an ASCII letter, `_`, or a character in U+03B1-U+03BA, U+03BC-U+03FB, U+1F00-U+1FFE or U+2100-U+214F, so U+03BB (lambda) is left out. It has no contract; `WordSteps.IdentifierWins` relies on it. |
| CharClasses.IsIdentRest | pygments_lean3/lexer.py:88-89 | A later character of a `Name`: the start class, plus `.`, `'`, ASCII digits and the sub- and superscript ranges U+2070-U+2079, U+207F-U+2089 and U+2090-U+209C. It has no contract; `WordSteps.IdentifierWins` relies on it. |
| LeanWords.Word | pygments_lean3/lexer.py:39-86 | Entry `i` of one of the six `words(...)` lists, in source order and with its repetitions. It has no contract; `Starts.ListStarts` and `Starts.OperatorFacts` check the entries. |
| LeanWords.ListOf | pygments_lean3/lexer.py:39-86 | A list as the sequence of its `Count` entries, kept in the constants `NamespaceWords`, `DeclarationWords`, `KeywordWords`, `SortWords`, `CommandWords` and `OperatorWords`. It has no contract; `Patterns.LongestWord` picks a word from it. |
| LeanWords.NamespaceEntry | pygments_lean3/lexer.py:39-48 | The 15 namespace entries, with `section` and `protected` each listed twice. It has no contract. |
| LeanWords.DeclarationEntry | pygments_lean3/lexer.py:49-72 | The 39 declaration entries, among them `noncomputable theory` and `attribute`. It has no contract. |
| LeanWords.KeywordEntry | pygments_lean3/lexer.py:74-78 | The 17 keyword entries. It has no contract. |
| LeanWords.SortEntry | pygments_lean3/lexer.py:79 | `Sort`, `Prop` and `Type`. It has no contract. |
| LeanWords.CommandEntry | pygments_lean3/lexer.py:80-83 | The six `#` commands. It has no contract. |
| LeanWords.OperatorEntry | pygments_lean3/lexer.py:84-86 | The 15 operator entries: the ASCII and Unicode brackets, `:`, `:=` and `,`. It has no contract. |
| Patterns.RunLen | pygments_lean3/lexer.py:35 | A greedy `+` or `*` run: every character in it belongs to the class, and the character after it does not, or the input ends. |
| Patterns.LongestWord | pygments_lean3/lexer.py:39-86 | A `words(...)` rule matches a listed word that fits at the position together with its `\b` anchors, and no listed word that fits is longer. |
| Patterns.CharLiteralLen | pygments_lean3/lexer.py:94 | A character literal is 4 characters for a backslash escape, 6 for `\x` with two hex digits, and 3 for any other non-newline character, and it ends in a closing quote. Each alternative is tried in order. There is no match exactly when none of the three closes. |
| Patterns.MatchLen | pygments_lean3/lexer.py:35-113 | A match stays inside the input and, for every pattern of the table, is at least one character long. |
| LeanTable.Table | pygments_lean3/lexer.py:33-114 | The rules of each state in source order: the 19 root rules (lines 35-96), the four comment rules (99-102), the three docstring rules (105-107) and the three string rules (110-112), kept in the constants `RootRules`, `CommentRules`, `DocstringRules` and `StringRules`. It has no contract; `LeanTable.TableValid`, `Invariants.TableActions` and `StepFacts.RuleWins` state what the table does. |
| LeanTable.FirstMatchFrom | pygments_lean3/lexer.py:33-114 | Returns the first rule from a given index whose pattern matches, with its match length, and no earlier rule from that index matches. `None` means no rule from that index matches. |
| LeanTable.FirstMatch | pygments_lean3/lexer.py:33-114 | The first matching rule of a state: its match is non-empty and inside the input, and every earlier rule of the state fails. |
| LeanTable.TableValid | pygments_lean3/lexer.py:33-114 | No pattern in the table can match the empty string, so every rule that fires makes progress. |
| Starts.ListStarts | pygments_lean3/lexer.py:39-86 | Every keyword, command and operator list entry is non-empty and starts with the character class its rule can start with: a letter, `#`, or an operator character. |
| Starts.OperatorFacts | pygments_lean3/lexer.py:84-86 | Every operator start character is itself a listed operator, and `:=` is the only longer entry. |
| Starts.MatchNeedsStart | pygments_lean3/lexer.py:33-114 | A pattern that matches at a position matches from a character it can start with. |
| StepFacts.RuleWins | pygments_lean3/lexer.py:33-114 | First match wins: when every earlier rule of the top state fails and rule `k` matches, the step fires rule `k`. |
| StepFacts.RuleSkipped | pygments_lean3/lexer.py:33-114 | A rule whose pattern cannot start with the character under the cursor does not match there. |
| WordMatch.WordAt | pygments_lean3/lexer.py:39-79 | The `\w` run at a position: all word characters, and followed by a non-word character or the end. |
| WordMatch.PlainRuleMatch | pygments_lean3/lexer.py:39-79 | A `\b`-anchored list of plain words matches exactly when a `\b` stands at the position and the whole `\w` run there is listed. It then matches that run. |
| WordMatch.MixedRuleMatch | pygments_lean3/lexer.py:49-72 | In the declaration list, `noncomputable theory` wins over `noncomputable` where it stands, taking 20 characters. Otherwise the rule matches a listed `\w` run. |
| WordMatch.CommandRuleMatch | pygments_lean3/lexer.py:80-83 | The command rule matches exactly `#` followed by a `\w` run that completes a listed command, and takes both. |
| WordMatch.OperatorRuleMatch | pygments_lean3/lexer.py:84-86 | At a listed operator character, the operator rule takes `:=` where it stands and otherwise that one character. |
| WordMatch.UnlistedUnlessLetter | pygments_lean3/lexer.py:39-79 | No keyword list matches at a character that is not an ASCII letter. |
| RootSteps.RootSpace | pygments_lean3/lexer.py:35 | In root, whitespace is one `Text` token over the whole whitespace run. |
| RootSteps.RootDocOpen | pygments_lean3/lexer.py:36 | In root, `/--` is a `String.Doc` token and enters docstring mode. It takes priority over `/-` and `--`. |
| RootSteps.RootCommentOpen | pygments_lean3/lexer.py:37 | In root, `/-` not followed by `-` is a `Comment` token and enters comment mode. |
| RootSteps.LineCommentMatch | pygments_lean3/lexer.py:38 | `--.*?$` matches from `--` up to the first newline or the end of input, and holds no newline. |
| RootSteps.RootLineComment | pygments_lean3/lexer.py:38 | In root, `--` begins one `Comment.Single` token that stops just before the next newline, or at the end of input. The stack is unchanged. |
| RootSteps.CommentRulesSkipped | pygments_lean3/lexer.py:35-38 | At a character that is not whitespace, `/` or `-`, none of the first four root rules matches. |
| WordSteps.RootNamespace | pygments_lean3/lexer.py:39-48 | A listed namespace word at a `\b` is one `Keyword.Namespace` token. So `attribute`, which is in both lists, is a namespace keyword. |
| WordSteps.RootDeclaration | pygments_lean3/lexer.py:49-72 | A listed declaration word that is not a namespace word is one `Keyword.Declaration` token. |
| WordSteps.RootNoncomputableTheory | pygments_lean3/lexer.py:56 | `noncomputable theory` at a `\b` is a single 20-character `Keyword.Declaration` token. |
| WordSteps.RootKeyword | pygments_lean3/lexer.py:74-78 | A listed keyword that is in no earlier list is one `Keyword` token. |
| WordSteps.RootSort | pygments_lean3/lexer.py:79 | `Sort`, `Prop` and `Type` are `Keyword.Type` tokens. |
| WordSteps.IdentifierWins | pygments_lean3/lexer.py:87-89 | At an identifier start whose `\w` run is in no keyword list, no earlier root rule matches, and the identifier rule takes the start character and the longest run of continuation characters. |
| WordSteps.RootIdentifier | pygments_lean3/lexer.py:87-89 | Such an identifier is one `Name` token, so keywords apply only to whole `\w` runs. |
| SymbolSteps.RootAttribute | pygments_lean3/lexer.py:73 | `@[` up to the first `]` is one `Keyword.Declaration` token, and no `]` occurs inside it. |
| SymbolSteps.AttributeEnds | pygments_lean3/lexer.py:73 | An attribute token ends at a `]` and holds no other `]`. |
| SymbolSteps.RootCommand | pygments_lean3/lexer.py:80-83 | `#` followed by a listed command word is one `Keyword` token. |
| SymbolSteps.RootOperator | pygments_lean3/lexer.py:84-86 | At a listed operator character, `:=` or the single character is one `Operator` token. |
| SymbolSteps.RootHex | pygments_lean3/lexer.py:90 | `0x` followed by ASCII letters and digits is one `Number.Integer` token over the whole alphanumeric run. |
| SymbolSteps.RootBinary | pygments_lean3/lexer.py:91 | `0b` followed by binary digits is one `Number.Integer` token over the whole run of 0s and 1s. |
| SymbolSteps.RootDecimal | pygments_lean3/lexer.py:92 | A digit that starts no hexadecimal or binary literal begins one `Number.Integer` token over the digit run. |
| SymbolSteps.RootQuote | pygments_lean3/lexer.py:93 | `"` is a `String.Double` token and enters string mode. |
| SymbolSteps.RootChar | pygments_lean3/lexer.py:94 | A closed character literal is one `String.Char` token. |
| SymbolSteps.RootVariable | pygments_lean3/lexer.py:95 | `~` or `?`, a lower-case letter, word characters or primes, and `:` form one `Name.Variable` token. |
| SymbolSteps.RootOther | pygments_lean3/lexer.py:96 | A non-space character at which no earlier root rule matches is a one-character `Name.Builtin.Pseudo` token. |
| ModeSteps.CommentNestStep | pygments_lean3/lexer.py:100 | In comment mode, `/-` is a `Comment.Multiline` token, and another comment level is pushed. |
| ModeSteps.CommentCloseStep | pygments_lean3/lexer.py:101 | In comment mode, `-/` is a `Comment.Multiline` token, and one level is popped. |
| ModeSteps.CommentCharStep | pygments_lean3/lexer.py:99 | In comment mode, a character other than `/` and `-` is a `Comment.Multiline` token of its own. |
| ModeSteps.CommentDashStep | pygments_lean3/lexer.py:102 | In comment mode, a `/` or `-` that begins neither delimiter is a one-character `Comment.Multiline` token. |
| ModeSteps.DocCloseStep | pygments_lean3/lexer.py:106 | In docstring mode, `-/` is a `String.Doc` token and pops the docstring. |
| ModeSteps.DocCharStep | pygments_lean3/lexer.py:105-107 | In docstring mode, any character that does not begin `-/`, including the `/` of an inner `/-`, is a one-character `String.Doc` token. |
| ModeSteps.StringRunStep | pygments_lean3/lexer.py:110 | In string mode, a run without backslash or quote is one `String.Double` token over the whole run. |
| ModeSteps.StringEscapeStep | pygments_lean3/lexer.py:111 | In string mode, `\n`, `\"` and `\\` are two-character `String.Escape` tokens. |
| ModeSteps.StringCloseStep | pygments_lean3/lexer.py:112 | In string mode, `"` is a `String.Double` token and pops the string. |
| ModeSteps.StringBadEscapeStep | pygments_lean3/lexer.py:109-113 | In string mode, a backslash that is not followed by `n`, `"` or `\` matches no rule. It becomes a one-character `Error` token, and the stack is unchanged. |
| ModeSteps.NoMatchIff | pygments_lean3/lexer.py:33-114 | Some rule always matches, except in string mode at a backslash not followed by `n`, `"` or `\`. This holds in both directions. |
| Invariants.TableActions | pygments_lean3/lexer.py:33-114 | Which stack actions each state's rules take: root enters the three other states, comment pushes itself or pops, docstring and string only pop. No rule emits `Error`. |
| Invariants.CommentStack | pygments_lean3/lexer.py:98-103 | The stack at comment depth `d` is `root` followed by `d` comment entries. |
| Invariants.StepKeepsWellFormed | pygments_lean3/lexer.py:33-114 | A step keeps the stack in one of three shapes: `[root, docstring]`, `[root, string]`, or `root` followed by any number of comment entries. |
| Invariants.LexKeepsWellFormed | pygments_lean3/lexer.py:33-114 | The scan from such a stack ends in such a stack. |
| Invariants.TokenizeWellFormed | pygments_lean3/lexer.py:33-114 | The scan of any input ends in one of those three stack shapes. |
| Invariants.StepError | pygments_lean3/lexer.py:109-113 | A step emits `Error` exactly at a backslash in string mode that begins no escape. That token is the lone backslash, and the stack is unchanged. The newline fallback, which resets the stack, never fires. |
| Invariants.LexErrors | pygments_lean3/lexer.py:109-113 | Every `Error` token of a scan is a lone backslash. |
| Invariants.LexCovers | pygments_lean3/lexer.py:19 | The scan from any position makes progress. Its tokens are non-empty, each starts where the previous one ended, and together they carry exactly the characters to the end of input. |
| Invariants.CoversTexts | pygments_lean3/lexer.py:19 | Tokens that tile the input from a position have texts that put together give back the input from there. |
| Invariants.TokenizeCovers | pygments_lean3/lexer.py:19 | The whole scan tiles the input, and its token texts concatenated reconstruct the input exactly. |
| Blocks.CommentScan | pygments_lean3/lexer.py:98-103 | The depth-counter reading of a comment body ends inside the input. It either brings the depth to 0 or reaches the end of input still open. |
| Blocks.CommentsNest | pygments_lean3/lexer.py:98-103 | Comments nest: scanning in comment mode at depth `d` yields the depth-counter reading, in which `/-` counts one level up and `-/` one level down. Root mode resumes only when the depth comes back to 0. |
| Blocks.NestOpen | pygments_lean3/lexer.py:100 | The nesting statement at an inner `/-`. |
| Blocks.NestClose | pygments_lean3/lexer.py:101 | The nesting statement at a `-/`. |
| Blocks.NestChar | pygments_lean3/lexer.py:99-102 | The nesting statement at any other character. |
| Blocks.NestEnd | pygments_lean3/lexer.py:98-103 | The nesting statement at the end of input: the comment stays open at its depth. |
| Blocks.BlockComment | pygments_lean3/lexer.py:37 | From `/-` in root, the scan is the opener token, then the depth-counter reading of the body from depth 1, then (once closed) the scan of the rest in root mode. |
| Blocks.DocScan | pygments_lean3/lexer.py:104-108 | The reading of a doc comment body stops right after the first `-/`, or reaches the end of input still open. |
| Blocks.DocstringsDoNotNest | pygments_lean3/lexer.py:104-108 | Doc comments do not nest: scanning in docstring mode yields one token per character up to the first `-/`. That `-/` returns to root regardless of any `/-` or `/--` before it. |
| Blocks.DocClose | pygments_lean3/lexer.py:106 | The doc comment statement at `-/`. |
| Blocks.DocChar | pygments_lean3/lexer.py:105-107 | The doc comment statement at any other character. |
| Blocks.DocComment | pygments_lean3/lexer.py:36 | From `/--` in root, the scan is the opener token, then the doc comment reading of the body, then (once closed) the scan of the rest in root mode. |
| Blocks.StringPiece | pygments_lean3/lexer.py:110-111 | The token string mode emits at a character other than `"` is non-empty and inside the input. It is a `String.Double` run exactly when it does not start at a backslash. |
| Blocks.StringScanEnds | pygments_lean3/lexer.py:109-113 | The reading of a string body either ends right after a `"` (closed) or at the end of input (open). |
| Blocks.StringPieceStep | pygments_lean3/lexer.py:110-111 | In string mode, at a character other than `"`, the step emits that piece and stays in string mode. |
| Blocks.StringsEnd | pygments_lean3/lexer.py:109-113 | Scanning in string mode yields the string reading: runs, escapes and bad-backslash errors up to the first `"` that no backslash escapes. Root mode resumes after that quote. |
| Blocks.StringBody | pygments_lean3/lexer.py:110-111 | The string statement at a character other than `"`. |
| Blocks.StringClose | pygments_lean3/lexer.py:112 | The string statement at the closing `"`. |
| Blocks.StringLiteral | pygments_lean3/lexer.py:93 | From `"` in root, the scan is the opening quote, then the string reading of the body, then (once closed) the scan of the rest in root mode. |
| Examples.DefabcIsName | pygments_lean3/lexer.py:49-89 | `defabc` is a single `Name`, not `def` followed by `abc`. |
| Examples.DefIsDeclaration | pygments_lean3/lexer.py:49-72 | `def` is a `Keyword.Declaration`. |
| Examples.AttributeIsNamespace | pygments_lean3/lexer.py:39-60 | `attribute` is a `Keyword.Namespace`: the namespace rule comes first. |
| Examples.HexLiteral | pygments_lean3/lexer.py:90 | `0x1F` is one `Number.Integer`. |
| Examples.HexTakesAnyLetter | pygments_lean3/lexer.py:90 | `0xZZ` is one `Number.Integer` as well. |
| Examples.BadBinary | pygments_lean3/lexer.py:87-92 | `0b2` is `Number.Integer` `0` followed by `Name` `b2`. |
| Examples.StringWithEscape | pygments_lean3/lexer.py:93-113 | `"a\nb"` is a quote, `a`, the escape `\n`, `b`, and a closing quote that returns to root. |
| Examples.StringWithBadEscape | pygments_lean3/lexer.py:93-113 | In `"\q"`, the backslash is an `Error` token and the string goes on. |
| Examples.CharLiterals | pygments_lean3/lexer.py:94 | `'a'`, `'\n'` and `'\x41'` are each one `String.Char` token. |
| Examples.NestedCommentStaysOpen | pygments_lean3/lexer.py:98-103 | In `/-a/-b-/`, the inner `/-` opens a second level, and the input ends inside the outer comment. |
| Examples.CommentClosesAtFirstEnd | pygments_lean3/lexer.py:96-101 | In `/-a-/b-/`, the first `-/` returns to root. `b` is a `Name`, and the stray `-` and `/` are `Name.Builtin.Pseudo` tokens. |
| Examples.DocCommentCloses | pygments_lean3/lexer.py:104-108 | In `/--a/-b-/`, the inner `/-` is doc text, and the one `-/` closes the doc comment. |
| NestingExamples.BalancedCommentCloses | pygments_lean3/lexer.py:98-103 | In `/- a /- b -/ c -/`, the inner `/-` opens a second level, the first `-/` closes only that level, and the second `-/` returns to root at the end of input. The scan is the `Comment` opener followed by twelve `Comment.Multiline` tokens. |
| NestingExamples.DocInsideDocCloses | pygments_lean3/lexer.py:104-108 | In `/-- a /-- b -/ c -/`, the inner `/--` is three characters of doc text, and the first `-/` closes the doc comment. ` c -/` is then scanned in root mode: `Text`, `Name` `c`, `Text`, and `Name.Builtin.Pseudo` tokens for the stray `-` and `/`. |
| Examples.LineCommentEndsAtNewline | pygments_lean3/lexer.py:35-38 | `-- a` followed by a newline and `b` is one `Comment.Single`, then a `Text` newline, then a `Name` in root mode. |

## Left out

- The registration attributes `name`, `aliases`, `filenames` and `mimetypes` (lines 26-29) and
  `setup.py` are packaging only, with no effect on scanning.
- The preprocessing that `get_tokens` applies before any rule runs is not modelled. It
  normalises line endings, expands tabs, applies the `stripnl` and `stripall` options, and,
  with `ensurenl` (on by default), appends a newline to text that does not end in one. The
  model starts at `get_tokens_unprocessed` on the text it is given. So for the input `def`,
  the public `get_tokens` yields one more token than `Tokenize`: a `Text` newline.
- The general regular-expression engine is not modelled; each pattern of the table has its
  own matcher instead.
  - This includes `words()` and its `regex_opt` translation. A `words()` rule is modelled as
    taking the longest listed word that fits. The repeated entries in the lists (`section`,
    `protected`, `attribute`) are kept, and they are harmless.
- Under the `re.UNICODE` flag, `\w` and `\d` match every Unicode letter and digit. The model
  restricts them to ASCII, and this restriction affects two things:
  - the `\b` anchors of the keyword lists;
  - the `\d+` and `[~?][a-z][\w']*:` rules.

  `\s` is modelled exactly, as Python's Unicode whitespace. The identifier classes use the
  source's own explicit ranges.
- Callbacks, `bygroups`, `include` and `using` do not occur in the table, so they are not
  modelled.
- No diagnostic is produced at the end of input inside an unclosed comment, doc comment or
  string, and the lexer produces none either. In the model, the final mode stack shows which
  region is still open.
- The engine's newline fallback (a newline that matches no rule resets the stack to `root`)
  is modelled as the engine does it. `Invariants.StepError` proves that it never fires with
  this table, because in every state some rule matches a newline.
- Popping the last entry of the stack cannot happen: `#pop` keeps the bottom entry, as
  Pygments does. So the model has no empty-stack error.
