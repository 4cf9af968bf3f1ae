/** Token categories, lexer modes and mode-stack actions of the Lean 3 lexer. */
module Tokens {

  datatype Option<T> = None | Some(value: T)

  /** The Pygments token types the rule table emits (`Error` is the engine's own fallback). */
  datatype TokenType =
    | Text
    | Comment
    | CommentSingle
    | CommentMultiline
    | StringDoc
    | StringDouble
    | StringEscape
    | StringChar
    | KeywordNamespace
    | KeywordDeclaration
    | Keyword
    | KeywordType
    | Operator
    | Name
    | NameVariable
    | NameBuiltinPseudo
    | NumberInteger
    | Error

  /** The four states of the rule table. */
  datatype Mode = Root | CommentMode | DocstringMode | StringMode

  /** What a rule does to the mode stack after emitting its token:
      nothing, push a named mode, `'#push'` (push the current mode again) or `'#pop'`. */
  datatype Action = Stay | Enter(mode: Mode) | PushSelf | Pop

  /** One emitted token: its start offset, its type and its text, as `(index, tokentype, value)`. */
  datatype Token = Token(start: nat, kind: TokenType, text: string)

  /** The texts of a token sequence, concatenated. */
  function Texts(ts: seq<Token>): string
  {
    if ts == [] then [] else ts[0].text + Texts(ts[1..])
  }
}
