/** The keyword, command and operator lists of the rule table's `words(...)` rules, each
    kept in source order and with its repetitions. */
module LeanWords {
  /** Names the six lists, so that a rule refers to its list without carrying it. */
  datatype WordList = Namespaces | Declarations | Keywords | Sorts | Commands | Operators

  /** The number of entries of each list. */
  function Count(l: WordList): nat
  {
    match l
    case Namespaces => 15
    case Declarations => 39
    case Keywords => 17
    case Sorts => 3
    case Commands => 6
    case Operators => 15
  }

  /** Entry `i` of list `l`. */
  function Word(l: WordList, i: int): string
  {
    match l
    case Namespaces => NamespaceEntry(i)
    case Declarations => DeclarationEntry(i)
    case Keywords => KeywordEntry(i)
    case Sorts => SortEntry(i)
    case Commands => CommandEntry(i)
    case Operators => OperatorEntry(i)
  }

  /** List `l`, entry by entry. */
  function ListOf(l: WordList): seq<string>
  {
    seq(Count(l), i => Word(l, i))
  }

  const NamespaceWords: seq<string> := ListOf(Namespaces)
  const DeclarationWords: seq<string> := ListOf(Declarations)
  const KeywordWords: seq<string> := ListOf(Keywords)
  const SortWords: seq<string> := ListOf(Sorts)
  const CommandWords: seq<string> := ListOf(Commands)
  const OperatorWords: seq<string> := ListOf(Operators)

  function NamespaceEntry(i: int): string
  {
    match i
    case 0 => "import"
    case 1 => "renaming"
    case 2 => "hiding"
    case 3 => "namespace"
    case 4 => "local"
    case 5 => "private"
    case 6 => "protected"
    case 7 => "section"
    case 8 => "include"
    case 9 => "omit"
    case 10 => "section"
    case 11 => "protected"
    case 12 => "export"
    case 13 => "open"
    case 14 => "attribute"
    case _ => ""
  }

  function DeclarationEntry(i: int): string
  {
    match i
    case 0 => "lemma"
    case 1 => "theorem"
    case 2 => "def"
    case 3 => "definition"
    case 4 => "example"
    case 5 => "axiom"
    case 6 => "axioms"
    case 7 => "constant"
    case 8 => "constants"
    case 9 => "universe"
    case 10 => "universes"
    case 11 => "inductive"
    case 12 => "coinductive"
    case 13 => "structure"
    case 14 => "extends"
    case 15 => "class"
    case 16 => "instance"
    case 17 => "noncomputable theory"
    case 18 => "noncomputable"
    case 19 => "mutual"
    case 20 => "meta"
    case 21 => "attribute"
    case 22 => "parameter"
    case 23 => "parameters"
    case 24 => "variable"
    case 25 => "variables"
    case 26 => "reserve"
    case 27 => "precedence"
    case 28 => "postfix"
    case 29 => "prefix"
    case 30 => "notation"
    case 31 => "infix"
    case 32 => "infixl"
    case 33 => "infixr"
    case 34 => "begin"
    case 35 => "by"
    case 36 => "end"
    case 37 => "set_option"
    case 38 => "run_cmd"
    case _ => ""
  }

  function KeywordEntry(i: int): string
  {
    match i
    case 0 => "forall"
    case 1 => "fun"
    case 2 => "Pi"
    case 3 => "from"
    case 4 => "have"
    case 5 => "show"
    case 6 => "assume"
    case 7 => "suffices"
    case 8 => "let"
    case 9 => "if"
    case 10 => "else"
    case 11 => "then"
    case 12 => "in"
    case 13 => "with"
    case 14 => "calc"
    case 15 => "match"
    case 16 => "do"
    case _ => ""
  }

  function SortEntry(i: int): string
  {
    match i
    case 0 => "Sort"
    case 1 => "Prop"
    case 2 => "Type"
    case _ => ""
  }

  function CommandEntry(i: int): string
  {
    match i
    case 0 => "#eval"
    case 1 => "#check"
    case 2 => "#reduce"
    case 3 => "#exit"
    case 4 => "#print"
    case 5 => "#help"
    case _ => ""
  }

  function OperatorEntry(i: int): string
  {
    match i
    case 0 => "("
    case 1 => ")"
    case 2 => ":"
    case 3 => "{"
    case 4 => "}"
    case 5 => "["
    case 6 => "]"
    case 7 => "⟨"
    case 8 => "⟩"
    case 9 => "‹"
    case 10 => "›"
    case 11 => "⦃"
    case 12 => "⦄"
    case 13 => ":="
    case 14 => ","
    case _ => ""
  }
}
