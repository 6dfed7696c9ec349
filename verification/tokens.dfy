/** Tokens as declared in token_stream.h: the kind characters that stand for
    each token class, and the keyword spellings. */
module Tokens {

  /** A lexical token. Each payload lives in its own variant, so a token
      carries exactly the field its kind makes meaningful: a number its value,
      a name its spelling, and everything else nothing. */
  datatype Token =
    | Sym(symbol: char)   // a punctuation character standing for itself
    | Number(value: real)
    | Name(name: string)
    | LetKw
    | SqrtKw
    | PowKw
    | ConstKw
    | QuitKw
    | HelpKw

  // Kind characters of the synthetic token classes.
  const NumberKind := '8'
  const NameKind := 'a'
  const LetKind := 'L'
  const SqrtKind := 's'
  const PowKind := 'p'
  const QuitKind := 'q'
  const HelpKind := 'h'
  const ConstKind := 'c'

  /** The statement terminator; it is also a punctuation token. */
  const Print := ';'

  // Keyword spellings.
  const DeclKey := "let"
  const SqrtKey := "sqrt"
  const PowKey := "pow"
  const ConstKey := "const"
  const QuitKey := "quit"
  const HelpKey := "help"

  /** The characters get() returns as tokens of their own kind. */
  const SymbolChars: set<char> :=
    {Print, '(', ')', '{', '}', '+', '-', '*', '/', '!', '%', '=', ','}

  /** The kind field of the C++ Token. */
  function Kind(t: Token): char {
    match t
    case Sym(c) => c
    case Number(_) => NumberKind
    case Name(_) => NameKind
    case LetKw => LetKind
    case SqrtKw => SqrtKind
    case PowKw => PowKind
    case ConstKw => ConstKind
    case QuitKw => QuitKind
    case HelpKw => HelpKind
  }

  /** The value field: a number's value. The one-argument constructor sets
      it to 0; the name constructor leaves it uninitialised, and the model
      picks 0 for it as well. Only a number token's value is ever read. */
  function TokenValue(t: Token): real {
    if t.Number? then t.value else 0.0
  }

  /** The name field: a name's spelling, and empty for every other token. */
  function TokenName(t: Token): string {
    if t.Name? then t.name else ""
  }

  /** The tokens the tokenizer can produce: punctuation only from the
      symbol set, and names never spelled like a case-sensitive keyword. */
  predicate Lexable(t: Token) {
    && (t.Sym? ==> t.symbol in SymbolChars)
    && (t.Name? ==> t.name !in {DeclKey, SqrtKey, PowKey, ConstKey})
  }

  /** No synthetic kind character is a punctuation character, so among
      lexable tokens the kind alone tells the token class, and for every
      class without payload it tells the token itself. */
  lemma KindIdentifiesClass(a: Token, b: Token)
    requires Lexable(a) && Lexable(b)
    requires Kind(a) == Kind(b)
    ensures a == b || (a.Number? && b.Number?) || (a.Name? && b.Name?)
  {
  }
}
