/** Token types, their fixed spellings, and the rule table that drives the expression parser. */
module Tokens {

  datatype Option<+T> = None | Some(value: T) {
    function GetOr(default: T): T {
      match this
      case None => default
      case Some(v) => v
    }
  }

  datatype TokenType =
    | TInvalid | TIdent | TNum | TString | TSemicolon | TColon | TDoubleColon | TColonEq
    | TEquals | TEqEq | TNotEq | TComma | TDotDot | TDotDotEq | TDot | TQuestion
    | TLBrace | TRBrace | TLSqBracket | TRSqBracket | TLParen | TRParen | TPipe
    | TLogicalOr | TBitwiseOr | TLogicalAnd | TAmpersand | TXor | TNot
    | TLt | TLtEq | TGt | TGtEq
    | TPlus | TMinus | TAsterisk | TSlash | TPercent
    | TVar | TConst | TImport | TCffi | TFunc | TTrue | TFalse | TReturn
    | TIf | TElse | TCase | TMain | TFor | TIn
    | TStruct | TNil | TType | TRef
    | TEqualsRArrow | TCtDirective | TNewline | TEnd

  /** A token as the parser sees it: its type and the source text it covers. */
  datatype Tok = Tok(kind: TokenType, text: string)

  /** The one spelling of a token type, when it has one that the lexer can produce. */
  function Spelling(k: TokenType): Option<string> {
    match k
    case TSemicolon => Some(";")
    case TColon => Some(":")
    case TDoubleColon => Some("::")
    case TColonEq => Some(":=")
    case TEquals => Some("=")
    case TEqEq => Some("==")
    case TNotEq => Some("!=")
    case TComma => Some(",")
    case TDotDot => Some("..")
    case TDotDotEq => Some("..=")
    case TDot => Some(".")
    case TQuestion => Some("?")
    case TLBrace => Some("{")
    case TRBrace => Some("}")
    case TLSqBracket => Some("[")
    case TRSqBracket => Some("]")
    case TLParen => Some("(")
    case TRParen => Some(")")
    case TPipe => Some("|>")
    case TLogicalOr => Some("||")
    case TBitwiseOr => Some("|")
    case TLogicalAnd => Some("&&")
    case TAmpersand => Some("&")
    case TXor => Some("^")
    case TNot => Some("!")
    case TLt => Some("<")
    case TLtEq => Some("<=")
    case TGt => Some(">")
    case TGtEq => Some(">=")
    case TPlus => Some("+")
    case TMinus => Some("-")
    case TAsterisk => Some("*")
    case TSlash => Some("/")
    case TPercent => Some("%")
    case TVar => Some("var")
    case TConst => Some("const")
    case TCffi => Some("cffi")
    case TFunc => Some("func")
    case TTrue => Some("true")
    case TFalse => Some("false")
    case TReturn => Some("return")
    case TIf => Some("if")
    case TElse => Some("else")
    case TCase => Some("case")
    case TMain => Some("main")
    case TFor => Some("for")
    case TIn => Some("in")
    case TStruct => Some("struct")
    case TNil => Some("nil")
    case TRef => Some("ref")
    case TEqualsRArrow => Some("=>")
    case _ => None
  }

  /** The token of a type that has one spelling. */
  function Fixed(k: TokenType): Tok {
    Tok(k, if Spelling(k).Some? then Spelling(k).value else "")
  }

  /** A token whose text is the spelling of its type, for the types that have one. */
  predicate Spelled(t: Tok) {
    Spelling(t.kind).Some? ==> t.text == Spelling(t.kind).value
  }

  const PREC_NONE: nat := 0
  const PREC_COMMA: nat := 1
  const PREC_ASSIGN: nat := 2
  const PREC_TERNARY: nat := 3
  const PREC_RANGE: nat := 4
  const PREC_OR: nat := 5
  const PREC_AND: nat := 6
  const PREC_CMP: nat := 7
  const PREC_TERM: nat := 8
  const PREC_FACTOR: nat := 9
  const PREC_UNARY: nat := 10
  const PREC_CALL: nat := 11
  const PREC_PRIMARY: nat := 12
  const PREC_COUNT: nat := 13
  const PREC_LOWEST: nat := PREC_NONE
  const PREC_HIGHEST: nat := PREC_PRIMARY

  datatype PrefixHandler =
    | NoPrefix | NumberPrefix | StringPrefix | IdentifierPrefix | NilPrefix | BoolPrefix
    | GroupingPrefix | ArrayPrefix | UnaryPrefix | IfPrefix | ForPrefix

  datatype InfixHandler =
    | NoInfix | CallInfix | IndexInfix | CommaInfix | BinaryInfix | TernaryInfix
    | RangeInfix | DotInfix | AssignInfix

  datatype Rule = Rule(prefix: PrefixHandler, infix: InfixHandler, precedence: nat)

  /** The rule table; a type without an entry has the all-zero rule. */
  function RuleOf(k: TokenType): Rule {
    match k
    case TNum => Rule(NumberPrefix, NoInfix, PREC_NONE)
    case TString => Rule(StringPrefix, NoInfix, PREC_NONE)
    case TIdent => Rule(IdentifierPrefix, NoInfix, PREC_NONE)
    case TNil => Rule(NilPrefix, NoInfix, PREC_NONE)
    case TTrue => Rule(BoolPrefix, NoInfix, PREC_NONE)
    case TFalse => Rule(BoolPrefix, NoInfix, PREC_NONE)
    case TLParen => Rule(GroupingPrefix, CallInfix, PREC_CALL)
    case TLSqBracket => Rule(ArrayPrefix, IndexInfix, PREC_CALL)
    case TComma => Rule(NoPrefix, CommaInfix, PREC_COMMA)
    case TMinus => Rule(UnaryPrefix, BinaryInfix, PREC_TERM)
    case TNot => Rule(UnaryPrefix, NoInfix, PREC_NONE)
    case TPlus => Rule(NoPrefix, BinaryInfix, PREC_TERM)
    case TAsterisk => Rule(NoPrefix, BinaryInfix, PREC_FACTOR)
    case TSlash => Rule(NoPrefix, BinaryInfix, PREC_FACTOR)
    case TLt => Rule(NoPrefix, BinaryInfix, PREC_CMP)
    case TGt => Rule(NoPrefix, BinaryInfix, PREC_CMP)
    case TLtEq => Rule(NoPrefix, BinaryInfix, PREC_CMP)
    case TGtEq => Rule(NoPrefix, BinaryInfix, PREC_CMP)
    case TEqEq => Rule(NoPrefix, BinaryInfix, PREC_CMP)
    case TNotEq => Rule(NoPrefix, BinaryInfix, PREC_CMP)
    case TQuestion => Rule(NoPrefix, TernaryInfix, PREC_TERNARY)
    case TDotDot => Rule(NoPrefix, RangeInfix, PREC_RANGE)
    case TDotDotEq => Rule(NoPrefix, RangeInfix, PREC_RANGE)
    case TDot => Rule(NoPrefix, DotInfix, PREC_CALL)
    case TEquals => Rule(NoPrefix, AssignInfix, PREC_ASSIGN)
    case TIf => Rule(IfPrefix, NoInfix, PREC_NONE)
    case TFor => Rule(ForPrefix, NoInfix, PREC_NONE)
    case _ => Rule(NoPrefix, NoInfix, PREC_NONE)
  }

  function Precedence(k: TokenType): nat {
    RuleOf(k).precedence
  }
}
