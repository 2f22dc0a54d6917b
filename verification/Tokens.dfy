/** Tokens, and the operator table the lexer scans. */
module Tokens {

  datatype TokenKind =
    | Word | Pipe | And | Or | Semicolon | Ampersand | Newline
    | RedirIn | RedirOut | RedirAppend | Heredoc | HeredocStrip
    | RedirDupIn | RedirDupOut | LParen | RParen
    | ArithOpen | ArithClose | Eof

  /** `io` is the file descriptor written before a redirection, -1 if none. */
  datatype Token = Token(kind: TokenKind, value: string, io: int)

  const EOF_TOKEN := Token(Eof, "", -1)

  predicate IsRedir(k: TokenKind) {
    k in {RedirIn, RedirOut, RedirAppend, RedirDupIn, RedirDupOut, HeredocStrip, Heredoc}
  }

  lemma RedirKinds(k: TokenKind)
    ensures IsRedir(k) ==> k != Word && k != ArithOpen && k != ArithClose && k != Eof && k != Newline
                           && k != LParen && k != RParen && k != Pipe && k != Semicolon && k != Ampersand
    ensures IsHeredoc(k) ==> IsRedir(k)
  {
  }

  predicate IsHeredoc(k: TokenKind) {
    k == Heredoc || k == HeredocStrip
  }

  /** Number of rows of the operator table. */
  const OPERATORS: nat := 17

  /** Row `k` of the operator table; long operators precede their prefixes. */
  function Literal(k: nat): (lit: string)
    requires k < OPERATORS
    ensures 1 <= |lit| <= 3
  {
    match k
    case 0 => ";"
    case 1 => "\n"
    case 2 => "$(("
    case 3 => "("
    case 4 => "))"
    case 5 => ")"
    case 6 => "||"
    case 7 => "|"
    case 8 => "&&"
    case 9 => "&"
    case 10 => "<<-"
    case 11 => "<<"
    case 12 => "<&"
    case 13 => "<"
    case 14 => ">>"
    case 15 => ">&"
    case _ => ">"
  }

  function Kind(k: nat): TokenKind
    requires k < OPERATORS
  {
    match k
    case 0 => Semicolon
    case 1 => Newline
    case 2 => ArithOpen
    case 3 => LParen
    case 4 => ArithClose
    case 5 => RParen
    case 6 => Or
    case 7 => Pipe
    case 8 => And
    case 9 => Ampersand
    case 10 => HeredocStrip
    case 11 => Heredoc
    case 12 => RedirDupIn
    case 13 => RedirIn
    case 14 => RedirAppend
    case 15 => RedirDupOut
    case _ => RedirOut
  }
}
