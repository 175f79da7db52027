/** The token record shared by both parsers (MshLexer::Token and the earlier MshFile::Token). */
module Tokens {

  /** Token kinds, with the integer codes of the EType enumeration. */
  datatype Kind = EndOfFile | Number | String | Section {
    function Code(): int {
      match this
      case EndOfFile => 0
      case Number => 1
      case String => 2
      case Section => 3
    }
  }

  /** Inverse of Kind.Code on 0..3: the static_cast of a lexer code to EType. */
  function KindOfCode(code: int): (k: Kind)
    requires 0 <= code <= 3
    ensures k.Code() == code
  {
    if code == 0 then EndOfFile
    else if code == 1 then Number
    else if code == 2 then String
    else Section
  }

  /** A double, kept as the text std::stod would convert; the conversion is not modelled. */
  datatype Float = Float(text: string)

  /**
   * A lexed token: its kind, its text and its line number. `num` is the
   * integer the text denotes, which the integer coercions return (the
   * text-to-integer conversion itself is not modelled).
   */
  datatype Token = Token(kind: Kind, str: string, lineNo: int, num: int)

  /** The token that marks the end of the input. */
  const EofToken: Token := Token(EndOfFile, "", 0, 0)
}
