/**
 * The coercions of the earlier parser's MshFile::Token
 * (include/gmshparsercppMshFile.h). The record is the same as
 * MshLexer::Token; only the error messages differ.
 */
module LegacyToken {
  import opened Results
  import opened Tokens
  import MshLexer

  /** MshFile::Token::as_int (std::stod truncated to int; the conversion is not modelled). */
  function AsInt(t: Token): Result<int> {
    if t.kind == Number then Ok(t.num) else Err(NotAnInteger)
  }

  /** MshFile::Token::as_float. */
  function AsFloat(t: Token): Result<Float> {
    if t.kind == Number then Ok(Float(t.str)) else Err(NotAFloat)
  }

  /** MshFile::Token::as_string. */
  function AsString(t: Token): Result<string> {
    if t.kind == String then Ok(t.str) else Err(NotAString)
  }

  /** What each coercion accepts, its value on success and its message on failure. */
  lemma CoercionKinds(t: Token)
    ensures AsInt(t).Ok? <==> t.kind == Number
    ensures AsFloat(t).Ok? <==> t.kind == Number
    ensures AsString(t).Ok? <==> t.kind == String
    ensures AsString(t).Ok? ==> AsString(t).value == t.str
    ensures AsInt(t).Err? ==> AsInt(t).error == NotAnInteger
    ensures AsFloat(t).Err? ==> AsFloat(t).error == NotAFloat
    ensures AsString(t).Err? ==> AsString(t).error == NotAString
  {
  }

  /** Section and EndOfFile tokens coerce to nothing, and as_int and as_float accept the same kinds. */
  lemma MarkersNeverCoerce(t: Token)
    ensures t.kind == Section || t.kind == EndOfFile ==>
              AsInt(t).Err? && AsFloat(t).Err? && AsString(t).Err?
    ensures AsInt(t).Ok? <==> AsFloat(t).Ok?
  {
  }

  /**
   * Both Token structs accept the same kinds and differ in their messages.
   * The integer values agree because both read the modelled `num`; the
   * source's two conversions of the text are not modelled.
   */
  lemma AgreesWithLexerToken(t: Token)
    ensures AsInt(t).Ok? <==> MshLexer.AsInt(t).Ok?
    ensures AsFloat(t).Ok? <==> MshLexer.AsFloat(t).Ok?
    ensures AsInt(t).Ok? ==> AsInt(t).value == MshLexer.AsInt(t).value
    ensures AsFloat(t).Ok? ==> AsFloat(t).value == MshLexer.AsFloat(t).value
    ensures AsString(t) == MshLexer.AsString(t)
  {
  }
}
