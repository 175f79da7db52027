/**
 * The tokenizer of include/gmshparsercpp/MshLexer.h: the kind-checked
 * coercions of MshLexer::Token and the one-token lookahead of peek/read.
 * Character-level lexing (read_token) is abstracted as the sequence of
 * tokens it produces.
 */
module MshLexer {
  import opened Results
  import opened Tokens

  /** MshLexer::Token::as_int. */
  function AsInt(t: Token): Result<int> {
    if t.kind == Number then Ok(t.num) else Err(NotANumber)
  }

  /** MshLexer::Token::as_float. */
  function AsFloat(t: Token): Result<Float> {
    if t.kind == Number then Ok(Float(t.str)) else Err(NotANumber)
  }

  /** MshLexer::Token::as_string. */
  function AsString(t: Token): Result<string> {
    if t.kind == String then Ok(t.str) else Err(NotAString)
  }

  /** What each coercion accepts, and what it fails with otherwise. */
  lemma CoercionKinds(t: Token)
    ensures AsInt(t).Ok? <==> t.kind == Number
    ensures AsFloat(t).Ok? <==> t.kind == Number
    ensures AsString(t).Ok? <==> t.kind == String
    ensures AsInt(t).Ok? ==> AsInt(t).value == t.num
    ensures AsFloat(t).Ok? ==> AsFloat(t).value == Float(t.str)
    ensures AsString(t).Ok? ==> AsString(t).value == t.str
    ensures AsInt(t).Err? ==> AsInt(t).error == NotANumber
    ensures AsFloat(t).Err? ==> AsFloat(t).error == NotANumber
    ensures AsString(t).Err? ==> AsString(t).error == NotAString
  {
  }

  /**
   * The lexer over an opened stream. `stream` is every token read_token
   * produces, in order, and `pos` how many of them it has produced;
   * `haveToken`/`curr` is the lookahead cache.
   */
  class Lexer {
    const stream: seq<Token>
    var pos: nat
    var haveToken: bool
    var curr: Token

    /** The cache, when full, holds the last token read_token produced. */
    ghost predicate Valid()
      reads this
    {
      pos <= |stream| && (haveToken ==> 0 < pos && curr == stream[pos - 1])
    }

    /** How many tokens read() has delivered: a cached token is still to be delivered. */
    ghost function Position(): nat
      reads this
    {
      if haveToken && pos > 0 then pos - 1 else pos
    }

    constructor (stream: seq<Token>)
      ensures this.stream == stream && pos == 0 && !haveToken
      ensures Valid() && Position() == 0
    {
      this.stream := stream;
      pos := 0;
      haveToken := false;
      curr := EofToken;
    }

    /** read_token: the next token of the stream; the stream ends after its last token. */
    method ReadToken() returns (r: Result<Token>)
      modifies this`pos
      ensures old(pos) < |stream| ==> r == Ok(stream[old(pos)]) && pos == old(pos) + 1
      ensures old(pos) >= |stream| ==> r == Err(UnexpectedEndOfFile) && pos == old(pos)
    {
      if pos >= |stream| {
        return Err(UnexpectedEndOfFile);
      }
      r := Ok(stream[pos]);
      pos := pos + 1;
    }

    /** peek: the next token, cached so that it is not consumed. */
    method Peek() returns (r: Result<Token>)
      requires Valid()
      modifies this
      ensures Valid() && Position() == old(Position())
      ensures r.Ok? <==> Position() < |stream|
      ensures r.Ok? ==> r.value == stream[Position()] && haveToken && curr == r.value
      ensures r.Err? ==> r.error == UnexpectedEndOfFile
    {
      if !haveToken {
        var t := ReadToken();
        if t.Err? {
          return t;
        }
        curr := t.value;
        haveToken := true;
      }
      r := Ok(curr);
    }

    /** read: the cached token if there is one, else the next token of the stream. */
    method Read() returns (r: Result<Token>)
      requires Valid()
      modifies this
      ensures Valid() && !haveToken
      ensures old(Position()) < |stream| ==> r == Ok(stream[old(Position())]) && Position() == old(Position()) + 1
      ensures old(Position()) >= |stream| ==> r == Err(UnexpectedEndOfFile) && Position() == old(Position())
    {
      if haveToken {
        haveToken := false;
        return Ok(curr);
      }
      r := ReadToken();
    }

    /**
     * read_blob<int>: takes the raw word that follows in the stream,
     * bypassing the lookahead cache. At the end of the stream nothing is
     * consumed and the value is unspecified (0 here).
     */
    method ReadBlob() returns (v: int)
      requires Valid()
      modifies this`pos
      ensures old(pos) < |stream| && stream[old(pos)].kind != EndOfFile ==>
                v == stream[old(pos)].num && pos == old(pos) + 1
      ensures !(old(pos) < |stream| && stream[old(pos)].kind != EndOfFile) ==>
                v == 0 && pos == old(pos)
      ensures !haveToken ==> Valid()
    {
      if pos < |stream| && stream[pos].kind != EndOfFile {
        v := stream[pos].num;
        pos := pos + 1;
      } else {
        v := 0;
      }
    }
  }

  /** Two peeks and a read see the same token, and only the read consumes it. */
  method PeekPeekRead(lexer: Lexer) returns (a: Result<Token>, b: Result<Token>, c: Result<Token>)
    requires lexer.Valid()
    modifies lexer
    ensures a == b == c
    ensures old(lexer.Position()) < |lexer.stream| ==>
              a == Ok(lexer.stream[old(lexer.Position())]) && lexer.Position() == old(lexer.Position()) + 1
    ensures old(lexer.Position()) >= |lexer.stream| ==> a == Err(UnexpectedEndOfFile)
  {
    a := lexer.Peek();
    b := lexer.Peek();
    c := lexer.Read();
  }
}
