/**
 * The earlier token taxonomy of the scanner (compiler/src/scanner/token.rs). Its separator
 * table also has the two quote characters, and its reserved words name the string type
 * `Primitive::String`; the control-flow keywords and boolean literals are the same tables
 * as in the current reserved words and are shared with them.
 *
 * Its separator match has the arm `"" => ClosedParanthesis` where `")"` is evidently
 * meant: the blank test before it already takes `""`, so `ClosedParanthesis` is never
 * produced and `)` is not a separator.
 */
module LegacyTokens {
  import opened Wrappers
  import Separators
  import ReservedWords

  /** The earlier `Separator`. */
  datatype Separator =
    | Whitespace
    | Semicolon
    | Colon
    | OpenParanthesis
    | ClosedParanthesis
    | OpenSquareBracket
    | ClosedSquareBracket
    | OpenBracket
    | ClosedBracket
    | SingleQuote
    | DoubleQuote
  {
    /** The one-character spelling each punctuation separator stands for. */
    function Text(): string
      requires !Whitespace?
    {
      match this
      case Semicolon => ";"
      case Colon => ":"
      case OpenParanthesis => "("
      case ClosedParanthesis => ")"
      case OpenSquareBracket => "["
      case ClosedSquareBracket => "]"
      case OpenBracket => "{"
      case ClosedBracket => "}"
      case SingleQuote => "'"
      case DoubleQuote => "\""
    }

    /**
     * The earlier `Separator::try_parse`, as written: blank input is `Whitespace`; the other
     * separators are recognised by their spelling, except `ClosedParanthesis`, whose arm
     * matches `""` and is never reached.
     */
    static function TryParse(input: string): (r: Option<Separator>)
      ensures r == Some(Whitespace) <==> Separators.Blank(input)
      ensures r != Some(ClosedParanthesis)
      ensures r.Some? && !r.value.Whitespace? ==> r.value.Text() == input
      ensures forall sep: Separator :: !sep.Whitespace? && sep != ClosedParanthesis && sep.Text() == input ==> r == Some(sep)
    {
      PunctuationNotBlank();
      if Separators.Blank(input) then Some(Whitespace)
      else if input == ";" then Some(Semicolon)
      else if input == ":" then Some(Colon)
      else if input == "(" then Some(OpenParanthesis)
      else if input == "" then Some(ClosedParanthesis)
      else if input == "[" then Some(OpenSquareBracket)
      else if input == "]" then Some(ClosedSquareBracket)
      else if input == "{" then Some(OpenBracket)
      else if input == "}" then Some(ClosedBracket)
      else if input == "'" then Some(SingleQuote)
      else if input == "\"" then Some(DoubleQuote)
      else None
    }

    /**
     * The earlier `Separator::is_whitespace`: this is the separator blank input parses to;
     * any other separator but the unreachable `ClosedParanthesis` is what its own spelling
     * parses to.
     */
    function IsWhitespace(): (r: bool)
      ensures r <==> TryParse("") == Some(this)
      ensures !r && this != ClosedParanthesis ==> TryParse(Text()) == Some(this)
    {
      Whitespace?
    }

    /** The current separator with the same meaning, if there is one (quotes have none). */
    function Current(): Option<Separators.Separator>
    {
      match this
      case Whitespace => Some(Separators.Whitespace)
      case Semicolon => Some(Separators.Semicolon)
      case Colon => Some(Separators.Colon)
      case OpenParanthesis => Some(Separators.OpenParanthesis)
      case ClosedParanthesis => Some(Separators.ClosedParanthesis)
      case OpenSquareBracket => Some(Separators.OpenSquareBracket)
      case ClosedSquareBracket => Some(Separators.ClosedSquareBracket)
      case OpenBracket => Some(Separators.OpenBracket)
      case ClosedBracket => Some(Separators.ClosedBracket)
      case SingleQuote => None
      case DoubleQuote => None
    }
  }

  /** Punctuation, quotes included, is one character that is not white space. */
  lemma PunctuationNotBlank()
    ensures forall sep: Separator :: !sep.Whitespace? ==> |sep.Text()| == 1 && !Separators.Blank(sep.Text())
  {
    forall sep: Separator | !sep.Whitespace?
      ensures |sep.Text()| == 1 && !Separators.Blank(sep.Text())
    {
      assert !Separators.IsWhiteSpace(sep.Text()[0]);
    }
  }

  /** Blank input, `""` included, is whitespace; `)` is not a separator at all. */
  lemma ClosedParanthesisUnreachable()
    ensures Separator.TryParse("") == Some(Whitespace)
    ensures Separator.TryParse(")") == None
    ensures Separators.Separator.TryParse(")") == Some(Separators.ClosedParanthesis)
  {
    assert !Separators.IsWhiteSpace(")"[0]);
  }

  /**
   * The two separator tables agree on every input except `)`, which only the current one
   * recognises, and the quotes, which only the earlier one recognises.
   */
  lemma AgreesWithCurrent(input: string)
    requires input != ")" && input != "'" && input != "\""
    ensures Separator.TryParse(input).Some? <==> Separators.Separator.TryParse(input).Some?
    ensures Separator.TryParse(input).Some? ==> Separator.TryParse(input).value.Current() == Separators.Separator.TryParse(input)
  {
    Separators.AcceptsExactly(input);
  }

  /** The earlier `Primitive`; the string type is named `String`. */
  datatype Primitive = I32 | Bool | Char | String
  {
    function Text(): string
    {
      match this
      case I32 => "i32"
      case Bool => "bool"
      case Char => "char"
      case String => "str"
    }

    /** The earlier `Primitive::try_parse`: exactly the name of a primitive type. */
    static function TryParse(input: string): (r: Option<Primitive>)
      ensures r.Some? ==> r.value.Text() == input
      ensures forall p: Primitive :: p.Text() == input ==> r == Some(p)
    {
      if input == "i32" then Some(Primitive.I32)
      else if input == "bool" then Some(Primitive.Bool)
      else if input == "char" then Some(Primitive.Char)
      else if input == "str" then Some(Primitive.String)
      else None
    }

    /** The current primitive of the same name. */
    function Current(): ReservedWords.Primitive
    {
      match this
      case I32 => ReservedWords.I32
      case Bool => ReservedWords.Bool
      case Char => ReservedWords.Char
      case String => ReservedWords.Str
    }
  }

  /** The earlier `ReservedWord`. */
  datatype ReservedWord =
    | Primitive(primitive: Primitive)
    | ControlFlow(controlFlow: ReservedWords.ControlFlow)
    | BoolLiteral(boolLiteral: ReservedWords.BoolLiteral)
  {
    /** The current reserved word with the same meaning. */
    function Current(): ReservedWords.ReservedWord
    {
      match this
      case Primitive(p) => ReservedWords.ReservedWord.Primitive(p.Current())
      case ControlFlow(c) => ReservedWords.ReservedWord.ControlFlow(c)
      case BoolLiteral(b) => ReservedWords.ReservedWord.BoolLiteral(b)
    }

    /**
     * The earlier `ReservedWord::try_parse`: it recognises the same eleven words as the
     * current table and means the same by each.
     */
    static function TryParse(input: string): (r: Option<ReservedWord>)
      ensures r.Some? <==> ReservedWords.ReservedWord.TryParse(input).Some?
      ensures r.Some? ==> ReservedWords.ReservedWord.TryParse(input) == Some(r.value.Current())
    {
      match Primitive.TryParse(input)
      case Some(p) => Some(Primitive(p))
      case None =>
        match ReservedWords.ControlFlow.TryParse(input)
        case Some(c) => Some(ControlFlow(c))
        case None =>
          match ReservedWords.BoolLiteral.TryParse(input)
          case Some(b) => Some(BoolLiteral(b))
          case None => None
    }
  }

  /** The earlier `Literal`: the kind of constant and its id. */
  datatype Literal = I32(id: nat) | Char(id: nat) | String(id: nat)

  /** The earlier `Token`. */
  datatype Token =
    | Separator(separator: Separator)
    | ReservedWord(reservedWord: ReservedWord)
    | Literal(literal: Literal)
    | Ident(id: nat)
}
