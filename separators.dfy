/**
 * The separator table of the scanner (compiler/src/scanner/tokens/separators.rs): blank
 * input is whitespace, and eight punctuation characters are separators of their own.
 *
 * Rust's `str::trim` removes leading and trailing characters with the Unicode
 * `White_Space` property; `IsWhiteSpace` lists them.
 */
module Separators {
  import opened Wrappers
  import Operators

  /** The Unicode `White_Space` property, as `char::is_whitespace` decides it. */
  predicate IsWhiteSpace(c: char)
  {
    || ('\U{0009}' <= c <= '\U{000D}') || c == '\U{0020}' || c == '\U{0085}' || c == '\U{00A0}'
    || c == '\U{1680}' || ('\U{2000}' <= c <= '\U{200A}') || c == '\U{2028}' || c == '\U{2029}'
    || c == '\U{202F}' || c == '\U{205F}' || c == '\U{3000}'
  }

  /** `str::trim_start`: drops the leading white space. */
  function TrimStart(s: string): (r: string)
    ensures |r| <= |s| && r == s[|s| - |r|..]
    ensures forall i :: 0 <= i < |s| - |r| ==> IsWhiteSpace(s[i])
    ensures r != [] ==> !IsWhiteSpace(r[0])
  {
    if s != [] && IsWhiteSpace(s[0]) then TrimStart(s[1..]) else s
  }

  /** `str::trim_end`: drops the trailing white space. */
  function TrimEnd(s: string): (r: string)
    ensures |r| <= |s| && r == s[..|r|]
    ensures forall i :: |r| <= i < |s| ==> IsWhiteSpace(s[i])
    ensures r != [] ==> !IsWhiteSpace(r[|r| - 1])
  {
    if s != [] && IsWhiteSpace(s[|s| - 1]) then TrimEnd(s[..|s| - 1]) else s
  }

  /** `str::trim`. */
  function Trim(s: string): string
  {
    TrimEnd(TrimStart(s))
  }

  /** Every character of `s` is white space (in particular, `""` is blank). */
  predicate Blank(s: string)
  {
    forall i :: 0 <= i < |s| ==> IsWhiteSpace(s[i])
  }

  /** Trimming leaves nothing exactly when the input is blank. */
  lemma TrimEmptyIffBlank(s: string)
    ensures Trim(s) == [] <==> Blank(s)
  {
    if Blank(s) {
      BlankTrimsToNothing(s);
    }
    if Trim(s) == [] {
      TrimmedAwayIsBlank(s);
    }
  }

  lemma TrimmedAwayIsBlank(s: string)
    requires Trim(s) == []
    ensures Blank(s)
  {
    assert TrimStart(s) == [];
  }

  lemma {:induction false} BlankTrimsToNothing(s: string)
    requires Blank(s)
    ensures TrimStart(s) == []
  {
    if s != [] {
      assert IsWhiteSpace(s[0]);
      BlankTrimsToNothing(s[1..]);
    }
  }


  /** `Separator`. */
  datatype Separator =
    | Whitespace
    | Semicolon
    | Colon
    | OpenParanthesis
    | ClosedParanthesis
    | OpenSquareBracket
    | ClosedSquareBracket
    | OpenBracket
    | ClosedBracket
  {
    /** The one-character spelling of a punctuation separator. */
    function Text(): string
      requires !Whitespace?
    {
      match this
      case Semicolon => ";"
      case Colon => ":"
      case OpenParanthesis => "("
      case ClosedParanthesis => ")"
      case OpenSquareBracket => "["
      case ClosedSquareBracket => "]"
      case OpenBracket => "{"
      case ClosedBracket => "}"
    }

    /**
     * `Separator::try_parse`: blank input is `Whitespace`, whatever it looks like; any other
     * input is the punctuation separator it spells, if any.
     */
    static function TryParse(input: string): (r: Option<Separator>)
      ensures r == Some(Whitespace) <==> Blank(input)
      ensures r.Some? && !r.value.Whitespace? ==> r.value.Text() == input
      ensures forall sep: Separator :: !sep.Whitespace? && sep.Text() == input ==> r == Some(sep)
    {
      PunctuationNotBlank();
      if Blank(input) then Some(Whitespace)
      else if input == ";" then Some(Semicolon)
      else if input == ":" then Some(Colon)
      else if input == "(" then Some(OpenParanthesis)
      else if input == ")" then Some(ClosedParanthesis)
      else if input == "[" then Some(OpenSquareBracket)
      else if input == "]" then Some(ClosedSquareBracket)
      else if input == "{" then Some(OpenBracket)
      else if input == "}" then Some(ClosedBracket)
      else None
    }

    /**
     * `Separator::is_whitespace`: this is the separator blank input parses to; any other
     * separator is what its own spelling parses to.
     */
    function IsWhitespace(): (r: bool)
      ensures r <==> TryParse("") == Some(this)
      ensures !r ==> TryParse(Text()) == Some(this)
    {
      Whitespace?
    }
  }

  /** Punctuation is one character that is not white space. */
  lemma PunctuationNotBlank()
    ensures forall sep: Separator :: !sep.Whitespace? ==> |sep.Text()| == 1 && !Blank(sep.Text())
  {
    forall sep: Separator | !sep.Whitespace?
      ensures |sep.Text()| == 1 && !Blank(sep.Text())
    {
      assert !IsWhiteSpace(sep.Text()[0]);
    }
  }

  /** The eight punctuation separators. */
  function PunctuationStrings(): set<string>
  {
    {";", ":", "(", ")", "[", "]", "{", "}"}
  }

  /**
   * Parsing accepts exactly the blank strings and the eight punctuation strings, and the
   * separator is whitespace exactly for blank input.
   */
  lemma AcceptsExactly(input: string)
    ensures Separator.TryParse(input).Some? <==> Blank(input) || input in PunctuationStrings()
    ensures Separator.TryParse(input).Some? ==> (Separator.TryParse(input).value.IsWhitespace() <==> Blank(input))
  {
    if input in PunctuationStrings() {
      assert !IsWhiteSpace(input[0]);
    }
  }

  /** A string that starts with a quote or an operator character is not a separator. */
  lemma NotASeparator(t: string)
    requires t != [] && t[0] in "'\"=+-*/%!<>&|^"
    ensures Separator.TryParse(t) == None
  {
    assert !IsWhiteSpace(t[0]);
    AcceptsExactly(t);
  }

  /** Quotes and operator spellings are not separators. */
  lemma QuotesAndOperatorsAreNot(op: Operators.Operator)
    ensures Separator.TryParse("'") == None && Separator.TryParse("\"") == None
    ensures Separator.TryParse(op.Text()) == None
  {
    NotASeparator("'");
    NotASeparator("\"");
    Operators.FirstCharacter(op);
    NotASeparator(op.Text());
  }
}
