/**
 * The reserved words of the scanner (compiler/src/scanner/tokens/reserved_words.rs):
 * primitive type names, control-flow keywords and the boolean literals, tried in that order.
 */
module ReservedWords {
  import opened Wrappers
  import Utils

  /** `Primitive`. */
  datatype Primitive = I32 | Bool | Char | Str
  {
    function Text(): string
    {
      match this
      case I32 => "i32"
      case Bool => "bool"
      case Char => "char"
      case Str => "str"
    }

    /** `Primitive::try_parse`: exactly the name of a primitive type. */
    static function TryParse(input: string): (r: Option<Primitive>)
      ensures r.Some? ==> r.value.Text() == input
      ensures forall p: Primitive :: p.Text() == input ==> r == Some(p)
    {
      if input == "i32" then Some(I32)
      else if input == "bool" then Some(Bool)
      else if input == "char" then Some(Char)
      else if input == "str" then Some(Str)
      else None
    }
  }

  /** `ControlFlow`. */
  datatype ControlFlow = If | Else | For | In | While
  {
    function Text(): string
    {
      match this
      case If => "if"
      case Else => "else"
      case For => "for"
      case In => "in"
      case While => "while"
    }

    /** `ControlFlow::try_parse`: exactly a control-flow keyword. */
    static function TryParse(input: string): (r: Option<ControlFlow>)
      ensures r.Some? ==> r.value.Text() == input
      ensures forall c: ControlFlow :: c.Text() == input ==> r == Some(c)
    {
      if input == "if" then Some(If)
      else if input == "else" then Some(Else)
      else if input == "for" then Some(For)
      else if input == "in" then Some(In)
      else if input == "while" then Some(While)
      else None
    }
  }

  /** `BoolLiteral`. */
  datatype BoolLiteral = True | False
  {
    function Text(): string
    {
      match this
      case True => "true"
      case False => "false"
    }

    /** `BoolLiteral::try_parse`: exactly `true` or `false`. */
    static function TryParse(input: string): (r: Option<BoolLiteral>)
      ensures r.Some? ==> r.value.Text() == input
      ensures forall b: BoolLiteral :: b.Text() == input ==> r == Some(b)
    {
      if input == "true" then Some(True)
      else if input == "false" then Some(False)
      else None
    }
  }

  /** `ReservedWord`. */
  datatype ReservedWord =
    | Primitive(primitive: Primitive)
    | ControlFlow(controlFlow: ControlFlow)
    | BoolLiteral(boolLiteral: BoolLiteral)
  {
    function Text(): string
    {
      match this
      case Primitive(p) => p.Text()
      case ControlFlow(c) => c.Text()
      case BoolLiteral(b) => b.Text()
    }

    /**
     * `ReservedWord::try_parse`: the categories are tried in order; the result is the one
     * reserved word spelled `input`, if any.
     */
    static function TryParse(input: string): (r: Option<ReservedWord>)
      ensures r.Some? ==> r.value.Text() == input
      ensures forall w: ReservedWord :: w.Text() == input ==> r == Some(w)
    {
      match Primitive.TryParse(input)
      case Some(p) => Some(Primitive(p))
      case None =>
        match ControlFlow.TryParse(input)
        case Some(c) => Some(ControlFlow(c))
        case None =>
          match BoolLiteral.TryParse(input)
          case Some(b) => Some(BoolLiteral(b))
          case None => None
    }
  }

  /** The eleven reserved words. */
  function ReservedStrings(): set<string>
  {
    {"i32", "bool", "char", "str", "if", "else", "for", "in", "while", "true", "false"}
  }

  /** `ReservedWord::try_parse` accepts exactly the eleven reserved words; so not `""`. */
  lemma AcceptsExactly(input: string)
    ensures ReservedWord.TryParse(input).Some? <==> input in ReservedStrings()
    ensures ReservedWord.TryParse("") == None
  {
    if input in ReservedStrings() {
      var w :=
        if input == "i32" then ReservedWord.Primitive(I32)
        else if input == "bool" then ReservedWord.Primitive(Bool)
        else if input == "char" then ReservedWord.Primitive(Char)
        else if input == "str" then ReservedWord.Primitive(Str)
        else if input == "if" then ReservedWord.ControlFlow(If)
        else if input == "else" then ReservedWord.ControlFlow(Else)
        else if input == "for" then ReservedWord.ControlFlow(For)
        else if input == "in" then ReservedWord.ControlFlow(In)
        else if input == "while" then ReservedWord.ControlFlow(While)
        else if input == "true" then ReservedWord.BoolLiteral(True)
        else ReservedWord.BoolLiteral(False);
      assert w.Text() == input;
    }
  }

  /** There are eleven distinct reserved words. */
  lemma ElevenWords()
    ensures |ReservedStrings()| == 11
  {
    var s := ["i32", "bool", "char", "str", "if", "else", "for", "in", "while", "true", "false"];
    assert forall i, j :: 0 <= i < j < |s| ==> s[i] != s[j];
    Utils.DistinctCard(s);
    assert ReservedStrings() == set x | x in s;
  }

  /** The three categories accept disjoint sets of words, and matching is case-sensitive. */
  lemma CategoriesDisjoint(input: string)
    ensures Primitive.TryParse(input).Some? ==> ControlFlow.TryParse(input).None? && BoolLiteral.TryParse(input).None?
    ensures ControlFlow.TryParse(input).Some? ==> BoolLiteral.TryParse(input).None?
    ensures ReservedWord.TryParse("True") == None && ReservedWord.TryParse("IF") == None
  {
    AcceptsExactly("True");
    AcceptsExactly("IF");
  }
}
