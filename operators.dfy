/**
 * The operator table of the scanner (compiler/src/scanner/tokens/operators.rs): five
 * categories, each parsed from its exact text, tried in the order assignment, arithmetic,
 * relational, logical, bitwise; and whether the scanner has to read one more grapheme to
 * decide the operator.
 *
 * Each category's `Text` is the spelling of an operator; the parsers are proved to be its
 * exact inverse, which is what makes the first-match order harmless.
 */
module Operators {
  import opened Wrappers
  import Utils

  /** `AssignmentOperator`: `=`. */
  datatype AssignmentOperator = Assign
  {
    function Text(): string { "=" }

    /** `AssignmentOperator::try_parse`: exactly the text of the operator. */
    static function TryParse(input: string): (r: Option<AssignmentOperator>)
      ensures r.Some? ==> r.value.Text() == input
      ensures forall op: AssignmentOperator :: op.Text() == input ==> r == Some(op)
    {
      assert forall op: AssignmentOperator :: op.Text() == input ==> op == Assign;
      if input == "=" then Some(Assign) else None
    }

    /** `AssignmentOperator::needs_lookahead`: `=` may start `==`. */
    function NeedsLookahead(): (r: bool)
      ensures r <==> Operator.TryParse(Text() + "=").Some? || Operator.TryParse(Text() + Text()).Some?
    {
      true
    }
  }

  /** `ArithmeticOperator`. */
  datatype ArithmeticOperator = Addition | Subtraction | Multiplication | Division | Remainder
  {
    function Text(): string
    {
      match this
      case Addition => "+"
      case Subtraction => "-"
      case Multiplication => "*"
      case Division => "/"
      case Remainder => "%"
    }

    /** `ArithmeticOperator::try_parse`: exactly the text of an arithmetic operator. */
    static function TryParse(input: string): (r: Option<ArithmeticOperator>)
      ensures r.Some? ==> r.value.Text() == input
      ensures forall op: ArithmeticOperator :: op.Text() == input ==> r == Some(op)
    {
      if input == "+" then Some(Addition)
      else if input == "-" then Some(Subtraction)
      else if input == "*" then Some(Multiplication)
      else if input == "/" then Some(Division)
      else if input == "%" then Some(Remainder)
      else None
    }

    /** `ArithmeticOperator::needs_lookahead`: never, no operator starts with one. */
    function NeedsLookahead(): (r: bool)
      ensures r <==> Operator.TryParse(Text() + "=").Some? || Operator.TryParse(Text() + Text()).Some?
    {
      NotAnOperator(Text() + "=");
      NotAnOperator(Text() + Text());
      AcceptsExactly(Text() + "=");
      AcceptsExactly(Text() + Text());
      false
    }
  }

  /** `RelationalOperator`. */
  datatype RelationalOperator = Equal | NotEqual | Less | LessOrEqual | Greater | GreaterOrEqual
  {
    function Text(): string
    {
      match this
      case Equal => "=="
      case NotEqual => "!="
      case Less => "<"
      case LessOrEqual => "<="
      case Greater => ">"
      case GreaterOrEqual => ">="
    }

    /** `RelationalOperator::try_parse`: exactly the text of a relational operator. */
    static function TryParse(input: string): (r: Option<RelationalOperator>)
      ensures r.Some? ==> r.value.Text() == input
      ensures forall op: RelationalOperator :: op.Text() == input ==> r == Some(op)
    {
      if input == "==" then Some(Equal)
      else if input == "!=" then Some(NotEqual)
      else if input == "<" then Some(Less)
      else if input == "<=" then Some(LessOrEqual)
      else if input == ">" then Some(Greater)
      else if input == ">=" then Some(GreaterOrEqual)
      else None
    }

    /** `RelationalOperator::needs_lookahead`: `<` and `>` may start `<=` and `>=`. */
    function NeedsLookahead(): (r: bool)
      ensures r <==> Operator.TryParse(Text() + "=").Some? || Operator.TryParse(Text() + Text()).Some?
    {
      this == Less || this == Greater
    }
  }

  /** `LogicalOperator`. */
  datatype LogicalOperator = And | Or | Not
  {
    function Text(): string
    {
      match this
      case And => "&&"
      case Or => "||"
      case Not => "!"
    }

    /** `LogicalOperator::try_parse`: exactly the text of a logical operator. */
    static function TryParse(input: string): (r: Option<LogicalOperator>)
      ensures r.Some? ==> r.value.Text() == input
      ensures forall op: LogicalOperator :: op.Text() == input ==> r == Some(op)
    {
      if input == "&&" then Some(LogicalOperator.And)
      else if input == "||" then Some(LogicalOperator.Or)
      else if input == "!" then Some(LogicalOperator.Not)
      else None
    }

    /** `LogicalOperator::needs_lookahead`: `!` may start `!=`. */
    function NeedsLookahead(): (r: bool)
      ensures r <==> Operator.TryParse(Text() + "=").Some? || Operator.TryParse(Text() + Text()).Some?
    {
      this == LogicalOperator.Not
    }
  }

  /** `BitwiseOperator`; its `Not` is spelled `^`. */
  datatype BitwiseOperator = And | Or | Not
  {
    function Text(): string
    {
      match this
      case And => "&"
      case Or => "|"
      case Not => "^"
    }

    /** `BitwiseOperator::try_parse`: exactly the text of a bitwise operator. */
    static function TryParse(input: string): (r: Option<BitwiseOperator>)
      ensures r.Some? ==> r.value.Text() == input
      ensures forall op: BitwiseOperator :: op.Text() == input ==> r == Some(op)
    {
      if input == "&" then Some(BitwiseOperator.And)
      else if input == "|" then Some(BitwiseOperator.Or)
      else if input == "^" then Some(BitwiseOperator.Not)
      else None
    }

    /** `BitwiseOperator::needs_lookahead`: `&` and `|` may start `&&` and `||`. */
    function NeedsLookahead(): (r: bool)
      ensures r <==> Operator.TryParse(Text() + "=").Some? || Operator.TryParse(Text() + Text()).Some?
    {
      AcceptsExactly("^=");
      AcceptsExactly("^^");
      this == BitwiseOperator.And || this == BitwiseOperator.Or
    }
  }

  /** `Operator`. */
  datatype Operator =
    | Assignment(assignment: AssignmentOperator)
    | Arithmetic(arithmetic: ArithmeticOperator)
    | Relational(relational: RelationalOperator)
    | Logical(logical: LogicalOperator)
    | Bitwise(bitwise: BitwiseOperator)
  {
    function Text(): string
    {
      match this
      case Assignment(op) => op.Text()
      case Arithmetic(op) => op.Text()
      case Relational(op) => op.Text()
      case Logical(op) => op.Text()
      case Bitwise(op) => op.Text()
    }

    /**
     * `Operator::try_parse`: the categories are tried in order and the first that accepts
     * wins. The result is the one operator spelled `input`, if any: no category hides
     * another's operator.
     */
    static function TryParse(input: string): (r: Option<Operator>)
      ensures r.Some? ==> r.value.Text() == input
      ensures forall op: Operator :: op.Text() == input ==> r == Some(op)
    {
      match AssignmentOperator.TryParse(input)
      case Some(op) => Some(Assignment(op))
      case None =>
        match ArithmeticOperator.TryParse(input)
        case Some(op) => Some(Arithmetic(op))
        case None =>
          match RelationalOperator.TryParse(input)
          case Some(op) => Some(Relational(op))
          case None =>
            match LogicalOperator.TryParse(input)
            case Some(op) => Some(Logical(op))
            case None =>
              match BitwiseOperator.TryParse(input)
              case Some(op) => Some(Bitwise(op))
              case None => None
    }

    /**
     * `Operator::needs_lookahead`: as the operator's category decides; exactly when the
     * operator followed by `=` or by itself spells another operator.
     */
    function NeedsLookahead(): (r: bool)
      ensures r <==> Operator.TryParse(Text() + "=").Some? || Operator.TryParse(Text() + Text()).Some?
    {
      match this
      case Assignment(op) => op.NeedsLookahead()
      case Arithmetic(op) => op.NeedsLookahead()
      case Relational(op) => op.NeedsLookahead()
      case Logical(op) => op.NeedsLookahead()
      case Bitwise(op) => op.NeedsLookahead()
    }
  }

  /** The 18 spellings of operators. */
  function OperatorStrings(): set<string>
  {
    {"=", "+", "-", "*", "/", "%", "==", "!=", "<", "<=", ">", ">=", "&&", "||", "!", "&", "|", "^"}
  }

  /** `Operator::try_parse` accepts exactly the 18 operator spellings. */
  lemma AcceptsExactly(input: string)
    ensures Operator.TryParse(input).Some? <==> input in OperatorStrings()
  {
    if input in OperatorStrings() {
      var op :=
        if input == "=" then Operator.Assignment(Assign)
        else if input == "+" then Operator.Arithmetic(Addition)
        else if input == "-" then Operator.Arithmetic(Subtraction)
        else if input == "*" then Operator.Arithmetic(Multiplication)
        else if input == "/" then Operator.Arithmetic(Division)
        else if input == "%" then Operator.Arithmetic(Remainder)
        else if input == "==" then Operator.Relational(Equal)
        else if input == "!=" then Operator.Relational(NotEqual)
        else if input == "<" then Operator.Relational(Less)
        else if input == "<=" then Operator.Relational(LessOrEqual)
        else if input == ">" then Operator.Relational(Greater)
        else if input == ">=" then Operator.Relational(GreaterOrEqual)
        else if input == "&&" then Operator.Logical(LogicalOperator.And)
        else if input == "||" then Operator.Logical(LogicalOperator.Or)
        else if input == "!" then Operator.Logical(LogicalOperator.Not)
        else if input == "&" then Operator.Bitwise(BitwiseOperator.And)
        else if input == "|" then Operator.Bitwise(BitwiseOperator.Or)
        else Operator.Bitwise(BitwiseOperator.Not);
      assert op.Text() == input;
    }
  }

  /** There are 18 distinct operator spellings. */
  lemma EighteenOperators()
    ensures |OperatorStrings()| == 18
  {
    var s := ["=", "+", "-", "*", "/", "%", "==", "!=", "<", "<=", ">", ">=", "&&", "||", "!", "&", "|", "^"];
    assert forall i, j :: 0 <= i < j < |s| ==> s[i] != s[j];
    Utils.DistinctCard(s);
    assert OperatorStrings() == set x | x in s;
  }


  /** Distinct operators have distinct spellings, so parsing is injective. */
  lemma TextInjective(a: Operator, b: Operator)
    ensures a.Text() == b.Text() ==> a == b
  {
    var _ := Operator.TryParse(a.Text());
  }

  /** The categories accept disjoint sets of strings. */
  lemma CategoriesDisjoint(input: string)
    ensures var accepted := [AssignmentOperator.TryParse(input).Some?, ArithmeticOperator.TryParse(input).Some?,
                             RelationalOperator.TryParse(input).Some?, LogicalOperator.TryParse(input).Some?,
                             BitwiseOperator.TryParse(input).Some?];
      forall i, j :: 0 <= i < j < 5 && accepted[i] ==> !accepted[j]
  {
  }

  /**
   * An operator needs lookahead exactly when it is one character long and that character
   * followed by some other character spells an operator: `=`, `<`, `>`, `!`, `&`, `|`.
   */
  lemma LookaheadIffExtensible(op: Operator)
    ensures op.NeedsLookahead() <==> |op.Text()| == 1 && exists c: char :: Operator.TryParse(op.Text() + [c]).Some?
  {
    if op.NeedsLookahead() {
      var two := match op
        case Assignment(_) => Operator.Relational(Equal)
        case Relational(Less) => Operator.Relational(LessOrEqual)
        case Relational(_) => Operator.Relational(GreaterOrEqual)
        case Logical(_) => Operator.Relational(NotEqual)
        case _ =>
          if op == Operator.Bitwise(BitwiseOperator.And) then Operator.Logical(LogicalOperator.And)
          else Operator.Logical(LogicalOperator.Or);
      assert op.Text() + [two.Text()[1]] == two.Text();
    } else if |op.Text()| == 1 {
      forall c: char
        ensures Operator.TryParse(op.Text() + [c]).None?
      {
        var s := op.Text() + [c];
        assert s[0] == op.Text()[0];
        NotAnOperator(s);
        AcceptsExactly(s);
      }
    }
  }

  /** Every two-character operator starts with one of `=`, `!`, `<`, `>`, `&`, `|`. */
  lemma NotAnOperator(s: string)
    requires |s| == 2 && s[0] !in "=!<>&|"
    ensures s !in OperatorStrings()
  {
  }

  /**
   * What follows a one-character operator to spell a longer one is itself an operator
   * (`=`, `&` or `|`).
   */
  lemma ExtensionIsOperator(op: Operator, w: string)
    requires |op.Text()| == 1 && w != "" && Operator.TryParse(op.Text() + w).Some?
    ensures Operator.TryParse(w).Some?
  {
    var s := op.Text() + w;
    AcceptsExactly(s);
    assert |s| == 2 && w == [s[1]];
    assert s[1] in "=&|";
    AcceptsExactly(w);
  }

  /** The lookahead operators are exactly `=`, `<`, `>`, `!`, `&` and `|`. */
  lemma LookaheadOperators(op: Operator)
    ensures op.NeedsLookahead() <==>
      op in {Operator.Assignment(Assign), Operator.Relational(Less), Operator.Relational(Greater),
             Operator.Logical(LogicalOperator.Not), Operator.Bitwise(BitwiseOperator.And), Operator.Bitwise(BitwiseOperator.Or)}
    ensures op.NeedsLookahead() ==> |op.Text()| == 1
    ensures |op.Text()| == 2 || op.Arithmetic? ==> !op.NeedsLookahead()
  {
    match op
    case Assignment(a) => assert a == Assign;
    case _ =>
  }

  /** Every operator is spelled with a leading `=`, `+`, `-`, `*`, `/`, `%`, `!`, `<`, `>`, `&`, `|` or `^`. */
  lemma FirstCharacter(op: Operator)
    ensures op.Text() != [] && op.Text()[0] in "=+-*/%!<>&|^"
  {
    match op
    case Assignment(a) => assert a == Assign;
    case _ =>
  }
}
