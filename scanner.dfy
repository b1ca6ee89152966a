/**
 * The scanner (compiler/src/scanner/scanner.rs): one left-to-right pass over the
 * graphemes of the source with one grapheme of lookahead. A word buffer collects the
 * graphemes that are neither separators nor operators; it is flushed (classified and
 * turned into a token) at every separator and operator. Numbers, strings and characters
 * are interned in the constant table and identifiers in the identifier table; tokens
 * carry the ids the tables return.
 *
 * The source is given already split into graphemes. The two state-machine acceptance
 * tests for numbers and identifiers are parameters `isNumber` and `isIdent` (applied to
 * the word); `NumberLiteral` and `IdentLiteral` are the two regular expressions the
 * source declares for the same purpose and serve as concrete instances.
 *
 * `Lex` is the scan as a function of the graphemes, with each symbol table abstracted
 * to the sequence of its symbols in first-seen order; `FromSource` is proved to compute it.
 */
module Scanner {
  import opened Wrappers
  import Symbols
  import SymbolTables
  import Operators
  import Separators
  import ReservedWords

  // ---------------------------------------------------------------------------
  // Tokens and errors
  // ---------------------------------------------------------------------------

  /** `LiteralKind`. */
  datatype LiteralKind = I32 | Char | Str

  /** `Literal`: the id in the constant table and the kind of constant. */
  datatype Literal = New(id: nat, kind: LiteralKind)

  /** `Token`. */
  datatype Token =
    | Separator(separator: Separators.Separator)
    | Operator(operator: Operators.Operator)
    | ReservedWord(reservedWord: ReservedWords.ReservedWord)
    | Literal(literal: Literal)
    | Ident(id: nat)

  /** `LexicalError`: a message and the line it was found on. */
  datatype LexicalError = LexicalError(message: string, line: nat)

  // ---------------------------------------------------------------------------
  // Lexemes
  // ---------------------------------------------------------------------------

  predicate IsDigit(c: char) { '0' <= c <= '9' }

  predicate IsLetter(c: char) { 'a' <= c <= 'z' || 'A' <= c <= 'Z' }

  /** The class `[_a-zA-Z0-9]`. */
  predicate IsWordChar(c: char) { c == '_' || IsLetter(c) || IsDigit(c) }

  predicate AllDigits(s: string)
  {
    forall i :: 0 <= i < |s| ==> IsDigit(s[i])
  }

  /** The decimal value of a digit string (`0` for the empty string). */
  function DecimalValue(s: string): nat
    requires AllDigits(s)
  {
    if s == [] then 0 else DecimalValue(s[..|s| - 1]) * 10 + ((s[|s| - 1] as int) - ('0' as int))
  }

  /** `NUMBER_LITERAL_REGEX`: `0`, or a digit string without a leading zero. */
  predicate NumberLiteral(s: string)
  {
    s == "0" || (|s| >= 1 && '1' <= s[0] <= '9' && AllDigits(s))
  }

  /** `STR_LITERAL_REGEX`: `"`, then any number of `[_a-zA-Z0-9]`, then `"`. */
  predicate StrLiteral(s: string)
  {
    |s| >= 2 && s[0] == '"' && s[|s| - 1] == '"' && forall i :: 1 <= i < |s| - 1 ==> IsWordChar(s[i])
  }

  /** `CHAR_LITERAL_REGEX`: `'`, one character of `[_a-zA-Z0-9]`, `'`. */
  predicate CharLiteral(s: string)
  {
    |s| == 3 && s[0] == '\'' && s[2] == '\'' && IsWordChar(s[1])
  }

  /** `IDENT_REGEX`: `_` and at least one of `[_a-zA-Z0-9]`, or a letter and any number of them. */
  predicate IdentLiteral(s: string)
  {
    && |s| >= 1
    && (IsLetter(s[0]) || (s[0] == '_' && |s| >= 2))
    && forall i :: 1 <= i < |s| ==> IsWordChar(s[i])
  }

  /** A number acceptance test that only accepts digit strings whose value fits an `i32`. */
  ghost predicate NumbersFit(isNumber: string -> bool)
  {
    forall w :: isNumber(w) ==> AllDigits(w) && DecimalValue(w) <= Symbols.I32_MAX
  }

  // ---------------------------------------------------------------------------
  // parse_i32
  // ---------------------------------------------------------------------------

  lemma {:induction false} DecimalPrefixBelow(s: string, k: nat)
    requires AllDigits(s) && k <= |s|
    ensures AllDigits(s[..k]) && DecimalValue(s[..k]) <= DecimalValue(s)
    decreases |s|
  {
    if k < |s| {
      var t := s[..|s| - 1];
      assert t[..k] == s[..k];
      DecimalPrefixBelow(t, k);
    } else {
      assert s[..k] == s;
    }
  }

  /**
   * `parse_i32`: the decimal value of a digit string, accumulated as `acc * 10 + digit`.
   * The source panics on a non-digit; a value beyond `i32` would overflow the accumulator.
   */
  method ParseI32(input: string) returns (r: Symbols.i32)
    requires AllDigits(input) && DecimalValue(input) <= Symbols.I32_MAX
    ensures r as int == DecimalValue(input)
  {
    var accumulator: Symbols.i32 := 0;
    for k := 0 to |input|
      invariant accumulator as int == DecimalValue(input[..k])
    {
      DecimalPrefixBelow(input, k + 1);
      assert input[..k + 1][..k] == input[..k];
      var digit := ((input[k] as int) - ('0' as int)) as Symbols.i32;
      accumulator := accumulator * 10;
      accumulator := accumulator + digit;
    }
    assert input[..|input|] == input;
    return accumulator;
  }

  /** The canonical decimal spelling of `n`. */
  function DecimalText(n: nat): (s: string)
    ensures |s| >= 1 && AllDigits(s)
  {
    var d := [(('0' as int) + n % 10) as char];
    if n < 10 then d else DecimalText(n / 10) + d
  }

  /** Spelling a number and parsing it back gives the number; the spelling is a number literal. */
  lemma {:induction false} DecimalRoundTrip(n: nat)
    ensures DecimalValue(DecimalText(n)) == n && NumberLiteral(DecimalText(n))
  {
    var s := DecimalText(n);
    if n >= 10 {
      DecimalRoundTrip(n / 10);
      assert s[..|s| - 1] == DecimalText(n / 10);
      assert s[0] == DecimalText(n / 10)[0];
    }
  }

  /** Every number literal is the canonical spelling of its value: the value determines it. */
  lemma {:induction false} NumberLiteralCanonical(s: string)
    requires NumberLiteral(s)
    ensures AllDigits(s) && DecimalText(DecimalValue(s)) == s
  {
    if |s| > 1 {
      var t := s[..|s| - 1];
      assert NumberLiteral(t);
      NumberLiteralCanonical(t);
      PositiveLeadingDigit(t);
      var n, d := DecimalValue(t), (s[|s| - 1] as int) - ('0' as int);
      assert DecimalValue(s) == n * 10 + d;
      assert (n * 10 + d) / 10 == n && (n * 10 + d) % 10 == d;
      assert [(('0' as int) + d) as char] == [s[|s| - 1]];
      assert s == t + [s[|s| - 1]];
    }
  }

  /**
   * `NUMBER_LITERAL_REGEX` puts no bound on the number of digits: the spelling of `I32_MAX + 1` is
   * a number literal, `parse_i32` overflows on it, and the regex is not a number test
   * that keeps to `i32`.
   */
  lemma NumberLiteralOverflows()
    ensures NumberLiteral(DecimalText(Symbols.I32_MAX + 1))
    ensures DecimalValue(DecimalText(Symbols.I32_MAX + 1)) == Symbols.I32_MAX + 1
    ensures !NumbersFit(NumberLiteral)
  {
    DecimalRoundTrip(Symbols.I32_MAX + 1);
  }

  lemma {:induction false} PositiveLeadingDigit(s: string)
    requires |s| >= 1 && '1' <= s[0] <= '9' && AllDigits(s)
    ensures DecimalValue(s) >= 1
  {
    if |s| > 1 {
      PositiveLeadingDigit(s[..|s| - 1]);
    }
  }

  /** The source's own examples of `parse_i32`. */
  lemma ParseExamples()
    ensures DecimalValue("0") == 0 && DecimalValue("123") == 123 && DecimalValue("1000") == 1000
  {
    assert "123"[..2] == "12" && "12"[..1] == "1" && "1"[..0] == "";
    assert "1000"[..3] == "100" && "100"[..2] == "10" && "10"[..1] == "1";
    assert "0"[..0] == "";
  }

  // ---------------------------------------------------------------------------
  // The scan as a function
  // ---------------------------------------------------------------------------

  /** The scanner's state: tokens, the two tables' symbols in id order, the word buffer, the line. */
  datatype ScanState = ScanState(tokens: seq<Token>, idents: seq<Symbols.Symbol>, consts: seq<Symbols.Symbol>, word: string, line: nat)

  /** The index of the first occurrence of `s`. */
  function IndexOf(order: seq<Symbols.Symbol>, s: Symbols.Symbol): (k: nat)
    requires s in order
    ensures k < |order| && order[k] == s && s !in order[..k]
  {
    if order[0] == s then 0 else IndexOf(order[1..], s) + 1
  }

  /**
   * `SymbolTable::insert` on the table's symbols: a symbol already present keeps its id, a
   * new one is appended and gets the next id.
   */
  function Intern(order: seq<Symbols.Symbol>, s: Symbols.Symbol): (r: (seq<Symbols.Symbol>, nat))
    ensures 1 <= r.1 <= |r.0| && r.0[r.1 - 1] == s && s !in r.0[..r.1 - 1]
    ensures order <= r.0 && |r.0| <= |order| + 1
  {
    if s in order then (order, IndexOf(order, s) + 1) else (order + [s], |order| + 1)
  }

  /** `consume_word`: classify the word buffer (first match wins) and empty it. */
  function ConsumeWordSpec(st: ScanState, isNumber: string -> bool, isIdent: string -> bool): Result<ScanState, LexicalError>
    requires NumbersFit(isNumber)
  {
    var w := st.word;
    match ReservedWords.ReservedWord.TryParse(w)
    case Some(rw) => Ok(st.(tokens := st.tokens + [ReservedWord(rw)], word := ""))
    case None =>
      if w == "" then Ok(st)
      else if isNumber(w) then
        var (consts, id) := Intern(st.consts, Symbols.Const(Symbols.I32(DecimalValue(w) as Symbols.i32)));
        Ok(st.(tokens := st.tokens + [Literal(New(id, I32))], consts := consts, word := ""))
      else if StrLiteral(w) then
        var (consts, id) := Intern(st.consts, Symbols.Const(Symbols.Str(w[1..|w| - 1])));
        Ok(st.(tokens := st.tokens + [Literal(New(id, Str))], consts := consts, word := ""))
      else if CharLiteral(w) then
        var (consts, id) := Intern(st.consts, Symbols.Const(Symbols.Char(w[1])));
        Ok(st.(tokens := st.tokens + [Literal(New(id, Char))], consts := consts, word := ""))
      else if isIdent(w) then
        var (idents, id) := Intern(st.idents, Symbols.Ident(w));
        Ok(st.(tokens := st.tokens + [Ident(id)], idents := idents, word := ""))
      else Err(LexicalError("Failed to parse \"" + w + "\"", st.line))
  }

  /** The line counter after grapheme `g`. */
  function LineAfter(line: nat, g: string): nat
  {
    if g == "\n" then line + 1 else line
  }

  /**
   * The operator emitted for operator grapheme `gs[i]` (parsed as `op`) and the index of
   * the next grapheme to read. The source looks one grapheme ahead (the empty string at
   * the end of the input) when `op` needs it; the result is the two-grapheme operator
   * exactly when that lookahead spells one, and the lookahead is then consumed.
   */
  function OperatorAt(gs: seq<string>, i: nat, op: Operators.Operator): (r: (Operators.Operator, nat))
    requires i < |gs| && Operators.Operator.TryParse(gs[i]) == Some(op)
    ensures var lengthens := op.NeedsLookahead() && i + 1 < |gs| && Operators.Operator.TryParse(gs[i] + gs[i + 1]).Some?;
      && (r.1 == if lengthens then i + 2 else i + 1)
      && (r.0 == if lengthens then Operators.Operator.TryParse(gs[i] + gs[i + 1]).value else op)
  {
    if !op.NeedsLookahead() then (op, i + 1)
    else
      var next := if i + 1 < |gs| then gs[i + 1] else "";
      assert gs[i] + "" == gs[i];
      match Operators.Operator.TryParse(gs[i] + next)
      case Some(ext) => (ext, if i + 1 < |gs| then i + 2 else i + 1)
      case None => (op, i + 1)
  }

  /**
   * Flush the word, then append `emitted` to the tokens, set the line and continue at `j`;
   * a failing flush is the step's error.
   */
  function AfterFlush(st: ScanState, isNumber: string -> bool, isIdent: string -> bool, emitted: seq<Token>, line: nat, j: nat)
    : (r: Result<(ScanState, nat), LexicalError>)
    requires NumbersFit(isNumber)
    ensures r.Ok? ==> r.value.1 == j
  {
    match ConsumeWordSpec(st, isNumber, isIdent)
    case Err(e) => Err(e)
    case Ok(st1) => Ok((st1.(tokens := st1.tokens + emitted, line := line), j))
  }

  /**
   * One iteration of the main loop, at grapheme `i`: a separator flushes the word and adds
   * itself unless it is whitespace; an operator flushes the word and adds the operator
   * `OperatorAt` finds; anything else joins the word. A `"\n"` grapheme ends the line.
   * Returns the new state and the index of the next grapheme to read.
   */
  function Step(gs: seq<string>, i: nat, st: ScanState, isNumber: string -> bool, isIdent: string -> bool)
    : (r: Result<(ScanState, nat), LexicalError>)
    requires i < |gs| && NumbersFit(isNumber)
    ensures r.Ok? ==> i < r.value.1 <= |gs|
  {
    var g := gs[i];
    var line := LineAfter(st.line, g);
    match Separators.Separator.TryParse(g)
    case Some(sep) =>
      AfterFlush(st, isNumber, isIdent, if sep.IsWhitespace() then [] else [Separator(sep)], line, i + 1)
    case None =>
      match Operators.Operator.TryParse(g)
      case None => Ok((st.(word := st.word + g, line := line), i + 1))
      case Some(op) =>
        var (emitted, j) := OperatorAt(gs, i, op);
        AfterFlush(st, isNumber, isIdent, [Operator(emitted)], line, j)
  }

  /** The main loop from grapheme `i` on; the first lexical error ends it. */
  function Scan(gs: seq<string>, i: nat, st: ScanState, isNumber: string -> bool, isIdent: string -> bool)
    : Result<ScanState, LexicalError>
    requires i <= |gs| && NumbersFit(isNumber)
    decreases |gs| - i
  {
    if i == |gs| then Ok(st)
    else
      match Step(gs, i, st, isNumber, isIdent)
      case Err(e) => Err(e)
      case Ok((st', i')) => Scan(gs, i', st', isNumber, isIdent)
  }

  /** One unfolding of `Scan` at a grapheme. */
  lemma ScanUnfold(gs: seq<string>, i: nat, st: ScanState, isNumber: string -> bool, isIdent: string -> bool)
    requires i < |gs| && NumbersFit(isNumber)
    ensures Scan(gs, i, st, isNumber, isIdent) ==
      match Step(gs, i, st, isNumber, isIdent)
      case Err(e) => Err(e)
      case Ok((st', j)) => Scan(gs, j, st', isNumber, isIdent)
  {
  }

  /** The state the scan starts from: no tokens, empty tables, empty word, line 1. */
  function Start(): ScanState
  {
    ScanState([], [], [], "", 1)
  }

  /** `Program::from_source` as a function of the graphemes. */
  function Lex(gs: seq<string>, isNumber: string -> bool, isIdent: string -> bool): Result<ScanState, LexicalError>
    requires NumbersFit(isNumber)
  {
    Scan(gs, 0, Start(), isNumber, isIdent)
  }

  // ---------------------------------------------------------------------------
  // The program and the scanner
  // ---------------------------------------------------------------------------

  /**
   * `t.Valid()`, reached through `depth` unfoldings. The program's invariant refers to its
   * tables through `Guarded(t, 1)`, which the verifier does not open by itself, so that
   * proofs about the scanner do not carry the tables' internal invariant; `OpenGuard`
   * converts between the two where a table is used.
   */
  ghost predicate Guarded(t: SymbolTables.SymbolTable, depth: nat)
    reads t, t.Repr
    decreases depth
  {
    if depth == 0 then t.Valid() else Guarded(t, depth - 1)
  }

  lemma OpenGuard(t: SymbolTables.SymbolTable)
    ensures Guarded(t, 1) <==> t.Valid()
  {
    assert Guarded(t, 0) == t.Valid();
  }

  /** `Program`: the tokens of a source file and its two symbol tables. */
  class Program {
    var tokens: seq<Token>
    const idents: SymbolTables.SymbolTable
    const consts: SymbolTables.SymbolTable
    ghost var Repr: set<object>

    ghost predicate Valid()
      reads this`Repr, idents, consts, idents.Repr, consts.Repr
    {
      && this in Repr && idents in Repr && consts in Repr
      && idents.Repr <= Repr && consts.Repr <= Repr
      && this !in idents.Repr && this !in consts.Repr && idents.Repr !! consts.Repr
      && Guarded(idents, 1) && Guarded(consts, 1)
    }

    /** The scanner state this program stands for, with the given word buffer and line. */
    ghost function State(word: string, line: nat): ScanState
      reads this, idents, consts
    {
      ScanState(tokens, idents.Order, consts.Order, word, line)
    }

    /** `Program::default()`: no tokens and two empty tables. */
    constructor ()
      ensures Valid() && fresh(Repr)
      ensures tokens == [] && idents.Order == [] && consts.Order == []
    {
      tokens := [];
      idents := new SymbolTables.SymbolTable(Symbols.HashCode);
      consts := new SymbolTables.SymbolTable(Symbols.HashCode);
      new;
      Repr := {this} + idents.Repr + consts.Repr;
      OpenGuard(idents);
      OpenGuard(consts);
    }

    /** `program.tokens.push(token)`. */
    method Push(token: Token)
      requires Valid()
      modifies this`tokens
      ensures Valid() && tokens == old(tokens) + [token]
    {
      tokens := tokens + [token];
    }
  }

  /** Interns `s` in `table`, one of the program's tables, and updates the program's footprint. */
  method InternIn(program: Program, table: SymbolTables.SymbolTable, s: Symbols.Symbol) returns (id: nat)
    requires program.Valid() && (table == program.idents || table == program.consts)
    modifies program`Repr, table.Repr
    ensures program.Valid() && fresh(program.Repr - old(program.Repr))
    ensures (table.Order, id) == Intern(old(table.Order), s)
    ensures table == program.consts ==> unchanged(program.idents)
    ensures table == program.idents ==> unchanged(program.consts)
  {
    OpenGuard(program.idents);
    OpenGuard(program.consts);
    id := table.Insert(s);
    OpenGuard(program.idents);
    OpenGuard(program.consts);
    program.Repr := {program} + program.idents.Repr + program.consts.Repr;
  }

  /**
   * `consume_word`: classifies the word and pushes its token, then clears the word (the
   * cleared buffer is returned); an unclassifiable word is a `LexicalError` on `line`.
   */
  method ConsumeWord(program: Program, word: string, line: nat, isNumber: string -> bool, isIdent: string -> bool)
    returns (r: Result<(), LexicalError>, rest: string)
    requires program.Valid() && NumbersFit(isNumber)
    modifies program, program.Repr
    ensures program.Valid() && fresh(program.Repr - old(program.Repr))
    ensures var spec := ConsumeWordSpec(old(program.State(word, line)), isNumber, isIdent);
      && (r.Ok? <==> spec.Ok?)
      && (r.Ok? ==> program.State(rest, line) == spec.value)
      && (r.Err? ==> r.error == spec.error)
  {
    var reserved := ReservedWords.ReservedWord.TryParse(word);
    if reserved.Some? {
      program.Push(ReservedWord(reserved.value));
    } else if word != "" {
      if isNumber(word) {
        var number := ParseI32(word);
        var id := InternIn(program, program.consts, Symbols.Const(Symbols.I32(number)));
        program.Push(Literal(New(id, I32)));
      } else if StrLiteral(word) {
        var id := InternIn(program, program.consts, Symbols.Const(Symbols.Str(word[1..|word| - 1])));
        program.Push(Literal(New(id, Str)));
      } else if CharLiteral(word) {
        var id := InternIn(program, program.consts, Symbols.Const(Symbols.Char(word[1])));
        program.Push(Literal(New(id, Char)));
      } else if isIdent(word) {
        var id := InternIn(program, program.idents, Symbols.Ident(word));
        program.Push(Ident(id));
      } else {
        return Err(LexicalError("Failed to parse \"" + word + "\"", line)), word;
      }
    }
    return Ok(()), "";
  }

  /**
   * The operator branch of the main loop after the flush: pushes the operator token,
   * looking one grapheme ahead when the operator needs it, and returns the index of the
   * next grapheme to read.
   */
  method PushOperator(program: Program, gs: seq<string>, at: nat, operator: Operators.Operator) returns (next: nat)
    requires program.Valid() && at < |gs| && Operators.Operator.TryParse(gs[at]) == Some(operator)
    modifies program`tokens
    ensures program.Valid()
    ensures program.tokens == old(program.tokens) + [Operator(OperatorAt(gs, at, operator).0)]
    ensures next == OperatorAt(gs, at, operator).1
  {
    next := at + 1;
    if operator.NeedsLookahead() {
      var operatorString := gs[at] + (if next < |gs| then gs[next] else "");
      var extended := Operators.Operator.TryParse(operatorString);
      if extended.Some? {
        program.Push(Operator(extended.value));
        if next < |gs| {
          next := next + 1;
        }
      } else {
        program.Push(Operator(operator));
      }
    } else {
      program.Push(Operator(operator));
    }
  }

  /**
   * The body of the main loop of `Program::from_source`, at grapheme `i`, with word buffer
   * `word` and line counter `line`: it does what `Step` says, returning the new buffer,
   * line and position.
   */
  method ScanGrapheme(program: Program, gs: seq<string>, i: nat, word: string, line: nat, isNumber: string -> bool, isIdent: string -> bool)
    returns (r: Result<(), LexicalError>, word': string, line': nat, i': nat)
    requires i < |gs| && program.Valid() && NumbersFit(isNumber)
    modifies program, program.Repr
    ensures program.Valid() && fresh(program.Repr - old(program.Repr))
    ensures var spec := Step(gs, i, old(program.State(word, line)), isNumber, isIdent);
      && (r.Ok? <==> spec.Ok?)
      && (r.Ok? ==> spec.value == (program.State(word', line'), i'))
      && (r.Err? ==> r.error == spec.error)
  {
    var grapheme := gs[i];
    word', line', i' := word, line, i + 1;
    var separator := Separators.Separator.TryParse(grapheme);
    if separator.Some? {
      r, word' := ConsumeWord(program, word, line, isNumber, isIdent);
      if r.Err? {
        return;
      }
      if !separator.value.IsWhitespace() {
        program.Push(Separator(separator.value));
      } else {
        assert program.tokens + [] == program.tokens;
      }
    } else {
      var operator := Operators.Operator.TryParse(grapheme);
      if operator.Some? {
        r, word' := ConsumeWord(program, word, line, isNumber, isIdent);
        if r.Err? {
          return;
        }
        i' := PushOperator(program, gs, i, operator.value);
      } else {
        r, word' := Ok(()), word + grapheme;
      }
    }
    line' := LineAfter(line, grapheme);
  }

  /** `Program::from_source`: the scan of the graphemes `gs`. */
  method FromSource(gs: seq<string>, isNumber: string -> bool, isIdent: string -> bool)
    returns (r: Result<Program, LexicalError>)
    requires NumbersFit(isNumber)
    ensures var spec := Lex(gs, isNumber, isIdent);
      && (r.Ok? <==> spec.Ok?)
      && (r.Err? ==> r.error == spec.error)
      && (r.Ok? ==> fresh(r.value) && r.value.Valid() && r.value.tokens == spec.value.tokens &&
                    r.value.idents.Order == spec.value.idents && r.value.consts.Order == spec.value.consts)
  {
    var program := new Program();
    var line := 1;
    var word := "";
    var i := 0;
    while i < |gs|
      invariant 0 <= i <= |gs|
      invariant program.Valid() && fresh(program.Repr)
      invariant Scan(gs, i, program.State(word, line), isNumber, isIdent) == Lex(gs, isNumber, isIdent)
      decreases |gs| - i
    {
      ghost var before, at := program.State(word, line), i;
      var result;
      result, word, line, i := ScanGrapheme(program, gs, i, word, line, isNumber, isIdent);
      ScanUnfold(gs, at, before, isNumber, isIdent);
      if result.Err? {
        return Err(result.error);
      }
    }
    return Ok(program);
  }
}
