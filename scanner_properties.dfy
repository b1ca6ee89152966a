/**
 * Properties of the scan (compiler/src/scanner/scanner.rs), stated about `Lex` and its
 * parts: how the word buffer is flushed and classified, what each kind of grapheme
 * contributes, how lines are counted, that every token's id names a symbol of the right
 * kind, and that a word still buffered at the end of the input is never emitted.
 */
module ScannerProperties {
  import opened Wrappers
  import Symbols
  import Operators
  import Separators
  import ReservedWords
  import opened Scanner

  // ---------------------------------------------------------------------------
  // Interning
  // ---------------------------------------------------------------------------

  /** No symbol occurs twice. */
  predicate NoRepeats(order: seq<Symbols.Symbol>)
  {
    forall i, j :: 0 <= i < j < |order| ==> order[i] != order[j]
  }

  /** Id `id` names `s` in a table whose symbols are `order`. */
  predicate Names(order: seq<Symbols.Symbol>, id: nat, s: Symbols.Symbol)
  {
    1 <= id <= |order| && order[id - 1] == s
  }

  /**
   * Interning keeps the table free of repeats, keeps every earlier id, and the id it
   * returns is the only one naming the symbol.
   */
  lemma InternKeepsNoRepeats(order: seq<Symbols.Symbol>, s: Symbols.Symbol)
    requires NoRepeats(order)
    ensures NoRepeats(Intern(order, s).0)
    ensures forall id :: Names(Intern(order, s).0, id, s) <==> id == Intern(order, s).1
  {
  }

  /** Interning the same symbol again changes nothing and returns the same id. */
  lemma InternIdempotent(order: seq<Symbols.Symbol>, s: Symbols.Symbol)
    ensures var (order', id) := Intern(order, s); Intern(order', s) == (order', id)
  {
    if s !in order {
      var k := IndexOf(order + [s], s);
      assert (order + [s])[k] == s;
    }
  }

  // ---------------------------------------------------------------------------
  // consume_word
  // ---------------------------------------------------------------------------

  /**
   * Flushing an empty word emits nothing. Flushing fails exactly when the word is non-empty
   * and no test accepts it, with the message naming the word and the current line; a
   * successful flush of a non-empty word appends exactly one token, empties the word and
   * only extends the tables.
   */
  lemma ConsumeOutcome(st: ScanState, isNumber: string -> bool, isIdent: string -> bool)
    requires NumbersFit(isNumber)
    ensures st.word == "" ==> ConsumeWordSpec(st, isNumber, isIdent) == Ok(st)
    ensures var w := st.word;
      ConsumeWordSpec(st, isNumber, isIdent).Err? <==>
        && w != "" && ReservedWords.ReservedWord.TryParse(w).None?
        && !isNumber(w) && !StrLiteral(w) && !CharLiteral(w) && !isIdent(w)
    ensures ConsumeWordSpec(st, isNumber, isIdent).Err? ==>
      ConsumeWordSpec(st, isNumber, isIdent).error == LexicalError("Failed to parse \"" + st.word + "\"", st.line)
    ensures ConsumeWordSpec(st, isNumber, isIdent).Ok? ==>
      var st' := ConsumeWordSpec(st, isNumber, isIdent).value;
      && st'.word == "" && st'.line == st.line
      && st'.tokens[..|st.tokens|] == st.tokens
      && |st'.tokens| == |st.tokens| + (if st.word == "" then 0 else 1)
      && st.idents <= st'.idents && st.consts <= st'.consts
  {
    ReservedWords.AcceptsExactly(st.word);
  }

  /**
   * The token a successful flush of a non-empty word emits, first match first: a reserved
   * word; else a number, interned as an `i32` constant; else a quoted string, interned
   * without its quotes; else a quoted character; else an identifier, interned in the
   * identifier table. The token's id names the interned symbol, and the other table is
   * untouched.
   */
  lemma ConsumeClassifies(st: ScanState, isNumber: string -> bool, isIdent: string -> bool)
    requires NumbersFit(isNumber) && st.word != "" && ConsumeWordSpec(st, isNumber, isIdent).Ok?
    ensures |ConsumeWordSpec(st, isNumber, isIdent).value.tokens| == |st.tokens| + 1
    ensures
      var st' := ConsumeWordSpec(st, isNumber, isIdent).value;
      var t := st'.tokens[|st.tokens|];
      var w := st.word;
      var reserved := ReservedWords.ReservedWord.TryParse(w).Some?;
      && (reserved ==>
            t == ReservedWord(ReservedWords.ReservedWord.TryParse(w).value) && t.reservedWord.Text() == w
            && st'.idents == st.idents && st'.consts == st.consts)
      && (!reserved && isNumber(w) ==>
            t.Literal? && t.literal.kind == I32 && st'.idents == st.idents
            && Names(st'.consts, t.literal.id, Symbols.Const(Symbols.I32(DecimalValue(w) as Symbols.i32))))
      && (!reserved && !isNumber(w) && StrLiteral(w) ==>
            t.Literal? && t.literal.kind == Str && st'.idents == st.idents
            && Names(st'.consts, t.literal.id, Symbols.Const(Symbols.Str(w[1..|w| - 1]))))
      && (!reserved && !isNumber(w) && !StrLiteral(w) && CharLiteral(w) ==>
            t.Literal? && t.literal.kind == Char && st'.idents == st.idents
            && Names(st'.consts, t.literal.id, Symbols.Const(Symbols.Char(w[1]))))
      && (!reserved && !isNumber(w) && !StrLiteral(w) && !CharLiteral(w) ==>
            isIdent(w) && t.Ident? && st'.consts == st.consts && Names(st'.idents, t.id, Symbols.Ident(w)))
  {
    ConsumeOutcome(st, isNumber, isIdent);
  }

  /** Flushing the same word a second time emits the same token again and leaves the tables as they are. */
  lemma RepeatedWordSameToken(st: ScanState, isNumber: string -> bool, isIdent: string -> bool)
    requires NumbersFit(isNumber) && st.word != "" && ConsumeWordSpec(st, isNumber, isIdent).Ok?
    ensures
      var st1 := ConsumeWordSpec(st, isNumber, isIdent).value;
      var again := ConsumeWordSpec(st1.(word := st.word), isNumber, isIdent);
      && |st1.tokens| == |st.tokens| + 1
      && again.Ok?
      && again.value.tokens == st1.tokens + [st1.tokens[|st.tokens|]]
      && again.value.idents == st1.idents && again.value.consts == st1.consts
  {
    ConsumeOutcome(st, isNumber, isIdent);
    var w := st.word;
    if ReservedWords.ReservedWord.TryParse(w).None? {
      if isNumber(w) {
        InternIdempotent(st.consts, Symbols.Const(Symbols.I32(DecimalValue(w) as Symbols.i32)));
      } else if StrLiteral(w) {
        InternIdempotent(st.consts, Symbols.Const(Symbols.Str(w[1..|w| - 1])));
      } else if CharLiteral(w) {
        InternIdempotent(st.consts, Symbols.Const(Symbols.Char(w[1])));
      } else {
        InternIdempotent(st.idents, Symbols.Ident(w));
      }
    }
  }

  // ---------------------------------------------------------------------------
  // One step
  // ---------------------------------------------------------------------------

  /** `"\n"` is white space, so a newline is always a (whitespace) separator. */
  lemma NewlineIsWhitespace()
    ensures Separators.Separator.TryParse("\n") == Some(Separators.Whitespace)
  {
    assert Separators.IsWhiteSpace("\n"[0]);
  }

  /**
   * A separator grapheme flushes the word; whitespace then adds no token, and any other
   * separator adds exactly the one token that spells the grapheme. The step fails exactly
   * when the flush does, with the flush's error.
   */
  lemma SeparatorStep(gs: seq<string>, i: nat, st: ScanState, isNumber: string -> bool, isIdent: string -> bool)
    requires i < |gs| && NumbersFit(isNumber) && Separators.Separator.TryParse(gs[i]).Some?
    ensures
      var flush := ConsumeWordSpec(st, isNumber, isIdent);
      var r := Step(gs, i, st, isNumber, isIdent);
      && (r.Err? <==> flush.Err?)
      && (r.Err? ==> r.error == flush.error)
      && (r.Ok? ==>
            && r.value.1 == i + 1 && r.value.0.word == ""
            && r.value.0.idents == flush.value.idents && r.value.0.consts == flush.value.consts
            && (Separators.Blank(gs[i]) ==> r.value.0.tokens == flush.value.tokens)
            && (!Separators.Blank(gs[i]) ==>
                  |r.value.0.tokens| == |flush.value.tokens| + 1
                  && r.value.0.tokens[..|flush.value.tokens|] == flush.value.tokens
                  && var t := r.value.0.tokens[|flush.value.tokens|];
                     t.Separator? && !t.separator.Whitespace? && t.separator.Text() == gs[i]))
  {
    ConsumeOutcome(st, isNumber, isIdent);
    var r := Step(gs, i, st, isNumber, isIdent);
    if r.Ok? && !Separators.Blank(gs[i]) {
      var flush := ConsumeWordSpec(st, isNumber, isIdent).value;
      assert r.value.0.tokens[..|flush.tokens|] == flush.tokens;
    }
  }

  /** No operator ends in a newline, so the lookahead never swallows one. */
  lemma NoOperatorEndsInNewline(g: string)
    ensures Operators.Operator.TryParse(g + "\n").None?
  {
    Operators.AcceptsExactly(g + "\n");
    var s := g + "\n";
    assert s[|s| - 1] == '\n';
  }

  /**
   * An operator grapheme flushes the word and adds one operator token. When the operator
   * needs lookahead and the grapheme together with the next one spells an operator, that
   * two-grapheme operator is emitted and both graphemes are consumed; otherwise the
   * single operator is emitted and the next grapheme is left for the following step. A
   * consumed lookahead is never a newline.
   */
  lemma OperatorStep(gs: seq<string>, i: nat, st: ScanState, isNumber: string -> bool, isIdent: string -> bool)
    requires i < |gs| && NumbersFit(isNumber)
    requires Separators.Separator.TryParse(gs[i]).None? && Operators.Operator.TryParse(gs[i]).Some?
    ensures
      var op := Operators.Operator.TryParse(gs[i]).value;
      var lengthens := op.NeedsLookahead() && i + 1 < |gs| && Operators.Operator.TryParse(gs[i] + gs[i + 1]).Some?;
      var flush := ConsumeWordSpec(st, isNumber, isIdent);
      var r := Step(gs, i, st, isNumber, isIdent);
      && (r.Err? <==> flush.Err?)
      && (r.Err? ==> r.error == flush.error)
      && (lengthens ==> gs[i + 1] != "\n")
      && (r.Ok? ==>
            && r.value.0.word == "" && r.value.0.line == st.line
            && r.value.0.idents == flush.value.idents && r.value.0.consts == flush.value.consts
            && |r.value.0.tokens| == |flush.value.tokens| + 1
            && r.value.0.tokens[..|flush.value.tokens|] == flush.value.tokens
            && var t := r.value.0.tokens[|flush.value.tokens|];
               && t.Operator?
               && (lengthens ==> r.value.1 == i + 2 && t.operator.Text() == gs[i] + gs[i + 1])
               && (!lengthens ==> r.value.1 == i + 1 && t.operator == op))
  {
    ConsumeOutcome(st, isNumber, isIdent);
    NewlineIsWhitespace();
    if i + 1 < |gs| && gs[i + 1] == "\n" {
      NoOperatorEndsInNewline(gs[i]);
    }
    var r := Step(gs, i, st, isNumber, isIdent);
    if r.Ok? {
      var flush := ConsumeWordSpec(st, isNumber, isIdent).value;
      assert r.value.0.tokens[..|flush.tokens|] == flush.tokens;
    }
  }

  /** Any other grapheme joins the word; nothing is emitted and the line stays the same. */
  lemma WordStep(gs: seq<string>, i: nat, st: ScanState, isNumber: string -> bool, isIdent: string -> bool)
    requires i < |gs| && NumbersFit(isNumber)
    requires Separators.Separator.TryParse(gs[i]).None? && Operators.Operator.TryParse(gs[i]).None?
    ensures Step(gs, i, st, isNumber, isIdent) == Ok((st.(word := st.word + gs[i]), i + 1))
  {
    NewlineIsWhitespace();
  }

  // ---------------------------------------------------------------------------
  // Lines
  // ---------------------------------------------------------------------------

  /** The number of `"\n"` graphemes in `gs`. */
  function NewLines(gs: seq<string>): nat
  {
    if gs == [] then 0 else NewLines(gs[..|gs| - 1]) + (if gs[|gs| - 1] == "\n" then 1 else 0)
  }

  lemma {:induction false} NewLinesAppend(a: seq<string>, b: seq<string>)
    ensures NewLines(a + b) == NewLines(a) + NewLines(b)
    decreases |b|
  {
    if b == [] {
      assert a + b == a;
    } else {
      NewLinesAppend(a, b[..|b| - 1]);
      assert (a + b)[..|a + b| - 1] == a + b[..|b| - 1];
    }
  }

  /** After a step the line counter has counted grapheme `gs[i]`, and only it. */
  lemma StepLineAfter(gs: seq<string>, i: nat, st: ScanState, isNumber: string -> bool, isIdent: string -> bool)
    requires i < |gs| && NumbersFit(isNumber) && Step(gs, i, st, isNumber, isIdent).Ok?
    ensures Step(gs, i, st, isNumber, isIdent).value.0.line == if gs[i] == "\n" then st.line + 1 else st.line
  {
  }

  /** Counting newlines over adjacent slices. */
  lemma NewLinesSplit(gs: seq<string>, i: nat, j: nat, k: nat)
    requires i <= j <= k <= |gs|
    ensures NewLines(gs[i..k]) == NewLines(gs[i..j]) + NewLines(gs[j..k])
  {
    assert gs[i..j] + gs[j..k] == gs[i..k];
    NewLinesAppend(gs[i..j], gs[j..k]);
  }

  /** The newlines among one or two graphemes. */
  lemma NewLinesShort(gs: seq<string>, i: nat)
    requires i < |gs|
    ensures NewLines(gs[i..i + 1]) == if gs[i] == "\n" then 1 else 0
    ensures i + 1 < |gs| ==> NewLines(gs[i..i + 2]) == NewLines(gs[i..i + 1]) + if gs[i + 1] == "\n" then 1 else 0
  {
    assert gs[i..i + 1][..0] == [];
    if i + 1 < |gs| {
      assert gs[i..i + 2][..1] == gs[i..i + 1];
    }
  }

  /** A step that reads two graphemes reads an operator and its lookahead, neither of them a newline. */
  lemma TwoGraphemeStep(gs: seq<string>, i: nat, st: ScanState, isNumber: string -> bool, isIdent: string -> bool)
    requires i < |gs| && NumbersFit(isNumber) && Step(gs, i, st, isNumber, isIdent).Ok?
    ensures var j := Step(gs, i, st, isNumber, isIdent).value.1;
      j == i + 1 || (j == i + 2 && gs[i] != "\n" && gs[i + 1] != "\n")
  {
    var j := Step(gs, i, st, isNumber, isIdent).value.1;
    if j != i + 1 {
      NewlineIsWhitespace();
      var op := Operators.Operator.TryParse(gs[i]).value;
      if gs[i + 1] == "\n" {
        NoOperatorEndsInNewline(gs[i]);
      }
    }
  }

  /** A step advances the line counter by the newlines among the graphemes it reads. */
  lemma StepLines(gs: seq<string>, i: nat, st: ScanState, isNumber: string -> bool, isIdent: string -> bool)
    requires i < |gs| && NumbersFit(isNumber) && Step(gs, i, st, isNumber, isIdent).Ok?
    ensures var (st', j) := Step(gs, i, st, isNumber, isIdent).value;
      st'.line == st.line + NewLines(gs[i..j])
  {
    StepLineAfter(gs, i, st, isNumber, isIdent);
    TwoGraphemeStep(gs, i, st, isNumber, isIdent);
    NewLinesShort(gs, i);
  }

  /**
   * A scan that succeeds ends with the line counter advanced by the newlines of the rest
   * of the input.
   */
  lemma {:induction false} ScanLines(gs: seq<string>, i: nat, st: ScanState, isNumber: string -> bool, isIdent: string -> bool)
    requires i <= |gs| && NumbersFit(isNumber) && Scan(gs, i, st, isNumber, isIdent).Ok?
    ensures Scan(gs, i, st, isNumber, isIdent).value.line == st.line + NewLines(gs[i..])
    decreases |gs| - i
  {
    if i == |gs| {
      assert gs[i..] == [];
    } else {
      ScanUnfold(gs, i, st, isNumber, isIdent);
      var (st', j) := Step(gs, i, st, isNumber, isIdent).value;
      StepLines(gs, i, st, isNumber, isIdent);
      ScanLines(gs, j, st', isNumber, isIdent);
      NewLinesSplit(gs, i, j, |gs|);
      assert gs[i..|gs|] == gs[i..] && gs[j..|gs|] == gs[j..];
    }
  }

  /**
   * The scan from grapheme `i` in state `st` gets to grapheme `k` in state `stk`, every step
   * on the way succeeding.
   */
  ghost predicate Reaches(gs: seq<string>, i: nat, st: ScanState, k: nat, stk: ScanState, isNumber: string -> bool, isIdent: string -> bool)
    requires i <= |gs| && NumbersFit(isNumber)
    decreases |gs| - i
  {
    if i == k then stk == st
    else
      && i < k && i < |gs| && Step(gs, i, st, isNumber, isIdent).Ok?
      && Reaches(gs, Step(gs, i, st, isNumber, isIdent).value.1, Step(gs, i, st, isNumber, isIdent).value.0, k, stk, isNumber, isIdent)
  }

  /**
   * A scan that fails stops at the first failing step: the scan reaches some grapheme `k`
   * in a state whose word cannot be classified, the flush there fails, and the error names
   * that word and the line of grapheme `k`, counting the newlines before it.
   */
  lemma {:induction false} ScanErrorLine(gs: seq<string>, i: nat, st: ScanState, isNumber: string -> bool, isIdent: string -> bool)
    requires i <= |gs| && NumbersFit(isNumber) && Scan(gs, i, st, isNumber, isIdent).Err?
    ensures exists k, stk ::
      && i <= k < |gs| && Reaches(gs, i, st, k, stk, isNumber, isIdent)
      && Step(gs, k, stk, isNumber, isIdent).Err?
      && Scan(gs, i, st, isNumber, isIdent).error == LexicalError("Failed to parse \"" + stk.word + "\"", stk.line)
      && stk.word != "" && ReservedWords.ReservedWord.TryParse(stk.word).None?
      && !isNumber(stk.word) && !StrLiteral(stk.word) && !CharLiteral(stk.word) && !isIdent(stk.word)
      && stk.line == st.line + NewLines(gs[i..k])
    decreases |gs| - i
  {
    ScanUnfold(gs, i, st, isNumber, isIdent);
    var e := Scan(gs, i, st, isNumber, isIdent).error;
    if Step(gs, i, st, isNumber, isIdent).Err? {
      StepErrorLine(gs, i, st, isNumber, isIdent);
      assert gs[i..i] == [];
      assert Reaches(gs, i, st, i, st, isNumber, isIdent);
    } else {
      var (st', j) := Step(gs, i, st, isNumber, isIdent).value;
      StepLines(gs, i, st, isNumber, isIdent);
      ScanErrorLine(gs, j, st', isNumber, isIdent);
      var k, stk :|
        && j <= k < |gs| && Reaches(gs, j, st', k, stk, isNumber, isIdent)
        && Step(gs, k, stk, isNumber, isIdent).Err?
        && e == LexicalError("Failed to parse \"" + stk.word + "\"", stk.line)
        && stk.word != "" && ReservedWords.ReservedWord.TryParse(stk.word).None?
        && !isNumber(stk.word) && !StrLiteral(stk.word) && !CharLiteral(stk.word) && !isIdent(stk.word)
        && stk.line == st'.line + NewLines(gs[j..k]);
      assert Reaches(gs, i, st, k, stk, isNumber, isIdent);
      NewLinesSplit(gs, i, j, k);
    }
  }

  /**
   * A step fails only at a separator or operator grapheme whose flush finds a word that
   * is none of the token kinds; the error names the word and the line the step started on.
   */
  lemma StepErrorLine(gs: seq<string>, i: nat, st: ScanState, isNumber: string -> bool, isIdent: string -> bool)
    requires i < |gs| && NumbersFit(isNumber) && Step(gs, i, st, isNumber, isIdent).Err?
    ensures Separators.Separator.TryParse(gs[i]).Some? || Operators.Operator.TryParse(gs[i]).Some?
    ensures st.word != "" && ReservedWords.ReservedWord.TryParse(st.word).None?
    ensures !isNumber(st.word) && !StrLiteral(st.word) && !CharLiteral(st.word) && !isIdent(st.word)
    ensures Step(gs, i, st, isNumber, isIdent).error == LexicalError("Failed to parse \"" + st.word + "\"", st.line)
  {
    ConsumeOutcome(st, isNumber, isIdent);
  }

  /**
   * The line counter starts at 1 and goes up by one for each `"\n"`. A lexical error comes
   * from the first failing flush: it names the word that could not be classified and the
   * line of the grapheme that triggered the flush.
   */
  lemma LexLines(gs: seq<string>, isNumber: string -> bool, isIdent: string -> bool)
    requires NumbersFit(isNumber)
    ensures Lex(gs, isNumber, isIdent).Ok? ==> Lex(gs, isNumber, isIdent).value.line == 1 + NewLines(gs)
    ensures Lex(gs, isNumber, isIdent).Err? ==>
      exists k, stk ::
        && 0 <= k < |gs| && Reaches(gs, 0, Start(), k, stk, isNumber, isIdent)
        && Step(gs, k, stk, isNumber, isIdent).Err?
        && Lex(gs, isNumber, isIdent).error == LexicalError("Failed to parse \"" + stk.word + "\"", stk.line)
        && stk.word != "" && ReservedWords.ReservedWord.TryParse(stk.word).None?
        && !isNumber(stk.word) && !StrLiteral(stk.word) && !CharLiteral(stk.word) && !isIdent(stk.word)
        && stk.line == 1 + NewLines(gs[..k])
  {
    assert gs[0..] == gs;
    if Lex(gs, isNumber, isIdent).Ok? {
      ScanLines(gs, 0, Start(), isNumber, isIdent);
    } else {
      ScanErrorLine(gs, 0, Start(), isNumber, isIdent);
    }
    assert forall k :: 0 <= k <= |gs| ==> gs[0..k] == gs[..k];
  }

  // ---------------------------------------------------------------------------
  // Every token names a symbol
  // ---------------------------------------------------------------------------

  /** Whether a constant is of the given literal kind. */
  predicate OfKind(s: Symbols.Symbol, kind: LiteralKind)
  {
    match s
    case Ident(_) => false
    case Const(c) =>
      match c
      case I32(_) => kind == I32
      case Char(_) => kind == Char
      case Str(_) => kind == Str
      case Bool(_) => false
  }

  /** An identifier token names an identifier, a literal token a constant of its kind. */
  predicate Resolves(t: Token, idents: seq<Symbols.Symbol>, consts: seq<Symbols.Symbol>)
  {
    match t
    case Ident(id) => 1 <= id <= |idents| && idents[id - 1].Ident?
    case Literal(lit) => 1 <= lit.id <= |consts| && OfKind(consts[lit.id - 1], lit.kind)
    case _ => true
  }

  /**
   * The scanner's invariant: both tables are free of repeats, the identifier table holds
   * identifiers only, and every token resolves.
   */
  predicate WellFormed(st: ScanState)
  {
    && NoRepeats(st.idents) && NoRepeats(st.consts)
    && (forall k :: 0 <= k < |st.idents| ==> st.idents[k].Ident?)
    && (forall k :: 0 <= k < |st.tokens| ==> Resolves(st.tokens[k], st.idents, st.consts))
  }

  lemma ResolvesGrow(t: Token, idents: seq<Symbols.Symbol>, consts: seq<Symbols.Symbol>,
                     idents': seq<Symbols.Symbol>, consts': seq<Symbols.Symbol>)
    requires Resolves(t, idents, consts) && idents <= idents' && consts <= consts'
    ensures Resolves(t, idents', consts')
  {
    match t
    case Ident(id) => assert idents'[id - 1] == idents[id - 1];
    case Literal(lit) => assert consts'[lit.id - 1] == consts[lit.id - 1];
    case _ =>
  }

  /** Tables that only grow keep every earlier token resolving. */
  lemma TokensResolveGrow(st: ScanState, st': ScanState)
    requires WellFormed(st) && st.idents <= st'.idents && st.consts <= st'.consts
    requires |st.tokens| <= |st'.tokens| && st'.tokens[..|st.tokens|] == st.tokens
    ensures forall k :: 0 <= k < |st.tokens| ==> Resolves(st'.tokens[k], st'.idents, st'.consts)
  {
    forall k | 0 <= k < |st.tokens|
      ensures Resolves(st'.tokens[k], st'.idents, st'.consts)
    {
      assert st'.tokens[k] == st.tokens[k];
      ResolvesGrow(st.tokens[k], st.idents, st.consts, st'.idents, st'.consts);
    }
  }

  /** A flush keeps both tables free of repeats and the identifier table made of identifiers. */
  lemma ConsumeKeepsTables(st: ScanState, isNumber: string -> bool, isIdent: string -> bool)
    requires NumbersFit(isNumber) && WellFormed(st) && ConsumeWordSpec(st, isNumber, isIdent).Ok?
    ensures var st' := ConsumeWordSpec(st, isNumber, isIdent).value;
      NoRepeats(st'.idents) && NoRepeats(st'.consts) && forall k :: 0 <= k < |st'.idents| ==> st'.idents[k].Ident?
  {
    var w := st.word;
    if w != "" && ReservedWords.ReservedWord.TryParse(w).None? {
      if isNumber(w) {
        InternKeepsNoRepeats(st.consts, Symbols.Const(Symbols.I32(DecimalValue(w) as Symbols.i32)));
      } else if StrLiteral(w) {
        InternKeepsNoRepeats(st.consts, Symbols.Const(Symbols.Str(w[1..|w| - 1])));
      } else if CharLiteral(w) {
        InternKeepsNoRepeats(st.consts, Symbols.Const(Symbols.Char(w[1])));
      } else {
        InternKeepsNoRepeats(st.idents, Symbols.Ident(w));
      }
    }
  }

  /** The token a flush emits resolves in the tables after the flush. */
  lemma ConsumedTokenResolves(st: ScanState, isNumber: string -> bool, isIdent: string -> bool)
    requires NumbersFit(isNumber) && st.word != "" && ConsumeWordSpec(st, isNumber, isIdent).Ok?
    ensures var st' := ConsumeWordSpec(st, isNumber, isIdent).value;
      |st'.tokens| == |st.tokens| + 1 && Resolves(st'.tokens[|st.tokens|], st'.idents, st'.consts)
  {
    ConsumeClassifies(st, isNumber, isIdent);
  }

  /** A flush keeps the scanner's invariant. */
  lemma ConsumeKeepsWellFormed(st: ScanState, isNumber: string -> bool, isIdent: string -> bool)
    requires NumbersFit(isNumber) && WellFormed(st) && ConsumeWordSpec(st, isNumber, isIdent).Ok?
    ensures WellFormed(ConsumeWordSpec(st, isNumber, isIdent).value)
  {
    var st' := ConsumeWordSpec(st, isNumber, isIdent).value;
    ConsumeOutcome(st, isNumber, isIdent);
    ConsumeKeepsTables(st, isNumber, isIdent);
    TokensResolveGrow(st, st');
    if st.word != "" {
      ConsumedTokenResolves(st, isNumber, isIdent);
    }
  }

  /** A step keeps the scanner's invariant. */
  lemma StepKeepsWellFormed(gs: seq<string>, i: nat, st: ScanState, isNumber: string -> bool, isIdent: string -> bool)
    requires i < |gs| && NumbersFit(isNumber) && WellFormed(st) && Step(gs, i, st, isNumber, isIdent).Ok?
    ensures WellFormed(Step(gs, i, st, isNumber, isIdent).value.0)
  {
    var st' := Step(gs, i, st, isNumber, isIdent).value.0;
    if Separators.Separator.TryParse(gs[i]).Some? || Operators.Operator.TryParse(gs[i]).Some? {
      var flush := ConsumeWordSpec(st, isNumber, isIdent).value;
      ConsumeKeepsWellFormed(st, isNumber, isIdent);
      assert st'.tokens[..|flush.tokens|] == flush.tokens;
      TokensResolveGrow(flush, st');
    }
  }

  lemma {:induction false} ScanKeepsWellFormed(gs: seq<string>, i: nat, st: ScanState, isNumber: string -> bool, isIdent: string -> bool)
    requires i <= |gs| && NumbersFit(isNumber) && WellFormed(st) && Scan(gs, i, st, isNumber, isIdent).Ok?
    ensures WellFormed(Scan(gs, i, st, isNumber, isIdent).value)
    decreases |gs| - i
  {
    if i < |gs| {
      ScanUnfold(gs, i, st, isNumber, isIdent);
      var (st', j) := Step(gs, i, st, isNumber, isIdent).value;
      StepKeepsWellFormed(gs, i, st, isNumber, isIdent);
      ScanKeepsWellFormed(gs, j, st', isNumber, isIdent);
    }
  }

  /**
   * After a successful scan the tables hold no symbol twice and every identifier and literal
   * token carries an id naming a symbol of its kind.
   */
  lemma LexWellFormed(gs: seq<string>, isNumber: string -> bool, isIdent: string -> bool)
    requires NumbersFit(isNumber) && Lex(gs, isNumber, isIdent).Ok?
    ensures WellFormed(Lex(gs, isNumber, isIdent).value)
  {
    ScanKeepsWellFormed(gs, 0, Start(), isNumber, isIdent);
  }

  // ---------------------------------------------------------------------------
  // The trailing word
  // ---------------------------------------------------------------------------

  /** The graphemes of `gs` joined together. */
  function Concat(gs: seq<string>): string
  {
    if gs == [] then "" else Concat(gs[..|gs| - 1]) + gs[|gs| - 1]
  }

  /** Graphemes that are neither separators nor operators. */
  predicate WordParts(gs: seq<string>)
  {
    forall k :: 0 <= k < |gs| ==> Separators.Separator.TryParse(gs[k]).None? && Operators.Operator.TryParse(gs[k]).None?
  }

  lemma {:induction false} ScanWordParts(gs: seq<string>, i: nat, st: ScanState, isNumber: string -> bool, isIdent: string -> bool)
    requires i <= |gs| && NumbersFit(isNumber) && WordParts(gs[i..])
    ensures Scan(gs, i, st, isNumber, isIdent) == Ok(st.(word := st.word + Concat(gs[i..])))
    decreases |gs| - i
  {
    if i == |gs| {
      assert gs[i..] == [];
      assert st.word + "" == st.word;
    } else {
      assert gs[i..][0] == gs[i];
      assert gs[i + 1..] == gs[i..][1..];
      ScanUnfold(gs, i, st, isNumber, isIdent);
      WordStep(gs, i, st, isNumber, isIdent);
      ScanWordParts(gs, i + 1, st.(word := st.word + gs[i]), isNumber, isIdent);
      ConcatFront(gs[i..]);
      assert st.word + gs[i] + Concat(gs[i + 1..]) == st.word + (gs[i] + Concat(gs[i + 1..]));
    }
  }

  lemma {:induction false} ConcatFront(gs: seq<string>)
    requires gs != []
    ensures Concat(gs) == gs[0] + Concat(gs[1..])
    decreases |gs|
  {
    if |gs| > 1 {
      ConcatFront(gs[..|gs| - 1]);
      assert gs[..|gs| - 1][1..] == gs[1..][..|gs[1..]| - 1];
      assert gs[..|gs| - 1][0] == gs[0];
    } else {
      assert gs[..0] == [];
      assert gs[1..] == [];
    }
  }

  /**
   * Word graphemes after `gs` do not change a step inside `gs`: the only step that looks
   * past its grapheme is a lookahead operator, and the end of the input and a word
   * grapheme both leave that operator as it is.
   */
  lemma StepBeforeWord(gs: seq<string>, ws: seq<string>, i: nat, st: ScanState, isNumber: string -> bool, isIdent: string -> bool)
    requires i < |gs| && NumbersFit(isNumber) && WordParts(ws)
    ensures Step(gs + ws, i, st, isNumber, isIdent) == Step(gs, i, st, isNumber, isIdent)
  {
    var g := gs[i];
    assert (gs + ws)[i] == g;
    if Separators.Separator.TryParse(g).None? && Operators.Operator.TryParse(g).Some? {
      var op := Operators.Operator.TryParse(g).value;
      if i + 1 < |gs| {
        assert (gs + ws)[i + 1] == gs[i + 1];
      } else if ws != [] && op.NeedsLookahead() {
        assert (gs + ws)[i + 1] == ws[0];
        Operators.LookaheadOperators(op);
        assert Separators.Separator.TryParse(ws[0]).None?;
        if Operators.Operator.TryParse(g + ws[0]).Some? {
          Operators.ExtensionIsOperator(op, ws[0]);
          assert false;
        }
      }
    }
  }

  /**
   * Scanning `gs` followed by word graphemes `ws` ends as scanning `gs` ends, with `ws`
   * joined to the buffered word, or fails with the same error.
   */
  lemma {:induction false} ScanBeforeWord(gs: seq<string>, ws: seq<string>, i: nat, st: ScanState, isNumber: string -> bool, isIdent: string -> bool)
    requires i <= |gs| && NumbersFit(isNumber) && WordParts(ws)
    ensures Scan(gs + ws, i, st, isNumber, isIdent) ==
      match Scan(gs, i, st, isNumber, isIdent)
      case Ok(end) => Ok(end.(word := end.word + Concat(ws)))
      case Err(e) => Err(e)
    decreases |gs| - i
  {
    if i == |gs| {
      assert (gs + ws)[i..] == ws;
      ScanWordParts(gs + ws, i, st, isNumber, isIdent);
    } else {
      ScanUnfold(gs + ws, i, st, isNumber, isIdent);
      ScanUnfold(gs, i, st, isNumber, isIdent);
      StepBeforeWord(gs, ws, i, st, isNumber, isIdent);
      if Step(gs, i, st, isNumber, isIdent).Ok? {
        var (st', j) := Step(gs, i, st, isNumber, isIdent).value;
        ScanBeforeWord(gs, ws, j, st', isNumber, isIdent);
      }
    }
  }

  /**
   * A word still in the buffer when the input ends is neither classified nor emitted:
   * after any input, word graphemes at the end only extend the buffered word, and an
   * error before them is reported unchanged.
   */
  lemma TrailingWordDropped(gs: seq<string>, ws: seq<string>, isNumber: string -> bool, isIdent: string -> bool)
    requires NumbersFit(isNumber) && WordParts(ws)
    ensures Lex(gs + ws, isNumber, isIdent) ==
      match Lex(gs, isNumber, isIdent)
      case Ok(end) => Ok(end.(word := end.word + Concat(ws)))
      case Err(e) => Err(e)
  {
    ScanBeforeWord(gs, ws, 0, Start(), isNumber, isIdent);
  }

  /** Input made only of word graphemes scans to no tokens and no error, whatever the word is. */
  lemma OnlyWordDropped(ws: seq<string>, isNumber: string -> bool, isIdent: string -> bool)
    requires NumbersFit(isNumber) && WordParts(ws)
    ensures Lex(ws, isNumber, isIdent) == Ok(ScanState([], [], [], Concat(ws), 1))
  {
    TrailingWordDropped([], ws, isNumber, isIdent);
    assert [] + ws == ws;
    assert "" + Concat(ws) == Concat(ws);
  }

  // ---------------------------------------------------------------------------
  // Examples
  // ---------------------------------------------------------------------------

  /** `NUMBER_LITERAL_REGEX` restricted to values that fit an `i32`: a number test for the examples. */
  predicate SmallNumber(w: string)
  {
    AllDigits(w) && NumberLiteral(w) && DecimalValue(w) <= Symbols.I32_MAX
  }

  lemma SmallNumbersFit()
    ensures NumbersFit(SmallNumber)
  {
  }

  /** A successful step continues the scan where it left off. */
  lemma ScanThrough(gs: seq<string>, i: nat, st: ScanState, st': ScanState, j: nat, isNumber: string -> bool, isIdent: string -> bool)
    requires i < |gs| && NumbersFit(isNumber) && Step(gs, i, st, isNumber, isIdent) == Ok((st', j))
    ensures j <= |gs| && Scan(gs, i, st, isNumber, isIdent) == Scan(gs, j, st', isNumber, isIdent)
  {
    ScanUnfold(gs, i, st, isNumber, isIdent);
  }

  /** A letter or digit grapheme joins the word. */
  lemma ExampleWordStep(gs: seq<string>, i: nat, st: ScanState, st': ScanState)
    requires i < |gs| && |gs[i]| == 1 && IsWordChar(gs[i][0]) && st' == st.(word := st.word + gs[i])
    ensures NumbersFit(SmallNumber)
    ensures Scan(gs, i, st, SmallNumber, IdentLiteral) == Scan(gs, i + 1, st', SmallNumber, IdentLiteral)
  {
    SmallNumbersFit();
    Separators.AcceptsExactly(gs[i]);
    Operators.AcceptsExactly(gs[i]);
    WordStep(gs, i, st, SmallNumber, IdentLiteral);
    ScanThrough(gs, i, st, st', i + 1, SmallNumber, IdentLiteral);
  }

  /** A blank grapheme with an empty word changes nothing. */
  lemma ExampleBlankStep(gs: seq<string>, i: nat, st: ScanState)
    requires i < |gs| && gs[i] == " " && st.word == ""
    ensures NumbersFit(SmallNumber)
    ensures Scan(gs, i, st, SmallNumber, IdentLiteral) == Scan(gs, i + 1, st, SmallNumber, IdentLiteral)
  {
    SmallNumbersFit();
    ConsumeOutcome(st, SmallNumber, IdentLiteral);
    assert st.tokens + [] == st.tokens;
    ScanThrough(gs, i, st, st, i + 1, SmallNumber, IdentLiteral);
  }

  /** A blank grapheme flushes a new one-letter identifier, which gets the next identifier id. */
  lemma ExampleIdentStep(gs: seq<string>, i: nat, st: ScanState, st': ScanState)
    requires i < |gs| && gs[i] == " " && |st.word| == 1 && IsLetter(st.word[0]) && Symbols.Ident(st.word) !in st.idents
    requires st' == st.(tokens := st.tokens + [Ident(|st.idents| + 1)], idents := st.idents + [Symbols.Ident(st.word)], word := "")
    ensures NumbersFit(SmallNumber)
    ensures Scan(gs, i, st, SmallNumber, IdentLiteral) == Scan(gs, i + 1, st', SmallNumber, IdentLiteral)
  {
    SmallNumbersFit();
    ReservedWords.AcceptsExactly(st.word);
    assert !SmallNumber(st.word) && IdentLiteral(st.word);
    assert st.tokens + [Ident(|st.idents| + 1)] + [] == st.tokens + [Ident(|st.idents| + 1)];
    ScanThrough(gs, i, st, st', i + 1, SmallNumber, IdentLiteral);
  }

  /** An operator grapheme with an empty word adds the operator `OperatorAt` finds. */
  lemma ExampleOperatorStep(gs: seq<string>, i: nat, st: ScanState, op: Operators.Operator, st': ScanState)
    requires i < |gs| && Operators.Operator.TryParse(gs[i]) == Some(op) && st.word == ""
    requires st' == st.(tokens := st.tokens + [Operator(OperatorAt(gs, i, op).0)])
    ensures NumbersFit(SmallNumber)
    ensures Scan(gs, i, st, SmallNumber, IdentLiteral) == Scan(gs, OperatorAt(gs, i, op).1, st', SmallNumber, IdentLiteral)
  {
    SmallNumbersFit();
    ConsumeOutcome(st, SmallNumber, IdentLiteral);
    Separators.QuotesAndOperatorsAreNot(op);
    NewlineIsWhitespace();
    ScanThrough(gs, i, st, st', OperatorAt(gs, i, op).1, SmallNumber, IdentLiteral);
  }

  /** Flushing the word `1` into an empty constant table. */
  lemma FlushOne(st: ScanState)
    requires st.word == "1" && st.consts == []
    ensures NumbersFit(SmallNumber)
    ensures ConsumeWordSpec(st, SmallNumber, IdentLiteral)
      == Ok(st.(tokens := st.tokens + [Literal(New(1, I32))], consts := [Symbols.Const(Symbols.I32(1))], word := ""))
  {
    SmallNumbersFit();
    ReservedWords.AcceptsExactly("1");
    assert "1"[..0] == "" && DecimalValue("1") == 1 && SmallNumber("1");
    assert [] + [Symbols.Const(Symbols.I32(1))] == [Symbols.Const(Symbols.I32(1))];
  }

  /** A `;` flushes the number `1` into an empty constant table and is emitted after it. */
  lemma ExampleNumberStep(gs: seq<string>, i: nat, st: ScanState, st': ScanState)
    requires i < |gs| && gs[i] == ";" && st.word == "1" && st.consts == []
    requires st' == st.(tokens := st.tokens + [Literal(New(1, I32)), Separator(Separators.Semicolon)],
                        consts := [Symbols.Const(Symbols.I32(1))], word := "")
    ensures NumbersFit(SmallNumber)
    ensures Scan(gs, i, st, SmallNumber, IdentLiteral) == Scan(gs, i + 1, st', SmallNumber, IdentLiteral)
  {
    FlushOne(st);
    assert Separators.Separator.Semicolon.Text() == gs[i];
    assert st.tokens + [Literal(New(1, I32))] + [Separator(Separators.Semicolon)]
      == st.tokens + [Literal(New(1, I32)), Separator(Separators.Semicolon)];
    ScanThrough(gs, i, st, st', i + 1, SmallNumber, IdentLiteral);
  }

  /**
   * A one-letter word followed by a blank: the letter is flushed as a new identifier, which
   * gets the next identifier id.
   */
  lemma LetterThenBlank(gs: seq<string>, i: nat, st: ScanState, st': ScanState)
    requires i + 1 < |gs| && |gs[i]| == 1 && IsLetter(gs[i][0]) && gs[i + 1] == " "
    requires st.word == "" && Symbols.Ident(gs[i]) !in st.idents
    requires st' == st.(tokens := st.tokens + [Ident(|st.idents| + 1)], idents := st.idents + [Symbols.Ident(gs[i])])
    ensures NumbersFit(SmallNumber)
    ensures Scan(gs, i, st, SmallNumber, IdentLiteral) == Scan(gs, i + 2, st', SmallNumber, IdentLiteral)
  {
    var s1 := st.(word := st.word + gs[i]);
    assert st.word + gs[i] == gs[i];
    ExampleWordStep(gs, i, st, s1);
    ExampleIdentStep(gs, i + 1, s1, st');
  }

  /** The state after the first identifier `w`. */
  function FirstIdent(w: string): ScanState
  {
    Start().(tokens := Start().tokens + [Ident(|Start().idents| + 1)], idents := Start().idents + [Symbols.Ident(w)])
  }

  /** `a == b` from the first `=` on: `==` is one operator and `b` stays in the buffer. */
  lemma EqualityTail(gs: seq<string>, st: ScanState)
    requires |gs| == 6 && gs[2] == "=" && gs[3] == "=" && gs[4] == " " && gs[5] == "b" && st.word == ""
    ensures NumbersFit(SmallNumber)
    ensures Scan(gs, 2, st, SmallNumber, IdentLiteral)
      == Ok(st.(tokens := st.tokens + [Operator(Operators.Operator.Relational(Operators.Equal))], word := "b"))
  {
    var assign, equal := Operators.Operator.Assignment(Operators.Assign), Operators.Operator.Relational(Operators.Equal);
    assert OperatorAt(gs, 2, assign) == (equal, 4) by {
      assert assign.Text() == gs[2] && equal.Text() == gs[2] + gs[3];
    }
    var s4 := st.(tokens := st.tokens + [Operator(equal)]);
    ExampleOperatorStep(gs, 2, st, assign, s4);
    EqualityEnd(gs, s4);
  }

  /** `a == b` from the second blank on. */
  lemma EqualityEnd(gs: seq<string>, st: ScanState)
    requires |gs| == 6 && gs[4] == " " && gs[5] == "b" && st.word == ""
    ensures NumbersFit(SmallNumber)
    ensures Scan(gs, 4, st, SmallNumber, IdentLiteral) == Ok(st.(word := "b"))
  {
    ExampleBlankStep(gs, 4, st);
    assert "" + "b" == "b";
    ExampleWordStep(gs, 5, st, st.(word := "b"));
  }

  /** The state `a == b` ends in, written out. */
  lemma EqualityFinal()
    ensures FirstIdent("a").(tokens := FirstIdent("a").tokens + [Operator(Operators.Operator.Relational(Operators.Equal))], word := "b")
      == ScanState([Ident(1), Operator(Operators.Operator.Relational(Operators.Equal))], [Symbols.Ident("a")], [], "b", 1)
  {
    assert [] + [Ident(1)] + [Operator(Operators.Operator.Relational(Operators.Equal))]
      == [Ident(1), Operator(Operators.Operator.Relational(Operators.Equal))];
  }

  /**
   * `a == b`: the two `=` graphemes make one `==` operator, and the trailing `b` is still
   * in the buffer when the input ends, so it is never emitted.
   */
  lemma EqualityExample(gs: seq<string>)
    requires gs == ["a", " ", "=", "=", " ", "b"]
    ensures NumbersFit(SmallNumber) && Lex(gs, SmallNumber, IdentLiteral)
      == Ok(ScanState([Ident(1), Operator(Operators.Operator.Relational(Operators.Equal))], [Symbols.Ident("a")], [], "b", 1))
  {
    LetterThenBlank(gs, 0, Start(), FirstIdent(gs[0]));
    EqualityTail(gs, FirstIdent(gs[0]));
    EqualityFinal();
  }

  /** `x = 1;` from the `=` on: the blank does not lengthen `=`. */
  lemma AssignmentTail(gs: seq<string>, st: ScanState)
    requires 4 <= |gs| && gs[2] == "=" && gs[3] == " " && st.word == ""
    ensures NumbersFit(SmallNumber)
    ensures Scan(gs, 2, st, SmallNumber, IdentLiteral)
      == Scan(gs, 3, st.(tokens := st.tokens + [Operator(Operators.Operator.Assignment(Operators.Assign))]), SmallNumber, IdentLiteral)
  {
    var assign := Operators.Operator.Assignment(Operators.Assign);
    assert OperatorAt(gs, 2, assign) == (assign, 3) by {
      assert gs[2] + gs[3] == "= ";
      Operators.AcceptsExactly(gs[2] + gs[3]);
      assert assign.Text() == gs[2];
    }
    ExampleOperatorStep(gs, 2, st, assign, st.(tokens := st.tokens + [Operator(assign)]));
  }

  /** `x = 1;` from the blank after `=` on: `1` is flushed by `;` as the first constant. */
  lemma AssignmentEnd(gs: seq<string>, st: ScanState)
    requires |gs| == 6 && gs[3] == " " && gs[4] == "1" && gs[5] == ";" && st.word == "" && st.consts == []
    ensures NumbersFit(SmallNumber)
    ensures Scan(gs, 3, st, SmallNumber, IdentLiteral)
      == Ok(st.(tokens := st.tokens + [Literal(New(1, I32)), Separator(Separators.Semicolon)],
                consts := [Symbols.Const(Symbols.I32(1))]))
  {
    ExampleBlankStep(gs, 3, st);
    assert "" + "1" == "1";
    ExampleWordStep(gs, 4, st, st.(word := "1"));
    ExampleNumberStep(gs, 5, st.(word := "1"),
      st.(tokens := st.tokens + [Literal(New(1, I32)), Separator(Separators.Semicolon)], consts := [Symbols.Const(Symbols.I32(1))]));
  }

  /** The state `x = 1;` ends in, written out. */
  lemma AssignmentFinal()
    ensures var s3 := FirstIdent("x").(tokens := FirstIdent("x").tokens + [Operator(Operators.Operator.Assignment(Operators.Assign))]);
      s3.(tokens := s3.tokens + [Literal(New(1, I32)), Separator(Separators.Semicolon)], consts := [Symbols.Const(Symbols.I32(1))])
      == ScanState([Ident(1), Operator(Operators.Operator.Assignment(Operators.Assign)), Literal(New(1, I32)), Separator(Separators.Semicolon)],
                   [Symbols.Ident("x")], [Symbols.Const(Symbols.I32(1))], "", 1)
  {
    assert [] + [Ident(1)] + [Operator(Operators.Operator.Assignment(Operators.Assign))] + [Literal(New(1, I32)), Separator(Separators.Semicolon)]
      == [Ident(1), Operator(Operators.Operator.Assignment(Operators.Assign)), Literal(New(1, I32)), Separator(Separators.Semicolon)];
  }

  /**
   * `x = 1;`: `=` is not lengthened by the blank after it, the number is interned as the
   * first constant, and the `;` flushes it before being emitted itself.
   */
  lemma AssignmentExample(gs: seq<string>)
    requires gs == ["x", " ", "=", " ", "1", ";"]
    ensures NumbersFit(SmallNumber) && Lex(gs, SmallNumber, IdentLiteral)
      == Ok(ScanState([Ident(1), Operator(Operators.Operator.Assignment(Operators.Assign)), Literal(New(1, I32)), Separator(Separators.Semicolon)],
                      [Symbols.Ident("x")], [Symbols.Const(Symbols.I32(1))], "", 1))
  {
    var s3 := FirstIdent(gs[0]).(tokens := FirstIdent(gs[0]).tokens + [Operator(Operators.Operator.Assignment(Operators.Assign))]);
    LetterThenBlank(gs, 0, Start(), FirstIdent(gs[0]));
    AssignmentTail(gs, FirstIdent(gs[0]));
    AssignmentEnd(gs, s3);
    AssignmentFinal();
  }
}
