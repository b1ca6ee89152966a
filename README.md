# The cool-language lexer, modelled in Dafny

This project models the front end of the `cool-language` compiler. It has three parts.

- **Symbol tables.** There are two copies of the table, the current one
  (`compiler/src/symbols/symbol_table.rs`) and an earlier one (`compiler/src/symbol_table.rs`).
  Both are open-addressing hash tables with linear probing. Each stores a symbol once and
  hands out ids `1, 2, 3, …` in first-seen order. A table grows before an insert that would
  push the load above 3/4: to 5 slots from empty, otherwise to the least prime at or above
  twice the slot count. Hashing and primes come from `compiler/src/utils.rs`. The hash codes
  of identifiers and constants come from `compiler/src/symbols/symbol.rs` and its earlier
  copy `compiler/src/symbol.rs`.
- **State-machine construction.** `compiler/src/state_machine.rs` builds a
  `StateMachine` from its serialized form. It numbers the states and resolves every
  transition. It fails with `InvalidState` or `InvalidSymbol` at the first name that does
  not resolve.
- **Scanner.** `compiler/src/scanner/scanner.rs` makes one left-to-right pass over the
  graphemes of a source file with one grapheme of lookahead. It uses the token tables for
  operators, separators and reserved words, plus the earlier taxonomy in
  `compiler/src/scanner/token.rs`. Words are flushed at separators and operators and
  classified first-match. Constants and identifiers are interned into the program's two
  symbol tables.

Each part keeps the form it has in the source.

- **Symbol table.** `SymbolTables.SymbolTable` is a class over an `array` of slots. Its
  invariant `TableInv` covers four things:
  - unique ids `1..len`, one per distinct stored symbol;
  - every stored symbol reachable from its home slot without crossing an empty slot;
  - the load bound;
  - `len` equal to the number of occupied slots.

  The ghost sequence `Order` lists the stored symbols in id order.
- **Primes.** `is_prime` and `next_prime` are loops (`Utils.IsPrime`, `Utils.NextPrime`).
  They are proved against mathematical primality.
- **State-machine construction.** `StateMachines.TryFrom` is the imperative construction.
  It is proved equal to the function `StateMachines.AsWritten`, and the properties of the
  construction are lemmas about that function.
- **Scanner.** `Scanner.FromSource` is the main loop over a `Program` object that owns
  two symbol tables. It is proved to compute the function `Scanner.Lex`. `Lex` abstracts
  each table to its symbols in id order, and the lexer's properties are stated about it in
  `ScannerProperties`.

The model makes these choices about the scanner's inputs and names.

- **Graphemes.** The scanner takes the source already split into graphemes, as a
  `seq<string>`.
- **Number and identifier tests.** The state machines that accept numbers and identifiers
  are loaded from JSON files. The function that runs them is not part of this model. The
  two tests are parameters `isNumber` and `isIdent`. The source's `NUMBER_LITERAL_REGEX`
  and `IDENT_REGEX` are written as the predicates `Scanner.NumberLiteral` and
  `Scanner.IdentLiteral`. The theorems about the scan hold for every number test that
  accepts only digit strings whose value fits in `i32` (`Scanner.NumbersFit`).
  `NUMBER_LITERAL_REGEX` is not such a test (`Scanner.NumberLiteralOverflows`). The
  examples use `IdentLiteral` and `ScannerProperties.SmallNumber`, which is
  `NumberLiteral` restricted to values that fit in `i32`.
- **String and character literals.** The string and character regexes are the predicates
  `Scanner.StrLiteral` and `Scanner.CharLiteral`.
- **Literal tokens.** `scanner.rs` pushes `Token::Literal(id)`, while
  `compiler/src/scanner/tokens/literal.rs` declares `Literal { id, kind }`. The model uses
  the struct, with the kind the scanner evidently means.
- **String constants.** `scanner.rs` interns `Const::Str`, while `symbols/symbol.rs`
  declares `Const::String`. The model has one constructor, `Str`.

## Model

| member | source | states |
|---|---|---|
| Utils.HashStrIsPolynomial | compiler/src/utils.rs:2-4 | the wrapping fold equals the exact polynomial `7*31^n + Σ c_i*31^(n-1-i)` reduced once modulo 2^64 |
| Utils.IsPrime | compiler/src/utils.rs:7-27 | the result is true exactly when `n` is prime: the trial division by odd `i` with `i*i <= n` decides primality |
| Utils.PrimeAtLeast | compiler/src/utils.rs:30-37 | for every `n` there is a prime at least `n`, so the search of `next_prime` ends |
| Utils.NextPrime | compiler/src/utils.rs:30-38 | the result is the least prime that is at least `n` |
| Utils.PrimeExamples | compiler/src/utils.rs:44-60 | 2, 5 and 7 are prime; 0, 1 and 4 are not; the next prime from 2, 4 and 5 is 2, 5 and 5 |
| Symbols.I32HashIsSignExtension | compiler/src/symbols/symbol.rs:20 | an `i32` hashes to its 64-bit sign extension: `v` when `v >= 0`, `2^64 + v` otherwise |
| Symbols.ScalarHashesInjective | compiler/src/symbols/symbol.rs:18-25 | two different integers, characters or booleans never share a hash code |
| Symbols.IdentAndStringCollide | compiler/src/symbols/symbol.rs:39-44 | the identifier `s` and the string constant `s` hash equal but are different symbols |
| Symbols.LegacyHashAgrees | compiler/src/symbol.rs:12-34 | the earlier hash agrees with the current one on every non-string symbol whatever `hash_string` is, and everywhere when `hash_string` is `hash_str` |
| SymbolTables.SymbolTable.constructor | compiler/src/symbols/symbol_table.rs:17-21 | a default table has no slots and no symbols, and satisfies the table invariant |
| SymbolTables.SymbolTable.Insert | compiler/src/symbols/symbol_table.rs:34-52 | a symbol already stored returns its id and leaves the table's contents alone; a new symbol is stored with id `len+1`; the returned id is the only one naming the symbol; the table grows exactly when `should_grow` held, to 5 slots from none and otherwise to the least prime at least twice the old slot count; the invariant is kept. The earlier `insert` (compiler/src/symbol_table.rs lines 27-45) is the same code |
| SymbolTables.SymbolTable.StoreNew | compiler/src/symbols/symbol_table.rs:49-51 | storing a new symbol at the empty slot its probe reached appends it to the stored symbols with id `len+1` and keeps the invariant |
| SymbolTables.SymbolTable.FindSlot | compiler/src/symbols/symbol_table.rs:39-47 | the probe stops at the slot holding the symbol, or at an empty slot only when the symbol is absent; it never runs round the whole table |
| SymbolTables.SymbolTable.Get | compiler/src/symbols/symbol_table.rs:55-67 | returns `Some(id)` exactly when the symbol is stored, with the id it was stored under; a table without slots answers `None` |
| SymbolTables.SymbolTable.Contains | compiler/src/symbols/symbol_table.rs:71-73 | true exactly when the symbol is stored, and false on a table without slots |
| SymbolTables.HomeAsWritten | compiler/src/symbols/symbol_table.rs:56 | the home slot `hash % slots` is below the slot count, and is a remainder by zero exactly when the table has no slots |
| SymbolTables.SymbolTable.NoSlotsNoSymbols | compiler/src/symbols/symbol_table.rs:17-21 | a table without slots, such as the default one, stores no symbol |
| SymbolTables.SymbolTable.GetPanicsWithoutSlots | compiler/src/symbols/symbol_table.rs:55-73 | as written, `get` and `contains` on a table without slots divide by zero, although the symbol is not stored |
| SymbolTables.SymbolTable.Capacity | compiler/src/symbols/symbol_table.rs:102-104 | the slot count; under the invariant at most three quarters of it is used, so a table without slots is empty |
| SymbolTables.SymbolTable.ShouldGrow | compiler/src/symbols/symbol_table.rs:113-119 | true on a table without slots, otherwise exactly when `(len + 1) / slots > 0.75` in exact arithmetic; when false, one more symbol keeps the 3/4 load bound |
| SymbolTables.OverLoadFactor | compiler/src/symbols/symbol_table.rs:118 | the load test `a / n > 0.75` is the integer test `4a > 3n` |
| SymbolTables.SymbolTable.ToSortedVec | compiler/src/symbols/symbol_table.rs:82-86 | every stored pair once, in ascending id order, and every occupied slot's pair is in the result |
| SymbolTables.SymbolTable.Len | compiler/src/symbols/symbol_table.rs:90-92 | `len` is the number of stored symbols and the number of occupied slots |
| SymbolTables.SymbolTable.IsEmpty | compiler/src/symbols/symbol_table.rs:96-98 | true exactly when no symbol is stored, that is when every slot is empty |
| SymbolTables.SymbolTable.Grow | compiler/src/symbols/symbol_table.rs:122-138 | new slot count 5 from empty, else the least prime at least twice the old count; the same `(symbol, id)` pairs are stored and the ids are unchanged. The earlier `grow` (compiler/src/symbol_table.rs lines 80-97) is the same code |
| SymbolTables.SymbolTable.EntriesMatchOrder | compiler/src/symbols/symbol_table.rs:49-51 | the stored pairs are exactly the symbols in first-seen order, each with its position plus one |
| SymbolTables.PlaceEntry | compiler/src/symbols/symbol_table.rs:128-134 | the rehash probe finds an empty slot on the entry's probe path and stores the entry there |
| SymbolTables.Rehash | compiler/src/symbols/symbol_table.rs:125-137 | the new vector of `cap` slots satisfies the table invariant with the same symbols under the same ids: every entry reachable from its home slot, ids `1..len` |
| SymbolTables.AbsentWhenEmptyReached | compiler/src/symbols/symbol_table.rs:41-47 | a probe that meets an empty slot before the symbol proves the symbol absent |
| SymbolTables.ProbeMeetsStored | compiler/src/symbols/symbol_table.rs:41-47 | a probe for a stored symbol stays on occupied slots until it reaches it |
| SymbolTables.InsertKeepsInv | compiler/src/symbols/symbol_table.rs:49-51 | storing a new symbol at the end of its probe keeps the table invariant |
| SymbolTables.IdsAreOneToLen | compiler/src/symbols/symbol_table.rs:49-51 | the stored ids are exactly `1..len`, and two occupied slots share neither id nor symbol |
| SymbolTables.GrowthMakesRoom | compiler/src/symbols/symbol_table.rs:113-138 | after growth there is room for one more symbol within the 3/4 load bound, so the probe always finds an empty slot |
| SymbolTables.FlattenMatchesSlots | compiler/src/symbols/symbol_table.rs:77-79 | iterating the slots yields one pair per occupied slot, exactly the stored pairs |
| SymbolTables.SymbolTableScenario | compiler/src/symbols/symbol_table.rs:158-182 | the unit test: a constant and an identifier get ids 1 and 2, re-inserting the constant returns 1, the length is 2 and both are contained |
| SymbolTables.LegacySymbolTableScenario | compiler/src/symbol_table.rs:116-131 | the earlier unit test, for any `hash_string`: equal symbols share an id, a different symbol gets another, and the length is 2 |
| StateMachines.PositionMapIndexes | compiler/src/state_machine.rs:40-47 | with distinct names, each state name maps to its position, so the indices are distinct and below the number of states |
| StateMachines.NumberStates | compiler/src/state_machine.rs:40-47 | the state pass numbers each name by its position and starts every state with no transitions |
| StateMachines.IndexAlphabet | compiler/src/state_machine.rs:49-55 | the alphabet holds every declared symbol, and `alphabet_indexes` maps each one to the number of states |
| StateMachines.AttachTransitions | compiler/src/state_machine.rs:57-77 | the transition loop computes the transition pass `Attach` |
| StateMachines.TryFrom | compiler/src/state_machine.rs:36-92 | the construction computes `AsWritten`, which looks transition symbols up among the state names |
| StateMachines.AttachOutcome | compiler/src/state_machine.rs:57-77 | all or nothing: the pass succeeds exactly when every transition resolves, and otherwise fails with the error of the first one that does not, checking source, then symbol, then destination |
| StateMachines.AttachState | compiler/src/state_machine.rs:57-77 | on success each state keeps its name and gains exactly its outgoing transitions in serialized order |
| StateMachines.AttachCount | compiler/src/state_machine.rs:57-77 | on success one transition is attached per serialized transition |
| StateMachines.BuildSucceeds | compiler/src/state_machine.rs:57-91 | the construction succeeds exactly when every transition resolves and the initial and final states are declared; otherwise it fails with the error of the first transition that does not resolve, or else with `InvalidState` naming the undeclared initial state, or else the undeclared final state |
| StateMachines.BuildShape | compiler/src/state_machine.rs:40-91 | a built machine has one state per declared name in order, each with its outgoing transitions; every serialized transition is attached once; the initial and final indices name the declared initial and final states |
| StateMachines.DestinationsValid | compiler/src/state_machine.rs:70-76 | every attached transition leads to a state of the machine |
| StateMachines.SymbolsResolveAmongStates | compiler/src/state_machine.rs:64-68 | as written, a built machine's transition symbols are all state names and their indices are state indices |
| StateMachines.AlphabetSymbolRejected | compiler/src/state_machine.rs:64-68 | as written, the first transition whose symbol is not a state name makes construction fail with `InvalidSymbol` |
| StateMachines.DigitMachineRejected | compiler/src/state_machine.rs:64-68 | as written, a two-state digit recogniser whose transition symbol `0` is in the alphabet is refused with `InvalidSymbol("0")` |
| StateMachines.IntendedResolvesAlphabet | compiler/src/state_machine.rs:49-68 | with symbols looked up in the alphabet, a transition resolves exactly when its symbol is declared; each built state holds its outgoing transitions with each symbol given as its alphabet index, every index is below the alphabet size, and the alphabet entry at that index is the transition's symbol |
| StateMachines.PositionMapNames | compiler/src/state_machine.rs:40-55 | with distinct names, the position a name is mapped to holds that name |
| StateMachines.DigitMachineAccepted | compiler/src/state_machine.rs:49-68 | with symbols looked up in the alphabet, the digit recogniser is built with its one transition |
| Operators.AssignmentOperator.TryParse | compiler/src/scanner/tokens/operators.rs:90-95 | accepts exactly `=` |
| Operators.ArithmeticOperator.TryParse | compiler/src/scanner/tokens/operators.rs:121-130 | accepts exactly the spellings of `+ - * / %`, each as its operator |
| Operators.RelationalOperator.TryParse | compiler/src/scanner/tokens/operators.rs:157-167 | accepts exactly the spellings of `== != < <= > >=`, each as its operator |
| Operators.LogicalOperator.TryParse | compiler/src/scanner/tokens/operators.rs:189-196 | accepts exactly the spellings of `&& \|\| !`, each as its operator |
| Operators.BitwiseOperator.TryParse | compiler/src/scanner/tokens/operators.rs:218-225 | accepts exactly the spellings of `& \| ^`, each as its operator |
| Operators.Operator.TryParse | compiler/src/scanner/tokens/operators.rs:18-40 | the result is the one operator spelled by the input, if any: the first-match order hides nothing |
| Operators.AcceptsExactly | compiler/src/scanner/tokens/operators.rs:18-40 | `try_parse` succeeds exactly on the 18 operator spellings |
| Operators.EighteenOperators | compiler/src/scanner/tokens/operators.rs:18-40 | there are 18 distinct operator spellings |
| Operators.TextInjective | compiler/src/scanner/tokens/operators.rs:18-40 | distinct operators have distinct spellings, so parsing is injective |
| Operators.CategoriesDisjoint | compiler/src/scanner/tokens/operators.rs:18-40 | at most one category accepts any input |
| Operators.LookaheadOperators | compiler/src/scanner/tokens/operators.rs:43-51 | lookahead is needed exactly for `=`, `<`, `>`, `!`, `&` and `\|`, which are one character long; never for two-character or arithmetic operators |
| Operators.AssignmentOperator.NeedsLookahead | compiler/src/scanner/tokens/operators.rs:98-101 | true, and `=` followed by `=` spells an operator |
| Operators.ArithmeticOperator.NeedsLookahead | compiler/src/scanner/tokens/operators.rs:133-135 | false, and no arithmetic operator followed by `=` or by itself spells an operator |
| Operators.RelationalOperator.NeedsLookahead | compiler/src/scanner/tokens/operators.rs:170-173 | true exactly when the operator followed by `=` or by itself spells another operator, that is for `<` and `>` |
| Operators.LogicalOperator.NeedsLookahead | compiler/src/scanner/tokens/operators.rs:199-202 | true exactly when the operator followed by `=` or by itself spells another operator, that is for `!` |
| Operators.BitwiseOperator.NeedsLookahead | compiler/src/scanner/tokens/operators.rs:228-231 | true exactly when the operator followed by `=` or by itself spells another operator, that is for `&` and `\|` |
| Operators.Operator.NeedsLookahead | compiler/src/scanner/tokens/operators.rs:43-51 | true exactly when the operator followed by `=` or by itself spells another operator |
| Operators.ExtensionIsOperator | compiler/src/scanner/tokens/operators.rs:43-51 | what follows a one-character operator to spell a longer one is itself an operator |
| Operators.LookaheadIffExtensible | compiler/src/scanner/tokens/operators.rs:98-101 | an operator needs lookahead exactly when it is one character long and some following character makes it a two-character operator |
| Separators.TrimEmptyIffBlank | compiler/src/scanner/tokens/separators.rs:27 | trimming leaves nothing exactly when every character is white space |
| Separators.Separator.TryParse | compiler/src/scanner/tokens/separators.rs:26-42 | blank input, `""` included, is `Whitespace`; any other input is the punctuation separator it spells, if any |
| Separators.AcceptsExactly | compiler/src/scanner/tokens/separators.rs:26-42 | parsing succeeds exactly on blank input and the eight punctuation strings, and the result is whitespace exactly for blank input |
| Separators.Separator.IsWhitespace | compiler/src/scanner/tokens/separators.rs:45-47 | true exactly for the separator blank input parses to; any other separator is what its own spelling parses to |
| Separators.QuotesAndOperatorsAreNot | compiler/src/scanner/tokens/separators.rs:39 | quotes and operator spellings are not separators |
| ReservedWords.Primitive.TryParse | compiler/src/scanner/tokens/reserved_words.rs:46-54 | accepts exactly `i32`, `bool`, `char` and `str` |
| ReservedWords.ControlFlow.TryParse | compiler/src/scanner/tokens/reserved_words.rs:74-83 | accepts exactly `if`, `else`, `for`, `in` and `while` |
| ReservedWords.BoolLiteral.TryParse | compiler/src/scanner/tokens/reserved_words.rs:97-103 | accepts exactly `true` and `false` |
| ReservedWords.ReservedWord.TryParse | compiler/src/scanner/tokens/reserved_words.rs:14-28 | the result is the one reserved word spelled by the input, if any |
| ReservedWords.AcceptsExactly | compiler/src/scanner/tokens/reserved_words.rs:14-28 | `try_parse` succeeds exactly on the eleven reserved words, so not on `""` |
| ReservedWords.ElevenWords | compiler/src/scanner/tokens/reserved_words.rs:14-28 | there are eleven distinct reserved words |
| ReservedWords.CategoriesDisjoint | compiler/src/scanner/tokens/reserved_words.rs:14-28 | the three categories accept disjoint words, and matching is case-sensitive |
| LegacyTokens.Separator.TryParse | compiler/src/scanner/token.rs:25-43 | blank input is `Whitespace`; `ClosedParanthesis` is never produced; every other separator, the two quotes included, is recognised by its spelling |
| LegacyTokens.Separator.IsWhitespace | compiler/src/scanner/token.rs:46-48 | true exactly for the separator blank input parses to; any other separator but the unreachable `ClosedParanthesis` is what its own spelling parses to |
| LegacyTokens.ClosedParanthesisUnreachable | compiler/src/scanner/token.rs:33 | `""` parses as `Whitespace`, so the `""` arm is never reached, and `)` is not a separator, although the current table accepts it |
| LegacyTokens.AgreesWithCurrent | compiler/src/scanner/token.rs:25-43 | apart from `)` and the quotes, the earlier and the current separator tables accept the same inputs with the same meaning |
| LegacyTokens.Primitive.TryParse | compiler/src/scanner/token.rs:85-93 | accepts exactly `i32`, `bool`, `char` and `str`, the last as `String` |
| LegacyTokens.ReservedWord.TryParse | compiler/src/scanner/token.rs:59-73 | recognises the same eleven words as the current table, with the same meaning |
| Scanner.ParseI32 | compiler/src/scanner/scanner.rs:155-170 | the result is the decimal value of the digit string |
| Scanner.DecimalRoundTrip | compiler/src/scanner/scanner.rs:155-170 | spelling a number in decimal and parsing it back gives the number, and the spelling is a number literal |
| Scanner.NumberLiteralCanonical | compiler/src/scanner/scanner.rs:11 | every number literal is the decimal spelling of its value |
| Scanner.NumberLiteralOverflows | compiler/src/scanner/scanner.rs:11 | the spelling of `2^31` is a number literal whose value exceeds `i32`, so `NUMBER_LITERAL_REGEX` does not satisfy `NumbersFit` |
| Scanner.ParseExamples | compiler/src/scanner/scanner.rs:176-181 | `0`, `123` and `1000` parse to 0, 123 and 1000 |
| Scanner.Intern | compiler/src/symbols/symbol_table.rs:34-52 | the table's symbols after an insert: the returned id names the symbol and is its first occurrence; the table only grows, by at most one symbol |
| Scanner.OperatorAt | compiler/src/scanner/scanner.rs:106-122 | the two-grapheme operator and position `i+2` exactly when the operator needs lookahead and the next grapheme extends it; otherwise the operator itself and `i+1` |
| Scanner.Program.constructor | compiler/src/scanner/scanner.rs:55 | a default program has no tokens and two empty tables |
| Scanner.Program.Push | compiler/src/scanner/scanner.rs:101-124 | appends one token and keeps the program's invariant |
| Scanner.InternIn | compiler/src/scanner/scanner.rs:73-89 | inserting into one of the program's tables changes that table's symbols as `Intern` says and leaves the other table alone |
| Scanner.ConsumeWord | compiler/src/scanner/scanner.rs:61-97 | the flush computes `ConsumeWordSpec`: the same outcome and error, and on success the same tokens, tables and an empty word |
| Scanner.PushOperator | compiler/src/scanner/scanner.rs:109-121 | pushes the operator `OperatorAt` finds and returns the next position it gives |
| Scanner.ScanGrapheme | compiler/src/scanner/scanner.rs:100-129 | one iteration of the main loop computes `Step`: same outcome, tokens, tables, word, line and next position |
| Scanner.FromSource | compiler/src/scanner/scanner.rs:54-133 | the scan computes `Lex`: it fails exactly when `Lex` does, with the same error, and otherwise yields `Lex`'s tokens and table contents |
| ScannerProperties.InternKeepsNoRepeats | compiler/src/symbols/symbol_table.rs:34-52 | interning keeps a table free of repeats, and the returned id is the only one naming the symbol |
| ScannerProperties.InternIdempotent | compiler/src/symbols/symbol_table.rs:39-44 | interning the same symbol twice changes nothing the second time and returns the same id |
| ScannerProperties.ConsumeOutcome | compiler/src/scanner/scanner.rs:61-97 | an empty word emits nothing; the flush fails exactly when the word is non-empty and no test accepts it, with the message naming the word and the current line; a successful flush appends one token, empties the word and only extends the tables |
| ScannerProperties.ConsumeClassifies | compiler/src/scanner/scanner.rs:66-92 | first match wins: reserved word, number, string, character, identifier; each token's id names the interned symbol and the other table is untouched |
| ScannerProperties.RepeatedWordSameToken | compiler/src/scanner/scanner.rs:73-89 | flushing the same word again emits the same token and leaves the tables as they are |
| ScannerProperties.NewlineIsWhitespace | compiler/src/scanner/scanner.rs:100-105 | a newline grapheme is a whitespace separator |
| ScannerProperties.SeparatorStep | compiler/src/scanner/scanner.rs:100-105 | a separator flushes the word; whitespace adds no token, any other separator adds the one token that spells it; the step fails exactly when the flush does |
| ScannerProperties.NoOperatorEndsInNewline | compiler/src/scanner/scanner.rs:109-119 | no operator ends in a newline, so the lookahead never swallows one |
| ScannerProperties.OperatorStep | compiler/src/scanner/scanner.rs:106-122 | an operator flushes the word and adds one operator token; the two-grapheme operator is emitted and the lookahead consumed exactly when it extends the operator, otherwise the lookahead is left for the next step |
| ScannerProperties.WordStep | compiler/src/scanner/scanner.rs:123-125 | any other grapheme joins the word and emits nothing |
| ScannerProperties.StepLineAfter | compiler/src/scanner/scanner.rs:127-129 | the line counter goes up by one exactly after a newline grapheme |
| ScannerProperties.TwoGraphemeStep | compiler/src/scanner/scanner.rs:106-122 | a step that reads two graphemes reads an operator and its lookahead, neither of them a newline |
| ScannerProperties.StepLines | compiler/src/scanner/scanner.rs:99-130 | a step advances the line counter by the newlines among the graphemes it reads |
| ScannerProperties.ScanLines | compiler/src/scanner/scanner.rs:99-130 | a scan that succeeds advances the line counter by the newlines of the rest of the input |
| ScannerProperties.ScanErrorLine | compiler/src/scanner/scanner.rs:90-91 | a scan that fails stops at the first failing step: it reaches, every step succeeding, a grapheme whose flush fails on a non-empty word no test accepts, and the error names that word and that grapheme's line, counting the newlines before it |
| ScannerProperties.StepErrorLine | compiler/src/scanner/scanner.rs:90-91 | a step fails only at a separator or operator whose flush finds a word that is no token; the error names the word and the line the step started on |
| ScannerProperties.LexLines | compiler/src/scanner/scanner.rs:57-91 | the line counter starts at 1 and goes up once per newline; a lexical error comes from the first failing flush, names the unclassifiable word and carries the line of the grapheme that triggered it |
| ScannerProperties.ConsumeKeepsTables | compiler/src/scanner/scanner.rs:61-97 | a flush keeps both tables free of repeats and the identifier table made of identifiers |
| ScannerProperties.ConsumedTokenResolves | compiler/src/scanner/scanner.rs:71-89 | the token a flush emits names a symbol of its kind in the tables after the flush |
| ScannerProperties.ConsumeKeepsWellFormed | compiler/src/scanner/scanner.rs:61-97 | a flush keeps the scanner's invariant: no repeats, and every token resolves |
| ScannerProperties.StepKeepsWellFormed | compiler/src/scanner/scanner.rs:99-130 | a step keeps the scanner's invariant |
| ScannerProperties.ScanKeepsWellFormed | compiler/src/scanner/scanner.rs:99-130 | a whole scan keeps the scanner's invariant |
| ScannerProperties.LexWellFormed | compiler/src/scanner/scanner.rs:54-133 | after a successful scan the tables hold no symbol twice, and every identifier and literal token carries an id naming a symbol of its kind |
| ScannerProperties.ScanWordParts | compiler/src/scanner/scanner.rs:123-125 | graphemes that are neither separators nor operators only accumulate in the word |
| ScannerProperties.StepBeforeWord | compiler/src/scanner/scanner.rs:106-122 | word graphemes after the input do not change any step inside it, the lookahead at its end included |
| ScannerProperties.ScanBeforeWord | compiler/src/scanner/scanner.rs:99-132 | scanning input followed by word graphemes ends as scanning the input ends, with those graphemes joined to the buffered word, or fails with the same error |
| ScannerProperties.TrailingWordDropped | compiler/src/scanner/scanner.rs:99-132 | a word still buffered when the input ends is neither classified nor emitted: after any input, trailing word graphemes leave the tokens and tables as they are and only extend the word, and an earlier error is reported unchanged |
| ScannerProperties.OnlyWordDropped | compiler/src/scanner/scanner.rs:99-132 | input made only of word graphemes scans to no tokens and no error |
| ScannerProperties.EqualityExample | compiler/src/scanner/scanner.rs:99-132 | `a == b` yields only `[Ident(1), Relational(Equal)]`; the trailing `b` is never emitted |
| ScannerProperties.AssignmentExample | compiler/src/scanner/scanner.rs:99-132 | `x = 1;` yields `[Ident(1), Assignment, Literal(1, I32), Semicolon]`, with `x` and the constant 1 interned |

## Left out

- Grapheme segmentation (`unicode_segmentation`) is not modelled. The scanner takes the graphemes as input.
- Loading the number and identifier state machines from `state-machine/*.json` (file I/O, `serde_json`, `lazy_static`) is not modelled.
- `StateMachine::is_accepted` is not part of this model. The two acceptance tests are parameters.
- The regex crate is not modelled. The four patterns are written as predicates.
- `Debug`/`Display` implementations, `SymbolTableIter` (modelled by `SymbolTables.Flatten`), the pretty-printing in `compiler/src/output/mod.rs` and the demo in `compiler/src/main.rs` are left out, because they are display only.
- The `Program` token and table accessors are left out, because they only return fields.
- `load_factor` is left out, because it is display only. It is an `f64`.
- `should_grow` compares `f64` values. The model uses exact arithmetic: `SymbolTables.SymbolTable.ShouldGrow` states the test over reals and computes it as `4*(len+1) > 3*slots`. The two agree with the correctly rounded `f64` test for every table with fewer than 2^52 slots.
- `hash_code() as usize` is taken on a 64-bit target, where it is the identity on `u64`.
- The serialized state machine's `HashSet`s are sequences in their iteration order. `Distinct(machine.states)` is the uniqueness a set guarantees.
- Utils.NextPrime: the search runs over unbounded naturals, so the panic when no prime lies below `usize::MAX` is not modelled.
- Utils.IsPrime: `i * i` is unbounded, so an overflow of `i * i` for `n` near `usize::MAX` is not modelled.
- Scanner.ParseI32: requires a digit string whose value fits in `i32`. The source panics on a non-digit and overflows on a larger value. Neither path is modelled.
- Scanner.FromSource: requires `NumbersFit(isNumber)`, meaning the number test accepts only digit strings whose value fits in `i32`, as `parse_i32` needs. The model covers only such number tests. The source's own number test accepts longer literals (`Scanner.NumberLiteralOverflows`), on which `parse_i32` overflows: a panic in a debug build, a wrapped value in a release build. Neither is modelled.
- Scanner.FromSource: takes graphemes rather than a `&str`.
- StateMachines.TryFrom: requires `Distinct(machine.states)`, because the source's `states` is a `HashSet`. The iteration order of that set, and so the state numbering, is the order of the given sequence.
- `Separators.Separator.TryParse` tests `Blank(input)` rather than `input.trim().is_empty()`. `Separators.TrimEmptyIffBlank` proves the two tests equal, with `trim` written out over Unicode `White_Space`.
- `compiler/src/symbol.rs` calls `utils::hash_string`, which no file of the repository defines. It is a parameter `hashString` of `Symbols.SymbolHashWith`, and the earlier table is modelled with any such function.
- The earlier `compiler/src/scanner/token.rs` declares a `Token` without an operator variant. It is transcribed as a datatype, and no scanner uses it.

## Findings

| source | as written | input that shows it | evidently intended | confidence | as-written member | corrected member |
|---|---|---|---|---|---|---|
| compiler/src/state_machine.rs:64-68 | a transition's symbol is looked up in `state_indexes`; `alphabet_indexes` (filled at line 53 with the state count) is never read | a two-state machine `start --"0"--> digit` with alphabet `{"0"}` is refused with `InvalidSymbol("0")` | look the symbol up in the alphabet, giving each symbol its alphabet index | not executed | StateMachines.DigitMachineRejected | StateMachines.IntendedResolvesAlphabet |
| compiler/src/symbols/symbol_table.rs:56 | `get` starts with `hash_code % self.slots()`, and `contains` calls `get` (line 72) | `contains` on a default table, which has no slots, divides by zero and panics | answer `None` and `false`, since a table without slots stores nothing | not executed | SymbolTables.SymbolTable.GetPanicsWithoutSlots | SymbolTables.SymbolTable.Contains |
| compiler/src/scanner/token.rs:33 | the arm `"" => ClosedParanthesis`, which the blank test above it makes unreachable | `")"` parses to `None` | `")" => ClosedParanthesis`, as the current table has it | not executed | LegacyTokens.ClosedParanthesisUnreachable | Separators.AcceptsExactly |
