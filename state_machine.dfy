/**
 * Construction of a state machine from its serialized form
 * (compiler/src/state_machine.rs, `TryFrom<SerializedStateMachine> for StateMachine`):
 * state names are numbered in iteration order, every transition is resolved to
 * indices and appended to its source state, and the initial and final states are
 * resolved last. The first name that does not resolve aborts the construction.
 *
 * The serialized sets are sequences in their iteration order. As the code is
 * written, a transition's symbol is looked up among the STATE names; the alphabet
 * index map is filled (with the current number of states for every symbol) and
 * never read. `Build` is parametrised by the map used for symbols so that the
 * as-written construction and the evidently intended one share one definition.
 */
module StateMachines {
  import opened Wrappers

  /** `SerializedTrans`. */
  datatype SerializedTrans = SerializedTrans(srcState: string, symbol: string, dstState: string)

  /** `SerializedStateMachine`, its `HashSet`s given as sequences in iteration order. */
  datatype SerializedStateMachine = SerializedStateMachine(
    states: seq<string>,
    alphabet: seq<string>,
    transitions: seq<SerializedTrans>,
    initialState: string,
    finalState: string)

  /** `Trans`: the `SymbolIndex` and the destination `StateIndex`. */
  datatype Trans = Trans(symbol: nat, dstState: nat)

  /** `State`: a name and its outgoing transitions. */
  datatype State = State(name: string, transitions: seq<Trans>)

  /** `StateMachine`. */
  datatype StateMachine = StateMachine(states: seq<State>, alphabet: seq<string>, initialState: nat, finalState: nat)

  /** `StateMachineDeserError`. */
  datatype StateMachineDeserError = InvalidState(name: string) | InvalidSymbol(symbol: string)

  predicate Distinct(names: seq<string>)
  {
    forall i, j :: 0 <= i < j < |names| ==> names[i] != names[j]
  }

  // ---------------------------------------------------------------------------
  // Specification
  // ---------------------------------------------------------------------------

  /**
   * Each name mapped to its position, as filled by inserting `(name, map.len())` for
   * the names in order (with distinct names the length is the position).
   */
  function PositionMap(names: seq<string>): (r: map<string, nat>)
    ensures forall n :: n in r <==> n in names
    ensures forall n :: n in r ==> r[n] < |names|
  {
    if names == [] then map[] else PositionMap(names[..|names| - 1])[names[|names| - 1] := |names| - 1]
  }

  /** With distinct names, the map sends each name to its position. */
  lemma {:induction false} PositionMapIndexes(names: seq<string>)
    requires Distinct(names)
    ensures forall i :: 0 <= i < |names| ==> PositionMap(names)[names[i]] == i
    ensures |PositionMap(names)| == |names|
  {
    if names != [] {
      var pre := names[..|names| - 1];
      assert Distinct(pre);
      PositionMapIndexes(pre);
      assert names[|names| - 1] !in pre;
    }
  }

  /** The states before any transition is attached: one per name, with no transitions. */
  function InitialStates(names: seq<string>): (r: seq<State>)
    ensures |r| == |names|
    ensures forall i :: 0 <= i < |r| ==> r[i] == State(names[i], [])
  {
    seq(|names|, i requires 0 <= i < |names| => State(names[i], []))
  }

  /** Every index in `m` is a valid position in `states`. */
  predicate IndexesBelow(m: map<string, nat>, n: nat)
  {
    forall k :: k in m ==> m[k] < n
  }

  /** `states[i]` with `t` appended to its transitions. */
  function Push(states: seq<State>, i: nat, t: Trans): (r: seq<State>)
    requires i < |states|
    ensures |r| == |states|
  {
    states[i := states[i].(transitions := states[i].transitions + [t])]
  }

  /**
   * The transition loop: resolve the source state, then the symbol (in `symbolIdx`),
   * then the destination state; the first failure is the result.
   */
  function Attach(states: seq<State>, ts: seq<SerializedTrans>, stateIdx: map<string, nat>, symbolIdx: map<string, nat>)
    : (r: Result<seq<State>, StateMachineDeserError>)
    requires IndexesBelow(stateIdx, |states|)
    ensures r.Ok? ==> |r.value| == |states|
    decreases |ts|
  {
    if ts == [] then Ok(states)
    else
      var t := ts[0];
      if t.srcState !in stateIdx then Err(InvalidState(t.srcState))
      else if t.symbol !in symbolIdx then Err(InvalidSymbol(t.symbol))
      else if t.dstState !in stateIdx then Err(InvalidState(t.dstState))
      else Attach(Push(states, stateIdx[t.srcState], Trans(symbolIdx[t.symbol], stateIdx[t.dstState])), ts[1..], stateIdx, symbolIdx)
  }

  /** The whole construction, resolving symbols in `symbolIdx`. */
  function Build(m: SerializedStateMachine, symbolIdx: map<string, nat>): Result<StateMachine, StateMachineDeserError>
  {
    var stateIdx := PositionMap(m.states);
    match Attach(InitialStates(m.states), m.transitions, stateIdx, symbolIdx)
    case Err(e) => Err(e)
    case Ok(states) =>
      if m.initialState !in stateIdx then Err(InvalidState(m.initialState))
      else if m.finalState !in stateIdx then Err(InvalidState(m.finalState))
      else Ok(StateMachine(states, m.alphabet, stateIdx[m.initialState], stateIdx[m.finalState]))
  }

  /** The construction as the code is written: symbols are looked up among the state names. */
  function AsWritten(m: SerializedStateMachine): Result<StateMachine, StateMachineDeserError>
  {
    Build(m, PositionMap(m.states))
  }

  /** The evidently intended construction: symbols are looked up in the alphabet. */
  function Intended(m: SerializedStateMachine): Result<StateMachine, StateMachineDeserError>
  {
    Build(m, PositionMap(m.alphabet))
  }

  // ---------------------------------------------------------------------------
  // The construction
  // ---------------------------------------------------------------------------

  /**
   * The alphabet pass: collects the symbols in order and fills `alphabet_indexes`, which
   * maps every symbol to `stateCount` (the code inserts `state_indexes.len()`).
   */
  method IndexAlphabet(symbols: seq<string>, stateCount: nat) returns (alphabet: seq<string>, alphabetIndexes: map<string, nat>)
    ensures alphabet == symbols
    ensures forall s :: s in alphabetIndexes <==> s in symbols
    ensures forall s :: s in alphabetIndexes ==> alphabetIndexes[s] == stateCount
  {
    alphabet, alphabetIndexes := [], map[];
    var i := 0;
    while i < |symbols|
      invariant 0 <= i <= |symbols| && alphabet == symbols[..i]
      invariant forall s :: s in alphabetIndexes <==> s in symbols[..i]
      invariant forall s :: s in alphabetIndexes ==> alphabetIndexes[s] == stateCount
    {
      alphabetIndexes := alphabetIndexes[symbols[i] := stateCount];
      alphabet := alphabet + [symbols[i]];
      i := i + 1;
    }
  }

  /** The states pass: each name is numbered with the number of names before it. */
  method NumberStates(names: seq<string>) returns (stateIndexes: map<string, nat>, states: seq<State>)
    requires Distinct(names)
    ensures stateIndexes == PositionMap(names) && states == InitialStates(names)
  {
    stateIndexes, states := map[], [];
    var i := 0;
    while i < |names|
      invariant 0 <= i <= |names|
      invariant stateIndexes == PositionMap(names[..i]) && |stateIndexes| == i
      invariant states == InitialStates(names[..i])
    {
      NumberStep(names, i);
      stateIndexes := stateIndexes[names[i] := |stateIndexes|];
      states := states + [State(names[i], [])];
      i := i + 1;
    }
    assert names[..i] == names;
  }

  /** Numbering one more name extends the map and the state list by that name. */
  lemma NumberStep(names: seq<string>, i: nat)
    requires Distinct(names) && i < |names|
    ensures |PositionMap(names[..i])| == i
    ensures PositionMap(names[..i + 1]) == PositionMap(names[..i])[names[i] := i]
    ensures InitialStates(names[..i + 1]) == InitialStates(names[..i]) + [State(names[i], [])]
  {
    var pre := names[..i];
    assert names[..i + 1][..i] == pre;
    assert Distinct(pre);
    PositionMapIndexes(pre);
    InitialStep(names[..i + 1]);
  }

  lemma InitialStep(names: seq<string>)
    requires names != []
    ensures InitialStates(names) == InitialStates(names[..|names| - 1]) + [State(names[|names| - 1], [])]
  {
  }

  /**
   * The transitions pass: each transition's source, symbol and destination are resolved in
   * turn and the transition is appended to its source state; the first failure is returned.
   */
  method AttachTransitions(states0: seq<State>, transitions: seq<SerializedTrans>,
                           stateIndexes: map<string, nat>, symbolIndexes: map<string, nat>)
    returns (r: Result<seq<State>, StateMachineDeserError>)
    requires IndexesBelow(stateIndexes, |states0|)
    ensures r == Attach(states0, transitions, stateIndexes, symbolIndexes)
  {
    var states := states0;
    var j := 0;
    while j < |transitions|
      invariant 0 <= j <= |transitions| && |states| == |states0|
      invariant Attach(states, transitions[j..], stateIndexes, symbolIndexes)
             == Attach(states0, transitions, stateIndexes, symbolIndexes)
    {
      var trans := transitions[j];
      assert transitions[j..][0] == trans && transitions[j..][1..] == transitions[j + 1..];
      if trans.srcState !in stateIndexes {
        return Err(InvalidState(trans.srcState));
      }
      var src := stateIndexes[trans.srcState];
      if trans.symbol !in symbolIndexes {
        return Err(InvalidSymbol(trans.symbol));
      }
      var symbol := symbolIndexes[trans.symbol];
      if trans.dstState !in stateIndexes {
        return Err(InvalidState(trans.dstState));
      }
      var dst := stateIndexes[trans.dstState];
      states := states[src := State(states[src].name, states[src].transitions + [Trans(symbol, dst)])];
      j := j + 1;
    }
    assert transitions[j..] == [];
    r := Ok(states);
  }

  /**
   * `StateMachine::try_from`: the symbol of every transition is looked up in the state
   * index map, so the result is the as-written construction.
   */
  method TryFrom(machine: SerializedStateMachine) returns (r: Result<StateMachine, StateMachineDeserError>)
    requires Distinct(machine.states)
    ensures r == AsWritten(machine)
  {
    var stateIndexes, states := NumberStates(machine.states);
    var alphabet, alphabetIndexes := IndexAlphabet(machine.alphabet, |stateIndexes|);
    var attached := AttachTransitions(states, machine.transitions, stateIndexes, stateIndexes);
    if attached.Err? {
      return Err(attached.error);
    }
    if machine.initialState !in stateIndexes {
      return Err(InvalidState(machine.initialState));
    }
    var initialState := stateIndexes[machine.initialState];
    if machine.finalState !in stateIndexes {
      return Err(InvalidState(machine.finalState));
    }
    var finalState := stateIndexes[machine.finalState];
    r := Ok(StateMachine(attached.value, alphabet, initialState, finalState));
  }

  // ---------------------------------------------------------------------------
  // Properties of the construction
  // ---------------------------------------------------------------------------

  /** The error, if any, of resolving one transition: source, then symbol, then destination. */
  function TransError(t: SerializedTrans, stateIdx: map<string, nat>, symbolIdx: map<string, nat>): Option<StateMachineDeserError>
  {
    if t.srcState !in stateIdx then Some(InvalidState(t.srcState))
    else if t.symbol !in symbolIdx then Some(InvalidSymbol(t.symbol))
    else if t.dstState !in stateIdx then Some(InvalidState(t.dstState))
    else None
  }

  /** Every transition of `ts` resolves. */
  predicate AllResolve(ts: seq<SerializedTrans>, stateIdx: map<string, nat>, symbolIdx: map<string, nat>)
  {
    forall i :: 0 <= i < |ts| ==> TransError(ts[i], stateIdx, symbolIdx) == None
  }

  /** The resolving transitions of `ts` that leave state `k`, resolved, in serialized order. */
  function Outgoing(ts: seq<SerializedTrans>, stateIdx: map<string, nat>, symbolIdx: map<string, nat>, k: nat): seq<Trans>
  {
    if ts == [] then []
    else
      var t := ts[0];
      (if TransError(t, stateIdx, symbolIdx) == None && stateIdx[t.srcState] == k
       then [Trans(symbolIdx[t.symbol], stateIdx[t.dstState])] else [])
      + Outgoing(ts[1..], stateIdx, symbolIdx, k)
  }

  /** The total number of transitions attached to `states`. */
  function TransitionCount(states: seq<State>): nat
  {
    if states == [] then 0 else TransitionCount(states[..|states| - 1]) + |states[|states| - 1].transitions|
  }

  lemma {:induction false} PushCount(states: seq<State>, i: nat, t: Trans)
    requires i < |states|
    ensures TransitionCount(Push(states, i, t)) == TransitionCount(states) + 1
  {
    var n := |states|;
    var r := Push(states, i, t);
    if i < n - 1 {
      assert r[..n - 1] == Push(states[..n - 1], i, t);
      PushCount(states[..n - 1], i, t);
    } else {
      assert r[..n - 1] == states[..n - 1];
    }
  }

  lemma {:induction false} InitialCount(names: seq<string>)
    ensures TransitionCount(InitialStates(names)) == 0
  {
    if names != [] {
      assert InitialStates(names)[..|names| - 1] == InitialStates(names[..|names| - 1]);
      InitialCount(names[..|names| - 1]);
    }
  }

  /**
   * All or nothing, and the first failure wins: the transition pass succeeds iff every
   * transition resolves, and otherwise fails with the error of the first one that does not.
   */
  lemma {:induction false} AttachOutcome(states: seq<State>, ts: seq<SerializedTrans>, stateIdx: map<string, nat>, symbolIdx: map<string, nat>)
    requires IndexesBelow(stateIdx, |states|)
    ensures Attach(states, ts, stateIdx, symbolIdx).Ok? <==> AllResolve(ts, stateIdx, symbolIdx)
    ensures Attach(states, ts, stateIdx, symbolIdx).Err? ==>
      exists j :: 0 <= j < |ts| && (forall i :: 0 <= i < j ==> TransError(ts[i], stateIdx, symbolIdx) == None) &&
        TransError(ts[j], stateIdx, symbolIdx) == Some(Attach(states, ts, stateIdx, symbolIdx).error)
    decreases |ts|
  {
    if ts != [] {
      var t := ts[0];
      if TransError(t, stateIdx, symbolIdx) == None {
        var next := Push(states, stateIdx[t.srcState], Trans(symbolIdx[t.symbol], stateIdx[t.dstState]));
        AttachOutcome(next, ts[1..], stateIdx, symbolIdx);
        if Attach(states, ts, stateIdx, symbolIdx).Err? {
          var j :| 0 <= j < |ts[1..]| && (forall i :: 0 <= i < j ==> TransError(ts[1..][i], stateIdx, symbolIdx) == None) &&
            TransError(ts[1..][j], stateIdx, symbolIdx) == Some(Attach(states, ts, stateIdx, symbolIdx).error);
          assert forall i :: 0 <= i < j + 1 ==> TransError(ts[i], stateIdx, symbolIdx) == None by {
            forall i | 0 <= i < j + 1
              ensures TransError(ts[i], stateIdx, symbolIdx) == None
            {
              if i > 0 {
                assert ts[i] == ts[1..][i - 1];
              }
            }
          }
          assert ts[j + 1] == ts[1..][j];
        }
      }
    }
  }

  /**
   * On success state `k` keeps its name and gains exactly its outgoing transitions, in
   * serialized order.
   */
  lemma {:induction false} AttachState(states: seq<State>, ts: seq<SerializedTrans>,
                                       stateIdx: map<string, nat>, symbolIdx: map<string, nat>, k: nat)
    requires IndexesBelow(stateIdx, |states|) && k < |states|
    requires AllResolve(ts, stateIdx, symbolIdx)
    ensures Attach(states, ts, stateIdx, symbolIdx).Ok?
    ensures Attach(states, ts, stateIdx, symbolIdx).value[k]
         == State(states[k].name, states[k].transitions + Outgoing(ts, stateIdx, symbolIdx, k))
    decreases |ts|
  {
    if ts == [] {
      assert states[k].transitions + [] == states[k].transitions;
    } else {
      var t := ts[0];
      var s := stateIdx[t.srcState];
      var tr := Trans(symbolIdx[t.symbol], stateIdx[t.dstState]);
      var next := Push(states, s, tr);
      assert Attach(states, ts, stateIdx, symbolIdx) == Attach(next, ts[1..], stateIdx, symbolIdx);
      var out := Outgoing(ts[1..], stateIdx, symbolIdx, k);
      assert Outgoing(ts, stateIdx, symbolIdx, k) == (if s == k then [tr] else []) + out;
      AttachState(next, ts[1..], stateIdx, symbolIdx, k);
      if k == s {
        assert next[k].transitions == states[k].transitions + [tr];
        assert states[k].transitions + [tr] + out == states[k].transitions + ([tr] + out);
      } else {
        assert next[k] == states[k];
      }
    }
  }

  /** On success one transition is attached per serialized transition. */
  lemma {:induction false} AttachCount(states: seq<State>, ts: seq<SerializedTrans>,
                                       stateIdx: map<string, nat>, symbolIdx: map<string, nat>)
    requires IndexesBelow(stateIdx, |states|)
    requires Attach(states, ts, stateIdx, symbolIdx).Ok?
    ensures TransitionCount(Attach(states, ts, stateIdx, symbolIdx).value) == TransitionCount(states) + |ts|
    decreases |ts|
  {
    if ts != [] {
      var t := ts[0];
      var s := stateIdx[t.srcState];
      var tr := Trans(symbolIdx[t.symbol], stateIdx[t.dstState]);
      AttachCount(Push(states, s, tr), ts[1..], stateIdx, symbolIdx);
      PushCount(states, s, tr);
    }
  }

  /**
   * The construction succeeds, for any symbol map, iff every transition resolves and the
   * initial and final states are declared. It fails with the error of the first transition
   * that does not resolve; when all resolve, with `InvalidState` naming the undeclared
   * initial state, or else the undeclared final state.
   */
  lemma BuildSucceeds(m: SerializedStateMachine, symbolIdx: map<string, nat>)
    ensures Build(m, symbolIdx).Ok? <==>
      AllResolve(m.transitions, PositionMap(m.states), symbolIdx) &&
      m.initialState in m.states && m.finalState in m.states
    ensures !AllResolve(m.transitions, PositionMap(m.states), symbolIdx) ==>
      exists j :: 0 <= j < |m.transitions| &&
        (forall i :: 0 <= i < j ==> TransError(m.transitions[i], PositionMap(m.states), symbolIdx) == None) &&
        TransError(m.transitions[j], PositionMap(m.states), symbolIdx) == Some(Build(m, symbolIdx).error)
    ensures AllResolve(m.transitions, PositionMap(m.states), symbolIdx) && m.initialState !in m.states ==>
      Build(m, symbolIdx) == Err(InvalidState(m.initialState))
    ensures AllResolve(m.transitions, PositionMap(m.states), symbolIdx) && m.initialState in m.states && m.finalState !in m.states ==>
      Build(m, symbolIdx) == Err(InvalidState(m.finalState))
  {
    AttachOutcome(InitialStates(m.states), m.transitions, PositionMap(m.states), symbolIdx);
  }

  /**
   * A successful machine has one state per declared name, in iteration order, each holding
   * exactly its outgoing transitions in serialized order; every serialized transition is
   * attached once; the initial and final indices name the declared initial and final states.
   */
  lemma BuildShape(m: SerializedStateMachine, symbolIdx: map<string, nat>)
    requires Distinct(m.states) && Build(m, symbolIdx).Ok?
    ensures var sm := Build(m, symbolIdx).value;
      && |sm.states| == |m.states| && sm.alphabet == m.alphabet
      && (forall k :: 0 <= k < |sm.states| ==>
            sm.states[k].name == m.states[k] &&
            sm.states[k].transitions == Outgoing(m.transitions, PositionMap(m.states), symbolIdx, k))
      && TransitionCount(sm.states) == |m.transitions|
      && sm.initialState < |sm.states| && m.states[sm.initialState] == m.initialState
      && sm.finalState < |sm.states| && m.states[sm.finalState] == m.finalState
  {
    var stateIdx := PositionMap(m.states);
    var init := InitialStates(m.states);
    BuildSucceeds(m, symbolIdx);
    PositionMapIndexes(m.states);
    AttachCount(init, m.transitions, stateIdx, symbolIdx);
    InitialCount(m.states);
    var sm := Build(m, symbolIdx).value;
    forall k | 0 <= k < |sm.states|
      ensures sm.states[k].name == m.states[k]
      ensures sm.states[k].transitions == Outgoing(m.transitions, stateIdx, symbolIdx, k)
    {
      AttachState(init, m.transitions, stateIdx, symbolIdx, k);
    }
    assert m.states[sm.initialState] == m.initialState by {
      var i :| 0 <= i < |m.states| && m.states[i] == m.initialState;
    }
    assert m.states[sm.finalState] == m.finalState by {
      var i :| 0 <= i < |m.states| && m.states[i] == m.finalState;
    }
  }

  /** Every transition of a successful machine leads to one of its states. */
  lemma DestinationsValid(m: SerializedStateMachine, symbolIdx: map<string, nat>)
    requires Distinct(m.states) && Build(m, symbolIdx).Ok?
    ensures var sm := Build(m, symbolIdx).value;
      forall k, x :: 0 <= k < |sm.states| && x in sm.states[k].transitions ==> x.dstState < |sm.states|
  {
    BuildSucceeds(m, symbolIdx);
    BuildShape(m, symbolIdx);
    var sm := Build(m, symbolIdx).value;
    forall k, x | 0 <= k < |sm.states| && x in sm.states[k].transitions
      ensures x.dstState < |sm.states|
    {
      OutgoingBounded(m.transitions, PositionMap(m.states), symbolIdx, k, |sm.states|);
    }
  }

  lemma {:induction false} OutgoingBounded(ts: seq<SerializedTrans>, stateIdx: map<string, nat>, symbolIdx: map<string, nat>, k: nat, n: nat)
    requires AllResolve(ts, stateIdx, symbolIdx)
    requires IndexesBelow(stateIdx, n)
    ensures forall x :: x in Outgoing(ts, stateIdx, symbolIdx, k) ==> x.dstState < n
  {
    if ts != [] {
      OutgoingBounded(ts[1..], stateIdx, symbolIdx, k, n);
    }
  }

  /**
   * As written, a transition symbol resolves only when it is a state name: on success every
   * transition's symbol is a state name and every attached symbol index is a state index.
   */
  lemma SymbolsResolveAmongStates(m: SerializedStateMachine)
    requires Distinct(m.states) && AsWritten(m).Ok?
    ensures forall i :: 0 <= i < |m.transitions| ==> m.transitions[i].symbol in m.states
    ensures forall k, x :: 0 <= k < |AsWritten(m).value.states| && x in AsWritten(m).value.states[k].transitions ==>
      x.symbol < |m.states|
  {
    var stateIdx := PositionMap(m.states);
    BuildSucceeds(m, stateIdx);
    BuildShape(m, stateIdx);
    forall i | 0 <= i < |m.transitions|
      ensures m.transitions[i].symbol in m.states
    {
      assert TransError(m.transitions[i], stateIdx, stateIdx) == None;
    }
    forall k, x | 0 <= k < |AsWritten(m).value.states| && x in AsWritten(m).value.states[k].transitions
      ensures x.symbol < |m.states|
    {
      OutgoingSymbolsBounded(m.transitions, stateIdx, stateIdx, k, |m.states|);
    }
  }

  lemma {:induction false} OutgoingSymbolsBounded(ts: seq<SerializedTrans>, stateIdx: map<string, nat>, symbolIdx: map<string, nat>, k: nat, n: nat)
    requires AllResolve(ts, stateIdx, symbolIdx)
    requires IndexesBelow(symbolIdx, n)
    ensures forall x :: x in Outgoing(ts, stateIdx, symbolIdx, k) ==> x.symbol < n
  {
    if ts != [] {
      OutgoingSymbolsBounded(ts[1..], stateIdx, symbolIdx, k, n);
    }
  }

  /**
   * The first transition whose symbol is an alphabet symbol but not a state name makes
   * the as-written construction fail with `InvalidSymbol`, when everything before it
   * resolves and its source state is declared.
   */
  lemma AlphabetSymbolRejected(m: SerializedStateMachine, j: nat)
    requires Distinct(m.states)
    requires j < |m.transitions|
    requires forall i :: 0 <= i < j ==> TransError(m.transitions[i], PositionMap(m.states), PositionMap(m.states)) == None
    requires m.transitions[j].srcState in m.states && m.transitions[j].symbol !in m.states
    ensures AsWritten(m) == Err(InvalidSymbol(m.transitions[j].symbol))
  {
    var stateIdx := PositionMap(m.states);
    AttachPrefixFails(InitialStates(m.states), m.transitions, stateIdx, stateIdx, j);
  }

  /** A pass whose first `j` transitions resolve and whose `j`-th fails ends with that error. */
  lemma {:induction false} AttachPrefixFails(states: seq<State>, ts: seq<SerializedTrans>,
                                             stateIdx: map<string, nat>, symbolIdx: map<string, nat>, j: nat)
    requires IndexesBelow(stateIdx, |states|)
    requires j < |ts| && TransError(ts[j], stateIdx, symbolIdx).Some?
    requires forall i :: 0 <= i < j ==> TransError(ts[i], stateIdx, symbolIdx) == None
    ensures Attach(states, ts, stateIdx, symbolIdx) == Err(TransError(ts[j], stateIdx, symbolIdx).value)
    decreases j
  {
    if j > 0 {
      var t := ts[0];
      assert TransError(ts[0], stateIdx, symbolIdx) == None;
      var next := Push(states, stateIdx[t.srcState], Trans(symbolIdx[t.symbol], stateIdx[t.dstState]));
      assert forall i :: 0 <= i < j - 1 ==> ts[1..][i] == ts[i + 1];
      AttachPrefixFails(next, ts[1..], stateIdx, symbolIdx, j - 1);
    }
  }

  // ---------------------------------------------------------------------------
  // The alphabet lookup, as written and as intended
  // ---------------------------------------------------------------------------

  /** A two-state digit recogniser: one transition on the symbol "0". */
  function DigitMachine(): SerializedStateMachine
  {
    SerializedStateMachine(["start", "digit"], ["0"], [SerializedTrans("start", "0", "digit")], "start", "digit")
  }

  /** As written, the digit recogniser is refused: "0" is an alphabet symbol, not a state. */
  lemma DigitMachineRejected()
    ensures AsWritten(DigitMachine()) == Err(InvalidSymbol("0"))
  {
    var m := DigitMachine();
    assert Distinct(m.states);
    assert "0" !in m.states;
    AlphabetSymbolRejected(m, 0);
  }

  /**
   * With the symbol looked up in the alphabet, a transition resolves iff its symbol is
   * declared in the alphabet; each state then holds its outgoing transitions with the
   * symbol given as its alphabet index, and that index names the symbol.
   */
  lemma IntendedResolvesAlphabet(m: SerializedStateMachine)
    requires Distinct(m.states) && Distinct(m.alphabet)
    ensures Intended(m).Ok? <==>
      (forall t :: t in m.transitions ==>
         t.srcState in m.states && t.symbol in m.alphabet && t.dstState in m.states) &&
      m.initialState in m.states && m.finalState in m.states
    ensures Intended(m).Ok? ==>
      forall k, x :: 0 <= k < |Intended(m).value.states| && x in Intended(m).value.states[k].transitions ==>
        x.symbol < |m.alphabet|
    ensures Intended(m).Ok? ==>
      forall k :: 0 <= k < |Intended(m).value.states| ==>
        Intended(m).value.states[k].transitions == Outgoing(m.transitions, PositionMap(m.states), PositionMap(m.alphabet), k)
    ensures forall t :: t in m.transitions && t.symbol in m.alphabet ==>
      m.alphabet[PositionMap(m.alphabet)[t.symbol]] == t.symbol
  {
    PositionMapNames(m.alphabet);
    var stateIdx, symbolIdx := PositionMap(m.states), PositionMap(m.alphabet);
    BuildSucceeds(m, symbolIdx);
    if AllResolve(m.transitions, stateIdx, symbolIdx) {
      forall t | t in m.transitions
        ensures t.srcState in m.states && t.symbol in m.alphabet && t.dstState in m.states
      {
        var i :| 0 <= i < |m.transitions| && m.transitions[i] == t;
        assert TransError(m.transitions[i], stateIdx, symbolIdx) == None;
      }
    }
    if Intended(m).Ok? {
      BuildShape(m, symbolIdx);
      forall k, x | 0 <= k < |Intended(m).value.states| && x in Intended(m).value.states[k].transitions
        ensures x.symbol < |m.alphabet|
      {
        OutgoingSymbolsBounded(m.transitions, stateIdx, symbolIdx, k, |m.alphabet|);
      }
    }
  }

  /** With distinct names, the position a name maps to holds that name. */
  lemma PositionMapNames(names: seq<string>)
    requires Distinct(names)
    ensures forall n :: n in names ==> names[PositionMap(names)[n]] == n
  {
    PositionMapIndexes(names);
    forall n | n in names
      ensures names[PositionMap(names)[n]] == n
    {
      var i :| 0 <= i < |names| && names[i] == n;
    }
  }

  /** As intended, the digit recogniser is built: one transition from "start" to "digit" on symbol 0. */
  lemma DigitMachineAccepted()
    ensures Intended(DigitMachine()).Ok?
    ensures Intended(DigitMachine()).value.states == [State("start", [Trans(0, 1)]), State("digit", [])]
  {
    var m := DigitMachine();
    var stateIdx, symbolIdx := PositionMap(m.states), PositionMap(m.alphabet);
    assert stateIdx == map["start" := 0, "digit" := 1];
    assert symbolIdx == map["0" := 0];
    var init := InitialStates(m.states);
    assert init == [State("start", []), State("digit", [])];
    var pushed := Push(init, 0, Trans(0, 1));
    assert [] + [Trans(0, 1)] == [Trans(0, 1)];
    assert pushed == [State("start", [Trans(0, 1)]), State("digit", [])];
    assert m.transitions[1..] == [];
    assert Attach(init, m.transitions, stateIdx, symbolIdx) == Attach(pushed, [], stateIdx, symbolIdx);
  }
}
