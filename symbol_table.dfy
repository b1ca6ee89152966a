/**
 * The open-addressing symbol table (compiler/src/symbols/symbol_table.rs and its
 * earlier copy compiler/src/symbol_table.rs): a vector of optional `(symbol, id)`
 * slots with linear probing, which deduplicates symbols, hands out ids 1, 2, 3, ...
 * in first-seen order and grows before an insert that would push the load above 3/4.
 *
 * The two source files hold the same algorithm and differ only in the hash function
 * of their `Symbol` type and in which accessors are public, so one class models both:
 * its `hash` is `Symbols.HashCode` for the current table and the earlier hash with an
 * arbitrary `hash_string` for the earlier table.
 */
module SymbolTables {
  import opened Wrappers
  import opened Utils
  import opened Symbols

  /** A symbol and its id. */
  type Entry = (Symbol, nat)

  /** A slot of the table. */
  type SymbolSlot = Option<Entry>

  /** The slot content for `s` stored with `id`. */
  function Occupant(s: Symbol, id: nat): SymbolSlot
  {
    Some((s, id))
  }

  // ---------------------------------------------------------------------------
  // Probe sequence
  // ---------------------------------------------------------------------------

  /** The slot visited `k` steps after starting at `h`: `(h + k) % n`, written without `%`. */
  function Probe(h: nat, k: nat, n: nat): (i: nat)
    requires h < n && k < n
    ensures i < n
  {
    if h + k < n then h + k else h + k - n
  }

  /** How many `+1 mod n` steps lead from `h` to `i`. */
  function Dist(h: nat, i: nat, n: nat): (d: nat)
    requires h < n && i < n
    ensures d < n && Probe(h, d, n) == i
  {
    if h <= i then i - h else i + n - h
  }

  lemma ProbeStep(h: nat, k: nat, n: nat)
    requires h < n && k + 1 < n
    ensures (Probe(h, k, n) + 1) % n == Probe(h, k + 1, n)
  {
    var i := Probe(h, k, n);
    if i + 1 < n {
      DivUnique(i + 1, n, 0, i + 1);
    } else {
      DivUnique(i + 1, n, 1, 0);
    }
  }

  lemma DistOfProbe(h: nat, k: nat, n: nat)
    requires h < n && k < n
    ensures Dist(h, Probe(h, k, n), n) == k
  {
  }

  // ---------------------------------------------------------------------------
  // The table invariant, over the slot vector and the ghost abstraction
  // ---------------------------------------------------------------------------

  /** Where a probe for `s` starts in a vector of `n` slots: `hash_code % slots`. */
  function Home(hash: Symbol -> u64, s: Symbol, n: nat): (h: nat)
    requires n > 0
    ensures h < n
  {
    hash(s) as int % n
  }

  /**
   * The home slot as `insert` and `get` compute it, `hash_code as usize % slots`, with the
   * panic of a remainder by zero (a table with no slots) as `None`.
   */
  function HomeAsWritten(hash: Symbol -> u64, s: Symbol, n: nat): (r: Option<nat>)
    ensures r.None? <==> n == 0
    ensures r.Some? ==> r.value < n
  {
    if n == 0 then None else Some(hash(s) as int % n)
  }

  /** The load test `a / n > 0.75` of `SYMBOL_TABLE_MAX_LOAD_FACTOR`, in integers. */
  lemma OverLoadFactor(a: nat, n: nat)
    requires n > 0
    ensures a as real / n as real > 0.75 <==> 4 * a > 3 * n
  {
    var q := a as real / n as real;
    assert q * n as real == a as real;
    var d := q - 0.75;
    assert d * n as real == a as real - 0.75 * n as real;
    if d > 0.0 {
      assert d * n as real > 0.0;
    } else {
      assert d * n as real <= 0.0;
    }
  }

  ghost predicate Distinct(order: seq<Symbol>)
  {
    forall a, b :: 0 <= a < b < |order| ==> order[a] != order[b]
  }

  /** The indexes of the occupied slots. */
  ghost function Occupied(vals: seq<SymbolSlot>): set<nat>
  {
    set i: nat | i < |vals| && vals[i].Some?
  }

  /** The set `{0, ..., n - 1}`. */
  ghost function Below(n: nat): (r: set<nat>)
    ensures forall k: nat :: k in r <==> k < n
    ensures |r| == n
  {
    if n == 0 then {} else Below(n - 1) + {n - 1}
  }

  /** The set of ids `{1, ..., n}`. */
  ghost function IdsUpTo(n: nat): (r: set<nat>)
    ensures forall id: nat :: id in r <==> 1 <= id <= n
    ensures |r| == n
  {
    if n == 0 then {} else IdsUpTo(n - 1) + {n}
  }

  /** No two occupied slots hold the same id. */
  ghost predicate UniqueIds(vals: seq<SymbolSlot>)
  {
    forall i, i' ::
      0 <= i < |vals| && 0 <= i' < |vals| && vals[i].Some? && vals[i'].Some? && vals[i].value.1 == vals[i'].value.1
      ==> i == i'
  }

  /**
   * The ids in `placed` are stored: `slot[id]` holds `(order[id - 1], id)`; every occupied
   * slot holds one of them, and no id twice. (`slot[0]` is unused, so that ids index
   * `slot` directly.)
   */
  ghost predicate HoldsPlaced(vals: seq<SymbolSlot>, order: seq<Symbol>, slot: seq<nat>, placed: set<nat>)
  {
    && |slot| == |order| + 1
    && (forall id {:trigger slot[id]} :: id in placed ==>
          1 <= id <= |order| && slot[id] < |vals| && vals[slot[id]] == Occupant(order[id - 1], id))
    && (forall i :: 0 <= i < |vals| && vals[i].Some? ==> 1 <= vals[i].value.1 <= |order| && vals[i].value.1 in placed)
    && UniqueIds(vals)
  }

  /** Every id `1..|order|` is stored once, the symbol with id `id` being `order[id - 1]`. */
  ghost predicate Holds(vals: seq<SymbolSlot>, order: seq<Symbol>, slot: seq<nat>)
  {
    && |slot| == |order| + 1
    && (forall id :: 1 <= id <= |order| ==> slot[id] < |vals| && vals[slot[id]] == Occupant(order[id - 1], id))
    && (forall i :: 0 <= i < |vals| && vals[i].Some? ==> 1 <= vals[i].value.1 <= |order|)
    && UniqueIds(vals)
  }

  /** The slot holding an id is the one `slot` names for it. */
  lemma SlotOfId(vals: seq<SymbolSlot>, order: seq<Symbol>, slot: seq<nat>, i: nat)
    requires Holds(vals, order, slot) && i < |vals| && vals[i].Some?
    ensures 1 <= vals[i].value.1 <= |order| && slot[vals[i].value.1] == i
    ensures vals[i] == Occupant(order[vals[i].value.1 - 1], vals[i].value.1)
  {
    assert vals[slot[vals[i].value.1]].Some?;
  }

  /** The occupied slot `i` is reached from its symbol's home slot without crossing an empty slot. */
  ghost predicate OnProbePath(vals: seq<SymbolSlot>, hash: Symbol -> u64, i: nat)
    requires i < |vals| && vals[i].Some?
  {
    var n := |vals|;
    var h := Home(hash, vals[i].value.0, n);
    forall k :: 0 <= k < Dist(h, i, n) ==> vals[Probe(h, k, n)].Some?
  }

  /** The lookup invariant of linear probing. */
  ghost predicate Reachable(vals: seq<SymbolSlot>, hash: Symbol -> u64)
  {
    forall i: nat :: i < |vals| && vals[i].Some? ==> OnProbePath(vals, hash, i)
  }

  /**
   * The table invariant: `len` distinct symbols in first-seen order, id `k + 1` for
   * `order[k]`, each reachable along its probe path, exactly `len` occupied slots and
   * a load of at most 3/4.
   */
  ghost predicate TableInv(vals: seq<SymbolSlot>, len: nat, order: seq<Symbol>, slot: seq<nat>, hash: Symbol -> u64)
  {
    && len == |order|
    && Distinct(order)
    && Holds(vals, order, slot)
    && Reachable(vals, hash)
    && |Occupied(vals)| == len
    && 4 * len <= 3 * |vals|
  }

  // ---------------------------------------------------------------------------
  // Lemmas about the invariant
  // ---------------------------------------------------------------------------

  /** If a full round of probes met only occupied slots, every slot is occupied. */
  lemma AllProbesOccupied(vals: seq<SymbolSlot>, h: nat)
    requires h < |vals|
    requires forall j :: 0 <= j < |vals| ==> vals[Probe(h, j, |vals|)].Some?
    ensures |Occupied(vals)| == |vals|
  {
    var n := |vals|;
    forall e: nat | e < n
      ensures vals[e].Some?
    {
      assert Probe(h, Dist(h, e, n), n) == e;
    }
    assert Occupied(vals) == Below(n);
  }

  /**
   * A probe for `s` that passed `k` slots holding other symbols and then met an empty
   * slot proves that `s` is not stored.
   */
  lemma AbsentWhenEmptyReached(vals: seq<SymbolSlot>, len: nat, order: seq<Symbol>, slot: seq<nat>,
                               hash: Symbol -> u64, s: Symbol, k: nat)
    requires TableInv(vals, len, order, slot, hash) && |vals| > 0
    requires k < |vals|
    requires vals[Probe(Home(hash, s, |vals|), k, |vals|)].None?
    requires forall j :: 0 <= j < k ==>
      vals[Probe(Home(hash, s, |vals|), j, |vals|)].Some? && vals[Probe(Home(hash, s, |vals|), j, |vals|)].value.0 != s
    ensures s !in order
  {
    if s in order {
      var m :| 0 <= m < |order| && order[m] == s;
      ProbeMeetsStored(vals, len, order, slot, hash, s, m, k);
    }
  }

  /**
   * A probe for the stored `order[m]` that has so far met only other symbols is still on
   * occupied slots: the slot holding `order[m]` lies further along the same probe path.
   */
  lemma ProbeMeetsStored(vals: seq<SymbolSlot>, len: nat, order: seq<Symbol>, slot: seq<nat>,
                         hash: Symbol -> u64, s: Symbol, m: nat, k: nat)
    requires TableInv(vals, len, order, slot, hash) && |vals| > 0
    requires m < |order| && order[m] == s && k < |vals|
    requires forall j :: 0 <= j < k ==>
      vals[Probe(Home(hash, s, |vals|), j, |vals|)].Some? && vals[Probe(Home(hash, s, |vals|), j, |vals|)].value.0 != s
    ensures vals[Probe(Home(hash, s, |vals|), k, |vals|)].Some?
  {
    var n := |vals|;
    var h := Home(hash, s, n);
    var p := slot[m + 1];
    assert vals[p] == Occupant(s, m + 1);
    assert OnProbePath(vals, hash, p);
    var d := Dist(h, p, n);
    if k < d {
      assert vals[Probe(h, k, n)].Some?;
    }
  }

  /** Storing a new symbol at the empty slot its probe reached keeps the invariant. */
  lemma InsertKeepsInv(vals: seq<SymbolSlot>, len: nat, order: seq<Symbol>, slot: seq<nat>,
                       hash: Symbol -> u64, s: Symbol, k: nat)
    requires TableInv(vals, len, order, slot, hash) && |vals| > 0
    requires 4 * (len + 1) <= 3 * |vals|
    requires s !in order
    requires k < |vals|
    requires vals[Probe(Home(hash, s, |vals|), k, |vals|)].None?
    requires forall j :: 0 <= j < k ==> vals[Probe(Home(hash, s, |vals|), j, |vals|)].Some?
    ensures var i := Probe(Home(hash, s, |vals|), k, |vals|);
      TableInv(vals[i := Occupant(s, len + 1)], len + 1, order + [s], slot + [i], hash)
  {
    var n := |vals|;
    var h := Home(hash, s, n);
    var i := Probe(h, k, n);
    var vals', order', slot' := vals[i := Occupant(s, len + 1)], order + [s], slot + [i];
    forall a, b | 0 <= a < b < |order'|
      ensures order'[a] != order'[b]
    {
      if b == |order| {
        assert order'[a] == order[a];
      }
    }
    forall id | 1 <= id <= |order'|
      ensures slot'[id] < |vals'| && vals'[slot'[id]] == Occupant(order'[id - 1], id)
    {
      if id <= |order| {
        assert vals[slot[id]].Some?;
      }
    }
    PlaceKeepsReachable(vals, hash, s, len + 1, i, k);
    FillOccupies(vals, i, Occupant(s, len + 1));
  }

  /** Placing a carried-over entry in the grown vector keeps the partial invariant of `grow`. */
  lemma PlaceKeepsInv(vals: seq<SymbolSlot>, order: seq<Symbol>, slot: seq<nat>, placed: set<nat>,
                      hash: Symbol -> u64, s: Symbol, m: nat, i: nat, k: nat)
    requires |vals| > 0 && HoldsPlaced(vals, order, slot, placed) && Reachable(vals, hash)
    requires |Occupied(vals)| == |placed|
    requires 1 <= m <= |order| && m !in placed && s == order[m - 1]
    requires k < |vals| && i == Probe(Home(hash, s, |vals|), k, |vals|) && vals[i].None?
    requires forall j :: 0 <= j < k ==> vals[Probe(Home(hash, s, |vals|), j, |vals|)].Some?
    ensures HoldsPlaced(vals[i := Occupant(s, m)], order, slot[m := i], placed + {m})
    ensures Reachable(vals[i := Occupant(s, m)], hash)
    ensures |Occupied(vals[i := Occupant(s, m)])| == |placed + {m}|
  {
    PlaceKeepsHolds(vals, order, slot, placed, m, i);
    PlaceKeepsReachable(vals, hash, s, m, i, k);
    FillOccupies(vals, i, Occupant(s, m));
  }

  lemma AllPlaced(vals: seq<SymbolSlot>, order: seq<Symbol>, slot: seq<nat>, placed: set<nat>)
    requires HoldsPlaced(vals, order, slot, placed) && placed == IdsUpTo(|order|)
    ensures Holds(vals, order, slot)
  {
  }

  lemma FillOccupies(vals: seq<SymbolSlot>, i: nat, x: SymbolSlot)
    requires i < |vals| && vals[i].None? && x.Some?
    ensures |Occupied(vals[i := x])| == |Occupied(vals)| + 1
  {
    assert Occupied(vals[i := x]) == Occupied(vals) + {i};
  }

  lemma PlaceKeepsHolds(vals: seq<SymbolSlot>, order: seq<Symbol>, slot: seq<nat>, placed: set<nat>, m: nat, i: nat)
    requires HoldsPlaced(vals, order, slot, placed)
    requires 1 <= m <= |order| && m !in placed && i < |vals| && vals[i].None?
    ensures HoldsPlaced(vals[i := Occupant(order[m - 1], m)], order, slot[m := i], placed + {m})
  {
    var vals', slot' := vals[i := Occupant(order[m - 1], m)], slot[m := i];
    forall id | id in placed + {m}
      ensures 1 <= id <= |order| && slot'[id] < |vals'| && vals'[slot'[id]] == Occupant(order[id - 1], id)
    {
      if id != m {
        assert vals[slot[id]].Some?;
      }
    }
  }

  /** Filling the empty slot that ends a probe path of `s` keeps every symbol reachable. */
  lemma PlaceKeepsReachable(vals: seq<SymbolSlot>, hash: Symbol -> u64, s: Symbol, id: nat, i: nat, k: nat)
    requires |vals| > 0 && Reachable(vals, hash)
    requires k < |vals| && i == Probe(Home(hash, s, |vals|), k, |vals|) && vals[i].None?
    requires forall j :: 0 <= j < k ==> vals[Probe(Home(hash, s, |vals|), j, |vals|)].Some?
    ensures Reachable(vals[i := Occupant(s, id)], hash)
  {
    var n := |vals|;
    var vals' := vals[i := Occupant(s, id)];
    forall i': nat | i' < |vals'| && vals'[i'].Some?
      ensures OnProbePath(vals', hash, i')
    {
      if i' == i {
        DistOfProbe(Home(hash, s, n), k, n);
      } else {
        assert OnProbePath(vals, hash, i');
      }
    }
  }

  /**
   * The stored ids are exactly `1..len`: every occupied slot holds an id in that range and
   * every id in it is stored; two occupied slots share neither id nor symbol.
   */
  lemma IdsAreOneToLen(vals: seq<SymbolSlot>, len: nat, order: seq<Symbol>, slot: seq<nat>)
    requires len == |order| && Distinct(order) && Holds(vals, order, slot)
    ensures forall i :: 0 <= i < |vals| && vals[i].Some? ==> 1 <= vals[i].value.1 <= len
    ensures forall k :: 0 <= k < len ==> exists i :: 0 <= i < |vals| && vals[i] == Occupant(order[k], k + 1)
    ensures forall i, j :: 0 <= i < j < |vals| && vals[i].Some? && vals[j].Some? ==>
      vals[i].value.1 != vals[j].value.1 && vals[i].value.0 != vals[j].value.0
  {
    forall k | 0 <= k < len
      ensures exists i :: 0 <= i < |vals| && vals[i] == Occupant(order[k], k + 1)
    {
      assert vals[slot[k + 1]] == Occupant(order[k], k + 1);
    }
    forall i, j | 0 <= i < j < |vals| && vals[i].Some? && vals[j].Some?
      ensures vals[i].value.1 != vals[j].value.1 && vals[i].value.0 != vals[j].value.0
    {
      var a, b := vals[i].value.1, vals[j].value.1;
      assert vals[slot[a]] == Occupant(order[a - 1], a);
      assert vals[slot[b]] == Occupant(order[b - 1], b);
      if a < b {
        assert order[a - 1] != order[b - 1];
      } else if b < a {
        assert order[b - 1] != order[a - 1];
      }
    }
  }

  /** The growth policy restores room for one more symbol within the 3/4 load bound. */
  lemma GrowthMakesRoom(slots: nat, len: nat, newSlots: nat)
    requires 4 * len <= 3 * slots
    requires (slots == 0 && newSlots == 5) || (slots > 0 && newSlots >= 2 * slots)
    ensures 4 * (len + 1) <= 3 * newSlots
  {
  }

  /**
   * The inner loop of `grow`: probe the new vector from the entry's home slot for the
   * first empty slot and store the entry there. An empty slot exists because fewer
   * slots are occupied than there are slots.
   */
  method PlaceEntry(next: array<SymbolSlot>, hash: Symbol -> u64, entry: Entry) returns (i: nat, ghost k: nat)
    requires next.Length > 0 && |Occupied(next[..])| < next.Length
    modifies next
    ensures k < next.Length && i == Probe(Home(hash, entry.0, next.Length), k, next.Length)
    ensures old(next[i]).None? && next[..] == old(next[..])[i := Some(entry)]
    ensures forall j :: 0 <= j < k ==> next[Probe(Home(hash, entry.0, next.Length), j, next.Length)].Some?
  {
    var n := next.Length;
    var h := Home(hash, entry.0, n);
    i, k := h, 0;
    while next[i].Some?
      invariant next[..] == old(next[..])
      invariant 0 <= k < n && i == Probe(h, k, n)
      invariant forall t :: 0 <= t < k ==> next[Probe(h, t, n)].Some?
      decreases n - k
    {
      assert k + 1 < n by {
        if k + 1 == n {
          AllProbesOccupied(next[..], h);
        }
      }
      ProbeStep(h, k, n);
      i := (i + 1) % n;
      k := k + 1;
    }
    next[i] := Some(entry);
  }

  /** After the old slots below `j`: the placed ids are those whose old slot is below `j`. */
  ghost predicate PlacedBelow(slot: seq<nat>, len: nat, placed: set<nat>, j: nat)
    requires |slot| == len + 1
  {
    && (forall id :: id in placed ==> 1 <= id <= len)
    && (forall id :: 1 <= id <= len ==> (id in placed <==> slot[id] < j))
  }

  /**
   * The state of `grow` after the old slots below `j`: the new vector `nv` holds exactly
   * the ids whose old slot is below `j`, each reachable, with one occupied slot per id.
   */
  ghost predicate Carried(order: seq<Symbol>, slot: seq<nat>, j: nat,
                          nv: seq<SymbolSlot>, newSlot: seq<nat>, placed: set<nat>, hash: Symbol -> u64)
  {
    && |slot| == |order| + 1
    && PlacedBelow(slot, |order|, placed, j)
    && HoldsPlaced(nv, order, newSlot, placed)
    && Reachable(nv, hash)
    && |Occupied(nv)| == |placed|
  }

  /** An occupied old slot `j` holds an id not placed yet, whose placement advances `j`. */
  lemma CarryStep(vals: seq<SymbolSlot>, order: seq<Symbol>, slot: seq<nat>, placed: set<nat>, j: nat)
    requires Holds(vals, order, slot) && PlacedBelow(slot, |order|, placed, j)
    requires j < |vals| && vals[j].Some?
    ensures 1 <= vals[j].value.1 <= |order| && order[vals[j].value.1 - 1] == vals[j].value.0
    ensures vals[j].value.1 !in placed && |placed| < |order|
    ensures PlacedBelow(slot, |order|, placed + {vals[j].value.1}, j + 1)
  {
    SlotOfId(vals, order, slot, j);
    assert placed <= IdsUpTo(|order|) - {vals[j].value.1};
    SubsetCard(placed, IdsUpTo(|order|) - {vals[j].value.1});
  }

  /** An empty old slot `j` is no id's slot, so skipping it advances `j`. */
  lemma SkipStep(vals: seq<SymbolSlot>, order: seq<Symbol>, slot: seq<nat>, j: nat,
                 nv: seq<SymbolSlot>, newSlot: seq<nat>, placed: set<nat>, hash: Symbol -> u64)
    requires Holds(vals, order, slot) && Carried(order, slot, j, nv, newSlot, placed, hash)
    requires j < |vals| && vals[j].None?
    ensures Carried(order, slot, j + 1, nv, newSlot, placed, hash)
  {
    forall id | 1 <= id <= |order|
      ensures slot[id] != j
    {
      assert vals[slot[id]].Some?;
    }
  }

  /** Once every old slot is passed, every id is placed and the new vector holds the table. */
  lemma AllCarried(vals: seq<SymbolSlot>, order: seq<Symbol>, slot: seq<nat>,
                   nv: seq<SymbolSlot>, newSlot: seq<nat>, placed: set<nat>, hash: Symbol -> u64)
    requires Distinct(order) && Holds(vals, order, slot) && Carried(order, slot, |vals|, nv, newSlot, placed, hash)
    requires 4 * |order| <= 3 * |nv|
    ensures TableInv(nv, |order|, order, newSlot, hash)
  {
    assert placed == IdsUpTo(|order|);
    AllPlaced(nv, order, newSlot, placed);
    assert |placed| == |order|;
  }

  /**
   * One step of the outer loop of `grow` for an occupied old slot `j`: its entry is placed
   * at the first empty slot of its probe path in `next`.
   */
  method CarryOne(src: seq<SymbolSlot>, j: nat, next: array<SymbolSlot>, hash: Symbol -> u64,
                  ghost order: seq<Symbol>, ghost slot: seq<nat>, ghost newSlot: seq<nat>, ghost placed: set<nat>)
    returns (ghost newSlot': seq<nat>, ghost placed': set<nat>)
    requires Holds(src, order, slot) && j < |src| && src[j].Some? && next.Length > |order|
    requires Carried(order, slot, j, next[..], newSlot, placed, hash)
    modifies next
    ensures Carried(order, slot, j + 1, next[..], newSlot', placed', hash)
  {
    var entry := src[j].value;
    CarryStep(src, order, slot, placed, j);
    ghost var before := next[..];
    var i, k := PlaceEntry(next, hash, entry);
    PlaceKeepsInv(before, order, newSlot, placed, hash, entry.0, entry.1, i, k);
    newSlot' := newSlot[entry.1 := i];
    placed' := placed + {entry.1};
  }

  /**
   * The outer loop of `grow`: walk the old slots in index order and place every entry
   * in a new vector of `cap` empty slots. The new vector holds the same ids for the same
   * symbols and satisfies the table invariant.
   */
  method Rehash(src: seq<SymbolSlot>, cap: nat, hash: Symbol -> u64, ghost order: seq<Symbol>, ghost slot: seq<nat>)
    returns (next: array<SymbolSlot>, ghost newSlot: seq<nat>)
    requires Distinct(order) && Holds(src, order, slot)
    requires |order| < cap && 4 * |order| <= 3 * cap
    ensures fresh(next) && next.Length == cap
    ensures TableInv(next[..], |order|, order, newSlot, hash)
  {
    next := new SymbolSlot[cap](_ => None);
    ghost var placed: set<nat> := {};
    newSlot := seq(|order| + 1, _ => 0);
    assert Occupied(next[..]) == {};
    var j := 0;
    while j < |src|
      invariant 0 <= j <= |src|
      invariant Carried(order, slot, j, next[..], newSlot, placed, hash)
    {
      if src[j].Some? {
        newSlot, placed := CarryOne(src, j, next, hash, order, slot, newSlot, placed);
      } else {
        SkipStep(src, order, slot, j, next[..], newSlot, placed, hash);
      }
      j := j + 1;
    }
    AllCarried(src, order, slot, next[..], newSlot, placed, hash);
  }

  lemma {:induction false} SubsetCard(a: set<nat>, b: set<nat>)
    requires a <= b
    ensures |a| <= |b|
  {
    if a != {} {
      var x :| x in a;
      SubsetCard(a - {x}, b - {x});
    }
  }

  /** The stored `(symbol, id)` pairs of a slot vector. */
  ghost function EntriesOf(vals: seq<SymbolSlot>): set<Entry>
  {
    set i | 0 <= i < |vals| && vals[i].Some? :: vals[i].value
  }

  /** The stored pairs are exactly the symbols of `order` with their ids. */
  lemma EntriesOfOrder(vals: seq<SymbolSlot>, order: seq<Symbol>, slot: seq<nat>)
    requires Holds(vals, order, slot)
    ensures forall e: Entry :: e in EntriesOf(vals) <==> 1 <= e.1 <= |order| && order[e.1 - 1] == e.0
  {
    forall e: Entry | 1 <= e.1 <= |order| && order[e.1 - 1] == e.0
      ensures e in EntriesOf(vals)
    {
      assert vals[slot[e.1]] == Some(e);
    }
    forall i | 0 <= i < |vals| && vals[i].Some?
      ensures 1 <= vals[i].value.1 <= |order| && order[vals[i].value.1 - 1] == vals[i].value.0
    {
      SlotOfId(vals, order, slot, i);
    }
  }

  /** Two vectors holding the same symbols in the same order hold the same pairs. */
  lemma SameOrderSameEntries(v1: seq<SymbolSlot>, s1: seq<nat>, v2: seq<SymbolSlot>, s2: seq<nat>, order: seq<Symbol>)
    requires Holds(v1, order, s1) && Holds(v2, order, s2)
    ensures EntriesOf(v1) == EntriesOf(v2)
  {
    EntriesOfOrder(v1, order, s1);
    EntriesOfOrder(v2, order, s2);
  }

  /** The occupied slots' pairs in slot order: `values.iter().flatten()`. */
  function Flatten(vals: seq<SymbolSlot>): seq<Entry>
  {
    if vals == [] then []
    else Flatten(vals[..|vals| - 1]) + (if vals[|vals| - 1].Some? then [vals[|vals| - 1].value] else [])
  }

  /** The iteration yields one element per occupied slot, and exactly the stored pairs. */
  lemma {:induction false} FlattenMatchesSlots(vals: seq<SymbolSlot>)
    ensures |Flatten(vals)| == |Occupied(vals)|
    ensures forall e :: e in Flatten(vals) <==> e in EntriesOf(vals)
  {
    if vals != [] {
      var n := |vals|;
      var pre := vals[..n - 1];
      FlattenMatchesSlots(pre);
      if vals[n - 1].Some? {
        assert Occupied(vals) == Occupied(pre) + {n - 1};
        assert EntriesOf(vals) == EntriesOf(pre) + {vals[n - 1].value};
      } else {
        assert Occupied(vals) == Occupied(pre);
        assert EntriesOf(vals) == EntriesOf(pre);
      }
    }
  }

  // ---------------------------------------------------------------------------
  // The table
  // ---------------------------------------------------------------------------

  class SymbolTable {
    /** The hash code of the table's `Symbol` type. */
    const hash: Symbol -> u64
    /** The slots: `None` is empty, `Some((symbol, id))` occupied. */
    var values: array<SymbolSlot>
    /** Number of stored symbols. */
    var len: nat

    /** The stored symbols in first-seen order: `Order[k]` has id `k + 1`. */
    ghost var Order: seq<Symbol>
    /** `Slot[id]` is the index of the slot that holds `id` (`Slot[0]` is unused). */
    ghost var Slot: seq<nat>
    ghost var Repr: set<object>

    ghost predicate Valid()
      reads this, Repr
    {
      && Repr == {this, values}
      && TableInv(values[..], len, Order, Slot, hash)
    }

    /** The stored `(symbol, id)` pairs. */
    ghost function Entries(): set<Entry>
      reads this, values
    {
      EntriesOf(values[..])
    }

    /** `SymbolTable::default()`: no slots, no symbols. */
    constructor (hash: Symbol -> u64)
      ensures Valid() && fresh(Repr)
      ensures this.hash == hash && Order == [] && values.Length == 0 && len == 0
    {
      this.hash := hash;
      values := new SymbolSlot[0];
      len := 0;
      Order := [];
      Slot := [0];
      Repr := {this, values};
      new;
      assert Occupied(values[..]) == {};
    }

    /** The stored pairs are exactly the symbols of `Order` with their ids. */
    lemma EntriesMatchOrder()
      requires Valid()
      ensures forall e: Entry :: e in Entries() <==> 1 <= e.1 <= |Order| && Order[e.1 - 1] == e.0
    {
      EntriesOfOrder(values[..], Order, Slot);
    }

    /** `len`: the number of stored symbols. */
    function Len(): (r: nat)
      reads this, Repr
      requires Valid()
      ensures r == |Order| && r == |Occupied(values[..])|
    {
      len
    }

    /** `is_empty`: no symbol is stored. */
    function IsEmpty(): (r: bool)
      reads this, Repr
      requires Valid()
      ensures r <==> Order == []
      ensures r <==> forall i :: 0 <= i < values.Length ==> values[i].None?
    {
      assert len > 0 ==> values[Slot[1]].Some?;
      assert len == 0 ==> Occupied(values[..]) == {};
      len == 0
    }

    /**
     * `slots` (current table) and `capacity` (earlier table): the length of the slot vector.
     * Under the invariant at most three quarters of it is used, so a table without slots is
     * empty.
     */
    function Capacity(): (r: nat)
      reads this, Repr
      ensures r == values.Length
      ensures Valid() ==> 4 * |Order| <= 3 * r
      ensures Valid() && r == 0 ==> Order == []
    {
      values.Length
    }

    /**
     * `should_grow`: always on a table without slots, otherwise when one more symbol would
     * push the load factor `(len + 1) / slots` above 0.75.
     */
    function ShouldGrow(): (r: bool)
      reads this
      ensures r <==> values.Length == 0 || (len + 1) as real / values.Length as real > 0.75
      ensures !r ==> 4 * (len + 1) <= 3 * values.Length
    {
      if values.Length == 0 then true
      else
        OverLoadFactor(len + 1, values.Length);
        4 * (len + 1) > 3 * values.Length
    }

    /**
     * The probe loop shared by `insert` and `get`: from the home slot, step `+1 mod slots`
     * while the slot is occupied by another symbol. It stops at the slot holding `s`, or
     * at the empty slot reached after `k` occupied ones, which proves `s` absent.
     */
    method FindSlot(s: Symbol) returns (i: nat, ghost k: nat)
      requires Valid() && values.Length > 0 && len < values.Length
      ensures i < values.Length
      ensures values[i].Some? ==> values[i].value.0 == s && Order[values[i].value.1 - 1] == s
      ensures values[i].None? ==> s !in Order
      ensures values[i].None? ==> k < values.Length && i == Probe(Home(hash, s, values.Length), k, values.Length)
      ensures values[i].None? ==> forall j :: 0 <= j < k ==> values[Probe(Home(hash, s, values.Length), j, values.Length)].Some?
    {
      var n := values.Length;
      var h := Home(hash, s, n);
      i, k := h, 0;
      while values[i].Some?
        invariant 0 <= k < n && i == Probe(h, k, n)
        invariant forall j :: 0 <= j < k ==> values[Probe(h, j, n)].Some? && values[Probe(h, j, n)].value.0 != s
        decreases n - k
      {
        if values[i].value.0 == s {
          assert values[Slot[values[i].value.1]] == Occupant(Order[values[i].value.1 - 1], values[i].value.1);
          return;
        }
        assert k + 1 < n by {
          if k + 1 == n {
            AllProbesOccupied(values[..], h);
          }
        }
        ProbeStep(h, k, n);
        i := (i + 1) % n;
        k := k + 1;
      }
      AbsentWhenEmptyReached(values[..], len, Order, Slot, hash, s, k);
    }

    /**
     * `get`: the id of a stored symbol equal to `s`, if there is one. A table with no slots
     * stores nothing and answers `None`.
     */
    method Get(s: Symbol) returns (r: Option<nat>)
      requires Valid()
      ensures r.Some? <==> s in Order
      ensures r.Some? ==> 1 <= r.value <= |Order| && Order[r.value - 1] == s
    {
      if values.Length == 0 {
        NoSlotsNoSymbols();
        return None;
      }
      var i, _ := FindSlot(s);
      if values[i].Some? {
        r := Some(values[i].value.1);
      } else {
        r := None;
      }
    }

    /** `contains`: `get(s).is_some()`. */
    method Contains(s: Symbol) returns (b: bool)
      requires Valid()
      ensures b <==> s in Order
    {
      var r := Get(s);
      b := r.Some?;
    }

    /** A table without slots, such as the default one, stores no symbol. */
    lemma NoSlotsNoSymbols()
      requires Valid() && values.Length == 0
      ensures Order == [] && len == 0
    {
      assert Occupied(values[..]) == {};
    }

    /**
     * As written, `get` (and so `contains`) starts by computing the home slot, which on a
     * table without slots is a remainder by zero and panics, although no symbol is stored
     * and the answer is `None` (`false`). `Get` and `Contains` give that answer.
     */
    lemma GetPanicsWithoutSlots(s: Symbol)
      requires Valid() && values.Length == 0
      ensures HomeAsWritten(hash, s, values.Length).None?
      ensures s !in Order
    {
      NoSlotsNoSymbols();
    }

    /**
     * `insert`: grows first when `should_grow` holds (to 5 slots from none, else to the
     * least prime at least twice the slot count), then probes; an equal symbol keeps its
     * id and the table its size, a new symbol is stored with id `len + 1`.
     */
    method Insert(s: Symbol) returns (id: nat)
      requires Valid()
      modifies Repr
      ensures Valid() && fresh(Repr - old(Repr)) && values.Length > 0
      ensures s in old(Order) ==> Order == old(Order) && 1 <= id <= |Order| && Order[id - 1] == s
      ensures s !in old(Order) ==> Order == old(Order) + [s] && id == |Order|
      ensures forall k :: 0 <= k < |Order| && Order[k] == s ==> k == id - 1
      ensures old(ShouldGrow()) ==> values.Length > old(values.Length)
      ensures old(ShouldGrow()) ==>
        if old(values.Length) == 0 then values.Length == 5
        else IsLeastPrimeFrom(2 * old(values.Length), values.Length)
      ensures !old(ShouldGrow()) ==> values == old(values)
    {
      if ShouldGrow() {
        ghost var slots := values.Length;
        Grow();
        GrowthMakesRoom(slots, len, values.Length);
      }
      var i, k := FindSlot(s);
      if values[i].Some? {
        return values[i].value.1;
      }
      id := StoreNew(s, i, k);
    }

    /** The tail of `insert` for a new symbol: bump `len` and store the symbol with it at slot `i`. */
    method StoreNew(s: Symbol, i: nat, ghost k: nat) returns (id: nat)
      requires Valid() && values.Length > 0 && 4 * (len + 1) <= 3 * values.Length && s !in Order
      requires k < values.Length && i == Probe(Home(hash, s, values.Length), k, values.Length) && values[i].None?
      requires forall j :: 0 <= j < k ==> values[Probe(Home(hash, s, values.Length), j, values.Length)].Some?
      modifies this, values
      ensures Valid() && Repr == old(Repr) && values == old(values)
      ensures Order == old(Order) + [s] && id == |Order|
    {
      ghost var before := values[..];
      InsertKeepsInv(before, len, Order, Slot, hash, s, k);
      len := len + 1;
      values[i] := Some((s, len));
      assert values[..] == before[i := Occupant(s, len)];
      Order := Order + [s];
      Slot := Slot + [i];
      id := len;
    }

    /**
     * `grow`: a fresh vector of 5 slots when there are none, else of `next_prime(2 * slots)`
     * slots; every entry is re-inserted at the first empty slot of its new probe path,
     * keeping its id.
     */
    method Grow()
      requires Valid()
      modifies Repr
      ensures Valid() && fresh(Repr - old(Repr)) && fresh(values)
      ensures Order == old(Order) && len == old(len)
      ensures old(values.Length) == 0 ==> values.Length == 5
      ensures old(values.Length) > 0 ==> IsLeastPrimeFrom(2 * old(values.Length), values.Length)
      ensures Entries() == old(Entries())
    {
      var n := values.Length;
      var cap: nat;
      if n == 0 {
        cap := 5;
      } else {
        cap := NextPrime(n * 2);
      }
      ghost var oldVals := values[..];
      var next, newSlot := Rehash(values[..], cap, hash, Order, Slot);
      SameOrderSameEntries(oldVals, Slot, next[..], newSlot, Order);
      values := next;
      Slot := newSlot;
      Repr := {this, values};
    }

    /**
     * `to_sorted_vec`: every stored pair once, in ascending id order. The sort by id is
     * modelled as placing each pair at position `id - 1`, which is the same result since
     * the ids are exactly `1..len`.
     */
    method ToSortedVec() returns (r: seq<Entry>)
      requires Valid()
      ensures |r| == |Order|
      ensures forall k :: 0 <= k < |r| ==> r[k] == (Order[k], k + 1)
      ensures forall i :: 0 <= i < values.Length && values[i].Some? ==> values[i].value in r
    {
      r := seq(len, _ => (Ident([]), 0));
      var j := 0;
      while j < values.Length
        invariant 0 <= j <= values.Length && |r| == len
        invariant forall id :: 1 <= id <= len && Slot[id] < j ==> r[id - 1] == (Order[id - 1], id)
      {
        if values[j].Some? {
          var entry := values[j].value;
          r := r[entry.1 - 1 := entry];
        }
        j := j + 1;
      }
      forall k | 0 <= k < |r|
        ensures r[k] == (Order[k], k + 1)
      {
        assert Slot[k + 1] < values.Length;
      }
      forall i | 0 <= i < values.Length && values[i].Some?
        ensures values[i].value in r
      {
        SlotOfId(values[..], Order, Slot, i);
        assert r[values[i].value.1 - 1] == values[i].value;
      }
    }
  }

  /**
   * The unit test of the current table: an integer constant and an identifier get
   * distinct ids, re-inserting the constant returns its id and leaves the size alone.
   */
  method SymbolTableScenario() returns (c1: nat, c1Again: nat, c2: nat, len: nat, has1: bool, has2: bool)
    ensures c1 == 1 && c1Again == c1 && c2 == 2 && c1 != c2
    ensures len == 2 && has1 && has2
  {
    var table := new SymbolTable(HashCode);
    assert table.IsEmpty();
    var s1, s2 := Const(I32(1)), Ident("counter");
    c1 := table.Insert(s1);
    assert table.Len() == 1;
    c1Again := table.Insert(s1);
    assert table.Len() == 1;
    c2 := table.Insert(s2);
    len := table.Len();
    has1 := table.Contains(s1);
    has2 := table.Contains(s2);
  }

  /**
   * The unit test of the earlier table, for any `hash_string`: equal symbols share an id,
   * a different symbol gets another, and the size counts distinct symbols.
   */
  method LegacySymbolTableScenario(hashString: string -> u64) returns (i1: nat, i2: nat, i3: nat, len: nat)
    ensures i1 == i2 && i1 != i3 && len == 2
  {
    var table := new SymbolTable(s => SymbolHashWith(s, hashString));
    assert table.IsEmpty();
    i1 := table.Insert(Const(I32(1)));
    assert table.Len() == 1;
    i2 := table.Insert(Const(I32(1)));
    assert table.Len() == 1;
    i3 := table.Insert(Ident("counter"));
    len := table.Len();
  }
}
