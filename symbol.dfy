/**
 * Symbols stored in the symbol tables (compiler/src/symbols/symbol.rs and its
 * earlier copy compiler/src/symbol.rs): identifiers and constants, compared
 * structurally, each with a deterministic 64-bit hash code.
 */
module Symbols {
  import opened Utils

  const I32_MIN: int := -0x8000_0000
  const I32_MAX: int := 0x7fff_ffff

  /** Rust's `i32`. */
  newtype i32 = x: int | -0x8000_0000 <= x < 0x8000_0000

  /** A constant that can be stored in a symbol table. */
  datatype Const = I32(int32: i32) | Char(ch: char) | Bool(boolean: bool) | Str(text: string)

  /** An identifier or a constant; equality is structural, as the derived `PartialEq`. */
  datatype Symbol = Ident(name: string) | Const(value: Const)

  /**
   * `Const::hash_code`, with the string hash as a parameter: the current file passes
   * `hash_str`, the earlier file calls `hash_string`, which no shown file defines.
   * An `i32` is sign-extended to 64 bits and reinterpreted as unsigned.
   */
  function ConstHashWith(c: Const, hashString: string -> u64): u64
  {
    match c
    case I32(v) => if v >= 0 then v as int as u64 else (U64_MODULUS + v as int) as u64
    case Char(ch) => ch as int as u64
    case Bool(b) => if b then 1 else 0
    case Str(s) => hashString(s)
  }

  /** `Symbol::hash_code` with the string hash as a parameter. */
  function SymbolHashWith(s: Symbol, hashString: string -> u64): u64
  {
    match s
    case Ident(name) => hashString(name)
    case Const(c) => ConstHashWith(c, hashString)
  }

  /** `Const::hash_code` of compiler/src/symbols/symbol.rs. */
  function ConstHashCode(c: Const): u64
  {
    ConstHashWith(c, HashStr)
  }

  /** `Symbol::hash_code` of compiler/src/symbols/symbol.rs. */
  function HashCode(s: Symbol): u64
  {
    SymbolHashWith(s, HashStr)
  }

  /**
   * The hash of an `i32` is its 64-bit sign extension: the low 32 bits are the
   * two's-complement pattern of the value, the high 32 bits are all ones for a
   * negative value and all zeros otherwise.
   */
  lemma I32HashIsSignExtension(v: i32, hashString: string -> u64)
    ensures var h := ConstHashWith(I32(v), hashString) as int;
      && h % 0x1_0000_0000 == v as int % 0x1_0000_0000
      && h / 0x1_0000_0000 == (if v < 0 then 0xffff_ffff else 0)
  {
    var h := ConstHashWith(I32(v), hashString) as int;
    if v < 0 {
      assert h == 0xffff_ffff * 0x1_0000_0000 + (0x1_0000_0000 + v as int);
      DivUnique(h, 0x1_0000_0000, 0xffff_ffff, 0x1_0000_0000 + v as int);
      DivUnique(v as int, 0x1_0000_0000, -1, 0x1_0000_0000 + v as int);
    } else {
      DivUnique(h, 0x1_0000_0000, 0, v as int);
    }
  }

  /** Within one constant kind other than strings, the hash code is injective. */
  lemma ScalarHashesInjective(a: Const, b: Const, hashString: string -> u64)
    requires !a.Str? && !b.Str? && a != b
    requires (a.I32? && b.I32?) || (a.Char? && b.Char?) || (a.Bool? && b.Bool?)
    ensures ConstHashWith(a, hashString) != ConstHashWith(b, hashString)
  {
    if a.I32? {
      I32HashIsSignExtension(a.int32, hashString);
      I32HashIsSignExtension(b.int32, hashString);
      var x, y := a.int32 as int, b.int32 as int;
      if x % 0x1_0000_0000 == y % 0x1_0000_0000 {
        DivMod(x, 0x1_0000_0000);
        DivMod(y, 0x1_0000_0000);
      }
    }
  }

  /**
   * Hash equality is necessary but not sufficient for symbol equality: the identifier
   * `s` and the string constant `s` share a hash code yet are different symbols.
   */
  lemma IdentAndStringCollide(s: string, hashString: string -> u64)
    ensures SymbolHashWith(Ident(s), hashString) == SymbolHashWith(Const(Str(s)), hashString)
    ensures Ident(s) != Const(Str(s))
  {
  }

  /**
   * The earlier `hash_code` (compiler/src/symbol.rs) differs from the current one only
   * through the string hash: on integers, characters and booleans it agrees whatever
   * `hash_string` computes, and with `hash_string = hash_str` it agrees everywhere.
   */
  lemma LegacyHashAgrees(s: Symbol, hashString: string -> u64)
    ensures (s.Ident? || s.value.Str?) || SymbolHashWith(s, hashString) == HashCode(s)
    ensures (forall t :: hashString(t) == HashStr(t)) ==> SymbolHashWith(s, hashString) == HashCode(s)
  {
  }
}
