// Eight-byte little-endian words: what one ptrace peek or poke moves.
module Words {

  const TWO64: int := 0x1_0000_0000_0000_0000

  // An `unsigned long` of the source: addresses and instruction pointers.
  type U64 = x: int | 0 <= x < 0x1_0000_0000_0000_0000

  type Byte = bv8

  // The eight bytes one peek or poke moves, each under its own address.
  type Word = map<U64, Byte>

  // `w` is the word at `a`.
  predicate IsWord(w: Word, a: U64) {
    a + 7 < TWO64 && (forall x :: x in w ==> a <= x < a + 8) && forall x: U64 :: a <= x < a + 8 ==> x in w
  }

  // The one-byte breakpoint instruction.
  const INT3: Byte := 0xcc

  // Unsigned 64-bit `r + 1` and `r - 1`.
  function Inc(r: U64): U64 { if r == TWO64 - 1 then 0 else r + 1 }

  function Dec(r: U64): U64 { if r == 0 then TWO64 - 1 else r - 1 }

  lemma DecInc(r: U64)
    ensures Dec(Inc(r)) == r && Inc(Dec(r)) == r
  {}

  // ---- words as 64-bit numbers ---------------------------------------------------------------------------------

  // Byte k of a number, least significant first, and the number of eight bytes.
  function ByteOf(v: bv64, k: nat): Byte
    requires k < 8
  {
    match k
    case 0 => (v & 0xff) as Byte
    case 1 => ((v >> 8) & 0xff) as Byte
    case 2 => ((v >> 16) & 0xff) as Byte
    case 3 => ((v >> 24) & 0xff) as Byte
    case 4 => ((v >> 32) & 0xff) as Byte
    case 5 => ((v >> 40) & 0xff) as Byte
    case 6 => ((v >> 48) & 0xff) as Byte
    case 7 => ((v >> 56) & 0xff) as Byte
  }

  function Join(b0: Byte, b1: Byte, b2: Byte, b3: Byte, b4: Byte, b5: Byte, b6: Byte, b7: Byte): bv64 {
    (b0 as bv64) | ((b1 as bv64) << 8) | ((b2 as bv64) << 16) | ((b3 as bv64) << 24)
    | ((b4 as bv64) << 32) | ((b5 as bv64) << 40) | ((b6 as bv64) << 48) | ((b7 as bv64) << 56)
  }

  // The number ptrace moves for the word at a, little-endian, and the word it moves for a number.
  function Number(w: Word, a: U64): bv64
    requires IsWord(w, a)
  {
    Join(w[a], w[a + 1], w[a + 2], w[a + 3], w[a + 4], w[a + 5], w[a + 6], w[a + 7])
  }

  function WordOf(v: bv64, a: U64): Word
    requires a + 7 < TWO64
  {
    map[a := ByteOf(v, 0), a + 1 := ByteOf(v, 1), a + 2 := ByteOf(v, 2), a + 3 := ByteOf(v, 3),
        a + 4 := ByteOf(v, 4), a + 5 := ByteOf(v, 5), a + 6 := ByteOf(v, 6), a + 7 := ByteOf(v, 7)]
  }

  lemma JoinBytes(b0: Byte, b1: Byte, b2: Byte, b3: Byte, b4: Byte, b5: Byte, b6: Byte, b7: Byte)
    ensures var v := Join(b0, b1, b2, b3, b4, b5, b6, b7);
      && ByteOf(v, 0) == b0 && ByteOf(v, 1) == b1 && ByteOf(v, 2) == b2 && ByteOf(v, 3) == b3
      && ByteOf(v, 4) == b4 && ByteOf(v, 5) == b5 && ByteOf(v, 6) == b6 && ByteOf(v, 7) == b7
  {}

  lemma BytesJoin(v: bv64)
    ensures Join(ByteOf(v, 0), ByteOf(v, 1), ByteOf(v, 2), ByteOf(v, 3),
                 ByteOf(v, 4), ByteOf(v, 5), ByteOf(v, 6), ByteOf(v, 7)) == v
  {}

  // Byte k of a word's number.
  lemma NumberByte(w: Word, a: U64, k: nat)
    requires IsWord(w, a) && k < 8
    ensures ByteOf(Number(w, a), k) == w[a + k]
  {
    JoinBytes(w[a], w[a + 1], w[a + 2], w[a + 3], w[a + 4], w[a + 5], w[a + 6], w[a + 7]);
  }

  // The number is little-endian: k bytes up in the word is 8 k bits up in the number.
  lemma LittleEndian(w: Word, a: U64)
    requires IsWord(w, a)
    ensures var v := Number(w, a);
      && v & 0xff == w[a] as bv64 && (v >> 8) & 0xff == w[a + 1] as bv64
      && (v >> 16) & 0xff == w[a + 2] as bv64 && (v >> 24) & 0xff == w[a + 3] as bv64
      && (v >> 32) & 0xff == w[a + 4] as bv64 && (v >> 40) & 0xff == w[a + 5] as bv64
      && (v >> 48) & 0xff == w[a + 6] as bv64 && v >> 56 == w[a + 7] as bv64
  {
    JoinShifted(w[a], w[a + 1], w[a + 2], w[a + 3], w[a + 4], w[a + 5], w[a + 6], w[a + 7]);
  }

  lemma JoinShifted(b0: Byte, b1: Byte, b2: Byte, b3: Byte, b4: Byte, b5: Byte, b6: Byte, b7: Byte)
    ensures var v := Join(b0, b1, b2, b3, b4, b5, b6, b7);
      && v & 0xff == b0 as bv64 && (v >> 8) & 0xff == b1 as bv64
      && (v >> 16) & 0xff == b2 as bv64 && (v >> 24) & 0xff == b3 as bv64
      && (v >> 32) & 0xff == b4 as bv64 && (v >> 40) & 0xff == b5 as bv64
      && (v >> 48) & 0xff == b6 as bv64 && v >> 56 == b7 as bv64
  {}

  lemma WordOfKeys(v: bv64, a: U64)
    requires a + 7 < TWO64
    ensures forall x :: x in WordOf(v, a) <==> a <= x < a + 8
  {}

  lemma WordOfByte(v: bv64, a: U64, k: nat)
    requires a + 7 < TWO64 && k < 8
    ensures a + k in WordOf(v, a) && WordOf(v, a)[a + k] == ByteOf(v, k)
  {}

  lemma WordOfNumberAt(w: Word, a: U64, x: U64)
    requires IsWord(w, a) && x in w
    ensures x in WordOf(Number(w, a), a) && WordOf(Number(w, a), a)[x] == w[x]
  {
    NumberByte(w, a, x - a);
    WordOfByte(Number(w, a), a, x - a);
  }

  // Words at a and 64-bit numbers are the same thing.
  lemma WordOfNumber(w: Word, a: U64)
    requires IsWord(w, a)
    ensures WordOf(Number(w, a), a) == w
  {
    WordOfKeys(Number(w, a), a);
    forall x | x in w ensures x in WordOf(Number(w, a), a) && WordOf(Number(w, a), a)[x] == w[x] {
      WordOfNumberAt(w, a, x);
    }
  }

  lemma NumberOfWord(v: bv64, a: U64)
    requires a + 7 < TWO64
    ensures IsWord(WordOf(v, a), a) && Number(WordOf(v, a), a) == v
  {
    BytesJoin(v);
  }

  lemma JoinMasked(b0: Byte, b1: Byte, b2: Byte, b3: Byte, b4: Byte, b5: Byte, b6: Byte, b7: Byte, b: Byte)
    ensures Join(b, b1, b2, b3, b4, b5, b6, b7)
      == (Join(b0, b1, b2, b3, b4, b5, b6, b7) & 0xffff_ffff_ffff_ff00) | (b as bv64)
  {}

  lemma JoinTested(b0: Byte, b1: Byte, b2: Byte, b3: Byte, b4: Byte, b5: Byte, b6: Byte, b7: Byte, b: Byte)
    ensures Join(b0, b1, b2, b3, b4, b5, b6, b7) & 0xff == b as bv64 <==> b0 == b
  {}

  // Masking a new low byte into the number replaces the first byte of the word and keeps the other seven.
  lemma MaskedLowByte(w: Word, a: U64, b: Byte)
    requires IsWord(w, a)
    ensures IsWord(w[a := b], a)
    ensures Number(w[a := b], a) == (Number(w, a) & 0xffff_ffff_ffff_ff00) | (b as bv64)
  {
    JoinMasked(w[a], w[a + 1], w[a + 2], w[a + 3], w[a + 4], w[a + 5], w[a + 6], w[a + 7], b);
  }

  // Testing the number's low byte tests the word's first byte.
  lemma TestedLowByte(w: Word, a: U64, b: Byte)
    requires IsWord(w, a)
    ensures Number(w, a) & 0xff == b as bv64 <==> w[a] == b
  {
    JoinTested(w[a], w[a + 1], w[a + 2], w[a + 3], w[a + 4], w[a + 5], w[a + 6], w[a + 7], b);
  }
}
