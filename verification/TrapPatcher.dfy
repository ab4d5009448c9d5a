// The tracer of no_more_traps: it replaces each 0xcc the child runs into by the next byte of a file of hex digits.
//
// The child keeps its own code, so what is known of it between two stops is the point it stops at.
module TrapPatcher {
  import opened Words
  import opened Tracee

  // What fgetc returns: a byte, or EOF.
  datatype Char = Got(c: Byte) | Eof

  // The int as unsigned long; EOF is -1.
  function Unsigned(c: Char): bv64 {
    if c.Eof? then 0xffff_ffff_ffff_ffff else c.c as bv64
  }

  function ToHex(c: Char): bv64 {
    var num := Unsigned(c);
    if num < 58 && num > 47 then num - 48
    else if num < 103 && num > 96 then num - 87
    else num
  }

  // The sixteen digits, in ASCII, have their values; every other character, and the end of the file, is left as it is.
  lemma ToHexOfDigits()
    ensures ToHex(Got(0x30)) == 0 && ToHex(Got(0x31)) == 1 && ToHex(Got(0x32)) == 2 && ToHex(Got(0x33)) == 3
    ensures ToHex(Got(0x34)) == 4 && ToHex(Got(0x35)) == 5 && ToHex(Got(0x36)) == 6 && ToHex(Got(0x37)) == 7
    ensures ToHex(Got(0x38)) == 8 && ToHex(Got(0x39)) == 9 && ToHex(Got(0x61)) == 10 && ToHex(Got(0x62)) == 11
    ensures ToHex(Got(0x63)) == 12 && ToHex(Got(0x64)) == 13 && ToHex(Got(0x65)) == 14 && ToHex(Got(0x66)) == 15
  {}

  lemma ToHexOfOthers(c: Byte)
    requires !(0x30 <= c <= 0x39) && !(0x61 <= c <= 0x66)
    ensures ToHex(Got(c)) == c as bv64
    ensures ToHex(Eof) == 0xffff_ffff_ffff_ffff
  {}

  // What two characters are turned into; for two digits, the value of a byte.
  function Pair(c1: Char, c2: Char): bv64 {
    (ToHex(c1) << 4) | ToHex(c2)
  }

  // ---- hexadecimal text ----------------------------------------------------------------------------------------

  predicate IsDigit(c: Byte) {
    48 <= c < 58 || 97 <= c < 103
  }

  function Digit(n: Byte): Byte {
    if n < 10 then n + 48 else n + 87
  }

  // Two-digit lower-case hexadecimal.
  function Printed(bytes: seq<Byte>): (text: seq<Byte>)
    ensures |text| == 2 * |bytes|
  {
    if bytes == [] then []
    else
      var b := bytes[|bytes| - 1];
      Printed(bytes[..|bytes| - 1]) + [Digit(b >> 4), Digit(b & 15)]
  }

  function Value(c1: Byte, c2: Byte): Byte {
    (Pair(Got(c1), Got(c2)) & 0xff) as Byte
  }

  // The bytes the first 2 k characters stand for.
  function Decoded(text: seq<Byte>, k: nat): (bytes: seq<Byte>)
    requires 2 * k <= |text|
    ensures |bytes| == k
  {
    if k == 0 then [] else Decoded(text, k - 1) + [Value(text[2 * k - 2], text[2 * k - 1])]
  }

  lemma DigitsPrint(b: Byte)
    ensures IsDigit(Digit(b >> 4)) && IsDigit(Digit(b & 15))
    ensures Value(Digit(b >> 4), Digit(b & 15)) == b
  {}

  // The value of two digits fits in a byte.
  lemma PairIsByte(c1: Byte, c2: Byte)
    requires IsDigit(c1) && IsDigit(c2)
    ensures Pair(Got(c1), Got(c2)) == Value(c1, c2) as bv64
  {}

  // Decoding gives back what was printed, whatever follows it.
  lemma {:induction false} DecodesPrinted(bytes: seq<Byte>, rest: seq<Byte>)
    ensures Decoded(Printed(bytes) + rest, |bytes|) == bytes
    ensures HasDigits(Printed(bytes) + rest, |bytes|)
  {
    if bytes != [] {
      var k := |bytes| - 1;
      var b := bytes[k];
      DecodesPrinted(bytes[..k], [Digit(b >> 4), Digit(b & 15)] + rest);
      DigitsPrint(b);
      OneMorePair(Printed(bytes[..k]), bytes[..k], Digit(b >> 4), Digit(b & 15), b, rest);
      assert bytes == bytes[..k] + [b];
    }
  }

  lemma OneMorePair(text: seq<Byte>, bytes: seq<Byte>, c1: Byte, c2: Byte, b: Byte, rest: seq<Byte>)
    requires |text| == 2 * |bytes| && Value(c1, c2) == b && IsDigit(c1) && IsDigit(c2)
    requires Decoded(text + ([c1, c2] + rest), |bytes|) == bytes && HasDigits(text + ([c1, c2] + rest), |bytes|)
    ensures Decoded(text + [c1, c2] + rest, |bytes| + 1) == bytes + [b]
    ensures HasDigits(text + [c1, c2] + rest, |bytes| + 1)
  {
    assert text + [c1, c2] + rest == text + ([c1, c2] + rest);
  }

  // The text holds two digits for each of k bytes.
  predicate HasDigits(text: seq<Byte>, k: nat) {
    2 * k <= |text| && forall i :: 0 <= i < 2 * k ==> IsDigit(text[i])
  }

  // ---- a stop --------------------------------------------------------------------------------------------------

  // The byte before rip is a mapped 0xcc; a peek that fails reads as all ones.
  predicate Hits(code: Code, at: Point) {
    Mapped(code, Dec(at.rip)) && code[Dec(at.rip)] == INT3
  }

  // What masking the number whose bytes are h into the word at a leaves: its low byte at a, its other bytes or-ed into
  // the next seven.
  function Masked(code: Code, a: U64, h: Word): (r: Code)
    requires IsWord(h, a)
    ensures r.Keys == code.Keys
  {
    map x | x in code :: if x == a then h[a] else if x in h then code[x] | h[x] else code[x]
  }

  lemma JoinOred(b0: Byte, b1: Byte, b2: Byte, b3: Byte, b4: Byte, b5: Byte, b6: Byte, b7: Byte,
                 h0: Byte, h1: Byte, h2: Byte, h3: Byte, h4: Byte, h5: Byte, h6: Byte, h7: Byte)
    ensures Join(h0, b1 | h1, b2 | h2, b3 | h3, b4 | h4, b5 | h5, b6 | h6, b7 | h7)
      == (Join(b0, b1, b2, b3, b4, b5, b6, b7) & 0xffff_ffff_ffff_ff00) | Join(h0, h1, h2, h3, h4, h5, h6, h7)
  {}

  predicate IsMasked(w: Word, h: Word, r: Word, a: U64)
    requires IsWord(w, a) && IsWord(h, a) && IsWord(r, a)
  {
    r[a] == h[a] && forall x :: a < x < a + 8 ==> r[x] == w[x] | h[x]
  }

  lemma NumberMasked(w: Word, h: Word, r: Word, a: U64)
    requires IsWord(w, a) && IsWord(h, a) && IsWord(r, a) && IsMasked(w, h, r, a)
    ensures Number(r, a) == (Number(w, a) & 0xffff_ffff_ffff_ff00) | Number(h, a)
  {
    JoinOred(w[a], w[a + 1], w[a + 2], w[a + 3], w[a + 4], w[a + 5], w[a + 6], w[a + 7],
             h[a], h[a + 1], h[a + 2], h[a + 3], h[a + 4], h[a + 5], h[a + 6], h[a + 7]);
  }

  // Two codes that differ only in the word at a.
  lemma PokeItself(code: Code, code': Code, a: U64)
    requires Mapped(code, a) && code'.Keys == code.Keys
    requires forall x :: x in code && !(a <= x < a + 8) ==> code'[x] == code[x]
    ensures Mapped(code', a) && Poke(code, Peek(code', a)) == code'
  {
    assert Poke(code, Peek(code', a)).Keys == code'.Keys;
  }

  lemma WordMasked(w: Word, h: Word, r: Word, a: U64, hex: bv64)
    requires IsWord(w, a) && IsWord(h, a) && IsWord(r, a) && IsMasked(w, h, r, a) && hex == Number(h, a)
    ensures WordOf((Number(w, a) & 0xffff_ffff_ffff_ff00) | hex, a) == r
  {
    NumberMasked(w, h, r, a);
    WordOfNumber(r, a);
  }

  lemma MaskedWord(code: Code, a: U64, h: Word)
    requires Mapped(code, a) && IsWord(h, a)
    ensures Mapped(Masked(code, a, h), a) && IsMasked(Peek(code, a), h, Peek(Masked(code, a, h), a), a)
  {}

  // The poke, byte by byte.
  lemma PokeMasked(code: Code, a: U64, h: Word, hex: bv64)
    requires Mapped(code, a) && IsWord(h, a) && hex == Number(h, a)
    ensures Poke(code, WordOf((Number(Peek(code, a), a) & 0xffff_ffff_ffff_ff00) | hex, a)) == Masked(code, a, h)
  {
    MaskedWord(code, a, h);
    WordMasked(Peek(code, a), h, Peek(Masked(code, a, h), a), a, hex);
    PokeItself(code, Masked(code, a, h), a);
  }

  // ---- which bytes change --------------------------------------------------------------------------------------

  // Two digits change the one byte.
  lemma DigitsPatchOneByte(code: Code, a: U64, c1: Byte, c2: Byte)
    requires Mapped(code, a) && IsDigit(c1) && IsDigit(c2)
    ensures IsWord(WordOf(Pair(Got(c1), Got(c2)), a), a)
    ensures Masked(code, a, WordOf(Pair(Got(c1), Got(c2)), a)) == code[a := Value(c1, c2)]
  {
    PairIsByte(c1, c2);
    ByteOnly(Value(c1, c2), a);
    MaskedByteOnly(code, a, WordOf(Pair(Got(c1), Got(c2)), a), Value(c1, c2));
  }

  lemma ByteOnly(b: Byte, a: U64)
    requires a + 7 < TWO64
    ensures var h := WordOf(b as bv64, a); IsWord(h, a) && h[a] == b && forall x :: a < x < a + 8 ==> h[x] == 0
  {
    NumberOfWord(b as bv64, a);
  }

  lemma MaskedByteOnly(code: Code, a: U64, h: Word, b: Byte)
    requires Mapped(code, a) && IsWord(h, a) && h[a] == b && forall x :: a < x < a + 8 ==> h[x] == 0
    ensures Masked(code, a, h) == code[a := b]
  {
    forall x | x in code ensures Masked(code, a, h)[x] == code[a := b][x] { OrZero(code[x]); }
  }

  lemma OrZero(b: Byte)
    ensures b | 0 == b
  {}

  lemma ToHexIsSmall(c: Byte)
    ensures ToHex(Got(c)) < 256
  {}

  lemma ShiftedBits(h1: bv64, h2: bv64)
    requires h1 < 256 && h2 < 256
    ensures var v := (h1 << 4) | h2;
      && ByteOf(v, 1) == (h1 >> 4) as Byte
      && ByteOf(v, 2) == ByteOf(v, 3) == ByteOf(v, 4) == ByteOf(v, 5) == ByteOf(v, 6) == ByteOf(v, 7) == 0
  {}

  lemma PairBits(c1: Byte, c2: Byte)
    ensures ToHex(Got(c1)) < 256 && ByteOf(Pair(Got(c1), Got(c2)), 1) == (ToHex(Got(c1)) >> 4) as Byte
    ensures var v := Pair(Got(c1), Got(c2));
      ByteOf(v, 2) == ByteOf(v, 3) == ByteOf(v, 4) == ByteOf(v, 5) == ByteOf(v, 6) == ByteOf(v, 7) == 0
  {
    ToHexIsSmall(c1);
    ToHexIsSmall(c2);
    ShiftedBits(ToHex(Got(c1)), ToHex(Got(c2)));
  }

  lemma PairBytes(c1: Byte, c2: Byte, a: U64)
    requires a + 7 < TWO64
    ensures ToHex(Got(c1)) < 256
    ensures var h := WordOf(Pair(Got(c1), Got(c2)), a);
      IsWord(h, a) && h[a + 1] == (ToHex(Got(c1)) >> 4) as Byte && forall x :: a + 1 < x < a + 8 ==> h[x] == 0
  {
    PairBits(c1, c2);
    WordBytes(Pair(Got(c1), Got(c2)), a, (ToHex(Got(c1)) >> 4) as Byte);
  }

  lemma WordBytes(v: bv64, a: U64, b: Byte)
    requires a + 7 < TWO64 && ByteOf(v, 1) == b
    requires ByteOf(v, 2) == ByteOf(v, 3) == ByteOf(v, 4) == ByteOf(v, 5) == ByteOf(v, 6) == ByteOf(v, 7) == 0
    ensures var h := WordOf(v, a); IsWord(h, a) && h[a + 1] == b && forall x :: a + 1 < x < a + 8 ==> h[x] == 0
  {
    WordOfKeys(v, a);
  }

  // Any two characters change that byte, and or the high four bits of what the first was read as into the next; the
  // other bytes stay.
  lemma CharactersPatch(code: Code, a: U64, c1: Byte, c2: Byte)
    requires Mapped(code, a)
    ensures IsWord(WordOf(Pair(Got(c1), Got(c2)), a), a)
    ensures var r := Masked(code, a, WordOf(Pair(Got(c1), Got(c2)), a));
      && r[a + 1] == code[a + 1] | ((ToHex(Got(c1)) >> 4) as Byte)
      && (forall x :: x in code && x != a && x != a + 1 ==> r[x] == code[x])
  {
    PairBytes(c1, c2, a);
    SecondByteOnly(code, a, WordOf(Pair(Got(c1), Got(c2)), a));
  }

  lemma SecondByteOnly(code: Code, a: U64, h: Word)
    requires Mapped(code, a) && IsWord(h, a) && forall x :: a + 1 < x < a + 8 ==> h[x] == 0
    ensures forall x :: x in code && x != a && x != a + 1 ==> Masked(code, a, h)[x] == code[x]
  {
    forall x | x in code && x != a && x != a + 1 ensures Masked(code, a, h)[x] == code[x] { OrZero(code[x]); }
  }

  // So no byte but the one at a changes exactly when those four bits are in the next byte already.
  lemma CharactersPatchOneByteExactly(code: Code, a: U64, c1: Byte, c2: Byte)
    requires Mapped(code, a)
    ensures IsWord(WordOf(Pair(Got(c1), Got(c2)), a), a)
    ensures var r := Masked(code, a, WordOf(Pair(Got(c1), Got(c2)), a));
      (forall x :: x in code && x != a ==> r[x] == code[x])
      <==> code[a + 1] | ((ToHex(Got(c1)) >> 4) as Byte) == code[a + 1]
  {
    CharactersPatch(code, a, c1, c2);
  }

  // At the end of the file all eight bytes become 0xff.
  lemma EofPatchesAll(code: Code, a: U64, c: Char)
    requires Mapped(code, a)
    ensures var h := WordOf(Pair(c, Eof), a);
      IsWord(h, a) && forall x :: x in code ==> Masked(code, a, h)[x] == if a <= x < a + 8 then 0xff else code[x]
  {}

  // ---- a run ---------------------------------------------------------------------------------------------------

  // What reading at position i of the text gives.
  function CharAt(text: seq<Byte>, i: nat): Char {
    if i < |text| then Got(text[i]) else Eof
  }

  function Min(m: nat, n: nat): nat { if m < n then m else n }

  function Max(m: nat, n: nat): nat { if m < n then n else m }

  // Reading on at the end of the file stays there.
  lemma PastTheEnd(text: seq<Byte>, i: nat)
    ensures CharAt(text, Min(i, |text|)) == CharAt(text, i) && CharAt(text, Min(i, |text|) + 1) == CharAt(text, i + 1)
  {}

  function PatchedCode(code: Code, a: U64, hex: bv64): (r: Code)
    requires Mapped(code, a)
    ensures r.Keys == code.Keys
  {
    NumberOfWord(hex, a);
    Masked(code, a, WordOf(hex, a))
  }

  // What characters i and i + 1 of the text make of the word at a.
  function PatchedFrom(text: seq<Byte>, i: nat, code: Code, a: U64): Code
    requires Mapped(code, a)
  {
    PatchedCode(code, a, Pair(CharAt(text, i), CharAt(text, i + 1)))
  }

  lemma PatchedPastTheEnd(text: seq<Byte>, i: nat, code: Code, a: U64)
    requires Mapped(code, a)
    ensures PatchedFrom(text, Min(i, |text|), code, a) == PatchedFrom(text, i, code, a)
  {
    PastTheEnd(text, i);
  }

  // The code, the number of traps met, and where they were met.
  datatype Tally = Tally(code: Code, traps: nat, addrs: seq<U64>)

  // The child stops at `at`: trap number k is replaced by what characters 2 k and 2 k + 1 give.
  function Patched(text: seq<Byte>, t: Tally, at: Point): Tally {
    if !Hits(t.code, at) then t
    else
      var a, k := Dec(at.rip), t.traps;
      Tally(PatchedFrom(text, 2 * k, t.code, a), k + 1, t.addrs + [a])
  }

  function PatchedAll(text: seq<Byte>, t: Tally, stops: seq<Point>): Tally
    decreases |stops|
  {
    if stops == [] then t else PatchedAll(text, Patched(text, t, stops[0]), stops[1..])
  }

  lemma {:induction false} TrapsGrow(text: seq<Byte>, t: Tally, stops: seq<Point>)
    ensures t.traps <= PatchedAll(text, t, stops).traps
    decreases |stops|
  {
    if stops != [] {
      TrapsGrow(text, Patched(text, t, stops[0]), stops[1..]);
    }
  }

  // ---- a text of digits ----------------------------------------------------------------------------------------

  // `addrs[j]` becomes bytes[j], in order.
  function Written(code: Code, addrs: seq<U64>, bytes: seq<Byte>): Code
    requires |addrs| == |bytes|
  {
    if addrs == [] then code
    else Written(code, addrs[..|addrs| - 1], bytes[..|addrs| - 1])[addrs[|addrs| - 1] := bytes[|addrs| - 1]]
  }

  // One more trap.
  lemma NextTrap(bytes: seq<Byte>, code: Code, addrs: seq<U64>, a: U64)
    requires |addrs| < |bytes|
    ensures var k := |addrs|;
      Written(code, addrs + [a], bytes[..k + 1]) == Written(code, addrs, bytes[..k])[a := bytes[k]]
  {
    var k := |addrs|;
    assert (addrs + [a])[..k] == addrs && bytes[..k + 1][..k] == bytes[..k];
  }

  // `bytes` are what the first 2 |bytes| characters stand for, all digits.
  predicate Spells(text: seq<Byte>, bytes: seq<Byte>) {
    HasDigits(text, |bytes|) && Decoded(text, |bytes|) == bytes
  }

  lemma {:induction false} DecodedAt(text: seq<Byte>, n: nat, k: nat)
    requires k < n && 2 * n <= |text|
    ensures Decoded(text, n)[k] == Value(text[2 * k], text[2 * k + 1])
    decreases n
  {
    if k < n - 1 {
      DecodedAt(text, n - 1, k);
    }
  }

  lemma DigitsPatched(text: seq<Byte>, bytes: seq<Byte>, code: Code, a: U64, k: nat)
    requires Mapped(code, a) && Spells(text, bytes) && k < |bytes|
    ensures PatchedFrom(text, 2 * k, code, a) == code[a := bytes[k]]
  {
    DecodedAt(text, |bytes|, k);
    DigitsPatchOneByte(code, a, text[2 * k], text[2 * k + 1]);
  }

  predicate InOrder(bytes: seq<Byte>, code: Code, t: Tally) {
    |t.addrs| == t.traps <= |bytes| && t.code == Written(code, t.addrs, bytes[..t.traps])
  }

  lemma StaysInOrder(text: seq<Byte>, bytes: seq<Byte>, code: Code, t: Tally, at: Point)
    requires Spells(text, bytes) && InOrder(bytes, code, t) && Patched(text, t, at).traps <= |bytes|
    ensures InOrder(bytes, code, Patched(text, t, at))
  {
    if Hits(t.code, at) {
      NextTrap(bytes, code, t.addrs, Dec(at.rip));
      DigitsPatched(text, bytes, t.code, Dec(at.rip), t.traps);
    }
  }

  // As long as the digits last, the code is the original with bytes[j] at the j-th trap, in order.
  lemma {:induction false} PatchesInOrder(text: seq<Byte>, bytes: seq<Byte>, code: Code, t: Tally, stops: seq<Point>)
    requires Spells(text, bytes) && InOrder(bytes, code, t) && PatchedAll(text, t, stops).traps <= |bytes|
    ensures InOrder(bytes, code, PatchedAll(text, t, stops))
    decreases |stops|
  {
    if stops != [] {
      var t' := Patched(text, t, stops[0]);
      TrapsGrow(text, t', stops[1..]);
      StaysInOrder(text, bytes, code, t, stops[0]);
      PatchesInOrder(text, bytes, code, t', stops[1..]);
    }
  }

  // A stop at `at` turns code, traps and cursor into code', traps' and cursor'.
  predicate Stops(text: seq<Byte>, at: Point, code: Code, traps: nat, cursor: nat,
                  code': Code, traps': nat, cursor': nat)
  {
    if Hits(code, at) then
      && code' == PatchedFrom(text, cursor, code, Dec(at.rip))
      && traps' == traps + 1 && cursor' == Min(cursor + 2, Max(|text|, cursor))
    else code' == code && traps' == traps && cursor' == cursor
  }

  lemma StopTallies(text: seq<Byte>, at: Point, t: Tally, cursor: nat, code': Code, traps': nat, cursor': nat)
    requires cursor == Min(2 * t.traps, |text|) && Stops(text, at, t.code, t.traps, cursor, code', traps', cursor')
    ensures var t' := Patched(text, t, at); code' == t'.code && traps' == t'.traps && cursor' == Min(2 * traps', |text|)
  {
    if Hits(t.code, at) { PatchedPastTheEnd(text, 2 * t.traps, t.code, Dec(at.rip)); }
  }

  class Tracer {
    const text: seq<Byte>
    var cursor: nat
    var traps: nat
    var child: Machine

    constructor (text: seq<Byte>, child: Machine)
      ensures this.text == text && cursor == 0 && traps == 0 && this.child == child
    {
      this.text, cursor, traps, this.child := text, 0, 0, child;
    }

    method Fgetc() returns (c: Char)
      modifies this`cursor
      ensures old(cursor) < |text| ==> c == Got(text[old(cursor)]) && cursor == old(cursor) + 1
      ensures old(cursor) >= |text| ==> c == Eof && cursor == old(cursor)
    {
      if cursor < |text| {
        c := Got(text[cursor]);
        cursor := cursor + 1;
      } else {
        c := Eof;
      }
    }

    // The child has stopped at `at`.
    method Stop(at: Point)
      modifies this
      ensures Stops(text, at, old(child.code), old(traps), old(cursor), child.code, traps, cursor)
      ensures child.at == if Hits(old(child.code), at) then at.(rip := Dec(at.rip)) else at
    {
      child := Machine(child.code, at);
      var rip := Dec(at.rip);
      if Mapped(child.code, rip) {
        var w := Peek(child.code, rip);
        TestedLowByte(w, rip, INT3);
        if Number(w, rip) & 0xff == INT3 as bv64 {
          traps := traps + 1;
          var c1 := Fgetc();
          var c2 := Fgetc();
          Patch(rip, Pair(c1, c2));
        }
      }
    }

    // Poke the byte and set rip.
    method Patch(rip: U64, hex: bv64)
      requires Mapped(child.code, rip)
      modifies this`child
      ensures child == Machine(PatchedCode(old(child.code), rip, hex), old(child.at).(rip := rip))
    {
      var w := Peek(child.code, rip);
      var word := (Number(w, rip) & 0xffff_ffff_ffff_ff00) | hex;
      NumberOfWord(hex, rip);
      PokeMasked(child.code, rip, WordOf(hex, rip), hex);
      child := Machine(Poke(child.code, WordOf(word, rip)), child.at.(rip := rip));
    }

    // The loop over all stops.
    method Trace(stops: seq<Point>)
      requires cursor == 0 && traps == 0
      modifies this
      ensures var t := PatchedAll(text, Tally(old(child.code), 0, []), stops);
        child.code == t.code && traps == t.traps && cursor == Min(2 * traps, |text|)
    {
      ghost var code, t := child.code, Tally(child.code, 0, []);
      var i := 0;
      while i < |stops|
        invariant i <= |stops| && cursor == Min(2 * traps, |text|) && child.code == t.code && traps == t.traps
        invariant PatchedAll(text, t, stops[i..]) == PatchedAll(text, Tally(code, 0, []), stops)
      {
        assert stops[i..][0] == stops[i] && stops[i..][1..] == stops[i + 1..];
        ghost var from := cursor;
        Stop(stops[i]);
        StopTallies(text, stops[i], t, from, child.code, traps, cursor);
        t := Patched(text, t, stops[i]);
        i := i + 1;
      }
    }
  }
}
