/** The StrKey codec of src/config/stellarContracts.ts: the base32 decoder, the
    CRC-16/XMODEM checksum and the contract-address validator (SEP-0023, with
    the base32 alphabet and bit order of section 6 of RFC 4648).

    An octet is its eight bits, most significant first, so that the decoder's
    32-bit accumulator, the encoder and the checksum can be compared bit by bit. */
module StrKey {
  import opened Options
  import opened Bits
  import opened Text

  type Octet = b: seq<bool> | |b| == 8 witness Zeros(8)

  const STRKEY_LENGTH := 56
  const DECODED_LENGTH := 35
  const PAYLOAD_LENGTH := 33

  // ----- Symbols and the bits they spell -----

  /** Position in the base32 alphabet A..Z 2..7, or -1, as `String.indexOf`. */
  function IndexOf(c: char): (d: int)
    ensures -1 <= d < 32
  {
    if 'A' <= c <= 'Z' then c as int - 'A' as int
    else if '2' <= c <= '7' then c as int - '2' as int + 26
    else -1
  }

  function SymbolOf(d: nat): (c: char)
    requires d < 32
    ensures IndexOf(c) == d
  {
    if d < 26 then ('A' as int + d) as char else ('2' as int + (d - 26)) as char
  }

  predicate IsSymbol(c: char) { IndexOf(c) != -1 }

  predicate AllSymbols(s: string) { forall i :: 0 <= i < |s| ==> IsSymbol(s[i]) }

  function FiveBits(d: nat): (b: seq<bool>)
    requires d < 32
    ensures |b| == 5
  {
    [d >= 16, d % 16 >= 8, d % 8 >= 4, d % 4 >= 2, d % 2 == 1]
  }

  function DigitOf(b: seq<bool>): (d: nat)
    requires |b| == 5
    ensures d < 32 && FiveBits(d) == b
  {
    (if b[0] then 16 else 0) + (if b[1] then 8 else 0) + (if b[2] then 4 else 0)
    + (if b[3] then 2 else 0) + (if b[4] then 1 else 0)
  }

  lemma DigitsEqual(d: nat, e: nat)
    requires d < 32 && e < 32 && FiveBits(d) == FiveBits(e)
    ensures d == e
  {
    DigitOfFiveBits(d);
    DigitOfFiveBits(e);
  }

  lemma DigitOfFiveBits(d: nat)
    requires d < 32
    ensures DigitOf(FiveBits(d)) == d
  {
  }

  predicate SymbolBit(s: string, j: nat)
    requires AllSymbols(s) && j < 5 * |s|
  {
    assert IsSymbol(s[j / 5]);
    FiveBits(IndexOf(s[j / 5]))[j % 5]
  }

  /** The bits spelled by a symbol string, five to a symbol. */
  function Spelled(s: string): (b: seq<bool>)
    requires AllSymbols(s)
    ensures |b| == 5 * |s|
  {
    seq(5 * |s|, j requires 0 <= j < 5 * |s| => SymbolBit(s, j))
  }

  /** The bits held in a byte array, eight to an octet. */
  function Flatten(bytes: seq<Octet>): (b: seq<bool>)
    ensures |b| == 8 * |bytes|
  {
    seq(8 * |bytes|, j requires 0 <= j < 8 * |bytes| => bytes[j / 8][j % 8])
  }

  function Grouped(b: seq<bool>): (bytes: seq<Octet>)
    ensures |bytes| == |b| / 8
  {
    seq(|b| / 8, i requires 0 <= i < |b| / 8 => b[8 * i..8 * i + 8])
  }

  lemma FlattenGrouped(b: seq<bool>)
    requires |b| % 8 == 0
    ensures Flatten(Grouped(b)) == b
  {
    forall j | 0 <= j < |b| ensures Flatten(Grouped(b))[j] == b[j] {
      assert Grouped(b)[j / 8] == b[8 * (j / 8)..8 * (j / 8) + 8];
      assert j == 8 * (j / 8) + j % 8;
    }
  }

  lemma FlattenInjective(a: seq<Octet>, b: seq<Octet>)
    requires Flatten(a) == Flatten(b)
    ensures a == b
  {
    assert |a| == |b| by { assert |Flatten(a)| == |Flatten(b)|; }
    forall i | 0 <= i < |a| ensures a[i] == b[i] {
      forall m | 0 <= m < 8 ensures a[i][m] == b[i][m] {
        assert Flatten(a)[8 * i + m] == Flatten(b)[8 * i + m];
      }
    }
  }

  lemma FlattenAppend(bytes: seq<Octet>, o: Octet)
    ensures Flatten(bytes + [o]) == Flatten(bytes) + o
  {
  }

  lemma SpelledInjective(s: string, t: string)
    requires AllSymbols(s) && AllSymbols(t) && Spelled(s) == Spelled(t)
    ensures s == t
  {
    hide FiveBits;
    assert |s| == |t| by { assert |Spelled(s)| == |Spelled(t)|; }
    forall i | 0 <= i < |s| ensures s[i] == t[i] {
      assert IsSymbol(s[i]) && IsSymbol(t[i]);
      forall m | 0 <= m < 5 ensures FiveBits(IndexOf(s[i]))[m] == FiveBits(IndexOf(t[i]))[m] {
        assert Spelled(s)[5 * i + m] == Spelled(t)[5 * i + m];
      }
      assert FiveBits(IndexOf(s[i])) == FiveBits(IndexOf(t[i]));
      DigitsEqual(IndexOf(s[i]), IndexOf(t[i]));
    }
  }

  lemma SpelledAppend(s: string, c: char)
    requires AllSymbols(s) && IsSymbol(c)
    ensures AllSymbols(s + [c]) && Spelled(s + [c]) == Spelled(s) + FiveBits(IndexOf(c))
  {
    hide FiveBits, IndexOf;
  }

  // ----- What decoding and encoding mean -----

  /** The leading floor(5n/8) octets of the number spelled by `n` symbols. */
  function Octets(s: string): (bytes: seq<Octet>)
    requires AllSymbols(s)
    ensures |bytes| == 5 * |s| / 8
  {
    Grouped(Spelled(s)[..8 * (5 * |s| / 8)])
  }

  /** Base32 encoding of whole 40-bit groups: eight symbols for five octets, no padding. */
  function Encode(bytes: seq<Octet>): (s: string)
    requires |bytes| % 5 == 0
    ensures |s| == 8 * (|bytes| / 5)
    ensures AllSymbols(s)
  {
    var b := Flatten(bytes);
    seq(8 * (|bytes| / 5), k requires 0 <= k < 8 * (|bytes| / 5) => SymbolOf(DigitOf(b[5 * k..5 * k + 5])))
  }

  lemma SpelledEncode(bytes: seq<Octet>)
    requires |bytes| % 5 == 0
    ensures Spelled(Encode(bytes)) == Flatten(bytes)
  {
    hide FiveBits, DigitOf, IndexOf, SymbolOf;
    var b, s := Flatten(bytes), Encode(bytes);
    forall j | 0 <= j < |b| ensures Spelled(s)[j] == b[j] {
      var k := j / 5;
      assert j == 5 * k + j % 5;
      assert FiveBits(IndexOf(s[k])) == b[5 * k..5 * k + 5];
    }
  }

  lemma DecodeUndoesEncode(bytes: seq<Octet>)
    requires |bytes| % 5 == 0
    ensures Octets(Encode(bytes)) == bytes
  {
    var b := Flatten(bytes);
    SpelledEncode(bytes);
    assert b[..8 * |bytes|] == b;
    FlattenGrouped(b);
    FlattenInjective(Grouped(b), bytes);
  }

  lemma EncodeUndoesDecode(s: string)
    requires AllSymbols(s) && |s| % 8 == 0
    ensures |Octets(s)| % 5 == 0 && Encode(Octets(s)) == s
  {
    hide Spelled, Flatten, Grouped, Encode, FiveBits;
    var groups := |s| / 8;
    assert |s| == 8 * groups && 5 * |s| / 8 == 5 * groups;
    assert Spelled(s)[..8 * (5 * |s| / 8)] == Spelled(s);
    FlattenGrouped(Spelled(s));
    SpelledEncode(Octets(s));
    SpelledInjective(Encode(Octets(s)), s);
  }

  /** The number a symbol string writes in base 32. */
  function Base32Value(s: string): nat
    requires AllSymbols(s)
  {
    if s == [] then 0
    else
      assert IsSymbol(s[|s| - 1]);
      32 * Base32Value(s[..|s| - 1]) + IndexOf(s[|s| - 1])
  }

  lemma {:induction false} SpelledValue(s: string)
    requires AllSymbols(s)
    ensures Value(Spelled(s)) == Base32Value(s)
    decreases |s|
  {
    if s != [] {
      var n := |s| - 1;
      var d := IndexOf(s[n]);
      assert IsSymbol(s[n]);
      SpelledValue(s[..n]);
      SpelledAppend(s[..n], s[n]);
      assert s == s[..n] + [s[n]];
      ValueAppend(Spelled(s[..n]), FiveBits(d));
      FiveBitsValue(d);
    }
  }

  lemma FiveBitsValue(d: nat)
    requires d < 32
    ensures Value(FiveBits(d)) == d && Pow2(5) == 32
  {
    DigitOfFiveBits(d);
    ValueOfFive(FiveBits(d));
  }

  lemma ValueOfFive(b: seq<bool>)
    requires |b| == 5
    ensures Value(b) == DigitOf(b)
  {
    hide FiveBits;
    assert b[..4][..3] == b[..3] && b[..3][..2] == b[..2] && b[..2][..1] == b[..1] && b[..1][..0] == [];
    assert Value(b[..1]) == if b[0] then 1 else 0;
    assert Value(b[..2]) == 2 * Value(b[..1]) + if b[1] then 1 else 0;
    assert Value(b[..3]) == 2 * Value(b[..2]) + if b[2] then 1 else 0;
    assert Value(b[..4]) == 2 * Value(b[..3]) + if b[3] then 1 else 0;
  }

  /** The decoded bytes, read as one big-endian number, are the base-32 number
      with its last `5n mod 8` bits dropped. */
  lemma OctetsValue(s: string)
    requires AllSymbols(s)
    ensures Value(Flatten(Octets(s))) == Base32Value(s) / Pow2(5 * |s| % 8)
  {
    hide Value, Base32Value, Spelled, Grouped, Flatten, Pow2;
    var n := 8 * (5 * |s| / 8);
    FlattenGrouped(Spelled(s)[..n]);
    ValueOfPrefix(Spelled(s), n);
    SpelledValue(s);
  }

  // ----- The decoder -----

  /** The decoder's accumulator is never masked: it wraps at 32 bits and is read
      through a sign-propagating shift. */
  method DecodeStellarBase32(value: string) returns (r: Option<seq<Octet>>)
    ensures r.Some? <==> AllSymbols(value)
    ensures r.Some? ==> r.value == Octets(value)
  {
    hide FiveBits, IndexOf, Spelled, Flatten, Or, And, ShiftLeft, ShiftRight, Word32, Octets;
    var bytes: seq<Octet>, bits: nat, current: Word := [], 0, Zeros(32);
    for i := 0 to |value|
      invariant AllSymbols(value[..i])
      invariant bits < 8 && 8 * |bytes| + bits == 5 * i
      invariant Flatten(bytes) + current[32 - bits..] == Spelled(value[..i])
    {
      var digit := IndexOf(value[i]);
      if digit == -1 {
        return None;
      }
      assert value[..i + 1] == value[..i] + [value[i]];
      ghost var before := current;
      current := Or(ShiftLeft(current, 5), Word32(FiveBits(digit)));
      bits := bits + 5;
      SymbolShiftedIn(bytes, before, bits, value[..i], value[i], current);
      if bits >= 8 {
        var o := And(ShiftRight(current, bits - 8), Word32(Ones(8)))[24..];
        OctetShiftedOut(bytes, current, bits, o);
        bytes := bytes + [o];
        bits := bits - 8;
      }
    }
    assert value[..|value|] == value;
    AllShiftedOut(bytes, current[32 - bits..], value);
    r := Some(bytes);
  }

  lemma AllShiftedOut(bytes: seq<Octet>, rest: seq<bool>, s: string)
    requires AllSymbols(s) && |rest| < 8 && Flatten(bytes) + rest == Spelled(s)
    ensures bytes == Octets(s)
  {
    hide FiveBits, IndexOf, Spelled, Flatten, Grouped;
    assert Flatten(bytes) == Spelled(s)[..8 * |bytes|];
    FlattenGrouped(Flatten(bytes));
    FlattenInjective(bytes, Octets(s));
  }

  lemma SymbolShiftedIn(bytes: seq<Octet>, before: Word, bits: nat, s: string, c: char, after: Word)
    requires AllSymbols(s) && IsSymbol(c) && 5 <= bits <= 12
    requires Flatten(bytes) + before[37 - bits..] == Spelled(s)
    requires after == Or(ShiftLeft(before, 5), Word32(FiveBits(IndexOf(c))))
    ensures AllSymbols(s + [c]) && Flatten(bytes) + after[32 - bits..] == Spelled(s + [c])
  {
    hide FiveBits, IndexOf, Spelled, Flatten;
    SpelledAppend(s, c);
    var d := FiveBits(IndexOf(c));
    assert after == before[5..] + d;
    assert after[32 - bits..] == before[37 - bits..] + d;
  }

  /** Reading the accumulator takes its eight bits above the low `bits - 8`. */
  lemma OctetShiftedOut(bytes: seq<Octet>, current: Word, bits: nat, o: Octet)
    requires 8 <= bits <= 12 && o == And(ShiftRight(current, bits - 8), Word32(Ones(8)))[24..]
    ensures Flatten(bytes + [o]) + current[40 - bits..] == Flatten(bytes) + current[32 - bits..]
  {
    hide Flatten;
    FlattenAppend(bytes, o);
    assert current[32 - bits..] == o + current[40 - bits..];
  }

  // ----- The checksum -----

  type Register = r: seq<bool> | |r| == 16 witness Zeros(16)

  /** x^12 + x^5 + 1, the polynomial 0x1021 below its leading term. */
  const POLYNOMIAL: Register :=
    [false, false, false, true, false, false, false, false, false, false, true, false, false, false, false, true]

  function CrcBit(r: Register): (s: Register) {
    var shifted := r[1..] + [false];
    if r[0] then Xor(shifted, POLYNOMIAL) else shifted
  }

  function CrcShift(r: Register, n: nat): (s: Register) {
    if n == 0 then r else CrcBit(CrcShift(r, n - 1))
  }

  function CrcByte(r: Register, o: Octet): (s: Register) {
    CrcShift(Xor(r, o + Zeros(8)), 8)
  }

  function Crc(bytes: seq<Octet>): (r: Register) {
    if bytes == [] then Zeros(16) else CrcByte(Crc(bytes[..|bytes| - 1]), bytes[|bytes| - 1])
  }

  lemma CrcAppend(p: seq<Octet>, o: Octet)
    ensures Crc(p + [o]) == CrcByte(Crc(p), o)
  {
    assert (p + [o])[..|p|] == p;
  }

  method Crc16XModem(bytes: seq<Octet>) returns (crc: Word)
    ensures crc == Word32(Crc(bytes))
  {
    crc := Zeros(32);
    for i := 0 to |bytes|
      invariant crc == Word32(Crc(bytes[..i]))
    {
      ghost var entry: Register := Xor(Crc(bytes[..i]), bytes[i] + Zeros(8));
      crc := Xor(crc, ShiftLeft(Word32(bytes[i]), 8));
      assert crc == Word32(entry);
      for bit := 0 to 8
        invariant crc == Word32(CrcShift(entry, bit))
      {
        ghost var r := CrcShift(entry, bit);
        ghost var before := crc;
        crc := if And(crc, Word32([true] + Zeros(15))) != Zeros(32) then Xor(ShiftLeft(crc, 1), Word32(POLYNOMIAL))
               else ShiftLeft(crc, 1);
        crc := And(crc, Word32(Ones(16)));
        WordStep(r);
      }
      assert bytes[..i + 1] == bytes[..i] + [bytes[i]];
      CrcAppend(bytes[..i], bytes[i]);
    }
    assert bytes[..|bytes|] == bytes;
  }

  /** The masked 32-bit shift is the 16-bit shift. */
  lemma WordStep(r: Register)
    ensures (And(Word32(r), Word32([true] + Zeros(15))) != Zeros(32)) == r[0]
    ensures And(ShiftLeft(Word32(r), 1), Word32(Ones(16))) == Word32(r[1..] + [false])
    ensures And(Xor(ShiftLeft(Word32(r), 1), Word32(POLYNOMIAL)), Word32(Ones(16)))
         == Word32(Xor(r[1..] + [false], POLYNOMIAL))
  {
    var w, top := Word32(r), Word32([true] + Zeros(15));
    assert And(w, top)[16] == r[0];
    if !r[0] {
      assert And(w, top) == Zeros(32);
    }
  }

  // ----- Linearity -----

  lemma CrcBitLinear(a: Register, b: Register)
    ensures CrcBit(Xor(a, b)) == Xor(CrcBit(a), CrcBit(b))
  {
  }

  lemma CrcBitInjective(a: Register)
    requires CrcBit(a) == Zeros(16)
    ensures a == Zeros(16)
  {
    assert !CrcBit(a)[15];
    forall j | 0 < j < 16 ensures !a[j] { assert !CrcBit(a)[j - 1]; }
  }

  lemma {:induction false} CrcShiftLinear(a: Register, b: Register, n: nat)
    ensures CrcShift(Xor(a, b), n) == Xor(CrcShift(a, n), CrcShift(b, n))
  {
    hide CrcBit;
    if n > 0 {
      CrcShiftLinear(a, b, n - 1);
      CrcBitLinear(CrcShift(a, n - 1), CrcShift(b, n - 1));
    }
  }

  lemma {:induction false} CrcShiftInjective(a: Register, n: nat)
    requires CrcShift(a, n) == Zeros(16)
    ensures a == Zeros(16)
  {
    hide CrcBit;
    if n > 0 {
      CrcBitInjective(CrcShift(a, n - 1));
      CrcShiftInjective(a, n - 1);
    }
  }

  lemma {:induction false} CrcShiftTwice(r: Register, m: nat, n: nat)
    ensures CrcShift(CrcShift(r, m), n) == CrcShift(r, m + n)
  {
    hide CrcBit;
    if n > 0 {
      CrcShiftTwice(r, m, n - 1);
    }
  }

  /** A register with `k` leading zeros shifts `n <= k` places without a carry. */
  lemma {:induction false} CrcShiftNoCarry(x: seq<bool>, k: nat, n: nat)
    requires n <= k && |x| + k == 16
    ensures CrcShift(Zeros(k) + x, n) == Zeros(k - n) + x + Zeros(n)
  {
    if n > 0 {
      CrcShiftNoCarry(x, k, n - 1);
    }
  }

  /** One byte's step is linear over exclusive or, in register and byte together. */
  lemma CrcByteLinear(c: Register, d: Register, x: Octet, y: Octet)
    ensures CrcByte(Xor(c, d), Bits.Xor(x, y)) == Xor(CrcByte(c, x), CrcByte(d, y))
  {
    hide CrcShift;
    CrcShiftLinear(Xor(c, x + Zeros(8)), Xor(d, y + Zeros(8)), 8);
    assert Xor(Xor(c, d), Bits.Xor(x, y) + Zeros(8)) == Xor(Xor(c, x + Zeros(8)), Xor(d, y + Zeros(8)));
  }

  function XorBytes(p: seq<Octet>, q: seq<Octet>): (r: seq<Octet>)
    requires |p| == |q|
    ensures |r| == |p|
  {
    seq(|p|, i requires 0 <= i < |p| => Bits.Xor(p[i], q[i]))
  }

  /** The checksum of the exclusive or of two messages is the exclusive or of their checksums. */
  lemma {:induction false} CrcLinear(p: seq<Octet>, q: seq<Octet>)
    requires |p| == |q|
    ensures Crc(XorBytes(p, q)) == Xor(Crc(p), Crc(q))
    decreases |p|
  {
    hide CrcByte;
    if p == [] {
      XorSelf(Zeros(16));
    } else {
      var n := |p| - 1;
      CrcLinear(p[..n], q[..n]);
      assert XorBytes(p, q)[..n] == XorBytes(p[..n], q[..n]);
      CrcByteLinear(Crc(p[..n]), Crc(q[..n]), p[n], q[n]);
    }
  }

  /** Two bytes fed in are their sixteen bits folded in at once and shifted through. */
  lemma TwoBytesAtOnce(c: Register, x: Octet, y: Octet)
    ensures CrcByte(CrcByte(c, x), y) == CrcShift(Xor(c, x + y), 16)
  {
    hide CrcBit, CrcShift;
    var a, b: Register := Xor(c, x + Zeros(8)), Zeros(8) + y;
    CrcShiftNoCarry(y, 8, 8);
    assert Zeros(0) + y + Zeros(8) == y + Zeros(8);
    CrcShiftLinear(CrcShift(a, 8), b, 8);
    CrcShiftLinear(a, b, 8);
    CrcShiftTwice(Xor(a, b), 8, 8);
    assert Xor(a, b) == Xor(c, x + y);
  }

  /** A message followed by its own checksum, high byte first, leaves the register empty. */
  lemma CrcResidue(p: seq<Octet>)
    ensures Crc(p + [Crc(p)[..8], Crc(p)[8..]]) == Zeros(16)
  {
    hide CrcByte, CrcShift;
    var c := Crc(p);
    CrcAppend(p, c[..8]);
    CrcAppend(p + [c[..8]], c[8..]);
    assert p + [c[..8], c[8..]] == p + [c[..8]] + [c[8..]];
    TwoBytesAtOnce(c, c[..8], c[8..]);
    assert c[..8] + c[8..] == c;
    XorSelf(c);
    CrcShiftZero(16);
  }

  lemma {:induction false} CrcShiftZero(n: nat)
    ensures CrcShift(Zeros(16), n) == Zeros(16)
  {
    if n > 0 {
      CrcShiftZero(n - 1);
    }
  }

  // ----- Error detection -----

  /** Shifting never makes two registers agree that did not. */
  lemma ShiftKeepsApart(a: Register, b: Register, n: nat)
    requires CrcShift(a, n) == CrcShift(b, n)
    ensures a == b
  {
    hide CrcShift;
    CrcShiftLinear(a, b, n);
    XorSelf(CrcShift(a, n));
    CrcShiftInjective(Xor(a, b), n);
    XorZero(a, b);
  }

  lemma XorCancel(a: Register, b: Register, c: Register)
    requires Xor(a, c) == Xor(b, c)
    ensures a == b
  {
    forall i | 0 <= i < 16 ensures a[i] == b[i] { assert Xor(a, c)[i] == Xor(b, c)[i]; }
  }

  lemma SameByte(c: Register, d: Register, o: Octet)
    requires CrcByte(c, o) == CrcByte(d, o)
    ensures c == d
  {
    hide CrcShift;
    ShiftKeepsApart(Xor(c, o + Zeros(8)), Xor(d, o + Zeros(8)), 8);
    XorCancel(c, d, o + Zeros(8));
  }

  lemma LastTwoBytes(c: Register, x: Octet, y: Octet, x': Octet, y': Octet)
    requires CrcByte(CrcByte(c, x), y) == CrcByte(CrcByte(c, x'), y')
    ensures x == x' && y == y'
  {
    hide CrcShift, CrcByte;
    TwoBytesAtOnce(c, x, y);
    TwoBytesAtOnce(c, x', y');
    ShiftKeepsApart(Xor(c, x + y), Xor(c, x' + y'), 16);
    forall i | 0 <= i < 8 ensures x[i] == x'[i] && y[i] == y'[i] {
      assert Xor(c, x + y)[i] == Xor(c, x' + y')[i];
      assert Xor(c, x + y)[8 + i] == Xor(c, x' + y')[8 + i];
    }
  }

  /** No error confined to two neighbouring bytes leaves the checksum unchanged. */
  lemma {:induction false} BurstDetected(p: seq<Octet>, q: seq<Octet>, a: nat)
    requires |p| == |q| && a + 1 < |p|
    requires forall i :: 0 <= i < |p| && i != a && i != a + 1 ==> p[i] == q[i]
    requires Crc(p) == Crc(q)
    ensures p == q
    decreases |p|
  {
    hide CrcByte;
    var n := |p| - 1;
    if n > a + 1 {
      SameByte(Crc(p[..n]), Crc(q[..n]), p[n]);
      BurstDetected(p[..n], q[..n], a);
      assert p == p[..n] + [p[n]] && q == q[..n] + [q[n]];
    } else {
      assert p[..n][..a] == q[..n][..a] == p[..a];
      LastTwoBytes(Crc(p[..a]), p[a], p[n], q[a], q[n]);
    }
  }

  // ----- Contract addresses -----

  /** The octet 16, `2 << 3`. */
  const VERSION_BYTE: Octet := [false, false, false, true, false, false, false, false]

  function Join(high: Octet, low: Octet): Register {
    var h: seq<bool> := high;
    h + low
  }

  /** Version byte, contract id, and the checksum of both with its low byte first. */
  function Sealed(payload: seq<Octet>): (bytes: seq<Octet>)
    ensures |bytes| == |payload| + 2
  {
    payload + [Crc(payload)[8..], Crc(payload)[..8]]
  }

  /** The address SEP-0023 gives to a 32-byte contract id. */
  function AddressOf(id: seq<Octet>): (s: string)
    requires |id| == 32
    ensures |s| == STRKEY_LENGTH && AllSymbols(s)
  {
    Encode(Sealed([VERSION_BYTE] + id))
  }

  ghost predicate IsAddress(c: string) {
    exists id: seq<Octet> :: |id| == 32 && c == AddressOf(id)
  }

  /** What the validator accepts: an address once surrounding white space is trimmed. */
  ghost predicate Accepted(value: string) { IsAddress(Trim(value)) }

  lemma AddressBytes(id: seq<Octet>)
    requires |id| == 32
    ensures Octets(AddressOf(id)) == Sealed([VERSION_BYTE] + id)
    ensures AddressOf(id)[0] == 'C'
  {
    hide Crc;
    var b := Sealed([VERSION_BYTE] + id);
    DecodeUndoesEncode(b);
    assert Flatten(b)[..5] == VERSION_BYTE[..5] by {
      forall j | 0 <= j < 5 ensures Flatten(b)[j] == VERSION_BYTE[j] { assert b[j / 8] == VERSION_BYTE; }
    }
    assert Flatten(b)[5 * 0..5 * 0 + 5] == [false, false, false, true, false];
  }

  lemma SealedPayload(bytes: seq<Octet>)
    requires |bytes| == DECODED_LENGTH && bytes[0] == VERSION_BYTE
    requires Join(bytes[34], bytes[33]) == Crc(bytes[..33])
    ensures bytes == Sealed([VERSION_BYTE] + bytes[1..33])
  {
    hide Crc;
    assert [VERSION_BYTE] + bytes[1..33] == bytes[..33];
    var crc := Crc(bytes[..33]);
    assert bytes[33] == crc[8..] && bytes[34] == crc[..8];
  }

  method IsValidStellarContractAddress(value: string) returns (valid: bool)
    ensures valid <==> Accepted(value)
  {
    hide Crc, Encode, Octets;
    var candidate := Trim(value);
    if |candidate| != STRKEY_LENGTH || candidate[0] != 'C' || !AllSymbols(candidate[1..]) {
      forall id: seq<Octet> | |id| == 32 ensures candidate != AddressOf(id) { AddressBytes(id); }
      return false;
    }
    var decoded := DecodeStellarBase32(candidate);
    if decoded == None || |decoded.value| != DECODED_LENGTH {
      forall id: seq<Octet> | |id| == 32 ensures candidate != AddressOf(id) { AddressBytes(id); }
      return false;
    }
    var bytes := decoded.value;
    if bytes[0] != VERSION_BYTE {
      forall id: seq<Octet> | |id| == 32 ensures candidate != AddressOf(id) { AddressBytes(id); }
      return false;
    }
    var payload := bytes[..PAYLOAD_LENGTH];
    var expected := Crc16XModem(payload);
    var actual := Or(Word32(bytes[PAYLOAD_LENGTH]), ShiftLeft(Word32(bytes[PAYLOAD_LENGTH + 1]), 8));
    valid := expected == actual;
    assert actual == Word32(Join(bytes[34], bytes[33]));
    WordsEqual(Crc(payload), Join(bytes[34], bytes[33]));
    EncodeUndoesDecode(candidate);
    if valid {
      SealedPayload(bytes);
      assert candidate == AddressOf(bytes[1..33]);
    } else {
      forall id: seq<Octet> | |id| == 32 ensures candidate != AddressOf(id) {
        AddressBytes(id);
        UnsealedPayload([VERSION_BYTE] + id);
      }
    }
  }

  lemma UnsealedPayload(payload: seq<Octet>)
    requires |payload| == PAYLOAD_LENGTH
    ensures Sealed(payload)[..33] == payload && Join(Sealed(payload)[34], Sealed(payload)[33]) == Crc(payload)
  {
    hide Crc;
  }

  lemma WordsEqual(a: Register, b: Register)
    ensures Word32(a) == Word32(b) <==> a == b
  {
    if Word32(a) == Word32(b) {
      assert Word32(a)[16..] == a && Word32(b)[16..] == b;
    }
  }

  /** The id of an accepted address is the one it was made from, and the only one. */
  method StellarContractIdBytes(address: string) returns (r: Option<seq<Octet>>)
    ensures r.Some? <==> Accepted(address)
    ensures forall id: seq<Octet> :: |id| == 32 && Trim(address) == AddressOf(id) ==> r == Some(id)
  {
    hide Crc, Encode, Octets;
    var candidate := Trim(address);
    TrimTwice(address);
    var valid := IsValidStellarContractAddress(candidate);
    if !valid {
      return None;
    }
    var decoded := DecodeStellarBase32(candidate);
    if decoded == None || |decoded.value| != DECODED_LENGTH {
      return None;
    }
    forall id: seq<Octet> | |id| == 32 && candidate == AddressOf(id) ensures decoded.value[1..1 + 32] == id {
      AddressBytes(id);
    }
    return Some(decoded.value[1..1 + 32]);
  }

  // ----- Mistyped addresses -----

  predicate DifferOnlyAt(s: string, t: string, i: nat) {
    |s| == |t| && forall j :: 0 <= j < |s| && j != i ==> s[j] == t[j]
  }

  lemma OctetSpelled(s: string, k: nat)
    requires AllSymbols(s) && 8 * k + 8 <= 5 * |s|
    ensures Octets(s)[k] == Spelled(s)[8 * k..8 * k + 8]
  {
    hide Spelled;
    PrefixSlice(Spelled(s), 8 * (5 * |s| / 8), 8 * k, 8 * k + 8);
  }

  lemma PrefixSlice<T>(s: seq<T>, n: nat, lo: nat, hi: nat)
    requires lo <= hi <= n <= |s|
    ensures s[..n][lo..hi] == s[lo..hi]
  {
  }

  lemma OctetsAgree(s: string, t: string, i: nat, k: nat)
    requires AllSymbols(s) && AllSymbols(t) && |s| == STRKEY_LENGTH && DifferOnlyAt(s, t, i) && k < DECODED_LENGTH
    ensures forall m :: 0 <= m < 8 && (8 * k + m) / 5 != i ==> Octets(s)[k][m] == Octets(t)[k][m]
  {
    hide FiveBits, IndexOf, Octets;
    OctetSpelled(s, k);
    OctetSpelled(t, k);
    forall m | 0 <= m < 8 && (8 * k + m) / 5 != i ensures Octets(s)[k][m] == Octets(t)[k][m] {
      assert s[(8 * k + m) / 5] == t[(8 * k + m) / 5];
    }
  }

  lemma SameOctets(s: string, t: string)
    requires IsAddress(s) && IsAddress(t) && Octets(s)[..33] == Octets(t)[..33]
    ensures s == t
  {
    hide Crc, Encode, Octets;
    var a: seq<Octet> :| |a| == 32 && s == AddressOf(a);
    var b: seq<Octet> :| |b| == 32 && t == AddressOf(b);
    AddressBytes(a);
    AddressBytes(b);
    UnsealedPayload([VERSION_BYTE] + a);
    UnsealedPayload([VERSION_BYTE] + b);
  }

  lemma AddressChecksum(s: string)
    requires IsAddress(s)
    ensures |s| == STRKEY_LENGTH && AllSymbols(s)
    ensures Join(Octets(s)[34], Octets(s)[33]) == Crc(Octets(s)[..33])
  {
    hide Crc, Encode, Octets;
    var a: seq<Octet> :| |a| == 32 && s == AddressOf(a);
    AddressBytes(a);
    UnsealedPayload([VERSION_BYTE] + a);
  }

  /** Character 52 carries four payload bits and the top bit of the checksum's low byte. */
  lemma StraddlingCharacter(c: Register, x: Octet, x': Octet, r: Register, r': Register)
    requires r == CrcByte(c, x) && r' == CrcByte(c, x')
    requires x[..4] == x'[..4] && r[..8] == r'[..8] && r[9..] == r'[9..]
    ensures x == x'
  {
    hide CrcShift, CrcByte, CrcBit;
    var delta := Bits.Xor(x, x');
    var y := delta[4..];
    XorSelf(c);
    CrcByteLinear(c, c, x, x');
    assert CrcByte(Zeros(16), delta) == Xor(r, r');
    assert delta + Zeros(8) == Zeros(4) + (y + Zeros(8)) by { assert delta == Zeros(4) + y; }
    DeltaRegister(delta);
    CrcShiftNoCarry(y + Zeros(8), 4, 1);
    CrcShiftTwice(delta + Zeros(8), 1, 7);
    var moved, unit: Register := Zeros(3) + (y + Zeros(8)) + Zeros(1), Zeros(15) + [true];
    assert !moved[15] && unit[15];
    if r[8] == r'[8] {
      assert Xor(r, r') == Zeros(16);
      CrcShiftInjective(delta + Zeros(8), 8);
      assert delta == (delta + Zeros(8))[..8];
      XorZero(x, x');
    } else {
      CrcShiftNoCarry([true], 15, 7);
      assert Xor(r, r') == Zeros(8) + [true] + Zeros(7);
      ShiftKeepsApart(moved, unit, 7);
    }
  }

  lemma DeltaRegister(delta: Octet)
    ensures CrcByte(Zeros(16), delta) == CrcShift(delta + Zeros(8), 8)
  {
    hide CrcShift;
    assert Xor(Zeros(16), delta + Zeros(8)) == delta + Zeros(8);
  }

  /** No two addresses differ in exactly one character. */
  lemma SingleSubstitution(s: string, t: string, i: nat)
    requires IsAddress(s) && IsAddress(t) && DifferOnlyAt(s, t, i)
    ensures s == t
  {
    hide Crc, Octets, CrcByte, Encode, IsAddress;
    AddressChecksum(s);
    AddressChecksum(t);
    var p, q := Octets(s), Octets(t);
    forall k | 0 <= k < 35 && !(8 * k < 5 * i + 5 && 5 * i < 8 * k + 8) ensures p[k] == q[k] {
      OctetsAgree(s, t, i, k);
    }
    if i < 52 {
      assert p[33] == q[33] && p[34] == q[34];
      BurstDetected(p[..33], q[..33], 5 * i / 8);
    } else if i == 52 {
      OctetsAgree(s, t, 52, 32);
      OctetsAgree(s, t, 52, 33);
      assert p[..33][..32] == q[..33][..32];
      CrcAppend(p[..32], p[32]);
      CrcAppend(q[..32], q[32]);
      assert p[..33] == p[..32] + [p[32]] && q[..33] == q[..32] + [q[32]] && p[..32] == q[..32];
      StraddlingCharacter(Crc(p[..32]), p[32], q[32], Join(p[34], p[33]), Join(q[34], q[33]));
    } else {
      assert p[..33] == q[..33];
    }
    SameOctets(s, t);
  }

  /** Two accepted strings that differ in at most one character name the same address. */
  lemma SingleTypo(s: string, t: string, i: nat)
    requires Accepted(s) && Accepted(t) && DifferOnlyAt(s, t, i)
    ensures Trim(s) == Trim(t)
  {
    hide IsAddress, Trim;
    var c, d := Trim(s), Trim(t);
    AddressChecksum(c);
    AddressChecksum(d);
    SymbolsAreNotSpaces(c);
    SymbolsAreNotSpaces(d);
    var ls, rs := TrimSplits(s);
    var lt, rt := TrimSplits(t);
    if |ls| < |lt| {
      PaddingAligned(s, t, i, ls, c, rs, lt, d, rt);
    } else if |lt| < |ls| {
      PaddingAligned(t, s, i, lt, d, rt, ls, c, rs);
    }
    var offset := |ls|;
    forall j | 0 <= j < 56 && j + offset != i ensures c[j] == d[j] {
      assert s[j + offset] == c[j] && t[j + offset] == d[j];
    }
    SingleSubstitution(c, d, if i >= offset then i - offset else 56);
  }

  lemma SymbolsAreNotSpaces(c: string)
    requires AllSymbols(c)
    ensures forall j :: 0 <= j < |c| ==> !IsSpace(c[j])
  {
    forall j | 0 <= j < |c| ensures !IsSpace(c[j]) { assert IsSymbol(c[j]); }
  }

  /** One changed character cannot slide an address along its padding. */
  lemma PaddingAligned(s: string, t: string, i: nat, ls: string, c: string, rs: string, lt: string, d: string, rt: string)
    requires DifferOnlyAt(s, t, i) && s == ls + c + rs && t == lt + d + rt && |c| == |d| == 56
    requires AllSpaces(ls) && AllSpaces(rs) && AllSpaces(lt) && AllSpaces(rt)
    requires forall j :: 0 <= j < 56 ==> !IsSpace(c[j]) && !IsSpace(d[j])
    ensures |ls| >= |lt|
  {
    assert forall j :: 0 <= j < |s| ==> IsSpace(s[j]) == (j < |ls| || j >= |ls| + 56);
    assert forall j :: 0 <= j < |t| ==> IsSpace(t[j]) == (j < |lt| || j >= |lt| + 56);
    assert s[|ls|] == c[0] && s[|ls| + 1] == c[1];
    assert |lt| > 0 ==> t[|lt| - 1] == lt[|lt| - 1];
    assert t[|lt| + 55] == d[55];
  }

  /** Changing one character of an accepted string leaves it accepted if and only if white space was
      changed into white space. */
  lemma TypoIsAcceptedIff(s: string, t: string, i: nat)
    requires Accepted(s) && DifferOnlyAt(s, t, i) && i < |s| && s[i] != t[i]
    ensures Accepted(t) <==> IsSpace(s[i]) && IsSpace(t[i])
  {
    hide IsAddress, Trim;
    if Accepted(t) {
      SingleTypo(s, t, i);
      ChangedIsPadding(s, t, i);
    }
    if IsSpace(s[i]) && IsSpace(t[i]) {
      PaddingChanges(s, t, i);
    }
  }

  lemma ChangedIsPadding(s: string, t: string, i: nat)
    requires IsAddress(Trim(s)) && Trim(t) == Trim(s) && DifferOnlyAt(s, t, i) && i < |s| && s[i] != t[i]
    ensures IsSpace(s[i]) && IsSpace(t[i])
  {
    hide IsAddress, Trim;
    var c := Trim(s);
    AddressChecksum(c);
    SymbolsAreNotSpaces(c);
    var ls, rs := TrimSplits(s);
    var lt, rt := TrimSplits(t);
    PaddingAligned(s, t, i, ls, c, rs, lt, c, rt);
    PaddingAligned(t, s, i, lt, c, rt, ls, c, rs);
    assert forall j :: |ls| <= j < |ls| + 56 ==> s[j] == c[j - |ls|] == t[j];
    if i < |ls| {
      assert s[i] == ls[i] && t[i] == lt[i];
    } else {
      assert s[i] == rs[i - |ls| - 56] && t[i] == rt[i - |ls| - 56];
    }
  }

  lemma PaddingChanges(s: string, t: string, i: nat)
    requires IsAddress(Trim(s)) && DifferOnlyAt(s, t, i) && i < |s| && IsSpace(s[i]) && IsSpace(t[i])
    ensures Trim(t) == Trim(s)
  {
    hide IsAddress, Trim;
    var c := Trim(s);
    AddressChecksum(c);
    SymbolsAreNotSpaces(c);
    var lead, tail := TrimSplits(s);
    var l, r := |lead|, |lead| + 56;
    assert forall j :: l <= j < r ==> s[j] == c[j - l];
    assert forall j :: 0 <= j < l ==> s[j] == lead[j];
    assert forall j :: r <= j < |s| ==> s[j] == tail[j - r];
    assert t[l..r] == c;
    assert t == t[..l] + c + t[r..];
    TrimPads(t[..l], c, t[r..]);
  }

  /** Such strings exist for every address. */
  lemma PaddingIsNotChecked(c: string)
    requires IsAddress(c)
    ensures Accepted(c + " ") && Accepted(c + "\n") && c + " " != c + "\n" && DifferOnlyAt(c + " ", c + "\n", 56)
  {
    hide IsAddress;
    AddressChecksum(c);
    SymbolsAreNotSpaces(c);
    assert [] + c + " " == c + " " && [] + c + "\n" == c + "\n";
    TrimPads([], c, " ");
    TrimPads([], c, "\n");
    assert (c + " ")[56] != (c + "\n")[56];
  }
}
