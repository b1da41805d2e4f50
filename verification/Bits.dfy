/** Numbers as sequences of bits, most significant first, and the JavaScript
    operators that work on the 32-bit form of a number. */
module Bits {
  function Zeros(n: nat): (z: seq<bool>)
    ensures |z| == n
  {
    seq(n, _ => false)
  }

  function Ones(n: nat): (z: seq<bool>)
    ensures |z| == n
  {
    seq(n, _ => true)
  }

  function Xor(a: seq<bool>, b: seq<bool>): (r: seq<bool>)
    requires |a| == |b|
    ensures |r| == |a|
  {
    seq(|a|, i requires 0 <= i < |a| => a[i] != b[i])
  }

  function Or(a: seq<bool>, b: seq<bool>): (r: seq<bool>)
    requires |a| == |b|
    ensures |r| == |a|
  {
    seq(|a|, i requires 0 <= i < |a| => a[i] || b[i])
  }

  function And(a: seq<bool>, b: seq<bool>): (r: seq<bool>)
    requires |a| == |b|
    ensures |r| == |a|
  {
    seq(|a|, i requires 0 <= i < |a| => a[i] && b[i])
  }

  // ----- 32-bit words -----

  type Word = w: seq<bool> | |w| == 32 witness Zeros(32)

  /** The 32-bit form of a number written with at most 32 bits. */
  function Word32(b: seq<bool>): (w: Word)
    requires |b| <= 32
  {
    Zeros(32 - |b|) + b
  }

  /** `w << k`: bits shifted past the top are lost. */
  function ShiftLeft(w: Word, k: nat): (r: Word)
    requires k <= 32
  {
    w[k..] + Zeros(k)
  }

  /** `w >> k`: the sign bit is copied in from the left. */
  function ShiftRight(w: Word, k: nat): (r: Word)
    requires k <= 32
  {
    seq(k, _ => w[0]) + w[..32 - k]
  }

  // ----- Values -----

  /** The number a bit sequence spells, by Horner's rule. */
  function Value(b: seq<bool>): nat {
    if b == [] then 0 else 2 * Value(b[..|b| - 1]) + (if b[|b| - 1] then 1 else 0)
  }

  function Pow2(n: nat): (p: nat)
    ensures p > 0
  {
    if n == 0 then 1 else 2 * Pow2(n - 1)
  }

  lemma {:induction false} ValueAppend(a: seq<bool>, b: seq<bool>)
    ensures Value(a + b) == Value(a) * Pow2(|b|) + Value(b)
    ensures Value(b) < Pow2(|b|)
    decreases |b|
  {
    if b == [] {
      assert a + b == a;
    } else {
      var n := |b| - 1;
      ValueAppend(a, b[..n]);
      assert (a + b)[..|a + b| - 1] == a + b[..n];
      Regroup(Value(a), Pow2(n), Value(b[..n]));
    }
  }

  lemma Regroup(v: nat, p: nat, w: nat)
    ensures 2 * (v * p + w) == v * (2 * p) + 2 * w
  {
  }

  /** Dropping trailing bits is dividing by a power of two. */
  lemma ValueOfPrefix(b: seq<bool>, n: nat)
    requires n <= |b|
    ensures Value(b[..n]) == Value(b) / Pow2(|b| - n)
  {
    assert b == b[..n] + b[n..];
    ValueAppend(b[..n], b[n..]);
    DivideExactly(Value(b[..n]), Pow2(|b| - n), Value(b[n..]));
  }

  lemma DivideExactly(q: nat, d: nat, r: nat)
    requires r < d
    ensures (q * d + r) / d == q
  {
    var k: int := (q * d + r) / d;
    var m: int := (q * d + r) % d;
    assert (k - q) * d == r - m;
    AwayFromZero(k - q, d);
  }

  lemma AwayFromZero(x: int, d: int)
    requires d > 0
    ensures x > 0 ==> x * d >= d
    ensures x < 0 ==> x * d <= -d
  {
  }

  // ----- Exclusive or -----

  lemma XorSelf(a: seq<bool>)
    ensures Xor(a, a) == Zeros(|a|)
  {
  }

  lemma XorZero(a: seq<bool>, b: seq<bool>)
    requires |a| == |b|
    ensures Xor(a, b) == Zeros(|a|) <==> a == b
  {
    if Xor(a, b) == Zeros(|a|) {
      forall i | 0 <= i < |a| ensures a[i] == b[i] { assert Xor(a, b)[i] == Zeros(|a|)[i]; }
    }
  }
}
