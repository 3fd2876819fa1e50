/** The default sharding function: 32-bit FNV-1a, over unbounded integers with an explicit mask. */
module Fnv {
  import opened Core

  const OFFSET_BASIS: nat := 0x811C9DC5
  const PRIME: nat := 0x01000193
  const PRIME_INVERSE: nat := 0x359C449B
  const WORD: nat := 0x1_0000_0000

  /** Python's `^` on non-negative integers, bit by bit. */
  function Xor(a: nat, b: nat): nat {
    if a == 0 then b
    else if b == 0 then a
    else (if a % 2 == b % 2 then 0 else 1) + 2 * Xor(a / 2, b / 2)
  }

  /** Python's `&` on non-negative integers, bit by bit. */
  function And(a: nat, b: nat): nat {
    if a == 0 || b == 0 then 0
    else (if a % 2 == 1 && b % 2 == 1 then 1 else 0) + 2 * And(a / 2, b / 2)
  }

  function Pow2(k: nat): (p: nat)
    ensures p > 0
  {
    if k == 0 then 1 else 2 * Pow2(k - 1)
  }

  lemma WordIsPow2()
    ensures Pow2(32) == WORD
    ensures Pow2(8) == 256
  {
    assert Pow2(8) == 256;
    assert Pow2(16) == 0x1_0000;
    assert Pow2(24) == 0x100_0000;
  }

  lemma LowBit(high: nat, low: nat)
    requires low <= 1
    ensures (low + 2 * high) % 2 == low && (low + 2 * high) / 2 == high
  {
  }

  /** The bits of a number from the lowest one up. */
  lemma XorBits(a: nat, b: nat)
    ensures Xor(a, b) % 2 == if a % 2 == b % 2 then 0 else 1
    ensures Xor(a, b) / 2 == Xor(a / 2, b / 2)
  {
    if a != 0 && b != 0 {
      LowBit(Xor(a / 2, b / 2), if a % 2 == b % 2 then 0 else 1);
    }
  }

  lemma {:induction false} XorBelow(a: nat, b: nat, k: nat)
    requires a < Pow2(k) && b < Pow2(k)
    ensures Xor(a, b) < Pow2(k)
  {
    if k > 0 {
      XorBits(a, b);
      XorBelow(a / 2, b / 2, k - 1);
    }
  }

  lemma {:induction false} XorSelf(b: nat)
    ensures Xor(b, b) == 0
  {
    if b != 0 {
      XorSelf(b / 2);
    }
  }

  lemma {:induction false} XorUndoesItself(a: nat, b: nat)
    ensures Xor(Xor(a, b), b) == a
    decreases a + b
  {
    if a != 0 && b != 0 {
      XorBits(a, b);
      XorUndoesItself(a / 2, b / 2);
      XorBits(Xor(a, b), b);
    } else if a == 0 && b != 0 {
      XorSelf(b);
    }
  }

  lemma DivisionIsUnique(a: int, m: int, q: int, r: int)
    requires m > 0 && 0 <= r < m && a == q * m + r
    ensures a / m == q && a % m == r
  {
    var d := a / m - q;
    assert d >= 1 ==> d * m >= m;
    assert d <= -1 ==> d * m <= -m;
    assert d * m == r - a % m;
  }

  lemma HalfMod(a: nat, m: nat)
    requires m > 0
    ensures a % (2 * m) / 2 == a / 2 % m
    ensures a % (2 * m) % 2 == a % 2
  {
    var q, r := a / 2 / m, a / 2 % m;
    assert a / 2 == q * m + r;
    var low := 2 * r + a % 2;
    assert a == q * (2 * m) + low;
    assert low < 2 * m;
    assert a / (2 * m) == q && a % (2 * m) == low by {
      DivisionIsUnique(a, 2 * m, q, low);
    }
  }

  lemma HalfDiv(a: nat, m: nat)
    requires m > 0
    ensures a / (2 * m) == a / 2 / m
  {
    HalfMod(a, m);
    DivisionIsUnique(a, 2 * m, a / 2 / m, a % (2 * m));
  }

  /** A number below 2^k touches only the low k bits. */
  lemma {:induction false} XorTouchesLowBits(a: nat, b: nat, k: nat)
    requires b < Pow2(k)
    ensures Xor(a, b) % Pow2(k) == Xor(a % Pow2(k), b)
    ensures Xor(a, b) / Pow2(k) == a / Pow2(k)
  {
    if k > 0 {
      var m := Pow2(k - 1);
      XorTouchesLowBits(a / 2, b / 2, k - 1);
      var x := Xor(a, b);
      XorBits(a, b);
      XorBits(a % Pow2(k), b);
      HalfMod(x, m);
      HalfMod(a, m);
      HalfDiv(x, m);
      HalfDiv(a, m);
    }
  }

  lemma AndBits(a: nat, b: nat)
    ensures And(a, b) % 2 == if a % 2 == 1 && b % 2 == 1 then 1 else 0
    ensures And(a, b) / 2 == And(a / 2, b / 2)
  {
    if a != 0 && b != 0 {
      LowBit(And(a / 2, b / 2), if a % 2 == 1 && b % 2 == 1 then 1 else 0);
    }
  }

  /** Masking with 2^k - 1 is reduction modulo 2^k. */
  lemma {:induction false} MaskIsModulo(a: nat, k: nat)
    ensures And(a, Pow2(k) - 1) == a % Pow2(k)
  {
    if k > 0 {
      var m := Pow2(k - 1);
      MaskIsModulo(a / 2, k - 1);
      HalfMod(a, m);
      LowBit(m - 1, 1);
      AndBits(a, 1 + 2 * (m - 1));
      LowBit(a / 2 % m, a % 2);
    }
  }

  /** One round of the hash, as written: xor the byte in, multiply, mask. */
  function Round(digest: nat, b: byte): nat {
    And(Xor(digest, b) * PRIME, 0xFFFFFFFF)
  }

  lemma RoundIsModular(digest: nat, b: byte)
    ensures Round(digest, b) == Xor(digest, b) * PRIME % WORD
  {
    WordIsPow2();
    MaskIsModulo(Xor(digest, b) * PRIME, 32);
  }

  function Digest(digest: nat, key: Bytes): nat
    decreases |key|
  {
    if key == [] then digest else Digest(Round(digest, key[0]), key[1..])
  }

  lemma DigestAppend(digest: nat, a: Bytes, b: Bytes)
    ensures Digest(digest, a + b) == Digest(Digest(digest, a), b)
    decreases |a|
  {
    if a == [] {
      assert a + b == b;
    } else {
      assert (a + b)[1..] == a[1..] + b;
      DigestAppend(Round(digest, a[0]), a[1..], b);
    }
  }

  /** A round changes the lowest byte, and multiplies afterwards. */
  lemma RoundChangesLowByte(digest: nat, b: byte)
    ensures Round(digest, b) == (digest / 256 * 256 + Xor(digest % 256, b)) * PRIME % WORD
  {
    WordIsPow2();
    XorTouchesLowBits(digest, b, 8);
    XorBelow(digest % 256, b, 8);
    RoundIsModular(digest, b);
  }

  lemma OneByteDigest(digest: nat, key: Bytes, high: nat, low: nat, changed: nat)
    requires |key| == 1 && digest == high * 256 + low && low < 256 && changed == Xor(low, key[0])
    ensures Digest(digest, key) == (high * 256 + changed) * PRIME % WORD
  {
    DivisionIsUnique(digest, 256, high, low);
    RoundChangesLowByte(digest, key[0]);
    assert digest / 256 * 256 + Xor(digest % 256, key[0]) == high * 256 + changed;
    assert Digest(digest, key) == Round(digest, key[0]) by {
      assert key[1..] == [];
    }
  }

  /** Digests of the reference hash: of no byte, of a zero byte, and of the byte that clears the lowest one. */
  lemma KnownDigests(key: Bytes, low: nat)
    requires low < 256 && 0x811C9D00 + low == OFFSET_BASIS
    ensures |key| == 0 ==> Digest(OFFSET_BASIS, key) == 0x811C9DC5
    ensures |key| == 1 && key[0] == 0 ==> Digest(OFFSET_BASIS, key) == 0x050C5D1F
    ensures |key| == 1 && key[0] == low ==> Digest(OFFSET_BASIS, key) == 0x400B2700
  {
    if |key| == 1 && key[0] == 0 {
      OneByteDigest(OFFSET_BASIS, key, 0x811C9D, low, low);
    } else if |key| == 1 && key[0] == low {
      XorSelf(low);
      OneByteDigest(OFFSET_BASIS, key, 0x811C9D, low, 0);
    }
  }

  method Fnv1aShard(key: Bytes, shardCount: nat) returns (index: nat)
    requires shardCount > 0
    ensures index < shardCount
    ensures index == Digest(OFFSET_BASIS, key) % shardCount
  {
    var digest: nat := OFFSET_BASIS;
    for i := 0 to |key|
      invariant digest == Digest(OFFSET_BASIS, key[..i])
    {
      assert key[..i + 1] == key[..i] + [key[i]];
      DigestAppend(OFFSET_BASIS, key[..i], [key[i]]);
      digest := And(Xor(digest, key[i]) * PRIME, 0xFFFFFFFF);
    }
    assert key[..|key|] == key;
    index := digest % shardCount;
  }

  /** The same fold with no mask at all: the digest of a machine with unbounded words. */
  function Unmasked(digest: nat, key: Bytes): nat
    decreases |key|
  {
    if key == [] then digest else Unmasked(Xor(digest, key[0]) * PRIME, key[1..])
  }

  lemma MulMod(a: nat, c: nat)
    ensures (a % WORD) * c % WORD == a * c % WORD
  {
    var q := a / WORD;
    assert a * c == q * c * WORD + (a % WORD) * c;
    var low := (a % WORD) * c;
    DivisionIsUnique(a * c, WORD, q * c + low / WORD, low % WORD);
  }

  lemma RoundModWord(digest: nat, b: byte)
    ensures Round(digest % WORD, b) == Xor(digest, b) * PRIME % WORD
    ensures Xor(digest, b) * PRIME % WORD < WORD
  {
    WordIsPow2();
    XorTouchesLowBits(digest, b, 32);
    RoundIsModular(digest % WORD, b);
    MulMod(Xor(digest, b), PRIME);
  }

  /** Masking after every byte and masking once at the end give the same digest. */
  lemma {:induction false} MaskOnceAtTheEnd(digest: nat, key: Bytes)
    ensures Digest(digest % WORD, key) == Unmasked(digest, key) % WORD
    decreases |key|
  {
    if key != [] {
      RoundModWord(digest, key[0]);
      MaskOnceAtTheEnd(Xor(digest, key[0]) * PRIME, key[1..]);
    }
  }

  /** The round with a fixed byte run backwards. */
  function UndoRound(digest: nat, b: byte): nat {
    Xor(digest * PRIME_INVERSE % WORD, b)
  }

  lemma InverseCancels(x: nat)
    requires x < WORD
    ensures (x * PRIME % WORD) * PRIME_INVERSE % WORD == x
    ensures (x * PRIME_INVERSE % WORD) * PRIME % WORD == x
  {
    MulMod(x * PRIME, PRIME_INVERSE);
    MulMod(x * PRIME_INVERSE, PRIME);
    var product := PRIME * PRIME_INVERSE;
    assert product == product / WORD * WORD + 1;
    assert x * PRIME * PRIME_INVERSE == x * product;
    assert x * PRIME_INVERSE * PRIME == x * product;
    DivisionIsUnique(x * product, WORD, x * (product / WORD), x);
  }

  /** For a fixed byte, a round permutes the 32-bit states. */
  lemma RoundIsPermutation(x: nat, b: byte)
    requires x < WORD
    ensures Round(x, b) < WORD && UndoRound(x, b) < WORD
    ensures UndoRound(Round(x, b), b) == x
    ensures Round(UndoRound(x, b), b) == x
  {
    WordIsPow2();
    var b': nat := b;
    XorBelow(x, b', 32);
    XorBelow(x * PRIME_INVERSE % WORD, b', 32);
    RoundIsModular(x, b);
    RoundIsModular(UndoRound(x, b), b);
    InverseCancels(Xor(x, b));
    InverseCancels(x);
    XorUndoesItself(x, b);
    XorUndoesItself(x * PRIME_INVERSE % WORD, b);
  }

  lemma {:induction false} XorCommutes(a: nat, b: nat)
    ensures Xor(a, b) == Xor(b, a)
  {
    if a != 0 && b != 0 {
      XorCommutes(a / 2, b / 2);
    }
  }

  lemma RoundSeparatesBytes(x: nat, b: byte, c: byte)
    requires x < WORD && b != c
    ensures Round(x, b) != Round(x, c)
  {
    WordIsPow2();
    RoundIsModular(x, b);
    RoundIsModular(x, c);
    XorBelow(x, b, 32);
    XorBelow(x, c, 32);
    InverseCancels(Xor(x, b));
    InverseCancels(Xor(x, c));
    XorCommutes(x, b);
    XorCommutes(x, c);
    XorUndoesItself(b, x);
    XorUndoesItself(c, x);
  }

  /** Different states stay different through the same bytes. */
  lemma {:induction false} DigestKeepsApart(x: nat, y: nat, key: Bytes)
    requires x < WORD && y < WORD && x != y
    ensures Digest(x, key) != Digest(y, key)
    decreases |key|
  {
    if key != [] {
      RoundIsPermutation(x, key[0]);
      RoundIsPermutation(y, key[0]);
      DigestKeepsApart(Round(x, key[0]), Round(y, key[0]), key[1..]);
    }
  }

  lemma DigestIsWord(digest: nat, key: Bytes)
    requires digest < WORD
    ensures Digest(digest, key) < WORD
    decreases |key|
  {
    if key != [] {
      RoundIsPermutation(digest, key[0]);
      DigestIsWord(Round(digest, key[0]), key[1..]);
    }
  }

  /** Keys that differ in exactly one byte never share a digest. */
  lemma OneByteSeparates(before: Bytes, b: byte, c: byte, after: Bytes)
    requires b != c
    ensures Digest(OFFSET_BASIS, before + [b] + after) != Digest(OFFSET_BASIS, before + [c] + after)
  {
    var x := Digest(OFFSET_BASIS, before);
    DigestIsWord(OFFSET_BASIS, before);
    RoundSeparatesBytes(x, b, c);
    RoundIsPermutation(x, b);
    RoundIsPermutation(x, c);
    DigestKeepsApart(Round(x, b), Round(x, c), after);
    forall d: byte
      ensures Digest(OFFSET_BASIS, before + [d] + after) == Digest(Round(x, d), after)
    {
      assert before + [d] + after == before + ([d] + after);
      DigestAppend(OFFSET_BASIS, before, [d] + after);
      assert ([d] + after)[1..] == after;
    }
  }
}
