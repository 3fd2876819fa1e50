/** The byte-string operations the parsers are built from: partition, split and decimal numbers. */
module Text {
  import opened Core

  /** A text of ASCII characters as the bytes that stand for it. */
  function Ascii(text: string): (bytes: Bytes)
    requires forall i | 0 <= i < |text| :: text[i] < 128 as char
    ensures |bytes| == |text|
  {
    seq(|text|, i requires 0 <= i < |text| => text[i] as int)
  }

  predicate Free(s: Bytes, delimiter: byte) {
    delimiter !in s
  }

  datatype Parts = Parts(before: Bytes, found: bool, after: Bytes)

  /** Python's `partition` with a one-byte separator: cut at its first occurrence. */
  function Partition(s: Bytes, delimiter: byte): (p: Parts)
    ensures Free(p.before, delimiter)
    ensures p.found ==> s == p.before + [delimiter] + p.after
    ensures !p.found ==> p.before == s && p.after == []
  {
    if s == [] then Parts([], false, [])
    else if s[0] == delimiter then Parts([], true, s[1..])
    else
      var rest := Partition(s[1..], delimiter);
      Parts([s[0]] + rest.before, rest.found, rest.after)
  }

  lemma {:induction false} PartitionAt(before: Bytes, delimiter: byte, after: Bytes)
    requires Free(before, delimiter)
    ensures Partition(before + [delimiter] + after, delimiter) == Parts(before, true, after)
  {
    var s := before + [delimiter] + after;
    if before == [] {
      assert s[1..] == after;
    } else {
      assert s[1..] == before[1..] + [delimiter] + after;
      PartitionAt(before[1..], delimiter, after);
    }
  }

  function Split(s: Bytes, delimiter: byte): (parts: seq<Bytes>)
    ensures parts != []
    ensures forall p <- parts :: Free(p, delimiter)
  {
    if s == [] then [[]]
    else
      var rest := Split(s[1..], delimiter);
      if s[0] == delimiter then [[]] + rest
      else
        assert Free(rest[0], delimiter) && Free([s[0]] + rest[0], delimiter);
        [[s[0]] + rest[0]] + rest[1..]
  }

  function Join(parts: seq<Bytes>, delimiter: byte): Bytes {
    if parts == [] then []
    else if |parts| == 1 then parts[0]
    else parts[0] + [delimiter] + Join(parts[1..], delimiter)
  }

  lemma {:induction false} SplitAt(first: Bytes, delimiter: byte, rest: Bytes)
    requires Free(first, delimiter)
    ensures Split(first + [delimiter] + rest, delimiter) == [first] + Split(rest, delimiter)
  {
    var s := first + [delimiter] + rest;
    if first == [] {
      assert s[1..] == rest;
    } else {
      assert s[1..] == first[1..] + [delimiter] + rest;
      SplitAt(first[1..], delimiter, rest);
      assert first == [first[0]] + first[1..];
    }
  }

  lemma {:induction false} SplitFree(s: Bytes, delimiter: byte)
    requires Free(s, delimiter)
    ensures Split(s, delimiter) == [s]
  {
    if s != [] {
      SplitFree(s[1..], delimiter);
      assert s == [s[0]] + s[1..];
    }
  }

  lemma {:induction false} SplitUndoesJoin(parts: seq<Bytes>, delimiter: byte)
    requires parts != [] && forall p <- parts :: Free(p, delimiter)
    ensures Split(Join(parts, delimiter), delimiter) == parts
  {
    if |parts| == 1 {
      SplitFree(parts[0], delimiter);
    } else {
      SplitUndoesJoin(parts[1..], delimiter);
      SplitAt(parts[0], delimiter, Join(parts[1..], delimiter));
    }
  }

  lemma {:induction false} JoinUndoesSplit(s: Bytes, delimiter: byte)
    ensures Join(Split(s, delimiter), delimiter) == s
  {
    if s != [] {
      JoinUndoesSplit(s[1..], delimiter);
      var rest := Split(s[1..], delimiter);
      if s[0] == delimiter {
        assert ([[]] + rest)[1..] == rest;
      } else if |rest| > 1 {
        assert ([[s[0]] + rest[0]] + rest[1..])[1..] == rest[1..];
      }
    }
  }

  predicate IsDigit(b: byte) {
    48 <= b <= 57
  }

  predicate IsNumber(field: Bytes) {
    field != [] && forall b <- field :: IsDigit(b)
  }

  /** Python's `int` on ASCII digits; leading zeros are allowed. */
  function Number(field: Bytes): nat
    requires forall b <- field :: IsDigit(b)
  {
    if field == [] then 0
    else
      assert IsDigit(field[|field| - 1]);
      Number(field[..|field| - 1]) * 10 + (field[|field| - 1] as int - 48)
  }

  /** The decimal form of a natural number, as Python's `str` prints it. */
  function Decimal(n: nat): Bytes {
    if n < 10 then [48 + n] else Decimal(n / 10) + [48 + n % 10]
  }

  lemma {:induction false} NumberUndoesDecimal(n: nat)
    ensures IsNumber(Decimal(n)) && Number(Decimal(n)) == n
  {
    var digits := Decimal(n);
    if n >= 10 {
      NumberUndoesDecimal(n / 10);
      assert digits[..|digits| - 1] == Decimal(n / 10);
    } else {
      assert digits[..0] == [];
    }
  }

  function Pow10(k: nat): nat {
    if k == 0 then 1 else 10 * Pow10(k - 1)
  }

  lemma DigitsOf(a: Bytes, b: Bytes)
    requires forall d <- a + b :: IsDigit(d)
    ensures forall d <- a :: IsDigit(d)
    ensures forall d <- b :: IsDigit(d)
  {
    forall d <- a
      ensures IsDigit(d)
    {
      assert d in a + b;
    }
    forall d <- b
      ensures IsDigit(d)
    {
      assert d in a + b;
    }
  }

  /** The digits on the left count for more, by the number of digits on the right. */
  lemma {:induction false} NumberHasPlaces(a: Bytes, b: Bytes)
    requires (forall d <- a + b :: IsDigit(d)) && (forall d <- a :: IsDigit(d)) && forall d <- b :: IsDigit(d)
    ensures Number(a + b) == Number(a) * Pow10(|b|) + Number(b)
    decreases |b|
  {
    if b == [] {
      assert a + b == a;
    } else {
      var init, last := b[..|b| - 1], b[|b| - 1];
      assert (a + b)[..|a + b| - 1] == a + init;
      DigitsOf(a + init, [last]);
      assert a + b == a + init + [last];
      DigitsOf(init, [last]);
      NumberHasPlaces(a, init);
      assert Number(a) * Pow10(|b|) == Number(a) * Pow10(|init|) * 10;
    }
  }

  lemma DecimalIsFree(n: nat, delimiter: byte)
    requires !IsDigit(delimiter)
    ensures Free(Decimal(n), delimiter)
  {
    NumberUndoesDecimal(n);
  }
}
