/** Decimal digits: the number a digit string denotes, the canonical digits of
    a number, and the in-place renderer the journal writer uses. */
module Decimal {
  import opened Bytes

  const U64_DIGITS: nat := 20

  predicate IsDigit(b: byte) { 48 <= b <= 57 }

  predicate AllDigits(s: Bytes) { forall i :: 0 <= i < |s| ==> IsDigit(s[i]) }

  /** The number a digit string denotes. */
  function Value(s: Bytes): nat
    requires AllDigits(s)
  {
    if s == [] then 0 else 10 * Value(s[..|s| - 1]) + (s[|s| - 1] as int - 48)
  }

  function Digits(n: nat): Bytes {
    if n < 10 then [(48 + n) as byte] else Digits(n / 10) + [(48 + n % 10) as byte]
  }

  function Pow10(k: nat): (p: nat)
    ensures p >= 1
  {
    if k == 0 then 1 else 10 * Pow10(k - 1)
  }

  lemma {:induction false} DigitsShape(n: nat)
    ensures Digits(n) != [] && AllDigits(Digits(n)) && NL !in Digits(n)
  {
    if n >= 10 { DigitsShape(n / 10); }
  }

  lemma {:induction false} DigitsValue(n: nat)
    ensures AllDigits(Digits(n)) && Value(Digits(n)) == n
  {
    DigitsShape(n);
    if n >= 10 {
      DigitsValue(n / 10);
      assert Digits(n)[..|Digits(n)| - 1] == Digits(n / 10);
    }
  }

  lemma DigitsInjective(m: nat, n: nat)
    requires Digits(m) == Digits(n)
    ensures m == n
  {
    DigitsValue(m);
    DigitsValue(n);
  }

  lemma {:induction false} DigitsLength(n: nat, k: nat)
    requires k >= 1
    ensures n < Pow10(k) <==> |Digits(n)| <= k
    decreases k
  {
    if n >= 10 {
      if k > 1 {
        DigitsLength(n / 10, k - 1);
        assert n < Pow10(k) <==> n / 10 < Pow10(k - 1);
      } else {
        DigitsShape(n / 10);
        assert Pow10(1) == 10 * Pow10(0);
      }
    } else {
      assert Pow10(k) >= 10 * 1;
    }
  }

  lemma {:induction false} Pow10Add(a: nat, b: nat)
    ensures Pow10(a + b) == Pow10(a) * Pow10(b)
    decreases a
  {
    if a > 0 { Pow10Add(a - 1, b); }
  }

  /** Digits, padded with zeros to a width. */
  function Padded(n: nat, width: nat): Bytes {
    if width <= 1 then Digits(n) else Padded(n / 10, width - 1) + [(48 + n % 10) as byte]
  }

  lemma {:induction false} PaddedShape(n: nat, width: nat)
    requires width >= 1
    ensures AllDigits(Padded(n, width)) && Value(Padded(n, width)) == n
    ensures |Padded(n, width)| == if n < Pow10(width) then width else |Digits(n)|
  {
    DigitsValue(n);
    DigitsLength(n, 1);
    DigitsShape(n);
    if width > 1 {
      PaddedShape(n / 10, width - 1);
      assert Padded(n, width)[..|Padded(n, width)| - 1] == Padded(n / 10, width - 1);
      assert n < Pow10(width) <==> n / 10 < Pow10(width - 1);
      assert Pow10(width - 1) >= 1;
    } else {
      assert Pow10(1) == 10 * Pow10(0);
    }
  }

  lemma U64Digits(n: nat)
    requires n <= U64_MAX
    ensures |Digits(n)| <= U64_DIGITS
  {
    DigitsLength(n, U64_DIGITS);
    Pow10Add(5, 5);
    Pow10Add(10, 10);
    assert Pow10(5) == 100000;
  }

  /** `render_u64`: digits are written from the back of a 20-byte buffer; the
      returned index is where they start. */
  method RenderU64(buffer: array<byte>, value: nat) returns (index: nat)
    requires buffer.Length == U64_DIGITS && value <= U64_MAX
    modifies buffer
    ensures index < U64_DIGITS && buffer[index..] == Digits(value)
    ensures buffer[..index] == old(buffer[..])[..index]
  {
    U64Digits(value);
    index := U64_DIGITS;
    var left := value;
    var more := true;
    while more
      invariant index <= U64_DIGITS
      invariant more ==> Digits(value) == Digits(left) + buffer[index..] && |Digits(left)| <= index
      invariant !more ==> index < U64_DIGITS && Digits(value) == buffer[index..]
      invariant buffer[..index] == old(buffer[..])[..index]
      decreases more, left
    {
      ghost var was, from := buffer[index..], index;
      DigitsShape(left);
      index := index - 1;
      buffer[index] := (48 + left % 10) as byte;
      assert buffer[index..] == [buffer[index]] + buffer[from..];
      assert buffer[from..] == was;
      assert buffer[..index] == old(buffer[..])[..from][..index];
      if left >= 10 {
        assert Digits(left) == Digits(left / 10) + [buffer[index]];
      }
      left := left / 10;
      more := left != 0;
    }
  }
}
