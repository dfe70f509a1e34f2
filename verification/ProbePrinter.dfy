/** The decimal printers of the generated C probe program, for 128-bit integers. */
module ProbePrinter {
  // Arithmetic on these types is checked to stay in range.
  newtype uint128 = n: int | 0 <= n < 0x1_0000_0000_0000_0000_0000_0000_0000_0000
  newtype int128 = n: int | -0x8000_0000_0000_0000_0000_0000_0000_0000 <= n < 0x8000_0000_0000_0000_0000_0000_0000_0000

  function Digit(d: int): char
    requires 0 <= d < 10
  {
    ('0' as int + d) as char
  }

  function Decimal(n: nat): (text: string)
    ensures text != []
  {
    if n < 10 then [Digit(n)] else Decimal(n / 10) + [Digit(n % 10)]
  }

  function SignedDecimal(n: int): string
  {
    if n < 0 then ['-'] + Decimal(-n) else Decimal(n)
  }

  predicate Digits(text: string)
  {
    forall i | 0 <= i < |text| :: '0' <= text[i] <= '9'
  }

  function ValueOf(text: string): nat
    requires Digits(text)
  {
    if text == [] then 0
    else 10 * ValueOf(text[..|text| - 1]) + (text[|text| - 1] as int - '0' as int)
  }

  /** Digits only, at least one, and no leading zero but in zero itself. */
  predicate Canonical(text: string)
  {
    Digits(text) && text != [] && (text[0] == '0' ==> text == "0")
  }

  lemma {:induction false} DecimalIsCanonical(n: nat)
    ensures Canonical(Decimal(n)) && ValueOf(Decimal(n)) == n
    ensures Decimal(n)[0] == '0' <==> n == 0
  {
    if n >= 10 {
      DecimalIsCanonical(n / 10);
      assert Decimal(n)[..|Decimal(n)| - 1] == Decimal(n / 10);
    } else {
      assert Decimal(n)[..0] == [];
    }
  }

  lemma {:induction false} CanonicalIsDecimal(text: string)
    requires Canonical(text)
    ensures Decimal(ValueOf(text)) == text
  {
    var front, last := text[..|text| - 1], text[|text| - 1] as int - '0' as int;
    assert text == front + [text[|text| - 1]] && Digit(last) == text[|text| - 1];
    if front == [] {
      assert ValueOf(front) == 0;
    } else {
      assert forall i | 0 <= i < |front| :: front[i] == text[i];
      CanonicalIsDecimal(front);
      DecimalIsCanonical(ValueOf(front));
      assert ValueOf(text) == 10 * ValueOf(front) + last;
    }
  }

  function Pow10(n: nat): nat
  {
    if n == 0 then 1 else 10 * Pow10(n - 1)
  }

  lemma {:induction false} DecimalLength(n: nat, k: nat)
    requires k > 0 && n < Pow10(k)
    ensures |Decimal(n)| <= k
  {
    if n < 10 {
    } else {
      DecimalLength(n / 10, k - 1);
    }
  }

  function Reversed(s: string): string
  {
    if s == [] then [] else [s[|s| - 1]] + Reversed(s[..|s| - 1])
  }

  lemma ThirtyNineDigits()
    ensures Pow10(39) > 0x1_0000_0000_0000_0000_0000_0000_0000_0000
  {
    assert Pow10(13) == 10000000000000;
    PowAdds(13, 13);
    PowAdds(26, 13);
  }

  lemma {:induction false} PowAdds(m: nat, n: nat)
    ensures Pow10(m + n) == Pow10(m) * Pow10(n)
  {
    if n == 0 {
    } else {
      PowAdds(m, n - 1);
    }
  }

  /** Taking the last digit of what is left moves it to the digits already written. */
  lemma NextDigit(rest: nat, written: string)
    ensures (if rest / 10 != 0 then Decimal(rest / 10) else []) + Reversed(written + [Digit(rest % 10)])
            == Decimal(rest) + Reversed(written)
  {
    assert (written + [Digit(rest % 10)])[..|written|] == written;
  }

  /** Prints the canonical decimal, within the 40 digit slots (in fact 39). */
  method PrintUnsigned(value: uint128) returns (output: string)
    ensures output == Decimal(value as int) && |output| <= 39
  {
    var digits := new char[40];
    var rest: nat, n, more := value as int, 0, true;
    ThirtyNineDigits();
    DecimalLength(value as int, 39);
    while more
      invariant 0 <= n <= 39
      invariant Decimal(value as int) == (if more then Decimal(rest) else []) + Reversed(digits[..n])
      invariant |Reversed(digits[..n])| == n
      decreases more, rest
    {
      NextDigit(rest, digits[..n]);
      ghost var written := digits[..n];
      digits[n] := Digit(rest % 10);
      n := n + 1;
      assert digits[..n] == written + [Digit(rest % 10)] && digits[..n][..n - 1] == written;
      rest := rest / 10;
      more := rest != 0;
    }
    output := [];
    ghost var count := n;
    while n > 0
      invariant 0 <= n <= count
      invariant output + Reversed(digits[..n]) == Decimal(value as int)
    {
      n := n - 1;
      assert digits[..n + 1][..n] == digits[..n];
      output := output + [digits[n]];
    }
  }

  /** Exact for every value, the smallest included: no intermediate result overflows. */
  method PrintSigned(value: int128) returns (output: string)
    ensures output == SignedDecimal(value as int)
  {
    if value < 0 {
      var digits := PrintUnsigned((-(value + 1)) as uint128 + 1);
      return ['-'] + digits;
    } else {
      output := PrintUnsigned(value as uint128);
    }
  }

  /** The printed texts of two integers, signed or not, are equal exactly when the integers are. */
  lemma SameTextIffSameValue(m: int, n: int)
    ensures SignedDecimal(m) == SignedDecimal(n) <==> m == n
  {
    SignedDecimalDetermines(m);
    SignedDecimalDetermines(n);
  }

  function SignedValueOf(text: string): int
    requires text != [] && Digits(if text[0] == '-' then text[1..] else text)
  {
    if text[0] == '-' then 0 - ValueOf(text[1..]) else ValueOf(text)
  }

  lemma SignedDecimalDetermines(n: int)
    ensures
      var text := SignedDecimal(n);
      && text != [] && Digits(if text[0] == '-' then text[1..] else text)
      && SignedValueOf(text) == n
  {
    DecimalIsCanonical(if n < 0 then -n else n);
    if n < 0 {
      assert SignedDecimal(n)[1..] == Decimal(-n);
    }
  }
}
