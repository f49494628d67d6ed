/** What a parsed size denotes: white space, digits, units, and how far binary64 is from the exact product. */
module SizeMeaning {
  import opened Common
  import opened SizeParsing

  // ---------------------------------------------------------------------------------------------------------
  // The text
  // ---------------------------------------------------------------------------------------------------------

  /** The white space of the C locale, as section 7.4.1.10 of ISO C lists it. */
  const SPACES: string := " \t\n\U{0B}\U{0C}\r"

  lemma {:induction false} StripOfSum(a: string, b: string)
    ensures StripSpaces(a + b) == StripSpaces(a) + StripSpaces(b)
  {
    if a == "" {
      assert a + b == b;
    } else {
      assert (a + b)[1..] == a[1..] + b;
      StripOfSum(a[1..], b);
    }
  }

  lemma StripOfOne(c: char)
    ensures StripSpaces([c]) == if c in SPACES then "" else [c]
  {
    assert [c][1..] == "";
    assert c in SPACES <==> IsSpace(c);
  }

  /** White space is dropped wherever it stands, and every other character is kept in its place. */
  lemma StripSpacesMeans(before: string, c: char, after: string)
    ensures StripSpaces("") == ""
    ensures StripSpaces(before + [c] + after) ==
            StripSpaces(before) + (if c in SPACES then "" else [c]) + StripSpaces(after)
  {
    StripOfSum(before + [c], after);
    StripOfSum(before, [c]);
    StripOfOne(c);
  }

  const DIGITS: string := "0123456789"

  /** The decimal representation of a number. */
  function Decimal(n: nat): string {
    if n < 10 then [DIGITS[n]] else Decimal(n / 10) + [DIGITS[n % 10]]
  }

  lemma DigitsAreDigits(d: nat)
    requires d < 10
    ensures IsDigit(DIGITS[d]) && DIGITS[d] as int - '0' as int == d
    ensures DIGITS[d] == '0' <==> d == 0
  {
  }

  lemma {:induction false} NatOfOneMore(digits: string, c: char)
    requires AllDigits(digits) && IsDigit(c)
    ensures AllDigits(digits + [c]) && NatOf(digits + [c]) == NatOf(digits) * 10 + (c as int - '0' as int)
  {
    assert (digits + [c])[..|digits|] == digits;
  }

  /** Reading a decimal representation gives the number. */
  lemma {:induction false} NatOfDecimal(n: nat)
    ensures Decimal(n) != "" && AllDigits(Decimal(n)) && NatOf(Decimal(n)) == n
    ensures Decimal(n)[0] == '0' <==> n == 0
  {
    DigitsAreDigits(n % 10);
    if n < 10 {
      NatOfOneMore("", DIGITS[n]);
      assert "" + [DIGITS[n]] == [DIGITS[n]];
    } else {
      NatOfDecimal(n / 10);
      NatOfOneMore(Decimal(n / 10), DIGITS[n % 10]);
    }
  }

  lemma {:induction false} LeadingZeros(digits: string)
    requires AllDigits(digits)
    ensures AllDigits("0" + digits) && NatOf("0" + digits) == NatOf(digits)
  {
    if digits == "" {
      assert "" + ['0'] == "0" + digits;
      NatOfOneMore("", '0');
    } else {
      var init, c := digits[..|digits| - 1], digits[|digits| - 1];
      LeadingZeros(init);
      assert digits == init + [c] && "0" + digits == ("0" + init) + [c];
      NatOfOneMore(init, c);
      NatOfOneMore("0" + init, c);
    }
  }

  lemma DecimalOfDigit(c: char)
    requires IsDigit(c)
    ensures Decimal(c as int - '0' as int) == [c]
  {
    assert DIGITS[c as int - '0' as int] == c;
  }

  lemma DecimalOneMore(n: nat, c: char)
    requires n > 0 && IsDigit(c)
    ensures Decimal(n * 10 + (c as int - '0' as int)) == Decimal(n) + [c]
  {
    var d: nat := c as int - '0' as int;
    assert DIGITS[d] == c;
    assert (n * 10 + d) / 10 == n && (n * 10 + d) % 10 == d;
  }

  /** Without leading zeros, digits are the decimal representation of what they denote. */
  lemma {:induction false} DecimalOfNatOf(digits: string)
    requires AllDigits(digits) && digits != "" && digits[0] != '0'
    ensures NatOf(digits) > 0 && Decimal(NatOf(digits)) == digits
  {
    var init, c := digits[..|digits| - 1], digits[|digits| - 1];
    assert digits == init + [c] && AllDigits(init) && IsDigit(c);
    assert NatOf("") == 0;
    NatOfOneMore(init, c);
    DecimalOfDigit(c);
    hide NatOf, Decimal, AllDigits;
    if init != "" {
      DecimalOfNatOf(init);
      DecimalOneMore(NatOf(init), c);
    }
  }

  /** What each of the units multiplies with. */
  lemma UnitsMean(digits: string)
    requires digits != "" && AllDigits(digits)
    ensures SizeOf(digits) == SizeOf(digits + "B") == Convert(NatOf(digits), 1)
    ensures SizeOf(digits + "K") == SizeOf(digits + "KB") == Convert(NatOf(digits), 1000)
    ensures SizeOf(digits + "M") == SizeOf(digits + "MB") == Convert(NatOf(digits), 1000 * 1000)
    ensures SizeOf(digits + "G") == SizeOf(digits + "GB") == Convert(NatOf(digits), 1000 * 1000 * 1000)
    ensures SizeOf(digits + "KiB") == Convert(NatOf(digits), 1024)
    ensures SizeOf(digits + "MiB") == Convert(NatOf(digits), 1024 * 1024)
    ensures SizeOf(digits + "GiB") == Convert(NatOf(digits), 1024 * 1024 * 1024)
  {
    hide SizeOf, Convert, NatOf, AllDigits;
    assert digits + "" == digits;
    WrittenFormIsParsed(digits, digits, None);
    forall u
      ensures SizeOf(digits + Name(u)) == Convert(NatOf(digits), Factor(u))
    {
      WrittenFormIsParsed(digits + Name(u), digits, Some(u));
    }
    assert Name(B) == "B" && Name(K) == "K" && Name(KB) == "KB" && Name(KiB) == "KiB" && Name(M) == "M";
    assert Name(MB) == "MB" && Name(MiB) == "MiB" && Name(G) == "G" && Name(GB) == "GB" && Name(GiB) == "GiB";
  }

  // ---------------------------------------------------------------------------------------------------------
  // The arithmetic
  // ---------------------------------------------------------------------------------------------------------

  function Pow2(k: nat): (p: nat)
    ensures p > 0
  {
    if k == 0 then 1 else 2 * Pow2(k - 1)
  }

  /** The spacing is the power of two that leaves 53 bits for the significand. */
  lemma {:induction false} SpacingLeaves53Bits(n: nat) returns (k: nat)
    ensures Spacing(n) == Pow2(k) && n < EXACT * Spacing(n)
    ensures if n < EXACT then k == 0 else k > 0 && EXACT * Pow2(k - 1) <= n
  {
    if n < EXACT {
      k := 0;
    } else {
      var j := SpacingLeaves53Bits(n / 2);
      k := j + 1;
    }
  }

  function Distance(a: nat, b: nat): nat {
    if a < b then b - a else a - b
  }

  lemma NeighbouringMultiples(n: nat, u: nat, q: nat, up: nat)
    requires u > 0 && q == n / u && up == q + 1
    ensures n == q * u + n % u && up * u == q * u + u && n % u < u
  {
  }

  /** Rounding gives a multiple of the spacing that is nearest to the number, and the even one of two equally near. */
  lemma RoundMeans(n: nat) returns (q: nat)
    ensures Round(n) == q * Spacing(n)
    ensures 2 * Distance(Round(n), n) <= Spacing(n)
    ensures 2 * Distance(Round(n), n) == Spacing(n) ==> q % 2 == 0
  {
    hide Spacing;
    var u := Spacing(n);
    q := n / u;
    var r, up := n % u, q + 1;
    var isDown := 2 * r < u || (2 * r == u && q % 2 == 0);
    assert Round(n) == if isDown then q * u else up * u;
    hide Round;
    NeighbouringMultiples(n, u, q, up);
    q := if isDown then q else up;
  }

  /** The halvings count the doublings of 2^53 below the number. */
  lemma {:induction false} ExponentCounts(n: nat, k: nat)
    ensures Exponent(n) > k <==> n >= EXACT * Pow2(k)
  {
    if n >= EXACT && k > 0 {
      ExponentCounts(n / 2, k - 1);
    } else if k > 0 {
      assert Pow2(k) >= 1;
    }
  }

  /** A number is too large for binary64 exactly when it rounds to 2^1024 or more, for 2^53 times 2^971. */
  lemma TooLargeExactly(n: nat)
    ensures BeyondBinary64(n) <==> Round(n) >= EXACT * Pow2(MAX_EXPONENT)
  {
    hide Pow2, Exponent, Round;
    ExponentCounts(Round(n), MAX_EXPONENT);
  }

  /** One rounding is off by at most one part in 2^53. */
  lemma RoundIsClose(n: nat)
    ensures EXACT * Distance(Round(n), n) <= n
  {
    var _ := RoundMeans(n);
    if n < EXACT {
      RoundIsExact(n);
    } else {
      var k := SpacingLeaves53Bits(n);
      HalfSpacing(Distance(Round(n), n), Pow2(k - 1));
    }
  }

  lemma HalfSpacing(d: nat, half: nat)
    requires 2 * d <= 2 * half
    ensures EXACT * d <= EXACT * half
  {
  }

  lemma ScaledDistance(a: nat, b: nat, factor: nat)
    ensures Distance(a * factor, b * factor) == Distance(a, b) * factor
  {
    if a < b {
      assert (b - a) * factor == b * factor - a * factor;
      assert a * factor <= b * factor;
    } else {
      assert (a - b) * factor == a * factor - b * factor;
      assert b * factor <= a * factor;
    }
  }

  /** Scaling a bound by the unit. */
  lemma ScaledBound(d: nat, n: nat, factor: nat)
    requires EXACT * d <= n
    ensures EXACT * (d * factor) <= n * factor
  {
    assert EXACT * (d * factor) == (EXACT * d) * factor;
    assert (EXACT * d) * factor <= n * factor;
  }

  /** Two roundings, each off by one part in 2^53 at most, are together off by three at most. */
  lemma TwoRoundings(exact: nat, product: nat, result: nat, bound: nat)
    requires EXACT * Distance(product, exact) <= exact && EXACT * Distance(result, product) <= product
    ensures EXACT * Distance(result, exact) <= 3 * exact
    ensures bound <= result ==> EXACT * bound <= EXACT * exact + 3 * exact
  {
    assert Distance(result, exact) <= Distance(result, product) + Distance(product, exact);
    assert product <= exact + Distance(product, exact) <= 2 * exact;
  }

  /**
   A converted size is the rounded product of the rounded number; it is below 2^64, and off the exact product by at
   most three parts in 2^53. A conversion is undefined only where the exact product, give or take as much, is 2^64 or
   more, and out of range only where the number itself is.
   */
  lemma ConversionIsClose(n: nat, factor: nat)
    ensures Convert(n, factor).OutOfRange? <==> Round(n) >= EXACT * Pow2(MAX_EXPONENT)
    ensures Convert(n, factor).Size? ==>
              && Convert(n, factor).n == Round(Round(n) * factor) < 0x1_0000_0000_0000_0000
              && EXACT * Distance(Convert(n, factor).n, n * factor) <= 3 * (n * factor)
    ensures Convert(n, factor).Undefined? ==>
              && Round(Round(n) * factor) >= 0x1_0000_0000_0000_0000
              && EXACT * 0x1_0000_0000_0000_0000 <= EXACT * (n * factor) + 3 * (n * factor)
    ensures Convert(n, factor) != NotANumber
  {
    hide Round, Pow2, BeyondBinary64, Distance;
    TooLargeExactly(n);
    RoundIsClose(n);
    RoundIsClose(Round(n) * factor);
    ScaledDistance(Round(n), n, factor);
    ScaledBound(Distance(Round(n), n), n, factor);
    var exact, product := n * factor, Round(n) * factor;
    TwoRoundings(exact, product, Round(product), WORD);
  }
}
