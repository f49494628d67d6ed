/** Parsing of sizes such as `10 GiB`. */
module SizeParsing {
  import opened Common

  datatype Unit = GiB | GB | G | MiB | MB | M | KiB | KB | K | B

  function Name(u: Unit): string {
    match u
    case GiB => "GiB" case GB => "GB" case G => "G"
    case MiB => "MiB" case MB => "MB" case M => "M"
    case KiB => "KiB" case KB => "KB" case K => "K"
    case B => "B"
  }

  function Factor(u: Unit): nat {
    match u
    case GiB => 0x4000_0000 case GB => 1_000_000_000 case G => 1_000_000_000
    case MiB => 0x10_0000 case MB => 1_000_000 case M => 1_000_000
    case KiB => 0x400 case KB => 1000 case K => 1000
    case B => 1
  }

  /** The conversion table, in the order it is scanned. */
  const TABLE: seq<Unit> := [GiB, GB, G, MiB, MB, M, KiB, KB, K, B]

  predicate IsSpace(c: char) {
    c == ' ' || '\t' <= c <= '\r'
  }

  predicate IsDigit(c: char) {
    '0' <= c <= '9'
  }

  predicate AllDigits(s: string) {
    forall i :: 0 <= i < |s| ==> IsDigit(s[i])
  }

  function StripSpaces(s: string): string {
    if s == "" then "" else (if IsSpace(s[0]) then "" else [s[0]]) + StripSpaces(s[1..])
  }

  function NatOf(digits: string): nat
    requires AllDigits(digits)
  {
    if digits == "" then 0
    else NatOf(digits[..|digits| - 1]) * 10 + (digits[|digits| - 1] as int - '0' as int)
  }

  // ---------------------------------------------------------------------------------------------------------
  // Binary64 arithmetic on natural numbers
  // ---------------------------------------------------------------------------------------------------------

  /** The integers up to here are all representable. */
  const EXACT: nat := 0x20_0000_0000_0000

  /** The distance between representable numbers around `n`. */
  function Spacing(n: nat): (u: nat)
    ensures u > 0
  {
    if n < EXACT then 1 else 2 * Spacing(n / 2)
  }

  /** Rounding to nearest, ties to even, as in section 4.3.1 of IEEE 754-2019; overflow is handled apart. */
  function Round(n: nat): nat {
    var u := Spacing(n);
    var q, r := n / u, n % u;
    if 2 * r < u || (2 * r == u && q % 2 == 0) then q * u else (q + 1) * u
  }

  lemma RoundIsExact(n: nat)
    requires n <= EXACT
    ensures Round(n) == n
  {
    if n == EXACT {
      assert Spacing(n / 2) == 1;
    }
  }

  /** Rounding moves a number by at most half the spacing. */
  lemma RoundIsNearest(n: nat)
    ensures 2 * (if Round(n) > n then Round(n) - n else n - Round(n)) <= Spacing(n)
  {
    var u := Spacing(n);
    var q, r := n / u, n % u;
    assert n == q * u + r;
    assert (q + 1) * u == q * u + u;
  }

  // ---------------------------------------------------------------------------------------------------------
  // The result
  // ---------------------------------------------------------------------------------------------------------

  /** How often a number has to be halved until it fits into the 53 bits of the significand. */
  function Exponent(n: nat): nat {
    if n < EXACT then 0 else 1 + Exponent(n / 2)
  }

  const MAX_EXPONENT: nat := 971

  /** The rounded number is out of range, it is at least 2^1024, and `std::stod` throws out_of_range. */
  predicate BeyondBinary64(n: nat) {
    Exponent(Round(n)) > MAX_EXPONENT
  }

  /**
   A size, the exception for malformed input, the exception for a number beyond binary64, or a product of 2^64 or
   more, whose conversion to the 64-bit result is undefined behaviour.
   */
  datatype Result = Size(n: nat) | NotANumber | OutOfRange | Undefined

  /** The double arithmetic on the number and the unit's factor. */
  function Convert(n: nat, factor: nat): Result {
    if BeyondBinary64(n) then OutOfRange
    else
      var product := Round(Round(n) * factor);
      if product < WORD then Size(product) else Undefined
  }

  function LeadingDigits(s: string): (n: nat)
    ensures n <= |s| && AllDigits(s[..n]) && (n < |s| ==> !IsDigit(s[n]))
  {
    if s == "" || !IsDigit(s[0]) then 0
    else
      var n := LeadingDigits(s[1..]);
      assert s[..n + 1] == [s[0]] + s[1..][..n];
      n + 1
  }

  /** The unit with this name. */
  ghost function UnitNamed(name: string): (r: Option<Unit>)
    ensures r.Some? ==> Name(r.value) == name
    ensures r.None? ==> forall u :: Name(u) != name
  {
    if exists u :: Name(u) == name then (var u :| Name(u) == name; Some(u)) else None
  }

  /** The factor of a unit, where no unit means bytes. */
  ghost function FactorOf(name: string): Option<nat> {
    if name == "" then Some(1)
    else match UnitNamed(name) case Some(u) => Some(Factor(u)) case None => None
  }

  /** The grammar: one or more digits and at most one listed unit. */
  ghost function SizeOf(s: string): Result {
    var n := LeadingDigits(s);
    match FactorOf(s[n..])
    case Some(factor) => if n == 0 then NotANumber else Convert(NatOf(s[..n]), factor)
    case None => NotANumber
  }

  // ---------------------------------------------------------------------------------------------------------
  // The parser
  // ---------------------------------------------------------------------------------------------------------

  predicate OccursAt(s: string, sub: string, p: nat) {
    p <= |s| && sub <= s[p..]
  }

  /** `std::string::find` */
  method FindText(s: string, sub: string) returns (pos: Option<nat>)
    ensures pos.Some? ==> OccursAt(s, sub, pos.value) && forall p: nat :: p < pos.value ==> !OccursAt(s, sub, p)
    ensures pos.None? ==> forall p: nat :: !OccursAt(s, sub, p)
  {
    var i := 0;
    while i <= |s|
      invariant i <= |s| + 1
      invariant forall p: nat :: p < i ==> !OccursAt(s, sub, p)
    {
      if sub <= s[i..] {
        return Some(i);
      }
      i := i + 1;
    }
    return None;
  }

  /** The unit is a suffix of the text. */
  predicate EndsWith(s: string, unit: string) {
    |unit| <= |s| && s[|s| - |unit|..] == unit
  }

  /** The first place where the unit occurs is the end of the text. */
  ghost predicate EndsWithFirst(s: string, unit: string) {
    EndsWith(s, unit) && forall p: nat :: p < |s| - |unit| ==> !OccursAt(s, unit, p)
  }

  /** What the scan of the table settles on: the first unit that ends the text at its first occurrence, if any. */
  ghost predicate ScanResult(s: string, found: Option<Unit>) {
    match found
    case None => forall u :: !EndsWithFirst(s, Name(u))
    case Some(u) => EndsWithFirst(s, Name(u)) && forall v :: EndsWithFirst(s, Name(v)) ==> Rank(u) <= Rank(v)
  }

  function Rank(u: Unit): (i: nat)
    ensures i < |TABLE| && TABLE[i] == u
  {
    match u
    case GiB => 0 case GB => 1 case G => 2 case MiB => 3 case MB => 4 case M => 5 case KiB => 6 case KB => 7 case K => 8 case B => 9
  }

  lemma UnitNames(u: Unit)
    ensures 0 < |Name(u)| <= 3 && forall i :: 0 <= i < |Name(u)| ==> !IsDigit(Name(u)[i])
  {
  }

  lemma RankOfEntry(i: nat)
    requires i < |TABLE|
    ensures Rank(TABLE[i]) == i
  {
  }

  lemma EndIsAnOccurrence(s: string, unit: string, pos: Option<nat>)
    requires pos.Some? ==> OccursAt(s, unit, pos.value) && forall p: nat :: p < pos.value ==> !OccursAt(s, unit, p)
    requires pos.None? ==> forall p: nat :: !OccursAt(s, unit, p)
    ensures EndsWithFirst(s, unit) <==> pos.Some? && s[pos.value..] == unit
  {
    if EndsWithFirst(s, unit) {
      var end: nat := |s| - |unit|;
      assert OccursAt(s, unit, end);
    }
  }

  /** The first entry of the table, from the `i`-th on, whose unit ends the text where it first occurs. */
  ghost function Scan(s: string, i: nat): (found: Option<Unit>)
    decreases |TABLE| - i
  {
    if i >= |TABLE| then None
    else if EndsWithFirst(s, Name(TABLE[i])) then Some(TABLE[i])
    else Scan(s, i + 1)
  }

  lemma {:induction false} ScanIsFirst(s: string, i: nat)
    requires i <= |TABLE| && forall j :: 0 <= j < i ==> !EndsWithFirst(s, Name(TABLE[j]))
    ensures ScanResult(s, Scan(s, i))
    decreases |TABLE| - i
  {
    hide EndsWithFirst, Name, Rank;
    forall v
      ensures EndsWithFirst(s, Name(v)) ==> i <= Rank(v) < |TABLE|
    {
      assert TABLE[Rank(v)] == v;
    }
    if i < |TABLE| {
      RankOfEntry(i);
      if !EndsWithFirst(s, Name(TABLE[i])) {
        ScanIsFirst(s, i + 1);
      }
    }
  }

  /** The scan of the table: where it cuts the text, the length of the text standing for npos, and the factor. */
  method DetermineUnit(s: string) returns (pos: nat, factor: nat)
    ensures pos == ScanEnd(s, Scan(s, 0))
    ensures factor == match Scan(s, 0) case Some(u) => Factor(u) case None => 1
  {
    hide OccursAt, EndsWithFirst, Name, Factor, Rank;
    pos, factor := |s|, 1;
    for i := 0 to |TABLE|
      invariant Scan(s, 0) == Scan(s, i)
    {
      var unit := TABLE[i];
      var at := FindText(s, Name(unit));
      EndIsAnOccurrence(s, Name(unit), at);
      if at.Some? {
        OccurrenceIsInside(s, Name(unit), at.value);
        if s[at.value..] == Name(unit) {
          return at.value, Factor(unit);
        }
      }
    }
  }

  lemma OccurrenceIsInside(s: string, sub: string, p: nat)
    requires OccursAt(s, sub, p)
    ensures p + |sub| <= |s|
  {
  }

  method ParseSize(str: string) returns (r: Result)
    ensures r == SizeOf(StripSpaces(str))
  {
    hide SizeOf, IsSpace, ScanResult, ScanEnd, Scan, AllDigits, Convert, NatOf;
    var s := "";
    assert str[0..] == str;
    for i := 0 to |str|
      invariant StripSpaces(str) == s + StripSpaces(str[i..])
    {
      assert str[i..][1..] == str[i + 1..];
      if !IsSpace(str[i]) {
        s := s + [str[i]];
      }
    }
    assert StripSpaces(str) == s;
    var pos, factor := DetermineUnit(s);
    ScanIsFirst(s, 0);
    ScanFindsTheUnit(s, Scan(s, 0));
    var number := s[..pos];
    if number == "" || !AllDigits(number) {
      r := NotANumber;
    } else {
      r := Convert(NatOf(number), factor);
    }
  }

  /** Only the last entry of the table is the end of another unit's name. */
  lemma NamesEndingInNames(u: Unit, v: Unit)
    requires |Name(u)| < |Name(v)| && Name(v)[|Name(v)| - |Name(u)|..] == Name(u)
    ensures u == B
  {
    var n := Name(v);
    assert forall i :: 0 <= i < |Name(u)| ==> n[|n| - |Name(u)| + i] == Name(u)[i];
  }

  lemma LeadingDigitsAre(s: string, n: nat)
    requires n <= |s| && AllDigits(s[..n]) && (n < |s| ==> !IsDigit(s[n]))
    ensures LeadingDigits(s) == n
  {
    var k := LeadingDigits(s);
    assert forall i :: 0 <= i < n ==> s[..n][i] == s[i];
    assert forall i :: 0 <= i < k ==> s[..k][i] == s[i];
  }

  /** A text whose part after the digits is a unit ends with it at its first occurrence. */
  lemma UnitIsAtTheEnd(s: string, u: Unit)
    requires s[LeadingDigits(s)..] == Name(u)
    ensures EndsWithFirst(s, Name(u))
  {
    var n := LeadingDigits(s);
    UnitNames(u);
    forall p: nat | p < n
      ensures !OccursAt(s, Name(u), p)
    {
      assert s[..n][p] == s[p] && s[p..][0] == s[p];
    }
  }

  /** Where the scan leaves a number, the grammar finds the same number and the same unit. */
  lemma ScanAgreesOnNumbers(s: string, found: Option<Unit>)
    requires ScanResult(s, found)
    requires AllDigits(s[..ScanEnd(s, found)])
    ensures LeadingDigits(s) == ScanEnd(s, found)
    ensures FactorOf(s[ScanEnd(s, found)..]) == Some(if found.Some? then Factor(found.value) else 1)
  {
    var pos := ScanEnd(s, found);
    if found.Some? {
      var u := found.value;
      UnitNames(u);
      assert s[pos..] == Name(u) && s[pos] == Name(u)[0];
      NamesAreDistinct(u, UnitNamed(s[pos..]).value);
    }
    LeadingDigitsAre(s, pos);
  }

  /** Of two units that are suffixes of the same text, an earlier entry of the table has the longer name. */
  lemma EarlierIsLonger(s: string, u: Unit, v: Unit)
    requires EndsWith(s, Name(u)) && EndsWith(s, Name(v)) && Rank(v) <= Rank(u)
    ensures |Name(u)| <= |Name(v)| <= |s|
  {
    hide Name;
    if |Name(v)| < |Name(u)| {
      assert Name(u)[|Name(u)| - |Name(v)|..] == s[|s| - |Name(v)|..];
      NamesEndingInNames(v, u);
      RankOfB(u);
    }
  }

  lemma SuffixOccurs(s: string, unit: string, k: nat, p: nat)
    requires OccursAt(s, unit, p) && k <= |unit|
    ensures OccursAt(s, unit[k..], p + k)
  {
    assert s[p..][k..] == s[p + k..];
  }

  /** A unit whose suffix ends the text at its first occurrence does so too. */
  lemma LongerEndsFirstToo(s: string, u: Unit, v: Unit)
    requires EndsWith(s, Name(u)) && EndsWith(s, Name(v)) && |Name(v)| <= |Name(u)|
    requires EndsWithFirst(s, Name(v))
    ensures EndsWithFirst(s, Name(u))
  {
    hide Name, OccursAt;
    var n, k := |Name(u)|, |Name(u)| - |Name(v)|;
    assert Name(u)[k..] == Name(v) by {
      assert s[|s| - n..][k..] == s[|s| - |Name(v)|..];
    }
    forall p: nat | p < |s| - n
      ensures !OccursAt(s, Name(u), p)
    {
      if OccursAt(s, Name(u), p) {
        SuffixOccurs(s, Name(u), k, p);
      }
    }
  }

  /** First match is longest suffix: no listed unit that the text ends with is longer than the one the scan settles on. */
  lemma ScanTakesLongestSuffix(s: string, found: Unit, u: Unit)
    requires ScanResult(s, Some(found)) && EndsWith(s, Name(u))
    ensures |Name(u)| <= |Name(found)|
  {
    if |Name(found)| <= |Name(u)| {
      LongerEndsFirstToo(s, u, found);
      hide EndsWithFirst, Name, Rank;
      EarlierIsLonger(s, u, found);
    }
  }

  /** Where the scan leaves something else, the part after the digits is no unit. */
  lemma ScanAgreesOnGarbage(s: string, found: Option<Unit>)
    requires ScanResult(s, found)
    requires !AllDigits(s[..ScanEnd(s, found)])
    ensures FactorOf(s[LeadingDigits(s)..]).None?
  {
    hide OccursAt, LeadingDigits, EndsWithFirst;
    var n, pos := LeadingDigits(s), ScanEnd(s, found);
    assert n < pos by {
      assert forall k :: pos <= k <= |s| ==> s[..pos] == s[..k][..pos];
    }
    forall u | s[n..] == Name(u)
      ensures false
    {
      UnitIsAtTheEnd(s, u);
      EndsFirstIsEnds(s, Name(u));
      EndsFirstIsEnds(s, Name(found.value));
      EarlierIsLonger(s, u, found.value);
    }
  }

  lemma EndsFirstIsEnds(s: string, unit: string)
    requires EndsWithFirst(s, unit)
    ensures EndsWith(s, unit)
  {
  }

  lemma RankOfB(u: Unit)
    ensures u == B || Rank(u) < Rank(B)
  {
  }

  /** Where the scan cuts the text. */
  function ScanEnd(s: string, found: Option<Unit>): (pos: nat)
    ensures pos <= |s|
  {
    if found.Some? && |Name(found.value)| <= |s| then |s| - |Name(found.value)| else |s|
  }

  /** The first-match scan accepts and converts what the grammar does. */
  lemma ScanFindsTheUnit(s: string, found: Option<Unit>)
    requires ScanResult(s, found)
    ensures var pos := ScanEnd(s, found);
            SizeOf(s) == if pos == 0 || !AllDigits(s[..pos]) then NotANumber
                         else Convert(NatOf(s[..pos]), if found.Some? then Factor(found.value) else 1)
  {
    hide Convert, NatOf, FactorOf, LeadingDigits, ScanResult, ScanEnd;
    if AllDigits(s[..ScanEnd(s, found)]) {
      ScanAgreesOnNumbers(s, found);
    } else {
      ScanAgreesOnGarbage(s, found);
    }
  }

  lemma NamesAreDistinct(u: Unit, v: Unit)
    requires Name(u) == Name(v)
    ensures u == v
  {
    assert Name(u)[0] == Name(v)[0] && |Name(u)| == |Name(v)|;
    assert |Name(u)| > 1 ==> Name(u)[1] == Name(v)[1];
  }

  // ---------------------------------------------------------------------------------------------------------
  // What the grammar accepts, and with what result
  // ---------------------------------------------------------------------------------------------------------

  /** The text is the digits, then a listed unit or nothing. */
  ghost predicate WrittenAs(s: string, digits: string, unit: Option<Unit>) {
    digits != "" && AllDigits(digits) && s == digits + (match unit case Some(u) => Name(u) case None => "")
  }

  /**
   A string is accepted exactly when, its white space deleted, it is digits and at most one unit, which it then
   determines; the result is the converted product.
   */
  lemma AcceptsExactly(s: string)
    ensures SizeOf(s) != NotANumber <==> exists digits, unit :: WrittenAs(s, digits, unit)
    ensures forall digits, unit :: WrittenAs(s, digits, unit) ==>
              SizeOf(s) == Convert(NatOf(digits), if unit.Some? then Factor(unit.value) else 1)
  {
    var n := LeadingDigits(s);
    forall digits, unit | WrittenAs(s, digits, unit)
      ensures SizeOf(s) == Convert(NatOf(digits), if unit.Some? then Factor(unit.value) else 1)
    {
      WrittenFormIsParsed(s, digits, unit);
    }
    if SizeOf(s) != NotANumber {
      assert s == s[..n] + s[n..];
      var unit := if s[n..] == "" then None else UnitNamed(s[n..]);
      assert WrittenAs(s, s[..n], unit);
    }
  }

  lemma WrittenFormIsParsed(s: string, digits: string, unit: Option<Unit>)
    requires WrittenAs(s, digits, unit)
    ensures SizeOf(s) == Convert(NatOf(digits), if unit.Some? then Factor(unit.value) else 1)
  {
    var n := |digits|;
    assert s[..n] == digits;
    if unit.Some? {
      UnitNames(unit.value);
      assert s[n..] == Name(unit.value) && s[n] == Name(unit.value)[0];
      NamesAreDistinct(unit.value, UnitNamed(s[n..]).value);
    } else {
      assert s[n..] == "";
    }
    LeadingDigitsAre(s, n);
  }

  lemma ExactIsWithin(n: nat)
    requires n <= EXACT
    ensures !BeyondBinary64(n)
  {
    RoundIsExact(n);
    hide Round;
    assert Exponent(n / 2) == 0;
  }

  /** The result is the exact product whenever that is at most 2^53. */
  lemma ExactUpToTwoTo53(n: nat, factor: nat)
    requires n * factor <= EXACT && factor > 0
    ensures Convert(n, factor) == Size(n * factor)
  {
    assert n <= n * factor;
    RoundIsExact(n);
    RoundIsExact(n * factor);
    ExactIsWithin(n);
    hide BeyondBinary64, Round;
  }

  /** Beyond that it need not be: the next integer is not representable and comes back as its even neighbour. */
  lemma InexactBeyond()
    ensures Convert(EXACT + 1, 1) == Size(EXACT)
  {
    assert Spacing((EXACT + 1) / 2) == 1;
    assert Spacing(EXACT + 1) == 2;
    assert Round(EXACT + 1) == EXACT;
    RoundIsExact(EXACT);
    ExactIsWithin(EXACT);
    hide Exponent, Round, Spacing;
  }
}
