/** The price-range filter of a search. A range is written as a number P,
    as P-, as -P or as P1-P2, where a number is a run of digits with an
    optional point and one or two decimals (\d+(\.\d{1,2})?); a blank range
    matches every price and anything else matches none. */
module PriceRanges {
  import opened Text

  /** What a range expression means once parsed. */
  datatype Range =
    | AnyPrice
    | Exactly(target: real)
    | AtLeast(min: real)
    | AtMost(max: real)
    | Between(min: real, max: real)
    | NoPrice

  predicate IsDigit(c: char) {
    '0' <= c <= '9'
  }

  /** \d+ */
  predicate IsDigits(s: string) {
    |s| >= 1 && forall k :: 0 <= k < |s| ==> IsDigit(s[k])
  }

  /** The index of the first occurrence of c in s, or |s| when there is none. */
  function Find(s: string, c: char): (i: nat)
    ensures i <= |s| && c !in s[..i] && (i < |s| ==> s[i] == c)
  {
    if s == [] then 0 else if s[0] == c then 0 else 1 + Find(s[1..], c)
  }

  lemma {:induction false} FindAfter(a: string, b: string, c: char)
    requires c !in a
    ensures Find(a + b, c) == |a| + Find(b, c)
  {
    if a != [] {
      assert (a + b)[1..] == a[1..] + b;
      FindAfter(a[1..], b, c);
    } else {
      assert a + b == b;
    }
  }

  /** \d+(\.\d{1,2})? */
  predicate IsNumber(s: string) {
    var d := Find(s, '.');
    if d == |s| then IsDigits(s)
    else IsDigits(s[..d]) && IsDigits(s[d + 1..]) && |s| - d - 1 <= 2
  }

  function DigitValue(c: char): nat {
    if IsDigit(c) then (c as int - '0' as int) as nat else 0
  }

  function DigitsValue(s: string): nat {
    if s == [] then 0 else 10 * DigitsValue(s[..|s| - 1]) + DigitValue(s[|s| - 1])
  }

  function Pow10(n: nat): (r: nat)
    ensures r >= 1
  {
    if n == 0 then 1 else 10 * Pow10(n - 1)
  }

  /** Double.parseDouble of a number of the grammar, taken as an exact decimal. */
  function NumberValue(s: string): real
    requires IsNumber(s)
  {
    var d := Find(s, '.');
    if d == |s| then DigitsValue(s) as real
    else DigitsValue(s[..d]) as real + DigitsValue(s[d + 1..]) as real / Pow10(|s| - d - 1) as real
  }

  /** matchesPriceRange's parse: blank matches everything; otherwise the
      four regular expressions are tried in order on the trimmed range. */
  function Parse(range: string): (r: Range)
    ensures r == AnyPrice <==> IsBlank(range)
  {
    if IsBlank(range) then AnyPrice else ParseTrimmed(Trim(range))
  }

  function ParseTrimmed(t: string): (r: Range)
    ensures r != AnyPrice
  {
    if IsNumber(t) then Exactly(NumberValue(t))
    else if |t| >= 1 && t[|t| - 1] == '-' && IsNumber(t[..|t| - 1]) then AtLeast(NumberValue(t[..|t| - 1]))
    else if |t| >= 1 && t[0] == '-' && IsNumber(t[1..]) then AtMost(NumberValue(t[1..]))
    else ParsePair(t)
  }

  /** The form P1-P2, whose two numbers are the two pieces of split("-"). */
  function ParsePair(t: string): (r: Range)
    ensures r.Between? || r == NoPrice
  {
    var dash := Find(t, '-');
    if dash < |t| && IsNumber(t[..dash]) && IsNumber(t[dash + 1..]) then
      var parts := SplitOn(t, '-');
      if |parts| == 2 && IsNumber(parts[0]) && IsNumber(parts[1]) then
        Between(NumberValue(parts[0]), NumberValue(parts[1]))
      else NoPrice
    else NoPrice
  }

  predicate Matches(price: real, r: Range) {
    match r
    case AnyPrice => true
    case Exactly(p) => price == p
    case AtLeast(lo) => price >= lo
    case AtMost(hi) => price <= hi
    case Between(lo, hi) => lo <= price && price <= hi
    case NoPrice => false
  }

  /** matchesPriceRange. */
  predicate MatchesPriceRange(price: real, range: string) {
    Matches(price, Parse(range))
  }

  // ----- the grammar, form by form

  lemma NumberHasNoDash(n: string)
    requires IsNumber(n)
    ensures '-' !in n && n != [] && IsDigit(n[0]) && IsDigit(n[|n| - 1])
  {
    var d := Find(n, '.');
    if d < |n| {
      assert n == n[..d] + ['.'] + n[d + 1..];
      assert n[0] == n[..d][0];
      assert n[|n| - 1] == n[d + 1..][|n| - d - 2];
    }
  }

  lemma NumberTrimmed(n: string)
    requires IsNumber(n)
    ensures !IsBlank(n) && Trim(n) == n
  {
    NumberHasNoDash(n);
    TrimmedUnchanged(n);
  }

  lemma DashNotNumber(s: string, k: nat)
    requires k < |s| && s[k] == '-'
    ensures !IsNumber(s)
  {
    if IsNumber(s) {
      NumberHasNoDash(s);
    }
  }

  /** A number alone matches exactly that price. */
  lemma ParseExact(n: string)
    requires IsNumber(n)
    ensures Parse(n) == Exactly(NumberValue(n))
  {
    NumberTrimmed(n);
  }

  /** A number followed by a dash matches the prices from it upwards. */
  lemma ParseAtLeast(n: string)
    requires IsNumber(n)
    ensures Parse(n + "-") == AtLeast(NumberValue(n))
  {
    var t := n + "-";
    NumberHasNoDash(n);
    TrimmedUnchanged(t);
    assert !IsBlank(t);
    DashNotNumber(t, |n|);
    assert t[..|t| - 1] == n;
  }

  /** A dash followed by a number matches the prices up to it. */
  lemma ParseAtMost(n: string)
    requires IsNumber(n)
    ensures Parse("-" + n) == AtMost(NumberValue(n))
  {
    var t := "-" + n;
    NumberHasNoDash(n);
    TrimmedUnchanged(t);
    assert !IsBlank(t);
    DashNotNumber(t, 0);
    assert t[1..] == n;
    assert t[|t| - 1] == n[|n| - 1];
  }

  /** A range without surrounding blanks is parsed as written. */
  lemma ParseUntrimmed(t: string)
    requires t != [] && !IsTrimmable(t[0]) && !IsTrimmable(t[|t| - 1])
    ensures Parse(t) == ParseTrimmed(t)
  {
    TrimmedUnchanged(t);
  }

  lemma PairParses(lo: string, hi: string)
    requires IsNumber(lo) && IsNumber(hi)
    ensures ParsePair(lo + "-" + hi) == Between(NumberValue(lo), NumberValue(hi))
  {
    var t := lo + "-" + hi;
    NumberHasNoDash(lo);
    NumberHasNoDash(hi);
    FindAfter(lo, "-" + hi, '-');
    assert t == lo + ("-" + hi);
    assert t[..|lo|] == lo && t[|lo| + 1..] == hi;
    SplitOnOne(lo, hi, '-');
  }

  /** Two numbers around a dash match the closed interval between them. */
  lemma ParseBetween(lo: string, hi: string)
    requires IsNumber(lo) && IsNumber(hi)
    ensures Parse(lo + "-" + hi) == Between(NumberValue(lo), NumberValue(hi))
  {
    var t := lo + "-" + hi;
    NumberHasNoDash(lo);
    NumberHasNoDash(hi);
    assert t[0] == lo[0] && t[|t| - 1] == hi[|hi| - 1];
    ParseUntrimmed(t);
    DashNotNumber(t, |lo|);
    assert t[|t| - 1] != '-';
    assert t[0] != '-';
    PairParses(lo, hi);
  }

  /** Whether a trimmed range has one of the four forms P, P-, -P or P1-P2. */
  predicate FitsForm(t: string) {
    || IsNumber(t)
    || (|t| >= 1 && t[|t| - 1] == '-' && IsNumber(t[..|t| - 1]))
    || (|t| >= 1 && t[0] == '-' && IsNumber(t[1..]))
    || exists k :: 0 <= k < |t| && t[k] == '-' && IsNumber(t[..k]) && IsNumber(t[k + 1..])
  }

  /** Two numbers around the dash at k are read as that interval. */
  lemma PairAt(t: string, k: nat)
    requires k < |t| && t[k] == '-' && IsNumber(t[..k]) && IsNumber(t[k + 1..])
    ensures ParsePair(t) == Between(NumberValue(t[..k]), NumberValue(t[k + 1..]))
  {
    assert t == t[..k] + "-" + t[k + 1..];
    PairParses(t[..k], t[k + 1..]);
  }

  /** The fourth form is read as an interval exactly when the text is two
      numbers around a dash. */
  lemma {:induction false} ParsePairForm(t: string)
    ensures ParsePair(t) != NoPrice <==>
      exists k :: 0 <= k < |t| && t[k] == '-' && IsNumber(t[..k]) && IsNumber(t[k + 1..])
  {
    if exists k :: 0 <= k < |t| && t[k] == '-' && IsNumber(t[..k]) && IsNumber(t[k + 1..]) {
      var k :| 0 <= k < |t| && t[k] == '-' && IsNumber(t[..k]) && IsNumber(t[k + 1..]);
      PairAt(t, k);
    } else {
      var dash := Find(t, '-');
      assert dash < |t| ==> t[dash] == '-';
    }
  }

  /** A trimmed range matches nothing exactly when it has none of the four forms. */
  lemma ParseTrimmedForm(t: string)
    ensures ParseTrimmed(t) == NoPrice <==> !FitsForm(t)
  {
    ParsePairForm(t);
  }

  /** A non-blank range matches no price at all exactly when its trimmed
      text has none of the four forms. */
  lemma ParseNoForm(range: string)
    requires !IsBlank(range)
    ensures Parse(range) == NoPrice <==> !FitsForm(Trim(range))
    ensures !FitsForm(Trim(range)) ==> forall p :: !MatchesPriceRange(p, range)
  {
    ParseTrimmedForm(Trim(range));
  }

  lemma TenIsNumber()
    ensures IsNumber("10") && NumberValue("10") == 10.0
  {
    assert Find("10", '.') == 2;
    assert DigitsValue("1") == 1;
  }

  lemma ParseTenUp()
    ensures Parse("10-") == AtLeast(10.0)
  {
    TenIsNumber();
    ParseAtLeast("10");
    assert "10" + "-" == "10-";
  }

  lemma ParseUpToTen()
    ensures Parse("-10") == AtMost(10.0)
  {
    TenIsNumber();
    ParseAtMost("10");
    assert "-" + "10" == "-10";
  }

  lemma ParseTenForms()
    ensures Parse("10") == Exactly(10.0)
    ensures Parse("10-") == AtLeast(10.0)
    ensures Parse("-10") == AtMost(10.0)
  {
    TenIsNumber();
    ParseExact("10");
    ParseTenUp();
    ParseUpToTen();
  }

  /** "10" matches 10.00 only, "10-" matches from 10 up, "-10" up to 10. */
  lemma ExamplesWithTen()
    ensures MatchesPriceRange(10.0, "10") && !MatchesPriceRange(10.01, "10")
    ensures MatchesPriceRange(10.0, "10-") && MatchesPriceRange(250.5, "10-") && !MatchesPriceRange(9.99, "10-")
    ensures MatchesPriceRange(10.0, "-10") && !MatchesPriceRange(10.01, "-10")
  {
    ParseTenForms();
  }

  lemma FiveIsNumber()
    ensures IsNumber("5") && NumberValue("5") == 5.0
  {
    assert Find("5", '.') == 1;
  }

  lemma ParseFiveToTen()
    ensures Parse("5-10") == Between(5.0, 10.0)
  {
    FiveIsNumber();
    TenIsNumber();
    assert "5" + "-" + "10" == "5-10";
    ParseBetween("5", "10");
  }

  /** "5-10" matches the closed interval from 5 to 10. */
  lemma ExampleInterval()
    ensures MatchesPriceRange(5.0, "5-10") && MatchesPriceRange(10.0, "5-10")
    ensures !MatchesPriceRange(4.99, "5-10") && !MatchesPriceRange(10.5, "5-10")
  {
    ParseFiveToTen();
  }

  lemma DigitsTwelveThirtyFour()
    ensures IsDigits("12") && IsDigits("34")
    ensures DigitsValue("12") == 12 && DigitsValue("34") == 34
  {
    assert DigitsValue("1") == 1 && DigitsValue("3") == 3;
  }

  lemma TwoDecimalsValue()
    ensures IsNumber("12.34") && NumberValue("12.34") == 12.34
  {
    DigitsTwelveThirtyFour();
    PointedNumber("12", "34");
    assert "12" + "." + "34" == "12.34";
  }

  lemma ParseTwoDecimals()
    ensures Parse("12.34") == Exactly(12.34)
  {
    TwoDecimalsValue();
    ParseExact("12.34");
  }

  lemma ThreeDecimalsNotNumber()
    ensures !IsNumber("12.345")
  {
    var t := "12.345";
    assert t == "12" + ['.'] + "345";
    FindAfter("12", ['.'] + "345", '.');
  }

  lemma ParseThreeDecimals()
    ensures Parse("12.345") == NoPrice
  {
    var t := "12.345";
    ThreeDecimalsNotNumber();
    ParseUntrimmed(t);
    assert t[0] == '1' && t[|t| - 1] == '5' && '-' !in t;
  }

  /** Two decimals are accepted: "12.34" matches 12.34 only. */
  lemma ExampleTwoDecimals()
    ensures MatchesPriceRange(12.34, "12.34") && !MatchesPriceRange(12.3, "12.34")
  {
    ParseTwoDecimals();
  }

  /** A third decimal is not: "12.345" matches nothing, not even 12.345. */
  lemma ExampleThreeDecimals()
    ensures !MatchesPriceRange(12.345, "12.345")
  {
    ParseThreeDecimals();
  }

  /** Text outside the grammar matches nothing. */
  lemma ExampleInvalid()
    ensures Parse("abc") == NoPrice
  {
    ParseUntrimmed("abc");
    assert !IsNumber("abc") by {
      assert Find("abc", '.') == 3;
      assert !IsDigit('a');
    }
    assert Find("abc", '-') == 3;
  }

  // ----- the range string the search form builds from two bounds

  /** The search form's buildPriceRange: "" for no bounds, "-high", "low-" or "low-high". */
  function BuildPriceRange(low: string, high: string): string {
    if low == [] && high == [] then ""
    else if low == [] then "-" + high
    else if high == [] then low + "-"
    else low + "-" + high
  }

  /** For bounds that are empty or numbers, the built range keeps exactly the
      prices between the given bounds. */
  lemma BuildPriceRangeMatches(low: string, high: string, price: real)
    requires low == [] || IsNumber(low)
    requires high == [] || IsNumber(high)
    ensures MatchesPriceRange(price, BuildPriceRange(low, high)) <==>
              (low != [] ==> NumberValue(low) <= price) && (high != [] ==> price <= NumberValue(high))
  {
    var r := BuildPriceRange(low, high);
    if low == [] && high == [] {
      assert r == "";
      BlankIffAllTrimmable(r);
      assert Parse(r) == AnyPrice;
    } else if low == [] {
      assert r == "-" + high;
      ParseAtMost(high);
    } else if high == [] {
      assert r == low + "-";
      ParseAtLeast(low);
    } else {
      assert r == low + "-" + high;
      ParseBetween(low, high);
    }
  }

  // ----- every price in cents can be written in the grammar

  function DigitChar(d: nat): (c: char)
    requires d < 10
    ensures IsDigit(c) && DigitValue(c) == d
  {
    ('0' as int + d) as char
  }

  /** Integer.toString of a natural number. */
  function ShowNat(n: nat): (s: string)
    ensures IsDigits(s)
  {
    if n < 10 then [DigitChar(n)] else ShowNat(n / 10) + [DigitChar(n % 10)]
  }

  lemma {:induction false} ShowNatValue(n: nat)
    ensures DigitsValue(ShowNat(n)) == n
  {
    if n >= 10 {
      ShowNatValue(n / 10);
      var s := ShowNat(n);
      assert s[..|s| - 1] == ShowNat(n / 10);
    }
  }

  /** A price in whole cents written with two decimals, as "12.34". */
  function ShowCents(cents: nat): string {
    ShowNat(cents / 100) + "." + [DigitChar(cents % 100 / 10), DigitChar(cents % 10)]
  }

  /** In whole digits, a point and decimals, the first point is the one
      after the whole digits. */
  lemma PointAfterDigits(w: string, f: string)
    requires IsDigits(w)
    ensures var s := w + "." + f;
      Find(s, '.') == |w| && s[..|w|] == w && s[|w| + 1..] == f
  {
    var s := w + "." + f;
    var tail := "." + f;
    assert s == w + tail;
    assert '.' !in w by {
      forall k | 0 <= k < |w| ensures w[k] != '.' {
        assert IsDigit(w[k]);
      }
    }
    FindAfter(w, tail, '.');
    assert Find(tail, '.') == 0 by {
      assert tail[0] == '.';
    }
  }

  /** Whole digits, a point and one or two decimals form a number of the grammar. */
  lemma PointedNumber(w: string, f: string)
    requires IsDigits(w) && IsDigits(f) && |f| <= 2
    ensures IsNumber(w + "." + f)
    ensures NumberValue(w + "." + f) == DigitsValue(w) as real + DigitsValue(f) as real / Pow10(|f|) as real
  {
    PointAfterDigits(w, f);
  }

  /** Every amount of cents is written as a number of the grammar that reads back as that amount. */
  lemma ShowCentsParses(cents: nat)
    ensures IsNumber(ShowCents(cents))
    ensures NumberValue(ShowCents(cents)) == cents as real / 100.0
  {
    var w := ShowNat(cents / 100);
    var f := [DigitChar(cents % 100 / 10), DigitChar(cents % 10)];
    var s := ShowCents(cents);
    PointedNumber(w, f);
    ShowNatValue(cents / 100);
    TwoDigitsValue(cents % 100 / 10, cents % 10);
    CentsDigits(cents);
    CentsSplit(cents);
  }

  lemma TwoDigitsValue(a: nat, b: nat)
    requires a < 10 && b < 10
    ensures DigitsValue([DigitChar(a), DigitChar(b)]) == 10 * a + b
  {
    var f := [DigitChar(a), DigitChar(b)];
    assert f[..1] == [DigitChar(a)];
    assert f[..1][..0] == [];
    assert DigitsValue(f[..1]) == a;
  }

  lemma CentsDigits(cents: nat)
    ensures 10 * (cents % 100 / 10) + cents % 10 == cents % 100
  {
    var q, r := cents / 100, cents % 100;
    var t, u := r / 10, r % 10;
    assert cents == 100 * q + r && r == 10 * t + u && 0 <= u < 10;
    LastDigit(cents, 10 * q + t, u);
  }

  /** The remainder by ten is the digit left over after any multiple of ten. */
  lemma LastDigit(n: int, k: int, u: int)
    requires n == 10 * k + u && 0 <= u < 10
    ensures n % 10 == u
  {
  }

  lemma CentsSplit(cents: nat)
    ensures (cents / 100) as real + (cents % 100) as real / 100.0 == cents as real / 100.0
  {
    assert cents == 100 * (cents / 100) + cents % 100;
  }
}
