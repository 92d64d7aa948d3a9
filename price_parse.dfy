/**
 * Price-string normalisation of the price tracker (parse_price and the text
 * handling of get_price in automatic_price_taker.py).
 *
 * The text of the price element is reduced to its digits, '.' and ',', the
 * ',' thousands separators are removed, and what remains is read as a
 * decimal number; a string the number reader refuses gives None
 * ("unavailable"). Numbers are exact reals, not floating point.
 */
module PriceParse {
  import opened Wrappers

  predicate IsDigit(c: char) { '0' <= c <= '9' }

  /** The characters the price filter keeps: digits, '.' and ','. */
  predicate IsKept(c: char) { IsDigit(c) || c == '.' || c == ',' }

  /** The characters of a normalised price: digits and '.'. */
  predicate IsNumeral(c: char) { IsDigit(c) || c == '.' }

  predicate AllNumerals(t: string) { forall i :: 0 <= i < |t| ==> IsNumeral(t[i]) }

  predicate AllDigits(t: string) { forall i :: 0 <= i < |t| ==> IsDigit(t[i]) }

  predicate HasDigit(t: string) { exists c :: c in t && IsDigit(c) }

  /** The number of decimal points in t. */
  function DotCount(t: string): nat { multiset(t)['.'] }

  // ---------------------------------------------------------------------
  // Filtering (the generator expression and the comma removal)
  // ---------------------------------------------------------------------

  /** The characters of s that are digits, '.' or ',', in their original order. */
  function Filter(s: string): (r: string)
    ensures |r| <= |s|
    ensures forall i :: 0 <= i < |r| ==> IsKept(r[i])
  {
    if s == [] then []
    else (if IsKept(s[0]) then [s[0]] else []) + Filter(s[1..])
  }

  /** s with every ',' deleted. */
  function RemoveCommas(s: string): (r: string)
    ensures |r| <= |s|
    ensures forall i :: 0 <= i < |r| ==> r[i] != ','
    ensures (forall i :: 0 <= i < |s| ==> IsKept(s[i])) ==> AllNumerals(r)
  {
    if s == [] then []
    else (if s[0] == ',' then [] else [s[0]]) + RemoveCommas(s[1..])
  }

  /** The text handed to the number reader: the filter, then comma removal. */
  function Normalize(s: string): (r: string)
    ensures AllNumerals(r)
  {
    var f := Filter(s);
    RemoveCommas(f)
  }

  /** An independent reference: keep exactly the digits and '.' of s in one pass. */
  function KeepNumerals(s: string): string
  {
    if s == [] then []
    else (if IsNumeral(s[0]) then [s[0]] else []) + KeepNumerals(s[1..])
  }

  /** Every position moved one place to the right. */
  function Shift(q: seq<nat>): (r: seq<nat>)
    ensures |r| == |q|
    ensures forall j :: 0 <= j < |q| ==> r[j] == q[j] + 1
  {
    seq(|q|, j requires 0 <= j < |q| => q[j] + 1)
  }

  /** The positions of s that the filter keeps, in increasing order. */
  function KeptPositions(s: string): seq<nat>
  {
    if s == [] then [] else (if IsKept(s[0]) then [0] else []) + Shift(KeptPositions(s[1..]))
  }

  lemma {:induction false} KeptPositionsLength(s: string)
    ensures |KeptPositions(s)| == |Filter(s)|
  {
    if s != [] { KeptPositionsLength(s[1..]); }
  }

  lemma {:induction false} KeptPositionsSelectAt(s: string, j: nat)
    requires j < |KeptPositions(s)|
    ensures KeptPositions(s)[j] < |s| && |Filter(s)| == |KeptPositions(s)|
    ensures Filter(s)[j] == s[KeptPositions(s)[j]]
  {
    KeptPositionsLength(s);
    var h := if IsKept(s[0]) then [0] else [];
    var f := if IsKept(s[0]) then [s[0]] else [];
    var q := KeptPositions(s[1..]);
    assert KeptPositions(s) == h + Shift(q);
    assert Filter(s) == f + Filter(s[1..]);
    if j >= |h| {
      KeptPositionsSelectAt(s[1..], j - |h|);
      assert KeptPositions(s)[j] == q[j - |h|] + 1;
      assert Filter(s)[j] == Filter(s[1..])[j - |h|];
    }
  }

  lemma {:induction false} KeptPositionsSelect(s: string)
    ensures |KeptPositions(s)| == |Filter(s)|
    ensures forall j :: 0 <= j < |KeptPositions(s)| ==>
      KeptPositions(s)[j] < |s| && Filter(s)[j] == s[KeptPositions(s)[j]]
  {
    KeptPositionsLength(s);
    forall j | 0 <= j < |KeptPositions(s)|
      ensures KeptPositions(s)[j] < |s| && Filter(s)[j] == s[KeptPositions(s)[j]]
    {
      KeptPositionsSelectAt(s, j);
    }
  }

  lemma {:induction false} KeptPositionsIncreasing(s: string)
    ensures forall j, k :: 0 <= j < k < |KeptPositions(s)| ==> KeptPositions(s)[j] < KeptPositions(s)[k]
  {
    if s != [] {
      KeptPositionsIncreasing(s[1..]);
      var h := if IsKept(s[0]) then [0] else [];
      var q := KeptPositions(s[1..]);
      var p := h + Shift(q);
      assert KeptPositions(s) == p;
      forall j, k | 0 <= j < k < |p| ensures p[j] < p[k] {
        if j >= |h| {
          assert p[j] == q[j - |h|] + 1 && p[k] == q[k - |h|] + 1;
        } else {
          assert p[k] == q[k - |h|] + 1;
        }
      }
    }
  }

  lemma {:induction false} InShift(q: seq<nat>, i: nat)
    ensures i in Shift(q) <==> i > 0 && i - 1 in q
  {
  }

  lemma {:induction false} KeptPositionsExactAt(s: string, i: nat)
    requires i < |s|
    ensures IsKept(s[i]) <==> i in KeptPositions(s)
  {
    var h := if IsKept(s[0]) then [0] else [];
    var q := KeptPositions(s[1..]);
    assert KeptPositions(s) == h + Shift(q);
    InShift(q, i);
    assert i in h + Shift(q) <==> i in h || i in Shift(q);
    if i > 0 {
      KeptPositionsExactAt(s[1..], i - 1);
      assert s[i] == s[1..][i - 1];
    }
  }

  lemma {:induction false} KeptPositionsExact(s: string)
    ensures forall i :: 0 <= i < |s| ==> (IsKept(s[i]) <==> i in KeptPositions(s))
  {
    forall i | 0 <= i < |s| ensures IsKept(s[i]) <==> i in KeptPositions(s) {
      KeptPositionsExactAt(s, i);
    }
  }

  /**
   * The filter takes exactly the subsequence of kept characters: its j-th
   * character is the character at the j-th kept position, the positions
   * increase strictly, and a position is listed exactly when its character
   * is a digit, '.' or ','.
   */
  lemma {:induction false} FilterIsKeptSubsequence(s: string)
    ensures var p := KeptPositions(s);
      |p| == |Filter(s)| &&
      (forall j :: 0 <= j < |p| ==> p[j] < |s| && Filter(s)[j] == s[p[j]]) &&
      (forall j, k :: 0 <= j < k < |p| ==> p[j] < p[k]) &&
      (forall i :: 0 <= i < |s| ==> (IsKept(s[i]) <==> i in p))
  {
    KeptPositionsSelect(s);
    KeptPositionsIncreasing(s);
    KeptPositionsExact(s);
  }

  /** The filter maps a concatenation to the concatenation of the filtered parts. */
  lemma {:induction false} FilterConcat(a: string, b: string)
    ensures Filter(a + b) == Filter(a) + Filter(b)
  {
    if a != [] {
      assert (a + b)[1..] == a[1..] + b;
      FilterConcat(a[1..], b);
    } else {
      assert a + b == b;
    }
  }

  /** A string of kept characters passes the filter unchanged. */
  lemma {:induction false} FilterOfKept(s: string)
    requires forall i :: 0 <= i < |s| ==> IsKept(s[i])
    ensures Filter(s) == s
  {
    if s != [] { FilterOfKept(s[1..]); }
  }

  /** A string without ',' passes comma removal unchanged. */
  lemma {:induction false} RemoveCommasOfCommaFree(s: string)
    requires forall i :: 0 <= i < |s| ==> s[i] != ','
    ensures RemoveCommas(s) == s
  {
    if s != [] { RemoveCommasOfCommaFree(s[1..]); }
  }

  /** Normalising a normalised string changes nothing. */
  lemma {:induction false} NormalizeIdempotent(s: string)
    ensures Normalize(Normalize(s)) == Normalize(s)
  {
    var t := Normalize(s);
    FilterOfKept(t);
    RemoveCommasOfCommaFree(t);
  }

  /** Filter-then-remove-commas is the same as keeping exactly the digits and '.'. */
  lemma {:induction false} NormalizeIsKeepNumerals(s: string)
    ensures Normalize(s) == KeepNumerals(s)
  {
    if s != [] {
      NormalizeIsKeepNumerals(s[1..]);
      var h := if IsKept(s[0]) then [s[0]] else [];
      RemoveCommasConcat(h, Filter(s[1..]));
    }
  }

  /** Comma removal keeps every other character as often as it occurs. */
  lemma {:induction false} RemoveCommasCounts(s: string)
    ensures forall c :: c != ',' ==> multiset(RemoveCommas(s))[c] == multiset(s)[c]
    ensures multiset(RemoveCommas(s))[','] == 0
  {
    if s != [] {
      RemoveCommasCounts(s[1..]);
      var h := if s[0] == ',' then [] else [s[0]];
      assert RemoveCommas(s) == h + RemoveCommas(s[1..]);
      assert s == [s[0]] + s[1..];
    }
  }

  /** Comma removal on a concatenation is the concatenation of the parts with commas removed. */
  lemma {:induction false} RemoveCommasConcat(a: string, b: string)
    ensures RemoveCommas(a + b) == RemoveCommas(a) + RemoveCommas(b)
  {
    if a != [] {
      assert (a + b)[1..] == a[1..] + b;
      RemoveCommasConcat(a[1..], b);
    } else {
      assert a + b == b;
    }
  }

  /** Keeping the digits and '.' keeps each digit and each '.' as often as it occurs. */
  lemma {:induction false} KeepNumeralsCounts(s: string)
    ensures forall c :: IsNumeral(c) ==> multiset(KeepNumerals(s))[c] == multiset(s)[c]
    ensures forall c :: c in KeepNumerals(s) ==> IsNumeral(c)
  {
    if s != [] {
      KeepNumeralsCounts(s[1..]);
      var h := if IsNumeral(s[0]) then [s[0]] else [];
      assert KeepNumerals(s) == h + KeepNumerals(s[1..]);
      assert s == [s[0]] + s[1..];
    }
  }

  lemma {:induction false} KeepNumeralsDigitsAndDots(s: string)
    ensures HasDigit(KeepNumerals(s)) <==> HasDigit(s)
    ensures DotCount(KeepNumerals(s)) == DotCount(s)
  {
    KeepNumeralsCounts(s);
    var k := KeepNumerals(s);
    if HasDigit(s) {
      var c :| c in s && IsDigit(c);
      assert c in multiset(s);
      assert c in multiset(k);
    }
    if HasDigit(k) {
      var c :| c in k && IsDigit(c);
      assert c in multiset(k);
      assert c in multiset(s);
    }
  }

  // ---------------------------------------------------------------------
  // Reading the number (float() on the digits-and-'.' alphabet)
  // ---------------------------------------------------------------------

  function DigitValue(c: char): (d: nat)
    requires IsDigit(c)
    ensures d < 10
  {
    (c as int) - ('0' as int)
  }

  /** The value of a string of decimal digits, most significant first; "" is 0. */
  function DigitsValue(t: string): nat
    requires AllDigits(t)
  {
    if t == [] then 0 else 10 * DigitsValue(t[..|t| - 1]) + DigitValue(t[|t| - 1])
  }

  function Pow10(n: nat): (r: nat)
    ensures r >= 1
  {
    if n == 0 then 1 else 10 * Pow10(n - 1)
  }

  /** The position of the first '.' in t, or |t| when there is none. */
  function FirstDot(t: string): (k: nat)
    ensures k <= |t|
    ensures k < |t| ==> t[k] == '.'
    ensures forall i :: 0 <= i < k ==> t[i] != '.'
  {
    if t == [] then 0
    else if t[0] == '.' then 0
    else 1 + FirstDot(t[1..])
  }

  /** The decimal whose integer digits are ip and whose fraction digits are fp. */
  function DecimalValue(ip: string, fp: string): real
    requires AllDigits(ip) && AllDigits(fp)
  {
    DigitsValue(ip) as real + DigitsValue(fp) as real / Pow10(|fp|) as real
  }

  /**
   * The number reader on a string of digits and '.': optional integer digits,
   * then optionally a '.' and fraction digits, with at least one digit in all.
   * "1." and ".5" are numbers; "", "." and "1.2.3" are not.
   */
  function ParseDecimal(t: string): (r: Option<real>)
    requires AllNumerals(t)
    ensures r.Some? ==> r.value >= 0.0
  {
    var k := FirstDot(t);
    var ip := t[..k];
    var fp := if k < |t| then t[k + 1..] else [];
    DigitsBeforeFirstDot(t);
    if !AllDigits(fp) then None
    else if |ip| + |fp| == 0 then None
    else Some(DecimalValue(ip, fp))
  }

  /** Over digits and '.', the digit-only strings are exactly those without '.'. */
  lemma {:induction false} AllDigitsIffNoDot(u: string)
    requires AllNumerals(u)
    ensures AllDigits(u) <==> DotCount(u) == 0
  {
  }

  /** A string of digits has a digit exactly when it is non-empty. */
  lemma {:induction false} HasDigitOfDigits(u: string)
    requires AllDigits(u)
    ensures HasDigit(u) <==> |u| > 0
  {
    if |u| > 0 { assert u[0] in u; }
  }

  lemma {:induction false} HasDigitConcat(a: string, b: string)
    ensures HasDigit(a + b) <==> HasDigit(a) || HasDigit(b)
  {
  }

  lemma {:induction false} DotCountConcat(a: string, b: string)
    ensures DotCount(a + b) == DotCount(a) + DotCount(b)
  {
  }

  lemma DotHasNoDigit()
    ensures !HasDigit(['.'])
  {
  }

  /** The text before the first '.' of a string of digits and '.' is all digits. */
  lemma {:induction false} DigitsBeforeFirstDot(t: string)
    requires AllNumerals(t)
    ensures AllDigits(t[..FirstDot(t)])
  {
  }

  /** Splitting at the first '.': digits before it, and the counts of what follows. */
  lemma {:induction false} SplitAtFirstDot(t: string)
    requires AllNumerals(t) && FirstDot(t) < |t|
    ensures var k := FirstDot(t);
      AllNumerals(t[k + 1..]) &&
      DotCount(t) == DotCount(t[..k]) + 1 + DotCount(t[k + 1..]) &&
      (HasDigit(t) <==> HasDigit(t[..k]) || HasDigit(t[k + 1..]))
  {
    var k := FirstDot(t);
    var ip, fp := t[..k], t[k + 1..];
    forall i | 0 <= i < |fp| ensures IsNumeral(fp[i]) { assert fp[i] == t[k + 1 + i]; }
    assert t == ip + (['.'] + fp);
    HasDigitConcat(ip, ['.'] + fp);
    HasDigitConcat(['.'], fp);
    DotCountConcat(ip, ['.'] + fp);
    DotCountConcat(['.'], fp);
    DotHasNoDigit();
  }

  /**
   * The number reader accepts a string of digits and '.' exactly when it has
   * at least one digit and at most one '.'.
   */
  lemma {:induction false} ParseDecimalSomeIff(t: string)
    requires AllNumerals(t)
    ensures ParseDecimal(t).Some? <==> HasDigit(t) && DotCount(t) <= 1
  {
    var k := FirstDot(t);
    var ip := t[..k];
    DigitsBeforeFirstDot(t);
    AllDigitsIffNoDot(ip);
    HasDigitOfDigits(ip);
    if k < |t| {
      var fp := t[k + 1..];
      SplitAtFirstDot(t);
      AllDigitsIffNoDot(fp);
      if AllDigits(fp) { HasDigitOfDigits(fp); }
    } else {
      assert t == ip;
    }
  }

  /** A non-empty string of digits reads as its integer value. */
  lemma {:induction false} ParseDecimalOfDigits(t: string)
    requires |t| > 0 && AllDigits(t)
    ensures ParseDecimal(t) == Some(DigitsValue(t) as real)
  {
    if FirstDot(t) < |t| {
      assert false;
    }
    assert t[..|t|] == t;
  }

  /** In digits, then '.', then anything, the first '.' follows the digits. */
  lemma {:induction false} FirstDotAfterDigits(ip: string, rest: string)
    requires AllDigits(ip)
    ensures FirstDot(ip + ['.'] + rest) == |ip|
  {
    if ip != [] {
      assert (ip + ['.'] + rest)[1..] == ip[1..] + ['.'] + rest;
      FirstDotAfterDigits(ip[1..], rest);
    }
  }

  /** Digits, one '.', and digits read as the decimal they spell. */
  lemma {:induction false} ParseDecimalOfPoint(ip: string, fp: string)
    requires AllDigits(ip) && AllDigits(fp) && |ip| + |fp| > 0
    ensures AllNumerals(ip + "." + fp)
    ensures ParseDecimal(ip + "." + fp) == Some(DecimalValue(ip, fp))
  {
    var t := ip + "." + fp;
    FirstDotAfterDigits(ip, fp);
    assert t[..|ip|] == ip;
    assert t[|ip| + 1..] == fp;
  }

  // ---------------------------------------------------------------------
  // parse_price and the element text handling of get_price
  // ---------------------------------------------------------------------

  /**
   * parse_price: filter, remove commas, read the number; any failure is None.
   * It gives a number exactly when the input has at least one digit and at
   * most one '.'; symbol-only or empty input is unavailable.
   */
  function ParsePrice(s: string): (r: Option<real>)
    ensures r.Some? <==> HasDigit(s) && DotCount(s) <= 1
    ensures r.Some? ==> r.value >= 0.0
  {
    var t := Normalize(s);
    NormalizeIsKeepNumerals(s);
    KeepNumeralsDigitsAndDots(s);
    ParseDecimalSomeIff(t);
    ParseDecimal(t)
  }

  /** The price is the decimal value of the input with everything but digits and '.' stripped. */
  lemma {:induction false} ParsePriceIsStrippedValue(s: string)
    ensures AllNumerals(KeepNumerals(s))
    ensures ParsePrice(s) == ParseDecimal(KeepNumerals(s))
  {
    NormalizeIsKeepNumerals(s);
  }

  // Examples. Each takes its input text as a parameter fixed by its requires
  // clause and states the result parse_price gives for that text.

  lemma {:induction false} KeepNumeralsCons(c: char, r: string)
    ensures KeepNumerals([c] + r) == (if IsNumeral(c) then [c] else []) + KeepNumerals(r)
  {
  }

  lemma {:induction false} KeepNumeralsOfNumerals(s: string)
    requires AllNumerals(s)
    ensures KeepNumerals(s) == s
  {
    if s != [] { KeepNumeralsOfNumerals(s[1..]); }
  }

  lemma {:induction false} KeepNumeralsOfDollarExample(s: string)
    requires s == "$1,234.56"
    ensures KeepNumerals(s) == [s[1]] + s[3..]
  {
    var v := s[3..];
    var a := [s[2]] + v;
    var b := [s[1]] + a;
    assert s == [s[0]] + b;
    assert AllNumerals(v);
    KeepNumeralsOfNumerals(v);
    KeepNumeralsCons(s[2], v);
    assert KeepNumerals(a) == v;
    KeepNumeralsCons(s[1], a);
    assert KeepNumerals(b) == [s[1]] + v;
    KeepNumeralsCons(s[0], b);
  }

  lemma {:induction false} DigitsValue1234(a: string)
    requires a == "1234"
    ensures AllDigits(a) && DigitsValue(a) == 1234
  {
    var a3, a2, a1 := a[..3], a[..2], a[..1];
    assert a3[..2] == a2 && a2[..1] == a1 && a1[..0] == [];
    assert DigitsValue(a1) == 1;
    assert DigitsValue(a2) == 12;
    assert DigitsValue(a3) == 123;
  }

  lemma {:induction false} DigitsValue56(b: string)
    requires b == "56"
    ensures AllDigits(b) && DigitsValue(b) == 56
  {
    var b1 := b[..1];
    assert b1[..0] == [];
    assert DigitsValue(b1) == 5;
  }

  lemma {:induction false} DigitsValue999(c: string)
    requires c == "999"
    ensures AllDigits(c) && DigitsValue(c) == 999
  {
    var c2, c1 := c[..2], c[..1];
    assert c2[..1] == c1 && c1[..0] == [];
    assert DigitsValue(c1) == 9;
    assert DigitsValue(c2) == 99;
  }

  lemma {:induction false} DecimalValueOfDollarExample(ip: string, fp: string)
    requires ip == "1234" && fp == "56"
    ensures AllDigits(ip) && AllDigits(fp) && DecimalValue(ip, fp) == 1234.56
  {
    DigitsValue1234(ip);
    DigitsValue56(fp);
    assert Pow10(|fp|) == 100 by { assert Pow10(2) == 100; }
  }

  lemma {:induction false} ParseDecimalOfDollarExample(k: string)
    requires k == "1234.56"
    ensures AllNumerals(k) && ParseDecimal(k) == Some(1234.56)
  {
    var ip, fp := k[..4], k[5..];
    DecimalValueOfDollarExample(ip, fp);
    assert k == ip + "." + fp;
    ParseDecimalOfPoint(ip, fp);
  }

  /** The example of the source comment: "$1,234.56" reads as 1234.56. */
  lemma {:induction false} ParsePriceDollarExample(s: string)
    requires s == "$1,234.56"
    ensures ParsePrice(s) == Some(1234.56)
  {
    KeepNumeralsOfDollarExample(s);
    ParseDecimalOfDollarExample([s[1]] + s[3..]);
    ParsePriceIsStrippedValue(s);
  }

  /** A currency symbol before a whole number is dropped: "€999" reads as 999. */
  lemma {:induction false} ParsePriceEuroExample(s: string)
    requires s == "€999"
    ensures ParsePrice(s) == Some(999.0)
  {
    var d := s[1..];
    assert s == [s[0]] + d;
    DigitsValue999(d);
    KeepNumeralsCons(s[0], d);
    KeepNumeralsOfNumerals(d);
    assert KeepNumerals(s) == d;
    ParseDecimalOfDigits(d);
    ParsePriceIsStrippedValue(s);
  }

  /** Text without any digit is unavailable. */
  lemma {:induction false} ParsePriceNoDigitExample(s: string)
    requires s == "Sold out"
    ensures ParsePrice(s) == None
  {
    assert !HasDigit(s) by {
      forall c | c in s ensures !IsDigit(c) {
        var i :| 0 <= i < |s| && s[i] == c;
      }
    }
  }

  /** Two decimal points are refused rather than truncated. */
  lemma {:induction false} ParsePriceTwoPointsExample(s: string)
    requires s == "1.2.3"
    ensures ParsePrice(s) == None
  {
  }

  /**
   * The characters Python's `str.isspace` accepts, which `str.strip()` removes
   * around the element text: U+0009-U+000D, U+001C-U+0020, U+0085, U+00A0,
   * U+1680, U+2000-U+200A, U+2028, U+2029, U+202F, U+205F and U+3000.
   */
  predicate IsSpace(c: char)
  {
    '\t' <= c <= '\r' || '\U{001C}' <= c <= ' ' || c == '\U{0085}' || c == '\U{00A0}' ||
    c == '\U{1680}' || '\U{2000}' <= c <= '\U{200A}' || c == '\U{2028}' || c == '\U{2029}' ||
    c == '\U{202F}' || c == '\U{205F}' || c == '\U{3000}'
  }

  /** s without its leading whitespace. */
  function TrimStart(s: string): string
  {
    if s != [] && IsSpace(s[0]) then TrimStart(s[1..]) else s
  }

  /** s without its trailing whitespace. */
  function TrimEnd(s: string): string
  {
    if s != [] && IsSpace(s[|s| - 1]) then TrimEnd(s[..|s| - 1]) else s
  }

  /**
   * Removing leading whitespace leaves a suffix of s that does not start
   * with whitespace, and everything removed is whitespace.
   */
  lemma {:induction false} TrimStartIsSuffix(s: string)
    ensures var r := TrimStart(s);
      |r| <= |s| && r == s[|s| - |r|..] &&
      (r != [] ==> !IsSpace(r[0])) &&
      (forall i :: 0 <= i < |s| - |r| ==> IsSpace(s[i]))
  {
    if s != [] && IsSpace(s[0]) {
      TrimStartIsSuffix(s[1..]);
      var r := TrimStart(s[1..]);
      assert TrimStart(s) == r;
      forall i | 1 <= i < |s| - |r| ensures IsSpace(s[i]) { assert s[i] == s[1..][i - 1]; }
      assert s[1..][|s| - 1 - |r|..] == s[|s| - |r|..];
    }
  }

  /**
   * Removing trailing whitespace leaves a prefix of s that does not end
   * with whitespace, and everything removed is whitespace.
   */
  lemma {:induction false} TrimEndIsPrefix(s: string)
    ensures var r := TrimEnd(s);
      |r| <= |s| && r == s[..|r|] &&
      (r != [] ==> !IsSpace(r[|r| - 1])) &&
      (forall i :: |r| <= i < |s| ==> IsSpace(s[i]))
  {
    if s != [] && IsSpace(s[|s| - 1]) {
      TrimEndIsPrefix(s[..|s| - 1]);
      var r := TrimEnd(s[..|s| - 1]);
      assert TrimEnd(s) == r;
      forall i | |r| <= i < |s| - 1 ensures IsSpace(s[i]) { assert s[i] == s[..|s| - 1][i]; }
      assert s[..|s| - 1][..|r|] == s[..|r|];
    }
  }

  /** str.strip(): leading and trailing whitespace removed. */
  function Strip(s: string): string { TrimEnd(TrimStart(s)) }

  lemma {:induction false} FilterTrimStart(s: string)
    ensures Filter(TrimStart(s)) == Filter(s)
  {
    if s != [] && IsSpace(s[0]) {
      FilterTrimStart(s[1..]);
      assert TrimStart(s) == TrimStart(s[1..]);
      assert Filter(s) == [] + Filter(s[1..]);
    }
  }

  lemma {:induction false} FilterTrimEnd(s: string)
    ensures Filter(TrimEnd(s)) == Filter(s)
  {
    if s != [] && IsSpace(s[|s| - 1]) {
      var init := s[..|s| - 1];
      FilterTrimEnd(init);
      assert s == init + [s[|s| - 1]];
      FilterConcat(init, [s[|s| - 1]]);
      assert [s[|s| - 1]][1..] == [];
    }
  }

  /**
   * get_price after the element lookup: no element gives None, otherwise the
   * stripped element text is parsed.
   */
  function PriceOfElement(text: Option<string>): (r: Option<real>)
    ensures text.None? ==> r.None?
    ensures text.Some? ==> r == ParsePrice(text.value)
  {
    match text
    case None => None
    case Some(t) =>
      FilterTrimStart(t);
      FilterTrimEnd(TrimStart(t));
      ParsePrice(Strip(t))
  }
}
