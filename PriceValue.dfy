/**
 * `normalize_price_str`: keep only `[\d,]`, drop the commas, and read what
 * is left as a base-10 integer, with `None` where `int` would raise.
 */
module PriceValue {
  import opened Wrappers
  import opened Text
  import opened PriceTokens

  /** `re.sub(r"[^\d,]", "", s)`. */
  function KeepPriceChars(s: string): string
  {
    if s == [] then [] else (if IsPriceChar(s[0]) then [s[0]] else []) + KeepPriceChars(s[1..])
  }

  /** `s.replace(",", "")`. */
  function RemoveCommas(s: string): string
  {
    if s == [] then [] else (if s[0] == ',' then [] else [s[0]]) + RemoveCommas(s[1..])
  }

  /** The ASCII digits of `s`, in order. */
  function Digits(s: string): (ds: string)
    ensures forall i :: 0 <= i < |ds| ==> IsDigit(ds[i])
  {
    if s == [] then [] else (if IsDigit(s[0]) then [s[0]] else []) + Digits(s[1..])
  }

  predicate HasDigit(s: string)
  {
    exists i :: 0 <= i < |s| && IsDigit(s[i])
  }

  function DigitValue(c: char): nat
    requires IsDigit(c)
  {
    c as int - '0' as int
  }

  /** `int(ds)` for a string of ASCII digits. */
  function DecimalValue(ds: string): nat
    requires forall i :: 0 <= i < |ds| ==> IsDigit(ds[i])
  {
    if ds == [] then 0 else DecimalValue(ds[..|ds| - 1]) * 10 + DigitValue(ds[|ds| - 1])
  }

  /** `str(n)`: the decimal spelling of `n`, without leading zeros. */
  function Decimal(n: nat): (ds: string)
    ensures |ds| >= 1
    ensures forall i :: 0 <= i < |ds| ==> IsDigit(ds[i])
  {
    var d := ['0' + ((n % 10) as char)];
    if n < 10 then d else Decimal(n / 10) + d
  }

  /**
   * CPython's default `sys.int_info.default_max_str_digits` (from 3.11 on):
   * `int` of a decimal string with more digits raises `ValueError`.
   */
  const MAX_STR_DIGITS: nat := 4300

  /**
   * `normalize_price_str(p)`: `None` exactly when `p` is `None`, empty, has
   * no digit (the remainder `int` is given is then empty), or has more
   * digits than `int` accepts; otherwise the number the digits of `p`
   * spell, in order.
   */
  function Normalize(p: Option<string>): (r: Option<nat>)
    ensures r.None? <==> (p.None? || !HasDigit(p.value) || |Digits(p.value)| > MAX_STR_DIGITS)
    ensures r.Some? ==> r.value == DecimalValue(Digits(p.value))
  {
    if p.None? || p.value == [] then None
    else
      var digits := RemoveCommas(KeepPriceChars(p.value));
      DigitsAreDigits(p.value);
      DigitsEmptyIff(p.value);
      if digits == [] || |digits| > MAX_STR_DIGITS then None
      else Some(DecimalValue(digits))
  }

  /** The two text passes leave exactly the digits, in order. */
  lemma {:induction false} DigitsAreDigits(s: string)
    ensures RemoveCommas(KeepPriceChars(s)) == Digits(s)
    ensures forall i :: 0 <= i < |RemoveCommas(KeepPriceChars(s))| ==> IsDigit(RemoveCommas(KeepPriceChars(s))[i])
  {
    if s != [] {
      DigitsAreDigits(s[1..]);
      var head := if IsPriceChar(s[0]) then [s[0]] else [];
      assert KeepPriceChars(s) == head + KeepPriceChars(s[1..]);
      RemoveCommasAppend(head, KeepPriceChars(s[1..]));
    }
  }

  lemma {:induction false} RemoveCommasAppend(a: string, b: string)
    ensures RemoveCommas(a + b) == RemoveCommas(a) + RemoveCommas(b)
  {
    if a == [] {
      assert a + b == b;
    } else {
      assert (a + b)[1..] == a[1..] + b;
      RemoveCommasAppend(a[1..], b);
      var h := if a[0] == ',' then [] else [a[0]];
      assert RemoveCommas(a + b) == h + (RemoveCommas(a[1..]) + RemoveCommas(b));
    }
  }

  lemma {:induction false} DigitsEmptyIff(s: string)
    ensures Digits(s) == [] <==> !HasDigit(s)
  {
    if s != [] {
      DigitsEmptyIff(s[1..]);
      if HasDigit(s[1..]) {
        var i :| 0 <= i < |s[1..]| && IsDigit(s[1..][i]);
        assert IsDigit(s[i + 1]);
      }
      if HasDigit(s) && !IsDigit(s[0]) {
        var i :| 0 <= i < |s| && IsDigit(s[i]);
        assert IsDigit(s[1..][i - 1]);
      }
    }
  }

  lemma {:induction false} DigitsAppend(a: string, b: string)
    ensures Digits(a + b) == Digits(a) + Digits(b)
  {
    if a == [] {
      assert a + b == b;
    } else {
      assert (a + b)[1..] == a[1..] + b;
      DigitsAppend(a[1..], b);
      var h := if IsDigit(a[0]) then [a[0]] else [];
      assert Digits(a + b) == h + (Digits(a[1..]) + Digits(b));
    }
  }

  lemma {:induction false} DigitsOfDigits(ds: string)
    requires forall i :: 0 <= i < |ds| ==> IsDigit(ds[i])
    ensures Digits(ds) == ds
  {
    if ds != [] { DigitsOfDigits(ds[1..]); }
  }

  /** Reading back the decimal spelling of `n` gives `n`. */
  lemma {:induction false} DecimalRoundTrip(n: nat)
    ensures DecimalValue(Decimal(n)) == n
  {
    var ds := Decimal(n);
    if n >= 10 {
      DecimalRoundTrip(n / 10);
      assert ds[..|ds| - 1] == Decimal(n / 10);
    }
  }

  /**
   * A price printed as a marker with no digit of its own (`"₹"`, `"Rs. "`)
   * followed by `str(n)` normalizes back to `n`: the value the user
   * interface shows as `f"₹{price}"` survives normalization, unless
   * `str(n)` has more digits than `int` accepts.
   */
  lemma NormalizeRoundTrip(marker: string, n: nat)
    requires !HasDigit(marker)
    ensures Normalize(Some(marker + Decimal(n))) ==
      if |Decimal(n)| <= MAX_STR_DIGITS then Some(n) else None
  {
    var s := marker + Decimal(n);
    assert HasDigit(s) by { assert IsDigit(s[|marker|]); }
    assert Digits(s) == Decimal(n) by {
      DigitsAppend(marker, Decimal(n));
      DigitsEmptyIff(marker);
      DigitsOfDigits(Decimal(n));
    }
    DecimalRoundTrip(n);
    var r := Normalize(Some(s));
    if |Decimal(n)| <= MAX_STR_DIGITS {
      assert r.Some? && r.value == DecimalValue(Digits(s));
    }
  }

  lemma DecimalValueExamples()
    ensures DecimalValue("1299") == 1299
    ensures DecimalValue("199") == 199
  {
    assert "1299"[..3] == "129";
    assert "129"[..2] == "12";
    assert "12"[..1] == "1";
    assert "199"[..2] == "19";
    assert "19"[..1] == "1";
  }

  lemma DigitsCons(c: char, s: string)
    ensures Digits([c] + s) == (if IsDigit(c) then [c] else []) + Digits(s)
  {
    assert ([c] + s)[1..] == s;
  }

  lemma RupeeExampleDigits()
    ensures Digits([RUPEE] + "1,299") == "1299"
  {
    assert [RUPEE] + "1,299" == [RUPEE] + ("1" + ("," + "299"));
    DigitsOfDigits("299");
    DigitsCons(',', "299");
    DigitsCons('1', "," + "299");
    DigitsCons(RUPEE, "1" + ("," + "299"));
  }

  lemma RsExampleDigits()
    ensures Digits("Rs.199") == "199"
  {
    assert "Rs.199" == "R" + ("s" + ("." + "199"));
    DigitsOfDigits("199");
    DigitsCons('.', "199");
    DigitsCons('s', "." + "199");
    DigitsCons('R', "s" + ("." + "199"));
  }

  /** The worked example `"₹1,299"` gives 1299. */
  lemma NormalizeRupeeExample()
    ensures Normalize(Some([RUPEE] + "1,299")) == Some(1299)
  {
    var s := [RUPEE] + "1,299";
    RupeeExampleDigits();
    DecimalValueExamples();
    assert IsDigit(s[1]);
  }

  /** The worked example `"Rs.199"` gives 199. */
  lemma NormalizeRsExample()
    ensures Normalize(Some("Rs.199")) == Some(199)
  {
    var s := "Rs.199";
    RsExampleDigits();
    DecimalValueExamples();
    assert IsDigit(s[3]);
  }

  /** A bare marker, an empty string and `None` give nothing. */
  lemma NormalizeAbsentExamples()
    ensures Normalize(Some([RUPEE])) == None
    ensures Normalize(Some("")) == None && Normalize(None) == None
  {
  }
}
