/**
 The stats counter's text handling: the target number is read from a stat
 string such as "500+", "24/7" or "99%" by deleting every character that is
 not a decimal digit and parsing what is left, and the number on screen gets
 a trailing "+" exactly when the stat string contains one.
 */
module Counter {

  predicate IsDigit(c: char)
  {
    '0' <= c <= '9'
  }

  predicate AllDigits(s: string)
  {
    forall i :: 0 <= i < |s| ==> IsDigit(s[i])
  }

  function DigitValue(c: char): (d: nat)
    requires IsDigit(c)
    ensures d < 10
  {
    (c - '0') as nat
  }

  function DigitChar(d: nat): (c: char)
    requires d < 10
    ensures IsDigit(c) && DigitValue(c) == d
  {
    ('0' as int + d) as char
  }

  /** `s.replace(/\D/g, '')`: the digits of `s`, in order, everything else dropped. */
  function DigitsOnly(s: string): (r: string)
    ensures AllDigits(r)
    ensures |r| <= |s|
  {
    if s == [] then []
    else (if IsDigit(s[0]) then [s[0]] else []) + DigitsOnly(s[1..])
  }

  lemma {:induction false} DigitsOnlyAppend(a: string, b: string)
    ensures DigitsOnly(a + b) == DigitsOnly(a) + DigitsOnly(b)
  {
    if a != [] {
      var head := if IsDigit(a[0]) then [a[0]] else [];
      assert (a + b)[0] == a[0];
      assert (a + b)[1..] == a[1..] + b;
      DigitsOnlyAppend(a[1..], b);
      calc {
        DigitsOnly(a + b);
        head + DigitsOnly(a[1..] + b);
        head + (DigitsOnly(a[1..]) + DigitsOnly(b));
        (head + DigitsOnly(a[1..])) + DigitsOnly(b);
      }
    } else {
      assert a + b == b;
    }
  }

  /** A string of digits only is left as it is; in particular DigitsOnly is idempotent. */
  lemma {:induction false} DigitsOnlyKeepsDigits(s: string)
    requires AllDigits(s)
    ensures DigitsOnly(s) == s
  {
    if s != [] {
      DigitsOnlyKeepsDigits(s[1..]);
    }
  }

  /** A character that is not a digit contributes nothing, wherever it stands. */
  lemma DigitsOnlyDropsNonDigit(a: string, c: char, b: string)
    requires !IsDigit(c)
    ensures DigitsOnly(a + [c] + b) == DigitsOnly(a + b)
  {
    DigitsOnlyAppend(a + [c], b);
    DigitsOnlyAppend(a, [c]);
    DigitsOnlyAppend(a, b);
    assert DigitsOnly([c]) == [];
  }

  /** Whether the stat string holds any digit, so that something is left to parse. */
  predicate HasDigit(s: string)
  {
    DigitsOnly(s) != []
  }

  /** Something survives the deletion exactly when some character is a digit. */
  lemma {:induction false} HasDigitIff(s: string)
    ensures HasDigit(s) <==> exists i :: 0 <= i < |s| && IsDigit(s[i])
  {
    if s != [] {
      HasDigitIff(s[1..]);
      if HasDigit(s[1..]) {
        var i :| 0 <= i < |s[1..]| && IsDigit(s[1..][i]);
        assert IsDigit(s[i + 1]);
      }
      if (exists i :: 0 <= i < |s| && IsDigit(s[i])) && !IsDigit(s[0]) {
        var i :| 0 <= i < |s| && IsDigit(s[i]);
        assert IsDigit(s[1..][i - 1]);
      }
    }
  }

  function Pow10(e: nat): (p: nat)
    ensures p >= 1
  {
    if e == 0 then 1 else 10 * Pow10(e - 1)
  }

  /**
   The value of a digit string read left to right, as `parseInt(s, 10)` does:
   below `10^|s|`, and at least `10^(|s|-1)` when it has no leading zero.
   */
  function DecimalValue(s: string): (v: nat)
    requires AllDigits(s)
    ensures v < Pow10(|s|)
    ensures s != [] && s[0] != '0' ==> v >= Pow10(|s| - 1)
  {
    if s == [] then 0 else 10 * DecimalValue(s[..|s| - 1]) + DigitValue(s[|s| - 1])
  }

  /** The decimal text of a whole number, as JavaScript renders `${count}`. */
  function DecimalText(v: nat): (s: string)
    ensures AllDigits(s) && |s| >= 1
    ensures s[0] == '0' ==> s == "0"
  {
    if v < 10 then [DigitChar(v)] else DecimalText(v / 10) + [DigitChar(v % 10)]
  }

  /** Reading back the decimal text of a number gives the number. */
  lemma {:induction false} DecimalRoundTrip(v: nat)
    ensures DecimalValue(DecimalText(v)) == v
  {
    var s := DecimalText(v);
    if v >= 10 {
      DecimalRoundTrip(v / 10);
      assert s[..|s| - 1] == DecimalText(v / 10);
    }
  }

  /** Leading zeros do not change the value, as with `parseInt("007")`. */
  lemma {:induction false} LeadingZeroIgnored(s: string)
    requires AllDigits(s)
    ensures DecimalValue("0" + s) == DecimalValue(s)
  {
    if s != [] {
      assert ("0" + s)[..|"0" + s| - 1] == "0" + s[..|s| - 1];
      LeadingZeroIgnored(s[..|s| - 1]);
    }
  }

  /**
   `parseInt(end.replace(/\D/g, ''))`: the number the counter counts up to.
   A stat string without any digit would parse to NaN; none of the site's
   stat strings is one.
   */
  function CounterTarget(end: string): (v: nat)
    requires HasDigit(end)
    ensures v < Pow10(|DigitsOnly(end)|)
    ensures DigitsOnly(end)[0] != '0' ==> DecimalText(v) == DigitsOnly(end)
  {
    var ds := DigitsOnly(end);
    assert ds[0] != '0' ==> DecimalText(DecimalValue(ds)) == ds by {
      if ds[0] != '0' {
        CanonicalRoundTrip(ds);
      }
    }
    DecimalValue(ds)
  }

  /** The target depends only on the digits of the stat string, in order. */
  lemma TargetIgnoresNonDigit(a: string, c: char, b: string)
    requires !IsDigit(c)
    requires HasDigit(a + b)
    ensures HasDigit(a + [c] + b)
    ensures CounterTarget(a + [c] + b) == CounterTarget(a + b)
  {
    DigitsOnlyDropsNonDigit(a, c, b);
  }

  /** A stat string made only of digits counts up to the number it spells. */
  lemma TargetOfDigitString(s: string)
    requires AllDigits(s) && s != []
    ensures HasDigit(s)
    ensures CounterTarget(s) == DecimalValue(s)
  {
    DigitsOnlyKeepsDigits(s);
  }

  /** The stat strings of the site and the targets they give. */
  lemma SiteStats()
    ensures CounterTarget("500+") == 500
    ensures CounterTarget("24/7") == 247
    ensures CounterTarget("99%") == 99
    ensures CounterTarget("50+") == 50
  {
    StatFiveHundred();
    StatAllWeek();
    StatNinetyNine();
    StatFifty();
  }

  /** "500+" counts up to 500. */
  lemma StatFiveHundred()
    ensures CounterTarget("500+") == 500
  {
  }

  /** "24/7" counts up to 247: the slash is dropped, not a separator. */
  lemma StatAllWeek()
    ensures CounterTarget("24/7") == 247
  {
  }

  /** "99%" counts up to 99. */
  lemma StatNinetyNine()
    ensures CounterTarget("99%") == 99
  {
  }

  /** "50+" counts up to 50. */
  lemma StatFifty()
    ensures CounterTarget("50+") == 50
  {
  }

  /** A digit run split by one non-digit counts up to the value of the joined digits. */
  lemma StatTarget(digits: string, c: char, rest: string, v: nat)
    requires AllDigits(digits + rest) && digits + rest != []
    requires !IsDigit(c)
    requires DecimalValue(digits + rest) == v
    ensures HasDigit(digits + [c] + rest)
    ensures CounterTarget(digits + [c] + rest) == v
  {
    TargetOfDigitString(digits + rest);
    TargetIgnoresNonDigit(digits, c, rest);
  }

  /**
   The counter's text: the count, a "+" iff the stat string has one, then the
   suffix.  Its digits are the count's followed by the suffix's, and it holds
   a "+" exactly when the stat string or the suffix does.
   */
  function CounterText(count: nat, end: string, suffix: string): (t: string)
    ensures DigitsOnly(t) == DecimalText(count) + DigitsOnly(suffix)
    ensures '+' in t <==> '+' in end || '+' in suffix
  {
    var digits, plus := DecimalText(count), if '+' in end then "+" else "";
    DigitsOnlyAppend(digits + plus, suffix);
    DigitsOnlyAppend(digits, plus);
    DigitsOnlyKeepsDigits(digits);
    assert DigitsOnly(plus) == [];
    assert !IsDigit('+');
    digits + plus + suffix
  }

  /** ... and then it is the last character. */
  lemma PlusIsLast(count: nat, end: string)
    requires '+' in end
    ensures CounterText(count, end, "")[|CounterText(count, end, "")| - 1] == '+'
  {
  }

  /** Parsing the counter's own text as a stat string gives back the count. */
  lemma TargetOfCounterText(count: nat, end: string)
    ensures HasDigit(CounterText(count, end, ""))
    ensures CounterTarget(CounterText(count, end, "")) == count
  {
    var digits := DecimalText(count);
    assert DigitsOnly("") == [] && digits + [] == digits;
    assert DigitsOnly(CounterText(count, end, "")) == digits;
    DecimalRoundTrip(count);
  }

  /** The text the counter settles on once it has counted up to its target. */
  function FinalText(end: string): (t: string)
    requires HasDigit(end)
    ensures DigitsOnly(t) == DecimalText(CounterTarget(end))
  {
    assert DecimalText(CounterTarget(end)) + DigitsOnly("") == DecimalText(CounterTarget(end));
    CounterText(CounterTarget(end), end, "")
  }

  /**
   As written, the counter loses every non-digit except "+": the stat "24/7"
   ends on screen as "247" and the stat "99%" as "99".
   */
  lemma FinalTextDiffersFromStat()
    ensures FinalText("24/7") == "247" != "24/7"
    ensures FinalText("99%") == "99" != "99%"
  {
    FinalTextAllWeek();
    FinalTextNinetyNine();
  }

  /** The counter for "24/7" settles on "247". */
  lemma FinalTextAllWeek()
    ensures FinalText("24/7") == "247"
  {
  }

  /** The counter for "99%" settles on "99". */
  lemma FinalTextNinetyNine()
    ensures FinalText("99%") == "99"
  {
  }

  /** The run of digits a string starts with. */
  function LeadingDigits(s: string): (ds: string)
    ensures AllDigits(ds)
    ensures |ds| <= |s| && ds == s[..|ds|]
    ensures |ds| < |s| ==> !IsDigit(s[|ds|])
  {
    if s != [] && IsDigit(s[0]) then [s[0]] + LeadingDigits(s[1..]) else []
  }

  /** A stat string that starts with a number written without leading zeros. */
  predicate StartsWithNumber(end: string)
  {
    var ds := LeadingDigits(end);
    ds != [] && (ds[0] == '0' ==> ds == "0")
  }

  /** Corrected target: the number the stat string starts with. */
  function LeadingTarget(end: string): (v: nat)
    requires StartsWithNumber(end)
    ensures DecimalText(v) == LeadingDigits(end)
  {
    CanonicalRoundTrip(LeadingDigits(end));
    DecimalValue(LeadingDigits(end))
  }

  /**
   Corrected text: the number it starts with is exactly the count, and it
   keeps everything that follows the stat string's leading number.
   */
  function CorrectedCounterText(count: nat, end: string): (t: string)
    ensures LeadingDigits(t) == DecimalText(count)
    ensures t[|DecimalText(count)|..] == end[|LeadingDigits(end)|..]
  {
    var digits, rest := DecimalText(count), end[|LeadingDigits(end)|..];
    LeadingDigitsOfPrefix(digits, rest);
    assert (digits + rest)[|digits|..] == rest;
    digits + rest
  }

  /** With the correction the counter settles on exactly the stat string. */
  lemma CorrectedFinalTextIsStat(end: string)
    requires StartsWithNumber(end)
    ensures CorrectedCounterText(LeadingTarget(end), end) == end
  {
  }

  /** For the stats that are a number and a trailing "+", both versions agree. */
  lemma CorrectionKeepsPlusStats(ds: string)
    requires AllDigits(ds) && ds != [] && (ds[0] == '0' ==> ds == "0")
    ensures HasDigit(ds + "+") && StartsWithNumber(ds + "+")
    ensures LeadingTarget(ds + "+") == CounterTarget(ds + "+")
    ensures CorrectedCounterText(LeadingTarget(ds + "+"), ds + "+") == FinalText(ds + "+")
  {
    var end := ds + "+";
    assert end == ds + ['+'] + "";
    assert ds + "" == ds;
    TargetOfDigitString(ds);
    TargetIgnoresNonDigit(ds, '+', "");
    LeadingDigitsOfPrefix(ds, "+");
    assert '+' in end by { assert end[|ds|] == '+'; }
  }

  lemma {:induction false} LeadingDigitsOfPrefix(ds: string, rest: string)
    requires AllDigits(ds)
    requires rest == [] || !IsDigit(rest[0])
    ensures LeadingDigits(ds + rest) == ds
  {
    if ds != [] {
      assert (ds + rest)[1..] == ds[1..] + rest;
      LeadingDigitsOfPrefix(ds[1..], rest);
    } else {
      assert ds + rest == rest;
    }
  }

  /** Writing out the value of a digit string without leading zeros gives the string back. */
  lemma {:induction false} CanonicalRoundTrip(ds: string)
    requires AllDigits(ds) && ds != [] && (ds[0] == '0' ==> ds == "0")
    ensures DecimalText(DecimalValue(ds)) == ds
  {
    var last := ds[|ds| - 1];
    if |ds| == 1 {
      assert DigitChar(DigitValue(last)) == last;
    } else {
      var init := ds[..|ds| - 1];
      assert init[0] == ds[0];
      CanonicalRoundTrip(init);
      var v := DecimalValue(ds);
      assert v == 10 * DecimalValue(init) + DigitValue(last);
      assert v / 10 == DecimalValue(init) && v % 10 == DigitValue(last);
      assert DigitChar(DigitValue(last)) == last;
      assert ds == init + [last];
    }
  }
}
