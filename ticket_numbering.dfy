/**
 * The formatted ticket numbers built by the ticket view's create action:
 * `"<code>-NNNN"`, where NNNN is one more than the numeric suffix of the
 * service's most recent ticket, zero-padded to at least four digits.
 */
module TicketNumbering {
  import opened Wrappers

  predicate IsDigit(c: char) {
    '0' <= c <= '9'
  }

  predicate AllDigits(s: string) {
    forall i :: 0 <= i < |s| ==> IsDigit(s[i])
  }

  function DigitChar(d: nat): (c: char)
    requires d < 10
    ensures IsDigit(c) && c as int - '0' as int == d
  {
    ('0' as int + d) as char
  }

  function DigitValue(c: char): (d: nat)
    requires IsDigit(c)
    ensures d < 10 && DigitChar(d) == c
  {
    c as int - '0' as int
  }

  /** The value of a run of decimal digits, most significant digit first. */
  function DigitsValue(s: string): nat
    requires AllDigits(s)
  {
    if |s| == 0 then 0 else DigitsValue(s[..|s| - 1]) * 10 + DigitValue(s[|s| - 1])
  }

  /**
   * Python's `int(s)` on the strings this model admits: a non-empty run of
   * ASCII decimal digits. Anything else is the `ValueError` case.
   */
  function ParseNat(s: string): (r: Option<nat>)
    ensures r.Some? <==> |s| > 0 && AllDigits(s)
    ensures r.Some? ==> r.value == DigitsValue(s)
  {
    if |s| > 0 && AllDigits(s) then Some(DigitsValue(s)) else None
  }

  /** The shortest decimal representation of `n`, as `str(n)` gives it. */
  function Decimal(n: nat): (s: string)
    ensures |s| > 0 && AllDigits(s)
    ensures DigitsValue(s) == n
    ensures |s| > 1 ==> s[0] != '0'
  {
    if n < 10 then [DigitChar(n)]
    else
      var prefix := Decimal(n / 10);
      var s := prefix + [DigitChar(n % 10)];
      assert s[..|s| - 1] == prefix;
      s
  }

  function Zeros(k: nat): (z: string)
    ensures |z| == k && forall i :: 0 <= i < k ==> z[i] == '0'
  {
    seq(k, _ => '0')
  }

  lemma {:induction false} LeadingZerosValue(k: nat, s: string)
    requires AllDigits(s)
    ensures AllDigits(Zeros(k) + s) && DigitsValue(Zeros(k) + s) == DigitsValue(s)
    decreases |s|, k
  {
    var z := Zeros(k) + s;
    if |s| == 0 {
      assert z == Zeros(k);
      if k > 0 {
        assert z[..k - 1] == Zeros(k - 1);
        LeadingZerosValue(k - 1, "");
        assert Zeros(k - 1) + "" == Zeros(k - 1);
      }
    } else {
      assert z[..|z| - 1] == Zeros(k) + s[..|s| - 1];
      LeadingZerosValue(k, s[..|s| - 1]);
    }
  }

  lemma {:induction false} DecimalLength(n: nat, k: nat)
    requires k >= 1 && n < Pow10(k)
    ensures |Decimal(n)| <= k
  {
    if n >= 10 {
      assert n / 10 < Pow10(k - 1);
      assert k - 1 >= 1;
      DecimalLength(n / 10, k - 1);
    }
  }

  lemma DecimalWidthFour(n: nat)
    ensures n < 10000 ==> |Decimal(n)| <= 4
  {
    if n < 10000 {
      assert Pow10(4) == 10000;
      DecimalLength(n, 4);
    }
  }

  function Pow10(k: nat): nat {
    if k == 0 then 1 else 10 * Pow10(k - 1)
  }

  /**
   * `f"{n:04d}"` for a non-negative `n`: its decimal digits, left-padded
   * with zeros to width four, and wider when the digits need it.
   */
  function Pad4(n: nat): (s: string)
    ensures AllDigits(s) && DigitsValue(s) == n
    ensures |s| >= 4
    ensures |s| > 4 ==> s == Decimal(n)
    ensures n < 10000 ==> |s| == 4
  {
    var d := Decimal(n);
    DecimalWidthFour(n);
    if |d| < 4 then
      LeadingZerosValue(4 - |d|, d);
      Zeros(4 - |d|) + d
    else d
  }

  /** `s.split('-')[-1]`: the part of `s` after its last `'-'`, or all of `s` when it has none. */
  function LastSegment(s: string): (r: string)
    ensures '-' !in r
    ensures |r| <= |s| && r == s[|s| - |r|..]
    ensures |r| < |s| ==> s[|s| - |r| - 1] == '-'
  {
    if |s| == 0 then ""
    else if s[|s| - 1] == '-' then ""
    else
      var r := LastSegment(s[..|s| - 1]) + [s[|s| - 1]];
      assert s[|s| - |r|..] == s[..|s| - 1][|s| - |r|..] + [s[|s| - 1]];
      r
  }

  /** Whatever precedes the last dash, the segment after it is what `split` returns. */
  lemma {:induction false} LastSegmentAfterDash(prefix: string, d: string)
    requires '-' !in d
    ensures LastSegment(prefix + "-" + d) == d
  {
    var s := prefix + "-" + d;
    if d != "" {
      assert s[..|s| - 1] == prefix + "-" + d[..|d| - 1];
      assert s[|s| - 1] == d[|d| - 1];
      LastSegmentAfterDash(prefix, d[..|d| - 1]);
      assert d[..|d| - 1] + [d[|d| - 1]] == d;
    }
  }

  /** Round trip: the suffix of a generated number parses back to the value it was built from. */
  lemma SuffixRoundTrip(code: string, n: nat)
    ensures ParseNat(LastSegment(code + "-" + Pad4(n))) == Some(n)
  {
    var p := Pad4(n);
    assert forall i :: 0 <= i < |p| ==> p[i] != '-';
    LastSegmentAfterDash(code, p);
  }

  /**
   * The suffix value carried by the previous ticket's number, if there is a
   * previous number that is non-empty and whose last segment parses.
   */
  function PreviousSuffix(last: Option<string>): Option<nat>
  {
    match last
    case None => None
    case Some(number) => if number == "" then None else ParseNat(LastSegment(number))
  }

  /**
   * The number the create action gives a new ticket of the service whose
   * prefix is `code`, given the `number` of its most recent ticket (`None`
   * when there is no ticket or its number is null).
   */
  function NextFormattedNumber(code: string, last: Option<string>): (r: string)
    ensures PreviousSuffix(last).None? ==> r == code + "-" + Pad4(1)
    ensures PreviousSuffix(last).Some? ==> r == code + "-" + Pad4(PreviousSuffix(last).value + 1)
    ensures ParseNat(LastSegment(r)) == Some(if PreviousSuffix(last).Some? then PreviousSuffix(last).value + 1 else 1)
  {
    if last.Some? && last.value != "" then
      match ParseNat(LastSegment(last.value))
      case Some(n) =>
        assert PreviousSuffix(last) == Some(n);
        SuffixRoundTrip(code, n + 1);
        code + "-" + Pad4(n + 1)
      case None =>
        assert PreviousSuffix(last) == None;
        FirstNumber(code);
        code + "-0001"
    else
      assert PreviousSuffix(last) == None;
      FirstNumber(code);
      code + "-0001"
  }

  /** The literal fallback `"<code>-0001"` is the padded form of 1. */
  lemma FirstNumber(code: string)
    ensures code + "-0001" == code + "-" + Pad4(1)
    ensures ParseNat(LastSegment(code + "-0001")) == Some(1)
  {
    assert Decimal(1) == "1";
    assert Pad4(1) == Zeros(3) + "1";
    assert Pad4(1) == "0001";
    SuffixRoundTrip(code, 1);
  }

  /** The number of the k-th ticket (counting from 0) created for a service that had none. */
  function Issued(code: string, k: nat): string
  {
    if k == 0 then NextFormattedNumber(code, None)
    else NextFormattedNumber(code, Some(Issued(code, k - 1)))
  }

  /** Creating after a generated number `code-pad4(n)` gives `code-pad4(n+1)`. */
  lemma NextAfterIssued(code: string, n: nat)
    ensures NextFormattedNumber(code, Some(code + "-" + Pad4(n))) == code + "-" + Pad4(n + 1)
  {
    var prev := code + "-" + Pad4(n);
    SuffixRoundTrip(code, n);
    assert |prev| > 0;
    assert PreviousSuffix(Some(prev)) == Some(n);
  }

  /** Sequential creations yield `code-0001`, `code-0002`, ... with no gaps. */
  lemma {:induction false} SequentialNumbers(code: string, k: nat)
    ensures Issued(code, k) == code + "-" + Pad4(k + 1)
  {
    if k == 0 {
      assert PreviousSuffix(None) == None;
    } else {
      SequentialNumbers(code, k - 1);
      NextAfterIssued(code, k);
    }
  }
}
