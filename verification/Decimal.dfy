/** Decimal integers as strconv writes and reads them. */
module Decimal {
  import opened Common

  function Digits(n: nat): (s: Bytes)
    ensures |s| >= 1 && 48 <= s[0] <= 57
  {
    if n < 10 then [48 + n] else Digits(n / 10) + [48 + n % 10]
  }

  function FormatInt(n: int): (s: Bytes) {
    if n < 0 then [45] + Digits(0 - n) else Digits(n)
  }

  function ParseDigits(s: Bytes): (n: Option<nat>)
    requires s != []
  {
    var last := s[|s| - 1];
    if !(48 <= last <= 57) then None
    else if |s| == 1 then Some(last - 48)
    else
      var hi :- ParseDigits(s[..|s| - 1]);
      Some(10 * hi + (last - 48))
  }

  function InRange(negative: bool, v: nat): (n: Option<int64>) {
    var signed: int := if negative then 0 - v else v;
    if -TWO_63 <= signed < TWO_63 then Some(signed) else None
  }

  function ParseBody(negative: bool, body: Bytes): (n: Option<int64>) {
    if body == [] then None
    else
      var v :- ParseDigits(body);
      InRange(negative, v)
  }

  /** strconv.ParseInt(s, 10, 64): an optional sign, digits, and the 64-bit range. */
  function ParseInt(s: Bytes): (n: Option<int64>) {
    if s == [] then None
    else if s[0] == 43 || s[0] == 45 then ParseBody(s[0] == 45, s[1..])
    else ParseBody(false, s)
  }

  lemma {:induction false} DigitsRoundTrip(n: nat)
    ensures ParseDigits(Digits(n)) == Some(n)
  {
    if n >= 10 {
      var s := Digits(n);
      DigitsRoundTrip(n / 10);
      assert s[..|s| - 1] == Digits(n / 10);
    }
  }

  lemma IntRoundTrip(n: int64)
    ensures ParseInt(FormatInt(n)) == Some(n)
  {
    var m: nat := if n < 0 then 0 - n else n;
    var d := Digits(m);
    DigitsRoundTrip(m);
    assert ParseBody(n < 0, d) == Some(n);
    if n < 0 {
      assert FormatInt(n) == [45] + d;
      assert ([45] + d)[1..] == d;
    } else {
      assert FormatInt(n) == d;
    }
  }
}
