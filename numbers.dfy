/** The JavaScript number handling the source relies on: `parseInt` of a query
    or form string, `parseInt(x) || fallback`, decimal rendering in template
    strings and `Math.ceil` / `Math.floor` of a quotient. */
module Numbers {
  import opened Common
  import opened Strings

  predicate IsDigit(c: char)
  {
    '0' <= c <= '9'
  }

  predicate AllDigits(s: string)
  {
    forall k :: 0 <= k < |s| ==> IsDigit(s[k])
  }

  /** The longest prefix made of decimal digits. */
  function DigitPrefix(s: string): (r: string)
    ensures |r| <= |s| && r == s[..|r|]
    ensures AllDigits(r)
    ensures |r| < |s| ==> !IsDigit(s[|r|])
  {
    if s == [] || !IsDigit(s[0]) then []
    else
      var rest := DigitPrefix(s[1..]);
      [s[0]] + rest
  }

  /** The value of a string of decimal digits. */
  function DigitsValue(d: string): nat
    requires AllDigits(d)
  {
    if d == [] then 0 else DigitsValue(d[..|d| - 1]) * 10 + (d[|d| - 1] as int - '0' as int)
  }

  /** `parseInt(s)` read in base 10: leading white space skipped, an optional
      sign, then the longest run of digits; `None` stands for `NaN`. */
  function ParseInt(s: string): Option<int>
  {
    var t := TrimStart(s);
    var negative := |t| > 0 && t[0] == '-';
    var unsigned := if |t| > 0 && (t[0] == '-' || t[0] == '+') then t[1..] else t;
    var digits := DigitPrefix(unsigned);
    if digits == [] then None
    else
      var value: int := DigitsValue(digits);
      Some(if negative then -value else value)
  }

  /** `parseInt(x) || fallback`: a missing value, `NaN` and `0` (or `-0`) are
      falsy and give the fallback; any other parsed number is kept, sign included. */
  function IntParamOr(x: Option<string>, fallback: int): (r: int)
    ensures x.None? ==> r == fallback
    ensures x.Some? && ParseInt(x.value).None? ==> r == fallback
    ensures x.Some? && ParseInt(x.value).Some? ==>
              r == if ParseInt(x.value).value == 0 then fallback else ParseInt(x.value).value
    ensures fallback != 0 ==> r != 0
  {
    match x
    case None => fallback
    case Some(s) =>
      match ParseInt(s)
      case None => fallback
      case Some(n) => if n == 0 then fallback else n
  }

  function Digit(d: nat): char
    requires d < 10
  {
    ('0' as int + d) as char
  }

  /** The decimal rendering of a natural number, as `${n}` produces it. */
  function NatToString(n: nat): (s: string)
    ensures |s| >= 1 && AllDigits(s)
  {
    if n < 10 then [Digit(n)] else NatToString(n / 10) + [Digit(n % 10)]
  }

  lemma {:induction false} DigitsValueOfNatToString(n: nat)
    ensures DigitsValue(NatToString(n)) == n
  {
    var s := NatToString(n);
    if n >= 10 {
      DigitsValueOfNatToString(n / 10);
      assert s[..|s| - 1] == NatToString(n / 10);
    } else {
      assert s[..0] == [];
    }
  }

  lemma {:induction false} DigitPrefixOf(d: string, rest: string)
    requires AllDigits(d)
    requires rest == [] || !IsDigit(rest[0])
    ensures DigitPrefix(d + rest) == d
  {
    if d != [] {
      assert (d + rest)[1..] == d[1..] + rest;
      DigitPrefixOf(d[1..], rest);
    } else {
      assert d + rest == rest;
    }
  }

  /** `parseInt` reads back what `${n}` wrote, ignoring whatever non-digit
      text follows it (`parseInt("12abc")` is 12). */
  lemma ParseIntOfNatToString(n: nat, rest: string)
    requires rest == [] || !IsDigit(rest[0])
    ensures ParseInt(NatToString(n) + rest) == Some(n)
  {
    var s := NatToString(n) + rest;
    assert s[0] == NatToString(n)[0];
    assert TrimStart(s) == s;
    DigitPrefixOf(NatToString(n), rest);
    DigitsValueOfNatToString(n);
  }

  /** `Math.ceil(total / limit)` for a non-zero limit (the quotient is a
      real number in JavaScript; Dafny's `/` on `int` is Euclidean). */
  function CeilDiv(total: nat, limit: int): int
    requires limit != 0
  {
    if limit > 0 then (total + limit - 1) / limit else -(total / -limit)
  }

  /** With a positive limit, `pages` is the least number of pages of `limit`
      items that hold `total` items. */
  lemma CeilDivBounds(total: nat, limit: int)
    requires limit > 0
    ensures CeilDiv(total, limit) >= 0
    ensures CeilDiv(total, limit) == 0 <==> total == 0
    ensures CeilDiv(total, limit) * limit >= total
    ensures (CeilDiv(total, limit) - 1) * limit < total || total == 0
  {
    var p := CeilDiv(total, limit);
    var m := (total + limit - 1) % limit;
    assert total + limit - 1 == p * limit + m;
  }
}
