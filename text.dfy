/**
 * String helpers with Python's meaning: `str.startswith`, the `in`
 * operator on strings, `str(int)` and `f"{x}"` on an optional string.
 */
module Text {
  import opened Wrappers

  /** Whether `s` begins with `prefix`. */
  predicate StartsWith(s: string, prefix: string) {
    |prefix| <= |s| && s[..|prefix|] == prefix
  }

  /** Whether `sub` occurs in `s` as a contiguous piece. */
  predicate Contains(s: string, sub: string)
    decreases |s|
  {
    StartsWith(s, sub) || (s != [] && Contains(s[1..], sub))
  }

  lemma {:induction false} ContainsWithin(p: string, sub: string, q: string)
    ensures Contains(p + sub + q, sub)
    decreases |p|
  {
    if p == [] {
      assert (p + sub + q)[..|sub|] == sub;
    } else {
      assert (p + sub + q)[1..] == p[1..] + sub + q;
      ContainsWithin(p[1..], sub, q);
    }
  }

  /** A string that lacks one of `sub`'s characters cannot contain `sub`. */
  lemma {:induction false} MissingCharNotContained(s: string, sub: string, c: char)
    requires c in sub && c !in s
    ensures !Contains(s, sub)
    decreases |s|
  {
    if s != [] {
      assert forall x :: x in s[1..] ==> x in s;
      MissingCharNotContained(s[1..], sub, c);
    }
  }

  /**
   * `s` cannot contain `sub` when `sub[k]` never occurs in `s` at or past
   * index `k`: every occurrence would put that character there.
   */
  lemma {:induction false} LateCharNotContained(s: string, sub: string, k: nat)
    requires k < |sub|
    requires k <= |s| ==> sub[k] !in s[k..]
    ensures !Contains(s, sub)
    decreases |s|
  {
    if s != [] {
      if k <= |s[1..]| {
        assert forall x :: x in s[1..][k..] ==> x in s[k..];
      }
      LateCharNotContained(s[1..], sub, k);
    }
  }

  function DecimalDigit(d: nat): char
    requires d < 10
  {
    "0123456789"[d]
  }

  /** `str(n)` for a natural number: its decimal digits, no leading zero. */
  function NatToString(n: nat): (r: string)
    ensures |r| >= 1
    ensures forall i :: 0 <= i < |r| ==> '0' <= r[i] <= '9'
    decreases n
  {
    if n < 10 then [DecimalDigit(n)] else NatToString(n / 10) + [DecimalDigit(n % 10)]
  }

  function DigitValue(c: char): nat
  {
    if '0' <= c <= '9' then (c as int - '0' as int) as nat else 0
  }

  /** Reads back a string of decimal digits. */
  function ParseDecimal(s: string): nat
    decreases |s|
  {
    if s == [] then 0 else ParseDecimal(s[..|s| - 1]) * 10 + DigitValue(s[|s| - 1])
  }

  lemma {:induction false} NatToStringRoundTrip(n: nat)
    ensures ParseDecimal(NatToString(n)) == n
    decreases n
  {
    var r := NatToString(n);
    if n < 10 {
      DecimalDigitValue(n);
      assert r == [DecimalDigit(n)];
      assert r[..0] == [];
    } else {
      var q, d := n / 10, n % 10;
      NatToStringRoundTrip(q);
      DecimalDigitValue(d);
      assert r == NatToString(q) + [DecimalDigit(d)];
      assert r[..|r| - 1] == NatToString(q);
      assert ParseDecimal(r) == q * 10 + d;
    }
  }

  lemma DecimalDigitValue(d: nat)
    requires d < 10
    ensures DigitValue(DecimalDigit(d)) == d
  {
  }

  lemma NatToStringInjective(a: nat, b: nat)
    requires NatToString(a) == NatToString(b)
    ensures a == b
  {
    NatToStringRoundTrip(a);
    NatToStringRoundTrip(b);
  }

  /** `str(n)` for any integer, with a leading '-' when negative. */
  function IntToString(n: int): (r: string)
    ensures |r| >= 1 && (r[0] == '-' <==> n < 0)
  {
    if n < 0 then "-" + NatToString(-n) else NatToString(n)
  }

  lemma IntToStringInjective(a: int, b: int)
    requires IntToString(a) == IntToString(b)
    ensures a == b
  {
    var s := IntToString(a);
    if a < 0 && b < 0 {
      var na, nb: nat := -a, -b;
      assert s == "-" + NatToString(na) && s == "-" + NatToString(nb);
      assert NatToString(na) == s[1..] == NatToString(nb);
      NatToStringInjective(na, nb);
    } else if a >= 0 && b >= 0 {
      NatToStringInjective(a, b);
    }
  }

  /** An optional string formatted into text: Python prints `None` for a missing value. */
  function Show(x: Option<string>): string {
    match x
    case Some(s) => s
    case None => "None"
  }

  /** Python truthiness of an optional string: present and non-empty. */
  predicate Truthy(x: Option<string>) {
    x.Some? && x.value != ""
  }

  /** The parts with `sep` between each two. */
  function Join(sep: string, parts: seq<string>): string
    decreases |parts|
  {
    if parts == [] then ""
    else if |parts| == 1 then parts[0]
    else parts[0] + sep + Join(sep, parts[1..])
  }
}
