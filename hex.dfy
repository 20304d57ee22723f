/** Fixed-width hexadecimal formatting: eight upper-case digits, or thirty-two lower-case ones. */
module Hex {

  function Pow16(k: nat): (r: nat)
    ensures r >= 1
  {
    if k == 0 then 1 else 16 * Pow16(k - 1)
  }

  function HexChar(d: nat, upper: bool): char
    requires d < 16
  {
    if upper then "0123456789ABCDEF"[d] else "0123456789abcdef"[d]
  }

  predicate IsHexChar(c: char, upper: bool) {
    '0' <= c <= '9' || (if upper then 'A' <= c <= 'F' else 'a' <= c <= 'f')
  }

  function HexValue(c: char): nat {
    if '0' <= c <= '9' then (c as int - '0' as int) as nat
    else if 'A' <= c <= 'F' then (c as int - 'A' as int + 10) as nat
    else if 'a' <= c <= 'f' then (c as int - 'a' as int + 10) as nat
    else 0
  }

  /** The last `k` hex digits of `n`, zero-padded on the left. */
  function Digits(n: nat, k: nat, upper: bool): (r: string)
    ensures |r| == k
    ensures forall i :: 0 <= i < k ==> IsHexChar(r[i], upper)
    decreases k
  {
    if k == 0 then "" else Digits(n / 16, k - 1, upper) + [HexChar(n % 16, upper)]
  }

  /** `int(s, 16)` for a string of hex digits. */
  function Parse(s: string): nat
    decreases |s|
  {
    if s == [] then 0 else Parse(s[..|s| - 1]) * 16 + HexValue(s[|s| - 1])
  }

  lemma HexCharValue(d: nat, upper: bool)
    requires d < 16
    ensures HexValue(HexChar(d, upper)) == d
  {
  }

  lemma MulAtLeast(m: int, k: int)
    requires m > 0 && k >= 1
    ensures m * k >= m
  {
    if k > 1 {
      MulAtLeast(m, k - 1);
      assert m * k == m * (k - 1) + m;
    }
  }

  lemma DivModUnique(n: int, m: int, q: int, r: int)
    requires m > 0 && 0 <= r < m && n == m * q + r
    ensures n % m == r && n / m == q
  {
    var q', r' := n / m, n % m;
    assert n == m * q' + r';
    if q > q' {
      MulAtLeast(m, q - q');
      assert false;
    } else if q < q' {
      MulAtLeast(m, q' - q);
      assert false;
    }
  }

  lemma ModStep(n: nat, p: nat)
    requires p >= 1
    ensures (n / 16) % p * 16 + n % 16 == n % (16 * p)
  {
    var q, r := n / 16, n % 16;
    var a, b := q / p, q % p;
    assert n == (16 * p) * a + (16 * b + r) by {
      assert q == p * a + b;
      calc {
        n;
        16 * q + r;
        16 * (p * a + b) + r;
        (16 * p) * a + (16 * b + r);
      }
    }
    DivModUnique(n, 16 * p, a, 16 * b + r);
  }

  /** Reading the digits back gives `n` modulo `16^k`. */
  lemma {:induction false} DigitsRoundTrip(n: nat, k: nat, upper: bool)
    ensures Parse(Digits(n, k, upper)) == n % Pow16(k)
    decreases k
  {
    if k > 0 {
      var r := Digits(n, k, upper);
      assert r[..|r| - 1] == Digits(n / 16, k - 1, upper);
      DigitsRoundTrip(n / 16, k - 1, upper);
      HexCharValue(n % 16, upper);
      ModStep(n, Pow16(k - 1));
    }
  }

  /** Different numbers below `16^k` have different `k`-digit spellings. */
  lemma DigitsInjective(a: nat, b: nat, k: nat, upper: bool)
    requires a < Pow16(k) && b < Pow16(k)
    requires Digits(a, k, upper) == Digits(b, k, upper)
    ensures a == b
  {
    var p := Pow16(k);
    DigitsRoundTrip(a, k, upper);
    DigitsRoundTrip(b, k, upper);
    DivModUnique(a, p, 0, a);
    DivModUnique(b, p, 0, b);
  }

  /** Dividing by 16 and then by `p` is dividing by `16 * p`. */
  lemma DivStep(n: nat, p: nat)
    requires p >= 1
    ensures (n / 16) / p == n / (16 * p)
  {
    var q, r := n / 16, n % 16;
    var a, b := q / p, q % p;
    assert n == (16 * p) * a + (16 * b + r) by {
      assert q == p * a + b;
      calc {
        n;
        16 * q + r;
        16 * (p * a + b) + r;
        (16 * p) * a + (16 * b + r);
      }
    }
    DivModUnique(n, 16 * p, a, 16 * b + r);
  }

  /** The digit at position `i` (from the left) is the hex digit of weight `16^(k-1-i)`. */
  lemma {:induction false} DigitAt(n: nat, k: nat, i: nat, upper: bool)
    requires i < k
    ensures (n / Pow16(k - 1 - i)) % 16 < 16
    ensures Digits(n, k, upper)[i] == HexChar((n / Pow16(k - 1 - i)) % 16, upper)
    decreases k
  {
    if i < k - 1 {
      DigitAt(n / 16, k - 1, i, upper);
      DivStep(n, Pow16(k - 2 - i));
    }
  }

  /** The leading `j` of `k` digits spell `n` with its low `k - j` digits dropped. */
  lemma {:induction false} DigitsPrefix(n: nat, k: nat, j: nat, upper: bool)
    requires j <= k
    ensures Digits(n, k, upper)[..j] == Digits(n / Pow16(k - j), j, upper)
    decreases k
  {
    if j < k {
      var r := Digits(n, k, upper);
      assert r[..j] == Digits(n / 16, k - 1, upper)[..j];
      DigitsPrefix(n / 16, k - 1, j, upper);
      DivStep(n, Pow16(k - 1 - j));
    }
  }

  /** `a` sorts before `b` as Python compares strings of equal length. */
  predicate LexLess(a: string, b: string) {
    |a| == |b| && exists i :: 0 <= i < |a| && a[..i] == b[..i] && a[i] < b[i]
  }

  /** Lowercase and uppercase hex digits are each ordered like their values. */
  lemma HexCharOrder(d: nat, e: nat, upper: bool)
    requires d < e < 16
    ensures HexChar(d, upper) < HexChar(e, upper)
  {
  }

  /** Fixed-width spellings sort as strings in the order of the numbers they spell. */
  lemma {:induction false} DigitsOrder(m: nat, n: nat, k: nat, upper: bool)
    requires m < n < Pow16(k)
    ensures LexLess(Digits(m, k, upper), Digits(n, k, upper))
    decreases k
  {
    var a', b' := Digits(m / 16, k - 1, upper), Digits(n / 16, k - 1, upper);
    var x, y := HexChar(m % 16, upper), HexChar(n % 16, upper);
    assert Digits(m, k, upper) == a' + [x] && Digits(n, k, upper) == b' + [y];
    if m / 16 < n / 16 {
      assert n / 16 < Pow16(k - 1) by {
        DivModUnique(n, 16, n / 16, n % 16);
      }
      DigitsOrder(m / 16, n / 16, k - 1, upper);
      LexLessExtend(a', b', x, y);
    } else {
      assert m / 16 == n / 16 && m % 16 < n % 16;
      HexCharOrder(m % 16, n % 16, upper);
      LexLessLast(a', x, y);
    }
  }

  /** Appending one character to each side keeps an order already decided. */
  lemma LexLessExtend(a: string, b: string, x: char, y: char)
    requires LexLess(a, b)
    ensures LexLess(a + [x], b + [y])
  {
    var i :| 0 <= i < |a| && a[..i] == b[..i] && a[i] < b[i];
    assert (a + [x])[..i] == a[..i] && (b + [y])[..i] == b[..i];
    assert (a + [x])[i] == a[i] && (b + [y])[i] == b[i];
  }

  /** Equal prefixes are ordered by their last characters. */
  lemma LexLessLast(p: string, x: char, y: char)
    requires x < y
    ensures LexLess(p + [x], p + [y])
  {
    assert (p + [x])[..|p|] == p == (p + [y])[..|p|];
  }
}
