/**
 * JSON values as Python's `json` module produces and consumes them, Python
 * dicts with string keys in insertion order, and `json.dumps` with
 * `sort_keys=True, separators=(",", ":"), ensure_ascii=False`.
 */
module Json {
  import opened Wrappers
  import opened Text
  import Sorting

  /** A JSON value; `JNull` is also Python's `None`. */
  datatype Json =
    | JNull
    | JBool(b: bool)
    | JInt(i: int)
    | JStr(s: string)
    | JList(items: seq<Json>)
    | JObj(fields: Dict)

  /** A dict with string keys, in insertion order. */
  type Dict = seq<(string, Json)>

  function FieldKey(p: (string, Json)): string { p.0 }

  /** The keys of a dict, in insertion order. */
  function Keys(d: Dict): (r: seq<string>)
    ensures |r| == |d|
    ensures forall i :: 0 <= i < |d| ==> r[i] == d[i].0
    decreases |d|
  {
    if d == [] then [] else [d[0].0] + Keys(d[1..])
  }

  /** Whether `d` holds the key `k`. */
  predicate Has(d: Dict, k: string) {
    k in Keys(d)
  }

  /** A well-formed Python dict: no key occurs twice. */
  ghost predicate UniqueKeys(d: Dict) {
    Sorting.DistinctKeys(d, FieldKey)
  }

  /** The value stored under `k`, or `None` when there is none. */
  function Get(d: Dict, k: string): (r: Json)
    ensures !Has(d, k) ==> r == JNull
    ensures Has(d, k) ==> (k, r) in d
    decreases |d|
  {
    if d == [] then JNull else if d[0].0 == k then d[0].1 else Get(d[1..], k)
  }

  /** The value stored under `k`, or `default` when there is none. */
  function GetOr(d: Dict, k: string, default: Json): (r: Json)
    ensures r == if Has(d, k) then Get(d, k) else default
  {
    if Has(d, k) then Get(d, k) else default
  }

  /** Stores `v` under `k`: an existing key keeps its place, a new key goes last. */
  function Put(d: Dict, k: string, v: Json): Dict
    decreases |d|
  {
    if d == [] then [(k, v)]
    else if d[0].0 == k then [(k, v)] + d[1..]
    else [d[0]] + Put(d[1..], k, v)
  }

  /** After `d[k] = v`, `k` reads `v` and every other key reads as before. */
  lemma {:induction false} PutGet(d: Dict, k: string, v: Json)
    ensures Get(Put(d, k, v), k) == v
    ensures forall k' :: k' != k ==> Get(Put(d, k, v), k') == Get(d, k')
    decreases |d|
  {
    if d != [] && d[0].0 != k {
      PutGet(d[1..], k, v);
    }
  }

  /** Setting a key keeps the keys in place and appends a new one. */
  lemma {:induction false} PutKeys(d: Dict, k: string, v: Json)
    ensures Keys(Put(d, k, v)) == if Has(d, k) then Keys(d) else Keys(d) + [k]
    decreases |d|
  {
    if d != [] {
      PutKeys(d[1..], k, v);
      assert Keys(d) == [d[0].0] + Keys(d[1..]);
      if d[0].0 == k {
        assert Keys([(k, v)] + d[1..]) == [k] + Keys(d[1..]);
      } else {
        assert Keys([d[0]] + Put(d[1..], k, v)) == [d[0].0] + Keys(Put(d[1..], k, v));
        assert Has(d, k) <==> Has(d[1..], k);
      }
    }
  }

  /** The dict without key `k`. */
  function Remove(d: Dict, k: string): (r: Dict)
    ensures !Has(r, k)
    ensures forall k' :: k' != k ==> Get(r, k') == Get(d, k')
    ensures forall k' :: Has(r, k') <==> k' != k && Has(d, k')
    decreases |d|
  {
    if d == [] then []
    else if d[0].0 == k then Remove(d[1..], k)
    else
      var rest := Remove(d[1..], k);
      assert Keys([d[0]] + rest) == [d[0].0] + Keys(rest);
      assert Keys(d) == [d[0].0] + Keys(d[1..]);
      assert forall k' :: Has([d[0]] + rest, k') <==> k' == d[0].0 || Has(rest, k');
      assert forall k' :: Has(d, k') <==> k' == d[0].0 || Has(d[1..], k');
      [d[0]] + rest
  }

  /**
   * `{k: v, **d}`: `k` comes first, and a value already stored under `k`
   * in `d` wins over `v`.
   */
  function PutFront(k: string, v: Json, d: Dict): (r: Dict)
    ensures r != [] && r[0].0 == k
    ensures Get(r, k) == if Has(d, k) then Get(d, k) else v
    ensures forall k' :: k' != k ==> Get(r, k') == Get(d, k')
  {
    [(k, if Has(d, k) then Get(d, k) else v)] + Remove(d, k)
  }

  /** `{k: w, **{k: v, **d}}` is `{k: v, **d}`: the value already in front stays. */
  lemma PutFrontIdempotent(k: string, v: Json, w: Json, d: Dict)
    ensures PutFront(k, w, PutFront(k, v, d)) == PutFront(k, v, d)
  {
    var r := PutFront(k, v, d);
    assert Keys(r)[0] == k;
    assert r[1..] == Remove(d, k);
    RemoveAbsent(Remove(d, k), k);
  }

  lemma {:induction false} PutTwice(d: Dict, k: string, v1: Json, v2: Json)
    ensures Put(Put(d, k, v1), k, v2) == Put(d, k, v2)
    decreases |d|
  {
    if d != [] && d[0].0 != k {
      PutTwice(d[1..], k, v1, v2);
    }
  }

  lemma TailAbsent(d: Dict, k: string)
    requires d != [] && !Has(d, k)
    ensures d[0].0 != k && !Has(d[1..], k)
  {
    assert Keys(d)[0] == d[0].0;
    forall i | 0 <= i < |d[1..]| ensures Keys(d[1..])[i] != k {
      assert Keys(d[1..])[i] == Keys(d)[i + 1];
    }
  }

  lemma PutAbsent(d: Dict, k: string, v: Json)
    requires !Has(d, k)
    ensures Put(d, k, v) == d + [(k, v)]
  {
    assert forall i :: 0 <= i < |d| ==> Keys(d)[i] == d[i].0;
    PutNoKey(d, k, v);
  }

  lemma {:induction false} PutNoKey(d: Dict, k: string, v: Json)
    requires forall i :: 0 <= i < |d| ==> d[i].0 != k
    ensures Put(d, k, v) == d + [(k, v)]
    decreases |d|
  {
    if d != [] {
      assert d[0].0 != k;
      PutNoKey(d[1..], k, v);
      assert [d[0]] + (d[1..] + [(k, v)]) == d + [(k, v)];
    }
  }

  lemma PutLast(d: Dict, k: string, v1: Json, v2: Json)
    requires !Has(d, k)
    ensures Put(d + [(k, v1)], k, v2) == d + [(k, v2)]
  {
    assert forall i :: 0 <= i < |d| ==> Keys(d)[i] == d[i].0;
    PutLastNoKey(d, k, v1, v2);
  }

  lemma {:induction false} PutLastNoKey(d: Dict, k: string, v1: Json, v2: Json)
    requires forall i :: 0 <= i < |d| ==> d[i].0 != k
    ensures Put(d + [(k, v1)], k, v2) == d + [(k, v2)]
    decreases |d|
  {
    if d != [] {
      assert d[0].0 != k;
      assert (d + [(k, v1)])[1..] == d[1..] + [(k, v1)];
      PutLastNoKey(d[1..], k, v1, v2);
      assert [d[0]] + (d[1..] + [(k, v2)]) == d + [(k, v2)];
    }
  }

  lemma {:induction false} RemoveCount(d: Dict, k: string, x: (string, Json))
    ensures multiset(Remove(d, k))[x] == if x.0 == k then 0 else multiset(d)[x]
    decreases |d|
  {
    if d != [] {
      var t := Remove(d[1..], k);
      RemoveCount(d[1..], k, x);
      assert d == [d[0]] + d[1..];
      assert multiset(d) == multiset([d[0]]) + multiset(d[1..]);
      if d[0].0 != k {
        assert Remove(d, k) == [d[0]] + t;
        assert multiset(Remove(d, k)) == multiset([d[0]]) + multiset(t);
      }
    }
  }

  lemma {:induction false} RemoveAbsent(d: Dict, k: string)
    requires !Has(d, k)
    ensures Remove(d, k) == d
    decreases |d|
  {
    if d != [] {
      TailAbsent(d, k);
      RemoveAbsent(d[1..], k);
      assert d == [d[0]] + d[1..];
    }
  }

  lemma {:induction false} PutCount(d: Dict, k: string, v: Json, x: (string, Json))
    requires UniqueKeys(d)
    ensures multiset(Put(d, k, v))[x] == multiset(Remove(d, k))[x] + (if x == (k, v) then 1 else 0)
    decreases |d|
  {
    if d != [] {
      assert d == [d[0]] + d[1..];
      assert UniqueKeys(d[1..]) by {
        forall i, j | 0 <= i < j < |d[1..]| ensures FieldKey(d[1..][i]) != FieldKey(d[1..][j]) {
          assert d[1..][i] == d[i + 1] && d[1..][j] == d[j + 1];
        }
      }
      if d[0].0 == k {
        assert !Has(d[1..], k) by {
          forall i | 0 <= i < |d[1..]| ensures Keys(d[1..])[i] != k {
            assert d[1..][i] == d[i + 1];
            assert FieldKey(d[0]) != FieldKey(d[i + 1]);
          }
        }
        RemoveAbsent(d[1..], k);
      } else {
        PutCount(d[1..], k, v, x);
      }
    }
  }

  lemma UniqueAfterPut(d: Dict, k: string, v: Json)
    requires UniqueKeys(d)
    ensures UniqueKeys(Put(d, k, v))
  {
    var r := Put(d, k, v);
    PutKeys(d, k, v);
    forall i, j | 0 <= i < j < |r| ensures FieldKey(r[i]) != FieldKey(r[j]) {
      assert Keys(r)[i] == r[i].0 && Keys(r)[j] == r[j].0;
      if !Has(d, k) && j == |d| {
        assert Keys(d)[i] == d[i].0;
      } else {
        assert Keys(d)[i] == d[i].0 && Keys(d)[j] == d[j].0;
      }
    }
  }

  /**
   * Setting a key in two dicts that hold the same entries gives two dicts
   * that again hold the same entries.
   */
  lemma PutSameEntries(d1: Dict, d2: Dict, k: string, v: Json)
    requires UniqueKeys(d1) && multiset(d1) == multiset(d2)
    ensures UniqueKeys(Put(d1, k, v))
    ensures multiset(Put(d1, k, v)) == multiset(Put(d2, k, v))
  {
    UniqueAfterPut(d1, k, v);
    assert UniqueKeys(d2) by {
      forall i, j | 0 <= i < j < |d2| ensures FieldKey(d2[i]) != FieldKey(d2[j]) {
        SameEntriesDistinct(d1, d2, i, j);
      }
    }
    forall x ensures multiset(Put(d1, k, v))[x] == multiset(Put(d2, k, v))[x] {
      PutCount(d1, k, v, x);
      PutCount(d2, k, v, x);
      RemoveCount(d1, k, x);
      RemoveCount(d2, k, x);
    }
  }

  lemma SameEntriesDistinct(d1: Dict, d2: Dict, i: int, j: int)
    requires UniqueKeys(d1) && multiset(d1) == multiset(d2)
    requires 0 <= i < j < |d2|
    ensures d2[i].0 != d2[j].0
  {
    if d2[i].0 == d2[j].0 {
      assert d2[i] in multiset(d1) && d2[j] in multiset(d1);
      var p :| 0 <= p < |d1| && d1[p] == d2[i];
      var q :| 0 <= q < |d1| && d1[q] == d2[j];
      if p == q {
        var x := d2[i];
        TwiceCounted(d2, i, j);
        UniqueCountedOnce(d1, x);
      }
    }
  }

  lemma TwiceCounted(d: Dict, i: int, j: int)
    requires 0 <= i < j < |d| && d[i] == d[j]
    ensures multiset(d)[d[i]] >= 2
  {
    assert d == d[..j] + d[j..];
    assert d[i] in d[..j] && d[j] in d[j..];
    assert multiset(d) == multiset(d[..j]) + multiset(d[j..]);
  }

  lemma {:induction false} UniqueCountedOnce(d: Dict, x: (string, Json))
    requires UniqueKeys(d)
    ensures multiset(d)[x] <= 1
    decreases |d|
  {
    if d != [] {
      assert d == [d[0]] + d[1..];
      assert UniqueKeys(d[1..]) by {
        forall i, j | 0 <= i < j < |d[1..]| ensures FieldKey(d[1..][i]) != FieldKey(d[1..][j]) {
          assert d[1..][i] == d[i + 1] && d[1..][j] == d[j + 1];
        }
      }
      UniqueCountedOnce(d[1..], x);
    }
  }

  /** Python truthiness of a JSON value. */
  predicate Truthy(j: Json) {
    match j
    case JNull => false
    case JBool(b) => b
    case JInt(n) => n != 0
    case JStr(s) => s != ""
    case JList(items) => items != []
    case JObj(fields) => fields != []
  }

  /** Python's `or` on values: `a` when it is truthy, otherwise `b`. */
  function Or(a: Json, b: Json): (r: Json)
    ensures Truthy(r) <==> Truthy(a) || Truthy(b)
  {
    if Truthy(a) then a else b
  }

  /** `x or {}` for a value used as a dict. */
  function AsDict(j: Json): Dict {
    if j.JObj? then j.fields else []
  }

  /** An optional string as JSON: `None` becomes `null`. */
  function OptStr(x: Option<string>): (r: Json)
    ensures x.None? <==> r == JNull
    ensures Truthy(r) <==> Text.Truthy(x)
  {
    match x
    case Some(s) => JStr(s)
    case None => JNull
  }

  // ---------------------------------------------------------------------
  // Serialisation

  function HexDigitLower(d: nat): char
    requires d < 16
  {
    "0123456789abcdef"[d]
  }

  /** How `json.dumps(..., ensure_ascii=False)` writes one character of a string. */
  function EscapeChar(c: char): string {
    if c == '"' then "\\\""
    else if c == '\\' then "\\\\"
    else if c == '\n' then "\\n"
    else if c == '\r' then "\\r"
    else if c == '\t' then "\\t"
    else if c as int == 0x08 then "\\b"
    else if c as int == 0x0c then "\\f"
    else if (c as int) < 0x20 then
      "\\u00" + [HexDigitLower(c as int / 16), HexDigitLower(c as int % 16)]
    else [c]
  }

  function EscapeString(s: string): string
    decreases |s|
  {
    if s == [] then "" else EscapeChar(s[0]) + EscapeString(s[1..])
  }

  function Quote(s: string): string {
    "\"" + EscapeString(s) + "\""
  }

  /** The fields of a dict ordered by key, as `sort_keys=True` orders them. */
  function SortedFields(d: Dict): (r: Dict)
    ensures multiset(r) == multiset(d)
    ensures forall p :: p in r ==> p in d
  {
    Sorting.SortByPermutes(d, FieldKey, Sorting.StrLess);
    var r := Sorting.SortBy(d, FieldKey, Sorting.StrLess);
    assert forall p :: p in r ==> p in multiset(r);
    r
  }

  lemma FieldSmaller(d: Dict, p: (string, Json))
    requires p in d
    ensures p.1 < JObj(d)
  {
    var i :| 0 <= i < |d| && d[i] == p;
    assert d[i].1 < d[i];
  }

  /** Compact JSON text with sorted keys, no spaces and characters left unescaped. */
  function Render(j: Json): string
    decreases j
  {
    match j
    case JNull => "null"
    case JBool(b) => if b then "true" else "false"
    case JInt(n) => IntToString(n)
    case JStr(s) => Quote(s)
    case JList(items) =>
      "[" + Join(",", seq(|items|, i requires 0 <= i < |items| => Render(items[i]))) + "]"
    case JObj(d) =>
      var sorted := SortedFields(d);
      "{" + Join(",", seq(|sorted|, i requires 0 <= i < |sorted| =>
        FieldSmaller(d, sorted[i]);
        Quote(sorted[i].0) + ":" + Render(sorted[i].1))) + "}"
  }

  /**
   * Two dicts holding the same entries in different insertion orders are
   * written identically.
   */
  lemma RenderIgnoresInsertionOrder(d1: Dict, d2: Dict)
    requires UniqueKeys(d1)
    requires multiset(d1) == multiset(d2)
    ensures Render(JObj(d1)) == Render(JObj(d2))
  {
    Sorting.StrLessIsStrictTotalOrder();
    Sorting.SortByOrderIndependent(d1, d2, FieldKey, Sorting.StrLess);
  }

  // ---------------------------------------------------------------------
  // UTF-8

  newtype byte = x: int | 0 <= x < 256

  /** The UTF-8 encoding of one code point (`str.encode("utf-8")`). */
  function Utf8Char(c: char): (r: seq<byte>)
    ensures 1 <= |r| <= 4
    ensures (c as int) < 0x80 <==> |r| == 1
  {
    var n := c as int;
    if n < 0x80 then [n as byte]
    else if n < 0x800 then [(0xC0 + n / 64) as byte, (0x80 + n % 64) as byte]
    else if n < 0x10000 then
      [(0xE0 + n / 4096) as byte, (0x80 + n / 64 % 64) as byte, (0x80 + n % 64) as byte]
    else
      [(0xF0 + n / 262144) as byte, (0x80 + n / 4096 % 64) as byte,
       (0x80 + n / 64 % 64) as byte, (0x80 + n % 64) as byte]
  }

  function Utf8(s: string): seq<byte>
    decreases |s|
  {
    if s == [] then [] else Utf8Char(s[0]) + Utf8(s[1..])
  }

  /** An ASCII string encodes to one byte per character, its code. */
  lemma {:induction false} Utf8Ascii(s: string)
    requires forall i :: 0 <= i < |s| ==> (s[i] as int) < 0x80
    ensures |Utf8(s)| == |s|
    ensures forall i :: 0 <= i < |s| ==> Utf8(s)[i] as int == s[i] as int
    decreases |s|
  {
    if s != [] {
      Utf8Ascii(s[1..]);
    }
  }
}
