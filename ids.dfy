/**
 * Identifier generation: the UUID version 7 layout of section 5.7 of
 * RFC 9562 and the run identifier built on it. The wall clock and the ten
 * random bytes are parameters: `nowMs` is `int(time.time() * 1000)` and
 * `entropy` is the big-endian integer read from the random bytes.
 */
module Ids {
  import Hex

  const P2: nat := 4
  const P12: nat := 4096
  const P48: nat := 281474976710656
  const P60: nat := 1152921504606846976
  const P62: nat := 4611686018427387904
  const P64: nat := 18446744073709551616
  const P74: nat := 18889465931478580854784
  const P76: nat := 75557863725914323419136
  const P80: nat := 1208925819614629174706176
  const P128: nat := 340282366920938463463374607431768211456

  /** The version nibble and the two variant bits of a version 7 UUID. */
  const Version: nat := 7
  const Variant: nat := 2

  /** The run prefix used when the caller gives none. */
  const DefaultRunPrefix: string := "r"

  /** The clock truncated to its low 48 bits (`ts_ms & ((1 << 48) - 1)`). */
  function Timestamp(nowMs: nat): (ts: nat)
    ensures ts < P48
  {
    nowMs % P48
  }

  /** The random value shifted right by 6, leaving 74 bits of an 80-bit input. */
  function Rand74(entropy: nat): nat {
    entropy / 64
  }

  /** Bits 62..73 of the 74-bit random value. */
  function RandA(entropy: nat): (a: nat)
    ensures a < P12
  {
    (Rand74(entropy) / P62) % P12
  }

  /** Bits 0..61 of the 74-bit random value. */
  function RandB(entropy: nat): (b: nat)
    ensures b < P62
  {
    Rand74(entropy) % P62
  }

  /**
   * The 128-bit value. The five fields occupy disjoint bit ranges
   * (timestamp at 80, version at 76, rand_a at 64, variant at 62, rand_b
   * at 0), so the bitwise or of the shifted fields is their sum.
   */
  function Pack(ts: nat, randA: nat, randB: nat): nat {
    ts * P80 + Version * P76 + randA * P64 + Variant * P62 + randB
  }

  function Value(nowMs: nat, entropy: nat): nat {
    Pack(Timestamp(nowMs), RandA(entropy), RandB(entropy))
  }

  /** 32 hex digits grouped 8-4-4-4-12 with hyphens. */
  function Group(h: string): (r: string)
    requires |h| == 32
  {
    h[0..8] + "-" + h[8..12] + "-" + h[12..16] + "-" + h[16..20] + "-" + h[20..32]
  }

  /** The grouped form with its hyphens removed. */
  function Ungroup(r: string): string
    requires |r| == 36
  {
    r[0..8] + r[9..13] + r[14..18] + r[19..23] + r[24..36]
  }

  function UuidV7(nowMs: nat, entropy: nat): (r: string)
    ensures |r| == 36
  {
    Group(Hex.Digits(Value(nowMs, entropy), 32, false))
  }

  function RunId(prefix: string, nowMs: nat, entropy: nat): string {
    prefix + "-" + UuidV7(nowMs, entropy)
  }

  /** The timestamp keeps the low 48 bits of the clock and drops the rest. */
  lemma TimestampTruncates(nowMs: nat)
    ensures nowMs < P48 ==> Timestamp(nowMs) == nowMs
    ensures Timestamp(nowMs + P48) == Timestamp(nowMs)
  {
    Hex.DivModUnique(nowMs + P48, P48, nowMs / P48 + 1, nowMs % P48);
  }

  /**
   * rand_a and rand_b together are exactly the 74-bit random value:
   * rand_a its top 12 bits, rand_b its low 62.
   */
  lemma RandomFieldsSplit(entropy: nat)
    requires entropy < P80
    ensures Rand74(entropy) < P74
    ensures RandA(entropy) * P62 + RandB(entropy) == Rand74(entropy)
  {
    var r := Rand74(entropy);
    Hex.DivModUnique(entropy, 64, r, entropy % 64);
    var q := r / P62;
    assert r == P62 * q + RandB(entropy);
    assert q < P12;
    Hex.DivModUnique(q, P12, 0, q);
  }

  /** The top 48 bits of the value are the timestamp, and the value fits in 128 bits. */
  lemma PackTimestamp(ts: nat, a: nat, b: nat)
    requires ts < P48 && a < P12 && b < P62
    ensures Pack(ts, a, b) / P80 == ts
    ensures Pack(ts, a, b) < P128
  {
    var low := Version * P76 + a * P64 + Variant * P62 + b;
    Hex.DivModUnique(Pack(ts, a, b), P80, ts, low);
  }

  /** Bits 76..79 hold the version 7. */
  lemma PackVersion(ts: nat, a: nat, b: nat)
    requires ts < P48 && a < P12 && b < P62
    ensures (Pack(ts, a, b) / P76) % 16 == Version
  {
    var high := 16 * ts + Version;
    Hex.DivModUnique(Pack(ts, a, b), P76, high, a * P64 + Variant * P62 + b);
    Hex.DivModUnique(high, 16, ts, Version);
  }

  /** Bits 64..75 hold rand_a. */
  lemma PackRandA(ts: nat, a: nat, b: nat)
    requires ts < P48 && a < P12 && b < P62
    ensures (Pack(ts, a, b) / P64) % P12 == a
  {
    var high := P12 * (16 * ts + Version) + a;
    Hex.DivModUnique(Pack(ts, a, b), P64, high, Variant * P62 + b);
    Hex.DivModUnique(high, P12, 16 * ts + Version, a);
  }

  /** Bits 62..63 hold the variant 0b10, and bits 0..61 hold rand_b. */
  lemma PackVariant(ts: nat, a: nat, b: nat)
    requires ts < P48 && a < P12 && b < P62
    ensures (Pack(ts, a, b) / P62) % P2 == Variant
    ensures Pack(ts, a, b) % P62 == b
  {
    var high := P2 * (P12 * (16 * ts + Version) + a) + Variant;
    Hex.DivModUnique(Pack(ts, a, b), P62, high, b);
    Hex.DivModUnique(high, P2, P12 * (16 * ts + Version) + a, Variant);
  }

  /** Each field of a generated value reads back from its own bit range. */
  lemma ValueFields(nowMs: nat, entropy: nat)
    ensures Value(nowMs, entropy) < P128
    ensures Value(nowMs, entropy) / P80 == Timestamp(nowMs)
    ensures (Value(nowMs, entropy) / P76) % 16 == Version
    ensures (Value(nowMs, entropy) / P64) % P12 == RandA(entropy)
    ensures (Value(nowMs, entropy) / P62) % P2 == Variant
    ensures Value(nowMs, entropy) % P62 == RandB(entropy)
  {
    var ts, a, b := Timestamp(nowMs), RandA(entropy), RandB(entropy);
    PackTimestamp(ts, a, b);
    PackVersion(ts, a, b);
    PackRandA(ts, a, b);
    PackVariant(ts, a, b);
  }

  lemma Pow16Small()
    ensures Hex.Pow16(12) == P48 && Hex.Pow16(15) == P60
  {
    assert Hex.Pow16(4) == 65536;
    assert Hex.Pow16(8) == 4294967296;
  }

  lemma Pow16Middle()
    ensures Hex.Pow16(19) == P76 && Hex.Pow16(20) == P80
  {
    Pow16Small();
    assert Hex.Pow16(16) == P64;
  }

  lemma Pow16Full()
    ensures Hex.Pow16(32) == P128
  {
    Pow16Middle();
    assert Hex.Pow16(24) == 79228162514264337593543950336;
    assert Hex.Pow16(28) == 5192296858534827628530496329220096;
  }

  /** Removing the hyphens undoes the grouping. */
  lemma UngroupGroup(h: string)
    requires |h| == 32
    ensures Ungroup(Group(h)) == h
  {
    var r := Group(h);
    assert r[0..8] == h[0..8];
    assert r[9..13] == h[8..12];
    assert r[14..18] == h[12..16];
    assert r[19..23] == h[16..20];
    assert r[24..36] == h[20..32];
    assert h == h[0..8] + h[8..12] + h[12..16] + h[16..20] + h[20..32];
  }

  /** Where each hex digit lands in the grouped form. */
  function GroupedIndex(j: nat): nat {
    if j < 8 then j else if j < 12 then j + 1 else if j < 16 then j + 2 else if j < 20 then j + 3 else j + 4
  }

  lemma GroupAt(h: string, j: nat)
    requires |h| == 32 && j < 32
    ensures GroupedIndex(j) < 36 && Group(h)[GroupedIndex(j)] == h[j]
  {
  }

  lemma GroupHyphens(h: string)
    requires |h| == 32
    ensures var r := Group(h); r[8] == '-' && r[13] == '-' && r[18] == '-' && r[23] == '-'
  {
  }

  /** The hex digit at the start of the variant group is 8, 9, a or b. */
  lemma VariantDigit(v: nat)
    requires (v / P62) % P2 == Variant
    ensures 8 <= (v / P60) % 16 <= 11
  {
    var q := v / P62;
    var hi := q / P2;
    Hex.DivModUnique(v, P62, q, v % P62);
    var top := v % P62 / P60;
    assert top < 4;
    Hex.DivModUnique(v % P62, P60, top, v % P62 % P60);
    assert v == P60 * (16 * hi + 8 + top) + v % P62 % P60;
    Hex.DivModUnique(v, P60, 16 * hi + 8 + top, v % P62 % P60);
    Hex.DivModUnique(16 * hi + 8 + top, 16, hi, 8 + top);
  }

  /**
   * The identifier is 36 characters: lowercase hex digits grouped
   * 8-4-4-4-12, the third group starting with the version digit '7' and
   * the fourth with a variant digit 8, 9, a or b.
   */
  lemma UuidShape(nowMs: nat, entropy: nat)
    ensures var r := UuidV7(nowMs, entropy);
      && |r| == 36
      && r[8] == '-' && r[13] == '-' && r[18] == '-' && r[23] == '-'
      && r[14] == '7'
      && r[19] in "89ab"
      && forall j :: 0 <= j < 32 ==> Hex.IsHexChar(r[GroupedIndex(j)], false)
  {
    var v := Value(nowMs, entropy);
    var h := Hex.Digits(v, 32, false);
    GroupHyphens(h);
    VersionDigitAt(nowMs, entropy);
    VariantDigitAt(nowMs, entropy);
    forall j | 0 <= j < 32
      ensures Hex.IsHexChar(Group(h)[GroupedIndex(j)], false)
    {
      GroupAt(h, j);
    }
  }

  lemma VersionDigitAt(nowMs: nat, entropy: nat)
    ensures UuidV7(nowMs, entropy)[14] == '7'
  {
    var v := Value(nowMs, entropy);
    var h := Hex.Digits(v, 32, false);
    PackVersion(Timestamp(nowMs), RandA(entropy), RandB(entropy));
    VersionNibble(v);
    GroupAt(h, 12);
  }

  /** The thirteenth of 32 digits is the nibble at bits 76 to 79. */
  lemma VersionNibble(v: nat)
    requires (v / P76) % 16 == Version
    ensures Hex.Digits(v, 32, false)[12] == '7'
  {
    Pow16Middle();
    Hex.DigitAt(v, 32, 12, false);
  }

  lemma VariantDigitAt(nowMs: nat, entropy: nat)
    ensures UuidV7(nowMs, entropy)[19] in "89ab"
  {
    var v := Value(nowMs, entropy);
    var h := Hex.Digits(v, 32, false);
    PackVariant(Timestamp(nowMs), RandA(entropy), RandB(entropy));
    Pow16Small();
    Hex.DigitAt(v, 32, 16, false);
    VariantDigit(v);
    var d := (v / P60) % 16;
    assert h[16] == Hex.HexChar(d, false);
    assert Hex.HexChar(d, false) in "89ab" by {
      assert "0123456789abcdef"[8..12] == "89ab";
    }
    GroupAt(h, 16);
  }

  /** Removing the hyphens and reading the hex digits gives back the 128-bit value. */
  lemma UuidRoundTrip(nowMs: nat, entropy: nat)
    ensures Hex.Parse(Ungroup(UuidV7(nowMs, entropy))) == Value(nowMs, entropy)
  {
    var v := Value(nowMs, entropy);
    var h := Hex.Digits(v, 32, false);
    UngroupGroup(h);
    Hex.DigitsRoundTrip(v, 32, false);
    ValueFields(nowMs, entropy);
    Pow16Full();
    Hex.DivModUnique(v, P128, 0, v);
  }

  /**
   * Values are ordered by timestamp first: within one 48-bit clock window
   * a later millisecond always gives a larger value, whatever the random bits.
   */
  lemma ValueOrdered(now1: nat, e1: nat, now2: nat, e2: nat)
    requires Timestamp(now1) < Timestamp(now2)
    ensures Value(now1, e1) < Value(now2, e2)
  {
  }

  /** The position in the hyphen-free form of a character of the grouped form. */
  function UngroupedIndex(p: nat): nat {
    if p < 8 then p else if p < 13 then p - 1 else if p < 18 then p - 2 else if p < 23 then p - 3 else p - 4
  }

  /** Grouping keeps the string order of two 32-digit spellings. */
  lemma GroupOrder(h1: string, h2: string)
    requires |h1| == 32 && |h2| == 32 && Hex.LexLess(h1, h2)
    ensures Hex.LexLess(Group(h1), Group(h2))
  {
    var i :| 0 <= i < 32 && h1[..i] == h2[..i] && h1[i] < h2[i];
    var g1, g2 := Group(h1), Group(h2);
    var gi := GroupedIndex(i);
    GroupAt(h1, i);
    GroupAt(h2, i);
    GroupHyphens(h1);
    GroupHyphens(h2);
    forall p | 0 <= p < gi
      ensures g1[p] == g2[p]
    {
      if p !in {8, 13, 18, 23} {
        var j := UngroupedIndex(p);
        assert GroupedIndex(j) == p && j < i;
        GroupAt(h1, j);
        GroupAt(h2, j);
        assert h1[j] == h1[..i][j] == h2[..i][j] == h2[j];
      }
    }
    assert g1[..gi] == g2[..gi];
  }

  /**
   * Identifiers sort as strings in creation order: within one 48-bit clock
   * window, one made in a later millisecond compares greater, whatever the
   * random bits.
   */
  lemma UuidSortsByTime(now1: nat, e1: nat, now2: nat, e2: nat)
    requires Timestamp(now1) < Timestamp(now2)
    ensures Hex.LexLess(UuidV7(now1, e1), UuidV7(now2, e2))
  {
    var v1, v2 := Value(now1, e1), Value(now2, e2);
    ValueOrdered(now1, e1, now2, e2);
    ValueFields(now2, e2);
    Pow16Full();
    Hex.DigitsOrder(v1, v2, 32, false);
    GroupOrder(Hex.Digits(v1, 32, false), Hex.Digits(v2, 32, false));
  }

  /** The first twelve hex digits, across the first hyphen, spell the timestamp. */
  lemma UuidTimestampDigits(nowMs: nat, entropy: nat)
    ensures var r := UuidV7(nowMs, entropy); Hex.Parse(r[0..8] + r[9..13]) == Timestamp(nowMs)
  {
    var v := Value(nowMs, entropy);
    var t := Timestamp(nowMs);
    var h := Hex.Digits(v, 32, false);
    GroupFront(h);
    ValueFields(nowMs, entropy);
    FrontDigits(v, t);
    TwelveDigits(t);
  }

  /** The first twelve of 32 digits spell the value's top 48 bits. */
  lemma FrontDigits(v: nat, t: nat)
    requires v / P80 == t
    ensures Hex.Digits(v, 32, false)[..12] == Hex.Digits(t, 12, false)
  {
    Pow16Middle();
    Hex.DigitsPrefix(v, 32, 12, false);
  }

  /** Twelve digits read back a number below 2^48. */
  lemma TwelveDigits(t: nat)
    requires t < P48
    ensures Hex.Parse(Hex.Digits(t, 12, false)) == t
  {
    Pow16Small();
    Hex.DigitsRoundTrip(t, 12, false);
    Hex.DivModUnique(t, P48, 0, t);
  }

  /** The first two groups, without the hyphen between them, are the first twelve digits. */
  lemma GroupFront(h: string)
    requires |h| == 32
    ensures Group(h)[0..8] + Group(h)[9..13] == h[..12]
  {
    var r := Group(h);
    assert r[0..8] == h[0..8] && r[9..13] == h[8..12];
    assert h[..12] == h[0..8] + h[8..12];
  }

  /** Two identifiers made in different milliseconds of one clock window differ. */
  lemma UuidDistinctAcrossMilliseconds(now1: nat, e1: nat, now2: nat, e2: nat)
    requires Timestamp(now1) != Timestamp(now2)
    ensures UuidV7(now1, e1) != UuidV7(now2, e2)
  {
    ValueFields(now1, e1);
    ValueFields(now2, e2);
    UuidRoundTrip(now1, e1);
    UuidRoundTrip(now2, e2);
  }

  /** A run identifier is the prefix, a hyphen, then a full identifier. */
  lemma RunIdSplit(prefix: string, nowMs: nat, entropy: nat)
    ensures var r := RunId(prefix, nowMs, entropy);
      && |r| == |prefix| + 37
      && r[..|prefix|] == prefix
      && r[|prefix|] == '-'
      && r[|prefix| + 1..] == UuidV7(nowMs, entropy)
  {
  }

  /** A run identifier determines its prefix and its identifier: the identifier has a fixed length. */
  lemma RunIdPrefixRecoverable(p1: string, n1: nat, e1: nat, p2: string, n2: nat, e2: nat)
    requires RunId(p1, n1, e1) == RunId(p2, n2, e2)
    ensures p1 == p2 && UuidV7(n1, e1) == UuidV7(n2, e2)
  {
    RunIdSplit(p1, n1, e1);
    RunIdSplit(p2, n2, e2);
  }
}
