/**
 * `nest-api/mock/ids.ts`: identifiers whose text sorts as their time does.
 *
 * The layout is that of section 5.7 of RFC 9562: twelve hex digits of
 * milliseconds, the version, the variant, and bits that stand for randomness.
 * The digest of the row's name is a parameter.
 */
module Ids {

  const DIGITS := 12
  const TWO_TO_48 := 0x1_0000_0000_0000

  /** A hex digit, by its value. */
  function HexDigit(n: int): char
    requires 0 <= n < 16
  {
    if n < 10 then ('0' as int + n) as char else ('a' as int + n - 10) as char
  }

  function HexValue(c: char): int
    requires IsHex(c)
  {
    if c <= '9' then c as int - '0' as int else c as int - 'a' as int + 10
  }

  predicate IsHex(c: char) {
    '0' <= c <= '9' || 'a' <= c <= 'f'
  }

  /** `toString(16)` */
  function Hex(n: nat): (r: string)
    ensures r != ""
  {
    if n < 16 then [HexDigit(n)] else Hex(n / 16) + [HexDigit(n % 16)]
  }

  function PadStart(text: string, width: nat): string
    decreases width - |text|
  {
    if |text| >= width then text else PadStart("0" + text, width)
  }

  /** `Math.max(0, Math.trunc(timestampMs))` */
  function Millis(timestamp: real): nat {
    if timestamp < 0.0 then 0 else timestamp.Floor
  }

  function Time(ms: nat): string {
    PadStart(Hex(ms), DIGITS)
  }

  /** The `sha256` of a key, in hex. */
  predicate IsDigest(digest: string) {
    |digest| == 64 && forall c | c in digest :: IsHex(c)
  }

  function Variant(c: char): char
    requires IsHex(c)
  {
    HexDigit(8 + HexValue(c) % 4)
  }

  function UuidV7(timestamp: real, digest: string): string
    requires IsDigest(digest)
  {
    var time := Time(Millis(timestamp));
    PadLength(Hex(Millis(timestamp)), DIGITS);
    Stamp(time) + Rest(digest)
  }

  /** The part before the version: the first twelve digits, with a hyphen in them and one after. */
  function Stamp(time: string): string
    requires |time| >= DIGITS
  {
    time[..8] + "-" + time[8..12] + "-"
  }

  function Rest(digest: string): string
    requires IsDigest(digest)
  {
    var rand12, rand62 := digest[..3], digest[3..19];
    assert digest[3] in digest;
    "7" + rand12 + "-" + [Variant(rand62[0])] + rand62[1..4] + "-" + rand62[4..16]
  }

  lemma {:induction false} PadLength(text: string, width: nat)
    ensures |PadStart(text, width)| == if |text| >= width then |text| else width
    decreases width - |text|
  {
    if |text| < width { PadLength("0" + text, width); }
  }

  // ------------------------------------------------------------------ order of strings

  /** Strings compare at the first place where they differ. */
  ghost predicate Before(a: string, b: string) {
    || (|a| < |b| && a == b[..|a|])
    || exists i | 0 <= i < |a| && i < |b| :: a[..i] == b[..i] && a[i] < b[i]
  }

  lemma BeforeAt(a: string, b: string, i: nat)
    requires i < |a| && i < |b| && a[..i] == b[..i] && a[i] < b[i]
    ensures Before(a, b)
  {
  }

  /** The same place decides whatever is put behind. */
  lemma BeforeWithTails(a: string, b: string, s: string, t: string)
    requires |a| == |b| && Before(a, b)
    ensures Before(a + s, b + t)
  {
    var i :| 0 <= i < |a| && a[..i] == b[..i] && a[i] < b[i];
    assert (a + s)[..i] == a[..i] && (b + t)[..i] == b[..i];
    BeforeAt(a + s, b + t, i);
  }

  // ------------------------------------------------------------------ fixed width

  /** `n` in exactly `k` hex digits, the high ones cut off. */
  function Fixed(n: nat, k: nat): (r: string)
    ensures |r| == k
  {
    if k == 0 then "" else Fixed(n / 16, k - 1) + [HexDigit(n % 16)]
  }

  function Pow16(k: nat): (r: nat)
    ensures r > 0
  {
    if k == 0 then 1 else 16 * Pow16(k - 1)
  }

  lemma PadOne(text: string, width: nat)
    requires |text| <= width
    ensures PadStart(text, width) == Zeros(width - |text|) + text
    decreases width - |text|
  {
    if |text| < width {
      PadOne("0" + text, width);
      ZerosEnd(width - |text| - 1);
      assert Zeros(width - |text| - 1) + ("0" + text) == Zeros(width - |text| - 1) + "0" + text;
    }
  }

  function Zeros(n: nat): (r: string)
    ensures |r| == n
  {
    if n == 0 then "" else "0" + Zeros(n - 1)
  }

  lemma {:induction false} ZerosEnd(n: nat)
    ensures Zeros(n) + "0" == Zeros(n + 1)
  {
    if n > 0 { ZerosEnd(n - 1); }
  }

  lemma {:induction false} FixedZero(k: nat)
    ensures Fixed(0, k) == Zeros(k)
  {
    if k > 0 {
      FixedZero(k - 1);
      ZerosEnd(k - 1);
    }
  }

  /** A number that fits its digits is written in them with leading zeros. */
  lemma {:induction false} HexIsFixed(n: nat, k: nat)
    requires n < Pow16(k) && k > 0
    ensures |Hex(n)| <= k && Zeros(k - |Hex(n)|) + Hex(n) == Fixed(n, k)
    decreases k
  {
    if n < 16 {
      FixedZero(k - 1);
    } else {
      HexIsFixed(n / 16, k - 1);
    }
  }

  /** In a fixed width, text order is number order. */
  lemma {:induction false} FixedKeepsOrder(a: nat, b: nat, k: nat)
    requires a < b < Pow16(k)
    ensures Before(Fixed(a, k), Fixed(b, k))
    decreases k
  {
    var x, y := Fixed(a / 16, k - 1), Fixed(b / 16, k - 1);
    if a / 16 < b / 16 {
      FixedKeepsOrder(a / 16, b / 16, k - 1);
      BeforeWithTails(x, y, [HexDigit(a % 16)], [HexDigit(b % 16)]);
    } else {
      assert a / 16 == b / 16 && a % 16 < b % 16;
      BeforeAt(Fixed(a, k), Fixed(b, k), k - 1);
    }
  }

  // ------------------------------------------------------------------ the first forty-eight bits

  /** What twelve digits keep of a time: the time itself, until it takes more of them. */
  function Top48(ms: nat): (r: nat)
    ensures r < TWO_TO_48
    ensures ms < TWO_TO_48 ==> r == ms
  {
    if ms < TWO_TO_48 then ms else Top48(ms / 16)
  }

  lemma Pow16Twelve()
    ensures Pow16(12) == TWO_TO_48 && Pow16(11) * 16 == TWO_TO_48
  {
    assert Pow16(4) == 0x1_0000;
    assert Pow16(8) == 0x1_0000_0000;
  }

  lemma {:induction false} HexIsLong(n: nat, k: nat)
    requires n >= Pow16(k)
    ensures |Hex(n)| > k
    decreases k
  {
    if k > 0 { HexIsLong(n / 16, k - 1); }
  }

  /** The digits that reach the identifier are those of `Top48`. */
  lemma {:induction false} TimeHead(ms: nat)
    ensures |Time(ms)| >= DIGITS && Time(ms)[..DIGITS] == Fixed(Top48(ms), DIGITS)
    decreases ms
  {
    Pow16Twelve();
    PadLength(Hex(ms), DIGITS);
    if ms < TWO_TO_48 {
      HexIsFixed(ms, DIGITS);
      PadOne(Hex(ms), DIGITS);
    } else {
      HexIsLong(ms, DIGITS);
      HexIsLong(ms / 16, DIGITS - 1);
      TimeHead(ms / 16);
      assert Hex(ms) == Hex(ms / 16) + [HexDigit(ms % 16)];
      assert Time(ms / 16) == Hex(ms / 16) by { PadLength(Hex(ms / 16), DIGITS); }
    }
  }

  /** The hyphens stand in the same places, so they decide nothing. */
  lemma StampKeepsOrder(a: string, b: string)
    requires |a| >= DIGITS && |b| >= DIGITS && Before(a[..DIGITS], b[..DIGITS])
    ensures Before(Stamp(a), Stamp(b))
  {
    var x, y := a[..DIGITS], b[..DIGITS];
    var i :| 0 <= i < DIGITS && x[..i] == y[..i] && x[i] < y[i];
    var s, t := Stamp(a), Stamp(b);
    var at := if i < 8 then i else i + 1;
    assert s[at] == x[i] && t[at] == y[i];
    AgreeBefore(x, y, i);
    assert forall j | 0 <= j < at :: s[j] == t[j];
    assert s[..at] == t[..at];
    BeforeAt(s, t, at);
  }

  /**
   * Identifiers sort as their times do, whatever the names hash to, as far as
   * twelve hex digits tell the times apart: always below 2^48 milliseconds.
   */
  lemma IdsSortByTime(a: real, b: real, digest: string, digest': string)
    requires IsDigest(digest) && IsDigest(digest')
    ensures Top48(Millis(a)) < Top48(Millis(b)) ==> Before(UuidV7(a, digest), UuidV7(b, digest'))
    ensures Millis(a) < Millis(b) < TWO_TO_48 ==> Before(UuidV7(a, digest), UuidV7(b, digest'))
  {
    var m, n := Millis(a), Millis(b);
    if Top48(m) < Top48(n) {
      TimeHead(m);
      TimeHead(n);
      Pow16Twelve();
      FixedKeepsOrder(Top48(m), Top48(n), DIGITS);
      StampKeepsOrder(Time(m), Time(n));
      BeforeWithTails(Stamp(Time(m)), Stamp(Time(n)), Rest(digest), Rest(digest'));
    }
  }

  lemma BeforeIsAsymmetric(a: string, b: string)
    requires |a| == |b| && Before(a, b)
    ensures !Before(b, a)
  {
    var i :| 0 <= i < |a| && a[..i] == b[..i] && a[i] < b[i];
    forall j | 0 <= j < |b| && b[..j] == a[..j] ensures !(b[j] < a[j]) {
      AgreeBefore(a, b, j);
      AgreeBefore(a, b, i);
    }
  }

  lemma AgreeBefore(a: string, b: string, n: nat)
    requires n <= |a| && n <= |b| && a[..n] == b[..n]
    ensures forall k | 0 <= k < n :: a[k] == b[k]
  {
    forall k | 0 <= k < n ensures a[k] == b[k] {
      assert a[..n][k] == a[k] && b[..n][k] == b[k];
    }
  }

  /** A digest to speak of. */
  function SomeDigest(): (d: string)
    ensures IsDigest(d)
  {
    seq(64, _ => '0')
  }

  ghost predicate SortsBefore(a: real, b: real) {
    forall digest, digest' | IsDigest(digest) && IsDigest(digest') :: Before(UuidV7(a, digest), UuidV7(b, digest'))
  }

  /**
   * One time's identifiers sort before another's, whatever the names, exactly
   * when the digits that are kept tell the times apart that way.
   */
  lemma IdsSortExactly(a: real, b: real)
    ensures SortsBefore(a, b) <==> Top48(Millis(a)) < Top48(Millis(b))
  {
    var m, n, d := Top48(Millis(a)), Top48(Millis(b)), SomeDigest();
    if m < n {
      forall digest, digest' | IsDigest(digest) && IsDigest(digest')
        ensures Before(UuidV7(a, digest), UuidV7(b, digest'))
      {
        IdsSortByTime(a, b, digest, digest');
      }
    } else {
      IdsAreVersionSeven(a, d);
      IdsAreVersionSeven(b, d);
      NotBefore(a, b, d);
    }
  }

  lemma NotBefore(a: real, b: real, digest: string)
    requires IsDigest(digest) && Top48(Millis(b)) <= Top48(Millis(a))
    ensures !Before(UuidV7(a, digest), UuidV7(b, digest))
  {
    IdsAreVersionSeven(a, digest);
    IdsAreVersionSeven(b, digest);
    if Top48(Millis(b)) < Top48(Millis(a)) {
      IdsSortByTime(b, a, digest, digest);
      BeforeIsAsymmetric(UuidV7(b, digest), UuidV7(a, digest));
    } else {
      SameTimeSameId(a, b, digest);
    }
  }

  lemma SameTimeSameId(a: real, b: real, digest: string)
    requires IsDigest(digest) && Top48(Millis(a)) == Top48(Millis(b))
    ensures UuidV7(a, digest) == UuidV7(b, digest)
  {
    TimeHead(Millis(a));
    TimeHead(Millis(b));
    var s, t := Time(Millis(a)), Time(Millis(b));
    assert s[..8] == s[..12][..8] && s[8..12] == s[..12][8..12];
    assert t[..8] == t[..12][..8] && t[8..12] == t[..12][8..12];
  }

  /** Two identifiers of one time share everything up to the version, and their names decide. */
  lemma SameTimeSameStamp(a: real, b: real, digest: string, digest': string)
    requires IsDigest(digest) && IsDigest(digest')
    requires Top48(Millis(a)) == Top48(Millis(b))
    ensures UuidV7(a, digest)[..14] == UuidV7(b, digest')[..14]
  {
    TimeHead(Millis(a));
    TimeHead(Millis(b));
    var s, t := Time(Millis(a)), Time(Millis(b));
    assert s[..8] == s[..12][..8] && s[8..12] == s[..12][8..12];
    assert t[..8] == t[..12][..8] && t[8..12] == t[..12][8..12];
    assert Stamp(s) == Stamp(t);
    assert UuidV7(a, digest)[..14] == Stamp(s) && UuidV7(b, digest')[..14] == Stamp(t);
  }

  /** One millisecond further than twelve digits reach, the identifier falls back behind all but the first ones. */
  lemma OrderBreaksAt48Bits(digest: string, digest': string)
    requires IsDigest(digest) && IsDigest(digest')
    ensures Before(UuidV7(TWO_TO_48 as real, digest), UuidV7((TWO_TO_48 - 1) as real, digest'))
  {
    assert Millis(TWO_TO_48 as real) == TWO_TO_48 && Millis((TWO_TO_48 - 1) as real) == TWO_TO_48 - 1;
    assert Top48(TWO_TO_48) == Top48(TWO_TO_48 / 16) == TWO_TO_48 / 16;
    IdsSortByTime(TWO_TO_48 as real, (TWO_TO_48 - 1) as real, digest, digest');
  }

  // ------------------------------------------------------------------ the shape

  /** Thirty-six characters, hyphens where a uuid has them, version 7 and the RFC's variant. */
  lemma IdsAreVersionSeven(timestamp: real, digest: string)
    requires IsDigest(digest)
    ensures var id := UuidV7(timestamp, digest);
            && |id| == 36
            && id[8] == '-' && id[13] == '-' && id[18] == '-' && id[23] == '-'
            && id[14] == '7' && id[19] in "89ab"
  {
    TimeHead(Millis(timestamp));
    var stamp, rest := Stamp(Time(Millis(timestamp))), Rest(digest);
    assert |stamp| == 14 && stamp[8] == '-' && stamp[13] == '-';
    RestShape(digest);
    var id := UuidV7(timestamp, digest);
    assert id == stamp + rest;
    assert id[14] == rest[0] && id[18] == rest[4] && id[19] == rest[5] && id[23] == rest[9];
  }

  lemma RestShape(digest: string)
    requires IsDigest(digest)
    ensures var r := Rest(digest); |r| == 22 && r[0] == '7' && r[4] == '-' && r[5] in "89ab" && r[9] == '-'
  {
    assert digest[3] in digest;
    var v := Variant(digest[3]);
    assert v in "89ab" by {
      var k := HexValue(digest[3]) % 4;
      assert v == "89ab"[k];
    }
    var rand62 := digest[3..19];
    assert rand62[0] == digest[3];
    assert Rest(digest) == "7" + digest[..3] + "-" + [v] + rand62[1..4] + "-" + rand62[4..16];
  }
}
