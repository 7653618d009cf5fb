/** Numbers, byte strings and UUIDs printed as text: `to_string` on an unsigned
    integer, the `hex` crate, and the hyphenated form of a `Uuid`.
 */
module Text {
  import opened Wrappers
  import opened Utf8

  predicate StartsWith(s: string, prefix: string) {
    |prefix| <= |s| && s[..|prefix|] == prefix
  }

  predicate EndsWith(s: string, suffix: string) {
    |suffix| <= |s| && s[|s| - |suffix|..] == suffix
  }

  lemma StartsWithIff(s: string, prefix: string)
    ensures StartsWith(s, prefix) <==> exists rest :: s == prefix + rest
  {
    if StartsWith(s, prefix) {
      assert s == prefix + s[|prefix|..];
    }
  }

  lemma EndsWithIff(s: string, suffix: string)
    ensures EndsWith(s, suffix) <==> exists rest :: s == rest + suffix
  {
    if EndsWith(s, suffix) {
      assert s == s[..|s| - |suffix|] + suffix;
    }
  }

  // ---------------------------------------------------------------- decimal

  function Digit(d: nat): char
    requires d < 10
  {
    '0' + d as char
  }

  /** `n.to_string()`. */
  function Decimal(n: nat): (s: string)
    ensures |s| > 0 && IsAscii(s)
  {
    if n < 10 then [Digit(n)] else Decimal(n / 10) + [Digit(n % 10)]
  }

  predicate IsDigit(c: char) {
    '0' <= c <= '9'
  }

  function DecimalValue(s: string): int {
    if s == [] then 0
    else DecimalValue(s[..|s| - 1]) * 10 + (s[|s| - 1] as int - '0' as int)
  }

  lemma {:induction false} DecimalValueOf(n: nat)
    ensures DecimalValue(Decimal(n)) == n
    ensures forall i :: 0 <= i < |Decimal(n)| ==> IsDigit(Decimal(n)[i])
  {
    if n >= 10 {
      DecimalValueOf(n / 10);
      assert Decimal(n)[..|Decimal(n)| - 1] == Decimal(n / 10);
    } else {
      assert Decimal(n)[..0] == [];
    }
  }

  /** Digits are printed as themselves, and no number starts with a zero but zero itself. */
  lemma {:induction false} DecimalIsPlain(n: nat)
    ensures n < 10 ==> Decimal(n) == ["0123456789"[n]]
    ensures n >= 10 ==> Decimal(n)[0] != '0'
  {
    if n >= 100 {
      DecimalIsPlain(n / 10);
    }
  }

  lemma DecimalInjective(m: nat, n: nat)
    requires Decimal(m) == Decimal(n)
    ensures m == n
  {
    DecimalValueOf(m);
    DecimalValueOf(n);
  }

  lemma {:induction false} DecimalIsShort(n: nat)
    ensures |Decimal(n)| <= n + 1
    ensures n >= 10 ==> |Decimal(n)| <= n
  {
    if n >= 10 {
      DecimalIsShort(n / 10);
    }
  }

  // -------------------------------------------------------------------- hex

  function HexChar(d: nat): char
    requires d < 16
  {
    if d < 10 then '0' + d as char else 'a' + (d - 10) as char
  }

  /** `char::to_digit(16)`: both cases are accepted. */
  function HexValue(c: char): Option<nat> {
    if '0' <= c <= '9' then Some(c as int - '0' as int)
    else if 'a' <= c <= 'f' then Some(c as int - 'a' as int + 10)
    else if 'A' <= c <= 'F' then Some(c as int - 'A' as int + 10)
    else None
  }

  predicate IsHexDigit(c: char) {
    HexValue(c).Some?
  }

  lemma HexValueBound(c: char)
    ensures HexValue(c).Some? ==> HexValue(c).value < 16
  {
  }

  lemma HexValueOf(d: nat)
    requires d < 16
    ensures HexValue(HexChar(d)) == Some(d)
  {
  }

  /** `hex::encode`: two lower-case digits a byte. */
  function Hex(b: seq<byte>): (s: string)
    ensures |s| == 2 * |b|
  {
    if b == [] then "" else [HexChar(b[0] / 16), HexChar(b[0] % 16)] + Hex(b[1..])
  }

  /** `hex::decode_to_slice`, on any length. */
  function UnHex(s: string): (b: Option<seq<byte>>)
    ensures b.Some? <==> |s| % 2 == 0 && forall i :: 0 <= i < |s| ==> IsHexDigit(s[i])
    ensures b.Some? ==> |s| == 2 * |b.value|
  {
    if s == "" then Some([])
    else if |s| == 1 then None
    else
      var tail := UnHex(s[2..]);
      assert forall i :: 2 <= i < |s| ==> s[i] == s[2..][i - 2];
      match (HexValue(s[0]), HexValue(s[1]), tail)
      case (Some(hi), Some(lo), Some(rest)) =>
        HexValueBound(s[0]);
        HexValueBound(s[1]);
        var head: byte := hi * 16 + lo;
        Some([head] + rest)
      case _ => None
  }

  lemma {:induction false} UnHexOfHex(b: seq<byte>)
    ensures UnHex(Hex(b)) == Some(b)
    ensures forall i :: 0 <= i < |Hex(b)| ==> IsHexDigit(Hex(b)[i])
  {
    if b != [] {
      UnHexOfHex(b[1..]);
      HexValueOf(b[0] / 16);
      HexValueOf(b[0] % 16);
      assert Hex(b)[2..] == Hex(b[1..]);
      assert b == [b[0]] + b[1..];
    }
  }

  /** The digits in order, in both cases; nothing else is one. */
  lemma HexDigits(d: nat, c: char)
    requires d < 16
    ensures HexChar(d) == "0123456789abcdef"[d]
    ensures HexValue(c) == Some(d) <==> c == "0123456789abcdef"[d] || c == "0123456789ABCDEF"[d]
  {
  }

  // ------------------------------------------------------------------- uuid

  type Uuid = u: seq<byte> | |u| == 16 witness seq(16, _ => 0)

  /** The 8-4-4-4-12 form of `Uuid`'s `Display`. */
  function UuidText(u: Uuid): (s: string)
    ensures |s| == 36
  {
    var h := Hex(u);
    h[..8] + "-" + h[8..12] + "-" + h[12..16] + "-" + h[16..20] + "-" + h[20..]
  }

  /** The five runs of digits and the four hyphens between them. */
  lemma UuidRuns(u: Uuid)
    ensures var s := UuidText(u); s[8] == s[13] == s[18] == s[23] == '-'
    ensures var h, s := Hex(u), UuidText(u);
            && s[..8] == h[..8] && s[9..13] == h[8..12] && s[14..18] == h[12..16]
            && s[19..23] == h[16..20] && s[24..] == h[20..]
  {
    hide Hex;
  }

  lemma SameRuns(g: string, h: string)
    requires |g| == |h| == 32
    requires g[..8] == h[..8] && g[8..12] == h[8..12] && g[12..16] == h[12..16]
    requires g[16..20] == h[16..20] && g[20..] == h[20..]
    ensures g == h
  {
    assert g == g[..8] + g[8..12] + g[12..16] + g[16..20] + g[20..];
    assert h == h[..8] + h[8..12] + h[12..16] + h[16..20] + h[20..];
  }

  lemma UuidTextInjective(u: Uuid, v: Uuid)
    requires UuidText(u) == UuidText(v)
    ensures u == v
  {
    hide *;
    UuidRuns(u);
    UuidRuns(v);
    SameRuns(Hex(u), Hex(v));
    UnHexOfHex(u);
    UnHexOfHex(v);
  }

  lemma {:induction false} HexIsAscii(b: seq<byte>)
    ensures IsAscii(Hex(b))
  {
    UnHexOfHex(b);
  }

  lemma UuidTextIsAscii(u: Uuid)
    ensures IsAscii(UuidText(u))
  {
    HexIsAscii(u);
  }
}
