/** The UTF-8 bytes of a Rust `String`.

    Every digest, sort order and percent-encoding in the repository works on the
    bytes of a string (`as_bytes`), while its equality and its `trim` work on
    characters, so both views are kept and related here. A Dafny `char` is a
    Unicode scalar value, exactly as a Rust `char` is.
 */
module Utf8 {
  import opened Wrappers

  type byte = n: int | 0 <= n < 0x100

  /** The one to four bytes of a scalar value. */
  function EncodeChar(c: char): (b: seq<byte>)
    ensures 1 <= |b| <= 4
  {
    var n := c as int;
    if n < 0x80 then [n]
    else if n < 0x800 then [0xC0 + n / 0x40, 0x80 + n % 0x40]
    else if n < 0x1_0000 then [0xE0 + n / 0x1000, 0x80 + n / 0x40 % 0x40, 0x80 + n % 0x40]
    else [0xF0 + n / 0x4_0000, 0x80 + n / 0x1000 % 0x40, 0x80 + n / 0x40 % 0x40, 0x80 + n % 0x40]
  }

  /** Table 3-6 of the Unicode standard: a lead byte that says how many follow,
      and continuation bytes of six bits each, as few as hold the scalar value. */
  lemma CharShape(c: char)
    ensures var n: int, b: seq<int> := c as int, EncodeChar(c);
            && (|b| == 1 <==> n < 0x80)
            && (|b| == 2 <==> 0x80 <= n < 0x800)
            && (|b| == 3 <==> 0x800 <= n < 0x1_0000)
            && (|b| == 1 ==> b[0] == n)
            && (|b| == 2 ==> 0xC2 <= b[0] < 0xE0 && (b[0] - 0xC0) * 0x40 + (b[1] - 0x80) == n)
            && (|b| == 3 ==> 0xE0 <= b[0] < 0xF0
                             && (b[0] - 0xE0) * 0x1000 + (b[1] - 0x80) * 0x40 + (b[2] - 0x80) == n)
            && (|b| == 4 ==> 0xF0 <= b[0] < 0xF5
                             && (b[0] - 0xF0) * 0x4_0000 + (b[1] - 0x80) * 0x1000 + (b[2] - 0x80) * 0x40
                                + (b[3] - 0x80) == n)
            && forall i :: 1 <= i < |b| ==> 0x80 <= b[i] < 0xC0
  {
    Regroup(c as int);
  }

  function Bytes(s: string): (b: seq<byte>)
    ensures |s| <= |b|
  {
    if s == [] then [] else EncodeChar(s[0]) + Bytes(s[1..])
  }

  lemma {:induction false} BytesConcat(s: string, t: string)
    ensures Bytes(s + t) == Bytes(s) + Bytes(t)
  {
    if s == [] {
      assert s + t == t;
    } else {
      assert (s + t)[1..] == s[1..] + t;
      BytesConcat(s[1..], t);
    }
  }

  predicate IsScalar(n: int) {
    0 <= n < 0xD800 || 0xE000 <= n < 0x11_0000
  }

  function ToChar(n: int): Option<char> {
    if IsScalar(n) then Some(n as char) else None
  }

  /** How many bytes the character starting with `lead` takes; 0 for a byte that starts none. */
  function Width(lead: byte): nat {
    if lead < 0x80 then 1
    else if lead < 0xC0 then 0
    else if lead < 0xE0 then 2
    else if lead < 0xF0 then 3
    else if lead < 0xF8 then 4
    else 0
  }

  function FirstScalar(b: seq<byte>): int
    requires |b| > 0 && 0 < Width(b[0]) <= |b|
  {
    var s: seq<int> := b;
    if Width(b[0]) == 1 then s[0]
    else if Width(b[0]) == 2 then (s[0] - 0xC0) * 0x40 + (s[1] - 0x80)
    else if Width(b[0]) == 3 then (s[0] - 0xE0) * 0x1000 + (s[1] - 0x80) * 0x40 + (s[2] - 0x80)
    else (s[0] - 0xF0) * 0x4_0000 + (s[1] - 0x80) * 0x1000 + (s[2] - 0x80) * 0x40 + (s[3] - 0x80)
  }

  function Decode(b: seq<byte>): Option<string> {
    if b == [] then Some("")
    else
      var w := Width(b[0]);
      if w == 0 || w > |b| then None
      else
        match ToChar(FirstScalar(b))
        case None => None
        case Some(c) =>
          match Decode(b[w..])
          case None => None
          case Some(rest) => Some([c] + rest)
  }

  /** Base-64 digits of a scalar value put back together. */
  lemma Regroup(n: nat)
    ensures n == n / 0x40 * 0x40 + n % 0x40
    ensures n == n / 0x1000 * 0x1000 + n / 0x40 % 0x40 * 0x40 + n % 0x40
    ensures n == n / 0x4_0000 * 0x4_0000 + n / 0x1000 % 0x40 * 0x1000 + n / 0x40 % 0x40 * 0x40 + n % 0x40
  {
    assert n / 0x1000 == n / 0x40 / 0x40;
    assert n / 0x4_0000 == n / 0x1000 / 0x40;
  }

  lemma DecodeFirst(c: char, rest: seq<byte>)
    ensures Width((EncodeChar(c) + rest)[0]) == |EncodeChar(c)|
    ensures FirstScalar(EncodeChar(c) + rest) == c as int
    ensures (EncodeChar(c) + rest)[|EncodeChar(c)|..] == rest
  {
    Regroup(c as int);
    var e := EncodeChar(c);
    var b := e + rest;
    assert forall i :: 0 <= i < |e| ==> b[i] == e[i];
  }

  lemma {:induction false} DecodeBytes(s: string)
    ensures Decode(Bytes(s)) == Some(s)
  {
    if s != [] {
      DecodeFirst(s[0], Bytes(s[1..]));
      DecodeBytes(s[1..]);
      assert s == [s[0]] + s[1..];
    }
  }

  lemma BytesInjective(s: string, t: string)
    requires Bytes(s) == Bytes(t)
    ensures s == t
  {
    DecodeBytes(s);
    DecodeBytes(t);
  }

  predicate IsAscii(s: string) {
    forall i :: 0 <= i < |s| ==> s[i] as int < 0x80
  }

  lemma {:induction false} AsciiBytes(s: string)
    requires IsAscii(s)
    ensures |Bytes(s)| == |s| && forall i :: 0 <= i < |s| ==> Bytes(s)[i] == s[i] as int
  {
    if s != [] {
      AsciiBytes(s[1..]);
    }
  }
}
