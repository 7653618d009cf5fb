/** Base64url without padding: section 5 of RFC 4648 with the alphabet of its
    Table 2 and, as section 3.2 allows, no `=`.
 */
module Base64Url {
  import opened Wrappers
  import opened Utf8

  // --------------------------------------------------------------- alphabet

  /** Table 2 of RFC 4648. */
  function Symbol(v: nat): char
    requires v < 64
  {
    if v < 26 then 'A' + v as char
    else if v < 52 then 'a' + (v - 26) as char
    else if v < 62 then '0' + (v - 52) as char
    else if v == 62 then '-'
    else '_'
  }

  function Value(c: char): (v: Option<nat>)
    ensures v.Some? ==> v.value < 64
  {
    if 'A' <= c <= 'Z' then Some(c as int - 'A' as int)
    else if 'a' <= c <= 'z' then Some(c as int - 'a' as int + 26)
    else if '0' <= c <= '9' then Some(c as int - '0' as int + 52)
    else if c == '-' then Some(62)
    else if c == '_' then Some(63)
    else None
  }

  lemma ValueOfSymbol(v: nat)
    requires v < 64
    ensures Value(Symbol(v)) == Some(v)
  {
  }

  lemma SymbolOfValue(c: char)
    requires Value(c).Some?
    ensures Symbol(Value(c).value) == c
  {
  }

  /** The 64 symbols in the order of the table. */
  lemma SymbolsInOrder(v: nat)
    requires v < 64
    ensures v < 26 ==> Symbol(v) == "ABCDEFGHIJKLMNOPQRSTUVWXYZ"[v]
    ensures 26 <= v < 52 ==> Symbol(v) == "abcdefghijklmnopqrstuvwxyz"[v - 26]
    ensures 52 <= v < 62 ==> Symbol(v) == "0123456789"[v - 52]
    ensures Symbol(62) == '-' && Symbol(63) == '_'
  {
  }

  // --------------------------------------------------------------- encoding

  /** The bytes of a chunk as one 24-bit number. */
  function Group(b0: byte, b1: byte, b2: byte): nat {
    b0 * 0x1_0000 + b1 * 0x100 + b2
  }

  function Sextet(n: nat, i: nat): (v: nat)
    requires i < 4
    ensures v < 64
  {
    if i == 0 then n / 0x4_0000 % 64
    else if i == 1 then n / 0x1000 % 64
    else if i == 2 then n / 0x40 % 64
    else n % 64
  }

  /** Four sextets for three bytes; two for a last byte, three for a last pair. */
  function Sextets(b: seq<byte>): (s: seq<nat>)
    ensures forall i :: 0 <= i < |s| ==> s[i] < 64
    ensures |s| == (4 * |b| + 2) / 3
  {
    if b == [] then []
    else if |b| == 1 then
      var n := Group(b[0], 0, 0);
      [Sextet(n, 0), Sextet(n, 1)]
    else if |b| == 2 then
      var n := Group(b[0], b[1], 0);
      [Sextet(n, 0), Sextet(n, 1), Sextet(n, 2)]
    else
      var n := Group(b[0], b[1], b[2]);
      [Sextet(n, 0), Sextet(n, 1), Sextet(n, 2), Sextet(n, 3)] + Sextets(b[3..])
  }

  function Symbols(sextets: seq<nat>): (s: string)
    requires forall i :: 0 <= i < |sextets| ==> sextets[i] < 64
    ensures |s| == |sextets|
  {
    seq(|sextets|, i requires 0 <= i < |sextets| => Symbol(sextets[i]))
  }

  function Encode(b: seq<byte>): (s: string)
    ensures |s| == (4 * |b| + 2) / 3
  {
    Symbols(Sextets(b))
  }

  /** The symbols of one whole chunk. */
  function Quad(b0: byte, b1: byte, b2: byte): string {
    var n := Group(b0, b1, b2);
    [Symbol(Sextet(n, 0)), Symbol(Sextet(n, 1)), Symbol(Sextet(n, 2)), Symbol(Sextet(n, 3))]
  }

  /** `base64url`: whole chunks first, then what remains. */
  method EncodeInto(input: seq<byte>) returns (out: string)
    ensures out == Encode(input)
  {
    hide Symbol, Sextet, Group, Encode;
    out := "";
    var chunks := |input| / 3;
    EmptyEncodes();
    assert input[..0] == [];
    for k := 0 to chunks
      invariant out == Encode(input[..3 * k])
    {
      var c := input[3 * k..3 * k + 3];
      var n := Group(c[0], c[1], c[2]);
      OneMoreChunk(input, k);
      out := out + [Symbol(Sextet(n, 0))];
      out := out + [Symbol(Sextet(n, 1))];
      out := out + [Symbol(Sextet(n, 2))];
      out := out + [Symbol(Sextet(n, 3))];
    }
    var rem := input[3 * chunks..];
    EncodeConcat(input[..3 * chunks], rem);
    assert input == input[..3 * chunks] + rem;
    if |rem| == 1 {
      OneLeftEncodes(rem);
      var n := Group(rem[0], 0, 0);
      out := out + [Symbol(Sextet(n, 0))];
      out := out + [Symbol(Sextet(n, 1))];
    } else if |rem| == 2 {
      TwoLeftEncode(rem);
      var n := Group(rem[0], rem[1], 0);
      out := out + [Symbol(Sextet(n, 0))];
      out := out + [Symbol(Sextet(n, 1))];
      out := out + [Symbol(Sextet(n, 2))];
    } else {
      EmptyEncodes();
      assert rem == [];
    }
  }

  lemma EmptyEncodes()
    ensures Encode([]) == ""
  {
  }

  lemma OneLeftEncodes(rem: seq<byte>)
    requires |rem| == 1
    ensures var n := Group(rem[0], 0, 0); Encode(rem) == [Symbol(Sextet(n, 0)), Symbol(Sextet(n, 1))]
  {
    hide Sextet, Group, Symbol;
  }

  lemma TwoLeftEncode(rem: seq<byte>)
    requires |rem| == 2
    ensures var n := Group(rem[0], rem[1], 0);
            Encode(rem) == [Symbol(Sextet(n, 0)), Symbol(Sextet(n, 1)), Symbol(Sextet(n, 2))]
  {
    hide Sextet, Group, Symbol;
  }

  lemma QuadEncodes(c: seq<byte>)
    requires |c| == 3
    ensures Encode(c) == Quad(c[0], c[1], c[2])
  {
    hide Sextet, Group, Symbol;
    assert Sextets(c[3..]) == [];
  }

  lemma {:induction false} SextetsConcat(a: seq<byte>, b: seq<byte>)
    requires |a| % 3 == 0
    ensures Sextets(a + b) == Sextets(a) + Sextets(b)
  {
    hide Sextet, Group;
    if a == [] {
      assert a + b == b;
    } else {
      assert (a + b)[3..] == a[3..] + b;
      SextetsConcat(a[3..], b);
    }
  }

  lemma EncodeConcat(a: seq<byte>, b: seq<byte>)
    requires |a| % 3 == 0
    ensures Encode(a + b) == Encode(a) + Encode(b)
  {
    hide Sextets, Symbol;
    SextetsConcat(a, b);
  }

  lemma OneMoreChunk(input: seq<byte>, k: nat)
    requires 3 * k + 3 <= |input|
    ensures Encode(input[..3 * (k + 1)])
         == Encode(input[..3 * k]) + Quad(input[3 * k], input[3 * k + 1], input[3 * k + 2])
  {
    hide Encode, Quad;
    var c := input[3 * k..3 * k + 3];
    assert input[..3 * (k + 1)] == input[..3 * k] + c;
    EncodeConcat(input[..3 * k], c);
    QuadEncodes(c);
  }

  // ------------------------------------------------------------- bit strings

  /** Bits, most significant first. */
  function ByteBits(v: byte): (x: seq<nat>)
    ensures |x| == 8
  {
    [v / 128 % 2, v / 64 % 2, v / 32 % 2, v / 16 % 2, v / 8 % 2, v / 4 % 2, v / 2 % 2, v % 2]
  }

  function SextetBits(v: nat): seq<nat> {
    [v / 32 % 2, v / 16 % 2, v / 8 % 2, v / 4 % 2, v / 2 % 2, v % 2]
  }

  function BitString(b: seq<byte>): seq<nat> {
    if b == [] then [] else ByteBits(b[0]) + BitString(b[1..])
  }

  function SextetString(s: seq<nat>): seq<nat> {
    if s == [] then [] else SextetBits(s[0]) + SextetString(s[1..])
  }

  function Zeros(n: nat): seq<nat> {
    seq(n, _ => 0)
  }

  /** How many zero bits fill the last sextet. */
  function Fill(n: nat): nat {
    if n % 3 == 0 then 0 else if n % 3 == 1 then 4 else 2
  }

  /** A quotient and a remainder are what they look like. */
  lemma DivideBy(n: nat, q: nat, r: nat)
    ensures r < 0x40 && n == q * 0x40 + r ==> n / 0x40 == q && n % 0x40 == r
    ensures r < 0x1000 && n == q * 0x1000 + r ==> n / 0x1000 == q
    ensures r < 0x4_0000 && n == q * 0x4_0000 + r ==> n / 0x4_0000 == q
  {
  }

  lemma SextetsOfGroup(b0: byte, b1: byte, b2: byte)
    ensures var n := Group(b0, b1, b2);
            && Sextet(n, 0) == b0 / 4
            && Sextet(n, 1) == b0 % 4 * 16 + b1 / 16
            && Sextet(n, 2) == b1 % 16 * 4 + b2 / 64
            && Sextet(n, 3) == b2 % 64
  {
    var n := Group(b0, b1, b2);
    var p0, q0, p1, q1, p2, q2 := b0 / 4, b0 % 4, b1 / 16, b1 % 16, b2 / 64, b2 % 64;
    GroupParts(n, p0, q0, p1, q1, p2, q2);
  }

  lemma GroupParts(n: nat, p0: nat, q0: nat, p1: nat, q1: nat, p2: nat, q2: nat)
    requires p0 < 64 && q0 < 4 && p1 < 16 && q1 < 16 && p2 < 4 && q2 < 64
    requires n == (4 * p0 + q0) * 0x1_0000 + (16 * p1 + q1) * 0x100 + (64 * p2 + q2)
    ensures Sextet(n, 0) == p0 && Sextet(n, 1) == q0 * 16 + p1 && Sextet(n, 2) == q1 * 4 + p2 && Sextet(n, 3) == q2
  {
    DivideBy(n, p0, q0 * 0x1_0000 + (16 * p1 + q1) * 0x100 + 64 * p2 + q2);
    DivideBy(p0, 0, p0);
    DivideBy(n, p0 * 64 + q0 * 16 + p1, q1 * 0x100 + 64 * p2 + q2);
    DivideBy(p0 * 64 + q0 * 16 + p1, p0, q0 * 16 + p1);
    DivideBy(n, p0 * 0x1000 + q0 * 0x400 + p1 * 64 + q1 * 4 + p2, q2);
    DivideBy(p0 * 0x1000 + q0 * 0x400 + p1 * 64 + q1 * 4 + p2, p0 * 64 + q0 * 16 + p1, q1 * 4 + p2);
  }

  function Join6(x5: nat, x4: nat, x3: nat, x2: nat, x1: nat, x0: nat): nat {
    32 * x5 + 16 * x4 + 8 * x3 + 4 * x2 + 2 * x1 + x0
  }

  lemma BitsOfJoin6(x5: nat, x4: nat, x3: nat, x2: nat, x1: nat, x0: nat)
    requires x5 < 2 && x4 < 2 && x3 < 2 && x2 < 2 && x1 < 2 && x0 < 2
    ensures SextetBits(Join6(x5, x4, x3, x2, x1, x0)) == [x5, x4, x3, x2, x1, x0]
  {
    var v := Join6(x5, x4, x3, x2, x1, x0);
    Halve(x0, 16 * x5 + 8 * x4 + 4 * x3 + 2 * x2 + x1);
    Halve(x1, 8 * x5 + 4 * x4 + 2 * x3 + x2);
    Halve(x2, 4 * x5 + 2 * x4 + x3);
    Halve(x3, 2 * x5 + x4);
    Halve(x4, x5);
    HalvesOf(v);
  }

  lemma Halve(bit: nat, n: nat)
    requires bit < 2
    ensures (2 * n + bit) / 2 == n && (2 * n + bit) % 2 == bit
  {
  }

  lemma HalvesOf(v: nat)
    ensures v / 4 == v / 2 / 2 && v / 8 == v / 4 / 2 && v / 16 == v / 8 / 2 && v / 32 == v / 16 / 2
  {
  }

  /** A byte from its bits, and cut after two, four or six of them. */
  lemma ByteFromBits(v: byte)
    ensures var x := ByteBits(v);
            && (forall i :: 0 <= i < 8 ==> x[i] < 2)
            && v / 4 == Join6(x[0], x[1], x[2], x[3], x[4], x[5])
            && v % 4 == 2 * x[6] + x[7]
            && v / 16 == 8 * x[0] + 4 * x[1] + 2 * x[2] + x[3]
            && v % 16 == 8 * x[4] + 4 * x[5] + 2 * x[6] + x[7]
            && v / 64 == 2 * x[0] + x[1]
            && v % 64 == Join6(x[2], x[3], x[4], x[5], x[6], x[7])
  {
    Halves(v);
    Remainders(v);
    assert v / 128 < 2 && v / 128 % 2 == v / 128;
  }

  lemma Remainders(v: byte)
    ensures v % 4 == v - v / 4 * 4 && v % 16 == v - v / 16 * 16 && v % 64 == v - v / 64 * 64
  {
  }

  lemma Halves(v: byte)
    ensures v == v / 2 * 2 + v % 2
    ensures v / 2 == v / 4 * 2 + v / 2 % 2
    ensures v / 4 == v / 8 * 2 + v / 4 % 2
    ensures v / 8 == v / 16 * 2 + v / 8 % 2
    ensures v / 16 == v / 32 * 2 + v / 16 % 2
    ensures v / 32 == v / 64 * 2 + v / 32 % 2
    ensures v / 64 == v / 128 * 2 + v / 64 % 2
  {
    assert v / 4 == v / 2 / 2;
    assert v / 8 == v / 4 / 2;
    assert v / 16 == v / 8 / 2;
    assert v / 32 == v / 16 / 2;
    assert v / 64 == v / 32 / 2;
    assert v / 128 == v / 64 / 2;
  }

  lemma FirstSix(b0: byte)
    ensures var x := ByteBits(b0); SextetBits(b0 / 4) == [x[0], x[1], x[2], x[3], x[4], x[5]]
  {
    ByteFromBits(b0);
    hide ByteBits;
    var x := ByteBits(b0);
    BitsOfJoin6(x[0], x[1], x[2], x[3], x[4], x[5]);
  }

  lemma TwoAndFour(b0: byte, b1: byte)
    ensures var x, y := ByteBits(b0), ByteBits(b1);
            SextetBits(b0 % 4 * 16 + b1 / 16) == [x[6], x[7], y[0], y[1], y[2], y[3]]
  {
    ByteFromBits(b0);
    ByteFromBits(b1);
    hide ByteBits, SextetBits;
    var x, y := ByteBits(b0), ByteBits(b1);
    BitsOfJoin6(x[6], x[7], y[0], y[1], y[2], y[3]);
  }

  lemma FourAndTwo(b1: byte, b2: byte)
    ensures var y, z := ByteBits(b1), ByteBits(b2);
            SextetBits(b1 % 16 * 4 + b2 / 64) == [y[4], y[5], y[6], y[7], z[0], z[1]]
  {
    ByteFromBits(b1);
    ByteFromBits(b2);
    hide ByteBits, SextetBits;
    var y, z := ByteBits(b1), ByteBits(b2);
    BitsOfJoin6(y[4], y[5], y[6], y[7], z[0], z[1]);
  }

  lemma LastSix(b2: byte)
    ensures var z := ByteBits(b2); SextetBits(b2 % 64) == [z[2], z[3], z[4], z[5], z[6], z[7]]
  {
    ByteFromBits(b2);
    hide ByteBits;
    var z := ByteBits(b2);
    BitsOfJoin6(z[2], z[3], z[4], z[5], z[6], z[7]);
  }

  /** Three eights in a row are four sixes in a row. */
  lemma EightsAreSixes(x: seq<nat>, y: seq<nat>, z: seq<nat>)
    requires |x| == |y| == |z| == 8
    ensures [x[0], x[1], x[2], x[3], x[4], x[5]] + [x[6], x[7], y[0], y[1], y[2], y[3]] == x + [y[0], y[1], y[2], y[3]]
    ensures x + [y[0], y[1], y[2], y[3]] + [y[4], y[5], y[6], y[7], z[0], z[1]] == x + y + [z[0], z[1]]
    ensures x + y + [z[0], z[1]] + [z[2], z[3], z[4], z[5], z[6], z[7]] == x + y + z
  {
  }

  lemma ChunkBits(b0: byte, b1: byte, b2: byte)
    ensures var n := Group(b0, b1, b2);
            var x, y, z := ByteBits(b0), ByteBits(b1), ByteBits(b2);
            var two := SextetBits(Sextet(n, 0)) + SextetBits(Sextet(n, 1));
            && two == x + [y[0], y[1], y[2], y[3]]
            && two + SextetBits(Sextet(n, 2)) == x + y + [z[0], z[1]]
            && two + SextetBits(Sextet(n, 2)) + SextetBits(Sextet(n, 3)) == x + y + z
  {
    hide *;
    SextetsOfGroup(b0, b1, b2);
    FirstSix(b0);
    TwoAndFour(b0, b1);
    FourAndTwo(b1, b2);
    LastSix(b2);
    EightsAreSixes(ByteBits(b0), ByteBits(b1), ByteBits(b2));
  }

  /** The symbols are the big-endian bit string cut into sixes, the last six
      filled up with zeros. */
  lemma {:induction false} EncodingRegroupsBits(b: seq<byte>)
    ensures SextetString(Sextets(b)) == BitString(b) + Zeros(Fill(|b|))
    decreases |b|
  {
    hide *;
    if b == [] {
      EmptyRegroups();
    } else if |b| == 1 {
      LastByteRegroups(b);
    } else if |b| == 2 {
      LastPairRegroups(b);
    } else {
      EncodingRegroupsBits(b[3..]);
      ChunkRegroups(b);
      ThreeBytes(b);
      FillAfterChunk(|b|);
      Prepend(ByteBits(b[0]) + ByteBits(b[1]) + ByteBits(b[2]), SextetString(Sextets(b[3..])), BitString(b[3..]),
              Zeros(Fill(|b|)));
    }
  }

  lemma FillAfterChunk(n: nat)
    requires n >= 3
    ensures Fill(n - 3) == Fill(n)
  {
  }

  lemma Prepend(head: seq<nat>, tail: seq<nat>, bits: seq<nat>, zeros: seq<nat>)
    requires tail == bits + zeros
    ensures head + tail == head + bits + zeros
  {
  }

  lemma EmptyRegroups()
    ensures SextetString(Sextets([])) == BitString([]) + Zeros(Fill(0))
  {
  }

  lemma LastByteRegroups(b: seq<byte>)
    requires |b| == 1
    ensures SextetString(Sextets(b)) == BitString(b) + Zeros(Fill(|b|))
  {
    hide ByteBits, SextetBits, Sextet, Group, SextetString, BitString;
    var n := Group(b[0], 0, 0);
    ChunkBits(b[0], 0, 0);
    ZeroBits();
    FewSextets(Sextet(n, 0), Sextet(n, 1), 0);
    FewBytes(b);
  }

  lemma LastPairRegroups(b: seq<byte>)
    requires |b| == 2
    ensures SextetString(Sextets(b)) == BitString(b) + Zeros(Fill(|b|))
  {
    hide ByteBits, SextetBits, Sextet, Group, SextetString, BitString;
    var n := Group(b[0], b[1], 0);
    ChunkBits(b[0], b[1], 0);
    ZeroBits();
    FewSextets(Sextet(n, 0), Sextet(n, 1), Sextet(n, 2));
    FewBytes(b);
  }

  lemma ChunkRegroups(b: seq<byte>)
    requires |b| >= 3
    ensures SextetString(Sextets(b)) == ByteBits(b[0]) + ByteBits(b[1]) + ByteBits(b[2]) + SextetString(Sextets(b[3..]))
  {
    hide ByteBits, SextetBits, Sextet, Group, SextetString;
    var n := Group(b[0], b[1], b[2]);
    ChunkBits(b[0], b[1], b[2]);
    FourSextets(Sextet(n, 0), Sextet(n, 1), Sextet(n, 2), Sextet(n, 3), Sextets(b[3..]));
  }

  lemma Associate(a: seq<nat>, b: seq<nat>, c: seq<nat>, d: seq<nat>)
    ensures a + (b + (c + d)) == a + b + c + d
  {
  }

  lemma ThreeBytes(b: seq<byte>)
    requires |b| >= 3
    ensures BitString(b) == ByteBits(b[0]) + ByteBits(b[1]) + ByteBits(b[2]) + BitString(b[3..])
  {
    hide ByteBits;
    var b1, b2, b3 := b[1..], b[2..], b[3..];
    assert b1[1..] == b2 && b2[1..] == b3;
    assert BitString(b2) == ByteBits(b[2]) + BitString(b3);
    assert BitString(b1) == ByteBits(b[1]) + BitString(b2);
    assert BitString(b) == ByteBits(b[0]) + BitString(b1);
    hide BitString;
    Associate(ByteBits(b[0]), ByteBits(b[1]), ByteBits(b[2]), BitString(b3));
  }

  lemma ZeroBits()
    ensures var z := ByteBits(0); [z[0], z[1], z[2], z[3]] == Zeros(4) && [z[0], z[1]] == Zeros(2)
  {
  }

  lemma FewSextets(v0: nat, v1: nat, v2: nat)
    ensures SextetString([v0, v1]) == SextetBits(v0) + SextetBits(v1)
    ensures SextetString([v0, v1, v2]) == SextetBits(v0) + SextetBits(v1) + SextetBits(v2)
  {
    hide SextetBits;
    assert [v0, v1, v2][1..] == [v1, v2] && [v1, v2][1..] == [v2] && [v0, v1][1..] == [v1];
    assert [v1][1..] == [] && [v2][1..] == [];
    assert SextetString([v1]) == SextetBits(v1) && SextetString([v2]) == SextetBits(v2);
    assert SextetString([v1, v2]) == SextetBits(v1) + SextetBits(v2);
    assert SextetString([v0, v1, v2]) == SextetBits(v0) + SextetString([v1, v2]);
  }

  lemma FourSextets(v0: nat, v1: nat, v2: nat, v3: nat, rest: seq<nat>)
    ensures SextetString([v0, v1, v2, v3] + rest)
         == SextetBits(v0) + SextetBits(v1) + SextetBits(v2) + SextetBits(v3) + SextetString(rest)
  {
    hide SextetBits;
    var s0, s1, s2, s3 := [v0, v1, v2, v3] + rest, [v1, v2, v3] + rest, [v2, v3] + rest, [v3] + rest;
    assert s0[1..] == s1 && s1[1..] == s2 && s2[1..] == s3 && s3[1..] == rest;
    assert SextetString(s3) == SextetBits(v3) + SextetString(rest);
    assert SextetString(s2) == SextetBits(v2) + SextetString(s3);
    assert SextetString(s1) == SextetBits(v1) + SextetString(s2);
    assert SextetString(s0) == SextetBits(v0) + SextetString(s1);
    hide SextetString;
  }

  lemma FewBytes(b: seq<byte>)
    ensures |b| == 1 ==> BitString(b) == ByteBits(b[0])
    ensures |b| == 2 ==> BitString(b) == ByteBits(b[0]) + ByteBits(b[1])
  {
    hide ByteBits;
    if |b| == 2 {
      assert b[1..][1..] == [];
      assert BitString(b[1..]) == ByteBits(b[1]);
    }
  }

  // --------------------------------------------------------------- decoding

  /** The strict decoder: no padding, no foreign symbol, no lone last symbol,
      and the bits that fill the last symbol must be zero. */
  function FromSextets(s: seq<nat>): Option<seq<byte>>
    requires forall i :: 0 <= i < |s| ==> s[i] < 64
  {
    if s == [] then Some([])
    else if |s| == 1 then None
    else if |s| == 2 then
      if s[1] % 16 != 0 then None else Some([s[0] * 4 + s[1] / 16])
    else if |s| == 3 then
      if s[2] % 4 != 0 then None else Some([s[0] * 4 + s[1] / 16, s[1] % 16 * 16 + s[2] / 4])
    else
      match FromSextets(s[4..])
      case None => None
      case Some(rest) => Some([s[0] * 4 + s[1] / 16, s[1] % 16 * 16 + s[2] / 4, s[2] % 4 * 64 + s[3]] + rest)
  }

  predicate InAlphabet(s: string) {
    forall i :: 0 <= i < |s| ==> Value(s[i]).Some?
  }

  function Values(s: string): (v: seq<nat>)
    requires InAlphabet(s)
    ensures |v| == |s| && forall i :: 0 <= i < |v| ==> v[i] < 64
  {
    seq(|s|, i requires 0 <= i < |s| => Value(s[i]).value)
  }

  /** `URL_SAFE_NO_PAD.decode`. */
  function Decode(s: string): Option<seq<byte>> {
    if InAlphabet(s) then FromSextets(Values(s)) else None
  }

  /** Three bytes cut into sextets and joined again, and the other way round. */
  lemma Rejoin(b0: byte, b1: byte, b2: byte)
    ensures b0 / 4 * 4 + (b0 % 4 * 16 + b1 / 16) / 16 == b0
    ensures (b0 % 4 * 16 + b1 / 16) % 16 * 16 + (b1 % 16 * 4 + b2 / 64) / 4 == b1
    ensures (b1 % 16 * 4 + b2 / 64) % 4 * 64 + b2 % 64 == b2
  {
  }

  lemma Recut(s0: nat, s1: nat, s2: nat, s3: nat)
    requires s0 < 64 && s1 < 64 && s2 < 64 && s3 < 64
    ensures var b0, b1, b2 := s0 * 4 + s1 / 16, s1 % 16 * 16 + s2 / 4, s2 % 4 * 64 + s3;
            && b0 < 256 && b1 < 256 && b2 < 256
            && b0 / 4 == s0 && b0 % 4 * 16 + b1 / 16 == s1 && b1 % 16 * 4 + b2 / 64 == s2 && b2 % 64 == s3
  {
  }

  lemma {:induction false} SextetsDecode(b: seq<byte>)
    ensures FromSextets(Sextets(b)) == Some(b)
    decreases |b|
  {
    hide Sextet, Group;
    if b != [] {
      var b1, b2: byte := if |b| < 2 then 0 else b[1], if |b| < 3 then 0 else b[2];
      SextetsOfGroup(b[0], b1, b2);
      Rejoin(b[0], b1, b2);
      if |b| == 1 {
        assert b == [b[0]];
      } else if |b| == 2 {
        assert b == [b[0], b[1]];
      } else {
        SextetsDecode(b[3..]);
        assert Sextets(b)[4..] == Sextets(b[3..]);
        assert b == [b[0], b[1], b[2]] + b[3..];
      }
    }
  }

  lemma {:induction false} DecodedEncodes(s: seq<nat>)
    requires forall i :: 0 <= i < |s| ==> s[i] < 64
    requires FromSextets(s).Some?
    ensures Sextets(FromSextets(s).value) == s
    decreases |s|
  {
    hide Sextet, Group;
    if s != [] {
      var b := FromSextets(s).value;
      var s2, s3 := if |s| < 3 then 0 else s[2], if |s| < 4 then 0 else s[3];
      Recut(s[0], s[1], s2, s3);
      SextetsOfGroup(b[0], if |b| < 2 then 0 else b[1], if |b| < 3 then 0 else b[2]);
      if |s| >= 4 {
        DecodedEncodes(s[4..]);
        assert b[3..] == FromSextets(s[4..]).value;
        assert s == [s[0], s[1], s[2], s[3]] + s[4..];
      }
    }
  }

  /** Decoding undoes encoding, on every byte string. */
  lemma DecodeOfEncode(b: seq<byte>)
    ensures Decode(Encode(b)) == Some(b)
  {
    hide Symbol, Value, Sextets, FromSextets;
    var v := Sextets(b);
    forall i | 0 <= i < |v| ensures Value(Encode(b)[i]) == Some(v[i]) {
      ValueOfSymbol(v[i]);
    }
    assert Values(Encode(b)) == v;
    SextetsDecode(b);
  }

  /** A string decodes to `b` exactly when it is the encoding of `b`. */
  lemma DecodesIff(s: string, b: seq<byte>)
    ensures Decode(s) == Some(b) <==> s == Encode(b)
  {
    DecodeOfEncode(b);
    hide Symbol, Value, Sextets, FromSextets;
    if Decode(s) == Some(b) {
      DecodedEncodes(Values(s));
      forall i | 0 <= i < |s| ensures Encode(b)[i] == s[i] {
        SymbolOfValue(s[i]);
      }
    }
  }
}
