/** What reaches a SHA-256 digest: the hasher as the byte stream fed to it, and
    the two ways the repository delimits the pieces of that stream.

    The digest itself is a parameter wherever a hash value matters, so nothing
    is assumed about it unless a lemma says so.
 */
module Hashing {
  import opened Wrappers
  import opened Utf8
  import opened Text

  /** The state of a `Sha256` hasher before `finalize`: the bytes fed so far. */
  class Sha256 {
    var fed: seq<byte>

    constructor ()
      ensures fed == []
    {
      fed := [];
    }

    method Update(b: seq<byte>)
      modifies this
      ensures fed == old(fed) + b
    {
      fed := fed + b;
    }
  }

  /** A digest under which different streams never meet. */
  ghost predicate CollisionFree(digest: seq<byte> -> seq<byte>) {
    forall s, t :: digest(s) == digest(t) ==> s == t
  }

  lemma {:induction false} HexInjective(a: seq<byte>, b: seq<byte>)
    requires Hex(a) == Hex(b)
    ensures a == b
  {
    UnHexOfHex(a);
    UnHexOfHex(b);
  }

  // -------------------------------------------- little-endian length prefixes

  const TWO64: nat := 0x1_0000_0000_0000_0000

  function Pow256(k: nat): nat {
    if k == 0 then 1 else 0x100 * Pow256(k - 1)
  }

  /** The `k` low bytes of `n`, least significant first. */
  function LittleEndian(n: nat, k: nat): (b: seq<byte>)
    ensures |b| == k
    decreases k, n
  {
    if k == 0 then [] else [n % 0x100] + LittleEndian(n / 0x100, k - 1)
  }

  function FromLittleEndian(b: seq<byte>): nat {
    if b == [] then 0 else b[0] + 0x100 * FromLittleEndian(b[1..])
  }

  lemma {:induction false} LittleEndianRoundTrip(n: nat, k: nat)
    requires n < Pow256(k)
    ensures FromLittleEndian(LittleEndian(n, k)) == n
  {
    if k > 0 {
      LittleEndianRoundTrip(n / 0x100, k - 1);
      assert LittleEndian(n, k)[1..] == LittleEndian(n / 0x100, k - 1);
    }
  }

  /** Byte `i` is digit `i` of the number in base 256. */
  lemma {:induction false} LittleEndianAt(n: nat, k: nat, i: nat)
    requires i < k
    ensures Pow256(i) > 0 && LittleEndian(n, k)[i] == n / Pow256(i) % 0x100
    decreases i
  {
    if i > 0 {
      LittleEndianAt(n / 0x100, k - 1, i - 1);
      DivDiv(n, Pow256(i - 1));
    }
  }

  lemma DivDiv(n: nat, p: nat)
    requires p > 0
    ensures n / 0x100 / p == n / (0x100 * p)
  {
    var m := n / 0x100;
    var q := m / p;
    QuotientIff(m, p, q);
    assert 0x100 * (p * q) <= 0x100 * m <= n < 0x100 * (m + 1) <= 0x100 * (p * q + p);
    assert 0x100 * (p * q) == 0x100 * p * q;
    QuotientIff(n, 0x100 * p, q);
  }

  lemma QuotientIff(n: nat, d: nat, q: nat)
    requires d > 0
    ensures n / d == q <==> d * q <= n < d * q + d
  {
    var r := n - d * q;
    var k, t := n / d, n % d;
    assert n == d * k + t;
    assert d * (k - q) == d * k - d * q == r - t;
    if 0 <= r < d {
      if k > q { Grows(d, k - q); }
      if k < q { Grows(d, q - k); }
    }
  }

  lemma Grows(d: nat, k: nat)
    requires k > 0
    ensures d * k >= d
  {
  }

  lemma EightBytes()
    ensures Pow256(8) == TWO64
  {
    assert Pow256(4) == 0x1_0000_0000;
  }

  /** `(n as u64).to_le_bytes()`. */
  function U64Bytes(n: nat): (b: seq<byte>)
    ensures |b| == 8
  {
    LittleEndian(n % TWO64, 8)
  }

  lemma U64BytesRoundTrip(n: nat)
    requires n < TWO64
    ensures FromLittleEndian(U64Bytes(n)) == n
  {
    hide LittleEndian, FromLittleEndian, Pow256;
    EightBytes();
    LittleEndianRoundTrip(n, 8);
  }

  lemma U64BytesInjective(m: nat, n: nat)
    requires m < TWO64 && n < TWO64 && U64Bytes(m) == U64Bytes(n)
    ensures m == n
  {
    U64BytesRoundTrip(m);
    U64BytesRoundTrip(n);
  }

  /** One piece behind its length. */
  function Frame(piece: seq<byte>): seq<byte> {
    U64Bytes(|piece|) + piece
  }

  function Join(pieces: seq<seq<byte>>): seq<byte> {
    if pieces == [] then [] else Frame(pieces[0]) + Join(pieces[1..])
  }

  lemma {:induction false} JoinConcat(a: seq<seq<byte>>, b: seq<seq<byte>>)
    ensures Join(a + b) == Join(a) + Join(b)
  {
    hide Frame;
    if a == [] {
      assert a + b == b;
    } else {
      assert (a + b)[1..] == a[1..] + b;
      JoinConcat(a[1..], b);
    }
  }

  lemma JoinOne(a: seq<seq<byte>>, piece: seq<byte>)
    ensures Join(a + [piece]) == Join(a) + Frame(piece)
  {
    hide Frame;
    JoinConcat(a, [piece]);
    assert Join([piece]) == Frame(piece);
  }

  /** Cuts a stream back into its pieces. */
  function Split(stream: seq<byte>): Option<seq<seq<byte>>> {
    if stream == [] then Some([])
    else if |stream| < 8 then None
    else
      var n := FromLittleEndian(stream[..8]);
      if 8 + n > |stream| then None
      else
        match Split(stream[8 + n..])
        case None => None
        case Some(rest) => Some([stream[8..8 + n]] + rest)
  }

  ghost predicate Addressable(pieces: seq<seq<byte>>) {
    forall i :: 0 <= i < |pieces| ==> |pieces[i]| < TWO64
  }

  /** The framing loses nothing: a stream decodes to the pieces it was made from. */
  lemma {:induction false} SplitJoin(pieces: seq<seq<byte>>)
    requires Addressable(pieces)
    ensures Split(Join(pieces)) == Some(pieces)
  {
    if pieces != [] {
      var stream := Join(pieces);
      var n := |pieces[0]|;
      U64BytesRoundTrip(n);
      assert stream[..8] == U64Bytes(n);
      assert stream[8..8 + n] == pieces[0];
      assert stream[8 + n..] == Join(pieces[1..]);
      SplitJoin(pieces[1..]);
      assert pieces == [pieces[0]] + pieces[1..];
    }
  }

  lemma JoinInjective(a: seq<seq<byte>>, b: seq<seq<byte>>)
    requires Addressable(a) && Addressable(b) && Join(a) == Join(b)
    ensures a == b
  {
    SplitJoin(a);
    SplitJoin(b);
  }
}
