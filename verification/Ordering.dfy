/** `sort` and `dedup` on vectors of strings, and why what they leave is
    canonical: a sorted vector is determined by its multiset of elements, a
    sorted vector without repetitions by its set of elements.
 */
module Ordering {
  import opened Utf8

  /** Byte-wise lexicographic order, the `Ord` of `[u8]` and therefore of `String`. */
  predicate LexLess(a: seq<byte>, b: seq<byte>) {
    b != [] && (a == [] || a[0] < b[0] || (a[0] == b[0] && LexLess(a[1..], b[1..])))
  }

  /** `a` is below `b` exactly when it is a proper prefix of it or has the
      smaller byte at the first place where they differ. */
  lemma {:induction false} LexLessIff(a: seq<byte>, b: seq<byte>)
    ensures LexLess(a, b) <==>
              a < b || exists k :: 0 <= k < |a| && k < |b| && a[..k] == b[..k] && a[k] < b[k]
    decreases a
  {
    if a != [] && b != [] && a[0] == b[0] {
      LexLessIff(a[1..], b[1..]);
      assert a == [a[0]] + a[1..] && b == [b[0]] + b[1..];
      assert a < b <==> a[1..] < b[1..];
      forall k | 0 <= k < |a[1..]| && k < |b[1..]| && a[1..][..k] == b[1..][..k] && a[1..][k] < b[1..][k]
        ensures exists j :: 0 <= j < |a| && j < |b| && a[..j] == b[..j] && a[j] < b[j]
      {
        assert a[..k + 1] == [a[0]] + a[1..][..k] && b[..k + 1] == [b[0]] + b[1..][..k];
      }
      forall j | 0 <= j < |a| && j < |b| && a[..j] == b[..j] && a[j] < b[j]
        ensures exists k :: 0 <= k < |a[1..]| && k < |b[1..]| && a[1..][..k] == b[1..][..k] && a[1..][k] < b[1..][k]
      {
        assert a[1..][..j - 1] == a[..j][1..] && b[1..][..j - 1] == b[..j][1..];
      }
    } else if a != [] && b != [] {
      forall j | 0 < j < |a| && j < |b| ensures a[..j] != b[..j] {
        assert a[..j][0] == a[0] && b[..j][0] == b[0];
      }
      if a[0] < b[0] {
        assert a[..0] == b[..0];
      }
    }
  }

  lemma {:induction false} LexAsymmetric(a: seq<byte>, b: seq<byte>)
    ensures !(LexLess(a, b) && LexLess(b, a))
  {
    if a != [] && b != [] {
      LexAsymmetric(a[1..], b[1..]);
    }
  }

  lemma {:induction false} LexTransitive(a: seq<byte>, b: seq<byte>, c: seq<byte>)
    requires LexLess(a, b) && LexLess(b, c)
    ensures LexLess(a, c)
  {
    if a != [] && a[0] == b[0] == c[0] {
      LexTransitive(a[1..], b[1..], c[1..]);
    }
  }

  lemma {:induction false} LexTotal(a: seq<byte>, b: seq<byte>)
    ensures LexLess(a, b) || a == b || LexLess(b, a)
  {
    if a != [] && b != [] && a[0] == b[0] {
      LexTotal(a[1..], b[1..]);
      assert a == [a[0]] + a[1..] && b == [b[0]] + b[1..];
    }
  }

  predicate Less(s: string, t: string) {
    LexLess(Bytes(s), Bytes(t))
  }

  lemma Asymmetric(s: string, t: string)
    ensures !(Less(s, t) && Less(t, s))
  {
    LexAsymmetric(Bytes(s), Bytes(t));
  }

  lemma Transitive(s: string, t: string, u: string)
    requires Less(s, t) && Less(t, u)
    ensures Less(s, u)
  {
    LexTransitive(Bytes(s), Bytes(t), Bytes(u));
  }

  lemma Total(s: string, t: string)
    ensures Less(s, t) || s == t || Less(t, s)
  {
    LexTotal(Bytes(s), Bytes(t));
    if Bytes(s) == Bytes(t) {
      BytesInjective(s, t);
    }
  }

  /** `t` is not below `s`, and whatever is above `t` is above `s` too. */
  lemma NotBelowTransitive(s: string, t: string, u: string)
    requires !Less(t, s) && !Less(u, t)
    ensures !Less(u, s)
  {
    Total(s, t);
    Total(t, u);
    if Less(u, s) {
      if s != t { Transitive(u, s, t); }
    }
  }

  predicate Sorted(v: seq<string>) {
    forall i, j :: 0 <= i < j < |v| ==> !Less(v[j], v[i])
  }

  predicate StrictlySorted(v: seq<string>) {
    forall i, j :: 0 <= i < j < |v| ==> Less(v[i], v[j])
  }

  function Elems<T>(v: seq<T>): set<T> {
    set x | x in v
  }

  lemma ElemsEmpty<T>(v: seq<T>)
    ensures Elems(v) == {} <==> v == []
  {
    if v != [] { assert v[0] in Elems(v); }
  }

  // ------------------------------------------------------------------- sort

  function Insert(x: string, v: seq<string>): (r: seq<string>)
    ensures |r| == |v| + 1
  {
    if v == [] || !Less(v[0], x) then [x] + v else [v[0]] + Insert(x, v[1..])
  }

  function Sort(v: seq<string>): (r: seq<string>)
    ensures |r| == |v|
  {
    if v == [] then [] else Insert(v[0], Sort(v[1..]))
  }

  lemma {:induction false} InsertKeeps(x: string, v: seq<string>)
    ensures multiset(Insert(x, v)) == multiset(v) + multiset{x}
  {
    if v == [] || !Less(v[0], x) {
    } else {
      InsertKeeps(x, v[1..]);
      assert v == [v[0]] + v[1..];
    }
  }

  lemma {:induction false} InsertSorts(x: string, v: seq<string>)
    requires Sorted(v)
    ensures Sorted(Insert(x, v))
  {
    if v == [] {
    } else if !Less(v[0], x) {
      forall j | 0 <= j < |v| ensures !Less(v[j], x) {
        if j > 0 { NotBelowTransitive(x, v[0], v[j]); }
      }
    } else {
      var r := Insert(x, v[1..]);
      InsertSorts(x, v[1..]);
      InsertKeeps(x, v[1..]);
      Asymmetric(v[0], x);
      forall j | 0 <= j < |r| ensures !Less(r[j], v[0]) {
        assert r[j] in multiset(r);
        assert r[j] == x || r[j] in v[1..];
      }
    }
  }

  lemma {:induction false} SortSorts(v: seq<string>)
    ensures Sorted(Sort(v)) && multiset(Sort(v)) == multiset(v)
  {
    if v != [] {
      SortSorts(v[1..]);
      InsertSorts(v[0], Sort(v[1..]));
      InsertKeeps(v[0], Sort(v[1..]));
      assert v == [v[0]] + v[1..];
    }
  }

  /** A sorted vector is determined by what it holds, counted. */
  lemma {:induction false} SortedUnique(v: seq<string>, w: seq<string>)
    requires Sorted(v) && Sorted(w) && multiset(v) == multiset(w)
    ensures v == w
  {
    if v == [] {
      assert |w| == |multiset(w)|;
    } else {
      assert v[0] in multiset(v) && v[0] in w;
      assert w[0] in multiset(w) && w[0] in v;
      Total(v[0], w[0]);
      assert v[0] == w[0];
      assert v == [v[0]] + v[1..] && w == [w[0]] + w[1..];
      assert multiset(v[1..]) == multiset(v) - multiset{v[0]};
      assert multiset(w[1..]) == multiset(w) - multiset{w[0]};
      SortedUnique(v[1..], w[1..]);
    }
  }

  // ------------------------------------------------------------------ dedup

  /** `Vec::dedup`: removes consecutive repetitions. */
  function Dedup(v: seq<string>): (r: seq<string>)
    ensures |r| <= |v|
  {
    if |v| <= 1 then v
    else if v[0] == v[1] then Dedup(v[1..])
    else [v[0]] + Dedup(v[1..])
  }

  lemma {:induction false} DedupOfSorted(v: seq<string>)
    requires Sorted(v)
    ensures StrictlySorted(Dedup(v)) && Elems(Dedup(v)) == Elems(v)
  {
    if |v| > 1 {
      var r := Dedup(v[1..]);
      DedupOfSorted(v[1..]);
      assert Elems(v) == {v[0]} + Elems(v[1..]);
      if v[0] == v[1] {
        assert v[0] in v[1..];
      } else {
        forall j | 0 <= j < |r| ensures Less(v[0], r[j]) {
          assert r[j] in Elems(r) && r[j] in v[1..];
          var k :| 1 <= k < |v| && v[k] == r[j];
          Total(v[0], v[1]);
          Total(v[0], v[k]);
          Total(v[1], v[k]);
          if v[0] == v[k] { Asymmetric(v[0], v[1]); }
        }
        assert Elems([v[0]] + r) == {v[0]} + Elems(r);
      }
    }
  }

  /** A strictly sorted vector is determined by the set of what it holds. */
  lemma {:induction false} StrictUnique(v: seq<string>, w: seq<string>)
    requires StrictlySorted(v) && StrictlySorted(w) && Elems(v) == Elems(w)
    ensures v == w
  {
    if v == [] {
      ElemsEmpty(v);
      ElemsEmpty(w);
    } else {
      assert v[0] in Elems(v) && v[0] in w;
      assert w[0] in Elems(w) && w[0] in v;
      Asymmetric(v[0], w[0]);
      assert v[0] == w[0];
      TailElems(v);
      TailElems(w);
      StrictUnique(v[1..], w[1..]);
    }
  }

  lemma TailElems(v: seq<string>)
    requires StrictlySorted(v) && v != []
    ensures Elems(v[1..]) == Elems(v) - {v[0]}
  {
    forall x ensures x in v[1..] <==> x in v && x != v[0] {
      if x in v[1..] {
        var k :| 1 <= k < |v| && v[k] == x;
        Asymmetric(v[0], x);
      }
    }
  }

  /** `sort` followed by `dedup`: the canonical vector of a set. */
  function Canonical(v: seq<string>): (r: seq<string>)
    ensures |r| <= |v|
  {
    Dedup(Sort(v))
  }

  lemma CanonicalElems(v: seq<string>)
    ensures StrictlySorted(Canonical(v)) && Elems(Canonical(v)) == Elems(v)
  {
    SortSorts(v);
    DedupOfSorted(Sort(v));
    forall x ensures x in Sort(v) <==> x in v {
      assert x in Sort(v) <==> x in multiset(Sort(v));
      assert x in v <==> x in multiset(v);
    }
  }

  /** Two vectors canonicalise alike exactly when they hold the same set. */
  lemma CanonicalIffSameSet(v: seq<string>, w: seq<string>)
    ensures Canonical(v) == Canonical(w) <==> Elems(v) == Elems(w)
  {
    CanonicalElems(v);
    CanonicalElems(w);
    if Elems(v) == Elems(w) {
      StrictUnique(Canonical(v), Canonical(w));
    }
  }

  /** Two vectors sort alike exactly when they hold the same multiset. */
  lemma SortIffSameMultiset(v: seq<string>, w: seq<string>)
    ensures Sort(v) == Sort(w) <==> multiset(v) == multiset(w)
  {
    SortSorts(v);
    SortSorts(w);
    if multiset(v) == multiset(w) {
      SortedUnique(Sort(v), Sort(w));
    }
  }
}
