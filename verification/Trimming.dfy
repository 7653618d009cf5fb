/** `str::trim`. */
module Trimming {
  /** The Unicode `White_Space` characters, which `str::trim` removes. */
  predicate IsWhitespace(c: char) {
    var n := c as int;
    || 0x9 <= n <= 0xD || n == 0x20 || n == 0x85 || n == 0xA0 || n == 0x1680
    || 0x2000 <= n <= 0x200A || n == 0x2028 || n == 0x2029 || n == 0x202F || n == 0x205F || n == 0x3000
  }

  /** Exactly these 25 scalar values. */
  lemma WhitespaceIff(c: char)
    ensures IsWhitespace(c) <==>
              c as int in {0x9, 0xA, 0xB, 0xC, 0xD, 0x20, 0x85, 0xA0, 0x1680, 0x2000, 0x2001, 0x2002, 0x2003, 0x2004,
                           0x2005, 0x2006, 0x2007, 0x2008, 0x2009, 0x200A, 0x2028, 0x2029, 0x202F, 0x205F, 0x3000}
  {
  }

  function TrimStart(s: string): (t: string)
    ensures t == "" || !IsWhitespace(t[0])
  {
    if s != "" && IsWhitespace(s[0]) then TrimStart(s[1..]) else s
  }

  function TrimEnd(s: string): (t: string)
    ensures t == "" || !IsWhitespace(t[|t| - 1])
    ensures t <= s
  {
    if s != "" && IsWhitespace(s[|s| - 1]) then TrimEnd(s[..|s| - 1]) else s
  }

  function Trim(s: string): string {
    TrimEnd(TrimStart(s))
  }

  lemma TrimIdempotent(s: string)
    ensures Trim(Trim(s)) == Trim(s)
  {
    var t := Trim(s);
    assert t != "" ==> t[0] == TrimStart(s)[0];
  }

  predicate AllWhitespace(s: string) {
    forall i :: 0 <= i < |s| ==> IsWhitespace(s[i])
  }

  lemma {:induction false} TrimStartSplits(s: string) returns (before: string)
    ensures s == before + TrimStart(s) && AllWhitespace(before)
  {
    if s != "" && IsWhitespace(s[0]) {
      var more := TrimStartSplits(s[1..]);
      before := [s[0]] + more;
      assert s == [s[0]] + s[1..];
    } else {
      before := "";
    }
  }

  lemma {:induction false} TrimEndSplits(s: string) returns (after: string)
    ensures s == TrimEnd(s) + after && AllWhitespace(after)
  {
    if s != "" && IsWhitespace(s[|s| - 1]) {
      var more := TrimEndSplits(s[..|s| - 1]);
      after := more + [s[|s| - 1]];
      assert s == s[..|s| - 1] + [s[|s| - 1]];
    } else {
      after := "";
    }
  }

  /** Trimming removes whitespace from both ends, nothing else, and all of it. */
  lemma TrimSplits(s: string) returns (before: string, after: string)
    ensures s == before + Trim(s) + after && AllWhitespace(before) && AllWhitespace(after)
    ensures Trim(s) != "" ==> !IsWhitespace(Trim(s)[0]) && !IsWhitespace(Trim(s)[|Trim(s)| - 1])
  {
    before := TrimStartSplits(s);
    after := TrimEndSplits(TrimStart(s));
    assert Trim(s) != "" ==> Trim(s)[0] == TrimStart(s)[0];
  }
}
