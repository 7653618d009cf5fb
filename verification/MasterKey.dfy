/** The text forms of the 32-byte master key. */
module MasterKey {
  import opened Wrappers
  import opened Utf8
  import opened Text
  import Base64Url

  const KEY_LEN: nat := 32

  datatype ParseError = BadBase64 | WrongLength(bytes: nat)

  predicate IsHexForm(s: string) {
    |s| == KEY_LEN * 2 && forall i :: 0 <= i < |s| ==> IsHexDigit(s[i])
  }

  /** `MasterKey::parse`: hexadecimal is tried first, then base64url. */
  function Parse(s: string): Result<seq<byte>, ParseError> {
    if IsHexForm(s) then Ok(UnHex(s).value)
    else
      match Base64Url.Decode(s)
      case None => Err(BadBase64)
      case Some(b) => if |b| == KEY_LEN then Ok(b) else Err(WrongLength(|b|))
  }

  /** The parse as it runs: `s.len()` counts bytes, and a fixed array is filled. */
  method ParseInto(s: string) returns (key: Result<array<byte>, ParseError>)
    ensures key.Ok? ==> fresh(key.value) && Parse(s) == Ok(key.value[..])
    ensures key.Err? ==> Parse(s) == Err(key.error)
  {
    HexFormIsAscii(s);
    if |Bytes(s)| == KEY_LEN * 2 && forall i :: 0 <= i < |s| ==> IsHexDigit(s[i]) {
      var bytes := new byte[KEY_LEN](_ => 0);
      for k := 0 to KEY_LEN
        invariant bytes[..k] == UnHex(s).value[..k]
      {
        UnHexAt(s, k);
        bytes[k] := HexValue(s[2 * k]).value * 16 + HexValue(s[2 * k + 1]).value;
      }
      assert bytes[..] == bytes[..KEY_LEN] == UnHex(s).value[..KEY_LEN] == UnHex(s).value;
      return Ok(bytes);
    }
    var decoded := Base64Url.Decode(s);
    match decoded
    case None => return Err(BadBase64);
    case Some(b) =>
      if |b| != KEY_LEN {
        return Err(WrongLength(|b|));
      }
      var bytes := new byte[KEY_LEN](i requires 0 <= i < KEY_LEN => b[i]);
      assert bytes[..] == b;
      return Ok(bytes);
  }

  /** Hexadecimal text is ASCII, so its bytes and its characters are as many. */
  lemma HexFormIsAscii(s: string)
    ensures IsHexForm(s) <==> |Bytes(s)| == KEY_LEN * 2 && forall i :: 0 <= i < |s| ==> IsHexDigit(s[i])
  {
    if forall i :: 0 <= i < |s| ==> IsHexDigit(s[i]) {
      AsciiBytes(s);
    }
  }

  lemma {:induction false} UnHexAt(s: string, k: nat)
    requires UnHex(s).Some? && k < |UnHex(s).value|
    ensures HexValue(s[2 * k]).Some? && HexValue(s[2 * k + 1]).Some?
    ensures UnHex(s).value[k] == HexValue(s[2 * k]).value * 16 + HexValue(s[2 * k + 1]).value
  {
    if k > 0 {
      UnHexAt(s[2..], k - 1);
      assert s[2..][2 * (k - 1)] == s[2 * k] && s[2..][2 * (k - 1) + 1] == s[2 * k + 1];
    }
  }

  /** What is accepted, and as what: the 64 hexadecimal digits of a key in
      either case, or the one unpadded base64url form of it; nothing else. */
  lemma ParsesIff(s: string, key: seq<byte>)
    ensures Parse(s) == Ok(key) <==>
              |key| == KEY_LEN && ((|s| == 64 && UnHex(s) == Some(key)) || s == Base64Url.Encode(key))
  {
    Base64Url.DecodesIff(s, key);
    hide Base64Url.Encode, Base64Url.Decode;
  }

  /** Which error a refused text gets: one that reads as base64url is refused for
      the number of its bytes, every other text as unreadable. */
  lemma RefusalsSay(s: string)
    requires Parse(s).Err?
    ensures Parse(s) == Err(BadBase64) <==> forall b :: s != Base64Url.Encode(b)
    ensures forall b :: s == Base64Url.Encode(b) ==> |b| != 32 && Parse(s) == Err(WrongLength(|b|))
  {
    hide Base64Url.Encode, Base64Url.Decode, UnHex, IsHexForm;
    forall b ensures Base64Url.Decode(s) == Some(b) <==> s == Base64Url.Encode(b) {
      Base64Url.DecodesIff(s, b);
    }
    if Base64Url.Decode(s).Some? {
      assert s == Base64Url.Encode(Base64Url.Decode(s).value);
    }
  }

  /** A key survives either of its text forms. */
  lemma ParseOfForms(key: seq<byte>)
    requires |key| == KEY_LEN
    ensures Parse(Hex(key)) == Ok(key) && Parse(Base64Url.Encode(key)) == Ok(key)
  {
    UnHexOfHex(key);
    ParsesIff(Hex(key), key);
    ParsesIff(Base64Url.Encode(key), key);
  }

  /** No text is a form of two keys: hexadecimal takes 64 characters, base64url
      43, and neither reads as another key. */
  lemma FormsNeverOverlap(a: seq<byte>, b: seq<byte>)
    requires |a| == |b| == KEY_LEN
    ensures Hex(a) != Base64Url.Encode(b) && |Hex(a)| == 64 && |Base64Url.Encode(b)| == 43
    ensures a != b ==> Hex(a) != Hex(b) && Base64Url.Encode(a) != Base64Url.Encode(b)
  {
    UnHexOfHex(a);
    UnHexOfHex(b);
    Base64Url.DecodeOfEncode(a);
    Base64Url.DecodeOfEncode(b);
    hide Hex, UnHex, Base64Url.Encode, Base64Url.Decode;
  }
}
