/** The paths the command line builds for a worker's provider credentials, and
    the capability the API asks for when it sees them.
 */
module CredentialRoutes {
  import opened Wrappers
  import opened Utf8
  import opened Text

  // ------------------------------------------------------- percent-encoding

  predicate IsAlnum(n: int) {
    0x30 <= n <= 0x39 || 0x41 <= n <= 0x5A || 0x61 <= n <= 0x7A
  }

  /** The unreserved characters of section 2.3 of RFC 3986. */
  predicate Unreserved(b: byte) {
    IsAlnum(b) || b == 0x2D || b == 0x5F || b == 0x2E || b == 0x7E
  }

  predicate Plain(c: char) {
    IsAlnum(c as int) || c == '-' || c == '_' || c == '.'
  }

  function UpperHex(d: nat): char
    requires d < 16
  {
    if d < 10 then '0' + d as char else 'A' + (d - 10) as char
  }

  function EncodeByte(b: byte): string {
    if Unreserved(b) then [b as char] else ['%', UpperHex(b / 16), UpperHex(b % 16)]
  }

  function EncodeBytes(b: seq<byte>): string {
    if b == [] then "" else EncodeByte(b[0]) + EncodeBytes(b[1..])
  }

  /** `encode_or_self`. */
  function Encode(s: string): string {
    if forall i :: 0 <= i < |s| ==> Plain(s[i]) then s else EncodeBytes(Bytes(s))
  }

  /** `percent_encode`. */
  method PercentEncode(s: string) returns (out: string)
    ensures out == EncodeBytes(Bytes(s))
  {
    out := "";
    var bytes := Bytes(s);
    for i := 0 to |bytes|
      invariant out + EncodeBytes(bytes[i..]) == EncodeBytes(bytes)
    {
      var b := bytes[i];
      NextByte(out, bytes, i);
      if Unreserved(b) {
        out := out + [b as char];
      } else {
        out := out + ['%', UpperHex(b / 16), UpperHex(b % 16)];
      }
    }
  }

  lemma NextByte(seen: string, bytes: seq<byte>, i: nat)
    requires i < |bytes|
    ensures seen + EncodeBytes(bytes[i..]) == seen + EncodeByte(bytes[i]) + EncodeBytes(bytes[i + 1..])
  {
    assert bytes[i..][1..] == bytes[i + 1..];
    assert EncodeBytes(bytes[i..]) == EncodeByte(bytes[i]) + EncodeBytes(bytes[i + 1..]);
    hide *;
  }

  /** An unreserved byte stands for itself, every other one is a `%` and its two
      upper-case digits. */
  lemma EncodedByte(b: byte)
    ensures EncodeByte(b)
         == if || 'A' <= b as char <= 'Z' || 'a' <= b as char <= 'z' || '0' <= b as char <= '9'
               || b as char in {'-', '_', '.', '~'}
            then [b as char] else ['%', "0123456789ABCDEF"[b / 16], "0123456789ABCDEF"[b % 16]]
  {
    UpperHexDigit(b / 16);
    UpperHexDigit(b % 16);
    hide UpperHex;
  }

  lemma UpperHexDigit(d: nat)
    requires d < 16
    ensures UpperHex(d) == "0123456789ABCDEF"[d]
  {
  }

  lemma {:induction false} PlainBytes(s: string)
    requires forall i :: 0 <= i < |s| ==> Plain(s[i])
    ensures EncodeBytes(Bytes(s)) == s
  {
    if s != "" {
      PlainBytes(s[1..]);
      assert Bytes(s) == [s[0] as int] + Bytes(s[1..]);
      assert Bytes(s)[1..] == Bytes(s[1..]);
      assert EncodeByte(Bytes(s)[0]) == [s[0]];
      assert s == [s[0]] + s[1..];
    }
  }

  /** The short way for plain names gives what the long way would. */
  lemma ShortWayIsTheLongWay(s: string)
    ensures Encode(s) == EncodeBytes(Bytes(s))
  {
    if forall i :: 0 <= i < |s| ==> Plain(s[i]) {
      PlainBytes(s);
    }
  }

  /** Section 2.1 of RFC 3986: every `%` with two hexadecimal digits is a byte. */
  function DecodeBytes(s: string): Option<seq<byte>> {
    if s == "" then Some([])
    else if s[0] == '%' then
      if |s| < 3 then None
      else match (HexValue(s[1]), HexValue(s[2]), DecodeBytes(s[3..]))
        case (Some(hi), Some(lo), Some(rest)) =>
          HexValueBound(s[1]);
          HexValueBound(s[2]);
          var b: byte := hi * 16 + lo;
          Some([b] + rest)
        case _ => None
    else
      match DecodeBytes(s[1..])
      case None => None
      case Some(rest) => Some(EncodeChar(s[0]) + rest)
  }

  function Unescape(s: string): Option<string> {
    match DecodeBytes(s)
    case None => None
    case Some(b) => Utf8.Decode(b)
  }

  lemma HexValueOfUpper(d: nat)
    requires d < 16
    ensures HexValue(UpperHex(d)) == Some(d)
  {
  }

  lemma DecodeFirstByte(b: byte, rest: string)
    ensures DecodeBytes(EncodeByte(b) + rest)
         == match DecodeBytes(rest) case None => None case Some(r) => Some([b] + r)
  {
    var s := EncodeByte(b) + rest;
    if Unreserved(b) {
      assert s[1..] == rest;
    } else {
      HexValueOfUpper(b / 16);
      HexValueOfUpper(b % 16);
      assert s[3..] == rest;
    }
  }

  lemma {:induction false} DecodeOfEncodedBytes(b: seq<byte>)
    ensures DecodeBytes(EncodeBytes(b)) == Some(b)
  {
    if b != [] {
      DecodeOfEncodedBytes(b[1..]);
      DecodeFirstByte(b[0], EncodeBytes(b[1..]));
      assert b == [b[0]] + b[1..];
    }
  }

  lemma {:induction false} DecodeOfPlain(s: string)
    requires forall i :: 0 <= i < |s| ==> Plain(s[i])
    ensures DecodeBytes(s) == Some(Bytes(s))
  {
    if s != "" {
      DecodeOfPlain(s[1..]);
    }
  }

  /** Percent-decoding undoes the encoding, on every string. */
  lemma DecodingUndoesEncoding(s: string)
    ensures Unescape(Encode(s)) == Some(s)
  {
    Utf8.DecodeBytes(s);
    if forall i :: 0 <= i < |s| ==> Plain(s[i]) {
      DecodeOfPlain(s);
    } else {
      DecodeOfEncodedBytes(Bytes(s));
    }
  }

  predicate NoSlash(s: string) {
    '/' !in s
  }

  lemma {:induction false} EncodedBytesHaveNoSlash(b: seq<byte>)
    ensures NoSlash(EncodeBytes(b))
  {
    if b != [] {
      EncodedBytesHaveNoSlash(b[1..]);
    }
  }

  /** One name is one path segment: the encoding never holds a `/`, and is empty
      only for the empty name. */
  lemma EncodingIsOneSegment(s: string)
    ensures NoSlash(Encode(s))
    ensures Encode(s) == "" <==> s == ""
  {
    if !forall i :: 0 <= i < |s| ==> Plain(s[i]) {
      EncodedBytesHaveNoSlash(Bytes(s));
    }
    EncodesToPlain(s, "");
  }

  /** It is a given plain word only for that very word. */
  lemma EncodesToPlain(s: string, w: string)
    requires forall i :: 0 <= i < |w| ==> Plain(w[i])
    ensures Encode(s) == w <==> s == w
  {
    assert Encode(w) == w;
    DecodingUndoesEncoding(s);
    DecodingUndoesEncoding(w);
    hide *;
  }

  // ----------------------------------------------------------- string tools

  function StripPrefix(s: string, p: string): Option<string> {
    if StartsWith(s, p) then Some(s[|p|..]) else None
  }

  function SplitOnce(s: string, c: char): Option<(string, string)> {
    if s == "" then None
    else if s[0] == c then Some(("", s[1..]))
    else match SplitOnce(s[1..], c)
      case None => None
      case Some(parts) => Some(([s[0]] + parts.0, parts.1))
  }

  function TrimEnd(s: string, c: char): string {
    if s != "" && s[|s| - 1] == c then TrimEnd(s[..|s| - 1], c) else s
  }

  // ---------------------------------------------------------------- routing

  const V1 := "/v1"
  const WORKERS := "/workers/"
  const CREDENTIALS := "credentials"
  const CREDENTIAL := "credential"
  const EXPORT := "export"

  datatype Method = GET | POST | PUT | DELETE | Other

  datatype Permission =
    | WorkerList | WorkerRegister | WorkerCredentialManage | WorkerDelete
    | WorkerLlmCredentialExport | WorkerLlmCredentialRead | WorkerLlmCredentialManage
    | TokenIssue | TokenList | TokenRevoke | AdminTokenList | AdminTokenManage | HostProvision

  /** `normalized_v1_path`. */
  function NormalizedV1Path(path: string): string {
    match StripPrefix(path, V1)
    case Some(rest) => if StartsWith(rest, "/") then rest else path
    case None => path
  }

  /** The mount point is taken off where a path goes on with a slash behind it, and nowhere else. */
  lemma NormalizedIs(path: string, rest: string)
    ensures NormalizedV1Path("/v1" + "/" + rest) == "/" + rest
    ensures (forall r :: path != "/v1" + "/" + r) ==> NormalizedV1Path(path) == path
  {
    var mounted := "/v1" + "/" + rest;
    assert mounted[..3] == "/v1" && mounted[3..] == "/" + rest && mounted[3..][..1] == "/";
    if StartsWith(path, V1) && StartsWith(path[3..], "/") {
      assert path == "/v1" + "/" + path[4..];
    }
  }

  datatype LlmCredentialRoute = Collection | Item | Export

  /** What follows `credentials` in the path, trailing slashes gone. */
  function RouteOfItem(item: string): LlmCredentialRoute {
    if item == "" then Collection
    else if StartsWith(item, "/") && EndsWith(item, "/" + EXPORT) then Export
    else Item
  }

  /** `llm_credential_route`. */
  function Route(path: string): Option<LlmCredentialRoute> {
    match StripPrefix(path, WORKERS)
    case None => None
    case Some(rest) =>
      match SplitOnce(rest, '/')
      case None => None
      case Some(parts) =>
        if parts.0 == "" then None
        else match StripPrefix(parts.1, CREDENTIALS)
          case None => None
          case Some(tail) => Some(RouteOfItem(TrimEnd(tail, '/')))
  }

  predicate IsWorkerByIdRoute(path: string) {
    match StripPrefix(path, WORKERS)
    case None => false
    case Some(rest) => rest != "" && '/' !in rest
  }

  /** `required_capability`; the order of the arms decides. */
  function RequiredCapability(verb: Method, path: string): Option<Permission> {
    if verb == GET && path == "/workers" then Some(WorkerList)
    else if verb == POST && (path == "/workers/register" || path == "/workers/heartbeat") then Some(WorkerRegister)
    else if verb == POST && EndsWith(path, "/credential/rotate") then Some(WorkerCredentialManage)
    else if verb == DELETE && StartsWith(path, WORKERS) && EndsWith(path, "/" + CREDENTIAL) then
      Some(WorkerCredentialManage)
    else if verb == GET && Route(path) == Some(Export) then Some(WorkerLlmCredentialExport)
    else if verb == GET && Route(path).Some? then Some(WorkerLlmCredentialRead)
    else if (verb == PUT || verb == DELETE) && Route(path).Some? then Some(WorkerLlmCredentialManage)
    else if verb == GET && IsWorkerByIdRoute(path) then Some(WorkerList)
    else if verb == DELETE && StartsWith(path, WORKERS) then Some(WorkerDelete)
    else if verb == POST && path == "/bootstrap-tokens" then Some(TokenIssue)
    else if verb == GET && path == "/bootstrap-tokens" then Some(TokenList)
    else if verb == DELETE && StartsWith(path, "/bootstrap-tokens/") then Some(TokenRevoke)
    else if verb == GET && path == "/admin/tokens" then Some(AdminTokenList)
    else if verb == POST && path == "/admin/tokens" then Some(AdminTokenManage)
    else if verb == POST && StartsWith(path, "/admin/tokens/") && EndsWith(path, "/rotate") then Some(AdminTokenManage)
    else if verb == DELETE && StartsWith(path, "/admin/tokens/") then Some(AdminTokenManage)
    else if verb == POST && path == "/hosts/register" then Some(HostProvision)
    else None
  }

  // ------------------------------------------------- the matrix by permission

  lemma {:induction false} SplitOnceIff(s: string, c: char)
    ensures SplitOnce(s, c).None? <==> c !in s
    ensures SplitOnce(s, c).Some? ==>
              var parts := SplitOnce(s, c).value; c !in parts.0 && s == parts.0 + [c] + parts.1
  {
    if s != "" {
      SplitOnceIff(s[1..], c);
      assert s == [s[0]] + s[1..];
    }
  }

  predicate AllSlashes(s: string) {
    forall i :: 0 <= i < |s| ==> s[i] == '/'
  }

  lemma {:induction false} TrimEndSplits(s: string) returns (slashes: string)
    ensures s == TrimEnd(s, '/') + slashes && AllSlashes(slashes)
    ensures TrimEnd(s, '/') == "" || TrimEnd(s, '/')[|TrimEnd(s, '/')| - 1] != '/'
  {
    if s != "" && s[|s| - 1] == '/' {
      var more := TrimEndSplits(s[..|s| - 1]);
      slashes := more + ['/'];
      assert s == s[..|s| - 1] + ['/'];
    } else {
      slashes := "";
    }
  }

  lemma {:induction false} SlashesAreTrimmed(s: string, slashes: string)
    requires AllSlashes(slashes)
    ensures TrimEnd(s + slashes, '/') == TrimEnd(s, '/')
  {
    if slashes == "" {
      assert s + slashes == s;
    } else {
      var fewer := slashes[..|slashes| - 1];
      SlashesAreTrimmed(s, fewer);
      assert (s + slashes)[..|s + slashes| - 1] == s + fewer;
      assert (s + slashes)[|s + slashes| - 1] == '/';
    }
  }

  /** A worker's name and what follows `credentials`. */
  ghost predicate UnderCredentials(path: string, name: string, tail: string) {
    name != "" && NoSlash(name) && path == "/workers/" + name + "/credentials" + tail
  }

  /** What follows `credentials` ends a path of an export. */
  ghost predicate ExportsItem(tail: string, item: string, slashes: string) {
    (item == "" || item[0] == '/') && AllSlashes(slashes) && tail == item + "/export" + slashes
  }

  lemma RouteUnder(path: string, name: string, tail: string)
    requires UnderCredentials(path, name, tail)
    ensures Route(path) == Some(RouteOfItem(TrimEnd(tail, '/')))
  {
    hide TrimEnd, RouteOfItem;
    assert path == WORKERS + (name + "/" + (CREDENTIALS + tail));
    assert path[..|WORKERS|] == WORKERS && path[|WORKERS|..] == name + "/" + (CREDENTIALS + tail);
    SplitAtSlash(name, CREDENTIALS + tail);
    assert (CREDENTIALS + tail)[..|CREDENTIALS|] == CREDENTIALS && (CREDENTIALS + tail)[|CREDENTIALS|..] == tail;
    hide SplitOnce;
  }

  lemma RouteParts(path: string) returns (name: string, tail: string)
    requires Route(path).Some?
    ensures UnderCredentials(path, name, tail)
  {
    hide TrimEnd, RouteOfItem;
    var rest := path[|WORKERS|..];
    SplitOnceIff(rest, '/');
    var parts := SplitOnce(rest, '/').value;
    name, tail := parts.0, parts.1[|CREDENTIALS|..];
    hide SplitOnce;
    assert path == WORKERS + rest && parts.1 == CREDENTIALS + tail;
    hide Route;
    PutTogether(name, tail);
  }

  lemma PutTogether(name: string, tail: string)
    ensures WORKERS + (name + ['/'] + (CREDENTIALS + tail)) == "/workers/" + name + "/credentials" + tail
  {
    assert name + ['/'] + (CREDENTIALS + tail) == name + "/credentials" + tail;
  }

  ghost predicate IsCredentialPath(path: string) {
    exists name, tail :: UnderCredentials(path, name, tail)
  }

  ghost predicate IsExportPath(path: string) {
    exists name, tail, item, slashes :: UnderCredentials(path, name, tail) && ExportsItem(tail, item, slashes)
  }

  /** Exactly the paths below `credentials` of a named worker are credential routes. */
  lemma RouteIff(path: string)
    ensures Route(path).Some? <==> IsCredentialPath(path)
  {
    if Route(path).Some? {
      var name, tail := RouteParts(path);
    }
    hide Route;
    if name, tail :| UnderCredentials(path, name, tail) {
      RouteUnder(path, name, tail);
    }
  }

  lemma ExportTailIff(tail: string)
    ensures RouteOfItem(TrimEnd(tail, '/')) == Export <==> exists item, slashes :: ExportsItem(tail, item, slashes)
  {
    var t := TrimEnd(tail, '/');
    if RouteOfItem(t) == Export {
      var slashes := TrimEndSplits(tail);
      var item := t[..|t| - 7];
      assert t == item + "/export";
      assert item != "" ==> item[0] == t[0];
      assert t[..1] == "/";
      assert ExportsItem(tail, item, slashes);
    }
    if item, slashes :| ExportsItem(tail, item, slashes) {
      var s := item + "/export";
      SlashesAreTrimmed(s, slashes);
      assert s[|s| - 1] == 't';
      assert t == s;
      assert s[|s| - 7..] == "/export" == "/" + EXPORT;
      assert s[..1] == "/";
    }
  }

  /** And exactly those whose last segment is `export` export. */
  lemma ExportIff(path: string)
    ensures Route(path) == Some(Export) <==> IsExportPath(path)
  {
    if Route(path) == Some(Export) {
      var name, tail := RouteParts(path);
      RouteUnder(path, name, tail);
      ExportTailIff(tail);
    }
    hide Route, TrimEnd, RouteOfItem;
    if name, tail, item, slashes :| UnderCredentials(path, name, tail) && ExportsItem(tail, item, slashes) {
      RouteUnder(path, name, tail);
      ExportTailIff(tail);
    }
  }

  /** One segment below `/workers/`. */
  ghost predicate IsWorkerPath(path: string) {
    exists name :: name != "" && NoSlash(name) && path == "/workers/" + name
  }

  lemma WorkerByIdIff(path: string)
    ensures IsWorkerByIdRoute(path) <==> IsWorkerPath(path)
    ensures IsWorkerPath(path) ==> !IsCredentialPath(path)
  {
    if IsWorkerByIdRoute(path) {
      assert path == "/workers/" + path[9..];
    }
    if |path| >= 9 {
      CredentialPathsAreDeeper(path);
    }
    if name :| name != "" && NoSlash(name) && path == "/workers/" + name {
      assert path[9..] == name && path[..9] == WORKERS;
    }
  }

  lemma CredentialPathsAreDeeper(path: string)
    requires |path| >= 9
    ensures IsCredentialPath(path) ==> '/' in path[9..]
  {
    if name, tail :| UnderCredentials(path, name, tail) {
      assert path == "/workers/" + (name + "/credentials" + tail);
      assert path[9..] == name + "/credentials" + tail;
      assert path[9..][|name|] == '/';
    }
  }

  /** The fixed paths lie elsewhere, and so do the two prefixes. */
  lemma FixedPaths(path: string)
    ensures path in {"/workers", "/bootstrap-tokens", "/admin/tokens", "/hosts/register"} ==>
              !StartsWith(path, WORKERS)
    ensures !StartsWith(path, WORKERS) ==> Route(path).None? && !IsWorkerByIdRoute(path)
    ensures StartsWith(path, "/bootstrap-tokens/") || StartsWith(path, "/admin/tokens/") ==>
              !StartsWith(path, WORKERS)
    ensures !(StartsWith(path, "/bootstrap-tokens/") && StartsWith(path, "/admin/tokens/"))
  {
    assert "/workers/"[1] == 'w' && "/bootstrap-tokens/"[1] == 'b' && "/admin/tokens/"[1] == 'a';
    if StartsWith(path, WORKERS) { assert path[1] == 'w' && |path| >= 9; }
    if StartsWith(path, "/bootstrap-tokens/") { assert path[1] == 'b'; }
    if StartsWith(path, "/admin/tokens/") { assert path[1] == 'a'; }
  }

  /** What a GET needs. */
  lemma GetNeeds(path: string)
    ensures RequiredCapability(GET, path) == Some(WorkerList) <==> path == "/workers" || IsWorkerPath(path)
    ensures RequiredCapability(GET, path) == Some(WorkerLlmCredentialExport) <==> IsExportPath(path)
    ensures RequiredCapability(GET, path) == Some(WorkerLlmCredentialRead) <==>
              IsCredentialPath(path) && !IsExportPath(path)
    ensures RequiredCapability(GET, path) == Some(TokenList) <==> path == "/bootstrap-tokens"
    ensures RequiredCapability(GET, path) == Some(AdminTokenList) <==> path == "/admin/tokens"
    ensures RequiredCapability(GET, path).None? ||
            RequiredCapability(GET, path).value in {WorkerList, WorkerLlmCredentialExport, WorkerLlmCredentialRead,
                                                    TokenList, AdminTokenList}
  {
    RouteIff(path);
    ExportIff(path);
    WorkerByIdIff(path);
    FixedPaths(path);
    hide Route, IsWorkerByIdRoute, IsWorkerPath, IsCredentialPath, IsExportPath, StartsWith;
  }

  /** What a POST needs; the rotation of a worker's credential is told by the
      end of the path alone, and comes first. */
  lemma PostNeeds(path: string)
    ensures RequiredCapability(POST, path) == Some(WorkerRegister) <==>
              path == "/workers/register" || path == "/workers/heartbeat"
    ensures RequiredCapability(POST, path) == Some(WorkerCredentialManage) <==>
              exists rest :: path == rest + "/credential/rotate"
    ensures RequiredCapability(POST, path) == Some(TokenIssue) <==> path == "/bootstrap-tokens"
    ensures RequiredCapability(POST, path) == Some(AdminTokenManage) <==>
              || path == "/admin/tokens"
              || ((exists rest :: path == "/admin/tokens/" + rest) && (exists rest :: path == rest + "/rotate")
                  && !exists rest :: path == rest + "/credential/rotate")
    ensures RequiredCapability(POST, path) == Some(HostProvision) <==> path == "/hosts/register"
    ensures RequiredCapability(POST, path).None? ||
            RequiredCapability(POST, path).value in {WorkerRegister, WorkerCredentialManage, TokenIssue,
                                                     AdminTokenManage, HostProvision}
  {
    EndsWithIff(path, "/credential/rotate");
    EndsWithIff(path, "/rotate");
    StartsWithIff(path, "/admin/tokens/");
    if path in {"/workers/register", "/workers/heartbeat", "/bootstrap-tokens", "/admin/tokens", "/hosts/register"} {
      assert !EndsWith(path, "/credential/rotate") by { assert path[|path| - 1] != 'e' || |path| < 18; }
    }
    hide EndsWith;
  }

  /** What a PUT needs: nothing but the credential routes takes one. */
  lemma PutNeeds(path: string)
    ensures RequiredCapability(PUT, path)
         == if IsCredentialPath(path) then Some(WorkerLlmCredentialManage) else None
  {
    RouteIff(path);
    hide Route, IsCredentialPath;
  }

  /** What a DELETE needs. */
  lemma DeleteNeeds(path: string)
    ensures RequiredCapability(DELETE, path) == Some(WorkerCredentialManage) <==>
              (exists rest :: path == "/workers/" + rest) && (exists rest :: path == rest + "/credential")
    ensures RequiredCapability(DELETE, path) == Some(WorkerLlmCredentialManage) <==>
              IsCredentialPath(path) && !exists rest :: path == rest + "/credential"
    ensures RequiredCapability(DELETE, path) == Some(WorkerDelete) <==>
              (exists rest :: path == "/workers/" + rest) && !IsCredentialPath(path)
              && !exists rest :: path == rest + "/credential"
    ensures RequiredCapability(DELETE, path) == Some(TokenRevoke) <==>
              exists rest :: path == "/bootstrap-tokens/" + rest
    ensures RequiredCapability(DELETE, path) == Some(AdminTokenManage) <==>
              exists rest :: path == "/admin/tokens/" + rest
    ensures RequiredCapability(DELETE, path).None? ||
            RequiredCapability(DELETE, path).value in {WorkerCredentialManage, WorkerLlmCredentialManage, WorkerDelete,
                                                       TokenRevoke, AdminTokenManage}
  {
    RouteIff(path);
    FixedPaths(path);
    EndsWithIff(path, "/credential");
    StartsWithIff(path, "/workers/");
    StartsWithIff(path, "/bootstrap-tokens/");
    StartsWithIff(path, "/admin/tokens/");
    assert "/" + CREDENTIAL == "/credential";
    hide Route, IsCredentialPath, StartsWith, EndsWith;
  }

  /** No other method is let through, on any path. */
  lemma OthersAreRefused(path: string)
    ensures RequiredCapability(Other, path).None?
  {
    hide Route, IsWorkerByIdRoute, EndsWith, StartsWith;
  }

  // --------------------------------------------------- what the client builds

  /** The path of the collection, of an item, and of its export, below the mount point. */
  function CollectionPath(worker: string): string {
    WORKERS + Encode(worker) + "/" + CREDENTIALS
  }

  function ItemPath(worker: string, model: string): string {
    CollectionPath(worker) + "/" + Encode(model)
  }

  function ExportPath(worker: string, model: string): string {
    ItemPath(worker, model) + "/" + EXPORT
  }

  /** A path as the client sends it. */
  function Mounted(path: string): string {
    V1 + path
  }

  /** Both the sent form and the form with the mount point removed mean the same. */
  lemma BothFormsNormalize(worker: string, more: string)
    ensures NormalizedV1Path(Mounted(CollectionPath(worker) + more)) == CollectionPath(worker) + more
    ensures NormalizedV1Path(CollectionPath(worker) + more) == CollectionPath(worker) + more
  {
    hide Encode;
    var path := CollectionPath(worker) + more;
    assert path[0] == '/' && path[1] == 'w';
    assert Mounted(path)[3..] == path && Mounted(path)[..3] == V1;
    assert path[..1] == "/";
  }

  lemma {:induction false} SplitAtSlash(name: string, tail: string)
    requires NoSlash(name)
    ensures SplitOnce(name + "/" + tail, '/') == Some((name, tail))
  {
    var s := name + "/" + tail;
    if name == "" {
      assert s[1..] == tail;
    } else {
      assert s[1..] == name[1..] + "/" + tail;
      SplitAtSlash(name[1..], tail);
      assert name == [name[0]] + name[1..];
    }
  }

  /** The route is read from what follows `credentials`, and there is one
      exactly when the worker has a name. */
  lemma RouteOfPath(worker: string, more: string)
    ensures Route(CollectionPath(worker) + more)
         == if worker == "" then None else Some(RouteOfItem(TrimEnd(more, '/')))
  {
    EncodingIsOneSegment(worker);
    hide Encode, TrimEnd, RouteOfItem;
    var w := Encode(worker);
    var path := CollectionPath(worker) + more;
    assert path == WORKERS + (w + "/" + (CREDENTIALS + more));
    assert path[..|WORKERS|] == WORKERS && path[|WORKERS|..] == w + "/" + (CREDENTIALS + more);
    SplitAtSlash(w, CREDENTIALS + more);
    assert (CREDENTIALS + more)[..|CREDENTIALS|] == CREDENTIALS && (CREDENTIALS + more)[|CREDENTIALS|..] == more;
    hide SplitOnce;
  }

  lemma NothingToTrim(s: string)
    requires s == "" || s[|s| - 1] != '/'
    ensures TrimEnd(s, '/') == s
  {
  }

  lemma ExportTail(m: string)
    ensures RouteOfItem(TrimEnd("/" + m + "/" + EXPORT, '/')) == Export
  {
    var s := "/" + m + "/" + EXPORT;
    assert s[|s| - 1] == 't';
    NothingToTrim(s);
    assert s[..1] == "/" && s[|s| - |"/" + EXPORT|..] == "/" + EXPORT;
  }

  lemma CollectionTail()
    ensures RouteOfItem(TrimEnd("", '/')) == Collection
  {
  }

  lemma GetIsNotAFixedRoute(worker: string, more: string)
    ensures CollectionPath(worker) + more != "/workers"
    ensures !IsWorkerByIdRoute(CollectionPath(worker) + more)
    ensures StartsWith(CollectionPath(worker) + more, WORKERS)
    ensures CollectionPath(worker) + more != "/bootstrap-tokens" && CollectionPath(worker) + more != "/admin/tokens"
  {
    hide Encode;
    var path := CollectionPath(worker) + more;
    assert path[..|WORKERS|] == WORKERS;
    var rest := path[|WORKERS|..];
    assert rest[|Encode(worker)|] == '/';
    assert path[1] == 'w' && path[8] == '/';
    assert "/bootstrap-tokens"[1] == 'b' && "/admin/tokens"[1] == 'a';
  }

  /** Listing asks for Read exactly when the worker has a name, in both forms. */
  lemma ListAsksForRead(worker: string)
    ensures RequiredCapability(GET, NormalizedV1Path(Mounted(CollectionPath(worker))))
         == RequiredCapability(GET, NormalizedV1Path(CollectionPath(worker)))
         == if worker != "" then Some(WorkerLlmCredentialRead) else None
  {
    assert CollectionPath(worker) + "" == CollectionPath(worker);
    BothFormsNormalize(worker, "");
    RouteOfPath(worker, "");
    CollectionTail();
    GetIsNotAFixedRoute(worker, "");
    hide *;
    GetByRoute(CollectionPath(worker));
  }

  lemma GetByRoute(path: string)
    requires path != "/workers" && path != "/bootstrap-tokens" && path != "/admin/tokens" && !IsWorkerByIdRoute(path)
    ensures RequiredCapability(GET, path)
         == match Route(path)
            case None => None
            case Some(Export) => Some(WorkerLlmCredentialExport)
            case Some(_) => Some(WorkerLlmCredentialRead)
  {
    hide Route;
  }

  /** Exporting asks for Export exactly when the worker has a name, for every model. */
  lemma ExportAsksForExport(worker: string, model: string)
    ensures RequiredCapability(GET, NormalizedV1Path(Mounted(ExportPath(worker, model))))
         == RequiredCapability(GET, NormalizedV1Path(ExportPath(worker, model)))
         == if worker != "" then Some(WorkerLlmCredentialExport) else None
  {
    var more := "/" + Encode(model) + "/" + EXPORT;
    Regrouped(worker, model);
    BothFormsNormalize(worker, more);
    RouteOfPath(worker, more);
    ExportTail(Encode(model));
    GetIsNotAFixedRoute(worker, more);
    hide *;
    GetByRoute(ExportPath(worker, model));
  }

  lemma Regrouped(worker: string, model: string)
    ensures ExportPath(worker, model) == CollectionPath(worker) + ("/" + Encode(model) + "/" + EXPORT)
    ensures ItemPath(worker, model) == CollectionPath(worker) + ("/" + Encode(model))
  {
    hide CollectionPath, Encode;
  }

  /** Storing asks for Manage exactly when the worker has a name. */
  lemma PutAsksForManage(worker: string)
    ensures RequiredCapability(PUT, NormalizedV1Path(Mounted(CollectionPath(worker))))
         == RequiredCapability(PUT, NormalizedV1Path(CollectionPath(worker)))
         == if worker != "" then Some(WorkerLlmCredentialManage) else None
  {
    assert CollectionPath(worker) + "" == CollectionPath(worker);
    BothFormsNormalize(worker, "");
    RouteOfPath(worker, "");
    hide *;
    PutByRoute(CollectionPath(worker));
  }

  lemma PutByRoute(path: string)
    ensures RequiredCapability(PUT, path) == if Route(path).Some? then Some(WorkerLlmCredentialManage) else None
  {
    hide Route;
  }

  /** Only a model called `credential` makes the item path end like the path of
      the worker's own credential. */
  lemma LooksLikeTheWorkersOwn(worker: string, model: string)
    ensures EndsWith(ItemPath(worker, model), "/" + CREDENTIAL) <==> model == CREDENTIAL
  {
    Regrouped(worker, model);
    EncodingIsOneSegment(model);
    EncodesToCredential(model);
    CredentialHasNoSlash();
    hide *;
    LastSegment(CollectionPath(worker), Encode(model), CREDENTIAL);
  }

  lemma EncodesToCredential(model: string)
    ensures Encode(model) == CREDENTIAL <==> model == CREDENTIAL
  {
    EncodesToPlain(model, CREDENTIAL);
    hide Encode;
  }

  lemma CredentialHasNoSlash()
    ensures NoSlash(CREDENTIAL)
  {
  }

  /** How long the text before the last slash is. */
  function LastSlash(s: string): nat {
    if s == "" || s[|s| - 1] == '/' then |s| else LastSlash(s[..|s| - 1])
  }

  lemma {:induction false} LastSlashIsThere(p: string, m: string)
    requires NoSlash(m)
    ensures LastSlash(p + ("/" + m)) == |p| + 1
  {
    var s := p + ("/" + m);
    if m != "" {
      assert s[|s| - 1] == m[|m| - 1];
      assert s[..|s| - 1] == p + ("/" + m[..|m| - 1]);
      LastSlashIsThere(p, m[..|m| - 1]);
    }
  }

  lemma LastSegment(p: string, m: string, c: string)
    requires NoSlash(m) && NoSlash(c)
    ensures EndsWith(p + ("/" + m), "/" + c) <==> m == c
  {
    var s := p + ("/" + m);
    LastSlashIsThere(p, m);
    assert s[|p| + 1..] == m && s[|p|..] == "/" + m;
    if EndsWith(s, "/" + c) {
      var q := s[..|s| - |"/" + c|];
      assert s == q + ("/" + c);
      LastSlashIsThere(q, c);
      assert s[|q| + 1..] == c;
    }
  }

  /** Deleting asks for Manage exactly when the worker has a name and the model
      is not called `credential`; the earlier arm for the worker's own
      credential takes that one, and a nameless worker falls to WorkerDelete. */
  lemma DeleteAsksForManage(worker: string, model: string)
    ensures RequiredCapability(DELETE, NormalizedV1Path(Mounted(ItemPath(worker, model))))
         == RequiredCapability(DELETE, NormalizedV1Path(ItemPath(worker, model)))
         == if model == CREDENTIAL then Some(WorkerCredentialManage)
            else if worker != "" then Some(WorkerLlmCredentialManage)
            else Some(WorkerDelete)
  {
    var more := "/" + Encode(model);
    Regrouped(worker, model);
    BothFormsNormalize(worker, more);
    RouteOfPath(worker, more);
    GetIsNotAFixedRoute(worker, more);
    LooksLikeTheWorkersOwn(worker, model);
    hide *;
    DeleteByRoute(ItemPath(worker, model));
  }

  lemma DeleteByRoute(path: string)
    requires StartsWith(path, WORKERS)
    ensures RequiredCapability(DELETE, path)
         == if EndsWith(path, "/" + CREDENTIAL) then Some(WorkerCredentialManage)
            else if Route(path).Some? then Some(WorkerLlmCredentialManage)
            else Some(WorkerDelete)
  {
    hide Route, EndsWith;
  }

  lemma DropPrefix(a: string, x: string, y: string)
    ensures a + x == a + y <==> x == y
  {
    assert (a + x)[|a|..] == x && (a + y)[|a|..] == y;
  }

  lemma EncodingInjective(s: string, t: string)
    requires Encode(s) == Encode(t)
    ensures s == t
  {
    DecodingUndoesEncoding(s);
    DecodingUndoesEncoding(t);
    hide *;
  }

  lemma ItemPathParts(w: string, m: string)
    ensures ItemPath(w, m) == WORKERS + (Encode(w) + "/" + (CREDENTIALS + "/" + Encode(m)))
    ensures SplitOnce(Encode(w) + "/" + (CREDENTIALS + "/" + Encode(m)), '/')
         == Some((Encode(w), CREDENTIALS + "/" + Encode(m)))
  {
    EncodingIsOneSegment(w);
    SplitAtSlash(Encode(w), CREDENTIALS + "/" + Encode(m));
    var x, y, c, e, f := WORKERS, "/", CREDENTIALS, Encode(w), Encode(m);
    assert ItemPath(w, m) == x + e + y + c + y + f;
    hide *;
    Flatten(x, e, y, c, f);
  }

  lemma Flatten(x: string, e: string, y: string, c: string, f: string)
    ensures x + e + y + c + y + f == x + (e + y + (c + y + f))
  {
    assert e + y + c + y + f == e + y + (c + y + f);
    assert x + e + y + c + y + f == x + (e + y + c + y + f);
  }

  /** No two pairs of names share a path. */
  lemma PathsAreDistinct(w: string, m: string, v: string, n: string)
    requires ItemPath(w, m) == ItemPath(v, n)
    ensures w == v && m == n
  {
    hide *;
    ItemPathParts(w, m);
    ItemPathParts(v, n);
    var t := CREDENTIALS + "/";
    DropPrefix(WORKERS, Encode(w) + "/" + (t + Encode(m)), Encode(v) + "/" + (t + Encode(n)));
    DropPrefix(t, Encode(m), Encode(n));
    EncodingInjective(w, v);
    EncodingInjective(m, n);
  }
}
