/** `TaskRequest` and the canonical byte stream behind its `payload_hash`. */
module TaskRequests {
  import opened Wrappers
  import opened Utf8
  import opened Text
  import opened Ordering
  import opened Hashing

  /** Rust keeps every allocation within `isize::MAX` bytes. */
  const MAX_LEN: nat := 0x8000_0000_0000_0000

  datatype TaskPriority = Low | Normal | High

  /** The fields of a request. */
  datatype Request = Request(
    projectId: Option<Uuid>,
    prompt: string,
    cwd: Option<string>,
    model: Option<string>,
    serverHint: Option<string>,
    agentId: Option<Uuid>,
    requiredLabels: seq<string>,
    maxTurns: Option<nat>,
    timeoutSecs: Option<nat>,
    priority: TaskPriority,
    createdBy: string,
    parentTaskId: Option<Uuid>,
    dependencyIds: seq<Uuid>,
    skillsRequired: seq<string>,
    routingProfile: Option<string>,
    resolvedModel: Option<string>,
    tokenBudget: Option<nat>,
    idempotencyKey: Option<string>)

  predicate FitsString(s: string) {
    |Bytes(s)| < MAX_LEN
  }

  predicate FitsList(items: seq<string>) {
    |items| < MAX_LEN && forall i :: 0 <= i < |items| ==> FitsString(items[i])
  }

  predicate FitsNumber(n: Option<nat>) {
    n.Some? ==> n.value < TWO64
  }

  /** The sizes and integer widths a Rust value of the type always has. */
  predicate Fits(r: Request) {
    && FitsString(r.prompt)
    && FitsString(r.cwd.UnwrapOr(""))
    && FitsString(r.model.UnwrapOr(""))
    && FitsString(r.serverHint.UnwrapOr(""))
    && FitsString(r.routingProfile.UnwrapOr(""))
    && FitsList(r.requiredLabels)
    && |r.dependencyIds| < MAX_LEN
    && FitsList(r.skillsRequired)
    && FitsNumber(r.maxTurns)
    && FitsNumber(r.timeoutSecs)
  }

  /** `TaskRequest::default()`. */
  const EMPTY: Request :=
    Request(None, "", None, None, None, None, [], None, None, Normal, "", None, [], [], None, None, None, None)

  type TaskRequest = r: Request | Fits(r) witness EMPTY

  const PAYLOAD_HASH_VERSION := "fleet.task.payload.v2"

  // ------------------------------------------------------- the byte stream

  function UuidBytes(id: Option<Uuid>): seq<byte> {
    match id
    case None => []
    case Some(u) => Bytes(UuidText(u))
  }

  function StringBytes(s: Option<string>): seq<byte> {
    Bytes(s.UnwrapOr(""))
  }

  function NumberBytes(n: Option<nat>): seq<byte> {
    match n
    case None => []
    case Some(v) => Bytes(Decimal(v))
  }

  function PriorityText(p: TaskPriority): string {
    match p
    case Low => "low"
    case Normal => "normal"
    case High => "high"
  }

  /** The `i`-th of the twelve single-valued pieces, in the order they are fed. */
  function HeadPiece(version: string, req: Request, i: nat): seq<byte>
    requires i < 12
  {
    if i == 0 then Bytes(version)
    else if i == 1 then UuidBytes(req.projectId)
    else if i == 2 then Bytes(req.prompt)
    else if i == 3 then StringBytes(req.cwd)
    else if i == 4 then StringBytes(req.model)
    else if i == 5 then StringBytes(req.serverHint)
    else if i == 6 then UuidBytes(req.agentId)
    else if i == 7 then NumberBytes(req.maxTurns)
    else if i == 8 then NumberBytes(req.timeoutSecs)
    else if i == 9 then Bytes(PriorityText(req.priority))
    else if i == 10 then UuidBytes(req.parentTaskId)
    else StringBytes(req.routingProfile)
  }

  function Head(version: string, req: Request): (pieces: seq<seq<byte>>)
    ensures |pieces| == 12
    ensures forall i :: 0 <= i < 12 ==> pieces[i] == HeadPiece(version, req, i)
  {
    seq(12, i requires 0 <= i < 12 => HeadPiece(version, req, i))
  }

  function AllBytes(items: seq<string>): (pieces: seq<seq<byte>>)
    ensures |pieces| == |items|
    ensures forall i :: 0 <= i < |items| ==> pieces[i] == Bytes(items[i])
  {
    seq(|items|, i requires 0 <= i < |items| => Bytes(items[i]))
  }

  /** A list: the piece holding its length, then one piece an item. */
  function Block(items: seq<string>): seq<seq<byte>> {
    [U64Bytes(|items|)] + AllBytes(items)
  }

  function Texts(ids: seq<Uuid>): (texts: seq<string>)
    ensures |texts| == |ids|
    ensures forall i :: 0 <= i < |ids| ==> texts[i] == UuidText(ids[i])
  {
    seq(|ids|, i requires 0 <= i < |ids| => UuidText(ids[i]))
  }

  function Lists(req: Request): seq<seq<byte>> {
    Block(Canonical(req.requiredLabels))
    + (Block(Canonical(Texts(req.dependencyIds))) + Block(Canonical(req.skillsRequired)))
  }

  function Pieces(version: string, req: Request): seq<seq<byte>> {
    Head(version, req) + Lists(req)
  }

  /** Everything `payload_hash` feeds its hasher, for a given encoding version. */
  function VersionedStream(version: string, req: Request): seq<byte> {
    Join(Pieces(version, req))
  }

  function PayloadStream(req: Request): seq<byte> {
    VersionedStream(PAYLOAD_HASH_VERSION, req)
  }

  function PayloadHashOf(digest: seq<byte> -> seq<byte>, req: Request): string {
    Hex(digest(PayloadStream(req)))
  }

  // ------------------------------------------------------- the computation

  method Feed(hasher: Sha256, piece: seq<byte>)
    modifies hasher
    ensures hasher.fed == old(hasher.fed) + Frame(piece)
  {
    hasher.Update(U64Bytes(|piece|));
    hasher.Update(piece);
  }

  /** `Feed`, seen as the `i`-th step through a list of pieces. */
  method FeedNext(hasher: Sha256, piece: seq<byte>, ghost start: seq<byte>, ghost pieces: seq<seq<byte>>, ghost i: nat)
    requires i < |pieces| && pieces[i] == piece
    requires hasher.fed == start + Join(pieces[..i])
    modifies hasher
    ensures hasher.fed == start + Join(pieces[..i + 1])
  {
    hide Frame, Join;
    Feed(hasher, piece);
    JoinOne(pieces[..i], piece);
    assert pieces[..i + 1] == pieces[..i] + [piece];
  }

  lemma StartOf(start: seq<byte>, pieces: seq<seq<byte>>)
    ensures start == start + Join(pieces[..0])
  {
  }

  /** One sorted, deduplicated list: its length, then every item. */
  method FeedList(hasher: Sha256, items: seq<string>)
    modifies hasher
    ensures hasher.fed == old(hasher.fed) + Join(Block(items))
  {
    ghost var start, block := hasher.fed, Block(items);
    hide Join, U64Bytes, Bytes;
    StartOf(start, block);
    FeedNext(hasher, U64Bytes(|items|), start, block, 0);
    for i := 0 to |items|
      invariant hasher.fed == start + Join(block[..i + 1])
    {
      FeedNext(hasher, Bytes(items[i]), start, block, i + 1);
    }
    assert block[..|items| + 1] == block;
  }

  /** The twelve single-valued pieces. */
  method FeedHead(hasher: Sha256, version: string, req: Request)
    modifies hasher
    ensures hasher.fed == old(hasher.fed) + Join(Head(version, req))
  {
    ghost var start, head := hasher.fed, Head(version, req);
    hide Join, Bytes, UuidBytes, StringBytes, NumberBytes, PriorityText;
    StartOf(start, head);
    FeedNext(hasher, Bytes(version), start, head, 0);
    FeedNext(hasher, UuidBytes(req.projectId), start, head, 1);
    FeedNext(hasher, Bytes(req.prompt), start, head, 2);
    FeedNext(hasher, StringBytes(req.cwd), start, head, 3);
    FeedNext(hasher, StringBytes(req.model), start, head, 4);
    FeedNext(hasher, StringBytes(req.serverHint), start, head, 5);
    FeedNext(hasher, UuidBytes(req.agentId), start, head, 6);
    FeedNext(hasher, NumberBytes(req.maxTurns), start, head, 7);
    FeedNext(hasher, NumberBytes(req.timeoutSecs), start, head, 8);
    FeedNext(hasher, Bytes(PriorityText(req.priority)), start, head, 9);
    FeedNext(hasher, UuidBytes(req.parentTaskId), start, head, 10);
    FeedNext(hasher, StringBytes(req.routingProfile), start, head, 11);
    assert head[..12] == head;
  }

  method FeedRequest(hasher: Sha256, version: string, req: Request)
    modifies hasher
    ensures hasher.fed == old(hasher.fed) + VersionedStream(version, req)
  {
    var head, labels := Head(version, req), Canonical(req.requiredLabels);
    var deps, skills := Canonical(Texts(req.dependencyIds)), Canonical(req.skillsRequired);
    FeedHead(hasher, version, req);
    FeedList(hasher, labels);
    FeedList(hasher, deps);
    FeedList(hasher, skills);
    JoinFour(old(hasher.fed), head, Block(labels), Block(deps), Block(skills));
  }

  lemma JoinFour(start: seq<byte>, a: seq<seq<byte>>, b: seq<seq<byte>>, c: seq<seq<byte>>, d: seq<seq<byte>>)
    ensures start + Join(a) + Join(b) + Join(c) + Join(d) == start + Join(a + (b + (c + d)))
  {
    hide Join;
    JoinConcat(c, d);
    JoinConcat(b, c + d);
    JoinConcat(a, b + (c + d));
  }

  /** `TaskRequest::payload_hash`, the hasher fed piece by piece. */
  method PayloadHash(req: TaskRequest, digest: seq<byte> -> seq<byte>) returns (hash: string)
    ensures hash == PayloadHashOf(digest, req)
  {
    hide VersionedStream, Hex;
    var hasher := new Sha256();
    FeedRequest(hasher, PAYLOAD_HASH_VERSION, req);
    assert hasher.fed == PayloadStream(req);
    hash := Hex(digest(hasher.fed));
  }

  // ----------------------------------------------------------- the meaning

  /** What a submission means to the service: the three lists are sets, an
      absent optional string is the empty one, and neither the submitter nor
      what the router fills in is part of it. */
  datatype Meaning = Meaning(
    projectId: Option<Uuid>,
    prompt: string,
    cwd: string,
    model: string,
    serverHint: string,
    agentId: Option<Uuid>,
    labels: set<string>,
    maxTurns: Option<nat>,
    timeoutSecs: Option<nat>,
    priority: TaskPriority,
    parentTaskId: Option<Uuid>,
    dependencies: set<Uuid>,
    skills: set<string>,
    routingProfile: string)

  function MeaningOf(req: Request): Meaning {
    Meaning(req.projectId, req.prompt, req.cwd.UnwrapOr(""), req.model.UnwrapOr(""),
            req.serverHint.UnwrapOr(""), req.agentId, Elems(req.requiredLabels),
            req.maxTurns, req.timeoutSecs, req.priority, req.parentTaskId,
            Elems(req.dependencyIds), Elems(req.skillsRequired), req.routingProfile.UnwrapOr(""))
  }

  lemma UuidBytesInjective(a: Option<Uuid>, b: Option<Uuid>)
    requires UuidBytes(a) == UuidBytes(b)
    ensures a == b
  {
    if a.Some? && b.Some? {
      BytesInjective(UuidText(a.value), UuidText(b.value));
      UuidTextInjective(a.value, b.value);
    }
  }

  lemma NumberBytesInjective(a: Option<nat>, b: Option<nat>)
    requires NumberBytes(a) == NumberBytes(b)
    ensures a == b
  {
    if a.Some? && b.Some? {
      BytesInjective(Decimal(a.value), Decimal(b.value));
      DecimalInjective(a.value, b.value);
    }
  }

  lemma PriorityInjective(a: TaskPriority, b: TaskPriority)
    requires Bytes(PriorityText(a)) == Bytes(PriorityText(b))
    ensures a == b
  {
    BytesInjective(PriorityText(a), PriorityText(b));
    assert PriorityText(Low)[0] == 'l' && PriorityText(Normal)[0] == 'n' && PriorityText(High)[0] == 'h';
  }

  lemma TextsSameSet(a: seq<Uuid>, b: seq<Uuid>)
    ensures Elems(Texts(a)) == Elems(Texts(b)) <==> Elems(a) == Elems(b)
  {
    if Elems(Texts(a)) == Elems(Texts(b)) {
      TextsSubset(a, b);
      TextsSubset(b, a);
    }
    if Elems(a) == Elems(b) {
      TextsMonotone(a, b);
      TextsMonotone(b, a);
    }
  }

  lemma TextsSubset(a: seq<Uuid>, b: seq<Uuid>)
    requires Elems(Texts(a)) <= Elems(Texts(b))
    ensures Elems(a) <= Elems(b)
  {
    forall u | u in Elems(a) ensures u in Elems(b) {
      var i :| 0 <= i < |a| && a[i] == u;
      assert Texts(a)[i] in Elems(Texts(a)) && Texts(a)[i] in Elems(Texts(b));
      var j :| 0 <= j < |b| && Texts(b)[j] == Texts(a)[i];
      UuidTextInjective(b[j], u);
    }
  }

  lemma TextsMonotone(a: seq<Uuid>, b: seq<Uuid>)
    requires Elems(a) <= Elems(b)
    ensures Elems(Texts(a)) <= Elems(Texts(b))
  {
    forall t | t in Elems(Texts(a)) ensures t in Elems(Texts(b)) {
      var i :| 0 <= i < |a| && Texts(a)[i] == t;
      assert a[i] in Elems(a) && a[i] in Elems(b);
      var j :| 0 <= j < |b| && b[j] == a[i];
      assert Texts(b)[j] == t;
    }
  }

  // ------------------------------------------- every piece fits its prefix

  lemma CanonicalMember(v: seq<string>, i: nat)
    requires i < |Canonical(v)|
    ensures Canonical(v)[i] in v
  {
    CanonicalElems(v);
    assert Canonical(v)[i] in Elems(Canonical(v));
  }

  lemma BlockAddressable(v: seq<string>)
    requires forall i :: 0 <= i < |v| ==> |Bytes(v[i])| < TWO64
    ensures Addressable(Block(Canonical(v)))
  {
    var c := Canonical(v);
    forall i | 0 <= i < |c| ensures |Bytes(c[i])| < TWO64 {
      CanonicalMember(v, i);
    }
  }

  lemma UuidBytesFit(id: Option<Uuid>)
    ensures |UuidBytes(id)| < TWO64
  {
    if id.Some? {
      UuidTextIsAscii(id.value);
      AsciiBytes(UuidText(id.value));
    }
  }

  lemma NumberBytesFit(n: Option<nat>)
    requires FitsNumber(n)
    ensures |NumberBytes(n)| < TWO64
  {
    if n.Some? {
      DecimalIsShort(n.value);
      AsciiBytes(Decimal(n.value));
    }
  }

  lemma HeadPieceFits(version: string, req: TaskRequest, i: nat)
    requires FitsString(version) && i < 12
    ensures |HeadPiece(version, req, i)| < TWO64
  {
    UuidBytesFit(req.projectId);
    UuidBytesFit(req.agentId);
    UuidBytesFit(req.parentTaskId);
    OthersFit(req);
    StringsFit(req);
    assert |Bytes(version)| < TWO64;
    hide Bytes, UuidBytes, NumberBytes, Fits, StringBytes, PriorityText, FitsString;
  }

  lemma OthersFit(req: TaskRequest)
    ensures |NumberBytes(req.maxTurns)| < TWO64 && |NumberBytes(req.timeoutSecs)| < TWO64
    ensures |Bytes(PriorityText(req.priority))| < TWO64
  {
    NumberBytesFit(req.maxTurns);
    NumberBytesFit(req.timeoutSecs);
    AsciiBytes(PriorityText(req.priority));
    hide Bytes, NumberBytes;
  }

  lemma HeadAddressable(version: string, req: TaskRequest)
    requires FitsString(version)
    ensures Addressable(Head(version, req))
  {
    forall i | 0 <= i < 12 ensures |Head(version, req)[i]| < TWO64 {
      HeadPieceFits(version, req, i);
      hide HeadPiece;
    }
  }

  lemma StringsFit(req: TaskRequest)
    ensures |StringBytes(req.cwd)| < MAX_LEN && |StringBytes(req.model)| < MAX_LEN
    ensures |StringBytes(req.serverHint)| < MAX_LEN && |StringBytes(req.routingProfile)| < MAX_LEN
    ensures |Bytes(req.prompt)| < MAX_LEN
  {
    hide Bytes;
  }

  lemma TextsFit(ids: seq<Uuid>)
    ensures forall i :: 0 <= i < |Texts(ids)| ==> |Bytes(Texts(ids)[i])| < TWO64
  {
    forall i | 0 <= i < |Texts(ids)| ensures |Bytes(Texts(ids)[i])| < TWO64 {
      UuidTextIsAscii(ids[i]);
      AsciiBytes(UuidText(ids[i]));
    }
  }

  lemma PiecesAddressable(version: string, req: TaskRequest)
    requires FitsString(version)
    ensures Addressable(Pieces(version, req))
  {
    HeadAddressable(version, req);
    var labels, deps, skills := req.requiredLabels, Texts(req.dependencyIds), req.skillsRequired;
    BlockAddressable(labels) by { FitsListFits(labels); }
    BlockAddressable(deps) by { TextsFit(req.dependencyIds); }
    BlockAddressable(skills) by { FitsListFits(skills); }
    AddressableConcat(Block(Canonical(deps)), Block(Canonical(skills)));
    AddressableConcat(Block(Canonical(labels)), Block(Canonical(deps)) + Block(Canonical(skills)));
    AddressableConcat(Head(version, req), Lists(req));
  }

  lemma FitsListFits(items: seq<string>)
    requires FitsList(items)
    ensures forall i :: 0 <= i < |items| ==> |Bytes(items[i])| < TWO64
  {
    forall i | 0 <= i < |items| ensures |Bytes(items[i])| < TWO64 {
      assert FitsString(items[i]);
    }
  }

  lemma AddressableConcat(a: seq<seq<byte>>, b: seq<seq<byte>>)
    requires Addressable(a) && Addressable(b)
    ensures Addressable(a + b)
  {
  }

  // ------------------------------------------------- what a reader finds

  function OrEmpty(s: Option<string>): string {
    match s
    case None => ""
    case Some(t) => t
  }

  function UuidOrEmpty(id: Option<Uuid>): string {
    match id
    case None => ""
    case Some(u) => UuidText(u)
  }

  function NumberOrEmpty(n: Option<nat>): string {
    match n
    case None => ""
    case Some(k) => Decimal(k)
  }

  /** The single-valued pieces, one by one. */
  lemma HeadRead(version: string, req: Request)
    ensures Head(version, req)
         == [Bytes(version), Bytes(UuidOrEmpty(req.projectId)), Bytes(req.prompt), Bytes(OrEmpty(req.cwd)),
             Bytes(OrEmpty(req.model)), Bytes(OrEmpty(req.serverHint)), Bytes(UuidOrEmpty(req.agentId)),
             Bytes(NumberOrEmpty(req.maxTurns)), Bytes(NumberOrEmpty(req.timeoutSecs)),
             Bytes(match req.priority case Low => "low" case Normal => "normal" case High => "high"),
             Bytes(UuidOrEmpty(req.parentTaskId)), Bytes(OrEmpty(req.routingProfile))]
  {
    FirstSix(version, req);
    LastSix(version, req);
    hide *;
    Twelve(Head(version, req));
  }

  lemma FirstSix(version: string, req: Request)
    ensures Head(version, req)[0] == Bytes(version)
    ensures Head(version, req)[1] == Bytes(UuidOrEmpty(req.projectId))
    ensures Head(version, req)[2] == Bytes(req.prompt)
    ensures Head(version, req)[3] == Bytes(OrEmpty(req.cwd))
    ensures Head(version, req)[4] == Bytes(OrEmpty(req.model))
    ensures Head(version, req)[5] == Bytes(OrEmpty(req.serverHint))
  {
    UuidRead(req.projectId);
    hide Bytes, Head, UuidBytes, UuidOrEmpty;
  }

  lemma LastSix(version: string, req: Request)
    ensures Head(version, req)[6] == Bytes(UuidOrEmpty(req.agentId))
    ensures Head(version, req)[7] == Bytes(NumberOrEmpty(req.maxTurns))
    ensures Head(version, req)[8] == Bytes(NumberOrEmpty(req.timeoutSecs))
    ensures Head(version, req)[9]
         == Bytes(match req.priority case Low => "low" case Normal => "normal" case High => "high")
    ensures Head(version, req)[10] == Bytes(UuidOrEmpty(req.parentTaskId))
    ensures Head(version, req)[11] == Bytes(OrEmpty(req.routingProfile))
  {
    UuidRead(req.agentId);
    UuidRead(req.parentTaskId);
    NumberRead(req.maxTurns);
    NumberRead(req.timeoutSecs);
    hide Bytes, Head, UuidBytes, NumberBytes, UuidOrEmpty, NumberOrEmpty;
  }

  lemma Twelve(h: seq<seq<byte>>)
    requires |h| == 12
    ensures h == [h[0], h[1], h[2], h[3], h[4], h[5], h[6], h[7], h[8], h[9], h[10], h[11]]
  {
  }

  lemma UuidRead(id: Option<Uuid>)
    ensures UuidBytes(id) == Bytes(UuidOrEmpty(id))
  {
    hide UuidText;
  }

  lemma NumberRead(n: Option<nat>)
    ensures NumberBytes(n) == Bytes(NumberOrEmpty(n))
  {
    hide Decimal;
  }

  /** The decoder of the framing, which knows nothing of requests, finds the
      version and eleven fields in this order, an absent one as the empty piece;
      then labels, dependencies and skills, each behind its count. */
  lemma StreamReadsBack(version: string, req: TaskRequest)
    requires FitsString(version)
    ensures var labels, skills := Canonical(req.requiredLabels), Canonical(req.skillsRequired);
            var deps := Canonical(Texts(req.dependencyIds));
            Split(VersionedStream(version, req)) ==
            Some([Bytes(version), Bytes(UuidOrEmpty(req.projectId)), Bytes(req.prompt), Bytes(OrEmpty(req.cwd)),
                  Bytes(OrEmpty(req.model)), Bytes(OrEmpty(req.serverHint)), Bytes(UuidOrEmpty(req.agentId)),
                  Bytes(NumberOrEmpty(req.maxTurns)), Bytes(NumberOrEmpty(req.timeoutSecs)),
                  Bytes(match req.priority case Low => "low" case Normal => "normal" case High => "high"),
                  Bytes(UuidOrEmpty(req.parentTaskId)), Bytes(OrEmpty(req.routingProfile))]
                 + (([U64Bytes(|labels|)] + AllBytes(labels))
                    + (([U64Bytes(|deps|)] + AllBytes(deps)) + ([U64Bytes(|skills|)] + AllBytes(skills)))))
  {
    PiecesAddressable(version, req);
    SplitJoin(Pieces(version, req));
    HeadRead(version, req);
    hide Split, Join, Head, AllBytes, Canonical, Texts, U64Bytes, Bytes, OrEmpty, UuidOrEmpty, NumberOrEmpty;
  }

  // ------------------------------------------------- the pieces separate

  lemma {:induction false} BlockPrefix(x: seq<string>, y: seq<string>, r: seq<seq<byte>>, s: seq<seq<byte>>)
    requires |x| < TWO64 && |y| < TWO64
    requires Block(x) + r == Block(y) + s
    ensures x == y && r == s
  {
    var left, right := Block(x) + r, Block(y) + s;
    assert left[0] == U64Bytes(|x|) && right[0] == U64Bytes(|y|);
    U64BytesInjective(|x|, |y|);
    forall i | 0 <= i < |x| ensures x[i] == y[i] {
      assert left[i + 1] == Bytes(x[i]) && right[i + 1] == Bytes(y[i]);
      BytesInjective(x[i], y[i]);
    }
    assert left[|x| + 1..] == r && right[|y| + 1..] == s;
  }

  /** The meaning of the twelve single-valued pieces. */
  predicate SameSingles(a: Request, b: Request) {
    && a.projectId == b.projectId
    && a.prompt == b.prompt
    && a.cwd.UnwrapOr("") == b.cwd.UnwrapOr("")
    && a.model.UnwrapOr("") == b.model.UnwrapOr("")
    && a.serverHint.UnwrapOr("") == b.serverHint.UnwrapOr("")
    && a.agentId == b.agentId
    && a.maxTurns == b.maxTurns
    && a.timeoutSecs == b.timeoutSecs
    && a.priority == b.priority
    && a.parentTaskId == b.parentTaskId
    && a.routingProfile.UnwrapOr("") == b.routingProfile.UnwrapOr("")
  }

  lemma HeadMeaning(v: string, a: Request, w: string, b: Request)
    requires forall i :: 0 <= i < 12 ==> HeadPiece(v, a, i) == HeadPiece(w, b, i)
    ensures v == w && SameSingles(a, b)
  {
    BytesInjective(v, w) by { assert HeadPiece(v, a, 0) == HeadPiece(w, b, 0); }
    UuidBytesInjective(a.projectId, b.projectId) by { assert HeadPiece(v, a, 1) == HeadPiece(w, b, 1); }
    BytesInjective(a.prompt, b.prompt) by { assert HeadPiece(v, a, 2) == HeadPiece(w, b, 2); }
    BytesInjective(a.cwd.UnwrapOr(""), b.cwd.UnwrapOr("")) by { assert HeadPiece(v, a, 3) == HeadPiece(w, b, 3); }
    BytesInjective(a.model.UnwrapOr(""), b.model.UnwrapOr("")) by { assert HeadPiece(v, a, 4) == HeadPiece(w, b, 4); }
    BytesInjective(a.serverHint.UnwrapOr(""), b.serverHint.UnwrapOr(""))
      by { assert HeadPiece(v, a, 5) == HeadPiece(w, b, 5); }
    UuidBytesInjective(a.agentId, b.agentId) by { assert HeadPiece(v, a, 6) == HeadPiece(w, b, 6); }
    NumberBytesInjective(a.maxTurns, b.maxTurns) by { assert HeadPiece(v, a, 7) == HeadPiece(w, b, 7); }
    NumberBytesInjective(a.timeoutSecs, b.timeoutSecs) by { assert HeadPiece(v, a, 8) == HeadPiece(w, b, 8); }
    PriorityInjective(a.priority, b.priority) by { assert HeadPiece(v, a, 9) == HeadPiece(w, b, 9); }
    UuidBytesInjective(a.parentTaskId, b.parentTaskId) by { assert HeadPiece(v, a, 10) == HeadPiece(w, b, 10); }
    BytesInjective(a.routingProfile.UnwrapOr(""), b.routingProfile.UnwrapOr(""))
      by { assert HeadPiece(v, a, 11) == HeadPiece(w, b, 11); }
  }

  lemma PiecesSeparate(v: string, a: Request, w: string, b: Request)
    requires Pieces(v, a) == Pieces(w, b)
    ensures v == w && SameSingles(a, b) && Lists(a) == Lists(b)
  {
    assert Pieces(v, a)[12..] == Lists(a) && Pieces(w, b)[12..] == Lists(b);
    forall i | 0 <= i < 12 ensures HeadPiece(v, a, i) == HeadPiece(w, b, i) {
      assert Pieces(v, a)[i] == Head(v, a)[i] && Pieces(w, b)[i] == Head(w, b)[i];
    }
    HeadMeaning(v, a, w, b);
  }

  lemma ListsSeparate(la: seq<string>, da: seq<string>, sa: seq<string>,
                      lb: seq<string>, db: seq<string>, sb: seq<string>)
    requires |la| < TWO64 && |da| < TWO64 && |sa| < TWO64 && |lb| < TWO64 && |db| < TWO64 && |sb| < TWO64
    requires Block(la) + (Block(da) + Block(sa)) == Block(lb) + (Block(db) + Block(sb))
    ensures la == lb && da == db && sa == sb
  {
    BlockPrefix(la, lb, Block(da) + Block(sa), Block(db) + Block(sb));
    BlockPrefix(da, db, Block(sa), Block(sb));
    assert Block(sa) + [] == Block(sb) + [];
    BlockPrefix(sa, sb, [], []);
  }

  lemma StreamSeparates(v: string, a: TaskRequest, w: string, b: TaskRequest)
    requires FitsString(v) && FitsString(w) && VersionedStream(v, a) == VersionedStream(w, b)
    ensures v == w && SameSingles(a, b)
    ensures Canonical(a.requiredLabels) == Canonical(b.requiredLabels)
    ensures Canonical(Texts(a.dependencyIds)) == Canonical(Texts(b.dependencyIds))
    ensures Canonical(a.skillsRequired) == Canonical(b.skillsRequired)
  {
    PiecesAddressable(v, a);
    PiecesAddressable(w, b);
    JoinInjective(Pieces(v, a), Pieces(w, b));
    PiecesSeparate(v, a, w, b);
    ListsSeparate(Canonical(a.requiredLabels), Canonical(Texts(a.dependencyIds)), Canonical(a.skillsRequired),
                  Canonical(b.requiredLabels), Canonical(Texts(b.dependencyIds)), Canonical(b.skillsRequired));
  }

  lemma SameHead(version: string, a: Request, b: Request)
    requires SameSingles(a, b)
    ensures Head(version, a) == Head(version, b)
  {
    forall i | 0 <= i < 12 ensures HeadPiece(version, a, i) == HeadPiece(version, b, i) {
    }
  }

  /** Two streams are the same exactly when the two submissions mean the same
      and were encoded under the same version: no byte string is shared by two
      meanings, and raising the version separates it from every earlier stream. */
  lemma StreamIffMeaning(v: string, a: TaskRequest, w: string, b: TaskRequest)
    requires FitsString(v) && FitsString(w)
    ensures VersionedStream(v, a) == VersionedStream(w, b) <==> v == w && MeaningOf(a) == MeaningOf(b)
  {
    CanonicalIffSameSet(a.requiredLabels, b.requiredLabels);
    CanonicalIffSameSet(Texts(a.dependencyIds), Texts(b.dependencyIds));
    CanonicalIffSameSet(a.skillsRequired, b.skillsRequired);
    TextsSameSet(a.dependencyIds, b.dependencyIds);
    if VersionedStream(v, a) == VersionedStream(w, b) {
      StreamSeparates(v, a, w, b);
    }
    if v == w && MeaningOf(a) == MeaningOf(b) {
      SameHead(v, a, b);
    }
  }

  /** What it is for two submissions to mean the same, field by field. */
  lemma SameMeaningIff(a: Request, b: Request)
    ensures MeaningOf(a) == MeaningOf(b) <==>
              && a.projectId == b.projectId && a.prompt == b.prompt && a.agentId == b.agentId
              && OrEmpty(a.cwd) == OrEmpty(b.cwd) && OrEmpty(a.model) == OrEmpty(b.model)
              && OrEmpty(a.serverHint) == OrEmpty(b.serverHint)
              && OrEmpty(a.routingProfile) == OrEmpty(b.routingProfile)
              && a.maxTurns == b.maxTurns && a.timeoutSecs == b.timeoutSecs
              && a.priority == b.priority && a.parentTaskId == b.parentTaskId
              && (forall x :: x in a.requiredLabels <==> x in b.requiredLabels)
              && (forall x :: x in a.dependencyIds <==> x in b.dependencyIds)
              && (forall x :: x in a.skillsRequired <==> x in b.skillsRequired)
  {
    SameElemsIff(a.requiredLabels, b.requiredLabels);
    SameElemsIff(a.dependencyIds, b.dependencyIds);
    SameElemsIff(a.skillsRequired, b.skillsRequired);
    hide Elems;
  }

  lemma SameElemsIff<T>(v: seq<T>, w: seq<T>)
    ensures Elems(v) == Elems(w) <==> forall x :: x in v <==> x in w
  {
    if Elems(v) == Elems(w) {
      forall x ensures x in v <==> x in w {
        assert x in Elems(v) <==> x in v;
        assert x in Elems(w) <==> x in w;
      }
    }
  }

  /** The stream in use carries the second version. */
  lemma PayloadStreamIffMeaning(a: TaskRequest, b: TaskRequest)
    ensures PayloadStream(a) == PayloadStream(b) <==> MeaningOf(a) == MeaningOf(b)
    ensures PayloadStream(a) == VersionedStream("fleet.task.payload.v2", a)
  {
    hide VersionedStream, MeaningOf, Bytes, Fits;
    AsciiBytes(PAYLOAD_HASH_VERSION);
    StreamIffMeaning(PAYLOAD_HASH_VERSION, a, PAYLOAD_HASH_VERSION, b);
  }

  /** Under a collision-free digest the stored hash decides the same question. */
  lemma HashIffMeaning(digest: seq<byte> -> seq<byte>, a: TaskRequest, b: TaskRequest)
    requires CollisionFree(digest)
    ensures PayloadHashOf(digest, a) == PayloadHashOf(digest, b) <==> MeaningOf(a) == MeaningOf(b)
  {
    PayloadStreamIffMeaning(a, b);
    if PayloadHashOf(digest, a) == PayloadHashOf(digest, b) {
      HexInjective(digest(PayloadStream(a)), digest(PayloadStream(b)));
    }
  }

  /** The submitter, the key and what the router fills in never reach the hash. */
  lemma RouterFieldsNeverMatter(digest: seq<byte> -> seq<byte>, req: TaskRequest, createdBy: string,
                                key: Option<string>, resolved: Option<string>, budget: Option<nat>)
    ensures PayloadHashOf(digest, req)
         == PayloadHashOf(digest, req.(createdBy := createdBy, idempotencyKey := key,
                                       resolvedModel := resolved, tokenBudget := budget))
  {
    SameHead(PAYLOAD_HASH_VERSION, req, req.(createdBy := createdBy, idempotencyKey := key,
                                             resolvedModel := resolved, tokenBudget := budget));
  }
}
