/** The body of an agent template, its normal form, its `content_hash`, and the
    permissions an edit of it needs.
 */
module TemplateContent {
  import opened Wrappers
  import opened Utf8
  import opened Text
  import opened Ordering
  import opened Hashing
  import opened Trimming

  datatype Body = Body(rolePrompt: string, tools: seq<string>, skills: seq<string>)

  // ------------------------------------------------------------ normal form

  /** Trims every entry and keeps the non-empty ones. */
  function TrimAll(v: seq<string>): (r: seq<string>)
    ensures |r| <= |v|
  {
    if v == [] then []
    else (if Trim(v[0]) == "" then [] else [Trim(v[0])]) + TrimAll(v[1..])
  }

  function NormalList(v: seq<string>): seq<string> {
    Canonical(TrimAll(v))
  }

  /** `AgentTemplateBody::normalized`. */
  function Normalized(b: Body): Body {
    Body(b.rolePrompt, NormalList(b.tools), NormalList(b.skills))
  }

  /** The names a list grants: trimmed, the empty ones dropped, order and repetition ignored. */
  function Names(v: seq<string>): set<string> {
    set s | s in v && Trim(s) != "" :: Trim(s)
  }

  lemma {:induction false} TrimAllNames(v: seq<string>)
    ensures Elems(TrimAll(v)) == Names(v)
  {
    if v != [] {
      TrimAllNames(v[1..]);
      var head := if Trim(v[0]) == "" then {} else {Trim(v[0])};
      assert Names(v) == head + Names(v[1..]) by {
        forall s | s in v ensures s == v[0] || s in v[1..] { }
      }
      assert Elems(TrimAll(v)) == head + Elems(TrimAll(v[1..]));
    }
  }

  lemma NormalListElems(v: seq<string>)
    ensures Elems(NormalList(v)) == Names(v)
  {
    TrimAllNames(v);
    CanonicalElems(TrimAll(v));
  }

  /** The trimmed entries that are not empty, each once, in byte order. */
  lemma NormalListIs(v: seq<string>)
    ensures StrictlySorted(NormalList(v))
    ensures forall x :: x in NormalList(v) <==> x != "" && exists i :: 0 <= i < |v| && Trim(v[i]) == x
    ensures forall x :: x in Names(v) <==> x != "" && exists i :: 0 <= i < |v| && Trim(v[i]) == x
  {
    CanonicalElems(TrimAll(v));
    NormalListElems(v);
    hide Trim, TrimAll, Canonical;
    forall x ensures x in NormalList(v) <==> x in Names(v) {
      assert x in Elems(NormalList(v)) <==> x in NormalList(v);
    }
  }

  lemma NormalListIffNames(v: seq<string>, w: seq<string>)
    ensures NormalList(v) == NormalList(w) <==> Names(v) == Names(w)
  {
    TrimAllNames(v);
    TrimAllNames(w);
    CanonicalIffSameSet(TrimAll(v), TrimAll(w));
  }

  /** A body that was stored normalised is its own normal form, so the hash
      recomputed from a stored revision is the hash it was stored under. */
  lemma NormalizedIdempotent(b: Body)
    ensures Normalized(Normalized(b)) == Normalized(b)
  {
    NormalListIdempotent(b.tools);
    NormalListIdempotent(b.skills);
  }

  lemma NormalListIdempotent(v: seq<string>)
    ensures NormalList(NormalList(v)) == NormalList(v)
  {
    var n := NormalList(v);
    NormalListElems(v);
    forall s ensures s in Names(n) <==> s in Names(v) {
      if s in Names(n) {
        var t :| t in n && Trim(t) == s && s != "";
        assert t in Elems(n);
        var u :| u in v && Trim(u) == t;
        TrimIdempotent(u);
      }
      if s in Names(v) {
        assert s in Elems(n);
        var u :| u in v && Trim(u) == s;
        TrimIdempotent(u);
      }
    }
    NormalListIffNames(n, v);
  }

  // ------------------------------------------------------- the byte stream

  const COLON: byte := 0x3A
  const NEWLINE: byte := 0x0A

  function Count(n: nat): seq<byte> {
    Bytes(Decimal(n))
  }

  function Field(name: string, value: seq<byte>): seq<byte> {
    Bytes(name) + ([COLON] + (Count(|value|) + ([COLON] + (value + [NEWLINE]))))
  }

  function Items(items: seq<string>): seq<byte> {
    if items == [] then [] else Field("item", Bytes(items[0])) + Items(items[1..])
  }

  function List(name: string, items: seq<string>): seq<byte> {
    Bytes(name) + ([COLON] + (Count(|items|) + ([NEWLINE] + Items(items))))
  }

  function Fields(b: Body): seq<byte> {
    Field("role_prompt", Bytes(b.rolePrompt)) + (List("tools", b.tools) + List("skills", b.skills))
  }

  /** Everything `content_hash` feeds its hasher. */
  function ContentStream(b: Body): seq<byte> {
    Bytes("agent_template/v1\n") + Fields(Normalized(b))
  }

  function ContentHashOf(digest: seq<byte> -> seq<byte>, b: Body): string {
    Hex(digest(ContentStream(b)))
  }

  /** Everything `dependent_set_hash` feeds its hasher. */
  function DependentStream(agents: seq<Uuid>): seq<byte> {
    Bytes("agent_template_dependents/v1\n") + List("agents", Sort(AgentTexts(agents)))
  }

  function AgentTexts(agents: seq<Uuid>): (texts: seq<string>)
    ensures |texts| == |agents|
  {
    if agents == [] then [] else [UuidText(agents[0])] + AgentTexts(agents[1..])
  }

  // -------------------------------------------------------- the same as text

  function FieldText(name: string, value: string): string {
    name + ":" + Decimal(|Bytes(value)|) + ":" + value + "\n"
  }

  function ItemsText(items: seq<string>): string {
    if items == [] then "" else FieldText("item", items[0]) + ItemsText(items[1..])
  }

  function ListText(name: string, items: seq<string>): string {
    name + ":" + Decimal(|items|) + "\n" + ItemsText(items)
  }

  lemma FieldIsText(name: string, value: string)
    ensures Field(name, Bytes(value)) == Bytes(FieldText(name, value))
  {
    var count := Decimal(|Bytes(value)|);
    BytesConcat(name, ":");
    BytesConcat(name + ":", count);
    BytesConcat(name + ":" + count, ":");
    BytesConcat(name + ":" + count + ":", value);
    BytesConcat(name + ":" + count + ":" + value, "\n");
    Punctuation();
    hide Bytes, Decimal;
    Associate(Bytes(name), [COLON], Bytes(count), Bytes(value), [NEWLINE]);
  }

  lemma Associate(a: seq<byte>, colon: seq<byte>, b: seq<byte>, c: seq<byte>, d: seq<byte>)
    ensures a + colon + b + colon + c + d == a + (colon + (b + (colon + (c + d))))
  {
  }

  lemma Punctuation()
    ensures Bytes(":") == [COLON] && Bytes("\n") == [NEWLINE]
  {
    AsciiBytes(":");
    AsciiBytes("\n");
  }

  lemma {:induction false} ItemsAreText(items: seq<string>)
    ensures Items(items) == Bytes(ItemsText(items))
  {
    hide Field, FieldText, Bytes;
    if items == [] {
      AsciiBytes("");
    } else {
      FieldIsText("item", items[0]);
      ItemsAreText(items[1..]);
      BytesConcat(FieldText("item", items[0]), ItemsText(items[1..]));
    }
  }

  lemma ListIsText(name: string, items: seq<string>)
    ensures List(name, items) == Bytes(ListText(name, items))
  {
    var count := Decimal(|items|);
    BytesConcat(name, ":");
    BytesConcat(name + ":", count);
    BytesConcat(name + ":" + count, "\n");
    BytesConcat(name + ":" + count + "\n", ItemsText(items));
    ItemsAreText(items);
    Punctuation();
    hide Bytes, Decimal, Items, ItemsText;
    var head: seq<byte> := Bytes(name) + [COLON] + Bytes(count);
    assert Bytes(ListText(name, items)) == head + [NEWLINE] + Items(items);
    AssociateFour(Bytes(name), [COLON], Bytes(count), [NEWLINE], Items(items));
  }

  lemma AssociateFour(a: seq<byte>, colon: seq<byte>, b: seq<byte>, c: seq<byte>, d: seq<byte>)
    ensures a + colon + b + c + d == a + (colon + (b + (c + d)))
  {
  }

  /** The bytes of the content hash, as the text they spell. */
  lemma ContentStreamIsText(b: Body)
    ensures ContentStream(b)
         == Bytes("agent_template/v1\n" + FieldText("role_prompt", b.rolePrompt)
                  + ListText("tools", NormalList(b.tools)) + ListText("skills", NormalList(b.skills)))
  {
    var head, prompt := "agent_template/v1\n", FieldText("role_prompt", b.rolePrompt);
    var tools, skills := ListText("tools", NormalList(b.tools)), ListText("skills", NormalList(b.skills));
    FieldIsText("role_prompt", b.rolePrompt);
    ListIsText("tools", NormalList(b.tools));
    ListIsText("skills", NormalList(b.skills));
    BytesConcat(head, prompt);
    BytesConcat(head + prompt, tools);
    BytesConcat(head + prompt + tools, skills);
    hide Bytes, Field, List, FieldText, ListText, NormalList;
  }

  /** And those of the dependents. */
  lemma DependentStreamIsText(agents: seq<Uuid>)
    ensures DependentStream(agents)
         == Bytes("agent_template_dependents/v1\n" + ListText("agents", Sort(AgentTexts(agents))))
    ensures forall i :: 0 <= i < |agents| ==> AgentTexts(agents)[i] == UuidText(agents[i])
  {
    var texts := AgentTexts(agents);
    ListIsText("agents", Sort(texts));
    BytesConcat("agent_template_dependents/v1\n", ListText("agents", Sort(texts)));
    forall i | 0 <= i < |agents| ensures texts[i] == UuidText(agents[i]) {
      AgentTextsAt(agents, i);
    }
    hide Bytes, List, ListText, Sort, AgentTexts, UuidText;
  }

  lemma {:induction false} AgentTextsAt(agents: seq<Uuid>, i: nat)
    requires i < |agents|
    ensures AgentTexts(agents)[i] == UuidText(agents[i])
  {
    if i > 0 {
      AgentTextsAt(agents[1..], i - 1);
    }
  }

  // -------------------------------------------------------- the computation

  method HashField(h: Sha256, name: string, value: seq<byte>)
    modifies h
    ensures h.fed == old(h.fed) + Field(name, value)
  {
    hide Bytes, Decimal;
    h.Update(Bytes(name));
    h.Update([COLON]);
    h.Update(Count(|value|));
    h.Update([COLON]);
    h.Update(value);
    h.Update([NEWLINE]);
  }

  lemma {:induction false} ItemsSnoc(items: seq<string>, item: string)
    ensures Items(items + [item]) == Items(items) + Field("item", Bytes(item))
  {
    hide Field, Bytes;
    if items == [] {
      assert Items([item]) == Field("item", Bytes(item)) + Items([]);
    } else {
      assert (items + [item])[1..] == items[1..] + [item];
      ItemsSnoc(items[1..], item);
    }
  }

  method HashItems(h: Sha256, items: seq<string>)
    modifies h
    ensures h.fed == old(h.fed) + Items(items)
  {
    hide Field, Bytes;
    for i := 0 to |items|
      invariant h.fed == old(h.fed) + Items(items[..i])
    {
      HashField(h, "item", Bytes(items[i]));
      ItemsSnoc(items[..i], items[i]);
      assert items[..i + 1] == items[..i] + [items[i]];
    }
    assert items[..|items|] == items;
  }

  method HashList(h: Sha256, name: string, items: seq<string>)
    modifies h
    ensures h.fed == old(h.fed) + List(name, items)
  {
    hide Bytes, Items, Decimal;
    h.Update(Bytes(name));
    h.Update([COLON]);
    h.Update(Count(|items|));
    h.Update([NEWLINE]);
    HashItems(h, items);
  }

  method ContentHash(b: Body, digest: seq<byte> -> seq<byte>) returns (hash: string)
    ensures hash == ContentHashOf(digest, b)
  {
    hide Bytes, Field, List, Hex, Normalized;
    var n := Normalized(b);
    var h := new Sha256();
    h.Update(Bytes("agent_template/v1\n"));
    HashField(h, "role_prompt", Bytes(n.rolePrompt));
    HashList(h, "tools", n.tools);
    HashList(h, "skills", n.skills);
    assert h.fed == ContentStream(b);
    hash := Hex(digest(h.fed));
  }

  method DependentSetHash(agents: seq<Uuid>, digest: seq<byte> -> seq<byte>) returns (hash: string)
    ensures hash == Hex(digest(DependentStream(agents)))
  {
    hide Bytes, List, Hex;
    var h := new Sha256();
    h.Update(Bytes("agent_template_dependents/v1\n"));
    HashList(h, "agents", Sort(AgentTexts(agents)));
    assert h.fed == DependentStream(agents);
    hash := Hex(digest(h.fed));
  }

  // ------------------------------------------------- the pieces separate

  predicate Digits(a: seq<byte>) {
    forall i :: 0 <= i < |a| ==> 0x30 <= a[i] <= 0x39
  }

  lemma CountDigits(n: nat)
    ensures Digits(Count(n))
  {
    DecimalValueOf(n);
    AsciiBytes(Decimal(n));
  }

  /** How many digits a stream starts with. */
  function DigitRun(x: seq<byte>): nat {
    if x != [] && 0x30 <= x[0] <= 0x39 then 1 + DigitRun(x[1..]) else 0
  }

  lemma {:induction false} DigitRunOf(a: seq<byte>, stop: byte, r: seq<byte>)
    requires Digits(a) && !Digits([stop])
    ensures DigitRun(a + ([stop] + r)) == |a|
  {
    if a == [] {
      assert [stop][0] == stop;
      assert a + ([stop] + r) == [stop] + r;
    } else {
      DigitRunOf(a[1..], stop, r);
      assert (a + ([stop] + r))[1..] == a[1..] + ([stop] + r);
    }
  }

  /** A printed number ends where the first byte that is no digit stands. */
  lemma CountPrefix(m: nat, n: nat, stop: byte, r: seq<byte>, s: seq<byte>)
    requires !Digits([stop])
    requires Count(m) + ([stop] + r) == Count(n) + ([stop] + s)
    ensures m == n && r == s
  {
    var a, b := Count(m), Count(n);
    hide Count, Decimal, Bytes, Digits;
    CountDigits(m);
    CountDigits(n);
    DigitRunOf(a, stop, r);
    DigitRunOf(b, stop, s);
    SplitAt(a, b, [stop] + r, [stop] + s);
    Cancel([stop], r, s);
    CountInjective(m, n);
  }

  lemma CountInjective(m: nat, n: nat)
    requires Count(m) == Count(n)
    ensures m == n
  {
    hide Decimal, Bytes;
    BytesInjective(Decimal(m), Decimal(n));
    DecimalInjective(m, n);
  }

  /** Removes an equal first part. */
  lemma Cancel(a: seq<byte>, r: seq<byte>, s: seq<byte>)
    requires a + r == a + s
    ensures r == s
  {
    assert (a + r)[|a|..] == r && (a + s)[|a|..] == s;
  }

  lemma SplitAt(a: seq<byte>, b: seq<byte>, r: seq<byte>, s: seq<byte>)
    requires |a| == |b| && a + r == b + s
    ensures a == b && r == s
  {
    assert (a + r)[..|a|] == a && (b + s)[..|b|] == b;
    Cancel(a, r, s);
  }

  lemma FieldPrefix(name: string, v: seq<byte>, w: seq<byte>, r: seq<byte>, s: seq<byte>)
    requires Field(name, v) + r == Field(name, w) + s
    ensures v == w && r == s
  {
    var head := Bytes(name);
    hide Bytes, Count;
    var vr, ws := v + ([NEWLINE] + r), w + ([NEWLINE] + s);
    assert Field(name, v) + r == (head + [COLON]) + (Count(|v|) + ([COLON] + vr));
    assert Field(name, w) + s == (head + [COLON]) + (Count(|w|) + ([COLON] + ws));
    Cancel(head + [COLON], Count(|v|) + ([COLON] + vr), Count(|w|) + ([COLON] + ws));
    assert !Digits([COLON]) by { assert [COLON][0] == COLON; }
    CountPrefix(|v|, |w|, COLON, vr, ws);
    SplitAt(v, w, [NEWLINE] + r, [NEWLINE] + s);
    Cancel([NEWLINE], r, s);
  }

  lemma {:induction false} ItemsPrefix(x: seq<string>, y: seq<string>, r: seq<byte>, s: seq<byte>)
    requires |x| == |y| && Items(x) + r == Items(y) + s
    ensures x == y && r == s
  {
    hide Field, Bytes;
    if x == [] {
      assert r == Items(x) + r && s == Items(y) + s;
    } else {
      assert Items(x) + r == Field("item", Bytes(x[0])) + (Items(x[1..]) + r);
      assert Items(y) + s == Field("item", Bytes(y[0])) + (Items(y[1..]) + s);
      FieldPrefix("item", Bytes(x[0]), Bytes(y[0]), Items(x[1..]) + r, Items(y[1..]) + s);
      BytesInjective(x[0], y[0]);
      ItemsPrefix(x[1..], y[1..], r, s);
      assert x == [x[0]] + x[1..] && y == [y[0]] + y[1..];
    }
  }

  lemma ListPrefix(name: string, x: seq<string>, y: seq<string>, r: seq<byte>, s: seq<byte>)
    requires List(name, x) + r == List(name, y) + s
    ensures x == y && r == s
  {
    var head := Bytes(name);
    hide Bytes, Count, Items;
    assert List(name, x) + r == (head + [COLON]) + (Count(|x|) + ([NEWLINE] + (Items(x) + r)));
    assert List(name, y) + s == (head + [COLON]) + (Count(|y|) + ([NEWLINE] + (Items(y) + s)));
    Cancel(head + [COLON], Count(|x|) + ([NEWLINE] + (Items(x) + r)), Count(|y|) + ([NEWLINE] + (Items(y) + s)));
    assert !Digits([NEWLINE]) by { assert [NEWLINE][0] == NEWLINE; }
    CountPrefix(|x|, |y|, NEWLINE, Items(x) + r, Items(y) + s);
    ItemsPrefix(x, y, r, s);
  }

  /** Two bodies feed the same bytes exactly when their role prompts are equal
      and they grant the same tools and the same skills. */
  lemma ContentStreamIff(a: Body, b: Body)
    ensures ContentStream(a) == ContentStream(b)
       <==> a.rolePrompt == b.rolePrompt && Names(a.tools) == Names(b.tools) && Names(a.skills) == Names(b.skills)
  {
    NormalListIffNames(a.tools, b.tools);
    NormalListIffNames(a.skills, b.skills);
    if ContentStream(a) == ContentStream(b) {
      Cancel(Bytes("agent_template/v1\n"), Fields(Normalized(a)), Fields(Normalized(b)));
      FieldsSeparate(Normalized(a), Normalized(b));
    }
  }

  lemma FieldsSeparate(m: Body, n: Body)
    requires Fields(m) == Fields(n)
    ensures m == n
  {
    hide Bytes, Field, List;
    var mt, nt := List("tools", m.tools) + List("skills", m.skills), List("tools", n.tools) + List("skills", n.skills);
    FieldPrefix("role_prompt", Bytes(m.rolePrompt), Bytes(n.rolePrompt), mt, nt);
    BytesInjective(m.rolePrompt, n.rolePrompt);
    ListPrefix("tools", m.tools, n.tools, List("skills", m.skills), List("skills", n.skills));
    assert List("skills", m.skills) + [] == List("skills", n.skills) + [];
    ListPrefix("skills", m.skills, n.skills, [], []);
  }

  lemma {:induction false} AgentTextsCount(agents: seq<Uuid>, u: Uuid)
    ensures multiset(AgentTexts(agents))[UuidText(u)] == multiset(agents)[u]
  {
    if agents != [] {
      AgentTextsCount(agents[1..], u);
      if UuidText(agents[0]) == UuidText(u) { UuidTextInjective(agents[0], u); }
      hide UuidText;
      assert agents == [agents[0]] + agents[1..];
      assert multiset(AgentTexts(agents)) == multiset{UuidText(agents[0])} + multiset(AgentTexts(agents[1..]));
    }
  }

  lemma {:induction false} AgentTextsMember(agents: seq<Uuid>, t: string)
    requires t in AgentTexts(agents)
    ensures exists u :: u in agents && UuidText(u) == t
  {
    hide UuidText;
    if t == UuidText(agents[0]) {
      assert agents[0] in agents;
    } else {
      AgentTextsMember(agents[1..], t);
      var u :| u in agents[1..] && UuidText(u) == t;
      assert u in agents;
    }
  }

  lemma AgentTextsMultiset(a: seq<Uuid>, b: seq<Uuid>)
    requires multiset(a) == multiset(b)
    ensures multiset(AgentTexts(a)) == multiset(AgentTexts(b))
  {
    var x, y := multiset(AgentTexts(a)), multiset(AgentTexts(b));
    hide UuidText, AgentTexts;
    forall t ensures x[t] == y[t] {
      if t in AgentTexts(a) {
        AgentTextsMember(a, t);
        var u :| u in a && UuidText(u) == t;
        AgentTextsCount(a, u);
        AgentTextsCount(b, u);
      } else if t in AgentTexts(b) {
        AgentTextsMember(b, t);
        var u :| u in b && UuidText(u) == t;
        AgentTextsCount(a, u);
        AgentTextsCount(b, u);
      }
    }
  }

  /** The stream of the dependent set is the same exactly when the same agents
      depend on the template, counted. */
  lemma DependentStreamIff(a: seq<Uuid>, b: seq<Uuid>)
    ensures DependentStream(a) == DependentStream(b) <==> multiset(a) == multiset(b)
  {
    var version, x, y := Bytes("agent_template_dependents/v1\n"), AgentTexts(a), AgentTexts(b);
    hide Bytes, List, UuidText, AgentTexts;
    SortIffSameMultiset(x, y);
    if DependentStream(a) == DependentStream(b) {
      Cancel(version, List("agents", Sort(x)), List("agents", Sort(y)));
      assert List("agents", Sort(x)) + [] == List("agents", Sort(y)) + [];
      ListPrefix("agents", Sort(x), Sort(y), [], []);
      forall u ensures multiset(a)[u] == multiset(b)[u] {
        AgentTextsCount(a, u);
        AgentTextsCount(b, u);
      }
    }
    if multiset(a) == multiset(b) {
      AgentTextsMultiset(a, b);
    }
  }

  // ------------------------------------------------------ edit permissions

  datatype PermissionKind = AgentTemplateUpdate | AgentManage

  /** `required_permissions_for_change`. */
  function RequiredPermissions(current: Body, next: Body): seq<PermissionKind> {
    var a, b := Normalized(current), Normalized(next);
    (if a != b then [AgentTemplateUpdate] else [])
    + (if a.tools != b.tools || a.skills != b.skills then [AgentManage] else [])
  }

  /** An edit needs no permission exactly when it would not change the content
      hash input, and `AgentManage` exactly when it changes what is granted. */
  lemma RequiredPermissionsIff(current: Body, next: Body)
    ensures RequiredPermissions(current, next) == [] <==> ContentStream(current) == ContentStream(next)
    ensures AgentManage in RequiredPermissions(current, next)
       <==> Names(current.tools) != Names(next.tools) || Names(current.skills) != Names(next.skills)
    ensures AgentTemplateUpdate in RequiredPermissions(current, next) <==> RequiredPermissions(current, next) != []
  {
    hide ContentStream;
    ContentStreamIff(current, next);
    NormalListIffNames(current.tools, next.tools);
    NormalListIffNames(current.skills, next.skills);
  }

  /** The digest of a stored, normalised body is the digest it was created with. */
  lemma StoredHashVerifies(digest: seq<byte> -> seq<byte>, b: Body)
    ensures ContentHashOf(digest, Normalized(b)) == ContentHashOf(digest, b)
  {
    NormalizedIdempotent(b);
  }
}
