/** What a reader finds in the strings that are hashed: lengths most significant byte first, and the fields of each
    digest in the order in which the engine's `connector_pack/digest.rs` reads them. */
module FrameLayout {
  import opened Basics
  import opened Sequences
  import opened ByteStrings
  import opened FramedDigests
  import opened PackDigests

  // ---------------------------------------------------------------- reading a frame

  /** The number a big-endian field stands for. */
  function Number(b: Bytes): nat
  {
    if b == [] then 0 else 256 * Number(b[..|b| - 1]) + b[|b| - 1]
  }

  lemma {:induction false} NumberReadsBack(k: nat, v: nat)
    requires v < Pow256(k)
    ensures Number(BigEndian(k, v)) == v
  {
    if k > 0 {
      NumberReadsBack(k - 1, v / 256);
      assert BigEndian(k, v)[..k - 1] == BigEndian(k - 1, v / 256);
    }
  }

  /** A field behind its length in `k` bytes, and what follows. */
  function ReadSized(k: nat, b: Bytes): Option<(Bytes, Bytes)>
  {
    if |b| < k || |b| - k < Number(b[..k]) then None
    else Some((b[k..k + Number(b[..k])], b[k + Number(b[..k])..]))
  }

  function ReadFields(b: Bytes, count: nat): Option<seq<Bytes>>
  {
    if count == 0 then (if b == [] then Some([]) else None)
    else
      var first := ReadSized(8, b);
      if first.None? then None
      else
        var rest := ReadFields(first.value.1, count - 1);
        if rest.None? then None else Some([first.value.0] + rest.value)
  }

  /** The domain and the fields of a frame. */
  function ReadFrame(b: Bytes): Option<(Bytes, seq<Bytes>)>
  {
    var magic := Ascii("eg/framed-sha256/v1\0");
    if !(magic <= b) then None
    else
      var domain := ReadSized(4, b[|magic|..]);
      if domain.None? || |domain.value.1| < 4 then None
      else
        var fields := ReadFields(domain.value.1[4..], Number(domain.value.1[..4]));
        if fields.None? then None else Some((domain.value.0, fields.value))
  }

  lemma SizedReadsBack(k: nat, value: Bytes, rest: Bytes)
    requires |value| < Pow256(k)
    ensures ReadSized(k, BigEndian(k, |value|) + value + rest) == Some((value, rest))
  {
    var b := BigEndian(k, |value|) + value + rest;
    assert b[..k] == BigEndian(k, |value|);
    NumberReadsBack(k, |value|);
    assert b[k..k + |value|] == value && b[k + |value|..] == rest;
  }

  lemma {:induction false} FieldsReadBack(fields: seq<Text>)
    ensures ReadFields(Fields(fields), |fields|) == Some(fields)
  {
    if fields != [] {
      PowLimits();
      SizedReadsBack(8, fields[0], Fields(fields[1..]));
      FieldsReadBack(fields[1..]);
      assert fields == [fields[0]] + fields[1..];
    }
  }

  /** A frame is read back as its domain and its fields, in order. */
  lemma FrameReadsBack(domain: Text, fields: seq<Text>)
    requires |domain| < LIMIT_32 && |fields| < LIMIT_32
    ensures ReadFrame(Frame(domain, fields)) == Some((domain, fields))
  {
    PowLimits();
    var magic := Ascii("eg/framed-sha256/v1\0");
    var rest := BigEndian(4, |fields|) + Fields(fields);
    var b := Frame(domain, fields);
    assert b == magic + (BigEndian(4, |domain|) + domain + rest);
    assert b[|magic|..] == BigEndian(4, |domain|) + domain + rest;
    SizedReadsBack(4, domain, rest);
    assert rest[..4] == BigEndian(4, |fields|) && rest[4..] == Fields(fields);
    NumberReadsBack(4, |fields|);
    FieldsReadBack(fields);
  }

  // ------------------------------------------------------------ the order of the fields

  /** Eight bytes that read as the number; nothing for an absent one; one byte for a tri-state. */
  lemma SingleFields(n: U64)
    ensures Number(U64Field(n)) == n && |U64Field(n)| == 8
    ensures OptionalU64(None) == [] && OptionalU64(Some(n)) == U64Field(n)
    ensures Tri(None) == [0] && Tri(Some(false)) == [1] && Tri(Some(true)) == [2]
  {
    PowLimits();
    NumberReadsBack(8, n);
  }

  function Domains(): (r: seq<Domain>)
    ensures |r| == 11
  {
    [PROVIDES, REQUIRES_CAPABILITIES, MODALITIES_IN, MODALITIES_OUT, REQUIRED_SCOPES, MODEL_FACTS, ANNOTATIONS,
     REFERENCES, ENTRY, CATALOG, PACK]
  }

  /** The domains as the engine spells them, in the order above. */
  function Spelled(): (r: seq<string>)
    ensures |r| == 11
  {
    ["eg/cp-provides/v1", "eg/cp-requires-capabilities/v1", "eg/cp-modalities-in/v1", "eg/cp-modalities-out/v1",
     "eg/cp-required-scopes/v1", "eg/cp-model-facts/v1", "eg/connector-pack-annotations/v2",
     "eg/connector-pack-references/v1", "eg/connector-pack-entry/v1", "eg/mcp-catalog-binding/v1",
     "eg/connector-pack/v2"]
  }

  lemma DomainsAreSpelled(i: nat)
    requires i < 11
    ensures Domains()[i] == Ascii(Spelled()[i])
  {
  }

  lemma DomainsDiffer(i: nat, j: nat)
    requires i < j < 11
    ensures Domains()[i] != Domains()[j]
  {
    var a, b := Spelled()[i], Spelled()[j];
    DomainsAreSpelled(i);
    DomainsAreSpelled(j);
    if |a| == |b| {
      var k: nat :| k < |a| && a[k] as int % 256 != b[k] as int % 256;
      assert Ascii(a)[k] != Ascii(b)[k];
    }
  }

  /** No string hashed for one kind of digest is hashed for another, whatever the fields are. */
  lemma KindsApart(i: nat, f: FieldList, j: nat, g: FieldList)
    requires i < j < 11
    ensures Frame(Domains()[i], f) != Frame(Domains()[j], g)
  {
    DomainsDiffer(i, j);
    if Frame(Domains()[i], f) == Frame(Domains()[j], g) { FrameInjective(Domains()[i], f, Domains()[j], g); }
  }

  lemma Associate3<T>(a: seq<T>, b: seq<T>, c: seq<T>)
    ensures a + (b + c) == a + b + c
  {
  }

  lemma ModelLayout(m: ModelFacts)
    ensures ClientProfile(m) ==
      [m.provider, m.identity, U64Field(m.contextWindow), U64Field(m.maxOutput), Tri(m.tools), Tri(m.structuredOutput),
       Tri(m.vision)]
      + Measured("shell_proficiency", m.shell) + Measured("stopping_behaviour", m.stopping)
  {
    Associate3(ModelHead(m), Measured("shell_proficiency", m.shell), Measured("stopping_behaviour", m.stopping));
    assert ModelTail(m) == Measured("shell_proficiency", m.shell) + Measured("stopping_behaviour", m.stopping);
  }

  /** A measured fact behind its name: its value, then the evaluation it comes from. */
  function Measured(name: string, f: Option<Fact>): (r: seq<Text>)
    requires |name| < 100
    ensures |r| <= 4
  {
    if f.None? then [] else [Ascii(name), f.value.value, f.value.evaluationId, f.value.digest]
  }

  /** Each reference as its URI and then its kind, in the order of both. */
  lemma {:induction false} PairsAt(refs: seq<Ref>, i: nat)
    requires i < |refs|
    ensures Pairs(refs)[2 * i] == refs[i].uri && Pairs(refs)[2 * i + 1] == refs[i].kind
  {
    if i > 0 { PairsAt(refs[1..], i - 1); }
  }

  lemma EntryLayout(h: Hash, p: Profile, e: Entry)
    ensures EntryFields(h, p, e) ==
      [e.kind, e.uri, e.name, e.mediaType, e.body.sha256,
       if e.inputSchema.Some? then e.inputSchema.value.sha256 else [],
       if e.outputSchema.Some? then e.outputSchema.value.sha256 else [],
       h(AnnotationsFrame(h, p, e.annotations)), h(RefsFrame(e.references))]
  {
  }

  lemma CatalogLayout(c: Catalog)
    ensures CatalogFields(c) ==
      [U64Field(c.configurationRevision), U64Field(c.catalogGeneration), c.snapshotDigest,
       U64Field(c.childConnectionGeneration), c.authorizationScopeDigest]
  {
  }

  lemma PackLayout(h: Hash, p: Profile, k: Pack, i: nat)
    requires i < |k.entries|
    ensures PackFields(h, p, k)[..4] ==
      [k.connector, h(CatalogFrame(k.catalog)), h(EntryFrame(h, p, k.server)), U64Field(|k.entries|)]
    ensures |PackFields(h, p, k)| == 4 + |k.entries|
    ensures PackFields(h, p, k)[4 + i] == h(EntryFrame(h, p, Ordered(k.entries)[i]))
  {
    assert PackFields(h, p, k)[..4] == PackHead(h, p, k);
  }

  /** The tool facts, each behind its name and only if there is one. */
  function ToolFacts(a: Annotations): (r: seq<Text>)
    ensures |r| <= 6
  {
    (if a.sideEffects.None? then [] else [Ascii("side_effects"), a.sideEffects.value])
    + (if a.declaredBy.None? then [] else [Ascii("declared_by"), a.declaredBy.value])
    + (if a.schemaTokens.None? then [] else [Ascii("schema_tokens"), BigEndian(4, a.schemaTokens.value)])
  }

  lemma AnnotationsLayout(h: Hash, p: Profile, a: Annotations)
    ensures AnnotationFields(h, p, a) ==
      [h(ListFrame(PROVIDES, a.offers)),
       h(ListFrame(REQUIRES_CAPABILITIES, a.requiresCapabilities)),
       h(ListFrame(MODALITIES_IN, a.modalitiesIn)),
       h(ListFrame(MODALITIES_OUT, a.modalitiesOut)),
       h(ListFrame(REQUIRED_SCOPES, a.requiredScopes))]
      + ([Tri(a.readOnly), Tri(a.destructive), Tri(a.idempotent), Tri(a.openWorld)]
      + ([TextField(a.contractVersion)]
      + ([if a.cost.Some? then a.cost.value.currency else [],
          OptionalU64(if a.cost.Some? then a.cost.value.perCall else None),
          OptionalU64(if a.cost.Some? then a.cost.value.inputPerMtok else None),
          OptionalU64(if a.cost.Some? then a.cost.value.outputPerMtok else None)]
      + ([OptionalU64(if a.latency.Some? then Some(a.latency.value.p50) else None),
          OptionalU64(if a.latency.Some? then Some(a.latency.value.p95) else None)]
      + ([if a.model.Some? then h(ModelFrame(p, a.model.value)) else [], TextField(a.sdkContractPin),
          TextField(a.toolMode)]
      + ToolFacts(a))))))
  {
    assert HarnessFields(a) == ToolFacts(a);
  }
}
