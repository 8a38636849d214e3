/** The canonical digests of `medulla/connector_pack.py`, up to `pack_digest`.  Text stands
    for its UTF-8 bytes and enumerations for their wire tokens; a hexadecimal digest stands
    for its 32 bytes. */
module PackDigests {
  import opened Basics
  import opened Sequences
  import opened ByteStrings
  import opened FramedDigests

  type TextList = s: seq<Text> | |s| <= 64 witness []

  type Domain = d: Text | |d| < LIMIT_32 witness []

  const PROVIDES: Domain := Ascii("eg/cp-provides/v1")
  const REQUIRES_CAPABILITIES: Domain := Ascii("eg/cp-requires-capabilities/v1")
  const MODALITIES_IN: Domain := Ascii("eg/cp-modalities-in/v1")
  const MODALITIES_OUT: Domain := Ascii("eg/cp-modalities-out/v1")
  const REQUIRED_SCOPES: Domain := Ascii("eg/cp-required-scopes/v1")
  const MODEL_FACTS: Domain := Ascii("eg/cp-model-facts/v1")
  const ANNOTATIONS: Domain := Ascii("eg/connector-pack-annotations/v2")
  const REFERENCES: Domain := Ascii("eg/connector-pack-references/v1")
  const ENTRY: Domain := Ascii("eg/connector-pack-entry/v1")
  const CATALOG: Domain := Ascii("eg/mcp-catalog-binding/v1")
  const PACK: Domain := Ascii("eg/connector-pack/v2")

  const SHELL_PROFICIENCY: Text := Ascii("shell_proficiency")
  const STOPPING_BEHAVIOUR: Text := Ascii("stopping_behaviour")
  const INPUT_CAPABILITIES: Text := Ascii("input_capabilities")
  const SIDE_EFFECTS: Text := Ascii("side_effects")
  const DECLARED_BY: Text := Ascii("declared_by")
  const SCHEMA_TOKENS: Text := Ascii("schema_tokens")

  datatype Cost = Cost(currency: Text, perCall: Option<U64>, inputPerMtok: Option<U64>, outputPerMtok: Option<U64>)
  datatype Latency = Latency(p50: U64, p95: U64)
  datatype Fact = Fact(value: Text, evaluationId: Text, digest: Text)
  datatype Capabilities = Capabilities(mediaTypes: TextList, maxAggregateBytes: U64, maxParts: U64)
  datatype ModelFacts = ModelFacts(
    provider: Text, identity: Text, contextWindow: U64, maxOutput: U64,
    tools: Option<bool>, structuredOutput: Option<bool>, vision: Option<bool>,
    shell: Option<Fact>, stopping: Option<Fact>, inputCapabilities: Option<Capabilities>)

  // ---------------------------------------------------------------- single fields

  /** `_text`: absent and empty text are the same field. */
  function TextField(t: Option<Text>): Text { if t.Some? then t.value else [] }

  function U64Field(n: U64): Text { BigEndian(8, n) }

  /** `_optional_u64` */
  function OptionalU64(n: Option<U64>): Text { if n.Some? then U64Field(n.value) else [] }

  /** `_tri` */
  function Tri(b: Option<bool>): Text { if b.None? then [0] else if b.value then [2] else [1] }

  lemma U64Injective(m: U64, n: U64)
    ensures U64Field(m) == U64Field(n) <==> m == n
  {
    PowLimits();
    if U64Field(m) == U64Field(n) { BigEndianInjective(8, m, n); }
  }

  lemma OptionalU64Injective(m: Option<U64>, n: Option<U64>)
    ensures OptionalU64(m) == OptionalU64(n) <==> m == n
  {
    if m.Some? && n.Some? { U64Injective(m.value, n.value); }
  }

  lemma TriInjective(a: Option<bool>, b: Option<bool>)
    ensures Tri(a) == Tri(b) <==> a == b
  {
    if Tri(a) == Tri(b) { assert Tri(a)[0] == Tri(b)[0]; }
  }

  // ---------------------------------------------------------- optional named groups

  /** A group of fields introduced by its name, and absent altogether when there is none. */
  function Named(tag: Text, group: Option<seq<Text>>): seq<Text>
  {
    if group.Some? then [tag] + group.value else []
  }

  /** Named groups can be read back: what follows does not start with the name. */
  lemma NamedInjective(tag: Text, g: Option<seq<Text>>, g': Option<seq<Text>>, rest: seq<Text>, rest': seq<Text>)
    requires g.Some? && g'.Some? ==> |g.value| == |g'.value|
    requires rest != [] ==> rest[0] != tag
    requires rest' != [] ==> rest'[0] != tag
    ensures Named(tag, g) + rest == Named(tag, g') + rest' <==> g == g' && rest == rest'
  {
    var a, b := Named(tag, g), Named(tag, g');
    assert g.Some? ==> (a + rest)[0] == tag;
    assert g'.Some? ==> (b + rest')[0] == tag;
    assert g.None? ==> a + rest == rest;
    assert g'.None? ==> b + rest' == rest';
    if a + rest == b + rest' {
      SameSplit(a, rest, b, rest');
      if g.Some? { assert g.value == a[1..] && g'.value == b[1..]; }
    }
  }

  // ------------------------------------------------------------------ model profiles

  type FieldList = s: seq<Text> | |s| < LIMIT_32 witness []

  /** The fields by which a model profile enters its digest. */
  type Profile = ModelFacts -> FieldList

  function FactGroup(f: Option<Fact>): Option<seq<Text>>
  {
    if f.None? then None else Some([f.value.value, f.value.evaluationId, f.value.digest])
  }

  function ModelHead(m: ModelFacts): seq<Text>
  {
    [m.provider, m.identity, U64Field(m.contextWindow), U64Field(m.maxOutput), Tri(m.tools), Tri(m.structuredOutput),
     Tri(m.vision)]
  }

  function ModelTail(m: ModelFacts): seq<Text>
  {
    Named(SHELL_PROFICIENCY, FactGroup(m.shell)) + Named(STOPPING_BEHAVIOUR, FactGroup(m.stopping))
  }

  /** The fields of `_model_facts_digest`. */
  function ClientProfile(m: ModelFacts): FieldList { ModelHead(m) + ModelTail(m) }

  function CapabilityFields(c: Option<Capabilities>): seq<Text>
  {
    if c.None? then []
    else
      SortByMultiset(c.value.mediaTypes, TextLe);
      [INPUT_CAPABILITIES, U64Field(|c.value.mediaTypes|)] + SortBy(c.value.mediaTypes, TextLe)
      + [U64Field(c.value.maxAggregateBytes), U64Field(c.value.maxParts)]
  }

  /** The fields of the engine's `model_facts_digest`, which go on with the input capabilities. */
  function EngineProfile(m: ModelFacts): FieldList
  {
    CapabilityLength(m.inputCapabilities);
    ClientProfile(m) + CapabilityFields(m.inputCapabilities)
  }

  lemma CapabilityLength(c: Option<Capabilities>)
    ensures c.Some? ==> 4 <= |CapabilityFields(c)| <= 68
  {
    if c.Some? {
      SortByMultiset(c.value.mediaTypes, TextLe);
      assert |multiset(c.value.mediaTypes)| == |c.value.mediaTypes|;
      assert |multiset(SortBy(c.value.mediaTypes, TextLe))| == |SortBy(c.value.mediaTypes, TextLe)|;
    }
  }

  /** The two profiles agree exactly on models that declare no input capabilities. */
  lemma ProfilesAgreeIff(m: ModelFacts)
    ensures ClientProfile(m) == EngineProfile(m) <==> m.inputCapabilities.None?
  {
    CapabilityLength(m.inputCapabilities);
    if m.inputCapabilities.None? { assert ClientProfile(m) + [] == ClientProfile(m); }
  }

  lemma TagsDiffer()
    ensures SHELL_PROFICIENCY != STOPPING_BEHAVIOUR
    ensures SIDE_EFFECTS != DECLARED_BY && SIDE_EFFECTS != SCHEMA_TOKENS
    ensures DECLARED_BY != SCHEMA_TOKENS
  {
  }

  lemma FactGroupInjective(f: Option<Fact>, g: Option<Fact>)
    ensures FactGroup(f) == FactGroup(g) <==> f == g
  {
    if f.Some? && g.Some? && FactGroup(f) == FactGroup(g) {
      var a, b := FactGroup(f).value, FactGroup(g).value;
      assert a[0] == b[0] && a[1] == b[1] && a[2] == b[2];
    }
  }

  /** The client's profile pins every fact but the input capabilities. */
  lemma ClientProfileIff(m: ModelFacts, n: ModelFacts)
    ensures ClientProfile(m) == ClientProfile(n) <==> m.(inputCapabilities := None) == n.(inputCapabilities := None)
  {
    if ClientProfile(m) == ClientProfile(n) {
      SameSplit(ModelHead(m), ModelTail(m), ModelHead(n), ModelTail(n));
      ModelHeadInjective(m, n);
      TagsDiffer();
      NamedInjective(SHELL_PROFICIENCY, FactGroup(m.shell), FactGroup(n.shell),
                     Named(STOPPING_BEHAVIOUR, FactGroup(m.stopping)),
                     Named(STOPPING_BEHAVIOUR, FactGroup(n.stopping)));
      NamedInjective(STOPPING_BEHAVIOUR, FactGroup(m.stopping), FactGroup(n.stopping), [], []);
      assert Named(STOPPING_BEHAVIOUR, FactGroup(m.stopping)) + [] == Named(STOPPING_BEHAVIOUR, FactGroup(m.stopping));
      assert Named(STOPPING_BEHAVIOUR, FactGroup(n.stopping)) + [] == Named(STOPPING_BEHAVIOUR, FactGroup(n.stopping));
      FactGroupInjective(m.shell, n.shell);
      FactGroupInjective(m.stopping, n.stopping);
    }
  }

  lemma ModelHeadInjective(m: ModelFacts, n: ModelFacts)
    requires ModelHead(m) == ModelHead(n)
    ensures m.provider == n.provider && m.identity == n.identity
    ensures m.contextWindow == n.contextWindow && m.maxOutput == n.maxOutput
    ensures m.tools == n.tools && m.structuredOutput == n.structuredOutput && m.vision == n.vision
  {
    var a, b := ModelHead(m), ModelHead(n);
    assert a[0] == b[0] && a[1] == b[1] && a[2] == b[2] && a[3] == b[3] && a[4] == b[4] && a[5] == b[5] && a[6] == b[6];
    U64Injective(m.contextWindow, n.contextWindow);
    U64Injective(m.maxOutput, n.maxOutput);
    TriInjective(m.tools, n.tools);
    TriInjective(m.structuredOutput, n.structuredOutput);
    TriInjective(m.vision, n.vision);
  }

  // ------------------------------------------------------------------- annotations

  datatype Annotations = Annotations(
    offers: TextList, requiresCapabilities: TextList, modalitiesIn: TextList, modalitiesOut: TextList,
    requiredScopes: TextList,
    readOnly: Option<bool>, destructive: Option<bool>, idempotent: Option<bool>, openWorld: Option<bool>,
    contractVersion: Option<Text>, cost: Option<Cost>, latency: Option<Latency>, model: Option<ModelFacts>,
    sdkContractPin: Option<Text>, toolMode: Option<Text>,
    sideEffects: Option<Text>, declaredBy: Option<Text>, schemaTokens: Option<U32>)

  type U32 = n: nat | n < LIMIT_32

  /** The string `_list_digest` hashes: the values as a sorted set. */
  function ListFrame(domain: Domain, values: TextList): Bytes
  {
    SortedSetIs(values);
    Frame(domain, SortedSet(values))
  }

  lemma ListDigestIff(h: Hash, q: set<Bytes>, domain: Domain, v: TextList, w: TextList)
    requires Separates(h, q) && ListFrame(domain, v) in q && ListFrame(domain, w) in q
    ensures ListDigest(h, domain, v) == ListDigest(h, domain, w) <==> Elements(v) == Elements(w)
  {
    SortedSetIs(v);
    SortedSetIs(w);
    FramedInjective(h, q, domain, SortedSet(v), SortedSet(w));
    SortedSetIff(v, w);
  }

  /** `_list_digest` */
  function ListDigest(h: Hash, domain: Domain, values: TextList): Text { h(ListFrame(domain, values)) }

  function ListFields(h: Hash, a: Annotations): (r: seq<Text>)
    ensures |r| == 5
  {
    [ListDigest(h, PROVIDES, a.offers), ListDigest(h, REQUIRES_CAPABILITIES, a.requiresCapabilities),
     ListDigest(h, MODALITIES_IN, a.modalitiesIn), ListDigest(h, MODALITIES_OUT, a.modalitiesOut),
     ListDigest(h, REQUIRED_SCOPES, a.requiredScopes)]
  }

  function HintFields(a: Annotations): (r: seq<Text>)
    ensures |r| == 4
  {
    [Tri(a.readOnly), Tri(a.destructive), Tri(a.idempotent), Tri(a.openWorld)]
  }

  /** An absent cost is a cost that declares nothing. */
  function CostOf(a: Annotations): Cost { if a.cost.Some? then a.cost.value else Cost([], None, None, None) }

  function CostFields(c: Cost): (r: seq<Text>)
    ensures |r| == 4
  {
    [c.currency, OptionalU64(c.perCall), OptionalU64(c.inputPerMtok), OptionalU64(c.outputPerMtok)]
  }

  function LatencyFields(l: Option<Latency>): (r: seq<Text>)
    ensures |r| == 2
  {
    [OptionalU64(if l.Some? then Some(l.value.p50) else None), OptionalU64(if l.Some? then Some(l.value.p95) else None)]
  }

  function ModelFrame(profile: Profile, m: ModelFacts): Bytes { Frame(MODEL_FACTS, profile(m)) }

  function ModelField(h: Hash, profile: Profile, m: Option<ModelFacts>): Text
  {
    if m.Some? then h(ModelFrame(profile, m.value)) else []
  }

  /** `_harness_tool_fact_fields` */
  function HarnessFields(a: Annotations): (r: seq<Text>)
    ensures |r| <= 6
  {
    Named(SIDE_EFFECTS, Single(a.sideEffects))
    + (Named(DECLARED_BY, Single(a.declaredBy))
       + (Named(SCHEMA_TOKENS, if a.schemaTokens.Some? then Some([BigEndian(4, a.schemaTokens.value)]) else None) + []))
  }

  function Single(t: Option<Text>): Option<seq<Text>> { if t.Some? then Some([t.value]) else None }

  function ModelAndToolFields(h: Hash, profile: Profile, a: Annotations): (r: seq<Text>)
    ensures |r| <= 9
  {
    [ModelField(h, profile, a.model), TextField(a.sdkContractPin), TextField(a.toolMode)] + HarnessFields(a)
  }

  function PriceFields(a: Annotations, rest: seq<Text>): (r: seq<Text>)
    ensures |r| == |rest| + 7
  {
    [TextField(a.contractVersion)] + (CostFields(CostOf(a)) + (LatencyFields(a.latency) + rest))
  }

  /** The fields of `_annotations_digest`. */
  function AnnotationFields(h: Hash, profile: Profile, a: Annotations): FieldList
  {
    ListFields(h, a) + (HintFields(a) + PriceFields(a, ModelAndToolFields(h, profile, a)))
  }

  function AnnotationsFrame(h: Hash, profile: Profile, a: Annotations): Bytes
  {
    Frame(ANNOTATIONS, AnnotationFields(h, profile, a))
  }

  /** Every string hashed for `a`. */
  ghost function AnnotationsHashed(h: Hash, profile: Profile, a: Annotations): set<Bytes>
  {
    {ListFrame(PROVIDES, a.offers), ListFrame(REQUIRES_CAPABILITIES, a.requiresCapabilities),
     ListFrame(MODALITIES_IN, a.modalitiesIn), ListFrame(MODALITIES_OUT, a.modalitiesOut),
     ListFrame(REQUIRED_SCOPES, a.requiredScopes), AnnotationsFrame(h, profile, a)}
    + if a.model.Some? then {ModelFrame(profile, a.model.value)} else {}
  }

  ghost predicate SameLists(a: Annotations, b: Annotations)
  {
    && Elements(a.offers) == Elements(b.offers)
    && Elements(a.requiresCapabilities) == Elements(b.requiresCapabilities)
    && Elements(a.modalitiesIn) == Elements(b.modalitiesIn)
    && Elements(a.modalitiesOut) == Elements(b.modalitiesOut)
    && Elements(a.requiredScopes) == Elements(b.requiredScopes)
  }

  predicate SameHints(a: Annotations, b: Annotations)
  {
    && a.readOnly == b.readOnly && a.destructive == b.destructive
    && a.idempotent == b.idempotent && a.openWorld == b.openWorld
  }

  predicate SameTexts(a: Annotations, b: Annotations)
  {
    && TextField(a.contractVersion) == TextField(b.contractVersion)
    && TextField(a.sdkContractPin) == TextField(b.sdkContractPin)
    && TextField(a.toolMode) == TextField(b.toolMode)
  }

  predicate SameModel(p: Profile, m: Option<ModelFacts>, p': Profile, m': Option<ModelFacts>)
  {
    (m.None? && m'.None?) || (m.Some? && m'.Some? && p(m.value) == p'(m'.value))
  }

  /** The normal form of annotations: lists are sets, absent and empty text are one, an
      absent cost declares nothing, a model is what its profile shows. */
  ghost predicate AlikeAnnotations(p: Profile, a: Annotations, p': Profile, b: Annotations)
  {
    && SameLists(a, b) && SameHints(a, b) && SameTexts(a, b) && CostOf(a) == CostOf(b) && a.latency == b.latency
    && SameModel(p, a.model, p', b.model)
    && a.sideEffects == b.sideEffects && a.declaredBy == b.declaredBy && a.schemaTokens == b.schemaTokens
  }

  lemma ListFieldsIff(h: Hash, q: set<Bytes>, p: Profile, a: Annotations, p': Profile, b: Annotations)
    requires Separates(h, q) && AnnotationsHashed(h, p, a) <= q && AnnotationsHashed(h, p', b) <= q
    ensures ListFields(h, a) == ListFields(h, b) <==> SameLists(a, b)
  {
    var x, y := ListFields(h, a), ListFields(h, b);
    assert x == y <==> x[0] == y[0] && x[1] == y[1] && x[2] == y[2] && x[3] == y[3] && x[4] == y[4];
    ListDigestIff(h, q, PROVIDES, a.offers, b.offers);
    ListDigestIff(h, q, REQUIRES_CAPABILITIES, a.requiresCapabilities, b.requiresCapabilities);
    ListDigestIff(h, q, MODALITIES_IN, a.modalitiesIn, b.modalitiesIn);
    ListDigestIff(h, q, MODALITIES_OUT, a.modalitiesOut, b.modalitiesOut);
    ListDigestIff(h, q, REQUIRED_SCOPES, a.requiredScopes, b.requiredScopes);
  }

  lemma HintFieldsIff(a: Annotations, b: Annotations)
    ensures HintFields(a) == HintFields(b) <==> SameHints(a, b)
  {
    var x, y := HintFields(a), HintFields(b);
    assert x == y <==> x[0] == y[0] && x[1] == y[1] && x[2] == y[2] && x[3] == y[3];
    TriInjective(a.readOnly, b.readOnly);
    TriInjective(a.destructive, b.destructive);
    TriInjective(a.idempotent, b.idempotent);
    TriInjective(a.openWorld, b.openWorld);
  }

  lemma CostFieldsIff(c: Cost, d: Cost)
    ensures CostFields(c) == CostFields(d) <==> c == d
  {
    var x, y := CostFields(c), CostFields(d);
    assert x == y <==> x[0] == y[0] && x[1] == y[1] && x[2] == y[2] && x[3] == y[3];
    OptionalU64Injective(c.perCall, d.perCall);
    OptionalU64Injective(c.inputPerMtok, d.inputPerMtok);
    OptionalU64Injective(c.outputPerMtok, d.outputPerMtok);
  }

  lemma LatencyFieldsIff(l: Option<Latency>, m: Option<Latency>)
    ensures LatencyFields(l) == LatencyFields(m) <==> l == m
  {
    var x, y := LatencyFields(l), LatencyFields(m);
    assert x == y <==> x[0] == y[0] && x[1] == y[1];
    OptionalU64Injective(if l.Some? then Some(l.value.p50) else None, if m.Some? then Some(m.value.p50) else None);
    OptionalU64Injective(if l.Some? then Some(l.value.p95) else None, if m.Some? then Some(m.value.p95) else None);
  }

  lemma ModelFieldIff(h: Hash, q: set<Bytes>, p: Profile, m: Option<ModelFacts>, p': Profile, n: Option<ModelFacts>)
    requires Separates(h, q)
    requires m.Some? ==> ModelFrame(p, m.value) in q
    requires n.Some? ==> ModelFrame(p', n.value) in q
    ensures ModelField(h, p, m) == ModelField(h, p', n) <==> SameModel(p, m, p', n)
  {
    if m.Some? && n.Some? {
      FramedInjective(h, q, MODEL_FACTS, p(m.value), p'(n.value));
    }
  }

  lemma HarnessFieldsIff(a: Annotations, b: Annotations)
    ensures HarnessFields(a) == HarnessFields(b) <==>
            a.sideEffects == b.sideEffects && a.declaredBy == b.declaredBy && a.schemaTokens == b.schemaTokens
  {
    TagsDiffer();
    var x := if a.schemaTokens.Some? then Some([BigEndian(4, a.schemaTokens.value)]) else None;
    var y := if b.schemaTokens.Some? then Some([BigEndian(4, b.schemaTokens.value)]) else None;
    var u, v := Named(SCHEMA_TOKENS, x) + [], Named(SCHEMA_TOKENS, y) + [];
    var r, s := Named(DECLARED_BY, Single(a.declaredBy)) + u, Named(DECLARED_BY, Single(b.declaredBy)) + v;
    NamedInjective(SCHEMA_TOKENS, x, y, [], []);
    NamedInjective(DECLARED_BY, Single(a.declaredBy), Single(b.declaredBy), u, v);
    NamedInjective(SIDE_EFFECTS, Single(a.sideEffects), Single(b.sideEffects), r, s);
    SingleInjective(a.declaredBy, b.declaredBy);
    SingleInjective(a.sideEffects, b.sideEffects);
    if x == y && x.Some? {
      PowLimits();
      assert x.value[0] == y.value[0];
      BigEndianInjective(4, a.schemaTokens.value, b.schemaTokens.value);
    }
  }

  lemma SingleInjective(t: Option<Text>, u: Option<Text>)
    ensures Single(t) == Single(u) <==> t == u
  {
    if t.Some? && u.Some? && Single(t) == Single(u) { assert Single(t).value[0] == Single(u).value[0]; }
  }

  lemma AnnotationFieldsSplit(h: Hash, p: Profile, a: Annotations, p': Profile, b: Annotations)
    ensures AnnotationFields(h, p, a) == AnnotationFields(h, p', b) <==>
            && ListFields(h, a) == ListFields(h, b) && HintFields(a) == HintFields(b) && SameTexts(a, b)
            && CostFields(CostOf(a)) == CostFields(CostOf(b)) && LatencyFields(a.latency) == LatencyFields(b.latency)
            && ModelField(h, p, a.model) == ModelField(h, p', b.model) && HarnessFields(a) == HarnessFields(b)
  {
    var m, n := [ModelField(h, p, a.model), TextField(a.sdkContractPin), TextField(a.toolMode)],
                [ModelField(h, p', b.model), TextField(b.sdkContractPin), TextField(b.toolMode)];
    assert m == n <==> m[0] == n[0] && m[1] == n[1] && m[2] == n[2];
    var c, d: seq<Text> := [TextField(a.contractVersion)], [TextField(b.contractVersion)];
    assert c == d <==> c[0] == d[0];
    var a6, b6 := m + HarnessFields(a), n + HarnessFields(b);
    var a5, b5 := LatencyFields(a.latency) + a6, LatencyFields(b.latency) + b6;
    var a4, b4 := CostFields(CostOf(a)) + a5, CostFields(CostOf(b)) + b5;
    var a3, b3 := c + a4, d + b4;
    var a2, b2 := HintFields(a) + a3, HintFields(b) + b3;
    SameSplitIff(m, HarnessFields(a), n, HarnessFields(b));
    SameSplitIff(LatencyFields(a.latency), a6, LatencyFields(b.latency), b6);
    SameSplitIff(CostFields(CostOf(a)), a5, CostFields(CostOf(b)), b5);
    SameSplitIff(c, a4, d, b4);
    SameSplitIff(HintFields(a), a3, HintFields(b), b3);
    SameSplitIff(ListFields(h, a), a2, ListFields(h, b), b2);
  }

  lemma SameSplitIff(a: seq<Text>, b: seq<Text>, c: seq<Text>, d: seq<Text>)
    requires |a| == |c|
    ensures a + b == c + d <==> a == c && b == d
  {
    if a + b == c + d { SameSplit(a, b, c, d); }
  }

  lemma AnnotationsIff(h: Hash, q: set<Bytes>, p: Profile, a: Annotations, p': Profile, b: Annotations)
    requires Separates(h, q) && AnnotationsHashed(h, p, a) <= q && AnnotationsHashed(h, p', b) <= q
    ensures h(AnnotationsFrame(h, p, a)) == h(AnnotationsFrame(h, p', b)) <==> AlikeAnnotations(p, a, p', b)
  {
    FramedInjective(h, q, ANNOTATIONS, AnnotationFields(h, p, a), AnnotationFields(h, p', b));
    AnnotationFieldsSplit(h, p, a, p', b);
    ListFieldsIff(h, q, p, a, p', b);
    HintFieldsIff(a, b);
    CostFieldsIff(CostOf(a), CostOf(b));
    LatencyFieldsIff(a.latency, b.latency);
    ModelFieldIff(h, q, p, a.model, p', b.model);
    HarnessFieldsIff(a, b);
  }

  // -------------------------------------------------------------------- references

  datatype Ref = Ref(uri: Text, kind: Text)
  type Refs = s: seq<Ref> | |s| <= 64 witness []

  /** Tuples compare by URI, then by kind. */
  predicate RefLe(a: Ref, b: Ref)
  {
    if a.uri == b.uri then LexLe(a.kind, b.kind) else LexLe(a.uri, b.uri)
  }

  lemma RefOrder()
    ensures TotalPreorder(RefLe)
    ensures forall a, b :: RefLe(a, b) && RefLe(b, a) ==> a == b
  {
    forall a, b ensures RefLe(a, b) || RefLe(b, a) { LexTotal(a.uri, b.uri); LexTotal(a.kind, b.kind); }
    forall a, b, c | RefLe(a, b) && RefLe(b, c) ensures RefLe(a, c) {
      if a.uri == b.uri == c.uri {
        LexTransitive(a.kind, b.kind, c.kind);
      } else if a.uri != b.uri && b.uri != c.uri {
        LexTransitive(a.uri, b.uri, c.uri);
        if a.uri == c.uri { LexAntisymmetric(a.uri, b.uri); }
      }
    }
    forall a, b | RefLe(a, b) && RefLe(b, a) ensures a == b {
      if a.uri == b.uri { LexAntisymmetric(a.kind, b.kind); } else { LexAntisymmetric(a.uri, b.uri); }
    }
  }

  function Pairs(refs: seq<Ref>): (r: seq<Text>)
    ensures |r| == 2 * |refs|
  {
    if refs == [] then [] else [refs[0].uri, refs[0].kind] + Pairs(refs[1..])
  }

  lemma {:induction false} PairsInjective(r: seq<Ref>, s: seq<Ref>)
    requires Pairs(r) == Pairs(s)
    ensures r == s
  {
    assert |r| == |s|;
    if r != [] {
      var x, y: seq<Text> := [r[0].uri, r[0].kind], [s[0].uri, s[0].kind];
      SameSplit(x, Pairs(r[1..]), y, Pairs(s[1..]));
      assert x[0] == y[0] && x[1] == y[1];
      PairsInjective(r[1..], s[1..]);
      assert r == [r[0]] + r[1..] && s == [s[0]] + s[1..];
    }
  }

  function RefFields(refs: Refs): FieldList
  {
    SortLength(refs, RefLe);
    Pairs(SortBy(refs, RefLe))
  }

  lemma SortLength<T>(s: seq<T>, le: (T, T) -> bool)
    ensures |SortBy(s, le)| == |s|
  {
    SortByMultiset(s, le);
    assert |multiset(s)| == |s| && |multiset(SortBy(s, le))| == |SortBy(s, le)|;
  }

  function RefsFrame(refs: Refs): Bytes { Frame(REFERENCES, RefFields(refs)) }

  /** References are pinned as a multiset: order is not identity, repetition is. */
  lemma RefsIff(h: Hash, q: set<Bytes>, r: Refs, s: Refs)
    requires Separates(h, q) && RefsFrame(r) in q && RefsFrame(s) in q
    ensures h(RefsFrame(r)) == h(RefsFrame(s)) <==> multiset(r) == multiset(s)
  {
    FramedInjective(h, q, REFERENCES, RefFields(r), RefFields(s));
    RefOrder();
    SortByIs(r, RefLe);
    SortByIs(s, RefLe);
    if RefFields(r) == RefFields(s) {
      PairsInjective(SortBy(r, RefLe), SortBy(s, RefLe));
    }
    if multiset(r) == multiset(s) {
      SortedUnique(SortBy(r, RefLe), SortBy(s, RefLe), RefLe);
    }
  }

  // ------------------------------------------------------------- entries and packs

  /** A section of the archive; where it lies is not part of any digest. */
  datatype Section = Section(offset: nat, length: nat, sha256: Digest)

  datatype Entry = Entry(
    kind: Text, uri: Text, name: Text, mediaType: Text,
    body: Section, inputSchema: Option<Section>, outputSchema: Option<Section>,
    annotations: Annotations, references: Refs)

  function SectionField(s: Option<Section>): Text { if s.Some? then s.value.sha256 else [] }

  function AnnotationsField(h: Hash, p: Profile, a: Annotations): Text { h(AnnotationsFrame(h, p, a)) }

  function RefsField(h: Hash, refs: Refs): Text { h(RefsFrame(refs)) }

  function EntryHead(e: Entry): (r: seq<Text>)
    ensures |r| == 7
  {
    [e.kind, e.uri, e.name, e.mediaType, e.body.sha256, SectionField(e.inputSchema), SectionField(e.outputSchema)]
  }

  /** The fields of `_entry_digest`. */
  function EntryFields(h: Hash, p: Profile, e: Entry): (r: seq<Text>)
    ensures |r| == 9
  {
    EntryHead(e) + [AnnotationsField(h, p, e.annotations), RefsField(h, e.references)]
  }

  function EntryFrame(h: Hash, p: Profile, e: Entry): Bytes { Frame(ENTRY, EntryFields(h, p, e)) }

  function EntryDigest(h: Hash, p: Profile, e: Entry): Text { h(EntryFrame(h, p, e)) }

  ghost function EntryHashed(h: Hash, p: Profile, e: Entry): set<Bytes>
  {
    AnnotationsHashed(h, p, e.annotations) + {RefsFrame(e.references), EntryFrame(h, p, e)}
  }

  ghost predicate SameSection(s: Option<Section>, t: Option<Section>)
  {
    (s.None? && t.None?) || (s.Some? && t.Some? && s.value.sha256 == t.value.sha256)
  }

  /** The normal form of an entry: its text, its contents by digest, its annotations in
      normal form, its references as a multiset. */
  ghost predicate AlikeEntry(p: Profile, e: Entry, p': Profile, f: Entry)
  {
    && e.kind == f.kind && e.uri == f.uri && e.name == f.name && e.mediaType == f.mediaType
    && e.body.sha256 == f.body.sha256 && SameSection(e.inputSchema, f.inputSchema)
    && SameSection(e.outputSchema, f.outputSchema)
    && AlikeAnnotations(p, e.annotations, p', f.annotations)
    && multiset(e.references) == multiset(f.references)
  }

  lemma EntryFieldsIff(h: Hash, p: Profile, e: Entry, p': Profile, f: Entry)
    ensures EntryFields(h, p, e) == EntryFields(h, p', f) <==>
            && e.kind == f.kind && e.uri == f.uri && e.name == f.name && e.mediaType == f.mediaType
            && e.body.sha256 == f.body.sha256 && SameSection(e.inputSchema, f.inputSchema)
            && SameSection(e.outputSchema, f.outputSchema)
            && AnnotationsField(h, p, e.annotations) == AnnotationsField(h, p', f.annotations)
            && RefsField(h, e.references) == RefsField(h, f.references)
  {
    var x, y := EntryFields(h, p, e), EntryFields(h, p', f);
    assert x == y <==> x[0] == y[0] && x[1] == y[1] && x[2] == y[2] && x[3] == y[3] && x[4] == y[4]
                       && x[5] == y[5] && x[6] == y[6] && x[7] == y[7] && x[8] == y[8];
    assert SectionField(e.inputSchema) == SectionField(f.inputSchema) <==> SameSection(e.inputSchema, f.inputSchema);
    assert SectionField(e.outputSchema) == SectionField(f.outputSchema) <==>
      SameSection(e.outputSchema, f.outputSchema);
  }

  lemma EntryIff(h: Hash, q: set<Bytes>, p: Profile, e: Entry, p': Profile, f: Entry)
    requires Separates(h, q) && EntryHashed(h, p, e) <= q && EntryHashed(h, p', f) <= q
    ensures EntryDigest(h, p, e) == EntryDigest(h, p', f) <==> AlikeEntry(p, e, p', f)
  {
    FramedInjective(h, q, ENTRY, EntryFields(h, p, e), EntryFields(h, p', f));
    EntryFieldsIff(h, p, e, p', f);
    AnnotationsIff(h, q, p, e.annotations, p', f.annotations);
    RefsIff(h, q, e.references, f.references);
  }

  datatype Catalog = Catalog(
    configurationRevision: U64, catalogGeneration: U64, snapshotDigest: Digest,
    childConnectionGeneration: U64, authorizationScopeDigest: Digest)

  /** The fields of `_catalog_digest`. */
  function CatalogFields(c: Catalog): (r: FieldList)
    ensures |r| == 5
  {
    [U64Field(c.configurationRevision), U64Field(c.catalogGeneration), c.snapshotDigest,
     U64Field(c.childConnectionGeneration), c.authorizationScopeDigest]
  }

  function CatalogFrame(c: Catalog): Bytes { Frame(CATALOG, CatalogFields(c)) }

  function CatalogDigest(h: Hash, c: Catalog): Text { h(CatalogFrame(c)) }

  lemma CatalogIff(h: Hash, q: set<Bytes>, c: Catalog, d: Catalog)
    requires Separates(h, q) && CatalogFrame(c) in q && CatalogFrame(d) in q
    ensures CatalogDigest(h, c) == CatalogDigest(h, d) <==> c == d
  {
    FramedInjective(h, q, CATALOG, CatalogFields(c), CatalogFields(d));
    var x, y := CatalogFields(c), CatalogFields(d);
    assert x == y <==> x[0] == y[0] && x[1] == y[1] && x[2] == y[2] && x[3] == y[3] && x[4] == y[4];
    U64Injective(c.configurationRevision, d.configurationRevision);
    U64Injective(c.catalogGeneration, d.catalogGeneration);
    U64Injective(c.childConnectionGeneration, d.childConnectionGeneration);
  }

  type Entries = s: seq<Entry> | |s| <= 8192 witness []

  datatype Pack = Pack(connector: Text, catalog: Catalog, server: Entry, entries: Entries)

  predicate UriLe(a: Entry, b: Entry) { LexLe(a.uri, b.uri) }

  /** `sorted(entries, key=uri)` */
  function Ordered(entries: Entries): (r: Entries)
    ensures |r| == |entries|
  {
    SortLength(entries, UriLe);
    SortBy(entries, UriLe)
  }

  function EntryDigests(h: Hash, p: Profile, es: seq<Entry>): (r: seq<Text>)
    ensures |r| == |es| && forall i :: 0 <= i < |es| ==> r[i] == EntryDigest(h, p, es[i])
  {
    seq(|es|, i requires 0 <= i < |es| => EntryDigest(h, p, es[i]))
  }

  function PackHead(h: Hash, p: Profile, k: Pack): (r: seq<Text>)
    ensures |r| == 4
  {
    [k.connector, CatalogDigest(h, k.catalog), EntryDigest(h, p, k.server), U64Field(|k.entries|)]
  }

  function PackFields(h: Hash, p: Profile, k: Pack): FieldList
  {
    PackHead(h, p, k) + EntryDigests(h, p, Ordered(k.entries))
  }

  function PackFrame(h: Hash, p: Profile, k: Pack): Bytes { Frame(PACK, PackFields(h, p, k)) }

  /** `pack_digest`, with the model profile it uses as a parameter. */
  function PackDigest(h: Hash, p: Profile, k: Pack): Digest { h(PackFrame(h, p, k)) }

  /** Every string hashed on the way to the digest of a pack is in `q`. */
  ghost predicate Hashed(h: Hash, p: Profile, k: Pack, q: set<Bytes>)
  {
    && PackFrame(h, p, k) in q && CatalogFrame(k.catalog) in q && EntryHashed(h, p, k.server) <= q
    && forall i :: 0 <= i < |k.entries| ==> EntryHashed(h, p, Ordered(k.entries)[i]) <= q
  }

  ghost predicate AlikeEntries(p: Profile, es: seq<Entry>, p': Profile, fs: seq<Entry>)
  {
    |es| == |fs| && forall i :: 0 <= i < |es| ==> AlikeEntry(p, es[i], p', fs[i])
  }

  /** The normal form of a pack: connector and catalog, the server entry and the entries in
      URI order in normal form. */
  ghost predicate AlikePack(p: Profile, k: Pack, p': Profile, l: Pack)
  {
    && k.connector == l.connector && k.catalog == l.catalog && AlikeEntry(p, k.server, p', l.server)
    && AlikeEntries(p, Ordered(k.entries), p', Ordered(l.entries))
  }

  lemma EntryDigestsIff(h: Hash, q: set<Bytes>, p: Profile, es: seq<Entry>, p': Profile, fs: seq<Entry>)
    requires Separates(h, q) && |es| == |fs|
    requires forall i :: 0 <= i < |es| ==> EntryHashed(h, p, es[i]) <= q
    requires forall i :: 0 <= i < |fs| ==> EntryHashed(h, p', fs[i]) <= q
    ensures EntryDigests(h, p, es) == EntryDigests(h, p', fs) <==> AlikeEntries(p, es, p', fs)
  {
    var x, y := EntryDigests(h, p, es), EntryDigests(h, p', fs);
    forall i | 0 <= i < |es| ensures x[i] == y[i] <==> AlikeEntry(p, es[i], p', fs[i]) {
      EntryIff(h, q, p, es[i], p', fs[i]);
    }
  }

  /** Two packs have the same digest exactly when they have the same normal form, unless the
      hash confuses two of the strings it was applied to. */
  lemma PackDigestIff(h: Hash, q: set<Bytes>, p: Profile, k: Pack, p': Profile, l: Pack)
    requires Separates(h, q) && Hashed(h, p, k, q) && Hashed(h, p', l, q)
    ensures PackDigest(h, p, k) == PackDigest(h, p', l) <==> AlikePack(p, k, p', l)
  {
    hide AlikeEntry, EntryHashed, EntryFrame, CatalogFrame, Frame, EntryFields;
    FramedInjective(h, q, PACK, PackFields(h, p, k), PackFields(h, p', l));
    var x, y := PackHead(h, p, k), PackHead(h, p', l);
    SameSplitIff(x, EntryDigests(h, p, Ordered(k.entries)), y, EntryDigests(h, p', Ordered(l.entries)));
    assert x == y <==> x[0] == y[0] && x[1] == y[1] && x[2] == y[2] && x[3] == y[3];
    CatalogIff(h, q, k.catalog, l.catalog);
    EntryIff(h, q, p, k.server, p', l.server);
    U64Injective(|k.entries|, |l.entries|);
    if |k.entries| == |l.entries| {
      EntryDigestsIff(h, q, p, Ordered(k.entries), p', Ordered(l.entries));
    }
  }
}
