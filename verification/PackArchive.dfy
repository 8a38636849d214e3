/** `ConnectorPackArchiveBuilder.build`: one archive whose sections address every entry's bytes. */
module PackArchive {
  import opened Basics
  import opened Sequences
  import opened ByteStrings
  import opened FramedDigests
  import opened PackDigests

  datatype Content = Content(
    kind: Text, uri: Text, name: Text, mediaType: Text,
    body: Bytes, inputSchema: Option<Bytes>, outputSchema: Option<Bytes>,
    annotations: Annotations, references: Refs)

  const MCP_SERVER: Text := Ascii("mcp_server")

  datatype Archive = Archive(data: Bytes, server: Entry, entries: seq<Entry>)

  datatype BuildResult = Built(archive: Archive) | ServerKind | EntryKind | RepeatedUri | ServerUriRepeated

  predicate ContentLe(a: Content, b: Content) { LexLe(a.uri, b.uri) }

  // ------------------------------------------------------------------- what is wrong

  predicate AnyServer(entries: seq<Content>)
  {
    exists e :: e in entries && e.kind == MCP_SERVER
  }

  function Uris(entries: seq<Content>): (r: seq<Text>)
    ensures |r| == |entries| && forall i :: 0 <= i < |r| ==> r[i] == entries[i].uri
  {
    if entries == [] then [] else Uris(entries[..|entries| - 1]) + [entries[|entries| - 1].uri]
  }

  // ------------------------------------------------------- laying the sections out

  function Optional(value: Option<Bytes>): Bytes { if value.Some? then value.value else [] }

  function SectionAt(h: Hash, value: Bytes, offset: nat): Section { Section(offset, |value|, h(value)) }

  function OptionalAt(h: Hash, value: Option<Bytes>, offset: nat): Option<Section>
  {
    if value.Some? then Some(SectionAt(h, value.value, offset)) else None
  }

  /** The bytes of one entry: body, then input schema, then output schema. */
  function Payload(c: Content): Bytes { c.body + Optional(c.inputSchema) + Optional(c.outputSchema) }

  /** The bytes of the first `n` entries. */
  function Payloads(cs: seq<Content>, n: nat): Bytes
    requires n <= |cs|
  {
    if n == 0 then [] else Payloads(cs, n - 1) + Payload(cs[n - 1])
  }

  function Lay(h: Hash, c: Content, offset: nat): Entry
  {
    Entry(c.kind, c.uri, c.name, c.mediaType,
          SectionAt(h, c.body, offset),
          OptionalAt(h, c.inputSchema, offset + |c.body|),
          OptionalAt(h, c.outputSchema, offset + |c.body| + |Optional(c.inputSchema)|),
          c.annotations, c.references)
  }

  function LayAll(h: Hash, cs: seq<Content>, offset: nat, n: nat): (r: seq<Entry>)
    requires n <= |cs|
    ensures |r| == n
  {
    if n == 0 then [] else LayAll(h, cs, offset, n - 1) + [Lay(h, cs[n - 1], offset + |Payloads(cs, n - 1)|)]
  }

  function Assemble(h: Hash, server: Content, ordered: seq<Content>): Archive
  {
    Archive(Payload(server) + Payloads(ordered, |ordered|), Lay(h, server, 0),
            LayAll(h, ordered, |Payload(server)|, |ordered|))
  }

  function Slice(data: Bytes, s: Section): Bytes
    requires s.offset + s.length <= |data|
  {
    data[s.offset..s.offset + s.length]
  }

  predicate Inside(data: Bytes, s: Section) { s.offset + s.length <= |data| }

  /** The section's digest is that of the bytes it addresses. */
  predicate Sealed(h: Hash, data: Bytes, s: Section) { Inside(data, s) && s.sha256 == h(Slice(data, s)) }

  class Builder {
    var data: Bytes

    constructor ()
      ensures data == []
    {
      data := [];
    }

    method Place(h: Hash, value: Option<Bytes>) returns (section: Option<Section>)
      modifies this
      ensures data == old(data) + Optional(value)
      ensures section == OptionalAt(h, value, |old(data)|)
      ensures section.Some? ==> Sealed(h, data, section.value) && Slice(data, section.value) == value.value
    {
      if value.None? {
        return None;
      }
      section := Some(Section(|data|, |value.value|, h(value.value)));
      data := data + value.value;
      assert data[|old(data)|..|old(data)| + |value.value|] == value.value;
    }

    method Materialize(h: Hash, c: Content) returns (e: Entry)
      modifies this
      ensures data == old(data) + Payload(c)
      ensures e == Lay(h, c, |old(data)|)
    {
      var body := Place(h, Some(c.body));
      var inputSchema := Place(h, c.inputSchema);
      var outputSchema := Place(h, c.outputSchema);
      e := Entry(c.kind, c.uri, c.name, c.mediaType, body.value, inputSchema, outputSchema, c.annotations,
                 c.references);
    }

    method MaterializeAll(h: Hash, cs: seq<Content>) returns (built: seq<Entry>)
      modifies this
      ensures data == old(data) + Payloads(cs, |cs|)
      ensures built == LayAll(h, cs, |old(data)|, |cs|)
    {
      built := [];
      assert data + [] == data;
      for i := 0 to |cs|
        invariant data == old(data) + Payloads(cs, i)
        invariant built == LayAll(h, cs, |old(data)|, i)
      {
        var e := Materialize(h, cs[i]);
        Associate(old(data), Payloads(cs, i), Payload(cs[i]));
        built := built + [e];
      }
    }
  }

  lemma Associate<T>(a: seq<T>, b: seq<T>, c: seq<T>)
    ensures (a + b) + c == a + (b + c)
  {
  }

  method Materialized(h: Hash, server: Content, ordered: seq<Content>) returns (archive: Archive)
    ensures archive == Assemble(h, server, ordered)
  {
    var builder := new Builder();
    var builtServer := builder.Materialize(h, server);
    var built := builder.MaterializeAll(h, ordered);
    assert [] + Payload(server) == Payload(server);
    archive := Archive(builder.data, builtServer, built);
  }

  /** `build` */
  method Build(h: Hash, server: Content, entries: seq<Content>) returns (res: BuildResult)
    ensures res == BuildResultOf(h, server, entries)
  {
    if server.kind != MCP_SERVER {
      return ServerKind;
    }
    if AnyServer(entries) {
      return EntryKind;
    }
    var ordered := SortBy(entries, ContentLe);
    var uris := Uris(ordered);
    var uriSet := Elements(uris);
    SortedContents(entries);
    if |uriSet| != |uris| {
      return RepeatedUri;
    }
    if server.uri in uriSet {
      return ServerUriRepeated;
    }
    var archive := Materialized(h, server, ordered);
    res := Built(archive);
  }

  /** The four refusals, in the order they are made, and otherwise the archive of the sorted entries. */
  ghost function BuildResultOf(h: Hash, server: Content, entries: seq<Content>): BuildResult
  {
    if server.kind != MCP_SERVER then ServerKind
    else if exists e :: e in entries && e.kind == MCP_SERVER then EntryKind
    else if !Distinct(Uris(entries)) then RepeatedUri
    else if server.uri in Uris(entries) then ServerUriRepeated
    else Built(Assemble(h, server, SortBy(entries, ContentLe)))
  }

  lemma ContentOrder()
    ensures TotalPreorder(ContentLe)
  {
    forall a, b ensures ContentLe(a, b) || ContentLe(b, a) { LexTotal(a.uri, b.uri); }
    forall a, b, c | ContentLe(a, b) && ContentLe(b, c) ensures ContentLe(a, c) { LexTransitive(a.uri, b.uri, c.uri); }
  }

  lemma SortedContents(entries: seq<Content>)
    ensures var ordered := SortBy(entries, ContentLe);
      && SortedBy(ordered, ContentLe) && multiset(ordered) == multiset(entries)
      && (forall e :: e in ordered <==> e in entries)
      && Elements(Uris(ordered)) == Elements(Uris(entries))
      && (|Elements(Uris(ordered))| == |ordered| <==> Distinct(Uris(entries)))
  {
    ContentOrder();
    SortByIs(entries, ContentLe);
    forall e ensures e in SortBy(entries, ContentLe) <==> e in entries {
      SortByMember(entries, ContentLe, e);
    }
    SameUris(SortBy(entries, ContentLe), entries);
    ElementsCount(Uris(entries));
  }

  lemma SameUris(entries: seq<Content>, other: seq<Content>)
    requires multiset(entries) == multiset(other) && forall e :: e in entries <==> e in other
    ensures |entries| == |other| && Elements(Uris(entries)) == Elements(Uris(other))
  {
    assert |entries| == |multiset(entries)| && |other| == |multiset(other)|;
    UrisWithin(entries, other);
    UrisWithin(other, entries);
  }

  lemma UrisWithin(entries: seq<Content>, other: seq<Content>)
    requires forall e :: e in entries ==> e in other
    ensures Elements(Uris(entries)) <= Elements(Uris(other))
  {
    forall u | u in Uris(entries) ensures u in Uris(other) {
      var i :| 0 <= i < |entries| && Uris(entries)[i] == u;
      assert entries[i] in other;
      var j :| 0 <= j < |other| && other[j] == entries[i];
      assert Uris(other)[j] == u;
    }
  }

  // ------------------------------------------------------------------- reading it back

  predicate EntryInside(data: Bytes, e: Entry)
  {
    Inside(data, e.body) && (e.inputSchema.Some? ==> Inside(data, e.inputSchema.value))
    && (e.outputSchema.Some? ==> Inside(data, e.outputSchema.value))
  }

  function OptionalSlice(data: Bytes, s: Option<Section>): Option<Bytes>
    requires s.Some? ==> Inside(data, s.value)
  {
    if s.Some? then Some(Slice(data, s.value)) else None
  }

  /** The content an entry of the index stands for, read from the archive by its sections. */
  function Extract(data: Bytes, e: Entry): Content
    requires EntryInside(data, e)
  {
    Content(e.kind, e.uri, e.name, e.mediaType, Slice(data, e.body), OptionalSlice(data, e.inputSchema),
            OptionalSlice(data, e.outputSchema), e.annotations, e.references)
  }

  lemma SliceMiddle<T>(before: seq<T>, value: seq<T>, after: seq<T>)
    ensures (before + value + after)[|before|..|before| + |value|] == value
  {
  }

  lemma ThreeSlices<T>(before: seq<T>, x: seq<T>, y: seq<T>, z: seq<T>, after: seq<T>)
    ensures var data, n := before + (x + y + z) + after, |before|;
      && data[n..n + |x|] == x && data[n + |x|..n + |x| + |y|] == y
      && data[n + |x| + |y|..n + |x| + |y| + |z|] == z
  {
    var data := before + (x + y + z) + after;
    SliceMiddle(before, x, y + z + after);
    SliceMiddle(before + x, y, z + after);
    SliceMiddle(before + x + y, z, after);
    assert data == before + x + (y + z + after) == (before + x) + y + (z + after) == (before + x + y) + z + after;
  }

  /** Body and schemas carry the digests of the bytes they address. */
  predicate EntrySealed(h: Hash, data: Bytes, e: Entry)
  {
    && Sealed(h, data, e.body) && (e.inputSchema.Some? ==> Sealed(h, data, e.inputSchema.value))
    && (e.outputSchema.Some? ==> Sealed(h, data, e.outputSchema.value))
  }

  lemma LayInverts(h: Hash, c: Content, before: Bytes, after: Bytes)
    ensures var data := before + Payload(c) + after;
      && EntryInside(data, Lay(h, c, |before|)) && Extract(data, Lay(h, c, |before|)) == c
      && EntrySealed(h, data, Lay(h, c, |before|))
  {
    ThreeSlices(before, c.body, Optional(c.inputSchema), Optional(c.outputSchema), after);
  }

  lemma {:induction false} PayloadsSplit(cs: seq<Content>, i: nat, n: nat) returns (after: Bytes)
    requires i < n <= |cs|
    ensures Payloads(cs, n) == Payloads(cs, i) + Payload(cs[i]) + after
  {
    if i == n - 1 {
      after := [];
      assert Payloads(cs, n) + [] == Payloads(cs, n);
    } else {
      var between := PayloadsSplit(cs, i, n - 1);
      after := between + Payload(cs[n - 1]);
      Associate(Payloads(cs, i) + Payload(cs[i]), between, Payload(cs[n - 1]));
    }
  }

  lemma {:induction false} LayAllAt(h: Hash, cs: seq<Content>, offset: nat, n: nat, i: nat)
    requires i < n <= |cs|
    ensures LayAll(h, cs, offset, n)[i] == Lay(h, cs[i], offset + |Payloads(cs, i)|)
  {
    if i < n - 1 { LayAllAt(h, cs, offset, n - 1, i); }
  }

  /** Reading the server entry back through its sections returns its content, and its digests are right. */
  lemma ServerRoundTrip(h: Hash, server: Content, ordered: seq<Content>)
    ensures var a := Assemble(h, server, ordered);
      EntryInside(a.data, a.server) && Extract(a.data, a.server) == server && EntrySealed(h, a.data, a.server)
  {
    LayInverts(h, server, [], Payloads(ordered, |ordered|));
    assert [] + Payload(server) == Payload(server);
  }

  /** What lies before and after the payload of one entry. */
  lemma ArchiveSplit(server: Content, ordered: seq<Content>, i: nat) returns (before: Bytes, after: Bytes)
    requires i < |ordered|
    ensures |before| == |Payload(server)| + |Payloads(ordered, i)|
    ensures Payload(server) + Payloads(ordered, |ordered|) == before + Payload(ordered[i]) + after
  {
    var s := Payload(server);
    before := s + Payloads(ordered, i);
    after := PayloadsSplit(ordered, i, |ordered|);
    Associate(s, Payloads(ordered, i), Payload(ordered[i]));
    Associate(s, Payloads(ordered, i) + Payload(ordered[i]), after);
  }

  /** An entry laid where its payload lies in `data` reads back as its content. */
  lemma LaidReadsBack(h: Hash, c: Content, e: Entry, data: Bytes, before: Bytes, after: Bytes)
    requires e == Lay(h, c, |before|) && data == before + Payload(c) + after
    ensures EntryInside(data, e) && Extract(data, e) == c && EntrySealed(h, data, e)
  {
    LayInverts(h, c, before, after);
  }

  /** Reading every entry back through its sections returns the contents the archive was built from, and every
      section carries the digest of the bytes it addresses. */
  lemma ArchiveRoundTrip(h: Hash, server: Content, ordered: seq<Content>, i: nat)
    requires i < |ordered|
    ensures var a := Assemble(h, server, ordered);
      && EntryInside(a.data, a.entries[i]) && Extract(a.data, a.entries[i]) == ordered[i]
      && EntrySealed(h, a.data, a.entries[i])
  {
    var a := Assemble(h, server, ordered);
    var before, after := ArchiveSplit(server, ordered, i);
    LayAllAt(h, ordered, |Payload(server)|, |ordered|, i);
    LaidReadsBack(h, ordered[i], a.entries[i], a.data, before, after);
  }

  // ------------------------------------------------------- no gap, no overlap, no order

  /** An optional section that, if there is one, starts at `start`; the result is where it ends. */
  predicate Starts(s: Option<Section>, start: nat) { s.Some? ==> s.value.offset == start }

  function End(s: Option<Section>, start: nat): nat { if s.Some? then start + s.value.length else start }

  /** The sections of an entry cover the archive from `start` to `end`, in order, without gap or overlap. */
  predicate Spans(e: Entry, start: nat, end: nat)
  {
    var second := start + e.body.length;
    var third := End(e.inputSchema, second);
    && e.body.offset == start && Starts(e.inputSchema, second) && Starts(e.outputSchema, third)
    && end == End(e.outputSchema, third)
  }

  /** Each of the first `n` entries starts where the one before it ends. */
  predicate SpansAll(es: seq<Entry>, n: nat, start: nat, end: nat)
    requires n <= |es|
  {
    if n == 0 then start == end
    else SpansAll(es, n - 1, start, es[n - 1].body.offset) && Spans(es[n - 1], es[n - 1].body.offset, end)
  }

  lemma LaySpans(h: Hash, c: Content, offset: nat)
    ensures Spans(Lay(h, c, offset), offset, offset + |Payload(c)|)
  {
    assert |Payload(c)| == |c.body| + |Optional(c.inputSchema)| + |Optional(c.outputSchema)|;
  }

  /** Entry `i` of `es` covers the bytes of content `i`. */
  ghost predicate Covers(es: seq<Entry>, cs: seq<Content>, offset: nat, i: nat)
    requires i < |es| == |cs|
  {
    es[i].body.offset == offset + |Payloads(cs, i)| && Spans(es[i], es[i].body.offset, offset + |Payloads(cs, i + 1)|)
  }

  lemma {:induction false} CoverAll(es: seq<Entry>, cs: seq<Content>, offset: nat, n: nat)
    requires n <= |es| == |cs| && forall i: nat :: i < |es| ==> Covers(es, cs, offset, i)
    ensures SpansAll(es, n, offset, offset + |Payloads(cs, n)|)
  {
    if n > 0 {
      CoverAll(es, cs, offset, n - 1);
      assert Covers(es, cs, offset, n - 1);
    }
  }

  lemma LaidSpans(h: Hash, cs: seq<Content>, offset: nat, i: nat)
    requires i < |cs|
    ensures Covers(LayAll(h, cs, offset, |cs|), cs, offset, i)
  {
    LayAllAt(h, cs, offset, |cs|, i);
    LaySpans(h, cs[i], offset + |Payloads(cs, i)|);
  }

  /** The sections of the server and then of the entries cover the archive end to end. */
  lemma ArchiveSpans(h: Hash, server: Content, ordered: seq<Content>)
    ensures var a := Assemble(h, server, ordered);
      Spans(a.server, 0, |Payload(server)|) && SpansAll(a.entries, |ordered|, |Payload(server)|, |a.data|)
  {
    LaySpans(h, server, 0);
    var start := |Payload(server)|;
    forall i: nat | i < |ordered| ensures Covers(LayAll(h, ordered, start, |ordered|), ordered, start, i) {
      LaidSpans(h, ordered, start, i);
    }
    CoverAll(LayAll(h, ordered, start, |ordered|), ordered, start, |ordered|);
  }

  /** The order in which entries are given changes neither the archive nor the refusal. */
  lemma BuildOrderIrrelevant(h: Hash, server: Content, entries: seq<Content>, other: seq<Content>)
    requires multiset(entries) == multiset(other)
    ensures BuildResultOf(h, server, entries) == BuildResultOf(h, server, other)
  {
    SameRefusals(entries, other);
    assert server.uri in Elements(Uris(entries)) <==> server.uri in Elements(Uris(other));
    if Distinct(Uris(entries)) { SameOrder(entries, other); }
  }

  lemma SameRefusals(entries: seq<Content>, other: seq<Content>)
    requires multiset(entries) == multiset(other)
    ensures AnyServer(entries) == AnyServer(other) && Elements(Uris(entries)) == Elements(Uris(other))
    ensures Distinct(Uris(entries)) <==> Distinct(Uris(other))
  {
    SameMembers(entries, other);
    SameUris(entries, other);
    ElementsCount(Uris(entries));
    ElementsCount(Uris(other));
  }

  lemma SameMembers(entries: seq<Content>, other: seq<Content>)
    requires multiset(entries) == multiset(other)
    ensures forall e :: e in entries <==> e in other
  {
    forall e ensures e in entries <==> e in other {
      assert e in multiset(entries) <==> e in entries;
      assert e in multiset(other) <==> e in other;
    }
  }

  lemma SameOrder(entries: seq<Content>, other: seq<Content>)
    requires multiset(entries) == multiset(other) && Distinct(Uris(entries))
    ensures SortBy(entries, ContentLe) == SortBy(other, ContentLe)
  {
    SortedContents(entries);
    SortedContents(other);
    OneContentPerUri(SortBy(entries, ContentLe), entries);
    SortedUnique(SortBy(entries, ContentLe), SortBy(other, ContentLe), ContentLe);
  }

  lemma OneContentPerUri(ordered: seq<Content>, entries: seq<Content>)
    requires Distinct(Uris(entries)) && multiset(ordered) == multiset(entries)
    ensures forall a, b :: a in ordered && b in ordered && ContentLe(a, b) && ContentLe(b, a) ==> a == b
  {
    forall a, b | a in ordered && b in ordered && ContentLe(a, b) && ContentLe(b, a) ensures a == b {
      LexAntisymmetric(a.uri, b.uri);
      assert a in multiset(entries) && b in multiset(entries);
      var i :| 0 <= i < |entries| && entries[i] == a;
      var j :| 0 <= j < |entries| && entries[j] == b;
      assert Uris(entries)[i] == Uris(entries)[j];
    }
  }
}
