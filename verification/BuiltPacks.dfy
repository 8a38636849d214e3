/** What the digest of a pack that `build` made says of the contents it was built from. */
module BuiltPacks {
  import opened Basics
  import opened Sequences
  import opened ByteStrings
  import opened FramedDigests
  import opened PackDigests
  import opened PackIdentity
  import opened PackArchive

  /** Contents that differ in nothing a digest can see: text, body and schemas byte for byte, annotations in normal
      form, references as a multiset. */
  ghost predicate AlikeContent(p: Profile, c: Content, p': Profile, d: Content)
  {
    && c.kind == d.kind && c.uri == d.uri && c.name == d.name && c.mediaType == d.mediaType
    && c.body == d.body && c.inputSchema == d.inputSchema && c.outputSchema == d.outputSchema
    && AlikeAnnotations(p, c.annotations, p', d.annotations) && multiset(c.references) == multiset(d.references)
  }

  ghost predicate AlikeContents(p: Profile, cs: seq<Content>, p': Profile, ds: seq<Content>)
  {
    |cs| == |ds| && forall i :: 0 <= i < |cs| ==> AlikeContent(p, cs[i], p', ds[i])
  }

  /** The strings of a content that are hashed for its sections. */
  ghost predicate Holds(q: set<Bytes>, c: Content)
  {
    && c.body in q && (c.inputSchema.Some? ==> c.inputSchema.value in q)
    && (c.outputSchema.Some? ==> c.outputSchema.value in q)
  }

  lemma LaidAlikeIff(h: Hash, q: set<Bytes>, p: Profile, c: Content, m: nat, p': Profile, d: Content, n: nat)
    requires Separates(h, q) && Holds(q, c) && Holds(q, d)
    ensures AlikeEntry(p, Lay(h, c, m), p', Lay(h, d, n)) <==> AlikeContent(p, c, p', d)
  {
    assert h(c.body) == h(d.body) <==> c.body == d.body;
    SectionIff(h, q, c.inputSchema, m + |c.body|, d.inputSchema, n + |d.body|);
    SectionIff(h, q, c.outputSchema, m + |c.body| + |Optional(c.inputSchema)|, d.outputSchema,
               n + |d.body| + |Optional(d.inputSchema)|);
  }

  lemma SectionIff(h: Hash, q: set<Bytes>, v: Option<Bytes>, m: nat, w: Option<Bytes>, n: nat)
    requires Separates(h, q) && (v.Some? ==> v.value in q) && (w.Some? ==> w.value in q)
    ensures SameSection(OptionalAt(h, v, m), OptionalAt(h, w, n)) <==> v == w
  {
    if v.Some? && w.Some? { assert h(v.value) == h(w.value) <==> v.value == w.value; }
  }

  /** What `build` accepts besides the kinds: unique URIs, and not too many. */
  ghost predicate Buildable(entries: seq<Content>) { Distinct(Uris(entries)) && |entries| <= 8192 }

  /** What a pack is built from. */
  datatype Source = Source(connector: Text, catalog: Catalog, server: Content, entries: seq<Content>)
  {
    ghost predicate Valid() { Buildable(entries) }

    function Contents(): seq<Content> { SortBy(entries, ContentLe) }

    /** The strings hashed for the sections are in `q`. */
    ghost predicate Held(q: set<Bytes>) { Holds(q, server) && forall c :: c in entries ==> Holds(q, c) }
  }

  /** The pack of the archive built from it. */
  function PackOf(h: Hash, s: Source): Pack
    requires |s.entries| <= 8192
  {
    SortLength(s.entries, ContentLe);
    var a := Assemble(h, s.server, s.Contents());
    Pack(s.connector, s.catalog, a.server, a.entries)
  }

  lemma LaidUris(h: Hash, cs: seq<Content>, offset: nat, i: nat)
    requires i < |cs|
    ensures LayAll(h, cs, offset, |cs|)[i].uri == cs[i].uri
  {
    LayAllAt(h, cs, offset, |cs|, i);
  }

  /** The entries of an archive are in URI order already. */
  lemma LaidInOrder(h: Hash, entries: seq<Content>, offset: nat)
    requires Buildable(entries)
    ensures var cs := SortBy(entries, ContentLe);
      |cs| == |entries| && Ordered(LayAll(h, cs, offset, |cs|)) == LayAll(h, cs, offset, |cs|)
  {
    SortLength(entries, ContentLe);
    SortedContents(entries);
    var cs := SortBy(entries, ContentLe);
    var es := LayAll(h, cs, offset, |cs|);
    forall i | 0 <= i < |cs| ensures es[i].uri == cs[i].uri { LaidUris(h, cs, offset, i); }
    assert SortedBy(es, UriLe);
    SortedUris(entries);
    UriOrder();
    SortByIs(es, UriLe);
    forall a, b | a in es && b in es && UriLe(a, b) && UriLe(b, a) ensures a == b { UniqueTies(es, a, b); }
    SortedUnique(es, SortBy(es, UriLe), UriLe);
  }

  lemma SortedUris(entries: seq<Content>)
    requires Distinct(Uris(entries))
    ensures var cs := SortBy(entries, ContentLe); forall i, j :: 0 <= i < j < |cs| ==> cs[i].uri != cs[j].uri
  {
    SortedContents(entries);
    var cs := SortBy(entries, ContentLe);
    ElementsCount(Uris(cs));
    assert Distinct(Uris(cs));
  }

  lemma LaidAt(h: Hash, cs: seq<Content>, m: nat, es: seq<Entry>, i: nat) returns (offset: nat)
    requires i < |cs| == |es| && es == LayAll(h, cs, m, |cs|)
    ensures es[i] == Lay(h, cs[i], offset)
  {
    LayAllAt(h, cs, m, |cs|, i);
    offset := m + |Payloads(cs, i)|;
  }

  lemma LaidAtIff(h: Hash, q: set<Bytes>, p: Profile, cs: seq<Content>, m: nat, es: seq<Entry>,
                  p': Profile, ds: seq<Content>, n: nat, fs: seq<Entry>, i: nat)
    requires Separates(h, q) && i < |cs| == |es| && i < |ds| == |fs| && Holds(q, cs[i]) && Holds(q, ds[i])
    requires es == LayAll(h, cs, m, |cs|) && fs == LayAll(h, ds, n, |ds|)
    ensures AlikeEntry(p, es[i], p', fs[i]) <==> AlikeContent(p, cs[i], p', ds[i])
  {
    var x := LaidAt(h, cs, m, es, i);
    var y := LaidAt(h, ds, n, fs, i);
    LaidAlikeIff(h, q, p, cs[i], x, p', ds[i], y);
  }

  lemma LaidAllAlike(h: Hash, q: set<Bytes>, p: Profile, cs: seq<Content>, m: nat,
                     p': Profile, ds: seq<Content>, n: nat)
    requires Separates(h, q) && (forall i :: 0 <= i < |cs| ==> Holds(q, cs[i]))
    requires (forall i :: 0 <= i < |ds| ==> Holds(q, ds[i])) && AlikeContents(p, cs, p', ds)
    ensures AlikeEntries(p, LayAll(h, cs, m, |cs|), p', LayAll(h, ds, n, |ds|))
  {
    var es, fs := LayAll(h, cs, m, |cs|), LayAll(h, ds, n, |ds|);
    forall i | 0 <= i < |cs| ensures AlikeEntry(p, es[i], p', fs[i]) {
      LaidAtIff(h, q, p, cs, m, es, p', ds, n, fs, i);
    }
  }

  lemma AllLaidAlike(h: Hash, q: set<Bytes>, p: Profile, cs: seq<Content>, m: nat,
                     p': Profile, ds: seq<Content>, n: nat)
    requires Separates(h, q) && (forall i :: 0 <= i < |cs| ==> Holds(q, cs[i]))
    requires forall i :: 0 <= i < |ds| ==> Holds(q, ds[i])
    requires AlikeEntries(p, LayAll(h, cs, m, |cs|), p', LayAll(h, ds, n, |ds|))
    ensures AlikeContents(p, cs, p', ds)
  {
    var es, fs := LayAll(h, cs, m, |cs|), LayAll(h, ds, n, |ds|);
    forall i | 0 <= i < |cs| ensures AlikeContent(p, cs[i], p', ds[i]) {
      assert AlikeEntry(p, es[i], p', fs[i]);
      LaidAtIff(h, q, p, cs, m, es, p', ds, n, fs, i);
    }
  }

  /** Same connector and catalog, and alike contents in URI order. */
  ghost predicate AlikeSource(p: Profile, s: Source, p': Profile, t: Source)
  {
    && s.connector == t.connector && s.catalog == t.catalog && AlikeContent(p, s.server, p', t.server)
    && AlikeContents(p, s.Contents(), p', t.Contents())
  }

  lemma ContentsHeld(q: set<Bytes>, s: Source)
    requires s.Held(q)
    ensures forall i :: 0 <= i < |s.Contents()| ==> Holds(q, s.Contents()[i])
  {
    SortedContents(s.entries);
  }

  lemma EntriesAlikeIff(h: Hash, q: set<Bytes>, p: Profile, s: Source, p': Profile, t: Source)
    requires Separates(h, q) && s.Valid() && t.Valid() && s.Held(q) && t.Held(q)
    ensures AlikeEntries(p, Ordered(PackOf(h, s).entries), p', Ordered(PackOf(h, t).entries)) <==>
            AlikeContents(p, s.Contents(), p', t.Contents())
  {
    LaidInOrder(h, s.entries, |Payload(s.server)|);
    LaidInOrder(h, t.entries, |Payload(t.server)|);
    ContentsHeld(q, s);
    ContentsHeld(q, t);
    if AlikeContents(p, s.Contents(), p', t.Contents()) {
      LaidAllAlike(h, q, p, s.Contents(), |Payload(s.server)|, p', t.Contents(), |Payload(t.server)|);
    } else if AlikeEntries(p, Ordered(PackOf(h, s).entries), p', Ordered(PackOf(h, t).entries)) {
      AllLaidAlike(h, q, p, s.Contents(), |Payload(s.server)|, p', t.Contents(), |Payload(t.server)|);
    }
  }

  /** Two built packs have the same digest exactly when they have the same connector and catalog and were built from
      alike contents, unless the hash confuses two of the strings it was applied to. */
  lemma BuiltDigestIff(h: Hash, q: set<Bytes>, p: Profile, s: Source, p': Profile, t: Source)
    requires Separates(h, q) && s.Valid() && t.Valid() && s.Held(q) && t.Held(q)
    requires Hashed(h, p, PackOf(h, s), q) && Hashed(h, p', PackOf(h, t), q)
    ensures PackDigest(h, p, PackOf(h, s)) == PackDigest(h, p', PackOf(h, t)) <==> AlikeSource(p, s, p', t)
  {
    PackDigestIff(h, q, p, PackOf(h, s), p', PackOf(h, t));
    LaidAlikeIff(h, q, p, s.server, 0, p', t.server, 0);
    EntriesAlikeIff(h, q, p, s, p', t);
  }
}
