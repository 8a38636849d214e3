/** What `pack_digest` identifies: independence of entry order, and agreement with the
    digest the engine computes. */
module PackIdentity {
  import opened Basics
  import opened Sequences
  import opened ByteStrings
  import opened FramedDigests
  import opened PackDigests

  // -------------------------------------------------------------------- entry order

  ghost predicate UniqueUris(es: seq<Entry>)
  {
    forall i, j :: 0 <= i < j < |es| ==> es[i].uri != es[j].uri
  }

  lemma UriOrder()
    ensures TotalPreorder(UriLe)
  {
    forall a, b ensures UriLe(a, b) || UriLe(b, a) { LexTotal(a.uri, b.uri); }
    forall a, b, c | UriLe(a, b) && UriLe(b, c) ensures UriLe(a, c) { LexTransitive(a.uri, b.uri, c.uri); }
  }

  lemma UniqueTies(es: seq<Entry>, a: Entry, b: Entry)
    requires UniqueUris(es) && a in es && b in es && UriLe(a, b) && UriLe(b, a)
    ensures a == b
  {
    LexAntisymmetric(a.uri, b.uri);
    var i :| 0 <= i < |es| && es[i] == a;
    var j :| 0 <= j < |es| && es[j] == b;
  }

  /** With unique URIs the order in which entries are listed is not identity. */
  lemma EntryOrderIrrelevant(h: Hash, p: Profile, k: Pack, l: Pack)
    requires multiset(k.entries) == multiset(l.entries) && k.(entries := l.entries) == l && UniqueUris(k.entries)
    ensures PackDigest(h, p, k) == PackDigest(h, p, l)
  {
    UriOrder();
    SortByIs(k.entries, UriLe);
    SortByIs(l.entries, UriLe);
    var s, t := Ordered(k.entries), Ordered(l.entries);
    forall a, b | a in s && b in s && UriLe(a, b) && UriLe(b, a) ensures a == b {
      SortByMember(k.entries, UriLe, a);
      SortByMember(k.entries, UriLe, b);
      UniqueTies(k.entries, a, b);
    }
    SortedUnique(s, t, UriLe);
    assert |multiset(k.entries)| == |k.entries| && |multiset(l.entries)| == |l.entries|;
  }

  lemma AlikeSelf(p: Profile, e: Entry)
    ensures AlikeEntry(p, e, p, e)
  {
  }

  // --------------------------------------------------------- packs that share URIs

  /** The entries with one URI, as listed. */
  function WithUri(es: seq<Entry>, uri: Text): (r: seq<Entry>)
  {
    if es == [] then []
    else WithUri(es[..|es| - 1], uri) + if es[|es| - 1].uri == uri then [es[|es| - 1]] else []
  }

  lemma WithUriSnoc(es: seq<Entry>, e: Entry, uri: Text)
    ensures WithUri(es + [e], uri) == WithUri(es, uri) + if e.uri == uri then [e] else []
  {
    assert (es + [e])[..|es|] == es;
  }

  lemma {:induction false} InsertKeepsUri(es: seq<Entry>, e: Entry, uri: Text)
    ensures WithUri(InsertBy(es, e, UriLe), uri) == WithUri(es, uri) + if e.uri == uri then [e] else []
  {
    if es == [] || UriLe(es[|es| - 1], e) {
      WithUriSnoc(es, e, uri);
    } else {
      var init, last := es[..|es| - 1], es[|es| - 1];
      LexTotal(last.uri, last.uri);
      InsertKeepsUri(init, e, uri);
      WithUriSnoc(InsertBy(init, e, UriLe), last, uri);
    }
  }

  /** Sorting is stable: it keeps the order of entries that share a URI. */
  lemma {:induction false} SortKeepsUri(es: seq<Entry>, uri: Text)
    ensures WithUri(SortBy(es, UriLe), uri) == WithUri(es, uri)
  {
    if es != [] {
      SortKeepsUri(es[..|es| - 1], uri);
      InsertKeepsUri(SortBy(es[..|es| - 1], UriLe), es[|es| - 1], uri);
    }
  }

  lemma AlikeSnoc(p: Profile, es: seq<Entry>, e: Entry, p': Profile, fs: seq<Entry>, f: Entry)
    ensures AlikeEntries(p, es + [e], p', fs + [f]) <==> AlikeEntries(p, es, p', fs) && AlikeEntry(p, e, p', f)
  {
    var x, y := es + [e], fs + [f];
    if AlikeEntries(p, x, p', y) {
      assert x[|es|] == e && y[|fs|] == f;
      forall i | 0 <= i < |es| ensures AlikeEntry(p, es[i], p', fs[i]) { assert x[i] == es[i] && y[i] == fs[i]; }
    }
  }

  /** Alike lists are alike URI by URI. */
  lemma {:induction false} AlikeByUri(p: Profile, es: seq<Entry>, p': Profile, fs: seq<Entry>, uri: Text)
    requires AlikeEntries(p, es, p', fs)
    ensures AlikeEntries(p, WithUri(es, uri), p', WithUri(fs, uri))
  {
    if es != [] {
      var n := |es| - 1;
      assert es == es[..n] + [es[n]] && fs == fs[..n] + [fs[n]];
      AlikeSnoc(p, es[..n], es[n], p', fs[..n], fs[n]);
      AlikeByUri(p, es[..n], p', fs[..n], uri);
      AlikeSnoc(p, WithUri(es[..n], uri), es[n], p', WithUri(fs[..n], uri), fs[n]);
    }
  }

  ghost predicate AlikeUris(p: Profile, es: seq<Entry>, p': Profile, fs: seq<Entry>)
  {
    forall uri: Text :: AlikeEntries(p, WithUri(es, uri), p', WithUri(fs, uri))
  }

  lemma {:induction false} WithUriMember(es: seq<Entry>, uri: Text)
    ensures WithUri(es, uri) != [] <==> exists i :: 0 <= i < |es| && es[i].uri == uri
  {
    if es != [] { WithUriMember(es[..|es| - 1], uri); }
  }

  /** The greatest URI of one list is the greatest of the other. */
  lemma LastUri(p: Profile, es: seq<Entry>, p': Profile, fs: seq<Entry>)
    requires SortedBy(es, UriLe) && AlikeUris(p, es, p', fs) && fs != []
    ensures es != [] && LexLe(fs[|fs| - 1].uri, es[|es| - 1].uri)
  {
    var uri := fs[|fs| - 1].uri;
    WithUriMember(fs, uri);
    assert AlikeEntries(p, WithUri(es, uri), p', WithUri(fs, uri));
    WithUriMember(es, uri);
    var i :| 0 <= i < |es| && es[i].uri == uri;
    LexTotal(uri, uri);
    assert i < |es| - 1 ==> UriLe(es[i], es[|es| - 1]);
  }

  lemma AlikeUrisSymmetric(p: Profile, es: seq<Entry>, p': Profile, fs: seq<Entry>)
    requires AlikeUris(p, es, p', fs)
    ensures AlikeUris(p', fs, p, es)
  {
    forall uri: Text ensures AlikeEntries(p', WithUri(fs, uri), p, WithUri(es, uri)) {
      assert AlikeEntries(p, WithUri(es, uri), p', WithUri(fs, uri));
      AlikeReversed(p, WithUri(es, uri), p', WithUri(fs, uri));
    }
  }

  lemma AlikeReversed(p: Profile, es: seq<Entry>, p': Profile, fs: seq<Entry>)
    requires AlikeEntries(p, es, p', fs)
    ensures AlikeEntries(p', fs, p, es)
  {
    forall i | 0 <= i < |fs| ensures AlikeEntry(p', fs[i], p, es[i]) { AlikeSymmetric(p, es[i], p', fs[i]); }
  }

  lemma AlikeSymmetric(p: Profile, a: Entry, p': Profile, b: Entry)
    requires AlikeEntry(p, a, p', b)
    ensures AlikeEntry(p', b, p, a)
  {
  }

  lemma DropLastUri(p: Profile, es: seq<Entry>, p': Profile, fs: seq<Entry>)
    requires es != [] && fs != [] && es[|es| - 1].uri == fs[|fs| - 1].uri && AlikeUris(p, es, p', fs)
    ensures AlikeEntry(p, es[|es| - 1], p', fs[|fs| - 1]) && AlikeUris(p, es[..|es| - 1], p', fs[..|fs| - 1])
  {
    var a, b := es[..|es| - 1], fs[..|fs| - 1];
    forall uri: Text ensures AlikeEntries(p, WithUri(a, uri), p', WithUri(b, uri)) {
      DropUri(p, es, p', fs, uri);
    }
    DropUri(p, es, p', fs, es[|es| - 1].uri);
  }

  lemma DropUri(p: Profile, es: seq<Entry>, p': Profile, fs: seq<Entry>, uri: Text)
    requires es != [] && fs != [] && es[|es| - 1].uri == fs[|fs| - 1].uri
    requires AlikeUris(p, es, p', fs)
    ensures AlikeEntries(p, WithUri(es[..|es| - 1], uri), p', WithUri(fs[..|fs| - 1], uri))
    ensures uri == es[|es| - 1].uri ==> AlikeEntry(p, es[|es| - 1], p', fs[|fs| - 1])
  {
    var a, b := WithUri(es[..|es| - 1], uri), WithUri(fs[..|fs| - 1], uri);
    assert AlikeEntries(p, WithUri(es, uri), p', WithUri(fs, uri));
    if uri == es[|es| - 1].uri {
      AlikeSnoc(p, a, es[|es| - 1], p', b, fs[|fs| - 1]);
    } else {
      assert a + [] == a && b + [] == b;
    }
  }

  /** Sorted lists that are alike URI by URI are alike. */
  lemma {:induction false} SortedAlike(p: Profile, es: seq<Entry>, p': Profile, fs: seq<Entry>)
    requires SortedBy(es, UriLe) && SortedBy(fs, UriLe) && AlikeUris(p, es, p', fs)
    ensures AlikeEntries(p, es, p', fs)
  {
    AlikeUrisSymmetric(p, es, p', fs);
    if fs != [] { LastUri(p, es, p', fs); }
    if es != [] {
      LastUri(p', fs, p, es);
      var m, n := |es| - 1, |fs| - 1;
      LexAntisymmetric(es[m].uri, fs[n].uri);
      DropLastUri(p, es, p', fs);
      SortedAlike(p, es[..m], p', fs[..n]);
      assert es == es[..m] + [es[m]] && fs == fs[..n] + [fs[n]];
      AlikeSnoc(p, es[..m], es[m], p', fs[..n], fs[n]);
    }
  }

  lemma OrderedAlikeIff(p: Profile, es: Entries, p': Profile, fs: Entries)
    ensures AlikeEntries(p, Ordered(es), p', Ordered(fs)) <==> AlikeUris(p, es, p', fs)
  {
    UriOrder();
    SortByIs(es, UriLe);
    SortByIs(fs, UriLe);
    forall uri: Text
      ensures WithUri(Ordered(es), uri) == WithUri(es, uri) && WithUri(Ordered(fs), uri) == WithUri(fs, uri)
    {
      SortKeepsUri(es, uri);
      SortKeepsUri(fs, uri);
    }
    if AlikeEntries(p, Ordered(es), p', Ordered(fs)) {
      forall uri: Text
        ensures AlikeEntries(p, WithUri(es, uri), p', WithUri(fs, uri))
      {
        AlikeByUri(p, Ordered(es), p', Ordered(fs), uri);
      }
    }
    if AlikeUris(p, es, p', fs) {
      AlikeUrisOrdered(p, es, p', fs);
      SortedAlike(p, Ordered(es), p', Ordered(fs));
    }
  }

  lemma AlikeUrisOrdered(p: Profile, es: Entries, p': Profile, fs: Entries)
    requires AlikeUris(p, es, p', fs)
    ensures AlikeUris(p, Ordered(es), p', Ordered(fs))
  {
    forall uri: Text ensures AlikeEntries(p, WithUri(Ordered(es), uri), p', WithUri(Ordered(fs), uri)) {
      SortKeepsUri(es, uri);
      SortKeepsUri(fs, uri);
      assert AlikeEntries(p, WithUri(es, uri), p', WithUri(fs, uri));
    }
  }

  /** Whatever the order of the entries and whether or not they share URIs: relisting the entries of a pack keeps
      its digest exactly when, for every URI, the entries with that URI are alike one by one in the two orders. */
  lemma SharedUriOrderIff(h: Hash, q: set<Bytes>, p: Profile, k: Pack, l: Pack)
    requires k.(entries := l.entries) == l
    requires Separates(h, q) && Hashed(h, p, k, q) && Hashed(h, p, l, q)
    ensures PackDigest(h, p, k) == PackDigest(h, p, l) <==> AlikeUris(p, k.entries, p, l.entries)
  {
    PackDigestIff(h, q, p, k, p, l);
    AlikeSelf(p, k.server);
    OrderedAlikeIff(p, k.entries, p, l.entries);
  }

  predicate NoCapabilities(e: Entry)
  {
    e.annotations.model.Some? ==> e.annotations.model.value.inputCapabilities.None?
  }

  lemma SelfAlikeIff(e: Entry)
    ensures AlikeEntry(ClientProfile, e, EngineProfile, e) <==> NoCapabilities(e)
  {
    if e.annotations.model.Some? { ProfilesAgreeIff(e.annotations.model.value); }
  }

  lemma AlikeAcrossIff(k: Pack)
    ensures AlikePack(ClientProfile, k, EngineProfile, k) <==>
            NoCapabilities(k.server) && forall i :: 0 <= i < |k.entries| ==> NoCapabilities(k.entries[i])
  {
    SelfAlikeIff(k.server);
    var s := Ordered(k.entries);
    forall i | 0 <= i < |s| ensures AlikeEntry(ClientProfile, s[i], EngineProfile, s[i]) <==> NoCapabilities(s[i]) {
      SelfAlikeIff(s[i]);
    }
    OrderedHolds(k.entries);
  }

  /** The client computes the engine's digest exactly for packs in which no model profile
      declares input capabilities: the client leaves that field out. */
  lemma EngineAgreesIff(h: Hash, q: set<Bytes>, k: Pack)
    requires Separates(h, q) && Hashed(h, ClientProfile, k, q) && Hashed(h, EngineProfile, k, q)
    ensures PackDigest(h, ClientProfile, k) == PackDigest(h, EngineProfile, k) <==>
            NoCapabilities(k.server) && forall i :: 0 <= i < |k.entries| ==> NoCapabilities(k.entries[i])
  {
    PackDigestIff(h, q, ClientProfile, k, EngineProfile, k);
    AlikeAcrossIff(k);
  }

  lemma OrderedHolds(es: Entries)
    ensures (forall i :: 0 <= i < |Ordered(es)| ==> NoCapabilities(Ordered(es)[i])) <==>
            (forall i :: 0 <= i < |es| ==> NoCapabilities(es[i]))
  {
    UriOrder();
    forall e ensures e in Ordered(es) <==> e in es { SortByMember(es, UriLe, e); }
    assert forall i :: 0 <= i < |Ordered(es)| ==> Ordered(es)[i] in es;
    assert forall i :: 0 <= i < |es| ==> es[i] in Ordered(es);
  }
}
