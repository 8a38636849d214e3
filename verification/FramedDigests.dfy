/** The length-framed digest of `medulla/generated/digest.py` (`framed_sha256`).  SHA-256 is
    an arbitrary function with 32-byte results; nothing is assumed of it except, where a
    result says so, that it tells apart the particular strings it was applied to. */
module FramedDigests {
  import opened Basics
  import opened ByteStrings

  type Digest = d: Bytes | |d| == 32 witness seq(32, _ => 0)
  type U64 = n: nat | n < LIMIT_64
  type Hash = Bytes -> Digest

  function Ascii(s: string): (r: Bytes)
    ensures |r| == |s|
  {
    seq(|s|, i requires 0 <= i < |s| => (s[i] as int) % 256)
  }

  lemma PowLimits()
    ensures Pow256(4) == LIMIT_32 && Pow256(8) == LIMIT_64
  {
    assert Pow256(2) == 65536;
    assert Pow256(4) == 65536 * 65536;
    assert Pow256(6) == 65536 * Pow256(4);
    assert Pow256(8) == 65536 * Pow256(6);
  }

  function Fields(fields: seq<Text>): Bytes
  {
    if fields == [] then [] else BigEndian(8, |fields[0]|) + fields[0] + Fields(fields[1..])
  }

  /** The bytes `framed_sha256` hashes. */
  function Frame(domain: Text, fields: seq<Text>): Bytes
  {
    Ascii("eg/framed-sha256/v1\0") + (BigEndian(4, |domain|) + domain + (BigEndian(4, |fields|) + Fields(fields)))
  }

  lemma SameSplit<T>(a: seq<T>, b: seq<T>, c: seq<T>, d: seq<T>)
    requires a + b == c + d && |a| == |c|
    ensures a == c && b == d
  {
    assert a == (a + b)[..|a|] && c == (c + d)[..|c|];
    assert b == (a + b)[|a|..] && d == (c + d)[|c|..];
  }

  lemma SameHead<T>(p: seq<T>, a: seq<T>, x: seq<T>, q: seq<T>, b: seq<T>, y: seq<T>)
    requires p + a + x == q + b + y && |p| == |q|
    ensures p == q
  {
    assert p == (p + a + x)[..|p|] && q == (q + b + y)[..|q|];
  }

  lemma SameTail<T>(p: seq<T>, a: seq<T>, x: seq<T>, q: seq<T>, b: seq<T>, y: seq<T>)
    requires p + a + x == q + b + y && |p| == |q| && |a| == |b|
    ensures a == b && x == y
  {
    assert a == (p + a + x)[|p|..|p| + |a|] && b == (q + b + y)[|q|..|q| + |b|];
    assert x == (p + a + x)[|p| + |a|..] && y == (q + b + y)[|q| + |b|..];
  }

  lemma PrefixedInjective(k: nat, a: Bytes, x: Bytes, b: Bytes, y: Bytes)
    requires |a| < Pow256(k) && |b| < Pow256(k)
    requires BigEndian(k, |a|) + a + x == BigEndian(k, |b|) + b + y
    ensures a == b && x == y
  {
    SameHead(BigEndian(k, |a|), a, x, BigEndian(k, |b|), b, y);
    BigEndianInjective(k, |a|, |b|);
    SameTail(BigEndian(k, |a|), a, x, BigEndian(k, |b|), b, y);
  }

  lemma {:induction false} FieldsInjective(f: seq<Text>, g: seq<Text>)
    requires |f| == |g| && Fields(f) == Fields(g)
    ensures f == g
  {
    if f != [] {
      PowLimits();
      PrefixedInjective(8, f[0], Fields(f[1..]), g[0], Fields(g[1..]));
      FieldsInjective(f[1..], g[1..]);
      assert f == [f[0]] + f[1..] && g == [g[0]] + g[1..];
    }
  }

  /** Framing is injective: no field boundary can be forged out of field content. */
  lemma FrameInjective(d: Text, f: seq<Text>, e: Text, g: seq<Text>)
    requires |d| < LIMIT_32 && |e| < LIMIT_32 && |f| < LIMIT_32 && |g| < LIMIT_32
    requires Frame(d, f) == Frame(e, g)
    ensures d == e && f == g
  {
    PowLimits();
    var magic := Ascii("eg/framed-sha256/v1\0");
    var x, y := BigEndian(4, |f|) + Fields(f), BigEndian(4, |g|) + Fields(g);
    SameSplit(magic, BigEndian(4, |d|) + d + x, magic, BigEndian(4, |e|) + e + y);
    PrefixedInjective(4, d, x, e, y);
    SameSplit(BigEndian(4, |f|), Fields(f), BigEndian(4, |g|), Fields(g));
    BigEndianInjective(4, |f|, |g|);
    FieldsInjective(f, g);
  }

  function Framed(h: Hash, domain: Text, fields: seq<Text>): Digest { h(Frame(domain, fields)) }

  /** `h` tells apart the strings of `q`. */
  ghost predicate Separates(h: Hash, q: set<Bytes>)
  {
    forall x, y :: x in q && y in q && h(x) == h(y) ==> x == y
  }

  lemma FramedInjective(h: Hash, q: set<Bytes>, domain: Text, f: seq<Text>, g: seq<Text>)
    requires Separates(h, q) && Frame(domain, f) in q && Frame(domain, g) in q
    requires |domain| < LIMIT_32 && |f| < LIMIT_32 && |g| < LIMIT_32
    ensures Framed(h, domain, f) == Framed(h, domain, g) <==> f == g
  {
    if Framed(h, domain, f) == Framed(h, domain, g) { FrameInjective(domain, f, domain, g); }
  }
}
