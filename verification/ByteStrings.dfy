/** Byte strings as the digests and codecs use them: big-endian integers, lexicographic
    order, sorted sets. */
module ByteStrings {
  import opened Basics
  import opened Sequences

  const LIMIT_32: nat := 0x1_0000_0000
  const LIMIT_64: nat := 0x1_0000_0000_0000_0000

  /** Bytes short enough for a 64-bit length prefix. */
  type Text = t: Bytes | |t| < LIMIT_64 witness []

  // ------------------------------------------------------- fixed-width integers

  function Pow256(k: nat): (p: nat)
    ensures p >= 1
  {
    if k == 0 then 1 else 256 * Pow256(k - 1)
  }

  /** `v` as `k` bytes, most significant first. */
  function BigEndian(k: nat, v: nat): (r: Bytes)
    ensures |r| == k
  {
    if k == 0 then [] else BigEndian(k - 1, v / 256) + [v % 256]
  }

  lemma {:induction false} BigEndianInjective(k: nat, v: nat, w: nat)
    requires v < Pow256(k) && w < Pow256(k) && BigEndian(k, v) == BigEndian(k, w)
    ensures v == w
  {
    if k > 0 {
      var x, y := BigEndian(k, v), BigEndian(k, w);
      assert x[..k - 1] == BigEndian(k - 1, v / 256) && y[..k - 1] == BigEndian(k - 1, w / 256);
      assert x[k - 1] == v % 256 && y[k - 1] == w % 256;
      BigEndianInjective(k - 1, v / 256, w / 256);
    }
  }

  /** Byte `i` counts multiples of 256 to the number of bytes after it: the most significant byte comes first. */
  lemma {:induction false} BigEndianAt(k: nat, v: nat, i: nat)
    requires i < k
    ensures BigEndian(k, v)[i] == v / Pow256(k - 1 - i) % 256
  {
    if i < k - 1 {
      BigEndianAt(k - 1, v / 256, i);
      DivideTwice(v, Pow256(k - 2 - i));
    }
  }

  lemma DivideTwice(v: nat, p: nat)
    requires p >= 1
    ensures v / 256 / p == v / (256 * p)
  {
    var q := v / 256 / p;
    var r := v / 256 % p;
    assert v == 256 * (p * q + r) + v % 256;
    assert 256 * r + v % 256 < 256 * p;
    UniqueQuotient(v, 256 * p, q, 256 * r + v % 256);
  }

  lemma UniqueQuotient(v: nat, d: nat, q: nat, r: nat)
    requires d >= 1 && v == d * q + r && r < d
    ensures v / d == q
  {
    var e := v / d - q;
    assert d * (v / d) + v % d == v;
    assert d * e == r - v % d;
    assert (e >= 1 ==> d * e >= d) && (e <= -1 ==> d * e <= 0 - d);
  }

  // ---------------------------------------------------------- lexicographic order

  predicate LexLe(a: Bytes, b: Bytes)
  {
    a == [] || (b != [] && (a[0] < b[0] || (a[0] == b[0] && LexLe(a[1..], b[1..]))))
  }

  /** A prefix comes first; otherwise the first differing byte decides. */
  lemma {:induction false} LexLeIff(a: Bytes, b: Bytes)
    ensures LexLe(a, b) <==> a <= b || exists i :: 0 <= i < |a| && i < |b| && a[..i] == b[..i] && a[i] < b[i]
  {
    if a != [] && b != [] {
      LexLeIff(a[1..], b[1..]);
      forall i | 0 < i < |a| && i < |b| && a[..i] == b[..i] ensures a[0] == b[0] {
        assert a[..i][0] == a[0] && b[..i][0] == b[0];
      }
      if a[0] == b[0] {
        assert a == [a[0]] + a[1..] && b == [b[0]] + b[1..];
        assert a <= b <==> a[1..] <= b[1..];
        if i :| 0 <= i < |a[1..]| && i < |b[1..]| && a[1..][..i] == b[1..][..i] && a[1..][i] < b[1..][i] {
          assert a[..i + 1] == [a[0]] + a[1..][..i] && b[..i + 1] == [b[0]] + b[1..][..i];
        }
        if i :| 0 <= i < |a| && i < |b| && a[..i] == b[..i] && a[i] < b[i] {
          assert a[1..][..i - 1] == a[..i][1..] && b[1..][..i - 1] == b[..i][1..];
          assert a[1..][i - 1] < b[1..][i - 1];
        }
      } else if a[0] < b[0] {
        assert a[..0] == b[..0];
      }
    }
  }

  lemma {:induction false} LexTotal(a: Bytes, b: Bytes)
    ensures LexLe(a, b) || LexLe(b, a)
  {
    if a != [] && b != [] { LexTotal(a[1..], b[1..]); }
  }

  lemma {:induction false} LexTransitive(a: Bytes, b: Bytes, c: Bytes)
    requires LexLe(a, b) && LexLe(b, c)
    ensures LexLe(a, c)
  {
    if a != [] && a[0] == b[0] == c[0] { LexTransitive(a[1..], b[1..], c[1..]); }
  }

  lemma {:induction false} LexAntisymmetric(a: Bytes, b: Bytes)
    requires LexLe(a, b) && LexLe(b, a)
    ensures a == b
  {
    if a != [] {
      LexAntisymmetric(a[1..], b[1..]);
      assert a == [a[0]] + a[1..] && b == [b[0]] + b[1..];
    }
  }

  lemma LexOrder()
    ensures TotalPreorder(LexLe)
  {
    forall a: Bytes, b: Bytes ensures LexLe(a, b) || LexLe(b, a) { LexTotal(a, b); }
    forall a: Bytes, b: Bytes, c: Bytes | LexLe(a, b) && LexLe(b, c) ensures LexLe(a, c) { LexTransitive(a, b, c); }
  }

  lemma DropLast<T>(s: seq<T>)
    requires s != []
    ensures multiset(s[..|s| - 1]) == multiset(s) - multiset{s[|s| - 1]}
  {
    assert s == s[..|s| - 1] + [s[|s| - 1]];
  }

  lemma LastIsGreatest<T>(s: seq<T>, le: (T, T) -> bool, x: T)
    requires SortedBy(s, le) && x in s
    ensures x == s[|s| - 1] || le(x, s[|s| - 1])
  {
  }

  /** Sorted sequences with the same elements are equal when ties are equal elements. */
  lemma {:induction false} SortedUnique<T(!new)>(s: seq<T>, t: seq<T>, le: (T, T) -> bool)
    requires SortedBy(s, le) && SortedBy(t, le) && multiset(s) == multiset(t)
    requires forall a, b :: a in s && b in s && le(a, b) && le(b, a) ==> a == b
    ensures s == t
  {
    assert |s| == |multiset(s)| && |t| == |multiset(t)|;
    if s != [] {
      var n := |s| - 1;
      assert s[n] in multiset(t) && t[n] in multiset(s);
      LastIsGreatest(t, le, s[n]);
      LastIsGreatest(s, le, t[n]);
      DropLast(s);
      DropLast(t);
      SortedUnique(s[..n], t[..n], le);
    }
  }

  // ------------------------------------------------------- sorted sets of strings

  function SelfKey(b: Text): Text { b }

  /** `sorted({value for value in values})` */
  function SortedSet(values: seq<Text>): (r: seq<Text>)
  {
    SortBy(DedupOn(values, SelfKey), TextLe)
  }

  lemma {:induction false} DedupMultiset(values: seq<Text>)
    ensures multiset(DedupOn(values, SelfKey)) == multiset(Keys(values, SelfKey))
  {
    if values != [] {
      var init, x := values[..|values| - 1], values[|values| - 1];
      DedupMultiset(init);
      DedupKeys(init, SelfKey);
    }
  }

  lemma KeysAreElements(values: seq<Text>)
    ensures Keys(values, SelfKey) == Elements(values)
  {
    forall b ensures b in Keys(values, SelfKey) <==> b in values { KeysMember(values, SelfKey, b); }
  }

  predicate TextLe(a: Text, b: Text) { LexLe(a, b) }

  lemma TextOrder()
    ensures TotalPreorder(TextLe)
    ensures forall a: Text, b: Text :: TextLe(a, b) && TextLe(b, a) ==> a == b
  {
    forall a: Text, b: Text ensures TextLe(a, b) || TextLe(b, a) { LexTotal(a, b); }
    forall a: Text, b: Text, c: Text | TextLe(a, b) && TextLe(b, c) ensures TextLe(a, c) { LexTransitive(a, b, c); }
    forall a: Text, b: Text | TextLe(a, b) && TextLe(b, a) ensures a == b { LexAntisymmetric(a, b); }
  }

  lemma SortedSetIs(values: seq<Text>)
    ensures SortedBy(SortedSet(values), TextLe)
    ensures multiset(SortedSet(values)) == multiset(Elements(values))
    ensures |SortedSet(values)| <= |values|
  {
    TextOrder();
    SortByIs(DedupOn(values, SelfKey), TextLe);
    DedupMultiset(values);
    KeysAreElements(values);
    KeysSize(values);
    assert |multiset(SortedSet(values))| == |SortedSet(values)|;
  }

  lemma {:induction false} KeysSize(values: seq<Text>)
    ensures |Keys(values, SelfKey)| <= |values|
  {
    if values != [] { KeysSize(values[..|values| - 1]); }
  }

  lemma SameMultisetOfSets<T>(a: set<T>, b: set<T>)
    requires multiset(a) == multiset(b)
    ensures a == b
  {
    forall x ensures x in a <==> x in b {
      assert x in multiset(a) <==> x in a;
      assert x in multiset(b) <==> x in b;
    }
  }

  /** A sorted set depends on the set of values and on nothing else. */
  lemma SortedSetIff(v: seq<Text>, w: seq<Text>)
    ensures SortedSet(v) == SortedSet(w) <==> Elements(v) == Elements(w)
  {
    TextOrder();
    SortedSetIs(v);
    SortedSetIs(w);
    if Elements(v) == Elements(w) {
      SortedUnique(SortedSet(v), SortedSet(w), TextLe);
    } else if SortedSet(v) == SortedSet(w) {
      SameMultisetOfSets(Elements(v), Elements(w));
    }
  }
}
