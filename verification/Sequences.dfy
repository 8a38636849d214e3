/** Sequence vocabulary shared by the models: concatenation, filtering, first occurrences. */
module Sequences {

  function Concat<T>(ss: seq<seq<T>>): (r: seq<T>)
  {
    if ss == [] then [] else Concat(ss[..|ss| - 1]) + ss[|ss| - 1]
  }

  function Filter<T>(s: seq<T>, p: T -> bool): (r: seq<T>)
  {
    if s == [] then []
    else Filter(s[..|s| - 1], p) + if p(s[|s| - 1]) then [s[|s| - 1]] else []
  }

  function Map<T, U>(s: seq<T>, f: T -> U): (r: seq<U>)
    ensures |r| == |s| && forall i :: 0 <= i < |s| ==> r[i] == f(s[i])
  {
    seq(|s|, i requires 0 <= i < |s| => f(s[i]))
  }

  /** The elements whose key has not occurred before, in order: "first found wins". */
  function DedupOn<T, K(==)>(s: seq<T>, key: T -> K): (r: seq<T>)
  {
    if s == [] then []
    else
      var d, x := DedupOn(s[..|s| - 1], key), s[|s| - 1];
      if key(x) in Keys(d, key) then d else d + [x]
  }

  function Keys<T, K(==)>(s: seq<T>, key: T -> K): (r: set<K>)
  {
    if s == [] then {} else Keys(s[..|s| - 1], key) + {key(s[|s| - 1])}
  }

  /** The position of the first occurrence of `x`, or `|s|`. */
  function FirstIndex<T(==)>(s: seq<T>, x: T): (i: nat)
    ensures i <= |s| && (i < |s| <==> x in s)
    ensures i < |s| ==> s[i] == x
    ensures forall j :: 0 <= j < i ==> s[j] != x
  {
    if s == [] then 0 else if s[0] == x then 0 else 1 + FirstIndex(s[1..], x)
  }

  ghost predicate Distinct<T>(s: seq<T>)
  {
    forall i, j :: 0 <= i < j < |s| ==> s[i] != s[j]
  }

  // ------------------------------------------------------------- basic facts

  lemma FirstIndexIs<T>(s: seq<T>, x: T, i: nat)
    requires i < |s| && s[i] == x && forall j :: 0 <= j < i ==> s[j] != x
    ensures FirstIndex(s, x) == i
  {
  }

  lemma DistinctIndex<T>(s: seq<T>, i: nat)
    requires Distinct(s) && i < |s|
    ensures FirstIndex(s, s[i]) == i
  {
    FirstIndexIs(s, s[i], i);
  }

  lemma FirstIndexConcat<T>(s: seq<T>, t: seq<T>, x: T)
    ensures FirstIndex(s + t, x) == if x in s then FirstIndex(s, x) else |s| + FirstIndex(t, x)
  {
    if x in s {
      FirstIndexIs(s + t, x, FirstIndex(s, x));
    } else if x in t {
      FirstIndexIs(s + t, x, |s| + FirstIndex(t, x));
    } else {
      assert x !in s + t;
    }
  }

  lemma {:induction false} FilterMember<T>(s: seq<T>, p: T -> bool, x: T)
    ensures x in Filter(s, p) <==> x in s && p(x)
  {
    if s != [] {
      FilterMember(s[..|s| - 1], p, x);
      assert s == s[..|s| - 1] + [s[|s| - 1]];
    }
  }

  /** Filtering keeps the order of first occurrences. */
  lemma {:induction false} FilterOrder<T>(s: seq<T>, p: T -> bool, a: T, b: T)
    requires a in s && b in s && p(a) && p(b)
    ensures FirstIndex(Filter(s, p), a) < FirstIndex(Filter(s, p), b) <==> FirstIndex(s, a) < FirstIndex(s, b)
  {
    var t, x := s[..|s| - 1], s[|s| - 1];
    assert s == t + [x];
    FilterMember(t, p, a);
    FilterMember(t, p, b);
    FirstIndexConcat(t, [x], a);
    FirstIndexConcat(t, [x], b);
    FirstIndexConcat(Filter(t, p), if p(x) then [x] else [], a);
    FirstIndexConcat(Filter(t, p), if p(x) then [x] else [], b);
    if a in t && b in t { FilterOrder(t, p, a, b); }
  }

  lemma {:induction false} ConcatAppend<T>(ss: seq<seq<T>>, tt: seq<seq<T>>)
    ensures Concat(ss + tt) == Concat(ss) + Concat(tt)
  {
    if tt == [] {
      assert ss + tt == ss;
    } else {
      var all, init, last := ss + tt, tt[..|tt| - 1], tt[|tt| - 1];
      ConcatAppend(ss, init);
      assert all[..|all| - 1] == ss + init && all[|all| - 1] == last;
      assert (Concat(ss) + Concat(init)) + last == Concat(ss) + (Concat(init) + last);
    }
  }

  lemma {:induction false} ConcatFirst<T>(ss: seq<seq<T>>)
    requires ss != []
    ensures Concat(ss) == ss[0] + Concat(ss[1..])
  {
    assert ss == [ss[0]] + ss[1..];
    ConcatAppend([ss[0]], ss[1..]);
    assert [ss[0]][..0] == [];
  }

  /** Appending one part and then the rest is appending all of them. */
  lemma AppendRest<T>(have: seq<T>, parts: seq<seq<T>>, i: nat)
    requires i < |parts|
    ensures (have + parts[i]) + Concat(parts[i + 1..]) == have + Concat(parts[i..])
  {
    ConcatFirst(parts[i..]);
    assert parts[i..][1..] == parts[i + 1..];
    assert (have + parts[i]) + Concat(parts[i + 1..]) == have + (parts[i] + Concat(parts[i + 1..]));
  }

  // ------------------------------------------------------------------------- chunks

  /** Consecutive pieces of `size` elements; the last one may be shorter. */
  function Chunks<T>(data: seq<T>, size: nat): (r: seq<seq<T>>)
    requires size >= 1
    decreases |data|
  {
    if data == [] then [] else if |data| <= size then [data] else [data[..size]] + Chunks(data[size..], size)
  }

  lemma {:induction false} ConcatChunks<T>(data: seq<T>, size: nat)
    requires size >= 1
    ensures Concat(Chunks(data, size)) == data
    decreases |data|
  {
    if data == [] {
    } else if |data| <= size {
      assert [data][..0] == [];
    } else {
      var rest := Chunks(data[size..], size);
      ConcatChunks(data[size..], size);
      var cs := [data[..size]] + rest;
      ConcatFirst(cs);
      assert cs[1..] == rest;
      assert data[..size] + data[size..] == data;
    }
  }

  /** The chunks from number `j` on are the data from offset `j * size` on. */
  lemma {:induction false} ChunksFrom<T>(data: seq<T>, size: nat, j: nat)
    requires size >= 1 && j <= |Chunks(data, size)|
    ensures Concat(Chunks(data, size)[j..]) == data[if j * size <= |data| then j * size else |data|..]
    decreases |data|
  {
    var cs := Chunks(data, size);
    if j == 0 {
      ConcatChunks(data, size);
      assert cs[0..] == cs;
    } else if |data| <= size {
      assert cs[j..] == [] && j * size >= |data|;
    } else {
      ChunksFrom(data[size..], size, j - 1);
      assert cs[j..] == Chunks(data[size..], size)[j - 1..];
      assert j * size == (j - 1) * size + size;
    }
  }

  // ------------------------------------------------------------ deduplication

  lemma {:induction false} KeysAppend<T, K>(s: seq<T>, t: seq<T>, key: T -> K)
    ensures Keys(s + t, key) == Keys(s, key) + Keys(t, key)
  {
    if t == [] {
      assert s + t == s;
    } else {
      assert (s + t)[..|s + t| - 1] == s + t[..|t| - 1];
      KeysAppend(s, t[..|t| - 1], key);
    }
  }

  lemma {:induction false} KeysMember<T, K>(s: seq<T>, key: T -> K, k: K)
    ensures k in Keys(s, key) <==> exists i :: 0 <= i < |s| && key(s[i]) == k
  {
    if s != [] { KeysMember(s[..|s| - 1], key, k); }
  }

  /** A deduplicated sequence has the same keys, each once. */
  lemma {:induction false} DedupKeys<T, K>(s: seq<T>, key: T -> K)
    ensures Keys(DedupOn(s, key), key) == Keys(s, key)
    ensures |DedupOn(s, key)| == |Keys(s, key)|
  {
    if s != [] {
      var d, x := DedupOn(s[..|s| - 1], key), s[|s| - 1];
      DedupKeys(s[..|s| - 1], key);
      assert (d + [x])[..|d|] == d;
    }
  }

  lemma {:induction false} DedupDistinct<T, K>(s: seq<T>, key: T -> K)
    ensures Distinct(Map(DedupOn(s, key), key))
  {
    if s != [] {
      var d, x := DedupOn(s[..|s| - 1], key), s[|s| - 1];
      DedupDistinct(s[..|s| - 1], key);
      KeysMember(d, key, key(x));
    }
  }

  /** The part of `s` whose keys are not in `seen`. */
  function Unseen<T, K(==)>(s: seq<T>, key: T -> K, seen: set<K>): (r: seq<T>)
  {
    if s == [] then []
    else
      var d, x := Unseen(s[..|s| - 1], key, seen), s[|s| - 1];
      if key(x) in seen then d else d + [x]
  }

  lemma DedupSnoc<T, K>(s: seq<T>, x: T, key: T -> K)
    ensures DedupOn(s + [x], key) == if key(x) in Keys(s, key) then DedupOn(s, key) else DedupOn(s, key) + [x]
  {
    assert (s + [x])[..|s|] == s;
    DedupKeys(s, key);
  }

  lemma {:induction false} DedupAppend<T, K>(s: seq<T>, t: seq<T>, key: T -> K)
    ensures DedupOn(s + t, key) == DedupOn(s, key) + Unseen(DedupOn(t, key), key, Keys(s, key))
  {
    if t == [] {
      assert s + t == s;
    } else {
      var u, x := t[..|t| - 1], t[|t| - 1];
      assert t == u + [x] && s + t == (s + u) + [x];
      DedupAppend(s, u, key);
      DedupSnoc(s + u, x, key);
      DedupSnoc(u, x, key);
      KeysAppend(s, u, key);
      var e := DedupOn(u, key);
      assert (e + [x])[..|e|] == e;
    }
  }

  lemma {:induction false} DedupIdempotent<T, K>(s: seq<T>, key: T -> K)
    ensures DedupOn(DedupOn(s, key), key) == DedupOn(s, key)
  {
    if s != [] {
      var d, x := DedupOn(s[..|s| - 1], key), s[|s| - 1];
      DedupIdempotent(s[..|s| - 1], key);
      DedupSnoc(d, x, key);
    }
  }

  /** Deduplicating each part and then the whole is deduplicating once. */
  lemma {:induction false} DedupTwice<T, K>(ss: seq<seq<T>>, dd: seq<seq<T>>, key: T -> K)
    requires |dd| == |ss| && forall i :: 0 <= i < |ss| ==> dd[i] == DedupOn(ss[i], key)
    ensures DedupOn(Concat(dd), key) == DedupOn(Concat(ss), key)
  {
    if ss != [] {
      var n := |ss| - 1;
      DedupTwice(ss[..n], dd[..n], key);
      DedupAppend(Concat(dd[..n]), dd[n], key);
      DedupAppend(Concat(ss[..n]), ss[n], key);
      DedupIdempotent(ss[n], key);
      DedupKeys(Concat(dd[..n]), key);
      DedupKeys(Concat(ss[..n]), key);
    }
  }

  // ------------------------------------------------------------------ sorting

  ghost predicate TotalPreorder<T(!new)>(le: (T, T) -> bool)
  {
    && (forall a, b :: le(a, b) || le(b, a))
    && (forall a, b, c :: le(a, b) && le(b, c) ==> le(a, c))
  }

  ghost predicate SortedBy<T>(s: seq<T>, le: (T, T) -> bool)
  {
    forall i, j :: 0 <= i < j < |s| ==> le(s[i], s[j])
  }

  function InsertBy<T>(s: seq<T>, x: T, le: (T, T) -> bool): (r: seq<T>)
  {
    if s == [] || le(s[|s| - 1], x) then s + [x]
    else InsertBy(s[..|s| - 1], x, le) + [s[|s| - 1]]
  }

  /** Python's `sorted`: stable, so equal elements keep their order. */
  function SortBy<T>(s: seq<T>, le: (T, T) -> bool): (r: seq<T>)
  {
    if s == [] then [] else InsertBy(SortBy(s[..|s| - 1], le), s[|s| - 1], le)
  }

  lemma {:induction false} InsertByMultiset<T>(s: seq<T>, x: T, le: (T, T) -> bool)
    ensures multiset(InsertBy(s, x, le)) == multiset(s) + multiset{x}
  {
    if !(s == [] || le(s[|s| - 1], x)) {
      InsertByMultiset(s[..|s| - 1], x, le);
      assert s == s[..|s| - 1] + [s[|s| - 1]];
    }
  }

  lemma {:induction false} SortByMultiset<T>(s: seq<T>, le: (T, T) -> bool)
    ensures multiset(SortBy(s, le)) == multiset(s)
  {
    if s != [] {
      SortByMultiset(s[..|s| - 1], le);
      InsertByMultiset(SortBy(s[..|s| - 1], le), s[|s| - 1], le);
      assert s == s[..|s| - 1] + [s[|s| - 1]];
    }
  }

  lemma {:induction false} InsertBySorted<T(!new)>(s: seq<T>, x: T, le: (T, T) -> bool)
    requires TotalPreorder(le) && SortedBy(s, le)
    ensures SortedBy(InsertBy(s, x, le), le)
    ensures forall y :: le(x, y) && (forall i :: 0 <= i < |s| ==> le(s[i], y)) ==>
              forall i :: 0 <= i < |InsertBy(s, x, le)| ==> le(InsertBy(s, x, le)[i], y)
  {
    if !(s == [] || le(s[|s| - 1], x)) {
      InsertBySorted(s[..|s| - 1], x, le);
    }
  }

  lemma {:induction false} SortByIs<T(!new)>(s: seq<T>, le: (T, T) -> bool)
    requires TotalPreorder(le)
    ensures SortedBy(SortBy(s, le), le)
    ensures multiset(SortBy(s, le)) == multiset(s)
  {
    SortByMultiset(s, le);
    if s != [] {
      SortByIs(s[..|s| - 1], le);
      InsertBySorted(SortBy(s[..|s| - 1], le), s[|s| - 1], le);
    }
  }

  lemma SortByMember<T(!new)>(s: seq<T>, le: (T, T) -> bool, x: T)
    requires TotalPreorder(le)
    ensures x in SortBy(s, le) <==> x in s
  {
    SortByIs(s, le);
    assert x in multiset(s) <==> x in s;
    assert x in multiset(SortBy(s, le)) <==> x in SortBy(s, le);
  }

  lemma DistinctSort<T>(s: seq<T>, t: seq<T>)
    requires multiset(s) == multiset(t) && Distinct(s)
    ensures Distinct(t)
  {
    forall i, j | 0 <= i < j < |t| ensures t[i] != t[j] {
      if t[i] == t[j] {
        assert t == t[..i] + [t[i]] + t[i + 1..j] + [t[j]] + t[j + 1..];
        assert multiset(t)[t[i]] >= 2;
        DistinctCount(s, t[i]);
        assert false;
      }
    }
  }

  function Elements<T(==)>(s: seq<T>): set<T> { set x | x in s }

  lemma {:induction false} ElementsCount<T>(s: seq<T>)
    ensures |Elements(s)| <= |s|
    ensures |Elements(s)| == |s| <==> Distinct(s)
  {
    if s != [] {
      var init, last := s[..|s| - 1], s[|s| - 1];
      ElementsCount(init);
      assert s == init + [last];
      assert Elements(s) == Elements(init) + {last};
      if last in init {
        var k :| 0 <= k < |init| && init[k] == last;
        assert s[k] == s[|s| - 1];
      } else {
        assert Distinct(init) <==> Distinct(s);
      }
    }
  }

  lemma SameLength<T>(s: seq<T>, t: seq<T>)
    requires Distinct(s) && Distinct(t) && (forall x :: x in s ==> x in t) && (forall i :: 0 <= i < |t| ==> t[i] in s)
    ensures |s| == |t|
  {
    ElementsCount(s);
    ElementsCount(t);
    assert Elements(s) == Elements(t);
  }

  /** Duplicate-free sequences of one length, one within the other, have the same elements. */
  lemma SameDistinct<T>(s: seq<T>, t: seq<T>)
    requires Distinct(s) && Distinct(t) && |s| == |t| && forall x :: x in s ==> x in t
    ensures multiset(s) == multiset(t)
  {
    ElementsCount(s);
    ElementsCount(t);
    var rest := Elements(t) - Elements(s);
    assert |rest| == |Elements(t)| - |Elements(t) * Elements(s)| && Elements(t) * Elements(s) == Elements(s);
    forall x ensures multiset(s)[x] == multiset(t)[x] {
      DistinctCount(s, x);
      DistinctCount(t, x);
      assert x !in rest;
      assert x in Elements(s) <==> x in Elements(t);
    }
  }

  lemma {:induction false} DistinctCount<T>(s: seq<T>, x: T)
    requires Distinct(s)
    ensures multiset(s)[x] <= 1
  {
    if s != [] {
      DistinctCount(s[..|s| - 1], x);
      assert s == s[..|s| - 1] + [s[|s| - 1]];
      assert x == s[|s| - 1] ==> x !in s[..|s| - 1];
    }
  }
}
