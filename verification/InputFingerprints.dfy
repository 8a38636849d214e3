/** `_input_fingerprints` and `_changed_input_fields` of `build_backend.py`: a tree of cache inputs flattened to
    one digest per leaf, under paths escaped as in section 3 of RFC 6901. */
module InputFingerprints {
  import opened Basics
  import opened Sequences
  import opened ByteStrings
  import opened FramedDigests

  /** A value that is not a mapping, by its canonical JSON text, or a mapping by its fields sorted by name. */
  datatype Tree = Leaf(text: Bytes) | Node(fields: seq<Field>)
  datatype Field = Field(name: Bytes, value: Tree)

  const SLASH: Byte := 47
  const TILDE: Byte := 126
  /** `{}` */
  const EMPTY_OBJECT: Bytes := [123, 125]

  predicate NameLe(a: Field, b: Field) { LexLe(a.name, b.name) }

  /** Names are sorted and distinct, and only a mapping is written as one. */
  ghost predicate WellFormed(fields: seq<Field>)
  {
    && SortedBy(fields, NameLe)
    && (forall i, j :: 0 <= i < j < |fields| ==> fields[i].name != fields[j].name)
    && forall i :: 0 <= i < |fields| ==> Proper(fields[i].value)
  }

  ghost predicate Proper(t: Tree)
  {
    match t
    case Leaf(text) => text != EMPTY_OBJECT
    case Node(fields) => WellFormed(fields)
  }

  // -------------------------------------------------------------------------- paths

  /** `str.replace` of one character. */
  function Replace(s: Bytes, c: Byte, with: Bytes): Bytes
  {
    if s == [] then [] else (if s[0] == c then with else [s[0]]) + Replace(s[1..], c, with)
  }

  function Escape(name: Bytes): Bytes { Replace(Replace(name, TILDE, [TILDE, 48]), SLASH, [TILDE, 49]) }

  function EscapeByte(c: Byte): Bytes { if c == TILDE then [TILDE, 48] else if c == SLASH then [TILDE, 49] else [c] }

  lemma {:induction false} ReplaceAppend(a: Bytes, b: Bytes, c: Byte, with: Bytes)
    ensures Replace(a + b, c, with) == Replace(a, c, with) + Replace(b, c, with)
  {
    if a == [] {
      assert a + b == b;
    } else {
      ReplaceAppend(a[1..], b, c, with);
      var s := a + b;
      assert s[0] == a[0] && s[1..] == a[1..] + b;
      var first := if a[0] == c then with else [a[0]];
      assert first + (Replace(a[1..], c, with) + Replace(b, c, with)) ==
        (first + Replace(a[1..], c, with)) + Replace(b, c, with);
    }
  }

  lemma ReplaceOne(x: Byte, c: Byte, with: Bytes)
    ensures Replace([x], c, with) == if x == c then with else [x]
  {
    assert [x][1..] == [] && Replace([], c, with) == [];
  }

  /** The two replacements together work byte by byte. */
  lemma EscapeFirst(name: Bytes)
    requires name != []
    ensures Escape(name) == EscapeByte(name[0]) + Escape(name[1..])
  {
    var c := name[0];
    var first := if c == TILDE then [TILDE, 48] else [c];
    ReplaceAppend(first, Replace(name[1..], TILDE, [TILDE, 48]), SLASH, [TILDE, 49]);
    ReplaceOne(c, SLASH, [TILDE, 49]);
    ReplaceAppend([TILDE], [48], SLASH, [TILDE, 49]);
    ReplaceOne(TILDE, SLASH, [TILDE, 49]);
    ReplaceOne(48, SLASH, [TILDE, 49]);
    assert [TILDE] + [48] == [TILDE, 48];
  }

  lemma {:induction false} EscapeHasNoSlash(name: Bytes)
    ensures SLASH !in Escape(name)
  {
    if name != [] {
      EscapeFirst(name);
      EscapeHasNoSlash(name[1..]);
    }
  }

  lemma {:induction false} EscapeInjective(a: Bytes, b: Bytes)
    requires Escape(a) == Escape(b)
    ensures a == b
  {
    if a != [] { EscapeFirst(a); }
    if b != [] { EscapeFirst(b); }
    if a != [] && b != [] {
      var x, y := EscapeByte(a[0]), EscapeByte(b[0]);
      assert Escape(a)[0] == x[0] && Escape(b)[0] == y[0];
      if x[0] == TILDE { assert Escape(a)[1] == x[1] && Escape(b)[1] == y[1]; }
      assert x == y && a[0] == b[0];
      SameSplit(x, Escape(a[1..]), y, Escape(b[1..]));
      EscapeInjective(a[1..], b[1..]);
      assert a == [a[0]] + a[1..] && b == [b[0]] + b[1..];
    }
  }

  function Path(segments: seq<Bytes>): Bytes
  {
    if segments == [] then [] else [SLASH] + Escape(segments[0]) + Path(segments[1..])
  }

  lemma SegmentEnd(a: Bytes, x: Bytes)
    requires SLASH !in a && (x == [] || x[0] == SLASH)
    ensures FirstIndex(a + x, SLASH) == |a|
  {
    if x == [] {
      assert a + x == a;
    } else {
      FirstIndexIs(a + x, SLASH, |a|);
    }
  }

  /** Text up to the next slash is one segment. */
  lemma SameSegment(a: Bytes, x: Bytes, b: Bytes, y: Bytes)
    requires a + x == b + y && SLASH !in a && SLASH !in b
    requires (x == [] || x[0] == SLASH) && (y == [] || y[0] == SLASH)
    ensures a == b && x == y
  {
    SegmentEnd(a, x);
    SegmentEnd(b, y);
    SameSplit(a, x, b, y);
  }

  /** Different paths of names are different texts. */
  lemma {:induction false} PathInjective(a: seq<Bytes>, b: seq<Bytes>)
    requires Path(a) == Path(b)
    ensures a == b
  {
    if a != [] && b != [] {
      var x, y := Escape(a[0]) + Path(a[1..]), Escape(b[0]) + Path(b[1..]);
      assert Path(a) == [SLASH] + x && Path(b) == [SLASH] + y;
      assert x == Path(a)[1..] && y == Path(b)[1..];
      EscapeHasNoSlash(a[0]);
      EscapeHasNoSlash(b[0]);
      SameSegment(Escape(a[0]), Path(a[1..]), Escape(b[0]), Path(b[1..]));
      EscapeInjective(a[0], b[0]);
      PathInjective(a[1..], b[1..]);
      assert a == [a[0]] + a[1..] && b == [b[0]] + b[1..];
    }
  }

  // ----------------------------------------------------------------------- flattening

  function TextOf(t: Tree): Bytes { if t.Leaf? then t.text else EMPTY_OBJECT }

  /** `_input_fingerprints` */
  function Flatten(h: Hash, fields: seq<Field>, prefix: Bytes): (r: map<Bytes, Digest>)
    decreases fields
  {
    if fields == [] then map[]
    else
      var last := fields[|fields| - 1];
      Flatten(h, fields[..|fields| - 1], prefix) + FlattenValue(h, last.value, prefix + [SLASH] + Escape(last.name))
  }

  /** A non-empty mapping is descended into; anything else, an empty mapping too, is a leaf. */
  function FlattenValue(h: Hash, t: Tree, field: Bytes): (r: map<Bytes, Digest>)
    decreases t
  {
    if t.Node? && t.fields != [] then Flatten(h, t.fields, field) else map[field := h(TextOf(t))]
  }

  // --------------------------------------------------- leaves, looked up along a path

  function Find(fields: seq<Field>, name: Bytes): (r: Option<Tree>)
    ensures r.Some? ==> Field(name, r.value) in fields
  {
    if fields == [] then None
    else if fields[|fields| - 1].name == name then Some(fields[|fields| - 1].value)
    else Find(fields[..|fields| - 1], name)
  }

  function LeafAt(t: Tree, path: seq<Bytes>): Option<Bytes>
  {
    if path == [] then (if t.Leaf? || t.fields == [] then Some(TextOf(t)) else None)
    else if t.Leaf? then None
    else
      var child := Find(t.fields, path[0]);
      if child.Some? then LeafAt(child.value, path[1..]) else None
  }

  lemma LeafBelow(fields: seq<Field>, name: Bytes, rest: seq<Bytes>)
    ensures LeafAt(Node(fields), [name] + rest) ==
      var child := Find(fields, name); if child.Some? then LeafAt(child.value, rest) else None
  {
    assert ([name] + rest)[1..] == rest;
  }

  lemma PathFirst(prefix: Bytes, name: Bytes, rest: seq<Bytes>)
    ensures prefix + Path([name] + rest) == (prefix + [SLASH] + Escape(name)) + Path(rest)
  {
    assert ([name] + rest)[1..] == rest;
  }

  /** Every fingerprint is that of a leaf. */
  lemma {:induction false} ValueOrigin(h: Hash, t: Tree, field: Bytes, p: Bytes) returns (path: seq<Bytes>)
    requires Proper(t) && p in FlattenValue(h, t, field)
    ensures p == field + Path(path) && LeafAt(t, path).Some? && FlattenValue(h, t, field)[p] == h(LeafAt(t, path).value)
    decreases t
  {
    if t.Node? && t.fields != [] {
      path := FieldOrigin(h, t.fields, field, p);
    } else {
      path := [];
      assert field + [] == field;
    }
  }

  lemma {:induction false} FieldOrigin(h: Hash, fields: seq<Field>, prefix: Bytes, p: Bytes) returns (path: seq<Bytes>)
    requires WellFormed(fields) && p in Flatten(h, fields, prefix)
    ensures p == prefix + Path(path) && path != [] && LeafAt(Node(fields), path).Some?
    ensures Flatten(h, fields, prefix)[p] == h(LeafAt(Node(fields), path).value)
    decreases fields
  {
    var init, last := fields[..|fields| - 1], fields[|fields| - 1];
    var field := prefix + [SLASH] + Escape(last.name);
    if p in FlattenValue(h, last.value, field) {
      var rest := ValueOrigin(h, last.value, field, p);
      path := [last.name] + rest;
      LeafBelow(fields, last.name, rest);
      PathFirst(prefix, last.name, rest);
    } else {
      path := FieldOrigin(h, init, prefix, p);
      assert Find(init, path[0]).Some?;
      assert Find(fields, path[0]) == Find(init, path[0]);
    }
  }

  /** Every leaf has a fingerprint. */
  lemma {:induction false} ValuePresent(h: Hash, t: Tree, field: Bytes, path: seq<Bytes>)
    requires LeafAt(t, path).Some?
    ensures field + Path(path) in FlattenValue(h, t, field)
    decreases t
  {
    if path == [] {
      assert field + [] == field;
    } else {
      FieldPresent(h, t.fields, field, path);
    }
  }

  lemma {:induction false} FieldPresent(h: Hash, fields: seq<Field>, prefix: Bytes, path: seq<Bytes>)
    requires path != [] && LeafAt(Node(fields), path).Some?
    ensures prefix + Path(path) in Flatten(h, fields, prefix)
    decreases fields
  {
    var init, last := fields[..|fields| - 1], fields[|fields| - 1];
    assert path == [path[0]] + path[1..];
    if last.name == path[0] {
      ValuePresent(h, last.value, prefix + [SLASH] + Escape(last.name), path[1..]);
      PathFirst(prefix, path[0], path[1..]);
    } else {
      FieldPresent(h, init, prefix, path);
    }
  }

  /** The fingerprints are exactly the digests of the leaves, each under the path of its names. */
  lemma FlattenIs(h: Hash, fields: seq<Field>, path: seq<Bytes>)
    requires WellFormed(fields) && path != []
    ensures Path(path) in Flatten(h, fields, []) <==> LeafAt(Node(fields), path).Some?
    ensures LeafAt(Node(fields), path).Some? ==>
              Flatten(h, fields, [])[Path(path)] == h(LeafAt(Node(fields), path).value)
  {
    assert [] + Path(path) == Path(path);
    if LeafAt(Node(fields), path).Some? { FieldPresent(h, fields, [], path); }
    if Path(path) in Flatten(h, fields, []) {
      var origin := FieldOrigin(h, fields, [], Path(path));
      assert [] + Path(origin) == Path(origin);
      PathInjective(path, origin);
    }
  }

  // ------------------------------------------------------- equal leaves, equal trees

  ghost predicate SameLeaves(t: Tree, u: Tree) { forall path :: LeafAt(t, path) == LeafAt(u, path) }

  ghost predicate SameBelow(a: seq<Field>, b: seq<Field>)
  {
    forall path :: path != [] ==> LeafAt(Node(a), path) == LeafAt(Node(b), path)
  }

  lemma {:induction false} SomeLeaf(t: Tree) returns (path: seq<Bytes>)
    ensures LeafAt(t, path).Some?
    decreases t
  {
    if t.Leaf? || t.fields == [] {
      path := [];
    } else {
      var last := t.fields[|t.fields| - 1];
      var rest := SomeLeaf(last.value);
      path := [last.name] + rest;
      LeafBelow(t.fields, last.name, rest);
    }
  }

  lemma {:induction false} FindIs(fields: seq<Field>, i: nat)
    requires WellFormed(fields) && i < |fields|
    ensures Find(fields, fields[i].name) == Some(fields[i].value)
  {
    if i < |fields| - 1 { FindIs(fields[..|fields| - 1], i); }
  }

  /** A field with a leaf below it is found in every mapping with the same leaves. */
  lemma SameChild(a: seq<Field>, b: seq<Field>, i: nat)
    requires WellFormed(a) && i < |a| && SameBelow(a, b)
    ensures Find(b, a[i].name).Some? && SameLeaves(a[i].value, Find(b, a[i].name).value)
  {
    var name := a[i].name;
    FindIs(a, i);
    forall path ensures LeafAt(a[i].value, path) == LeafAt(Node(b), [name] + path) {
      LeafBelow(a, name, path);
    }
    var some := SomeLeaf(a[i].value);
    LeafBelow(b, name, some);
    assert LeafAt(Node(b), [name] + some).Some?;
    forall path ensures LeafAt(a[i].value, path) == LeafAt(Find(b, name).value, path) {
      LeafBelow(b, name, path);
    }
  }

  lemma {:induction false} TreesSame(t: Tree, u: Tree)
    requires Proper(t) && Proper(u) && SameLeaves(t, u)
    ensures t == u
    decreases t
  {
    assert LeafAt(t, []) == LeafAt(u, []);
    if t.Node? && t.fields != [] {
      assert SameBelow(t.fields, u.fields);
      FieldsSame(t.fields, u.fields);
    }
  }

  lemma {:induction false} FieldsWithin(a: seq<Field>, b: seq<Field>, i: nat)
    requires WellFormed(a) && WellFormed(b) && SameBelow(a, b) && i < |a|
    ensures a[i] in b
    decreases a, 0
  {
    SameChild(a, b, i);
    TreesSame(a[i].value, Find(b, a[i].name).value);
  }

  lemma {:induction false} FieldsSame(a: seq<Field>, b: seq<Field>)
    requires WellFormed(a) && WellFormed(b) && SameBelow(a, b)
    ensures a == b
    decreases a, 1
  {
    forall i | 0 <= i < |a| ensures a[i] in b { FieldsWithin(a, b, i); }
    forall j | 0 <= j < |b| ensures b[j] in a {
      SameChild(b, a, j);
      var k :| 0 <= k < |a| && a[k] == Field(b[j].name, Find(a, b[j].name).value);
      assert a[k] in b;
    }
    SameFields(a, b);
  }

  lemma SameFields(a: seq<Field>, b: seq<Field>)
    requires WellFormed(a) && WellFormed(b)
    requires (forall i :: 0 <= i < |a| ==> a[i] in b) && (forall j :: 0 <= j < |b| ==> b[j] in a)
    ensures a == b
  {
    SameLength(a, b);
    SameDistinct(a, b);
    forall x: Field, y: Field | x in a && y in a && NameLe(x, y) && NameLe(y, x) ensures x == y {
      LexAntisymmetric(x.name, y.name);
    }
    SortedUnique(a, b, NameLe);
  }

  // --------------------------------------------------------------------- what changed

  function Get(m: map<Bytes, Digest>, p: Bytes): Option<Digest> { if p in m then Some(m[p]) else None }

  /** The fields whose fingerprints differ, or that only one side has. */
  function Changed(h: Hash, before: seq<Field>, after: seq<Field>): set<Bytes>
  {
    var f, g := Flatten(h, before, []), Flatten(h, after, []);
    set p | p in f.Keys + g.Keys && Get(f, p) != Get(g, p)
  }

  /** `_changed_input_fields`: the changed fields in sorted order. */
  method ChangedInputFields(h: Hash, before: seq<Field>, after: seq<Field>) returns (fields: seq<Bytes>)
    ensures Elements(fields) == Changed(h, before, after) && Distinct(fields) && SortedBy(fields, LexLe)
  {
    var left := Changed(h, before, after);
    fields := [];
    LexOrder();
    while left != {}
      invariant Elements(fields) + left == Changed(h, before, after) && Elements(fields) !! left
      invariant Distinct(fields) && SortedBy(fields, LexLe)
      decreases |left|
    {
      var field :| field in left;
      InsertField(fields, field);
      fields, left := InsertBy(fields, field, LexLe), left - {field};
    }
  }

  lemma InsertField(fields: seq<Bytes>, field: Bytes)
    requires Distinct(fields) && SortedBy(fields, LexLe) && field !in fields && TotalPreorder(LexLe)
    ensures var all := InsertBy(fields, field, LexLe);
      Distinct(all) && SortedBy(all, LexLe) && Elements(all) == Elements(fields) + {field}
  {
    var all := InsertBy(fields, field, LexLe);
    InsertByMultiset(fields, field, LexLe);
    InsertBySorted(fields, field, LexLe);
    assert multiset(fields + [field]) == multiset(all);
    DistinctSort(fields + [field], all);
    forall x ensures x in all <==> x in fields || x == field {
      assert x in multiset(all) <==> x in all;
      assert x in multiset(fields) <==> x in fields;
    }
  }

  /** `_assert_stable_cache_inputs`: raises exactly when a field changed. */
  method AssertStableInputs(h: Hash, before: seq<Field>, after: seq<Field>) returns (stable: bool)
    ensures stable <==> Changed(h, before, after) == {}
  {
    var fields := ChangedInputFields(h, before, after);
    assert fields == [] <==> Elements(fields) == {} by { if fields != [] { assert fields[0] in Elements(fields); } }
    return fields == [];
  }

  /** The texts that were hashed. */
  ghost predicate Covers(q: set<Bytes>, fields: seq<Field>)
  {
    forall path :: LeafAt(Node(fields), path).Some? ==> LeafAt(Node(fields), path).value in q
  }

  /** The changed fields are exactly the paths whose leaves differ. */
  lemma ChangedIff(h: Hash, q: set<Bytes>, a: seq<Field>, b: seq<Field>, path: seq<Bytes>)
    requires WellFormed(a) && WellFormed(b) && Covers(q, a) && Covers(q, b) && Separates(h, q) && path != []
    ensures Path(path) in Changed(h, a, b) <==> LeafAt(Node(a), path) != LeafAt(Node(b), path)
  {
    FlattenIs(h, a, path);
    FlattenIs(h, b, path);
    var x, y := LeafAt(Node(a), path), LeafAt(Node(b), path);
    if x.Some? && y.Some? { assert h(x.value) == h(y.value) ==> x.value == y.value; }
  }

  /** Nothing is reported changed exactly when the two input trees are equal. */
  lemma UnchangedIff(h: Hash, q: set<Bytes>, a: seq<Field>, b: seq<Field>)
    requires WellFormed(a) && WellFormed(b) && Covers(q, a) && Covers(q, b) && Separates(h, q)
    ensures Changed(h, a, b) == {} <==> a == b
  {
    if Changed(h, a, b) == {} {
      forall path | path != [] ensures LeafAt(Node(a), path) == LeafAt(Node(b), path) { ChangedIff(h, q, a, b, path); }
      FieldsSame(a, b);
    }
  }
}
