/** `encode_body` and `decode_body`: a body as numbered hexadecimal attributes.  Text stands for its UTF-8
    bytes, a body for its canonical JSON bytes, and `sha256:<hex>` for the 32 bytes it spells. */
module DecisionBody {
  import opened Basics
  import opened Sequences
  import opened ByteStrings
  import opened FramedDigests
  import opened Hexadecimal
  import opened Numerals

  const PREFIX: Bytes := Ascii("decision.body/")
  const BODY_CHUNK_HEX: nat := 4000
  const MAX_BODY_CHUNKS: nat := 48

  datatype Attribute = Attribute(name: Bytes, value: Bytes)

  /** A dictionary in insertion order. */
  type Attributes = seq<Attribute>

  datatype Decoded = Body(data: Bytes) | NotDense | NotHex | WrongDigest

  // --------------------------------------------------------------------- chunk names

  /** A number as `{i:02d}` writes it. */
  function TwoDigits(i: nat): Bytes
  {
    if i < 10 then [48, 48 + i] else Decimal(i)
  }

  function Name(i: nat): Bytes { PREFIX + TwoDigits(i) }

  function Expected(n: nat): (r: seq<Bytes>)
    ensures |r| == n && forall i :: 0 <= i < n ==> r[i] == Name(i)
  {
    if n == 0 then [] else Expected(n - 1) + [Name(n - 1)]
  }

  lemma {:induction false} LexPrefix(p: Bytes, a: Bytes, b: Bytes, x: Bytes, y: Bytes)
    requires x == p + a && y == p + b
    ensures LexLe(x, y) <==> LexLe(a, b)
  {
    if p == [] {
      assert x == a && y == b;
    } else {
      assert x[1..] == p[1..] + a && y[1..] == p[1..] + b;
      LexPrefix(p[1..], a, b, x[1..], y[1..]);
    }
  }

  lemma TwoDigitsBelow100(i: nat)
    requires i < 100
    ensures TwoDigits(i) == [48 + i / 10, 48 + i % 10]
  {
    if i >= 10 { assert Decimal(i / 10) == [48 + i / 10]; }
  }

  lemma LexTwo(a: Byte, b: Byte, c: Byte, d: Byte)
    ensures LexLe([a, b], [c, d]) <==> a < c || (a == c && b <= d)
  {
    assert [a, b][1..] == [b] && [c, d][1..] == [d] && [b][1..] == [] && [d][1..] == [];
    assert LexLe([b], [d]) <==> b <= d;
  }

  /** Below one hundred, names sort as their numbers do. */
  lemma NamesSort(i: nat, j: nat)
    requires i < 100 && j < 100
    ensures LexLe(Name(i), Name(j)) <==> i <= j
  {
    LexPrefix(PREFIX, TwoDigits(i), TwoDigits(j), Name(i), Name(j));
    TwoDigitsBelow100(i);
    TwoDigitsBelow100(j);
    LexTwo(48 + i / 10, 48 + i % 10, 48 + j / 10, 48 + j % 10);
  }

  lemma HundredText()
    ensures TwoDigits(100) == [49, 48, 48]
  {
    assert Decimal(10) == Decimal(1) + [48] && Decimal(1) == [49];
  }

  /** Number one hundred sorts before number ninety-nine. */
  lemma HundredSortsFirst()
    ensures !LexLe(Name(99), Name(100))
  {
    HundredText();
    TwoDigitsBelow100(99);
    assert !LexLe(TwoDigits(99), TwoDigits(100));
    LexPrefix(PREFIX, TwoDigits(99), TwoDigits(100), Name(99), Name(100));
  }

  // ----------------------------------------------------------------- encode and decode

  predicate IsBody(a: Attribute) { PREFIX <= a.name }

  function BodyNames(attributes: Attributes): (r: seq<Bytes>)
  {
    if attributes == [] then []
    else
      var last := attributes[|attributes| - 1];
      BodyNames(attributes[..|attributes| - 1]) + if IsBody(last) then [last.name] else []
  }

  function Lookup(attributes: Attributes, name: Bytes): Bytes
  {
    if attributes == [] then []
    else if attributes[|attributes| - 1].name == name then attributes[|attributes| - 1].value
    else Lookup(attributes[..|attributes| - 1], name)
  }

  function Values(attributes: Attributes, n: nat): (r: seq<Bytes>)
    ensures |r| == n && forall i :: 0 <= i < n ==> r[i] == Lookup(attributes, Name(i))
  {
    if n == 0 then [] else Values(attributes, n - 1) + [Lookup(attributes, Name(n - 1))]
  }

  function Numbered(chunks: seq<Bytes>, n: nat): (r: Attributes)
    requires n <= |chunks|
    ensures |r| == n && forall i :: 0 <= i < n ==> r[i] == Attribute(Name(i), chunks[i])
  {
    if n == 0 then [] else Numbered(chunks, n - 1) + [Attribute(Name(n - 1), chunks[n - 1])]
  }

  function EncodeBody(h: Hash, data: Bytes): Option<(Digest, Attributes)>
  {
    var chunks := Chunks(Hex(data), BODY_CHUNK_HEX);
    if |chunks| > MAX_BODY_CHUNKS then None else Some((h(data), Numbered(chunks, |chunks|)))
  }

  /** The part of `decode_body` after its chunks are joined. */
  function DecodeText(h: Hash, digest: Digest, text: Bytes): Decoded
  {
    var data := Unhex(text, false);
    if data.None? then NotHex else if h(data.value) != digest then WrongDigest else Body(data.value)
  }

  function DecodeBody(h: Hash, digest: Digest, attributes: Attributes): Decoded
  {
    var names := SortBy(BodyNames(attributes), LexLe);
    if names == [] || names != Expected(|names|) then NotDense
    else DecodeText(h, digest, Concat(Values(attributes, |names|)))
  }

  // ------------------------------------------------------------------ what is refused

  lemma {:induction false} ChunkCount(data: Bytes, size: nat, k: nat)
    requires size >= 1
    ensures |Chunks(data, size)| <= k <==> |data| <= k * size
    decreases |data|
  {
    if |data| > size {
      if k >= 1 {
        ChunkCount(data[size..], size, k - 1);
        assert k * size == (k - 1) * size + size;
      }
    } else if k >= 1 {
      assert k * size >= size;
    }
  }

  /** Encoding refuses exactly the bodies of more than 96,000 bytes. */
  lemma EncodeRefusesIff(h: Hash, data: Bytes)
    ensures EncodeBody(h, data).None? <==> |data| > 96_000
  {
    ChunkCount(Hex(data), BODY_CHUNK_HEX, MAX_BODY_CHUNKS);
  }

  ghost predicate DistinctNames(attributes: Attributes)
  {
    forall i, j :: 0 <= i < j < |attributes| ==> attributes[i].name != attributes[j].name
  }

  /** The names of the chunks, in any order and among any other attributes, are numbers 0 to `n - 1`. */
  ghost predicate Dense(attributes: Attributes, n: nat)
  {
    |BodyNames(attributes)| == n && forall i :: 0 <= i < n ==> Name(i) in BodyNames(attributes)
  }

  lemma {:induction false} BodyNamesAre(attributes: Attributes, name: Bytes)
    requires DistinctNames(attributes)
    ensures name in BodyNames(attributes) <==>
              PREFIX <= name && exists i :: 0 <= i < |attributes| && attributes[i].name == name
    ensures Distinct(BodyNames(attributes))
  {
    if attributes != [] {
      var init, last := attributes[..|attributes| - 1], attributes[|attributes| - 1];
      BodyNamesAre(init, name);
      BodyNamesAre(init, last.name);
      assert attributes == init + [last];
    }
  }

  lemma ExpectedDistinct(n: nat)
    requires n <= 100
    ensures Distinct(Expected(n)) && SortedBy(Expected(n), LexLe)
  {
    forall i, j | 0 <= i < j < n ensures Expected(n)[i] != Expected(n)[j] && LexLe(Expected(n)[i], Expected(n)[j]) {
      NamesSort(i, j);
      NamesSort(j, i);
      LexTotal(Name(j), Name(j));
    }
  }

  lemma DenseSorts(attributes: Attributes, n: nat)
    requires DistinctNames(attributes) && 1 <= n <= 100 && Dense(attributes, n)
    ensures SortBy(BodyNames(attributes), LexLe) == Expected(n)
  {
    var names := BodyNames(attributes);
    LexOrder();
    SortByIs(names, LexLe);
    ExpectedDistinct(n);
    BodyNamesAre(attributes, []);
    SameDistinct(Expected(n), names);
    forall a: Bytes, b: Bytes | LexLe(a, b) && LexLe(b, a) ensures a == b { LexAntisymmetric(a, b); }
    SortedUnique(SortBy(names, LexLe), Expected(n), LexLe);
  }

  lemma SortedIsDense(attributes: Attributes)
    requires var names := SortBy(BodyNames(attributes), LexLe); names == Expected(|names|)
    ensures Dense(attributes, |BodyNames(attributes)|) && |BodyNames(attributes)| <= 100
  {
    var b := BodyNames(attributes);
    var names := SortBy(b, LexLe);
    LexOrder();
    SortByIs(b, LexLe);
    assert |names| == |multiset(names)| && |b| == |multiset(b)|;
    forall i | 0 <= i < |b| ensures Name(i) in b {
      assert names[i] == Name(i) && Name(i) in names;
      SortByMember(b, LexLe, Name(i));
    }
    assert |b| > 100 ==> LexLe(names[99], names[100]);
    HundredSortsFirst();
  }

  lemma DenseIff(attributes: Attributes, names: seq<Bytes>)
    requires DistinctNames(attributes) && names == SortBy(BodyNames(attributes), LexLe)
    ensures |names| == |BodyNames(attributes)|
    ensures names != [] && names == Expected(|names|) <==> 1 <= |names| <= 100 && Dense(attributes, |names|)
  {
    SortByMultiset(BodyNames(attributes), LexLe);
    assert |names| == |multiset(names)| && |BodyNames(attributes)| == |multiset(BodyNames(attributes))|;
    if names == Expected(|names|) { SortedIsDense(attributes); }
    if 1 <= |names| <= 100 && Dense(attributes, |names|) { DenseSorts(attributes, |names|); }
  }

  /** Decoding takes the chunks exactly when their names are the numbers 0 to `n - 1` for some `n` from 1 to 100;
      from one hundred and one chunks on, dense numbering is refused too. */
  lemma NotDenseIff(h: Hash, digest: Digest, attributes: Attributes)
    requires DistinctNames(attributes)
    ensures var n := |BodyNames(attributes)|;
      DecodeBody(h, digest, attributes).NotDense? <==> !(1 <= n <= 100 && Dense(attributes, n))
  {
    DenseIff(attributes, SortBy(BodyNames(attributes), LexLe));
  }

  lemma DecodeTextIff(h: Hash, digest: Digest, text: Bytes, data: Bytes)
    ensures DecodeText(h, digest, text) == Body(data) <==> Lower(text) == Hex(data) && h(data) == digest
    ensures DecodeText(h, digest, text) == NotHex <==> forall d :: Lower(text) != Hex(d)
    ensures DecodeText(h, digest, text) != NotDense
  {
    forall d ensures Unhex(text, false) == Some(d) <==> Lower(text) == Hex(d) { UnhexIff(text, d); }
    var found := Unhex(text, false);
    if found.Some? { assert Lower(text) == Hex(found.value); }
  }

  /** The text of the chunks in the order of their numbers. */
  function Joined(attributes: Attributes): Bytes { Concat(Values(attributes, |BodyNames(attributes)|)) }

  lemma DecodesJoined(h: Hash, digest: Digest, attributes: Attributes)
    ensures DecodeBody(h, digest, attributes) != NotDense ==>
      DecodeBody(h, digest, attributes) == DecodeText(h, digest, Joined(attributes))
  {
    var names := SortBy(BodyNames(attributes), LexLe);
    SortByMultiset(BodyNames(attributes), LexLe);
    assert |multiset(names)| == |names| && |multiset(BodyNames(attributes))| == |BodyNames(attributes)|;
  }

  /** The chunks are numbered 0 to `n - 1` for some `n` from 1 to 100. */
  ghost predicate DenselyNumbered(attributes: Attributes)
  {
    1 <= |BodyNames(attributes)| <= 100 && Dense(attributes, |BodyNames(attributes)|)
  }

  /** Decoding returns a body exactly when the chunks are numbered densely, spell it in hexadecimal, and its digest is
      the one given; each refusal is exactly the first of these that fails. */
  lemma DecodeIff(h: Hash, digest: Digest, attributes: Attributes, data: Bytes)
    requires DistinctNames(attributes)
    ensures var r, text := DecodeBody(h, digest, attributes), Lower(Joined(attributes));
      var dense := DenselyNumbered(attributes);
      && (r == Body(data) <==> dense && text == Hex(data) && h(data) == digest)
      && (r == NotDense <==> !dense) && (r == NotHex <==> dense && forall d :: text != Hex(d))
  {
    NotDenseIff(h, digest, attributes);
    DecodesJoined(h, digest, attributes);
    DecodeTextIff(h, digest, Joined(attributes), data);
  }

  /** What is decoded under the digest of a body is that body, given that hashing tells the two apart. */
  lemma DecodedIsPinned(h: Hash, data: Bytes, attributes: Attributes, found: Bytes)
    requires DistinctNames(attributes) && DecodeBody(h, h(data), attributes) == Body(found)
    requires Separates(h, {data, found})
    ensures found == data
  {
    DecodeIff(h, h(data), attributes, found);
    assert found in {data, found} && data in {data, found};
  }

  // ---------------------------------------------------------------------- round trip

  lemma {:induction false} LookupIs(attributes: Attributes, i: nat)
    requires DistinctNames(attributes) && i < |attributes|
    ensures Lookup(attributes, attributes[i].name) == attributes[i].value
  {
    if i < |attributes| - 1 { LookupIs(attributes[..|attributes| - 1], i); }
  }

  /** The encoded attributes are there, perhaps among others, and no other carries the prefix. */
  ghost predicate Carries(attributes: Attributes, encoded: Attributes)
  {
    DistinctNames(attributes) && BodyPart(attributes) == Elements(encoded)
  }

  ghost function BodyPart(attributes: Attributes): set<Attribute> { set a | a in attributes && IsBody(a) }

  ghost predicate InOrder(encoded: Attributes) { forall i :: 0 <= i < |encoded| ==> encoded[i].name == Name(i) }

  lemma CarriedAt(attributes: Attributes, encoded: Attributes, a: Attribute) returns (k: nat)
    requires BodyPart(attributes) == Elements(encoded) && a in encoded
    ensures k < |attributes| && attributes[k] == a && IsBody(a)
  {
    assert a in Elements(encoded);
    assert a in BodyPart(attributes);
    k :| 0 <= k < |attributes| && attributes[k] == a;
  }

  lemma CarriedOnly(attributes: Attributes, encoded: Attributes, x: Bytes) returns (k: nat)
    requires BodyPart(attributes) == Elements(encoded) && x in BodyNames(attributes)
    ensures k < |encoded| && encoded[k].name == x
  {
    var a := BodyNameFrom(attributes, x);
    assert a in BodyPart(attributes);
    assert a in Elements(encoded);
    k :| 0 <= k < |encoded| && encoded[k] == a;
  }

  lemma {:induction false} BodyNameFrom(attributes: Attributes, x: Bytes) returns (a: Attribute)
    requires x in BodyNames(attributes)
    ensures a in attributes && a.name == x && IsBody(a)
  {
    var last := attributes[|attributes| - 1];
    if IsBody(last) && last.name == x {
      a := last;
    } else {
      a := BodyNameFrom(attributes[..|attributes| - 1], x);
    }
  }

  lemma {:induction false} BodyNameOf(attributes: Attributes, i: nat)
    requires i < |attributes| && IsBody(attributes[i])
    ensures attributes[i].name in BodyNames(attributes)
  {
    if i < |attributes| - 1 { BodyNameOf(attributes[..|attributes| - 1], i); }
  }

  lemma NamesWithin(names: seq<Bytes>, n: nat)
    requires n <= 100 && Distinct(names)
    requires (forall x :: x in names ==> x in Expected(n)) && (forall i :: 0 <= i < n ==> Name(i) in names)
    ensures |names| == n
  {
    ExpectedDistinct(n);
    SameLength(names, Expected(n));
  }

  lemma CarriesDense(attributes: Attributes, encoded: Attributes)
    requires |encoded| <= 100 && InOrder(encoded) && Carries(attributes, encoded)
    ensures Dense(attributes, |encoded|)
  {
    var n, names := |encoded|, BodyNames(attributes);
    forall i | 0 <= i < n ensures Name(i) in names {
      var k := CarriedAt(attributes, encoded, encoded[i]);
      BodyNameOf(attributes, k);
    }
    forall x | x in names ensures x in Expected(n) {
      var k := CarriedOnly(attributes, encoded, x);
      assert Expected(n)[k] == x;
    }
    BodyNamesAre(attributes, []);
    NamesWithin(names, n);
  }

  lemma CarriedValue(attributes: Attributes, encoded: Attributes, i: nat)
    requires i < |encoded| && InOrder(encoded) && Carries(attributes, encoded)
    ensures Lookup(attributes, Name(i)) == encoded[i].value
  {
    var k := CarriedAt(attributes, encoded, encoded[i]);
    LookupIs(attributes, k);
  }

  lemma ValuesAreChunks(attributes: Attributes, encoded: Attributes, chunks: seq<Bytes>)
    requires InOrder(encoded) && Carries(attributes, encoded)
    requires |encoded| == |chunks| && forall i :: 0 <= i < |chunks| ==> encoded[i].value == chunks[i]
    ensures Values(attributes, |chunks|) == chunks
  {
    forall i | 0 <= i < |chunks| ensures Values(attributes, |chunks|)[i] == chunks[i] {
      CarriedValue(attributes, encoded, i);
    }
  }

  ghost predicate Holds(encoded: Attributes, chunks: seq<Bytes>)
  {
    InOrder(encoded) && |encoded| == |chunks| && forall i :: 0 <= i < |chunks| ==> encoded[i].value == chunks[i]
  }

  lemma CarriedChunks(attributes: Attributes, encoded: Attributes, chunks: seq<Bytes>)
    requires 1 <= |chunks| <= 100 && Holds(encoded, chunks) && Carries(attributes, encoded)
    ensures SortBy(BodyNames(attributes), LexLe) == Expected(|chunks|) && Values(attributes, |chunks|) == chunks
  {
    CarriesDense(attributes, encoded);
    DenseSorts(attributes, |chunks|);
    ValuesAreChunks(attributes, encoded, chunks);
  }

  lemma DecodeCarried(h: Hash, data: Bytes, attributes: Attributes, encoded: Attributes, chunks: seq<Bytes>)
    requires 1 <= |chunks| <= 100 && Holds(encoded, chunks) && Carries(attributes, encoded)
    requires Concat(chunks) == Hex(data)
    ensures DecodeBody(h, h(data), attributes) == Body(data)
  {
    hide Concat, Hex, Unhex, Carries, Holds, Expected, BodyNames;
    CarriedChunks(attributes, encoded, chunks);
    UnhexHex(data, false);
  }

  /** Decoding inverts encoding for every body of 1 to 96,000 bytes, whatever other attributes surround it and
      in whatever order. */
  lemma DecodeInvertsEncode(h: Hash, data: Bytes, attributes: Attributes)
    requires 1 <= |data| <= 96_000 && EncodeBody(h, data).Some? && Carries(attributes, EncodeBody(h, data).value.1)
    ensures DecodeBody(h, EncodeBody(h, data).value.0, attributes) == Body(data)
  {
    var chunks := Chunks(Hex(data), BODY_CHUNK_HEX);
    ChunkCount(Hex(data), BODY_CHUNK_HEX, 0);
    ConcatChunks(Hex(data), BODY_CHUNK_HEX);
    DecodeCarried(h, data, attributes, Numbered(chunks, |chunks|), chunks);
  }
}
