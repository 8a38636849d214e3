/** The WebAssembly section walker of `scripts/build_method_codec_wasm.py`, against the
    grammar of the WebAssembly Core Specification 1.0 (section 5.2.2 for unsigned LEB128
    integers, section 5.5.2 for sections). */
module WasmSections {
  import opened Basics

  datatype SizeResult = Size(value: nat, next: nat) | TruncatedSize | InvalidSize
  datatype Verdict = Accepted | BadHeader | BadSize | TruncatedSection | HasImports

  function Pow2(n: nat): (p: nat)
    ensures p >= 1
  {
    if n == 0 then 1 else 2 * Pow2(n - 1)
  }

  /** The production `uN`: `enc` is an encoding of `v` as an unsigned integer of `n` bits.
      A byte below 2^7 ends the number; any other byte needs n > 7 and seven fewer bits. */
  ghost predicate U(n: nat, enc: Bytes, v: nat)
    decreases |enc|
  {
    && enc != []
    && if enc[0] < 128 then enc == [enc[0]] && v == enc[0] && v < Pow2(n)
       else n > 7 && v % 128 == enc[0] - 128 && U(n - 7, enc[1..], v / 128)
  }

  /** Reads one `uN` off the front: its value and how many bytes it takes. */
  function Read(n: nat, s: Bytes): (r: Option<(nat, nat)>)
    ensures r.Some? ==> 1 <= r.value.1 <= |s|
    decreases |s|
  {
    if s == [] then None
    else if s[0] < 128 then (if s[0] < Pow2(n) then Some((s[0], 1)) else None)
    else if n <= 7 then None
    else
      match Read(n - 7, s[1..])
      case None => None
      case Some((m, k)) => Some((128 * m + (s[0] - 128), k + 1))
  }

  /** `Read` finds exactly the encodings of the grammar. */
  lemma {:induction false} ReadIffU(n: nat, s: Bytes, v: nat, k: nat)
    requires k <= |s|
    ensures Read(n, s) == Some((v, k)) <==> U(n, s[..k], v)
    decreases |s|
  {
    if s != [] && k >= 1 {
      if s[0] >= 128 && n > 7 {
        ReadIffU(n - 7, s[1..], v / 128, k - 1);
        assert s[1..][..k - 1] == s[..k][1..];
        var rest := Read(n - 7, s[1..]);
        if rest.Some? { ReadIffU(n - 7, s[1..], rest.value.0, rest.value.1); }
      } else if s[0] < 128 {
        assert k == 1 ==> s[..k] == [s[0]];
      }
    }
  }

  function Shifted(low: nat, p: nat, r: Option<(nat, nat)>, k: nat): Option<(nat, nat)>
  {
    if r.None? then None else Some((low + p * r.value.0, k + r.value.1))
  }

  lemma Pow2Values()
    ensures Pow2(4) == 16 && Pow2(32) >= Pow2(25) >= Pow2(18) >= Pow2(11) >= 128
  {
    assert Pow2(4) == 16;
    assert Pow2(7) == 128;
    assert Pow2(11) == 2048;
    assert Pow2(18) == 128 * Pow2(11);
    assert Pow2(25) == 128 * Pow2(18);
    assert Pow2(32) == 128 * Pow2(25);
  }

  /** The number read so far is `low`, scaled by `p` = 128^i; `i` bytes have been read. */
  ghost predicate Partial(s: Bytes, i: nat, low: nat, p: nat)
    requires i <= |s| && i < 5
  {
    Read(32, s) == Shifted(low, p, Read(32 - 7 * i, s[i..]), i)
  }

  lemma PartialEmpty(s: Bytes, i: nat, low: nat, p: nat)
    requires i < 5 && i == |s| && Partial(s, i, low, p)
    ensures Read(32, s) == None
  {
  }

  lemma ReadFour(t: Bytes)
    requires t != []
    ensures Read(4, t) == if t[0] <= 0x0F then Some((t[0], 1)) else None
  {
    Pow2Values();
  }

  lemma ReadWide(n: nat, t: Bytes)
    requires t != [] && t[0] < 128 && n in {32, 25, 18, 11}
    ensures Read(n, t) == Some((t[0], 1))
  {
    Pow2Values();
  }

  /** The byte at place `i`, on its own: a last one is below 2^7, and below 2^4 at the fifth place. */
  lemma ReadAt(s: Bytes, i: nat)
    requires i < 5 && i < |s|
    ensures i == 4 && s[i] > 0x0F ==> Read(32 - 7 * i, s[i..]) == None
    ensures !(i == 4 && s[i] > 0x0F) && s[i] < 128 ==> Read(32 - 7 * i, s[i..]) == Some((s[i], 1))
  {
    var t := s[i..];
    assert t[0] == s[i];
    if i == 4 { ReadFour(t); } else if s[i] < 128 { ReadWide(32 - 7 * i, t); }
  }

  lemma PartialLast(s: Bytes, i: nat, low: nat, p: nat)
    requires i < 5 && i < |s| && Partial(s, i, low, p)
    ensures i == 4 && s[i] > 0x0F ==> Read(32, s) == None
    ensures !(i == 4 && s[i] > 0x0F) && s[i] < 128 ==> Read(32, s) == Some((low + s[i] * p, i + 1))
  {
    ReadAt(s, i);
    assert p * s[i] == s[i] * p;
  }

  lemma Regroup(low: int, p: int, k: int, b: int)
    ensures low + p * (128 * k + b) == (low + b * p) + (128 * p) * k
  {
  }

  lemma PartialNext(s: Bytes, i: nat, low: nat, p: nat)
    requires i < 4 && i < |s| && Partial(s, i, low, p) && s[i] >= 128
    ensures Partial(s, i + 1, low + (s[i] - 128) * p, 128 * p)
  {
    assert s[i..][0] == s[i] && s[i..][1..] == s[i + 1..];
    var r := Read(32 - 7 * (i + 1), s[i + 1..]);
    if r.Some? { Regroup(low, p, r.value.0, s[i] - 128); }
  }

  lemma StaysBelow(value: nat, scale: nat, b: nat)
    requires value < scale && b < 128
    ensures value + b * scale < 128 * scale
  {
    assert b * scale <= 127 * scale;
  }

  /** `_read_size`.  The seven bits each byte adds lie above those
      already set (`value < scale`), so the disjunction is written as a sum. */
  method ReadSize(m: Bytes, start: nat) returns (r: SizeResult)
    requires start <= |m|
    ensures match Read(32, m[start..])
            case Some((v, k)) => r == Size(v, start + k)
            case None => r.TruncatedSize? || r.InvalidSize?
    ensures r.TruncatedSize? <==> |m| - start < 5 && forall k :: start <= k < |m| ==> m[k] >= 128
  {
    var value: nat, offset: nat, scale: nat := 0, start, 1;
    ghost var s := m[start..];
    for i := 0 to 5 // shift == 7 * i, scale == 2^shift
      invariant i <= |s| && offset == start + i
      invariant i < 5 ==> Partial(s, i, value, scale)
      invariant value < scale && forall k :: start <= k < offset ==> m[k] >= 128
      invariant i == 5 ==> Read(32, s) == None
    {
      if offset >= |m| {
        PartialEmpty(s, i, value, scale);
        return TruncatedSize;
      }
      var byte: int := m[offset];
      assert byte == s[i];
      PartialLast(s, i, value, scale);
      offset := offset + 1;
      if i == 4 && byte > 0x0F {
        return InvalidSize;
      }
      if byte < 128 {
        value := value + byte * scale;
        return Size(value, offset);
      }
      PartialNext(s, i, value, scale);
      StaysBelow(value, scale, byte - 128);
      value := value + (byte - 128) * scale;
      scale := 128 * scale;
    }
    return InvalidSize;
  }

  /** Reading inverts every encoder of the grammar, padded encodings included. */
  lemma ReadInvertsEncoding(before: Bytes, enc: Bytes, after: Bytes, v: nat)
    requires U(32, enc, v)
    ensures Read(32, (before + enc + after)[|before|..]) == Some((v, |enc|))
  {
    var s := (before + enc + after)[|before|..];
    assert s == enc + after && s[..|enc|] == enc;
    ReadIffU(32, s, v, |enc|);
  }

  // ------------------------------------------------------------------- sections

  /** A section: an id byte, its size as a u32, and that many bytes of contents. */
  datatype Section = Section(id: Byte, size: Bytes, body: Bytes)

  ghost predicate WellFormed(c: Section) { U(32, c.size, |c.body|) }

  function Encode(c: Section): Bytes { [c.id] + c.size + c.body }

  function EncodeAll(cs: seq<Section>): Bytes
  {
    if cs == [] then [] else Encode(cs[0]) + EncodeAll(cs[1..])
  }

  /** Splits off the first section, if a whole one is there. */
  function Split(s: Bytes): (r: Option<Section>)
    ensures r.Some? ==> |s| >= 2 && |Encode(r.value)| <= |s|
  {
    if s == [] then None
    else
      match Read(32, s[1..])
      case None => None
      case Some((v, k)) =>
        if 1 + k + v > |s| then None else Some(Section(s[0], s[1..1 + k], s[1 + k..1 + k + v]))
  }

  function Sections(s: Bytes): (r: Option<seq<Section>>)
    decreases |s|
  {
    if s == [] then Some([])
    else
      match Split(s)
      case None => None
      case Some(c) =>
        match Sections(s[|Encode(c)|..])
        case None => None
        case Some(cs) => Some([c] + cs)
  }

  lemma SplitIs(s: Bytes)
    ensures Split(s).Some? ==> WellFormed(Split(s).value) && s == Encode(Split(s).value) + s[|Encode(Split(s).value)|..]
  {
    if Split(s).Some? {
      var (v, k) := Read(32, s[1..]).value;
      assert s[1..][..k] == s[1..1 + k];
      ReadIffU(32, s[1..], v, k);
    }
  }

  lemma SplitEncode(c: Section, rest: Bytes)
    requires WellFormed(c)
    ensures Split(Encode(c) + rest) == Some(c)
  {
    var s := Encode(c) + rest;
    assert s[1..] == [] + c.size + (c.body + rest);
    ReadInvertsEncoding([], c.size, c.body + rest, |c.body|);
    assert s[1..1 + |c.size|] == c.size && s[1 + |c.size|..1 + |c.size| + |c.body|] == c.body;
  }

  ghost predicate Tiles(s: Bytes, cs: seq<Section>)
  {
    s == EncodeAll(cs) && forall i :: 0 <= i < |cs| ==> WellFormed(cs[i])
  }

  lemma {:induction false} SectionsTile(s: Bytes)
    ensures Sections(s).Some? ==> Tiles(s, Sections(s).value)
    decreases |s|
  {
    if s != [] && Split(s).Some? {
      SplitIs(s);
      SectionsTile(s[|Encode(Split(s).value)|..]);
    }
  }

  lemma SectionsStep(s: Bytes, c: Section, cs: seq<Section>)
    requires Split(s) == Some(c) && Sections(s[|Encode(c)|..]) == Some(cs)
    ensures Sections(s) == Some([c] + cs)
  {
  }

  lemma {:induction false} TilingFound(s: Bytes, cs: seq<Section>)
    requires Tiles(s, cs)
    ensures Sections(s) == Some(cs)
    decreases |cs|
  {
    if cs != [] {
      var c, rest := cs[0], EncodeAll(cs[1..]);
      SplitEncode(c, rest);
      assert s == Encode(c) + rest && s[|Encode(c)|..] == rest;
      TilingFound(rest, cs[1..]);
      SectionsStep(s, c, cs[1..]);
      assert [c] + cs[1..] == cs;
    }
  }

  /** `Sections` finds exactly the tilings of its input by well-formed sections, so a tiling
      is unique. */
  lemma SectionsIff(s: Bytes, cs: seq<Section>)
    ensures Sections(s) == Some(cs) <==> Tiles(s, cs)
  {
    SectionsTile(s);
    if Tiles(s, cs) { TilingFound(s, cs); }
  }

  const Header: Bytes := [0x00, 0x61, 0x73, 0x6D, 0x01, 0x00, 0x00, 0x00]

  predicate NoImports(cs: seq<Section>) { forall i :: 0 <= i < |cs| ==> cs[i].id != 2 }

  /** What the walker decides about the rest of a module. */
  predicate Clean(s: Bytes) { Sections(s).Some? && NoImports(Sections(s).value) }

  lemma NoImportsCons(c: Section, cs: seq<Section>)
    ensures NoImports([c] + cs) <==> c.id != 2 && NoImports(cs)
  {
    var all := [c] + cs;
    assert all[0] == c && forall i :: 0 <= i < |cs| ==> all[i + 1] == cs[i];
  }

  lemma CleanStep(s: Bytes)
    requires s != []
    ensures Clean(s) <==> Split(s).Some? && Split(s).value.id != 2 && Clean(s[|Encode(Split(s).value)|..])
  {
    if Split(s).Some? {
      var c := Split(s).value;
      var rest := Sections(s[|Encode(c)|..]);
      if rest.Some? { NoImportsCons(c, rest.value); }
    }
  }

  /** What the section at `offset` means for the rest of the module. */
  lemma WalkStep(m: Bytes, offset: nat)
    requires offset < |m|
    ensures match Read(32, m[offset + 1..])
            case None => !Clean(m[offset..])
            case Some((v, k)) =>
              var end := offset + 1 + k + v;
              if end > |m| || m[offset] == 2 then !Clean(m[offset..]) else Clean(m[offset..]) <==> Clean(m[end..])
  {
    var s := m[offset..];
    assert s[1..] == m[offset + 1..];
    CleanStep(s);
    if Split(s).Some? {
      var n := |Encode(Split(s).value)|;
      assert s[n..] == m[offset + n..];
    }
  }

  /** The body of the loop: the section at `offset`, and where the next one starts. */
  method NextSection(m: Bytes, offset: nat) returns (r: Verdict, next: nat)
    requires offset < |m|
    ensures r == Accepted ==> offset < next <= |m| && (Clean(m[offset..]) <==> Clean(m[next..]))
    ensures r != Accepted ==> !Clean(m[offset..])
  {
    var sectionId := m[offset];
    WalkStep(m, offset);
    var size := ReadSize(m, offset + 1);
    if !size.Size? {
      return BadSize, offset;
    }
    next := size.next + size.value;
    if next > |m| {
      return TruncatedSection, next;
    }
    return if sectionId == 2 then HasImports else Accepted, next;
  }

  /** `verify_no_imports` */
  method VerifyNoImports(m: Bytes) returns (r: Verdict)
    ensures r == Accepted <==> Header <= m && Clean(m[8..])
  {
    if !(Header <= m) {
      return BadHeader;
    }
    var offset: nat := 8;
    ghost var clean := Clean(m[offset..]);
    while offset < |m|
      invariant 8 <= offset <= |m| && clean == Clean(m[offset..])
    {
      var verdict, next := NextSection(m, offset);
      if verdict != Accepted {
        return verdict;
      }
      offset := next;
    }
    return Accepted;
  }

  /** Acceptance, in the terms of the standard: the header, then sections that tile the rest
      of the module, none of them an import section. */
  lemma AcceptsExactly(m: Bytes)
    ensures Header <= m && Clean(m[8..]) <==>
            exists cs :: m == Header + EncodeAll(cs) && Tiles(EncodeAll(cs), cs) && NoImports(cs)
  {
    if Header <= m && Clean(m[8..]) {
      SectionsTile(m[8..]);
      assert m == Header + EncodeAll(Sections(m[8..]).value);
    }
    if cs :| m == Header + EncodeAll(cs) && Tiles(EncodeAll(cs), cs) && NoImports(cs) {
      assert m[8..] == EncodeAll(cs);
      TilingFound(m[8..], cs);
    }
  }
}
