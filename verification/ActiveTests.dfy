/** Whether the test the watchdog takes to be active depends on how the output is cut into reads.  An incomplete line
    is looked at where a read happens to end, so a start mark can be seen that the complete line does not bear. */
module ActiveTests {
  import opened Basics
  import opened Sequences
  import opened OutputPumps

  // ------------------------------------------------------------ reading on from a cut

  /** Complete lines and a newline-free tail that make up `text`. */
  ghost predicate Splits(text: string, lines: seq<string>, tail: string)
  {
    text == Concat(lines) + tail && '\n' !in tail && forall i :: 0 <= i < |lines| ==> IsLine(lines[i])
  }

  lemma SplitsFirst(line: string, rest: string, lines: seq<string>, tail: string)
    requires IsLine(line) && Splits(rest, lines, tail)
    ensures Splits(line + rest, [line] + lines, tail)
  {
    ConcatFirst([line] + lines);
    assert ([line] + lines)[1..] == lines;
    assert line + (Concat(lines) + tail) == (line + Concat(lines)) + tail;
  }

  lemma FirstLine(text: string) returns (line: string, rest: string)
    requires '\n' in text
    ensures text == line + rest && IsLine(line) && |rest| < |text|
    ensures Split(text) == ([line] + Split(rest).0, Split(rest).1)
  {
    var i := FindNewline(text);
    line, rest := text[..i + 1], text[i + 1..];
    SplitFirst(text);
  }

  lemma {:induction false} SplitIs(text: string)
    ensures Splits(text, Split(text).0, Split(text).1)
    decreases |text|
  {
    if '\n' in text {
      var line, rest := FirstLine(text);
      SplitIs(rest);
      SplitsFirst(line, rest, Split(rest).0, Split(rest).1);
    } else {
      assert Concat([]) + text == text;
    }
  }

  lemma SplitsAppend(x: string, y: string, lines: seq<string>, tail: string, more: seq<string>, end: string)
    requires Splits(x, lines, tail) && Splits(tail + y, more, end)
    ensures Splits(x + y, lines + more, end)
  {
    ConcatAppend(lines, more);
    assert Concat(lines + more) + end == Concat(lines) + (Concat(more) + end);
    assert (Concat(lines) + tail) + y == Concat(lines) + (tail + y);
  }

  lemma SplitsUnique(text: string, lines: seq<string>, tail: string)
    requires Splits(text, lines, tail)
    ensures Split(text) == (lines, tail)
  {
    SplitUnique(lines, tail);
  }

  lemma SplitAppend(x: string, y: string, lines: seq<string>, tail: string, more: seq<string>, end: string)
    requires (lines, tail) == Split(x) && (more, end) == Split(tail + y)
    ensures Split(x + y) == (lines + more, end)
  {
    assert Splits(x, lines, tail) by { SplitIs(x); }
    assert Splits(tail + y, more, end) by { SplitIs(tail + y); }
    SplitsAppend(x, y, lines, tail, more, end);
    SplitsUnique(x + y, lines + more, end);
  }

  lemma ViewsAppend(a: seq<string>, b: seq<string>, last: View)
    ensures LineViews(a + b) + [last] == LineViews(a) + (LineViews(b) + [last])
  {
    assert LineViews(a + b) == LineViews(a) + LineViews(b);
  }

  lemma BroughtIs(pending: string, more: string, lines: seq<string>, tail: string)
    requires Split(pending + more) == (lines, tail)
    ensures Brought(pending, more) == LineViews(lines) + [Partial(tail)]
  {
  }

  /** Text that comes in two parts is looked at once more, in between. */
  lemma BroughtAppend(pending: string, x: string, y: string, lines: seq<string>, tail: string)
    requires (lines, tail) == Split(pending + x)
    ensures Brought(pending, x + y) == LineViews(lines) + Brought(tail, y)
  {
    hide *;
    var more, end := Split(tail + y).0, Split(tail + y).1;
    var text := pending + x;
    SplitAppend(text, y, lines, tail, more, end);
    BroughtIs(tail, y, more, end);
    assert pending + (x + y) == text + y;
    BroughtIs(pending, x + y, lines + more, end);
    ViewsAppend(lines, more, Partial(end));
  }

  lemma PendingAppend<S>(d: Decoder<S>, a: seq<Byte>, b: seq<Byte>)
    ensures PendingOf(d, a + b) == Split(PendingOf(d, a) + Feed(d, Feed(d, d.start, a).0, b).1).1
  {
    FeedAppend(d, d.start, a, b);
    var x, y := Feed(d, d.start, a).1, Feed(d, Feed(d, d.start, a).0, b).1;
    var (lines, tail) := Split(x);
    var (more, end) := Split(tail + y);
    SplitAppend(x, y, lines, tail, more, end);
  }

  /** A chunk that comes in two parts brings its lines, and a look in between. */
  lemma BringsAppend<S>(d: Decoder<S>, a: seq<Byte>, x: seq<Byte>, y: seq<Byte>) returns (lines: seq<string>)
    ensures Brings(d, a, x) == LineViews(lines) + [Partial(PendingOf(d, a + x))]
    ensures Brings(d, a, x + y) == LineViews(lines) + Brings(d, a + x, y)
  {
    var s := Feed(d, d.start, a).0;
    var more := Feed(d, s, x).1;
    var tail: string;
    lines, tail := Split(PendingOf(d, a) + more).0, Split(PendingOf(d, a) + more).1;
    FeedAppend(d, d.start, a, x);
    FeedAppend(d, s, x, y);
    PendingAppend(d, a, x);
    BroughtAppend(PendingOf(d, a), more, Feed(d, Feed(d, s, x).0, y).1, lines, tail);
  }

  // -------------------------------------------------------------- what a cut can change

  /** The active test when all bytes come in one read. */
  function Uncut<S>(d: Decoder<S>, c: Classifier, bytes: seq<Byte>): Option<string> { Active(c, ViewsOf(d, [bytes])) }

  /** What is looked at where a read ends after `k` bytes. */
  function AtCut<S>(d: Decoder<S>, c: Classifier, bytes: seq<Byte>, k: nat): Effect
    requires k <= |bytes|
  {
    EffectOf(c, Partial(PendingOf(d, bytes[..k])))
  }

  /** A read that ends after `k` bytes sees a start mark, and nothing that follows it says anything. */
  ghost predicate Decisive<S>(d: Decoder<S>, c: Classifier, bytes: seq<Byte>, k: nat)
  {
    0 < k < |bytes| && AtCut(d, c, bytes, k).Sets? && LastEffect(c, Brings(d, bytes[..k], bytes[k..])).Keeps?
  }

  lemma {:induction false} NoBytesNoViews<S>(d: Decoder<S>, chunks: seq<seq<Byte>>)
    requires Concat(chunks) == []
    ensures ViewsOf(d, chunks) == []
  {
    if chunks != [] {
      assert |Concat(chunks)| == |Concat(chunks[..|chunks| - 1])| + |chunks[|chunks| - 1]|;
      NoBytesNoViews(d, chunks[..|chunks| - 1]);
    }
  }

  lemma OneChunk<S>(d: Decoder<S>, bytes: seq<Byte>)
    requires bytes != []
    ensures ViewsOf(d, [bytes]) == Brings(d, [], bytes)
  {
    assert [bytes][..0] == [];
  }

  /** The last chunk decides, or what was active before it stays so. */
  lemma UncutAppend<S>(d: Decoder<S>, c: Classifier, a: seq<Byte>, b: seq<Byte>)
    requires a != [] && b != []
    ensures match LastEffect(c, Brings(d, a, b))
      case Sets(name) => Uncut(d, c, a + b) == Some(name)
      case Clears => Uncut(d, c, a + b) == None
      case Keeps => !AtCut(d, c, a + b, |a|).Sets? ==> Uncut(d, c, a + b) == Uncut(d, c, a)
    ensures AtCut(d, c, a + b, |a|).Sets? ==> Uncut(d, c, a) == Some(AtCut(d, c, a + b, |a|).name)
  {
    assert (a + b)[..|a|] == a;
    OneChunk(d, a);
    OneChunk(d, a + b);
    assert [] + a == a;
    var lines := BringsAppend(d, [], a, b);
    LastEffectAppend(c, LineViews(lines), Brings(d, a, b));
    EffectSnoc(c, LineViews(lines), Partial(PendingOf(d, a)));
  }

  lemma DecisiveStays<S>(d: Decoder<S>, c: Classifier, a: seq<Byte>, b: seq<Byte>, k: nat)
    requires Decisive(d, c, a, k) && LastEffect(c, Brings(d, a, b)).Keeps?
    ensures Decisive(d, c, a + b, k) && AtCut(d, c, a + b, k) == AtCut(d, c, a, k)
  {
    assert (a + b)[..k] == a[..k] && (a + b)[k..] == a[k..] + b && a[..k] + a[k..] == a;
    var lines := BringsAppend(d, a[..k], a[k..], b);
    EffectSnoc(c, LineViews(lines), Partial(PendingOf(d, a)));
    LastEffectAppend(c, LineViews(lines), Brings(d, a, b));
  }

  /** The active test is the one of the uncut stream or that of a decisive cut. */
  ghost predicate Explained<S>(d: Decoder<S>, c: Classifier, bytes: seq<Byte>, active: Option<string>)
  {
    || active == Uncut(d, c, bytes)
    || exists k: nat :: Decisive(d, c, bytes, k) && active == Some(AtCut(d, c, bytes, k).name)
  }

  lemma ActiveNext<S>(d: Decoder<S>, c: Classifier, init: seq<seq<Byte>>, last: seq<Byte>)
    requires Concat(init) != [] && last != [] && Explained(d, c, Concat(init), Active(c, ViewsOf(d, init)))
    ensures Explained(d, c, Concat(init) + last, Active(c, ViewsOf(d, init) + Brings(d, Concat(init), last)))
  {
    var a := Concat(init);
    var bytes := a + last;
    assert bytes[..|a|] == a && bytes[|a|..] == last;
    LastEffectAppend(c, ViewsOf(d, init), Brings(d, a, last));
    UncutAppend(d, c, a, last);
    if LastEffect(c, Brings(d, a, last)).Keeps? {
      if Active(c, ViewsOf(d, init)) == Uncut(d, c, a) {
        if AtCut(d, c, bytes, |a|).Sets? { assert Decisive(d, c, bytes, |a|); }
      } else {
        var k: nat :| Decisive(d, c, a, k) && Active(c, ViewsOf(d, init)) == Some(AtCut(d, c, a, k).name);
        DecisiveStays(d, c, a, last, k);
      }
    }
  }

  lemma ActiveStep<S>(d: Decoder<S>, c: Classifier, init: seq<seq<Byte>>, last: seq<Byte>)
    requires Explained(d, c, Concat(init), Active(c, ViewsOf(d, init)))
    ensures var added := if last == [] then [] else Brings(d, Concat(init), last);
      Explained(d, c, Concat(init) + last, Active(c, ViewsOf(d, init) + added))
  {
    if last == [] {
      assert Concat(init) + last == Concat(init) && ViewsOf(d, init) + [] == ViewsOf(d, init);
    } else if Concat(init) == [] {
      NoBytesNoViews(d, init);
      OneChunk(d, last);
      assert Concat(init) + last == last && [] + Brings(d, [], last) == Brings(d, [], last);
    } else {
      ActiveNext(d, c, init, last);
    }
  }

  /** Whatever the chunks. */
  lemma {:induction false} ActiveIs<S>(d: Decoder<S>, c: Classifier, chunks: seq<seq<Byte>>)
    ensures Explained(d, c, Concat(chunks), Active(c, ViewsOf(d, chunks)))
  {
    if chunks == [] {
      var nothing: seq<Byte> := [];
      NoBytesNoViews(d, [nothing]);
    } else {
      ActiveIs(d, c, chunks[..|chunks| - 1]);
      ActiveStep(d, c, chunks[..|chunks| - 1], chunks[|chunks| - 1]);
    }
  }

  ghost predicate CutsAgree<S>(d: Decoder<S>, c: Classifier, bytes: seq<Byte>)
  {
    forall chunks: seq<seq<Byte>> :: Concat(chunks) == bytes ==> Active(c, ViewsOf(d, chunks)) == Uncut(d, c, bytes)
  }

  ghost predicate DecisiveAgree<S>(d: Decoder<S>, c: Classifier, bytes: seq<Byte>)
  {
    forall k: nat :: Decisive(d, c, bytes, k) ==> Uncut(d, c, bytes) == Some(AtCut(d, c, bytes, k).name)
  }

  lemma AgreeFrom<S>(d: Decoder<S>, c: Classifier, bytes: seq<Byte>, active: Option<string>)
    requires DecisiveAgree(d, c, bytes) && Explained(d, c, bytes, active)
    ensures active == Uncut(d, c, bytes)
  {
  }

  lemma CutAt<S>(d: Decoder<S>, c: Classifier, bytes: seq<Byte>, k: nat)
    requires Decisive(d, c, bytes, k)
    ensures var chunks := [bytes[..k], bytes[k..]];
      Concat(chunks) == bytes && Active(c, ViewsOf(d, chunks)) == Some(AtCut(d, c, bytes, k).name)
  {
    var a, b := bytes[..k], bytes[k..];
    var chunks := [a, b];
    var one: seq<seq<Byte>> := [a];
    assert chunks[..1] == one && one[..0] == [] && a + b == bytes;
    assert Concat(one) == a;
    assert Concat(chunks) == Concat(one) + b;
    LastEffectAppend(c, ViewsOf(d, [a]), Brings(d, a, b));
    OneChunk(d, a);
    assert [] + a == a && a + [] == a;
    var lines := BringsAppend(d, [], a, []);
    EffectSnoc(c, LineViews(lines), Partial(PendingOf(d, a)));
  }

  lemma CutDiffers<S>(d: Decoder<S>, c: Classifier, bytes: seq<Byte>, k: nat)
    requires Decisive(d, c, bytes, k) && CutsAgree(d, c, bytes)
    ensures Uncut(d, c, bytes) == Some(AtCut(d, c, bytes, k).name)
  {
    hide Concat, ViewsOf, Active, AtCut, Uncut;
    CutAt(d, c, bytes, k);
    var chunks := [bytes[..k], bytes[k..]];
    assert Concat(chunks) == bytes;
  }

  lemma AllAgree<S>(d: Decoder<S>, c: Classifier, bytes: seq<Byte>)
    requires DecisiveAgree(d, c, bytes)
    ensures CutsAgree(d, c, bytes)
  {
    forall chunks: seq<seq<Byte>> | Concat(chunks) == bytes
      ensures Active(c, ViewsOf(d, chunks)) == Uncut(d, c, bytes)
    {
      ActiveIs(d, c, chunks);
      AgreeFrom(d, c, bytes, Active(c, ViewsOf(d, chunks)));
    }
  }

  /** The bytes alone say which test is active, however they are cut into reads, exactly when every cut at which an
      incomplete line bears a start mark that nothing later speaks to names the test that is active uncut. */
  lemma ActiveByBytesIff<S>(d: Decoder<S>, c: Classifier, bytes: seq<Byte>)
    ensures CutsAgree(d, c, bytes) <==> DecisiveAgree(d, c, bytes)
  {
    if DecisiveAgree(d, c, bytes) { AllAgree(d, c, bytes); }
    if CutsAgree(d, c, bytes) {
      forall k: nat | Decisive(d, c, bytes, k) ensures Uncut(d, c, bytes) == Some(AtCut(d, c, bytes, k).name) {
        CutDiffers(d, c, bytes, k);
      }
    }
  }

  /** Bytes without a newline, read in one go, are one incomplete line. */
  lemma OneLook<S>(d: Decoder<S>, c: Classifier, bytes: seq<Byte>, text: string)
    requires bytes != [] && text == Feed(d, d.start, bytes).1 && '\n' !in text
    ensures PendingOf(d, bytes) == text && Brings(d, [], bytes) == [Partial(text)]
    ensures LastEffect(c, Brings(d, [], bytes)) == EffectOf(c, Partial(text))
  {
    hide Feed, Split;
    SplitNone(text);
    FeedNothing(d);
    SplitNone("");
    assert "" + text == text;
    BroughtIs("", text, [], text);
    assert LineViews([]) + [Partial(text)] == [Partial(text)];
    EffectSnoc(c, [], Partial(text));
    assert [] + [Partial(text)] == [Partial(text)];
  }

  lemma FeedNothing<S>(d: Decoder<S>)
    ensures Feed(d, d.start, []) == (d.start, "")
  {
  }

  /** More bytes on the same incomplete line bring a look at the whole of it. */
  lemma NextLook<S>(d: Decoder<S>, c: Classifier, a: seq<Byte>, b: seq<Byte>, text: string)
    requires text == Feed(d, d.start, a + b).1 && '\n' !in text
    ensures '\n' !in Feed(d, d.start, a).1
    ensures LastEffect(c, Brings(d, a, b)) == EffectOf(c, Partial(text))
  {
    hide Feed, Split;
    FeedAppend(d, d.start, a, b);
    var x, y := Feed(d, d.start, a).1, Feed(d, Feed(d, d.start, a).0, b).1;
    assert forall i :: 0 <= i < |x| ==> x[i] == (x + y)[i];
    SplitNone(x);
    SplitNone(x + y);
    BroughtIs(x, y, [], x + y);
    assert LineViews([]) + [Partial(text)] == [Partial(text)];
    EffectSnoc(c, [], Partial(text));
    assert [] + [Partial(text)] == [Partial(text)];
  }

  /** Test output after the mark on its line: read in one go the line starts no test, cut after the mark it does. */
  lemma OutputHidesStart<S>(d: Decoder<S>, c: Classifier, a: seq<Byte>, b: seq<Byte>, name: string)
    requires a != [] && b != [] && '\n' !in Feed(d, d.start, a + b).1
    requires c.test(Feed(d, d.start, a).1) == Some(TestMark(name, false)) && c.test(Feed(d, d.start, a + b).1).None?
    ensures Active(c, ViewsOf(d, [a + b])) == None && Active(c, ViewsOf(d, [a, b])) == Some(name)
  {
    hide Feed, Split, Brings, ViewsOf, LastEffect, PendingOf;
    var bytes := a + b;
    assert bytes[..|a|] == a && bytes[|a|..] == b;
    NextLook(d, c, a, b, Feed(d, d.start, bytes).1);
    OneLook(d, c, a, Feed(d, d.start, a).1);
    OneLook(d, c, bytes, Feed(d, d.start, bytes).1);
    OneChunk(d, bytes);
    CutAt(d, c, bytes, |a|);
  }

  /** One character a byte. */
  const LATIN: Decoder<bool> := Decoder(false, (s: bool, b: Byte) => (s, [b as char]), (_: bool) => "")

  /** Only the line `t` is a mark. */
  const T_STARTS: Classifier :=
    Classifier((_: string) => None, (line: string) => if line == "t" then Some(TestMark("t", false)) else None)

  /** `tu` in one read starts nothing, `t` and `u` in two start the test. */
  lemma CutsDisagree()
    ensures Active(T_STARTS, ViewsOf(LATIN, [[116, 117]])) == None
    ensures Active(T_STARTS, ViewsOf(LATIN, [[116], [117]])) == Some("t")
  {
    var a: seq<Byte>, b: seq<Byte> := [116], [117];
    assert a + b == [116, 117] && (a + b)[..1] == a && a[..0] == [];
    assert Feed(LATIN, false, a).1 == "t" && Feed(LATIN, false, a + b).1 == "tu";
    OutputHidesStart(LATIN, T_STARTS, a, b, "t");
  }
}
