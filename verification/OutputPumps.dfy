/** `Progress` and `_OutputPump` of `scripts/bounded_test_runner.py`: an incremental line
    splitter over arbitrarily cut reads, feeding the libtest watchdog. */
module OutputPumps {
  import opened Basics
  import opened Sequences

  /** An incremental text decoder: a transducer that consumes bytes one at a time. */
  datatype Decoder<!S> = Decoder(start: S, step: (S, Byte) -> (S, string), flush: S -> string)

  /** The state and text after feeding `bytes` to the decoder. */
  function Feed<S>(d: Decoder<S>, s: S, bytes: seq<Byte>): (r: (S, string))
  {
    if bytes == [] then (s, "")
    else
      var (s1, t1) := Feed(d, s, bytes[..|bytes| - 1]);
      var (s2, t2) := d.step(s1, bytes[|bytes| - 1]);
      (s2, t1 + t2)
  }

  /** Decoding does not depend on where the stream is cut. */
  lemma {:induction false} FeedAppend<S>(d: Decoder<S>, s: S, a: seq<Byte>, b: seq<Byte>)
    ensures var (s1, t1) := Feed(d, s, a);
      var (s2, t2) := Feed(d, s1, b);
      Feed(d, s, a + b) == (s2, t1 + t2)
  {
    if b == [] {
      assert a + b == a;
      assert Feed(d, s, a).1 + "" == Feed(d, s, a).1;
    } else {
      var init := b[..|b| - 1];
      assert (a + b)[..|a + b| - 1] == a + init;
      FeedAppend(d, s, a, init);
      var (s1, t1) := Feed(d, s, a);
      var (s2, t2) := Feed(d, s1, init);
      var (s3, t3) := d.step(s2, b[|b| - 1]);
      assert (t1 + t2) + t3 == t1 + (t2 + t3);
    }
  }

  /** What the two regular expressions say of a line. */
  datatype TestMark = TestMark(name: string, finished: bool)
  datatype Classifier = Classifier(binary: string -> Option<string>, test: string -> Option<TestMark>)

  /** A `test ...` line starts with "test"; a `Running` or `Doc-tests` line cannot. */
  ghost predicate Disjoint(c: Classifier)
  {
    forall line :: c.binary(line).None? || c.test(line).None?
  }

  datatype Seen = Seen(binary: Option<string>, activeTest: Option<string>, testStartedAt: Option<real>,
                       testsCompleted: nat)

  /** `Progress.observe` */
  function Observed(p: Seen, c: Classifier, line: string, now: real): (r: Seen)
  {
    var found := c.binary(line);
    var q := if found.Some? then p.(binary := found, activeTest := None, testStartedAt := None) else p;
    match c.test(line)
    case None => q
    case Some(mark) =>
      if !mark.finished then q.(activeTest := Some(mark.name), testStartedAt := Some(now))
      else q.(testsCompleted := q.testsCompleted + 1, activeTest := None, testStartedAt := None)
  }

  /** The binary last announced and the number of finished tests. */
  type Tally = (Option<string>, nat)

  function TallyOf(p: Seen): Tally { (p.binary, p.testsCompleted) }

  /** The tally of a whole transcript, line by line. */
  function TallyLines(c: Classifier, lines: seq<string>): Tally
  {
    if lines == [] then (None, 0)
    else
      var (b, n) := TallyLines(c, lines[..|lines| - 1]);
      var line := Strip(lines[|lines| - 1]);
      (if c.binary(line).Some? then c.binary(line) else b,
       if c.test(line).Some? && c.test(line).value.finished then n + 1 else n)
  }

  /** `line.rstrip("\r\n")` */
  function Strip(line: string): string
  {
    if line != [] && (line[|line| - 1] == '\r' || line[|line| - 1] == '\n') then Strip(line[..|line| - 1]) else line
  }

  // ------------------------------------------------------------------ splitting

  /** The text up to and including its first newline. */
  ghost predicate IsLine(line: string)
  {
    line != [] && line[|line| - 1] == '\n' && forall i :: 0 <= i < |line| - 1 ==> line[i] != '\n'
  }

  /** The complete lines of `text`, and what follows the last newline. */
  function Split(text: string): (r: (seq<string>, string))
  {
    if '\n' !in text then ([], text)
    else
      var i := FindNewline(text);
      var (lines, tail) := Split(text[i + 1..]);
      ([text[..i + 1]] + lines, tail)
  }

  function FindNewline(text: string): (i: nat)
    requires '\n' in text
    ensures i < |text| && text[i] == '\n' && forall j :: 0 <= j < i ==> text[j] != '\n'
  {
    if text[0] == '\n' then 0 else 1 + FindNewline(text[1..])
  }

  lemma LineFirst(line: string, rest: string)
    requires IsLine(line)
    ensures FindNewline(line + rest) == |line| - 1 && (line + rest)[..|line|] == line && (line + rest)[|line|..] == rest
  {
    var text := line + rest;
    assert text[|line| - 1] == '\n';
    forall j | 0 <= j < |line| - 1 ensures text[j] != '\n' { assert text[j] == line[j]; }
  }

  /** Complete lines followed by a newline-free tail can only be the split of their text. */
  lemma {:induction false} SplitUnique(lines: seq<string>, tail: string)
    requires (forall i :: 0 <= i < |lines| ==> IsLine(lines[i])) && '\n' !in tail
    ensures Split(Concat(lines) + tail) == (lines, tail)
  {
    if lines == [] {
      assert Concat(lines) + tail == tail;
    } else {
      var first, rest := lines[0], lines[1..];
      ConcatFirst(lines);
      var text := Concat(lines) + tail;
      assert text == first + (Concat(rest) + tail);
      LineFirst(first, Concat(rest) + tail);
      SplitUnique(rest, tail);
      assert [first] + rest == lines;
    }
  }

  // ------------------------------------------------------------- the active test

  /** What the watchdog looks at: complete lines, and after each read the line that is not complete yet. */
  datatype View = Line(text: string) | Partial(text: string)

  /** What a view says of the active test. */
  datatype Effect = Sets(name: string) | Clears | Keeps

  /** A start mark starts its test, on a complete line or not; on a complete line a finish mark ends the test, and so
      does the announcement of a binary. */
  function EffectOf(c: Classifier, v: View): Effect
  {
    match v
    case Line(text) =>
      var line := Strip(text);
      if c.test(line).Some? then (if c.test(line).value.finished then Clears else Sets(c.test(line).value.name))
      else if c.binary(line).Some? then Clears
      else Keeps
    case Partial(text) =>
      if c.test(text).Some? && !c.test(text).value.finished then Sets(c.test(text).value.name) else Keeps
  }

  /** The last effect there is. */
  function LastEffect(c: Classifier, views: seq<View>): Effect
  {
    if views == [] then Keeps
    else
      var e := EffectOf(c, views[|views| - 1]);
      if e.Keeps? then LastEffect(c, views[..|views| - 1]) else e
  }

  /** The test of the last start mark with no finish mark and no binary after it. */
  function Active(c: Classifier, views: seq<View>): Option<string>
  {
    match LastEffect(c, views)
    case Sets(name) => Some(name)
    case _ => None
  }

  /** The test an incomplete line has been found to start, if it is still incomplete. */
  function PartialOf(c: Classifier, views: seq<View>): Option<string>
  {
    if views == [] || views[|views| - 1].Line? then None
    else
      var e := EffectOf(c, views[|views| - 1]);
      if e.Sets? then Some(e.name) else PartialOf(c, views[..|views| - 1])
  }

  lemma {:induction false} LastEffectAppend(c: Classifier, a: seq<View>, b: seq<View>)
    ensures LastEffect(c, a + b) == if LastEffect(c, b).Keeps? then LastEffect(c, a) else LastEffect(c, b)
  {
    if b == [] {
      assert a + b == a;
    } else {
      assert (a + b)[..|a + b| - 1] == a + b[..|b| - 1];
      LastEffectAppend(c, a, b[..|b| - 1]);
    }
  }

  lemma EffectSnoc(c: Classifier, views: seq<View>, v: View)
    ensures LastEffect(c, views + [v]) == if EffectOf(c, v).Keeps? then LastEffect(c, views) else EffectOf(c, v)
  {
    assert (views + [v])[..|views|] == views;
  }

  function LineViews(lines: seq<string>): (r: seq<View>)
    ensures |r| == |lines| && forall i :: 0 <= i < |r| ==> r[i] == Line(lines[i])
  {
    seq(|lines|, i requires 0 <= i < |lines| => Line(lines[i]))
  }

  /** What a read brings that finds `more` text after a pending line. */
  function Brought(pending: string, more: string): seq<View>
  {
    var (lines, tail) := Split(pending + more);
    LineViews(lines) + [Partial(tail)]
  }

  /** The record knows the active test, and since when there is one. */
  ghost predicate Notes(c: Classifier, views: seq<View>, seen: Seen)
  {
    seen.activeTest == Active(c, views) && (seen.testStartedAt.Some? <==> seen.activeTest.Some?)
  }

  /** When the active test started, after `added` was looked at: at one of the times it was looked at, or before, if
      nothing added says anything or only the same incomplete line is seen again. */
  ghost predicate Timed(c: Classifier, partial: Option<string>, added: seq<View>, before: Option<real>,
                        after: Option<real>, clock: nat -> real)
  {
    match LastEffect(c, added)
    case Keeps => after == before
    case Clears => after == None
    case Sets(name) =>
      if |added| == 1 && added[0].Partial? && partial == Some(name) then after == before
      else exists k: nat :: after == Some(clock(k))
  }

  /** An active test was active before or started at one of the times given. */
  ghost predicate StartsAt(before: Option<real>, after: Option<real>, clock: nat -> real)
  {
    after == before || after.None? || exists k: nat :: after == Some(clock(k))
  }

  lemma NoteLine(c: Classifier, views: seq<View>, seen: Seen, line: string, now: real)
    requires Notes(c, views, seen)
    ensures Notes(c, views + [Line(line)], Observed(seen, c, Strip(line), now))
    ensures PartialOf(c, views + [Line(line)]) == None
  {
    EffectSnoc(c, views, Line(line));
  }

  lemma NotePartial(c: Classifier, views: seq<View>, seen: Seen, text: string, now: real)
    requires Notes(c, views, seen) && Disjoint(c)
    ensures match EffectOf(c, Partial(text))
      case Sets(name) =>
        && Notes(c, views + [Partial(text)], Observed(seen, c, text, now))
        && PartialOf(c, views + [Partial(text)]) == Some(name)
        && (PartialOf(c, views) == Some(name) ==> Notes(c, views + [Partial(text)], seen))
      case _ =>
        && Notes(c, views + [Partial(text)], seen) && PartialOf(c, views + [Partial(text)]) == PartialOf(c, views)
  {
    EffectSnoc(c, views, Partial(text));
    assert (views + [Partial(text)])[..|views|] == views;
    PartialIsActive(c, views);
  }

  lemma {:induction false} PartialIsActive(c: Classifier, views: seq<View>)
    ensures PartialOf(c, views).Some? ==> Active(c, views) == PartialOf(c, views)
  {
    if views != [] { PartialIsActive(c, views[..|views| - 1]); }
  }

  lemma TimedLine(c: Classifier, partial: Option<string>, added: seq<View>, before: Option<real>, seen: Seen,
                  line: string, clock: nat -> real, k: nat)
    requires Timed(c, partial, added, before, seen.testStartedAt, clock) && forall v :: v in added ==> v.Line?
    ensures var now := Observed(seen, c, Strip(line), clock(k)).testStartedAt;
      Timed(c, partial, added + [Line(line)], before, now, clock)
  {
    EffectSnoc(c, added, Line(line));
    if |added| == 1 { assert added[0] in added; }
  }

  lemma TimedPartial(c: Classifier, partial: Option<string>, added: seq<View>, before: Option<real>, seen: Seen,
                     text: string, clock: nat -> real, k: nat)
    requires Timed(c, partial, added, before, seen.testStartedAt, clock) && (forall v :: v in added ==> v.Line?)
    requires Disjoint(c)
    ensures match EffectOf(c, Partial(text))
      case Sets(name) =>
        var now := Observed(seen, c, text, clock(k)).testStartedAt;
        if added == [] && partial == Some(name) then
          Timed(c, partial, [Partial(text)], before, seen.testStartedAt, clock)
        else Timed(c, partial, added + [Partial(text)], before, now, clock)
      case _ => Timed(c, partial, added + [Partial(text)], before, seen.testStartedAt, clock)
  {
    EffectSnoc(c, added, Partial(text));
    assert [] + [Partial(text)] == [Partial(text)];
    EffectSnoc(c, [], Partial(text));
    if |added| == 1 { assert added[0] in added; }
  }

  // ------------------------------------------------------------------- the pump

  class Progress {
    var seen: Seen

    constructor ()
      ensures seen == Seen(None, None, None, 0)
    {
      seen := Seen(None, None, None, 0);
    }

    /** `Progress.observe` */
    method Observe(c: Classifier, line: string, now: real)
      modifies this
      ensures seen == Observed(old(seen), c, line, now)
    {
      if c.binary(line).Some? {
        seen := seen.(binary := c.binary(line), activeTest := None, testStartedAt := None);
      }
      if c.test(line).None? {
        return;
      }
      var mark := c.test(line).value;
      if !mark.finished {
        seen := seen.(activeTest := Some(mark.name), testStartedAt := Some(now));
        return;
      }
      seen := seen.(testsCompleted := seen.testsCompleted + 1, activeTest := None, testStartedAt := None);
    }
  }

  /** What the transcript of a whole stream amounts to: its complete lines, then the rest
      with the decoder's final text, if any. */
  function Transcript<S>(d: Decoder<S>, bytes: seq<Byte>): (lines: seq<string>)
  {
    var (state, text) := Feed(d, d.start, bytes);
    var (lines, tail) := Split(text);
    if tail + d.flush(state) == "" then lines else lines + [tail + d.flush(state)]
  }

  /** Nothing read is lost: written plus pending text is the decoded stream, and `seen` has
      the tally of the lines written so far. */
  ghost predicate Streams<S>(d: Decoder<S>, c: Classifier, fed: seq<Byte>, state: S, written: string, pending: string,
                             lines: seq<string>, seen: Seen)
  {
    && Feed(d, d.start, fed) == (state, written + pending)
    && written == Concat(lines) && (forall i :: 0 <= i < |lines| ==> IsLine(lines[i]))
    && TallyOf(seen) == TallyLines(c, lines)
  }

  /** The stream is over: all its text is written and tallied. */
  ghost predicate Ended<S>(d: Decoder<S>, c: Classifier, fed: seq<Byte>, written: string, seen: Seen)
  {
    && written == Feed(d, d.start, fed).1 + d.flush(Feed(d, d.start, fed).0)
    && TallyOf(seen) == TallyLines(c, Transcript(d, fed))
  }

  lemma SnocLine(c: Classifier, lines: seq<string>, line: string, p: Seen, now: real)
    requires TallyOf(p) == TallyLines(c, lines)
    ensures TallyOf(Observed(p, c, Strip(line), now)) == TallyLines(c, lines + [line])
    ensures Concat(lines + [line]) == Concat(lines) + line
  {
    assert (lines + [line])[..|lines|] == lines;
  }

  lemma StreamsRead<S>(d: Decoder<S>, c: Classifier, fed: seq<Byte>, state: S, written: string, pending: string,
                       lines: seq<string>, seen: Seen, chunk: seq<Byte>)
    requires Streams(d, c, fed, state, written, pending, lines, seen)
    ensures var (s, text) := Feed(d, state, chunk);
      Streams(d, c, fed + chunk, s, written, pending + text, lines, seen)
  {
    FeedAppend(d, d.start, fed, chunk);
    var (s, text) := Feed(d, state, chunk);
    assert written + (pending + text) == (written + pending) + text;
  }

  lemma StreamsLine<S>(d: Decoder<S>, c: Classifier, fed: seq<Byte>, state: S, written: string, pending: string,
                       lines: seq<string>, seen: Seen, i: nat, now: real)
    requires Streams(d, c, fed, state, written, pending, lines, seen)
    requires '\n' in pending && i == FindNewline(pending)
    ensures var line := pending[..i + 1];
      Streams(d, c, fed, state, written + line, pending[i + 1..], lines + [line], Observed(seen, c, Strip(line), now))
  {
    var line := pending[..i + 1];
    SnocLine(c, lines, line, seen, now);
    assert (written + line) + pending[i + 1..] == written + pending;
  }

  lemma StreamsPartial<S>(d: Decoder<S>, c: Classifier, fed: seq<Byte>, state: S, written: string, pending: string,
                          lines: seq<string>, seen: Seen, now: real)
    requires Streams(d, c, fed, state, written, pending, lines, seen) && Disjoint(c)
    requires c.test(pending).Some? && !c.test(pending).value.finished
    ensures Streams(d, c, fed, state, written, pending, lines, Observed(seen, c, pending, now))
  {
  }

  lemma StreamsEnd<S>(d: Decoder<S>, c: Classifier, fed: seq<Byte>, state: S, written: string, pending: string,
                      lines: seq<string>, seen: Seen, now: real)
    requires Streams(d, c, fed, state, written, pending, lines, seen) && '\n' !in pending
    ensures var last := pending + d.flush(state);
      Ended(d, c, fed, written + last, if last == "" then seen else Observed(seen, c, Strip(last), now))
  {
    hide Split, Observed, Strip, FindNewline;
    var last := pending + d.flush(state);
    SplitUnique(lines, pending);
    SnocLine(c, lines, last, seen, now);
    assert written + last == (written + pending) + d.flush(state);
  }

  // --------------------------------------------------------- the pump's state as a value

  /** What has been read, its decoding so far, what of it is written, observed line by line, and looked at. */
  datatype Flow<S> = Flow(
    fed: seq<Byte>, state: S, pending: string, written: string, lines: seq<string>, views: seq<View>, seen: Seen,
    partialName: Option<string>)

  ghost predicate Flowing<S>(d: Decoder<S>, c: Classifier, f: Flow<S>)
  {
    && Streams(d, c, f.fed, f.state, f.written, f.pending, f.lines, f.seen)
    && Notes(c, f.views, f.seen) && f.partialName == PartialOf(c, f.views)
  }

  /** The first pending line is written and observed. */
  function TakeLine<S>(c: Classifier, f: Flow<S>, now: real): Flow<S>
    requires '\n' in f.pending
  {
    var i := FindNewline(f.pending);
    var line := f.pending[..i + 1];
    f.(pending := f.pending[i + 1..], written := f.written + line, lines := f.lines + [line],
       views := f.views + [Line(line)], seen := Observed(f.seen, c, Strip(line), now), partialName := None)
  }

  function TakeLines<S>(c: Classifier, f: Flow<S>, clock: nat -> real, calls: nat): Flow<S>
    decreases |f.pending|
  {
    if '\n' in f.pending then TakeLines(c, TakeLine(c, f, clock(calls)), clock, calls + 1) else f
  }

  /** The incomplete line is looked at, and observed if it starts another test than it did before. */
  function Look<S>(c: Classifier, f: Flow<S>, now: real): Flow<S>
  {
    var mark := c.test(f.pending);
    var g := f.(views := f.views + [Partial(f.pending)]);
    if mark.None? || mark.value.finished || Some(mark.value.name) == f.partialName then g
    else g.(seen := Observed(f.seen, c, f.pending, now), partialName := Some(mark.value.name))
  }

  lemma TakeLineFlows<S>(d: Decoder<S>, c: Classifier, f: Flow<S>, now: real)
    requires Flowing(d, c, f) && '\n' in f.pending
    ensures Flowing(d, c, TakeLine(c, f, now))
  {
    hide Streams, Notes, PartialOf, Observed, Strip, FindNewline;
    var i := FindNewline(f.pending);
    StreamsLine(d, c, f.fed, f.state, f.written, f.pending, f.lines, f.seen, i, now);
    NoteLine(c, f.views, f.seen, f.pending[..i + 1], now);
  }

  lemma {:induction false} TakeLinesFlow<S>(d: Decoder<S>, c: Classifier, f: Flow<S>, clock: nat -> real, calls: nat)
    requires Flowing(d, c, f)
    ensures var g := TakeLines(c, f, clock, calls); Flowing(d, c, g) && '\n' !in g.pending
    decreases |f.pending|
  {
    if '\n' in f.pending {
      TakeLineFlows(d, c, f, clock(calls));
      TakeLinesFlow(d, c, TakeLine(c, f, clock(calls)), clock, calls + 1);
    }
  }

  lemma SplitFirst(text: string)
    requires '\n' in text
    ensures var i := FindNewline(text);
      Split(text) == ([text[..i + 1]] + Split(text[i + 1..]).0, Split(text[i + 1..]).1)
  {
  }

  lemma SplitNone(text: string)
    ensures '\n' !in text ==> Split(text) == ([], text)
  {
  }

  lemma ViewsFirst(base: seq<View>, line: string, rest: seq<string>)
    ensures base + LineViews([line] + rest) == base + [Line(line)] + LineViews(rest)
    ensures base + LineViews([]) == base
  {
  }

  /** Beside its text, lines and record, taking lines changes nothing. */
  lemma {:induction false} TakeLinesViews<S>(c: Classifier, f: Flow<S>, clock: nat -> real, calls: nat,
                                             lines: seq<string>, tail: string)
    requires (lines, tail) == Split(f.pending)
    ensures var g := TakeLines(c, f, clock, calls);
      && g.fed == f.fed && g.state == f.state && g.pending == tail && g.views == f.views + LineViews(lines)
      && g.partialName == (if lines == [] then f.partialName else None)
    decreases |f.pending|
  {
    hide Split, Observed, Strip, FindNewline;
    SplitNone(f.pending);
    if '\n' in f.pending {
      SplitFirst(f.pending);
      ViewsFirst(f.views, lines[0], lines[1..]);
      assert lines == [lines[0]] + lines[1..];
      TakeLinesViews(c, TakeLine(c, f, clock(calls)), clock, calls + 1, lines[1..], tail);
    } else {
      ViewsFirst(f.views, "", []);
    }
  }

  /** When the active test started, after lines were taken that follow `added`. */
  lemma {:induction false} TakeLinesTimed<S>(c: Classifier, partial: Option<string>, added: seq<View>,
                                             before: Option<real>, f: Flow<S>, clock: nat -> real, calls: nat,
                                             lines: seq<string>)
    requires Timed(c, partial, added, before, f.seen.testStartedAt, clock) && (forall v :: v in added ==> v.Line?)
    requires lines == Split(f.pending).0
    ensures var g := TakeLines(c, f, clock, calls);
      Timed(c, partial, added + LineViews(lines), before, g.seen.testStartedAt, clock)
    decreases |f.pending|
  {
    hide Split, Observed, Strip, FindNewline, Timed;
    SplitNone(f.pending);
    if '\n' in f.pending {
      SplitFirst(f.pending);
      ViewsFirst(added, lines[0], lines[1..]);
      assert lines == [lines[0]] + lines[1..];
      TimedLine(c, partial, added, before, f.seen, lines[0], clock, calls);
      TakeLinesTimed(c, partial, added + [Line(lines[0])], before, TakeLine(c, f, clock(calls)), clock, calls + 1,
                     lines[1..]);
    } else {
      ViewsFirst(added, "", []);
    }
  }

  lemma LookFlows<S>(d: Decoder<S>, c: Classifier, f: Flow<S>, now: real)
    requires Flowing(d, c, f) && Disjoint(c)
    ensures Flowing(d, c, Look(c, f, now))
  {
    NotePartial(c, f.views, f.seen, f.pending, now);
    if c.test(f.pending).Some? && !c.test(f.pending).value.finished {
      StreamsPartial(d, c, f.fed, f.state, f.written, f.pending, f.lines, f.seen, now);
    }
  }

  /** The next bytes. */
  function Fed<S>(d: Decoder<S>, f: Flow<S>, chunk: seq<Byte>): Flow<S>
  {
    var (s, text) := Feed(d, f.state, chunk);
    f.(fed := f.fed + chunk, state := s, pending := f.pending + text)
  }

  /** One read of data. */
  function ReadFlow<S>(d: Decoder<S>, c: Classifier, f: Flow<S>, chunk: seq<Byte>, clock: nat -> real): Flow<S>
  {
    Look(c, TakeLines(c, Fed(d, f, chunk), clock, 0), clock(0))
  }

  lemma ReadFlows<S>(d: Decoder<S>, c: Classifier, f: Flow<S>, chunk: seq<Byte>, clock: nat -> real)
    requires Flowing(d, c, f) && Disjoint(c)
    ensures var g := ReadFlow(d, c, f, chunk, clock); Flowing(d, c, g) && '\n' !in g.pending
  {
    StreamsRead(d, c, f.fed, f.state, f.written, f.pending, f.lines, f.seen, chunk);
    TakeLinesFlow(d, c, Fed(d, f, chunk), clock, 0);
    LookFlows(d, c, TakeLines(c, Fed(d, f, chunk), clock, 0), clock(0));
  }

  lemma ReadViews<S>(d: Decoder<S>, c: Classifier, f: Flow<S>, chunk: seq<Byte>, clock: nat -> real)
    ensures var g := ReadFlow(d, c, f, chunk, clock);
      && g.fed == f.fed + chunk && g.state == Feed(d, f.state, chunk).0
      && g.views == f.views + Brought(f.pending, Feed(d, f.state, chunk).1)
      && g.pending == Split(f.pending + Feed(d, f.state, chunk).1).1
  {
    var fed := Fed(d, f, chunk);
    var (lines, tail) := Split(fed.pending);
    TakeLinesViews(c, fed, clock, 0, lines, tail);
    assert f.views + LineViews(lines) + [Partial(tail)] == f.views + (LineViews(lines) + [Partial(tail)]);
  }

  lemma LookTimed<S>(c: Classifier, partial: Option<string>, lines: seq<string>, before: Option<real>, g: Flow<S>,
                     clock: nat -> real)
    requires Timed(c, partial, LineViews(lines), before, g.seen.testStartedAt, clock) && Disjoint(c)
    requires g.partialName == if lines == [] then partial else None
    ensures Timed(c, partial, LineViews(lines) + [Partial(g.pending)], before, Look(c, g, clock(0)).seen.testStartedAt,
                  clock)
  {
    TimedPartial(c, partial, LineViews(lines), before, g.seen, g.pending, clock, 0);
    assert lines == [] ==> LineViews(lines) + [Partial(g.pending)] == [Partial(g.pending)];
  }

  /** Which test is active after a read and since when follows from what it brought. */
  lemma ReadTimed<S>(d: Decoder<S>, c: Classifier, f: Flow<S>, chunk: seq<Byte>, clock: nat -> real)
    requires Disjoint(c)
    ensures Timed(c, f.partialName, Brought(f.pending, Feed(d, f.state, chunk).1), f.seen.testStartedAt,
                  ReadFlow(d, c, f, chunk, clock).seen.testStartedAt, clock)
  {
    var fed := Fed(d, f, chunk);
    var lines, tail := Split(fed.pending).0, Split(fed.pending).1;
    assert [] + LineViews(lines) == LineViews(lines);
    TakeLinesTimed(c, f.partialName, [], f.seen.testStartedAt, fed, clock, 0, lines);
    TakeLinesViews(c, fed, clock, 0, lines, tail);
    LookTimed(c, f.partialName, lines, f.seen.testStartedAt, TakeLines(c, fed, clock, 0), clock);
  }

  class OutputPump<S(!new)> {
    const decoder: Decoder<S>
    const classifier: Classifier
    const progress: Progress
    var state: S
    var pending: string
    var closed: bool
    var partialName: Option<string>
    var written: string          // what has gone to standard output
    ghost var fed: seq<Byte>     // what has been read
    ghost var lines: seq<string> // what has been observed line by line
    ghost var views: seq<View>   // the same with what was seen of incomplete lines

    ghost function Whole(): Flow<S>
      reads this, progress
    {
      Flow(fed, state, pending, written, lines, views, progress.seen, partialName)
    }

    ghost predicate Valid()
      reads this, progress
    {
      if closed then
        && pending == "" && Ended(decoder, classifier, fed, written, progress.seen)
        && Notes(classifier, views, progress.seen)
      else Flowing(decoder, classifier, Whole()) && '\n' !in pending
    }

    constructor (decoder: Decoder<S>, classifier: Classifier, progress: Progress)
      requires progress.seen == Seen(None, None, None, 0)
      ensures Valid() && !closed && fed == [] && written == "" && views == [] && state == decoder.start && pending == ""
      ensures this.decoder == decoder && this.classifier == classifier && this.progress == progress
    {
      this.decoder, this.classifier, this.progress := decoder, classifier, progress;
      state, pending, closed, partialName, written := decoder.start, "", false, None, "";
      fed, lines, views := [], [], [];
      new;
      assert written + pending == "";
    }

    /** The body of the loop of `_write_complete_lines`. */
    method WriteLine(now: real)
      requires '\n' in pending
      modifies this, progress
      ensures Whole() == TakeLine(classifier, old(Whole()), now) && closed == old(closed)
    {
      var i := FindNewline(pending);
      var line := pending[..i + 1];
      pending := pending[i + 1..];
      written := written + line;
      lines, views := lines + [line], views + [Line(line)];
      progress.Observe(classifier, Strip(line), now);
      partialName := None;
    }

    /** `_write_complete_lines` */
    method WriteCompleteLines(clock: nat -> real)
      modifies this, progress
      ensures Whole() == TakeLines(classifier, old(Whole()), clock, 0) && closed == old(closed)
    {
      var calls := 0;
      while '\n' in pending
        invariant closed == old(closed)
        invariant TakeLines(classifier, Whole(), clock, calls) == TakeLines(classifier, old(Whole()), clock, 0)
        decreases |pending|
      {
        WriteLine(clock(calls));
        calls := calls + 1;
      }
    }

    /** `_observe_partial_progress`: a started test is noticed before its line is complete. */
    method ObservePartialProgress(now: real)
      modifies this`partialName, this`views, progress
      ensures Whole() == Look(classifier, old(Whole()), now)
    {
      var mark := classifier.test(pending);
      views := views + [Partial(pending)];
      if mark.None? || mark.value.finished || Some(mark.value.name) == partialName {
        return;
      }
      partialName := Some(mark.value.name);
      progress.Observe(classifier, pending, now);
    }

    /** `_finish` */
    method Finish(now: real)
      requires Valid()
      modifies this, progress
      ensures Valid() && closed && fed == old(fed)
      ensures old(closed) ==> views == old(views) && progress.seen == old(progress.seen)
      ensures !old(closed) ==>
        var last := old(pending) + decoder.flush(old(state));
        && views == old(views) + (if last == "" then [] else [Line(last)])
        && progress.seen == if last == "" then old(progress.seen)
                            else Observed(old(progress.seen), classifier, Strip(last), now)
    {
      if closed {
        return;
      }
      StreamsEnd(decoder, classifier, fed, state, written, pending, lines, progress.seen, now);
      NoteLine(classifier, views, progress.seen, pending + decoder.flush(state), now);
      ghost var before := written;
      pending := pending + decoder.flush(state);
      if pending != "" {
        written := written + pending;
        progress.Observe(classifier, Strip(pending), now);
        views := views + [Line(pending)];
        pending := "";
      } else {
        assert before + pending == before;
      }
      closed := true;
    }

    /** The part of `read` for a chunk of data.  Which test is active is what was looked at last; since when follows
        from what the read brought. */
    method ReadData(chunk: seq<Byte>, clock: nat -> real)
      requires Disjoint(classifier) && Valid() && !closed
      modifies this, progress
      ensures Valid() && !closed && fed == old(fed) + chunk
      ensures var added := Brought(old(pending), Feed(decoder, old(state), chunk).1);
        && views == old(views) + added
        && Timed(classifier, PartialOf(classifier, old(views)), added, old(progress.seen.testStartedAt),
                 progress.seen.testStartedAt, clock)
    {
      hide Streams, Notes, Timed, Split, PartialOf, Feed;
      ghost var f := Whole();
      ReadFlows(decoder, classifier, f, chunk, clock);
      ReadViews(decoder, classifier, f, chunk, clock);
      ReadTimed(decoder, classifier, f, chunk, clock);
      var (s, text) := Feed(decoder, state, chunk);
      state := s;
      pending := pending + text;
      fed := fed + chunk;
      WriteCompleteLines(clock);
      ObservePartialProgress(clock(0));
    }

    /** `read`: `input` is nothing before the timeout, an empty chunk at end of file, or data. */
    method Read(input: Option<seq<Byte>>, clock: nat -> real)
      requires Disjoint(classifier) && Valid()
      modifies this, progress
      ensures Valid()
      ensures closed == (old(closed) || input == Some([]))
      ensures fed == old(fed) + if old(closed) || input.None? then [] else input.value
      ensures old(closed) || input.None? ==> Whole() == old(Whole())
      ensures !old(closed) && input.Some? && input.value != [] ==>
        var added := Brought(old(pending), Feed(decoder, old(state), input.value).1);
        && views == old(views) + added && progress.seen.activeTest == Active(classifier, views)
        && Timed(classifier, PartialOf(classifier, old(views)), added, old(progress.seen.testStartedAt),
                 progress.seen.testStartedAt, clock)
      ensures StartsAt(old(progress.seen.testStartedAt), progress.seen.testStartedAt, clock)
    {
      hide Streams, Ended, Brought, TallyLines;
      if closed || input.None? {
        return;
      }
      if input.value == [] {
        Finish(clock(0));
        return;
      }
      ReadData(input.value, clock);
    }
  }

  /** The incomplete line at the end of the decoded bytes. */
  function PendingOf<S>(d: Decoder<S>, bytes: seq<Byte>): string { Split(Feed(d, d.start, bytes).1).1 }

  /** What `chunk` brings when `bytes` have been read. */
  function Brings<S>(d: Decoder<S>, bytes: seq<Byte>, chunk: seq<Byte>): seq<View>
  {
    Brought(PendingOf(d, bytes), Feed(d, Feed(d, d.start, bytes).0, chunk).1)
  }

  /** All that is looked at when the stream comes in these chunks. */
  function ViewsOf<S>(d: Decoder<S>, chunks: seq<seq<Byte>>): seq<View>
  {
    if chunks == [] then []
    else
      var init, last := chunks[..|chunks| - 1], chunks[|chunks| - 1];
      ViewsOf(d, init) + if last == [] then [] else Brings(d, Concat(init), last)
  }

  lemma FlowPending<S>(d: Decoder<S>, c: Classifier, f: Flow<S>)
    requires Flowing(d, c, f) && '\n' !in f.pending
    ensures f.state == Feed(d, d.start, f.fed).0 && f.pending == PendingOf(d, f.fed)
  {
    SplitUnique(f.lines, f.pending);
  }

  /** However the stream is cut into reads, the text written and the tally depend only on the bytes; the test active
      before the end is the one of the last mark looked at. */
  method PumpAll<S(!new)>(d: Decoder<S>, c: Classifier, chunks: seq<seq<Byte>>, clock: (nat, nat) -> real)
    returns (written: string, tally: Tally, active: Option<string>)
    requires Disjoint(c)
    ensures var bytes := Concat(chunks);
      && written == Feed(d, d.start, bytes).1 + d.flush(Feed(d, d.start, bytes).0)
      && tally == TallyLines(c, Transcript(d, bytes))
    ensures active == Active(c, ViewsOf(d, chunks))
  {
    hide Streams, TallyLines, Transcript, Feed, Split, Brought, Timed;
    var progress := new Progress();
    var pump := new OutputPump(d, c, progress);
    for i := 0 to |chunks|
      invariant pump.Valid() && !pump.closed && pump.fed == Concat(chunks[..i]) && pump.views == ViewsOf(d, chunks[..i])
      invariant pump.decoder == d && pump.classifier == c && pump.progress == progress
    {
      assert chunks[..i + 1][..i] == chunks[..i];
      if chunks[i] != [] {
        FlowPending(d, c, pump.Whole());
        pump.Read(Some(chunks[i]), (n: nat) => clock(i, n));
      }
    }
    assert chunks[..|chunks|] == chunks;
    active := progress.seen.activeTest;
    pump.Finish(clock(|chunks|, 0));
    return pump.written, TallyOf(progress.seen), active;
  }
}
