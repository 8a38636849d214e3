/** The before/after judgement of `scripts/check_complexity_staged.py`. */
module ComplexityGate {
  import opened Basics
  import opened ByteStrings
  import opened Sequences

  datatype Metrics = Metrics(cyclomatic: int, cognitive: int, line: int, exempt: bool, residual: Option<int>)
  {
    /** Raw for an ordinary row, the residual for an accepted dispatcher. */
    function Effective(): int
    {
      if exempt then (if residual.Some? then residual.value else 0) else cyclomatic
    }

    function Reported(): int { if residual.None? then Effective() else cyclomatic }
  }

  /** A qualified name, as its UTF-8 bytes. */
  type Name = Bytes

  datatype Caps = Caps(cyclomatic: int, cognitive: int)

  /** The rows of one qualified name; names collide, so there can be several. */
  type Rows = rows: seq<Metrics> | |rows| >= 1 witness [Metrics(0, 0, 0, false, None)]

  datatype Kind = New | Worse
  datatype Finding = Finding(kind: Kind, name: Name, before: (int, int), after: (int, int))

  predicate CyclomaticOver(m: Metrics, caps: Caps) { m.cyclomatic > caps.cyclomatic && !m.exempt }

  predicate OverCap(m: Metrics, caps: Caps) { CyclomaticOver(m, caps) || m.cognitive > caps.cognitive }

  function Overs(rows: seq<Metrics>, caps: Caps): (r: seq<Metrics>)
    ensures |r| <= |rows|
  {
    if rows == [] then []
    else Overs(rows[..|rows| - 1], caps) + if OverCap(rows[|rows| - 1], caps) then [rows[|rows| - 1]] else []
  }

  /** `max(rows, key=cyclomatic)`: the first of the greatest. */
  function Worst(rows: Rows): (m: Metrics)
    ensures m in rows && forall i :: 0 <= i < |rows| ==> rows[i].cyclomatic <= m.cyclomatic
  {
    if |rows| == 1 then rows[0]
    else
      var w := Worst(rows[..|rows| - 1]);
      if rows[|rows| - 1].cyclomatic > w.cyclomatic then rows[|rows| - 1] else w
  }

  function WorstCognitive(rows: Rows): (c: int)
    ensures exists i :: 0 <= i < |rows| && rows[i].cognitive == c
    ensures forall i :: 0 <= i < |rows| ==> rows[i].cognitive <= c
  {
    if |rows| == 1 then rows[0].cognitive
    else
      var w := WorstCognitive(rows[..|rows| - 1]);
      if rows[|rows| - 1].cognitive > w then rows[|rows| - 1].cognitive else w
  }

  predicate RowLe(a: Metrics, b: Metrics)
  {
    a.cyclomatic < b.cyclomatic || (a.cyclomatic == b.cyclomatic && a.cognitive <= b.cognitive)
  }

  // ------------------------------------------------------------------- one name

  function News(name: Name, rows: seq<Metrics>): (r: seq<Finding>)
    ensures |r| == |rows|
  {
    if rows == [] then []
    else
      var last := rows[|rows| - 1];
      News(name, rows[..|rows| - 1]) + [Finding(New, name, (0, 0), (last.cyclomatic, last.cognitive))]
  }

  function Min(a: int, b: int): int { if a < b then a else b }

  /** `_new_duplicate_findings` */
  function NewDuplicates(name: Name, prior: Rows, rows: Rows, caps: Caps): seq<Finding>
  {
    var over := SortBy(Overs(rows, caps), RowLe);
    var added := Min(|over| - |Overs(prior, caps)|, |rows| - |prior|);
    if added <= 0 then [] else News(name, over[..added])
  }

  /** `_cyclomatic_regressed` */
  predicate CyclomaticRegressed(prior: Rows, rows: Rows, caps: Caps)
  {
    var before, after := Worst(prior), Worst(rows);
    !(before.exempt && after.cyclomatic <= caps.cyclomatic) && after.Effective() > before.Effective()
  }

  function WorseFindings(name: Name, prior: Rows, rows: Rows, caps: Caps): seq<Finding>
  {
    if CyclomaticRegressed(prior, rows, caps) || WorstCognitive(rows) > WorstCognitive(prior) then
      [Finding(Worse, name, (Worst(prior).Reported(), WorstCognitive(prior)),
               (Worst(rows).cyclomatic, WorstCognitive(rows)))]
    else []
  }

  /** `_regression` */
  function Regression(name: Name, prior: Rows, rows: Rows, caps: Caps): seq<Finding>
  {
    NewDuplicates(name, prior, rows, caps) + WorseFindings(name, prior, rows, caps)
  }

  function NameFindings(name: Name, before: map<Name, Rows>, rows: Rows, caps: Caps): seq<Finding>
  {
    if name !in before then News(name, Overs(rows, caps)) else Regression(name, before[name], rows, caps)
  }

  /** One name of a measured file, with its rows. */
  datatype Measured = Measured(name: Name, rows: Rows)

  predicate NameLe(a: Measured, b: Measured) { LexLe(a.name, b.name) }

  function FindingsOf(before: map<Name, Rows>, after: seq<Measured>, caps: Caps): seq<Finding>
  {
    if after == [] then []
    else
      var last := after[|after| - 1];
      FindingsOf(before, after[..|after| - 1], caps) + NameFindings(last.name, before, last.rows, caps)
  }

  lemma FindingsSnoc(before: map<Name, Rows>, list: seq<Measured>, caps: Caps, i: nat)
    requires i < |list|
    ensures FindingsOf(before, list[..i + 1], caps) ==
      FindingsOf(before, list[..i], caps) + NameFindings(list[i].name, before, list[i].rows, caps)
  {
    assert list[..i + 1][..i] == list[..i];
  }

  /** `judge`: the names of the dictionary `after`, in sorted order. */
  method Judge(before: map<Name, Rows>, after: seq<Measured>, caps: Caps) returns (findings: seq<Finding>)
    ensures findings == FindingsOf(before, SortBy(after, NameLe), caps)
    ensures forall f :: f in findings <==> exists m :: m in after && f in NameFindings(m.name, before, m.rows, caps)
    ensures NamesAscend(findings)
  {
    var ordered := SortBy(after, NameLe);
    findings := [];
    for i := 0 to |ordered|
      invariant findings == FindingsOf(before, ordered[..i], caps)
    {
      FindingsSnoc(before, ordered, caps, i);
      findings := findings + NameFindings(ordered[i].name, before, ordered[i].rows, caps);
    }
    assert ordered[..|ordered|] == ordered;
    forall f ensures f in findings <==> exists m :: m in after && f in NameFindings(m.name, before, m.rows, caps) {
      FindingIff(before, after, caps, f);
    }
    FindingsSorted(before, after, caps);
  }

  lemma NameOrder()
    ensures TotalPreorder(NameLe)
  {
    forall a, b ensures NameLe(a, b) || NameLe(b, a) { LexTotal(a.name, b.name); }
    forall a, b, c | NameLe(a, b) && NameLe(b, c) ensures NameLe(a, c) { LexTransitive(a.name, b.name, c.name); }
  }

  lemma {:induction false} FindingInList(before: map<Name, Rows>, list: seq<Measured>, caps: Caps, f: Finding)
    ensures f in FindingsOf(before, list, caps) <==>
            exists m :: m in list && f in NameFindings(m.name, before, m.rows, caps)
  {
    if list != [] {
      var init, last := list[..|list| - 1], list[|list| - 1];
      assert list == init + [last];
      FindingInList(before, init, caps, f);
    }
  }

  /** The findings are exactly those of the names measured. */
  lemma FindingIff(before: map<Name, Rows>, after: seq<Measured>, caps: Caps, f: Finding)
    ensures f in FindingsOf(before, SortBy(after, NameLe), caps) <==>
            exists m :: m in after && f in NameFindings(m.name, before, m.rows, caps)
  {
    NameOrder();
    forall m ensures m in SortBy(after, NameLe) <==> m in after { SortByMember(after, NameLe, m); }
    FindingInList(before, SortBy(after, NameLe), caps, f);
  }

  lemma NamedFindings(name: Name, before: map<Name, Rows>, rows: Rows, caps: Caps)
    ensures forall f :: f in NameFindings(name, before, rows, caps) ==> f.name == name
  {
    NewsNamed(name, Overs(rows, caps));
    if name in before {
      var over := SortBy(Overs(rows, caps), RowLe);
      NewsNamed(name, over);
      forall n: nat | n <= |over| ensures forall f :: f in News(name, over[..n]) ==> f.name == name {
        NewsNamed(name, over[..n]);
      }
    }
  }

  lemma {:induction false} NewsNamed(name: Name, rows: seq<Metrics>)
    ensures forall f :: f in News(name, rows) ==> f.name == name
  {
    if rows != [] { NewsNamed(name, rows[..|rows| - 1]); }
  }

  ghost predicate NamesAscend(fs: seq<Finding>)
  {
    forall i, j :: 0 <= i < j < |fs| ==> LexLe(fs[i].name, fs[j].name)
  }

  lemma AscendOn(f: seq<Finding>, g: seq<Finding>, name: Name)
    requires NamesAscend(f) && (forall x :: x in f ==> LexLe(x.name, name)) && forall x :: x in g ==> x.name == name
    ensures NamesAscend(f + g) && forall x :: x in f + g ==> LexLe(x.name, name)
  {
    LexTotal(name, name);
    var all := f + g;
    forall i, j | 0 <= i < j < |all| ensures LexLe(all[i].name, all[j].name) {
      assert if i < |f| then all[i] == f[i] && all[i] in f else all[i] == g[i - |f|] && all[i] in g;
      assert if j < |f| then all[j] == f[j] else all[j] == g[j - |f|] && all[j] in g;
    }
  }

  lemma {:induction false} NamesSorted(before: map<Name, Rows>, list: seq<Measured>, caps: Caps)
    requires SortedBy(list, NameLe)
    ensures forall f :: f in FindingsOf(before, list, caps) ==> list != [] && LexLe(f.name, list[|list| - 1].name)
    ensures NamesAscend(FindingsOf(before, list, caps))
  {
    if list != [] {
      var init, last := list[..|list| - 1], list[|list| - 1];
      NamesSorted(before, init, caps);
      NamedFindings(last.name, before, last.rows, caps);
      var f := FindingsOf(before, init, caps);
      forall x | x in f ensures LexLe(x.name, last.name) {
        assert NameLe(init[|init| - 1], last);
        LexTransitive(x.name, init[|init| - 1].name, last.name);
      }
      AscendOn(f, NameFindings(last.name, before, last.rows, caps), last.name);
    }
  }

  lemma FindingsSorted(before: map<Name, Rows>, after: seq<Measured>, caps: Caps)
    ensures NamesAscend(FindingsOf(before, SortBy(after, NameLe), caps))
  {
    NameOrder();
    SortByIs(after, NameLe);
    NamesSorted(before, SortBy(after, NameLe), caps);
  }

  lemma {:induction false} NoFindingsIn(before: map<Name, Rows>, list: seq<Measured>, caps: Caps, m: Measured)
    requires FindingsOf(before, list, caps) == [] && m in list
    ensures NameFindings(m.name, before, m.rows, caps) == []
  {
    var init, last := list[..|list| - 1], list[|list| - 1];
    var f, g := FindingsOf(before, init, caps), NameFindings(last.name, before, last.rows, caps);
    assert |f + g| == 0;
    if m != last { NoFindingsIn(before, init, caps, m); }
  }

  /** A silent judgement is silent about every name. */
  lemma EachNameSilent(before: map<Name, Rows>, after: seq<Measured>, caps: Caps, m: Measured)
    requires FindingsOf(before, SortBy(after, NameLe), caps) == [] && m in after
    ensures NameFindings(m.name, before, m.rows, caps) == []
  {
    NameOrder();
    SortByMember(after, NameLe, m);
    NoFindingsIn(before, SortBy(after, NameLe), caps, m);
  }

  // -------------------------------------------------------------- what silence means

  lemma {:induction false} OversAre(rows: seq<Metrics>, caps: Caps)
    ensures Overs(rows, caps) == [] <==> forall i :: 0 <= i < |rows| ==> !OverCap(rows[i], caps)
  {
    if rows != [] {
      OversAre(rows[..|rows| - 1], caps);
    }
  }

  lemma SortedCount(s: seq<Metrics>)
    ensures |SortBy(s, RowLe)| == |s|
  {
    SortByMultiset(s, RowLe);
    assert |multiset(SortBy(s, RowLe))| == |multiset(s)|;
  }

  lemma SilentParts(name: Name, prior: Rows, rows: Rows, caps: Caps)
    ensures Regression(name, prior, rows, caps) == [] <==>
      && (|Overs(rows, caps)| <= |Overs(prior, caps)| || |rows| <= |prior|)
      && !CyclomaticRegressed(prior, rows, caps)
      && WorstCognitive(rows) <= WorstCognitive(prior)
  {
    SortedCount(Overs(rows, caps));
    assert |NewDuplicates(name, prior, rows, caps)| == 0 <==> NewDuplicates(name, prior, rows, caps) == [];
  }

  lemma {:induction false} JudgeSame(before: map<Name, Rows>, list: seq<Measured>, caps: Caps)
    requires forall m :: m in list ==> m.name in before && before[m.name] == m.rows
    ensures FindingsOf(before, list, caps) == []
  {
    if list != [] {
      var last := list[|list| - 1];
      JudgeSame(before, list[..|list| - 1], caps);
      SilentParts(last.name, last.rows, last.rows, caps);
    }
  }

  /** A file judged against itself has no findings. */
  lemma JudgeSelf(before: map<Name, Rows>, after: seq<Measured>, caps: Caps)
    requires forall m :: m in after ==> m.name in before && before[m.name] == m.rows
    ensures FindingsOf(before, SortBy(after, NameLe), caps) == []
  {
    NameOrder();
    forall m | m in SortBy(after, NameLe) ensures m in after { SortByMember(after, NameLe, m); }
    JudgeSame(before, SortBy(after, NameLe), caps);
  }

  /** A new name is silent exactly when every row is within the cognitive cap, and within the cyclomatic one or
      exempt from it. */
  lemma NewNameIff(name: Name, before: map<Name, Rows>, rows: Rows, caps: Caps)
    requires name !in before
    ensures NameFindings(name, before, rows, caps) == [] <==>
            forall i :: 0 <= i < |rows| ==>
              rows[i].cognitive <= caps.cognitive && (rows[i].cyclomatic <= caps.cyclomatic || rows[i].exempt)
  {
    OversAre(rows, caps);
    assert |News(name, Overs(rows, caps))| == |Overs(rows, caps)|;
  }

  /** The residual of an accepted dispatcher is within the cap. */
  predicate ResidualWithin(m: Metrics, caps: Caps) { m.exempt ==> m.Effective() <= caps.cyclomatic }

  lemma SingleSilent(name: Name, prior: Metrics, row: Metrics, caps: Caps)
    ensures Regression(name, [prior], [row], caps) == [] <==>
      !CyclomaticRegressed([prior], [row], caps) && row.cognitive <= prior.cognitive
  {
    SilentParts(name, [prior], [row], caps);
  }

  /** For rows handed to `judge` directly: silence means that a single row over the cyclomatic cap now was over it
      before, whatever the new row is, exactly when the old row's residual was within the cap. */
  lemma SingleRowIff(name: Name, prior: Metrics, caps: Caps)
    ensures (forall row: Metrics :: Regression(name, [prior], [row], caps) == [] && CyclomaticOver(row, caps) ==>
              CyclomaticOver(prior, caps))
       <==> ResidualWithin(prior, caps)
  {
    forall row: Metrics ensures Regression(name, [prior], [row], caps) == [] <==>
      !CyclomaticRegressed([prior], [row], caps) && row.cognitive <= prior.cognitive
    {
      SingleSilent(name, prior, row, caps);
    }
    if !ResidualWithin(prior, caps) {
      var row := Metrics(prior.Effective(), prior.cognitive, 0, false, None);
      assert Regression(name, [prior], [row], caps) == [];
    }
  }

  // ------------------------------------------------------------ the dispatch rule

  /** A function as the scanner reports it. */
  datatype Raw = Raw(cyclomatic: int, cognitive: int, line: int)

  /** The `match` arms of a Rust function, those that catch everything, and those the full build leaves out. */
  datatype Shape = Shape(arms: nat, catchAlls: nat, absent: nat)

  /** `full_build_cyclomatic` */
  function FullBuild(shape: Shape, cyclomatic: int): int { cyclomatic - shape.absent }

  /** `effective_cyclomatic` */
  function EffectiveCyclomatic(shape: Shape, cyclomatic: int, cap: int): int
  {
    var full := FullBuild(shape, cyclomatic);
    if full <= cap then full else full - shape.arms
  }

  /** `exhaustive_dispatch_exempt`; there is no shape for other languages and unreadable bodies. */
  predicate Exempt(shape: Option<Shape>, raw: Raw, caps: Caps)
  {
    && shape.Some? && raw.cognitive <= caps.cognitive && raw.cyclomatic > caps.cyclomatic
    && var s := shape.value;
      || FullBuild(s, raw.cyclomatic) <= caps.cyclomatic
      || (s.arms > 0 && s.catchAlls == 0 &&
          1 <= EffectiveCyclomatic(s, raw.cyclomatic, caps.cyclomatic) <= caps.cyclomatic)
  }

  /** `_stamp_row` */
  function Stamp(raw: Raw, shape: Option<Shape>, caps: Caps): Metrics
  {
    var exempt := Exempt(shape, raw, caps);
    Metrics(raw.cyclomatic, raw.cognitive, raw.line, exempt,
            if exempt then Some(EffectiveCyclomatic(shape.value, raw.cyclomatic, caps.cyclomatic)) else None)
  }

  /** The verdict by the counts: a row over the cyclomatic cap only is exempt if the arms absent from the full build
      bring it within the cap, or if it matches without a catch-all and its arms do, leaving at least one; the
      residual is what is left then. */
  lemma StampIs(raw: Raw, s: Shape, caps: Caps)
    ensures var m, full := Stamp(raw, Some(s), caps), raw.cyclomatic - s.absent;
      && m.cyclomatic == raw.cyclomatic && m.cognitive == raw.cognitive && m.line == raw.line
      && (m.exempt <==>
            && raw.cyclomatic > caps.cyclomatic && raw.cognitive <= caps.cognitive
            && (full <= caps.cyclomatic || (s.arms > 0 && s.catchAlls == 0 && 1 <= full - s.arms <= caps.cyclomatic)))
      && m.residual == (if !m.exempt then None else if full <= caps.cyclomatic then Some(full) else Some(full - s.arms))
    ensures Stamp(raw, None, caps) == Metrics(raw.cyclomatic, raw.cognitive, raw.line, false, None)
  {
  }

  /** The rows `measure` can produce. */
  ghost predicate Stamped(m: Metrics, caps: Caps) { exists raw, shape :: m == Stamp(raw, shape, caps) }

  /** Exactly the rows that are exempt only over the cyclomatic cap and within the cognitive one, and then carry a
      residual within the cap. */
  lemma StampedIff(m: Metrics, caps: Caps)
    ensures Stamped(m, caps) <==>
      if m.exempt then
        && m.cyclomatic > caps.cyclomatic && m.cognitive <= caps.cognitive
        && m.residual.Some? && m.residual.value <= caps.cyclomatic
      else m.residual.None?
  {
    var raw := Raw(m.cyclomatic, m.cognitive, m.line);
    if && m.exempt && m.cyclomatic > caps.cyclomatic && m.cognitive <= caps.cognitive
       && m.residual.Some? && m.residual.value <= caps.cyclomatic
    {
      assert m == Stamp(raw, Some(Shape(0, 0, m.cyclomatic - m.residual.value)), caps);
    } else if !m.exempt && m.residual.None? {
      assert m == Stamp(raw, None, caps);
    }
  }

  /** For measured rows the promise has no exception: a single row over a cap now was over a cap before. */
  lemma SingleRowPromise(name: Name, prior: Metrics, row: Metrics, caps: Caps)
    requires Stamped(prior, caps) && Regression(name, [prior], [row], caps) == [] && OverCap(row, caps)
    ensures CyclomaticOver(row, caps) ==> CyclomaticOver(prior, caps)
    ensures row.cognitive > caps.cognitive ==> prior.cognitive > caps.cognitive
  {
    StampedIff(prior, caps);
    SingleSilent(name, prior, row, caps);
  }

  // ----------------------------------------------- silence and findings, by the fields

  /** The first of the rows with the greatest cyclomatic value. */
  predicate IsWorst(rows: Rows, i: nat)
  {
    && i < |rows| && (forall k :: 0 <= k < i ==> rows[k].cyclomatic < rows[i].cyclomatic)
    && forall k :: i <= k < |rows| ==> rows[k].cyclomatic <= rows[i].cyclomatic
  }

  lemma {:induction false} WorstIs(rows: Rows, i: nat)
    requires IsWorst(rows, i)
    ensures Worst(rows) == rows[i]
  {
    if i < |rows| - 1 {
      WorstIs(rows[..|rows| - 1], i);
    } else if |rows| > 1 {
      assert Worst(rows[..|rows| - 1]) in rows[..|rows| - 1];
    }
  }

  /** The row grew by nothing but the arms of an accepted dispatcher: an ordinary row counts by its value, an accepted
      dispatcher by its residual, or nothing if it has none, and a former dispatcher within the cap always passes. */
  predicate Held(p: Metrics, r: Metrics, caps: Caps)
  {
    var before := if !p.exempt then p.cyclomatic else if p.residual.Some? then p.residual.value else 0;
    var after := if !r.exempt then r.cyclomatic else if r.residual.Some? then r.residual.value else 0;
    (p.exempt && r.cyclomatic <= caps.cyclomatic) || after <= before
  }

  lemma HeldIff(prior: Rows, i: nat, rows: Rows, j: nat, caps: Caps)
    requires IsWorst(prior, i) && IsWorst(rows, j)
    ensures !CyclomaticRegressed(prior, rows, caps) <==> Held(prior[i], rows[j], caps)
  {
    WorstIs(prior, i);
    WorstIs(rows, j);
  }

  predicate CognitiveHeld(prior: Rows, rows: Rows)
  {
    forall k :: 0 <= k < |rows| ==> exists l :: 0 <= l < |prior| && rows[k].cognitive <= prior[l].cognitive
  }

  lemma CognitiveHeldIff(prior: Rows, rows: Rows)
    ensures WorstCognitive(rows) <= WorstCognitive(prior) <==> CognitiveHeld(prior, rows)
  {
    var l :| 0 <= l < |prior| && prior[l].cognitive == WorstCognitive(prior);
    var k :| 0 <= k < |rows| && rows[k].cognitive == WorstCognitive(rows);
  }

  /** The rows of a name are silent exactly when no over-cap row was added, no row is cognitively worse than all
      before, and the row of greatest cyclomatic value held. */
  lemma SilentIff(name: Name, prior: Rows, i: nat, rows: Rows, j: nat, caps: Caps)
    requires IsWorst(prior, i) && IsWorst(rows, j)
    ensures Regression(name, prior, rows, caps) == [] <==>
      && (|Overs(rows, caps)| <= |Overs(prior, caps)| || |rows| <= |prior|)
      && CognitiveHeld(prior, rows) && Held(prior[i], rows[j], caps)
  {
    SilentParts(name, prior, rows, caps);
    HeldIff(prior, i, rows, j, caps);
    CognitiveHeldIff(prior, rows);
  }

  /** A single row is silent exactly when it is cognitively no worse and its cyclomatic value held; for measured rows
      that is: ordinary rows by value, dispatchers by residual, a former dispatcher by the cap alone. */
  lemma SingleSilentIff(name: Name, p: Metrics, r: Metrics, caps: Caps)
    ensures Regression(name, [p], [r], caps) == [] <==> r.cognitive <= p.cognitive && Held(p, r, caps)
    ensures Stamped(p, caps) && Stamped(r, caps) ==>
      && (p.exempt ==> p.residual.Some?) && (r.exempt ==> r.residual.Some?)
      && (Held(p, r, caps) <==>
            if p.exempt && r.exempt then r.residual.value <= p.residual.value
            else if p.exempt then r.cyclomatic <= caps.cyclomatic
            else if r.exempt then r.residual.value <= p.cyclomatic
            else r.cyclomatic <= p.cyclomatic)
  {
    HeldIff([p], 0, [r], 0, caps);
    SingleSilent(name, p, r, caps);
    StampedIff(p, caps);
    StampedIff(r, caps);
  }

  /** The over-cap rows, by the fields. */
  lemma {:induction false} OversCount(rows: seq<Metrics>, caps: Caps, m: Metrics)
    ensures multiset(Overs(rows, caps))[m] ==
      if (m.cyclomatic > caps.cyclomatic && !m.exempt) || m.cognitive > caps.cognitive then multiset(rows)[m] else 0
  {
    if rows != [] {
      var init, last := rows[..|rows| - 1], rows[|rows| - 1];
      assert rows == init + [last];
      OversCount(init, caps, m);
    }
  }

  lemma {:induction false} NewsAre(name: Name, rows: seq<Metrics>, k: nat)
    requires k < |rows|
    ensures News(name, rows)[k] == Finding(New, name, (0, 0), (rows[k].cyclomatic, rows[k].cognitive))
  {
    if k < |rows| - 1 { NewsAre(name, rows[..|rows| - 1], k); }
  }

  lemma RowOrder()
    ensures TotalPreorder(RowLe)
  {
  }

  /** Lowest first, by cyclomatic and then by cognitive value. */
  predicate Ascending(rows: seq<Metrics>)
  {
    forall k, l :: 0 <= k < l < |rows| ==>
      rows[k].cyclomatic < rows[l].cyclomatic
      || (rows[k].cyclomatic == rows[l].cyclomatic && rows[k].cognitive <= rows[l].cognitive)
  }

  /** The old and the new worst values, each the greatest of its kind; a dispatcher without a residual shows as 0. */
  predicate IsWorseFinding(name: Name, prior: Rows, i: nat, rows: Rows, j: nat, f: Finding)
    requires i < |prior| && j < |rows|
  {
    && f.kind == Worse && f.name == name
    && f.before.0 == (if prior[i].exempt && prior[i].residual.None? then 0 else prior[i].cyclomatic)
    && f.after.0 == rows[j].cyclomatic
    && IsGreatestCognitive(prior, f.before.1) && IsGreatestCognitive(rows, f.after.1)
  }

  predicate IsGreatestCognitive(rows: Rows, c: int)
  {
    (exists k :: 0 <= k < |rows| && rows[k].cognitive == c) && forall k :: 0 <= k < |rows| ==> rows[k].cognitive <= c
  }

  /** How many over-cap rows count as added. */
  function Added(prior: Rows, rows: Rows, caps: Caps): int
  {
    var n := Min(|Overs(rows, caps)| - |Overs(prior, caps)|, |rows| - |prior|);
    if n < 0 then 0 else n
  }

  lemma NewDuplicatesAre(name: Name, prior: Rows, rows: Rows, caps: Caps) returns (over: seq<Metrics>)
    ensures multiset(over) == multiset(Overs(rows, caps)) && Ascending(over) && Added(prior, rows, caps) <= |over|
    ensures |NewDuplicates(name, prior, rows, caps)| == Added(prior, rows, caps)
    ensures forall k :: 0 <= k < Added(prior, rows, caps) ==>
              NewDuplicates(name, prior, rows, caps)[k] ==
              Finding(New, name, (0, 0), (over[k].cyclomatic, over[k].cognitive))
  {
    over := SortBy(Overs(rows, caps), RowLe);
    RowOrder();
    SortByIs(Overs(rows, caps), RowLe);
    SortedCount(Overs(rows, caps));
    ghost var added := Added(prior, rows, caps);
    forall k: nat | k < added
      ensures News(name, over[..added])[k] == Finding(New, name, (0, 0), (over[k].cyclomatic, over[k].cognitive))
    {
      NewsAre(name, over[..added], k);
    }
  }

  lemma WorseIs(name: Name, prior: Rows, i: nat, rows: Rows, j: nat, caps: Caps)
    requires IsWorst(prior, i) && IsWorst(rows, j)
    ensures var w := WorseFindings(name, prior, rows, caps);
      if CognitiveHeld(prior, rows) && Held(prior[i], rows[j], caps) then w == []
      else |w| == 1 && IsWorseFinding(name, prior, i, rows, j, w[0])
  {
    HeldIff(prior, i, rows, j, caps);
    CognitiveHeldIff(prior, rows);
    WorstIs(prior, i);
    WorstIs(rows, j);
  }

  /** What is reported of a name that was there before: as many NEW findings as over-cap rows were added,
      with the values of the lowest over-cap rows, and then a WORSE finding with the old and the new worst values
      exactly if the row of greatest cyclomatic value or the cognitive values did not hold. */
  lemma RegressionIs(name: Name, prior: Rows, i: nat, rows: Rows, j: nat, caps: Caps) returns (over: seq<Metrics>)
    requires IsWorst(prior, i) && IsWorst(rows, j)
    ensures multiset(over) == multiset(Overs(rows, caps)) && Ascending(over) && Added(prior, rows, caps) <= |over|
    ensures var n, r := Added(prior, rows, caps), Regression(name, prior, rows, caps);
      && |r| >= n
      && (forall k :: 0 <= k < n ==> r[k] == Finding(New, name, (0, 0), (over[k].cyclomatic, over[k].cognitive)))
      && if CognitiveHeld(prior, rows) && Held(prior[i], rows[j], caps) then |r| == n
         else |r| == n + 1 && IsWorseFinding(name, prior, i, rows, j, r[n])
  {
    over := NewDuplicatesAre(name, prior, rows, caps);
    WorseIs(name, prior, i, rows, j, caps);
  }

  // -------------------------------------------------------------- colliding names

  ghost predicate AllStamped(rows: Rows, caps: Caps)
  {
    forall i :: 0 <= i < |rows| ==> Stamped(rows[i], caps)
  }

  /** The promise: a silent name has no more over-cap rows than it had before. */
  ghost predicate Promise(name: Name, prior: Rows, rows: Rows, caps: Caps)
  {
    Regression(name, prior, rows, caps) == [] ==> |Overs(rows, caps)| <= |Overs(prior, caps)|
  }

  lemma CrossingRegresses(prior: Rows, rows: Rows, caps: Caps)
    requires |rows| == 1 && AllStamped(prior, caps) && OverCap(rows[0], caps)
    requires forall i :: 0 <= i < |prior| ==> !OverCap(prior[i], caps)
    ensures CyclomaticRegressed(prior, rows, caps) || WorstCognitive(rows) > WorstCognitive(prior)
  {
    var k :| 0 <= k < |prior| && prior[k].cognitive == WorstCognitive(prior);
    var i :| 0 <= i < |prior| && prior[i] == Worst(prior);
    StampedIff(prior[i], caps);
    assert !OverCap(prior[i], caps) && !OverCap(prior[k], caps);
  }

  lemma OneRow(name: Name, prior: Rows, rows: Rows, caps: Caps)
    requires |rows| == 1 && AllStamped(prior, caps)
    ensures Promise(name, prior, rows, caps)
  {
    SilentParts(name, prior, rows, caps);
    OversAre(prior, caps);
    OversAre(rows, caps);
    if OverCap(rows[0], caps) && Overs(prior, caps) == [] { CrossingRegresses(prior, rows, caps); }
  }

  function Plain(cyclomatic: int): Metrics { Metrics(cyclomatic, 0, 0, false, None) }

  /** `n` rows within the caps. */
  function Fillers(n: nat): (r: seq<Metrics>)
    ensures |r| == n && forall i :: 0 <= i < n ==> r[i] == Plain(0)
  {
    seq(n, _ => Plain(0))
  }

  lemma OversOf(rows: seq<Metrics>, n: nat, caps: Caps)
    requires !OverCap(Plain(0), caps)
    ensures Overs(rows + Fillers(n), caps) == Overs(rows, caps)
    decreases n
  {
    if n == 0 {
      assert rows + Fillers(0) == rows;
    } else {
      OversOf(rows, n - 1, caps);
      var all := rows + Fillers(n);
      assert all[..|all| - 1] == rows + Fillers(n - 1) && all[|all| - 1] == Plain(0);
    }
  }

  lemma WorstPlain(rows: Rows, top: int)
    requires rows[0] == Plain(top)
    requires forall i :: 0 <= i < |rows| ==> rows[i] == Plain(rows[i].cyclomatic) && rows[i].cyclomatic <= top
    ensures Worst(rows) == Plain(top) && WorstCognitive(rows) == 0
  {
  }

  lemma OversPlain(a: int, b: int, caps: Caps)
    requires a > caps.cyclomatic && b > caps.cyclomatic
    ensures |Overs([Plain(a)], caps)| == 1 && |Overs([Plain(a), Plain(b)], caps)| == 2
  {
    assert [Plain(a)][..0] == [] && [Plain(a), Plain(b)][..1] == [Plain(a)];
  }

  lemma PlainStamped(rows: Rows, caps: Caps)
    requires forall i :: 0 <= i < |rows| ==> !rows[i].exempt && rows[i].residual.None?
    ensures AllStamped(rows, caps)
  {
    forall i | 0 <= i < |rows| ensures Stamped(rows[i], caps) { StampedIff(rows[i], caps); }
  }

  lemma OneOver(top: int, n: nat, caps: Caps) returns (prior: Rows)
    requires top > caps.cyclomatic >= 0 && caps.cognitive >= 0 && n >= 1
    ensures |prior| == n && Worst(prior) == Plain(top) && WorstCognitive(prior) == 0
    ensures |Overs(prior, caps)| == 1 && AllStamped(prior, caps)
  {
    prior := [Plain(top)] + Fillers(n - 1);
    PlainStamped(prior, caps);
    WorstPlain(prior, top);
    OversPlain(top, top, caps);
    OversOf([Plain(top)], n - 1, caps);
  }

  lemma TwoOver(top: int, n: nat, caps: Caps) returns (rows: Rows)
    requires top - 1 > caps.cyclomatic >= 0 && caps.cognitive >= 0 && n >= 2
    ensures |rows| == n && Worst(rows) == Plain(top) && WorstCognitive(rows) == 0
    ensures |Overs(rows, caps)| == 2 && AllStamped(rows, caps)
  {
    rows := [Plain(top), Plain(top - 1)] + Fillers(n - 2);
    PlainStamped(rows, caps);
    WorstPlain(rows, top);
    OversPlain(top, top - 1, caps);
    OversOf([Plain(top), Plain(top - 1)], n - 2, caps);
  }

  lemma SilentWhenWorstStays(name: Name, prior: Rows, rows: Rows, caps: Caps)
    requires |rows| <= |prior| && Worst(prior) == Worst(rows) && WorstCognitive(prior) == WorstCognitive(rows)
    ensures Regression(name, prior, rows, caps) == []
  {
    SilentParts(name, prior, rows, caps);
  }

  /** A row that crosses the cap behind a worse row of the same name. */
  lemma HiddenCrossing(name: Name, before: nat, after: nat, caps: Caps) returns (prior: Rows, rows: Rows)
    requires 2 <= after <= before && caps.cyclomatic >= 0 && caps.cognitive >= 0
    ensures |prior| == before && |rows| == after && AllStamped(prior, caps) && AllStamped(rows, caps)
    ensures !Promise(name, prior, rows, caps)
  {
    prior := OneOver(caps.cyclomatic + 2, before, caps);
    rows := TwoOver(caps.cyclomatic + 2, after, caps);
    SilentWhenWorstStays(name, prior, rows, caps);
  }

  /** For a name that had `before` rows and has `after` rows now, silence keeps the promise whatever the measured rows
      are exactly when rows were added or only one is left; otherwise a crossing can hide behind a worse row. */
  lemma CollidingNamesIff(name: Name, before: nat, after: nat, caps: Caps)
    requires before >= 1 && after >= 1 && caps.cyclomatic >= 0 && caps.cognitive >= 0
    ensures (forall prior: Rows, rows: Rows ::
               |prior| == before && |rows| == after && AllStamped(prior, caps) && AllStamped(rows, caps) ==>
               Promise(name, prior, rows, caps))
       <==> after > before || after == 1
  {
    if after > before || after == 1 {
      forall prior: Rows, rows: Rows |
        |prior| == before && |rows| == after && AllStamped(prior, caps) && AllStamped(rows, caps)
        ensures Promise(name, prior, rows, caps)
      {
        if after == 1 { OneRow(name, prior, rows, caps); } else { SilentParts(name, prior, rows, caps); }
      }
    } else {
      var prior, rows := HiddenCrossing(name, before, after, caps);
    }
  }
}
