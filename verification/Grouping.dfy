// jqGrid grouping: `groupingPrepare` is fed one row at a time and keeps a flat
// list of groups with running summaries.  The reference is the recursive
// decomposition of all rows into runs of equal group values.

module Grouping {
  import opened Wrappers

  /** A running value; Blank is the empty string a summary starts with. */
  datatype Acc = Blank | Num(n: real)

  datatype SummaryType = Sum | Min | Max | Count | Avg

  /** One entry of a group's summary; `sd` is the divider field of an average and `vd` its running value. */
  datatype Summary = Summary(nm: string, st: SummaryType, v: Acc, sd: Option<string>, vd: Acc)

  /** A record: its value for each group field, and its numeric cells. */
  datatype Row = Row(keys: seq<string>, cells: map<string, real>)

  datatype Group = Group(idx: nat, value: string, startRow: nat, cnt: nat, summary: seq<Summary>)

  // ----- Summaries ----------------------------------------------------------

  /** `parseFloat(rc[field]||0)` */
  function Cell(rc: Row, field: string): real {
    if field in rc.cells then rc.cells[field] else 0.0
  }

  function Or0(v: Acc): real {
    match v
    case Blank => 0.0
    case Num(n) => n
  }

  /** groupingCalculations.handler */
  function Handler(st: SummaryType, v: Acc, field: string, rc: Row): Acc {
    match st
    case Sum => Num(Or0(v) + Cell(rc, field))
    case Avg => Num(Or0(v) + Cell(rc, field))
    case Min => Num(if v.Blank? || Cell(rc, field) < v.n then Cell(rc, field) else v.n)
    case Max => Num(if v.Blank? || Cell(rc, field) > v.n then Cell(rc, field) else v.n)
    case Count => Num(if field in rc.cells then Or0(v) + 1.0 else 0.0)
  }

  function Stepped(s: Summary, rc: Row): Summary {
    s.(v := Handler(s.st, s.v, s.nm, rc),
       vd := if s.st == Avg && s.sd.Some? then Handler(s.st, s.vd, s.sd.value, rc) else s.vd)
  }

  function StepAll(ss: seq<Summary>, rc: Row): seq<Summary> {
    seq(|ss|, k requires 0 <= k < |ss| => Stepped(ss[k], rc))
  }

  /** The summary of the rows lo..hi. */
  function Folded(template: seq<Summary>, rows: seq<Row>, lo: nat, hi: nat): seq<Summary>
    requires lo <= hi <= |rows|
    decreases hi - lo
  {
    if lo == hi then template else StepAll(Folded(template, rows, lo, hi - 1), rows[hi - 1])
  }

  // ----- The decomposition into runs ------------------------------------------

  /** Every row has a value for each of the `levels` group fields. */
  predicate Keyed(rows: seq<Row>, levels: nat) {
    forall r :: 0 <= r < |rows| ==> |rows[r].keys| == levels
  }

  /** The end of the run at `level` that starts at `lo`, among the rows before `hi`. */
  function RunEnd(rows: seq<Row>, level: nat, lo: nat, hi: nat): (e: nat)
    requires lo < hi <= |rows|
    requires forall r :: lo <= r < hi ==> |rows[r].keys| > level
    ensures lo < e <= hi
    ensures forall r :: lo <= r < e ==> rows[r].keys[level] == rows[lo].keys[level]
    ensures e < hi ==> rows[e].keys[level] != rows[e - 1].keys[level]
    decreases hi - lo
  {
    if lo + 1 == hi || rows[lo + 1].keys[level] != rows[lo].keys[level] then lo + 1
    else RunEnd(rows, level, lo + 1, hi)
  }

  function RunGroup(template: seq<Summary>, rows: seq<Row>, level: nat, lo: nat, e: nat): Group
    requires lo < e <= |rows| && |rows[lo].keys| > level
  {
    Group(level, rows[lo].keys[level], lo, e - lo, Folded(template, rows, lo, e))
  }

  /** The groups of the rows lo..hi from `level` down, each before the groups it contains. */
  function Runs(template: seq<Summary>, rows: seq<Row>, levels: nat, level: nat, lo: nat, hi: nat): (gs: seq<Group>)
    requires Keyed(rows, levels) && level <= levels && lo <= hi <= |rows|
    decreases hi - lo, levels - level
  {
    if lo == hi || level == levels then []
    else
      var e := RunEnd(rows, level, lo, hi);
      [RunGroup(template, rows, level, lo, e)]
      + Runs(template, rows, levels, level + 1, lo, e)
      + Runs(template, rows, levels, level, e, hi)
  }

  // ----- Feeding one more row ---------------------------------------------------

  /** The levels that occur. */
  function Levels(gs: seq<Group>): set<nat> {
    if gs == [] then {} else Levels(gs[..|gs| - 1]) + {gs[|gs| - 1].idx}
  }

  predicate Has(gs: seq<Group>, i: nat) {
    i in Levels(gs)
  }

  function Grown(g: Group, rc: Row): Group {
    g.(cnt := g.cnt + 1, summary := StepAll(g.summary, rc))
  }

  /** The last group of level `i` takes in one more row. */
  function Bump(gs: seq<Group>, i: nat, rc: Row): seq<Group> {
    if gs == [] then []
    else
      var init, last := gs[..|gs| - 1], gs[|gs| - 1];
      if last.idx == i then init + [Grown(last, rc)] else Bump(init, i, rc) + [last]
  }

  function BumpRange(gs: seq<Group>, from: nat, upto: nat, rc: Row): seq<Group>
    requires from <= upto
    decreases upto - from
  {
    if from == upto then gs else Bump(BumpRange(gs, from, upto - 1, rc), upto - 1, rc)
  }

  /** New groups of levels from..upto, all starting at row `r`. */
  function Opened(template: seq<Summary>, rc: Row, r: nat, from: nat, upto: nat): seq<Group>
    requires from <= upto <= |rc.keys|
    decreases upto - from
  {
    if from == upto then []
    else Opened(template, rc, r, from, upto - 1) + [Group(upto - 1, rc.keys[upto - 1], r, 1, StepAll(template, rc))]
  }

  /** The first level, from `level` on, at which two rows differ. */
  function Break(a: Row, b: Row, level: nat): (c: nat)
    requires |a.keys| == |b.keys| && level <= |a.keys|
    ensures level <= c <= |a.keys|
    ensures c < |a.keys| ==> a.keys[c] != b.keys[c]
    ensures forall i :: level <= i < c ==> a.keys[i] == b.keys[i]
    decreases |a.keys| - level
  {
    if level == |a.keys| || a.keys[level] != b.keys[level] then level else Break(a, b, level + 1)
  }

  /** Groups of every level from..upto. */
  predicate HasAll(gs: seq<Group>, from: nat, upto: nat)
    requires from <= upto
    decreases upto - from
  {
    from == upto || (Has(gs, upto - 1) && HasAll(gs, from, upto - 1))
  }

  lemma {:induction false} RunsHaveAll(template: seq<Summary>, rows: seq<Row>, levels: nat, level: nat, lo: nat,
                                       hi: nat, upto: nat)
    requires Keyed(rows, levels) && level <= upto <= levels && lo < hi <= |rows|
    ensures HasAll(Runs(template, rows, levels, level, lo, hi), level, upto)
    decreases upto
  {
    if level < upto {
      RunsHaveAll(template, rows, levels, level, lo, hi, upto - 1);
      RunsLevels(template, rows, levels, level, lo, hi, upto - 1);
    }
  }

  lemma {:induction false} HasConcat(a: seq<Group>, b: seq<Group>, i: nat)
    ensures Has(a + b, i) <==> Has(a, i) || Has(b, i)
    decreases |b|
  {
    if b == [] {
      assert a + b == a;
    } else {
      assert (a + b)[..|a + b| - 1] == a + b[..|b| - 1];
      HasConcat(a, b[..|b| - 1], i);
    }
  }

  lemma HasOne(g: Group, i: nat)
    ensures Has([g], i) <==> g.idx == i
  {
    assert Levels([g]) == Levels([g][..0]) + {g.idx};
  }

  /** If `b` has a group of level `i`, growing that level leaves `a` alone. */
  lemma {:induction false} BumpRight(a: seq<Group>, b: seq<Group>, i: nat, rc: Row)
    requires Has(b, i)
    ensures Bump(a + b, i, rc) == a + Bump(b, i, rc)
    decreases |b|
  {
    var init, last := b[..|b| - 1], b[|b| - 1];
    assert (a + b)[..|a + b| - 1] == a + init;
    if last.idx != i {
      BumpRight(a, init, i, rc);
    }
  }

  /** If `b` has none, `b` is left alone. */
  lemma {:induction false} BumpLeft(a: seq<Group>, b: seq<Group>, i: nat, rc: Row)
    requires !Has(b, i)
    ensures Bump(a + b, i, rc) == Bump(a, i, rc) + b
    decreases |b|
  {
    if b == [] {
      assert a + b == a && Bump(a, i, rc) + b == Bump(a, i, rc);
    } else {
      var init := b[..|b| - 1];
      assert (a + b)[..|a + b| - 1] == a + init;
      BumpLeft(a, init, i, rc);
    }
  }

  lemma LevelsMore(init: seq<Group>, last: Group)
    ensures Levels(init + [last]) == Levels(init) + {last.idx}
  {
    assert (init + [last])[..|init|] == init;
  }

  lemma {:induction false} BumpKeepsLevels(gs: seq<Group>, i: nat, rc: Row)
    ensures Levels(Bump(gs, i, rc)) == Levels(gs)
    decreases |gs|
  {
    if gs != [] {
      var init, last := gs[..|gs| - 1], gs[|gs| - 1];
      BumpKeepsLevels(init, i, rc);
      LevelsMore(init, Grown(last, rc));
      LevelsMore(Bump(init, i, rc), last);
    }
  }

  lemma {:induction false} BumpRangeKeepsLevels(gs: seq<Group>, from: nat, upto: nat, rc: Row)
    requires from <= upto
    ensures Levels(BumpRange(gs, from, upto, rc)) == Levels(gs)
    decreases upto - from
  {
    if from < upto {
      BumpRangeKeepsLevels(gs, from, upto - 1, rc);
      BumpTop(gs, from, upto, rc);
    }
  }

  lemma BumpTop(gs: seq<Group>, from: nat, upto: nat, rc: Row)
    requires from < upto
    ensures Levels(BumpRange(gs, from, upto, rc)) == Levels(BumpRange(gs, from, upto - 1, rc))
  {
    BumpKeepsLevels(BumpRange(gs, from, upto - 1, rc), upto - 1, rc);
  }

  lemma {:induction false} BumpRangeRight(a: seq<Group>, b: seq<Group>, from: nat, upto: nat, rc: Row)
    requires from <= upto && HasAll(b, from, upto)
    ensures BumpRange(a + b, from, upto, rc) == a + BumpRange(b, from, upto, rc)
    decreases upto - from
  {
    if from < upto {
      BumpRangeRight(a, b, from, upto - 1, rc);
      BumpTopRight(a, b, from, upto, rc);
    }
  }

  lemma BumpTopRight(a: seq<Group>, b: seq<Group>, from: nat, upto: nat, rc: Row)
    requires from < upto && Has(b, upto - 1)
    requires BumpRange(a + b, from, upto - 1, rc) == a + BumpRange(b, from, upto - 1, rc)
    ensures BumpRange(a + b, from, upto, rc) == a + BumpRange(b, from, upto, rc)
  {
    BumpRangeKeepsLevels(b, from, upto - 1, rc);
    BumpRight(a, BumpRange(b, from, upto - 1, rc), upto - 1, rc);
  }

  lemma BumpFront(g: Group, b: seq<Group>, rc: Row)
    requires !Has(b, g.idx)
    ensures Bump([g] + b, g.idx, rc) == [Grown(g, rc)] + b
  {
    BumpLeft([g], b, g.idx, rc);
    assert [g][..0] == [];
    assert Bump([g], g.idx, rc) == [Grown(g, rc)];
  }

  /** Growing the one group in front, and then levels that `b` has. */
  lemma {:induction false} BumpRangeFront(g: Group, b: seq<Group>, upto: nat, rc: Row)
    requires g.idx < upto && !Has(b, g.idx) && HasAll(b, g.idx + 1, upto)
    ensures BumpRange([g] + b, g.idx, upto, rc) == [Grown(g, rc)] + BumpRange(b, g.idx + 1, upto, rc)
    decreases upto
  {
    var top := upto - 1;
    if top == g.idx {
      BumpFront(g, b, rc);
    } else {
      BumpRangeFront(g, b, top, rc);
      BumpRangeKeepsLevels(b, g.idx + 1, top, rc);
      BumpRight([Grown(g, rc)], BumpRange(b, g.idx + 1, top, rc), top, rc);
    }
  }

  /** The decomposition has groups of exactly the levels from `level` on. */
  lemma {:induction false} RunsLevels(template: seq<Summary>, rows: seq<Row>, levels: nat, level: nat, lo: nat,
                                      hi: nat, i: nat)
    requires Keyed(rows, levels) && level <= levels && lo < hi <= |rows|
    ensures Has(Runs(template, rows, levels, level, lo, hi), i) <==> level <= i < levels
    decreases hi - lo, levels - level
  {
    if level < levels {
      var e := RunEnd(rows, level, lo, hi);
      var head := RunGroup(template, rows, level, lo, e);
      var sub := Runs(template, rows, levels, level + 1, lo, e);
      RunsLevels(template, rows, levels, level + 1, lo, e, i);
      HasOne(head, i);
      HasConcat([head], sub, i);
      HasConcat([head] + sub, Runs(template, rows, levels, level, e, hi), i);
      if e < hi {
        RunsLevels(template, rows, levels, level, e, hi, i);
      }
    }
  }

  /** One row alone opens a group at every level. */
  lemma {:induction false} RunsSingle(template: seq<Summary>, rows: seq<Row>, levels: nat, level: nat, r: nat)
    requires Keyed(rows, levels) && level <= levels && r < |rows|
    ensures Runs(template, rows, levels, level, r, r + 1) == Opened(template, rows[r], r, level, levels)
    decreases levels - level
  {
    if level < levels {
      RunsSingle(template, rows, levels, level + 1, r);
      assert Folded(template, rows, r, r) == template;
      assert Runs(template, rows, levels, level, r + 1, r + 1) == [];
      OpenedFront(template, rows[r], r, level, levels);
    }
  }

  lemma {:induction false} OpenedFront(template: seq<Summary>, rc: Row, r: nat, from: nat, upto: nat)
    requires from < upto <= |rc.keys|
    ensures Opened(template, rc, r, from, upto)
         == [Group(from, rc.keys[from], r, 1, StepAll(template, rc))] + Opened(template, rc, r, from + 1, upto)
    decreases upto - from
  {
    if from + 1 < upto {
      OpenedFront(template, rc, r, from, upto - 1);
    }
  }

  /** Where the first run ends when one more row is looked at. */
  lemma {:induction false} RunEndNext(rows: seq<Row>, level: nat, lo: nat, hi: nat)
    requires lo < hi < |rows|
    requires forall r :: lo <= r <= hi ==> |rows[r].keys| > level
    ensures var e := RunEnd(rows, level, lo, hi);
      RunEnd(rows, level, lo, hi + 1) ==
        if e == hi && rows[hi].keys[level] == rows[hi - 1].keys[level] then hi + 1 else e
    decreases hi - lo
  {
    if lo + 1 < hi && rows[lo + 1].keys[level] == rows[lo].keys[level] {
      RunEndNext(rows, level, lo + 1, hi);
    }
  }

  /** The statement of RunsNext. */
  ghost predicate NextRow(template: seq<Summary>, rows: seq<Row>, levels: nat, level: nat, lo: nat, hi: nat)
    requires Keyed(rows, levels) && level <= levels && lo < hi < |rows|
  {
    var c := Break(rows[hi - 1], rows[hi], level);
    Runs(template, rows, levels, level, lo, hi + 1) ==
      BumpRange(Runs(template, rows, levels, level, lo, hi), level, c, rows[hi])
        + Opened(template, rows[hi], hi, c, levels)
  }

  lemma NextAfterRun(template: seq<Summary>, rows: seq<Row>, levels: nat, level: nat, lo: nat, hi: nat)
    requires Keyed(rows, levels) && level < levels && lo < hi < |rows|
    requires var e := RunEnd(rows, level, lo, hi); e < hi && NextRow(template, rows, levels, level, e, hi)
    ensures NextRow(template, rows, levels, level, lo, hi)
  {
    var c, e := Break(rows[hi - 1], rows[hi], level), RunEnd(rows, level, lo, hi);
    var front := [RunGroup(template, rows, level, lo, e)] + Runs(template, rows, levels, level + 1, lo, e);
    var rest := Runs(template, rows, levels, level, e, hi);
    RunEndNext(rows, level, lo, hi);
    RunsHaveAll(template, rows, levels, level, e, hi, c);
    BumpRangeRight(front, rest, level, c, rows[hi]);
  }

  lemma NextOpensRun(template: seq<Summary>, rows: seq<Row>, levels: nat, level: nat, lo: nat, hi: nat)
    requires Keyed(rows, levels) && level < levels && lo < hi < |rows|
    requires RunEnd(rows, level, lo, hi) == hi && rows[hi].keys[level] != rows[hi - 1].keys[level]
    ensures NextRow(template, rows, levels, level, lo, hi)
  {
    RunEndNext(rows, level, lo, hi);
    RunsSingle(template, rows, levels, level, hi);
    var gs := Runs(template, rows, levels, level, lo, hi);
    assert Runs(template, rows, levels, level, hi, hi) == [];
    assert BumpRange(gs, level, level, rows[hi]) == gs;
  }

  lemma NextJoinsRun(template: seq<Summary>, rows: seq<Row>, levels: nat, level: nat, lo: nat, hi: nat)
    requires Keyed(rows, levels) && level < levels && lo < hi < |rows|
    requires RunEnd(rows, level, lo, hi) == hi && rows[hi].keys[level] == rows[hi - 1].keys[level]
    requires NextRow(template, rows, levels, level + 1, lo, hi)
    ensures NextRow(template, rows, levels, level, lo, hi)
  {
    var rc, c := rows[hi], Break(rows[hi - 1], rows[hi], level);
    assert c == Break(rows[hi - 1], rows[hi], level + 1);
    var g := RunGroup(template, rows, level, lo, hi);
    var sub := Runs(template, rows, levels, level + 1, lo, hi);
    RunEndNext(rows, level, lo, hi);
    OneRun(template, rows, levels, level, lo, hi);
    OneRun(template, rows, levels, level, lo, hi + 1);
    GrownRun(template, rows, level, lo, hi);
    RunsHaveAll(template, rows, levels, level + 1, lo, hi, c);
    RunsLevels(template, rows, levels, level + 1, lo, hi, level);
    GrowFront(g, sub, c, rc, Opened(template, rc, hi, c, levels));
  }

  lemma GrowFront(g: Group, sub: seq<Group>, c: nat, rc: Row, added: seq<Group>)
    requires g.idx < c && !Has(sub, g.idx) && HasAll(sub, g.idx + 1, c)
    ensures [Grown(g, rc)] + (BumpRange(sub, g.idx + 1, c, rc) + added) == BumpRange([g] + sub, g.idx, c, rc) + added
  {
    BumpRangeFront(g, sub, c, rc);
  }

  lemma GrownRun(template: seq<Summary>, rows: seq<Row>, level: nat, lo: nat, hi: nat)
    requires lo < hi < |rows| && |rows[lo].keys| > level
    ensures RunGroup(template, rows, level, lo, hi + 1) == Grown(RunGroup(template, rows, level, lo, hi), rows[hi])
  {
  }

  lemma OneRun(template: seq<Summary>, rows: seq<Row>, levels: nat, level: nat, lo: nat, hi: nat)
    requires Keyed(rows, levels) && level < levels && lo < hi <= |rows| && RunEnd(rows, level, lo, hi) == hi
    ensures Runs(template, rows, levels, level, lo, hi)
         == [RunGroup(template, rows, level, lo, hi)] + Runs(template, rows, levels, level + 1, lo, hi)
  {
    assert Runs(template, rows, levels, level, hi, hi) == [];
  }

  /** One more row grows the last group of each level above the break, and opens one at each level below. */
  lemma {:induction false} RunsNext(template: seq<Summary>, rows: seq<Row>, levels: nat, level: nat, lo: nat, hi: nat)
    requires Keyed(rows, levels) && level <= levels && lo < hi < |rows|
    ensures NextRow(template, rows, levels, level, lo, hi)
    decreases hi - lo, levels - level
  {
    if level < levels {
      if RunEnd(rows, level, lo, hi) < hi {
        RunsNext(template, rows, levels, level, RunEnd(rows, level, lo, hi), hi);
        NextAfterRun(template, rows, levels, level, lo, hi);
      } else if rows[hi].keys[level] == rows[hi - 1].keys[level] {
        RunsNext(template, rows, levels, level + 1, lo, hi);
        NextJoinsRun(template, rows, levels, level, lo, hi);
      } else {
        NextOpensRun(template, rows, levels, level, lo, hi);
      }
    }
  }

  // ----- groupingPrepare ---------------------------------------------------------

  datatype Counter = Counter(cnt: nat, pos: nat, summary: seq<Summary>)

  /** The counter of level `i` mirrors the last group of that level. */
  ghost predicate Mirrors(c: Counter, gs: seq<Group>, i: nat) {
    && c.pos < |gs| && gs[c.pos].idx == i
    && c.cnt == gs[c.pos].cnt && c.summary == gs[c.pos].summary
    && forall q :: c.pos < q < |gs| ==> gs[q].idx != i
  }

  lemma {:induction false} BumpAt(gs: seq<Group>, pos: nat, i: nat, rc: Row)
    requires pos < |gs| && gs[pos].idx == i && forall q :: pos < q < |gs| ==> gs[q].idx != i
    ensures Bump(gs, i, rc) == gs[pos := Grown(gs[pos], rc)]
    decreases |gs|
  {
    if pos < |gs| - 1 {
      BumpAt(gs[..|gs| - 1], pos, i, rc);
    }
  }

  class GroupingView {
    const levels: nat
    const summary: seq<Summary>
    var groups: seq<Group>
    var lastvalues: seq<string>
    var counters: seq<Counter>
    ghost var rows: seq<Row>

    /** The list of groups is the decomposition of the rows fed so far. */
    ghost predicate Valid()
      reads this
    {
      ValidFor(rows)
    }

    ghost predicate ValidFor(rows: seq<Row>)
      reads this
    {
      && Keyed(rows, levels)
      && groups == Runs(summary, rows, levels, 0, 0, |rows|)
      && |lastvalues| == |counters| == levels
      && (rows != [] ==>
            && (forall i :: 0 <= i < levels ==> lastvalues[i] == rows[|rows| - 1].keys[i])
            && (forall i :: 0 <= i < levels ==> Mirrors(counters[i], groups, i)))
    }

    constructor (levels: nat, summary: seq<Summary>)
      ensures Valid() && rows == [] && this.levels == levels && this.summary == summary
    {
      this.levels, this.summary := levels, summary;
      groups, rows := [], [];
      lastvalues, counters := seq(levels, _ => ""), seq(levels, _ => Counter(0, 0, []));
    }

    method StepSummary(ss: seq<Summary>, record: Row) returns (r: seq<Summary>)
      ensures r == StepAll(ss, record)
    {
      r := [];
      for k := 0 to |ss|
        invariant |r| == k && forall j :: 0 <= j < k ==> r[j] == Stepped(ss[j], record)
      {
        r := r + [Stepped(ss[k], record)];
      }
    }

    /** `grp.groups.push(...)` with a counter for the new group. */
    method PushGroup(i: nat, v: string, irow: nat, record: Row)
      requires i < |lastvalues| && i < |counters|
      modifies this`groups, this`lastvalues, this`counters
      ensures groups == old(groups) + [Group(i, v, irow, 1, StepAll(summary, record))]
      ensures lastvalues == old(lastvalues)[i := v]
      ensures |counters| == |old(counters)|
      ensures forall k :: 0 <= k < |counters| && k != i ==> counters[k] == old(counters)[k]
      ensures Mirrors(counters[i], groups, i)
    {
      groups := groups + [Group(i, v, irow, 1, [])];
      lastvalues := lastvalues[i := v];
      var first := StepSummary(summary, record);
      counters := counters[i := Counter(1, |groups| - 1, first)];
      groups := groups[counters[i].pos := groups[counters[i].pos].(summary := counters[i].summary)];
    }

    /** The row belongs to the current group of level i. */
    method GrowGroup(i: nat, record: Row)
      requires i < |counters| && Mirrors(counters[i], groups, i)
      modifies this`groups, this`counters
      ensures groups == Bump(old(groups), i, record)
      ensures |groups| == |old(groups)|
      ensures forall q :: 0 <= q < |groups| && q != old(counters)[i].pos ==> groups[q] == old(groups)[q]
      ensures |counters| == |old(counters)|
      ensures forall k :: 0 <= k < |counters| && k != i ==> counters[k] == old(counters)[k]
      ensures Mirrors(counters[i], groups, i) && counters[i].pos == old(counters)[i].pos
    {
      BumpAt(groups, counters[i].pos, i, record);
      var pos := counters[i].pos;
      counters := counters[i := counters[i].(cnt := counters[i].cnt + 1)];
      groups := groups[pos := groups[pos].(cnt := counters[i].cnt)];
      var next := StepSummary(counters[i].summary, record);
      counters := counters[i := counters[i].(summary := next)];
      groups := groups[pos := groups[pos].(summary := counters[i].summary)];
    }

    /** The levels below `i` have seen the row that breaks with its predecessor at level `c`. */
    ghost predicate Midway(record: Row, irow: nat, gs: seq<Group>, last: seq<string>, c: nat, i: nat)
      reads this
    {
      && i <= |record.keys| == levels == |lastvalues| == |counters| == |last|
      && groups == LevelsDone(summary, gs, record, irow, c, i)
      && (forall k :: 0 <= k < i ==> lastvalues[k] == record.keys[k])
      && (forall k :: i <= k < levels ==> lastvalues[k] == last[k])
      && (forall k :: 0 <= k < levels && (irow > 0 || k < i) ==> Mirrors(counters[k], groups, k))
    }

    /** A level at which the row opens a new group. */
    method OpenLevel(i: nat, record: Row, irow: nat, ghost gs: seq<Group>, ghost last: seq<string>, ghost c: nat)
      requires i < levels && c <= i && Midway(record, irow, gs, last, c, i)
      modifies this`groups, this`lastvalues, this`counters
      ensures Midway(record, irow, gs, last, c, i + 1)
    {
      LevelNext(summary, gs, record, irow, c, i);
      PushGroup(i, record.keys[i], irow, record);
    }

    /** A level at which the row joins the current group. */
    method JoinLevel(i: nat, record: Row, irow: nat, ghost gs: seq<Group>, ghost last: seq<string>, ghost c: nat)
      requires i < levels && i < c <= levels && irow > 0 && Midway(record, irow, gs, last, c, i)
      requires last[i] == record.keys[i]
      modifies this`groups, this`counters
      ensures Midway(record, irow, gs, last, c, i + 1)
    {
      LevelNext(summary, gs, record, irow, c, i);
      GrowGroup(i, record);
    }

    /** One round of the loop over the group fields. */
    method PrepareLevel(i: nat, record: Row, irow: nat, changed: bool, ghost gs: seq<Group>, ghost last: seq<string>,
                        ghost c: nat)
      returns (nowChanged: bool)
      requires i < levels && Midway(record, irow, gs, last, c, i) && c <= levels
      requires if irow == 0 then c == 0 else
        && changed == (i > c)
        && (c < levels ==> last[c] != record.keys[c])
        && (forall k :: 0 <= k < c ==> last[k] == record.keys[k])
      modifies this`groups, this`lastvalues, this`counters
      ensures Midway(record, irow, gs, last, c, i + 1)
      ensures irow > 0 ==> nowChanged == (i + 1 > c)
    {
      var v := record.keys[i];
      nowChanged := changed;
      if irow == 0 {
        OpenLevel(i, record, irow, gs, last, c);
      } else if lastvalues[i] != v {
        OpenLevel(i, record, irow, gs, last, c);
        nowChanged := true;
      } else if changed {
        OpenLevel(i, record, irow, gs, last, c);
      } else {
        JoinLevel(i, record, irow, gs, last, c);
      }
    }

    /** The loop over the group fields. */
    method PrepareLevels(record: Row, irow: nat, ghost gs: seq<Group>, ghost last: seq<string>, ghost c: nat)
      requires Midway(record, irow, gs, last, c, 0) && c <= levels
      requires if irow == 0 then c == 0 else
        && (c < levels ==> last[c] != record.keys[c])
        && (forall k :: 0 <= k < c ==> last[k] == record.keys[k])
      modifies this`groups, this`lastvalues, this`counters
      ensures Midway(record, irow, gs, last, c, levels)
    {
      var changed := false;
      for i := 0 to levels
        invariant Midway(record, irow, gs, last, c, i)
        invariant irow > 0 ==> changed == (i > c)
      {
        changed := PrepareLevel(i, record, irow, changed, gs, last, c);
      }
    }

    method Prepare(record: Row, irow: nat)
      requires Valid() && |record.keys| == levels && irow == |rows|
      modifies this
      ensures Valid() && rows == old(rows) + [record]
    {
      ghost var gs, last, c := groups, lastvalues, BreakWith(rows, record);
      BeforeLevels(record, irow);
      PrepareLevels(record, irow, gs, last, c);
      AfterLevels(record, irow, gs, last, c);
      rows := rows + [record];
    }

    /** When all levels have seen the row. */
    lemma AfterLevels(record: Row, irow: nat, gs: seq<Group>, last: seq<string>, c: nat)
      requires Keyed(rows, levels) && irow == |rows| && gs == Runs(summary, rows, levels, 0, 0, |rows|)
      requires |record.keys| == levels && c == BreakWith(rows, record) && Midway(record, irow, gs, last, c, levels)
      ensures ValidFor(rows + [record])
    {
      RowsExtend(summary, rows, record, levels);
      assert (rows + [record])[|rows|] == record;
    }

    /** Before any level has seen the row. */
    lemma BeforeLevels(record: Row, irow: nat)
      requires Valid() && |record.keys| == levels && irow == |rows|
      ensures Midway(record, irow, groups, lastvalues, BreakWith(rows, record), 0)
    {
      assert BumpRange(groups, 0, 0, record) == groups;
      assert Opened(summary, record, irow, 0, 0) == [] && groups + [] == groups;
    }
  }

  /** The first level at which the next row starts a new group. */
  function BreakWith(rows: seq<Row>, record: Row): (c: nat)
    requires rows != [] ==> |rows[|rows| - 1].keys| == |record.keys|
    ensures c <= |record.keys|
  {
    if rows == [] then 0 else Break(rows[|rows| - 1], record, 0)
  }

  /** The groups once the levels below `i` have seen the row: grown above the break, opened from there on. */
  function LevelsDone(template: seq<Summary>, gs: seq<Group>, rc: Row, r: nat, c: nat, i: nat): seq<Group>
    requires i <= |rc.keys|
  {
    if i < c then BumpRange(gs, 0, i, rc) else BumpRange(gs, 0, c, rc) + Opened(template, rc, r, c, i)
  }

  lemma LevelNext(template: seq<Summary>, gs: seq<Group>, rc: Row, r: nat, c: nat, i: nat)
    requires i < |rc.keys| && c <= |rc.keys|
    ensures LevelsDone(template, gs, rc, r, c, i + 1) ==
      if i < c then Bump(LevelsDone(template, gs, rc, r, c, i), i, rc)
      else LevelsDone(template, gs, rc, r, c, i) + [Group(i, rc.keys[i], r, 1, StepAll(template, rc))]
  {
    if i + 1 == c {
      assert Opened(template, rc, r, c, c) == [];
    }
  }

  lemma {:induction false} RunsLocal(template: seq<Summary>, a: seq<Row>, b: seq<Row>, levels: nat, level: nat,
                                     lo: nat, hi: nat)
    requires Keyed(a, levels) && Keyed(b, levels) && level <= levels && lo <= hi <= |a| && hi <= |b|
    requires forall r :: lo <= r < hi ==> a[r] == b[r]
    ensures Runs(template, a, levels, level, lo, hi) == Runs(template, b, levels, level, lo, hi)
    decreases hi - lo, levels - level
  {
    if lo < hi && level < levels {
      var e := RunEnd(a, level, lo, hi);
      RunEndLocal(a, b, level, lo, hi);
      FoldedLocal(template, a, b, lo, e);
      RunsLocal(template, a, b, levels, level + 1, lo, e);
      RunsLocal(template, a, b, levels, level, e, hi);
    }
  }

  lemma {:induction false} RunEndLocal(a: seq<Row>, b: seq<Row>, level: nat, lo: nat, hi: nat)
    requires lo < hi <= |a| && hi <= |b| && forall r :: lo <= r < hi ==> a[r] == b[r] && |a[r].keys| > level
    ensures RunEnd(a, level, lo, hi) == RunEnd(b, level, lo, hi)
    decreases hi - lo
  {
    if lo + 1 < hi {
      RunEndLocal(a, b, level, lo + 1, hi);
    }
  }

  lemma {:induction false} FoldedLocal(template: seq<Summary>, a: seq<Row>, b: seq<Row>, lo: nat, hi: nat)
    requires lo <= hi <= |a| && hi <= |b| && forall r :: lo <= r < hi ==> a[r] == b[r]
    ensures Folded(template, a, lo, hi) == Folded(template, b, lo, hi)
    decreases hi - lo
  {
    if lo < hi {
      FoldedLocal(template, a, b, lo, hi - 1);
    }
  }

  /** The decomposition after one more row, as the loop over the levels builds it. */
  lemma {:induction false} RowsExtend(template: seq<Summary>, rows: seq<Row>, record: Row, levels: nat)
    requires Keyed(rows, levels) && |record.keys| == levels
    ensures Runs(template, rows + [record], levels, 0, 0, |rows| + 1)
      == LevelsDone(template, Runs(template, rows, levels, 0, 0, |rows|), record, |rows|, BreakWith(rows, record),
                    levels)
  {
    var more := rows + [record];
    RunsLocal(template, rows, more, levels, 0, 0, |rows|);
    if rows == [] {
      RunsSingle(template, more, levels, 0, 0);
      assert Runs(template, rows, levels, 0, 0, 0) == [];
    } else {
      RunsNext(template, more, levels, 0, 0, |rows|);
    }
  }

  // ----- What the decomposition says ----------------------------------------------

  /** Some group field from `level` to `i` differs from the row before. */
  ghost predicate Changes(rows: seq<Row>, level: nat, i: nat, r: nat)
    requires 0 < r < |rows| && i < |rows[r].keys| == |rows[r - 1].keys|
  {
    exists j :: level <= j <= i && rows[r].keys[j] != rows[r - 1].keys[j]
  }

  ghost predicate Starts(gs: seq<Group>, i: nat, r: nat) {
    exists k :: 0 <= k < |gs| && gs[k].idx == i && gs[k].startRow == r
  }

  lemma StartsConcat(a: seq<Group>, b: seq<Group>, i: nat, r: nat)
    ensures Starts(a + b, i, r) <==> Starts(a, i, r) || Starts(b, i, r)
  {
    if Starts(a, i, r) {
      var k :| 0 <= k < |a| && a[k].idx == i && a[k].startRow == r;
      assert (a + b)[k] == a[k];
    }
    if Starts(b, i, r) {
      var k :| 0 <= k < |b| && b[k].idx == i && b[k].startRow == r;
      assert (a + b)[|a| + k] == b[k];
    }
  }

  /** A group of level i starts at row r exactly when some group field up to i changes there. */
  lemma {:induction false} GroupStarts(template: seq<Summary>, rows: seq<Row>, levels: nat, level: nat, lo: nat,
                                       hi: nat, i: nat, r: nat)
    requires Keyed(rows, levels) && level <= levels && lo <= hi <= |rows|
    ensures Starts(Runs(template, rows, levels, level, lo, hi), i, r) <==>
      level <= i < levels && lo <= r < hi && (r == lo || Changes(rows, level, i, r))
    decreases hi - lo, levels - level
  {
    if lo < hi && level < levels {
      var e := RunEnd(rows, level, lo, hi);
      var head := [RunGroup(template, rows, level, lo, e)];
      var sub := Runs(template, rows, levels, level + 1, lo, e);
      var rest := Runs(template, rows, levels, level, e, hi);
      GroupStarts(template, rows, levels, level + 1, lo, e, i, r);
      GroupStarts(template, rows, levels, level, e, hi, i, r);
      StartsJoin(head, sub, rest, i, r);
      assert head[0].idx == level && head[0].startRow == lo;
      ChangesInRun(rows, levels, level, lo, hi, i, r);
    }
  }

  lemma StartsJoin(head: seq<Group>, sub: seq<Group>, rest: seq<Group>, i: nat, r: nat)
    requires |head| == 1
    ensures Starts(head + sub + rest, i, r) <==>
      (head[0].idx == i && head[0].startRow == r) || Starts(sub, i, r) || Starts(rest, i, r)
  {
    StartsConcat(head, sub, i, r);
    StartsConcat(head + sub, rest, i, r);
  }

  /** Within a run its own level never changes; right after it, it does. */
  lemma ChangesInRun(rows: seq<Row>, levels: nat, level: nat, lo: nat, hi: nat, i: nat, r: nat)
    requires Keyed(rows, levels) && level < levels && lo < hi <= |rows|
    ensures var e := RunEnd(rows, level, lo, hi);
      && (lo < r < e && i < levels ==> (Changes(rows, level, i, r) <==> Changes(rows, level + 1, i, r)))
      && (e == r < hi && level <= i < levels ==> Changes(rows, level, i, r))
  {
    var e := RunEnd(rows, level, lo, hi);
    if lo < r < e && i < levels {
      assert rows[r].keys[level] == rows[lo].keys[level] == rows[r - 1].keys[level];
      if Changes(rows, level + 1, i, r) {
        var j :| level + 1 <= j <= i && rows[r].keys[j] != rows[r - 1].keys[j];
        assert level <= j;
      }
      if Changes(rows, level, i, r) {
        var j :| level <= j <= i && rows[r].keys[j] != rows[r - 1].keys[j];
        assert level + 1 <= j;
      }
    }
    if e == r < hi && level <= i < levels {
      assert rows[r].keys[level] != rows[r - 1].keys[level];
    }
  }

  /** A group's rows agree on all group fields up to its own, its run is as long as
      can be, and its summary is the fold over exactly those rows. */
  ghost predicate Spans(template: seq<Summary>, rows: seq<Row>, levels: nat, level: nat, hi: nat, g: Group)
    requires Keyed(rows, levels) && hi <= |rows|
  {
    && level <= g.idx < levels && 0 < g.cnt && g.startRow + g.cnt <= hi
    && g.value == rows[g.startRow].keys[g.idx]
    && (forall r, j :: g.startRow <= r < g.startRow + g.cnt && level <= j <= g.idx ==>
      rows[r].keys[j] == rows[g.startRow].keys[j])
    && (g.startRow + g.cnt < hi ==> Changes(rows, level, g.idx, g.startRow + g.cnt))
    && g.summary == Folded(template, rows, g.startRow, g.startRow + g.cnt)
  }

  lemma {:induction false} GroupSpans(template: seq<Summary>, rows: seq<Row>, levels: nat, level: nat, lo: nat, hi: nat)
    requires Keyed(rows, levels) && level <= levels && lo <= hi <= |rows|
    ensures forall g :: g in Runs(template, rows, levels, level, lo, hi) ==>
      lo <= g.startRow && Spans(template, rows, levels, level, hi, g)
    decreases hi - lo, levels - level
  {
    if lo < hi && level < levels {
      var e := RunEnd(rows, level, lo, hi);
      GroupSpans(template, rows, levels, level + 1, lo, e);
      GroupSpans(template, rows, levels, level, e, hi);
      var head := RunGroup(template, rows, level, lo, e);
      var sub, rest := Runs(template, rows, levels, level + 1, lo, e), Runs(template, rows, levels, level, e, hi);
      HeadSpans(template, rows, levels, level, lo, hi);
      forall g | g in [head] + sub + rest ensures lo <= g.startRow && Spans(template, rows, levels, level, hi, g) {
        if g in sub {
          SpansFurther(template, rows, levels, level, lo, hi, g);
        }
      }
    }
  }

  lemma HeadSpans(template: seq<Summary>, rows: seq<Row>, levels: nat, level: nat, lo: nat, hi: nat)
    requires Keyed(rows, levels) && level < levels && lo < hi <= |rows|
    ensures Spans(template, rows, levels, level, hi, RunGroup(template, rows, level, lo, RunEnd(rows, level, lo, hi)))
  {
    var e := RunEnd(rows, level, lo, hi);
    if e < hi {
      assert rows[e].keys[level] != rows[e - 1].keys[level];
      assert Changes(rows, level, level, e);
    }
  }

  lemma SpansFurther(template: seq<Summary>, rows: seq<Row>, levels: nat, level: nat, lo: nat, hi: nat, g: Group)
    requires Keyed(rows, levels) && level < levels && lo < hi <= |rows|
    requires Spans(template, rows, levels, level + 1, RunEnd(rows, level, lo, hi), g) && lo <= g.startRow
    ensures Spans(template, rows, levels, level, hi, g)
  {
    var e, end := RunEnd(rows, level, lo, hi), g.startRow + g.cnt;
    if end < hi {
      if end < e {
        var j :| level + 1 <= j <= g.idx && rows[end].keys[j] != rows[end - 1].keys[j];
        assert level <= j;
      } else {
        assert rows[end].keys[level] != rows[end - 1].keys[level];
      }
      assert Changes(rows, level, g.idx, end);
    }
  }

  function Total(gs: seq<Group>, i: nat): nat {
    if gs == [] then 0 else Total(gs[..|gs| - 1], i) + if gs[|gs| - 1].idx == i then gs[|gs| - 1].cnt else 0
  }

  lemma {:induction false} TotalConcat(a: seq<Group>, b: seq<Group>, i: nat)
    ensures Total(a + b, i) == Total(a, i) + Total(b, i)
    decreases |b|
  {
    if b == [] {
      assert a + b == a;
    } else {
      assert (a + b)[..|a + b| - 1] == a + b[..|b| - 1];
      TotalConcat(a, b[..|b| - 1], i);
    }
  }

  lemma TotalJoin(head: Group, sub: seq<Group>, rest: seq<Group>, i: nat)
    ensures Total([head] + sub + rest, i) == (if head.idx == i then head.cnt else 0) + Total(sub, i) + Total(rest, i)
  {
    assert [head][..0] == [];
    assert Total([head], i) == if head.idx == i then head.cnt else 0;
    TotalConcat([head], sub, i);
    TotalConcat([head] + sub, rest, i);
  }

  /** At every level the counts of the groups within lo..hi add up to its number of
      rows: with lo..hi the rows of a group, its children's counts add up to its own. */
  lemma {:induction false} ChildCounts(template: seq<Summary>, rows: seq<Row>, levels: nat, level: nat, lo: nat,
                                       hi: nat, i: nat)
    requires Keyed(rows, levels) && level <= i < levels && lo <= hi <= |rows|
    ensures Total(Runs(template, rows, levels, level, lo, hi), i) == hi - lo
    decreases hi - lo, levels - level
  {
    if lo < hi {
      var e := RunEnd(rows, level, lo, hi);
      var sub := Runs(template, rows, levels, level + 1, lo, e);
      TotalJoin(RunGroup(template, rows, level, lo, e), sub, Runs(template, rows, levels, level, e, hi), i);
      ChildCounts(template, rows, levels, level, e, hi, i);
      if level < i {
        ChildCounts(template, rows, levels, level + 1, lo, e, i);
      } else {
        NoneAbove(template, rows, levels, level + 1, lo, e, i);
      }
    }
  }

  lemma NoneAbove(template: seq<Summary>, rows: seq<Row>, levels: nat, level: nat, lo: nat, hi: nat, i: nat)
    requires Keyed(rows, levels) && i < level <= levels && lo <= hi <= |rows|
    ensures Total(Runs(template, rows, levels, level, lo, hi), i) == 0
  {
    var gs := Runs(template, rows, levels, level, lo, hi);
    GroupSpans(template, rows, levels, level, lo, hi);
    forall k | 0 <= k < |gs| ensures gs[k].idx != i {
      assert gs[k] in gs && Spans(template, rows, levels, level, hi, gs[k]);
    }
    TotalZero(gs, i);
  }

  lemma {:induction false} TotalZero(gs: seq<Group>, i: nat)
    requires forall k :: 0 <= k < |gs| ==> gs[k].idx != i
    ensures Total(gs, i) == 0
  {
    if gs != [] {
      TotalZero(gs[..|gs| - 1], i);
    }
  }

  // ----- What a summary says --------------------------------------------------------

  /** The sum of the cells; a row without the field adds nothing. */
  function CellSum(rows: seq<Row>, field: string, lo: nat, hi: nat): real
    requires lo <= hi <= |rows|
    decreases hi - lo
  {
    if lo == hi then 0.0
    else CellSum(rows, field, lo, hi - 1) + if field in rows[hi - 1].cells then rows[hi - 1].cells[field] else 0.0
  }

  /** The cell of row `r` is `n`, or `n` is zero and there is none. */
  ghost predicate HasCell(rows: seq<Row>, field: string, r: nat, n: real)
    requires r < |rows|
  {
    if field in rows[r].cells then rows[r].cells[field] == n else n == 0.0
  }

  ghost predicate IsLeast(rows: seq<Row>, field: string, lo: nat, hi: nat, n: real)
    requires lo <= hi <= |rows|
  {
    && (exists r :: lo <= r < hi && HasCell(rows, field, r, n))
    && (forall r, x :: lo <= r < hi && HasCell(rows, field, r, x) ==> n <= x)
  }

  ghost predicate IsGreatest(rows: seq<Row>, field: string, lo: nat, hi: nat, n: real)
    requires lo <= hi <= |rows|
  {
    && (exists r :: lo <= r < hi && HasCell(rows, field, r, n))
    && (forall r, x :: lo <= r < hi && HasCell(rows, field, r, x) ==> n >= x)
  }

  /** From row `m` on all rows have the field, and row `m` is the first such. */
  ghost predicate HaveFieldFrom(rows: seq<Row>, field: string, lo: nat, hi: nat, m: nat)
    requires lo <= hi <= |rows|
  {
    && lo <= m <= hi && (forall r :: m <= r < hi ==> field in rows[r].cells)
    && (m > lo ==> field !in rows[m - 1].cells)
  }

  /** `n` is the number of rows since the last one without the field. */
  ghost predicate IsCount(rows: seq<Row>, field: string, lo: nat, hi: nat, n: real)
    requires lo <= hi <= |rows|
  {
    exists m: nat :: HaveFieldFrom(rows, field, lo, hi, m) && n == (hi - m) as real
  }

  lemma CellMeaning(rows: seq<Row>, field: string, r: nat, n: real)
    requires r < |rows|
    ensures HasCell(rows, field, r, n) <==> Cell(rows[r], field) == n
  {
  }

  lemma LeastNext(rows: seq<Row>, field: string, lo: nat, hi: nat, n: real)
    requires lo < hi < |rows|
    ensures var x := Cell(rows[hi], field);
      && (IsLeast(rows, field, lo, hi, n) ==> IsLeast(rows, field, lo, hi + 1, if x < n then x else n))
      && (IsGreatest(rows, field, lo, hi, n) ==> IsGreatest(rows, field, lo, hi + 1, if x > n then x else n))
  {
    var x := Cell(rows[hi], field);
    CellMeaning(rows, field, hi, x);
    if IsLeast(rows, field, lo, hi, n) {
      var r :| lo <= r < hi && HasCell(rows, field, r, n);
    }
    if IsGreatest(rows, field, lo, hi, n) {
      var r :| lo <= r < hi && HasCell(rows, field, r, n);
    }
  }

  lemma LeastOfOne(rows: seq<Row>, field: string, lo: nat)
    requires lo < |rows|
    ensures IsLeast(rows, field, lo, lo + 1, Cell(rows[lo], field))
    ensures IsGreatest(rows, field, lo, lo + 1, Cell(rows[lo], field))
  {
    CellMeaning(rows, field, lo, Cell(rows[lo], field));
  }

  lemma CountNext(rows: seq<Row>, field: string, lo: nat, hi: nat, n: real)
    requires lo <= hi < |rows| && IsCount(rows, field, lo, hi, n)
    ensures IsCount(rows, field, lo, hi + 1, if field in rows[hi].cells then n + 1.0 else 0.0)
  {
    var m: nat :| HaveFieldFrom(rows, field, lo, hi, m) && n == (hi - m) as real;
    assert HaveFieldFrom(rows, field, lo, hi + 1, if field in rows[hi].cells then m else hi + 1);
  }

  /** What entry `k` of a folded summary holds.  A row without the field sets a count back to
      zero: it is the number of rows since the last such, of all rows if there is none. */
  lemma {:induction false} SummaryMeaning(template: seq<Summary>, rows: seq<Row>, lo: nat, hi: nat, k: nat)
    requires lo < hi <= |rows| && k < |template| && template[k].v == Blank && template[k].vd == Blank
    ensures |Folded(template, rows, lo, hi)| == |template|
    ensures var s, t := Folded(template, rows, lo, hi)[k], template[k];
      && s == t.(v := s.v, vd := s.vd) && s.v.Num?
      && (t.st.Sum? || t.st.Avg? ==> s.v.n == CellSum(rows, t.nm, lo, hi))
      && (t.st.Min? ==> IsLeast(rows, t.nm, lo, hi, s.v.n))
      && (t.st.Max? ==> IsGreatest(rows, t.nm, lo, hi, s.v.n))
      && (t.st.Count? ==> IsCount(rows, t.nm, lo, hi, s.v.n))
      && (t.st.Avg? && t.sd.Some? ==> s.vd == Num(CellSum(rows, t.sd.value, lo, hi)))
    decreases hi - lo
  {
    assert Folded(template, rows, lo, hi) == StepAll(Folded(template, rows, lo, hi - 1), rows[hi - 1]);
    var nm := template[k].nm;
    if lo + 1 == hi {
      assert Folded(template, rows, lo, lo) == template;
      assert CellSum(rows, nm, lo, lo) == 0.0;
      assert HaveFieldFrom(rows, nm, lo, lo, lo) && IsCount(rows, nm, lo, lo, 0.0);
      LeastOfOne(rows, nm, lo);
      CountNext(rows, nm, lo, lo, 0.0);
    } else {
      SummaryMeaning(template, rows, lo, hi - 1, k);
      var n := Folded(template, rows, lo, hi - 1)[k].v.n;
      if template[k].st.Count? {
        CountNext(rows, nm, lo, hi - 1, n);
      } else {
        LeastNext(rows, nm, lo, hi - 1, n);
      }
    }
  }

  /** A count is the number of rows exactly if every row has the field. */
  lemma CountIsAll(rows: seq<Row>, field: string, lo: nat, hi: nat, n: real)
    requires lo < hi <= |rows| && IsCount(rows, field, lo, hi, n)
    ensures 0.0 <= n <= (hi - lo) as real
    ensures n == (hi - lo) as real <==> forall r :: lo <= r < hi ==> field in rows[r].cells
  {
    var m: nat :| HaveFieldFrom(rows, field, lo, hi, m) && n == (hi - m) as real;
  }
}
