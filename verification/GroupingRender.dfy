// `groupingRender`: one pass over the flat list of groups that writes headers
// and data rows and closes groups with footers, using a counter and a backward
// search.  The reference recurses over the rows and never looks back.

module GroupingRender {
  import opened Wrappers
  import opened Grouping
  import opened Sequences

  /** One table row.  A header shows the group as it is then; a footer has a cell per column. */
  datatype Item = Header(group: Group) | DataRow(r: nat) | Footer(level: nat, cells: seq<Option<Acc>>)

  datatype Layout = Layout(levels: nat, groupSummary: seq<bool>, columns: seq<string>)

  // ----- Footers --------------------------------------------------------------

  predicate Truthy(v: Acc) {
    v.Num? && v.n != 0.0
  }

  /** An average is divided by its divider's sum if it has one, else by the number of rows. */
  function Finished(s: Summary, cnt: nat): Summary {
    if !s.st.Avg? then s
    else if s.sd.Some? && Truthy(s.vd) then s.(v := Num(Or0(s.v) / s.vd.n))
    else if Truthy(s.v) && cnt > 0 then s.(v := Num(s.v.n / (cnt as real)))
    else s
  }

  function FinishedAll(ss: seq<Summary>, cnt: nat): seq<Summary> {
    seq(|ss|, k requires 0 <= k < |ss| => Finished(ss[k], cnt))
  }

  function FinishedGroup(g: Group): Group {
    g.(summary := FinishedAll(g.summary, g.cnt))
  }

  /** The position of the summary entry for a column, or |ss|. */
  function EntryFor(ss: seq<Summary>, column: string): (k: nat)
    ensures k <= |ss|
    ensures k < |ss| ==> ss[k].nm == column
    ensures forall j :: 0 <= j < k ==> ss[j].nm != column
  {
    if ss == [] || ss[0].nm == column then 0 else 1 + EntryFor(ss[1..], column)
  }

  function CellFor(ss: seq<Summary>, column: string): Option<Acc> {
    if EntryFor(ss, column) < |ss| then Some(ss[EntryFor(ss, column)].v) else None
  }

  function FooterCells(columns: seq<string>, ss: seq<Summary>): seq<Option<Acc>> {
    seq(|columns|, k requires 0 <= k < |columns| => CellFor(ss, columns[k]))
  }

  function FooterFor(lay: Layout, g: Group): seq<Item>
    requires g.idx < |lay.groupSummary|
  {
    if lay.groupSummary[g.idx] then [Footer(g.idx, FooterCells(lay.columns, FinishedAll(g.summary, g.cnt)))] else []
  }

  // ----- The reference ----------------------------------------------------------

  function DataRows(lo: nat, hi: nat): seq<Item>
    decreases hi - lo
  {
    if lo >= hi then [] else DataRows(lo, hi - 1) + [DataRow(hi - 1)]
  }

  /** Each run: its header, what it contains, its footer; then the following runs. */
  function Rendered(lay: Layout, template: seq<Summary>, rows: seq<Row>, level: nat, lo: nat, hi: nat): seq<Item>
    requires Keyed(rows, lay.levels) && |lay.groupSummary| == lay.levels && level <= lay.levels && lo <= hi <= |rows|
    decreases hi - lo, lay.levels - level
  {
    if lo == hi then []
    else if level == lay.levels then DataRows(lo, hi)
    else
      var e := RunEnd(rows, level, lo, hi);
      var g := RunGroup(template, rows, level, lo, e);
      [Header(g)] + Rendered(lay, template, rows, level + 1, lo, e) + FooterFor(lay, g)
        + Rendered(lay, template, rows, level, e, hi)
  }

  // ----- The pass over the list ---------------------------------------------------

  predicate InRange(gs: seq<Group>, levels: nat) {
    forall k :: 0 <= k < |gs| ==> gs[k].idx < levels
  }

  /** The last group at or before `i` of level `l`, or the first group of all. */
  function Back(gs: seq<Group>, i: nat, l: int): (p: nat)
    requires i < |gs|
    ensures p <= i
    decreases i
  {
    if gs[i].idx == l || i == 0 then i else Back(gs, i - 1, l)
  }

  function NextLevel(gs: seq<Group>, i: nat): nat {
    if i + 1 < |gs| then gs[i + 1].idx else 0
  }

  function EndRow(gs: seq<Group>, i: nat, n: nat): nat {
    if i + 1 < |gs| then gs[i + 1].startRow else n
  }

  /** Footers after leaf group `i`, from level `l` out to level `out`. */
  function Closing(lay: Layout, gs: seq<Group>, i: nat, l: int, out: nat): seq<Item>
    requires i < |gs| && InRange(gs, |lay.groupSummary|)
    decreases l - out
  {
    if l < out then [] else FooterFor(lay, gs[Back(gs, i, l)]) + Closing(lay, gs, i, l - 1, out)
  }

  function OutAt(lay: Layout, gs: seq<Group>, i: nat, n: nat): seq<Item>
    requires i < |gs| && InRange(gs, |lay.groupSummary|)
  {
    [Header(gs[i])]
    + if gs[i].idx + 1 == lay.levels
      then DataRows(gs[i].startRow, EndRow(gs, i, n)) + Closing(lay, gs, i, lay.levels - 1, NextLevel(gs, i))
      else []
  }

  function Out(lay: Layout, gs: seq<Group>, a: nat, b: nat, n: nat): seq<Item>
    requires a <= b <= |gs| && InRange(gs, |lay.groupSummary|)
    decreases b - a
  {
    if a == b then [] else Out(lay, gs, a, b - 1, n) + OutAt(lay, gs, b - 1, n)
  }

  lemma {:induction false} OutConcat(lay: Layout, gs: seq<Group>, a: nat, m: nat, b: nat, n: nat)
    requires a <= m <= b <= |gs| && InRange(gs, |lay.groupSummary|)
    ensures Out(lay, gs, a, b, n) == Out(lay, gs, a, m, n) + Out(lay, gs, m, b, n)
    decreases b
  {
    if m < b {
      OutConcat(lay, gs, a, m, b - 1, n);
    }
  }

  lemma {:induction false} BackFinds(gs: seq<Group>, i: nat, l: nat, p: nat)
    requires p <= i < |gs| && gs[p].idx == l && forall k :: p < k <= i ==> gs[k].idx != l
    ensures Back(gs, i, l) == p
    decreases i
  {
    if p < i {
      BackFinds(gs, i - 1, l, p);
    }
  }

  function After(post: seq<Group>): nat {
    if post == [] then 0 else post[0].idx
  }

  /** What may follow the decomposition of the rows up to `hi` at `level`. */
  ghost predicate Follows(post: seq<Group>, level: nat, hi: nat, n: nat) {
    if post == [] then hi == n else post[0].idx <= level && post[0].startRow == hi
  }

  ghost predicate Fits(lay: Layout, rows: seq<Row>, level: nat, lo: nat, hi: nat) {
    Keyed(rows, lay.levels) && level < lay.levels == |lay.groupSummary| && lo < hi <= |rows|
  }

  /** Over the part `seg` of the list the pass writes `items`, and then the footers of
      the groups above `level` that end there. */
  ghost predicate Covers(lay: Layout, n: nat, pre: seq<Group>, seg: seq<Group>, post: seq<Group>, items: seq<Item>,
                         level: nat)
    requires seg != []
  {
    var gs := pre + seg + post;
    InRange(gs, |lay.groupSummary|) ==>
      Out(lay, gs, |pre|, |pre| + |seg|, n) == items + Closing(lay, gs, |pre| + |seg| - 1, level - 1, After(post))
  }

  lemma Shift(pre: seq<Group>, first: seq<Group>, rest: seq<Group>, post: seq<Group>)
    ensures pre + (first + rest) + post == pre + first + (rest + post) == (pre + first) + rest + post
  {
    Associate(pre, first, rest);
    Associate(pre + first, rest, post);
  }

  /** A run and the runs after it at the same level. */
  lemma CoversMore(lay: Layout, n: nat, pre: seq<Group>, first: seq<Group>, rest: seq<Group>, post: seq<Group>,
                   a: seq<Item>, b: seq<Item>, level: nat)
    requires first != [] && rest != [] && rest[0].idx == level
    requires Covers(lay, n, pre, first, rest + post, a, level) && Covers(lay, n, pre + first, rest, post, b, level)
    ensures Covers(lay, n, pre, first + rest, post, a + b, level)
  {
    var gs := pre + (first + rest) + post;
    Shift(pre, first, rest, post);
    if InRange(gs, |lay.groupSummary|) {
      var m, e := |pre| + |first|, |pre| + |first| + |rest|;
      assert Closing(lay, gs, m - 1, level - 1, level) == [];
      Nothing(a);
      OutConcat(lay, gs, |pre|, m, e, n);
      Associate(a, b, Closing(lay, gs, e - 1, level - 1, After(post)));
    }
  }

  /** A group at the innermost level. */
  lemma CoversLeaf(lay: Layout, n: nat, pre: seq<Group>, g: Group, post: seq<Group>, level: nat, e: nat)
    requires g.idx == level && level + 1 == lay.levels == |lay.groupSummary| && Follows(post, level, e, n)
    ensures Covers(lay, n, pre, [g], post, [Header(g)] + DataRows(g.startRow, e) + FooterFor(lay, g), level)
  {
    var gs := pre + [g] + post;
    if InRange(gs, |lay.groupSummary|) {
      OutOne(lay, gs, |pre|, n);
      BackFinds(gs, |pre|, level, |pre|);
      ClosingStep(lay, gs, |pre|, level, After(post));
      var c := Closing(lay, gs, |pre|, level - 1, After(post));
      Associate([Header(g)], DataRows(g.startRow, e), FooterFor(lay, g) + c);
      Associate([Header(g)] + DataRows(g.startRow, e), FooterFor(lay, g), c);
    }
  }

  /** A group and the groups it contains. */
  lemma CoversInner(lay: Layout, n: nat, pre: seq<Group>, g: Group, sub: seq<Group>, post: seq<Group>, r: seq<Item>,
                    level: nat)
    requires g.idx == level && level + 1 < lay.levels && level < |lay.groupSummary| && sub != [] && After(post) <= level
    requires forall k :: 0 <= k < |sub| ==> sub[k].idx != level
    requires Covers(lay, n, pre + [g], sub, post, r, level + 1)
    ensures Covers(lay, n, pre, [g] + sub, post, [Header(g)] + r + FooterFor(lay, g), level)
  {
    var gs, i := pre + ([g] + sub) + post, |pre| + |sub|;
    if InRange(gs, |lay.groupSummary|) {
      InnerFacts(lay, n, pre, g, sub, post, r, level, gs, i);
      InnerOut(lay, gs, |pre|, i, g, r, level, After(post), n);
      OutCovers(lay, n, pre, [g] + sub, post, [Header(g)] + r + FooterFor(lay, g), level, gs, i);
    }
  }

  lemma InnerFacts(lay: Layout, n: nat, pre: seq<Group>, g: Group, sub: seq<Group>, post: seq<Group>, r: seq<Item>,
                   level: nat, gs: seq<Group>, i: nat)
    requires g.idx == level && sub != [] && forall k :: 0 <= k < |sub| ==> sub[k].idx != level
    requires Covers(lay, n, pre + [g], sub, post, r, level + 1)
    requires gs == pre + ([g] + sub) + post && i == |pre| + |sub| && InRange(gs, |lay.groupSummary|)
    ensures i < |gs| && gs[|pre|] == g && Back(gs, i, level) == |pre|
    ensures Out(lay, gs, |pre| + 1, i + 1, n) == r + Closing(lay, gs, i, level, After(post))
  {
    Shift(pre, [g], sub, post);
    BackOver(pre, g, sub, post);
    CoversOut(lay, n, pre + [g], sub, post, r, level + 1, gs, |pre| + 1, i, level);
  }

  lemma CoversOut(lay: Layout, n: nat, pre: seq<Group>, seg: seq<Group>, post: seq<Group>, items: seq<Item>,
                  level: nat, gs: seq<Group>, a: nat, i: nat, l: int)
    requires seg != [] && Covers(lay, n, pre, seg, post, items, level)
    requires gs == pre + seg + post && InRange(gs, |lay.groupSummary|)
    requires a == |pre| && i + 1 == |pre| + |seg| && l == level - 1
    ensures Out(lay, gs, a, i + 1, n) == items + Closing(lay, gs, i, l, After(post))
  {
  }

  lemma OutCovers(lay: Layout, n: nat, pre: seq<Group>, seg: seq<Group>, post: seq<Group>, items: seq<Item>,
                  level: nat, gs: seq<Group>, i: nat)
    requires seg != [] && gs == pre + seg + post && InRange(gs, |lay.groupSummary|) && i + 1 == |pre| + |seg|
    requires Out(lay, gs, |pre|, i + 1, n) == items + Closing(lay, gs, i, level - 1, After(post))
    ensures Covers(lay, n, pre, seg, post, items, level)
  {
  }

  /** Header `a`, then `r` and the footers of the levels from `level` out. */
  lemma InnerOut(lay: Layout, gs: seq<Group>, a: nat, i: nat, g: Group, r: seq<Item>, level: nat, out: nat, n: nat)
    requires a <= i < |gs| && InRange(gs, |lay.groupSummary|) && gs[a] == g && g.idx + 1 != lay.levels && out <= level
    requires Back(gs, i, level) == a && Out(lay, gs, a + 1, i + 1, n) == r + Closing(lay, gs, i, level, out)
    ensures Out(lay, gs, a, i + 1, n) == [Header(g)] + r + FooterFor(lay, g) + Closing(lay, gs, i, level - 1, out)
  {
    InnerHeader(lay, gs, a, n);
    OutConcat(lay, gs, a, a + 1, i + 1, n);
    ClosingStep(lay, gs, i, level, out);
    AroundInner(Header(g), r, FooterFor(lay, g), Closing(lay, gs, i, level - 1, out));
  }

  lemma InnerHeader(lay: Layout, gs: seq<Group>, i: nat, n: nat)
    requires i < |gs| && InRange(gs, |lay.groupSummary|) && gs[i].idx + 1 != lay.levels
    ensures Out(lay, gs, i, i + 1, n) == [Header(gs[i])]
  {
    OutOne(lay, gs, i, n);
    Nothing([Header(gs[i])]);
  }

  lemma AroundInner(h: Item, r: seq<Item>, f: seq<Item>, c: seq<Item>)
    ensures [h] + (r + (f + c)) == [h] + r + f + c
  {
  }

  /** What the reference writes for one run. */
  function RunPart(lay: Layout, template: seq<Summary>, rows: seq<Row>, level: nat, lo: nat, e: nat): seq<Item>
    requires Fits(lay, rows, level, lo, e)
  {
    var g := RunGroup(template, rows, level, lo, e);
    [Header(g)] + Rendered(lay, template, rows, level + 1, lo, e) + FooterFor(lay, g)
  }

  function RunGroups(lay: Layout, template: seq<Summary>, rows: seq<Row>, level: nat, lo: nat, e: nat): (gs: seq<Group>)
    requires Fits(lay, rows, level, lo, e)
    ensures gs != []
  {
    [RunGroup(template, rows, level, lo, e)] + Runs(template, rows, lay.levels, level + 1, lo, e)
  }

  lemma Unfolded(lay: Layout, template: seq<Summary>, rows: seq<Row>, level: nat, lo: nat, hi: nat)
    requires Fits(lay, rows, level, lo, hi)
    ensures var e := RunEnd(rows, level, lo, hi);
      && Runs(template, rows, lay.levels, level, lo, hi)
         == RunGroups(lay, template, rows, level, lo, e) + Runs(template, rows, lay.levels, level, e, hi)
      && Rendered(lay, template, rows, level, lo, hi)
         == RunPart(lay, template, rows, level, lo, e) + Rendered(lay, template, rows, level, e, hi)
  {
  }

  lemma RestStarts(template: seq<Summary>, rows: seq<Row>, levels: nat, level: nat, e: nat, hi: nat)
    requires Keyed(rows, levels) && level < levels && e <= hi <= |rows|
    ensures var rest := Runs(template, rows, levels, level, e, hi);
      && (e < hi ==> rest != [] && rest[0].idx == level && rest[0].startRow == e)
      && (e == hi ==> rest == [])
  {
  }

  /** Wherever the decomposition of the rows lo..hi stands in the list, the pass writes
      over it what the reference writes. */
  lemma {:induction false} PassIsReference(lay: Layout, template: seq<Summary>, rows: seq<Row>, pre: seq<Group>,
                                           post: seq<Group>, level: nat, lo: nat, hi: nat)
    requires Fits(lay, rows, level, lo, hi) && Follows(post, level, hi, |rows|)
    ensures Runs(template, rows, lay.levels, level, lo, hi) != []
    ensures Covers(lay, |rows|, pre, Runs(template, rows, lay.levels, level, lo, hi), post,
                   Rendered(lay, template, rows, level, lo, hi), level)
    decreases hi - lo, lay.levels - level, 1
  {
    var e := RunEnd(rows, level, lo, hi);
    var first, rest := RunGroups(lay, template, rows, level, lo, e), Runs(template, rows, lay.levels, level, e, hi);
    RestStarts(template, rows, lay.levels, level, e, hi);
    FirstRun(lay, template, rows, pre, rest + post, level, lo, e);
    Unfolded(lay, template, rows, level, lo, hi);
    if e < hi {
      PassIsReference(lay, template, rows, pre + first, post, level, e, hi);
      CoversMore(lay, |rows|, pre, first, rest, post, RunPart(lay, template, rows, level, lo, e),
                 Rendered(lay, template, rows, level, e, hi), level);
    } else {
      assert rest + post == post && first + rest == first;
      Nothing(RunPart(lay, template, rows, level, lo, e));
    }
  }

  lemma {:induction false} FirstRun(lay: Layout, template: seq<Summary>, rows: seq<Row>, pre: seq<Group>,
                                    post: seq<Group>, level: nat, lo: nat, e: nat)
    requires Fits(lay, rows, level, lo, e) && Follows(post, level, e, |rows|)
    ensures Covers(lay, |rows|, pre, RunGroups(lay, template, rows, level, lo, e), post,
                   RunPart(lay, template, rows, level, lo, e), level)
    decreases e - lo, lay.levels - level, 0
  {
    var g := RunGroup(template, rows, level, lo, e);
    if level + 1 == lay.levels {
      LeafRun(lay, template, rows, pre, post, level, lo, e);
    } else {
      PassIsReference(lay, template, rows, pre + [g], post, level + 1, lo, e);
      InnerRun(lay, template, rows, pre, post, level, lo, e);
    }
  }

  lemma InnerRun(lay: Layout, template: seq<Summary>, rows: seq<Row>, pre: seq<Group>, post: seq<Group>, level: nat,
                 lo: nat, e: nat)
    requires Fits(lay, rows, level, lo, e) && Follows(post, level, e, |rows|) && level + 1 < lay.levels
    requires Runs(template, rows, lay.levels, level + 1, lo, e) != []
    requires Covers(lay, |rows|, pre + [RunGroup(template, rows, level, lo, e)],
                    Runs(template, rows, lay.levels, level + 1, lo, e), post,
                    Rendered(lay, template, rows, level + 1, lo, e), level + 1)
    ensures Covers(lay, |rows|, pre, RunGroups(lay, template, rows, level, lo, e), post,
                   RunPart(lay, template, rows, level, lo, e), level)
  {
    RunsAbove(template, rows, lay.levels, level + 1, lo, e);
    CoversInner(lay, |rows|, pre, RunGroup(template, rows, level, lo, e),
                Runs(template, rows, lay.levels, level + 1, lo, e), post,
                Rendered(lay, template, rows, level + 1, lo, e), level);
  }

  lemma LeafRun(lay: Layout, template: seq<Summary>, rows: seq<Row>, pre: seq<Group>, post: seq<Group>, level: nat,
                lo: nat, e: nat)
    requires Fits(lay, rows, level, lo, e) && Follows(post, level, e, |rows|) && level + 1 == lay.levels
    ensures Covers(lay, |rows|, pre, RunGroups(lay, template, rows, level, lo, e), post,
                   RunPart(lay, template, rows, level, lo, e), level)
  {
    CoversLeaf(lay, |rows|, pre, RunGroup(template, rows, level, lo, e), post, level, e);
    LeafParts(lay, template, rows, level, lo, e);
  }

  lemma LeafParts(lay: Layout, template: seq<Summary>, rows: seq<Row>, level: nat, lo: nat, e: nat)
    requires Fits(lay, rows, level, lo, e) && level + 1 == lay.levels
    ensures RunGroups(lay, template, rows, level, lo, e) == [RunGroup(template, rows, level, lo, e)]
    ensures Rendered(lay, template, rows, level + 1, lo, e) == DataRows(lo, e)
  {
  }

  /** Looking back over groups of deeper levels. */
  lemma BackOver(pre: seq<Group>, g: Group, sub: seq<Group>, post: seq<Group>)
    requires forall k :: 0 <= k < |sub| ==> sub[k].idx != g.idx
    ensures Back(pre + ([g] + sub) + post, |pre| + |sub|, g.idx) == |pre|
    ensures (pre + ([g] + sub) + post)[|pre|] == g
  {
    BackFinds(pre + ([g] + sub) + post, |pre| + |sub|, g.idx, |pre|);
  }

  lemma ClosingStep(lay: Layout, gs: seq<Group>, i: nat, l: nat, out: nat)
    requires i < |gs| && InRange(gs, |lay.groupSummary|) && out <= l
    ensures Closing(lay, gs, i, l, out) == FooterFor(lay, gs[Back(gs, i, l)]) + Closing(lay, gs, i, l - 1, out)
  {
  }

  lemma OutOne(lay: Layout, gs: seq<Group>, a: nat, n: nat)
    requires a < |gs| && InRange(gs, |lay.groupSummary|)
    ensures Out(lay, gs, a, a + 1, n) == OutAt(lay, gs, a, n)
  {
    assert Out(lay, gs, a, a, n) == [];
  }

  lemma {:induction false} RunsAbove(template: seq<Summary>, rows: seq<Row>, levels: nat, level: nat, lo: nat, hi: nat)
    requires Keyed(rows, levels) && level <= levels && lo <= hi <= |rows|
    ensures forall k :: 0 <= k < |Runs(template, rows, levels, level, lo, hi)| ==>
      level <= Runs(template, rows, levels, level, lo, hi)[k].idx < levels
    decreases hi - lo, levels - level
  {
    if lo < hi && level < levels {
      RunsAbove(template, rows, levels, level + 1, lo, RunEnd(rows, level, lo, hi));
      RunsAbove(template, rows, levels, level, RunEnd(rows, level, lo, hi), hi);
    }
  }

  /** The whole list renders as the reference. */
  lemma WholePass(lay: Layout, template: seq<Summary>, rows: seq<Row>)
    requires Keyed(rows, lay.levels) && 0 < lay.levels == |lay.groupSummary|
    ensures var gs := Runs(template, rows, lay.levels, 0, 0, |rows|);
      && InRange(gs, |lay.groupSummary|)
      && Out(lay, gs, 0, |gs|, |rows|) == Rendered(lay, template, rows, 0, 0, |rows|)
  {
    var gs := Runs(template, rows, lay.levels, 0, 0, |rows|);
    RunsAbove(template, rows, lay.levels, 0, 0, |rows|);
    RestStarts(template, rows, lay.levels, 0, 0, |rows|);
    if rows != [] {
      PassIsReference(lay, template, rows, [], [], 0, 0, |rows|);
      CoversAll(lay, |rows|, gs, Rendered(lay, template, rows, 0, 0, |rows|));
    }
  }

  lemma CoversAll(lay: Layout, n: nat, gs: seq<Group>, items: seq<Item>)
    requires gs != [] && InRange(gs, |lay.groupSummary|) && Covers(lay, n, [], gs, [], items, 0)
    ensures Out(lay, gs, 0, |gs|, n) == items
  {
    assert [] + gs + [] == gs;
    NoClosing(lay, gs, |gs| - 1);
  }

  lemma NoClosing(lay: Layout, gs: seq<Group>, i: nat)
    requires i < |gs| && InRange(gs, |lay.groupSummary|)
    ensures forall s: seq<Item> :: s + Closing(lay, gs, i, -1, 0) == s
  {
    assert Closing(lay, gs, i, -1, 0) == [];
  }

  // ----- Which groups are closed when -----------------------------------------------

  /** An inner group is followed by its first subgroup. */
  predicate StepsDown(gs: seq<Group>, k: nat, levels: nat)
    requires k < |gs|
  {
    gs[k].idx + 1 < levels ==> k + 1 < |gs| && gs[k + 1].idx == gs[k].idx + 1
  }

  /** Levels go down one at a time until a leaf, starting at `level`. */
  ghost predicate DescendsFrom(gs: seq<Group>, level: nat, levels: nat) {
    && InRange(gs, levels)
    && (gs != [] ==> gs[0].idx == level)
    && forall k :: 0 <= k < |gs| ==> StepsDown(gs, k, levels)
  }

  ghost predicate Descends(gs: seq<Group>, levels: nat) {
    DescendsFrom(gs, 0, levels)
  }

  lemma {:induction false} RunsDescend(template: seq<Summary>, rows: seq<Row>, levels: nat, level: nat, lo: nat,
                                       hi: nat)
    requires Keyed(rows, levels) && level <= levels && lo <= hi <= |rows|
    ensures DescendsFrom(Runs(template, rows, levels, level, lo, hi), level, levels)
    decreases hi - lo, levels - level
  {
    if lo < hi && level < levels {
      var e := RunEnd(rows, level, lo, hi);
      var sub, rest := Runs(template, rows, levels, level + 1, lo, e), Runs(template, rows, levels, level, e, hi);
      RunsDescend(template, rows, levels, level + 1, lo, e);
      RunsDescend(template, rows, levels, level, e, hi);
      RestStarts(template, rows, levels, level, e, hi);
      if level + 1 < levels {
        RestStarts(template, rows, levels, level + 1, lo, e);
      }
      DescendConcat(RunGroup(template, rows, level, lo, e), sub, rest, level, levels);
    }
  }

  lemma DescendConcat(g: Group, sub: seq<Group>, rest: seq<Group>, level: nat, levels: nat)
    requires g.idx == level < levels && DescendsFrom(sub, level + 1, levels) && DescendsFrom(rest, level, levels)
    requires level + 1 < levels ==> sub != []
    ensures DescendsFrom([g] + sub + rest, level, levels)
  {
    var gs := [g] + sub + rest;
    forall k | 0 <= k < |gs| ensures StepsDown(gs, k, levels) {
      if 0 < k <= |sub| {
        assert gs[k] == sub[k - 1] && StepsDown(sub, k - 1, levels);
      } else if k > |sub| {
        assert gs[k] == rest[k - 1 - |sub|] && StepsDown(rest, k - 1 - |sub|, levels);
      }
    }
  }

  /** Before group `i` is reached, has a later group come that ends group `j`? */
  ghost predicate Closed(gs: seq<Group>, j: nat, i: nat)
    requires j < |gs|
  {
    i >= |gs| || exists m :: j < m <= i && gs[m].idx <= gs[j].idx
  }

  /** Looking back from a leaf finds, at each level, the group still open. */
  lemma {:induction false} BackIsOpen(gs: seq<Group>, levels: nat, i: nat, l: nat)
    requires Descends(gs, levels) && i < |gs| && l <= gs[i].idx
    ensures var p := Back(gs, i, l); gs[p].idx == l && forall k :: p < k <= i ==> gs[k].idx > l
    decreases i
  {
    if gs[i].idx != l {
      assert i > 0 && StepsDown(gs, i - 1, levels);
      assert l <= gs[i - 1].idx;
      BackIsOpen(gs, levels, i - 1, l);
    }
  }

  /** An inner group closes nothing; a leaf closes the open groups down to the next group's level. */
  lemma ClosedNext(gs: seq<Group>, levels: nat, i: nat, j: nat)
    requires Descends(gs, levels) && i < |gs| && j < |gs|
    ensures Closed(gs, j, i) ==> Closed(gs, j, i + 1)
    ensures gs[i].idx + 1 < levels ==> (Closed(gs, j, i + 1) <==> Closed(gs, j, i))
    ensures gs[i].idx + 1 == levels ==> (Closed(gs, j, i + 1) && !Closed(gs, j, i) <==>
      j <= i && gs[j].idx >= NextLevel(gs, i) && j == Back(gs, i, gs[j].idx))
    ensures !Closed(gs, i, i)
  {
    assert StepsDown(gs, i, levels);
    if gs[i].idx + 1 == levels {
      BackIsOpen(gs, levels, i, gs[j].idx);
      if j <= i && j == Back(gs, i, gs[j].idx) && gs[j].idx >= NextLevel(gs, i) && i + 1 < |gs| {
        assert j < i + 1 <= i + 1 && gs[i + 1].idx <= gs[j].idx;
      }
    }
  }

  function Done(lay: Layout, g: Group): Group
    requires g.idx < |lay.groupSummary|
  {
    if lay.groupSummary[g.idx] then FinishedGroup(g) else g
  }

  /** While group `i` writes its footers from the deepest level out to above `l`. */
  ghost predicate Marked(lay: Layout, gs: seq<Group>, groups: seq<Group>, i: nat, l: int)
    requires InRange(gs, |lay.groupSummary|)
  {
    && |groups| == |gs|
    && forall j {:trigger groups[j]} :: 0 <= j < |gs| ==>
         groups[j] == if Closed(gs, j, i) || (Closed(gs, j, i + 1) && gs[j].idx > l) then Done(lay, gs[j]) else gs[j]
  }

  /** Every summary entry has exactly one column. */
  ghost predicate Columned(ss: seq<Summary>, columns: seq<string>) {
    && (forall j, k :: 0 <= j < k < |ss| ==> ss[j].nm != ss[k].nm)
    && (forall j, k :: 0 <= j < k < |columns| ==> columns[j] != columns[k])
    && (forall j :: 0 <= j < |ss| ==> ss[j].nm in columns)
  }

  ghost predicate AllColumned(gs: seq<Group>, columns: seq<string>) {
    forall j :: 0 <= j < |gs| ==> Columned(gs[j].summary, columns)
  }

  lemma ColumnedAt(gs: seq<Group>, columns: seq<string>, p: nat)
    requires AllColumned(gs, columns) && p < |gs|
    ensures Columned(gs[p].summary, columns)
  {
  }

  function FinishColumn(ss: seq<Summary>, cnt: nat, column: string): seq<Summary> {
    var j := EntryFor(ss, column);
    if j < |ss| then ss[j := Finished(ss[j], cnt)] else ss
  }

  /** The entries of these columns finished, the others not yet. */
  function FinishTo(ss: seq<Summary>, cnt: nat, columns: seq<string>): seq<Summary> {
    seq(|ss|, k requires 0 <= k < |ss| => if ss[k].nm in columns then Finished(ss[k], cnt) else ss[k])
  }

  lemma FinishNext(ss: seq<Summary>, cnt: nat, columns: seq<string>, k: nat)
    requires Columned(ss, columns) && k < |columns|
    ensures FinishColumn(FinishTo(ss, cnt, columns[..k]), cnt, columns[k]) == FinishTo(ss, cnt, columns[..k + 1])
  {
    var before, after := FinishTo(ss, cnt, columns[..k]), FinishTo(ss, cnt, columns[..k + 1]);
    var j := EntryFor(ss, columns[k]);
    SameEntries(ss, before, columns[k]);
    NewColumn(columns, k);
    forall i | 0 <= i < |ss| ensures after[i] == if i == j then Finished(before[i], cnt) else before[i] {
      assert ss[i].nm in columns[..k + 1] <==> ss[i].nm in columns[..k] || ss[i].nm == columns[k];
    }
  }

  lemma NewColumn(columns: seq<string>, k: nat)
    requires k < |columns| && forall i, j :: 0 <= i < j < |columns| ==> columns[i] != columns[j]
    ensures columns[..k + 1] == columns[..k] + [columns[k]] && columns[k] !in columns[..k]
  {
  }

  lemma FinishedCell(ss: seq<Summary>, cnt: nat, columns: seq<string>, column: string)
    requires column in columns
    ensures CellFor(FinishTo(ss, cnt, columns), column) == CellFor(FinishedAll(ss, cnt), column)
  {
    SameEntries(ss, FinishTo(ss, cnt, columns), column);
    SameEntries(ss, FinishedAll(ss, cnt), column);
  }

  /** After the first `k` columns of a summary row. */
  ghost predicate RowPart(columns: seq<string>, was: seq<Group>, p: nat, groups: seq<Group>, cells: seq<Option<Acc>>,
                          k: nat)
    requires p < |was| && k <= |columns|
  {
    var g := was[p];
    && |cells| == k
    && groups == was[p := g.(summary := FinishTo(g.summary, g.cnt, columns[..k]))]
    && forall c :: 0 <= c < k ==> cells[c] == CellFor(FinishedAll(g.summary, g.cnt), columns[c])
  }

  lemma RowStart(columns: seq<string>, was: seq<Group>, p: nat)
    requires p < |was|
    ensures RowPart(columns, was, p, was, [], 0)
  {
    var g := was[p];
    assert FinishTo(g.summary, g.cnt, columns[..0]) == g.summary;
  }

  lemma RowStep(columns: seq<string>, was: seq<Group>, p: nat, groups: seq<Group>, cells: seq<Option<Acc>>, k: nat)
    requires p < |was| && Columned(was[p].summary, columns) && k < |columns|
    requires RowPart(columns, was, p, groups, cells, k)
    ensures var ss := FinishColumn(groups[p].summary, groups[p].cnt, columns[k]);
      RowPart(columns, was, p, groups[p := groups[p].(summary := ss)], cells + [CellFor(ss, columns[k])], k + 1)
  {
    FinishNext(was[p].summary, was[p].cnt, columns, k);
    assert columns[k] == columns[..k + 1][k];
    FinishedCell(was[p].summary, was[p].cnt, columns[..k + 1], columns[k]);
  }

  lemma RowEnd(columns: seq<string>, was: seq<Group>, p: nat, groups: seq<Group>, cells: seq<Option<Acc>>)
    requires p < |was| && Columned(was[p].summary, columns)
    requires RowPart(columns, was, p, groups, cells, |columns|)
    ensures groups == was[p := FinishedGroup(was[p])]
    ensures cells == FooterCells(columns, FinishedAll(was[p].summary, was[p].cnt))
  {
    var g := was[p];
    assert columns[..|columns|] == columns;
    assert FinishTo(g.summary, g.cnt, columns) == FinishedAll(g.summary, g.cnt);
  }

  class Renderer {
    const lay: Layout
    const groupField: seq<string>
    var groups: seq<Group>

    constructor (lay: Layout, groupField: seq<string>, groups: seq<Group>)
      ensures this.lay == lay && this.groupField == groupField && this.groups == groups
    {
      this.lay, this.groupField, this.groups := lay, groupField, groups;
    }

    /** findGroupIdx(ind, offset, groups) */
    method FindGroupIdx(ind: nat, offset: nat) returns (p: nat)
      requires Descends(groups, lay.levels) && ind < |groups| && offset <= groups[ind].idx
      ensures p == Back(groups, ind, groups[ind].idx - offset)
    {
      if offset == 0 || groups[ind].idx == 0 {
        return ind;
      }
      var id := groups[ind].idx;
      BackIsOpen(groups, lay.levels, ind, id - offset);
      p := ind;
      while p > 0
        invariant p <= ind && Back(groups, p, id - offset) == Back(groups, ind, id - offset)
      {
        if groups[p].idx == id - offset {
          return;
        }
        p := p - 1;
      }
    }

    /** One cell of a summary row: the first entry for the column, its average divided in place. */
    method FooterCell(p: nat, column: string) returns (cell: Option<Acc>)
      requires p < |groups|
      modifies this`groups
      ensures var g := old(groups)[p];
        groups == old(groups)[p := g.(summary := FinishColumn(g.summary, g.cnt, column))]
      ensures cell == CellFor(FinishColumn(old(groups)[p].summary, old(groups)[p].cnt, column), column)
    {
      var ss := groups[p].summary;
      var j := 0;
      while j < |ss| && ss[j].nm != column
        invariant 0 <= j <= |ss| && forall q :: 0 <= q < j ==> ss[q].nm != column
      {
        j := j + 1;
      }
      assert j == EntryFor(ss, column);
      if j == |ss| {
        return None;
      }
      var finished := Finished(ss[j], groups[p].cnt);
      groups := groups[p := groups[p].(summary := ss[j := finished])];
      SameEntries(ss, ss[j := finished], column);
      cell := Some(finished.v);
    }

    /** The summary row of one group. */
    method FooterRow(p: nat) returns (cells: seq<Option<Acc>>)
      requires p < |groups| && Columned(groups[p].summary, lay.columns)
      modifies this`groups
      ensures groups == old(groups)[p := FinishedGroup(old(groups)[p])]
      ensures cells == FooterCells(lay.columns, FinishedAll(old(groups)[p].summary, old(groups)[p].cnt))
    {
      ghost var was := groups;
      cells := [];
      RowStart(lay.columns, was, p);
      var k := 0;
      while k < |lay.columns|
        invariant 0 <= k <= |lay.columns|
        invariant RowPart(lay.columns, was, p, groups, cells, k)
      {
        RowStep(lay.columns, was, p, groups, cells, k);
        var cell := FooterCell(p, lay.columns[k]);
        cells := cells + [cell];
        k := k + 1;
      }
      RowEnd(lay.columns, was, p, groups, cells);
    }

    /** `for (jj...) if (gg.dataIndex === grp.groupField[jj]) break` */
    method LevelOf(g: Group) returns (jj: nat)
      requires |groupField| == lay.levels && g.idx < lay.levels
      requires forall i, k :: 0 <= i < k < |groupField| ==> groupField[i] != groupField[k]
      ensures jj == g.idx
    {
      jj := 0;
      while jj < |groupField|
        invariant jj <= g.idx
      {
        if groupField[g.idx] == groupField[jj] {
          break;
        }
        jj := jj + 1;
      }
    }

    ghost predicate Ready(gs: seq<Group>)
      reads this
    {
      && 0 < lay.levels == |lay.groupSummary| == |groupField|
      && (forall i, k :: 0 <= i < k < |groupField| ==> groupField[i] != groupField[k])
      && Descends(gs, lay.levels)
      && AllColumned(gs, lay.columns)
    }

    /** The footer of one level after leaf `i`. */
    method FooterOf(ghost gs: seq<Group>, i: nat, ik: nat) returns (str: seq<Item>)
      requires Ready(gs) && i < |gs| && gs[i].idx + 1 == lay.levels && ik < lay.levels - NextLevel(gs, i)
      requires Marked(lay, gs, groups, i, lay.levels - 1 - ik)
      modifies this`groups
      ensures Marked(lay, gs, groups, i, lay.levels - 2 - ik)
      ensures str == FooterFor(lay, gs[Back(gs, i, lay.levels - 1 - ik)])
    {
      var level := lay.levels - 1 - ik;
      FooterDue(lay, gs, groups, i, level);
      var p := FindGroupIdx(i, ik);
      ColumnedAt(gs, lay.columns, p);
      str := [];
      if lay.groupSummary[level] {
        var cells := FooterRow(p);
        str := [Footer(groups[i].idx - ik, cells)];
      }
    }

    /** The footers after leaf `i`, `toEnd` levels of them. */
    method Footers(ghost gs: seq<Group>, i: nat, toEnd: nat) returns (str: seq<Item>)
      requires Ready(gs) && i < |gs| && gs[i].idx + 1 == lay.levels
      requires toEnd == lay.levels - NextLevel(gs, i)
      requires Marked(lay, gs, groups, i, lay.levels - 1)
      modifies this`groups
      ensures Marked(lay, gs, groups, i, NextLevel(gs, i) - 1)
      ensures str == Closing(lay, gs, i, lay.levels - 1, NextLevel(gs, i))
    {
      str := [];
      var ik := 0;
      ghost var all := Closing(lay, gs, i, lay.levels - 1, NextLevel(gs, i));
      Nothing(all);
      while ik < toEnd
        invariant 0 <= ik <= toEnd
        invariant Closes(gs, i, ik, str, all)
      {
        str := NextFooter(gs, i, ik, str, all);
        ik := ik + 1;
      }
      EndOfClosing(lay, gs, i, NextLevel(gs, i), str);
    }

    /** After `ik` of the footers due: `str` holds them, and with those still due it will be `all`. */
    ghost predicate Closes(gs: seq<Group>, i: nat, ik: nat, str: seq<Item>, all: seq<Item>)
      requires i < |gs| && InRange(gs, |lay.groupSummary|)
      reads this
    {
      && Marked(lay, gs, groups, i, lay.levels - 1 - ik)
      && str + Closing(lay, gs, i, lay.levels - 1 - ik, NextLevel(gs, i)) == all
    }

    method NextFooter(ghost gs: seq<Group>, i: nat, ik: nat, str: seq<Item>, ghost all: seq<Item>)
      returns (more: seq<Item>)
      requires Ready(gs) && i < |gs| && gs[i].idx + 1 == lay.levels && ik < lay.levels - NextLevel(gs, i)
      requires Closes(gs, i, ik, str, all)
      modifies this`groups
      ensures Closes(gs, i, ik + 1, more, all)
    {
      CloseOne(lay, gs, i, lay.levels - 1 - ik, NextLevel(gs, i), str);
      var footer := FooterOf(gs, i, ik);
      more := str + footer;
    }

    /** `for (kk = n.startRow; kk < end; kk++)` */
    method LeafRows(from: nat, end: nat) returns (str: seq<Item>)
      ensures str == DataRows(from, end)
    {
      str := [];
      var kk := from;
      while kk < end
        invariant from <= kk && (kk <= end || kk == from)
        invariant str == DataRows(from, kk)
      {
        str := str + [DataRow(kk)];
        kk := kk + 1;
      }
    }

    /** What follows the header of leaf `i`: its rows, and the footers that end there. */
    method RenderLeaf(ghost gs: seq<Group>, i: nat, counter: nat, grdata: nat)
      returns (rows: seq<Item>, footers: seq<Item>, jj: nat)
      requires Ready(gs) && i < |gs| && gs[i].idx + 1 == lay.levels == counter
      requires Marked(lay, gs, groups, i, lay.levels - 1)
      modifies this`groups
      ensures Marked(lay, gs, groups, i + 1, lay.levels - 1)
      ensures rows == DataRows(gs[i].startRow, EndRow(gs, i, grdata))
      ensures footers == Closing(lay, gs, i, lay.levels - 1, NextLevel(gs, i))
      ensures jj == NextLevel(gs, i)
    {
      MarkedHere(lay, gs, groups, i);
      var toEnd := counter;
      jj := 0;
      if i + 1 < |groups| {
        rows := LeafRows(groups[i].startRow, groups[i + 1].startRow);
        jj := LevelOf(groups[i + 1]);
        toEnd := lay.levels - jj;
      } else {
        rows := LeafRows(groups[i].startRow, grdata);
      }
      footers := Footers(gs, i, toEnd);
      MarkedNext(lay, gs, groups, i);
    }

    /** One group's turn: its header and, if it is a leaf, its rows and the footers that end there. */
    method RenderGroup(ghost gs: seq<Group>, i: nat, counter: nat, grdata: nat) returns (piece: seq<Item>, toEnd: nat)
      requires Ready(gs) && i < |gs| && counter == gs[i].idx
      requires Marked(lay, gs, groups, i, lay.levels - 1)
      modifies this`groups
      ensures Marked(lay, gs, groups, i + 1, lay.levels - 1)
      ensures Out(lay, gs, 0, i + 1, grdata) == Out(lay, gs, 0, i, grdata) + piece
      ensures i + 1 < |gs| ==> toEnd == gs[i + 1].idx
    {
      MarkedHere(lay, gs, groups, i);
      MarkedNext(lay, gs, groups, i);
      assert StepsDown(gs, i, lay.levels);
      var n := groups[i];
      toEnd := counter + 1;
      var rows, footers: seq<Item> := [], [];
      if n.idx + 1 == lay.levels {
        rows, footers, toEnd := RenderLeaf(gs, i, toEnd, grdata);
      }
      OutMore(lay, gs, i, grdata, rows, footers);
      piece := [Header(n)] + rows + footers;
    }

    method Render(grdata: nat, ghost gs: seq<Group>) returns (str: seq<Item>)
      requires groups == gs && Ready(gs)
      modifies this`groups
      ensures str == Out(lay, gs, 0, |gs|, grdata)
      ensures |groups| == |gs| && forall j :: 0 <= j < |gs| ==> groups[j] == Done(lay, gs[j])
    {
      str := [];
      var toEnd := 0;
      var i := 0;
      MarkedStart(lay, gs);
      while i < |groups|
        invariant 0 <= i <= |groups| == |gs|
        invariant Marked(lay, gs, groups, i, lay.levels - 1)
        invariant str == Out(lay, gs, 0, i, grdata)
        invariant i < |gs| ==> toEnd == gs[i].idx
      {
        var piece;
        piece, toEnd := RenderGroup(gs, i, toEnd, grdata);
        str := str + piece;
        i := i + 1;
      }
      AllClosed(lay, gs, groups);
    }
  }

  lemma AllClosed(lay: Layout, gs: seq<Group>, groups: seq<Group>)
    requires InRange(gs, |lay.groupSummary|) && Marked(lay, gs, groups, |gs|, lay.levels - 1)
    ensures forall j :: 0 <= j < |gs| ==> groups[j] == Done(lay, gs[j])
  {
    forall j | 0 <= j < |gs| ensures groups[j] == Done(lay, gs[j]) {
      assert Closed(gs, j, |gs|);
    }
  }

  lemma EndOfClosing(lay: Layout, gs: seq<Group>, i: nat, out: nat, str: seq<Item>)
    requires i < |gs| && InRange(gs, |lay.groupSummary|)
    ensures str + Closing(lay, gs, i, out - 1, out) == str
  {
  }

  /** One more footer of those that are due. */
  lemma CloseOne(lay: Layout, gs: seq<Group>, i: nat, l: nat, out: nat, str: seq<Item>)
    requires i < |gs| && InRange(gs, |lay.groupSummary|) && out <= l
    ensures str + FooterFor(lay, gs[Back(gs, i, l)]) + Closing(lay, gs, i, l - 1, out)
      == str + Closing(lay, gs, i, l, out)
  {
    ClosingStep(lay, gs, i, l, out);
    Associate(str, FooterFor(lay, gs[Back(gs, i, l)]), Closing(lay, gs, i, l - 1, out));
  }

  lemma OutMore(lay: Layout, gs: seq<Group>, i: nat, n: nat, rows: seq<Item>, footers: seq<Item>)
    requires i < |gs| && InRange(gs, |lay.groupSummary|)
    requires gs[i].idx + 1 != lay.levels ==> rows == footers == []
    requires gs[i].idx + 1 == lay.levels ==>
      && rows == DataRows(gs[i].startRow, EndRow(gs, i, n))
      && footers == Closing(lay, gs, i, lay.levels - 1, NextLevel(gs, i))
    ensures Out(lay, gs, 0, i + 1, n) == Out(lay, gs, 0, i, n) + ([Header(gs[i])] + rows + footers)
  {
    Associate([Header(gs[i])], rows, footers);
    if gs[i].idx + 1 != lay.levels {
      assert [Header(gs[i])] + rows + footers == [Header(gs[i])] + [];
    }
  }

  lemma MarkedStart(lay: Layout, gs: seq<Group>)
    requires lay.levels == |lay.groupSummary| && Descends(gs, lay.levels)
    ensures Marked(lay, gs, gs, 0, lay.levels - 1)
  {
    forall j | 0 <= j < |gs| {
      ClosedNext(gs, lay.levels, 0, j);
    }
  }

  /** What marking leaves alone: levels, rows, columns, and the group being rendered. */
  lemma MarkedLevels(lay: Layout, gs: seq<Group>, groups: seq<Group>, i: nat, l: int)
    requires lay.levels == |lay.groupSummary| && Descends(gs, lay.levels)
    requires Marked(lay, gs, groups, i, l)
    ensures Descends(groups, lay.levels)
    ensures forall j :: 0 <= j < |gs| ==> groups[j].idx == gs[j].idx && groups[j].startRow == gs[j].startRow
  {
    forall j | 0 <= j < |gs|
      ensures groups[j].idx == gs[j].idx && groups[j].startRow == gs[j].startRow
    {
      assert groups[j] == gs[j] || groups[j] == Done(lay, gs[j]);
    }
    forall k | 0 <= k < |gs| ensures StepsDown(groups, k, lay.levels) {
      assert StepsDown(gs, k, lay.levels);
    }
  }

  lemma MarkedHere(lay: Layout, gs: seq<Group>, groups: seq<Group>, i: nat)
    requires lay.levels == |lay.groupSummary| && Descends(gs, lay.levels) && i < |gs|
    requires Marked(lay, gs, groups, i, lay.levels - 1)
    ensures |groups| == |gs| && groups[i] == gs[i]
    ensures i + 1 < |gs| ==>
      groups[i + 1].idx == gs[i + 1].idx < lay.levels && groups[i + 1].startRow == gs[i + 1].startRow
  {
    ClosedNext(gs, lay.levels, i, i);
    MarkedLevels(lay, gs, groups, i, lay.levels - 1);
  }

  /** Going on to the next group. */
  lemma MarkedNext(lay: Layout, gs: seq<Group>, groups: seq<Group>, i: nat)
    requires lay.levels == |lay.groupSummary| && Descends(gs, lay.levels) && i < |gs|
    ensures gs[i].idx + 1 < lay.levels && Marked(lay, gs, groups, i, lay.levels - 1) ==>
      Marked(lay, gs, groups, i + 1, lay.levels - 1)
    ensures gs[i].idx + 1 == lay.levels && Marked(lay, gs, groups, i, NextLevel(gs, i) - 1) ==>
      Marked(lay, gs, groups, i + 1, lay.levels - 1)
  {
    forall j | 0 <= j < |gs|
      ensures Closed(gs, j, i) ==> Closed(gs, j, i + 1)
      ensures gs[i].idx + 1 < lay.levels ==> (Closed(gs, j, i + 1) <==> Closed(gs, j, i))
      ensures gs[i].idx + 1 == lay.levels && Closed(gs, j, i + 1) && !Closed(gs, j, i) ==> gs[j].idx >= NextLevel(gs, i)
    {
      ClosedNext(gs, lay.levels, i, j);
    }
  }

  lemma {:induction false} SameBack(gs: seq<Group>, groups: seq<Group>, i: nat, l: nat)
    requires i < |gs| == |groups| && forall j :: 0 <= j < |gs| ==> groups[j].idx == gs[j].idx
    ensures Back(groups, i, l) == Back(gs, i, l)
    decreases i
  {
    if gs[i].idx != l && i > 0 {
      SameBack(gs, groups, i - 1, l);
    }
  }

  /** Finishing the group found at a level is the next step of marking, and finishes it for the first time. */
  lemma MarkOne(lay: Layout, gs: seq<Group>, groups: seq<Group>, i: nat, level: nat)
    requires lay.levels == |lay.groupSummary| && Descends(gs, lay.levels) && i < |gs| && gs[i].idx + 1 == lay.levels
    requires NextLevel(gs, i) <= level < lay.levels
    requires Marked(lay, gs, groups, i, level)
    ensures var p := Back(gs, i, level);
      && gs[p].idx == level && groups[p] == gs[p]
      && Marked(lay, gs, groups[p := Done(lay, gs[p])], i, level - 1)
  {
    var p := Back(gs, i, level);
    BackIsOpen(gs, lay.levels, i, level);
    forall j | 0 <= j < |gs| {
      ClosedNext(gs, lay.levels, i, j);
    }
  }

  /** The group whose footer is due is found, still as it was, and finishing it is the next step of marking. */
  lemma FooterDue(lay: Layout, gs: seq<Group>, groups: seq<Group>, i: nat, level: nat)
    requires lay.levels == |lay.groupSummary| && Descends(gs, lay.levels) && i < |gs| && gs[i].idx + 1 == lay.levels
    requires NextLevel(gs, i) <= level < lay.levels
    requires Marked(lay, gs, groups, i, level)
    ensures var p := Back(gs, i, level);
      && |groups| == |gs| && Descends(groups, lay.levels) && groups[i].idx == gs[i].idx
      && Back(groups, i, level) == p && groups[p] == gs[p] && gs[p].idx == level
      && (lay.groupSummary[level] ==> Marked(lay, gs, groups[p := FinishedGroup(gs[p])], i, level - 1))
      && (!lay.groupSummary[level] ==> Marked(lay, gs, groups, i, level - 1))
  {
    var p := Back(gs, i, level);
    MarkedLevels(lay, gs, groups, i, level);
    MarkOne(lay, gs, groups, i, level);
    SameBack(gs, groups, i, level);
    assert !lay.groupSummary[level] ==> groups[p := Done(lay, gs[p])] == groups;
  }

  lemma SameEntries(ss: seq<Summary>, done: seq<Summary>, column: string)
    requires |ss| == |done| && forall j :: 0 <= j < |ss| ==> ss[j].nm == done[j].nm
    ensures EntryFor(ss, column) == EntryFor(done, column)
  {
  }

  // ----- What a rendered table is ------------------------------------------------------

  datatype Reading = Stuck | At(open: seq<Group>, row: nat)

  /** Reads a table from the top, with the groups that are open and the next data row:
      a header opens a group one level down that starts here, a footer closes the
      innermost open group right after its last row with that group's own finished
      summary, and rows come in order inside a group of every level. */
  function Read(lay: Layout, items: seq<Item>, at: Reading): Reading {
    if items == [] then at else Read(lay, items[1..], ReadOne(lay, items[0], at))
  }

  function ReadOne(lay: Layout, item: Item, at: Reading): Reading {
    if at.Stuck? then Stuck
    else
      match item
      case Header(g) =>
        if g.idx == |at.open| < lay.levels && g.startRow == at.row then At(at.open + [g], at.row) else Stuck
      case DataRow(r) =>
        if r == at.row && |at.open| == lay.levels then At(at.open, r + 1) else Stuck
      case Footer(level, cells) =>
        if |at.open| == level + 1 && Ends(lay, at.open[level], at.row, cells)
        then At(at.open[..level], at.row) else Stuck
  }

  predicate Ends(lay: Layout, g: Group, row: nat, cells: seq<Option<Acc>>) {
    g.startRow + g.cnt == row && cells == FooterCells(lay.columns, FinishedAll(g.summary, g.cnt))
  }

  lemma {:induction false} ReadConcat(lay: Layout, a: seq<Item>, b: seq<Item>, at: Reading)
    ensures Read(lay, a + b, at) == Read(lay, b, Read(lay, a, at))
    decreases |a|
  {
    if a == [] {
      assert a + b == b;
    } else {
      assert (a + b)[1..] == a[1..] + b;
      ReadConcat(lay, a[1..], b, ReadOne(lay, a[0], at));
    }
  }

  lemma {:induction false} ReadRows(lay: Layout, lo: nat, hi: nat, open: seq<Group>)
    requires lo <= hi && |open| == lay.levels
    ensures Read(lay, DataRows(lo, hi), At(open, lo)) == At(open, hi)
    decreases hi - lo
  {
    if lo < hi {
      ReadRows(lay, lo, hi - 1, open);
      ReadConcat(lay, DataRows(lo, hi - 1), [DataRow(hi - 1)], At(open, lo));
      assert [DataRow(hi - 1)][1..] == [];
    }
  }

  /** With a footer at every level the table is well bracketed: it reads through
      without getting stuck and leaves what was open as it was. */
  lemma {:induction false} RenderedReads(lay: Layout, template: seq<Summary>, rows: seq<Row>, level: nat, lo: nat,
                                         hi: nat, open: seq<Group>)
    requires Keyed(rows, lay.levels) && |lay.groupSummary| == lay.levels && level <= lay.levels && lo <= hi <= |rows|
    requires |open| == level && forall l :: 0 <= l < lay.levels ==> lay.groupSummary[l]
    ensures Read(lay, Rendered(lay, template, rows, level, lo, hi), At(open, lo)) == At(open, hi)
    decreases hi - lo, lay.levels - level
  {
    if lo < hi && level == lay.levels {
      ReadRows(lay, lo, hi, open);
    } else if lo < hi {
      var e := RunEnd(rows, level, lo, hi);
      var g := RunGroup(template, rows, level, lo, e);
      var inner, rest := Rendered(lay, template, rows, level + 1, lo, e), Rendered(lay, template, rows, level, e, hi);
      var start, within := At(open, lo), open + [g];
      RenderedReads(lay, template, rows, level + 1, lo, e, within);
      RenderedReads(lay, template, rows, level, e, hi, open);
      ReadConcat(lay, [Header(g)] + inner + FooterFor(lay, g), rest, start);
      ReadConcat(lay, [Header(g)] + inner, FooterFor(lay, g), start);
      ReadConcat(lay, [Header(g)], inner, start);
      ReadHeader(lay, g, open, lo);
      ReadFooter(lay, g, open, e);
    }
  }

  lemma ReadHeader(lay: Layout, g: Group, open: seq<Group>, row: nat)
    requires g.idx == |open| < lay.levels && g.startRow == row
    ensures Read(lay, [Header(g)], At(open, row)) == At(open + [g], row)
  {
    assert [Header(g)][1..] == [];
  }

  lemma ReadFooter(lay: Layout, g: Group, open: seq<Group>, row: nat)
    requires |lay.groupSummary| == lay.levels && g.idx == |open| < lay.levels && lay.groupSummary[g.idx]
    requires g.startRow + g.cnt == row
    ensures Read(lay, FooterFor(lay, g), At(open + [g], row)) == At(open, row)
  {
    assert (open + [g])[..|open|] == open;
    assert FooterFor(lay, g)[1..] == [];
  }

  // ----- Preparing and rendering together ------------------------------------------------

  lemma {:induction false} FoldedColumns(template: seq<Summary>, rows: seq<Row>, lo: nat, hi: nat)
    requires lo <= hi <= |rows|
    ensures |Folded(template, rows, lo, hi)| == |template|
    ensures forall k :: 0 <= k < |template| ==> Folded(template, rows, lo, hi)[k].nm == template[k].nm
    decreases hi - lo
  {
    if lo < hi {
      FoldedColumns(template, rows, lo, hi - 1);
    }
  }

  method PrepareAll(levels: nat, template: seq<Summary>, rows: seq<Row>) returns (groups: seq<Group>)
    requires Keyed(rows, levels)
    ensures groups == Runs(template, rows, levels, 0, 0, |rows|)
  {
    var view := new GroupingView(levels, template);
    for j := 0 to |rows|
      invariant fresh(view) && view.levels == levels && view.summary == template
      invariant view.Valid() && view.rows == rows[..j]
    {
      assert rows[..j + 1] == rows[..j] + [rows[j]];
      view.Prepare(rows[j], j);
    }
    assert rows[..|rows|] == rows;
    groups := view.groups;
  }

  lemma FoldColumned(template: seq<Summary>, rows: seq<Row>, lo: nat, hi: nat, columns: seq<string>)
    requires lo <= hi <= |rows| && Columned(template, columns)
    ensures Columned(Folded(template, rows, lo, hi), columns)
  {
    FoldedColumns(template, rows, lo, hi);
    var ss := Folded(template, rows, lo, hi);
    forall j | 0 <= j < |ss| ensures ss[j].nm in columns {
      assert template[j].nm in columns;
    }
  }

  lemma {:induction false} RunsColumned(lay: Layout, template: seq<Summary>, rows: seq<Row>)
    requires Keyed(rows, lay.levels) && Columned(template, lay.columns)
    ensures AllColumned(Runs(template, rows, lay.levels, 0, 0, |rows|), lay.columns)
  {
    var gs := Runs(template, rows, lay.levels, 0, 0, |rows|);
    GroupSpans(template, rows, lay.levels, 0, 0, |rows|);
    forall j | 0 <= j < |gs| ensures Columned(gs[j].summary, lay.columns) {
      var g := gs[j];
      assert Spans(template, rows, lay.levels, 0, |rows|, g);
      FoldColumned(template, rows, g.startRow, g.startRow + g.cnt, lay.columns);
    }
  }

  /** What an average shows: the sum of its field over the sum of its divider, or, without a
      divider and wherever the divider's sum is zero, over the number of rows. */
  function Average(t: Summary, rows: seq<Row>, lo: nat, hi: nat): real
    requires lo < hi <= |rows|
  {
    if t.sd.Some? && CellSum(rows, t.sd.value, lo, hi) != 0.0
    then CellSum(rows, t.nm, lo, hi) / CellSum(rows, t.sd.value, lo, hi)
    else CellSum(rows, t.nm, lo, hi) / ((hi - lo) as real)
  }

  /** What a summary entry shows for the rows lo..hi. */
  ghost predicate Shows(t: Summary, rows: seq<Row>, lo: nat, hi: nat, n: real)
    requires lo < hi <= |rows|
  {
    match t.st
    case Sum => n == CellSum(rows, t.nm, lo, hi)
    case Min => IsLeast(rows, t.nm, lo, hi, n)
    case Max => IsGreatest(rows, t.nm, lo, hi, n)
    case Count => IsCount(rows, t.nm, lo, hi, n)
    case Avg => n == Average(t, rows, lo, hi)
  }

  ghost predicate ShowsIn(cell: Option<Acc>, t: Summary, rows: seq<Row>, lo: nat, hi: nat)
    requires lo < hi <= |rows|
  {
    cell.Some? && cell.value.Num? && Shows(t, rows, lo, hi, cell.value.n)
  }

  /** Entry `k` is the first for this column. */
  ghost predicate IsEntry(template: seq<Summary>, column: string, k: nat) {
    k < |template| && template[k].nm == column && forall j :: 0 <= j < k ==> template[j].nm != column
  }

  ghost predicate HasNoEntry(template: seq<Summary>, column: string) {
    forall k :: 0 <= k < |template| ==> template[k].nm != column
  }

  /** The footer of a group shows in the column of a summary entry what the entry comes to over
      the group's rows. */
  lemma FooterShown(columns: seq<string>, template: seq<Summary>, rows: seq<Row>, levels: nat, g: Group, m: nat, k: nat)
    requires Keyed(rows, levels) && g in Runs(template, rows, levels, 0, 0, |rows|)
    requires m < |columns| && IsEntry(template, columns[m], k) && template[k].v == template[k].vd == Blank
    ensures g.startRow < g.startRow + g.cnt <= |rows|
    ensures var cells := FooterCells(columns, FinishedAll(g.summary, g.cnt));
      ShowsIn(cells[m], template[k], rows, g.startRow, g.startRow + g.cnt)
  {
    GroupRows(template, rows, levels, g);
    CellOfColumn(columns, FinishedAll(g.summary, g.cnt), m);
    EntryCell(template, rows, g.startRow, g.startRow + g.cnt, columns[m], k);
  }

  /** And nothing in a column without an entry. */
  lemma FooterBlank(columns: seq<string>, template: seq<Summary>, rows: seq<Row>, levels: nat, g: Group, m: nat)
    requires Keyed(rows, levels) && g in Runs(template, rows, levels, 0, 0, |rows|)
    requires m < |columns| && HasNoEntry(template, columns[m])
    ensures |FooterCells(columns, FinishedAll(g.summary, g.cnt))| == |columns|
    ensures FooterCells(columns, FinishedAll(g.summary, g.cnt))[m] == None
  {
    GroupRows(template, rows, levels, g);
    CellOfColumn(columns, FinishedAll(g.summary, g.cnt), m);
    NoEntryCell(template, rows, g.startRow, g.startRow + g.cnt, columns[m], g.summary, g.cnt);
  }

  lemma CellOfColumn(columns: seq<string>, ss: seq<Summary>, m: nat)
    requires m < |columns|
    ensures |FooterCells(columns, ss)| == |columns| && FooterCells(columns, ss)[m] == CellFor(ss, columns[m])
  {
  }

  lemma GroupRows(template: seq<Summary>, rows: seq<Row>, levels: nat, g: Group)
    requires Keyed(rows, levels) && g in Runs(template, rows, levels, 0, 0, |rows|)
    ensures g.startRow < g.startRow + g.cnt <= |rows|
    ensures g.summary == Folded(template, rows, g.startRow, g.startRow + g.cnt)
  {
    GroupSpans(template, rows, levels, 0, 0, |rows|);
    assert Spans(template, rows, levels, 0, |rows|, g);
  }

  lemma NoEntryCell(template: seq<Summary>, rows: seq<Row>, lo: nat, hi: nat, column: string, ss: seq<Summary>,
                    cnt: nat)
    requires lo <= hi <= |rows| && ss == Folded(template, rows, lo, hi)
    requires HasNoEntry(template, column)
    ensures CellFor(FinishedAll(ss, cnt), column) == None
  {
    FoldedColumns(template, rows, lo, hi);
    FinishedEntry(template, ss, cnt, column);
    NoEntry(template, column);
  }

  lemma EntryCell(template: seq<Summary>, rows: seq<Row>, lo: nat, hi: nat, column: string, k: nat)
    requires lo < hi <= |rows| && IsEntry(template, column, k) && template[k].v == template[k].vd == Blank
    ensures ShowsIn(CellFor(FinishedAll(Folded(template, rows, lo, hi), hi - lo), column), template[k], rows, lo, hi)
  {
    OnlyEntry(template, column, k);
    FoldedColumns(template, rows, lo, hi);
    FinishedEntry(template, Folded(template, rows, lo, hi), hi - lo, column);
    EntryFinished(template, rows, lo, hi, k);
  }

  lemma OnlyEntry(template: seq<Summary>, column: string, j: nat)
    requires IsEntry(template, column, j)
    ensures EntryFor(template, column) == j
  {
  }

  lemma NoEntry(template: seq<Summary>, column: string)
    requires forall j :: 0 <= j < |template| ==> template[j].nm != column
    ensures EntryFor(template, column) == |template|
  {
  }

  lemma FinishedEntry(template: seq<Summary>, ss: seq<Summary>, cnt: nat, column: string)
    requires |ss| == |template| && forall j :: 0 <= j < |ss| ==> ss[j].nm == template[j].nm
    ensures var k := EntryFor(template, column);
      CellFor(FinishedAll(ss, cnt), column) == if k < |ss| then Some(Finished(ss[k], cnt).v) else None
  {
    SameEntries(template, FinishedAll(ss, cnt), column);
  }

  lemma EntryFinished(template: seq<Summary>, rows: seq<Row>, lo: nat, hi: nat, k: nat)
    requires lo < hi <= |rows| && k < |template| && template[k].v == template[k].vd == Blank
    ensures |Folded(template, rows, lo, hi)| == |template|
    ensures var v := Finished(Folded(template, rows, lo, hi)[k], hi - lo).v;
      v.Num? && Shows(template[k], rows, lo, hi, v.n)
  {
    SummaryMeaning(template, rows, lo, hi, k);
  }

  // ----- The table, read in other ways -----------------------------------------------------

  /** The groups whose headers the table shows, from the top. */
  function Headers(items: seq<Item>): seq<Group> {
    if items == [] then [] else HeaderOf(items[0]) + Headers(items[1..])
  }

  function HeaderOf(item: Item): seq<Group> {
    if item.Header? then [item.group] else []
  }

  lemma {:induction false} HeadersConcat(a: seq<Item>, b: seq<Item>)
    ensures Headers(a + b) == Headers(a) + Headers(b)
    decreases |a|
  {
    if a == [] {
      Nothing(b);
    } else {
      TakeDrop(a, b, 1);
      HeadersConcat(a[1..], b);
      HeadersFirst(a);
      HeadersFirst(a + b);
      Associate(HeaderOf(a[0]), Headers(a[1..]), Headers(b));
    }
  }

  lemma HeadersFirst(items: seq<Item>)
    requires items != []
    ensures Headers(items) == HeaderOf(items[0]) + Headers(items[1..])
  {
  }

  lemma {:induction false} NoHeaders(items: seq<Item>)
    requires forall k :: 0 <= k < |items| ==> !items[k].Header?
    ensures Headers(items) == []
  {
    if items != [] {
      NoHeaders(items[1..]);
    }
  }

  /** The headers are those of all groups, in the order of the list. */
  lemma {:induction false} HeadersAreGroups(lay: Layout, template: seq<Summary>, rows: seq<Row>, level: nat, lo: nat,
                                            hi: nat)
    requires Keyed(rows, lay.levels) && |lay.groupSummary| == lay.levels && level <= lay.levels && lo <= hi <= |rows|
    ensures Headers(Rendered(lay, template, rows, level, lo, hi)) == Runs(template, rows, lay.levels, level, lo, hi)
    decreases hi - lo, lay.levels - level
  {
    if lo < hi && level == lay.levels {
      DataRowsOnly(lo, hi);
      NoHeaders(DataRows(lo, hi));
    } else if lo < hi {
      var e := RunEnd(rows, level, lo, hi);
      HeadersAreGroups(lay, template, rows, level + 1, lo, e);
      HeadersAreGroups(lay, template, rows, level, e, hi);
      HeadersNext(lay, template, rows, level, lo, e, hi);
    }
  }

  lemma HeadersNext(lay: Layout, template: seq<Summary>, rows: seq<Row>, level: nat, lo: nat, e: nat, hi: nat)
    requires Keyed(rows, lay.levels) && |lay.groupSummary| == lay.levels && level < lay.levels && lo < hi <= |rows|
    requires e == RunEnd(rows, level, lo, hi)
    ensures var g := RunGroup(template, rows, level, lo, e);
      Headers(Rendered(lay, template, rows, level, lo, hi))
      == [g] + Headers(Rendered(lay, template, rows, level + 1, lo, e))
        + Headers(Rendered(lay, template, rows, level, e, hi))
  {
    var g := RunGroup(template, rows, level, lo, e);
    RenderedRun(lay, template, rows, level, lo, hi);
    HeadersOfRun(g, Rendered(lay, template, rows, level + 1, lo, e), FooterFor(lay, g),
                 Rendered(lay, template, rows, level, e, hi));
  }

  lemma HeadersOfRun(g: Group, inner: seq<Item>, footer: seq<Item>, rest: seq<Item>)
    requires forall k :: 0 <= k < |footer| ==> !footer[k].Header?
    ensures Headers([Header(g)] + inner + footer + rest) == [g] + Headers(inner) + Headers(rest)
  {
    HeadersConcat([Header(g)] + inner + footer, rest);
    HeadersConcat([Header(g)] + inner, footer);
    HeadersConcat([Header(g)], inner);
    NoHeaders(footer);
    HeadersFirst([Header(g)]);
    assert [Header(g)][1..] == [] && [g] + [] == [g];
    Nothing([g] + Headers(inner));
  }

  lemma {:induction false} DataRowsOnly(lo: nat, hi: nat)
    ensures forall k :: 0 <= k < |DataRows(lo, hi)| ==> DataRows(lo, hi)[k].DataRow?
    decreases hi - lo
  {
    if lo < hi {
      DataRowsOnly(lo, hi - 1);
    }
  }

  /** Anything but the footers of levels without `groupSummary`. */
  predicate IsShown(lay: Layout, item: Item) {
    item.Footer? ==> item.level < |lay.groupSummary| && lay.groupSummary[item.level]
  }

  function ShownIn(lay: Layout): Item -> bool {
    item => IsShown(lay, item)
  }

  /** `all` is the layout with a footer at every level. */
  predicate AddsFooters(lay: Layout, all: Layout) {
    && all.levels == lay.levels == |lay.groupSummary| == |all.groupSummary| && all.columns == lay.columns
    && forall l :: 0 <= l < lay.levels ==> all.groupSummary[l]
  }

  lemma {:induction false} FilterConcat(a: seq<Item>, b: seq<Item>, keep: Item -> bool)
    ensures Filter(a + b, keep) == Filter(a, keep) + Filter(b, keep)
    decreases |b|
  {
    if b == [] {
      Nothing(a);
    } else {
      assert (a + b)[..|a + b| - 1] == a + b[..|b| - 1];
      FilterConcat(a, b[..|b| - 1], keep);
    }
  }

  lemma {:induction false} FilterAll(a: seq<Item>, keep: Item -> bool)
    requires forall k :: 0 <= k < |a| ==> keep(a[k])
    ensures Filter(a, keep) == a
  {
    if a != [] {
      FilterAll(a[..|a| - 1], keep);
    }
  }

  /** The table `lay` asks for is the table with all footers without those of the levels that have none. */
  ghost predicate AsAsked(lay: Layout, all: Layout, template: seq<Summary>, rows: seq<Row>, level: nat, lo: nat,
                          hi: nat)
    requires AddsFooters(lay, all) && Keyed(rows, lay.levels) && level <= lay.levels && lo <= hi <= |rows|
  {
    Rendered(lay, template, rows, level, lo, hi) == Filter(Rendered(all, template, rows, level, lo, hi), ShownIn(lay))
  }

  lemma {:induction false} FootersAsAsked(lay: Layout, all: Layout, template: seq<Summary>, rows: seq<Row>, level: nat,
                                          lo: nat, hi: nat)
    requires AddsFooters(lay, all) && Keyed(rows, lay.levels) && level <= lay.levels && lo <= hi <= |rows|
    ensures AsAsked(lay, all, template, rows, level, lo, hi)
    decreases hi - lo, lay.levels - level
  {
    if lo == hi || level == lay.levels {
      LeafAsAsked(lay, all, template, rows, level, lo, hi);
    } else {
      var e := RunEnd(rows, level, lo, hi);
      FootersAsAsked(lay, all, template, rows, level + 1, lo, e);
      FootersAsAsked(lay, all, template, rows, level, e, hi);
      RunAsAsked(lay, all, template, rows, level, lo, e, hi);
    }
  }

  lemma LeafAsAsked(lay: Layout, all: Layout, template: seq<Summary>, rows: seq<Row>, level: nat, lo: nat, hi: nat)
    requires AddsFooters(lay, all) && Keyed(rows, lay.levels) && level <= lay.levels && lo <= hi <= |rows|
    requires lo == hi || level == lay.levels
    ensures AsAsked(lay, all, template, rows, level, lo, hi)
  {
    var items := if lo == hi then [] else DataRows(lo, hi);
    assert Rendered(all, template, rows, level, lo, hi) == items;
    DataRowsOnly(lo, hi);
    FilterAll(items, ShownIn(lay));
  }

  lemma RunAsAsked(lay: Layout, all: Layout, template: seq<Summary>, rows: seq<Row>, level: nat, lo: nat, e: nat,
                   hi: nat)
    requires AddsFooters(lay, all) && Keyed(rows, lay.levels) && level < lay.levels && lo < hi <= |rows|
    requires e == RunEnd(rows, level, lo, hi)
    requires AsAsked(lay, all, template, rows, level + 1, lo, e) && AsAsked(lay, all, template, rows, level, e, hi)
    ensures AsAsked(lay, all, template, rows, level, lo, hi)
  {
    var g := RunGroup(template, rows, level, lo, e);
    RenderedRun(lay, template, rows, level, lo, hi);
    RenderedRun(all, template, rows, level, lo, hi);
    FilterOfRun(Header(g), Rendered(all, template, rows, level + 1, lo, e), FooterFor(all, g),
                Rendered(all, template, rows, level, e, hi), ShownIn(lay));
    FooterAsAsked(lay, all, g);
  }

  lemma RenderedRun(lay: Layout, template: seq<Summary>, rows: seq<Row>, level: nat, lo: nat, hi: nat)
    requires Keyed(rows, lay.levels) && |lay.groupSummary| == lay.levels && level < lay.levels && lo < hi <= |rows|
    ensures var e := RunEnd(rows, level, lo, hi);
      var g := RunGroup(template, rows, level, lo, e);
      Rendered(lay, template, rows, level, lo, hi)
      == [Header(g)] + Rendered(lay, template, rows, level + 1, lo, e) + FooterFor(lay, g)
        + Rendered(lay, template, rows, level, e, hi)
  {
  }

  lemma FilterOfRun(head: Item, inner: seq<Item>, footer: seq<Item>, rest: seq<Item>, keep: Item -> bool)
    requires keep(head)
    ensures Filter([head] + inner + footer + rest, keep)
      == [head] + Filter(inner, keep) + Filter(footer, keep) + Filter(rest, keep)
  {
    FilterConcat([head] + inner + footer, rest, keep);
    FilterConcat([head] + inner, footer, keep);
    FilterConcat([head], inner, keep);
    FilterAll([head], keep);
  }

  lemma FooterAsAsked(lay: Layout, all: Layout, g: Group)
    requires AddsFooters(lay, all) && g.idx < lay.levels
    ensures Filter(FooterFor(all, g), ShownIn(lay)) == FooterFor(lay, g)
  {
    var footer := FooterFor(all, g);
    assert footer[..0] == [] && Filter<Item>([], ShownIn(lay)) == [];
  }

  /** Feeding all rows to groupingPrepare and rendering the result gives the table of
      the reference, and divides the averages of every group with a footer once. */
  method GroupAndRender(lay: Layout, groupField: seq<string>, template: seq<Summary>, rows: seq<Row>)
    returns (str: seq<Item>, groups: seq<Group>)
    requires Keyed(rows, lay.levels) && 0 < lay.levels == |lay.groupSummary| == |groupField|
    requires forall i, k :: 0 <= i < k < |groupField| ==> groupField[i] != groupField[k]
    requires Columned(template, lay.columns)
    ensures str == Rendered(lay, template, rows, 0, 0, |rows|)
    ensures var gs := Runs(template, rows, lay.levels, 0, 0, |rows|);
      InRange(gs, lay.levels) && |groups| == |gs| && forall j :: 0 <= j < |gs| ==> groups[j] == Done(lay, gs[j])
  {
    var gs := PrepareAll(lay.levels, template, rows);
    WholePass(lay, template, rows);
    RunsDescend(template, rows, lay.levels, 0, 0, |rows|);
    RunsColumned(lay, template, rows);
    var renderer := new Renderer(lay, groupField, gs);
    str := renderer.Render(|rows|, gs);
    groups := renderer.groups;
  }
}
