// Local data is sorted by the group fields before anything else, and the sorted rows are
// then grouped: when every combination of group values gets one group.

module SortedGroups {
  import opened Wrappers
  import opened MultiSort
  import opened SortOutcomes
  import opened Sequences
  import opened Grouping
  import GroupingRender
  import Sorting
  import opened Strings

  // ----- Sorting by the group fields ------------------------------------------

  function CellAt(a: Row, k: nat): string {
    if k < |a.keys| then a.keys[k] else ""
  }

  /** The `orderBy` of group field `k`; `key` is findSortKey for its sort type. */
  function GroupColumn(key: string -> real, k: nat, ascending: bool): Column<Row> {
    Column((a: Row) => key(CellAt(a, k)), (a: Row, b: Row) => CellAt(a, k) == CellAt(b, k), ascending)
  }

  function GroupColumns(keys: seq<string -> real>, ascending: seq<bool>): (cols: seq<Column<Row>>)
    requires |keys| == |ascending|
    ensures |cols| == |keys| && forall k :: 0 <= k < |cols| ==> cols[k] == GroupColumn(keys[k], k, ascending[k])
  {
    seq(|keys|, k requires 0 <= k < |keys| => GroupColumn(keys[k], k, ascending[k]))
  }

  /** The first columns sort by the group fields. */
  ghost predicate SortsByGroups(cols: seq<Column<Row>>, keys: seq<string -> real>, ascending: seq<bool>)
    requires |keys| == |ascending|
  {
    |keys| <= |cols| && forall k :: 0 <= k < |keys| ==> cols[k] == GroupColumn(keys[k], k, ascending[k])
  }

  lemma GroupsCellwise(cols: seq<Column<Row>>, keys: seq<string -> real>, ascending: seq<bool>)
    requires |keys| == |ascending| && SortsByGroups(cols, keys, ascending)
    ensures CellwiseTo(cols, |keys|)
  {
    forall k | 0 <= k < |keys| ensures Cellwise(cols[k]) {
      assert cols[k] == GroupColumn(keys[k], k, ascending[k]);
    }
  }

  // ----- One group for each combination of values --------------------------------

  predicate SameTo(a: Row, b: Row, i: nat) {
    i < |a.keys| && i < |b.keys| && forall j :: 0 <= j <= i ==> a.keys[j] == b.keys[j]
  }

  /** No two groups of a level stand for the same values of the fields up to that level. */
  ghost predicate NoneTwice(gs: seq<Group>, rows: seq<Row>) {
    forall k, l :: 0 <= k < l < |gs| && gs[k].idx == gs[l].idx && gs[k].startRow < |rows| && gs[l].startRow < |rows| ==>
      !SameTo(rows[gs[k].startRow], rows[gs[l].startRow], gs[k].idx)
  }

  /** The values of row `r` up to level `i` have a group. */
  ghost predicate HasGroup(gs: seq<Group>, rows: seq<Row>, r: nat, i: nat)
    requires r < |rows|
  {
    exists s :: 0 <= s <= r && Starts(gs, i, s) && SameTo(rows[s], rows[r], i)
  }

  /** One group at every level for each combination of values that occurs. */
  ghost predicate OneEach(gs: seq<Group>, rows: seq<Row>, levels: nat) {
    NoneTwice(gs, rows) && forall r, i :: 0 <= r < |rows| && 0 <= i < levels ==> HasGroup(gs, rows, r, i)
  }

  /** Groups of the same level cover rows one after another. */
  ghost predicate Apart(gs: seq<Group>) {
    forall k, l :: 0 <= k < l < |gs| && gs[k].idx == gs[l].idx ==> gs[k].startRow + gs[k].cnt <= gs[l].startRow
  }

  /** Groups of levels level..levels over the rows lo..hi. */
  ghost predicate Within(gs: seq<Group>, levels: nat, level: nat, lo: nat, hi: nat) {
    forall k :: 0 <= k < |gs| ==>
      level <= gs[k].idx < levels && lo <= gs[k].startRow < gs[k].startRow + gs[k].cnt <= hi
  }

  lemma RunsWithin(template: seq<Summary>, rows: seq<Row>, levels: nat, level: nat, lo: nat, hi: nat)
    requires Keyed(rows, levels) && level <= levels && lo <= hi <= |rows|
    ensures Within(Runs(template, rows, levels, level, lo, hi), levels, level, lo, hi)
  {
    var gs := Runs(template, rows, levels, level, lo, hi);
    GroupSpans(template, rows, levels, level, lo, hi);
    forall k | 0 <= k < |gs|
      ensures level <= gs[k].idx < levels && lo <= gs[k].startRow < gs[k].startRow + gs[k].cnt <= hi
    {
      assert gs[k] in gs && Spans(template, rows, levels, level, hi, gs[k]);
    }
  }

  lemma ApartJoined(a: seq<Group>, b: seq<Group>, levels: nat, level: nat, lo: nat, e: nat, hi: nat)
    requires Apart(a) && Apart(b) && Within(a, levels, level, lo, e) && Within(b, levels, level, e, hi)
    ensures Apart(a + b)
  {
  }

  lemma ApartBelow(head: Group, sub: seq<Group>, levels: nat, lo: nat, e: nat)
    requires Apart(sub) && Within(sub, levels, head.idx + 1, lo, e)
    ensures Apart([head] + sub)
  {
  }

  lemma {:induction false} SameLevelApart(template: seq<Summary>, rows: seq<Row>, levels: nat, level: nat, lo: nat,
                                          hi: nat)
    requires Keyed(rows, levels) && level <= levels && lo <= hi <= |rows|
    ensures Apart(Runs(template, rows, levels, level, lo, hi))
    decreases hi - lo, levels - level
  {
    if lo < hi && level < levels {
      var e := RunEnd(rows, level, lo, hi);
      var head := RunGroup(template, rows, level, lo, e);
      var sub := Runs(template, rows, levels, level + 1, lo, e);
      SameLevelApart(template, rows, levels, level + 1, lo, e);
      SameLevelApart(template, rows, levels, level, e, hi);
      RunsWithin(template, rows, levels, level + 1, lo, e);
      RunsWithin(template, rows, levels, level, e, hi);
      ApartBelow(head, sub, levels, lo, e);
      ApartJoined([head] + sub, Runs(template, rows, levels, level, e, hi), levels, level, lo, e, hi);
    }
  }

  // ----- Equal values side by side -------------------------------------------------

  lemma SameAgree(cols: seq<Column<Row>>, keys: seq<string -> real>, ascending: seq<bool>, a: Row, b: Row, i: nat)
    requires |keys| == |ascending| && SortsByGroups(cols, keys, ascending)
    requires i < |keys| == |a.keys| == |b.keys|
    ensures SameTo(a, b, i) <==> AgreeTo(cols, i + 1, a, b)
  {
    forall j | 0 <= j <= i ensures cols[j].same(a, b) <==> a.keys[j] == b.keys[j] {
      assert cols[j] == GroupColumn(keys[j], j, ascending[j]);
      assert CellAt(a, j) == a.keys[j] && CellAt(b, j) == b.keys[j];
    }
  }

  /** The row at which the group of row `r` starts; up to `r` the values stay the same. */
  lemma {:induction false} RunStart(template: seq<Summary>, rows: seq<Row>, levels: nat, r: nat, i: nat)
    returns (s: nat)
    requires Keyed(rows, levels) && r < |rows| && i < levels
    ensures s <= r && Starts(Runs(template, rows, levels, 0, 0, |rows|), i, s)
    ensures forall m :: s <= m <= r ==> SameTo(rows[m], rows[r], i)
    decreases r
  {
    GroupStarts(template, rows, levels, 0, 0, |rows|, i, r);
    s := r;
    if !Starts(Runs(template, rows, levels, 0, 0, |rows|), i, r) {
      assert !Changes(rows, 0, i, r);
      assert SameTo(rows[r - 1], rows[r], i);
      s := RunStart(template, rows, levels, r - 1, i);
    }
  }

  /** A group that starts at row `s` does not repeat the values of an earlier row. */
  lemma StartsAfresh(cols: seq<Column<Row>>, keys: seq<string -> real>, ascending: seq<bool>, rows: seq<Row>,
                     i: nat, r: nat, s: nat)
    requires |keys| == |ascending| && SortsByGroups(cols, keys, ascending)
    requires Keyed(rows, |keys|) && Together(cols, |keys|, rows)
    requires i < |keys| && r < s < |rows| && !SameTo(rows[s - 1], rows[s], i)
    ensures !SameTo(rows[r], rows[s], i)
  {
    if r < s - 1 && SameTo(rows[r], rows[s], i) {
      TogetherSame(cols, keys, ascending, rows, i, r, s - 1, s);
    }
  }

  lemma TogetherSame(cols: seq<Column<Row>>, keys: seq<string -> real>, ascending: seq<bool>, rows: seq<Row>,
                     i: nat, r: nat, m: nat, s: nat)
    requires |keys| == |ascending| && SortsByGroups(cols, keys, ascending)
    requires Keyed(rows, |keys|) && Together(cols, |keys|, rows)
    requires i < |keys| && r < m < s < |rows| && SameTo(rows[r], rows[s], i)
    ensures SameTo(rows[r], rows[m], i)
  {
    SameAgree(cols, keys, ascending, rows[r], rows[s], i);
    SameAgree(cols, keys, ascending, rows[r], rows[m], i);
  }

  lemma StartChanges(template: seq<Summary>, rows: seq<Row>, levels: nat, i: nat, s: nat)
    requires Keyed(rows, levels) && i < levels && 0 < s < |rows|
    requires Starts(Runs(template, rows, levels, 0, 0, |rows|), i, s)
    ensures !SameTo(rows[s - 1], rows[s], i)
  {
    GroupStarts(template, rows, levels, 0, 0, |rows|, i, s);
  }

  lemma TogetherNoneTwice(cols: seq<Column<Row>>, keys: seq<string -> real>, ascending: seq<bool>,
                          template: seq<Summary>, rows: seq<Row>)
    requires |keys| == |ascending| && SortsByGroups(cols, keys, ascending)
    requires Keyed(rows, |keys|) && Together(cols, |keys|, rows)
    ensures NoneTwice(Runs(template, rows, |keys|, 0, 0, |rows|), rows)
  {
    var levels := |keys|;
    var gs := Runs(template, rows, levels, 0, 0, |rows|);
    SameLevelApart(template, rows, levels, 0, 0, |rows|);
    RunsWithin(template, rows, levels, 0, 0, |rows|);
    forall k, l | 0 <= k < l < |gs| && gs[k].idx == gs[l].idx && gs[k].startRow < |rows| && gs[l].startRow < |rows|
      ensures !SameTo(rows[gs[k].startRow], rows[gs[l].startRow], gs[k].idx)
    {
      assert Starts(gs, gs[l].idx, gs[l].startRow);
      AfreshFrom(cols, keys, ascending, template, rows, gs[l].idx, gs[k].startRow, gs[l].startRow);
    }
  }

  lemma AfreshFrom(cols: seq<Column<Row>>, keys: seq<string -> real>, ascending: seq<bool>,
                   template: seq<Summary>, rows: seq<Row>, i: nat, r: nat, s: nat)
    requires |keys| == |ascending| && SortsByGroups(cols, keys, ascending)
    requires Keyed(rows, |keys|) && Together(cols, |keys|, rows)
    requires i < |keys| && r < s < |rows| && Starts(Runs(template, rows, |keys|, 0, 0, |rows|), i, s)
    ensures !SameTo(rows[r], rows[s], i)
  {
    StartChanges(template, rows, |keys|, i, s);
    StartsAfresh(cols, keys, ascending, rows, i, r, s);
  }

  lemma Unlike(a: Row, b: Row, z: Row, i: nat)
    requires SameTo(a, z, i) && !SameTo(a, b, i)
    ensures !SameTo(b, z, i)
  {
  }

  /** Rows `i` and `l` agree, a row between them does not: their groups stand for the same values. */
  lemma ApartTwice(template: seq<Summary>, rows: seq<Row>, levels: nat, k: nat, i: nat, j: nat, l: nat)
    requires Keyed(rows, levels) && k < levels && i < j < l < |rows|
    requires SameTo(rows[i], rows[l], k) && !SameTo(rows[i], rows[j], k)
    ensures !NoneTwice(Runs(template, rows, levels, 0, 0, |rows|), rows)
  {
    var gs := Runs(template, rows, levels, 0, 0, |rows|);
    var s := RunStart(template, rows, levels, i, k);
    var t := RunStart(template, rows, levels, l, k);
    Unlike(rows[i], rows[j], rows[l], k);
    assert SameTo(rows[s], rows[i], k) && SameTo(rows[t], rows[l], k);
    TwoStarts(gs, rows, k, s, t);
  }

  lemma TwoStarts(gs: seq<Group>, rows: seq<Row>, k: nat, s: nat, t: nat)
    requires s < t < |rows| && Starts(gs, k, s) && Starts(gs, k, t) && SameTo(rows[s], rows[t], k)
    ensures !NoneTwice(gs, rows)
  {
    var m :| 0 <= m < |gs| && gs[m].idx == k && gs[m].startRow == s;
    var n :| 0 <= n < |gs| && gs[n].idx == k && gs[n].startRow == t;
    SameBack(rows[s], rows[t], k);
    assert m < n || n < m;
  }

  lemma SameBack(a: Row, b: Row, i: nat)
    requires SameTo(a, b, i)
    ensures SameTo(b, a, i)
  {
  }

  /** Each combination of values has one group exactly if its rows stand side by side. */
  lemma OneEachIff(cols: seq<Column<Row>>, keys: seq<string -> real>, ascending: seq<bool>,
                   template: seq<Summary>, rows: seq<Row>)
    requires |keys| == |ascending| && SortsByGroups(cols, keys, ascending) && Keyed(rows, |keys|)
    ensures OneEach(Runs(template, rows, |keys|, 0, 0, |rows|), rows, |keys|) <==> Together(cols, |keys|, rows)
  {
    var levels := |keys|;
    var gs := Runs(template, rows, levels, 0, 0, |rows|);
    forall r, i | 0 <= r < |rows| && 0 <= i < levels ensures HasGroup(gs, rows, r, i) {
      var s := RunStart(template, rows, levels, r, i);
      assert SameTo(rows[s], rows[r], i);
    }
    if Together(cols, levels, rows) {
      TogetherNoneTwice(cols, keys, ascending, template, rows);
    } else {
      BrokenTwice(cols, keys, ascending, template, rows);
    }
  }

  lemma BrokenTwice(cols: seq<Column<Row>>, keys: seq<string -> real>, ascending: seq<bool>,
                    template: seq<Summary>, rows: seq<Row>)
    requires |keys| == |ascending| && SortsByGroups(cols, keys, ascending)
    requires Keyed(rows, |keys|) && !Together(cols, |keys|, rows)
    ensures !NoneTwice(Runs(template, rows, |keys|, 0, 0, |rows|), rows)
  {
    var k, i, j, l :| 0 < k <= |keys| && 0 <= i < j < l < |rows|
      && AgreeTo(cols, k, rows[i], rows[l]) && !AgreeTo(cols, k, rows[i], rows[j]);
    SameAgree(cols, keys, ascending, rows[i], rows[l], k - 1);
    SameAgree(cols, keys, ascending, rows[i], rows[j], k - 1);
    ApartTwice(template, rows, |keys|, k - 1, i, j, l);
  }

  /** Rows sorted by the group fields first have one group for each combination of values, if no
      row has the sort key of two others, but not their value, in the first field in which it
      differs from them. */
  lemma SortedRowsGroupOnce(cols: seq<Column<Row>>, keys: seq<string -> real>, ascending: seq<bool>,
                            template: seq<Summary>, rows: seq<Row>)
    requires |keys| == |ascending| && SortsByGroups(cols, keys, ascending)
    requires Keyed(rows, |keys|) && LexSorted(cols, 0, rows) && !Clash(cols, |keys|, multiset(rows))
    ensures OneEach(Runs(template, rows, |keys|, 0, 0, |rows|), rows, |keys|)
  {
    GroupsCellwise(cols, keys, ascending);
    SortedTogether(cols, |keys|, rows);
    OneEachIff(cols, keys, ascending, template, rows);
  }

  // ----- Exactly when, on given data ---------------------------------------------------

  /** However `_doSort` arranges these rows, there is one group for each combination. */
  ghost predicate AlwaysOneEach(cols: seq<Column<Row>>, levels: nat, template: seq<Summary>, d: seq<Row>) {
    forall rows: seq<Row> | Keyed(rows, levels) && Performed(cols, d, rows) ::
      OneEach(Runs(template, rows, levels, 0, 0, |rows|), rows, levels)
  }

  lemma PerformedKeyed(cols: seq<Column<Row>>, levels: nat, d: seq<Row>, rows: seq<Row>)
    requires Keyed(d, levels) && Performed(cols, d, rows)
    ensures Keyed(rows, levels)
  {
    if cols != [] {
      OutcomeRearranges(cols, 0, d, rows);
      Sorting.SameMembers(rows, d);
      forall r | 0 <= r < |rows| ensures |rows[r].keys| == levels {
        assert rows[r] in d;
      }
    }
  }

  /** On given data, whatever the sort returns has one group for each combination of values
      exactly when there are no three rows of which two agree up to some field, and the third
      agrees with them before that field and has its sort key there, but another value. */
  lemma OneGroupEachIff(cols: seq<Column<Row>>, keys: seq<string -> real>, ascending: seq<bool>,
                        template: seq<Summary>, d: seq<Row>)
    requires |keys| == |ascending| && SortsByGroups(cols, keys, ascending) && Keyed(d, |keys|)
    ensures AlwaysOneEach(cols, |keys|, template, d) <==> !Clash(cols, |keys|, multiset(d))
  {
    var levels := |keys|;
    GroupsCellwise(cols, keys, ascending);
    TogetherIff(cols, levels, d);
    forall rows: seq<Row> | Performed(cols, d, rows)
      ensures Keyed(rows, levels)
      ensures OneEach(Runs(template, rows, levels, 0, 0, |rows|), rows, levels) <==> Together(cols, levels, rows)
    {
      PerformedKeyed(cols, levels, d, rows);
      OneEachIff(cols, keys, ascending, template, rows);
    }
  }

  function OnlyAt(levels: nat, k: nat, x: string): (a: Row)
    ensures |a.keys| == levels && forall j :: 0 <= j < levels ==> a.keys[j] == if j == k then x else ""
  {
    Row(seq(levels, j => if j == k then x else ""), map[])
  }

  function Alternating(levels: nat, k: nat, x: string, y: string): (rows: seq<Row>)
    ensures |rows| == 3 && Keyed(rows, levels)
  {
    [OnlyAt(levels, k, x), OnlyAt(levels, k, y), OnlyAt(levels, k, x)]
  }

  /** Two values with one sort key: the sort may leave them alternating, and the first then has two groups. */
  lemma SplitGroups(keys: seq<string -> real>, ascending: seq<bool>, template: seq<Summary>, k: nat, x: string,
                    y: string)
    requires |keys| == |ascending| && k < |keys| && x != y && keys[k](x) == keys[k](y)
    ensures var rows := Alternating(|keys|, k, x, y);
      Performed(GroupColumns(keys, ascending), rows, rows) && !NoneTwice(Runs(template, rows, |keys|, 0, 0, 3), rows)
  {
    var cols, rows := GroupColumns(keys, ascending), Alternating(|keys|, k, x, y);
    GroupsCellwise(cols, keys, ascending);
    AlternatingShuffles(keys, ascending, k, x, y);
    var r := BlockOutcome(cols, 0, k, rows, rows);
    OutcomeRearranges(cols, 0, rows, r);
    assert |r| == |multiset(r)| == |multiset(rows)| == |rows|;
    InOrderFull(rows, r);
    assert rows[1].keys[k] != rows[0].keys[k];
    ApartTwice(template, rows, |keys|, k, 0, 1, 2);
  }

  lemma AlternatingShuffles(keys: seq<string -> real>, ascending: seq<bool>, k: nat, x: string, y: string)
    requires |keys| == |ascending| && k < |keys| && x != y && keys[k](x) == keys[k](y)
    ensures Shuffles(GroupColumns(keys, ascending), 0, k, Alternating(|keys|, k, x, y))
  {
    var cols, rows := GroupColumns(keys, ascending), Alternating(|keys|, k, x, y);
    forall j, i | 0 <= j < k && 0 <= i < 3 ensures cols[j].same(rows[0], rows[i]) {
      assert CellAt(rows[i], j) == "" == CellAt(rows[0], j);
    }
    assert forall i :: 0 <= i < 3 ==> CellAt(rows[i], k) == if i == 1 then y else x;
  }

  /** So a single text field, trimmed and lower-cased for sorting alone, may show one group twice. */
  lemma BlankGroupsTwice(template: seq<Summary>)
    ensures var key := (s: string) => TextRank(SortKey(s, true)); var rows := Alternating(1, 0, " a", "a");
      Performed(GroupColumns([key], [true]), rows, rows) && !NoneTwice(Runs(template, rows, 1, 0, 0, 3), rows)
  {
    var key := (s: string) => TextRank(SortKey(s, true));
    BlankKept();
    assert " a"[0] != "a"[0];
    SplitGroups([key], [true], template, 0, " a", "a");
  }

  // ----- The two operations together ---------------------------------------------------

  /** The loop of `execute`. */
  method SelectRows(rows: seq<Row>, keep: Row -> bool) returns (results: seq<Row>)
    ensures Filters(rows, keep, results)
    ensures forall x :: multiset(results)[x] == if keep(x) then multiset(rows)[x] else 0
  {
    results := [];
    for i := 0 to |rows|
      invariant results == Filter(rows[..i], keep)
    {
      assert rows[..i + 1] == rows[..i] + [rows[i]];
      FilterNext(rows[..i], keep, rows[i]);
      if keep(rows[i]) {
        results := results + [rows[i]];
      }
    }
    assert rows[..|rows|] == rows;
    FilterPlaces(rows, keep);
    forall x ensures multiset(results)[x] == if keep(x) then multiset(rows)[x] else 0 {
      FilterCount(rows, keep, x);
    }
  }

  /** `kept` are the rows of the data with `keep`, each as often as in the data, in the order of `sorted`. */
  ghost predicate IsKept(data: seq<Row>, sorted: seq<Row>, keep: Row -> bool, kept: seq<Row>) {
    && multiset(sorted) == multiset(data) && Filters(sorted, keep, kept)
    && forall x :: multiset(kept)[x] == if keep(x) then multiset(data)[x] else 0
  }

  /** `slice((page-1)*rowNum, page*rowNum)` */
  function PageOf(rows: seq<Row>, page: nat, rowNum: nat): seq<Row>
    requires page >= 1
  {
    var from, end := (page - 1) * rowNum, page * rowNum;
    if from >= |rows| then [] else rows[from..if end < |rows| then end else |rows|]
  }

  /** `rows` are page number `page` of `all`: full, or what is left. */
  ghost predicate IsPage(all: seq<Row>, page: nat, rowNum: nat, rows: seq<Row>)
    requires page >= 1
  {
    var from := (page - 1) * rowNum;
    && |rows| == (if |all| <= from then 0 else if |all| < from + rowNum then |all| - from else rowNum)
    && forall i :: 0 <= i < |rows| ==> rows[i] == all[from + i]
  }

  lemma PageIs(all: seq<Row>, page: nat, rowNum: nat)
    requires page >= 1
    ensures IsPage(all, page, rowNum, PageOf(all, page, rowNum))
  {
    assert page * rowNum == (page - 1) * rowNum + rowNum;
    SliceIs(all, (page - 1) * rowNum, page * rowNum);
  }

  lemma SliceIs(all: seq<Row>, from: nat, end: nat)
    requires from <= end
    ensures var rows := if from >= |all| then [] else all[from..if end < |all| then end else |all|];
      && |rows| == (if |all| <= from then 0 else if |all| < end then |all| - from else end - from)
      && forall i :: 0 <= i < |rows| ==> rows[i] == all[from + i]
  {
  }

  /** The first `n` pages one after another. */
  function Pages(all: seq<Row>, n: nat, rowNum: nat): seq<Row> {
    if n == 0 then [] else Pages(all, n - 1, rowNum) + PageOf(all, n, rowNum)
  }

  /** The pages give all rows, each once: the first `n` give the first n * rowNum. */
  lemma {:induction false} PagesCover(all: seq<Row>, n: nat, rowNum: nat)
    ensures Pages(all, n, rowNum) == if n * rowNum < |all| then all[..n * rowNum] else all
  {
    if n > 0 {
      PagesCover(all, n - 1, rowNum);
      assert n * rowNum == (n - 1) * rowNum + rowNum;
      PageAfter(all, (n - 1) * rowNum, n * rowNum);
    }
  }

  lemma PageAfter(all: seq<Row>, from: nat, end: nat)
    requires from <= end
    ensures (if from < |all| then all[..from] else all)
      + (if from >= |all| then [] else all[from..if end < |all| then end else |all|])
      == if end < |all| then all[..end] else all
  {
  }

  /** Where the rows of a page stood. */
  lemma PageFrom(rows: seq<Row>, page: nat, rowNum: nat) returns (at: seq<nat>)
    requires page >= 1
    ensures Picks(rows, at, PageOf(rows, page, rowNum))
  {
    at := Onwards(|PageOf(rows, page, rowNum)|, (page - 1) * rowNum);
  }

  function Onwards(n: nat, from: nat): (at: seq<nat>)
    ensures |at| == n && forall i :: 0 <= i < n ==> at[i] == from + i
  {
    seq(n, i requires i >= 0 => from + i)
  }

  /** `a` may stand before `b`: the first group field in which their sort keys differ has them
      ascending or descending, as asked. */
  ghost predicate ByGroupFields(keys: seq<string -> real>, ascending: seq<bool>, a: Row, b: Row)
    requires |keys| == |ascending| == |a.keys| == |b.keys|
  {
    forall k :: 0 <= k < |keys| && (forall c :: 0 <= c < k ==> keys[c](a.keys[c]) == keys[c](b.keys[c])) ==>
      if ascending[k] then keys[k](a.keys[k]) <= keys[k](b.keys[k]) else keys[k](a.keys[k]) >= keys[k](b.keys[k])
  }

  ghost predicate InFieldOrder(keys: seq<string -> real>, ascending: seq<bool>, rows: seq<Row>)
    requires |keys| == |ascending| && Keyed(rows, |keys|)
  {
    forall i, j :: 0 <= i < j < |rows| ==> ByGroupFields(keys, ascending, rows[i], rows[j])
  }

  lemma FieldsAreColumns(cols: seq<Column<Row>>, keys: seq<string -> real>, ascending: seq<bool>, a: Row, b: Row)
    requires |keys| == |ascending| == |a.keys| == |b.keys| && SortsByGroups(cols, keys, ascending)
    ensures ByColumns(cols, |keys|, a, b) ==> ByGroupFields(keys, ascending, a, b)
  {
    forall k | 0 <= k < |keys|
      ensures cols[k].key(a) == keys[k](a.keys[k]) && cols[k].key(b) == keys[k](b.keys[k])
      ensures cols[k].ascending == ascending[k]
    {
      assert CellAt(a, k) == a.keys[k] && CellAt(b, k) == b.keys[k];
    }
    forall k | 0 <= k < |keys| && (forall c :: 0 <= c < k ==> keys[c](a.keys[c]) == keys[c](b.keys[c]))
      ensures Tied(cols, 0, k, a, b)
    {
    }
  }

  /** `addLocalData` with grouping: sort by the group fields and then by the sort columns, keep
      the rows the filter asks for, and feed those of the page to groupingPrepare. */
  method SortAndGroup(data: seq<Row>, keys: seq<string -> real>, ascending: seq<bool>, more: seq<Column<Row>>,
                      keep: Row -> bool, page: nat, rowNum: nat, template: seq<Summary>)
    returns (rows: seq<Row>, groups: seq<Group>, records: nat)
    requires |keys| == |ascending| && Keyed(data, |keys|) && page >= 1
    ensures exists sorted, kept :: (
      && Performed(GroupColumns(keys, ascending) + more, data, sorted)
      && IsKept(data, sorted, keep, kept) && records == |kept| && IsPage(kept, page, rowNum, rows))
    ensures Keyed(rows, |keys|) && groups == Runs(template, rows, |keys|, 0, 0, |rows|)
    ensures !Clash(GroupColumns(keys, ascending) + more, |keys|, multiset(data)) ==> OneEach(groups, rows, |keys|)
    ensures AgreeFirst(GroupColumns(keys, ascending) + more, |keys|, data) ==> InFieldOrder(keys, ascending, rows)
  {
    var cols := GroupColumns(keys, ascending) + more;
    var query := new Query(cols);
    var sorted := query.PerformSort(data);
    var kept := SelectRows(sorted, keep);
    assert IsKept(data, sorted, keep, kept);
    records := |kept|;
    rows := PageOf(kept, page, rowNum);
    PageIs(kept, page, rowNum);
    PerformedKeyed(cols, |keys|, data, sorted);
    ghost var at := PageKeeps(sorted, keep, kept, page, rowNum);
    PickedKeyed(sorted, at, rows, |keys|);
    PickedRows(cols, keys, ascending, data, sorted, at, rows, template);
    groups := GroupingRender.PrepareAll(|keys|, template, rows);
  }

  /** What the rows of a page inherit from the sorted data. */
  lemma PickedRows(cols: seq<Column<Row>>, keys: seq<string -> real>, ascending: seq<bool>, data: seq<Row>,
                   sorted: seq<Row>, at: seq<nat>, rows: seq<Row>, template: seq<Summary>)
    requires |keys| == |ascending| && SortsByGroups(cols, keys, ascending) && Keyed(rows, |keys|)
    requires Performed(cols, data, sorted) && Picks(sorted, at, rows)
    ensures !Clash(cols, |keys|, multiset(data)) ==> OneEach(Runs(template, rows, |keys|, 0, 0, |rows|), rows, |keys|)
    ensures AgreeFirst(cols, |keys|, data) ==> InFieldOrder(keys, ascending, rows)
  {
    if !Clash(cols, |keys|, multiset(data)) {
      PickedGrouped(cols, keys, ascending, data, sorted, at, rows, template);
    }
    if AgreeFirst(cols, |keys|, data) {
      PickedOrdered(cols, keys, ascending, data, sorted, at, rows);
    }
  }

  /** Where the rows of a page stood in the sorted data. */
  lemma PageKeeps(sorted: seq<Row>, keep: Row -> bool, kept: seq<Row>, page: nat, rowNum: nat) returns (at: seq<nat>)
    requires Filters(sorted, keep, kept) && page >= 1
    ensures Picks(sorted, at, PageOf(kept, page, rowNum))
  {
    var some: seq<nat> :| Picks(sorted, some, kept) && PicksAll(sorted, some, keep);
    var onPage := PageFrom(kept, page, rowNum);
    at := Through(some, onPage, |kept|);
    PicksThrough(sorted, some, kept, onPage, PageOf(kept, page, rowNum), at);
  }

  function Through(some: seq<nat>, onPage: seq<nat>, n: nat): (at: seq<nat>)
    requires |some| == n && forall i :: 0 <= i < |onPage| ==> onPage[i] < n
    ensures |at| == |onPage| && forall i :: 0 <= i < |at| ==> at[i] == some[onPage[i]]
  {
    seq(|onPage|, i requires 0 <= i < |onPage| => some[onPage[i]])
  }

  lemma PicksThrough(s: seq<Row>, some: seq<nat>, r: seq<Row>, onPage: seq<nat>, q: seq<Row>, at: seq<nat>)
    requires Picks(s, some, r) && Picks(r, onPage, q)
    requires |at| == |onPage| && forall i :: 0 <= i < |at| ==> at[i] == some[onPage[i]]
    ensures Picks(s, at, q)
  {
  }

  lemma PickedKeyed(sorted: seq<Row>, at: seq<nat>, rows: seq<Row>, levels: nat)
    requires Picks(sorted, at, rows) && Keyed(sorted, levels)
    ensures Keyed(rows, levels)
  {
  }

  lemma PickedGrouped(cols: seq<Column<Row>>, keys: seq<string -> real>, ascending: seq<bool>, data: seq<Row>,
                      sorted: seq<Row>, at: seq<nat>, rows: seq<Row>, template: seq<Summary>)
    requires |keys| == |ascending| && SortsByGroups(cols, keys, ascending) && Keyed(rows, |keys|)
    requires Performed(cols, data, sorted) && Picks(sorted, at, rows) && !Clash(cols, |keys|, multiset(data))
    ensures OneEach(Runs(template, rows, |keys|, 0, 0, |rows|), rows, |keys|)
  {
    GroupsCellwise(cols, keys, ascending);
    TogetherIff(cols, |keys|, data);
    PicksTogether(cols, |keys|, sorted, at, rows);
    OneEachIff(cols, keys, ascending, template, rows);
  }

  lemma PickedOrdered(cols: seq<Column<Row>>, keys: seq<string -> real>, ascending: seq<bool>, data: seq<Row>,
                      sorted: seq<Row>, at: seq<nat>, rows: seq<Row>)
    requires |keys| == |ascending| && SortsByGroups(cols, keys, ascending) && Keyed(rows, |keys|)
    requires Performed(cols, data, sorted) && Picks(sorted, at, rows) && AgreeFirst(cols, |keys|, data)
    ensures InFieldOrder(keys, ascending, rows)
  {
    if cols != [] {
      OutcomeIsLex(cols, |keys|, 0, data, sorted);
    }
    forall i, j | 0 <= i < j < |rows| ensures ByGroupFields(keys, ascending, rows[i], rows[j]) {
      assert at[i] < at[j];
      assert cols != [] ==> LexLe(cols[..|keys|], 0, sorted[at[i]], sorted[at[j]]);
      LexIsByColumns(cols, |keys|, sorted[at[i]], sorted[at[j]]);
      FieldsAreColumns(cols, keys, ascending, rows[i], rows[j]);
    }
  }
}
