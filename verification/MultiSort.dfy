// The multi-key sort of jqGrid's query object: sort by the first key, cut the
// result into groups of equal cells, sort each group by the remaining keys.

module MultiSort {
  import opened Strings
  import Sorting
  import opened Sequences

  /** One entry of `_sorting`: `key` is the sort key findSortKey gives a record (its
      rank among the keys of the column), `same` is `_equals` on the records' cells. */
  datatype Column<!R> = Column(key: R -> real, same: (R, R) -> bool, ascending: bool)

  function Rank<R>(c: Column<R>, a: R): real {
    if c.ascending then c.key(a) else -c.key(a)
  }

  /** `_compare(a, b, d)` on two sort keys. */
  function Compare(a: real, b: real, d: int): int {
    if a < b then -d else if a > b then d else 0
  }

  // ----- What a sort promises ------------------------------------------------

  ghost predicate Ordered<R>(c: Column<R>, s: seq<R>) {
    forall i, j :: 0 <= i < j < |s| ==> Rank(c, s[i]) <= Rank(c, s[j])
  }

  /** `a` may stand before `b`: lexicographic by the columns from `q` on. */
  predicate LexLe<R>(cols: seq<Column<R>>, q: nat, a: R, b: R)
    requires q <= |cols|
    decreases |cols| - q
  {
    q == |cols|
    || Rank(cols[q], a) < Rank(cols[q], b)
    || (Rank(cols[q], a) == Rank(cols[q], b) && LexLe(cols, q + 1, a, b))
  }

  ghost predicate LexSorted<R>(cols: seq<Column<R>>, q: nat, s: seq<R>)
    requires q <= |cols|
  {
    forall i, j :: 0 <= i < j < |s| ==> LexLe(cols, q, s[i], s[j])
  }

  /** Equal keys in the columns lo..k. */
  ghost predicate Tied<R>(cols: seq<Column<R>>, lo: nat, k: nat, a: R, b: R)
    requires k <= |cols|
  {
    forall c :: lo <= c < k ==> cols[c].key(a) == cols[c].key(b)
  }

  /** `a` may stand before `b`: the first of the first `m` columns in which their keys differ has
      them ascending or descending, as the column asks. */
  ghost predicate ByColumns<R>(cols: seq<Column<R>>, m: nat, a: R, b: R)
    requires m <= |cols|
  {
    forall k :: 0 <= k < m && Tied(cols, 0, k, a, b) ==>
      if cols[k].ascending then cols[k].key(a) <= cols[k].key(b) else cols[k].key(a) >= cols[k].key(b)
  }

  lemma {:induction false} LexLeMeaning<R>(cols: seq<Column<R>>, q: nat, a: R, b: R)
    requires q <= |cols|
    ensures LexLe(cols, q, a, b) <==>
      forall k :: q <= k < |cols| && Tied(cols, q, k, a, b) ==>
        if cols[k].ascending then cols[k].key(a) <= cols[k].key(b) else cols[k].key(a) >= cols[k].key(b)
    decreases |cols| - q
  {
    if q < |cols| {
      LexLeMeaning(cols, q + 1, a, b);
      assert Tied(cols, q, q, a, b);
      forall k | q < k < |cols|
        ensures Tied(cols, q, k, a, b) <==> cols[q].key(a) == cols[q].key(b) && Tied(cols, q + 1, k, a, b)
      {
      }
    }
  }

  /** The recursive order and the one by the first column that differs are one. */
  lemma LexIsByColumns<R>(cols: seq<Column<R>>, m: nat, a: R, b: R)
    requires m <= |cols|
    ensures LexLe(cols[..m], 0, a, b) <==> ByColumns(cols, m, a, b)
  {
    LexLeMeaning(cols[..m], 0, a, b);
    assert forall k :: 0 <= k < m ==> cols[..m][k] == cols[k];
  }

  /** Cells count as equal exactly when their sort keys are. */
  ghost predicate Agree<R(!new)>(c: Column<R>) {
    forall a: R, b: R :: c.same(a, b) <==> c.key(a) == c.key(b)
  }

  /** The same for the records of a list alone. */
  ghost predicate AgreeOn<R>(c: Column<R>, d: seq<R>) {
    forall i, j :: 0 <= i < |d| && 0 <= j < |d| ==> (c.same(d[i], d[j]) <==> c.key(d[i]) == c.key(d[j]))
  }

  /** They agree on `d` in the first `m` columns, but for the last column of all. */
  ghost predicate AgreeFirst<R>(cols: seq<Column<R>>, m: nat, d: seq<R>) {
    forall k :: 0 <= k < m && k < |cols| - 1 ==> AgreeOn(cols[k], d)
  }

  lemma AgreeAnywhere<R(!new)>(c: Column<R>, d: seq<R>)
    requires Agree(c)
    ensures AgreeOn(c, d)
  {
  }

  lemma AgreeOnFewer<R>(c: Column<R>, d: seq<R>, s: seq<R>)
    requires AgreeOn(c, d) && forall k :: 0 <= k < |s| ==> s[k] in d
    ensures AgreeOn(c, s)
  {
    forall i, j | 0 <= i < |s| && 0 <= j < |s| ensures c.same(s[i], s[j]) <==> c.key(s[i]) == c.key(s[j]) {
      var m :| 0 <= m < |d| && d[m] == s[i];
      var n :| 0 <= n < |d| && d[n] == s[j];
    }
  }

  // ----- The steps as functions of a sorted list ------------------------------

  /** Where the first group of `s` ends: the next record whose cell differs from the first. */
  function GroupEnd<R>(c: Column<R>, s: seq<R>, n: nat): (e: nat)
    requires 0 < n <= |s|
    ensures n <= e <= |s|
    ensures forall k :: n <= k < e ==> c.same(s[0], s[k])
    ensures e < |s| ==> !c.same(s[0], s[e])
    decreases |s| - n
  {
    if n == |s| || !c.same(s[0], s[n]) then n else GroupEnd(c, s, n + 1)
  }

  function Groups<R>(c: Column<R>, s: seq<R>): seq<seq<R>> {
    if s == [] then []
    else
      var e := GroupEnd(c, s, 1);
      [s[..e]] + Groups(c, s[e..])
  }

  /** Each group is what follows its first record and is the same as it. */
  lemma {:induction false} GroupsMeaning<R>(c: Column<R>, s: seq<R>)
    ensures var gs := Groups(c, s);
      && (forall g :: 0 <= g < |gs| ==> gs[g] != [])
      && (forall g, k :: 0 <= g < |gs| && 1 <= k < |gs[g]| ==> c.same(gs[g][0], gs[g][k]))
      && (forall g :: 0 < g < |gs| ==> !c.same(gs[g - 1][0], gs[g][0]))
      && (s != [] ==> gs != [] && gs[0][0] == s[0])
    decreases |s|
  {
    if s != [] {
      var e := GroupEnd(c, s, 1);
      GroupsMeaning(c, s[e..]);
      var first, later := s[..e], Groups(c, s[e..]);
      assert Groups(c, s) == [first] + later;
      assert forall g :: 0 < g < |later| + 1 ==> ([first] + later)[g] == later[g - 1];
    }
  }

  function Flatten<R>(parts: seq<seq<R>>): seq<R> {
    if parts == [] then [] else parts[0] + Flatten(parts[1..])
  }

  lemma {:induction false} FlattenConcat<R>(a: seq<seq<R>>, b: seq<seq<R>>)
    ensures Flatten(a + b) == Flatten(a) + Flatten(b)
    decreases |a|
  {
    if a == [] {
      assert a + b == b;
    } else {
      FlattenConcat(a[1..], b);
      assert (a + b)[1..] == a[1..] + b;
    }
  }

  lemma {:induction false} GroupsFlatten<R>(c: Column<R>, s: seq<R>)
    ensures Flatten(Groups(c, s)) == s
    decreases |s|
  {
    if s != [] {
      var e := GroupEnd(c, s, 1);
      GroupsFlatten(c, s[e..]);
      assert ([s[..e]] + Groups(c, s[e..]))[1..] == Groups(c, s[e..]);
    }
  }

  /** Some result `_doSort(d, q)` may have, whichever sorted order Array.prototype.sort picks. */
  ghost predicate Outcome<R(!new)>(cols: seq<Column<R>>, q: nat, d: seq<R>, r: seq<R>)
    requires q < |cols|
    decreases |cols| - q
  {
    if q == |cols| - 1 then multiset(r) == multiset(d) && Ordered(cols[q], r)
    else
      exists s: seq<R>, parts: seq<seq<R>> ::
        && multiset(s) == multiset(d) && Ordered(cols[q], s)
        && |parts| == |Groups(cols[q], s)|
        && (forall k :: 0 <= k < |parts| ==> Outcome(cols, q + 1, Groups(cols[q], s)[k], parts[k]))
        && r == Flatten(parts)
  }

  // ----- Lexicographic order from group-wise order ----------------------------

  /** `parts` rearranges the groups of an ordered list, each sorted by the later columns. */
  ghost predicate GroupwiseSorted<R>(cols: seq<Column<R>>, q: nat, s: seq<R>, parts: seq<seq<R>>)
    requires q < |cols|
  {
    && |parts| == |Groups(cols[q], s)|
    && forall k :: 0 <= k < |parts| ==>
         multiset(parts[k]) == multiset(Groups(cols[q], s)[k]) && LexSorted(cols, q + 1, parts[k])
  }

  lemma {:induction false} FlattenSame<R>(cols: seq<Column<R>>, q: nat, s: seq<R>, parts: seq<seq<R>>)
    requires q < |cols| && |parts| == |Groups(cols[q], s)|
    requires forall k :: 0 <= k < |parts| ==> multiset(parts[k]) == multiset(Groups(cols[q], s)[k])
    ensures multiset(Flatten(parts)) == multiset(s)
    decreases |s|
  {
    if s != [] {
      var e := GroupEnd(cols[q], s, 1);
      assert s == s[..e] + s[e..];
      assert Groups(cols[q], s)[0] == s[..e];
      assert Groups(cols[q], s)[1..] == Groups(cols[q], s[e..]);
      forall k | 0 <= k < |parts[1..]| ensures multiset(parts[1..][k]) == multiset(Groups(cols[q], s[e..])[k]) {
        assert parts[1..][k] == parts[k + 1] && Groups(cols[q], s[e..])[k] == Groups(cols[q], s)[k + 1];
      }
      FlattenSame(cols, q, s[e..], parts[1..]);
    }
  }

  /** The first group holds exactly the records with the first key; all others come strictly later. */
  lemma FirstGroupKeys<R>(c: Column<R>, s: seq<R>)
    requires s != [] && Ordered(c, s) && AgreeOn(c, s)
    ensures var e := GroupEnd(c, s, 1);
      && (forall k :: 0 <= k < e ==> Rank(c, s[k]) == Rank(c, s[0]))
      && (forall k :: e <= k < |s| ==> Rank(c, s[k]) > Rank(c, s[0]))
      && Ordered(c, s[e..])
  {
    var e := GroupEnd(c, s, 1);
    forall k | 0 <= k < e ensures Rank(c, s[k]) == Rank(c, s[0]) {
      assert k > 0 ==> c.same(s[0], s[k]);
    }
    forall k | e <= k < |s| ensures Rank(c, s[k]) > Rank(c, s[0]) {
      assert !c.same(s[0], s[e]);
      assert Rank(c, s[0]) <= Rank(c, s[e]);
      assert k > e ==> Rank(c, s[e]) <= Rank(c, s[k]);
    }
  }

  lemma {:induction false} GroupwiseIsLex<R>(cols: seq<Column<R>>, q: nat, s: seq<R>, parts: seq<seq<R>>)
    requires q < |cols| && Ordered(cols[q], s) && AgreeOn(cols[q], s)
    requires GroupwiseSorted(cols, q, s, parts)
    ensures LexSorted(cols, q, Flatten(parts))
    decreases |s|
  {
    if s != [] {
      var e := GroupEnd(cols[q], s, 1);
      FirstGroupKeys(cols[q], s);
      LaterParts(cols, q, s, parts);
      GroupwiseIsLex(cols, q, s[e..], parts[1..]);
      FlattenSame(cols, q, s[e..], parts[1..]);
      FirstPartFirst(cols, q, s, parts[0], Flatten(parts[1..]));
      JoinLex(cols, q, parts[0], Flatten(parts[1..]));
    }
  }

  /** The groups behind the first. */
  lemma LaterParts<R>(cols: seq<Column<R>>, q: nat, s: seq<R>, parts: seq<seq<R>>)
    requires q < |cols| && s != [] && GroupwiseSorted(cols, q, s, parts) && AgreeOn(cols[q], s)
    ensures var e := GroupEnd(cols[q], s, 1);
      && GroupwiseSorted(cols, q, s[e..], parts[1..]) && AgreeOn(cols[q], s[e..])
      && multiset(parts[0]) == multiset(s[..e]) && LexSorted(cols, q + 1, parts[0])
  {
    var e := GroupEnd(cols[q], s, 1);
    var groups, later := Groups(cols[q], s), Groups(cols[q], s[e..]);
    assert groups[0] == s[..e] && groups[1..] == later;
    forall k | 0 <= k < |parts[1..]|
      ensures multiset(parts[1..][k]) == multiset(later[k]) && LexSorted(cols, q + 1, parts[1..][k])
    {
      assert parts[1..][k] == parts[k + 1] && later[k] == groups[k + 1];
    }
    AgreeOnFewer(cols[q], s, s[e..]);
  }

  /** All of the first part has the first key, all of the rest a later one. */
  lemma FirstPartFirst<R>(cols: seq<Column<R>>, q: nat, s: seq<R>, first: seq<R>, rest: seq<R>)
    requires q < |cols| && s != [] && Ordered(cols[q], s) && AgreeOn(cols[q], s)
    requires var e := GroupEnd(cols[q], s, 1); multiset(first) == multiset(s[..e]) && multiset(rest) == multiset(s[e..])
    ensures forall i :: 0 <= i < |first| ==> Rank(cols[q], first[i]) == Rank(cols[q], s[0])
    ensures forall i :: 0 <= i < |rest| ==> Rank(cols[q], rest[i]) > Rank(cols[q], s[0])
  {
    var e := GroupEnd(cols[q], s, 1);
    FirstGroupKeys(cols[q], s);
    Sorting.SameMembers(first, s[..e]);
    Sorting.SameMembers(rest, s[e..]);
    forall i | 0 <= i < |first| ensures Rank(cols[q], first[i]) == Rank(cols[q], s[0]) {
      assert first[i] in s[..e];
      var k :| 0 <= k < |s[..e]| && s[..e][k] == first[i];
      assert s[k] == first[i];
    }
    forall i | 0 <= i < |rest| ensures Rank(cols[q], rest[i]) > Rank(cols[q], s[0]) {
      assert rest[i] in s[e..];
      var k :| 0 <= k < |s[e..]| && s[e..][k] == rest[i];
      assert s[e + k] == rest[i];
    }
  }

  lemma JoinLex<R>(cols: seq<Column<R>>, q: nat, a: seq<R>, b: seq<R>)
    requires q < |cols| && LexSorted(cols, q + 1, a) && LexSorted(cols, q, b)
    requires forall i, j :: 0 <= i < |a| && 0 <= j < |a| ==> Rank(cols[q], a[i]) == Rank(cols[q], a[j])
    requires forall i, j :: 0 <= i < |a| && 0 <= j < |b| ==> Rank(cols[q], a[i]) < Rank(cols[q], b[j])
    ensures LexSorted(cols, q, a + b)
  {
  }

  lemma {:induction false} GroupMembers<R>(c: Column<R>, s: seq<R>, k: nat)
    requires k < |Groups(c, s)|
    ensures forall j :: 0 <= j < |Groups(c, s)[k]| ==> Groups(c, s)[k][j] in s
    decreases |s|
  {
    var e := GroupEnd(c, s, 1);
    assert Groups(c, s)[0] == s[..e];
    if k > 0 {
      GroupMembers(c, s[e..], k - 1);
      assert Groups(c, s)[k] == Groups(c, s[e..])[k - 1];
    }
  }

  /** Sorting, cutting and recursing: what a result of more than one column consists of. */
  ghost predicate Parted<R(!new)>(cols: seq<Column<R>>, q: nat, d: seq<R>, r: seq<R>, s: seq<R>, parts: seq<seq<R>>)
    requires q < |cols| - 1
  {
    && multiset(s) == multiset(d) && Ordered(cols[q], s)
    && |parts| == |Groups(cols[q], s)|
    && (forall k :: 0 <= k < |parts| ==> Outcome(cols, q + 1, Groups(cols[q], s)[k], parts[k]))
    && r == Flatten(parts)
  }

  lemma OutcomeParts<R(!new)>(cols: seq<Column<R>>, q: nat, d: seq<R>, r: seq<R>)
    returns (s: seq<R>, parts: seq<seq<R>>)
    requires q < |cols| - 1 && Outcome(cols, q, d, r)
    ensures Parted(cols, q, d, r, s, parts)
  {
    s, parts :|
      && multiset(s) == multiset(d) && Ordered(cols[q], s)
      && |parts| == |Groups(cols[q], s)|
      && (forall k :: 0 <= k < |parts| ==> Outcome(cols, q + 1, Groups(cols[q], s)[k], parts[k]))
      && r == Flatten(parts);
  }

  /** Where cells and keys agree in the first `m` columns, every outcome is a rearrangement in
      lexicographic order of those columns. */
  lemma {:induction false} OutcomeIsLex<R(!new)>(cols: seq<Column<R>>, m: nat, q: nat, d: seq<R>, r: seq<R>)
    requires q < |cols| && q <= m <= |cols| && AgreeFirst(cols, m, d) && Outcome(cols, q, d, r)
    ensures multiset(r) == multiset(d) && LexSorted(cols[..m], q, r)
    decreases |cols| - q, 1
  {
    if q == m {
      OutcomeRearranges(cols, q, d, r);
    } else if q == |cols| - 1 {
      assert cols[..m] == cols;
    } else {
      var s, parts := OutcomeParts(cols, q, d, r);
      PartsAreLex(cols, m, q, d, s, parts);
      Sorting.SameMembers(s, d);
      AgreeOnFewer(cols[q], d, s);
      assert cols[..m][q] == cols[q];
      GroupwiseIsLex(cols[..m], q, s, parts);
      FlattenSame(cols, q, s, parts);
    }
  }

  lemma {:induction false} PartsAreLex<R(!new)>(cols: seq<Column<R>>, m: nat, q: nat, d: seq<R>, s: seq<R>,
                                                parts: seq<seq<R>>)
    requires q < |cols| - 1 && q < m <= |cols| && AgreeFirst(cols, m, d) && multiset(s) == multiset(d)
    requires |parts| == |Groups(cols[q], s)|
    requires forall k :: 0 <= k < |parts| ==> Outcome(cols, q + 1, Groups(cols[q], s)[k], parts[k])
    ensures GroupwiseSorted(cols[..m], q, s, parts)
    ensures forall k :: 0 <= k < |parts| ==> multiset(parts[k]) == multiset(Groups(cols[q], s)[k])
    decreases |cols| - q, 0
  {
    assert cols[..m][q] == cols[q];
    forall k | 0 <= k < |parts|
      ensures multiset(parts[k]) == multiset(Groups(cols[q], s)[k]) && LexSorted(cols[..m], q + 1, parts[k])
    {
      PartIsLex(cols, m, q, d, s, k);
      OutcomeIsLex(cols, m, q + 1, Groups(cols[q], s)[k], parts[k]);
    }
  }

  /** A group's records are among the data. */
  lemma PartIsLex<R>(cols: seq<Column<R>>, m: nat, q: nat, d: seq<R>, s: seq<R>, k: nat)
    requires q < |cols| && AgreeFirst(cols, m, d) && multiset(s) == multiset(d) && k < |Groups(cols[q], s)|
    ensures AgreeFirst(cols, m, Groups(cols[q], s)[k])
  {
    var g := Groups(cols[q], s)[k];
    GroupMembers(cols[q], s, k);
    Sorting.SameMembers(s, d);
    forall c | 0 <= c < m && c < |cols| - 1 ensures AgreeOn(cols[c], g) {
      AgreeOnFewer(cols[c], d, g);
    }
  }

  // ----- When the result is always lexicographic --------------------------------

  /** With these columns every outcome, on any data, is in lexicographic order. */
  ghost predicate AlwaysLex<R(!new)>(cols: seq<Column<R>>)
    requires cols != []
  {
    forall d: seq<R>, r: seq<R> :: Outcome(cols, 0, d, r) ==> LexSorted(cols, 0, r)
  }

  lemma GroupsOfTwo<R>(c: Column<R>, a: R, b: R)
    ensures Groups(c, [a, b]) == if c.same(a, b) then [[a, b]] else [[a], [b]]
  {
    var s := [a, b];
    assert Groups(c, []) == [];
    if c.same(a, b) {
      GroupCut(c, s, 2);
      assert s[..2] == s && s[2..] == [];
    } else {
      GroupCut(c, s, 1);
      GroupCut(c, [b], 1);
      assert s[..1] == [a] && s[1..] == [b] && [b][..1] == [b] && [b][1..] == [];
    }
  }

  /** Equal keys in unequal cells: the group is cut between them, and a smaller second key stays behind. */
  lemma SplitOutcome<R(!new)>(c: Column<R>, n: Column<R>, a: R, b: R)
    requires !c.same(a, b) && Rank(c, a) == Rank(c, b) && Rank(n, a) > Rank(n, b)
    ensures Outcome([c, n], 0, [a, b], [a, b]) && !LexSorted([c, n], 0, [a, b])
  {
    var cols, s, parts := [c, n], [a, b], [[a], [b]];
    GroupsOfTwo(c, a, b);
    assert Flatten([[b]]) == [b] + Flatten([]) && [[b]][1..] == [];
    assert parts[1..] == [[b]] && Flatten(parts) == [a] + Flatten([[b]]);
    assert Outcome(cols, 1, [a], [a]) && Outcome(cols, 1, [b], [b]);
    assert Ordered(cols[0], s) && |parts| == |Groups(cols[0], s)|;
    assert forall k :: 0 <= k < |parts| ==> Outcome(cols, 1, Groups(cols[0], s)[k], parts[k]);
    assert !LexLe(cols, 0, s[0], s[1]);
  }

  /** Unequal keys in equal cells: the group holds both, and the second key puts them the wrong way round. */
  lemma MergedOutcome<R(!new)>(c: Column<R>, n: Column<R>, a: R, b: R)
    requires c.same(a, b) && Rank(c, a) < Rank(c, b) && Rank(n, a) > Rank(n, b)
    ensures Outcome([c, n], 0, [a, b], [b, a]) && !LexSorted([c, n], 0, [b, a])
  {
    var cols, s, parts := [c, n], [a, b], [[b, a]];
    GroupsOfTwo(c, a, b);
    assert parts[1..] == [] && Flatten(parts) == [b, a] + Flatten([]);
    assert multiset([b, a]) == multiset([a, b]);
    assert Outcome(cols, 1, [a, b], [b, a]);
    assert Ordered(cols[0], s) && |parts| == |Groups(cols[0], s)|;
    assert forall k :: 0 <= k < |parts| ==> Outcome(cols, 1, Groups(cols[0], s)[k], parts[k]);
    assert !LexLe(cols, 0, [b, a][0], [b, a][1]);
  }

  /** A first column sorts right under every second column exactly when its cells
      and its sort keys agree on what is equal.  (A text column trims its keys but
      not its cells, so they do not agree on two cells that differ in blanks.) */
  lemma TwoColumnsIff<R(!new)>(c: Column<R>)
    requires forall a, b :: c.same(a, b) <==> c.same(b, a)
    requires forall a :: c.same(a, a)
    ensures Agree(c) <==> forall n: Column<R> :: AlwaysLex([c, n])
  {
    if Agree(c) {
      forall n: Column<R> ensures AlwaysLex([c, n]) {
        forall d: seq<R>, r: seq<R> | Outcome([c, n], 0, d, r) ensures LexSorted([c, n], 0, r) {
          AgreeAnywhere(c, d);
          assert [c, n][..2] == [c, n];
          OutcomeIsLex([c, n], 2, 0, d, r);
        }
      }
    }
    if !Agree(c) {
      var a, b :| c.same(a, b) != (c.key(a) == c.key(b));
      var n := Disagreement(c, a, b);
      assert !AlwaysLex([c, n]);
    }
  }

  /** A second column under which cells and keys of the first that disagree do harm. */
  lemma Disagreement<R(!new)>(c: Column<R>, a: R, b: R) returns (n: Column<R>)
    requires forall x, y :: c.same(x, y) <==> c.same(y, x)
    requires forall x :: c.same(x, x)
    requires c.same(a, b) != (c.key(a) == c.key(b))
    ensures !AlwaysLex([c, n])
  {
    var x, y := if Rank(c, a) <= Rank(c, b) then a else b, if Rank(c, a) <= Rank(c, b) then b else a;
    n := Column((z: R) => if z == x then 1.0 else 0.0, (u: R, w: R) => u == w, true);
    if c.same(x, y) {
      MergedOutcome(c, n, x, y);
    } else {
      SplitOutcome(c, n, x, y);
    }
  }

  // ----- The sort as it runs -----------------------------------------------------

  class Query<R(!new)> {
    const sorting: seq<Column<R>>

    constructor (sorting: seq<Column<R>>)
      ensures this.sorting == sorting
    {
      this.sorting := sorting;
    }

    /** `_sortData.sort(...)`: some order in which no earlier key compares greater. */
    method GetOrder(data: seq<R>, col: Column<R>) returns (r: seq<R>)
      ensures multiset(r) == multiset(data) && Ordered(col, r)
      ensures forall i, j :: 0 <= i < j < |r| ==>
        if col.ascending then col.key(r[i]) <= col.key(r[j]) else col.key(r[i]) >= col.key(r[j])
    {
      var newDir := if col.ascending then 1 else -1;
      KeysOrder(col, data);
      r := Sorting.Sort(data, (a: R, b: R) => Compare(col.key(a), col.key(b), newDir) <= 0);
      forall i, j | 0 <= i < j < |r| ensures Rank(col, r[i]) <= Rank(col, r[j]) {
        assert Compare(col.key(r[i]), col.key(r[j]), newDir) <= 0;
      }
    }

    /** `_getGroup`: a new group whenever the cell differs from the last group's. */
    method GetGroup(data: seq<R>, col: Column<R>) returns (results: seq<seq<R>>)
      ensures multiset(Flatten(results)) == multiset(data) && Ordered(col, Flatten(results))
      ensures results == Groups(col, Flatten(results))
      ensures forall g, k :: 0 <= g < |results| && 1 <= k < |results[g]| ==> col.same(results[g][0], results[g][k])
      ensures forall g :: 0 <= g < |results| ==> results[g] != []
      ensures forall g :: 0 < g < |results| ==> !col.same(results[g - 1][0], results[g][0])
    {
      var s := GetOrder(data, col);
      results := CutIntoGroups(s, col);
      GroupsFlatten(col, s);
      GroupsMeaning(col, s);
    }

    /** The body of `_getGroup`, over the sorted records. */
    method CutIntoGroups(s: seq<R>, col: Column<R>) returns (results: seq<seq<R>>)
      ensures results == Groups(col, s)
    {
      results := [];
      var group: seq<R> := [];
      var i, start := 0, 0;
      assert s[0..] == s;
      while i < |s|
        invariant Cutting(col, s, results, start, i)
        invariant group == s[start..i]
      {
        if i == 0 || !col.same(s[start], s[i]) {
          if i > 0 {
            CutHere(col, s, results, start, i);
            results := results + [group];
          }
          group, start := [s[i]], i;
          assert s[i..i + 1] == [s[i]];
        } else {
          assert s[start..i + 1] == s[start..i] + [s[i]];
          group := group + [s[i]];
        }
        i := i + 1;
      }
      if group != [] {
        assert group == s[start..];
        CutAtEnd(col, s, results, start);
        results := results + [group];
      }
    }

    /** `_doSort(d, q)` */
    method DoSort(d: seq<R>, q: nat) returns (results: seq<R>)
      requires q < |sorting|
      ensures Outcome(sorting, q, d, results)
      decreases |sorting| - q
    {
      if q == |sorting| - 1 {
        results := GetOrder(d, sorting[q]);
        return;
      }
      var values := GetGroup(d, sorting[q]);
      results := [];
      ghost var parts: seq<seq<R>> := [];
      for i := 0 to |values|
        invariant PartsSorted(sorting, q + 1, values, i, parts) && results == Flatten(parts)
      {
        var sorted := DoSort(values[i], q + 1);
        PartsSnoc(sorting, q + 1, values, i, parts, sorted);
        FlattenSnoc(parts, sorted);
        parts := parts + [sorted];
        results := PushEach(results, sorted);
      }
      OutcomeFrom(sorting, q, d, Flatten(values), parts);
    }

    method PushEach(results: seq<R>, sorted: seq<R>) returns (r: seq<R>)
      ensures r == results + sorted
    {
      r := results;
      for j := 0 to |sorted|
        invariant r == results + sorted[..j]
      {
        r := r + [sorted[j]];
      }
      assert sorted[..|sorted|] == sorted;
    }

    /** `_performSort` and the order it leaves. */
    method PerformSort(data: seq<R>) returns (r: seq<R>)
      ensures Performed(sorting, data, r)
      ensures multiset(r) == multiset(data) && (sorting == [] ==> r == data)
      ensures forall m: nat :: m <= |sorting| && AgreeFirst(sorting, m, data) ==>
        forall i, j :: 0 <= i < j < |r| ==> ByColumns(sorting, m, r[i], r[j])
    {
      if |sorting| == 0 {
        return data;
      }
      r := DoSort(data, 0);
      OutcomeRearranges(sorting, 0, data, r);
      forall m: nat, i, j | m <= |sorting| && AgreeFirst(sorting, m, data) && 0 <= i < j < |r|
        ensures ByColumns(sorting, m, r[i], r[j])
      {
        OutcomeIsLex(sorting, m, 0, data, r);
        LexIsByColumns(sorting, m, r[i], r[j]);
      }
    }
  }

  /** A result of `_performSort`. */
  ghost predicate Performed<R(!new)>(cols: seq<Column<R>>, d: seq<R>, r: seq<R>) {
    if cols == [] then r == d else Outcome(cols, 0, d, r)
  }

  lemma KeysOrder<R>(c: Column<R>, d: seq<R>)
    ensures Sorting.Orders((a: R, b: R) => Compare(c.key(a), c.key(b), if c.ascending then 1 else -1) <= 0, d)
  {
  }

  lemma {:induction false} OutcomeRearranges<R(!new)>(cols: seq<Column<R>>, q: nat, d: seq<R>, r: seq<R>)
    requires q < |cols| && Outcome(cols, q, d, r)
    ensures multiset(r) == multiset(d)
    decreases |cols| - q
  {
    if q < |cols| - 1 {
      var s, parts := OutcomeParts(cols, q, d, r);
      forall k | 0 <= k < |parts| ensures multiset(parts[k]) == multiset(Groups(cols[q], s)[k]) {
        OutcomeRearranges(cols, q + 1, Groups(cols[q], s)[k], parts[k]);
      }
      FlattenSame(cols, q, s, parts);
    }
  }

  lemma FlattenSnoc<R>(parts: seq<seq<R>>, last: seq<R>)
    ensures Flatten(parts + [last]) == Flatten(parts) + last
  {
    FlattenConcat(parts, [last]);
    assert [last][1..] == [];
    assert Flatten([last]) == last + Flatten([]);
  }

  /** The first `i` groups have been sorted into `parts`. */
  ghost predicate PartsSorted<R(!new)>(cols: seq<Column<R>>, q: nat, values: seq<seq<R>>, i: nat, parts: seq<seq<R>>)
    requires q < |cols|
  {
    |parts| == i <= |values| && forall k :: 0 <= k < i ==> Outcome(cols, q, values[k], parts[k])
  }

  lemma PartsSnoc<R(!new)>(cols: seq<Column<R>>, q: nat, values: seq<seq<R>>, i: nat, parts: seq<seq<R>>,
                           sorted: seq<R>)
    requires q < |cols| && i < |values| && PartsSorted(cols, q, values, i, parts)
    requires Outcome(cols, q, values[i], sorted)
    ensures PartsSorted(cols, q, values, i + 1, parts + [sorted])
  {
  }

  lemma OutcomeFrom<R(!new)>(cols: seq<Column<R>>, q: nat, d: seq<R>, s: seq<R>, parts: seq<seq<R>>)
    requires q < |cols| - 1 && multiset(s) == multiset(d) && Ordered(cols[q], s)
    requires PartsSorted(cols, q + 1, Groups(cols[q], s), |Groups(cols[q], s)|, parts)
    ensures Outcome(cols, q, d, Flatten(parts))
  {
  }

  /** Before record `i`: complete groups in `results`, the last one open since `start`. */
  ghost predicate Cutting<R>(c: Column<R>, s: seq<R>, results: seq<seq<R>>, start: nat, i: nat) {
    && start <= i <= |s| && (i > 0 ==> start < i)
    && (forall k :: start < k < i ==> c.same(s[start], s[k]))
    && Groups(c, s) == results + Groups(c, s[start..])
  }

  lemma CutHere<R>(c: Column<R>, s: seq<R>, results: seq<seq<R>>, start: nat, i: nat)
    requires Cutting(c, s, results, start, i) && 0 < i < |s| && !c.same(s[start], s[i])
    ensures Cutting(c, s, results + [s[start..i]], i, i + 1)
  {
    var rest := s[start..];
    forall k | 1 <= k < i - start ensures c.same(rest[0], rest[k]) {
      assert rest[k] == s[start + k];
    }
    GroupCut(c, rest, i - start);
    assert rest[..i - start] == s[start..i];
    assert rest[i - start..] == s[i..];
    assert Groups(c, rest) == [s[start..i]] + Groups(c, s[i..]);
    Associate(results, [s[start..i]], Groups(c, s[i..]));
  }

  lemma CutAtEnd<R>(c: Column<R>, s: seq<R>, results: seq<seq<R>>, start: nat)
    requires Cutting(c, s, results, start, |s|) && s != []
    ensures Groups(c, s) == results + [s[start..]]
  {
    var rest := s[start..];
    forall k | 1 <= k < |rest| ensures c.same(rest[0], rest[k]) {
      assert rest[k] == s[start + k];
    }
    GroupCut(c, rest, |rest|);
    assert rest[..|rest|] == rest && rest[|rest|..] == [];
  }

  /** A group ends where its cells stop being the same as its first. */
  lemma {:induction false} GroupEndAt<R>(c: Column<R>, s: seq<R>, n: nat, e: nat)
    requires 0 < n <= e <= |s|
    requires forall k :: n <= k < e ==> c.same(s[0], s[k])
    requires e < |s| ==> !c.same(s[0], s[e])
    ensures GroupEnd(c, s, n) == e
    decreases e - n
  {
    if n < e {
      GroupEndAt(c, s, n + 1, e);
    }
  }

  lemma GroupCut<R>(c: Column<R>, s: seq<R>, e: nat)
    requires 0 < e <= |s|
    requires forall k :: 1 <= k < e ==> c.same(s[0], s[k])
    requires e < |s| ==> !c.same(s[0], s[e])
    ensures Groups(c, s) == [s[..e]] + Groups(c, s[e..])
  {
    GroupEndAt(c, s, 1, e);
  }

  // ----- Text columns ---------------------------------------------------------------

  /** A text column: the sort keys are trimmed (and lower-cased, if case is ignored), the cells
      compared by `_equals` are not. */
  function TextColumn<R>(cell: R -> string, useCase: bool, ascending: bool): Column<R> {
    Column((a: R) => TextRank(SortKey(cell(a), useCase)), (a: R, b: R) => cell(a) == cell(b), ascending)
  }

  /** On given data a text column sorts right if no two of its cells differ in nothing but what
      the sort keys leave out. */
  lemma TextAgreesIff<R>(cell: R -> string, useCase: bool, ascending: bool, d: seq<R>)
    ensures AgreeOn(TextColumn(cell, useCase, ascending), d) <==>
      forall i, j :: 0 <= i < |d| && 0 <= j < |d| && SortKey(cell(d[i]), useCase) == SortKey(cell(d[j]), useCase) ==>
        cell(d[i]) == cell(d[j])
  {
    forall i, j | 0 <= i < |d| && 0 <= j < |d|
      ensures SortKey(cell(d[i]), useCase) == SortKey(cell(d[j]), useCase) <==>
        TextRank(SortKey(cell(d[i]), useCase)) == TextRank(SortKey(cell(d[j]), useCase))
    {
      RankOrder(SortKey(cell(d[i]), useCase), SortKey(cell(d[j]), useCase));
    }
  }

  lemma BlankKept()
    ensures SortKey(" a", true) == SortKey("a", true) == "a"
  {
    assert TrimLeft(" a") == TrimLeft("a") == "a" by {
      assert " a"[1..] == "a";
    }
    assert TrimRight("a") == "a";
  }

  /** Two text columns and two records that the sort leaves in the wrong order: the cells " a" and
      "a" have one sort key but are not the same, so the second column never compares them. */
  lemma BlankSortsWrong()
    ensures var c := TextColumn((a: (string, string)) => a.0, true, true);
      var n := TextColumn((a: (string, string)) => a.1, true, true);
      var d := [(" a", "y"), ("a", "x")];
      Performed([c, n], d, d) && !LexSorted([c, n], 0, d)
  {
    var c := TextColumn((a: (string, string)) => a.0, true, true);
    var n := TextColumn((a: (string, string)) => a.1, true, true);
    var a, b := (" a", "y"), ("a", "x");
    BlankKept();
    assert TrimLeft("x") == "x" && TrimRight("x") == "x" && TrimLeft("y") == "y" && TrimRight("y") == "y";
    assert Less("x", "y");
    RankOrder("x", "y");
    assert SortKey("x", true) == "x" && SortKey("y", true) == "y";
    assert a.0[0] != b.0[0];
    assert !c.same(a, b);
    assert Rank(c, a) == Rank(c, b) && Rank(n, a) > Rank(n, b);
    SplitOutcome(c, n, a, b);
  }
}
