// Which results the multi-key sort may have on given data: records that can come out
// in a given order, and when equal cells always come out side by side.

module SortOutcomes {
  import opened MultiSort
  import Sorting
  import opened Sequences

  /** Key and cell come from one field: `same` is an equivalence, and equal cells have equal keys. */
  ghost predicate Cellwise<R(!new)>(c: Column<R>) {
    && (forall a :: c.same(a, a))
    && (forall a, b :: c.same(a, b) ==> c.same(b, a) && c.key(a) == c.key(b))
    && (forall a, b, x :: c.same(a, b) && c.same(b, x) ==> c.same(a, x))
  }

  ghost predicate CellwiseTo<R(!new)>(cols: seq<Column<R>>, levels: nat) {
    levels <= |cols| && forall k :: 0 <= k < levels ==> Cellwise(cols[k])
  }

  // ----- Every list has an outcome ---------------------------------------------------

  /** Where a record of rank `v` may be put into an ordered list. */
  lemma {:induction false} Slot<R>(c: Column<R>, s: seq<R>, v: real) returns (k: nat)
    requires Ordered(c, s)
    ensures k <= |s|
    ensures forall i :: 0 <= i < k ==> Rank(c, s[i]) <= v
    ensures forall i :: k <= i < |s| ==> v <= Rank(c, s[i])
  {
    k := |s|;
    while k > 0 && Rank(c, s[k - 1]) > v
      invariant k <= |s| && forall i :: k <= i < |s| ==> v <= Rank(c, s[i])
    {
      k := k - 1;
    }
  }

  /** Records of one rank can stand side by side in an ordered list. */
  lemma OrderedAround<R>(c: Column<R>, block: seq<R>, rest: seq<R>) returns (a: seq<R>, b: seq<R>)
    requires block != [] && Ordered(c, rest)
    requires forall i :: 0 <= i < |block| ==> Rank(c, block[i]) == Rank(c, block[0])
    ensures Ordered(c, a + block + b) && rest == a + b
  {
    var k := Slot(c, rest, Rank(c, block[0]));
    a, b := rest[..k], rest[k..];
    var s := a + block + b;
    forall i, j | 0 <= i < j < |s| ensures Rank(c, s[i]) <= Rank(c, s[j]) {
      assert s[i] == if i < k then rest[i] else if i < k + |block| then block[i - k] else rest[i - |block|];
      assert s[j] == if j < k then rest[j] else if j < k + |block| then block[j - k] else rest[j - |block|];
    }
  }

  lemma {:induction false} OrderedExists<R>(c: Column<R>, d: seq<R>) returns (s: seq<R>)
    ensures multiset(s) == multiset(d) && Ordered(c, s)
    decreases |d|
  {
    s := [];
    if d != [] {
      var rest := OrderedExists(c, d[1..]);
      var a, b := OrderedAround(c, [d[0]], rest);
      s := a + [d[0]] + b;
      assert d == [d[0]] + d[1..];
    }
  }

  lemma {:induction false} OutcomeExists<R(!new)>(cols: seq<Column<R>>, q: nat, d: seq<R>) returns (r: seq<R>)
    requires q < |cols|
    ensures Outcome(cols, q, d, r)
    decreases |cols| - q, 0
  {
    r := OrderedExists(cols[q], d);
    if q < |cols| - 1 {
      var parts := PartsExist(cols, q + 1, Groups(cols[q], r));
      OutcomeFrom(cols, q, d, r, parts);
      r := Flatten(parts);
    }
  }

  lemma {:induction false} PartsExist<R(!new)>(cols: seq<Column<R>>, q: nat, values: seq<seq<R>>)
    returns (parts: seq<seq<R>>)
    requires q < |cols|
    ensures PartsSorted(cols, q, values, |values|, parts)
    decreases |cols| - q, |values| + 1
  {
    parts := [];
    if values != [] {
      var init := values[..|values| - 1];
      parts := PartsExist(cols, q, init);
      var last := OutcomeExists(cols, q, values[|values| - 1]);
      PartsMore(cols, q, init, parts, values[|values| - 1], last);
      assert init + [values[|values| - 1]] == values;
      parts := parts + [last];
    }
  }

  lemma PartsMore<R(!new)>(cols: seq<Column<R>>, q: nat, values: seq<seq<R>>, parts: seq<seq<R>>, value: seq<R>,
                           part: seq<R>)
    requires q < |cols| && PartsSorted(cols, q, values, |values|, parts) && Outcome(cols, q, value, part)
    ensures PartsSorted(cols, q, values + [value], |values| + 1, parts + [part])
  {
  }

  // ----- Records that come out in a given order ----------------------------------------

  /** The records of `block` stand in `r` in this order, perhaps with others between them. */
  ghost predicate InOrder<R>(block: seq<R>, r: seq<R>)
    decreases |block|
  {
    block == [] || exists p :: 0 <= p < |r| && r[p] == block[0] && InOrder(block[1..], r[p + 1..])
  }

  lemma NextInOrder<R>(x: R, block: seq<R>, r: seq<R>) returns (p: nat)
    requires InOrder([x] + block, r)
    ensures p < |r| && r[p] == x && InOrder(block, r[p + 1..])
  {
    var whole := [x] + block;
    assert whole[1..] == block;
    p :| 0 <= p < |r| && r[p] == whole[0] && InOrder(whole[1..], r[p + 1..]);
  }

  lemma InOrderFrom<R>(x: R, block: seq<R>, r: seq<R>, p: nat)
    requires p < |r| && r[p] == x && InOrder(block, r[p + 1..])
    ensures InOrder([x] + block, r)
  {
    var whole := [x] + block;
    assert whole[1..] == block && whole[0] == x;
    assert r[p] == whole[0] && InOrder(whole[1..], r[p + 1..]);
  }

  lemma InOrderLater<R>(block: seq<R>, x: seq<R>, r: seq<R>)
    requires InOrder(block, r)
    ensures InOrder(block, x + r)
  {
    if block != [] {
      assert block == [block[0]] + block[1..];
      var p := NextInOrder(block[0], block[1..], r);
      assert (x + r)[|x| + p] == r[p] && (x + r)[|x| + p + 1..] == r[p + 1..];
      InOrderFrom(block[0], block[1..], x + r, |x| + p);
    }
  }

  lemma {:induction false} InOrderConcat<R>(a: seq<R>, b: seq<R>, x: seq<R>, y: seq<R>)
    requires InOrder(a, x) && InOrder(b, y)
    ensures InOrder(a + b, x + y)
    decreases |a|
  {
    if a == [] {
      Nothing(b);
      InOrderLater(b, x, y);
    } else {
      assert a == [a[0]] + a[1..];
      var p := NextInOrder(a[0], a[1..], x);
      InOrderConcat(a[1..], b, x[p + 1..], y);
      TakeDrop(x, y, p + 1);
      InOrderFrom(a[0], a[1..] + b, x + y, p);
      Associate([a[0]], a[1..], b);
    }
  }

  lemma InOrderWithin<R>(block: seq<R>, x: seq<R>, r: seq<R>, y: seq<R>)
    requires InOrder(block, r)
    ensures InOrder(block, x + r + y)
  {
    var none: seq<R> := [];
    InOrderLater(block, x, r);
    assert InOrder(none, y);
    InOrderConcat(block, none, x + r, y);
    Nothing(block);
  }

  lemma {:induction false} InOrderSelf<R>(block: seq<R>)
    ensures InOrder(block, block)
    decreases |block|
  {
    if block != [] {
      InOrderSelf(block[1..]);
      InOrderFrom(block[0], block[1..], block, 0);
      assert block == [block[0]] + block[1..];
    }
  }

  lemma InOrderOne<R>(x: R, r: seq<R>)
    requires x in r
    ensures InOrder([x], r)
  {
    var p :| 0 <= p < |r| && r[p] == x;
    assert [x][1..] == [] && InOrder([], r[p + 1..]);
  }

  lemma {:induction false} InOrderFull<R>(block: seq<R>, r: seq<R>)
    requires InOrder(block, r)
    ensures |block| <= |r| && (|block| == |r| ==> block == r)
    decreases |block|
  {
    if block != [] {
      var p :| 0 <= p < |r| && r[p] == block[0] && InOrder(block[1..], r[p + 1..]);
      InOrderFull(block[1..], r[p + 1..]);
      if |block| == |r| {
        assert block == [block[0]] + block[1..] && r == [r[0]] + r[1..];
      }
    }
  }

  /** Side by side in equal cells, a block lies in one group. */
  lemma {:induction false} BlockInGroup<R(!new)>(c: Column<R>, a: seq<R>, block: seq<R>, b: seq<R>) returns (g: nat)
    requires Cellwise(c) && block != []
    requires forall i :: 0 <= i < |block| ==> c.same(block[0], block[i])
    ensures g < |Groups(c, a + block + b)| && multiset(block) <= multiset(Groups(c, a + block + b)[g])
    decreases |a|
  {
    var s := a + block + b;
    var e := GroupEnd(c, s, 1);
    if e <= |a| {
      TakeDrop(a, block, e);
      TakeDrop(a + block, b, e);
      g := BlockInGroup(c, a[e..], block, b);
      LaterGroup(c, s, e, g);
      g := g + 1;
    } else {
      BlockReached(c, a, block, b, e);
      BlockWithin(a, block, b, e);
      FirstGroup(c, s, e);
      g := 0;
    }
  }

  lemma LaterGroup<R>(c: Column<R>, s: seq<R>, e: nat, k: nat)
    requires s != [] && e == GroupEnd(c, s, 1) && k < |Groups(c, s[e..])|
    ensures k + 1 < |Groups(c, s)| && Groups(c, s)[k + 1] == Groups(c, s[e..])[k]
  {
    FirstGroup(c, s, e);
  }

  lemma BlockWithin<T>(a: seq<T>, block: seq<T>, b: seq<T>, e: nat)
    requires |a| + |block| <= e <= |a| + |block| + |b|
    ensures multiset(block) <= multiset((a + block + b)[..e])
  {
    assert (a + block + b)[..e] == a + block + b[..e - |a| - |block|];
  }

  lemma BlockReached<R(!new)>(c: Column<R>, a: seq<R>, block: seq<R>, b: seq<R>, e: nat)
    requires Cellwise(c) && block != []
    requires forall i :: 0 <= i < |block| ==> c.same(block[0], block[i])
    requires var s := a + block + b; e == GroupEnd(c, s, 1) && |a| < e
    ensures |a| + |block| <= e
  {
    var s := a + block + b;
    assert s[|a|] == block[0] && c.same(s[0], block[0]);
    forall m | |a| <= m < |a| + |block| ensures c.same(s[0], s[m]) {
      assert s[m] == block[m - |a|];
      BlockSame(c, s[0], block, m - |a|);
    }
  }

  lemma BlockSame<R(!new)>(c: Column<R>, x: R, block: seq<R>, i: nat)
    requires Cellwise(c) && i < |block| && c.same(x, block[0]) && c.same(block[0], block[i])
    ensures c.same(x, block[i])
  {
  }

  /** Between unequal cells the groups are cut. */
  lemma {:induction false} GroupsCut<R(!new)>(c: Column<R>, x: seq<R>, y: seq<R>)
    requires Cellwise(c) && x != [] && y != [] && !c.same(x[|x| - 1], y[0])
    ensures Groups(c, x + y) == Groups(c, x) + Groups(c, y)
    decreases |x|
  {
    var e := GroupEnd(c, x, 1);
    LastOfGroup(c, x, y[0], e);
    FirstCut(c, x, y, e);
    FirstGroup(c, x, e);
    if e < |x| {
      GroupsCut(c, x[e..], y);
      Associate([x[..e]], Groups(c, x[e..]), Groups(c, y));
    } else {
      Nothing(y);
      Nothing([x[..e]]);
    }
  }

  lemma FirstGroup<R>(c: Column<R>, x: seq<R>, e: nat)
    requires x != [] && e == GroupEnd(c, x, 1)
    ensures Groups(c, x) == [x[..e]] + Groups(c, x[e..]) && Groups(c, []) == []
    ensures e == |x| ==> x[e..] == []
  {
  }

  lemma LastOfGroup<R(!new)>(c: Column<R>, x: seq<R>, y: R, e: nat)
    requires Cellwise(c) && x != [] && e == GroupEnd(c, x, 1) && !c.same(x[|x| - 1], y)
    ensures e == |x| ==> !c.same(x[0], y)
  {
    if e == |x| {
      assert c.same(x[0], x[|x| - 1]) && c.same(x[|x| - 1], x[0]);
    }
  }

  lemma FirstCut<R>(c: Column<R>, x: seq<R>, y: seq<R>, e: nat)
    requires 0 < e <= |x| && (forall k :: 1 <= k < e ==> c.same(x[0], x[k]))
    requires e < |x| ==> !c.same(x[0], x[e])
    requires e == |x| && y != [] ==> !c.same(x[0], y[0])
    ensures Groups(c, x + y) == [x[..e]] + Groups(c, x[e..] + y)
  {
    var s := x + y;
    TakeDrop(x, y, e);
    forall k | 1 <= k < e ensures c.same(s[0], s[k]) {
      assert s[k] == x[k] && s[0] == x[0];
    }
    assert s[0] == x[0] && (e < |x| ==> s[e] == x[e]) && (e == |x| && y != [] ==> s[e] == y[0]);
    GroupCut(c, s, e);
  }

  /** Side by side in cells that change from each to the next, a block keeps its order. */
  lemma {:induction false} CutBlock<R(!new)>(cols: seq<Column<R>>, q: nat, a: seq<R>, block: seq<R>, b: seq<R>)
    returns (parts: seq<seq<R>>)
    requires q < |cols| - 1 && Cellwise(cols[q]) && block != []
    requires forall i :: 0 < i < |block| ==> !cols[q].same(block[i - 1], block[i])
    ensures PartsSorted(cols, q + 1, Groups(cols[q], a + block + b), |Groups(cols[q], a + block + b)|, parts)
    ensures InOrder(block, Flatten(parts))
    decreases |block|
  {
    if |block| == 1 {
      assert block == [block[0]];
      parts := PartsHolding(cols, q, a + block + b, |a|);
    } else {
      var x, y := a + [block[0]], [] + block[1..] + b;
      var first := PartsHolding(cols, q, x, |a|);
      var rest := CutBlock(cols, q, [], block[1..], b);
      GroupsCut(cols[q], x, y);
      CutAfterFirst(a, block, b);
      PartsConcat(cols, q + 1, Groups(cols[q], x), first, Groups(cols[q], y), rest);
      InOrderConcat([block[0]], block[1..], Flatten(first), Flatten(rest));
      FlattenConcat(first, rest);
      parts := first + rest;
    }
  }

  lemma CutAfterFirst<R>(a: seq<R>, block: seq<R>, b: seq<R>)
    requires block != []
    ensures a + block + b == (a + [block[0]]) + ([] + block[1..] + b)
    ensures [block[0]] + block[1..] == block
  {
  }

  /** Sorted groups of a list, and one record of it. */
  lemma PartsHolding<R(!new)>(cols: seq<Column<R>>, q: nat, s: seq<R>, i: nat) returns (parts: seq<seq<R>>)
    requires q < |cols| - 1 && i < |s|
    ensures PartsSorted(cols, q + 1, Groups(cols[q], s), |Groups(cols[q], s)|, parts)
    ensures InOrder([s[i]], Flatten(parts))
  {
    parts := PartsExist(cols, q + 1, Groups(cols[q], s));
    PartsRearrange(cols, q, s, parts);
    Sorting.SameMembers(Flatten(parts), s);
    assert s[i] in s;
    InOrderOne(s[i], Flatten(parts));
  }

  lemma PartsConcat<R(!new)>(cols: seq<Column<R>>, q: nat, v: seq<seq<R>>, p: seq<seq<R>>, w: seq<seq<R>>,
                             r: seq<seq<R>>)
    requires q < |cols| && PartsSorted(cols, q, v, |v|, p) && PartsSorted(cols, q, w, |w|, r)
    ensures PartsSorted(cols, q, v + w, |v + w|, p + r)
  {
  }

  lemma PartsRearrange<R(!new)>(cols: seq<Column<R>>, q: nat, s: seq<R>, parts: seq<seq<R>>)
    requires q < |cols| - 1 && PartsSorted(cols, q + 1, Groups(cols[q], s), |Groups(cols[q], s)|, parts)
    ensures multiset(Flatten(parts)) == multiset(s)
  {
    forall k | 0 <= k < |parts| ensures multiset(parts[k]) == multiset(Groups(cols[q], s)[k]) {
      OutcomeRearranges(cols, q + 1, Groups(cols[q], s)[k], parts[k]);
    }
    FlattenSame(cols, q, s, parts);
  }

  /** The records of `block` have equal cells in the columns q..k; in column `k` they have
      equal ranks, but the cell changes from each to the next. */
  ghost predicate Shuffles<R>(cols: seq<Column<R>>, q: nat, k: nat, block: seq<R>)
    requires k < |cols|
  {
    && (forall j, i :: q <= j < k && 0 <= i < |block| ==> cols[j].same(block[0], block[i]))
    && (forall i :: 0 <= i < |block| ==> cols[k].key(block[0]) == cols[k].key(block[i]))
    && (forall i :: 0 < i < |block| ==> !cols[k].same(block[i - 1], block[i]))
  }

  /** Such records come out of the sort in any such order, whatever else is sorted with them. */
  lemma {:induction false} BlockOutcome<R(!new)>(cols: seq<Column<R>>, q: nat, k: nat, d: seq<R>, block: seq<R>)
    returns (r: seq<R>)
    requires q <= k < |cols| && CellwiseTo(cols, k + 1) && Shuffles(cols, q, k, block)
    requires block != [] && multiset(block) <= multiset(d)
    ensures Outcome(cols, q, d, r) && InOrder(block, r)
    decreases k - q
  {
    var others := Without(d, block);
    var rest := OrderedExists(cols[q], others);
    BlockRank(cols, q, k, block);
    var a, b := OrderedAround(cols[q], block, rest);
    var s := a + block + b;
    assert multiset(s) == multiset(d);
    InOrderSelf(block);
    InOrderWithin(block, a, block, b);
    if q == |cols| - 1 {
      r := s;
    } else {
      var parts := BlockParts(cols, q, k, a, block, b);
      OutcomeFrom(cols, q, d, s, parts);
      r := Flatten(parts);
    }
  }

  lemma BlockRank<R(!new)>(cols: seq<Column<R>>, q: nat, k: nat, block: seq<R>)
    requires q <= k < |cols| && CellwiseTo(cols, k + 1) && Shuffles(cols, q, k, block) && block != []
    ensures forall i :: 0 <= i < |block| ==> Rank(cols[q], block[i]) == Rank(cols[q], block[0])
  {
    forall i | 0 <= i < |block| ensures cols[q].key(block[i]) == cols[q].key(block[0]) {
      assert Cellwise(cols[q]);
      assert q < k ==> cols[q].same(block[0], block[i]);
    }
  }

  lemma {:induction false} BlockParts<R(!new)>(cols: seq<Column<R>>, q: nat, k: nat, a: seq<R>, block: seq<R>,
                                               b: seq<R>)
    returns (parts: seq<seq<R>>)
    requires q <= k < |cols| && q < |cols| - 1 && CellwiseTo(cols, k + 1) && Shuffles(cols, q, k, block) && block != []
    ensures PartsSorted(cols, q + 1, Groups(cols[q], a + block + b), |Groups(cols[q], a + block + b)|, parts)
    ensures InOrder(block, Flatten(parts))
    decreases k - q, 0
  {
    if q == k {
      parts := CutBlock(cols, q, a, block, b);
    } else {
      assert Cellwise(cols[q]);
      var groups := Groups(cols[q], a + block + b);
      var g := BlockInGroup(cols[q], a, block, b);
      var part := BlockOutcome(cols, q + 1, k, groups[g], block);
      parts := PartsExist(cols, q + 1, groups);
      parts := parts[g := part];
      FlattenAt(parts, g);
      InOrderWithin(block, Flatten(parts[..g]), part, Flatten(parts[g + 1..]));
    }
  }

  lemma FlattenAt<R>(parts: seq<seq<R>>, g: nat)
    requires g < |parts|
    ensures Flatten(parts) == Flatten(parts[..g]) + parts[g] + Flatten(parts[g + 1..])
  {
    var before := parts[..g] + [parts[g]];
    SplitAt(parts, g);
    FlattenConcat(before, parts[g + 1..]);
    FlattenSnoc(parts[..g], parts[g]);
  }

  lemma SplitAt<T>(s: seq<T>, g: nat)
    requires g < |s|
    ensures s == (s[..g] + [s[g]]) + s[g + 1..]
  {
  }

  lemma MultisetLess<T>(a: multiset<T>, b: multiset<T>, x: T)
    requires multiset{x} + a <= b + multiset{x}
    ensures a <= b
  {
    forall y ensures a[y] <= b[y] {
      assert (multiset{x} + a)[y] <= (b + multiset{x})[y];
    }
  }

  /** What is left of `d` without the records of `block`. */
  lemma {:induction false} Without<R>(d: seq<R>, block: seq<R>) returns (rest: seq<R>)
    requires multiset(block) <= multiset(d)
    ensures multiset(rest) + multiset(block) == multiset(d)
    decreases |block|
  {
    rest := d;
    if block != [] {
      assert block == [block[0]] + block[1..];
      assert block[0] in multiset(d);
      var i :| 0 <= i < |d| && d[i] == block[0];
      var fewer := d[..i] + d[i + 1..];
      assert d == d[..i] + [d[i]] + d[i + 1..];
      assert multiset(d) == multiset(fewer) + multiset{block[0]};
      assert multiset(block) == multiset{block[0]} + multiset(block[1..]);
      MultisetLess(multiset(block[1..]), multiset(fewer), block[0]);
      rest := Without(fewer, block[1..]);
    }
  }

  // ----- One column, on given data ---------------------------------------------------------

  /** On given data a first column sorts right under every second column exactly when its keys
      tell the cells of that data apart. */
  lemma AgreesIff<R(!new)>(c: Column<R>, d: seq<R>)
    requires Cellwise(c)
    ensures AgreeOn(c, d) <==>
      forall n: Column<R>, r: seq<R> :: Outcome([c, n], 0, d, r) ==> LexSorted([c, n], 0, r)
  {
    if AgreeOn(c, d) {
      forall n: Column<R>, r: seq<R> | Outcome([c, n], 0, d, r) ensures LexSorted([c, n], 0, r) {
        assert [c, n][..2] == [c, n];
        OutcomeIsLex([c, n], 2, 0, d, r);
      }
    } else {
      var i, j :| 0 <= i < |d| && 0 <= j < |d| && c.same(d[i], d[j]) != (c.key(d[i]) == c.key(d[j]));
      assert d[i] in d && d[j] in d;
      var n, r := WrongWay(c, d, d[i], d[j]);
    }
  }

  /** A second column under which `a` comes out before `b`, though it puts `b` first. */
  lemma WrongWay<R(!new)>(c: Column<R>, d: seq<R>, a: R, b: R) returns (n: Column<R>, r: seq<R>)
    requires Cellwise(c) && a in d && b in d && !c.same(a, b) && c.key(a) == c.key(b)
    ensures Outcome([c, n], 0, d, r) && !LexSorted([c, n], 0, r)
  {
    n := Column((z: R) => if z == a then 1.0 else 0.0, (u: R, w: R) => u == w, true);
    var cols, block := [c, n], [a, b];
    TwoAmong(d, a, b);
    r := BlockOutcome(cols, 0, 0, d, block);
    assert block == [a] + ([b] + []);
    var i := NextInOrder(a, [b] + [], r);
    var j := NextInOrder(b, [], r[i + 1..]);
    OutOfOrder(c, n, r, i, i + 1 + j);
  }

  lemma TwoAmong<T>(d: seq<T>, a: T, b: T)
    requires a in d && b in d && a != b
    ensures multiset([a, b]) <= multiset(d)
  {
    assert a in multiset(d) && b in multiset(d);
  }

  lemma OutOfOrder<R>(c: Column<R>, n: Column<R>, r: seq<R>, i: nat, j: nat)
    requires i < j < |r| && Rank(c, r[i]) == Rank(c, r[j]) && Rank(n, r[i]) > Rank(n, r[j])
    ensures !LexSorted([c, n], 0, r)
  {
    assert !LexLe([c, n], 1, r[i], r[j]) && !LexLe([c, n], 0, r[i], r[j]);
  }

  // ----- Equal cells side by side -------------------------------------------------------------

  ghost predicate AgreeTo<R>(cols: seq<Column<R>>, k: nat, a: R, b: R)
    requires k <= |cols|
  {
    forall j :: 0 <= j < k ==> cols[j].same(a, b)
  }

  /** Records that agree in the first columns, up to any of `levels`, stand side by side. */
  ghost predicate Together<R>(cols: seq<Column<R>>, levels: nat, r: seq<R>)
    requires levels <= |cols|
  {
    forall k, i, j, l :: 0 < k <= levels && 0 <= i < j < l < |r| && AgreeTo(cols, k, r[i], r[l]) ==>
      AgreeTo(cols, k, r[i], r[j])
  }

  /** Records `a` and `z` agree up to column `k` and `b` with them below it; in column `k` it has
      their key in another cell. */
  ghost predicate Tears<R>(cols: seq<Column<R>>, k: nat, a: R, b: R, z: R)
    requires k < |cols|
  {
    AgreeTo(cols, k + 1, a, z) && AgreeTo(cols, k, a, b) && cols[k].key(a) == cols[k].key(b) && !cols[k].same(a, b)
  }

  /** Three records of the data of which the second can come between the others. */
  ghost predicate Clash<R(!new)>(cols: seq<Column<R>>, levels: nat, d: multiset<R>)
    requires levels <= |cols|
  {
    exists k, a, b, z :: 0 <= k < levels && multiset{a, b, z} <= d && Tears(cols, k, a, b, z)
  }

  ghost predicate AlwaysTogether<R(!new)>(cols: seq<Column<R>>, levels: nat, d: seq<R>)
    requires levels <= |cols|
  {
    forall r: seq<R> :: Performed(cols, d, r) ==> Together(cols, levels, r)
  }

  /** A clash can always come out as it should not. */
  lemma ClashTears<R(!new)>(cols: seq<Column<R>>, levels: nat, d: seq<R>) returns (r: seq<R>)
    requires CellwiseTo(cols, levels) && Clash(cols, levels, multiset(d))
    ensures Performed(cols, d, r) && !Together(cols, levels, r)
  {
    var k, a, b, z :| 0 <= k < levels && multiset{a, b, z} <= multiset(d) && Tears(cols, k, a, b, z);
    r := TearsOutcome(cols, levels, d, k, a, b, z);
    var i, j, l := ThreeInOrder(a, b, z, r);
    TearsApart(cols, levels, k, r, i, j, l);
  }

  lemma TearsOutcome<R(!new)>(cols: seq<Column<R>>, levels: nat, d: seq<R>, k: nat, a: R, b: R, z: R)
    returns (r: seq<R>)
    requires CellwiseTo(cols, levels) && k < levels && multiset{a, b, z} <= multiset(d) && Tears(cols, k, a, b, z)
    ensures Outcome(cols, 0, d, r) && InOrder([a] + ([b] + ([z] + [])), r)
  {
    var block := [a, b, z];
    TearsShuffles(cols, k, a, b, z);
    assert multiset(block) == multiset{a, b, z};
    r := BlockOutcome(cols, 0, k, d, block);
    assert block == [a] + ([b] + ([z] + []));
  }

  lemma TearsApart<R(!new)>(cols: seq<Column<R>>, levels: nat, k: nat, r: seq<R>, i: nat, j: nat, l: nat)
    requires k < levels <= |cols| && i < j < l < |r| && Tears(cols, k, r[i], r[j], r[l])
    ensures !Together(cols, levels, r)
  {
    assert AgreeTo(cols, k + 1, r[i], r[l]) && !AgreeTo(cols, k + 1, r[i], r[j]);
  }

  lemma TearsShuffles<R(!new)>(cols: seq<Column<R>>, k: nat, a: R, b: R, z: R)
    requires CellwiseTo(cols, k + 1) && Tears(cols, k, a, b, z)
    ensures Shuffles(cols, 0, k, [a, b, z])
  {
    var block := [a, b, z];
    assert Cellwise(cols[k]) && cols[k].same(a, z);
    forall j, i | 0 <= j < k && 0 <= i < 3 ensures cols[j].same(block[0], block[i]) {
      assert Cellwise(cols[j]);
    }
    Between(cols[k], a, b, z);
  }

  lemma Between<R(!new)>(c: Column<R>, a: R, b: R, z: R)
    requires Cellwise(c) && c.same(a, z) && !c.same(a, b)
    ensures !c.same(b, z)
  {
    assert c.same(b, z) ==> c.same(z, b);
  }

  lemma ThreeInOrder<R>(a: R, b: R, z: R, r: seq<R>) returns (i: nat, j: nat, l: nat)
    requires InOrder([a] + ([b] + ([z] + [])), r)
    ensures i < j < l < |r| && r[i] == a && r[j] == b && r[l] == z
  {
    i := NextInOrder(a, [b] + ([z] + []), r);
    var m := NextInOrder(b, [z] + [], r[i + 1..]);
    var n := NextInOrder(z, [], r[i + 1..][m + 1..]);
    j, l := i + 1 + m, i + 1 + m + 1 + n;
  }

  // ----- Without a clash ------------------------------------------------------------------------

  /** All records agree in the columns before `q`. */
  ghost predicate Alike<R>(cols: seq<Column<R>>, q: nat, s: seq<R>)
    requires q <= |cols|
  {
    forall i, j :: 0 <= i < |s| && 0 <= j < |s| ==> AgreeTo(cols, q, s[i], s[j])
  }

  /** Records with equal cells in this column stand side by side. */
  ghost predicate Unbroken<R>(c: Column<R>, s: seq<R>) {
    forall i, j, l :: 0 <= i < j < l < |s| && c.same(s[i], s[l]) ==> c.same(s[i], s[j])
  }

  lemma OrderedUnbroken<R(!new)>(cols: seq<Column<R>>, levels: nat, q: nat, s: seq<R>)
    requires q < levels && CellwiseTo(cols, levels) && Alike(cols, q, s) && Ordered(cols[q], s)
    requires !Clash(cols, levels, multiset(s))
    ensures Unbroken(cols[q], s)
  {
    var c := cols[q];
    forall i, j, l | 0 <= i < j < l < |s| && c.same(s[i], s[l]) ensures c.same(s[i], s[j]) {
      assert Cellwise(c);
      assert Rank(c, s[i]) <= Rank(c, s[j]) <= Rank(c, s[l]) == Rank(c, s[i]);
      if !c.same(s[i], s[j]) {
        ThreeAmong(s, i, j, l);
        assert AgreeTo(cols, q, s[i], s[l]);
        assert Tears(cols, q, s[i], s[j], s[l]);
        assert Clash(cols, levels, multiset(s));
      }
    }
  }

  lemma ThreeAmong<R>(s: seq<R>, i: nat, j: nat, l: nat)
    requires i < j < l < |s|
    ensures multiset{s[i], s[j], s[l]} <= multiset(s)
  {
    assert s == s[..i] + [s[i]] + s[i + 1..j] + [s[j]] + s[j + 1..l] + [s[l]] + s[l + 1..];
  }

  /** The first group holds the records with the first cell. */
  lemma FirstGroupCells<R(!new)>(c: Column<R>, s: seq<R>)
    requires Cellwise(c) && s != [] && Unbroken(c, s)
    ensures var e := GroupEnd(c, s, 1);
      && (forall i :: 0 <= i < e ==> c.same(s[0], s[i])) && (forall i :: e <= i < |s| ==> !c.same(s[0], s[i]))
      && Unbroken(c, s[e..])
  {
    var e := GroupEnd(c, s, 1);
    forall i | e <= i < |s| ensures !c.same(s[0], s[i]) {
      assert !c.same(s[0], s[e]);
    }
    UnbrokenFrom(c, s, e);
  }

  lemma UnbrokenFrom<R>(c: Column<R>, s: seq<R>, e: nat)
    requires e <= |s| && Unbroken(c, s)
    ensures Unbroken(c, s[e..])
  {
    var t := s[e..];
    forall i, j, l | 0 <= i < j < l < |t| && c.same(t[i], t[l]) ensures c.same(t[i], t[j]) {
      assert t[i] == s[e + i] && t[j] == s[e + j] && t[l] == s[e + l];
    }
  }

  /** The groups of an unbroken list, each rearranged with equal cells side by side. */
  ghost predicate PartsTogether<R>(cols: seq<Column<R>>, levels: nat, groups: seq<seq<R>>, parts: seq<seq<R>>)
    requires levels <= |cols|
  {
    |parts| == |groups| && forall k :: 0 <= k < |parts| ==>
      multiset(parts[k]) == multiset(groups[k]) && Together(cols, levels, parts[k])
  }

  lemma PartsLater<R>(cols: seq<Column<R>>, levels: nat, g: seq<R>, later: seq<seq<R>>, parts: seq<seq<R>>)
    requires levels <= |cols| && PartsTogether(cols, levels, [g] + later, parts)
    ensures parts != [] && multiset(parts[0]) == multiset(g) && Together(cols, levels, parts[0])
    ensures PartsTogether(cols, levels, later, parts[1..])
  {
    forall k | 0 <= k < |later| ensures parts[1..][k] == parts[k + 1] && ([g] + later)[k + 1] == later[k] {
    }
  }

  lemma {:induction false} FlattenTogether<R(!new)>(cols: seq<Column<R>>, levels: nat, q: nat, s: seq<R>,
                                                    parts: seq<seq<R>>)
    requires q < levels && CellwiseTo(cols, levels) && Alike(cols, q, s) && Unbroken(cols[q], s)
    requires PartsTogether(cols, levels, Groups(cols[q], s), parts)
    ensures Together(cols, levels, Flatten(parts)) && multiset(Flatten(parts)) == multiset(s)
    decreases |s|
  {
    if s != [] {
      var e := GroupEnd(cols[q], s, 1);
      FirstGroupCells(cols[q], s);
      FirstGroup(cols[q], s, e);
      PartsLater(cols, levels, s[..e], Groups(cols[q], s[e..]), parts);
      AlikeFrom(cols, q, s, e);
      FlattenTogether(cols, levels, q, s[e..], parts[1..]);
      JoinTogether(cols, levels, q, s, e, parts[0], Flatten(parts[1..]));
      Halves(s, e, parts[0], Flatten(parts[1..]));
      FlattenFirst(parts);
    }
  }

  lemma FlattenFirst<R>(parts: seq<seq<R>>)
    requires parts != []
    ensures Flatten(parts) == parts[0] + Flatten(parts[1..])
  {
  }

  lemma Halves<R>(s: seq<R>, e: nat, a: seq<R>, b: seq<R>)
    requires e <= |s| && multiset(a) == multiset(s[..e]) && multiset(b) == multiset(s[e..])
    ensures multiset(a + b) == multiset(s)
  {
    assert s == s[..e] + s[e..];
  }

  lemma AlikeFrom<R>(cols: seq<Column<R>>, q: nat, s: seq<R>, e: nat)
    requires q <= |cols| && e <= |s| && Alike(cols, q, s)
    ensures Alike(cols, q, s[e..])
  {
  }

  /** Every member of `a` has the first cell of `s`, no member of `b` has. */
  lemma JoinTogether<R(!new)>(cols: seq<Column<R>>, levels: nat, q: nat, s: seq<R>, e: nat, a: seq<R>, b: seq<R>)
    requires q < levels && CellwiseTo(cols, levels) && Alike(cols, q, s) && 0 < e <= |s|
    requires forall i :: 0 <= i < e ==> cols[q].same(s[0], s[i])
    requires forall i :: e <= i < |s| ==> !cols[q].same(s[0], s[i])
    requires multiset(a) == multiset(s[..e]) && multiset(b) == multiset(s[e..])
    requires Together(cols, levels, a) && Together(cols, levels, b)
    ensures Together(cols, levels, a + b)
  {
    var r, c := a + b, cols[q];
    assert Cellwise(c);
    Sides(cols, q, s, e, a, b);
    forall k, i, j, l | 0 < k <= levels && 0 <= i < j < l < |r| && AgreeTo(cols, k, r[i], r[l])
      ensures AgreeTo(cols, k, r[i], r[j])
    {
      if l < |a| {
        assert r[i] == a[i] && r[j] == a[j] && r[l] == a[l];
      } else if i >= |a| {
        assert r[i] == b[i - |a|] && r[j] == b[j - |a|] && r[l] == b[l - |a|];
      } else {
        assert r[i] == a[i] && r[l] == b[l - |a|];
        Across(c, s[0], a[i], b[l - |a|]);
        assert k <= q;
        assert AgreeTo(cols, q, r[i], r[j]);
      }
    }
  }

  lemma Across<R(!new)>(c: Column<R>, x: R, a: R, b: R)
    requires Cellwise(c) && c.same(x, a) && !c.same(x, b)
    ensures !c.same(a, b)
  {
  }

  /** Where the members of two rearranged halves stood. */
  lemma Sides<R>(cols: seq<Column<R>>, q: nat, s: seq<R>, e: nat, a: seq<R>, b: seq<R>)
    requires q < |cols| && Alike(cols, q, s) && e <= |s|
    requires s != [] && (forall i :: 0 <= i < e ==> cols[q].same(s[0], s[i]))
    requires forall i :: e <= i < |s| ==> !cols[q].same(s[0], s[i])
    requires multiset(a) == multiset(s[..e]) && multiset(b) == multiset(s[e..])
    ensures forall i :: 0 <= i < |a| ==> cols[q].same(s[0], a[i])
    ensures forall i :: 0 <= i < |b| ==> !cols[q].same(s[0], b[i])
    ensures Alike(cols, q, a + b)
  {
    Sorting.SameMembers(a, s[..e]);
    Sorting.SameMembers(b, s[e..]);
    forall i | 0 <= i < |a| ensures cols[q].same(s[0], a[i]) {
      assert a[i] in s[..e];
    }
    forall i | 0 <= i < |b| ensures !cols[q].same(s[0], b[i]) {
      assert b[i] in s[e..];
    }
    Halves(s, e, a, b);
    AlikeAgain(cols, q, s, a + b);
  }

  lemma AlikeAgain<R>(cols: seq<Column<R>>, q: nat, s: seq<R>, r: seq<R>)
    requires q <= |cols| && Alike(cols, q, s) && multiset(r) <= multiset(s)
    ensures Alike(cols, q, r)
  {
    forall i, j | 0 <= i < |r| && 0 <= j < |r| ensures AgreeTo(cols, q, r[i], r[j]) {
      assert r[i] in multiset(r) && r[j] in multiset(r);
      assert r[i] in multiset(s) && r[j] in multiset(s);
      assert r[i] in s && r[j] in s;
    }
  }

  lemma {:induction false} GroupAmong<R>(c: Column<R>, s: seq<R>, k: nat)
    requires k < |Groups(c, s)|
    ensures multiset(Groups(c, s)[k]) <= multiset(s)
    decreases |s|
  {
    var e := GroupEnd(c, s, 1);
    assert Groups(c, s)[0] == s[..e] && s == s[..e] + s[e..];
    if k > 0 {
      GroupAmong(c, s[e..], k - 1);
      assert Groups(c, s)[k] == Groups(c, s[e..])[k - 1];
    }
  }

  /** All records of a group agree in one more column. */
  lemma {:induction false} GroupAlike<R(!new)>(cols: seq<Column<R>>, q: nat, s: seq<R>, k: nat)
    requires q < |cols| && Cellwise(cols[q]) && Alike(cols, q, s) && k < |Groups(cols[q], s)|
    ensures Alike(cols, q + 1, Groups(cols[q], s)[k])
    decreases |s|
  {
    var e := GroupEnd(cols[q], s, 1);
    var g := s[..e];
    assert Groups(cols[q], s)[0] == g && s == g + s[e..];
    if k > 0 {
      AlikeAgain(cols, q, s, s[e..]);
      GroupAlike(cols, q, s[e..], k - 1);
      assert Groups(cols[q], s)[k] == Groups(cols[q], s[e..])[k - 1];
    } else {
      forall i, j | 0 <= i < |g| && 0 <= j < |g| ensures AgreeTo(cols, q + 1, g[i], g[j]) {
        assert AgreeTo(cols, q, s[i], s[j]);
        assert cols[q].same(s[0], s[i]) && cols[q].same(s[0], s[j]) && cols[q].same(s[i], s[0]);
      }
    }
  }

  lemma FewerNoClash<R(!new)>(cols: seq<Column<R>>, levels: nat, d: multiset<R>, g: multiset<R>)
    requires levels <= |cols| && !Clash(cols, levels, d) && g <= d
    ensures !Clash(cols, levels, g)
  {
  }

  /** Without a clash, every outcome has equal cells side by side. */
  lemma {:induction false} OutcomeTogether<R(!new)>(cols: seq<Column<R>>, levels: nat, q: nat, d: seq<R>, r: seq<R>)
    requires q < |cols| && CellwiseTo(cols, levels) && Outcome(cols, q, d, r)
    requires Alike(cols, if q < levels then q else levels, d) && !Clash(cols, levels, multiset(d))
    ensures Together(cols, levels, r)
    decreases |cols| - q, 1
  {
    OutcomeRearranges(cols, q, d, r);
    AlikeAgain(cols, if q < levels then q else levels, d, r);
    if q >= levels {
      AlikeTogether(cols, levels, r);
    } else if q == |cols| - 1 {
      OrderedUnbroken(cols, levels, q, r);
      LastTogether(cols, q, r);
    } else {
      var s, parts := OutcomeParts(cols, q, d, r);
      AlikeAgain(cols, q, d, s);
      OrderedUnbroken(cols, levels, q, s);
      AllPartsTogether(cols, levels, q, d, s, parts);
      FlattenTogether(cols, levels, q, s, parts);
    }
  }

  lemma {:induction false} AllPartsTogether<R(!new)>(cols: seq<Column<R>>, levels: nat, q: nat, d: seq<R>, s: seq<R>,
                                                     parts: seq<seq<R>>)
    requires q < |cols| - 1 && q < levels && CellwiseTo(cols, levels) && !Clash(cols, levels, multiset(d))
    requires multiset(s) == multiset(d) && Alike(cols, q, s)
    requires PartsSorted(cols, q + 1, Groups(cols[q], s), |Groups(cols[q], s)|, parts)
    ensures PartsTogether(cols, levels, Groups(cols[q], s), parts)
    decreases |cols| - q, 0
  {
    var groups := Groups(cols[q], s);
    forall k | 0 <= k < |parts| ensures multiset(parts[k]) == multiset(groups[k]) && Together(cols, levels, parts[k]) {
      assert Outcome(cols, q + 1, groups[k], parts[k]);
      GroupAmong(cols[q], s, k);
      FewerNoClash(cols, levels, multiset(d), multiset(groups[k]));
      assert Cellwise(cols[q]);
      GroupAlike(cols, q, s, k);
      OutcomeRearranges(cols, q + 1, groups[k], parts[k]);
      OutcomeTogether(cols, levels, q + 1, groups[k], parts[k]);
    }
  }

  lemma AlikeTogether<R>(cols: seq<Column<R>>, levels: nat, r: seq<R>)
    requires levels <= |cols| && Alike(cols, levels, r)
    ensures Together(cols, levels, r)
  {
    forall k, i, j, l | 0 < k <= levels && 0 <= i < j < l < |r| && AgreeTo(cols, k, r[i], r[l])
      ensures AgreeTo(cols, k, r[i], r[j])
    {
      assert AgreeTo(cols, levels, r[i], r[j]);
    }
  }

  lemma LastTogether<R>(cols: seq<Column<R>>, q: nat, r: seq<R>)
    requires q < |cols| && Alike(cols, q, r) && Unbroken(cols[q], r)
    ensures Together(cols, q + 1, r)
  {
    forall k, i, j, l | 0 < k <= q + 1 && 0 <= i < j < l < |r| && AgreeTo(cols, k, r[i], r[l])
      ensures AgreeTo(cols, k, r[i], r[j])
    {
      assert AgreeTo(cols, q, r[i], r[j]);
      if k == q + 1 {
        assert cols[q].same(r[i], r[l]);
      }
    }
  }

  /** On given data, every result of the sort has records with equal cells in its first columns
      side by side exactly when there is no clash. */
  lemma TogetherIff<R(!new)>(cols: seq<Column<R>>, levels: nat, d: seq<R>)
    requires CellwiseTo(cols, levels)
    ensures AlwaysTogether(cols, levels, d) <==> !Clash(cols, levels, multiset(d))
  {
    if Clash(cols, levels, multiset(d)) {
      var r := ClashTears(cols, levels, d);
    } else {
      forall r: seq<R> | Performed(cols, d, r) ensures Together(cols, levels, r) {
        if cols != [] {
          OutcomeTogether(cols, levels, 0, d, r);
        }
      }
    }
  }

  // ----- Sorted lists, and parts of a list ---------------------------------------------------

  /** A record between two records of equal rank has that rank. */
  lemma {:induction false} Squeezed<R>(cols: seq<Column<R>>, q: nat, a: R, b: R, c: R, k: nat)
    requires q <= k <= |cols| && LexLe(cols, q, a, b) && LexLe(cols, q, b, c)
    requires forall j :: q <= j < k ==> Rank(cols[j], a) == Rank(cols[j], c)
    ensures forall j :: q <= j < k ==> Rank(cols[j], b) == Rank(cols[j], a)
    decreases k - q
  {
    if q < k {
      assert Rank(cols[q], b) == Rank(cols[q], a);
      Squeezed(cols, q + 1, a, b, c, k);
    }
  }

  /** Sorted records without a clash have equal cells side by side. */
  lemma SortedTogether<R(!new)>(cols: seq<Column<R>>, levels: nat, s: seq<R>)
    requires CellwiseTo(cols, levels) && LexSorted(cols, 0, s) && !Clash(cols, levels, multiset(s))
    ensures Together(cols, levels, s)
  {
    forall k, i, j, l | 0 < k <= levels && 0 <= i < j < l < |s| && AgreeTo(cols, k, s[i], s[l])
      ensures AgreeTo(cols, k, s[i], s[j])
    {
      forall m | 0 <= m < k ensures Rank(cols[m], s[i]) == Rank(cols[m], s[l]) {
        assert Cellwise(cols[m]);
      }
      Squeezed(cols, 0, s[i], s[j], s[l], k);
      ThreeAmong(s, i, j, l);
      NotTorn(cols, levels, multiset(s), s[i], s[j], s[l], k, k);
    }
  }

  lemma {:induction false} NotTorn<R(!new)>(cols: seq<Column<R>>, levels: nat, d: multiset<R>, a: R, b: R, z: R,
                                            m: nat, k: nat)
    requires m <= k <= levels <= |cols| && !Clash(cols, levels, d) && multiset{a, b, z} <= d && AgreeTo(cols, k, a, z)
    requires forall j :: 0 <= j < k ==> Rank(cols[j], b) == Rank(cols[j], a)
    ensures AgreeTo(cols, m, a, b)
    decreases m
  {
    if m > 0 {
      NotTorn(cols, levels, d, a, b, z, m - 1, k);
      assert Rank(cols[m - 1], b) == Rank(cols[m - 1], a);
      assert !Tears(cols, m - 1, a, b, z);
    }
  }

  lemma PicksTogether<R>(cols: seq<Column<R>>, levels: nat, s: seq<R>, at: seq<nat>, r: seq<R>)
    requires levels <= |cols| && Picks(s, at, r) && Together(cols, levels, s)
    ensures Together(cols, levels, r)
  {
    forall k, i, j, l | 0 < k <= levels && 0 <= i < j < l < |r| && AgreeTo(cols, k, r[i], r[l])
      ensures AgreeTo(cols, k, r[i], r[j])
    {
      assert AgreeTo(cols, k, s[at[i]], s[at[l]]) && at[i] < at[j] < at[l];
    }
  }
}
