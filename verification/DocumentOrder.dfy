// Sizzle's document-order comparison and uniqueSort, for browsers without
// compareDocumentPosition and sourceIndex.

module DocumentOrder {
  import opened Wrappers
  import opened Document
  import Sorting

  // ----- Document order is the order of paths -------------------------------

  /** `a` and `b` agree up to `i`; there `a` ends or goes to an earlier child. */
  predicate SplitsAt(a: Path, b: Path, i: nat) {
    && i <= |a| && i < |b|
    && a[..i] == b[..i]
    && (i < |a| ==> a[i] < b[i])
  }

  ghost predicate Before(a: Path, b: Path) {
    exists i: nat :: SplitsAt(a, b, i)
  }

  ghost predicate InOrder(s: seq<Path>) {
    forall i, j :: 0 <= i < j < |s| ==> Before(s[i], s[j])
  }

  lemma BeforeIrreflexive(a: Path)
    ensures !Before(a, a)
  {
  }

  lemma BeforeTransitive(a: Path, b: Path, c: Path)
    requires Before(a, b) && Before(b, c)
    ensures Before(a, c)
  {
    var i: nat :| SplitsAt(a, b, i);
    var j: nat :| SplitsAt(b, c, j);
    var k := if i < j then i else j;
    assert a[..k] == a[..i][..k] == b[..i][..k] == b[..k] == b[..j][..k] == c[..k];
    assert i < j ==> b[i] == b[..j][i] == c[..j][i] == c[i];
    assert j < i ==> a[j] == a[..i][j] == b[..i][j] == b[j];
    assert SplitsAt(a, c, k);
  }

  /** The first place where two paths part. */
  lemma FirstSplit(a: Path, b: Path) returns (i: nat)
    requires a != b
    ensures i <= |a| && i <= |b| && a[..i] == b[..i]
    ensures i < |a| || i < |b|
    ensures i < |a| && i < |b| ==> a[i] != b[i]
  {
    i := 0;
    while i < |a| && i < |b| && a[i] == b[i]
      invariant i <= |a| && i <= |b| && a[..i] == b[..i]
    {
      i := i + 1;
    }
  }

  lemma BeforeTotal(a: Path, b: Path)
    requires a != b
    ensures Before(a, b) || Before(b, a)
  {
    var i := FirstSplit(a, b);
    assert SplitsAt(a, b, i) || SplitsAt(b, a, i);
  }

  lemma BeforeAsymmetric(a: Path, b: Path)
    requires Before(a, b)
    ensures !Before(b, a)
  {
    if Before(b, a) {
      BeforeTransitive(a, b, a);
    }
  }

  /** Every listed path continues `base`, below a child at position `i` or later. */
  ghost predicate Below(s: seq<Path>, base: Path, i: nat) {
    forall k :: 0 <= k < |s| ==> |s[k]| > |base| && s[k][..|base|] == base && s[k][|base|] >= i
  }

  lemma {:induction false} NodesFromInOrder(t: Tree, base: Path)
    ensures InOrder(NodesFrom(t, base))
    ensures forall k :: 0 <= k < |NodesFrom(t, base)| ==>
      |NodesFrom(t, base)[k]| >= |base| && NodesFrom(t, base)[k][..|base|] == base
    decreases t, |t.children| + 1
  {
    ChildNodesInOrder(t, base, 0);
    var rest := ChildNodes(t, base, 0);
    forall k | 0 <= k < |rest| ensures Before(base, rest[k]) {
      assert SplitsAt(base, rest[k], |base|);
    }
  }

  lemma {:induction false} ChildNodesInOrder(t: Tree, base: Path, i: nat)
    requires i <= |t.children|
    ensures InOrder(ChildNodes(t, base, i)) && Below(ChildNodes(t, base, i), base, i)
    decreases t, |t.children| - i
  {
    if i < |t.children| {
      NodesFromInOrder(t.children[i], base + [i]);
      ChildNodesInOrder(t, base, i + 1);
      var first, rest := NodesFrom(t.children[i], base + [i]), ChildNodes(t, base, i + 1);
      forall k | 0 <= k < |first|
        ensures |first[k]| > |base| && first[k][..|base|] == base && first[k][|base|] == i
      {
        assert first[k][..|base|] == first[k][..|base| + 1][..|base|];
        assert first[k][|base|] == first[k][..|base| + 1][|base|];
      }
      forall k, l | 0 <= k < |first| && 0 <= l < |rest| ensures Before(first[k], rest[l]) {
        assert SplitsAt(first[k], rest[l], |base|);
      }
    }
  }

  lemma {:induction false} AtFromChild(t: Tree, i: nat, q: Path)
    ensures At(t, [i] + q) == if i < |t.children| then At(t.children[i], q) else None
    decreases |q|
  {
    if q == [] {
      assert [i] + q == [i];
      assert Init([i]) == [];
      assert At(t, []) == Some(t);
    } else {
      AtFromChild(t, i, Init(q));
      assert Init([i] + q) == [i] + Init(q);
      assert Last([i] + q) == Last(q);
    }
  }

  lemma {:induction false} NodesFromExact(t: Tree, base: Path, q: Path)
    ensures base + q in NodesFrom(t, base) <==> InDoc(t, q)
    decreases t, |t.children| + 1
  {
    ChildNodesInOrder(t, base, 0);
    if q == [] {
      assert base + q == base;
    } else {
      ChildNodesExact(t, base, 0, q);
    }
  }

  lemma {:induction false} ChildNodesExact(t: Tree, base: Path, i: nat, q: Path)
    requires i <= |t.children| && q != []
    ensures base + q in ChildNodes(t, base, i) <==> q[0] >= i && InDoc(t, q)
    decreases t, |t.children| - i
  {
    assert q == [q[0]] + q[1..];
    AtFromChild(t, q[0], q[1..]);
    if i < |t.children| {
      ChildNodesExact(t, base, i + 1, q);
      NodesFromInOrder(t.children[i], base + [i]);
      assert (base + q)[..|base| + 1][|base|] == q[0];
      if q[0] == i {
        NodesFromExact(t.children[i], base + [i], q[1..]);
        assert base + q == base + [i] + q[1..];
      }
    }
  }

  /** `Nodes(doc)` lists the document's nodes without repetition, and one comes
      before another in it exactly when its path comes first. */
  lemma DocumentOrderIsPathOrder(doc: Tree, i: nat, j: nat)
    requires i < |Nodes(doc)| && j < |Nodes(doc)|
    ensures i < j <==> Before(Nodes(doc)[i], Nodes(doc)[j])
    ensures Nodes(doc)[i] == Nodes(doc)[j] <==> i == j
    ensures forall p :: p in Nodes(doc) <==> InDoc(doc, p)
  {
    NodesFromInOrder(doc, []);
    BeforeIrreflexive(Nodes(doc)[i]);
    if j < i {
      BeforeAsymmetric(Nodes(doc)[j], Nodes(doc)[i]);
    }
    forall p ensures p in Nodes(doc) <==> InDoc(doc, p) {
      NodesFromExact(doc, [], p);
      assert [] + p == p;
    }
  }

  // ----- The comparator -----------------------------------------------------

  function NextSibling(doc: Tree, p: Path): Option<Path> {
    if p != [] && InDoc(doc, Init(p) + [Last(p) + 1]) then Some(Init(p) + [Last(p) + 1]) else None
  }

  function ParentOf(p: Path): Option<Path> {
    Step(ParentNode, p)
  }

  predicate Siblings(a: Path, b: Path) {
    a != [] && b != [] && a != b && Init(a) == Init(b)
  }

  lemma SiblingsBefore(a: Path, b: Path)
    requires Siblings(a, b)
    ensures Before(a, b) <==> Last(a) < Last(b)
  {
    var n := |a| - 1;
    assert a == Init(a) + [Last(a)] && b == Init(b) + [Last(b)];
    if Last(a) < Last(b) {
      assert SplitsAt(a, b, n);
    } else {
      assert SplitsAt(b, a, n);
      BeforeAsymmetric(b, a);
    }
  }

  /** A node missing on one side is an ancestor that ran out first. */
  method SiblingCheck(doc: Tree, a: Option<Path>, b: Option<Path>) returns (r: int)
    requires a.Some? && b.Some? ==> InDoc(doc, a.value) && InDoc(doc, b.value) && Siblings(a.value, b.value)
    ensures a.Some? && b.Some? ==> r == if Before(a.value, b.value) then -1 else 1
    ensures a.None? || b.None? ==> r == if a.Some? then 1 else -1
  {
    if a.Some? && b.Some? {
      SiblingsBefore(a.value, b.value);
      var parent := At(doc, Init(a.value)).value;
      var cur := a.value;
      while true
        invariant cur != [] && Init(cur) == Init(a.value) && Last(a.value) <= Last(cur) < |parent.children|
        invariant Last(a.value) < Last(b.value) ==> Last(cur) < Last(b.value)
        decreases |parent.children| - Last(cur)
      {
        var next := NextSibling(doc, cur);
        assert next.Some? ==> Init(next.value) == Init(cur) && Last(next.value) == Last(cur) + 1;
        if next.None? {
          var q := Init(cur) + [Last(cur) + 1];
          assert Init(q) == Init(cur) && Last(q) == Last(cur) + 1;
          break;
        }
        cur := next.value;
        assert cur == Init(cur) + [Last(cur)] && b.value == Init(b.value) + [Last(b.value)];
        if cur == b.value {
          return -1;
        }
      }
    }
    return if a.Some? then 1 else -1;
  }

  /** `ap = [a]; while ((cur = cur.parentNode)) ap.unshift(cur)` */
  method AncestorsAndSelf(a: Path) returns (ap: seq<Path>)
    ensures |ap| == |a| + 1
    ensures forall k :: 0 <= k <= |a| ==> ap[k] == a[..k]
  {
    ap := [a];
    var cur := a;
    while cur != []
      invariant |cur| <= |a| && cur == a[..|cur|]
      invariant |ap| == |a| - |cur| + 1
      invariant forall k :: |cur| <= k <= |a| ==> ap[k - |cur|] == a[..k]
      decreases |cur|
    {
      cur := ParentOf(cur).value;
      ap := [cur] + ap;
    }
  }

  function Get(s: seq<Path>, i: nat): Option<Path> {
    if i < |s| then Some(s[i]) else None
  }

  class Sorter {
    const doc: Tree
    const detectDuplicates: bool
    var hasDuplicate: bool

    constructor (doc: Tree, detectDuplicates: bool)
      ensures this.doc == doc && this.detectDuplicates == detectDuplicates
    {
      this.doc, this.detectDuplicates, hasDuplicate := doc, detectDuplicates, false;
    }

    /** sortOrder: negative, zero or positive as `a` comes before, is, or comes after `b`. */
    method SortOrder(a: Path, b: Path) returns (r: int)
      requires InDoc(doc, a) && InDoc(doc, b)
      modifies this
      ensures r < 0 <==> Before(a, b)
      ensures r == 0 <==> a == b
      ensures r > 0 <==> Before(b, a)
      ensures hasDuplicate == (old(hasDuplicate) || a == b)
    {
      var aup, bup := ParentOf(a), ParentOf(b);
      if a == b {
        BeforeIrreflexive(a);
        hasDuplicate := true;
        return 0;
      }
      BeforeDichotomy(a, b);
      if aup.None? || bup.None? {
        assert SplitsAt([], if a == [] then b else a, 0);
        return if a == [] then -1 else if b == [] then 1 else if aup.Some? then -1 else if bup.Some? then 1 else 0;
      } else if aup == bup {
        r := SiblingCheck(doc, Some(a), Some(b));
        return;
      }
      var ap := AncestorsAndSelf(a);
      var bp := AncestorsAndSelf(b);
      ghost var split := FirstSplit(a, b);
      forall k | 0 <= k <= split ensures a[..k] == b[..k] {
        assert a[..k] == a[..split][..k] && b[..k] == b[..split][..k];
      }
      assert Get(ap, split + 1) != Get(bp, split + 1) by {
        if split < |a| && split < |b| {
          assert a[..split + 1][split] == a[split] && b[..split + 1][split] == b[split];
        }
      }
      var i := 0;
      while Get(ap, i) == Get(bp, i)
        invariant 0 <= i <= split + 1
        decreases split + 1 - i
      {
        i := i + 1;
      }
      AncestorsSplit(doc, a, b, split, i);
      r := SiblingCheck(doc, Get(ap, i), Get(bp, i));
    }

    /** Array.prototype.sort with sortOrder: some sorted rearrangement, which like any
        sort by comparison has compared equal elements with each other. */
    method Sort(s: seq<Path>) returns (r: seq<Path>)
      requires forall p :: p in s ==> InDoc(doc, p)
      modifies this
      ensures multiset(r) == multiset(s)
      ensures Sorted(r)
      ensures hasDuplicate == (old(hasDuplicate) || !Distinct(s))
    {
      r := [];
      for i := 0 to |s|
        invariant multiset(r) == multiset(s[..i]) && Sorted(r)
        invariant hasDuplicate == (old(hasDuplicate) || !Distinct(s[..i]))
      {
        Sorting.SameMembers(r, s[..i]);
        DistinctNext(s, i);
        assert s[..i + 1] == s[..i] + [s[i]];
        r := Insert(r, s[i]);
      }
      assert s[..|s|] == s;
    }

    method Insert(r: seq<Path>, x: Path) returns (q: seq<Path>)
      requires InDoc(doc, x) && forall p :: p in r ==> InDoc(doc, p)
      requires Sorted(r)
      modifies this
      ensures multiset(q) == multiset(r) + multiset{x}
      ensures Sorted(q)
      ensures hasDuplicate == (old(hasDuplicate) || x in r)
    {
      var k := |r|;
      while k > 0
        invariant 0 <= k <= |r|
        invariant forall j :: k <= j < |r| ==> !Before(r[j], x)
        invariant hasDuplicate == (old(hasDuplicate) || x in r[k..])
      {
        var c := SortOrder(r[k - 1], x);
        assert r[k - 1..] == [r[k - 1]] + r[k..];
        if c < 0 {
          SortedPrefix(r, k - 1, x);
          break;
        }
        k := k - 1;
      }
      assert r == r[..k] + r[k..];
      InsertSorted(r, k, x);
      q := r[..k] + [x] + r[k..];
    }

    /** Sort, then splice out every element equal to its predecessor, last one first. */
    method UniqueSort(s: seq<Path>) returns (results: seq<Path>)
      requires forall p :: p in s ==> InDoc(doc, p)
      modifies this
      ensures forall p :: p in results <==> p in s
      ensures InOrder(results)
      ensures hasDuplicate <==> !detectDuplicates || !Distinct(s)
    {
      hasDuplicate := !detectDuplicates;
      results := Sort(s);
      Sorting.SameMembers(s, results);
      if hasDuplicate {
        FirstsMembers(results, 0);
        FirstsInOrder(results, 0);
        var duplicates := Duplicates(results);
        results := SpliceOut(results, duplicates);
      } else {
        DistinctSorted(s, results);
      }
    }

    static method Duplicates(s: seq<Path>) returns (duplicates: seq<nat>)
      ensures Repeats(s, duplicates, |s|)
    {
      duplicates := [];
      if s == [] {
        return;
      }
      var i := 1;
      while i < |s|
        invariant 1 <= i <= |s|
        invariant Repeats(s, duplicates, i)
      {
        RepeatsNext(s, duplicates, i);
        if s[i] == s[i - 1] {
          duplicates := duplicates + [i];
        }
        i := i + 1;
      }
    }

    static method SpliceOut(s: seq<Path>, duplicates: seq<nat>) returns (results: seq<Path>)
      requires Repeats(s, duplicates, |s|)
      ensures results == Firsts(s, 0)
    {
      results := s;
      var j := |duplicates|;
      ghost var bound: nat := |s|;
      assert duplicates[..j] == duplicates;
      while j > 0
        invariant 0 <= j <= |duplicates| && bound <= |s|
        invariant Repeats(s, duplicates[..j], bound)
        invariant results == s[..bound] + Firsts(s, bound)
      {
        j := j - 1;
        var d := duplicates[j];
        RepeatsInit(s, duplicates[..j + 1], bound);
        assert duplicates[..j + 1][..j] == duplicates[..j];
        SpliceStep(s, d, bound);
        results := results[..d] + results[d + 1..];
        bound := d;
      }
      FirstsRun(s, 0, bound);
    }
  }

  lemma RepeatsNext(s: seq<Path>, duplicates: seq<nat>, i: nat)
    requires 1 <= i < |s| && Repeats(s, duplicates, i)
    ensures Repeats(s, if s[i] == s[i - 1] then duplicates + [i] else duplicates, i + 1)
  {
    var more := duplicates + [i];
    assert forall d :: d in duplicates ==> d in more;
    assert i in more;
  }

  /** `duplicates` lists, in increasing order, the positions below `n` that repeat their predecessor. */
  ghost predicate Repeats(s: seq<Path>, duplicates: seq<nat>, n: nat)
    requires n <= |s|
  {
    && (forall k :: 0 <= k < |duplicates| ==> 1 <= duplicates[k] < n && s[duplicates[k]] == s[duplicates[k] - 1])
    && (forall d: nat :: 1 <= d < n && s[d] == s[d - 1] ==> d in duplicates)
    && (forall k, l :: 0 <= k < l < |duplicates| ==> duplicates[k] < duplicates[l])
  }

  /** The order sort promises: no later element comes before an earlier one. */
  ghost predicate Sorted(s: seq<Path>) {
    forall i, j :: 0 <= i < j < |s| ==> !Before(s[j], s[i])
  }

  ghost predicate Distinct(s: seq<Path>) {
    forall p :: multiset(s)[p] <= 1
  }

  lemma SortedPrefix(r: seq<Path>, k: nat, x: Path)
    requires Sorted(r) && k < |r| && Before(r[k], x)
    ensures forall j :: 0 <= j <= k ==> !Before(x, r[j]) && x != r[j]
  {
    forall j | 0 <= j <= k ensures !Before(x, r[j]) && x != r[j] {
      BeforeIrreflexive(r[k]);
      if Before(x, r[j]) {
        BeforeTransitive(r[k], x, r[j]);
      }
    }
  }

  lemma DistinctNext(s: seq<Path>, i: nat)
    requires i < |s|
    ensures Distinct(s[..i + 1]) <==> Distinct(s[..i]) && s[i] !in s[..i]
  {
    var init, x := s[..i], s[i];
    assert s[..i + 1] == init + [x];
    assert multiset(s[..i + 1])[x] == multiset(init)[x] + 1;
    forall p | p != x ensures multiset(s[..i + 1])[p] == multiset(init)[p] {
    }
    assert x in init <==> multiset(init)[x] > 0;
  }

  lemma InsertSorted(r: seq<Path>, k: nat, x: Path)
    requires Sorted(r) && k <= |r|
    requires forall j :: 0 <= j < k ==> !Before(x, r[j])
    requires forall j :: k <= j < |r| ==> !Before(r[j], x)
    ensures Sorted(r[..k] + [x] + r[k..])
    ensures multiset(r[..k] + [x] + r[k..]) == multiset(r) + multiset{x}
  {
    assert r == r[..k] + r[k..];
  }

  /** Of the elements of `s` from `k` on, those that differ from their predecessor in `s`. */
  ghost function Firsts(s: seq<Path>, k: nat): seq<Path>
    requires k <= |s|
    decreases |s| - k
  {
    if k == |s| then []
    else (if k == 0 || s[k] != s[k - 1] then [s[k]] else []) + Firsts(s, k + 1)
  }

  lemma {:induction false} FirstsRun(s: seq<Path>, lo: nat, hi: nat)
    requires lo <= hi <= |s|
    requires forall k :: lo <= k < hi ==> k == 0 || s[k] != s[k - 1]
    ensures Firsts(s, lo) == s[lo..hi] + Firsts(s, hi)
    decreases hi - lo
  {
    if lo < hi {
      FirstsRun(s, lo + 1, hi);
    }
  }

  /** Dropping the last repeat leaves the list of repeats of the prefix before it. */
  lemma RepeatsInit(s: seq<Path>, duplicates: seq<nat>, bound: nat)
    requires bound <= |s| && Repeats(s, duplicates, bound) && duplicates != []
    ensures var j := |duplicates| - 1;
      && Repeats(s, duplicates[..j], duplicates[j])
      && forall k :: duplicates[j] < k < bound ==> s[k] != s[k - 1]
  {
    var j := |duplicates| - 1;
    var init, d := duplicates[..j], duplicates[j];
    assert duplicates == init + [d];
    forall k | d < k < bound ensures s[k] != s[k - 1] {
      assert k !in duplicates;
    }
    forall k: nat | 1 <= k < d && s[k] == s[k - 1] ensures k in init {
      assert k in duplicates;
    }
  }

  /** Splicing position `d` out of a prefix that has no later repeat. */
  lemma SpliceStep(s: seq<Path>, d: nat, bound: nat)
    requires 0 < d < bound <= |s| && s[d] == s[d - 1]
    requires forall k :: d < k < bound ==> s[k] != s[k - 1]
    ensures var r := s[..bound] + Firsts(s, bound); r[..d] + r[d + 1..] == s[..d] + Firsts(s, d)
  {
    FirstsRun(s, d + 1, bound);
    var r := s[..bound] + Firsts(s, bound);
    assert r[..d] == s[..d];
    assert r[d + 1..] == s[d + 1..bound] + Firsts(s, bound);
  }

  lemma {:induction false} FirstsMembers(s: seq<Path>, k: nat)
    requires k <= |s|
    ensures forall p :: p in Firsts(s, k) ==> p in s[k..]
    ensures forall p :: p in s[k..] ==> p in Firsts(s, k) || (k > 0 && p == s[k - 1])
    decreases |s| - k
  {
    if k < |s| {
      FirstsMembers(s, k + 1);
      assert s[k..] == [s[k]] + s[k + 1..];
    }
  }

  ghost predicate BeforeAll(x: Path, s: seq<Path>) {
    forall i :: 0 <= i < |s| ==> Before(x, s[i])
  }

  lemma {:induction false} FirstsInOrder(s: seq<Path>, k: nat)
    requires k <= |s| && Sorted(s)
    ensures InOrder(Firsts(s, k))
    ensures k > 0 ==> BeforeAll(s[k - 1], Firsts(s, k))
    decreases |s| - k
  {
    if k < |s| {
      FirstsInOrder(s, k + 1);
      FirstsMembers(s, k);
      if k > 0 && s[k] != s[k - 1] {
        BeforeDichotomy(s[k - 1], s[k]);
        var rest := Firsts(s, k + 1);
        forall i | 0 <= i < |rest| ensures Before(s[k - 1], rest[i]) {
          BeforeTransitive(s[k - 1], s[k], rest[i]);
        }
      }
    }
  }

  lemma DistinctSorted(s: seq<Path>, r: seq<Path>)
    requires multiset(s) == multiset(r) && Distinct(s) && Sorted(r)
    ensures InOrder(r)
  {
    forall i, j | 0 <= i < j < |r| ensures Before(r[i], r[j]) {
      TwiceCounted(r, i, j);
      BeforeDichotomy(r[i], r[j]);
    }
  }

  lemma TwiceCounted(r: seq<Path>, i: nat, j: nat)
    requires i < j < |r|
    ensures r[i] == r[j] ==> multiset(r)[r[i]] >= 2
  {
    assert r == r[..j] + r[j..];
    assert r[i] in r[..j] && r[j] in r[j..];
    assert multiset(r) == multiset(r[..j]) + multiset(r[j..]);
  }

  /** A list in document order is determined by its members: uniqueSort has one possible result. */
  lemma {:induction false} InOrderUnique(s: seq<Path>, r: seq<Path>)
    requires InOrder(s) && InOrder(r)
    requires forall p :: p in s <==> p in r
    ensures s == r
    decreases |s|
  {
    assert s != [] ==> s[0] in s;
    assert r != [] ==> r[0] in r;
    if s != [] {
      assert s[0] in r && r[0] in s;
      if s[0] != r[0] {
        BeforeDichotomy(s[0], r[0]);
      }
      forall p ensures p in s[1..] <==> p in r[1..] {
        BeforeIrreflexive(s[0]);
        assert p in s <==> p == s[0] || p in s[1..];
        assert p in r <==> p == r[0] || p in r[1..];
      }
      InOrderUnique(s[1..], r[1..]);
      assert s == [s[0]] + s[1..] && r == [r[0]] + r[1..];
    }
  }

  lemma BeforeDichotomy(a: Path, b: Path)
    requires a != b
    ensures Before(a, b) <==> !Before(b, a)
  {
    BeforeTotal(a, b);
    if Before(a, b) {
      BeforeAsymmetric(a, b);
    }
  }

  lemma {:induction false} PrefixInDoc(doc: Tree, p: Path, k: nat)
    requires InDoc(doc, p) && k <= |p|
    ensures InDoc(doc, p[..k])
    decreases |p|
  {
    if k < |p| {
      PrefixInDoc(doc, Init(p), k);
      assert Init(p)[..k] == p[..k];
    } else {
      assert p[..k] == p;
    }
  }

  /** Below the last common ancestor stand two siblings, or one path has ended. */
  lemma AncestorsSplit(doc: Tree, a: Path, b: Path, split: nat, i: nat)
    requires InDoc(doc, a) && InDoc(doc, b) && a != b
    requires split <= |a| && split <= |b| && a[..split] == b[..split]
    requires split < |a| || split < |b|
    requires split < |a| && split < |b| ==> a[split] != b[split]
    requires i == split + 1
    ensures i <= |a| && i <= |b| ==>
      && InDoc(doc, a[..i]) && InDoc(doc, b[..i]) && Siblings(a[..i], b[..i])
      && (Before(a[..i], b[..i]) <==> Before(a, b))
    ensures i > |a| ==> Before(a, b)
    ensures i > |b| ==> Before(b, a)
  {
    if i <= |a| && i <= |b| {
      PrefixInDoc(doc, a, i);
      PrefixInDoc(doc, b, i);
      assert Init(a[..i]) == a[..split] && Init(b[..i]) == b[..split];
      assert a[..i][split] == a[split] && b[..i][split] == b[split];
      SiblingsBefore(a[..i], b[..i]);
      assert SplitsAt(a, b, split) || SplitsAt(b, a, split);
      BeforeDichotomy(a, b);
    } else {
      assert SplitsAt(a, b, split) || SplitsAt(b, a, split);
    }
  }
}
