// Sizzle's CHILD filter: the structural pseudo-classes, with the positions it
// remembers on a parent and on its children.

module NthChild {
  import opened Wrappers

  datatype Child = Child(element: bool, name: string)

  datatype Mark = Mark(run: nat, nodeIndex: nat, diff: nat)

  // ----- Meaning ------------------------------------------------------------

  /** Does sibling `j` count when numbering sibling `e`? */
  predicate Counts(cs: seq<Child>, ofType: bool, e: nat, j: nat)
    requires e < |cs| && j < |cs|
  {
    if ofType then cs[j].name == cs[e].name else cs[j].element
  }

  /** How many of the siblings lo..hi count. */
  function Count(cs: seq<Child>, ofType: bool, e: nat, lo: nat, hi: nat): nat
    requires e < |cs| && lo <= hi <= |cs|
    decreases hi - lo
  {
    if lo == hi then 0
    else Count(cs, ofType, e, lo, hi - 1) + if Counts(cs, ofType, e, hi - 1) then 1 else 0
  }

  /** The 1-based position of `e`, counted from the first or from the last sibling. */
  function Position(cs: seq<Child>, ofType: bool, forward: bool, e: nat): nat
    requires e < |cs|
  {
    if forward then Count(cs, ofType, e, 0, e + 1) else Count(cs, ofType, e, e, |cs|)
  }

  /** Section 6.6.5.2 of Selectors Level 3: some n >= 0 has a*n + b == index. */
  ghost predicate InCycle(a: int, b: int, index: int) {
    exists n: nat :: a * n + b == index
  }

  /** The siblings from `lo` up to `hi` that have the name of `e`, or that are elements. */
  ghost function Numbered(cs: seq<Child>, ofType: bool, e: nat, lo: nat, hi: nat): set<nat>
    requires e < |cs| && hi <= |cs|
  {
    set j: nat | lo <= j < hi && if ofType then cs[j].name == cs[e].name else cs[j].element
  }

  lemma {:induction false} CountMeaning(cs: seq<Child>, ofType: bool, e: nat, lo: nat, hi: nat)
    requires e < |cs| && lo <= hi <= |cs|
    ensures Count(cs, ofType, e, lo, hi) == |Numbered(cs, ofType, e, lo, hi)|
    decreases hi - lo
  {
    var all := Numbered(cs, ofType, e, lo, hi);
    if lo == hi {
      assert all == {};
    } else {
      CountMeaning(cs, ofType, e, lo, hi - 1);
      var less := Numbered(cs, ofType, e, lo, hi - 1);
      assert all == if Counts(cs, ofType, e, hi - 1) then less + {hi - 1} else less;
    }
  }

  /** The position of a child is the number of siblings up to it, or from it on, that are
      elements, or under of-type have its name. */
  lemma PositionMeaning(cs: seq<Child>, ofType: bool, forward: bool, e: nat)
    requires e < |cs|
    ensures Position(cs, ofType, forward, e)
      == |Numbered(cs, ofType, e, if forward then 0 else e, if forward then e + 1 else |cs|)|
  {
    if forward {
      CountMeaning(cs, ofType, e, 0, e + 1);
    } else {
      CountMeaning(cs, ofType, e, e, |cs|);
    }
  }

  lemma {:induction false} CountFromLow(cs: seq<Child>, ofType: bool, e: nat, lo: nat, hi: nat)
    requires e < |cs| && lo < hi <= |cs|
    ensures Count(cs, ofType, e, lo, hi) == (if Counts(cs, ofType, e, lo) then 1 else 0)
      + Count(cs, ofType, e, lo + 1, hi)
    decreases hi - lo
  {
    if lo + 1 < hi {
      CountFromLow(cs, ofType, e, lo, hi - 1);
    }
  }

  lemma {:induction false} CountZero(cs: seq<Child>, ofType: bool, e: nat, lo: nat, hi: nat)
    requires e < |cs| && lo <= hi <= |cs|
    ensures Count(cs, ofType, e, lo, hi) == 0 <==> forall j :: lo <= j < hi ==> !Counts(cs, ofType, e, j)
    decreases hi - lo
  {
    if lo < hi {
      CountZero(cs, ofType, e, lo, hi - 1);
    }
  }

  /** Numbering elements does not depend on which element asks. */
  lemma {:induction false} CountByElement(cs: seq<Child>, e: nat, f: nat, lo: nat, hi: nat)
    requires e < |cs| && f < |cs| && lo <= hi <= |cs|
    ensures Count(cs, false, e, lo, hi) == Count(cs, false, f, lo, hi)
    decreases hi - lo
  {
    if lo < hi {
      CountByElement(cs, e, f, lo, hi - 1);
    }
  }

  // ----- The final test -----------------------------------------------------

  /** JavaScript's `%`: the remainder takes the sign of the dividend. */
  function Rem(x: int, y: int): int
    requires y != 0
  {
    var d := if y < 0 then -y else y;
    if x >= 0 then x % d else -((-x) % d)
  }

  /** `diff === first || (diff % first === 0 && diff / first >= 0)`; `x % 0` is NaN. */
  predicate CycleTest(diff: int, first: int) {
    diff == first || (first != 0 && Rem(diff, first) == 0 && (diff == 0 || (diff > 0) == (first > 0)))
  }

  lemma CycleTestMeaning(index: int, first: int, last: int)
    ensures CycleTest(index - last, first) <==> InCycle(first, last, index)
  {
    if CycleTest(index - last, first) {
      var n := TestedMultiple(index - last, first);
      assert first * n + last == index;
    }
    if InCycle(first, last, index) {
      var n: nat :| first * n + last == index;
      MultipleTest(first, n);
    }
  }

  lemma TestedMultiple(diff: int, first: int) returns (n: nat)
    requires CycleTest(diff, first)
    ensures first * n == diff
  {
    if diff == first {
      n := 1;
    } else if diff == 0 {
      n := 0;
    } else if first > 0 {
      n := diff / first;
    } else {
      n := (-diff) / (-first);
      Opposite(first, n, diff);
    }
  }

  lemma Opposite(a: int, n: int, d: int)
    requires (-a) * n == -d
    ensures a * n == d
  {
  }

  lemma MultipleTest(first: int, n: nat)
    ensures CycleTest(first * n, first)
  {
    if first > 0 {
      MultipleRem(n, first);
      assert n > 0 ==> first * n > 0;
    } else if first < 0 {
      MultipleRem(n, -first);
      assert n > 0 ==> first * n < 0;
      assert -(first * n) == (-first) * n;
    }
  }

  lemma MultipleRem(n: nat, d: int)
    requires d > 0
    ensures (d * n) % d == 0
  {
    if n > 0 {
      MultipleRem(n - 1, d);
      var x := d * (n - 1);
      assert d * n == x + d;
      RemPlusDivisor(x, d);
    }
  }

  lemma RemPlusDivisor(x: int, d: int)
    requires d > 0 && x % d == 0
    ensures (x + d) % d == 0
  {
    var q, r := (x + d) / d, (x + d) % d;
    var p := x / d;
    assert x == d * p && x + d == d * q + r;
    assert r == d * (p + 1 - q);
    SmallMultiple(d, p + 1 - q);
  }

  lemma SmallMultiple(d: int, k: int)
    requires -d < d * k < d
    ensures k == 0
  {
  }

  // ----- The filter ---------------------------------------------------------

  /** One parent with the marks Sizzle leaves on it and on its children. */
  class Parent {
    const childNodes: seq<Child>
    var forwardMark: Option<Mark>
    var backwardMarks: map<nat, (nat, nat)>

    constructor (childNodes: seq<Child>)
      ensures this.childNodes == childNodes && forwardMark == None && backwardMarks == map[]
      ensures Valid(0)
    {
      this.childNodes, forwardMark, backwardMarks := childNodes, None, map[];
    }

    /** Marks of the current run hold true positions, and none is of a later run; marks of
        earlier runs are ignored. */
    ghost predicate Valid(dirruns: nat)
      reads this
    {
      && (forwardMark.Some? ==> forwardMark.value.run <= dirruns)
      && (forall e :: e in backwardMarks ==> backwardMarks[e].0 <= dirruns)
      && (forwardMark.Some? && forwardMark.value.run == dirruns ==>
            var m := forwardMark.value;
            && m.nodeIndex < |childNodes|
            && m.diff == Position(childNodes, false, true, m.nodeIndex))
      && (forall e :: e in backwardMarks && backwardMarks[e].0 == dirruns ==>
            e < |childNodes| && backwardMarks[e].1 == Position(childNodes, false, false, e))
    }

    /** The next run starts with every mark ignored. */
    lemma NextRun(dirruns: nat, next: nat)
      requires Valid(dirruns) && dirruns < next
      ensures Valid(next)
      ensures forwardMark.Some? ==> forwardMark.value.run != next
      ensures forall e :: e in backwardMarks ==> backwardMarks[e].0 != next
    {
    }

    /** A position at or after the old one resumes there; any other restarts once from the first child. */
    method SeekForward(elem: nat, dirruns: nat) returns (diff: nat, ghost restarts: nat)
      requires elem < |childNodes| && childNodes[elem].element && Valid(dirruns)
      modifies this`forwardMark
      ensures Valid(dirruns)
      ensures diff == Position(childNodes, false, true, elem)
      ensures forwardMark == Some(Mark(dirruns, elem, diff))
      ensures restarts <= 1
      ensures old(forwardMark.Some? && forwardMark.value.run == dirruns && 0 < forwardMark.value.nodeIndex < elem) ==>
        restarts == 0
    {
      var start := [0];
      restarts := 0;
      var nodeIndex: nat, node: Option<nat> := 0, None;
      diff := 0;
      if forwardMark.Some? && forwardMark.value.run == dirruns {
        nodeIndex, diff := forwardMark.value.nodeIndex, forwardMark.value.diff;
        if nodeIndex != 0 {
          node := Some(nodeIndex);
          CountByElement(childNodes, elem, nodeIndex, 0, nodeIndex + 1);
        }
      }
      while true
        invariant |start| <= 1 && (start != [] ==> start == [0]) && restarts == 1 - |start|
        invariant node.Some? ==>
          && node.value == nodeIndex < |childNodes|
          && diff == Count(childNodes, false, elem, 0, nodeIndex + 1)
        invariant start == [] ==> node.Some? && node.value < elem
        invariant
          old(forwardMark.Some? && forwardMark.value.run == dirruns && 0 < forwardMark.value.nodeIndex < elem) ==>
          node.Some? && node.value < elem && restarts == 0
        decreases |start|, if node.Some? then |childNodes| - node.value else 0
      {
        nodeIndex := nodeIndex + 1;
        if node.Some? && node.value + 1 < |childNodes| {
          node := Some(node.value + 1);
        } else {
          diff, nodeIndex := 0, 0;
          node, start, restarts := Some(start[0]), start[1..], restarts + 1;
        }
        if childNodes[node.value].element {
          diff := diff + 1;
          CountByElement(childNodes, elem, node.value, 0, node.value + 1);
          if node.value == elem {
            forwardMark := Some(Mark(dirruns, nodeIndex, diff));
            break;
          }
        }
      }
    }

    /** The elements from `n` on have marks of this run. */
    ghost predicate MarkedFrom(n: nat, dirruns: nat)
      reads this`backwardMarks
    {
      forall e :: n <= e < |childNodes| && childNodes[e].element ==> e in backwardMarks && backwardMarks[e].0 == dirruns
    }

    /** The plain count from one end, remembering every element passed if `useCache`. */
    method SeekFromEnd(elem: nat, ofType: bool, forward: bool, useCache: bool, dirruns: nat) returns (diff: nat)
      requires elem < |childNodes| && (useCache ==> !ofType && !forward)
      requires Counts(childNodes, ofType, elem, elem) && Valid(dirruns)
      modifies this`backwardMarks
      ensures Valid(dirruns)
      ensures diff == Position(childNodes, ofType, forward, elem)
      ensures if useCache then MarkedFrom(elem, dirruns) else backwardMarks == old(backwardMarks)
    {
      var node := if forward then 0 else |childNodes| - 1;
      diff := 0;
      while true
        invariant if forward then 0 <= node <= elem else elem <= node < |childNodes|
        invariant diff == if forward then Count(childNodes, ofType, elem, 0, node)
                                     else Count(childNodes, ofType, elem, node + 1, |childNodes|)
        invariant Valid(dirruns)
        invariant if useCache then MarkedFrom(node + 1, dirruns) else backwardMarks == old(backwardMarks)
        decreases if forward then elem - node else node - elem
      {
        if !forward {
          CountFromLow(childNodes, ofType, elem, node, |childNodes|);
        }
        if Counts(childNodes, ofType, elem, node) {
          diff := diff + 1;
          if useCache {
            CountByElement(childNodes, elem, node, node, |childNodes|);
            backwardMarks := backwardMarks[node := (dirruns, diff)];
          }
          if node == elem {
            break;
          }
        }
        node := if forward then node + 1 else node - 1;
      }
    }

    /** The nth pseudo-classes: `an+b` with a = first and b = last. */
    method MatchesNth(elem: nat, ofType: bool, forward: bool, xml: bool, first: int, last: int, dirruns: nat)
      returns (r: bool)
      requires elem < |childNodes| && childNodes[elem].element && Valid(dirruns)
      modifies this
      ensures Valid(dirruns)
      ensures r <==> InCycle(first, last, Position(childNodes, ofType, forward, elem))
    {
      if first == 1 && last == 0 {
        assert 1 * Position(childNodes, ofType, forward, elem) + 0 == Position(childNodes, ofType, forward, elem);
        return true;
      }
      var useCache := !xml && !ofType;
      var diff: int;
      if forward && useCache {
        ghost var restarts;
        diff, restarts := SeekForward(elem, dirruns);
      } else if useCache && elem in backwardMarks && backwardMarks[elem].0 == dirruns {
        diff := backwardMarks[elem].1;
      } else {
        diff := SeekFromEnd(elem, ofType, forward, useCache, dirruns);
      }
      CycleTestMeaning(diff, first, last);
      diff := diff - last;
      r := CycleTest(diff, first);
    }

    /** first-child, last-child and only-child and their of-type forms: no sibling
        that counts on the side or sides looked at. */
    method MatchesSimple(elem: nat, ofType: bool, last: bool, only: bool) returns (r: bool)
      requires elem < |childNodes| && childNodes[elem].element && !(last && only)
      ensures r <==>
        && (last || Position(childNodes, ofType, true, elem) == 1)
        && (last || only ==> Position(childNodes, ofType, false, elem) == 1)
    {
      CountZero(childNodes, ofType, elem, 0, elem);
      CountFromLow(childNodes, ofType, elem, elem, |childNodes|);
      CountZero(childNodes, ofType, elem, elem + 1, |childNodes|);
      var next := last;
      while true
        invariant next ==> last || (only && Position(childNodes, ofType, true, elem) == 1)
        decreases !next
      {
        var node := elem;
        while (if next then node + 1 < |childNodes| else node > 0)
          invariant if next then elem <= node < |childNodes| else 0 <= node <= elem
          invariant forall j :: (elem < j <= node || node <= j < elem) ==> !Counts(childNodes, ofType, elem, j)
          decreases if next then |childNodes| - node else node
        {
          node := if next then node + 1 else node - 1;
          if Counts(childNodes, ofType, elem, node) {
            return false;
          }
        }
        if !only || next {
          return true;
        }
        next := true;
      }
    }
  }
}
