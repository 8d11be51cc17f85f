// Facts about sequences that several modules use.

module Sequences {

  lemma Associate<T>(a: seq<T>, b: seq<T>, c: seq<T>)
    ensures a + (b + c) == a + b + c
  {
  }

  lemma Nothing<T>(s: seq<T>)
    ensures s + [] == s && [] + s == s
  {
  }

  lemma TakeDrop<T>(x: seq<T>, y: seq<T>, e: nat)
    requires e <= |x|
    ensures (x + y)[..e] == x[..e] && (x + y)[e..] == x[e..] + y
  {
  }

  /** Taking out the item at `i` from before `c`. */
  lemma TakeOutBefore<T>(s: seq<T>, i: nat, c: nat)
    requires i < c <= |s|
    ensures (s[..i] + s[i + 1..])[..c - 1] == s[..c][..i] + s[..c][i + 1..]
    ensures (s[..i] + s[i + 1..])[c - 1..] == s[c..]
  {
    assert s[..c][..i] == s[..i] && s[..c][i + 1..] == s[i + 1..c];
    assert s[i + 1..][..c - 1 - i] == s[i + 1..c] && s[i + 1..][c - 1 - i..] == s[c..];
  }

  /** Taking out the item at `i` from behind `c`. */
  lemma TakeOutAfter<T>(s: seq<T>, i: nat, c: nat)
    requires c <= i < |s|
    ensures (s[..i] + s[i + 1..])[..c] == s[..c]
    ensures (s[..i] + s[i + 1..])[c..] == s[c..][..i - c] + s[c..][i - c + 1..]
  {
    assert s[c..][..i - c] == s[..i][c..] && s[c..][i - c + 1..] == s[i + 1..];
  }

  // ----- Selections ---------------------------------------------------------------

  /** `r` holds the items of `s` at the places `at`, from left to right. */
  ghost predicate Picks<T>(s: seq<T>, at: seq<nat>, r: seq<T>) {
    && |at| == |r| && (forall i :: 0 <= i < |r| ==> at[i] < |s| && r[i] == s[at[i]])
    && (forall i, j :: 0 <= i < j < |at| ==> at[i] < at[j])
  }

  ghost predicate PicksAll<T>(s: seq<T>, at: seq<nat>, keep: T -> bool) {
    forall k: nat :: k < |s| ==> (k in at <==> keep(s[k]))
  }

  /** `r` holds exactly the items of `s` with `keep`, in their order and as often as they occur. */
  ghost predicate Filters<T>(s: seq<T>, keep: T -> bool, r: seq<T>) {
    exists at: seq<nat> :: Picks(s, at, r) && PicksAll(s, at, keep)
  }

  /** The items with `keep`. */
  ghost function Filter<T>(s: seq<T>, keep: T -> bool): seq<T> {
    if s == [] then []
    else
      var rest, last := Filter(s[..|s| - 1], keep), s[|s| - 1];
      if keep(last) then rest + [last] else rest
  }

  lemma FilterNext<T>(s: seq<T>, keep: T -> bool, x: T)
    ensures Filter(s + [x], keep) == if keep(x) then Filter(s, keep) + [x] else Filter(s, keep)
  {
    assert (s + [x])[..|s|] == s;
  }

  lemma {:induction false} FilterSame<T>(s: seq<T>, keep: T -> bool, same: T -> bool)
    requires forall x :: x in s ==> (keep(x) <==> same(x))
    ensures Filter(s, keep) == Filter(s, same)
    decreases |s|
  {
    if s != [] {
      FilterSame(s[..|s| - 1], keep, same);
    }
  }

  /** Which items they are, and where they stood. */
  lemma {:induction false} FilterPlaces<T>(s: seq<T>, keep: T -> bool)
    ensures Filters(s, keep, Filter(s, keep))
    decreases |s|
  {
    if s == [] {
      assert Picks(s, [], []) && PicksAll(s, [], keep);
    } else {
      var init := s[..|s| - 1];
      FilterPlaces(init, keep);
      var at: seq<nat> :| Picks(init, at, Filter(init, keep)) && PicksAll(init, at, keep);
      PicksNext(s, at, Filter(init, keep), keep);
    }
  }

  /** How often each occurs. */
  lemma {:induction false} FilterCount<T>(s: seq<T>, keep: T -> bool, x: T)
    ensures multiset(Filter(s, keep))[x] == if keep(x) then multiset(s)[x] else 0
    decreases |s|
  {
    if s != [] {
      FilterCount(s[..|s| - 1], keep, x);
      assert s == s[..|s| - 1] + [s[|s| - 1]];
    }
  }

  lemma PicksNext<T>(s: seq<T>, at: seq<nat>, r: seq<T>, keep: T -> bool)
    requires s != [] && Picks(s[..|s| - 1], at, r) && PicksAll(s[..|s| - 1], at, keep)
    ensures Filters(s, keep, if keep(s[|s| - 1]) then r + [s[|s| - 1]] else r)
  {
    var n := |s| - 1;
    forall k: nat | k < n ensures k in at <==> keep(s[k]) {
      assert s[..n][k] == s[k];
    }
    NotPicked(at, n);
    if keep(s[n]) {
      var more := at + [n];
      assert forall k :: k in more <==> k in at || k == n;
      assert Picks(s, more, r + [s[n]]) && PicksAll(s, more, keep);
    } else {
      assert Picks(s, at, r) && PicksAll(s, at, keep);
    }
  }

  lemma NotPicked(at: seq<nat>, n: nat)
    requires forall i :: 0 <= i < |at| ==> at[i] < n
    ensures n !in at
  {
  }
}
