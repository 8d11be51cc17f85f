// A stand-in for Array.prototype.sort: some arrangement that its comparison accepts.

module Sorting {

  /** `le` orders the members of `s`, perhaps with ties. */
  ghost predicate Orders<T>(le: (T, T) -> bool, s: seq<T>) {
    && (forall i, j :: 0 <= i < |s| && 0 <= j < |s| ==> le(s[i], s[j]) || le(s[j], s[i]))
    && (forall i, j, k :: 0 <= i < |s| && 0 <= j < |s| && 0 <= k < |s| && le(s[i], s[j]) && le(s[j], s[k]) ==>
      le(s[i], s[k]))
  }

  ghost predicate SortedBy<T>(le: (T, T) -> bool, s: seq<T>) {
    forall i, j :: 0 <= i < j < |s| ==> le(s[i], s[j])
  }

  lemma SameMembers<T>(a: seq<T>, b: seq<T>)
    requires multiset(a) == multiset(b)
    ensures forall x :: x in a <==> x in b
  {
    forall x ensures x in a <==> x in b {
      assert x in a <==> x in multiset(a);
      assert x in b <==> x in multiset(b);
    }
  }

  /** `s.sort(...)` with a comparison that is positive exactly where `le` fails. */
  method Sort<T>(s: seq<T>, le: (T, T) -> bool) returns (r: seq<T>)
    requires Orders(le, s)
    ensures multiset(r) == multiset(s) && SortedBy(le, r)
  {
    r := [];
    for i := 0 to |s|
      invariant multiset(r) == multiset(s[..i]) && SortedBy(le, r)
    {
      var k := |r|;
      while k > 0 && !le(r[k - 1], s[i])
        invariant 0 <= k <= |r|
        invariant forall j :: k <= j < |r| ==> !le(r[j], s[i])
      {
        k := k - 1;
      }
      Inserted(s, i, le, r, k);
      InsertedSame(r, k, s[i]);
      assert s[..i + 1] == s[..i] + [s[i]];
      r := r[..k] + [s[i]] + r[k..];
    }
    assert s[..|s|] == s;
  }

  lemma InsertedSame<T>(r: seq<T>, k: nat, x: T)
    requires k <= |r|
    ensures multiset(r[..k] + [x] + r[k..]) == multiset(r) + multiset{x}
  {
    assert r == r[..k] + r[k..];
  }

  lemma Placed<T>(s: seq<T>, i: nat, r: seq<T>)
    requires i < |s| && multiset(r) == multiset(s[..i])
    ensures forall j :: 0 <= j < |r| ==> r[j] in s
  {
    SameMembers(r, s[..i]);
    forall j | 0 <= j < |r| ensures r[j] in s {
      assert r[j] in s[..i];
    }
  }

  lemma Inserted<T>(s: seq<T>, i: nat, le: (T, T) -> bool, r: seq<T>, k: nat)
    requires i < |s| && Orders(le, s) && multiset(r) == multiset(s[..i]) && SortedBy(le, r) && k <= |r|
    requires forall j :: k <= j < |r| ==> !le(r[j], s[i])
    requires k > 0 ==> le(r[k - 1], s[i])
    ensures SortedBy(le, r[..k] + [s[i]] + r[k..])
  {
    var x := s[i];
    Placed(s, i, r);
    forall j | 0 <= j < k ensures le(r[j], x) {
      var m :| 0 <= m < |s| && s[m] == r[j];
      var n :| 0 <= n < |s| && s[n] == r[k - 1];
      assert j < k - 1 ==> le(s[m], s[n]) && le(s[n], s[i]);
    }
    forall j | k <= j < |r| ensures le(x, r[j]) {
      var m :| 0 <= m < |s| && s[m] == r[j];
      assert !le(s[m], s[i]);
    }
    var t := r[..k] + [x] + r[k..];
    forall a, b | 0 <= a < b < |t| ensures le(t[a], t[b]) {
      assert t[a] == if a < k then r[a] else if a == k then x else r[a - 1];
      assert t[b] == if b < k then r[b] else if b == k then x else r[b - 1];
    }
  }
}
