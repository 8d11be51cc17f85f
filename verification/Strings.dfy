// Strings as JavaScript orders them, and the keys by which jqGrid sorts text.

module Strings {

  /** `a < b`: by character codes, a proper prefix first. */
  predicate Less(a: string, b: string) {
    if b == "" then false
    else if a == "" then true
    else a[0] < b[0] || (a[0] == b[0] && Less(a[1..], b[1..]))
  }

  lemma {:induction false} LessTotal(a: string, b: string)
    ensures Less(a, b) || Less(b, a) || a == b
    ensures !(Less(a, b) && Less(b, a)) && !Less(a, a)
  {
    if a != "" {
      LessTotal(a[1..], a[1..]);
      if b != "" {
        LessTotal(a[1..], b[1..]);
        assert a == [a[0]] + a[1..] && b == [b[0]] + b[1..];
      }
    }
  }

  lemma {:induction false} LessTransitive(a: string, b: string, c: string)
    requires Less(a, b) && Less(b, c)
    ensures Less(a, c)
  {
    if a != "" && a[0] == b[0] == c[0] {
      LessTransitive(a[1..], b[1..], c[1..]);
    }
  }

  // ----- Ranks ------------------------------------------------------------------

  /** One more than the number of characters. */
  const BASE := 1114113.0

  /** A place among the real numbers for every string, in their order. */
  function TextRank(s: string): (r: real)
    ensures 0.0 <= r < 1.0
  {
    if s == "" then 0.0 else ((s[0] as int + 1) as real + TextRank(s[1..])) / BASE
  }

  lemma {:induction false} LessRank(a: string, b: string)
    requires Less(a, b)
    ensures TextRank(a) < TextRank(b)
  {
    if a != "" && a[0] == b[0] {
      LessRank(a[1..], b[1..]);
    }
  }

  lemma RankOrder(a: string, b: string)
    ensures Less(a, b) <==> TextRank(a) < TextRank(b)
    ensures a == b <==> TextRank(a) == TextRank(b)
  {
    LessTotal(a, b);
    if Less(a, b) {
      LessRank(a, b);
    } else if Less(b, a) {
      LessRank(b, a);
    }
  }

  // ----- Sort keys of text ---------------------------------------------------------

  /** The characters that jQuery.trim removes. */
  predicate Blank(c: char) {
    c as int in {9, 10, 11, 12, 13, 32, 160, 5760, 8232, 8233, 8239, 8287, 12288, 65279} || 8192 <= c as int <= 8202
  }

  function TrimLeft(s: string): string {
    if s != "" && Blank(s[0]) then TrimLeft(s[1..]) else s
  }

  function TrimRight(s: string): string {
    if s != "" && Blank(s[|s| - 1]) then TrimRight(s[..|s| - 1]) else s
  }

  function Trim(s: string): string {
    TrimRight(TrimLeft(s))
  }

  function Lower(s: string): (r: string)
    ensures |r| == |s|
  {
    seq(|s|, k requires 0 <= k < |s| => if 'A' <= s[k] <= 'Z' then (s[k] as int + 32) as char else s[k])
  }

  /** `findSortKey` of a text column. */
  function SortKey(cell: string, useCase: bool): string {
    var trimmed := if cell == "" then "" else Trim(cell);
    if useCase then trimmed else Lower(trimmed)
  }

  // ----- What these functions mean ----------------------------------------------------

  /** At `k` string `a` ends or has the smaller character; before it they agree. */
  ghost predicate LessAt(a: string, b: string, k: nat) {
    k <= |a| && k < |b| && a[..k] == b[..k] && (k < |a| ==> a[k] < b[k])
  }

  lemma {:induction false} LessMeaning(a: string, b: string)
    ensures Less(a, b) <==> exists k: nat :: LessAt(a, b, k)
    decreases |a|
  {
    if b != "" && a == "" {
      assert LessAt(a, b, 0);
    } else if b != "" {
      LessMeaning(a[1..], b[1..]);
      if a[0] < b[0] {
        assert LessAt(a, b, 0);
      }
      forall k: nat | k > 0 ensures LessAt(a, b, k) <==> a[0] == b[0] && LessAt(a[1..], b[1..], k - 1) {
        LessShifts(a, b, k);
      }
      if a[0] == b[0] && Less(a[1..], b[1..]) {
        var k: nat :| LessAt(a[1..], b[1..], k);
        assert LessAt(a, b, k + 1);
      }
    }
  }

  lemma LessShifts(a: string, b: string, k: nat)
    requires a != "" && b != "" && k > 0
    ensures LessAt(a, b, k) <==> a[0] == b[0] && LessAt(a[1..], b[1..], k - 1)
  {
    if k <= |a| && k <= |b| {
      assert a[..k] == [a[0]] + a[1..][..k - 1] && b[..k] == [b[0]] + b[1..][..k - 1];
      assert a[1..][..k - 1] == a[..k][1..] && b[1..][..k - 1] == b[..k][1..];
      assert a[..k][0] == a[0] && b[..k][0] == b[0];
    }
  }

  /** `s[i..j]` is what is left of `s` when blanks are taken off both ends. */
  ghost predicate Trims(s: string, i: nat, j: nat) {
    && i <= j <= |s|
    && (forall k :: 0 <= k < i || j <= k < |s| ==> Blank(s[k]))
    && (i < j ==> !Blank(s[i]) && !Blank(s[j - 1]))
  }

  lemma TrimMeaning(s: string)
    ensures exists i: nat, j: nat :: Trims(s, i, j) && Trim(s) == s[i..j]
  {
    var i := LeftBlanks(s);
    var j := RightBlanks(s[i..]);
    assert s[i..][..j] == s[i..i + j];
    forall k | i + j <= k < |s| ensures Blank(s[k]) {
      assert s[k] == s[i..][k - i];
    }
    assert Trims(s, i, i + j);
  }

  lemma {:induction false} LeftBlanks(s: string) returns (i: nat)
    ensures i <= |s| && TrimLeft(s) == s[i..]
    ensures (forall k :: 0 <= k < i ==> Blank(s[k])) && (i < |s| ==> !Blank(s[i]))
  {
    i := 0;
    if s != "" && Blank(s[0]) {
      i := LeftBlanks(s[1..]);
      assert s[1..][i..] == s[i + 1..];
      assert forall k :: 1 <= k < i + 1 ==> s[k] == s[1..][k - 1];
      i := i + 1;
    }
  }

  lemma {:induction false} RightBlanks(s: string) returns (j: nat)
    ensures j <= |s| && TrimRight(s) == s[..j]
    ensures (forall k :: j <= k < |s| ==> Blank(s[k])) && (j > 0 ==> !Blank(s[j - 1]))
  {
    j := |s|;
    if s != "" && Blank(s[|s| - 1]) {
      j := RightBlanks(s[..|s| - 1]);
      assert s[..|s| - 1][..j] == s[..j];
      assert forall k :: 0 <= k < |s| - 1 ==> s[..|s| - 1][k] == s[k];
    } else {
      assert s[..|s|] == s;
    }
  }

  /** The same letter, perhaps one of them in upper case. */
  ghost predicate SameLetter(x: char, y: char) {
    || x == y
    || ('A' <= x <= 'Z' && y as int == x as int + 32)
    || ('A' <= y <= 'Z' && x as int == y as int + 32)
  }

  /** Lower-casing makes texts equal that differ in case alone, and leaves no capital. */
  lemma LowerMeaning(s: string, t: string)
    ensures Lower(s) == Lower(t) <==> |s| == |t| && forall k :: 0 <= k < |s| ==> SameLetter(s[k], t[k])
    ensures forall k :: 0 <= k < |s| ==> SameLetter(s[k], Lower(s)[k]) && !('A' <= Lower(s)[k] <= 'Z')
  {
    if Lower(s) == Lower(t) {
      forall k | 0 <= k < |s| ensures SameLetter(s[k], t[k]) {
        assert Lower(s)[k] == Lower(t)[k];
      }
    }
    if |s| == |t| && forall k :: 0 <= k < |s| ==> SameLetter(s[k], t[k]) {
      forall k | 0 <= k < |s| ensures Lower(s)[k] == Lower(t)[k] {
        assert SameLetter(s[k], t[k]);
      }
    }
  }

  /** Text cells have one sort key exactly if they are the same text between their outer blanks,
      or, with case ignored, the same letters. */
  lemma SortKeyMeaning(a: string, b: string, useCase: bool)
    ensures SortKey(a, useCase) == SortKey(b, useCase) <==>
      if useCase then Trim(a) == Trim(b)
      else |Trim(a)| == |Trim(b)| && forall k :: 0 <= k < |Trim(a)| ==> SameLetter(Trim(a)[k], Trim(b)[k])
  {
    assert Trim("") == "";
    LowerMeaning(Trim(a), Trim(b));
  }
}
