// jqGrid's htmlEncode and htmlDecode: each is four global replacements, one after
// the other.  Both equal a single pass over the text, and so undo each other.

module HtmlCodec {
  import opened Sequences

  // ----- Global replacement --------------------------------------------------

  predicate StartsWith(s: string, p: string) {
    |p| <= |s| && s[..|p|] == p
  }

  /** `s.replace(/p/g, r)`: the matches from left to right, none overlapping. */
  function Replace(s: string, p: string, r: string): string
    requires p != ""
    decreases |s|
  {
    if s == "" then ""
    else if StartsWith(s, p) then r + Replace(s[|p|..], p, r)
    else [s[0]] + Replace(s[1..], p, r)
  }

  /** htmlEncode; a falsy value is the empty string here. */
  function Encode(s: string): string {
    Replace(Replace(Replace(Replace(s, "&", "&amp;"), "\"", "&quot;"), "<", "&lt;"), ">", "&gt;")
  }

  const NO_BREAK_SPACE: char := 160 as char

  /** htmlDecode */
  function Decode(s: string): string {
    if s == "&nbsp;" || s == "&#160;" || s == [NO_BREAK_SPACE] then ""
    else Replacements(s)
  }

  function Replacements(s: string): string {
    Replace(Replace(Replace(Replace(s, "&gt;", ">"), "&lt;", "<"), "&quot;", "\""), "&amp;", "&")
  }

  // ----- The same in one pass ---------------------------------------------------

  /** The entities in the order in which htmlDecode looks for them. */
  function Entity(i: nat): (p: string)
    requires i < 4
    ensures |p| >= 4 && p[0] == '&' && '&' !in p[1..]
  {
    if i == 0 then "&gt;" else if i == 1 then "&lt;" else if i == 2 then "&quot;" else "&amp;"
  }

  function Meant(i: nat): char
    requires i < 4
  {
    if i == 0 then '>' else if i == 1 then '<' else if i == 2 then '"' else '&'
  }

  /** The one of the first `k` entities at the front of `s`, or `k`. */
  function Front(s: string, k: nat): (i: nat)
    requires k <= 4
    ensures i <= k && (i < k ==> StartsWith(s, Entity(i)))
    ensures i == k ==> forall j :: 0 <= j < k ==> !StartsWith(s, Entity(j))
  {
    if k == 0 then 0
    else
      var i := Front(s, k - 1);
      if i < k - 1 then i else if StartsWith(s, Entity(k - 1)) then k - 1 else k
  }

  /** Decodes the first `k` entities from left to right. */
  function OnePass(s: string, k: nat): string
    requires k <= 4
    decreases |s|
  {
    if s == "" then ""
    else
      var i := Front(s, k);
      if i < k then [Meant(i)] + OnePass(s[|Entity(i)|..], k)
      else [s[0]] + OnePass(s[1..], k)
  }

  function Encoded(c: char): string {
    if c == '&' then "&amp;" else if c == '"' then "&quot;"
    else if c == '<' then "&lt;" else if c == '>' then "&gt;" else [c]
  }

  function Charwise(s: string): string {
    if s == "" then "" else Encoded(s[0]) + Charwise(s[1..])
  }

  // ----- htmlDecode is one pass ---------------------------------------------------

  /** One pass leaves text without entity characters where it is, and makes none. */
  lemma {:induction false} PlainKept(s: string, k: nat, q: string)
    requires k <= 3
    requires forall j :: 0 <= j < |q| ==> q[j] !in "&<>\""
    ensures StartsWith(OnePass(s, k), q) <==> StartsWith(s, q)
    ensures StartsWith(s, q) ==> OnePass(s, k) == q + OnePass(s[|q|..], k)
    decreases |q|
  {
    if q != "" && s != "" {
      var i := Front(s, k);
      var t := OnePass(s, k);
      StartsAt(s, q);
      StartsAt(t, q);
      if i < k {
        assert s[0] == Entity(i)[0] == '&';
      } else {
        PlainKept(s[1..], k, q[1..]);
        assert t[1..] == OnePass(s[1..], k);
        if StartsWith(s, q) {
          assert s[1..][|q[1..]|..] == s[|q|..];
          assert q == [s[0]] + q[1..];
        }
      }
    }
  }

  lemma StartsAt(s: string, q: string)
    requires s != "" && q != ""
    ensures StartsWith(s, q) <==> s[0] == q[0] && StartsWith(s[1..], q[1..])
  {
    if s[0] == q[0] && StartsWith(s[1..], q[1..]) {
      assert s[..|q|] == [s[0]] + s[1..][..|q| - 1];
    }
    if StartsWith(s, q) {
      assert s[..|q|][0] == q[0];
      assert s[1..][..|q| - 1] == s[..|q|][1..];
    }
  }

  lemma EntityIsPlain(i: nat)
    requires i < 4
    ensures forall j :: 0 <= j < |Entity(i)[1..]| ==> Entity(i)[1..][j] !in "&<>\""
  {
  }

  lemma ReplaceHit(p: string, rest: string, r: string)
    requires p != ""
    ensures Replace(p + rest, p, r) == r + Replace(rest, p, r)
  {
    assert (p + rest)[..|p|] == p && (p + rest)[|p|..] == rest;
  }

  lemma ReplaceMiss(c: char, rest: string, p: string, r: string)
    requires p != "" && !StartsWith([c] + rest, p)
    ensures Replace([c] + rest, p, r) == [c] + Replace(rest, p, r)
  {
    assert ([c] + rest)[1..] == rest;
  }

  /** One pass at a text that starts with one of the entities looked for. */
  lemma PassEntity(s: string, k: nat, i: nat)
    requires k <= 4 && s != "" && Front(s, k) == i < k
    ensures OnePass(s, k) == [Meant(i)] + OnePass(s[|Entity(i)|..], k)
  {
  }

  lemma PassPlain(s: string, k: nat)
    requires k <= 4 && s != "" && Front(s, k) == k
    ensures OnePass(s, k) == [s[0]] + OnePass(s[1..], k)
  {
  }

  lemma {:induction false} NextReplacement(s: string, k: nat)
    requires k <= 3
    ensures Replace(OnePass(s, k), Entity(k), [Meant(k)]) == OnePass(s, k + 1)
    decreases |s|
  {
    if s != "" {
      var i, t, p, r := Front(s, k), OnePass(s, k), Entity(k), [Meant(k)];
      StartsAt(t, p);
      if i < k {
        PassEntity(s, k, i);
        PassEntity(s, k + 1, i);
        NextReplacement(s[|Entity(i)|..], k);
        ReplaceMiss(Meant(i), OnePass(s[|Entity(i)|..], k), p, r);
      } else {
        PassPlain(s, k);
        StartsUnchanged(s, k);
        if StartsWith(s, p) {
          PassEntity(s, k + 1, k);
          NextReplacement(s[|p|..], k);
          ReplaceHit(p, OnePass(s[|p|..], k), r);
        } else {
          PassPlain(s, k + 1);
          NextReplacement(s[1..], k);
          ReplaceMiss(s[0], OnePass(s[1..], k), p, r);
        }
      }
    }
  }

  /** The next entity stands at the front after one pass exactly if it did before. */
  lemma StartsUnchanged(s: string, k: nat)
    requires k <= 3 && s != "" && Front(s, k) == k
    ensures StartsWith(OnePass(s, k), Entity(k)) <==> StartsWith(s, Entity(k))
    ensures StartsWith(s, Entity(k)) ==> OnePass(s, k) == Entity(k) + OnePass(s[|Entity(k)|..], k)
  {
    var t, p, u := OnePass(s, k), Entity(k), OnePass(s[1..], k);
    PassPlain(s, k);
    assert t[0] == s[0] && t[1..] == u;
    StartsAt(t, p);
    StartsAt(s, p);
    EntityIsPlain(k);
    PlainKept(s[1..], k, p[1..]);
    if StartsWith(s, p) {
      Shifted(s, |p|);
      HeadAndTail(s[0], p, OnePass(s[|p|..], k));
    }
  }

  lemma Shifted(s: string, n: nat)
    requires 0 < n <= |s|
    ensures s[1..][n - 1..] == s[n..]
  {
  }

  lemma HeadAndTail(c: char, p: string, rest: string)
    requires p != "" && p[0] == c
    ensures [c] + (p[1..] + rest) == p + rest
  {
    assert p == [c] + p[1..];
  }

  lemma {:induction false} NoneIsIdentity(s: string)
    ensures OnePass(s, 0) == s
  {
    if s != "" {
      NoneIsIdentity(s[1..]);
    }
  }

  /** Decoding &amp; last, the four replacements never decode what one of them produced. */
  lemma DecodeIsOnePass(s: string)
    ensures Replacements(s) == OnePass(s, 4)
  {
    NoneIsIdentity(s);
    NextReplacement(s, 0);
    NextReplacement(s, 1);
    NextReplacement(s, 2);
    NextReplacement(s, 3);
  }

  // ----- htmlEncode is one pass -----------------------------------------------------

  /** What the first `k` replacements of htmlEncode make of one character. */
  function EncodedBy(c: char, k: nat): string {
    if (c == '&' && k >= 1) || (c == '"' && k >= 2) || (c == '<' && k >= 3) || (c == '>' && k >= 4)
    then Encoded(c) else [c]
  }

  function CharwiseBy(s: string, k: nat): string {
    if s == "" then "" else EncodedBy(s[0], k) + CharwiseBy(s[1..], k)
  }

  function Target(k: nat): char {
    if k == 0 then '&' else if k == 1 then '"' else if k == 2 then '<' else '>'
  }

  /** Replacing one character goes through a text block by block. */
  lemma {:induction false} ReplaceChar(a: string, b: string, c: char, r: string)
    ensures Replace(a + b, [c], r) == Replace(a, [c], r) + Replace(b, [c], r)
    decreases |a|
  {
    if a == "" {
      assert a + b == b;
    } else {
      ReplaceChar(a[1..], b, c, r);
      assert a == [a[0]] + a[1..] && a + b == [a[0]] + (a[1..] + b);
      if a[0] == c {
        ReplaceHit([c], a[1..], r);
        ReplaceHit([c], a[1..] + b, r);
        Associate(r, Replace(a[1..], [c], r), Replace(b, [c], r));
      } else {
        ReplaceMiss(a[0], a[1..], [c], r);
        ReplaceMiss(a[0], a[1..] + b, [c], r);
        Associate([a[0]], Replace(a[1..], [c], r), Replace(b, [c], r));
      }
    }
  }

  lemma {:induction false} ReplaceAbsent(a: string, c: char, r: string)
    requires c !in a
    ensures Replace(a, [c], r) == a
  {
    if a != "" {
      ReplaceAbsent(a[1..], c, r);
      assert [a[0]] + a[1..] == a;
    }
  }

  lemma BlockStep(c: char, k: nat)
    requires k < 4
    ensures Replace(EncodedBy(c, k), [Target(k)], Encoded(Target(k))) == EncodedBy(c, k + 1)
  {
    if c == Target(k) {
      assert Replace([c][1..], [c], Encoded(c)) == "";
    } else {
      ReplaceAbsent(EncodedBy(c, k), Target(k), Encoded(Target(k)));
    }
  }

  lemma {:induction false} NextEncoding(s: string, k: nat)
    requires k < 4
    ensures Replace(CharwiseBy(s, k), [Target(k)], Encoded(Target(k))) == CharwiseBy(s, k + 1)
  {
    if s != "" {
      NextEncoding(s[1..], k);
      BlockStep(s[0], k);
      ReplaceChar(EncodedBy(s[0], k), CharwiseBy(s[1..], k), Target(k), Encoded(Target(k)));
    }
  }

  lemma {:induction false} CharwiseEnds(s: string)
    ensures CharwiseBy(s, 0) == s && CharwiseBy(s, 4) == Charwise(s)
  {
    if s != "" {
      CharwiseEnds(s[1..]);
    }
  }

  /** Encoding & first, no replacement touches what an earlier one produced. */
  lemma EncodeIsCharwise(s: string)
    ensures Encode(s) == Charwise(s)
  {
    CharwiseEnds(s);
    NextEncoding(s, 0);
    NextEncoding(s, 1);
    NextEncoding(s, 2);
    NextEncoding(s, 3);
  }

  // ----- Round trip -------------------------------------------------------------------

  lemma {:induction false} DecodesBlock(c: char, rest: string)
    ensures OnePass(Encoded(c) + rest, 4) == [c] + OnePass(rest, 4)
  {
    var s := Encoded(c) + rest;
    var k := if c == '>' then 0 else if c == '<' then 1 else if c == '"' then 2 else 3;
    if c in "&<>\"" {
      assert Encoded(c) == Entity(k) && Meant(k) == c;
      assert s[..|Entity(k)|] == Entity(k) && s[|Entity(k)|..] == rest;
      OneFront(s, k);
    } else {
      assert s[0] == c && s[1..] == rest;
      forall j | 0 <= j < 4 ensures !StartsWith(s, Entity(j)) {
        StartsAt(s, Entity(j));
      }
    }
  }

  lemma OneFront(s: string, k: nat)
    requires k < 4 && StartsWith(s, Entity(k))
    ensures Front(s, 4) == k
  {
    var j := Front(s, 4);
    assert j < 4;
    assert s[..|Entity(j)|][1] == s[1] == s[..|Entity(k)|][1];
    assert Entity(j)[1] == Entity(k)[1];
  }

  lemma {:induction false} OnePassUndoes(s: string)
    ensures OnePass(Charwise(s), 4) == s
  {
    if s != "" {
      OnePassUndoes(s[1..]);
      DecodesBlock(s[0], Charwise(s[1..]));
    }
  }

  /** Decoding undoes encoding for every text but a lone no-break space. */
  lemma RoundTripIff(s: string)
    ensures Decode(Encode(s)) == s <==> s != [NO_BREAK_SPACE]
  {
    EncodeIsCharwise(s);
    var t := Charwise(s);
    DecodeIsOnePass(t);
    OnePassUndoes(s);
    var nbsp := [NO_BREAK_SPACE];
    assert Charwise(nbsp[1..]) == "" && Charwise(nbsp) == nbsp;
    OnePassUndoes(nbsp);
    assert t == nbsp <==> s == nbsp;
    NotAnEntity(s);
  }

  /** An encoded text has no & other than those of its own entities. */
  lemma NotAnEntity(s: string)
    ensures Charwise(s) != "&nbsp;" && Charwise(s) != "&#160;"
  {
    if s != "" {
      var t := Charwise(s);
      if t[0] == '&' {
        assert t[1] == Encoded(s[0])[1];
        assert "&nbsp;"[1] == 'n' && "&#160;"[1] == '#';
      }
    }
  }

  /** Different texts have different encodings. */
  lemma EncodeInjective(s: string, t: string)
    requires Encode(s) == Encode(t)
    ensures s == t
  {
    EncodeIsCharwise(s);
    EncodeIsCharwise(t);
    OnePassUndoes(s);
    OnePassUndoes(t);
  }

  // ----- What is left in the text --------------------------------------------------------

  /** Only the empty text and the three ways to write a lone no-break space decode to nothing. */
  lemma DecodesToNothingIff(s: string)
    ensures Decode(s) == "" <==> s == "" || s == "&nbsp;" || s == "&#160;" || s == [NO_BREAK_SPACE]
  {
    DecodeIsOnePass(s);
  }

  /** A `&` at `i` begins one of the four entities. */
  ghost predicate BeginsEntity(t: string, i: nat)
    requires i < |t|
  {
    var rest := t[i..];
    StartsWith(rest, "&amp;") || StartsWith(rest, "&quot;") || StartsWith(rest, "&lt;") || StartsWith(rest, "&gt;")
  }

  ghost predicate Safe(t: string) {
    forall i :: 0 <= i < |t| ==> t[i] != '<' && t[i] != '>' && t[i] != '"' && (t[i] == '&' ==> BeginsEntity(t, i))
  }

  lemma BlockSafe(c: char)
    ensures Safe(Encoded(c))
  {
    var t := Encoded(c);
    assert t[0..] == t;
  }

  lemma SafeConcat(a: string, b: string)
    requires Safe(a) && Safe(b)
    ensures Safe(a + b)
  {
    var t := a + b;
    forall i | 0 <= i < |t|
      ensures t[i] != '<' && t[i] != '>' && t[i] != '"' && (t[i] == '&' ==> BeginsEntity(t, i))
    {
      if i < |a| {
        assert t[i] == a[i] && t[i..] == a[i..] + b;
        if a[i] == '&' {
          Begins(a, i, b);
        }
      } else {
        assert t[i] == b[i - |a|] && t[i..] == b[i - |a|..];
      }
    }
  }

  lemma Begins(a: string, i: nat, b: string)
    requires i < |a| && BeginsEntity(a, i)
    ensures BeginsEntity(a + b, i)
  {
    assert (a + b)[i..] == a[i..] + b;
    assert forall p :: StartsWith(a[i..], p) ==> (a[i..] + b)[..|p|] == a[i..][..|p|];
  }

  /** An encoded text has no `<`, `>` or `"`, and no `&` but those of its entities. */
  lemma EncodedIsSafe(s: string)
    ensures Safe(Encode(s))
  {
    EncodeIsCharwise(s);
    CharwiseSafe(s);
  }

  lemma {:induction false} CharwiseSafe(s: string)
    ensures Safe(Charwise(s))
  {
    if s != "" {
      CharwiseSafe(s[1..]);
      BlockSafe(s[0]);
      SafeConcat(Encoded(s[0]), Charwise(s[1..]));
    }
  }
}
