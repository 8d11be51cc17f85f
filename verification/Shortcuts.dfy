// The shortcuts of Sizzle's `select`: starting at the element that a leading id names, and
// fetching a seed by one filter of the last compound.  Why they select what the whole
// selector does, and what an id that occurs twice changes.

module Shortcuts {
  import opened Wrappers
  import opened Document
  import opened Selector
  import DocumentOrder

  /** Only the document node and elements have children, and the document node is not an element. */
  ghost predicate IsDocument(doc: Tree) {
    && !doc.element
    && forall p: Path :: p != [] && At(doc, p).Some? && At(doc, p).value.children != [] ==> At(doc, p).value.element
  }

  predicate IsBelow(n: Path, p: Path) {
    |n| < |p| && p[..|n|] == n
  }

  /** `n.getElementsByTagName("*")` */
  function Inside(doc: Tree, n: Path): seq<Path> {
    if n == [] then Elements(doc) else Where(Elements(doc), p => IsBelow(n, p))
  }

  /** Whether a finder gives a result on this kind of document and context. */
  predicate Available(f: Finder, xml: bool, context: Path) {
    match f
    case NoFinder => false
    case ByTag => true
    case ByClass => !xml
    case ById => !xml && context == []
  }

  /** What the finder of a filter fetches below `context`: an id only its first element. */
  function Find(doc: Tree, context: Path, t: Token): seq<Path>
    requires t.Filter?
  {
    if t.finder == ById then
      var all := Where(Elements(doc), t.test);
      if all == [] then [] else [all[0]]
    else Where(Inside(doc, context), t.test)
  }

  predicate IsFirst(doc: Tree, test: Path -> bool, p: Path) {
    var all := Where(Elements(doc), test);
    all != [] && all[0] == p
  }

  function OnlyFirst(doc: Tree, test: Path -> bool): Path -> bool {
    p => IsFirst(doc, test, p)
  }

  /** The selector with the id at position `k`, if it is one, meaning the first element that has it. */
  function Pinned(ts: seq<Token>, k: nat, doc: Tree): (r: seq<Token>)
    ensures |r| == |ts|
  {
    if k < |ts| && ts[k].Filter? && ts[k].finder == ById
    then ts[k := Filter(OnlyFirst(doc, ts[k].test), ById)]
    else ts
  }

  /** Whether `select` starts at the element that the first token names. */
  predicate StartsAtId(ts: seq<Token>, xml: bool) {
    |ts| > 2 && ts[0].Filter? && ts[0].finder == ById && !xml && ts[1].Relative?
  }

  /** needsContext: a leading `>`, `+` or `~`. */
  predicate NeedsContext(ts: seq<Token>) {
    ts != [] && ts[0].Relative? && (ts[0].first || ts[0].dir == PreviousSibling)
  }

  /** The filter that fetches the seed: the last one of the last compound with a finder at
      work, among the first `i` tokens; |ts| if there is none. */
  function SeedAt(ts: seq<Token>, i: nat, xml: bool, context: Path): (k: nat)
    requires i <= |ts|
    ensures k < |ts| ==> k < i && ts[k].Filter? && Available(ts[k].finder, xml, context)
    ensures forall j :: (if k < |ts| then k else i) <= j < i && k < |ts| ==> ts[j].Filter?
    ensures k <= |ts|
  {
    if i == 0 || ts[i - 1].Relative? then |ts|
    else if Available(ts[i - 1].finder, xml, context) then i - 1
    else SeedAt(ts, i - 1, xml, context)
  }

  function SeedOf(ts: seq<Token>, xml: bool, context: Path): nat {
    if NeedsContext(ts) then |ts| else SeedAt(ts, |ts|, xml, context)
  }

  /** The token whose finder `select` uses first, or |ts|. */
  function Used(ts: seq<Token>, xml: bool): nat {
    if StartsAtId(ts, xml) then 0 else SeedOf(ts, xml, [])
  }

  /** `context.parentNode || context` */
  function ParentOr(context: Path): Path {
    if context == [] then [] else Init(context)
  }

  /** `a` is an element with the id that `t` names. */
  predicate HasId(doc: Tree, t: Token, a: Path) {
    t.Filter? && t.finder == ById && IsElement(doc, a) && t.test(a)
  }

  /** No two elements of the document have an id that the selector names. */
  ghost predicate IdsUnique(ts: seq<Token>, doc: Tree) {
    forall k, a, b :: 0 <= k < |ts| && HasId(doc, ts[k], a) && HasId(doc, ts[k], b) ==> a == b
  }

  // ----- The elements of a document -----------------------------------------------------

  lemma {:induction false} WhereMember(ps: seq<Path>, test: Path -> bool, p: Path)
    ensures p in Where(ps, test) <==> p in ps && test(p)
    decreases |ps|
  {
    if ps != [] {
      WhereMember(ps[1..], test, p);
      assert ps == [ps[0]] + ps[1..];
    }
  }

  lemma ElementsExact(doc: Tree, p: Path)
    ensures p in Elements(doc) <==> p != [] && IsElement(doc, p)
  {
    WhereMember(ChildNodes(doc, [], 0), q => IsElement(doc, q), p);
    ListedExact(doc, p);
  }

  lemma ListedExact(doc: Tree, p: Path)
    ensures p in ChildNodes(doc, [], 0) <==> p != [] && InDoc(doc, p)
  {
    var all := ChildNodes(doc, [], 0);
    DocumentOrder.ChildNodesInOrder(doc, [], 0);
    if p == [] {
      assert forall k :: 0 <= k < |all| ==> |all[k]| > 0;
    } else {
      DocumentOrder.ChildNodesExact(doc, [], 0, p);
      assert [] + p == p;
    }
  }

  lemma {:induction false} WhereInOrder(ps: seq<Path>, test: Path -> bool)
    requires DocumentOrder.InOrder(ps)
    ensures DocumentOrder.InOrder(Where(ps, test))
    decreases |ps|
  {
    if ps != [] {
      var rest := Where(ps[1..], test);
      assert forall i, j :: 0 <= i < j < |ps[1..]| ==> ps[1..][i] == ps[i + 1] && ps[1..][j] == ps[j + 1];
      WhereInOrder(ps[1..], test);
      forall k | 0 <= k < |rest| ensures DocumentOrder.Before(ps[0], rest[k]) {
        WhereMember(ps[1..], test, rest[k]);
        var j :| 0 <= j < |ps[1..]| && ps[1..][j] == rest[k];
        assert ps[j + 1] == rest[k];
      }
    }
  }

  lemma AllSame(w: seq<Path>)
    requires DocumentOrder.InOrder(w) && forall k :: 0 <= k < |w| ==> w[k] == w[0]
    ensures |w| <= 1
  {
    if |w| > 1 {
      Apart(w, 0, 1);
    }
  }

  lemma Apart(w: seq<Path>, i: nat, j: nat)
    requires DocumentOrder.InOrder(w) && i < j < |w|
    ensures w[i] != w[j]
  {
    DocumentOrder.BeforeIrreflexive(w[i]);
  }

  lemma ElementsInOrder(doc: Tree)
    ensures DocumentOrder.InOrder(Elements(doc))
  {
    DocumentOrder.ChildNodesInOrder(doc, [], 0);
    WhereInOrder(ChildNodes(doc, [], 0), p => IsElement(doc, p));
  }

  /** In document order only one place holds the first element. */
  lemma FirstOnly(doc: Tree, test: Path -> bool)
    ensures var all := Where(Elements(doc), test);
      Where(Elements(doc), OnlyFirst(doc, test)) == if all == [] then [] else [all[0]]
  {
    var es, pin := Elements(doc), OnlyFirst(doc, test);
    var all, w := Where(es, test), Where(es, pin);
    ElementsInOrder(doc);
    WhereInOrder(es, pin);
    forall k | 0 <= k < |w| ensures all != [] && w[k] == all[0] {
      WhereMember(es, pin, w[k]);
      assert w[k] in w;
    }
    AllSame(w);
    assert w != [] ==> w[0] in w;
    if all != [] {
      WhereMember(es, test, all[0]);
      WhereMember(es, pin, all[0]);
      assert all[0] in all && all[0] in w;
      assert w == [w[0]];
    }
  }

  // ----- The seed ---------------------------------------------------------------------------

  /** Matching what is left against what the finder fetched selects what the selector does,
      with a fetched id standing for its first element. */
  lemma SeedKeeps(ts: seq<Token>, i: nat, doc: Tree, context: Path, sc: Scope)
    requires i < |ts| && ts[i].Filter? && (ts[i].finder == ById ==> context == [])
    requires forall k :: i < k < |ts| ==> ts[k].Filter?
    ensures Kept([ts[..i] + ts[i + 1..]], Find(doc, context, ts[i]), sc)
      == Kept([Pinned(ts, i, doc)], Inside(doc, context), sc)
  {
    var pinned := Pinned(ts, i, doc);
    assert pinned[..i] + pinned[i + 1..] == ts[..i] + ts[i + 1..];
    SeedKeepsAll(pinned, i, Inside(doc, context), sc);
    if ts[i].finder == ById {
      FirstOnly(doc, ts[i].test);
    }
  }

  // ----- Starting at an element ---------------------------------------------------------------

  lemma {:induction false} AlongParents(e: Path, k: nat)
    ensures Along(ParentNode, e, k) == if k <= |e| then Some(e[..|e| - k]) else None
    decreases k
  {
    if k == 0 {
      assert e[..|e|] == e;
    } else if e != [] {
      AlongParents(Init(e), k - 1);
      assert k <= |e| ==> Init(e)[..|e| - k] == e[..|e| - k];
    }
  }

  /** What stands between an element and a node above it is an element. */
  lemma AboveIsElement(doc: Tree, e: Path, j: nat)
    requires IsDocument(doc) && InDoc(doc, e) && 0 < j < |e|
    ensures IsElement(doc, e[..|e| - j])
  {
    var p := e[..|e| - j];
    DocumentOrder.PrefixInDoc(doc, e, |e| - j);
    DocumentOrder.PrefixInDoc(doc, e, |e| - j + 1);
    var q := e[..|e| - j + 1];
    assert Init(q) == p && At(doc, q).Some?;
    ParentIsElement(doc, q);
  }

  lemma ParentIsElement(doc: Tree, q: Path)
    requires IsDocument(doc) && |q| > 1 && InDoc(doc, q)
    ensures IsElement(doc, Init(q))
  {
    var p := Init(q);
    assert p != [] && At(doc, p).Some? && Last(q) < |At(doc, p).value.children|;
  }

  /** It makes no difference whether the walk to an element stops at elements only. */
  lemma ReachesElement(doc: Tree, rel: Token, all: bool, e: Path, n: Path)
    requires IsDocument(doc) && rel.Relative? && InDoc(doc, e) && n != [] && IsElement(doc, n)
    requires all ==> rel.dir == ParentNode
    ensures Reaches(doc, rel, all, e, n) <==> Reaches(doc, rel, false, e, n)
  {
    if all {
      forall k: nat ensures ReachesAt(doc, rel, true, e, n, k) <==> ReachesAt(doc, rel, false, e, n, k) {
        ReachesElementAt(doc, rel, e, n, k);
      }
    }
  }

  lemma ReachesElementAt(doc: Tree, rel: Token, e: Path, n: Path, k: nat)
    requires IsDocument(doc) && rel.Relative? && rel.dir == ParentNode && InDoc(doc, e) && n != [] && IsElement(doc, n)
    ensures ReachesAt(doc, rel, true, e, n, k) <==> ReachesAt(doc, rel, false, e, n, k)
  {
    AlongParents(e, k);
    if Along(ParentNode, e, k) == Some(n) {
      forall j | 0 < j < k
        ensures Along(ParentNode, e, j).Some? && Visible(doc, Along(ParentNode, e, j).value, true)
        ensures Visible(doc, Along(ParentNode, e, j).value, false)
      {
        AlongParents(e, j);
        AboveIsElement(doc, e, j);
      }
    }
  }

  /** From the context `n`, the rest of a selector selects what the selector selects whose first
      token names `n` alone. */
  lemma {:induction false} RestMeaning(ts: seq<Token>, doc: Tree, n: Path, e: Path)
    requires IsDocument(doc) && n != [] && IsElement(doc, n) && InDoc(doc, e)
    requires |ts| > 1 && ts[0].Filter? && (forall p :: ts[0].test(p) <==> p == n) && ts[1].Relative?
    ensures Selects(ts[1..], e, Scope(doc, Single(n), false)) <==> Selects(ts, e, Scope(doc, DOCUMENT, false))
    decreases |ts|
  {
    var near, far := Scope(doc, Single(n), false), Scope(doc, DOCUMENT, false);
    var init, last := ts[..|ts| - 1], ts[|ts| - 1];
    if |ts| == 2 {
      assert ts[1..] == [last] && [last][..0] == [] && init == [ts[0]] && init[..0] == [];
      ReachesElement(doc, last, last.dir == ParentNode, e, n);
      assert forall a :: Selects(init, a, far) <==> a == n;
      assert InContext(near, n);
    } else {
      assert ts[1..][..|ts| - 2] == init[1..];
      if last.Filter? {
        RestMeaning(init, doc, n, e);
      } else {
        forall a | Reaches(doc, last, false, e, a) ensures Selects(init[1..], a, near) <==> Selects(init, a, far) {
          RestMeaning(init, doc, n, a);
        }
      }
    }
  }

  // ----- Where the selected elements are --------------------------------------------------------

  predicate Sibling(t: Token) {
    t.Relative? && t.dir == PreviousSibling
  }

  lemma {:induction false} AlongSiblings(e: Path, k: nat, a: Path)
    requires Along(PreviousSibling, e, k) == Some(a) && e != []
    ensures a != [] && Init(a) == Init(e) && |a| == |e|
    decreases k
  {
    if k > 0 {
      var q := Step(PreviousSibling, e).value;
      assert Init(q) == Init(e);
      AlongSiblings(q, k - 1, a);
    }
  }

  lemma AlongBelow(dir: Dir, e: Path, k: nat, a: Path, m: Path)
    requires Along(dir, e, k) == Some(a) && IsBelow(m, a)
    ensures IsBelow(m, e)
  {
    if dir == ParentNode {
      AlongParents(e, k);
      assert a[..|m|] == e[..|a|][..|m|] == e[..|m|];
    } else if e != [] {
      AlongSiblings(e, k, a);
      assert a[..|m|] == Init(a)[..|m|] && e[..|m|] == Init(e)[..|m|];
    }
  }

  /** What the selector selects from the context `n` lies below `n`, or with a leading sibling
      combinator below its parent. */
  lemma {:induction false} SelectedBelow(ts: seq<Token>, doc: Tree, n: Path, e: Path)
    requires n != [] && ts != [] && ts[0].Relative?
    requires Selects(ts, e, Scope(doc, Single(n), false))
    ensures IsBelow(if Sibling(ts[0]) then Init(n) else n, e)
    decreases |ts|
  {
    var sc := Scope(doc, Single(n), false);
    var init, last := ts[..|ts| - 1], ts[|ts| - 1];
    var m := if Sibling(ts[0]) then Init(n) else n;
    if |ts| == 1 {
      var a :| Reaches(doc, last, last.dir == ParentNode, e, a) && InContext(sc, a);
      var k :| ReachesAt(doc, last, last.dir == ParentNode, e, a, k);
      FirstStepBelow(last.dir, e, k, n);
    } else if last.Filter? {
      SelectedBelow(init, doc, n, e);
    } else {
      var a :| Reaches(doc, last, false, e, a) && Selects(init, a, sc);
      var k :| ReachesAt(doc, last, false, e, a, k);
      SelectedBelow(init, doc, n, a);
      AlongBelow(last.dir, e, k, a, m);
    }
  }

  lemma FirstStepBelow(dir: Dir, e: Path, k: nat, n: Path)
    requires n != [] && k > 0 && Along(dir, e, k) == Some(n)
    ensures IsBelow(if dir == PreviousSibling then Init(n) else n, e)
  {
    if dir == ParentNode {
      AlongParents(e, k);
    } else if e != [] {
      AlongSiblings(e, k, n);
    }
  }

  /** Candidates that the selector does not select may be left out. */
  lemma {:induction false} KeptAmong(ts: seq<Token>, ps: seq<Path>, test: Path -> bool, sc: Scope)
    requires forall p :: p in ps && Selects(ts, p, sc) ==> test(p)
    ensures Kept([ts], Where(ps, test), sc) == Kept([ts], ps, sc)
    decreases |ps|
  {
    if ps != [] {
      var init, last := ps[..|ps| - 1], ps[|ps| - 1];
      KeptAmong(ts, init, test, sc);
      WhereSnoc(ps, test);
      assert SelectsAny([ts], last, sc) <==> Selects([ts][0], last, sc);
      var w := Where(init, test);
      if test(last) {
        assert (w + [last])[..|w|] == w;
      } else {
        assert w + [] == w;
      }
    }
  }

  /** So from an element it is enough to look below it, or below its parent. */
  lemma KeptInside(ts: seq<Token>, doc: Tree, n: Path, m: Path)
    requires n != [] && ts != [] && ts[0].Relative?
    requires (m == n && !Sibling(ts[0])) || m == Init(n)
    ensures var sc := Scope(doc, Single(n), false); Kept([ts], Inside(doc, m), sc) == Kept([ts], Elements(doc), sc)
  {
    var sc := Scope(doc, Single(n), false);
    if m != [] {
      forall p | p in Elements(doc) && Selects(ts, p, sc) ensures IsBelow(m, p) {
        SelectedBelow(ts, doc, n, p);
        if m == Init(n) {
          assert p[..|n|] == n ==> p[..|n| - 1] == n[..|n| - 1];
        }
      }
      KeptAmong(ts, Elements(doc), p => IsBelow(m, p), sc);
    }
  }

  lemma {:induction false} KeptSame(ts: seq<Token>, us: seq<Token>, ps: seq<Path>, sc: Scope, ss: Scope)
    requires forall p :: p in ps ==> (Selects(ts, p, sc) <==> Selects(us, p, ss))
    ensures Kept([ts], ps, sc) == Kept([us], ps, ss)
    decreases |ps|
  {
    if ps != [] {
      var last := ps[|ps| - 1];
      KeptSame(ts, us, ps[..|ps| - 1], sc, ss);
      assert SelectsAny([ts], last, sc) <==> Selects([ts][0], last, sc);
      assert SelectsAny([us], last, ss) <==> Selects([us][0], last, ss);
    }
  }

  lemma {:induction false} KeptNone(ts: seq<Token>, ps: seq<Path>, sc: Scope)
    requires forall p :: p in ps ==> !Selects(ts, p, sc)
    ensures Kept([ts], ps, sc) == []
    decreases |ps|
  {
    if ps != [] {
      KeptNone(ts, ps[..|ps| - 1], sc);
      assert SelectsAny([ts], ps[|ps| - 1], sc) <==> Selects([ts][0], ps[|ps| - 1], sc);
    }
  }

  /** Starting at the first element with the id selects what the selector with that id pinned does. */
  lemma IdStart(ts: seq<Token>, doc: Tree, n: Path)
    requires IsDocument(doc) && StartsAtId(ts, false) && IsFirst(doc, ts[0].test, n)
    ensures n != [] && IsElement(doc, n)
    ensures Kept([ts[1..]], Elements(doc), Scope(doc, Single(n), false))
      == Kept([Pinned(ts, 0, doc)], Elements(doc), Scope(doc, DOCUMENT, false))
  {
    var pinned := Pinned(ts, 0, doc);
    WhereMember(Elements(doc), ts[0].test, n);
    assert n in Where(Elements(doc), ts[0].test);
    ElementsExact(doc, n);
    assert pinned[1..] == ts[1..];
    forall p | p in Elements(doc)
      ensures Selects(ts[1..], p, Scope(doc, Single(n), false)) <==> Selects(pinned, p, Scope(doc, DOCUMENT, false))
    {
      ElementsExact(doc, p);
      RestMeaning(pinned, doc, n, p);
    }
    KeptSame(ts[1..], pinned, Elements(doc), Scope(doc, Single(n), false), Scope(doc, DOCUMENT, false));
  }

  /** Without such an element nothing is selected. */
  lemma NoStart(ts: seq<Token>, doc: Tree)
    requires StartsAtId(ts, false) && Where(Elements(doc), ts[0].test) == []
    ensures Kept([Pinned(ts, 0, doc)], Elements(doc), Scope(doc, DOCUMENT, false)) == []
  {
    var pinned, sc := Pinned(ts, 0, doc), Scope(doc, DOCUMENT, false);
    forall p ensures !Selects(pinned, p, sc) {
      NothingSelected(pinned, p, sc);
    }
    KeptNone(pinned, Elements(doc), sc);
  }

  /** Without an element for its first token a selector selects nothing. */
  lemma {:induction false} NothingSelected(ts: seq<Token>, e: Path, sc: Scope)
    requires ts != [] && ts[0].Filter? && forall p :: !ts[0].test(p)
    ensures !Selects(ts, e, sc)
    decreases |ts|
  {
    if |ts| > 1 {
      var init := ts[..|ts| - 1];
      forall a ensures !Selects(init, a, sc) {
        NothingSelected(init, a, sc);
      }
    }
  }

  // ----- What `select` matches against what ---------------------------------------------------------

  /** The rest of the selector, matched against the seed. */
  lemma SeedSelects(ts: seq<Token>, i: nat, doc: Tree, context: Path, xml: bool)
    requires ts != [] && (context != [] ==> ts[0].Relative? && !xml)
    requires i < |ts| && ts[i].Filter? && Available(ts[i].finder, xml, context) && !NeedsContext(ts)
    requires forall k :: i < k < |ts| ==> ts[k].Filter?
    ensures var sc := Scope(doc, Single(context), xml);
      Kept([ts[..i] + ts[i + 1..]], Find(doc, if Sibling(ts[0]) then ParentOr(context) else context, ts[i]), sc)
      == Kept([Pinned(ts, i, doc)], Elements(doc), sc)
  {
    SeedKeeps(ts, i, doc, context, Scope(doc, Single(context), xml));
    if context != [] {
      KeptInside(ts, doc, context, context);
    }
  }

  /** All candidates, without a seed. */
  lemma CandidatesSuffice(ts: seq<Token>, doc: Tree, context: Path, xml: bool, plusOrTilde: bool)
    requires ts != [] && (context != [] ==> ts[0].Relative? && !xml)
    requires plusOrTilde || forall k :: 0 <= k < |ts| ==> !Sibling(ts[k])
    ensures var sc := Scope(doc, Single(context), xml);
      Kept([ts], Inside(doc, if plusOrTilde then ParentOr(context) else context), sc) == Kept([ts], Elements(doc), sc)
  {
    if context != [] {
      KeptInside(ts, doc, context, if plusOrTilde then Init(context) else context);
    }
  }

  // ----- What a query answers -----------------------------------------------------------------

  /** `results` are the elements that the selector selects, each once and in document order. */
  ghost predicate AnswersQuery(ts: seq<Token>, doc: Tree, sc: Scope, results: seq<Path>) {
    && DocumentOrder.InOrder(results)
    && forall p :: p in results <==> p != [] && At(doc, p).Some? && At(doc, p).value.element && Selects(ts, p, sc)
  }

  lemma {:induction false} KeptMember(ts: seq<Token>, ps: seq<Path>, sc: Scope, p: Path)
    ensures p in Kept([ts], ps, sc) <==> p in ps && Selects(ts, p, sc)
    decreases |ps|
  {
    if ps != [] {
      var init, last := ps[..|ps| - 1], ps[|ps| - 1];
      KeptMember(ts, init, sc, p);
      assert SelectsAny([ts], last, sc) <==> Selects([ts][0], last, sc);
      assert ps == init + [last];
    }
  }

  lemma {:induction false} KeptInOrder(ts: seq<Token>, ps: seq<Path>, sc: Scope)
    requires DocumentOrder.InOrder(ps)
    ensures DocumentOrder.InOrder(Kept([ts], ps, sc))
    decreases |ps|
  {
    if ps != [] {
      var init, last := ps[..|ps| - 1], ps[|ps| - 1];
      var rest := Kept([ts], init, sc);
      KeptInOrder(ts, init, sc);
      forall k | 0 <= k < |rest| ensures DocumentOrder.Before(rest[k], last) {
        KeptMember(ts, init, sc, rest[k]);
        var j :| 0 <= j < |init| && init[j] == rest[k];
        assert ps[j] == rest[k];
      }
    }
  }

  lemma KeptAnswers(ts: seq<Token>, doc: Tree, sc: Scope)
    ensures AnswersQuery(ts, doc, sc, Kept([ts], Elements(doc), sc))
  {
    ElementsInOrder(doc);
    KeptInOrder(ts, Elements(doc), sc);
    forall p ensures p in Kept([ts], Elements(doc), sc)
                     <==> p != [] && At(doc, p).Some? && At(doc, p).value.element && Selects(ts, p, sc) {
      KeptMember(ts, Elements(doc), sc, p);
      ElementsExact(doc, p);
    }
  }

  // ----- Ids that occur once ---------------------------------------------------------------------

  /** Where an id occurs once, pinning it changes nothing. */
  lemma {:induction false} PinnedSelects(ts: seq<Token>, k: nat, doc: Tree, e: Path, sc: Scope)
    requires IsDocument(doc) && IdsUnique(ts, doc) && sc.doc == doc && IsElement(doc, e)
    ensures Selects(Pinned(ts, k, doc), e, sc) <==> Selects(ts, e, sc)
    decreases |ts|
  {
    if k < |ts| && ts[k].Filter? && ts[k].finder == ById {
      var pinned := Pinned(ts, k, doc);
      var n := |ts| - 1;
      var init, last := ts[..n], ts[n];
      assert IdsUnique(init, doc);
      if k == n {
        PinnedTest(ts, k, doc, e);
        assert pinned[..n] == init;
      } else {
        assert pinned[..n] == Pinned(init, k, doc) && pinned[n] == last;
        if last.Filter? {
          PinnedSelects(init, k, doc, e, sc);
        } else {
          forall a | Reaches(doc, last, false, e, a)
            ensures Selects(Pinned(init, k, doc), a, sc) <==> Selects(init, a, sc)
          {
            PinnedSelects(init, k, doc, a, sc);
          }
        }
      }
    }
  }

  lemma PinnedTest(ts: seq<Token>, k: nat, doc: Tree, e: Path)
    requires IsDocument(doc) && IdsUnique(ts, doc) && IsElement(doc, e)
    requires k < |ts| && ts[k].Filter? && ts[k].finder == ById
    ensures IsFirst(doc, ts[k].test, e) <==> ts[k].test(e)
  {
    var all := Where(Elements(doc), ts[k].test);
    ElementsExact(doc, e);
    WhereMember(Elements(doc), ts[k].test, e);
    if all != [] {
      assert all[0] in all;
      WhereMember(Elements(doc), ts[k].test, all[0]);
      ElementsExact(doc, all[0]);
      assert HasId(doc, ts[k], all[0]) && (ts[k].test(e) ==> HasId(doc, ts[k], e));
    }
  }

  lemma PinnedUnique(ts: seq<Token>, k: nat, doc: Tree, sc: Scope)
    requires IsDocument(doc) && sc.doc == doc
    ensures IdsUnique(ts, doc) ==> Kept([Pinned(ts, k, doc)], Elements(doc), sc) == Kept([ts], Elements(doc), sc)
  {
    if IdsUnique(ts, doc) {
      forall p | p in Elements(doc) ensures Selects(Pinned(ts, k, doc), p, sc) <==> Selects(ts, p, sc) {
        ElementsExact(doc, p);
        PinnedSelects(ts, k, doc, p, sc);
      }
      KeptSame(Pinned(ts, k, doc), ts, Elements(doc), sc, sc);
    }
  }

  // ----- Ids that occur twice --------------------------------------------------------------------

  const LEAF := Tree.Node(true, [])
  const BRANCH := Tree.Node(true, [LEAF])
  const TWIN := Tree.Node(false, [BRANCH, BRANCH])

  lemma {:induction false} TwinNodes(p: Path)
    requires At(TWIN, p).Some?
    ensures At(TWIN, p).value == if p == [] then TWIN else if |p| == 1 then BRANCH else LEAF
    ensures |p| <= 2
  {
    if p != [] {
      TwinNodes(Init(p));
    }
  }

  lemma TwinFirst(test: Path -> bool)
    requires test([0])
    ensures forall p :: IsFirst(TWIN, test, p) <==> p == [0]
  {
    var all := ChildNodes(TWIN, [], 0);
    assert [] + [0] == [0];
    assert all[0] == NodesFrom(BRANCH, [] + [0])[0] == [0];
    TwinElement([0]);
    assert Elements(TWIN)[0] == [0];
  }

  lemma TwinElement(p: Path)
    requires p == [0] || p == [1] || p == [1, 0]
    ensures IsElement(TWIN, p) && p in Elements(TWIN)
  {
    assert Init([0]) == [] && Init([1]) == [] && Init([1, 0]) == [1];
    assert At(TWIN, []) == Some(TWIN);
    assert At(TWIN, [1]) == Some(BRANCH);
    ElementsExact(TWIN, p);
  }

  /** Two elements with one id, and an element in each: the selector asks for both, but `select`
      starts at the first and misses the element in the second. */
  lemma DuplicateIdMisses()
    ensures var ts := [Filter(p => |p| == 1, ById), DESCENDANT, Filter(p => |p| == 2, NoFinder)];
      var sc := Scope(TWIN, DOCUMENT, false);
      && IsDocument(TWIN) && [1, 0] in Elements(TWIN) && Selects(ts, [1, 0], sc)
      && !Selects(Pinned(ts, Used(ts, false), TWIN), [1, 0], sc)
  {
    var id, inner := Filter(p => |p| == 1, ById), Filter(p => |p| == 2, NoFinder);
    var ts := [id, DESCENDANT, inner];
    var sc := Scope(TWIN, DOCUMENT, false);
    forall p: Path | p != [] && At(TWIN, p).Some? ensures At(TWIN, p).value.element {
      TwinNodes(p);
    }
    TwinElement([1]);
    TwinElement([1, 0]);
    assert ts[..2] == [id, DESCENDANT] && [id, DESCENDANT][..1] == [id] && [id][..0] == [];
    assert Init([1, 0]) == [1] && Along(ParentNode, [1, 0], 1) == Some([1]);
    assert ReachesAt(TWIN, DESCENDANT, false, [1, 0], [1], 1);
    assert Reaches(TWIN, DESCENDANT, false, [1, 0], [1]) && Selects([id], [1], sc);
    assert Selects([id, DESCENDANT], [1, 0], sc);
    var pinned := Pinned(ts, 0, TWIN);
    TwinElement([0]);
    TwinFirst(id.test);
    RestMeaning(pinned, TWIN, [0], [1, 0]);
    if Selects(pinned[1..], [1, 0], Scope(TWIN, Single([0]), false)) {
      SelectedBelow(pinned[1..], TWIN, [0], [1, 0]);
    }
  }
}
