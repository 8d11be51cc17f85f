// What a selector means, and how Sizzle compiles it.
//
// `Selects` reads a token list from right to left with existentials over the
// document.  `Matcher` is the shape of the closures the compiler builds, and
// `Holds` is what running such a closure without any caching decides.

module Selector {
  import opened Wrappers
  import opened Document
  import Sequences

  /** The function that Expr.find has for a token's type. */
  datatype Finder = NoFinder | ByTag | ByClass | ById

  /** A simple filter is an arbitrary boolean test.  A relative token carries the two
      fields of its entry in Expr.relative. */
  datatype Token = Filter(test: Path -> bool, finder: Finder) | Relative(dir: Dir, first: bool)

  const DESCENDANT := Relative(ParentNode, false)

  datatype Context = Single(node: Path) | Many(nodes: seq<Path>)

  datatype Scope = Scope(doc: Tree, context: Context, xml: bool)

  const DOCUMENT := Single([])

  // ----- Meaning of a token list -------------------------------------------

  /** Nodes a walk may stop at: elements, and any node when it looks for a context among ancestors. */
  predicate Visible(doc: Tree, a: Path, all: bool) {
    all || IsElement(doc, a)
  }

  /** `a` lies at distance `k` from `e`, and is the nearest visible such node if `rel.first`. */
  ghost predicate ReachesAt(doc: Tree, rel: Token, all: bool, e: Path, a: Path, k: nat)
    requires rel.Relative?
  {
    && k > 0
    && Along(rel.dir, e, k) == Some(a)
    && Visible(doc, a, all)
    && (rel.first ==> forall j :: 0 < j < k && Along(rel.dir, e, j).Some? ==>
      !Visible(doc, Along(rel.dir, e, j).value, all))
  }

  ghost predicate Reaches(doc: Tree, rel: Token, all: bool, e: Path, a: Path)
    requires rel.Relative?
  {
    exists k: nat :: ReachesAt(doc, rel, all, e, a, k)
  }

  predicate InContext(sc: Scope, a: Path) {
    match sc.context
    case Single(n) => a == n
    case Many(ns) => a in ns
  }

  ghost predicate ReachesContext(sc: Scope, rel: Token, e: Path)
    requires rel.Relative?
  {
    exists a :: Reaches(sc.doc, rel, rel.dir == ParentNode, e, a) && InContext(sc, a)
  }

  predicate Unscoped(sc: Scope) {
    sc.xml || sc.context == DOCUMENT
  }

  ghost predicate Selects(ts: seq<Token>, e: Path, sc: Scope)
    decreases |ts|
  {
    if ts == [] then
      Unscoped(sc) || ReachesContext(sc, DESCENDANT, e)
    else
      var init, last := ts[..|ts| - 1], ts[|ts| - 1];
      match last
      case Filter(test, _) => test(e) && Selects(init, e, sc)
      case Relative(_, _) =>
        if init == [] then ReachesContext(sc, last, e)
        else exists a :: Reaches(sc.doc, last, false, e, a) && Selects(init, a, sc)
  }

  // ----- Compiled closures and the search without caches -------------------

  datatype Matcher =
    | Test(test: Path -> bool)
    | IsContext
    | InContexts
    | Combinator(inner: Matcher, rel: Token, all: bool, doneName: nat)
    | ContextGuard(leading: bool, matchContext: Matcher, matchAnyContext: Matcher)
    | AllOf(matchers: seq<Matcher>)

  ghost predicate Holds(m: Matcher, e: Path, sc: Scope)
    decreases m, 1, 0
  {
    match m
    case Test(test) => test(e)
    case IsContext => sc.context == Single(e)
    case InContexts => sc.context.Many? && e in sc.context.nodes
    case Combinator(_, rel, _, _) =>
      if !rel.Relative? then false
      else if rel.first then HoldsAtNearest(m, e, sc)
      else HoldsBeyond(m, e, sc)
    case ContextGuard(leading, single, any) =>
      || (!leading && Unscoped(sc))
      || (if sc.context.Single? then Holds(single, e, sc) else Holds(any, e, sc))
    case AllOf(ms) => forall k :: 0 <= k < |ms| ==> Holds(ms[k], e, sc)
  }

  /** The inner matcher of `c` holds at some node strictly beyond `e`. */
  ghost predicate HoldsBeyond(c: Matcher, e: Path, sc: Scope)
    requires c.Combinator? && c.rel.Relative?
    decreases c, 0, Remaining(c.rel.dir, e)
  {
    StepDecreases(c.rel.dir, e);
    match Step(c.rel.dir, e)
    case None => false
    case Some(n) => (Visible(sc.doc, n, c.all) && Holds(c.inner, n, sc)) || HoldsBeyond(c, n, sc)
  }

  /** The inner matcher of `c` holds at the nearest visible node beyond `e`. */
  ghost predicate HoldsAtNearest(c: Matcher, e: Path, sc: Scope)
    requires c.Combinator? && c.rel.Relative?
    decreases c, 0, Remaining(c.rel.dir, e)
  {
    StepDecreases(c.rel.dir, e);
    match Step(c.rel.dir, e)
    case None => false
    case Some(n) => if Visible(sc.doc, n, c.all) then Holds(c.inner, n, sc) else HoldsAtNearest(c, n, sc)
  }

  lemma {:induction false} CombinatorMeaning(c: Matcher, e: Path, sc: Scope)
    requires c.Combinator? && c.rel.Relative?
    ensures Holds(c, e, sc) <==> exists a :: Reaches(sc.doc, c.rel, c.all, e, a) && Holds(c.inner, a, sc)
    decreases Remaining(c.rel.dir, e)
  {
    StepDecreases(c.rel.dir, e);
    match Step(c.rel.dir, e)
    case None =>
    case Some(n) =>
      CombinatorMeaning(c, n, sc);
      assert Along(c.rel.dir, e, 1) == Along(c.rel.dir, n, 0) == Some(n);
      if Holds(c, e, sc) {
        if Visible(sc.doc, n, c.all) && Holds(c.inner, n, sc) {
          assert ReachesAt(sc.doc, c.rel, c.all, e, n, 1);
          assert Reaches(sc.doc, c.rel, c.all, e, n);
        } else {
          if c.rel.first {
            assert HoldsAtNearest(c, e, sc);
            assert !Visible(sc.doc, n, c.all);
          } else {
            assert HoldsBeyond(c, e, sc);
          }
          var a :| Reaches(sc.doc, c.rel, c.all, n, a) && Holds(c.inner, a, sc);
          var k :| ReachesAt(sc.doc, c.rel, c.all, n, a, k);
          ReachesFurther(sc.doc, c.rel, c.all, e, n, a, k);
        }
      }
      forall a | Reaches(sc.doc, c.rel, c.all, e, a) && Holds(c.inner, a, sc)
        ensures Holds(c, e, sc)
      {
        var k: nat :| ReachesAt(sc.doc, c.rel, c.all, e, a, k);
        if k > 1 {
          assert Along(c.rel.dir, e, k) == Along(c.rel.dir, n, k - 1);
          forall j | 0 < j < k - 1 && Along(c.rel.dir, n, j).Some?
            ensures c.rel.first ==> !Visible(sc.doc, Along(c.rel.dir, n, j).value, c.all)
          {
            assert Along(c.rel.dir, e, j + 1) == Along(c.rel.dir, n, j);
          }
          assert ReachesAt(sc.doc, c.rel, c.all, n, a, k - 1);
          assert Reaches(sc.doc, c.rel, c.all, n, a);
        }
      }
  }

  lemma ReachesFurther(doc: Tree, rel: Token, all: bool, e: Path, n: Path, a: Path, k: nat)
    requires rel.Relative? && Step(rel.dir, e) == Some(n)
    requires ReachesAt(doc, rel, all, n, a, k)
    requires rel.first ==> !Visible(doc, n, all)
    ensures Reaches(doc, rel, all, e, a)
  {
    assert Along(rel.dir, e, k + 1) == Along(rel.dir, n, k);
    forall j | 0 < j < k + 1 && Along(rel.dir, e, j).Some?
      ensures rel.first ==> !Visible(doc, Along(rel.dir, e, j).value, all)
    {
      assert Along(rel.dir, e, j) == Along(rel.dir, n, j - 1);
      if j == 1 { assert Along(rel.dir, n, 0) == Some(n); }
    }
    assert ReachesAt(doc, rel, all, e, a, k + 1);
  }

  // ----- Shape of what the compiler builds ---------------------------------

  /** Every combinator in `m` is named in lo..hi, above the names it encloses,
      and a conjunction has its only non-simple member in front, where it is asked last. */
  predicate WellFormed(m: Matcher, lo: nat, hi: nat) {
    match m
    case Test(_) => true
    case IsContext => true
    case InContexts => true
    case Combinator(inner, rel, _, name) => rel.Relative? && lo <= name < hi && WellFormed(inner, lo, name)
    case ContextGuard(_, single, any) =>
      && single.Combinator? && single.inner.IsContext? && single.rel.Relative? && lo <= single.doneName < hi
      && any.Combinator? && any.inner.InContexts? && any.rel.Relative? && lo <= any.doneName < hi
      && single.doneName != any.doneName
    case AllOf(ms) =>
      && |ms| > 1
      && WellFormed(ms[0], lo, hi)
      && forall k :: 1 <= k < |ms| ==> ms[k].Test?
  }

  ghost predicate HoldsAll(ms: seq<Matcher>, e: Path, sc: Scope) {
    forall k :: 0 <= k < |ms| ==> Holds(ms[k], e, sc)
  }

  function ElementMatcher(ms: seq<Matcher>): (m: Matcher)
    requires |ms| > 0
    ensures forall e, sc :: Holds(m, e, sc) <==> HoldsAll(ms, e, sc)
  {
    if |ms| > 1 then AllOf(ms) else ms[0]
  }

  // ----- Whole queries -----------------------------------------------------

  ghost predicate SelectsAny(groups: seq<seq<Token>>, e: Path, sc: Scope) {
    exists g :: 0 <= g < |groups| && Selects(groups[g], e, sc)
  }

  /** The candidates selected by some group, in their order. */
  ghost function Kept(groups: seq<seq<Token>>, seed: seq<Path>, sc: Scope): seq<Path> {
    if seed == [] then []
    else Kept(groups, seed[..|seed| - 1], sc)
         + (if SelectsAny(groups, seed[|seed| - 1], sc) then [seed[|seed| - 1]] else [])
  }

  ghost function Selected(groups: seq<seq<Token>>, sc: Scope): Path -> bool {
    e => exists g :: 0 <= g < |groups| && Selects(groups[g], e, sc)
  }

  /** Exactly those, each as often as it is a candidate. */
  lemma KeptMeaning(groups: seq<seq<Token>>, seed: seq<Path>, sc: Scope)
    ensures Sequences.Filters(seed, Selected(groups, sc), Kept(groups, seed, sc))
  {
    KeptIsFilter(groups, seed, sc);
    Sequences.FilterPlaces(seed, Selected(groups, sc));
  }

  lemma {:induction false} KeptIsFilter(groups: seq<seq<Token>>, seed: seq<Path>, sc: Scope)
    ensures Kept(groups, seed, sc) == Sequences.Filter(seed, Selected(groups, sc))
    decreases |seed|
  {
    if seed != [] {
      var init, last := seed[..|seed| - 1], seed[|seed| - 1];
      KeptIsFilter(groups, init, sc);
      assert Selected(groups, sc)(last) <==> SelectsAny(groups, last, sc);
      Sequences.Nothing(Kept(groups, init, sc));
    }
  }

  // ----- The four combinators ------------------------------------------------

  /** `a` is above `e`, or an earlier sibling. */
  predicate Ahead(dir: Dir, a: Path, e: Path) {
    match dir
    case ParentNode => |a| < |e| && a == e[..|a|]
    case PreviousSibling => 0 < |a| == |e| && a[..|a| - 1] == e[..|e| - 1] && a[|a| - 1] < e[|e| - 1]
  }

  predicate Element(doc: Tree, a: Path) {
    At(doc, a).Some? && At(doc, a).value.element
  }

  lemma {:induction false} AlongMeaning(dir: Dir, e: Path, k: nat)
    ensures Along(dir, e, k) ==
      if k == 0 then Some(e)
      else if dir == ParentNode then if k <= |e| then Some(e[..|e| - k]) else None
      else if e != [] && k <= e[|e| - 1] then Some(e[..|e| - 1] + [e[|e| - 1] - k])
      else None
    decreases k
  {
    if k > 0 && Step(dir, e).Some? {
      var q := Step(dir, e).value;
      AlongMeaning(dir, q, k - 1);
      if dir == ParentNode {
        assert k <= |e| ==> q[..|q| - (k - 1)] == e[..|e| - k];
        assert q[..|q|] == q;
      } else {
        assert q[..|q| - 1] == e[..|e| - 1] && q[|q| - 1] == e[|e| - 1] - 1;
      }
    }
  }

  lemma AheadIsAlong(dir: Dir, a: Path, e: Path) returns (k: nat)
    requires Ahead(dir, a, e)
    ensures k > 0 && Along(dir, e, k) == Some(a)
  {
    if dir == ParentNode {
      k := |e| - |a|;
    } else {
      k := e[|e| - 1] - a[|a| - 1];
      assert a == a[..|a| - 1] + [a[|a| - 1]];
    }
    AlongMeaning(dir, e, k);
  }

  /** A space asks for an element above, `~` for an element before among the siblings; `>` and `+`
      for the nearest, so that no element stands between. */
  lemma ReachesMeaning(doc: Tree, rel: Token, e: Path, a: Path)
    requires rel.Relative?
    ensures Reaches(doc, rel, false, e, a) <==>
      && Ahead(rel.dir, a, e) && Element(doc, a)
      && (rel.first ==> forall b :: Ahead(rel.dir, b, e) && Ahead(rel.dir, a, b) ==> !Element(doc, b))
  {
    var dir := rel.dir;
    if Reaches(doc, rel, false, e, a) {
      var k: nat :| ReachesAt(doc, rel, false, e, a, k);
      AlongMeaning(dir, e, k);
      forall b | rel.first && Ahead(dir, b, e) && Ahead(dir, a, b) ensures !Element(doc, b) {
        BetweenAlong(dir, e, a, b, k);
      }
    }
    if Ahead(dir, a, e) && Element(doc, a)
      && (rel.first ==> forall b :: Ahead(dir, b, e) && Ahead(dir, a, b) ==> !Element(doc, b)) {
      var k := AheadIsAlong(dir, a, e);
      forall j: nat | 0 < j < k && Along(dir, e, j).Some?
        ensures Ahead(dir, Along(dir, e, j).value, e) && Ahead(dir, a, Along(dir, e, j).value)
      {
        AlongBetween(dir, e, a, j, k);
      }
      assert ReachesAt(doc, rel, false, e, a, k);
    }
  }

  lemma AlongBetween(dir: Dir, e: Path, a: Path, j: nat, k: nat)
    requires 0 < j < k && Along(dir, e, k) == Some(a)
    ensures Along(dir, e, j).Some? && Ahead(dir, Along(dir, e, j).value, e) && Ahead(dir, a, Along(dir, e, j).value)
  {
    AlongMeaning(dir, e, j);
    AlongMeaning(dir, e, k);
  }

  lemma BetweenAlong(dir: Dir, e: Path, a: Path, b: Path, k: nat)
    requires Along(dir, e, k) == Some(a) && Ahead(dir, b, e) && Ahead(dir, a, b)
    ensures exists j: nat :: 0 < j < k && Along(dir, e, j) == Some(b)
  {
    var j := AheadIsAlong(dir, b, e);
    AlongMeaning(dir, e, k);
    AlongMeaning(dir, e, j);
    assert 0 < j < k && Along(dir, e, j) == Some(b);
  }

  /** A simple filter with only simple filters to its right can be asked separately. */
  lemma {:induction false} DropFilter(ts: seq<Token>, i: nat, e: Path, sc: Scope)
    requires i < |ts| && ts[i].Filter?
    requires forall k :: i < k < |ts| ==> ts[k].Filter?
    ensures Selects(ts, e, sc) <==> ts[i].test(e) && Selects(ts[..i] + ts[i + 1..], e, sc)
    decreases |ts|
  {
    var n := |ts| - 1;
    var without := ts[..i] + ts[i + 1..];
    if i == n {
      assert without == ts[..n];
    } else {
      var shorter := ts[..n];
      DropFilter(shorter, i, e, sc);
      assert without[..n - 1] == shorter[..i] + shorter[i + 1..];
      assert without[n - 1] == ts[n];
    }
  }

  /** Matching the rest of a selector against a seed of one of its filters
      selects what the whole selector selects among all candidates. */
  lemma {:induction false} SeedKeepsAll(ts: seq<Token>, i: nat, all: seq<Path>, sc: Scope)
    requires i < |ts| && ts[i].Filter?
    requires forall k :: i < k < |ts| ==> ts[k].Filter?
    ensures Kept([ts], all, sc) == Kept([ts[..i] + ts[i + 1..]], Where(all, ts[i].test), sc)
    decreases |all|
  {
    if all != [] {
      var n := |all| - 1;
      var rest := ts[..i] + ts[i + 1..];
      SeedKeepsAll(ts, i, all[..n], sc);
      DropFilter(ts, i, all[n], sc);
      WhereSnoc(all, ts[i].test);
      assert SelectsAny([ts], all[n], sc) <==> Selects([ts][0], all[n], sc);
      assert SelectsAny([rest], all[n], sc) <==> Selects([rest][0], all[n], sc);
      var w := Where(all[..n], ts[i].test);
      if ts[i].test(all[n]) {
        assert (w + [all[n]])[..|w|] == w;
      } else {
        assert w + [] == w;
      }
    }
  }

  lemma {:induction false} WhereSnoc(ps: seq<Path>, test: Path -> bool)
    requires ps != []
    ensures Where(ps, test) == Where(ps[..|ps| - 1], test) + if test(ps[|ps| - 1]) then [ps[|ps| - 1]] else []
    decreases |ps|
  {
    if |ps| > 1 {
      WhereSnoc(ps[1..], test);
      assert ps[1..][..|ps| - 2] == ps[..|ps| - 1][1..];
    }
  }

  /** With the document as context an exhausted selector holds of everything. */
  lemma {:induction false} KeptAll(seed: seq<Path>, sc: Scope)
    requires Unscoped(sc)
    ensures Kept([[]], seed, sc) == seed
    decreases |seed|
  {
    if seed != [] {
      KeptAll(seed[..|seed| - 1], sc);
      assert Selects([[]][0], seed[|seed| - 1], sc);
    }
  }
}
