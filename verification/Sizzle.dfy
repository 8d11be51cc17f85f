// Sizzle's compiler and its right-to-left matcher with the memo cells it
// leaves on elements.

module Sizzle {
  import opened Wrappers
  import opened Document
  import opened Selector
  import opened Shortcuts
  import Sequences

  datatype Memo = Unset | True | Runs(n: nat)

  /** `elem[expando][dir] = [dirkey, data]`, where dirkey joins the run and the combinator's name. */
  datatype Cell = Cell(run: nat, name: nat, data: Memo)

  /** The expando objects of all nodes, as one dictionary. */
  type Expando = map<(Path, Dir), Cell>

  predicate Current(x: Expando, key: (Path, Dir), run: nat, name: nat) {
    key in x && x[key].run == run && x[key].name == name
  }

  // ----- What a memo promises ----------------------------------------------

  /** The memo left by combinator `c` at node `p`.  Under `strict`, a number equal
      to `runs` also says that nothing further along the direction matches. */
  ghost predicate MemoSound(c: Matcher, p: Path, sc: Scope, data: Memo, runs: nat, strict: bool)
    requires c.Combinator? && c.rel.Relative?
  {
    match data
    case Unset => false
    case True => Holds(c.inner, p, sc)
    case Runs(n) => !Holds(c.inner, p, sc) && n <= runs && (strict && n == runs ==> !HoldsBeyond(c, p, sc))
  }

  ghost predicate CellsSound(c: Matcher, sc: Scope, x: Expando, run: nat, runs: nat, strict: bool)
    requires c.Combinator? && c.rel.Relative?
  {
    forall p :: Current(x, (p, c.rel.dir), run, c.doneName) ==>
      MemoSound(c, p, sc, x[(p, c.rel.dir)].data, runs, strict)
  }

  /** Every memo that a combinator inside `m` could read is sound. */
  ghost predicate Sound(m: Matcher, sc: Scope, x: Expando, run: nat, runs: nat, strict: bool) {
    match m
    case Test(_) => true
    case IsContext => true
    case InContexts => true
    case Combinator(inner, rel, _, _) =>
      && rel.Relative?
      && CellsSound(m, sc, x, run, runs, strict)
      && Sound(inner, sc, x, run, runs, strict)
    case ContextGuard(_, single, any) =>
      Sound(single, sc, x, run, runs, strict) && Sound(any, sc, x, run, runs, strict)
    case AllOf(ms) => |ms| > 0 && Sound(ms[0], sc, x, run, runs, strict)
  }

  /** From `x` to `y`, cells may be overwritten only in run `run` by names in lo..hi. */
  ghost predicate WrittenBy(x: Expando, y: Expando, run: nat, lo: nat, hi: nat) {
    forall key :: key in y && !(key in x && y[key] == x[key]) ==> y[key].run == run && lo <= y[key].name < hi
  }

  lemma {:induction false} SoundUnwritten(m: Matcher, sc: Scope, x: Expando, y: Expando, run: nat, runs: nat,
                                          strict: bool, lo: nat, hi: nat, mlo: nat, mhi: nat)
    requires WellFormed(m, mlo, mhi) && (mhi <= lo || hi <= mlo)
    requires Sound(m, sc, x, run, runs, strict)
    requires WrittenBy(x, y, run, lo, hi)
    ensures Sound(m, sc, y, run, runs, strict)
    decreases m
  {
    match m
    case Test(_) =>
    case IsContext =>
    case InContexts =>
    case Combinator(inner, rel, _, name) =>
      SoundUnwritten(inner, sc, x, y, run, runs, strict, lo, hi, mlo, name);
    case ContextGuard(_, single, any) =>
      SoundUnwritten(single, sc, x, y, run, runs, strict, lo, hi, mlo, mhi);
      SoundUnwritten(any, sc, x, y, run, runs, strict, lo, hi, mlo, mhi);
    case AllOf(ms) =>
      SoundUnwritten(ms[0], sc, x, y, run, runs, strict, lo, hi, mlo, mhi);
  }

  /** Raising the counter past every number written makes all of them history. */
  lemma {:induction false} SoundNextRun(m: Matcher, sc: Scope, x: Expando, run: nat, runs: nat, strict: bool)
    requires Sound(m, sc, x, run, runs, strict)
    ensures Sound(m, sc, x, run, runs + 1, true)
    decreases m
  {
    match m
    case Test(_) =>
    case IsContext =>
    case InContexts =>
    case Combinator(inner, _, _, _) => SoundNextRun(inner, sc, x, run, runs, strict);
    case ContextGuard(_, single, any) =>
      SoundNextRun(single, sc, x, run, runs, strict);
      SoundNextRun(any, sc, x, run, runs, strict);
    case AllOf(ms) => SoundNextRun(ms[0], sc, x, run, runs, strict);
  }

  ghost predicate AllSound(ms: seq<Matcher>, sc: Scope, x: Expando, run: nat, runs: nat, strict: bool) {
    forall j :: 0 <= j < |ms| ==> Sound(ms[j], sc, x, run, runs, strict)
  }

  lemma AllSoundNextRun(ms: seq<Matcher>, sc: Scope, x: Expando, run: nat, runs: nat, strict: bool)
    requires AllSound(ms, sc, x, run, runs, strict)
    ensures AllSound(ms, sc, x, run, runs + 1, true)
  {
    forall j | 0 <= j < |ms| ensures Sound(ms[j], sc, x, run, runs + 1, true) {
      SoundNextRun(ms[j], sc, x, run, runs, strict);
    }
  }

  /** Dropping the strict half. */
  lemma {:induction false} SoundWeaker(m: Matcher, sc: Scope, x: Expando, run: nat, runs: nat)
    requires Sound(m, sc, x, run, runs, true)
    ensures Sound(m, sc, x, run, runs, false)
    decreases m
  {
    match m
    case Test(_) =>
    case IsContext =>
    case InContexts =>
    case Combinator(inner, _, _, _) => SoundWeaker(inner, sc, x, run, runs);
    case ContextGuard(_, single, any) =>
      SoundWeaker(single, sc, x, run, runs);
      SoundWeaker(any, sc, x, run, runs);
    case AllOf(ms) => SoundWeaker(ms[0], sc, x, run, runs);
  }

  /** A run nobody has written in yet starts with nothing to be wrong about. */
  lemma {:induction false} SoundFresh(m: Matcher, sc: Scope, x: Expando, run: nat, runs: nat, lo: nat, hi: nat)
    requires WellFormed(m, lo, hi)
    requires forall key :: key in x ==> x[key].run < run
    ensures Sound(m, sc, x, run, runs, true)
    decreases m
  {
    match m
    case Test(_) =>
    case IsContext =>
    case InContexts =>
    case Combinator(inner, _, _, name) => SoundFresh(inner, sc, x, run, runs, lo, name);
    case ContextGuard(_, single, any) =>
      SoundFresh(single, sc, x, run, runs, lo, hi);
      SoundFresh(any, sc, x, run, runs, lo, hi);
    case AllOf(ms) => SoundFresh(ms[0], sc, x, run, runs, lo, hi);
  }

  // ----- The walk of one combinator ----------------------------------------

  /** While combinator `c` stands at `elem`: every memo of `c` is either already
      strictly sound, or was left on the part of the walk behind us and becomes
      strictly sound if nothing beyond `elem` matches. */
  ghost predicate WalkSound(c: Matcher, elem: Path, sc: Scope, x: Expando, run: nat, runs: nat)
    requires c.Combinator? && c.rel.Relative?
  {
    forall p :: Current(x, (p, c.rel.dir), run, c.doneName) ==>
      && MemoSound(c, p, sc, x[(p, c.rel.dir)].data, runs, false)
      && (MemoSound(c, p, sc, x[(p, c.rel.dir)].data, runs, true)
          || (Remaining(c.rel.dir, p) >= Remaining(c.rel.dir, elem)
              && (!HoldsBeyond(c, elem, sc) ==> !HoldsBeyond(c, p, sc))))
  }

  class Engine {
    var dirruns: nat
    var cachedruns: nat
    var done: nat
    var outermostContext: Option<Context>
    var expando: Expando

    /** Between queries: no cell is stamped with a run that is still to come. */
    ghost predicate Valid()
      reads this
    {
      forall key :: key in expando ==> expando[key].run <= dirruns
    }

    constructor ()
      ensures Valid()
    {
      dirruns, cachedruns, done, outermostContext, expando := 0, 0, 0, None, map[];
    }

    // ----- Compiling -------------------------------------------------------

    method AddCombinator(inner: Matcher, rel: Token, base: bool) returns (m: Matcher)
      requires rel.Relative?
      modifies this`done
      ensures m == Combinator(inner, rel, base && rel.dir == ParentNode, old(done))
      ensures done == old(done) + 1
    {
      m := Combinator(inner, rel, base && rel.dir == ParentNode, done);
      done := done + 1;
    }

    method MatcherFromTokens(tokens: seq<Token>) returns (m: Matcher)
      requires tokens != []
      modifies this`done
      ensures old(done) <= done && WellFormed(m, old(done), done)
      ensures forall e, sc :: Holds(m, e, sc) <==> Selects(tokens, e, sc)
    {
      var leading := tokens[0].Relative?;
      var implicit := if leading then tokens[0] else DESCENDANT;
      var i := if leading then 1 else 0;
      var matchContext := AddCombinator(IsContext, implicit, true);
      var matchAnyContext := AddCombinator(InContexts, implicit, true);
      var matchers := [ContextGuard(leading, matchContext, matchAnyContext)];
      GuardMeaning(leading, implicit, matchContext, matchAnyContext);
      assert tokens[..i] == if leading then [tokens[0]] else [];
      while i < |tokens|
        invariant 0 <= i <= |tokens|
        invariant tokens[0].Relative? ==> i >= 1
        invariant old(done) <= done
        invariant |matchers| > 0 && WellFormed(matchers[0], old(done), done)
        invariant forall k :: 1 <= k < |matchers| ==> matchers[k].Test?
        invariant forall e, sc :: HoldsAll(matchers, e, sc) <==> Selects(tokens[..i], e, sc)
      {
        ghost var before, prefix := matchers, tokens[..i];
        assert tokens[..i + 1][..i] == prefix && tokens[..i + 1][i] == tokens[i];
        match tokens[i] {
          case Relative(_, _) =>
            ghost var lo, hi := old(done), done;
            assert WellFormed(ElementMatcher(matchers), lo, hi);
            var c := AddCombinator(ElementMatcher(matchers), tokens[i], false);
            matchers := [c];
            forall e, sc
              ensures HoldsAll(matchers, e, sc) <==> Selects(tokens[..i + 1], e, sc)
            {
              RelativeMeaning(c, before, prefix, e, sc);
              assert i > 0 ==> prefix != [];
            }
          case Filter(test, _) =>
            matchers := matchers + [Test(test)];
            forall e, sc
              ensures HoldsAll(matchers, e, sc) <==> Selects(tokens[..i + 1], e, sc)
            {
              HoldsAllAppend(before, Test(test), e, sc);
            }
        }
        i := i + 1;
      }
      assert tokens[..i] == tokens;
      m := ElementMatcher(matchers);
    }

    // ----- Matching --------------------------------------------------------

    /** What a compiled closure finds in the shared variables while a query runs. */
    ghost predicate Running(m: Matcher, sc: Scope)
      reads this
    {
      && outermostContext == (if sc.context == DOCUMENT then None else Some(sc.context))
      && Sound(m, sc, expando, dirruns, cachedruns, true)
    }

    /** Runs a compiled closure at `e`.  Cells are written only by combinators
        inside `m` and only at nodes before `e`. */
    method Matches(m: Matcher, e: Path, sc: Scope, ghost lo: nat, ghost hi: nat) returns (r: bool)
      requires WellFormed(m, lo, hi) && Running(m, sc)
      modifies this`expando
      ensures r <==> Holds(m, e, sc)
      ensures Sound(m, sc, expando, dirruns, cachedruns, !r)
      ensures WrittenBy(old(expando), expando, dirruns, lo, hi) && WrittenBefore(old(expando), expando, e)
      ensures m.Test? ==> expando == old(expando)
      decreases m, 3
    {
      match m {
        case Test(test) =>
          r := test(e);
        case IsContext =>
          r := sc.context == Single(e);
        case InContexts =>
          r := sc.context.Many? && e in sc.context.nodes;
        case Combinator(_, rel, _, _) =>
          if rel.first {
            r := MatchNearest(m, e, sc, lo, hi);
          } else if sc.xml {
            r := SearchUncached(m, e, sc, lo, hi);
          } else {
            r := SearchCached(m, e, sc, lo, hi);
          }
        case ContextGuard(leading, single, any) =>
          r := MatchContext(m, e, sc, lo, hi);
        case AllOf(ms) =>
          var i := |ms|;
          r := true;
          while i > 0
            invariant 0 <= i <= |ms| && r
            invariant forall k :: i <= k < |ms| ==> Holds(ms[k], e, sc)
            invariant i > 0 ==> expando == old(expando)
            invariant Sound(ms[0], sc, expando, dirruns, cachedruns, i > 0)
            invariant WrittenBy(old(expando), expando, dirruns, lo, hi) && WrittenBefore(old(expando), expando, e)
          {
            i := i - 1;
            r := Matches(ms[i], e, sc, lo, hi);
            if !r {
              return;
            }
          }
      }
    }

    method MatchContext(m: Matcher, e: Path, sc: Scope, ghost lo: nat, ghost hi: nat) returns (r: bool)
      requires m.ContextGuard? && WellFormed(m, lo, hi) && Running(m, sc)
      modifies this`expando
      ensures r <==> Holds(m, e, sc)
      ensures Sound(m, sc, expando, dirruns, cachedruns, !r)
      ensures WrittenBy(old(expando), expando, dirruns, lo, hi) && WrittenBefore(old(expando), expando, e)
      decreases m, 1
    {
      SoundWeaker(m, sc, expando, dirruns, cachedruns);
      if !m.leading && (sc.xml || Some(sc.context) != outermostContext) {
        r := true;
      } else {
        var use := if sc.context.Single? then m.matchContext else m.matchAnyContext;
        ghost var other := if sc.context.Single? then m.matchAnyContext else m.matchContext;
        ghost var x, name := expando, use.doneName;
        r := Matches(use, e, sc, name, name + 1);
        SoundUnwritten(other, sc, x, expando, dirruns, cachedruns, !r, name, name + 1, other.doneName,
                       other.doneName + 1);
      }
    }

    /** `>` and `+`: ask the nearest node only. */
    method MatchNearest(c: Matcher, e: Path, sc: Scope, ghost lo: nat, ghost hi: nat) returns (r: bool)
      requires c.Combinator? && WellFormed(c, lo, hi) && c.rel.first && Running(c, sc)
      modifies this`expando
      ensures r <==> Holds(c, e, sc)
      ensures Sound(c, sc, expando, dirruns, cachedruns, !r)
      ensures WrittenBy(old(expando), expando, dirruns, lo, hi) && WrittenBefore(old(expando), expando, e)
      decreases c, 1
    {
      var elem := e;
      while true
        invariant expando == old(expando)
        invariant HoldsAtNearest(c, e, sc) <==> HoldsAtNearest(c, elem, sc)
        invariant Weight(elem) <= Weight(e)
        decreases Remaining(c.rel.dir, elem)
      {
        StepDecreases(c.rel.dir, elem);
        StepLightens(c.rel.dir, elem);
        var next := Step(c.rel.dir, elem);
        if next.None? {
          r := false;
          return;
        }
        elem := next.value;
        if Visible(sc.doc, elem, c.all) {
          ghost var x := expando;
          r := Matches(c.inner, elem, sc, lo, c.doneName);
          return;
        }
      }
    }

    /** `while ((elem = elem[dir]))` on XML documents: no memos. */
    method SearchUncached(c: Matcher, e: Path, sc: Scope, ghost lo: nat, ghost hi: nat) returns (r: bool)
      requires c.Combinator? && WellFormed(c, lo, hi) && !c.rel.first && Running(c, sc)
      modifies this`expando
      ensures r <==> Holds(c, e, sc)
      ensures Sound(c, sc, expando, dirruns, cachedruns, !r)
      ensures WrittenBy(old(expando), expando, dirruns, lo, hi) && WrittenBefore(old(expando), expando, e)
      decreases c, 1
    {
      var elem := e;
      while true
        invariant Running(c, sc)
        invariant HoldsBeyond(c, e, sc) <==> HoldsBeyond(c, elem, sc)
        invariant Weight(elem) <= Weight(e)
        invariant WrittenBy(old(expando), expando, dirruns, lo, c.doneName) && WrittenBefore(old(expando), expando, e)
        decreases Remaining(c.rel.dir, elem)
      {
        StepDecreases(c.rel.dir, elem);
        StepLightens(c.rel.dir, elem);
        var next := Step(c.rel.dir, elem);
        if next.None? {
          r := false;
          return;
        }
        elem := next.value;
        if Visible(sc.doc, elem, c.all) {
          r := Matches(c.inner, elem, sc, lo, c.doneName);
          if r {
            return;
          }
        }
      }
    }

    /** `cache = outerCache[dir] = [dirkey]; cache[1] = matcher(elem) || cachedruns` */
    method Memoize(c: Matcher, elem: Path, sc: Scope, ghost lo: nat, ghost hi: nat) returns (r: bool)
      requires c.Combinator? && WellFormed(c, lo, hi)
      requires outermostContext == (if sc.context == DOCUMENT then None else Some(sc.context))
      requires Sound(c.inner, sc, expando, dirruns, cachedruns, true)
      requires !Current(expando, (elem, c.rel.dir), dirruns, c.doneName)
      modifies this`expando
      ensures r <==> Holds(c.inner, elem, sc)
      ensures Sound(c.inner, sc, expando, dirruns, cachedruns, !r)
      ensures (elem, c.rel.dir) in expando
      ensures expando[(elem, c.rel.dir)] == Cell(dirruns, c.doneName, if r then True else Runs(cachedruns))
      ensures WrittenBy(old(expando), expando, dirruns, lo, hi)
      ensures old(expando).Keys <= expando.Keys
      ensures forall key :: key in expando && !(key in old(expando) && expando[key] == old(expando)[key]) ==>
        key == (elem, c.rel.dir) || (Weight(key.0) < Weight(elem) && expando[key].name != c.doneName)
      decreases c, 0
    {
      var key := (elem, c.rel.dir);
      ghost var x := expando;
      expando := expando[key := Cell(dirruns, c.doneName, Unset)];
      SoundUnwritten(c.inner, sc, x, expando, dirruns, cachedruns, true, c.doneName, c.doneName + 1, lo, c.doneName);
      r := Matches(c.inner, elem, sc, lo, c.doneName);
      // The cell is still the one allocated above: nothing at elem was written.
      assert expando[key] == Cell(dirruns, c.doneName, Unset);
      ghost var y := expando;
      expando := expando[key := Cell(dirruns, c.doneName, if r then True else Runs(cachedruns))];
      SoundUnwritten(c.inner, sc, y, expando, dirruns, cachedruns, !r, c.doneName, c.doneName + 1, lo, c.doneName);
    }

    /** One visit of the cached walk, coming from `from`: the verdict if there is
        one, or None to go on. */
    method VisitCached(c: Matcher, from: Path, elem: Path, sc: Scope, ghost lo: nat, ghost hi: nat)
      returns (verdict: Option<bool>)
      requires c.Combinator? && WellFormed(c, lo, hi) && !c.rel.first
      requires Step(c.rel.dir, from) == Some(elem) && Visible(sc.doc, elem, c.all)
      requires outermostContext == (if sc.context == DOCUMENT then None else Some(sc.context))
      requires Sound(c.inner, sc, expando, dirruns, cachedruns, true)
      requires WalkSound(c, from, sc, expando, dirruns, cachedruns)
      modifies this`expando
      ensures WrittenBy(old(expando), expando, dirruns, lo, hi) && WrittenBefore(old(expando), expando, from)
      ensures verdict.None? ==>
        && !Holds(c.inner, elem, sc)
        && Sound(c.inner, sc, expando, dirruns, cachedruns, true)
        && WalkSound(c, elem, sc, expando, dirruns, cachedruns)
      ensures verdict.Some? ==>
        && verdict.value == HoldsBeyond(c, from, sc)
        && Sound(c, sc, expando, dirruns, cachedruns, !verdict.value)
      decreases c, 1
    {
      StepDecreases(c.rel.dir, from);
      StepLightens(c.rel.dir, from);
      var key := (elem, c.rel.dir);
      verdict := None;
      if key in expando && expando[key].run == dirruns && expando[key].name == c.doneName {
        var data := expando[key].data;
        assert Current(expando, key, dirruns, c.doneName);
        if data == True || data == Runs(cachedruns) {
          verdict := Some(data == True);
          WalkHit(c, from, elem, sc, expando, dirruns, cachedruns);
        }
      } else {
        ghost var x := expando;
        var r := Memoize(c, elem, sc, lo, hi);
        WalkStep(c, from, elem, sc, x, expando, dirruns, cachedruns, r);
        if r {
          verdict := Some(true);
        }
      }
    }

    /** The same walk with a memo cell per node and direction. */
    method SearchCached(c: Matcher, e: Path, sc: Scope, ghost lo: nat, ghost hi: nat) returns (r: bool)
      requires c.Combinator? && WellFormed(c, lo, hi) && !c.rel.first && Running(c, sc)
      modifies this`expando
      ensures r <==> Holds(c, e, sc)
      ensures Sound(c, sc, expando, dirruns, cachedruns, !r)
      ensures WrittenBy(old(expando), expando, dirruns, lo, hi) && WrittenBefore(old(expando), expando, e)
      decreases c, 2
    {
      var elem := e;
      while true
        invariant Sound(c.inner, sc, expando, dirruns, cachedruns, true)
        invariant WalkSound(c, elem, sc, expando, dirruns, cachedruns)
        invariant HoldsBeyond(c, e, sc) <==> HoldsBeyond(c, elem, sc)
        invariant Weight(elem) <= Weight(e)
        invariant WrittenBy(old(expando), expando, dirruns, lo, hi) && WrittenBefore(old(expando), expando, e)
        decreases Remaining(c.rel.dir, elem)
      {
        StepDecreases(c.rel.dir, elem);
        StepLightens(c.rel.dir, elem);
        var next := Step(c.rel.dir, elem);
        if next.None? {
          r := false;
          return;
        }
        if Visible(sc.doc, next.value, c.all) {
          var verdict := VisitCached(c, elem, next.value, sc, lo, hi);
          if verdict.Some? {
            r := verdict.value;
            return;
          }
        }
        elem := next.value;
      }
    }

    // ----- Whole queries ---------------------------------------------------

    /** Matchers of the groups, last group first, as `while (i--)` builds them. */
    method Compile(groups: seq<seq<Token>>) returns (q: Compiled)
      requires forall g :: 0 <= g < |groups| ==> groups[g] != []
      modifies this`done
      ensures fresh(q) && q.Represents(groups)
    {
      var elementMatchers: seq<Matcher> := [];
      ghost var marks := [done];
      var i := |groups|;
      while i > 0
        invariant 0 <= i <= |groups|
        invariant |elementMatchers| == |groups| - i
        invariant NamesApart(elementMatchers, marks) && marks[|elementMatchers|] == done
        invariant forall j :: 0 <= j < |elementMatchers| ==>
          forall e, sc :: Holds(elementMatchers[j], e, sc) <==> Selects(groups[|groups| - 1 - j], e, sc)
      {
        i := i - 1;
        var m := MatcherFromTokens(groups[i]);
        elementMatchers := elementMatchers + [m];
        marks := marks + [done];
      }
      q := new Compiled(elementMatchers, marks);
    }

    /** superMatcher as the outermost matcher: one candidate after the other, each
        against the groups in turn, under one run number and a new candidate number each. */
    method SuperMatch(q: Compiled, seed: seq<Path>, sc: Scope, ghost groups: seq<seq<Token>>)
      returns (results: seq<Path>)
      requires Valid() && q.Represents(groups)
      modifies this, q
      ensures Valid() && q.Represents(groups)
      ensures outermostContext == old(outermostContext) && done == old(done)
      ensures dirruns == old(dirruns) + 1
      ensures results == Kept(groups, seed, sc)
      ensures Sequences.Filters(seed, Selected(groups, sc), results)
    {
      var contextBackup := outermostContext;
      dirruns := dirruns + 1;
      outermostContext := if sc.context == DOCUMENT then None else Some(sc.context);
      cachedruns := q.matcherCachedRuns;
      results := [];
      var ms := q.elementMatchers;
      forall j | 0 <= j < |ms| ensures Sound(ms[j], sc, expando, dirruns, cachedruns, true) {
        SoundFresh(ms[j], sc, expando, dirruns, cachedruns, q.marks[j], q.marks[j + 1]);
      }
      var i := 0;
      while i < |seed|
        invariant 0 <= i <= |seed|
        invariant Valid() && dirruns == old(dirruns) + 1 && done == old(done)
        invariant outermostContext == if sc.context == DOCUMENT then None else Some(sc.context)
        invariant cachedruns == q.matcherCachedRuns
        invariant AllSound(ms, sc, expando, dirruns, cachedruns, true)
        invariant results == Kept(groups, seed[..i], sc)
      {
        var matched := MatchGroups(q, seed[i], sc);
        if matched {
          results := results + [seed[i]];
        }
        q.GroupsOf(groups, seed[i], sc);
        AllSoundNextRun(ms, sc, expando, dirruns, cachedruns, !matched);
        q.matcherCachedRuns := q.matcherCachedRuns + 1;
        cachedruns := q.matcherCachedRuns;
        assert seed[..i + 1][..i] == seed[..i];
        i := i + 1;
      }
      assert seed[..i] == seed;
      KeptMeaning(groups, seed, sc);
      outermostContext := contextBackup;
    }

    /** `while ((matcher = elementMatchers[j++]))`, left at the first success. */
    method MatchGroups(q: Compiled, e: Path, sc: Scope) returns (matched: bool)
      requires Valid() && NamesApart(q.elementMatchers, q.marks)
      requires outermostContext == (if sc.context == DOCUMENT then None else Some(sc.context))
      requires AllSound(q.elementMatchers, sc, expando, dirruns, cachedruns, true)
      modifies this`expando
      ensures Valid()
      ensures matched <==> exists j :: 0 <= j < |q.elementMatchers| && Holds(q.elementMatchers[j], e, sc)
      ensures AllSound(q.elementMatchers, sc, expando, dirruns, cachedruns, !matched)
    {
      var ms := q.elementMatchers;
      ghost var marks := q.marks;
      var j := 0;
      matched := false;
      while j < |ms| && !matched
        invariant 0 <= j <= |ms|
        invariant Valid()
        invariant matched <==> exists k :: 0 <= k < j && Holds(ms[k], e, sc)
        invariant AllSound(ms, sc, expando, dirruns, cachedruns, !matched)
      {
        ghost var x := expando;
        matched := Matches(ms[j], e, sc, marks[j], marks[j + 1]);
        forall k | 0 <= k < |ms| ensures Sound(ms[k], sc, expando, dirruns, cachedruns, !matched) {
          if k != j {
            MarksSorted(ms, marks, k, j);
            SoundUnwritten(ms[k], sc, x, expando, dirruns, cachedruns, true, marks[j], marks[j + 1], marks[k],
                           marks[k + 1]);
            SoundWeaker(ms[k], sc, expando, dirruns, cachedruns);
          }
        }
        j := j + 1;
      }
    }

    /** `select` for one group in a document: start at the element that a leading id names, then
        go on from there.  `plusOrTilde` says that the selector's text holds a `+` or `~`. */
    method Select(tokens: seq<Token>, doc: Tree, xml: bool, plusOrTilde: bool) returns (results: seq<Path>)
      requires Valid() && tokens != [] && IsDocument(doc)
      requires plusOrTilde || forall k :: 0 <= k < |tokens| ==> !Sibling(tokens[k])
      modifies this
      ensures Valid()
      ensures AnswersQuery(Pinned(tokens, Used(tokens, xml), doc), doc, Scope(doc, DOCUMENT, xml), results)
      ensures IdsUnique(tokens, doc) ==> AnswersQuery(tokens, doc, Scope(doc, DOCUMENT, xml), results)
    {
      KeptAnswers(Pinned(tokens, Used(tokens, xml), doc), doc, Scope(doc, DOCUMENT, xml));
      KeptAnswers(tokens, doc, Scope(doc, DOCUMENT, xml));
      PinnedUnique(tokens, Used(tokens, xml), doc, Scope(doc, DOCUMENT, xml));
      if StartsAtId(tokens, xml) {
        var found := Find(doc, [], tokens[0]);
        if found == [] {
          NoStart(tokens, doc);
          return [];
        }
        IdStart(tokens, doc, found[0]);
        results := SelectFrom(tokens[1..], doc, found[0], xml, plusOrTilde);
      } else {
        results := SelectFrom(tokens, doc, [], xml, plusOrTilde);
      }
    }

    /** The rest of `select`: fetch a seed by the last filter of the last compound that has a
        finder, and match only what is left; without one, match all candidates. */
    method SelectFrom(tokens: seq<Token>, doc: Tree, context: Path, xml: bool, plusOrTilde: bool)
      returns (results: seq<Path>)
      requires Valid() && tokens != [] && (context != [] ==> tokens[0].Relative? && !xml)
      requires plusOrTilde || forall k :: 0 <= k < |tokens| ==> !Sibling(tokens[k])
      modifies this
      ensures Valid()
      ensures results
        == Kept([Pinned(tokens, SeedOf(tokens, xml, context), doc)], Elements(doc), Scope(doc, Single(context), xml))
    {
      var sc := Scope(doc, Single(context), xml);
      var i := if NeedsContext(tokens) then 0 else |tokens|;
      while i > 0
        invariant 0 <= i <= |tokens|
        invariant !NeedsContext(tokens) ==> SeedOf(tokens, xml, context) == SeedAt(tokens, i, xml, context)
        invariant i > 0 ==> forall k :: i <= k < |tokens| ==> tokens[k].Filter?
        invariant NeedsContext(tokens) ==> i == 0
      {
        i := i - 1;
        if tokens[i].Relative? {
          break;
        }
        if Available(tokens[i].finder, xml, context) {
          var seed := Find(doc, if Sibling(tokens[0]) then ParentOr(context) else context, tokens[i]);
          var rest := tokens[..i] + tokens[i + 1..];
          SeedSelects(tokens, i, doc, context, xml);
          if seed == [] || rest == [] {
            if rest == [] {
              KeptAll(seed, sc);
            }
            results := seed;
            return;
          }
          var q := Compile([rest]);
          results := SuperMatch(q, seed, sc, [rest]);
          return;
        }
      }
      var candidates := Inside(doc, if plusOrTilde then ParentOr(context) else context);
      CandidatesSuffice(tokens, doc, context, xml, plusOrTilde);
      var q := Compile([tokens]);
      results := SuperMatch(q, candidates, sc, [tokens]);
    }
  }

  /** Matcher j owns the names marks[j]..marks[j + 1]. */
  ghost predicate NamesApart(ms: seq<Matcher>, marks: seq<nat>) {
    && |marks| == |ms| + 1
    && forall j :: 0 <= j < |ms| ==> marks[j] <= marks[j + 1] && WellFormed(ms[j], marks[j], marks[j + 1])
  }

  lemma {:induction false} MarksSorted(ms: seq<Matcher>, marks: seq<nat>, j: nat, k: nat)
    requires NamesApart(ms, marks) && j < |ms| && k < |ms|
    ensures j < k ==> marks[j + 1] <= marks[k]
    ensures k < j ==> marks[k + 1] <= marks[j]
    decreases if j < k then k - j else j - k
  {
    if j + 1 < k { MarksSorted(ms, marks, j, k - 1); }
    if k + 1 < j { MarksSorted(ms, marks, j - 1, k); }
  }

  /** A compiled selector: its matchers and the candidate counter they share across queries. */
  class Compiled {
    const elementMatchers: seq<Matcher>
    ghost const marks: seq<nat>
    var matcherCachedRuns: nat

    constructor (ms: seq<Matcher>, ghost marks: seq<nat>)
      ensures elementMatchers == ms && this.marks == marks && matcherCachedRuns == 0
    {
      elementMatchers, this.marks, matcherCachedRuns := ms, marks, 0;
    }

    ghost predicate Represents(groups: seq<seq<Token>>) {
      && NamesApart(elementMatchers, marks)
      && |elementMatchers| == |groups|
      && forall j :: 0 <= j < |groups| ==>
           forall e, sc :: Holds(elementMatchers[j], e, sc) <==> Selects(groups[|groups| - 1 - j], e, sc)
    }

    lemma GroupsOf(groups: seq<seq<Token>>, e: Path, sc: Scope)
      requires Represents(groups)
      ensures (exists j :: 0 <= j < |elementMatchers| && Holds(elementMatchers[j], e, sc)) <==>
        SelectsAny(groups, e, sc)
    {
      if SelectsAny(groups, e, sc) {
        var g :| 0 <= g < |groups| && Selects(groups[g], e, sc);
        assert Holds(elementMatchers[|groups| - 1 - g], e, sc);
      }
    }
  }

  /** Reading `true` or the current number ends the walk with the right answer. */
  lemma WalkHit(c: Matcher, from: Path, elem: Path, sc: Scope, x: Expando, run: nat, runs: nat)
    requires c.Combinator? && c.rel.Relative?
    requires Step(c.rel.dir, from) == Some(elem) && Visible(sc.doc, elem, c.all)
    requires WalkSound(c, from, sc, x, run, runs)
    requires Sound(c.inner, sc, x, run, runs, true)
    requires Current(x, (elem, c.rel.dir), run, c.doneName)
    requires x[(elem, c.rel.dir)].data in {True, Runs(runs)}
    ensures (x[(elem, c.rel.dir)].data == True) == HoldsBeyond(c, from, sc)
    ensures Sound(c, sc, x, run, runs, !HoldsBeyond(c, from, sc))
  {
    StepDecreases(c.rel.dir, from);
    assert MemoSound(c, elem, sc, x[(elem, c.rel.dir)].data, runs, true);
    SoundWeaker(c.inner, sc, x, run, runs);
  }

  /** Cells change only at nodes that a walk from `e` can reach. */
  ghost predicate WrittenBefore(x: Expando, y: Expando, e: Path) {
    && x.Keys <= y.Keys
    && forall key :: key in y && !(key in x && y[key] == x[key]) ==> Weight(key.0) < Weight(e)
  }

  /** One visit of an unmemoized node keeps the walk sound, or ends it with a success. */
  lemma WalkStep(c: Matcher, from: Path, elem: Path, sc: Scope, x: Expando, y: Expando, run: nat, runs: nat, r: bool)
    requires c.Combinator? && c.rel.Relative?
    requires Step(c.rel.dir, from) == Some(elem) && Visible(sc.doc, elem, c.all)
    requires WalkSound(c, from, sc, x, run, runs)
    requires r <==> Holds(c.inner, elem, sc)
    requires (elem, c.rel.dir) in y && y[(elem, c.rel.dir)].data == if r then True else Runs(runs)
    requires forall p :: p != elem && Current(y, (p, c.rel.dir), run, c.doneName) ==>
      Current(x, (p, c.rel.dir), run, c.doneName) && x[(p, c.rel.dir)] == y[(p, c.rel.dir)]
    ensures r ==> CellsSound(c, sc, y, run, runs, false)
    ensures !r ==> WalkSound(c, elem, sc, y, run, runs)
  {
    StepDecreases(c.rel.dir, from);
  }

  lemma HoldsAllAppend(ms: seq<Matcher>, m: Matcher, e: Path, sc: Scope)
    ensures HoldsAll(ms + [m], e, sc) <==> HoldsAll(ms, e, sc) && Holds(m, e, sc)
  {
    if HoldsAll(ms + [m], e, sc) {
      forall k | 0 <= k < |ms| ensures Holds(ms[k], e, sc) {
        assert (ms + [m])[k] == ms[k];
      }
      assert (ms + [m])[|ms|] == m;
    }
  }

  /** The foundational matcher decides whether the element is reachable from the context. */
  lemma GuardMeaning(leading: bool, rel: Token, single: Matcher, any: Matcher)
    requires rel.Relative? && (!leading ==> rel == DESCENDANT)
    requires single.Combinator? && single.inner == IsContext && single.rel == rel
    requires single.all == (rel.dir == ParentNode)
    requires any.Combinator? && any.inner == InContexts && any.rel == rel && any.all == (rel.dir == ParentNode)
    ensures forall e, sc :: HoldsAll([ContextGuard(leading, single, any)], e, sc)
                       <==> Selects(if leading then [rel] else [], e, sc)
  {
    forall e, sc
      ensures HoldsAll([ContextGuard(leading, single, any)], e, sc) <==> Selects(if leading then [rel] else [], e, sc)
    {
      var guard := ContextGuard(leading, single, any);
      assert HoldsAll([guard], e, sc) <==> Holds([guard][0], e, sc);
      var c := if sc.context.Single? then single else any;
      CombinatorMeaning(c, e, sc);
      assert forall a :: Holds(c.inner, a, sc) <==> InContext(sc, a);
      assert Holds(c, e, sc) <==> ReachesContext(sc, rel, e);
      if leading {
        assert [rel][..0] == [];
      }
    }
  }

  /** Wrapping the matchers of a prefix in a combinator gives the prefix extended by that combinator. */
  lemma RelativeMeaning(c: Matcher, ms: seq<Matcher>, prefix: seq<Token>, e: Path, sc: Scope)
    requires |ms| > 0 && c.Combinator? && c.rel.Relative? && !c.all && c.inner == ElementMatcher(ms)
    requires prefix != []
    requires forall a :: HoldsAll(ms, a, sc) <==> Selects(prefix, a, sc)
    ensures HoldsAll([c], e, sc) <==> Selects(prefix + [c.rel], e, sc)
  {
    assert HoldsAll([c], e, sc) <==> Holds([c][0], e, sc);
    CombinatorMeaning(c, e, sc);
    assert (prefix + [c.rel])[..|prefix|] == prefix;
    assert forall a :: Holds(c.inner, a, sc) <==> HoldsAll(ms, a, sc);
  }
}
