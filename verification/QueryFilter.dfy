// jqGrid's filter compiler: `tojLinq` walks a tree of AND/OR groups and drives
// the query builder of `$.jgrid.from`, which appends to one flat text.

module QueryFilter {
  import opened Wrappers
  import opened Expression
  import opened Sequences

  // ----- Filters ------------------------------------------------------------

  /** The operators of compareFnMap, and any other string. */
  datatype CompareOp = Eq | Ne | Lt | Le | Gt | Ge | Cn | Nc | Bw | Bn | En | Ew | Ni | In | Nu | Nn | Unknown

  /** `id` stands for the comparison written for the rule's field and data. */
  datatype Rule = Rule(op: CompareOp, hasField: bool, id: nat)

  /** `isOr` is groupOp.toUpperCase() === "OR"; an absent list is an empty one. */
  datatype Group = Group(isOr: bool, groups: seq<Group>, rules: seq<Rule>)

  predicate Negates(op: CompareOp) {
    op in {Nc, Bn, En, Ni, Nn}
  }

  predicate Written(r: Rule) {
    r.op != Unknown && r.hasField
  }

  function OwnOp(g: Group): Join {
    if g.isOr then Or else And
  }

  /** What a filter asks of a record on which comparison `id` gives v(id). */
  ghost predicate Meaning(g: Group, v: nat -> bool) {
    if g.isOr then
      || (exists k :: 0 <= k < |g.groups| && Meaning(g.groups[k], v))
      || (exists k :: 0 <= k < |g.rules| && RuleMeaning(g.rules[k], v))
    else
      && (forall k :: 0 <= k < |g.groups| ==> Meaning(g.groups[k], v))
      && (forall k :: 0 <= k < |g.rules| ==> RuleMeaning(g.rules[k], v))
  }

  predicate RuleMeaning(r: Rule, v: nat -> bool) {
    Negates(r.op) != v(r.id)
  }

  /** Filters as the search form builds them: no empty group, every rule complete. */
  predicate Proper(g: Group) {
    && |g.groups| + |g.rules| > 0
    && (forall k :: 0 <= k < |g.rules| ==> Written(g.rules[k]))
    && (forall k :: 0 <= k < |g.groups| ==> Proper(g.groups[k]))
  }

  // ----- The builder as values ----------------------------------------------

  datatype Builder = Builder(query: Option<Text>, orDepth: nat, negate: bool, queued: Option<Join>)

  const EMPTY := Builder(None, 0, false, None)

  function Opens(n: nat): Text {
    seq(n, i => Open)
  }

  /** `_append`: the queued operator or `&&`, the pending parentheses, then the comparison. */
  function Appended(b: Builder, id: nat): Builder {
    var before := match b.query
      case None => []
      case Some(q) => q + [Op(if b.queued.Some? then b.queued.value else And)];
    Builder(Some(before + Opens(b.orDepth) + Render(Lit(b.negate, id))), 0, false, None)
  }

  function Closed(b: Builder): Builder {
    if b.query.Some? then b.(query := Some(b.query.value + [Close])) else b
  }

  function AfterRule(g: Group, k: nat, b: Builder): Builder
    requires k < |g.rules|
  {
    var r := g.rules[k];
    if !Written(r) then b
    else
      var b1 := if |g.groups| + k > 0 && g.isOr then b.(queued := Some(Or)) else b;
      var b2 := if Negates(r.op) then b1.(negate := !b1.negate, queued := Some(OwnOp(g))) else b1;
      Appended(b2, r.id)
  }

  function AfterRules(g: Group, n: nat, b: Builder): Builder
    requires n <= |g.rules|
  {
    if n == 0 then b else AfterRule(g, n - 1, AfterRules(g, n - 1, b))
  }

  function AfterGroups(g: Group, n: nat, b: Builder): Builder
    requires n <= |g.groups|
    decreases g, 0, n
  {
    if n == 0 then b
    else
      var c := AfterGroups(g, n - 1, b);
      Compile(g.groups[n - 1], if n > 1 && g.isOr then c.(queued := Some(Or)) else c)
  }

  function Opened(wrap: bool, b: Builder): Builder {
    if wrap then b.(orDepth := b.orDepth + 1) else b
  }

  function ClosedIf(wrap: bool, b: Builder): Builder {
    if wrap then Closed(b) else b
  }

  function Compile(g: Group, b: Builder): Builder
    decreases g, 1, 0
  {
    var gor, ror := g.isOr && g.groups != [], g.isOr && g.rules != [];
    var c := ClosedIf(gor, AfterGroups(g, |g.groups|, Opened(gor, b)));
    ClosedIf(ror, AfterRules(g, |g.rules|, Opened(ror, c)))
  }

  // ----- The builder and the compiler as they run ----------------------------

  class QueryObject {
    var query: Option<Text>
    var orDepth: nat
    var negate: bool
    var queuedOperator: Option<Join>

    constructor ()
      ensures View() == EMPTY
    {
      query, orDepth, negate, queuedOperator := None, 0, false, None;
    }

    function View(): Builder
      reads this
    {
      Builder(query, orDepth, negate, queuedOperator)
    }

    method Append(id: nat)
      modifies this
      ensures View() == Appended(old(View()), id)
    {
      var q := [];
      if query.Some? {
        q := query.value + [Op(if queuedOperator.None? then And else queuedOperator.value)];
      }
      ghost var before := q;
      for i := 0 to orDepth
        invariant q == before + Opens(i)
        invariant View() == old(View())
      {
        assert Opens(i + 1) == Opens(i) + [Open];
        q := q + [Open];
      }
      if negate {
        q := q + [Bang];
      }
      q := q + [Open, Test(id), Close];
      assert q == before + Opens(orDepth) + Render(Lit(negate, id));
      query := Some(q);
      negate := false;
      queuedOperator := None;
      orDepth := 0;
    }

    method AndOp()
      modifies this`queuedOperator
      ensures queuedOperator == Some(And)
    {
      queuedOperator := Some(And);
    }

    method OrOp()
      modifies this`queuedOperator
      ensures queuedOperator == Some(Or)
    {
      queuedOperator := Some(Or);
    }

    method AndNot()
      modifies this`queuedOperator, this`negate
      ensures queuedOperator == Some(And) && negate == !old(negate)
    {
      negate := !negate;
      AndOp();
    }

    method OrNot()
      modifies this`queuedOperator, this`negate
      ensures queuedOperator == Some(Or) && negate == !old(negate)
    {
      negate := !negate;
      OrOp();
    }

    method OrBegin()
      modifies this`orDepth
      ensures orDepth == old(orDepth) + 1
    {
      orDepth := orDepth + 1;
    }

    method OrEnd()
      modifies this`query
      ensures View() == Closed(old(View()))
    {
      if query.Some? {
        query := Some(query.value + [Close]);
      }
    }

    /** `compareFnMap[rule.op](query, opr)(rule.field, ...)` */
    method CompareRule(r: Rule, isOr: bool)
      modifies this
      ensures View() == Appended(
        if Negates(r.op) then old(View()).(negate := !old(negate), queued := Some(if isOr then Or else And))
        else old(View()), r.id)
    {
      if Negates(r.op) {
        if isOr {
          OrNot();
        } else {
          AndNot();
        }
      }
      Append(r.id);
    }

    method ToJLinq(g: Group)
      modifies this
      ensures View() == Compile(g, old(View()))
      decreases g
    {
      var s := 0;
      var gor := g.isOr && |g.groups| > 0;
      if gor {
        OrBegin();
      }
      ghost var b := View();
      for index := 0 to |g.groups|
        invariant s == index
        invariant View() == AfterGroups(g, index, b)
      {
        if s > 0 && gor {
          OrOp();
        }
        ToJLinq(g.groups[index]);
        s := s + 1;
      }
      if gor {
        OrEnd();
      }
      var ror := g.isOr && |g.rules| > 0;
      if ror {
        OrBegin();
      }
      ghost var c := View();
      for index := 0 to |g.rules|
        invariant s == |g.groups| + index
        invariant View() == AfterRules(g, index, c)
      {
        var rule := g.rules[index];
        if Written(rule) {
          if s > 0 && g.isOr {
            OrOp();
          }
          CompareRule(rule, g.isOr);
        }
        s := s + 1;
      }
      if ror {
        OrEnd();
      }
    }
  }

  // ----- What the text says --------------------------------------------------

  function LitOf(r: Rule): Expr {
    Lit(Negates(r.op), r.id)
  }

  /** The operator that ends up before the text of `g` when `lead` was queued for it:
      a negated first rule puts its own group's operator in its place. */
  function FirstJoin(g: Group, lead: Join): Join
    requires Proper(g)
  {
    if g.groups != [] then FirstJoin(g.groups[0], lead)
    else if Negates(g.rules[0].op) then OwnOp(g)
    else lead
  }

  function GroupsText(g: Group, n: nat): (e: Expr)
    requires Proper(g) && 0 < n <= |g.groups|
    ensures Readable(e)
    decreases g, 0, n
  {
    if n == 1 then TextOf(g.groups[0])
    else Cat(FirstJoin(g.groups[n - 1], OwnOp(g)), GroupsText(g, n - 1), TextOf(g.groups[n - 1]))
  }

  function RulesOf(g: Group, n: nat): (e: Expr)
    requires 0 < n <= |g.rules|
    ensures Readable(e) && (Loose(e) <==> g.isOr && n > 1)
  {
    if n == 1 then LitOf(g.rules[0]) else Bin(OwnOp(g), RulesOf(g, n - 1), LitOf(g.rules[n - 1]))
  }

  function Wrapped(wrap: bool, e: Expr): Expr {
    if wrap then Par(e) else e
  }

  /** The expression whose text is written for `g`. */
  function TextOf(g: Group): (e: Expr)
    requires Proper(g)
    ensures Readable(e)
    decreases g, 1, 0
  {
    if g.rules == [] then Wrapped(g.isOr, GroupsText(g, |g.groups|))
    else if g.groups == [] then Wrapped(g.isOr, RulesOf(g, |g.rules|))
    else Cat(OwnOp(g), Wrapped(g.isOr, GroupsText(g, |g.groups|)), Wrapped(g.isOr, RulesOf(g, |g.rules|)))
  }

  /** The text written for `e` into `b`. */
  ghost function Wrote(b: Builder, lead: Join, e: Expr): Builder {
    var before := if b.query.None? then [] else b.query.value + [Op(lead)];
    Builder(Some(before + Opens(b.orDepth) + Render(e)), 0, false, None)
  }

  function Lead(b: Builder): Join {
    if b.queued.Some? then b.queued.value else And
  }

  lemma {:induction false} CompileText(g: Group, b: Builder)
    requires Proper(g) && !b.negate
    ensures Compile(g, b) == Wrote(b, FirstJoin(g, Lead(b)), TextOf(g))
    decreases g, 1, 0
  {
    var gor, ror := g.isOr && g.groups != [], g.isOr && g.rules != [];
    var c := b;
    if g.groups != [] {
      var o := Opened(gor, b);
      GroupsCompileText(g, |g.groups|, o);
      c := ClosedIf(gor, AfterGroups(g, |g.groups|, o));
      WroteWrapped(gor, b, FirstJoin(g, Lead(b)), GroupsText(g, |g.groups|));
    }
    if g.rules != [] {
      var o := Opened(ror, c);
      RulesCompileText(g, |g.rules|, o);
      var lead := if g.groups != [] then OwnOp(g) else FirstJoin(g, Lead(b));
      WroteWrapped(ror, c, lead, RulesOf(g, |g.rules|));
      if g.groups != [] {
        var gt, rt := Wrapped(g.isOr, GroupsText(g, |g.groups|)), Wrapped(g.isOr, RulesOf(g, |g.rules|));
        RenderCat(OwnOp(g), gt, rt);
        WroteTwice(b, FirstJoin(g, Lead(b)), gt, OwnOp(g), rt);
      }
    }
  }

  lemma OneMoreOpen(before: Text, n: nat, ts: Text)
    ensures before + Opens(n + 1) + ts + [Close] == before + Opens(n) + ([Open] + ts + [Close])
  {
    assert Opens(n + 1) == Opens(n) + [Open];
  }

  lemma WroteWrapped(wrap: bool, b: Builder, lead: Join, e: Expr)
    ensures ClosedIf(wrap, Wrote(Opened(wrap, b), lead, e)) == Wrote(b, lead, Wrapped(wrap, e))
  {
    if wrap {
      var before := if b.query.None? then [] else b.query.value + [Op(lead)];
      OneMoreOpen(before, b.orDepth, Render(e));
      assert Render(Par(e)) == [Open] + Render(e) + [Close];
    }
  }

  lemma WroteTwice(b: Builder, lead: Join, e: Expr, j: Join, f: Expr)
    requires Readable(e) && Readable(f)
    ensures Wrote(Wrote(b, lead, e), j, f) == Wrote(b, lead, Cat(j, e, f))
    ensures forall q: Option<Join> :: Wrote(Wrote(b, lead, e).(queued := q), j, f) == Wrote(b, lead, Cat(j, e, f))
  {
    RenderCat(j, e, f);
    var before := if b.query.None? then [] else b.query.value + [Op(lead)];
    assert before + Opens(b.orDepth) + Render(e) + [Op(j)] + Opens(0) + Render(f)
        == before + Opens(b.orDepth) + (Render(e) + [Op(j)] + Render(f));
  }

  lemma {:induction false} GroupsCompileText(g: Group, n: nat, b: Builder)
    requires Proper(g) && 0 < n <= |g.groups| && !b.negate
    ensures AfterGroups(g, n, b) == Wrote(b, FirstJoin(g, Lead(b)), GroupsText(g, n))
    decreases g, 0, n
  {
    if n == 1 {
      assert AfterGroups(g, 0, b) == b;
      CompileText(g.groups[0], b);
    } else {
      GroupsCompileText(g, n - 1, b);
      var c := AfterGroups(g, n - 1, b);
      var d := if g.isOr then c.(queued := Some(Or)) else c;
      CompileText(g.groups[n - 1], d);
      WroteTwice(b, FirstJoin(g, Lead(b)), GroupsText(g, n - 1), FirstJoin(g.groups[n - 1], OwnOp(g)),
                 TextOf(g.groups[n - 1]));
    }
  }

  /** The operator queued before the rules of `g`, after its groups if it has any. */
  function RulesLead(g: Group, b: Builder): Join
    requires |g.rules| > 0
  {
    if Negates(g.rules[0].op) || (g.groups != [] && g.isOr) then OwnOp(g) else Lead(b)
  }

  lemma {:induction false} RulesCompileText(g: Group, n: nat, b: Builder)
    requires Proper(g) && 0 < n <= |g.rules| && !b.negate
    ensures AfterRules(g, n, b) == Wrote(b, RulesLead(g, b), RulesOf(g, n))
    decreases n
  {
    if n == 1 {
      assert AfterRules(g, 0, b) == b;
    } else {
      RulesCompileText(g, n - 1, b);
      WroteTwice(b, RulesLead(g, b), RulesOf(g, n - 1), OwnOp(g), LitOf(g.rules[n - 1]));
    }
  }

  function QueryText(g: Group): Option<Text> {
    Compile(g, EMPTY).query
  }

  /** Whatever the filter, its text is well formed, and `eval` reads it as TextOf(g). */
  lemma QueryReads(g: Group, v: nat -> bool)
    requires Proper(g)
    ensures QueryText(g).Some? && Eval(QueryText(g).value, v) == Some(Value(TextOf(g), v))
  {
    CompileText(g, EMPTY);
    assert [] + Opens(0) + Render(TextOf(g)) == Render(TextOf(g));
    RenderRoundTrip(TextOf(g), v);
  }

  // ----- What the filter means, as an expression ------------------------------

  function GroupsMeant(g: Group, n: nat): (e: Expr)
    requires Proper(g) && 0 < n <= |g.groups|
    decreases g, 0, n
  {
    if n == 1 then MeantBy(g.groups[0])
    else Bin(OwnOp(g), GroupsMeant(g, n - 1), MeantBy(g.groups[n - 1]))
  }

  /** The nesting of `g`, with its rules in the order they are written. */
  function MeantBy(g: Group): (e: Expr)
    requires Proper(g)
    decreases g, 1, 0
  {
    if g.rules == [] then GroupsMeant(g, |g.groups|)
    else if g.groups == [] then RulesOf(g, |g.rules|)
    else Bin(OwnOp(g), GroupsMeant(g, |g.groups|), RulesOf(g, |g.rules|))
  }

  lemma {:induction false} MeantIsMeaning(g: Group, v: nat -> bool)
    requires Proper(g)
    ensures Value(MeantBy(g), v) <==> Meaning(g, v)
    decreases g, 1, 0
  {
    if g.groups != [] {
      GroupsMeaning(g, |g.groups|, v);
    }
    if g.rules != [] {
      RulesMeaning(g, |g.rules|, v);
    }
  }

  lemma {:induction false} GroupsMeaning(g: Group, n: nat, v: nat -> bool)
    requires Proper(g) && 0 < n <= |g.groups|
    ensures Value(GroupsMeant(g, n), v) <==>
      if g.isOr then exists k :: 0 <= k < n && Meaning(g.groups[k], v)
      else forall k :: 0 <= k < n ==> Meaning(g.groups[k], v)
    decreases g, 0, n
  {
    MeantIsMeaning(g.groups[n - 1], v);
    if n > 1 {
      GroupsMeaning(g, n - 1, v);
    }
  }

  lemma {:induction false} RulesMeaning(g: Group, n: nat, v: nat -> bool)
    requires 0 < n <= |g.rules|
    ensures Value(RulesOf(g, n), v) <==>
      if g.isOr then exists k :: 0 <= k < n && RuleMeaning(g.rules[k], v)
      else forall k :: 0 <= k < n ==> RuleMeaning(g.rules[k], v)
    decreases n
  {
    if n > 1 {
      RulesMeaning(g, n - 1, v);
    }
  }

  // ----- When text and meaning agree ------------------------------------------

  /** No negated rule displaces an operator that another group queued. */
  predicate JoinsKept(g: Group)
    requires Proper(g)
  {
    && (forall k :: 0 <= k < |g.groups| ==> JoinsKept(g.groups[k]))
    && (forall k :: 1 <= k < |g.groups| ==> FirstJoin(g.groups[k], OwnOp(g)) == OwnOp(g))
  }

  /** Subgroups and rules of an OR group are parenthesized separately. */
  predicate Split(g: Group) {
    if g.isOr then g.groups != [] && g.rules != []
    else exists k :: 0 <= k < |g.groups| && Split(g.groups[k])
  }

  /** No AND group joins such an unparenthesized pair to anything else. */
  predicate Tight(g: Group) {
    && (forall k :: 0 <= k < |g.groups| ==> Tight(g.groups[k]))
    && (!g.isOr && |g.groups| + |g.rules| > 1 ==> forall k :: 0 <= k < |g.groups| ==> !Split(g.groups[k]))
  }

  /** Under both conditions the text has the value of the nesting. */
  lemma {:induction false} TightValue(g: Group, v: nat -> bool)
    requires Proper(g) && JoinsKept(g) && Tight(g)
    ensures Value(TextOf(g), v) == Value(MeantBy(g), v)
    ensures Loose(TextOf(g)) <==> Split(g)
    decreases g, 1, 0
  {
    if g.groups != [] {
      TightGroups(g, |g.groups|, v);
    }
    if g.groups != [] && g.rules != [] {
      ValueCat(OwnOp(g), Wrapped(g.isOr, GroupsText(g, |g.groups|)), Wrapped(g.isOr, RulesOf(g, |g.rules|)), v);
    }
  }

  lemma {:induction false} TightGroups(g: Group, n: nat, v: nat -> bool)
    requires Proper(g) && JoinsKept(g) && Tight(g) && 0 < n <= |g.groups|
    ensures Value(GroupsText(g, n), v) == Value(GroupsMeant(g, n), v)
    ensures !g.isOr ==> (Loose(GroupsText(g, n)) <==> exists k :: 0 <= k < n && Split(g.groups[k]))
    decreases g, 0, n
  {
    TightValue(g.groups[n - 1], v);
    if n > 1 {
      TightGroups(g, n - 1, v);
      ValueCat(OwnOp(g), GroupsText(g, n - 1), TextOf(g.groups[n - 1]), v);
    }
  }

  lemma {:induction false} SameLeaves(g: Group)
    requires Proper(g)
    ensures Leaves(TextOf(g)) == Leaves(MeantBy(g)) && Negs(TextOf(g)) == Negs(MeantBy(g))
    decreases g, 1, 0
  {
    if g.groups != [] {
      SameLeavesGroups(g, |g.groups|);
    }
    if g.groups != [] && g.rules != [] {
      var a, b := Wrapped(g.isOr, GroupsText(g, |g.groups|)), Wrapped(g.isOr, RulesOf(g, |g.rules|));
      LeavesCat(OwnOp(g), a, b);
      NegsCat(OwnOp(g), a, b);
    }
  }

  lemma {:induction false} SameLeavesGroups(g: Group, n: nat)
    requires Proper(g) && 0 < n <= |g.groups|
    ensures Leaves(GroupsText(g, n)) == Leaves(GroupsMeant(g, n)) && Negs(GroupsText(g, n)) == Negs(GroupsMeant(g, n))
    decreases g, 0, n
  {
    SameLeaves(g.groups[n - 1]);
    if n > 1 {
      SameLeavesGroups(g, n - 1);
      var j := FirstJoin(g.groups[n - 1], OwnOp(g));
      LeavesCat(j, GroupsText(g, n - 1), TextOf(g.groups[n - 1]));
      NegsCat(j, GroupsText(g, n - 1), TextOf(g.groups[n - 1]));
    }
  }

  /** Any two comparisons meet under the same operator in both. */
  ghost predicate SameMeets(e: Expr, f: Expr) {
    && Leaves(e) == Leaves(f)
    && forall i, k :: 0 <= i < k < |Leaves(e)| ==> Meet(e, i, k) == Meet(f, i, k)
  }

  /** A concatenation with the meets of a join has that operator, tight parts, and parts with the
      meets of the join's. */
  lemma SplitMeets(j: Join, a: Expr, b: Expr, own: Join, ma: Expr, mb: Expr)
    requires Readable(a) && Readable(b) && SameMeets(Cat(j, a, b), Bin(own, ma, mb))
    requires Leaves(a) == Leaves(ma) && Leaves(b) == Leaves(mb)
    ensures j == own && (own == And ==> !Loose(a) && !Loose(b))
    ensures SameMeets(a, ma) && SameMeets(b, mb)
  {
    var c, m, n := Cat(j, a, b), Bin(own, ma, mb), |Leaves(a)|;
    MeetAcross(j, a, b);
    assert Meet(c, n - 1, n) == Meet(m, n - 1, n);
    assert Meet(c, 0, n + |Leaves(b)| - 1) == Meet(m, 0, n + |Leaves(b)| - 1);
    CatEmbeds(j, a, b);
    BinEmbeds(own, ma, mb);
    EmbeddedMeets(c, m, a, ma, 0);
    EmbeddedMeets(c, m, b, mb, n);
  }

  /** Comparisons i and k of `e` meet in `whole`, where they are n+i and n+k, as in `e`. */
  predicate MeetsAlike(whole: Expr, e: Expr, n: nat, i: nat, k: nat)
    requires i < k < |Leaves(e)| && n + |Leaves(e)| <= |Leaves(whole)|
  {
    Meet(whole, n + i, n + k) == Meet(e, i, k)
  }

  /** The comparisons of `e` are those of `whole` from the `n`-th on, and meet there as in `e`. */
  ghost predicate Embeds(whole: Expr, e: Expr, n: nat) {
    && n + |Leaves(e)| <= |Leaves(whole)|
    && forall i, k :: 0 <= i < k < |Leaves(e)| ==> MeetsAlike(whole, e, n, i, k)
  }

  lemma CatEmbeds(j: Join, a: Expr, b: Expr)
    requires Readable(a) && Readable(b)
    ensures Embeds(Cat(j, a, b), a, 0) && Embeds(Cat(j, a, b), b, |Leaves(a)|)
  {
    LeavesCat(j, a, b);
    forall i, k | 0 <= i < k < |Leaves(a)| ensures MeetsAlike(Cat(j, a, b), a, 0, i, k) {
      MeetCat(j, a, b, i, k);
    }
    forall i, k | 0 <= i < k < |Leaves(b)| ensures MeetsAlike(Cat(j, a, b), b, |Leaves(a)|, i, k) {
      MeetCat(j, a, b, |Leaves(a)| + i, |Leaves(a)| + k);
    }
  }

  lemma BinEmbeds(j: Join, a: Expr, b: Expr)
    ensures Embeds(Bin(j, a, b), a, 0) && Embeds(Bin(j, a, b), b, |Leaves(a)|)
  {
    forall i, k | 0 <= i < k < |Leaves(a)| ensures MeetsAlike(Bin(j, a, b), a, 0, i, k) {
      LeftMeet(j, a, b, i, k);
    }
    forall i, k | 0 <= i < k < |Leaves(b)| ensures MeetsAlike(Bin(j, a, b), b, |Leaves(a)|, i, k) {
      RightMeet(j, a, b, i, k);
    }
  }

  lemma LeftMeet(j: Join, a: Expr, b: Expr, i: nat, k: nat)
    requires i < k < |Leaves(a)|
    ensures Meet(Bin(j, a, b), 0 + i, 0 + k) == Meet(a, i, k)
  {
  }

  lemma RightMeet(j: Join, a: Expr, b: Expr, i: nat, k: nat)
    requires i < k < |Leaves(b)|
    ensures Meet(Bin(j, a, b), |Leaves(a)| + i, |Leaves(a)| + k) == Meet(b, i, k)
  {
  }

  lemma EmbeddedMeets(c: Expr, m: Expr, e: Expr, f: Expr, n: nat)
    requires SameMeets(c, m) && Embeds(c, e, n) && Embeds(m, f, n) && Leaves(e) == Leaves(f)
    ensures SameMeets(e, f)
  {
    forall i, k | 0 <= i < k < |Leaves(e)| ensures Meet(e, i, k) == Meet(f, i, k) {
      assert MeetsAlike(c, e, n, i, k) && MeetsAlike(m, f, n, i, k);
      assert Meet(c, n + i, n + k) == Meet(m, n + i, n + k);
    }
  }

  /** If the meets of the text are those of the nesting, so they are in every subgroup, and
      every join is the group's own. */
  lemma {:induction false} GroupsMeets(g: Group, n: nat)
    requires Proper(g) && 0 < n <= |g.groups| && SameMeets(GroupsText(g, n), GroupsMeant(g, n))
    ensures forall k :: 0 <= k < n ==> SameMeets(TextOf(g.groups[k]), MeantBy(g.groups[k]))
    ensures forall k :: 1 <= k < n ==> FirstJoin(g.groups[k], OwnOp(g)) == OwnOp(g)
    decreases n
  {
    if n > 1 {
      GroupsStep(g, n);
      GroupsMeets(g, n - 1);
    }
  }

  /** And the joined parts of an AND are tight. */
  lemma {:induction false} GroupsTight(g: Group, n: nat)
    requires Proper(g) && 1 < n <= |g.groups| && SameMeets(GroupsText(g, n), GroupsMeant(g, n)) && !g.isOr
    ensures !Loose(GroupsText(g, n)) && forall k :: 0 <= k < n ==> !Loose(TextOf(g.groups[k]))
    decreases n
  {
    GroupsStep(g, n);
    if n > 2 {
      GroupsTight(g, n - 1);
    }
    LooseCat(GroupsText(g, n - 1), TextOf(g.groups[n - 1]));
  }

  lemma {:induction false} MeetsForceShape(g: Group)
    requires Proper(g) && SameMeets(TextOf(g), MeantBy(g))
    ensures JoinsKept(g) && Tight(g)
    ensures Loose(TextOf(g)) <==> Split(g)
    decreases g
  {
    if g.groups != [] {
      var n := |g.groups|;
      var gt, gm := GroupsText(g, n), GroupsMeant(g, n);
      SameLeavesGroups(g, n);
      if g.rules != [] {
        SplitMeets(OwnOp(g), Wrapped(g.isOr, gt), Wrapped(g.isOr, RulesOf(g, |g.rules|)), OwnOp(g), gm,
                   RulesOf(g, |g.rules|));
        if !g.isOr {
          LooseCat(gt, RulesOf(g, |g.rules|));
        }
      }
      assert SameMeets(gt, gm);
      GroupsMeets(g, n);
      if !g.isOr && n > 1 {
        GroupsTight(g, n);
      }
      forall k | 0 <= k < n
        ensures JoinsKept(g.groups[k]) && Tight(g.groups[k]) && (Loose(TextOf(g.groups[k])) <==> Split(g.groups[k]))
      {
        MeetsForceShape(g.groups[k]);
      }
    }
  }

  lemma LooseCat(a: Expr, b: Expr)
    requires Readable(a) && Readable(b)
    ensures Loose(Cat(And, a, b)) <==> Loose(a) || Loose(b)
  {
  }

  lemma GroupsStep(g: Group, n: nat)
    requires Proper(g) && 1 < n <= |g.groups| && SameMeets(GroupsText(g, n), GroupsMeant(g, n))
    ensures SameMeets(GroupsText(g, n - 1), GroupsMeant(g, n - 1))
    ensures SameMeets(TextOf(g.groups[n - 1]), MeantBy(g.groups[n - 1]))
    ensures FirstJoin(g.groups[n - 1], OwnOp(g)) == OwnOp(g)
    ensures !g.isOr ==> !Loose(GroupsText(g, n - 1)) && !Loose(TextOf(g.groups[n - 1]))
  {
    SameLeavesGroups(g, n - 1);
    SameLeaves(g.groups[n - 1]);
    SplitMeets(FirstJoin(g.groups[n - 1], OwnOp(g)), GroupsText(g, n - 1), TextOf(g.groups[n - 1]),
               OwnOp(g), GroupsMeant(g, n - 1), MeantBy(g.groups[n - 1]));
  }

  /** On one record the compiled query answers what the filter asks. */
  ghost predicate FaithfulOn(g: Group, v: nat -> bool) {
    QueryText(g).Some? && Eval(QueryText(g).value, v) == Some(Meaning(g, v))
  }

  /** The compiled query keeps exactly the records the filter asks for. */
  ghost predicate Faithful(g: Group) {
    forall v: nat -> bool :: FaithfulOn(g, v)
  }

  lemma FaithfulOnIff(g: Group, v: nat -> bool)
    requires Proper(g)
    ensures FaithfulOn(g, v) <==> Value(TextOf(g), v) == Value(MeantBy(g), v)
  {
    QueryReads(g, v);
    MeantIsMeaning(g, v);
  }

  /** For filters whose rules are independent of each other, the compiled query is
      right about every record if and only if no operator is displaced and no
      split OR group is joined by an AND. */
  lemma FilterIsFaithfulIff(g: Group)
    requires Proper(g)
    ensures JoinsKept(g) && Tight(g) ==> Faithful(g)
    ensures Distinct(Leaves(MeantBy(g))) && Faithful(g) ==> JoinsKept(g) && Tight(g)
  {
    if JoinsKept(g) && Tight(g) {
      forall v: nat -> bool ensures FaithfulOn(g, v) {
        TightValue(g, v);
        FaithfulOnIff(g, v);
      }
    }
    if Distinct(Leaves(MeantBy(g))) && Faithful(g) {
      SameLeaves(g);
      forall v: nat -> bool ensures Value(TextOf(g), v) == Value(MeantBy(g), v) {
        assert FaithfulOn(g, v);
        FaithfulOnIff(g, v);
      }
      forall i, k | 0 <= i < k < |Leaves(TextOf(g))| ensures Meet(TextOf(g), i, k) == Meet(MeantBy(g), i, k) {
        EquivalentMeets(TextOf(g), MeantBy(g), i, k);
      }
      MeetsForceShape(g);
    }
  }

  // ----- Any filter: when the text can be read -----------------------------------

  /** What the builder's calls have done to the parentheses: nothing compared yet and
      `pending` ones to come, or `open` ones still open, or one closed that was not open. */
  datatype Parens = Fresh(pending: nat) | Started(open: nat, pending: nat) | Broken

  /** A comparison opens the pending parentheses. */
  function Compared(p: Parens): Parens {
    match p
    case Fresh(n) => Started(n, 0)
    case Started(o, n) => Started(o + n, 0)
    case Broken => Broken
  }

  function Begun(wrap: bool, p: Parens): Parens {
    if !wrap then p
    else
      match p
      case Fresh(n) => Fresh(n + 1)
      case Started(o, n) => Started(o, n + 1)
      case Broken => Broken
  }

  /** `orEnd` closes one even if the one it belongs to is still pending, and none before the
      first comparison. */
  function Ended(wrap: bool, p: Parens): Parens {
    if wrap && p.Started? then (if p.open == 0 then Broken else p.(open := p.open - 1)) else p
  }

  predicate AnyWritten(rules: seq<Rule>, n: nat)
    requires n <= |rules|
  {
    exists k :: 0 <= k < n && Written(rules[k])
  }

  function ParensOfGroups(g: Group, n: nat, p: Parens): Parens
    requires n <= |g.groups|
    decreases g, 0, n
  {
    if n == 0 then p else ParensOf(g.groups[n - 1], ParensOfGroups(g, n - 1, p))
  }

  /** The parentheses of a filter's text, counted on the filter. */
  function ParensOf(g: Group, p: Parens): Parens
    decreases g, 1, 0
  {
    var gor, ror := g.isOr && g.groups != [], g.isOr && g.rules != [];
    var q := Begun(ror, Ended(gor, ParensOfGroups(g, |g.groups|, Begun(gor, p))));
    Ended(ror, if AnyWritten(g.rules, |g.rules|) then Compared(q) else q)
  }

  predicate Balanced(p: Parens) {
    match p
    case Fresh(_) => true
    case Started(o, _) => o == 0
    case Broken => false
  }

  /** The builder's text has the parentheses counted in `p`. */
  ghost predicate Shows(b: Builder, p: Parens) {
    match p
    case Fresh(n) => b.query.None? && b.orDepth == n
    case Started(o, n) => b.query.Some? && b.orDepth == n && Scanned(At(true, 0), b.query.value) == At(false, o)
    case Broken => b.query.Some? && Scanned(At(true, 0), b.query.value) == Stuck
  }

  lemma {:induction false} ScanOpens(n: nat, d: nat)
    ensures Scanned(At(true, d), Opens(n)) == At(true, d + n)
  {
    if n > 0 {
      assert Opens(n)[1..] == Opens(n - 1) && Opens(n)[0] == Open;
      ScanOpens(n - 1, d + 1);
    }
  }

  lemma ScanLit(neg: bool, id: nat, d: nat)
    ensures Scanned(At(true, d), Render(Lit(neg, id))) == At(false, d)
  {
    var inner := [Open, Test(id), Close];
    assert inner[1..] == [Test(id), Close] && inner[1..][1..] == [Close] && [Close][1..] == [];
    assert Scanned(At(false, d + 1), [Close]) == At(false, d);
    assert Scanned(At(true, d), inner) == At(false, d);
    if neg {
      assert ([Bang] + inner)[1..] == inner;
    } else {
      assert [] + inner == inner;
    }
  }

  lemma ScanAppended(before: Text, n: nat, neg: bool, id: nat, d: nat)
    requires Scanned(At(true, 0), before) == At(true, d)
    ensures Scanned(At(true, 0), before + Opens(n) + Render(Lit(neg, id))) == At(false, d + n)
  {
    ScannedConcat(At(true, 0), before, Opens(n));
    ScanOpens(n, d);
    ScannedConcat(At(true, 0), before + Opens(n), Render(Lit(neg, id)));
    ScanLit(neg, id, d + n);
  }

  lemma ScanOne(s: Scan, ts: Text, t: Tok)
    ensures Scanned(s, ts + [t]) == NextScan(Scanned(s, ts), t)
  {
    ScannedConcat(s, ts, [t]);
    assert [t][1..] == [];
  }

  lemma ShowsAppended(b: Builder, p: Parens, id: nat)
    requires Shows(b, p)
    ensures Shows(Appended(b, id), Compared(p))
  {
    match b.query
    case None => ScanAppended([], b.orDepth, b.negate, id, 0);
    case Some(q) =>
      var op := Op(if b.queued.Some? then b.queued.value else And);
      ScanOne(At(true, 0), q, op);
      if p.Broken? {
        ScannedConcat(At(true, 0), q + [op], Opens(b.orDepth));
        ScannedConcat(At(true, 0), q + [op] + Opens(b.orDepth), Render(Lit(b.negate, id)));
        StuckStays(Opens(b.orDepth));
        StuckStays(Render(Lit(b.negate, id)));
      } else {
        ScanAppended(q + [op], b.orDepth, b.negate, id, p.open);
      }
  }

  lemma ShowsClosed(wrap: bool, b: Builder, p: Parens)
    requires Shows(b, p)
    ensures Shows(ClosedIf(wrap, b), Ended(wrap, p))
  {
    if wrap && b.query.Some? {
      ScanOne(At(true, 0), b.query.value, Close);
    }
  }

  lemma {:induction false} ShowsRules(g: Group, n: nat, b: Builder, p: Parens)
    requires n <= |g.rules| && Shows(b, p)
    ensures Shows(AfterRules(g, n, b), if AnyWritten(g.rules, n) then Compared(p) else p)
    decreases n
  {
    if n > 0 {
      var q := if AnyWritten(g.rules, n - 1) then Compared(p) else p;
      var c := AfterRules(g, n - 1, b);
      ShowsRules(g, n - 1, b, p);
      var r := g.rules[n - 1];
      if Written(r) {
        var c1 := if |g.groups| + n - 1 > 0 && g.isOr then c.(queued := Some(Or)) else c;
        var c2 := if Negates(r.op) then c1.(negate := !c1.negate, queued := Some(OwnOp(g))) else c1;
        ShowsAppended(c2, q, r.id);
        assert Compared(q) == Compared(p);
      }
    }
  }

  lemma {:induction false} ShowsGroups(g: Group, n: nat, b: Builder, p: Parens)
    requires n <= |g.groups| && Shows(b, p)
    ensures Shows(AfterGroups(g, n, b), ParensOfGroups(g, n, p))
    decreases g, 0, n
  {
    if n > 0 {
      ShowsGroups(g, n - 1, b, p);
      var c := AfterGroups(g, n - 1, b);
      ShowsFilter(g.groups[n - 1], if n > 1 && g.isOr then c.(queued := Some(Or)) else c, ParensOfGroups(g, n - 1, p));
    }
  }

  lemma {:induction false} ShowsFilter(g: Group, b: Builder, p: Parens)
    requires Shows(b, p)
    ensures Shows(Compile(g, b), ParensOf(g, p))
    decreases g, 1, 0
  {
    var gor, ror := g.isOr && g.groups != [], g.isOr && g.rules != [];
    ShowsGroups(g, |g.groups|, Opened(gor, b), Begun(gor, p));
    var c, q := AfterGroups(g, |g.groups|, Opened(gor, b)), ParensOfGroups(g, |g.groups|, Begun(gor, p));
    ShowsClosed(gor, c, q);
    var d, s := Opened(ror, ClosedIf(gor, c)), Begun(ror, Ended(gor, q));
    ShowsRules(g, |g.rules|, d, s);
    ShowsClosed(ror, AfterRules(g, |g.rules|, d), if AnyWritten(g.rules, |g.rules|) then Compared(s) else s);
  }

  /** Whatever the filter: if it has a text at all, `eval` can read it (on every record, or else
      on none) exactly if the parentheses counted on the filter are balanced. */
  lemma TextIsReadableIff(g: Group, v: nat -> bool)
    ensures (QueryText(g).Some? ==> Eval(QueryText(g).value, v).Some?) <==> Balanced(ParensOf(g, Fresh(0)))
  {
    ShowsFilter(g, EMPTY, Fresh(0));
    if QueryText(g).Some? {
      EvalReadsIff(QueryText(g).value, v);
    }
  }

  /** Some rule somewhere in the filter is complete. */
  predicate Compares(g: Group) {
    AnyWritten(g.rules, |g.rules|) || exists k :: 0 <= k < |g.groups| && Compares(g.groups[k])
  }

  /** What OR parenthesizes is never empty of comparisons. */
  predicate Filled(g: Group) {
    && (forall k :: 0 <= k < |g.groups| ==> Filled(g.groups[k]))
    && (g.isOr && g.groups != [] ==> exists k :: 0 <= k < |g.groups| && Compares(g.groups[k]))
    && (g.isOr && g.rules != [] ==> AnyWritten(g.rules, |g.rules|))
  }

  /** Then the text can be read, whatever else is missing from the filter. */
  lemma {:induction false} FilledParens(g: Group, p: Parens)
    requires Filled(g)
    ensures ParensOf(g, p) == if Compares(g) then Compared(p) else p
    decreases g, 1, 0
  {
    var gor, ror := g.isOr && g.groups != [], g.isOr && g.rules != [];
    FilledGroups(g, |g.groups|, Begun(gor, p));
    assert Ended(gor, ParensOfGroups(g, |g.groups|, Begun(gor, p))) ==
      if exists k :: 0 <= k < |g.groups| && Compares(g.groups[k]) then Compared(p) else p;
  }

  lemma {:induction false} FilledGroups(g: Group, n: nat, p: Parens)
    requires Filled(g) && n <= |g.groups|
    ensures ParensOfGroups(g, n, p) == if exists k :: 0 <= k < n && Compares(g.groups[k]) then Compared(p) else p
    decreases g, 0, n
  {
    if n > 0 {
      FilledGroups(g, n - 1, p);
      FilledParens(g.groups[n - 1], ParensOfGroups(g, n - 1, p));
    }
  }

  lemma FilledIsReadable(g: Group, v: nat -> bool)
    requires Filled(g)
    ensures QueryText(g).Some? ==> Eval(QueryText(g).value, v).Some?
  {
    FilledParens(g, Fresh(0));
    TextIsReadableIff(g, v);
  }

  /** A group of complete rules alone. */
  predicate Plain(g: Group) {
    !g.isOr && g.groups == [] && AnyWritten(g.rules, |g.rules|)
  }

  /** An OR group of incomplete rules alone. */
  predicate Hollow(g: Group) {
    g.isOr && g.groups == [] && g.rules != [] && !AnyWritten(g.rules, |g.rules|)
  }

  /** A hollow group before another rule: its parenthesis is left to the comparison that follows,
      and never closed. */
  lemma IncompleteRuleBreaksText(g: Group, v: nat -> bool)
    requires !g.isOr && |g.groups| == 1 && Hollow(g.groups[0]) && AnyWritten(g.rules, |g.rules|)
    ensures ParensOf(g, Fresh(0)) == Started(1, 0) && QueryText(g).Some? && Eval(QueryText(g).value, v) == None
  {
    HollowParens(g.groups[0], Fresh(0));
    assert ParensOfGroups(g, 0, Fresh(0)) == Fresh(0);
    assert ParensOfGroups(g, 1, Fresh(0)) == Fresh(1);
    StartedReads(g, v);
  }

  /** A hollow group between two others of an OR does no harm: what it closes too early is
      closed again too late. */
  lemma IncompleteRuleSpared(g: Group, v: nat -> bool)
    requires g.isOr && g.rules == [] && |g.groups| == 3
    requires Plain(g.groups[0]) && Hollow(g.groups[1]) && Plain(g.groups[2])
    ensures ParensOf(g, Fresh(0)) == Started(0, 0) && QueryText(g).Some? && Eval(QueryText(g).value, v).Some?
  {
    SparedParens(g, Fresh(0));
    StartedReads(g, v);
  }

  lemma SparedParens(g: Group, p: Parens)
    requires g.isOr && g.rules == [] && |g.groups| == 3
    requires Plain(g.groups[0]) && Hollow(g.groups[1]) && Plain(g.groups[2])
    ensures ParensOf(g, p) == Ended(true, Compared(Ended(true, Begun(true, Compared(Begun(true, p))))))
  {
    var q := Compared(Begun(true, p));
    var r := Ended(true, Begun(true, q));
    PlainParens(g.groups[0], Begun(true, p));
    HollowParens(g.groups[1], q);
    PlainParens(g.groups[2], r);
    ThreeParens(g, p);
  }

  lemma StartedReads(g: Group, v: nat -> bool)
    requires ParensOf(g, Fresh(0)).Started?
    ensures QueryText(g).Some? && (Eval(QueryText(g).value, v).Some? <==> ParensOf(g, Fresh(0)).open == 0)
  {
    ShowsFilter(g, EMPTY, Fresh(0));
    TextIsReadableIff(g, v);
  }

  lemma ThreeParens(g: Group, p: Parens)
    requires g.isOr && g.rules == [] && |g.groups| == 3
    ensures ParensOf(g, p) ==
      Ended(true, ParensOf(g.groups[2], ParensOf(g.groups[1], ParensOf(g.groups[0], Begun(true, p)))))
  {
    var q := Begun(true, p);
    assert ParensOfGroups(g, 0, q) == q;
    assert ParensOfGroups(g, 1, q) == ParensOf(g.groups[0], q);
    assert ParensOfGroups(g, 2, q) == ParensOf(g.groups[1], ParensOfGroups(g, 1, q));
  }

  lemma PlainParens(g: Group, p: Parens)
    requires Plain(g)
    ensures ParensOf(g, p) == Compared(p)
  {
    assert ParensOfGroups(g, 0, p) == p;
  }

  lemma HollowParens(g: Group, p: Parens)
    requires Hollow(g)
    ensures ParensOf(g, p) == Ended(true, Begun(true, p))
  {
    assert ParensOfGroups(g, 0, p) == p;
  }

  // ----- Searching the data ----------------------------------------------------

  /** The text can be read, and is true. */
  predicate TextHolds(text: Option<Text>, v: nat -> bool) {
    text.Some? && Eval(text.value, v) == Some(true)
  }

  /** The records on which the text is true, `test` being what the comparisons say of a record. */
  ghost function ByText<R>(text: Option<Text>, test: R -> nat -> bool): R -> bool {
    r => TextHolds(text, test(r))
  }

  /** Those on which the expression that is written has the value true. */
  ghost function ByTree<R>(g: Group, test: R -> nat -> bool): R -> bool {
    r => Proper(g) && Value(TextOf(g), test(r))
  }

  /** Those that the filter asks for. */
  ghost function ByMeaning<R>(g: Group, test: R -> nat -> bool): R -> bool {
    r => Meaning(g, test(r))
  }

  /** The search of `addLocalData`: compile the filter, then `execute` it on every record.  It
      fails exactly if there are records and the filter's parentheses are not balanced; else it
      keeps exactly the records on which the text is true, or all if there is no text. */
  method Search<R>(g: Group, data: seq<R>, test: R -> nat -> bool) returns (results: Option<seq<R>>)
    ensures results.None? <==> data != [] && !Balanced(ParensOf(g, Fresh(0)))
    ensures results.Some? && QueryText(g).None? ==> results.value == data
    ensures results.Some? && QueryText(g).Some? ==> Filters(data, ByText(QueryText(g), test), results.value)
    ensures Proper(g) ==> results.Some? && Filters(data, ByTree(g, test), results.value)
    ensures Proper(g) && JoinsKept(g) && Tight(g) ==> Filters(data, ByMeaning(g, test), results.value)
  {
    var query := new QueryObject();
    query.ToJLinq(g);
    var text := query.query;
    assert text == QueryText(g);
    if text.None? {
      TextIsReadableIff(g, _ => false);
      if Proper(g) {
        QueryReads(g, _ => false);
      }
      return Some(data);
    }
    var kept: seq<R> := [];
    for i := 0 to |data|
      invariant i > 0 ==> Balanced(ParensOf(g, Fresh(0)))
      invariant kept == Filter(data[..i], ByText(text, test))
    {
      assert data[..i + 1] == data[..i] + [data[i]];
      FilterNext(data[..i], ByText(text, test), data[i]);
      RecordAnswer(g, test(data[i]));
      var answer := Eval(text.value, test(data[i]));
      if answer.None? {
        return None;
      }
      if answer.value {
        kept := kept + [data[i]];
      }
    }
    assert data[..|data|] == data;
    results := Some(kept);
    FilterPlaces(data, ByText(text, test));
    KeptByFilter(g, data, test);
  }

  /** What evaluating the text on one record comes to. */
  lemma RecordAnswer(g: Group, v: nat -> bool)
    requires QueryText(g).Some?
    ensures Eval(QueryText(g).value, v).Some? <==> Balanced(ParensOf(g, Fresh(0)))
    ensures Proper(g) ==> Eval(QueryText(g).value, v) == Some(Value(TextOf(g), v))
    ensures Proper(g) && JoinsKept(g) && Tight(g) ==> Eval(QueryText(g).value, v) == Some(Meaning(g, v))
  {
    TextIsReadableIff(g, v);
    if Proper(g) {
      QueryReads(g, v);
      FilterIsFaithfulIff(g);
      assert JoinsKept(g) && Tight(g) ==> FaithfulOn(g, v);
    }
  }

  /** The records kept are those on which the written expression is true, and under the two
      conditions those that the filter asks for. */
  lemma KeptByFilter<R>(g: Group, data: seq<R>, test: R -> nat -> bool)
    requires QueryText(g).Some?
    ensures Proper(g) ==> Filters(data, ByTree(g, test), Filter(data, ByText(QueryText(g), test)))
    ensures Proper(g) && JoinsKept(g) && Tight(g) ==>
      Filters(data, ByMeaning(g, test), Filter(data, ByText(QueryText(g), test)))
  {
    if Proper(g) {
      forall r: R | r in data
        ensures ByText(QueryText(g), test)(r) <==> ByTree(g, test)(r)
        ensures JoinsKept(g) && Tight(g) ==> (ByText(QueryText(g), test)(r) <==> ByMeaning(g, test)(r))
      {
        RecordAnswer(g, test(r));
      }
      FilterSame(data, ByText(QueryText(g), test), ByTree(g, test));
      FilterPlaces(data, ByTree(g, test));
      if JoinsKept(g) && Tight(g) {
        FilterSame(data, ByText(QueryText(g), test), ByMeaning(g, test));
        FilterPlaces(data, ByMeaning(g, test));
      }
    }
  }

  /** A rule with a negating operator asks for the opposite of the rule with its counterpart. */
  lemma Opposites(id: nat, v: nat -> bool)
    ensures RuleMeaning(Rule(Nc, true, id), v) != RuleMeaning(Rule(Cn, true, id), v)
    ensures RuleMeaning(Rule(Bn, true, id), v) != RuleMeaning(Rule(Bw, true, id), v)
    ensures RuleMeaning(Rule(En, true, id), v) != RuleMeaning(Rule(Ew, true, id), v)
    ensures RuleMeaning(Rule(Ni, true, id), v) != RuleMeaning(Rule(In, true, id), v)
    ensures RuleMeaning(Rule(Nn, true, id), v) != RuleMeaning(Rule(Nu, true, id), v)
    ensures forall op :: op in {Eq, Ne, Lt, Le, Gt, Ge, Cn, Bw, Ew, In, Nu} ==>
      (RuleMeaning(Rule(op, true, id), v) <==> v(id))
  {
  }
}
