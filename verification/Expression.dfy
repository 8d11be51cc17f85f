// The boolean expressions jqGrid's query builder writes and `eval` reads:
// `&&` binds tighter than `||` (section 11.11 of ECMA-262, edition 5.1).

module Expression {
  import opened Wrappers

  datatype Join = And | Or

  /** One token of the query text; `Test(id)` stands for one comparison. */
  datatype Tok = Open | Close | Bang | Op(join: Join) | Test(id: nat)

  type Text = seq<Tok>

  // ----- eval ---------------------------------------------------------------

  datatype Result = Error | Ok(value: bool, rest: Text)

  /** LogicalOR := LogicalAND [ || LogicalOR ] */
  function EvalOr(ts: Text, v: nat -> bool): (r: Result)
    ensures r.Ok? ==> |r.rest| < |ts|
    decreases |ts|, 2
  {
    match EvalAnd(ts, v)
    case Error => Error
    case Ok(x, rest) =>
      if rest == [] || rest[0] != Op(Or) then Ok(x, rest)
      else
        match EvalOr(rest[1..], v)
        case Error => Error
        case Ok(y, more) => Ok(x || y, more)
  }

  /** LogicalAND := Unary [ && LogicalAND ] */
  function EvalAnd(ts: Text, v: nat -> bool): (r: Result)
    ensures r.Ok? ==> |r.rest| < |ts|
    decreases |ts|, 1
  {
    match EvalUnary(ts, v)
    case Error => Error
    case Ok(x, rest) =>
      if rest == [] || rest[0] != Op(And) then Ok(x, rest)
      else
        match EvalAnd(rest[1..], v)
        case Error => Error
        case Ok(y, more) => Ok(x && y, more)
  }

  /** Unary := ! Unary | ( LogicalOR ) | comparison */
  function EvalUnary(ts: Text, v: nat -> bool): (r: Result)
    ensures r.Ok? ==> |r.rest| < |ts|
    decreases |ts|, 0
  {
    if ts == [] then Error
    else
      match ts[0]
      case Test(id) => Ok(v(id), ts[1..])
      case Bang =>
        (match EvalUnary(ts[1..], v)
         case Error => Error
         case Ok(x, rest) => Ok(!x, rest))
      case Open =>
        (match EvalOr(ts[1..], v)
         case Error => Error
         case Ok(x, rest) => if rest != [] && rest[0] == Close then Ok(x, rest[1..]) else Error)
      case _ => Error
  }

  /** The value of a whole text, or None where `eval` would throw.  (It would not on the empty text,
      whose value is undefined; a query's text is never empty.) */
  function Eval(ts: Text, v: nat -> bool): Option<bool> {
    match EvalOr(ts, v)
    case Ok(x, rest) => if rest == [] then Some(x) else None
    case Error => None
  }

  // ----- Expression trees ---------------------------------------------------

  datatype Expr = Lit(neg: bool, id: nat) | Bin(join: Join, l: Expr, r: Expr) | Par(e: Expr)

  function Value(e: Expr, v: nat -> bool): bool {
    match e
    case Lit(neg, id) => neg != v(id)
    case Bin(And, l, r) => Value(l, v) && Value(r, v)
    case Bin(Or, l, r) => Value(l, v) || Value(r, v)
    case Par(x) => Value(x, v)
  }

  /** An unparenthesized `||` at the top. */
  predicate Loose(e: Expr) {
    e.Bin? && e.join == Or
  }

  /** No `||` stands directly under `&&`. */
  predicate Readable(e: Expr) {
    match e
    case Lit(_, _) => true
    case Bin(And, l, r) => !Loose(l) && !Loose(r) && Readable(l) && Readable(r)
    case Bin(Or, l, r) => Readable(l) && Readable(r)
    case Par(x) => Readable(x)
  }

  function Render(e: Expr): (ts: Text)
    ensures |ts| > 0
  {
    match e
    case Lit(neg, id) => (if neg then [Bang] else []) + [Open, Test(id), Close]
    case Bin(j, l, r) => Render(l) + [Op(j)] + Render(r)
    case Par(x) => [Open] + Render(x) + [Close]
  }

  /** What writing `a j b` without parentheses amounts to. */
  function Cat(j: Join, a: Expr, b: Expr): (e: Expr)
    requires Readable(a) && Readable(b)
    ensures Readable(e)
    decreases a, b
  {
    if j == Or then Bin(Or, a, b)
    else if Loose(a) then Bin(Or, a.l, Cat(And, a.r, b))
    else if Loose(b) then Bin(Or, Cat(And, a, b.l), b.r)
    else Bin(And, a, b)
  }

  lemma {:induction false} RenderCat(j: Join, a: Expr, b: Expr)
    requires Readable(a) && Readable(b)
    ensures Render(Cat(j, a, b)) == Render(a) + [Op(j)] + Render(b)
    decreases a, b
  {
    if j == And {
      if Loose(a) {
        RenderCat(And, a.r, b);
        Regroup(Render(a.l), [Op(Or)], Render(a.r), [Op(And)], Render(b));
      } else if Loose(b) {
        RenderCat(And, a, b.l);
        Regroup(Render(a), [Op(And)], Render(b.l), [Op(Or)], Render(b.r));
      }
    }
  }

  lemma Regroup(a: Text, j: Text, b: Text, k: Text, c: Text)
    ensures a + j + (b + k + c) == (a + j + b) + k + c
  {
  }

  // ----- eval reads a rendered expression as the tree it came from -----------

  function Starts(ts: Text, t: Tok): bool {
    ts != [] && ts[0] == t
  }

  lemma {:induction false} EvalLit(neg: bool, id: nat, rest: Text, v: nat -> bool)
    ensures EvalUnary(Render(Lit(neg, id)) + rest, v) == Ok(neg != v(id), rest)
  {
    var inner := [Open, Test(id), Close] + rest;
    assert inner[1..] == [Test(id)] + ([Close] + rest);
    assert ([Test(id)] + ([Close] + rest))[1..] == [Close] + rest;
    assert EvalUnary(inner[1..], v) == Ok(v(id), [Close] + rest);
    assert EvalOr(inner[1..], v) == Ok(v(id), [Close] + rest);
    assert ([Close] + rest)[1..] == rest;
    assert EvalUnary(inner, v) == Ok(v(id), rest);
    if neg {
      assert (Render(Lit(neg, id)) + rest)[1..] == inner;
    } else {
      assert Render(Lit(neg, id)) + rest == inner;
    }
  }

  lemma {:induction false} EvalParens(e: Expr, rest: Text, v: nat -> bool)
    requires Readable(e)
    ensures EvalUnary(Render(Par(e)) + rest, v) == Ok(Value(e, v), rest)
    decreases e, 2
  {
    var ts := Render(Par(e)) + rest;
    assert ts[1..] == Render(e) + ([Close] + rest);
    EvalOrRender(e, [Close] + rest, v);
    assert ([Close] + rest)[1..] == rest;
  }

  lemma {:induction false} EvalAndRender(e: Expr, rest: Text, v: nat -> bool)
    requires Readable(e) && !Loose(e)
    ensures EvalAnd(Render(e) + rest, v) ==
      if !Starts(rest, Op(And)) then Ok(Value(e, v), rest)
      else
        match EvalAnd(rest[1..], v)
        case Error => Error
        case Ok(y, more) => Ok(Value(e, v) && y, more)
    decreases e, 0
  {
    match e
    case Lit(neg, id) => EvalLit(neg, id, rest, v);
    case Par(x) => EvalParens(x, rest, v);
    case Bin(_, l, r) =>
      var tail := [Op(And)] + (Render(r) + rest);
      assert Render(e) + rest == Render(l) + tail;
      assert tail[1..] == Render(r) + rest;
      EvalAndRender(l, tail, v);
      EvalAndRender(r, rest, v);
  }

  lemma {:induction false} EvalOrRender(e: Expr, rest: Text, v: nat -> bool)
    requires Readable(e) && !Starts(rest, Op(And))
    ensures EvalOr(Render(e) + rest, v) ==
      if !Starts(rest, Op(Or)) then Ok(Value(e, v), rest)
      else
        match EvalOr(rest[1..], v)
        case Error => Error
        case Ok(y, more) => Ok(Value(e, v) || y, more)
    decreases e, 1
  {
    if Loose(e) {
      var tail := [Op(Or)] + (Render(e.r) + rest);
      assert Render(e) + rest == Render(e.l) + tail;
      assert tail[1..] == Render(e.r) + rest;
      EvalOrRender(e.l, tail, v);
      EvalOrRender(e.r, rest, v);
    } else {
      EvalAndRender(e, rest, v);
    }
  }

  /** Reading back a rendered expression gives its value, whatever the comparisons say. */
  lemma RenderRoundTrip(e: Expr, v: nat -> bool)
    requires Readable(e)
    ensures Eval(Render(e), v) == Some(Value(e, v))
  {
    assert Render(e) + [] == Render(e);
    EvalOrRender(e, [], v);
  }

  // ----- The operator under which two comparisons meet ----------------------

  function Leaves(e: Expr): (s: seq<nat>)
    ensures |s| > 0
  {
    match e
    case Lit(_, id) => [id]
    case Bin(_, l, r) => Leaves(l) + Leaves(r)
    case Par(x) => Leaves(x)
  }

  function Ids(e: Expr): set<nat> {
    set x | x in Leaves(e)
  }

  /** No comparison occurs twice. */
  predicate Once(e: Expr) {
    match e
    case Lit(_, _) => true
    case Bin(_, l, r) => Once(l) && Once(r) && Ids(l) !! Ids(r)
    case Par(x) => Once(x)
  }

  /** The operator joining the smallest subexpressions that hold leaves i and k. */
  function Meet(e: Expr, i: nat, k: nat): Join
    requires i < k < |Leaves(e)|
  {
    match e
    case Bin(j, l, r) =>
      var n := |Leaves(l)|;
      if k < n then Meet(l, i, k) else if i >= n then Meet(r, i - n, k - n) else j
    case Par(x) => Meet(x, i, k)
  }

  /** The value when exactly the literals named in `t` are true. */
  predicate Truth(e: Expr, t: set<nat>) {
    match e
    case Lit(_, id) => id in t
    case Bin(And, l, r) => Truth(l, t) && Truth(r, t)
    case Bin(Or, l, r) => Truth(l, t) || Truth(r, t)
    case Par(x) => Truth(x, t)
  }

  lemma LeavesIn(e: Expr, i: nat)
    requires i < |Leaves(e)|
    ensures Leaves(e)[i] in Ids(e)
  {
  }

  lemma {:induction false} TruthLocal(e: Expr, t: set<nat>, u: set<nat>)
    requires forall x :: x in Ids(e) ==> (x in t <==> x in u)
    ensures Truth(e, t) == Truth(e, u)
    decreases e
  {
    match e
    case Lit(_, id) => assert id in Leaves(e);
    case Bin(_, l, r) =>
      TruthLocal(l, t, u);
      TruthLocal(r, t, u);
    case Par(x) => TruthLocal(x, t, u);
  }

  lemma {:induction false} AllOrNothing(e: Expr, t: set<nat>)
    ensures Ids(e) <= t ==> Truth(e, t)
    ensures Ids(e) !! t ==> !Truth(e, t)
    decreases e
  {
    match e
    case Lit(_, id) => assert id in Leaves(e);
    case Bin(_, l, r) =>
      assert Ids(e) == Ids(l) + Ids(r);
      AllOrNothing(l, t);
      AllOrNothing(r, t);
    case Par(x) => AllOrNothing(x, t);
  }

  /** With exactly `s` true among the others, `e` is just the literal of leaf i. */
  ghost predicate PinsOne(e: Expr, i: nat, s: set<nat>)
    requires i < |Leaves(e)|
  {
    var x := Leaves(e)[i];
    s <= Ids(e) && x !in s && !Truth(e, s) && Truth(e, s + {x})
  }

  lemma {:induction false} PinOne(e: Expr, i: nat) returns (s: set<nat>)
    requires Once(e) && i < |Leaves(e)|
    ensures PinsOne(e, i, s)
    decreases e
  {
    match e
    case Lit(_, _) => s := {};
    case Par(d) => s := PinOne(d, i);
    case Bin(j, l, r) =>
      var n, x := |Leaves(l)|, Leaves(e)[i];
      var near, far := if i < n then l else r, if i < n then r else l;
      var p := if i < n then i else i - n;
      LeavesIn(near, p);
      var sn := PinOne(near, p);
      s := Widen(j, near, far, sn, {x});
      assert s == s + {} && sn == sn + {};
  }

  /** Extends a choice for `near` to its sibling `far` so that the join passes the value of `near` on. */
  lemma Widen(j: Join, near: Expr, far: Expr, sn: set<nat>, xs: set<nat>) returns (s: set<nat>)
    requires Ids(near) !! Ids(far) && sn <= Ids(near) && xs <= Ids(near)
    ensures s == if j == And then sn + Ids(far) else sn
    ensures forall t: set<nat> :: t <= xs ==>
      Truth(near, s + t) == Truth(near, sn + t) && (Truth(far, s + t) <==> j == And)
  {
    s := if j == And then sn + Ids(far) else sn;
    forall t: set<nat> | t <= xs
      ensures Truth(near, s + t) == Truth(near, sn + t) && (Truth(far, s + t) <==> j == And)
    {
      TruthLocal(near, s + t, sn + t);
      AllOrNothing(far, s + t);
    }
  }

  function Apply(j: Join, a: bool, b: bool): bool {
    if j == And then a && b else a || b
  }

  /** With exactly `s` true among the others, `e` is leaves i and k under operator `j`. */
  ghost predicate PinsTwo(e: Expr, i: nat, k: nat, j: Join, s: set<nat>)
    requires i < k < |Leaves(e)|
  {
    var x, y := Leaves(e)[i], Leaves(e)[k];
    && s <= Ids(e) && x !in s && y !in s
    && !Truth(e, s) && Truth(e, s + {x, y})
    && (Truth(e, s + {x}) <==> j == Or)
    && (Truth(e, s + {y}) <==> j == Or)
  }

  lemma {:induction false} PinTwo(e: Expr, i: nat, k: nat) returns (s: set<nat>)
    requires Once(e) && i < k < |Leaves(e)|
    ensures PinsTwo(e, i, k, Meet(e, i, k), s)
    decreases e
  {
    match e
    case Par(d) => s := PinTwo(d, i, k);
    case Bin(j, l, r) =>
      var n, x, y := |Leaves(l)|, Leaves(e)[i], Leaves(e)[k];
      if i < n <= k {
        s := PinApart(l, r, j, i, k - n);
      } else {
        var near, far := if k < n then l else r, if k < n then r else l;
        var p, q := if k < n then i else i - n, if k < n then k else k - n;
        LeavesIn(near, p);
        LeavesIn(near, q);
        var sn := PinTwo(near, p, q);
        s := Widen(j, near, far, sn, {x, y});
        assert s == s + {} && sn == sn + {};
      }
  }

  lemma PinApart(l: Expr, r: Expr, j: Join, i: nat, k: nat) returns (s: set<nat>)
    requires Once(l) && Once(r) && Ids(l) !! Ids(r) && i < |Leaves(l)| && k < |Leaves(r)|
    ensures PinsTwo(Bin(j, l, r), i, |Leaves(l)| + k, j, s)
  {
    var x, y := Leaves(l)[i], Leaves(r)[k];
    LeavesIn(l, i);
    LeavesIn(r, k);
    var sl := PinOne(l, i);
    var sr := PinOne(r, k);
    s := sl + sr;
    TruthLocal(l, s, sl);
    TruthLocal(l, s + {x}, sl + {x});
    TruthLocal(l, s + {y}, sl);
    TruthLocal(l, s + {x, y}, sl + {x});
    TruthLocal(r, s, sr);
    TruthLocal(r, s + {y}, sr + {y});
    TruthLocal(r, s + {x}, sr);
    TruthLocal(r, s + {x, y}, sr + {y});
  }

  /** No way of fixing the others makes leaves i and k look joined by the other operator. */
  lemma {:induction false} NeverTheOther(e: Expr, i: nat, k: nat, s: set<nat>)
    requires Once(e) && i < k < |Leaves(e)|
    ensures var x, y := Leaves(e)[i], Leaves(e)[k];
      && (Meet(e, i, k) == Or ==> !(Truth(e, s + {x, y}) && !Truth(e, s + {x}) && !Truth(e, s + {y})))
      && (Meet(e, i, k) == And ==> !(!Truth(e, s) && Truth(e, s + {x}) && Truth(e, s + {y})))
    decreases e
  {
    var x, y := Leaves(e)[i], Leaves(e)[k];
    match e
    case Par(d) => NeverTheOther(d, i, k, s);
    case Bin(j, l, r) =>
      var n := |Leaves(l)|;
      assert Ids(e) == Ids(l) + Ids(r);
      if i < n <= k {
        LeavesIn(l, i);
        LeavesIn(r, k - n);
        TruthLocal(l, s + {x, y}, s + {x});
        TruthLocal(r, s + {x, y}, s + {y});
        TruthLocal(l, s, s + {y});
        TruthLocal(r, s, s + {x});
      } else {
        var near, far := if k < n then l else r, if k < n then r else l;
        var p, q := if k < n then i else i - n, if k < n then k else k - n;
        LeavesIn(near, p);
        LeavesIn(near, q);
        NeverTheOther(near, p, q, s);
        TruthLocal(far, s, s + {x, y});
        TruthLocal(far, s, s + {x});
        TruthLocal(far, s, s + {y});
      }
  }

  /** Expressions over the same comparisons in the same order differ somewhere as
      soon as two comparisons meet under different operators. */
  lemma Distinguish(e: Expr, f: Expr, i: nat, k: nat) returns (t: set<nat>)
    requires Once(e) && Once(f) && Leaves(e) == Leaves(f)
    requires i < k < |Leaves(e)| && Meet(e, i, k) != Meet(f, i, k)
    ensures Truth(e, t) != Truth(f, t)
  {
    var x, y := Leaves(f)[i], Leaves(f)[k];
    var s := PinTwo(f, i, k);
    NeverTheOther(e, i, k, s);
    t := if Truth(e, s) != Truth(f, s) then s
         else if Truth(e, s + {x}) != Truth(f, s + {x}) then s + {x}
         else if Truth(e, s + {y}) != Truth(f, s + {y}) then s + {y}
         else s + {x, y};
  }

  // ----- Meets under concatenation ------------------------------------------

  lemma {:induction false} LeavesCat(j: Join, a: Expr, b: Expr)
    requires Readable(a) && Readable(b)
    ensures Leaves(Cat(j, a, b)) == Leaves(a) + Leaves(b)
    decreases a, b
  {
    if j == And {
      if Loose(a) {
        LeavesCat(And, a.r, b);
      } else if Loose(b) {
        LeavesCat(And, a, b.l);
      }
    }
  }

  /** Concatenation leaves meets inside either part alone. */
  lemma {:induction false} MeetCat(j: Join, a: Expr, b: Expr, i: nat, k: nat)
    requires Readable(a) && Readable(b)
    requires i < k < |Leaves(a)| + |Leaves(b)|
    ensures Leaves(Cat(j, a, b)) == Leaves(a) + Leaves(b)
    ensures k < |Leaves(a)| ==> Meet(Cat(j, a, b), i, k) == Meet(a, i, k)
    ensures i >= |Leaves(a)| ==> Meet(Cat(j, a, b), i, k) == Meet(b, i - |Leaves(a)|, k - |Leaves(a)|)
    decreases a, b
  {
    LeavesCat(j, a, b);
    if j == And {
      if Loose(a) {
        LeavesCat(And, a.r, b);
        var n := |Leaves(a.l)|;
        if i >= n {
          MeetCat(And, a.r, b, i - n, k - n);
        }
      } else if Loose(b) {
        LeavesCat(And, a, b.l);
        var n := |Leaves(a)| + |Leaves(b.l)|;
        if k < n {
          MeetCat(And, a, b.l, i, k);
        }
      }
    }
  }

  /** The leaves on either side of a join meet under it; and under `||` whenever a side was loose. */
  lemma {:induction false} MeetAcross(j: Join, a: Expr, b: Expr)
    requires Readable(a) && Readable(b)
    ensures Leaves(Cat(j, a, b)) == Leaves(a) + Leaves(b)
    ensures Meet(Cat(j, a, b), |Leaves(a)| - 1, |Leaves(a)|) == j
    ensures Meet(Cat(j, a, b), 0, |Leaves(a)| + |Leaves(b)| - 1) ==
      if Loose(a) || Loose(b) then Or else j
    decreases a, b
  {
    LeavesCat(j, a, b);
    if j == And {
      if Loose(a) {
        MeetAcross(And, a.r, b);
        LeavesCat(And, a.r, b);
      } else if Loose(b) {
        MeetAcross(And, a, b.l);
        LeavesCat(And, a, b.l);
      }
    }
  }

  /** Concatenating tight parts means what the operator says. */
  lemma {:induction false} ValueCat(j: Join, a: Expr, b: Expr, v: nat -> bool)
    requires Readable(a) && Readable(b) && (j == And ==> !Loose(a) && !Loose(b))
    ensures Value(Cat(j, a, b), v) == Apply(j, Value(a, v), Value(b, v))
  {
  }

  // ----- From truth of literals to truth of comparisons ----------------------

  /** `negs` names exactly the comparisons of `e` that stand negated. */
  predicate Signs(e: Expr, negs: set<nat>) {
    match e
    case Lit(neg, id) => neg == (id in negs)
    case Bin(_, l, r) => Signs(l, negs) && Signs(r, negs)
    case Par(x) => Signs(x, negs)
  }

  lemma {:induction false} TruthIsValue(e: Expr, negs: set<nat>, t: set<nat>, v: nat -> bool)
    requires Signs(e, negs)
    requires forall id :: v(id) == ((id in t) != (id in negs))
    ensures Value(e, v) == Truth(e, t)
    decreases e
  {
    match e
    case Lit(_, _) =>
    case Bin(_, l, r) =>
      TruthIsValue(l, negs, t, v);
      TruthIsValue(r, negs, t, v);
    case Par(x) => TruthIsValue(x, negs, t, v);
  }

  function Negs(e: Expr): (s: set<nat>)
    ensures s <= Ids(e)
  {
    match e
    case Lit(neg, id) => if neg then {id} else {}
    case Bin(_, l, r) => Negs(l) + Negs(r)
    case Par(x) => Negs(x)
  }

  predicate Distinct(s: seq<nat>) {
    forall i, k :: 0 <= i < k < |s| ==> s[i] != s[k]
  }

  lemma {:induction false} DistinctIsOnce(e: Expr)
    requires Distinct(Leaves(e))
    ensures Once(e)
    decreases e
  {
    match e
    case Lit(_, _) =>
    case Par(x) => DistinctIsOnce(x);
    case Bin(_, l, r) =>
      var s, n := Leaves(e), |Leaves(l)|;
      forall i, k | 0 <= i < k < n ensures Leaves(l)[i] != Leaves(l)[k] {
        assert s[i] != s[k];
      }
      forall i, k | 0 <= i < k < |Leaves(r)| ensures Leaves(r)[i] != Leaves(r)[k] {
        assert s[n + i] != s[n + k];
      }
      forall x | x in Ids(l) ensures x !in Ids(r) {
        var i :| 0 <= i < n && Leaves(l)[i] == x;
        forall k | 0 <= k < |Leaves(r)| ensures Leaves(r)[k] != x {
          assert s[i] != s[n + k];
        }
      }
      DistinctIsOnce(l);
      DistinctIsOnce(r);
  }

  lemma {:induction false} OwnSigns(e: Expr, others: set<nat>)
    requires Once(e) && Ids(e) !! others
    ensures Signs(e, Negs(e) + others)
    decreases e
  {
    match e
    case Lit(_, id) => assert id in Leaves(e);
    case Par(x) => OwnSigns(x, others);
    case Bin(_, l, r) =>
      assert Ids(e) == Ids(l) + Ids(r);
      OwnSigns(l, Negs(r) + others);
      OwnSigns(r, Negs(l) + others);
      assert Negs(e) + others == Negs(l) + (Negs(r) + others) == Negs(r) + (Negs(l) + others);
  }

  lemma {:induction false} NegsCat(j: Join, a: Expr, b: Expr)
    requires Readable(a) && Readable(b)
    ensures Negs(Cat(j, a, b)) == Negs(a) + Negs(b)
    decreases a, b
  {
    if j == And {
      if Loose(a) {
        NegsCat(And, a.r, b);
      } else if Loose(b) {
        NegsCat(And, a, b.l);
      }
    }
  }

  /** Two expressions over the same signed comparisons in the same order, each
      occurring once, agree under all comparisons only if all meets agree. */
  lemma EquivalentMeets(e: Expr, f: Expr, i: nat, k: nat)
    requires Distinct(Leaves(e)) && Leaves(e) == Leaves(f) && Negs(e) == Negs(f)
    requires i < k < |Leaves(e)|
    requires forall v: nat -> bool :: Value(e, v) == Value(f, v)
    ensures Meet(e, i, k) == Meet(f, i, k)
  {
    if Meet(e, i, k) != Meet(f, i, k) {
      DistinctIsOnce(e);
      DistinctIsOnce(f);
      var t := Distinguish(e, f, i, k);
      var negs := Negs(e);
      var v := (id: nat) => (id in t) != (id in negs);
      OwnSigns(e, {});
      OwnSigns(f, {});
      assert negs + {} == negs;
      TruthIsValue(e, negs, t, v);
      TruthIsValue(f, negs, t, v);
      assert false;
    }
  }

  // ----- Which texts eval can read ---------------------------------------------

  /** Reading a text from the left: whether an operand must come next, and how many
      parentheses are open. */
  datatype Scan = Stuck | At(operand: bool, depth: nat)

  function NextScan(s: Scan, t: Tok): Scan {
    match s
    case Stuck => Stuck
    case At(operand, depth) =>
      match t
      case Open => if operand then At(true, depth + 1) else Stuck
      case Bang => if operand then s else Stuck
      case Test(_) => if operand then At(false, depth) else Stuck
      case Op(_) => if operand then Stuck else At(true, depth)
      case Close => if operand || depth == 0 then Stuck else At(false, depth - 1)
  }

  function Scanned(s: Scan, ts: Text): Scan
    decreases |ts|
  {
    if ts == [] then s else Scanned(NextScan(s, ts[0]), ts[1..])
  }

  /** Operands and operators alternate, and the parentheses are balanced. */
  predicate WellFormed(ts: Text) {
    Scanned(At(true, 0), ts) == At(false, 0)
  }

  lemma {:induction false} ScannedConcat(s: Scan, a: Text, b: Text)
    ensures Scanned(s, a + b) == Scanned(Scanned(s, a), b)
    decreases |a|
  {
    if a == [] {
      assert a + b == b;
    } else {
      assert (a + b)[1..] == a[1..] + b;
      ScannedConcat(NextScan(s, a[0]), a[1..], b);
    }
  }

  lemma {:induction false} StuckStays(ts: Text)
    ensures Scanned(Stuck, ts) == Stuck
  {
    if ts != [] {
      StuckStays(ts[1..]);
    }
  }

  /** How scanning `ts` goes on behind what eval read, or fails where eval fails. */
  ghost predicate ScansLike(ts: Text, r: Result) {
    match r
    case Ok(_, rest) => forall d: nat :: Scanned(At(true, d), ts) == Scanned(At(false, d), rest)
    case Error => forall d: nat :: Scanned(At(true, d), ts) != At(false, 0)
  }

  lemma {:induction false} UnaryScans(ts: Text, v: nat -> bool)
    ensures ScansLike(ts, EvalUnary(ts, v))
    decreases |ts|, 1
  {
    if ts != [] {
      match ts[0]
      case Test(_) =>
      case Bang =>
        UnaryScans(ts[1..], v);
        ScansBehind(ts);
      case Open => ParensScan(ts, v);
      case Close => StuckStays(ts[1..]);
      case Op(_) => StuckStays(ts[1..]);
    }
  }

  lemma ScansBehind(ts: Text)
    requires ts != []
    ensures ts[0] == Bang ==> forall d: nat :: Scanned(At(true, d), ts) == Scanned(At(true, d), ts[1..])
    ensures ts[0] == Open ==> forall d: nat :: Scanned(At(true, d), ts) == Scanned(At(true, d + 1), ts[1..])
    ensures ts[0].Op? ==> forall d: nat :: Scanned(At(false, d), ts) == Scanned(At(true, d), ts[1..])
  {
  }

  lemma {:induction false} ParensScan(ts: Text, v: nat -> bool)
    requires ts != [] && ts[0] == Open
    ensures ScansLike(ts, EvalUnary(ts, v))
    decreases |ts|, 0
  {
    var inner := ts[1..];
    OrScans(inner, v);
    ScansBehind(ts);
    match EvalOr(inner, v)
    case Ok(_, rest) =>
      forall d: nat ensures Scanned(At(true, d), ts) == Scanned(At(false, d + 1), rest) {
        assert Scanned(At(true, d + 1), inner) == Scanned(At(false, d + 1), rest);
      }
      ClosesOrNot(ts, rest);
    case Error =>
      forall d: nat ensures Scanned(At(true, d), ts) != At(false, 0) {
        assert Scanned(At(true, d + 1), inner) != At(false, 0);
      }
  }

  /** What follows the inside of a parenthesis is its end, or nothing that can be read. */
  lemma ClosesOrNot(ts: Text, rest: Text)
    requires ts != [] && forall d: nat :: Scanned(At(true, d), ts) == Scanned(At(false, d + 1), rest)
    requires rest != [] ==> !rest[0].Op?
    ensures if rest != [] && rest[0] == Close
      then forall d: nat :: Scanned(At(true, d), ts) == Scanned(At(false, d), rest[1..])
            else forall d: nat :: Scanned(At(true, d), ts) != At(false, 0)
  {
    forall d: nat
      ensures if rest != [] && rest[0] == Close then Scanned(At(false, d + 1), rest) == Scanned(At(false, d), rest[1..])
              else Scanned(At(false, d + 1), rest) != At(false, 0)
    {
      if rest != [] && rest[0] != Close {
        StuckStays(rest[1..]);
      }
    }
  }

  /** eval reads as far as the operators go. */
  lemma {:induction false} AndScans(ts: Text, v: nat -> bool)
    ensures ScansLike(ts, EvalAnd(ts, v))
    ensures EvalAnd(ts, v).Ok? ==> !Starts(EvalAnd(ts, v).rest, Op(And))
    decreases |ts|, 2
  {
    UnaryScans(ts, v);
    var r := EvalUnary(ts, v);
    if r.Ok? && Starts(r.rest, Op(And)) {
      AndScans(r.rest[1..], v);
      ScansBehind(r.rest);
    }
  }

  lemma OperatorsAre(t: Tok)
    ensures t.Op? ==> t == Op(And) || t == Op(Or)
  {
    match t
    case Op(And) =>
    case Op(Or) =>
    case _ =>
  }

  lemma {:induction false} OrScans(ts: Text, v: nat -> bool)
    ensures ScansLike(ts, EvalOr(ts, v))
    ensures EvalOr(ts, v).Ok? && EvalOr(ts, v).rest != [] ==> !EvalOr(ts, v).rest[0].Op?
    decreases |ts|, 3
  {
    AndScans(ts, v);
    var r := EvalAnd(ts, v);
    if r.Ok? && r.rest != [] {
      OperatorsAre(r.rest[0]);
    }
    if r.Ok? && Starts(r.rest, Op(Or)) {
      OrScans(r.rest[1..], v);
      ScansBehind(r.rest);
    }
  }

  /** Any text at all can be read exactly if it is well formed. */
  lemma EvalReadsIff(ts: Text, v: nat -> bool)
    ensures Eval(ts, v).Some? <==> WellFormed(ts)
  {
    OrScans(ts, v);
    var r := EvalOr(ts, v);
    if r.Ok? && r.rest != [] {
      StuckStays(r.rest[1..]);
      assert Scanned(At(false, 0), r.rest) == Stuck;
    }
  }
}
