// jQuery.when for several arguments: a counter of uncompleted positions, an
// array of values filled in place, and a master Deferred that settles once.

module When {
  import opened Wrappers

  type Value = nat

  /** What a position holds when `when` is called: a plain value, or a promise
      that is already resolved, already rejected, or still open. */
  datatype Argument = Plain(value: Value) | Resolved(value: Value) | Rejected(reason: Value) | Open

  datatype Outcome = ResolvedWith(values: seq<Value>) | RejectedWith(reason: Value)

  /** A position is told of its promise's settlement once. */
  datatype Event = Resolve(i: nat, value: Value) | Reject(i: nat, reason: Value)

  // ----- Reference: what the master owes to a history -------------------------

  function EventAt(a: Argument, i: nat): Option<Event> {
    match a
    case Plain(v) => Some(Resolve(i, v))
    case Resolved(v) => Some(Resolve(i, v))
    case Rejected(r) => Some(Reject(i, r))
    case Open => None
  }

  /** The settlements found during registration, in argument order. */
  function AtOnce(args: seq<Argument>): seq<Event> {
    if args == [] then []
    else
      var n := |args| - 1;
      AtOnce(args[..n]) + (match EventAt(args[n], n) case Some(e) => [e] case None => [])
  }

  ghost predicate HasResolve(history: seq<Event>, i: nat) {
    exists k :: 0 <= k < |history| && history[k].Resolve? && history[k].i == i
  }

  /** Every position up to `n` is resolved in the history. */
  ghost predicate AllResolved(history: seq<Event>, n: nat) {
    forall i: nat :: i < n ==> HasResolve(history, i)
  }

  ghost predicate FirstReject(history: seq<Event>, reason: Value) {
    exists k ::
      && 0 <= k < |history| && history[k] == Reject(history[k].i, reason)
      && forall j :: 0 <= j < k ==> history[j].Resolve?
  }

  /** No position appears twice. */
  ghost predicate OncePerPosition(history: seq<Event>, n: nat) {
    && (forall k :: 0 <= k < |history| ==> history[k].i < n)
    && (forall j, k :: 0 <= j < k < |history| ==> history[j].i != history[k].i)
  }

  /** `values` are the resolution values in argument order. */
  ghost predicate ValuesOf(history: seq<Event>, values: seq<Value>, n: nat) {
    && |values| == n
    && forall k :: 0 <= k < |history| && history[k].Resolve? && history[k].i < n ==>
         values[history[k].i] == history[k].value
  }

  /** The master's outcome after a history: the first rejection, or all values once all are there, or nothing yet. */
  ghost predicate Owed(history: seq<Event>, n: nat, master: Option<Outcome>) {
    match master
    case Some(RejectedWith(r)) => FirstReject(history, r)
    case Some(ResolvedWith(vs)) => AllResolved(history, n) && ValuesOf(history, vs, n)
    case None => !AllResolved(history, n) && forall k :: 0 <= k < |history| ==> history[k].Resolve?
  }

  /** The same read off the arguments: the reason of the first one rejected; their values, if each
      is plain or resolved; nothing while one is open and none rejected. */
  ghost predicate OwedToArguments(args: seq<Argument>, master: Option<Outcome>) {
    match master
    case Some(RejectedWith(r)) =>
      exists i :: 0 <= i < |args| && args[i] == Rejected(r) && forall j :: 0 <= j < i ==> !args[j].Rejected?
    case Some(ResolvedWith(vs)) =>
      |vs| == |args| && forall i :: 0 <= i < |args| ==> args[i] == Plain(vs[i]) || args[i] == Resolved(vs[i])
    case None =>
      (forall i :: 0 <= i < |args| ==> !args[i].Rejected?) && exists i :: 0 <= i < |args| && args[i].Open?
  }

  /** The event is what its argument had to say. */
  ghost predicate Answers(args: seq<Argument>, e: Event) {
    e.i < |args| && match e
      case Resolve(i, v) => args[i] == Plain(v) || args[i] == Resolved(v)
      case Reject(i, r) => args[i] == Rejected(r)
  }

  ghost predicate Heard(history: seq<Event>, i: nat) {
    exists k :: 0 <= k < |history| && history[k].i == i
  }

  /** Every argument that has an answer gave it, in argument order. */
  lemma {:induction false} AtOnceMeaning(args: seq<Argument>)
    ensures forall k :: 0 <= k < |AtOnce(args)| ==> Answers(args, AtOnce(args)[k])
    ensures forall j, k :: 0 <= j < k < |AtOnce(args)| ==> AtOnce(args)[j].i < AtOnce(args)[k].i
    ensures forall i: nat :: i < |args| && !args[i].Open? ==> Heard(AtOnce(args), i)
  {
    if args != [] {
      var n := |args| - 1;
      AtOnceMeaning(args[..n]);
      AnswersMore(args, AtOnce(args[..n]));
    }
  }

  lemma AnswersMore(args: seq<Argument>, init: seq<Event>)
    requires args != [] && forall k :: 0 <= k < |init| ==> Answers(args[..|args| - 1], init[k])
    requires forall j, k :: 0 <= j < k < |init| ==> init[j].i < init[k].i
    requires forall i: nat :: i < |args| - 1 && !args[..|args| - 1][i].Open? ==> Heard(init, i)
    ensures var n := |args| - 1;
      var h := init + match EventAt(args[n], n) case Some(e) => [e] case None => [];
      && (forall k :: 0 <= k < |h| ==> Answers(args, h[k])) && (forall j, k :: 0 <= j < k < |h| ==> h[j].i < h[k].i)
      && (forall i: nat :: i < |args| && !args[i].Open? ==> Heard(h, i))
  {
    var n := |args| - 1;
    var h := init + match EventAt(args[n], n) case Some(e) => [e] case None => [];
    forall k | 0 <= k < |init| ensures h[k] == init[k] && Answers(args, h[k]) && h[k].i < n {
      assert Answers(args[..n], init[k]);
    }
    forall i: nat | i < |args| && !args[i].Open? ensures Heard(h, i) {
      if i < n {
        assert !args[..n][i].Open? && Heard(init, i);
        var k :| 0 <= k < |init| && init[k].i == i;
        assert h[k].i == i;
      } else {
        assert h[|h| - 1].i == n;
      }
    }
  }

  /** What is owed to the settlements found at once is what is owed to the arguments. */
  lemma OwedAtOnce(args: seq<Argument>, master: Option<Outcome>)
    requires Owed(AtOnce(args), |args|, master)
    ensures OwedToArguments(args, master)
  {
    AtOnceMeaning(args);
    match master
    case Some(RejectedWith(r)) => RejectedAtOnce(args, AtOnce(args), r);
    case Some(ResolvedWith(vs)) => ResolvedAtOnce(args, AtOnce(args), vs);
    case None => NothingAtOnce(args, AtOnce(args));
  }

  lemma RejectedAtOnce(args: seq<Argument>, h: seq<Event>, r: Value)
    requires (forall k :: 0 <= k < |h| ==> Answers(args, h[k])) && FirstReject(h, r)
    requires forall j, k :: 0 <= j < k < |h| ==> h[j].i < h[k].i
    requires forall i: nat :: i < |args| && !args[i].Open? ==> Heard(h, i)
    ensures OwedToArguments(args, Some(RejectedWith(r)))
  {
    var k :|
      && 0 <= k < |h| && h[k] == Reject(h[k].i, r)
      && forall j :: 0 <= j < k ==> h[j].Resolve?;
    assert Answers(args, h[k]) && args[h[k].i] == Rejected(r);
    forall j: nat | j < h[k].i ensures !args[j].Rejected? {
      EarlierAnswer(args, h, k, j);
    }
  }

  lemma ResolvedAtOnce(args: seq<Argument>, h: seq<Event>, vs: seq<Value>)
    requires forall k :: 0 <= k < |h| ==> Answers(args, h[k])
    requires AllResolved(h, |args|) && ValuesOf(h, vs, |args|)
    ensures OwedToArguments(args, Some(ResolvedWith(vs)))
  {
    forall i: nat | i < |args| ensures args[i] == Plain(vs[i]) || args[i] == Resolved(vs[i]) {
      assert HasResolve(h, i);
      var k :| 0 <= k < |h| && h[k].Resolve? && h[k].i == i;
      assert Answers(args, h[k]);
    }
  }

  lemma NothingAtOnce(args: seq<Argument>, h: seq<Event>)
    requires forall k :: 0 <= k < |h| ==> Answers(args, h[k]) && h[k].Resolve?
    requires (forall i: nat :: i < |args| && !args[i].Open? ==> Heard(h, i)) && !AllResolved(h, |args|)
    ensures OwedToArguments(args, None)
  {
    forall i: nat | i < |args| && Heard(h, i) ensures HasResolve(h, i) && !args[i].Rejected? {
      var k :| 0 <= k < |h| && h[k].i == i;
      assert Answers(args, h[k]);
    }
    var i: nat :| i < |args| && !HasResolve(h, i);
    assert args[i].Open?;
  }

  lemma EarlierAnswer(args: seq<Argument>, h: seq<Event>, k: nat, j: nat)
    requires k < |h| && j < h[k].i && j < |args| && (forall l :: 0 <= l < |h| ==> Answers(args, h[l]))
    requires forall l, m :: 0 <= l < m < |h| ==> h[l].i < h[m].i
    requires (forall l :: 0 <= l < k ==> h[l].Resolve?) && (!args[j].Open? ==> Heard(h, j))
    ensures !args[j].Rejected?
  {
    if !args[j].Open? {
      var l :| 0 <= l < |h| && h[l].i == j;
      assert Answers(args, h[l]);
      assert l < k;
    }
  }

  function Resolutions(history: seq<Event>): nat {
    if history == [] then 0
    else Resolutions(history[..|history| - 1]) + if history[|history| - 1].Resolve? then 1 else 0
  }

  function Indices(history: seq<Event>): set<nat> {
    set k | 0 <= k < |history| && history[k].Resolve? :: history[k].i
  }

  lemma {:induction false} CountIndices(history: seq<Event>, n: nat)
    requires OncePerPosition(history, n)
    ensures |Indices(history)| == Resolutions(history)
    decreases |history|
  {
    if history != [] {
      var init, last := history[..|history| - 1], history[|history| - 1];
      CountIndices(init, n);
      assert history == init + [last];
      IndicesMore(init, last);
      assert last.Resolve? ==> last.i !in Indices(init);
    }
  }

  lemma IndicesMore(init: seq<Event>, last: Event)
    ensures Indices(init + [last]) == if last.Resolve? then Indices(init) + {last.i} else Indices(init)
  {
    var h := init + [last];
    forall i ensures i in Indices(h) <==> i in Indices(init) || (last.Resolve? && i == last.i) {
      if i in Indices(init) {
        var k :| 0 <= k < |init| && init[k].Resolve? && init[k].i == i;
        assert h[k] == init[k];
      }
      assert h[|init|] == last;
    }
  }

  lemma {:induction false} BelowCount(n: nat) returns (all: set<nat>)
    ensures |all| == n && forall i: nat :: i in all <==> i < n
  {
    if n == 0 {
      all := {};
    } else {
      all := BelowCount(n - 1);
      all := all + {(n - 1) as nat};
    }
  }

  lemma SubsetFull(a: set<nat>, b: set<nat>)
    requires a <= b
    ensures |a| <= |b| && (|a| == |b| <==> a == b)
  {
    assert b == a + (b - a);
  }

  /** The counter is zero exactly when every position is resolved. */
  lemma RemainingZero(history: seq<Event>, n: nat)
    requires OncePerPosition(history, n)
    ensures Resolutions(history) <= n
    ensures Resolutions(history) == n <==> AllResolved(history, n)
  {
    CountIndices(history, n);
    var all := BelowCount(n);
    SubsetFull(Indices(history), all);
    if AllResolved(history, n) {
      forall i | i in all ensures i in Indices(history) {
        assert HasResolve(history, i);
      }
      assert Indices(history) == all;
    }
    if Indices(history) == all {
      forall i: nat | i < n ensures HasResolve(history, i) {
        assert i in Indices(history);
      }
    }
  }

  // ----- The counter and the values as they change ----------------------------

  class Master {
    const length: nat
    /** A single promise is its own master. */
    const shared: bool
    var remaining: int
    var resolveValues: seq<Value>
    var master: Option<Outcome>
    ghost var history: seq<Event>

    /** The counter is the number of positions not resolved, the values are those
        received, and the master has no outcome but one owed to the history. */
    ghost predicate Counting()
      reads this
    {
      && OncePerPosition(history, length)
      && (if shared then length == remaining == 1
          else remaining == length - Resolutions(history) && ValuesOf(history, resolveValues, length))
      && (master.None? ==> forall k :: 0 <= k < |history| ==> history[k].Resolve?)
      && (master.Some? ==> Owed(history, length, master))
    }

    /** Once registration is over the master also has every outcome owed. */
    ghost predicate Valid()
      reads this
    {
      Counting() && Owed(history, length, master)
    }

    constructor (args: seq<Argument>)
      ensures length == |args| && history == AtOnce(args) && Valid()
      ensures shared <==> |args| == 1 && !args[0].Plain?
      ensures OwedToArguments(args, master)
    {
      length := |args|;
      shared := |args| == 1 && !args[0].Plain?;
      remaining := if |args| != 1 || !args[0].Plain? then |args| else 0;
      resolveValues := seq(|args|, i requires 0 <= i < |args| => match args[i] case Plain(v) => v case _ => 0);
      master := None;
      history := [];
      new;
      Register(args);
      Finish();
      OwedAtOnce(args, master);
    }

    /** What `when` does between its declarations and its last step. */
    method Register(args: seq<Argument>)
      requires length == |args| && (shared <==> |args| == 1 && !args[0].Plain?) && master.None? && history == []
      requires remaining == if |args| != 1 || shared then |args| else 0
      requires |resolveValues| == |args|
      requires forall k :: 0 <= k < |args| && args[k].Plain? ==> resolveValues[k] == args[k].value
      modifies this
      ensures Counting() && (shared ==> Valid()) && history == AtOnce(args)
    {
      if |args| > 1 {
        RegisterAll(args);
      } else if shared {
        ShareOne(args);
      } else if |args| == 1 {
        CountOne(args);
      }
    }

    /** The single promise may have settled before. */
    method ShareOne(args: seq<Argument>)
      requires |args| == 1 == length && shared && !args[0].Plain?
      requires history == [] && remaining == 1 && master.None?
      modifies this`master, this`history
      ensures Valid() && history == AtOnce(args)
    {
      AtOnceOne(args);
      match EventAt(args[0], 0) {
        case Some(e) => SettleOwn(e);
        case None =>
          assert !HasResolve(history, 0);
      }
    }

    /** The single promise settles, and with it the master. */
    method SettleOwn(e: Event)
      requires shared && length == remaining == 1 && history == [] && master.None? && e.i == 0
      modifies this`master, this`history
      ensures Valid() && history == [e] && master.Some?
    {
      master := Some(match e case Resolve(_, v) => ResolvedWith([v]) case Reject(_, r) => RejectedWith(r));
      Record(e);
      assert history == [e] && history[0] == e;
    }

    /** The last step: nothing left to wait for resolves the master. */
    method Finish()
      requires Counting() && (shared ==> Valid())
      modifies this`master
      ensures Valid()
    {
      RemainingZero(history, length);
      if remaining == 0 {
        ResolveMaster();
      }
    }

    /** A single plain value: the counter started at zero, nothing is left to register. */
    ghost method CountOne(args: seq<Argument>)
      requires |args| == 1 == length && !shared && args[0].Plain? && resolveValues == [args[0].value]
      requires history == [] && remaining == 0 && master.None?
      modifies this`history
      ensures Counting() && history == AtOnce(args)
    {
      OnePlain(args, resolveValues);
      Record(Resolve(0, args[0].value));
      assert history == [Resolve(0, args[0].value)];
    }

    /** The registration loop. */
    method RegisterAll(args: seq<Argument>)
      requires Counting() && !shared && length == |args| && history == []
      requires forall k :: 0 <= k < |args| && args[k].Plain? ==> resolveValues[k] == args[k].value
      modifies this
      ensures Counting() && history == AtOnce(args)
    {
      var i := 0;
      while i < |args|
        invariant i <= |args| && Registered(args, i)
      {
        AtOnceNext(args, i);
        RegisterPosition(i, args[i]);
        i := i + 1;
      }
      assert args[..i] == args;
    }

    /** The positions below `i` are registered. */
    ghost predicate Registered(args: seq<Argument>, i: nat)
      requires i <= |args|
      reads this
    {
      && Counting() && |resolveValues| == |args|
      && history == AtOnce(args[..i])
      && UpTo(history, i)
      && (forall k :: i <= k < |args| && args[k].Plain? ==> resolveValues[k] == args[k].value)
    }

    /** A plain value counts as resolved at once; its place already holds it. */
    method CountOff(i: nat, v: Value)
      requires Counting() && !shared && i < length && UpTo(history, i)
      requires resolveValues[i] == v
      modifies this`remaining, this`history
      ensures Counting() && history == old(history) + [Resolve(i, v)]
    {
      RecordsOnce(history, Resolve(i, v), resolveValues, length);
      if master.Some? {
        StillOwed(history, Resolve(i, v), length, master.value);
      }
      assert resolveValues[i := v] == resolveValues;
      remaining := remaining - 1;
      Record(Resolve(i, v));
    }

    /** Position i: count a plain value off, or listen to a promise that may answer at once. */
    method RegisterPosition(i: nat, a: Argument)
      requires Counting() && !shared && i < length && UpTo(history, i)
      requires a.Plain? ==> resolveValues[i] == a.value
      modifies this
      ensures Counting()
      ensures history == old(history) + match EventAt(a, i) case Some(e) => [e] case None => []
      ensures resolveValues == if a.Resolved? then old(resolveValues)[i := a.value] else old(resolveValues)
      ensures UpTo(history, i + 1)
    {
      NewPosition(history, i);
      match a {
        case Plain(v) =>
          CountOff(i, v);
        case Resolved(v) =>
          Update(i, v);
        case Rejected(r) =>
          RejectMaster(i, r);
        case Open =>
      }
    }

    ghost method Record(e: Event)
      modifies this`history
      ensures history == old(history) + [e]
    {
      history := history + [e];
    }

    /** `deferred.resolveWith(contexts, values)`: nothing if already settled. */
    method ResolveMaster()
      modifies this`master
      ensures master == if old(master).None? then Some(ResolvedWith(resolveValues)) else old(master)
    {
      if master.None? {
        master := Some(ResolvedWith(resolveValues));
      }
    }

    /** `updateFunc(i)` called by position i's done. */
    method Update(i: nat, value: Value)
      requires i < length && (forall k :: 0 <= k < |history| ==> history[k].i != i)
      requires Counting() && !shared
      modifies this
      ensures history == old(history) + [Resolve(i, value)]
      ensures Counting()
      ensures resolveValues == old(resolveValues)[i := value]
      ensures old(master).Some? ==> master == old(master)
      ensures old(master).None? ==> (master.Some? <==> AllResolved(history, length))
    {
      Receive(i, value);
      RemainingZero(history, length);
      if remaining == 0 {
        ResolveMaster();
      }
    }

    /** `values[i] = value` and `--remaining`. */
    method Receive(i: nat, value: Value)
      requires i < length && (forall k :: 0 <= k < |history| ==> history[k].i != i)
      requires Counting() && !shared
      modifies this`history, this`resolveValues, this`remaining
      ensures history == old(history) + [Resolve(i, value)]
      ensures Counting() && resolveValues == old(resolveValues)[i := value]
    {
      RecordsOnce(history, Resolve(i, value), resolveValues, length);
      if master.Some? {
        StillOwed(history, Resolve(i, value), length, master.value);
      }
      resolveValues := resolveValues[i := value];
      Record(Resolve(i, value));
      remaining := remaining - 1;
    }

    /** `deferred.reject` called by position i's fail. */
    method RejectMaster(i: nat, reason: Value)
      requires i < length && (forall k :: 0 <= k < |history| ==> history[k].i != i)
      requires Counting() && !shared
      modifies this`master, this`history
      ensures history == old(history) + [Reject(i, reason)]
      ensures Counting() && resolveValues == old(resolveValues)
      ensures master == if old(master).None? then Some(RejectedWith(reason)) else old(master)
    {
      RecordsOnce(history, Reject(i, reason), resolveValues, length);
      Record(Reject(i, reason));
      if master.None? {
        master := Some(RejectedWith(reason));
        assert history[|old(history)|] == Reject(i, reason);
      } else {
        StillOwed(old(history), Reject(i, reason), length, master.value);
      }
    }

    /** A promise that was open at registration settles later. */
    method Settle(e: Event)
      requires Valid() && OncePerPosition(history + [e], length)
      modifies this
      ensures Valid() && history == old(history) + [e]
      ensures old(master).Some? ==> master == old(master)
    {
      assert forall k :: 0 <= k < |history| ==> (history + [e])[k] == history[k];
      assert (history + [e])[|history|] == e;
      if shared {
        OnlyOne(history, e);
        assert [] + [e] == [e];
        NothingOwed(length, master);
        SettleOwn(e);
        return;
      }
      match e {
        case Resolve(i, v) => Update(i, v);
        case Reject(i, r) => RejectMaster(i, r);
      }
    }
  }

  /** Only positions below `i` have settled. */
  ghost predicate UpTo(history: seq<Event>, i: nat) {
    forall k :: 0 <= k < |history| ==> history[k].i < i
  }

  lemma NewPosition(history: seq<Event>, i: nat)
    requires UpTo(history, i)
    ensures forall k :: 0 <= k < |history| ==> history[k].i != i
    ensures UpTo(history, i + 1) && forall e: Event :: e.i == i ==> UpTo(history + [e], i + 1)
  {
  }

  /** Recording one more settlement of a new position. */
  lemma RecordsOnce(history: seq<Event>, e: Event, values: seq<Value>, n: nat)
    requires OncePerPosition(history, n) && ValuesOf(history, values, n)
    requires e.i < n && forall k :: 0 <= k < |history| ==> history[k].i != e.i
    ensures OncePerPosition(history + [e], n)
    ensures Resolutions(history + [e]) == Resolutions(history) + if e.Resolve? then 1 else 0
    ensures ValuesOf(history + [e], if e.Resolve? then values[e.i := e.value] else values, n)
  {
    var more := history + [e];
    assert more[..|history|] == history;
    forall k | 0 <= k < |more| ensures more[k] == if k < |history| then history[k] else e {
    }
    RecordsValue(history, e, values, n);
  }

  lemma RecordsValue(history: seq<Event>, e: Event, values: seq<Value>, n: nat)
    requires ValuesOf(history, values, n) && e.i < n && forall k :: 0 <= k < |history| ==> history[k].i != e.i
    ensures ValuesOf(history + [e], if e.Resolve? then values[e.i := e.value] else values, n)
  {
  }

  lemma OnlyOne(history: seq<Event>, e: Event)
    requires OncePerPosition(history + [e], 1)
    ensures history == []
  {
    var h := history + [e];
    var first, last := h[0], h[|history|];
    assert first.i == last.i;
  }

  lemma NothingOwed(n: nat, master: Option<Outcome>)
    requires n > 0 && Owed([], n, master)
    ensures master.None?
  {
    assert !HasResolve([], 0);
  }

  lemma AtOnceNext(args: seq<Argument>, i: nat)
    requires i < |args|
    ensures AtOnce(args[..i + 1]) == AtOnce(args[..i]) + match EventAt(args[i], i) case Some(e) => [e] case None => []
  {
    assert args[..i + 1][..i] == args[..i];
  }

  lemma AtOnceOne(args: seq<Argument>)
    requires |args| == 1
    ensures AtOnce(args) == match EventAt(args[0], 0) case Some(e) => [e] case None => []
  {
    assert args[..0] == [] && AtOnce([]) == [];
  }

  /** A single plain value is resolved at once. */
  lemma OnePlain(args: seq<Argument>, values: seq<Value>)
    requires |args| == 1 && args[0].Plain? && values == [args[0].value]
    ensures var h := [Resolve(0, args[0].value)];
      h == AtOnce(args) && OncePerPosition(h, 1) && Resolutions(h) == 1 && ValuesOf(h, values, 1)
  {
    var e := Resolve(0, args[0].value);
    assert args[..0] == [] && AtOnce([]) == [];
    assert [] + [e] == [e];
    assert AtOnce(args) == AtOnce(args[..0]) + [e];
    assert [e][..0] == [] && Resolutions([]) == 0;
  }

  /** Nothing is left to settle once every position is resolved. */
  lemma NoneAfterAll(history: seq<Event>, e: Event, n: nat)
    requires OncePerPosition(history + [e], n)
    ensures !AllResolved(history, n)
  {
    var longer := history + [e];
    assert longer[|history|] == e;
    forall k | 0 <= k < |history| ensures history[k].i != e.i {
      assert longer[k].i != longer[|history|].i;
    }
    assert !HasResolve(history, e.i);
  }

  /** Further settlements leave an outcome owed. */
  lemma StillOwed(history: seq<Event>, e: Event, n: nat, outcome: Outcome)
    requires Owed(history, n, Some(outcome)) && OncePerPosition(history + [e], n)
    ensures Owed(history + [e], n, Some(outcome))
  {
    NoneAfterAll(history, e, n);
    if outcome.RejectedWith? {
      var k :|
        && 0 <= k < |history| && history[k] == Reject(history[k].i, outcome.reason)
        && forall j :: 0 <= j < k ==> history[j].Resolve?;
      assert (history + [e])[k] == history[k];
    }
  }

  /** A history owes its master one outcome at most. */
  lemma OwedOnce(history: seq<Event>, n: nat, a: Option<Outcome>, b: Option<Outcome>)
    requires OncePerPosition(history, n) && Owed(history, n, a) && Owed(history, n, b)
    ensures a == b
  {
    RemainingZero(history, n);
    match a
    case Some(ResolvedWith(v)) =>
      AllResolvedNoReject(history, n);
      var w := b.value.values;
      forall i: nat | i < n ensures v[i] == w[i] {
        assert HasResolve(history, i);
      }
      assert v == w;
    case Some(RejectedWith(r)) =>
      var k :|
        && 0 <= k < |history| && history[k] == Reject(history[k].i, r)
        && forall j :: 0 <= j < k ==> history[j].Resolve?;
      assert history[k].Reject?;
      if AllResolved(history, n) {
        AllResolvedNoReject(history, n);
      }
    case None =>
  }

  lemma AllResolvedNoReject(history: seq<Event>, n: nat)
    requires OncePerPosition(history, n) && AllResolved(history, n)
    ensures forall k :: 0 <= k < |history| ==> history[k].Resolve?
  {
    forall k | 0 <= k < |history| ensures history[k].Resolve? {
      assert HasResolve(history, history[k].i);
    }
  }
}
