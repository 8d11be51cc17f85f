// jQuery.Deferred as a state machine over its three callback lists.  User code
// runs at the top level or inside the callback on top of `frames`; between
// callbacks the machine is `busy` and only ticks.

module Deferred {
  import opened Wrappers
  import opened Callbacks
  import opened Sequences

  datatype Side = Done | Fail | Progress

  datatype State = Pending | Resolved | Rejected

  /** One call of a user's callback: the `serial`-th entry pushed on its list. */
  datatype Call = Call(side: Side, serial: nat, fn: nat, args: Args)

  /** One function given to done, fail or progress, `after` so many notifications had begun. */
  datatype Registration = Registration(side: Side, fn: nat, after: nat)

  /** The last five fields record the run: `clock` numbers the uses of resolve, reject and
      notify, so that arguments can be told apart; `winner` is the first settlement that took
      effect; `registered` are the functions given to done, fail and progress; `issued` are the
      notifications issued before the settlement, and `begun` those whose firing began. */
  datatype Deferred = Deferred(
    state: State,
    done: List,
    fail: List,
    progress: List,
    frames: seq<Side>,
    busy: bool,
    log: seq<Call>,
    clock: nat,
    winner: Option<(Side, Args)>,
    registered: seq<Registration>,
    issued: seq<Args>,
    begun: seq<Args>)

  datatype Event = Register(side: Side, fns: seq<nat>) | Trigger(side: Side) | Return | Tick

  /** The state setter, the disabling of the other side, and the locking of
      progress are the first entries of done and fail. */
  const INTERNALS := 3

  function ListOf(d: Deferred, side: Side): List {
    match side
    case Done => d.done
    case Fail => d.fail
    case Progress => d.progress
  }

  function Put(d: Deferred, side: Side, l: List): Deferred {
    match side
    case Done => d.(done := l)
    case Fail => d.(fail := l)
    case Progress => d.(progress := l)
  }

  function Other(side: Side): Side {
    match side
    case Done => Fail
    case Fail => Done
    case Progress => Progress
  }

  function FinalState(side: Side): State {
    match side
    case Done => Resolved
    case Fail => Rejected
    case Progress => Pending
  }

  const ONCE := Callbacks.Options(true, true, false, false)
  const REPEATED := Callbacks.Options(false, true, false, false)

  function SettlingList(): List {
    Callbacks.Add(Callbacks.New(ONCE), [0, 1, 2])
  }

  function Init(): Deferred {
    Deferred(Pending, SettlingList(), SettlingList(), Callbacks.New(REPEATED), [], false, [], 0, None, [], [], [])
  }

  function Top(d: Deferred): Side
    requires d.frames != []
  {
    d.frames[|d.frames| - 1]
  }

  predicate Enabled(d: Deferred, e: Event) {
    match e
    case Register(_, _) => !d.busy
    case Trigger(_) => !d.busy
    case Return => !d.busy && d.frames != []
    case Tick => d.busy && d.frames != [] && Callable(ListOf(d, Top(d)))
  }

  /** If the loop goes on, there is an entry at the firing index. */
  predicate Callable(l: List) {
    Due(l) ==> 0 <= l.index < |l.entries.value|
  }

  /** The list of `side` becomes `l`; if that started a firing, it is the new top frame. */
  function Enter(d: Deferred, side: Side, l: List): Deferred {
    var p := Put(d, side, l);
    if l.firing && !ListOf(d, side).firing then p.(frames := d.frames + [side], busy := true) else p
  }

  function Internal(d: Deferred, side: Side, serial: nat): Deferred {
    if serial == 0 then d.(state := FinalState(side))
    else if serial == 1 then Put(d, Other(side), Disable(ListOf(d, Other(side))))
    else d.(progress := Lock(d.progress))
  }

  function Registrations(side: Side, fns: seq<nat>, after: nat): seq<Registration> {
    seq(|fns|, k requires 0 <= k < |fns| => Registration(side, fns[k], after))
  }

  /** done, fail or progress with any number of functions. */
  function Registers(d: Deferred, side: Side, fns: seq<nat>): Deferred {
    Enter(d, side, Callbacks.Add(ListOf(d, side), fns)).(
      registered := d.registered + Registrations(side, fns, |d.begun|))
  }

  /** resolve, reject or notify. */
  function Triggers(d: Deferred, side: Side): Deferred {
    var l := ListOf(d, side);
    var m := FireWith(l, d.clock);
    var begins := m.firing && !l.firing;
    Enter(d, side, m).(
      clock := d.clock + 1,
      winner := if side != Progress && begins && d.winner.None? then Some((side, d.clock)) else d.winner,
      issued := if side == Progress && d.winner.None? then d.issued + [d.clock] else d.issued,
      begun := if side == Progress && begins then d.begun + [d.clock] else d.begun)
  }

  /** The callback on top returns. */
  function Returns(d: Deferred): Deferred
    requires d.frames != []
  {
    Put(d, Top(d), Returned(ListOf(d, Top(d)), false)).(busy := true)
  }

  /** One of the first callbacks of done or fail is next. */
  predicate InternalNext(d: Deferred) {
    Enabled(d, Tick) && Top(d) != Progress && Due(ListOf(d, Top(d)))
    && ListOf(d, Top(d)).entries.value[ListOf(d, Top(d)).index].serial < INTERNALS
  }

  /** A user's callback is next. */
  predicate CallNext(d: Deferred) {
    Enabled(d, Tick) && Due(ListOf(d, Top(d))) && !InternalNext(d)
  }

  function RunInternal(d: Deferred): Deferred
    requires InternalNext(d)
  {
    var side, l := Top(d), ListOf(d, Top(d));
    Put(Internal(d, side, l.entries.value[l.index].serial), side, Returned(l, false))
  }

  function CallUser(d: Deferred): Deferred
    requires CallNext(d)
  {
    var l := ListOf(d, Top(d));
    var entry := l.entries.value[l.index];
    d.(log := d.log + [Call(Top(d), entry.serial, entry.fn, l.data)], busy := false)
  }

  function EndFiring(d: Deferred): Deferred
    requires d.frames != []
  {
    var m := Finish(ListOf(d, Top(d)));
    var p := Put(d, Top(d), m);
    if m.firing then p.(begun := if Top(d) == Progress then d.begun + [m.data] else d.begun)
    else p.(frames := d.frames[..|d.frames| - 1], busy := false)
  }

  function Step(d: Deferred, e: Event): Deferred
    requires Enabled(d, e)
  {
    match e
    case Register(side, fns) => Registers(d, side, fns)
    case Trigger(side) => Triggers(d, side)
    case Return => Returns(d)
    case Tick =>
      if InternalNext(d) then RunInternal(d)
      else if Due(ListOf(d, Top(d))) then CallUser(d)
      else EndFiring(d)
  }

  // ----- The invariant -------------------------------------------------------

  function LogOf(log: seq<Call>, side: Side): seq<Call> {
    if log == [] then []
    else
      var last := log[|log| - 1];
      LogOf(log[..|log| - 1], side) + if last.side == side then [last] else []
  }

  function RegsOf(rs: seq<Registration>, side: Side): seq<Registration> {
    if rs == [] then []
    else
      var last := rs[|rs| - 1];
      RegsOf(rs[..|rs| - 1], side) + if last.side == side then [last] else []
  }

  function FnsOf(rs: seq<Registration>): seq<nat> {
    seq(|rs|, k requires 0 <= k < |rs| => rs[k].fn)
  }

  /** The functions registered on `side`, in order. */
  function Regs(d: Deferred, side: Side): seq<nat> {
    FnsOf(RegsOf(d.registered, side))
  }

  /** One call for each of the first `n` functions, in order, all with the arguments `args`. */
  function FirstCalls(side: Side, fns: seq<nat>, n: nat, args: Args): seq<Call>
    requires n <= |fns|
  {
    if n == 0 then [] else FirstCalls(side, fns, n - 1, args) + [Call(side, INTERNALS + n - 1, fns[n - 1], args)]
  }

  /** Behind `base` entries of its own the list received one entry for each of `fns`. */
  ghost predicate Tied(l: List, fns: seq<nat>, base: nat) {
    && l.pushed == base + |fns|
    && (l.entries.Some? ==> forall k :: 0 <= k < |l.entries.value| ==>
          var e := l.entries.value[k]; base <= e.serial < l.pushed ==> e.fn == fns[e.serial - base])
  }

  /** Entries are the latest pushes, in order. */
  ghost predicate Consecutive(l: List) {
    && l.entries.Some?
    && |l.entries.value| <= l.pushed
    && forall k :: 0 <= k < |l.entries.value| ==> l.entries.value[k].serial == l.pushed - |l.entries.value| + k
  }

  /** A done or fail list nobody has settled. */
  ghost predicate Unfired(l: List, fns: seq<nat>) {
    && l.options == ONCE && l.start == 0
    && !l.fired && !l.firing && l.stack.None? && l.memory.None?
    && Consecutive(l) && |l.entries.value| == l.pushed && Tied(l, fns, INTERNALS)
  }

  ghost predicate Disabled(l: List) {
    l.entries.None? && l.stack.None? && l.memory.None? && !l.firing
  }

  /** Standing between two callbacks of `side`'s firing. */
  predicate AtHead(d: Deferred, side: Side) {
    d.busy && d.frames != [] && Top(d) == side
  }

  /** The registrations on `l` below this number have been called or are being called;
      `head` says that the call at the firing index is still to be made. */
  function Called(l: List, head: bool): int {
    if l.entries.None? || !l.firing then l.pushed
    else l.pushed - |l.entries.value| + l.index + if head then 0 else 1
  }

  ghost predicate InLoop(l: List, head: bool) {
    l.firing ==>
      && l.entries.Some? && l.length == |l.entries.value|
      && 0 <= l.index <= l.length
      && (!head ==> l.index < l.length)
  }

  ghost predicate WinnerList(l: List, fns: seq<nat>, head: bool, args: Args) {
    && l.options == ONCE && l.start == 0
    && l.fired && l.stack.None? && l.memory == Some(args)
    && (l.firing ==> l.data == args)
    && Consecutive(l) && Tied(l, fns, INTERNALS)
    && InLoop(l, head)
    && (!l.firing ==> l.entries.value == [])
    && 0 <= Called(l, head) <= INTERNALS + |fns|
  }

  /** How many user callbacks have been called when `n` entries have. */
  function Reached(n: int): nat {
    if n <= INTERNALS then 0 else n - INTERNALS
  }

  /** How far `n` internal callbacks of the winner have got. */
  ghost predicate Aftermath(n: int, head: bool, side: Side, state: State, other: List, otherFns: seq<nat>,
                            locked: bool) {
    && (n < INTERNALS ==> head)
    && state == (if n >= 1 then FinalState(side) else Pending)
    && (if n >= 2 then Disabled(other) else Unfired(other, otherFns))
    && (n >= 3 ==> locked)
  }

  /** `side` won with `args`: its list `l`, the calls it made, and what it did to the others. */
  ghost predicate Won(side: Side, args: Args, l: List, fns: seq<nat>, head: bool, calls: seq<Call>,
                      state: State, other: List, otherFns: seq<nat>, locked: bool)
  {
    && WinnerList(l, fns, head, args)
    && Aftermath(Called(l, head), head, side, state, other, otherFns, locked)
    && calls == FirstCalls(side, fns, Reached(Called(l, head)), args)
  }

  // The progress list ----------------------------------------------------------

  ghost predicate ProgressShape(p: List, fns: seq<nat>, head: bool) {
    && p.options == REPEATED && p.start == 0
    && InLoop(p, head)
    && (!p.firing && p.stack.Some? ==> p.stack.value == [])
    && (p.entries.None? ==> p.stack.None? && p.memory.None? && !p.firing)
    && (p.entries.Some? ==> Consecutive(p) && Tied(p, fns, 0))
    && (p.stack.Some? ==> |p.entries.value| == p.pushed)
  }

  ghost predicate Increasing(s: seq<Args>) {
    forall i, k :: 0 <= i < k < |s| ==> s[i] < s[k]
  }

  /** All below `bound`, each later than the one before. */
  ghost predicate Early(issued: seq<Args>, bound: nat) {
    Increasing(issued) && forall k :: 0 <= k < |issued| ==> issued[k] < bound
  }

  /** Before progress is locked, each notification issued has begun or is queued. */
  ghost predicate Notices(p: List, issued: seq<Args>, begun: seq<Args>, unsettled: bool) {
    && begun <= issued
    && (unsettled ==> p.stack.Some?)
    && (p.stack.Some? ==> begun + p.stack.value == issued)
    && (p.memory.Some? <==> begun != []) && (p.fired <==> begun != [])
    && (p.memory.Some? ==> p.memory.value == begun[|begun| - 1])
    && (p.firing ==> begun != [] && p.data == begun[|begun| - 1])
    && (p.entries.Some? && p.stack.None? ==> begun != [])
  }

  function Bound(d: Deferred): nat {
    if d.winner.Some? then d.winner.value.1 else d.clock
  }

  /** The notifications with which the `k`-th progress callback was called. */
  function ArgsOf(log: seq<Call>, k: nat): seq<Args> {
    if log == [] then []
    else
      var last := log[|log| - 1];
      ArgsOf(log[..|log| - 1], k) + if last.side == Progress && last.serial == k then [last.args] else []
  }

  /** The first notification that concerns a callback: the last begun before it was registered, if any. */
  function First(r: Registration): nat {
    if r.after == 0 then 0 else r.after - 1
  }

  /** The `k`-th progress callback is still to be called in the firing in progress. */
  predicate Awaits(p: List, head: bool, k: nat) {
    p.firing && k >= Called(p, head)
  }

  function Until(begun: seq<Args>, awaits: bool): int {
    if awaits then |begun| - 1 else |begun|
  }

  /** Each progress callback was called once with each notification from its first one on, but
      perhaps not yet with the last. */
  ghost predicate Delivered(log: seq<Call>, rs: seq<Registration>, begun: seq<Args>, p: List, head: bool) {
    && (forall k :: 0 <= k < |rs| ==>
          && 0 <= First(rs[k]) <= Until(begun, Awaits(p, head, k))
          && ArgsOf(log, k) == begun[First(rs[k])..Until(begun, Awaits(p, head, k))])
    && (forall k :: 0 <= k < |log| && log[k].side == Progress ==>
      log[k].serial < |rs| && log[k].fn == rs[log[k].serial].fn)
  }

  ghost predicate ProgressList(d: Deferred) {
    var rs, head := RegsOf(d.registered, Progress), AtHead(d, Progress);
    && ProgressShape(d.progress, FnsOf(rs), head)
    && Early(d.issued, Bound(d))
    && Notices(d.progress, d.issued, d.begun, d.winner.None?)
    && Delivered(d.log, rs, d.begun, d.progress, head)
  }

  ghost predicate Frames(d: Deferred) {
    && (d.busy ==> d.frames != [])
    && (forall i, k :: 0 <= i < k < |d.frames| ==> d.frames[i] != d.frames[k])
    && (forall side :: side in d.frames <==> ListOf(d, side).firing)
  }

  ghost predicate Outcome(d: Deferred) {
    match d.winner
    case None =>
      && d.state == Pending && Unfired(d.done, Regs(d, Done)) && Unfired(d.fail, Regs(d, Fail))
      && LogOf(d.log, Done) == [] && LogOf(d.log, Fail) == []
    case Some((side, args)) =>
      && side != Progress && args < d.clock
      && Won(side, args, ListOf(d, side), Regs(d, side), AtHead(d, side), LogOf(d.log, side),
             d.state, ListOf(d, Other(side)), Regs(d, Other(side)), d.progress.stack.None?)
      && LogOf(d.log, Other(side)) == []
  }

  ghost predicate Inv(d: Deferred) {
    Frames(d) && ProgressList(d) && Outcome(d)
  }

  lemma SettlingEntries()
    ensures var l := Callbacks.New(ONCE);
      SettlingList() == l.(entries := Some([Entry(0, 0), Entry(1, 1), Entry(2, 2)]), pushed := INTERNALS)
  {
    assert [0, 1, 2][..2] == [0, 1] && [0, 1][..1] == [0] && [0][..0] == [];
    var l := Callbacks.New(ONCE);
    PushOne(l, 0);
    assert PushAll(l, [0, 1]) == Push(Push(l, 0), 1);
    assert PushAll(l, [0, 1, 2]) == Push(Push(Push(l, 0), 1), 2);
    assert [] + [Entry(0, 0)] + [Entry(1, 1)] + [Entry(2, 2)] == [Entry(0, 0), Entry(1, 1), Entry(2, 2)];
  }

  lemma InitInv()
    ensures Inv(Init())
  {
    SettlingEntries();
    assert Unfired(SettlingList(), []);
  }

  lemma PushOne(l: List, fn: nat)
    ensures PushAll(l, [fn]) == Push(l, fn)
  {
    assert [fn][..0] == [];
    assert PushAll(l, []) == l;
  }

  lemma EnterFrames(d: Deferred, side: Side, l: List)
    requires Frames(d) && !d.busy && (ListOf(d, side).firing ==> l.firing)
    ensures Frames(Enter(d, side, l))
  {
    var e := Enter(d, side, l);
    assert forall s :: s != side ==> ListOf(e, s) == ListOf(d, s);
  }

  // Lists on their own -------------------------------------------------------

  /** What a list that accepts every function becomes. */
  lemma AddsAll(l: List, fns: seq<nat>)
    requires !l.options.unique && l.entries.Some?
    ensures PushAll(l, fns) ==
      l.(entries := Some(l.entries.value + Entries(fns, l.pushed)), pushed := l.pushed + |fns|)
  {
    PushAllAccepts(l, fns);
    AcceptedMeaning(false, l.entries.value, fns);
  }

  /** More registrations on a list that has not cast off its entries. */
  lemma TiedMore(l: List, fns: seq<nat>, base: nat, more: seq<nat>)
    requires Consecutive(l) && Tied(l, fns, base) && !l.options.unique
    ensures var m := PushAll(l, more);
      && m == l.(entries := Some(l.entries.value + Entries(more, l.pushed)), pushed := l.pushed + |more|)
      && Consecutive(m) && Tied(m, fns + more, base)
  {
    AddsAll(l, more);
    TiedEntries(l, fns, base, more, PushAll(l, more));
  }

  lemma TiedEntries(l: List, fns: seq<nat>, base: nat, more: seq<nat>, m: List)
    requires Consecutive(l) && Tied(l, fns, base)
    requires m.entries == Some(l.entries.value + Entries(more, l.pushed)) && m.pushed == l.pushed + |more|
    ensures Consecutive(m) && Tied(m, fns + more, base)
  {
    var n := |l.entries.value|;
    forall k | 0 <= k < |m.entries.value|
      ensures m.entries.value[k] == if k < n then l.entries.value[k] else Entry(more[k - n], l.pushed + k - n)
    {
    }
    forall k | 0 <= k < |m.entries.value| && base <= m.entries.value[k].serial
      ensures m.entries.value[k].fn == (fns + more)[m.entries.value[k].serial - base]
    {
    }
  }

  lemma UnfiredAdd(l: List, fns: seq<nat>, more: seq<nat>)
    requires Unfired(l, fns)
    ensures Unfired(Callbacks.Add(l, more), fns + more)
  {
    TiedMore(l, fns, INTERNALS, more);
  }

  lemma DisabledInert(l: List, fns: seq<nat>, args: Args)
    requires Disabled(l)
    ensures Callbacks.Add(l, fns) == l && FireWith(l, args) == l
  {
  }

  lemma {:induction false} RegsConcat(rs: seq<Registration>, more: seq<Registration>, side: Side)
    ensures RegsOf(rs + more, side) == RegsOf(rs, side) + RegsOf(more, side)
    decreases |more|
  {
    if more == [] {
      assert rs + more == rs;
    } else {
      assert (rs + more)[..|rs + more| - 1] == rs + more[..|more| - 1];
      RegsConcat(rs, more[..|more| - 1], side);
    }
  }

  lemma {:induction false} RegsOfOne(side: Side, fns: seq<nat>, after: nat, s: Side)
    ensures RegsOf(Registrations(side, fns, after), s) == if s == side then Registrations(side, fns, after) else []
    decreases |fns|
  {
    if fns != [] {
      var init := fns[..|fns| - 1];
      assert Registrations(side, fns, after)[..|fns| - 1] == Registrations(side, init, after);
      RegsOfOne(side, init, after, s);
    }
  }

  /** What a use of done, fail or progress adds to the registrations of a side. */
  lemma RegsMore(rs: seq<Registration>, side: Side, fns: seq<nat>, after: nat, s: Side)
    ensures RegsOf(rs + Registrations(side, fns, after), s) ==
      if s == side then RegsOf(rs, s) + Registrations(side, fns, after) else RegsOf(rs, s)
  {
    RegsConcat(rs, Registrations(side, fns, after), s);
    RegsOfOne(side, fns, after, s);
    Nothing(RegsOf(rs, s));
  }

  lemma FnsMore(rs: seq<Registration>, side: Side, fns: seq<nat>, after: nat)
    ensures FnsOf(rs + Registrations(side, fns, after)) == FnsOf(rs) + fns
  {
  }

  /** What registering does to the functions registered on a side. */
  lemma RegsAfter(d: Deferred, side: Side, fns: seq<nat>, s: Side)
    requires !d.busy
    ensures Regs(Registers(d, side, fns), s) == if s == side then Regs(d, s) + fns else Regs(d, s)
  {
    RegsMore(d.registered, side, fns, |d.begun|, s);
    FnsMore(RegsOf(d.registered, s), side, fns, |d.begun|);
  }

  lemma {:induction false} FirstCallsMore(side: Side, fns: seq<nat>, more: seq<nat>, n: nat, args: Args)
    requires n <= |fns|
    ensures FirstCalls(side, fns + more, n, args) == FirstCalls(side, fns, n, args)
  {
    if n > 0 {
      FirstCallsMore(side, fns, more, n - 1, args);
    }
  }

  // The winner's list, one event at a time ---------------------------------------

  lemma WonStarts(side: Side, args: Args, l: List, fns: seq<nat>, other: List, otherFns: seq<nat>, locked: bool)
    requires Unfired(l, fns) && Unfired(other, otherFns)
    ensures FireWith(l, args).firing
    ensures Won(side, args, FireWith(l, args), fns, true, [], Pending, other, otherFns, locked)
  {
  }

  lemma WonAdd(side: Side, args: Args, l: List, fns: seq<nat>, calls: seq<Call>,
               state: State, other: List, otherFns: seq<nat>, locked: bool, more: seq<nat>)
    requires Won(side, args, l, fns, false, calls, state, other, otherFns, locked)
    ensures Callbacks.Add(l, more).firing
    ensures Won(side, args, Callbacks.Add(l, more), fns + more, !l.firing, calls, state, other, otherFns, locked)
  {
    TiedMore(l, fns, INTERNALS, more);
    FirstCallsMore(side, fns, more, Reached(Called(l, false)), args);
  }

  lemma WonReturns(side: Side, args: Args, l: List, fns: seq<nat>, calls: seq<Call>,
                   state: State, other: List, otherFns: seq<nat>, locked: bool)
    requires Won(side, args, l, fns, false, calls, state, other, otherFns, locked) && l.firing
    ensures Won(side, args, Returned(l, false), fns, true, calls, state, other, otherFns, locked)
  {
  }

  /** The entry at the firing index is the next in number. */
  lemma NextEntry(l: List, fns: seq<nat>, args: Args)
    requires WinnerList(l, fns, true, args) && l.firing && Due(l)
    ensures var n := Called(l, true); var e := l.entries.value[l.index];
      && e.serial == n < INTERNALS + |fns| && (n >= INTERNALS ==> e.fn == fns[n - INTERNALS])
      && Called(Returned(l, false), true) == n + 1 == Called(l, false)
      && WinnerList(Returned(l, false), fns, true, args) && WinnerList(l, fns, false, args)
  {
  }

  /** The internal callbacks set the state, disable the other side and lock progress. */
  lemma WonInternal(side: Side, args: Args, l: List, fns: seq<nat>, calls: seq<Call>,
                    state: State, other: List, otherFns: seq<nat>, locked: bool)
    requires Won(side, args, l, fns, true, calls, state, other, otherFns, locked) && l.firing && Due(l)
    requires l.entries.value[l.index].serial < INTERNALS
    ensures var n := l.entries.value[l.index].serial;
      Won(side, args, Returned(l, false), fns, true, calls,
          if n == 0 then FinalState(side) else state, if n == 1 then Disable(other) else other,
          otherFns, locked || n == 2)
    ensures l.entries.value[l.index].serial == 1 ==> !other.firing
  {
    NextEntry(l, fns, args);
  }

  lemma WonCalls(side: Side, args: Args, l: List, fns: seq<nat>, calls: seq<Call>,
                 state: State, other: List, otherFns: seq<nat>, locked: bool)
    requires Won(side, args, l, fns, true, calls, state, other, otherFns, locked) && l.firing && Due(l)
    requires l.entries.value[l.index].serial >= INTERNALS
    ensures var e := l.entries.value[l.index];
      Won(side, args, l, fns, false, calls + [Call(side, e.serial, e.fn, l.data)], state, other, otherFns, locked)
  {
    NextEntry(l, fns, args);
  }

  lemma WonFinishes(side: Side, args: Args, l: List, fns: seq<nat>, calls: seq<Call>,
                    state: State, other: List, otherFns: seq<nat>, locked: bool)
    requires Won(side, args, l, fns, true, calls, state, other, otherFns, locked) && l.firing && !Due(l)
    ensures !Finish(l).firing && Called(Finish(l), false) == INTERNALS + |fns|
    ensures Won(side, args, Finish(l), fns, false, calls, state, other, otherFns, locked)
  {
  }

  // The settlement, one event at a time ---------------------------------------

  /** Nothing happened to done and fail. */
  lemma SameOutcome(d: Deferred, e: Deferred)
    requires Outcome(d) && e.winner == d.winner && e.clock >= d.clock && e.state == d.state
    requires e.done == d.done && e.fail == d.fail
    requires Regs(e, Done) == Regs(d, Done) && Regs(e, Fail) == Regs(d, Fail)
    requires LogOf(e.log, Done) == LogOf(d.log, Done) && LogOf(e.log, Fail) == LogOf(d.log, Fail)
    requires d.winner.Some? ==> AtHead(e, d.winner.value.0) == AtHead(d, d.winner.value.0)
    requires d.progress.stack.None? ==> e.progress.stack.None?
    ensures Outcome(e)
  {
  }

  lemma RegisterOutcome(d: Deferred, side: Side, fns: seq<nat>)
    requires Outcome(d) && !d.busy
    ensures Outcome(Registers(d, side, fns))
  {
    RegsAfter(d, side, fns, Done);
    RegsAfter(d, side, fns, Fail);
    if side == Progress {
      SameOutcome(d, Registers(d, side, fns));
    } else if d.winner.None? {
      RegisterUnsettled(d, side, fns);
    } else {
      RegisterSettled(d, side, fns);
    }
  }

  lemma RegisterUnsettled(d: Deferred, side: Side, fns: seq<nat>)
    requires Outcome(d) && !d.busy && d.winner.None? && side != Progress
    ensures Outcome(Registers(d, side, fns))
  {
    var e, other := Registers(d, side, fns), Other(side);
    RegsAfter(d, side, fns, side);
    RegsAfter(d, side, fns, other);
    UnfiredAdd(ListOf(d, side), Regs(d, side), fns);
    assert Unfired(ListOf(e, side), Regs(e, side)) && Unfired(ListOf(e, other), Regs(e, other));
  }

  lemma RegisterSettled(d: Deferred, side: Side, fns: seq<nat>)
    requires Outcome(d) && !d.busy && d.winner.Some? && side != Progress
    ensures Outcome(Registers(d, side, fns))
  {
    var (w, args) := d.winner.value;
    var other := Other(w);
    RegsAfter(d, side, fns, w);
    RegsAfter(d, side, fns, other);
    if side == w {
      WonAdd(w, args, ListOf(d, w), Regs(d, w), LogOf(d.log, w), d.state, ListOf(d, other), Regs(d, other),
             d.progress.stack.None?, fns);
    } else {
      DisabledInert(ListOf(d, side), fns, args);
    }
  }

  lemma RegisterFrames(d: Deferred, side: Side, fns: seq<nat>)
    requires Frames(d) && !d.busy
    ensures Frames(Registers(d, side, fns))
  {
    var e := Enter(d, side, Callbacks.Add(ListOf(d, side), fns));
    EnterFrames(d, side, Callbacks.Add(ListOf(d, side), fns));
    assert forall s :: ListOf(Registers(d, side, fns), s) == ListOf(e, s);
  }

  lemma RegisterInv(d: Deferred, side: Side, fns: seq<nat>)
    requires Inv(d) && !d.busy
    ensures Inv(Registers(d, side, fns))
  {
    RegisterFrames(d, side, fns);
    RegisterOutcome(d, side, fns);
    RegisterProgress(d, side, fns);
  }

  lemma TriggerOutcome(d: Deferred, side: Side)
    requires Outcome(d) && !d.busy
    ensures Outcome(Triggers(d, side))
    ensures side != Progress && d.winner.None? ==> ListOf(Triggers(d, side), side).firing
  {
    if side == Progress {
      SameOutcome(d, Triggers(d, side));
    } else if d.winner.None? {
      SettleOutcome(d, side);
    } else {
      LateSettle(d, side);
    }
  }

  lemma SettleOutcome(d: Deferred, side: Side)
    requires Outcome(d) && !d.busy && d.winner.None? && side != Progress
    ensures Outcome(Triggers(d, side)) && ListOf(Triggers(d, side), side).firing
  {
    var other := Other(side);
    WonStarts(side, d.clock, ListOf(d, side), Regs(d, side), ListOf(d, other), Regs(d, other), d.progress.stack.None?);
  }

  lemma LateSettle(d: Deferred, side: Side)
    requires Outcome(d) && !d.busy && d.winner.Some? && side != Progress
    ensures Outcome(Triggers(d, side))
  {
    assert FireWith(ListOf(d, side), d.clock) == ListOf(d, side);
    SameOutcome(d, Triggers(d, side));
  }

  lemma TriggerFrames(d: Deferred, side: Side)
    requires Frames(d) && !d.busy
    ensures Frames(Triggers(d, side))
  {
    EnterFrames(d, side, FireWith(ListOf(d, side), d.clock));
    var e := Enter(d, side, FireWith(ListOf(d, side), d.clock));
    var s := Triggers(d, side);
    assert forall t :: ListOf(s, t) == ListOf(e, t);
  }

  lemma TriggerInv(d: Deferred, side: Side)
    requires Inv(d) && !d.busy
    ensures Inv(Triggers(d, side))
  {
    TriggerFrames(d, side);
    TriggerOutcome(d, side);
    TriggerProgress(d, side);
  }

  lemma ReturnOutcome(d: Deferred)
    requires Frames(d) && Outcome(d) && !d.busy && d.frames != []
    ensures Outcome(Returns(d))
  {
    assert Top(d) in d.frames;
    if d.winner.Some? && Top(d) == d.winner.value.0 {
      var (w, args) := d.winner.value;
      var other := Other(w);
      WonReturns(w, args, ListOf(d, w), Regs(d, w), LogOf(d.log, w), d.state, ListOf(d, other), Regs(d, other),
                 d.progress.stack.None?);
    } else {
      TopIsProgress(d);
      SameOutcome(d, Returns(d));
    }
  }

  /** Besides the winner only progress can be firing. */
  lemma TopIsProgress(d: Deferred)
    requires Frames(d) && Outcome(d) && d.frames != []
    ensures Top(d) == Progress || (d.winner.Some? && Top(d) == d.winner.value.0)
  {
    assert Top(d) in d.frames;
  }

  lemma ReturnFrames(d: Deferred)
    requires Frames(d) && !d.busy && d.frames != []
    ensures Frames(Returns(d))
  {
    var e := Returns(d);
    assert forall s :: ListOf(e, s).firing == ListOf(d, s).firing;
  }

  lemma ReturnInv(d: Deferred)
    requires Inv(d) && !d.busy && d.frames != []
    ensures Inv(Returns(d))
  {
    ReturnOutcome(d);
    ReturnProgress(d);
    ReturnFrames(d);
  }

  lemma TickEnabled(d: Deferred)
    requires Inv(d) && d.busy
    ensures Enabled(d, Tick)
  {
    TopIsProgress(d);
    assert Top(d) in d.frames;
  }

  lemma LogSnoc(log: seq<Call>, c: Call, side: Side)
    ensures LogOf(log + [c], side) == LogOf(log, side) + if c.side == side then [c] else []
  {
    assert (log + [c])[..|log|] == log;
  }

  lemma InternalOutcome(d: Deferred)
    requires Frames(d) && Outcome(d) && InternalNext(d)
    ensures Outcome(RunInternal(d))
    ensures ListOf(d, Top(d)).entries.value[ListOf(d, Top(d)).index].serial == 1 ==> !ListOf(d, Other(Top(d))).firing
  {
    TopIsProgress(d);
    assert Top(d) in d.frames;
    var (w, args) := d.winner.value;
    var other, n := Other(w), ListOf(d, w).entries.value[ListOf(d, w).index].serial;
    WonInternal(w, args, ListOf(d, w), Regs(d, w), LogOf(d.log, w), d.state, ListOf(d, other), Regs(d, other),
                d.progress.stack.None?);
    InternalParts(d);
    var e := RunInternal(d);
    assert Won(w, args, ListOf(e, w), Regs(e, w), true, LogOf(e.log, w), e.state, ListOf(e, other), Regs(e, other),
               d.progress.stack.None? || n == 2);
  }

  /** What an internal callback changes. */
  lemma InternalParts(d: Deferred)
    requires InternalNext(d)
    ensures var side, e := Top(d), RunInternal(d); var l := ListOf(d, side); var n := l.entries.value[l.index].serial;
      && ListOf(e, side) == Returned(l, false)
      && ListOf(e, Other(side)) == (if n == 1 then Disable(ListOf(d, Other(side))) else ListOf(d, Other(side)))
      && e.state == (if n == 0 then FinalState(side) else d.state)
      && e.progress == (if n == 2 then Lock(d.progress) else d.progress)
      && e == d.(state := e.state, done := e.done, fail := e.fail, progress := e.progress)
  {
  }

  lemma InternalFrames(d: Deferred)
    requires Frames(d) && Outcome(d) && InternalNext(d)
    ensures Frames(RunInternal(d))
  {
    InternalOutcome(d);
    InternalFiring(d);
    FiringFrames(d, RunInternal(d));
  }

  /** No firing begins or ends. */
  lemma InternalFiring(d: Deferred)
    requires InternalNext(d)
    requires ListOf(d, Top(d)).entries.value[ListOf(d, Top(d)).index].serial == 1 ==> !ListOf(d, Other(Top(d))).firing
    ensures var e := RunInternal(d);
      && e.frames == d.frames && e.busy == d.busy
      && e.done.firing == d.done.firing && e.fail.firing == d.fail.firing && e.progress.firing == d.progress.firing
  {
    InternalParts(d);
  }

  lemma FiringFrames(d: Deferred, e: Deferred)
    requires Frames(d) && e.frames == d.frames && e.busy == d.busy
    requires e.done.firing == d.done.firing && e.fail.firing == d.fail.firing && e.progress.firing == d.progress.firing
    ensures Frames(e)
  {
    forall s: Side ensures ListOf(e, s).firing == ListOf(d, s).firing {
    }
  }

  lemma CallOutcome(d: Deferred)
    requires Frames(d) && Outcome(d) && CallNext(d)
    ensures Outcome(CallUser(d))
  {
    TopIsProgress(d);
    assert Top(d) in d.frames;
    var l := ListOf(d, Top(d));
    var c := Call(Top(d), l.entries.value[l.index].serial, l.entries.value[l.index].fn, l.data);
    LogSnoc(d.log, c, Done);
    LogSnoc(d.log, c, Fail);
    if Top(d) == Progress {
      SameOutcome(d, CallUser(d));
    } else {
      var (w, args) := d.winner.value;
      var other := Other(w);
      WonCalls(w, args, l, Regs(d, w), LogOf(d.log, w), d.state, ListOf(d, other), Regs(d, other),
               d.progress.stack.None?);
    }
  }

  lemma CallFrames(d: Deferred)
    requires Frames(d) && CallNext(d)
    ensures Frames(CallUser(d))
  {
    assert forall s :: ListOf(CallUser(d), s) == ListOf(d, s);
  }

  lemma FinishOutcome(d: Deferred)
    requires Frames(d) && Outcome(d) && Enabled(d, Tick) && !Due(ListOf(d, Top(d)))
    ensures Outcome(EndFiring(d))
  {
    TopIsProgress(d);
    assert Top(d) in d.frames;
    if Top(d) == Progress {
      SameOutcome(d, EndFiring(d));
    } else {
      var (w, args) := d.winner.value;
      var other := Other(w);
      WonFinishes(w, args, ListOf(d, w), Regs(d, w), LogOf(d.log, w), d.state, ListOf(d, other), Regs(d, other),
                  d.progress.stack.None?);
    }
  }

  lemma FinishFrames(d: Deferred)
    requires Frames(d) && Enabled(d, Tick) && !Due(ListOf(d, Top(d)))
    ensures Frames(EndFiring(d))
  {
    var e, top := EndFiring(d), Top(d);
    assert forall s :: s != top ==> ListOf(e, s) == ListOf(d, s);
    if !ListOf(e, top).firing {
      assert d.frames == e.frames + [top];
    }
  }

  // The progress list, one event at a time -----------------------------------------

  lemma ArgsMore(log: seq<Call>, c: Call, k: nat)
    ensures ArgsOf(log + [c], k) == ArgsOf(log, k) + if c.side == Progress && c.serial == k then [c.args] else []
  {
    assert (log + [c])[..|log|] == log;
  }

  lemma {:induction false} NoArgs(log: seq<Call>, k: nat)
    requires forall j :: 0 <= j < |log| && log[j].side == Progress ==> log[j].serial != k
    ensures ArgsOf(log, k) == []
  {
    if log != [] {
      NoArgs(log[..|log| - 1], k);
    }
  }

  /** Who awaits the last notification is all that matters of the list. */
  lemma SameDelivered(log: seq<Call>, rs: seq<Registration>, begun: seq<Args>, p: List, head: bool, q: List, next: bool)
    requires Delivered(log, rs, begun, p, head)
    requires forall k: nat :: k < |rs| ==> Awaits(q, next, k) == Awaits(p, head, k)
    ensures Delivered(log, rs, begun, q, next)
  {
  }

  /** A call on another side. */
  lemma OtherDelivered(log: seq<Call>, c: Call, rs: seq<Registration>, begun: seq<Args>, p: List, head: bool)
    requires Delivered(log, rs, begun, p, head) && c.side != Progress
    ensures Delivered(log + [c], rs, begun, p, head)
  {
    forall k | 0 <= k < |rs| ensures ArgsOf(log + [c], k) == ArgsOf(log, k) {
      ArgsMore(log, c, k);
    }
  }

  lemma AddedShape(p: List, fns: seq<nat>, more: seq<nat>)
    requires ProgressShape(p, fns, false)
    ensures var m := Callbacks.Add(p, more); ProgressShape(m, fns + more, m.firing && !p.firing)
  {
    if p.entries.Some? {
      TiedMore(p, fns, 0, more);
    }
  }

  lemma AddedNotices(p: List, issued: seq<Args>, begun: seq<Args>, unsettled: bool, more: seq<nat>)
    requires Notices(p, issued, begun, unsettled) && p.options == REPEATED
    ensures Notices(Callbacks.Add(p, more), issued, begun, unsettled)
  {
  }

  /** The new callbacks have no call yet; if anything has begun, the last of it is coming. */
  lemma AddedDelivered(log: seq<Call>, rs: seq<Registration>, begun: seq<Args>, p: List, issued: seq<Args>,
                       unsettled: bool, more: seq<nat>)
    requires ProgressShape(p, FnsOf(rs), false) && Notices(p, issued, begun, unsettled)
    requires Delivered(log, rs, begun, p, false)
    ensures var m := Callbacks.Add(p, more);
      Delivered(log, rs + Registrations(Progress, more, |begun|), begun, m, m.firing && !p.firing)
  {
    var m := Callbacks.Add(p, more);
    var head, all := m.firing && !p.firing, rs + Registrations(Progress, more, |begun|);
    AddedAwaits(p, FnsOf(rs), more);
    forall k | 0 <= k < |all|
      ensures 0 <= First(all[k]) <= Until(begun, Awaits(m, head, k))
      ensures ArgsOf(log, k) == begun[First(all[k])..Until(begun, Awaits(m, head, k))]
    {
      if k < |rs| {
        assert all[k] == rs[k] && Awaits(m, head, k) == Awaits(p, false, k);
      } else {
        assert all[k] == Registration(Progress, more[k - |rs|], |begun|);
        NewAwaits(p, FnsOf(rs), more, k);
        NewDelivered(log, rs, begun, p, k);
      }
    }
  }

  /** Nothing was called under a number that no registration had. */
  lemma NewDelivered(log: seq<Call>, rs: seq<Registration>, begun: seq<Args>, p: List, k: nat)
    requires Delivered(log, rs, begun, p, false) && k >= |rs|
    ensures ArgsOf(log, k) == []
  {
    NoArgs(log, k);
  }

  lemma AddedAwaits(p: List, fns: seq<nat>, more: seq<nat>)
    requires ProgressShape(p, fns, false)
    ensures var m := Callbacks.Add(p, more); var head := m.firing && !p.firing;
      forall k: nat :: k < |fns| ==> Awaits(m, head, k) == Awaits(p, false, k)
  {
    if p.entries.Some? {
      AddsAll(p, more);
    }
  }

  lemma NewAwaits(p: List, fns: seq<nat>, more: seq<nat>, k: nat)
    requires ProgressShape(p, fns, false) && |fns| <= k < |fns| + |more|
    ensures var m := Callbacks.Add(p, more); Awaits(m, m.firing && !p.firing, k) == m.firing
  {
    if p.entries.Some? {
      AddsAll(p, more);
    }
  }

  lemma FiredShape(p: List, fns: seq<nat>, a: Args)
    requires ProgressShape(p, fns, false)
    ensures var m := FireWith(p, a); ProgressShape(m, fns, m.firing && !p.firing)
  {
  }

  /** A notification begins, is queued, or comes too late. */
  lemma FiredNotices(p: List, issued: seq<Args>, begun: seq<Args>, unsettled: bool, a: Args)
    requires Notices(p, issued, begun, unsettled) && p.options == REPEATED
    requires !p.firing && p.stack.Some? ==> p.stack.value == []
    requires p.stack.Some? ==> unsettled && p.entries.Some?
    ensures var m := FireWith(p, a);
      Notices(m, if unsettled then issued + [a] else issued,
              if m.firing && !p.firing then begun + [a] else begun, unsettled)
  {
    if p.stack.Some? && p.firing {
      assert begun + (p.stack.value + [a]) == begun + p.stack.value + [a];
    } else if p.stack.Some? {
      assert begun + [a] + [] == begun + [a];
    }
  }

  /** A new notification begins: every callback awaits it. */
  lemma BeginDelivered(log: seq<Call>, rs: seq<Registration>, begun: seq<Args>, p: List, head: bool, m: List, a: Args)
    requires Delivered(log, rs, begun, p, head)
    requires forall k: nat :: k < |rs| ==> !Awaits(p, head, k) && Awaits(m, true, k)
    ensures Delivered(log, rs, begun + [a], m, true)
  {
    forall k | 0 <= k < |rs| ensures ArgsOf(log, k) == (begun + [a])[First(rs[k])..Until(begun + [a], true)] {
      assert begun[First(rs[k])..|begun|] == (begun + [a])[First(rs[k])..|begun|];
    }
  }

  lemma ReturnedShape(p: List, fns: seq<nat>)
    requires ProgressShape(p, fns, false) && p.firing
    ensures ProgressShape(Returned(p, false), fns, true)
  {
  }

  lemma LockedShape(p: List, fns: seq<nat>, issued: seq<Args>, begun: seq<Args>)
    requires ProgressShape(p, fns, false) && Notices(p, issued, begun, false)
    ensures ProgressShape(Lock(p), fns, false) && Notices(Lock(p), issued, begun, false)
    ensures forall k: nat :: k < |fns| ==> Awaits(Lock(p), false, k) == Awaits(p, false, k)
  {
  }

  lemma CalledShape(p: List, fns: seq<nat>)
    requires ProgressShape(p, fns, true) && p.firing && Due(p)
    ensures ProgressShape(p, fns, false)
    ensures var e := p.entries.value[p.index]; e.serial == Called(p, true) < |fns| && e.fn == fns[e.serial]
  {
  }

  /** The callback at the firing index gets the last notification begun. */
  lemma CalledDelivered(log: seq<Call>, rs: seq<Registration>, begun: seq<Args>, p: List, c: Call)
    requires p.firing && p.entries.Some? && begun != [] && Delivered(log, rs, begun, p, true)
    requires c.side == Progress && c.serial == Called(p, true) < |rs| && c.fn == rs[c.serial].fn
    requires c.args == begun[|begun| - 1]
    ensures Delivered(log + [c], rs, begun, p, false)
  {
    forall k | 0 <= k < |rs|
      ensures 0 <= First(rs[k]) <= Until(begun, Awaits(p, false, k))
      ensures ArgsOf(log + [c], k) == begun[First(rs[k])..Until(begun, Awaits(p, false, k))]
    {
      ArgsMore(log, c, k);
      OneMore(begun, First(rs[k]));
      assert k != c.serial ==> Awaits(p, false, k) == Awaits(p, true, k);
    }
  }

  lemma OneMore(begun: seq<Args>, k: nat)
    requires begun != []
    ensures k < |begun| ==> begun[k..|begun|] == begun[k..|begun| - 1] + [begun[|begun| - 1]]
  {
  }

  lemma FinishedShape(p: List, fns: seq<nat>)
    requires ProgressShape(p, fns, true) && p.firing && !Due(p)
    ensures ProgressShape(Finish(p), fns, Finish(p).firing)
    ensures forall k: nat :: k < |fns| ==> !Awaits(p, true, k) && (Finish(p).firing ==> Awaits(Finish(p), true, k))
  {
  }

  lemma FinishedNotices(p: List, issued: seq<Args>, begun: seq<Args>, unsettled: bool)
    requires Notices(p, issued, begun, unsettled) && p.firing && p.entries.Some? && p.options == REPEATED
    ensures var m := Finish(p); Notices(m, issued, if m.firing then begun + [m.data] else begun, unsettled)
  {
    if p.stack.Some? && p.stack.value != [] {
      assert begun + p.stack.value == begun + [p.stack.value[0]] + p.stack.value[1..];
    }
  }

  // Progress, one event at a time -------------------------------------------------

  /** Nothing happened to progress. */
  lemma SameProgress(d: Deferred, e: Deferred)
    requires ProgressList(d) && e.progress == d.progress && e.begun == d.begun && e.issued == d.issued
    requires Bound(e) >= Bound(d) && (e.winner.None? ==> d.winner.None?)
    requires RegsOf(e.registered, Progress) == RegsOf(d.registered, Progress)
    requires AtHead(e, Progress) == AtHead(d, Progress) || !d.progress.firing
    requires e.log == d.log || (exists c :: e.log == d.log + [c] && c.side != Progress)
    ensures ProgressList(e)
  {
    var rs := RegsOf(d.registered, Progress);
    SameDelivered(d.log, rs, d.begun, d.progress, AtHead(d, Progress), e.progress, AtHead(e, Progress));
    if e.log != d.log {
      var c :| e.log == d.log + [c] && c.side != Progress;
      OtherDelivered(d.log, c, rs, d.begun, e.progress, AtHead(e, Progress));
    }
  }

  lemma RegisterProgress(d: Deferred, side: Side, fns: seq<nat>)
    requires ProgressList(d) && !d.busy
    ensures ProgressList(Registers(d, side, fns))
  {
    if side == Progress {
      RegisterOnProgress(d, fns);
    } else {
      RegisterElsewhere(d, side, fns);
    }
  }

  lemma RegisterElsewhere(d: Deferred, side: Side, fns: seq<nat>)
    requires ProgressList(d) && !d.busy && side != Progress
    ensures ProgressList(Registers(d, side, fns))
  {
    var e := Registers(d, side, fns);
    RegsMore(d.registered, side, fns, |d.begun|, Progress);
    assert !AtHead(e, Progress) && e.progress == d.progress && e.log == d.log;
    assert e.begun == d.begun && e.issued == d.issued && Bound(e) == Bound(d) && e.winner == d.winner;
    SameProgress(d, e);
  }

  lemma RegisterOnProgress(d: Deferred, fns: seq<nat>)
    requires ProgressList(d) && !d.busy
    ensures ProgressList(Registers(d, Progress, fns))
  {
    var rs := RegsOf(d.registered, Progress);
    RegsMore(d.registered, Progress, fns, |d.begun|, Progress);
    FnsMore(rs, Progress, fns, |d.begun|);
    AddedShape(d.progress, FnsOf(rs), fns);
    AddedNotices(d.progress, d.issued, d.begun, d.winner.None?, fns);
    AddedDelivered(d.log, rs, d.begun, d.progress, d.issued, d.winner.None?, fns);
  }

  /** Once settled and out of the internal callbacks, progress is locked. */
  lemma SettledLocked(d: Deferred)
    requires Outcome(d) && d.winner.Some? && !AtHead(d, d.winner.value.0)
    ensures d.progress.stack.None?
  {
  }

  lemma TriggerProgress(d: Deferred, side: Side)
    requires ProgressList(d) && Outcome(d) && !d.busy
    ensures ProgressList(Triggers(d, side))
  {
    var e := Triggers(d, side);
    if side == Progress {
      if d.winner.Some? {
        SettledLocked(d);
      }
      NotifyProgress(d);
    } else {
      SameProgress(d, e);
    }
  }

  lemma NotifyProgress(d: Deferred)
    requires ProgressList(d) && !d.busy && (d.winner.Some? ==> d.progress.stack.None?)
    ensures ProgressList(Triggers(d, Progress))
  {
    NotifiedParts(d);
    NotifiedList(d, Triggers(d, Progress));
  }

  /** `e` is `d` after a use of notify. */
  predicate Notified(d: Deferred, e: Deferred) {
    var m := FireWith(d.progress, d.clock);
    var begins := m.firing && !d.progress.firing;
    && e.progress == m && e.log == d.log && e.registered == d.registered
    && e.winner == d.winner && e.clock == d.clock + 1
    && e.issued == (if d.winner.None? then d.issued + [d.clock] else d.issued)
    && e.begun == (if begins then d.begun + [d.clock] else d.begun)
    && AtHead(e, Progress) == begins
  }

  lemma NotifiedParts(d: Deferred)
    requires !d.busy
    ensures Notified(d, Triggers(d, Progress))
  {
  }

  lemma NotifiedList(d: Deferred, e: Deferred)
    requires ProgressList(d) && !d.busy && (d.winner.Some? ==> d.progress.stack.None?) && Notified(d, e)
    ensures ProgressList(e)
  {
    var p, rs := d.progress, RegsOf(d.registered, Progress);
    FiredShape(p, FnsOf(rs), d.clock);
    FiredNotices(p, d.issued, d.begun, d.winner.None?, d.clock);
    FiredDelivered(d.log, rs, d.begun, p, d.clock);
    IssuedEarly(d, e);
  }

  lemma IssuedEarly(d: Deferred, e: Deferred)
    requires Early(d.issued, Bound(d)) && Notified(d, e)
    ensures Early(e.issued, Bound(e))
  {
  }

  lemma FiredDelivered(log: seq<Call>, rs: seq<Registration>, begun: seq<Args>, p: List, a: Args)
    requires ProgressShape(p, FnsOf(rs), false) && Delivered(log, rs, begun, p, false)
    requires p.entries.Some? && p.stack.None? ==> p.fired
    ensures var m := FireWith(p, a); var begins := m.firing && !p.firing;
      Delivered(log, rs, if begins then begun + [a] else begun, m, begins)
  {
    var m := FireWith(p, a);
    if m.firing && !p.firing {
      BeginDelivered(log, rs, begun, p, false, m, a);
    } else {
      SameDelivered(log, rs, begun, p, false, m, false);
    }
  }

  lemma ReturnProgress(d: Deferred)
    requires ProgressList(d) && Frames(d) && !d.busy && d.frames != []
    ensures ProgressList(Returns(d))
  {
    assert Top(d) in d.frames;
    if Top(d) == Progress {
      var rs := RegsOf(d.registered, Progress);
      ReturnedShape(d.progress, FnsOf(rs));
      SameDelivered(d.log, rs, d.begun, d.progress, false, Returned(d.progress, false), true);
    } else {
      SameProgress(d, Returns(d));
    }
  }

  lemma InternalProgress(d: Deferred)
    requires ProgressList(d) && InternalNext(d) && d.winner.Some?
    ensures ProgressList(RunInternal(d))
  {
    var e := RunInternal(d);
    var n := ListOf(d, Top(d)).entries.value[ListOf(d, Top(d)).index].serial;
    assert AtHead(d, Progress) == AtHead(e, Progress) == false;
    if n == 2 {
      assert e.progress == Lock(d.progress);
      LockProgress(d, e);
    } else {
      SameProgress(d, e);
    }
  }

  lemma LockProgress(d: Deferred, e: Deferred)
    requires ProgressList(d) && d.winner.Some? && !AtHead(d, Progress) && !AtHead(e, Progress)
    requires e.progress == Lock(d.progress) && e.begun == d.begun && e.issued == d.issued && e.log == d.log
    requires e.winner == d.winner && e.registered == d.registered
    ensures ProgressList(e)
  {
    var rs := RegsOf(d.registered, Progress);
    LockedShape(d.progress, FnsOf(rs), d.issued, d.begun);
    SameDelivered(d.log, rs, d.begun, d.progress, false, e.progress, false);
  }

  lemma CallProgress(d: Deferred)
    requires ProgressList(d) && Frames(d) && CallNext(d)
    ensures ProgressList(CallUser(d))
  {
    assert Top(d) in d.frames;
    var l := ListOf(d, Top(d));
    var c := Call(Top(d), l.entries.value[l.index].serial, l.entries.value[l.index].fn, l.data);
    if Top(d) == Progress {
      var rs := RegsOf(d.registered, Progress);
      CalledShape(l, FnsOf(rs));
      CalledDelivered(d.log, rs, d.begun, l, c);
    } else {
      SameProgress(d, CallUser(d));
    }
  }

  lemma FinishProgress(d: Deferred)
    requires ProgressList(d) && Frames(d) && Enabled(d, Tick) && !Due(ListOf(d, Top(d)))
    ensures ProgressList(EndFiring(d))
  {
    assert Top(d) in d.frames;
    if Top(d) == Progress {
      FinishNotification(d);
    } else {
      var e := EndFiring(d);
      assert e.progress == d.progress && (AtHead(e, Progress) <==> AtHead(d, Progress));
      SameProgress(d, e);
    }
  }

  /** A notification has been delivered: the next one queued begins, or none. */
  lemma FinishNotification(d: Deferred)
    requires ProgressList(d) && Frames(d) && Enabled(d, Tick) && Top(d) == Progress && d.progress.firing
    requires !Due(d.progress)
    ensures ProgressList(EndFiring(d))
  {
    var e := EndFiring(d);
    assert e.progress == Finish(d.progress) && AtHead(e, Progress) == e.progress.firing by {
      FinishedTop(d);
    }
    FinishedList(d, e);
  }

  lemma FinishedTop(d: Deferred)
    requires Frames(d) && Enabled(d, Tick) && Top(d) == Progress && !Due(d.progress)
    ensures AtHead(EndFiring(d), Progress) == Finish(d.progress).firing
  {
  }

  lemma FinishedList(d: Deferred, e: Deferred)
    requires ProgressList(d) && AtHead(d, Progress) && d.progress.firing && !Due(d.progress)
    requires e.progress == Finish(d.progress) && AtHead(e, Progress) == e.progress.firing
    requires e.log == d.log && e.registered == d.registered && e.winner == d.winner && e.clock == d.clock
    requires e.issued == d.issued
    requires e.begun == if e.progress.firing then d.begun + [e.progress.data] else d.begun
    ensures ProgressList(e)
  {
    var rs, p, m := RegsOf(d.registered, Progress), d.progress, Finish(d.progress);
    FinishedShape(p, FnsOf(rs));
    FinishedNotices(p, d.issued, d.begun, d.winner.None?);
    if m.firing {
      BeginDelivered(d.log, rs, d.begun, p, true, m, m.data);
    } else {
      SameDelivered(d.log, rs, d.begun, p, true, m, false);
    }
  }

  lemma TickInv(d: Deferred)
    requires Inv(d) && d.busy
    ensures Enabled(d, Tick) && Inv(Step(d, Tick))
  {
    TickEnabled(d);
    if !Due(ListOf(d, Top(d))) {
      FinishOutcome(d);
      FinishFrames(d);
      FinishProgress(d);
    } else if InternalNext(d) {
      TopIsProgress(d);
      InternalOutcome(d);
      InternalFrames(d);
      InternalProgress(d);
    } else {
      CallOutcome(d);
      CallFrames(d);
      CallProgress(d);
    }
  }

  // ----- Every run -----------------------------------------------------------

  lemma StepInv(d: Deferred, e: Event)
    requires Inv(d) && Enabled(d, e)
    ensures Inv(Step(d, e))
  {
    match e
    case Register(side, fns) => RegisterInv(d, side, fns);
    case Trigger(side) => TriggerInv(d, side);
    case Return => ReturnInv(d);
    case Tick => TickInv(d);
  }

  /** `events` can happen one after the other from `d` on, and end in `last`. */
  ghost predicate Leads(d: Deferred, events: seq<Event>, last: Deferred)
    decreases |events|
  {
    if events == [] then d == last
    else Enabled(d, events[0]) && Leads(Step(d, events[0]), events[1..], last)
  }

  lemma {:induction false} EveryRunKeepsInv(d: Deferred, events: seq<Event>, last: Deferred)
    requires Inv(d) && Leads(d, events, last)
    ensures Inv(last)
    ensures last.busy ==> Enabled(last, Tick)
    decreases |events|
  {
    if events == [] {
      if d.busy {
        TickInv(d);
      }
    } else {
      StepInv(d, events[0]);
      EveryRunKeepsInv(Step(d, events[0]), events[1..], last);
    }
  }

  /** Nothing is running. */
  predicate Quiet(d: Deferred) {
    !d.busy && d.frames == []
  }

  /** The functions that `events` register on `side`, in order. */
  function Registered(events: seq<Event>, side: Side): seq<nat> {
    if events == [] then []
    else (if events[0].Register? && events[0].side == side then events[0].fns else []) + Registered(events[1..], side)
  }

  lemma StepRegisters(d: Deferred, e: Event, side: Side)
    requires Enabled(d, e)
    ensures Regs(Step(d, e), side) == Regs(d, side) + Registered([e], side)
  {
    assert Registered([e][1..], side) == [];
    if e.Register? {
      RegsAfter(d, e.side, e.fns, side);
    }
  }

  lemma {:induction false} RunRegisters(d: Deferred, events: seq<Event>, last: Deferred, side: Side)
    requires Leads(d, events, last)
    ensures Regs(last, side) == Regs(d, side) + Registered(events, side)
    decreases |events|
  {
    if events == [] {
      assert Regs(d, side) + [] == Regs(d, side);
    } else {
      var next := Step(d, events[0]);
      StepRegisters(d, events[0], side);
      RegisteredFirst(events, side);
      RunRegisters(next, events[1..], last, side);
      Associate(Regs(d, side), Registered([events[0]], side), Registered(events[1..], side));
    }
  }

  lemma RegisteredFirst(events: seq<Event>, side: Side)
    requires events != []
    ensures Registered(events, side) == Registered([events[0]], side) + Registered(events[1..], side)
  {
    assert [events[0]][1..] == [] && Registered([], side) == [];
  }

  lemma NoneRegistered(d: Deferred, side: Side)
    requires d.registered == []
    ensures Regs(d, side) == []
  {
  }

  lemma AllRegistered(events: seq<Event>, d: Deferred, side: Side)
    requires Leads(Init(), events, d)
    ensures Regs(d, side) == Registered(events, side)
  {
    var start := Init();
    NoneRegistered(start, side);
    RunRegisters(start, events, d, side);
    assert [] + Registered(events, side) == Registered(events, side);
  }

  /** On every run, including all that callbacks do from inside: before settlement no
      done or fail callback has run; afterwards none of the losing side ever runs, the
      functions registered on the winning side have run in the order of their registration,
      each with the settling arguments, and at rest every one has run exactly once. */
  lemma SettlementContract(events: seq<Event>, d: Deferred)
    requires Leads(Init(), events, d)
    ensures d.winner.None? ==> d.state == Pending && LogOf(d.log, Done) == [] && LogOf(d.log, Fail) == []
    ensures d.winner.Some? ==>
      var (side, args) := d.winner.value; var fns := Registered(events, side);
      && side != Progress
      && LogOf(d.log, Other(side)) == []
      && (exists n: nat :: n <= |fns| && LogOf(d.log, side) == FirstCalls(side, fns, n, args))
      && (!d.busy ==> (d.state == Resolved <==> side == Done) && (d.state == Rejected <==> side == Fail))
      && (Quiet(d) ==> LogOf(d.log, side) == FirstCalls(side, fns, |fns|, args))
  {
    InitInv();
    EveryRunKeepsInv(Init(), events, d);
    if d.winner.Some? {
      AllRegistered(events, d, d.winner.value.0);
      WinnerState(d);
    }
  }

  lemma WinnerState(d: Deferred)
    requires Inv(d) && d.winner.Some?
    ensures var (side, args) := d.winner.value; var fns := Regs(d, side);
      var n := Reached(Called(ListOf(d, side), AtHead(d, side)));
      && side != Progress
      && LogOf(d.log, Other(side)) == []
      && n <= |fns| && LogOf(d.log, side) == FirstCalls(side, fns, n, args)
      && (!d.busy ==> d.state == FinalState(side))
      && (Quiet(d) ==> n == |fns|)
  {
    var (side, args) := d.winner.value;
    assert WinnerList(ListOf(d, side), Regs(d, side), AtHead(d, side), args);
    if Quiet(d) {
      assert side !in d.frames;
    }
  }

  /** What each of the first `n` calls is. */
  lemma {:induction false} FirstCallsAt(side: Side, fns: seq<nat>, n: nat, args: Args)
    requires n <= |fns|
    ensures |FirstCalls(side, fns, n, args)| == n
    ensures forall k :: 0 <= k < n ==> FirstCalls(side, fns, n, args)[k] == Call(side, INTERNALS + k, fns[k], args)
  {
    if n > 0 {
      FirstCallsAt(side, fns, n - 1, args);
    }
  }

  /** The first resolve or reject on any run takes effect, with its own arguments. */
  lemma FirstSettlementWins(events: seq<Event>, d: Deferred, side: Side)
    requires Leads(Init(), events, d) && !d.busy && d.winner.None? && side != Progress
    ensures Step(d, Trigger(side)).winner == Some((side, d.clock))
    ensures ListOf(Step(d, Trigger(side)), side).firing
  {
    InitInv();
    EveryRunKeepsInv(Init(), events, d);
    SettlesNow(d, side);
  }

  lemma SettlesNow(d: Deferred, side: Side)
    requires Outcome(d) && !d.busy && d.winner.None? && side != Progress
    ensures Triggers(d, side).winner == Some((side, d.clock)) && ListOf(Triggers(d, side), side).firing
  {
  }

  /** The notifications issued on the run, before its settlement. */
  ghost function Issued(d: Deferred, events: seq<Event>): seq<Args>
    decreases |events|
  {
    if events == [] || !Enabled(d, events[0]) then []
    else Issues(d, events[0]) + Issued(Step(d, events[0]), events[1..])
  }

  /** The notification that event `e` issues. */
  function Issues(d: Deferred, e: Event): seq<Args> {
    if e == Trigger(Progress) && d.winner.None? then [d.clock] else []
  }

  lemma StepIssues(d: Deferred, e: Event)
    requires Enabled(d, e)
    ensures Step(d, e).issued == d.issued + Issues(d, e)
  {
    assert d.issued + [] == d.issued;
  }

  lemma {:induction false} RunIssues(d: Deferred, events: seq<Event>, last: Deferred)
    requires Leads(d, events, last)
    ensures last.issued == d.issued + Issued(d, events)
    decreases |events|
  {
    if events != [] {
      var next := Step(d, events[0]);
      StepIssues(d, events[0]);
      RunIssues(next, events[1..], last);
      Associate(d.issued, Issues(d, events[0]), Issued(next, events[1..]));
    }
  }

  /** Each callback registered by `rs` has been called with the notifications from its first one
      on, in order (with all of them, if `atRest`), and no other function was called. */
  ghost predicate CalledBack(log: seq<Call>, rs: seq<Registration>, begun: seq<Args>, atRest: bool) {
    && (forall k :: 0 <= k < |rs| ==> First(rs[k]) <= |begun| && ArgsOf(log, k) <= begun[First(rs[k])..])
    && (atRest ==> forall k :: 0 <= k < |rs| ==> ArgsOf(log, k) == begun[First(rs[k])..])
    && (forall k :: 0 <= k < |log| && log[k].side == Progress ==>
      log[k].serial < |rs| && log[k].fn == rs[log[k].serial].fn)
  }

  /** On every run: the notifications delivered are the first of those issued before the
      settlement, all others are still queued while nothing is settled, and at rest without a
      settlement there are none.  Each progress callback is called with the last notification
      begun before it was registered and with every later one, once each and in order; in
      particular with none that was issued after the settlement. */
  lemma NotificationsDelivered(events: seq<Event>, d: Deferred)
    requires Leads(Init(), events, d)
    ensures d.begun <= d.issued == Issued(Init(), events)
    ensures d.winner.None? ==> d.progress.stack.Some? && d.begun + d.progress.stack.value == d.issued
    ensures d.winner.None? && Quiet(d) ==> d.begun == d.issued
    ensures d.winner.Some? ==> forall k :: 0 <= k < |d.issued| ==> d.issued[k] < d.winner.value.1
    ensures FnsOf(RegsOf(d.registered, Progress)) == Registered(events, Progress)
    ensures CalledBack(d.log, RegsOf(d.registered, Progress), d.begun, Quiet(d))
  {
    InitInv();
    EveryRunKeepsInv(Init(), events, d);
    RunIssues(Init(), events, d);
    AllRegistered(events, d, Progress);
    ProgressState(d);
  }

  lemma ProgressState(d: Deferred)
    requires Frames(d) && ProgressList(d)
    ensures d.begun <= d.issued
    ensures d.winner.None? ==> d.progress.stack.Some? && d.begun + d.progress.stack.value == d.issued
    ensures d.winner.None? && Quiet(d) ==> d.begun == d.issued
    ensures d.winner.Some? ==> forall k :: 0 <= k < |d.issued| ==> d.issued[k] < d.winner.value.1
    ensures CalledBack(d.log, RegsOf(d.registered, Progress), d.begun, Quiet(d))
  {
    QuietProgress(d);
    var rs := RegsOf(d.registered, Progress);
    forall k | 0 <= k < |rs| ensures First(rs[k]) <= |d.begun| && ArgsOf(d.log, k) <= d.begun[First(rs[k])..] {
      var u := Until(d.begun, Awaits(d.progress, AtHead(d, Progress), k));
      assert d.begun[First(rs[k])..u] == d.begun[First(rs[k])..][..u - First(rs[k])];
    }
  }

  lemma QuietProgress(d: Deferred)
    requires Frames(d) && ProgressList(d)
    ensures Quiet(d) ==> !d.progress.firing && (d.winner.None? ==> d.begun == d.issued)
  {
    if Quiet(d) {
      assert Progress !in d.frames;
      assert ListOf(d, Progress) == d.progress && !d.progress.firing;
      if d.winner.None? {
        assert d.progress.stack.value == [];
      }
    }
  }

  lemma StepBegins(d: Deferred, e: Event)
    requires Inv(d) && Enabled(d, e) && d.winner.Some?
    ensures Step(d, e).begun == d.begun && Step(d, e).issued == d.issued
  {
    match e
    case Trigger(side) => TriggerBegins(d, side);
    case Tick => TickBegins(d);
    case _ =>
  }

  /** A notification after the settlement is neither issued nor begun. */
  lemma TriggerBegins(d: Deferred, side: Side)
    requires ProgressList(d) && Outcome(d) && !d.busy && d.winner.Some?
    ensures Triggers(d, side).begun == d.begun && Triggers(d, side).issued == d.issued
  {
    SettledLocked(d);
    LateFire(d);
  }

  /** A firing that ends after the settlement begins no notification. */
  lemma TickBegins(d: Deferred)
    requires Frames(d) && Outcome(d) && Enabled(d, Tick) && d.winner.Some?
    ensures Step(d, Tick).begun == d.begun && Step(d, Tick).issued == d.issued
  {
    assert Top(d) in d.frames;
    if Top(d) == Progress {
      SettledLocked(d);
    }
  }

  /** A locked progress list takes no more notifications. */
  lemma LateFire(d: Deferred)
    requires ProgressList(d) && d.progress.stack.None?
    ensures FireWith(d.progress, d.clock) == d.progress
  {
  }

  lemma {:induction false} NoneBegins(d: Deferred, events: seq<Event>, last: Deferred)
    requires Inv(d) && Leads(d, events, last) && d.winner.Some?
    ensures last.begun == d.begun && last.issued == d.issued
    decreases |events|
  {
    if events != [] {
      StepBegins(d, events[0]);
      StepInv(d, events[0]);
      StepStays(d, events[0]);
      NoneBegins(Step(d, events[0]), events[1..], last);
    }
  }

  /** Which notifications a settlement leaves undelivered: with no notification being
      delivered when it comes, none; else exactly those issued after that one. */
  lemma SettlementDropsQueue(before: seq<Event>, d: Deferred, side: Side, after: seq<Event>, later: Deferred)
    requires Leads(Init(), before, d) && !d.busy && d.winner.None? && side != Progress
    requires Leads(Step(d, Trigger(side)), after, later)
    ensures later.issued == d.issued == Issued(Init(), before) && later.begun == d.begun
    ensures forall a :: a in later.issued ==> (a in later.begun <==> (d.progress.firing ==> a <= d.progress.data))
  {
    InitInv();
    EveryRunKeepsInv(Init(), before, d);
    RunIssues(Init(), before, d);
    FirstSettlementWins(before, d, side);
    TriggerInv(d, side);
    NoneBegins(Step(d, Trigger(side)), after, later);
    BegunUpTo(d);
  }

  /** While progress takes notifications, those begun are the issued ones up to the one being delivered. */
  lemma BegunUpTo(d: Deferred)
    requires ProgressList(d) && d.progress.stack.Some?
    ensures forall a :: a in d.issued ==> (a in d.begun <==> (d.progress.firing ==> a <= d.progress.data))
  {
    forall a | a in d.issued ensures a in d.begun <==> (d.progress.firing ==> a <= d.progress.data) {
      var k :| 0 <= k < |d.issued| && d.issued[k] == a;
      if d.progress.firing {
        var last := |d.begun| - 1;
        assert d.issued[last] == d.begun[last] == d.progress.data;
        if k <= last {
          assert d.begun[k] == a;
        }
        if a in d.begun {
          var j :| 0 <= j < |d.begun| && d.begun[j] == a;
          assert d.issued[j] == a;
        }
      } else {
        assert d.begun == d.issued;
      }
    }
  }

  lemma {:induction false} LeadsOn(d: Deferred, events: seq<Event>, mid: Deferred, e: Event)
    requires Leads(d, events, mid) && Enabled(mid, e)
    ensures Leads(d, events + [e], Step(mid, e))
    decreases |events|
  {
    if events == [] {
      assert [e][1..] == [] && [] + [e] == [e];
    } else {
      assert (events + [e])[1..] == events[1..] + [e];
      LeadsOn(Step(d, events[0]), events[1..], mid, e);
    }
  }

  /** A progress callback has been called with notification 0 and issues notification 1. */
  lemma NotifiesAgain(fn: nat) returns (d: Deferred)
    ensures Leads(Init(), [Register(Progress, [fn]), Trigger(Progress), Tick, Trigger(Progress)], d)
    ensures !d.busy && d.frames == [Progress] && d.winner.None? && d.clock == 2 && d.issued == [0, 1]
    ensures d.log == [Call(Progress, 0, fn, 0)] && d.done == d.fail == SettlingList()
    ensures var p := d.progress;
      && p.entries == Some([Entry(fn, 0)]) && p.firing && p.index == 0 && p.length == 1
      && p.stack == Some([1]) && p.memory == Some(0)
  {
    PushOne(Callbacks.New(REPEATED), fn);
    var events := [];
    var d0 := Init();
    var d1 := Step(d0, Register(Progress, [fn]));
    assert [] + [Entry(fn, 0)] == [Entry(fn, 0)];
    assert d1.progress == d0.progress.(entries := Some([Entry(fn, 0)]), pushed := 1);
    LeadsOn(d0, events, d0, Register(Progress, [fn]));
    events := events + [Register(Progress, [fn])];
    var d2 := Step(d1, Trigger(Progress));
    LeadsOn(d0, events, d1, Trigger(Progress));
    events := events + [Trigger(Progress)];
    var d3 := Step(d2, Tick);
    assert d3.log == [Call(Progress, 0, fn, 0)] && !d3.busy;
    LeadsOn(d0, events, d2, Tick);
    events := events + [Tick];
    d := Step(d3, Trigger(Progress));
    assert [] + [0] == [0] && [0] + [1] == [0, 1] && [] + [1] == [1];
    LeadsOn(d0, events, d3, Trigger(Progress));
    events := events + [Trigger(Progress)];
    assert events == [Register(Progress, [fn]), Trigger(Progress), Tick, Trigger(Progress)];
  }

  /** A done list with its internal callbacks only. */
  predicate Untouched(l: List) {
    l == Callbacks.New(ONCE).(entries := Some([Entry(0, 0), Entry(1, 1), Entry(2, 2)]), pushed := INTERNALS)
  }

  /** The run of an uncontested settlement without done callbacks: its three internal callbacks and its end. */
  lemma SettlesAlone(from: Deferred, events: seq<Event>, d: Deferred) returns (e: Deferred)
    requires Leads(from, events, d) && !d.busy && d.frames == [Progress] && d.winner.None?
    requires Untouched(d.done) && !d.fail.firing
    requires d.progress.firing && d.progress.memory.Some?
    ensures Leads(from, events + [Trigger(Done), Tick, Tick, Tick, Tick], e)
    ensures !e.busy && e.frames == [Progress] && e.winner == Some((Done, d.clock)) && e.issued == d.issued
    ensures e.log == d.log
    ensures e.progress == d.progress.(stack := None)
  {
    var a := StartsDone(from, events, d);
    var b := InternalTick(from, events + [Trigger(Done)], a);
    var c := InternalTick(from, events + [Trigger(Done)] + [Tick], b);
    var f := InternalTick(from, events + [Trigger(Done)] + [Tick] + [Tick], c);
    e := Step(f, Tick);
    LeadsOn(from, events + [Trigger(Done)] + [Tick] + [Tick] + [Tick], f, Tick);
    assert f.frames[..1] == [Progress];
    assert events + [Trigger(Done)] + [Tick] + [Tick] + [Tick] + [Tick]
      == events + [Trigger(Done), Tick, Tick, Tick, Tick];
  }

  lemma StartsDone(from: Deferred, events: seq<Event>, d: Deferred) returns (a: Deferred)
    requires Leads(from, events, d) && !d.busy && d.frames == [Progress] && d.winner.None? && Untouched(d.done)
    ensures Leads(from, events + [Trigger(Done)], a)
    ensures a.done.entries == Some([Entry(0, 0), Entry(1, 1), Entry(2, 2)])
    ensures a.done.index == 0 && a.done.length == 3 && a.done.stack.None? && a.done.memory.Some?
    ensures a.busy && a.frames == [Progress, Done] && a.progress == d.progress
    ensures a.winner == Some((Done, d.clock)) && a.issued == d.issued && a.log == d.log
  {
    a := Step(d, Trigger(Done));
    LeadsOn(from, events, d, Trigger(Done));
  }

  /** One internal callback of done. */
  lemma InternalTick(from: Deferred, events: seq<Event>, d: Deferred) returns (e: Deferred)
    requires Leads(from, events, d) && d.busy && d.frames == [Progress, Done]
    requires d.done.entries == Some([Entry(0, 0), Entry(1, 1), Entry(2, 2)]) && 0 <= d.done.index < d.done.length == 3
    ensures Leads(from, events + [Tick], e)
    ensures e.busy && e.frames == d.frames && e.done == d.done.(index := d.done.index + 1)
    ensures e.winner == d.winner && e.issued == d.issued && e.log == d.log
    ensures e.progress == if d.done.index == 2 then Lock(d.progress) else d.progress
  {
    e := Step(d, Tick);
    LeadsOn(from, events, d, Tick);
  }

  /** That callback resolves, and everything runs to its end: notification 1 is lost. */
  lemma QueuedNotificationLost(fn: nat)
    ensures var events := [Register(Progress, [fn]), Trigger(Progress), Tick, Trigger(Progress)]
        + [Trigger(Done), Tick, Tick, Tick, Tick] + [Return] + [Tick];
      exists d :: Leads(Init(), events, d) && Quiet(d) && d.winner == Some((Done, 2))
        && d.issued == [0, 1] && d.log == [Call(Progress, 0, fn, 0)]
  {
    var d := NotifiesAgain(fn);
    var events := [Register(Progress, [fn]), Trigger(Progress), Tick, Trigger(Progress)];
    SettlingEntries();
    var e := SettlesAlone(Init(), events, d);
    events := events + [Trigger(Done), Tick, Tick, Tick, Tick];
    var f := Step(e, Return);
    LeadsOn(Init(), events, e, Return);
    assert f.progress.index == 1 && f.progress.length == 1;
    var g := Step(f, Tick);
    LeadsOn(Init(), events + [Return], f, Tick);
    assert g.frames == [] && !g.busy;
  }

  /** The state is left at most once, and the first settlement stands. */
  lemma SettlesOnce(before: seq<Event>, d: Deferred, after: seq<Event>, later: Deferred)
    requires Leads(Init(), before, d) && Leads(d, after, later)
    ensures d.state != Pending ==> later.state == d.state
    ensures d.winner.Some? ==> later.winner == d.winner
  {
    InitInv();
    EveryRunKeepsInv(Init(), before, d);
    StaysSettled(d, after, later);
  }

  lemma {:induction false} StaysSettled(d: Deferred, events: seq<Event>, later: Deferred)
    requires Inv(d) && Leads(d, events, later)
    ensures d.state != Pending ==> later.state == d.state
    ensures d.winner.Some? ==> later.winner == d.winner
    decreases |events|
  {
    if events != [] {
      var e := Step(d, events[0]);
      StepInv(d, events[0]);
      StaysSettled(e, events[1..], later);
      StepStays(d, events[0]);
    }
  }

  lemma StepStays(d: Deferred, e: Event)
    requires Frames(d) && Outcome(d) && Enabled(d, e)
    ensures d.state != Pending ==> Step(d, e).state == d.state
    ensures d.winner.Some? ==> Step(d, e).winner == d.winner
  {
    match e
    case Register(side, fns) => assert Registers(d, side, fns).state == d.state;
    case Trigger(side) => TriggerStays(d, side);
    case Return =>
    case Tick => TickStays(d);
  }

  lemma TriggerStays(d: Deferred, side: Side)
    requires !d.busy
    ensures Triggers(d, side).state == d.state
    ensures d.winner.Some? ==> Triggers(d, side).winner == d.winner
  {
  }

  lemma TickStays(d: Deferred)
    requires Frames(d) && Outcome(d) && Enabled(d, Tick)
    ensures d.state != Pending ==> Step(d, Tick).state == d.state
    ensures Step(d, Tick).winner == d.winner
  {
    if d.state != Pending && InternalNext(d) {
      InternalStays(d);
    }
  }

  lemma InternalStays(d: Deferred)
    requires Frames(d) && Outcome(d) && InternalNext(d) && d.state != Pending
    ensures RunInternal(d).state == d.state
  {
    assert Top(d) in d.frames;
    var (side, args) := d.winner.value;
    assert Won(side, args, ListOf(d, side), Regs(d, side), AtHead(d, side), LogOf(d.log, side),
               d.state, ListOf(d, Other(side)), Regs(d, Other(side)), d.progress.stack.None?);
    TopIsProgress(d);
    NextEntry(ListOf(d, side), Regs(d, side), args);
    InternalParts(d);
  }
}
