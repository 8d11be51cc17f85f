// jQuery.Callbacks: a list that may be changed by the very callbacks it is
// firing.  `List` holds the closure variables; one firing is stepped through
// call by call, and between two steps the running callback may do anything.

module Callbacks {
  import opened Wrappers
  import opened Sequences

  /** The arguments of one fire call. */
  type Args = nat

  /** `serial` numbers the pushes, so that adding a function twice gives two entries. */
  datatype Entry = Entry(fn: nat, serial: nat)

  datatype Options = Options(once: bool, memory: bool, unique: bool, stopOnFalse: bool)

  datatype List = List(
    options: Options,
    entries: Option<seq<Entry>>,
    stack: Option<seq<Args>>,
    memory: Option<Args>,
    fired: bool,
    firing: bool,
    data: Args,
    index: int,
    length: int,
    start: nat,
    pushed: nat)

  function New(options: Options): List {
    List(options, Some([]), if options.once then None else Some([]), None, false, false, 0, 0, 0, 0, 0)
  }

  // ----- The operations -----------------------------------------------------

  /** The head of `fire`, up to the loop. */
  function Fire(l: List, data: Args): List
    requires l.entries.Some?
  {
    l.(memory := if l.options.memory then Some(data) else None, fired := true, data := data,
       index := l.start, start := 0, length := |l.entries.value|, firing := true)
  }

  function Disable(l: List): List {
    l.(entries := None, stack := None, memory := None)
  }

  function Lock(l: List): List {
    if l.memory.None? then Disable(l) else l.(stack := None)
  }

  /** The loop condition: is there another call to make? */
  predicate Due(l: List) {
    l.entries.Some? && l.index < l.length
  }

  /** What follows the loop. */
  function Finish(l: List): List {
    var f := l.(firing := false);
    if f.entries.None? then f
    else if f.stack.Some? then
      if f.stack.value == [] then f else Fire(f.(stack := Some(f.stack.value[1..])), f.stack.value[0])
    else if f.memory.Some? then f.(entries := Some([]))
    else Disable(f)
  }

  function Has(es: seq<Entry>, fn: nat): bool {
    exists k :: 0 <= k < |es| && es[k].fn == fn
  }

  function Push(l: List, fn: nat): List {
    if l.entries.None? || (l.options.unique && Has(l.entries.value, fn)) then l
    else l.(entries := Some(l.entries.value + [Entry(fn, l.pushed)]), pushed := l.pushed + 1)
  }

  function PushAll(l: List, fns: seq<nat>): (r: List)
    ensures r.entries.Some? == l.entries.Some?
    ensures r == l.(entries := r.entries, pushed := r.pushed)
    ensures l.entries.Some? ==> l.entries.value <= r.entries.value
  {
    if fns == [] then l else Push(PushAll(l, fns[..|fns| - 1]), fns[|fns| - 1])
  }

  function Add(l: List, fns: seq<nat>): List {
    if l.entries.None? then l
    else
      var p := PushAll(l, fns);
      if p.firing then p.(length := |p.entries.value|)
      else if p.memory.Some? then Fire(p.(start := |l.entries.value|), p.memory.value)
      else p
  }

  function FireWith(l: List, data: Args): List {
    if l.entries.None? || (l.fired && l.stack.None?) then l
    else if l.firing then
      if l.stack.Some? then l.(stack := Some(l.stack.value + [data])) else l
    else Fire(l, data)
  }

  /** The running callback returns. */
  function Returned(l: List, isFalse: bool): List {
    if isFalse && l.options.stopOnFalse then Finish(l.(memory := None)) else l.(index := l.index + 1)
  }

  function Without(es: seq<Entry>, fns: set<nat>): (r: seq<Entry>)
    ensures |r| <= |es|
    ensures forall k :: 0 <= k < |r| ==> r[k] in es && r[k].fn !in fns
  {
    if es == [] then []
    else Without(es[..|es| - 1], fns) + if es[|es| - 1].fn in fns then [] else [es[|es| - 1]]
  }

  lemma {:induction false} WithoutConcat(a: seq<Entry>, b: seq<Entry>, fns: set<nat>)
    ensures Without(a + b, fns) == Without(a, fns) + Without(b, fns)
    decreases |b|
  {
    if b == [] {
      assert a + b == a;
    } else {
      assert (a + b)[..|a + b| - 1] == a + b[..|b| - 1];
      WithoutConcat(a, b[..|b| - 1], fns);
    }
  }

  lemma {:induction false} WithoutTwice(es: seq<Entry>, f: set<nat>, g: set<nat>)
    ensures Without(Without(es, f), g) == Without(es, f + g)
    decreases |es|
  {
    if es != [] {
      var init, last := es[..|es| - 1], es[|es| - 1];
      WithoutTwice(init, f, g);
      WithoutConcat(Without(init, f), if last.fn in f then [] else [last], g);
      assert Without([last], g) == (if last.fn in g then [] else [last]) by {
        assert [last][..0] == [];
      }
    }
  }

  lemma {:induction false} WithoutNone(es: seq<Entry>, fns: set<nat>)
    requires forall k :: 0 <= k < |es| ==> es[k].fn !in fns
    ensures Without(es, fns) == es
    decreases |es|
  {
    if es != [] {
      WithoutNone(es[..|es| - 1], fns);
      assert es == es[..|es| - 1] + [es[|es| - 1]];
    }
  }

  // ----- Queues hidden in the indexes ---------------------------------------

  /** While firing: `firingLength` is the length of the list, and the call being made is in it or was removed. */
  predicate Sane(l: List) {
    && l.start == 0
    && (l.firing && l.entries.Some? ==> l.length == |l.entries.value| && -1 <= l.index <= l.length)
    && (!l.firing && l.stack.Some? ==> l.stack.value == [])
    && (l.entries.None? ==> l.stack.None? && l.memory.None?)
  }

  /** Between two steps: no firing, or a call being made. */
  predicate Settled(l: List) {
    Sane(l) && (l.firing && l.entries.Some? ==> l.index < l.length)
  }

  /** The calls still to come in this firing, after the one being made. */
  function Waiting(l: List): seq<Entry>
    requires Sane(l)
  {
    if !l.firing || l.entries.None? || l.index >= l.length then [] else l.entries.value[l.index + 1..]
  }

  /** The entries at or before the call being made. */
  function Passed(l: List): seq<Entry>
    requires Sane(l)
  {
    if !l.firing || l.entries.None? || l.index >= l.length then [] else l.entries.value[..l.index + 1]
  }

  /** `remove`, by what it leaves on either side of the call being made. */
  function Remove(l: List, fns: set<nat>): List
    requires Sane(l)
  {
    if l.entries.None? then l
    else
      var es := Without(l.entries.value, fns);
      if l.firing then l.(entries := Some(es), index := |Without(Passed(l), fns)| - 1, length := |es|)
      else l.(entries := Some(es))
  }

  /** The callbacks' own object: each method changes the variables as the source does. */
  class CallbackList {
    const options: Options
    var list: Option<seq<Entry>>
    var stack: Option<seq<Args>>
    var memory: Option<Args>
    var fired: bool
    var firing: bool
    var data: Args
    var firingIndex: int
    var firingLength: int
    var firingStart: nat
    var pushed: nat

    constructor (options: Options)
      ensures View() == New(options)
    {
      this.options := options;
      list := Some([]);
      stack := if options.once then None else Some([]);
      memory, fired, firing := None, false, false;
      data, firingIndex, firingLength, firingStart, pushed := 0, 0, 0, 0, 0;
    }

    function View(): List
      reads this
    {
      List(options, list, stack, memory, fired, firing, data, firingIndex, firingLength, firingStart, pushed)
    }

    method StartFire(args: Args)
      requires list.Some?
      modifies this
      ensures View() == Fire(old(View()), args)
    {
      memory := if options.memory then Some(args) else None;
      fired := true;
      data := args;
      firingIndex := firingStart;
      firingStart := 0;
      firingLength := |list.value|;
      firing := true;
    }

    method EndFire()
      modifies this
      ensures View() == Finish(old(View()))
    {
      firing := false;
      if list.Some? {
        if stack.Some? {
          if stack.value != [] {
            var next := stack.value[0];
            stack := Some(stack.value[1..]);
            StartFire(next);
          }
        } else if memory.Some? {
          list := Some([]);
        } else {
          DisableList();
        }
      }
    }

    method Return(isFalse: bool)
      modifies this
      ensures View() == Returned(old(View()), isFalse)
    {
      if isFalse && options.stopOnFalse {
        memory := None;
        EndFire();
      } else {
        firingIndex := firingIndex + 1;
      }
    }

    method DisableList()
      modifies this
      ensures View() == Disable(old(View()))
    {
      list, stack, memory := None, None, None;
    }

    method LockList()
      modifies this
      ensures View() == Lock(old(View()))
    {
      stack := None;
      if memory.None? {
        DisableList();
      }
    }

    /** A fire is ignored by a disabled list and by one that has fired and takes no more;
        during a firing it is queued behind the others; else it begins a firing of the
        whole list. */
    method FireListWith(args: Args)
      requires Sane(View())
      modifies this
      ensures View() == FireWith(old(View()), args)
      ensures old(list.None? || (fired && stack.None?)) ==> View() == old(View())
      ensures old(list.Some? && firing && stack.Some?) ==>
        stack == Some(old(stack).value + [args]) && View().(stack := old(stack)) == old(View())
      ensures old(list.Some? && !firing && (!fired || stack.Some?)) ==>
        && firing && fired && data == args && firingIndex == 0 && firingLength == |list.value|
        && list == old(list) && stack == old(stack) && memory == if options.memory then Some(args) else None
    {
      if list.Some? && (!fired || stack.Some?) {
        if firing {
          if stack.Some? {
            stack := Some(stack.value + [args]);
          }
        } else {
          StartFire(args);
        }
      }
    }

    method HasFunction(fn: nat) returns (r: bool)
      requires list.Some?
      ensures r <==> Has(list.value, fn)
    {
      var i := IndexFrom(fn, 0);
      r := i >= 0;
    }

    /** jQuery.inArray(fn, list, i) */
    method IndexFrom(fn: nat, i: nat) returns (r: int)
      requires list.Some?
      ensures r >= 0 ==> i <= r < |list.value| && list.value[r].fn == fn
      ensures r >= 0 ==> forall k :: i <= k < r ==> list.value[k].fn != fn
      ensures r < 0 ==> forall k :: i <= k < |list.value| ==> list.value[k].fn != fn
    {
      r := i;
      while r < |list.value|
        invariant i <= r
        invariant forall k :: i <= k < r && k < |list.value| ==> list.value[k].fn != fn
      {
        if list.value[r].fn == fn {
          return;
        }
        r := r + 1;
      }
      r := -1;
    }

    method AddAll(fns: seq<nat>)
      modifies this
      ensures View() == Add(old(View()), fns)
    {
      if list.None? {
        return;
      }
      var start := |list.value|;
      for k := 0 to |fns|
        invariant list.Some? && View() == PushAll(old(View()), fns[..k])
      {
        assert fns[..k + 1][..k] == fns[..k];
        var has := HasFunction(fns[k]);
        if !options.unique || !has {
          list := Some(list.value + [Entry(fns[k], pushed)]);
          pushed := pushed + 1;
        }
      }
      assert fns[..|fns|] == fns;
      if firing {
        firingLength := |list.value|;
      } else if memory.Some? {
        firingStart := start;
        StartFire(memory.value);
      }
    }

    ghost function Cut(): int
      reads this
    {
      CutOf(View())
    }

    ghost predicate Steady()
      reads this
    {
      Settled(View())
    }

    /** Splices out every occurrence of every argument.  Whatever is removed, the
        entries already passed stay passed and those waiting stay waiting. */
    method RemoveAll(fns: seq<nat>)
      requires Steady()
      modifies this`list, this`firingLength, this`firingIndex
      ensures Steady()
      ensures list.Some? == old(list.Some?)
      ensures list.Some? ==> list.value == Without(old(list).value, Fns(fns))
      ensures Waiting(View()) == Without(old(Waiting(View())), Fns(fns))
      ensures Passed(View()) == Without(old(Passed(View())), Fns(fns))
      ensures View() == Remove(old(View()), Fns(fns))
    {
      if list.Some? {
        ghost var l := View();
        RemoveEach(fns);
        CutsRemove(l, View(), Fns(fns));
      }
    }

    method RemoveEach(fns: seq<nat>)
      requires list.Some? && Steady()
      modifies this`list, this`firingLength, this`firingIndex
      ensures list.Some? && Steady()
      ensures list.value[..Cut()] == Without(old(list).value[..old(Cut())], Fns(fns))
      ensures list.value[Cut()..] == Without(old(list).value[old(Cut())..], Fns(fns))
      ensures !firing ==> firingIndex == old(firingIndex) && firingLength == old(firingLength)
    {
      ghost var passed, waiting := list.value[..Cut()], list.value[Cut()..];
      assert Fns(fns[..0]) == {};
      WithoutNone(passed, {});
      WithoutNone(waiting, {});
      for k := 0 to |fns|
        invariant list.Some? && Steady()
        invariant list.value[..Cut()] == Without(passed, Fns(fns[..k]))
        invariant list.value[Cut()..] == Without(waiting, Fns(fns[..k]))
        invariant !firing ==> firingIndex == old(firingIndex) && firingLength == old(firingLength)
      {
        WithoutTwice(passed, Fns(fns[..k]), {fns[k]});
        WithoutTwice(waiting, Fns(fns[..k]), {fns[k]});
        FnsNext(fns, k);
        RemoveOne(fns[k]);
      }
      assert fns[..|fns|] == fns;
    }

    /** `list.splice(index, 1)` and the firing indexes that follow it. */
    method SpliceAt(index: nat, ghost fn: nat)
      requires list.Some? && Steady() && index < |list.value| && list.value[index].fn == fn
      modifies this`list, this`firingLength, this`firingIndex
      ensures list.Some? && Steady()
      ensures list.value == old(list).value[..index] + old(list).value[index + 1..]
      ensures Without(list.value[..Cut()], {fn}) == Without(old(list).value[..old(Cut())], {fn})
      ensures Without(list.value[Cut()..], {fn}) == Without(old(list).value[old(Cut())..], {fn})
      ensures !firing ==> firingIndex == old(firingIndex) && firingLength == old(firingLength)
    {
      SpliceSides(list.value, Cut(), index, fn);
      list := Some(list.value[..index] + list.value[index + 1..]);
      if firing {
        if index <= firingLength {
          firingLength := firingLength - 1;
        }
        if index <= firingIndex {
          firingIndex := firingIndex - 1;
        }
      }
    }

    method RemoveOne(fn: nat)
      requires list.Some? && Steady()
      modifies this`list, this`firingLength, this`firingIndex
      ensures list.Some? && Steady()
      ensures list.value[..Cut()] == Without(old(list).value[..old(Cut())], {fn})
      ensures list.value[Cut()..] == Without(old(list).value[old(Cut())..], {fn})
      ensures !firing ==> firingIndex == old(firingIndex) && firingLength == old(firingLength)
    {
      var from := 0;
      while true
        invariant 0 <= from && list.Some? && Steady()
        invariant forall k :: 0 <= k < from && k < |list.value| ==> list.value[k].fn != fn
        invariant Without(list.value[..Cut()], {fn}) == Without(old(list).value[..old(Cut())], {fn})
        invariant Without(list.value[Cut()..], {fn}) == Without(old(list).value[old(Cut())..], {fn})
        invariant !firing ==> firingIndex == old(firingIndex) && firingLength == old(firingLength)
        decreases |list.value|
      {
        var index := IndexFrom(fn, from);
        if index < 0 {
          break;
        }
        SpliceAt(index, fn);
        from := index;
      }
      WithoutNone(list.value[..Cut()], {fn});
      WithoutNone(list.value[Cut()..], {fn});
    }
  }

  /** Where the entries passed in this firing end. */
  function CutOf(l: List): int {
    if l.firing then l.index + 1 else 0
  }

  /** Filtering both sides of the cut is what `Remove` does. */
  lemma CutsRemove(l: List, m: List, fns: set<nat>)
    requires Settled(l) && Settled(m) && l.entries.Some? && m.entries.Some?
    requires m == l.(entries := m.entries, index := m.index, length := m.length)
    requires !l.firing ==> m.index == l.index && m.length == l.length
    requires m.entries.value[..CutOf(m)] == Without(l.entries.value[..CutOf(l)], fns)
    requires m.entries.value[CutOf(m)..] == Without(l.entries.value[CutOf(l)..], fns)
    ensures m.entries.value == Without(l.entries.value, fns)
    ensures Waiting(m) == Without(Waiting(l), fns) && Passed(m) == Without(Passed(l), fns)
    ensures m == Remove(l, fns)
  {
    var es, c := l.entries.value, CutOf(l);
    WithoutConcat(es[..c], es[c..], fns);
    assert es == es[..c] + es[c..];
    assert m.entries.value == m.entries.value[..CutOf(m)] + m.entries.value[CutOf(m)..];
  }

  function Fns(s: seq<nat>): set<nat> {
    set f | f in s
  }

  lemma FnsNext(fns: seq<nat>, k: nat)
    requires k < |fns|
    ensures Fns(fns[..k + 1]) == Fns(fns[..k]) + {fns[k]}
  {
    assert fns[..k + 1] == fns[..k] + [fns[k]];
  }

  lemma WithoutSingle(e: Entry, fns: set<nat>)
    ensures Without([e], fns) == if e.fn in fns then [] else [e]
  {
    assert [e][..0] == [];
  }

  /** Taking out an entry that would be filtered anyway. */
  lemma SpliceOne(es: seq<Entry>, i: nat, fn: nat)
    requires i < |es| && es[i].fn == fn
    ensures Without(es[..i] + es[i + 1..], {fn}) == Without(es, {fn})
  {
    var a, x, b := es[..i], [es[i]], es[i + 1..];
    assert es == a + (x + b);
    WithoutConcat(a, x + b, {fn});
    WithoutConcat(x, b, {fn});
    WithoutSingle(es[i], {fn});
    assert Without(x, {fn}) + Without(b, {fn}) == Without(b, {fn});
    WithoutConcat(a, b, {fn});
  }

  /** The same, seen from a cut at `c`: the cut moves with the entries before it. */
  lemma SpliceSides(es: seq<Entry>, c: nat, i: nat, fn: nat)
    requires i < |es| && c <= |es| && es[i].fn == fn
    ensures var rest := es[..i] + es[i + 1..]; var d := if i < c then c - 1 else c;
      && Without(rest[..d], {fn}) == Without(es[..c], {fn})
      && Without(rest[d..], {fn}) == Without(es[c..], {fn})
  {
    if i < c {
      SpliceOne(es[..c], i, fn);
      TakeOutBefore(es, i, c);
    } else {
      SpliceOne(es[c..], i - c, fn);
      TakeOutAfter(es, i, c);
    }
  }

  // ----- Every run of a list -----------------------------------------------------

  datatype Event =
    | AddEvent(fns: seq<nat>)
    | RemoveEvent(gone: set<nat>)
    | FireEvent(args: Args)
    | LockEvent
    | DisableEvent
    | ReturnEvent(isFalse: bool)

  /** `Completed` when the loop ran to its end, `CutShort` when the list was
      disabled meanwhile or a callback stopped it. */
  datatype Phase = Running | Completed | CutShort

  /** One firing: `offered` are the entries it is to call, those on the list when it began
      and those accepted since; `dropped` numbers the entries removed before their turn;
      `again` says that `add` began it, for new entries and with remembered arguments. */
  datatype Firing = Firing(data: Args, again: bool, called: seq<Entry>, offered: seq<Entry>, dropped: set<nat>,
                           phase: Phase)

  /** A list in use: `now` is the firing in progress, whose callback may do anything. */
  datatype Machine = Machine(list: List, now: Option<Firing>, past: seq<Firing>)

  function Start(options: Options): Machine {
    Machine(New(options), None, [])
  }

  /** The functions among `fns` that a list with entries `on` accepts: all of them, or under
      `unique` the first occurrences of those it does not have. */
  function Accepted(unique: bool, on: seq<Entry>, fns: seq<nat>): seq<nat> {
    if fns == [] then []
    else
      var r, fn := Accepted(unique, on, fns[..|fns| - 1]), fns[|fns| - 1];
      if unique && (fn in r || Has(on, fn)) then r else r + [fn]
  }

  /** Entries for `fns`, numbered from `from` on. */
  function Entries(fns: seq<nat>, from: nat): seq<Entry> {
    seq(|fns|, k requires 0 <= k < |fns| => Entry(fns[k], from + k))
  }

  /** The entries that were not dropped. */
  function Kept(es: seq<Entry>, dropped: set<nat>): seq<Entry> {
    if es == [] then []
    else Kept(es[..|es| - 1], dropped) + if es[|es| - 1].serial in dropped then [] else [es[|es| - 1]]
  }

  function Queue(l: List): nat {
    if l.stack.Some? then |l.stack.value| else 0
  }

  /** At the loop condition: make the next call, or end the firing and begin the next one queued. */
  function Loop(l: List, f: Firing, past: seq<Firing>): Machine
    requires l.entries.Some? ==> 0 <= l.index && l.length == |l.entries.value|
    decreases Queue(l)
  {
    if Due(l) then Machine(l, Some(f.(called := f.called + [l.entries.value[l.index]])), past)
    else
      var m, over := Finish(l), past + [f.(phase := if l.entries.Some? then Completed else CutShort)];
      if m.firing then Loop(m, Firing(m.data, false, [], m.entries.value, {}, Running), over)
      else Machine(m, None, over)
  }

  /** Between two steps. */
  predicate Ready(m: Machine) {
    Settled(m.list) && (m.now.Some? <==> m.list.firing)
  }

  function Adds(m: Machine, fns: seq<nat>): Machine
    requires Ready(m)
  {
    var l, a := m.list, Add(m.list, fns);
    if l.entries.None? then m
    else
      var more := Entries(Accepted(l.options.unique, l.entries.value, fns), l.pushed);
      if m.now.Some? then Machine(a, Some(m.now.value.(offered := m.now.value.offered + more)), m.past)
      else if a.firing then Loop(a, Firing(l.memory.value, true, [], more, {}, Running), m.past)
      else m.(list := a)
  }

  function Removes(m: Machine, gone: set<nat>): Machine
    requires Ready(m)
  {
    m.(list := Remove(m.list, gone), now := if m.now.Some? then Some(Dropping(m.now.value, gone)) else None)
  }

  function Asks(m: Machine, args: Args): Machine
    requires Ready(m)
  {
    var l, a := m.list, FireWith(m.list, args);
    if m.now.None? && a.firing then Loop(a, Firing(args, false, [], l.entries.value, {}, Running), m.past)
    else m.(list := a)
  }

  /** The running callback stops its firing. */
  function Stops(m: Machine): Machine
    requires Ready(m) && m.now.Some?
  {
    var n, over := Finish(m.list.(memory := None)), m.past + [m.now.value.(phase := CutShort)];
    if n.firing then Loop(n, Firing(n.data, false, [], n.entries.value, {}, Running), over) else Machine(n, None, over)
  }

  function Returns(m: Machine, isFalse: bool): Machine
    requires Ready(m)
  {
    if m.now.None? then m
    else if isFalse && m.list.options.stopOnFalse then Stops(m)
    else Loop(Returned(m.list, isFalse), m.now.value, m.past)
  }

  function Step(m: Machine, e: Event): Machine
    requires Ready(m)
  {
    match e
    case AddEvent(fns) => Adds(m, fns)
    case RemoveEvent(gone) => Removes(m, gone)
    case FireEvent(args) => Asks(m, args)
    case LockEvent => m.(list := Lock(m.list))
    case DisableEvent => m.(list := Disable(m.list))
    case ReturnEvent(isFalse) => Returns(m, isFalse)
  }

  /** Entries of these functions that were offered and have not had their turn are dropped. */
  function Dropping(f: Firing, gone: set<nat>): Firing {
    f.(dropped := f.dropped + set e | e in f.offered && e !in f.called && e.fn in gone :: e.serial)
  }

  ghost predicate Ascending(es: seq<Entry>) {
    forall i, k :: 0 <= i < k < |es| ==> es[i].serial < es[k].serial
  }

  /** A list whose entries stand in the order they were pushed. */
  ghost predicate Numbered(l: List) {
    l.entries.Some? ==>
      Ascending(l.entries.value) && forall k :: 0 <= k < |l.entries.value| ==> l.entries.value[k].serial < l.pushed
  }

  /** The calls made and those waiting are the offered entries that were not dropped, in order. */
  ghost predicate Accounted(l: List, f: Firing, waiting: seq<Entry>) {
    && f.phase.Running?
    && Ascending(f.offered)
    && (forall k :: 0 <= k < |f.offered| ==> f.offered[k].serial < l.pushed)
    && (forall s :: s in f.dropped ==> s < l.pushed)
    && (l.entries.Some? ==> f.called + waiting == Kept(f.offered, f.dropped))
    && f.called <= Kept(f.offered, f.dropped)
  }

  /** A firing that is over called the first of the offered entries that were not dropped, in
      order, and if its loop ran to the end all of them. */
  ghost predicate Over(f: Firing) {
    && !f.phase.Running?
    && Ascending(f.offered)
    && f.called <= Kept(f.offered, f.dropped)
    && (f.phase.Completed? ==> f.called == Kept(f.offered, f.dropped))
  }

  ghost predicate AllOver(past: seq<Firing>) {
    forall k :: 0 <= k < |past| ==> Over(past[k])
  }

  ghost predicate Good(m: Machine) {
    && Settled(m.list) && Numbered(m.list) && (m.list.memory.Some? || m.list.firing ==> m.list.fired)
    && (m.now.Some? <==> m.list.firing)
    && (m.now.Some? ==> Accounted(m.list, m.now.value, Waiting(m.list)))
    && AllOver(m.past)
  }

  // Accepting and dropping ---------------------------------------------------------

  lemma {:induction false} AcceptedMeaning(unique: bool, on: seq<Entry>, fns: seq<nat>)
    ensures !unique ==> Accepted(unique, on, fns) == fns
    ensures unique ==> forall fn :: fn in Accepted(unique, on, fns) <==> fn in fns && !Has(on, fn)
    ensures unique ==> forall i, k :: 0 <= i < k < |Accepted(unique, on, fns)| ==>
      Accepted(unique, on, fns)[i] != Accepted(unique, on, fns)[k]
    decreases |fns|
  {
    if fns != [] {
      AcceptedMeaning(unique, on, fns[..|fns| - 1]);
      assert fns == fns[..|fns| - 1] + [fns[|fns| - 1]];
    }
  }

  lemma HasMore(on: seq<Entry>, fns: seq<nat>, from: nat, fn: nat)
    ensures Has(on + Entries(fns, from), fn) <==> Has(on, fn) || fn in fns
  {
    var es, more := on + Entries(fns, from), Entries(fns, from);
    if Has(on, fn) {
      var k :| 0 <= k < |on| && on[k].fn == fn;
      assert es[k].fn == fn;
    }
    if fn in fns {
      var k :| 0 <= k < |fns| && fns[k] == fn;
      assert es[|on| + k].fn == fn;
    }
  }

  /** What `add` pushes is what the list accepts. */
  lemma {:induction false} PushAllAccepts(l: List, fns: seq<nat>)
    requires l.entries.Some?
    ensures var r := Accepted(l.options.unique, l.entries.value, fns); var p := PushAll(l, fns);
      p.entries.value == l.entries.value + Entries(r, l.pushed) && p.pushed == l.pushed + |r|
    decreases |fns|
  {
    if fns == [] {
      assert Entries([], l.pushed) == [];
    } else {
      var init, fn := fns[..|fns| - 1], fns[|fns| - 1];
      PushAllAccepts(l, init);
      var r := Accepted(l.options.unique, l.entries.value, init);
      HasMore(l.entries.value, r, l.pushed, fn);
      assert Entries(r + [fn], l.pushed) == Entries(r, l.pushed) + [Entry(fn, l.pushed + |r|)];
    }
  }

  lemma {:induction false} KeptConcat(a: seq<Entry>, b: seq<Entry>, dropped: set<nat>)
    ensures Kept(a + b, dropped) == Kept(a, dropped) + Kept(b, dropped)
    decreases |b|
  {
    if b == [] {
      assert a + b == a;
    } else {
      assert (a + b)[..|a + b| - 1] == a + b[..|b| - 1];
      KeptConcat(a, b[..|b| - 1], dropped);
    }
  }

  lemma {:induction false} KeptAll(es: seq<Entry>, dropped: set<nat>)
    requires forall k :: 0 <= k < |es| ==> es[k].serial !in dropped
    ensures Kept(es, dropped) == es
  {
    if es != [] {
      KeptAll(es[..|es| - 1], dropped);
    }
  }

  lemma KeptOne(e: Entry, dropped: set<nat>)
    ensures Kept([e], dropped) == if e.serial in dropped then [] else [e]
  {
    assert [e][..0] == [];
  }

  lemma {:induction false} KeptTwice(es: seq<Entry>, d: set<nat>, g: set<nat>)
    ensures Kept(Kept(es, d), g) == Kept(es, d + g)
  {
    if es != [] {
      var init, last := es[..|es| - 1], es[|es| - 1];
      KeptTwice(init, d, g);
      KeptConcat(Kept(init, d), if last.serial in d then [] else [last], g);
      KeptOne(last, g);
    }
  }

  lemma {:induction false} KeptMember(es: seq<Entry>, dropped: set<nat>, e: Entry)
    ensures e in Kept(es, dropped) <==> e in es && e.serial !in dropped
  {
    if es != [] {
      KeptMember(es[..|es| - 1], dropped, e);
      assert es == es[..|es| - 1] + [es[|es| - 1]];
    }
  }

  lemma {:induction false} KeptAscending(es: seq<Entry>, dropped: set<nat>)
    requires Ascending(es)
    ensures Ascending(Kept(es, dropped))
  {
    if es != [] {
      var init, last := es[..|es| - 1], es[|es| - 1];
      KeptAscending(init, dropped);
      var w := Kept(init, dropped);
      forall i | 0 <= i < |w| ensures w[i].serial < last.serial {
        KeptMember(init, dropped, w[i]);
        var k :| 0 <= k < |init| && init[k] == w[i];
        assert es[k].serial < es[|es| - 1].serial;
      }
    }
  }

  /** Dropping by number what filtering drops by function. */
  lemma {:induction false} KeptIsWithout(es: seq<Entry>, numbers: set<nat>, gone: set<nat>)
    requires forall k :: 0 <= k < |es| ==> (es[k].serial in numbers <==> es[k].fn in gone)
    ensures Kept(es, numbers) == Without(es, gone)
  {
    if es != [] {
      KeptIsWithout(es[..|es| - 1], numbers, gone);
    }
  }

  lemma {:induction false} WithoutAscending(es: seq<Entry>, fns: set<nat>)
    requires Ascending(es)
    ensures Ascending(Without(es, fns))
    decreases |es|
  {
    if es != [] {
      var init, last := es[..|es| - 1], es[|es| - 1];
      WithoutAscending(init, fns);
      var w := Without(init, fns);
      forall i | 0 <= i < |w| ensures w[i].serial < last.serial {
        var k :| 0 <= k < |init| && init[k] == w[i];
        assert es[k].serial < es[|es| - 1].serial;
      }
    }
  }

  // One step at a time ----------------------------------------------------------------

  /** At the loop condition with a firing in good order. */
  ghost predicate AtLoop(l: List, f: Firing) {
    && l.firing && l.fired && l.start == 0 && Numbered(l)
    && (l.entries.None? ==> l.stack.None? && l.memory.None?)
    && (l.entries.Some? ==> 0 <= l.index <= l.length == |l.entries.value|)
    && Accounted(l, f, if l.entries.Some? then l.entries.value[l.index..] else [])
  }

  lemma FreshAtLoop(l: List, data: Args)
    requires l.entries.Some? && l.start == 0 && Numbered(l)
    ensures AtLoop(Fire(l, data), Firing(data, false, [], l.entries.value, {}, Running))
  {
    KeptAll(l.entries.value, {});
    assert l.entries.value[0..] == l.entries.value;
  }

  /** After a firing the next of the queue is in good order. */
  lemma FinishedAtLoop(l: List)
    requires l.start == 0 && Numbered(l) && Finish(l).firing
    ensures var m := Finish(l); l.entries.Some? && AtLoop(m, Firing(m.data, false, [], m.entries.value, {}, Running))
  {
    FreshAtLoop(l.(firing := false, stack := Some(l.stack.value[1..])), l.stack.value[0]);
  }

  /** Or the list is at rest. */
  lemma FinishedAtRest(l: List, past: seq<Firing>)
    requires l.start == 0 && Numbered(l) && l.fired && !Finish(l).firing && AllOver(past)
    requires l.entries.None? ==> l.stack.None? && l.memory.None?
    ensures Good(Machine(Finish(l), None, past))
  {
  }

  lemma {:induction false} LoopGood(l: List, f: Firing, past: seq<Firing>)
    requires AtLoop(l, f) && AllOver(past)
    ensures Good(Loop(l, f, past))
    decreases Queue(l)
  {
    if Due(l) {
      var es := l.entries.value;
      assert es[l.index..] == [es[l.index]] + es[l.index + 1..];
      assert f.called + es[l.index..] == f.called + [es[l.index]] + es[l.index + 1..];
    } else {
      var m, over := Finish(l), past + [f.(phase := if l.entries.Some? then Completed else CutShort)];
      assert Over(over[|past|]);
      if m.firing {
        FinishedAtLoop(l);
        LoopGood(m, Firing(m.data, false, [], m.entries.value, {}, Running), over);
      } else {
        FinishedAtRest(l, over);
      }
    }
  }

  lemma EntriesAscending(fns: seq<nat>, from: nat)
    ensures Ascending(Entries(fns, from))
    ensures forall k :: 0 <= k < |fns| ==> from <= Entries(fns, from)[k].serial < from + |fns|
  {
  }

  /** Entries accepted during a firing are offered and wait. */
  lemma AddAccounted(l: List, f: Firing, waiting: seq<Entry>, a: List, more: seq<Entry>)
    requires l.entries.Some? && a.entries.Some? && Accounted(l, f, waiting) && Ascending(more) && l.pushed <= a.pushed
    requires forall k :: 0 <= k < |more| ==> l.pushed <= more[k].serial < a.pushed
    ensures Accounted(a, f.(offered := f.offered + more), waiting + more)
  {
    KeptConcat(f.offered, more, f.dropped);
    KeptAll(more, f.dropped);
    assert f.called + waiting + more == f.called + (waiting + more);
  }

  /** What `add` leaves, whether or not it goes on to fire. */
  lemma AddedEntries(l: List, fns: seq<nat>)
    requires l.entries.Some? && Numbered(l)
    ensures var a := Add(l, fns); var more := Entries(Accepted(l.options.unique, l.entries.value, fns), l.pushed);
      && a.entries == Some(l.entries.value + more) && Numbered(a) && l.pushed <= a.pushed
      && Ascending(more) && forall k :: 0 <= k < |more| ==> l.pushed <= more[k].serial < a.pushed
  {
    var r := Accepted(l.options.unique, l.entries.value, fns);
    PushAllAccepts(l, fns);
    EntriesAscending(r, l.pushed);
  }

  lemma AddFiringGood(m: Machine, fns: seq<nat>)
    requires Good(m) && m.list.entries.Some? && m.now.Some?
    ensures Good(Adds(m, fns))
  {
    var l, a := m.list, Add(m.list, fns);
    var more := Entries(Accepted(l.options.unique, l.entries.value, fns), l.pushed);
    AddedEntries(l, fns);
    assert Waiting(a) == Waiting(l) + more;
    AddAccounted(l, m.now.value, Waiting(l), a, more);
  }

  /** The firing that `add` begins with the remembered arguments. */
  lemma AgainAtLoop(l: List, fns: seq<nat>) returns (f: Firing)
    requires Settled(l) && Numbered(l) && l.entries.Some? && !l.firing && l.memory.Some?
    ensures var r := Accepted(l.options.unique, l.entries.value, fns);
      f == Firing(l.memory.value, true, [], Entries(r, l.pushed), {}, Running)
    ensures AtLoop(Add(l, fns), f)
  {
    var a, more := Add(l, fns), Entries(Accepted(l.options.unique, l.entries.value, fns), l.pushed);
    f := Firing(l.memory.value, true, [], more, {}, Running);
    AddedEntries(l, fns);
    KeptAll(more, {});
    assert a.entries.value[a.index..] == more;
  }

  lemma AddGood(m: Machine, fns: seq<nat>)
    requires Good(m) && m.list.entries.Some?
    ensures Good(Adds(m, fns))
  {
    AddedEntries(m.list, fns);
    if m.now.Some? {
      AddFiringGood(m, fns);
    } else if m.list.memory.Some? {
      var f := AgainAtLoop(m.list, fns);
      LoopGood(Add(m.list, fns), f, m.past);
    }
  }

  /** What removing drops, seen by number: nothing that was called, and of those waiting the ones that go. */
  lemma DroppingWaits(f: Firing, waiting: seq<Entry>, gone: set<nat>)
    requires Ascending(f.offered) && f.called + waiting == Kept(f.offered, f.dropped)
    ensures Kept(f.offered, Dropping(f, gone).dropped) == f.called + Without(waiting, gone)
  {
    var numbers := set e | e in f.offered && e !in f.called && e.fn in gone :: e.serial;
    var kept := f.called + waiting;
    KeptAscending(f.offered, f.dropped);
    KeptTwice(f.offered, f.dropped, numbers);
    KeptConcat(f.called, waiting, numbers);
    forall k | 0 <= k < |kept| ensures kept[k].serial in numbers <==> kept[k] !in f.called && kept[k].fn in gone {
      KeptMember(f.offered, f.dropped, kept[k]);
      SameSerial(f.offered, kept[k]);
    }
    CalledStay(f.called, waiting, numbers, gone);
  }

  lemma CalledStay(called: seq<Entry>, waiting: seq<Entry>, numbers: set<nat>, gone: set<nat>)
    requires Ascending(called + waiting)
    requires forall k :: 0 <= k < |called + waiting| ==>
      ((called + waiting)[k].serial in numbers <==>
        (called + waiting)[k] !in called && (called + waiting)[k].fn in gone)
    ensures Kept(called, numbers) == called && Kept(waiting, numbers) == Without(waiting, gone)
  {
    var kept := called + waiting;
    forall k | 0 <= k < |called| ensures called[k].serial !in numbers {
      assert called[k] == kept[k];
    }
    forall k | 0 <= k < |waiting| ensures waiting[k].serial in numbers <==> waiting[k].fn in gone {
      assert waiting[k] == kept[|called| + k];
      forall j | 0 <= j < |called| ensures called[j] != waiting[k] {
        assert called[j] == kept[j] && kept[j].serial < kept[|called| + k].serial;
      }
    }
    KeptAll(called, numbers);
    KeptIsWithout(waiting, numbers, gone);
  }

  lemma RemoveAccounted(l: List, f: Firing, gone: set<nat>)
    requires Settled(l) && Numbered(l) && l.firing && l.entries.Some? && Accounted(l, f, Waiting(l))
    ensures Accounted(Remove(l, gone), Dropping(f, gone), Without(Waiting(l), gone))
  {
    DroppingWaits(f, Waiting(l), gone);
    DroppedBelow(f, gone, l.pushed);
  }

  lemma DroppedBelow(f: Firing, gone: set<nat>, n: nat)
    requires forall k :: 0 <= k < |f.offered| ==> f.offered[k].serial < n
    requires forall s :: s in f.dropped ==> s < n
    ensures forall s :: s in Dropping(f, gone).dropped ==> s < n
  {
  }

  /** Among ascending entries a number belongs to one entry. */
  lemma SameSerial(es: seq<Entry>, e: Entry)
    requires Ascending(es) && e in es
    ensures forall d :: d in es && d.serial == e.serial ==> d == e
  {
    var i :| 0 <= i < |es| && es[i] == e;
    forall d | d in es && d.serial == e.serial ensures d == e {
      var k :| 0 <= k < |es| && es[k] == d;
      assert i < k || k < i || i == k;
    }
  }

  /** Whatever is dropped, the calls made stay the first of what is kept. */
  lemma RemoveCalled(l: List, f: Firing, gone: set<nat>)
    requires Accounted(l, f, []) && l.entries.None?
    ensures Accounted(l, Dropping(f, gone), [])
  {
    var kept := Kept(f.offered, f.dropped);
    assert kept == f.called + kept[|f.called|..];
    DroppingWaits(f, kept[|f.called|..], gone);
    DroppedBelow(f, gone, l.pushed);
  }

  lemma RemoveGood(m: Machine, gone: set<nat>)
    requires Good(m)
    ensures Good(Removes(m, gone))
  {
    var l := m.list;
    if l.entries.Some? {
      var es, r := l.entries.value, Remove(l, gone);
      WithoutAscending(es, gone);
      if l.firing {
        RemoveAccounted(l, m.now.value, gone);
        assert es == Passed(l) + Waiting(l);
        WithoutConcat(Passed(l), Waiting(l), gone);
        assert Waiting(r) == Without(Waiting(l), gone);
      }
    } else if l.firing {
      RemoveCalled(l, m.now.value, gone);
    }
  }

  lemma ReturnGood(m: Machine, isFalse: bool)
    requires Good(m) && m.now.Some?
    ensures Good(Returns(m, isFalse))
  {
    if isFalse && m.list.options.stopOnFalse {
      StopGood(m);
    } else {
      LoopGood(Returned(m.list, isFalse), m.now.value, m.past);
    }
  }

  /** A callback stops its firing. */
  lemma StopGood(m: Machine)
    requires Good(m) && m.now.Some? && m.list.options.stopOnFalse
    ensures Good(Stops(m))
  {
    var over := m.past + [m.now.value.(phase := CutShort)];
    CutShortOver(m.list, m.now.value, Waiting(m.list), m.past);
    AfterFiring(m.list.(memory := None), over);
  }

  lemma CutShortOver(l: List, f: Firing, waiting: seq<Entry>, past: seq<Firing>)
    requires Accounted(l, f, waiting) && AllOver(past)
    ensures AllOver(past + [f.(phase := CutShort)])
  {
  }

  /** A firing is over: the next one queued begins, or the list is at rest. */
  lemma AfterFiring(l: List, past: seq<Firing>)
    requires l.start == 0 && Numbered(l) && l.fired && AllOver(past)
    requires l.entries.None? ==> l.stack.None? && l.memory.None?
    ensures var m := Finish(l);
      if m.firing then m.entries.Some? && AtLoop(m, Firing(m.data, false, [], m.entries.value, {}, Running))
        && Good(Loop(m, Firing(m.data, false, [], m.entries.value, {}, Running), past))
      else Good(Machine(m, None, past))
  {
    if Finish(l).firing {
      FinishedAtLoop(l);
      LoopGood(Finish(l), Firing(Finish(l).data, false, [], Finish(l).entries.value, {}, Running), past);
    } else {
      FinishedAtRest(l, past);
    }
  }

  lemma FireGood(m: Machine, args: Args)
    requires Good(m)
    ensures Good(Asks(m, args))
  {
    if m.now.None? && FireWith(m.list, args).firing {
      FreshAtLoop(m.list, args);
      LoopGood(Fire(m.list, args), Firing(args, false, [], m.list.entries.value, {}, Running), m.past);
    }
  }

  lemma StepGood(m: Machine, e: Event)
    requires Good(m)
    ensures Good(Step(m, e))
  {
    match e
    case AddEvent(fns) => if m.list.entries.Some? { AddGood(m, fns); }
    case RemoveEvent(gone) => RemoveGood(m, gone);
    case FireEvent(args) => FireGood(m, args);
    case LockEvent =>
    case DisableEvent =>
    case ReturnEvent(isFalse) => if m.now.Some? { ReturnGood(m, isFalse); }
  }

  ghost function Run(m: Machine, events: seq<Event>): (r: Machine)
    requires Good(m)
    ensures Good(r)
    decreases |events|
  {
    if events == [] then m
    else
      StepGood(m, events[0]);
      Run(Step(m, events[0]), events[1..])
  }

  lemma StartGood(options: Options)
    ensures Good(Start(options))
  {
  }

  /** Whatever is added, removed, fired, locked or disabled, at the top level or by running
      callbacks, and however fires queue up: every firing calls entries in the order in which
      they were added, each at most once, none that was removed before its turn, and if its
      loop runs to the end all others that were on the list or were accepted meanwhile. */
  lemma EveryFiringCallsEachOnce(options: Options, events: seq<Event>)
    ensures Good(Start(options))
    ensures var m := Run(Start(options), events);
      && AllOver(m.past)
      && (m.now.Some? && m.list.entries.Some? ==>
            && m.list.length == |m.list.entries.value|
            && m.now.value.called + Waiting(m.list) == Kept(m.now.value.offered, m.now.value.dropped))
  {
    StartGood(options);
  }

  // Which fires are heard --------------------------------------------------------------

  /** The arguments of the firings that `fire` asked for, as they began. */
  function Asked(fs: seq<Firing>): seq<Args> {
    if fs == [] then []
    else Asked(fs[..|fs| - 1]) + if fs[|fs| - 1].again then [] else [fs[|fs| - 1].data]
  }

  function Heard(m: Machine): seq<Args> {
    Asked(m.past + if m.now.Some? then [m.now.value] else [])
  }

  function Fires(events: seq<Event>): seq<Args> {
    if events == [] then []
    else
      var last := events[|events| - 1];
      Fires(events[..|events| - 1]) + if last.FireEvent? then [last.args] else []
  }

  /** No further fire can begin. */
  predicate Deaf(l: List) {
    l.entries.None? || (l.fired && l.stack.None?)
  }

  lemma AskedMore(fs: seq<Firing>, f: Firing)
    ensures Asked(fs + [f]) == Asked(fs) + if f.again then [] else [f.data]
  {
    assert (fs + [f])[..|fs|] == fs;
  }

  /** The other fields of a firing do not matter. */
  lemma AskedSame(past: seq<Firing>, f: Firing, g: Firing)
    requires f.again == g.again && f.data == g.data
    ensures Asked(past + [f]) == Asked(past + [g])
  {
    AskedMore(past, f);
    AskedMore(past, g);
  }

  /** The next of the queue begins. */
  lemma QueueNext(l: List, over: seq<Firing>)
    requires l.entries.Some? && l.stack.Some? && l.stack.value != [] && l.start == 0 && Numbered(l)
    ensures var m := Finish(l); var g := Firing(m.data, false, [], m.entries.value, {}, Running);
      && m.firing && m.entries.Some? && m.stack.Some? && Queue(m) < Queue(l) && AtLoop(m, g)
      && Asked(over + [g]) + m.stack.value == Asked(over) + l.stack.value
  {
    var m := Finish(l);
    var g := Firing(m.data, false, [], m.entries.value, {}, Running);
    FreshAtLoop(l.(firing := false, stack := Some(l.stack.value[1..])), l.stack.value[0]);
    AskedMore(over, g);
    assert Asked(over) + [m.data] + m.stack.value == Asked(over) + ([m.data] + m.stack.value);
    assert l.stack.value == [m.data] + m.stack.value;
  }

  /** While it takes queued fires, going through the loop begins them in order. */
  lemma {:induction false} LoopHears(l: List, f: Firing, past: seq<Firing>)
    requires AtLoop(l, f) && l.entries.Some? && l.stack.Some?
    ensures var m := Loop(l, f, past);
      && m.list.options == l.options && m.list.entries.Some? && m.list.stack.Some?
      && Heard(m) + m.list.stack.value == Asked(past + [f]) + l.stack.value
    decreases Queue(l)
  {
    if Due(l) {
      AskedSame(past, f, f.(called := f.called + [l.entries.value[l.index]]));
    } else {
      var over := past + [f.(phase := Completed)];
      AskedSame(past, f, f.(phase := Completed));
      if l.stack.value != [] {
        QueueNext(l, over);
        LoopHears(Finish(l), Firing(Finish(l).data, false, [], l.entries.value, {}, Running), over);
      } else {
        assert over + [] == over;
      }
    }
  }

  lemma DeafLoop(l: List, f: Firing, past: seq<Firing>)
    requires AtLoop(l, f) && Deaf(l)
    ensures Heard(Loop(l, f, past)) == Asked(past + [f]) && Deaf(Loop(l, f, past).list)
  {
    DeafFinish(l);
    if Due(l) {
      AskedSame(past, f, f.(called := f.called + [l.entries.value[l.index]]));
    } else {
      var g := f.(phase := if l.entries.Some? then Completed else CutShort);
      AskedSame(past, f, g);
      assert past + [g] + [] == past + [g];
    }
  }

  lemma DeafFinish(l: List)
    requires Deaf(l)
    ensures !Finish(l).firing && Deaf(Finish(l))
  {
  }

  /** A list that is disabled, locked, or fired once hears nothing more. */
  lemma DeafStep(m: Machine, e: Event)
    requires Good(m) && Deaf(m.list)
    ensures Heard(Step(m, e)) == Heard(m) && Deaf(Step(m, e).list)
  {
    match e
    case AddEvent(fns) => if m.list.entries.Some? { DeafAdd(m, fns); }
    case RemoveEvent(gone) =>
      if m.now.Some? {
        AskedSame(m.past, m.now.value, Dropping(m.now.value, gone));
      }
    case FireEvent(args) => DeafAsks(m, args);
    case ReturnEvent(isFalse) => if m.now.Some? { DeafReturn(m, isFalse); }
    case _ =>
  }

  lemma DeafAsks(m: Machine, args: Args)
    requires Good(m) && Deaf(m.list)
    ensures Asks(m, args) == m
  {
  }

  lemma DeafAdd(m: Machine, fns: seq<nat>)
    requires Good(m) && Deaf(m.list) && m.list.entries.Some?
    ensures Heard(Adds(m, fns)) == Heard(m) && Deaf(Adds(m, fns).list)
  {
    var l, a := m.list, Add(m.list, fns);
    AddedEntries(l, fns);
    if m.now.Some? {
      AskedSame(m.past, m.now.value, Adds(m, fns).now.value);
    } else if l.memory.Some? {
      var f := AgainAtLoop(l, fns);
      DeafLoop(a, f, m.past);
      AskedMore(m.past, f);
      assert m.past + [] == m.past;
    }
  }

  lemma DeafReturn(m: Machine, isFalse: bool)
    requires Good(m) && Deaf(m.list) && m.now.Some?
    ensures Heard(Returns(m, isFalse)) == Heard(m) && Deaf(Returns(m, isFalse).list)
  {
    if isFalse && m.list.options.stopOnFalse {
      DeafStop(m);
    } else {
      DeafLoop(Returned(m.list, isFalse), m.now.value, m.past);
    }
  }

  lemma DeafStop(m: Machine)
    requires Good(m) && Deaf(m.list) && m.now.Some? && m.list.options.stopOnFalse
    ensures Heard(Stops(m)) == Heard(m) && Deaf(Stops(m).list)
  {
    var f := m.now.value;
    DeafFinish(m.list.(memory := None));
    AskedSame(m.past, f, f.(phase := CutShort));
    assert m.past + [f.(phase := CutShort)] + [] == m.past + [f.(phase := CutShort)];
  }

  /** Whatever happens after it became deaf, no firing but those of `add` begins any more. */
  lemma {:induction false} DeafForever(m: Machine, events: seq<Event>)
    requires Good(m) && Deaf(m.list)
    ensures Heard(Run(m, events)) == Heard(m) && Deaf(Run(m, events).list)
    decreases |events|
  {
    if events != [] {
      DeafStep(m, events[0]);
      StepGood(m, events[0]);
      DeafForever(Step(m, events[0]), events[1..]);
    }
  }

  lemma LockOrDisableDeafens(m: Machine, e: Event)
    requires Good(m) && (e.LockEvent? || e.DisableEvent?)
    ensures Deaf(Step(m, e).list) && Heard(Step(m, e)) == Heard(m)
  {
  }

  /** The fires a list has heard, and those waiting, are those asked for: all of them, or
      under `once` the first. */
  ghost predicate HeardAll(m: Machine, fires: seq<Args>) {
    if m.list.options.once then
      if fires == [] then !m.list.fired && m.list.entries.Some? && m.list.stack.None? && m.past == []
      else Heard(m) == fires[..1] && Deaf(m.list)
    else m.list.entries.Some? && m.list.stack.Some? && Heard(m) + m.list.stack.value == fires
  }

  lemma FireHeard(m: Machine, args: Args, fires: seq<Args>)
    requires Good(m) && HeardAll(m, fires)
    ensures HeardAll(Asks(m, args), fires + [args])
  {
    var l := m.list;
    if l.options.once && fires != [] {
      DeafAsks(m, args);
      assert (fires + [args])[..1] == fires[..1];
    } else if m.now.None? {
      FirstHeard(m, args, fires);
    } else {
      assert Heard(m) + (l.stack.value + [args]) == Heard(m) + l.stack.value + [args];
    }
  }

  /** A fire that begins at once. */
  lemma FirstHeard(m: Machine, args: Args, fires: seq<Args>)
    requires Good(m) && HeardAll(m, fires) && m.now.None? && (m.list.options.once ==> fires == [])
    ensures HeardAll(Asks(m, args), fires + [args])
  {
    FreshAtLoop(m.list, args);
    LoopOptions(Fire(m.list, args), Firing(args, false, [], m.list.entries.value, {}, Running), m.past);
    if m.list.options.once {
      OnceHeard(m, args);
    } else {
      QuietHeard(m, args, fires);
    }
  }

  lemma QuietHeard(m: Machine, args: Args, fires: seq<Args>)
    requires Good(m) && HeardAll(m, fires) && m.now.None? && !m.list.options.once
    ensures var r := Asks(m, args).list; r.entries.Some? && r.stack.Some?
    ensures Heard(Asks(m, args)) + Asks(m, args).list.stack.value == fires + [args]
  {
    var f := Firing(args, false, [], m.list.entries.value, {}, Running);
    FreshAtLoop(m.list, args);
    LoopHears(Fire(m.list, args), f, m.past);
    AskedMore(m.past, f);
    assert m.past + [] == m.past && m.list.stack.value == [];
    assert Asked(m.past) + [args] + [] == fires + [args];
  }

  lemma OnceHeard(m: Machine, args: Args)
    requires Good(m) && HeardAll(m, []) && m.list.options.once && m.now.None?
    ensures Heard(Asks(m, args)) == [args] && Deaf(Asks(m, args).list)
  {
    var f := Firing(args, false, [], m.list.entries.value, {}, Running);
    FreshAtLoop(m.list, args);
    DeafLoop(Fire(m.list, args), f, []);
    assert [] + [f] == [f] && Asked([]) == [] && [f][..0] == [];
  }

  lemma {:induction false} LoopOptions(l: List, f: Firing, past: seq<Firing>)
    requires AtLoop(l, f)
    ensures Loop(l, f, past).list.options == l.options
    decreases Queue(l)
  {
    if !Due(l) && Finish(l).firing {
      FinishedAtLoop(l);
      LoopOptions(Finish(l), Firing(Finish(l).data, false, [], Finish(l).entries.value, {}, Running),
                  past + [f.(phase := if l.entries.Some? then Completed else CutShort)]);
    }
  }

  lemma ListenStep(m: Machine, e: Event, fires: seq<Args>)
    requires Good(m) && HeardAll(m, fires) && !m.list.options.once
    requires e.AddEvent? || e.RemoveEvent? || e.ReturnEvent?
    ensures HeardAll(Step(m, e), fires)
  {
    match e
    case AddEvent(fns) => AddHears(m, fns, fires);
    case RemoveEvent(gone) =>
      if m.now.Some? {
        AskedSame(m.past, m.now.value, Dropping(m.now.value, gone));
      }
    case ReturnEvent(isFalse) => if m.now.Some? { ReturnHears(m, isFalse, fires); }
  }

  lemma AddHears(m: Machine, fns: seq<nat>, fires: seq<Args>)
    requires Good(m) && HeardAll(m, fires) && !m.list.options.once
    ensures HeardAll(Adds(m, fns), fires)
  {
    var l, a := m.list, Add(m.list, fns);
    AddedEntries(l, fns);
    if m.now.Some? {
      AskedSame(m.past, m.now.value, Adds(m, fns).now.value);
    } else if l.memory.Some? {
      var f := AgainAtLoop(l, fns);
      LoopHears(a, f, m.past);
      AskedMore(m.past, f);
      assert m.past + [] == m.past;
    }
  }

  lemma ReturnHears(m: Machine, isFalse: bool, fires: seq<Args>)
    requires Good(m) && HeardAll(m, fires) && !m.list.options.once && m.now.Some?
    ensures HeardAll(Returns(m, isFalse), fires)
  {
    if isFalse && m.list.options.stopOnFalse {
      StopHears(m, fires);
    } else {
      ContinueHears(m, fires);
    }
  }

  /** A callback returns, and its firing goes on. */
  lemma ContinueHears(m: Machine, fires: seq<Args>)
    requires Good(m) && HeardAll(m, fires) && !m.list.options.once && m.now.Some?
    ensures HeardAll(Loop(Returned(m.list, false), m.now.value, m.past), fires)
  {
    LoopHears(Returned(m.list, false), m.now.value, m.past);
  }

  /** A callback stops its firing, and the next one queued begins. */
  lemma StopHears(m: Machine, fires: seq<Args>)
    requires Good(m) && HeardAll(m, fires) && !m.list.options.once && m.list.options.stopOnFalse && m.now.Some?
    ensures HeardAll(Stops(m), fires)
  {
    var l, f := m.list, m.now.value;
    var n, over := Finish(l.(memory := None)), m.past + [f.(phase := CutShort)];
    AskedSame(m.past, f, f.(phase := CutShort));
    if l.stack.value != [] {
      QueueNext(l.(memory := None), over);
      LoopHears(n, Firing(n.data, false, [], n.entries.value, {}, Running), over);
    } else {
      assert over + [] == over;
    }
  }

  /** Under `once`, before the first fire. */
  lemma SilentStep(m: Machine, e: Event)
    requires Good(m) && HeardAll(m, []) && m.list.options.once
    requires e.AddEvent? || e.RemoveEvent? || e.ReturnEvent?
    ensures HeardAll(Step(m, e), [])
  {
    if e.AddEvent? {
      AddedEntries(m.list, e.fns);
    }
  }

  lemma HearingStep(m: Machine, e: Event, fires: seq<Args>)
    requires Good(m) && HeardAll(m, fires) && !e.LockEvent? && !e.DisableEvent?
    ensures HeardAll(Step(m, e), fires + if e.FireEvent? then [e.args] else [])
  {
    if e.FireEvent? {
      FireHeard(m, e.args, fires);
    } else {
      assert fires + [] == fires;
      if !m.list.options.once {
        ListenStep(m, e, fires);
      } else if fires == [] {
        SilentStep(m, e);
      } else {
        DeafStep(m, e);
      }
    }
  }

  predicate NeverLocked(events: seq<Event>) {
    forall k :: 0 <= k < |events| ==> !events[k].LockEvent? && !events[k].DisableEvent?
  }

  lemma {:induction false} HearsFrom(m: Machine, before: seq<Event>, events: seq<Event>)
    requires Good(m) && HeardAll(m, Fires(before)) && NeverLocked(events)
    ensures HeardAll(Run(m, events), Fires(before + events))
    decreases |events|
  {
    if events == [] {
      assert before + [] == before;
    } else {
      var e := events[0];
      HearingStep(m, e, Fires(before));
      StepGood(m, e);
      assert (before + [e])[..|before|] == before;
      assert Fires(before + [e]) == Fires(before) + if e.FireEvent? then [e.args] else [];
      assert before + events == before + [e] + events[1..];
      HearsFrom(Step(m, e), before + [e], events[1..]);
    }
  }

  /** A list never locked or disabled hears every fire in the order they were asked for, those
      asked for during a firing after it; a `once` list hears the first and no other. */
  lemma FiresInOrder(options: Options, events: seq<Event>)
    requires NeverLocked(events)
    ensures Good(Start(options)) && HeardAll(Run(Start(options), events), Fires(events))
  {
    StartGood(options);
    assert [] + events == events && Asked([]) == [];
    HearsFrom(Start(options), [], events);
  }

  /** The calls made in each firing. */
  function Calls(fs: seq<Firing>): seq<seq<Entry>> {
    seq(|fs|, k requires 0 <= k < |fs| => fs[k].called)
  }

  function AllCalls(m: Machine): seq<seq<Entry>> {
    Calls(if m.now.Some? then m.past + [m.now.value] else m.past)
  }

  lemma CallsSame(past: seq<Firing>, f: Firing, g: Firing)
    requires f.called == g.called
    ensures Calls(past + [f]) == Calls(past + [g])
  {
  }

  lemma DisabledStep(m: Machine, e: Event)
    requires Good(m) && m.list.entries.None?
    ensures Step(m, e).list.entries.None? && AllCalls(Step(m, e)) == AllCalls(m)
  {
    if m.now.Some? {
      var f := m.now.value;
      match e
      case RemoveEvent(gone) => CallsSame(m.past, f, Dropping(f, gone));
      case ReturnEvent(isFalse) => CallsSame(m.past, f, f.(phase := CutShort));
      case _ =>
    }
  }

  lemma {:induction false} DisabledForever(m: Machine, events: seq<Event>)
    requires Good(m) && m.list.entries.None?
    ensures AllCalls(Run(m, events)) == AllCalls(m)
    decreases |events|
  {
    if events != [] {
      DisabledStep(m, events[0]);
      StepGood(m, events[0]);
      DisabledForever(Step(m, events[0]), events[1..]);
    }
  }

  /** Disabling a list, at rest or in the middle of a firing, ends all calls for good. */
  lemma DisableEndsCalls(m: Machine, events: seq<Event>)
    requires Good(m)
    ensures Good(Step(m, DisableEvent)) && AllCalls(Run(Step(m, DisableEvent), events)) == AllCalls(m)
  {
    StepGood(m, DisableEvent);
    DisabledForever(Step(m, DisableEvent), events);
  }

  // What a list remembers --------------------------------------------------------------------

  /** Only `add` repeats arguments: those of the firing before, and only if that one ran to its end. */
  ghost predicate Repeats(fs: seq<Firing>) {
    forall k :: 0 <= k < |fs| && fs[k].again ==> k > 0 && fs[k - 1].phase.Completed? && fs[k].data == fs[k - 1].data
  }

  predicate EndedWell(past: seq<Firing>) {
    past != [] && past[|past| - 1].phase.Completed?
  }

  /** What a list in use remembers: the arguments of the firing in progress, or of the last one if it ran to its end. */
  ghost predicate Remembers(m: Machine) {
    && Repeats(if m.now.Some? then m.past + [m.now.value] else m.past)
    && (m.list.entries.Some? ==>
          m.list.memory == if !m.list.options.memory then None
                           else if m.now.Some? then Some(m.now.value.data)
                           else if EndedWell(m.past) then Some(m.past[|m.past| - 1].data)
                           else None)
  }

  lemma RepeatsMore(past: seq<Firing>, f: Firing)
    requires Repeats(past) && (f.again ==> EndedWell(past) && f.data == past[|past| - 1].data)
    ensures Repeats(past + [f])
  {
  }

  lemma RepeatsInit(past: seq<Firing>, f: Firing, g: Firing)
    requires Repeats(past + [f]) && g.again == f.again && g.data == f.data
    ensures Repeats(past) && Repeats(past + [g])
  {
    var fs, gs := past + [f], past + [g];
    forall k | 0 <= k < |past| && past[k].again
      ensures k > 0 && past[k - 1].phase.Completed? && past[k].data == past[k - 1].data
    {
      assert fs[k] == past[k] && fs[k - 1] == past[k - 1];
    }
    if g.again {
      assert fs[|past|] == f && fs[|past| - 1] == past[|past| - 1];
    }
    RepeatsMore(past, g);
  }

  ghost predicate FiringRemembers(l: List, f: Firing, past: seq<Firing>) {
    Repeats(past + [f]) && (l.entries.Some? ==> l.memory == if l.options.memory then Some(f.data) else None)
  }

  lemma {:induction false} LoopRemembers(l: List, f: Firing, past: seq<Firing>)
    requires AtLoop(l, f) && FiringRemembers(l, f, past)
    ensures Remembers(Loop(l, f, past)) && Loop(l, f, past).list.options == l.options
    decreases Queue(l)
  {
    if Due(l) {
      RepeatsInit(past, f, f.(called := f.called + [l.entries.value[l.index]]));
    } else {
      var g := f.(phase := if l.entries.Some? then Completed else CutShort);
      RepeatsInit(past, f, g);
      AfterRemembers(l, past + [g]);
    }
  }

  /** A firing is over, and the list remembers its arguments if it ran to its end. */
  lemma {:induction false} AfterRemembers(l: List, over: seq<Firing>)
    requires l.firing && l.fired && l.start == 0 && Numbered(l) && Repeats(over) && over != []
    requires l.entries.None? ==> l.stack.None? && l.memory.None?
    requires l.entries.Some? ==>
      l.memory == if l.options.memory && EndedWell(over) then Some(over[|over| - 1].data) else None
    ensures Finish(l).options == l.options
    ensures !Finish(l).firing ==> Remembers(Machine(Finish(l), None, over))
    ensures Finish(l).firing ==>
      var m := Finish(l);
      var g := Firing(m.data, false, [], m.entries.value, {}, Running);
      AtLoop(m, g) && Remembers(Loop(m, g, over)) && Loop(m, g, over).list.options == l.options
    decreases Queue(l), 1
  {
    var m := Finish(l);
    if m.firing {
      var g := Firing(m.data, false, [], m.entries.value, {}, Running);
      FinishedAtLoop(l);
      RepeatsMore(over, g);
      LoopRemembers(m, g, over);
    }
  }

  lemma AddRemembers(m: Machine, fns: seq<nat>)
    requires Good(m) && Remembers(m) && m.list.entries.Some?
    ensures Remembers(Adds(m, fns)) && Adds(m, fns).list.options == m.list.options
  {
    var l := m.list;
    AddedEntries(l, fns);
    if m.now.Some? {
      RepeatsInit(m.past, m.now.value, Adds(m, fns).now.value);
    } else if l.memory.Some? {
      var f := AgainAtLoop(l, fns);
      RepeatsMore(m.past, f);
      LoopRemembers(Add(l, fns), f, m.past);
    }
  }

  lemma ReturnRemembers(m: Machine, isFalse: bool)
    requires Good(m) && Remembers(m) && m.now.Some?
    ensures Remembers(Returns(m, isFalse)) && Returns(m, isFalse).list.options == m.list.options
  {
    var f := m.now.value;
    if isFalse && m.list.options.stopOnFalse {
      RepeatsInit(m.past, f, f.(phase := CutShort));
      AfterRemembers(m.list.(memory := None), m.past + [f.(phase := CutShort)]);
    } else {
      LoopRemembers(Returned(m.list, isFalse), f, m.past);
    }
  }

  lemma StepRemembers(m: Machine, e: Event)
    requires Good(m) && Remembers(m)
    ensures Remembers(Step(m, e)) && Step(m, e).list.options == m.list.options
  {
    var l := m.list;
    match e
    case AddEvent(fns) => if l.entries.Some? { AddRemembers(m, fns); }
    case RemoveEvent(gone) => if m.now.Some? { RepeatsInit(m.past, m.now.value, Dropping(m.now.value, gone)); }
    case FireEvent(args) =>
      if m.now.None? && FireWith(l, args).firing {
        var f := Firing(args, false, [], l.entries.value, {}, Running);
        FreshAtLoop(l, args);
        RepeatsMore(m.past, f);
        LoopRemembers(Fire(l, args), f, m.past);
      }
    case ReturnEvent(isFalse) => if m.now.Some? { ReturnRemembers(m, isFalse); }
    case _ =>
  }

  lemma {:induction false} RunRemembers(m: Machine, events: seq<Event>)
    requires Good(m) && Remembers(m)
    ensures Remembers(Run(m, events)) && Run(m, events).list.options == m.list.options
    decreases |events|
  {
    if events != [] {
      StepRemembers(m, events[0]);
      StepGood(m, events[0]);
      RunRemembers(Step(m, events[0]), events[1..]);
    }
  }

  /** The firing that began right after those of `past`, if there is one. */
  function Next(m: Machine, past: seq<Firing>): Option<Firing> {
    if |m.past| > |past| then Some(m.past[|past|]) else m.now
  }

  /** After any run, `add` on a list at rest begins a firing exactly if the list has a memory and
      its last firing ran to the end: for the functions accepted, with that firing's arguments.
      So a callback that stops its firing keeps later ones from being called. */
  lemma AddAfterFiring(options: Options, events: seq<Event>, fns: seq<nat>)
    ensures Good(Start(options))
    ensures var m := Run(Start(options), events);
      && m.list.options == options && Remembers(m)
      && (m.list.entries.Some? && m.now.None? ==>
            var n := Step(m, AddEvent(fns));
            if options.memory && EndedWell(m.past) then
              && Next(n, m.past).Some? && Next(n, m.past).value.again
              && Next(n, m.past).value.data == m.past[|m.past| - 1].data
              && Next(n, m.past).value.offered
                == Entries(Accepted(options.unique, m.list.entries.value, fns), m.list.pushed)
            else n.now.None? && n.past == m.past)
  {
    StartGood(options);
    RunRemembers(Start(options), events);
    var m := Run(Start(options), events);
    if m.list.entries.Some? && m.now.None? {
      AddedEntries(m.list, fns);
    }
  }

  // When a firing runs to its end ---------------------------------------------------------

  /** Nothing in `e` stops a firing. */
  predicate Harmless(options: Options, e: Event) {
    && !e.DisableEvent?
    && (e.LockEvent? ==> options.memory)
    && (e.ReturnEvent? && e.isFalse ==> !options.stopOnFalse)
  }

  ghost predicate AllCompleted(past: seq<Firing>) {
    forall k :: 0 <= k < |past| ==> past[k].phase.Completed?
  }

  /** No firing was cut short, nor is one about to be. */
  ghost predicate Uncut(m: Machine) {
    && (m.list.firing ==> m.list.entries.Some? && (m.list.options.memory ==> m.list.memory.Some?))
    && AllCompleted(m.past)
  }

  lemma {:induction false} LoopUncut(l: List, f: Firing, past: seq<Firing>)
    requires AtLoop(l, f) && l.entries.Some? && (l.options.memory ==> l.memory.Some?) && AllCompleted(past)
    ensures Uncut(Loop(l, f, past)) && Loop(l, f, past).list.options == l.options
    decreases Queue(l)
  {
    if !Due(l) && l.stack.Some? && l.stack.value != [] {
      var over := past + [f.(phase := Completed)];
      QueueNext(l, over);
      LoopUncut(Finish(l), Firing(Finish(l).data, false, [], l.entries.value, {}, Running), over);
    }
  }

  lemma StepUncut(m: Machine, e: Event)
    requires Good(m) && Uncut(m) && Harmless(m.list.options, e)
    ensures Uncut(Step(m, e)) && Step(m, e).list.options == m.list.options
  {
    var l := m.list;
    match e
    case AddEvent(fns) =>
      if l.entries.Some? {
        AddedEntries(l, fns);
        if m.now.None? && l.memory.Some? {
          var f := AgainAtLoop(l, fns);
          LoopUncut(Add(l, fns), f, m.past);
        }
      }
    case FireEvent(args) =>
      if m.now.None? && FireWith(l, args).firing {
        FreshAtLoop(l, args);
        LoopUncut(Fire(l, args), Firing(args, false, [], l.entries.value, {}, Running), m.past);
      }
    case ReturnEvent(isFalse) =>
      if m.now.Some? {
        LoopUncut(Returned(l, isFalse), m.now.value, m.past);
      }
    case _ =>
  }

  lemma {:induction false} RunUncut(m: Machine, events: seq<Event>)
    requires Good(m) && Uncut(m) && forall k :: 0 <= k < |events| ==> Harmless(m.list.options, events[k])
    ensures Uncut(Run(m, events))
    decreases |events|
  {
    if events != [] {
      StepUncut(m, events[0]);
      StepGood(m, events[0]);
      RunUncut(Step(m, events[0]), events[1..]);
    }
  }

  /** Unless the list is disabled, or locked without a memory, or a callback stops its firing
      under `stopOnFalse`, every firing runs to the end: it calls all that it was to call. */
  lemma FiringsComplete(options: Options, events: seq<Event>)
    requires forall k :: 0 <= k < |events| ==> Harmless(options, events[k])
    ensures Good(Start(options))
    ensures forall k :: 0 <= k < |Run(Start(options), events).past| ==>
      var f := Run(Start(options), events).past[k]; f.called == Kept(f.offered, f.dropped)
  {
    StartGood(options);
    RunUncut(Start(options), events);
    var m := Run(Start(options), events);
    forall k | 0 <= k < |m.past| ensures m.past[k].called == Kept(m.past[k].offered, m.past[k].dropped) {
      assert Over(m.past[k]);
    }
  }
}
