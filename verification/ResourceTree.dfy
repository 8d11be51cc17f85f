// The resource tree of the control panel: nodes addressed by dotted ids, kept in
// one list and in one array per layer, and the placement of their boxes.

module ResourceTree {
  import opened Wrappers
  import opened Strings
  import Sorting
  import opened Sequences

  // ----- Dotted ids ------------------------------------------------------------

  /** `id.split('.')` */
  function Split(id: string): (parts: seq<string>)
    ensures |parts| >= 1
  {
    if id == "" then [""]
    else
      var rest := Split(id[1..]);
      if id[0] == '.' then [""] + rest else [[id[0]] + rest[0]] + rest[1..]
  }

  function Join(parts: seq<string>): string
    requires |parts| >= 1
  {
    if |parts| == 1 then parts[0] else parts[0] + "." + Join(parts[1..])
  }

  lemma {:induction false} JoinSplit(id: string)
    ensures Join(Split(id)) == id
  {
    if id != "" {
      JoinSplit(id[1..]);
      var rest := Split(id[1..]);
      if id[0] == '.' {
        assert ([""] + rest)[1..] == rest;
        assert "" + "." + id[1..] == id;
      } else {
        assert ([[id[0]] + rest[0]] + rest[1..])[1..] == rest[1..];
        assert id == [id[0]] + id[1..];
        assert |rest| > 1 ==> [id[0]] + rest[0] + "." + Join(rest[1..]) == [id[0]] + (rest[0] + "." + Join(rest[1..]));
      }
    }
  }

  lemma {:induction false} SplitPlain(s: string)
    requires '.' !in s
    ensures Split(s) == [s]
  {
    if s != "" {
      SplitPlain(s[1..]);
      assert [s[0]] + s[1..] == s;
    }
  }

  lemma {:induction false} SplitFirst(s: string, t: string)
    requires '.' !in s
    ensures Split(s + "." + t) == [s] + Split(t)
  {
    var u := s + "." + t;
    if s == "" {
      assert u[1..] == t;
    } else {
      SplitFirst(s[1..], t);
      assert u[1..] == s[1..] + "." + t;
      assert [s[0]] + s[1..] == s;
    }
  }

  lemma {:induction false} SplitPartsPlain(id: string)
    ensures forall k :: 0 <= k < |Split(id)| ==> '.' !in Split(id)[k]
  {
    if id != "" {
      SplitPartsPlain(id[1..]);
    }
  }

  lemma {:induction false} SplitJoin(parts: seq<string>)
    requires |parts| >= 1 && forall k :: 0 <= k < |parts| ==> '.' !in parts[k]
    ensures Split(Join(parts)) == parts
  {
    if |parts| == 1 {
      SplitPlain(parts[0]);
    } else {
      SplitJoin(parts[1..]);
      SplitFirst(parts[0], Join(parts[1..]));
    }
  }

  // ----- Nodes --------------------------------------------------------------------

  function LayerOf(id: string): nat {
    var parts := Split(id);
    if |parts| == 2 && parts[0] == "1" then 0 else |parts|
  }

  /** `parentId`: the number 0 below the root, undefined on the logical side, else a string. */
  datatype ParentId = NoParent | Zero | Named(id: string)

  function ParentIdOf(id: string): ParentId {
    var parts := Split(id);
    if |parts| == 2 then if parts[0] == "0" then Zero else NoParent
    else Named(Dotted(parts, if |parts| == 1 then 1 else |parts| - 1))
  }

  /** `parentId == id`; a number is compared with what `number` makes of the string. */
  predicate Matches(p: ParentId, id: string, number: string -> Option<real>) {
    match p
    case NoParent => false
    case Zero => number(id) == Some(0.0)
    case Named(s) => s == id
  }

  /** The conversions that well-formed ids rely on. */
  predicate Converts(number: string -> Option<real>) {
    number("0") == Some(0.0) && number("1") == Some(1.0)
  }

  /** The loop of the constructor: '0' and the parts 1..n. */
  function Dotted(parts: seq<string>, n: nat): string
    requires 1 <= n <= |parts|
  {
    if n == 1 then "0" else Dotted(parts, n - 1) + "." + parts[n - 1]
  }

  class TreeNode {
    const name: string
    const id: string
    const completeId: seq<string>
    const layer: nat
    const parentId: ParentId
    var x: real
    /** None stands for minus infinity. */
    var y: Option<real>
    var conny: real

    ghost predicate Valid() {
      completeId == Split(id) && layer == LayerOf(id) && parentId == ParentIdOf(id)
    }

    constructor (id: string, name: string)
      ensures Valid() && this.id == id && this.name == name && x == 0.0 && y == Some(0.0)
    {
      this.id, this.name := id, name;
      var parts := Split(id);
      completeId := parts;
      x, y, conny := 0.0, Some(0.0), 0.0;
      if |parts| == 2 {
        layer := if parts[0] == "1" then 0 else 2;
        parentId := if parts[0] == "0" then Zero else NoParent;
      } else {
        layer := |parts|;
        var pid := "0";
        var i := 1;
        while i < |parts| - 1
          invariant 1 <= i && (i <= |parts| - 1 || i == 1)
          invariant pid == Dotted(parts, i)
        {
          pid := pid + "." + parts[i];
          i := i + 1;
        }
        parentId := Named(pid);
      }
    }
  }

  /** The ids the panel uses: the root, logical resources 1.x, physical resources 0.x.y... */
  predicate Address(id: string) {
    var parts := Split(id);
    if |parts| == 1 then id == "0" else parts[0] == "0" || (|parts| == 2 && parts[0] == "1")
  }

  // ----- List and layers ------------------------------------------------------------

  function OfLayer(list: seq<TreeNode>, l: nat): seq<TreeNode> {
    if list == [] then []
    else OfLayer(list[..|list| - 1], l) + if list[|list| - 1].layer == l then [list[|list| - 1]] else []
  }

  lemma {:induction false} OfLayerMember(list: seq<TreeNode>, l: nat, n: TreeNode)
    ensures n in OfLayer(list, l) <==> n in list && n.layer == l
    decreases |list|
  {
    if list != [] {
      OfLayerMember(list[..|list| - 1], l, n);
      assert list == list[..|list| - 1] + [list[|list| - 1]];
    }
  }

  /** The layers hold the listed nodes, each in its own layer, and none but the
      logical layer is empty. */
  ghost predicate Consistent(list: seq<TreeNode>, layers: seq<seq<TreeNode>>) {
    && |layers| >= 2
    && (forall l :: 0 <= l < |layers| ==> multiset(layers[l]) == multiset(OfLayer(list, l)))
    && (forall k :: 0 <= k < |list| ==> list[k].Valid() && list[k].layer < |layers|)
    && (forall l :: 1 <= l < |layers| ==> layers[l] != [])
  }

  lemma InLayer(list: seq<TreeNode>, layers: seq<seq<TreeNode>>, l: nat, n: TreeNode)
    requires Consistent(list, layers) && l < |layers|
    ensures n in layers[l] <==> n in list && n.layer == l
  {
    OfLayerMember(list, l, n);
    assert n in layers[l] <==> n in multiset(layers[l]);
    assert n in OfLayer(list, l) <==> n in multiset(OfLayer(list, l));
  }

  /** The nodes have different ids, of the forms the panel uses. */
  ghost predicate Distinct(list: seq<TreeNode>) {
    && (forall i, j :: 0 <= i < j < |list| ==> list[i].id != list[j].id)
    && (forall i :: 0 <= i < |list| ==> Address(list[i].id))
    && exists i :: 0 <= i < |list| && list[i].id == "0"
  }

  lemma SameId(list: seq<TreeNode>, a: TreeNode, b: TreeNode)
    requires Distinct(list) && a in list && b in list && a.id == b.id
    ensures a == b
  {
    var i :| 0 <= i < |list| && list[i] == a;
    var j :| 0 <= j < |list| && list[j] == b;
    assert i < j || j < i || i == j;
  }

  /** In layer 1 there is the root and nothing else comes first. */
  lemma RootFirst(list: seq<TreeNode>, layers: seq<seq<TreeNode>>, n: TreeNode)
    requires Consistent(list, layers) && Distinct(list) && n in list
    ensures layers[1][0] in list && layers[1][0].id == "0"
    ensures n.layer == 1 <==> n == layers[1][0]
  {
    var root := layers[1][0];
    InLayer(list, layers, 1, root);
    InLayer(list, layers, 1, n);
    if n.layer == 1 {
      SameId(list, n, root);
    }
  }

  // ----- Lookups as functions of the layers -------------------------------------------

  /** TypeError: a layer that does not exist was read. */
  datatype Lookup = Found(node: TreeNode) | No | TypeError

  function LastMatch(s: seq<TreeNode>, p: ParentId, number: string -> Option<real>): Lookup {
    if s == [] then No
    else if Matches(p, s[|s| - 1].id, number) then Found(s[|s| - 1])
    else LastMatch(s[..|s| - 1], p, number)
  }

  function ParentOf(layers: seq<seq<TreeNode>>, n: TreeNode, number: string -> Option<real>): Lookup
    requires |layers| >= 2 && layers[1] != []
  {
    if n.layer == 0 then Found(layers[1][0])
    else if n.layer == 1 then No
    else if n.layer - 1 >= |layers| then TypeError
    else LastMatch(layers[n.layer - 1], n.parentId, number)
  }

  function WithParent(s: seq<TreeNode>, id: string, number: string -> Option<real>): seq<TreeNode> {
    if s == [] then []
    else WithParent(s[..|s| - 1], id, number) + if Matches(s[|s| - 1].parentId, id, number) then [s[|s| - 1]] else []
  }

  function ChildrenOf(layers: seq<seq<TreeNode>>, n: TreeNode, number: string -> Option<real>): Option<seq<TreeNode>>
    requires |layers| >= 2
  {
    if n.layer == 1 then if |layers| == 2 then None else Some(layers[0] + layers[2])
    else if 1 < n.layer < |layers| - 1 then Some(WithParent(layers[n.layer + 1], n.id, number))
    else Some([])
  }

  /** Where TreefindById looks: the first part is compared with the number 1. */
  function LookupLayer(id: string, number: string -> Option<real>): nat {
    var parts := Split(id);
    if |parts| == 2 && number(parts[0]) == Some(1.0) then 0 else |parts|
  }

  lemma {:induction false} LastMatchMeaning(s: seq<TreeNode>, p: ParentId, number: string -> Option<real>)
    ensures match LastMatch(s, p, number)
      case Found(n) => n in s && Matches(p, n.id, number)
      case No => forall k :: 0 <= k < |s| ==> !Matches(p, s[k].id, number)
      case TypeError => false
  {
    if s != [] {
      LastMatchMeaning(s[..|s| - 1], p, number);
    }
  }

  lemma {:induction false} WithParentMember(s: seq<TreeNode>, id: string, n: TreeNode, number: string -> Option<real>)
    ensures n in WithParent(s, id, number) <==> n in s && Matches(n.parentId, id, number)
    decreases |s|
  {
    if s != [] {
      WithParentMember(s[..|s| - 1], id, n, number);
      assert s == s[..|s| - 1] + [s[|s| - 1]];
    }
  }

  /** Who is a child of `p`. */
  lemma ChildMeaning(list: seq<TreeNode>, layers: seq<seq<TreeNode>>, p: TreeNode, n: TreeNode,
                     number: string -> Option<real>)
    requires Consistent(list, layers) && |layers| > 2 && p in list && n in list
    ensures ChildrenOf(layers, p, number).Some?
    ensures n in ChildrenOf(layers, p, number).value <==>
      if p.layer == 1 then n.layer == 0 || n.layer == 2
      else p.layer > 1 && n.layer == p.layer + 1 && Matches(n.parentId, p.id, number)
  {
    if p.layer == 1 {
      InLayer(list, layers, 0, n);
      InLayer(list, layers, 2, n);
    } else {
      LaterChild(list, layers, p, n, number);
    }
  }

  lemma LaterChild(list: seq<TreeNode>, layers: seq<seq<TreeNode>>, p: TreeNode, n: TreeNode,
                   number: string -> Option<real>)
    requires Consistent(list, layers) && |layers| > 2 && p in list && n in list && p.layer != 1
    ensures n in ChildrenOf(layers, p, number).value <==>
      p.layer > 1 && n.layer == p.layer + 1 && Matches(n.parentId, p.id, number)
  {
    if 1 < p.layer < |layers| - 1 {
      WithParentMember(layers[p.layer + 1], p.id, n, number);
      InLayer(list, layers, p.layer + 1, n);
    }
  }

  /** The id that `parentId` stands for. */
  function ParentName(id: string): string {
    var parts := Split(id);
    Dotted(parts, if |parts| == 1 then 1 else |parts| - 1)
  }

  /** Among stored nodes the loose comparison is one of ids. */
  lemma StoredMatches(list: seq<TreeNode>, layers: seq<seq<TreeNode>>, q: TreeNode, n: TreeNode,
                      number: string -> Option<real>)
    requires Consistent(list, layers) && Distinct(list) && Converts(number) && q in list && n in list
    requires n.layer > 1 && q.layer == n.layer - 1
    ensures Matches(n.parentId, q.id, number) <==> q.id == ParentName(n.id)
  {
    assert Address(n.id);
    if n.layer == 2 {
      RootFirst(list, layers, q);
    }
  }

  /** Whose child `n` is. */
  lemma ParentMeaning(list: seq<TreeNode>, layers: seq<seq<TreeNode>>, p: TreeNode, n: TreeNode,
                      number: string -> Option<real>)
    requires Consistent(list, layers) && Distinct(list) && Converts(number) && p in list && n in list
    ensures ParentOf(layers, n, number) == Found(p) <==>
      if n.layer == 0 then p == layers[1][0]
      else n.layer > 1 && p.layer == n.layer - 1 && p.id == ParentName(n.id)
  {
    if n.layer > 1 {
      var above := layers[n.layer - 1];
      LastMatchMeaning(above, n.parentId, number);
      InLayer(list, layers, n.layer - 1, p);
      forall q | q in above ensures Matches(n.parentId, q.id, number) <==> q.id == ParentName(n.id) {
        InLayer(list, layers, n.layer - 1, q);
        StoredMatches(list, layers, q, n, number);
      }
      forall q | q in above && q.id == p.id ensures q == p {
        InLayer(list, layers, n.layer - 1, q);
        SameId(list, p, q);
      }
    }
  }

  /** Among nodes with different ids the parent lookup and the child lookup are inverse. */
  lemma ParentChildInverse(list: seq<TreeNode>, layers: seq<seq<TreeNode>>, p: TreeNode, n: TreeNode,
                           number: string -> Option<real>)
    requires Consistent(list, layers) && Distinct(list) && Converts(number) && |layers| > 2 && p in list && n in list
    ensures ChildrenOf(layers, p, number).Some?
    ensures n in ChildrenOf(layers, p, number).value <==> ParentOf(layers, n, number) == Found(p)
  {
    RootFirst(list, layers, p);
    ChildMeaning(list, layers, p, n, number);
    ParentMeaning(list, layers, p, n, number);
    if n.layer > 1 && p.layer == n.layer - 1 {
      StoredMatches(list, layers, p, n, number);
    }
    if n.layer == 2 {
      assert Address(n.id);
    }
  }

  lemma {:induction false} DottedIsJoin(parts: seq<string>, n: nat)
    requires 1 <= n <= |parts| && parts[0] == "0"
    ensures Dotted(parts, n) == Join(parts[..n])
    decreases n
  {
    if n > 1 {
      DottedIsJoin(parts, n - 1);
      JoinSnoc(parts[..n - 1], parts[n - 1]);
      assert parts[..n] == parts[..n - 1] + [parts[n - 1]];
    }
  }

  lemma {:induction false} JoinSnoc(parts: seq<string>, last: string)
    requires |parts| >= 1
    ensures Join(parts + [last]) == Join(parts) + "." + last
    decreases |parts|
  {
    if |parts| > 1 {
      JoinSnoc(parts[1..], last);
      assert (parts + [last])[1..] == parts[1..] + [last];
      Associate(parts[0] + ".", Join(parts[1..]), "." + last);
    } else {
      assert (parts + [last])[1..] == [last];
    }
  }

  /** A physical resource's parentId stands for its own id without the last part. */
  lemma ParentIdDropsLast(id: string)
    requires Address(id) && LayerOf(id) >= 2
    ensures ParentIdOf(id) == if LayerOf(id) == 2 then Zero else Named(ParentName(id))
    ensures Split(ParentName(id)) == Split(id)[..|Split(id)| - 1]
  {
    var parts := Split(id);
    assert |parts| > 1 && ParentName(id) == Dotted(parts, |parts| - 1);
    SplitPartsPlain(id);
    PrefixSplits(parts, |parts| - 1);
  }

  lemma PrefixSplits(parts: seq<string>, n: nat)
    requires 1 <= n <= |parts| && parts[0] == "0" && forall k :: 0 <= k < |parts| ==> '.' !in parts[k]
    ensures Split(Dotted(parts, n)) == parts[..n]
  {
    DottedIsJoin(parts, n);
    SplitJoin(parts[..n]);
  }

  /** A stored physical node's parent is the stored node whose address is its own without the last part. */
  lemma ParentIsPrefix(list: seq<TreeNode>, layers: seq<seq<TreeNode>>, p: TreeNode, n: TreeNode,
                       number: string -> Option<real>)
    requires Consistent(list, layers) && Distinct(list) && Converts(number) && p in list && n in list && n.layer >= 2
    ensures ParentOf(layers, n, number) == Found(p) <==> Split(p.id) == Split(n.id)[..|Split(n.id)| - 1]
  {
    assert Address(n.id) && Address(p.id);
    ParentIdDropsLast(n.id);
    JoinSplit(p.id);
    JoinSplit(ParentName(n.id));
    ParentMeaning(list, layers, p, n, number);
  }

  function FirstWithId(s: seq<TreeNode>, id: string): Option<TreeNode> {
    if s == [] then None
    else if s[0].id == id then Some(s[0])
    else FirstWithId(s[1..], id)
  }

  function ById(layers: seq<seq<TreeNode>>, id: string, number: string -> Option<real>): Lookup
    requires |layers| >= 2 && layers[1] != []
  {
    var layer := LookupLayer(id, number);
    if layer >= |layers| then TypeError
    else match FirstWithId(layers[layer], id)
      case Some(n) => Found(n)
      case None => Found(layers[1][0])
  }

  lemma {:induction false} FirstWithIdMeaning(s: seq<TreeNode>, id: string)
    ensures match FirstWithId(s, id)
      case Some(n) => n in s && n.id == id
      case None => forall k :: 0 <= k < |s| ==> s[k].id != id
  {
    if s != [] {
      FirstWithIdMeaning(s[1..], id);
    }
  }

  /** Every stored node is found under its id, and an id that nobody has leads to
      the root if its layer exists. */
  lemma FindsStored(list: seq<TreeNode>, layers: seq<seq<TreeNode>>, id: string, number: string -> Option<real>)
    requires Consistent(list, layers) && Distinct(list)
    requires Converts(number)
    requires Address(id)
    ensures forall n :: n in list && n.id == id ==> ById(layers, id, number) == Found(n)
    ensures (forall n :: n in list ==> n.id != id) && LayerOf(id) < |layers| ==>
      ById(layers, id, number) == Found(layers[1][0])
    ensures LayerOf(id) >= |layers| <==> ById(layers, id, number) == TypeError
  {
    var l := LayerOf(id);
    if l < |layers| {
      FirstWithIdMeaning(layers[l], id);
      forall n | n in list && n.id == id ensures ById(layers, id, number) == Found(n) {
        InLayer(list, layers, l, n);
        forall m | m in layers[l] && m.id == id ensures m == n {
          InLayer(list, layers, l, m);
          SameId(list, m, n);
        }
      }
      forall m | m in layers[l] && m.id == id ensures m in list {
        InLayer(list, layers, l, m);
      }
    }
  }

  // ----- The order of ids ----------------------------------------------------------------

  /** SortByID(a, b) <= 0 */
  predicate InOrder(a: TreeNode, b: TreeNode) {
    !Less(b.id, a.id)
  }

  lemma InOrderTransitive(a: TreeNode, b: TreeNode, c: TreeNode)
    requires InOrder(a, b) && InOrder(b, c)
    ensures InOrder(a, c)
  {
    LessTotal(a.id, b.id);
    LessTotal(b.id, c.id);
    if Less(c.id, a.id) {
      if Less(a.id, b.id) {
        LessTransitive(c.id, a.id, b.id);
      }
    }
  }

  lemma IdsOrder(s: seq<TreeNode>)
    ensures Sorting.Orders(InOrder, s)
  {
    forall i, j | 0 <= i < |s| && 0 <= j < |s| ensures InOrder(s[i], s[j]) || InOrder(s[j], s[i]) {
      LessTotal(s[i].id, s[j].id);
    }
    forall i, j, k | 0 <= i < |s| && 0 <= j < |s| && 0 <= k < |s| && InOrder(s[i], s[j]) && InOrder(s[j], s[k])
      ensures InOrder(s[i], s[k])
    {
      InOrderTransitive(s[i], s[j], s[k]);
    }
  }

  ghost predicate SortedById(s: seq<TreeNode>) {
    forall i, j :: 0 <= i < j < |s| ==> InOrder(s[i], s[j])
  }

  // ----- Placement ---------------------------------------------------------------------------

  const BOX_WIDTH := 85.0
  const BOX_HEIGHT := 40.0

  function Room(count: nat, treew: real): int
    requires treew != 0.0
  {
    (count as real * BOX_WIDTH / treew).Floor + 1
  }

  function BoxX(count: nat, treew: real, n: nat): real
    requires n < count
  {
    treew / count as real / 2.0 + n as real * (treew / count as real)
  }

  /** `l` is the layer, `distance` the layer_distance, `row` the offset within the layer. */
  function BoxY(l: nat, distance: real, room: int, row: int): real {
    (l as real + 0.5) * (distance + BOX_HEIGHT) + (row as real - room as real / 2.0) * (BOX_HEIGHT + 5.0)
  }

  function RowAt(room: int, n: nat): int {
    if room > 1 then n % room else 0
  }

  ghost predicate Overlap(a: TreeNode, b: TreeNode)
    reads a, b
  {
    && a.x - BOX_WIDTH < b.x < a.x + BOX_WIDTH
    && a.y.Some? && b.y.Some?
    && a.y.value - BOX_HEIGHT < b.y.value < a.y.value + BOX_HEIGHT
  }

  /** The height of the `k`-th of `count` nodes; in a container exactly as wide as a box the room is
      infinite, and all nodes go infinitely far up. */
  function Height(l: nat, k: nat, count: nat, treew: real, distance: real): Option<real> {
    if treew == 0.0 then None else Some(BoxY(l, distance, Room(count, treew), RowAt(Room(count, treew), k)))
  }

  ghost predicate PlacedAt(n: TreeNode, l: nat, k: nat, count: nat, treew: real, distance: real)
    requires k < count
    reads n
  {
    n.x == BoxX(count, treew, k) && n.y == Height(l, k, count, treew, distance) && n.conny == distance / 3.0
  }

  lemma ModApart(room: nat, i: nat, j: nat)
    requires room > 0 && i < j && i % room == j % room
    ensures j - i >= room
  {
    var d := j / room - i / room;
    assert j - i == room * d;
    Positive(room, d);
  }

  lemma Positive(room: nat, d: int)
    requires room * d > 0
    ensures room * d >= room
  {
  }

  lemma PositiveStep(step: real, c: real)
    requires c > 0.0 && step * c > 0.0
    ensures step > 0.0
  {
  }

  /** Boxes on one row are more than a box width apart. */
  lemma SameRowApart(count: nat, treew: real, i: nat, j: nat)
    requires treew > 0.0 && i < j < count
    requires RowAt(Room(count, treew), i) == RowAt(Room(count, treew), j)
    ensures BoxX(count, treew, j) - BoxX(count, treew, i) > BOX_WIDTH
  {
    var room, c, need := Room(count, treew), count as real, count as real * BOX_WIDTH / treew;
    assert need >= 0.0 && room >= 1 && room as real > need;
    if room > 1 {
      ModApart(room, i, j);
    }
    assert j - i >= room;
    var d, step := (j - i) as real, treew / c;
    assert d > need && need * treew == c * BOX_WIDTH && step * c == treew;
    Widen(d, need, step, c, treew);
    assert BoxX(count, treew, j) - BoxX(count, treew, i) == d * step;
  }

  lemma Widen(d: real, need: real, step: real, c: real, treew: real)
    requires d > need && need * treew == c * BOX_WIDTH && step * c == treew && c > 0.0 && treew > 0.0
    ensures d * step > BOX_WIDTH
  {
    PositiveStep(step, c);
    assert d * step > need * step;
    assert need * step * c == need * treew;
    assert need * step == BOX_WIDTH;
  }

  lemma OtherRowApart(l: nat, distance: real, room: int, a: int, b: int)
    requires a < b
    ensures BoxY(l, distance, room, b) - BoxY(l, distance, room, a) > BOX_HEIGHT
  {
    var d := (b - a) as real;
    assert BoxY(l, distance, room, b) - BoxY(l, distance, room, a) == d * (BOX_HEIGHT + 5.0);
  }

  lemma Scaled(a: real, b: real, step: real)
    requires 0.0 < a < b && step > 0.0
    ensures 0.0 < a * step < b * step
  {
  }

  lemma InsideX(count: nat, treew: real, k: nat)
    requires treew > 0.0 && k < count
    ensures 0.0 < BoxX(count, treew, k) < treew
  {
    var c := count as real;
    var step := treew / c;
    assert step * c == treew;
    PositiveStep(step, c);
    assert BoxX(count, treew, k) == (k as real + 0.5) * step;
    Scaled(k as real + 0.5, c, step);
  }

  /** With a container wider than a box, placed boxes of one layer do not overlap and
      lie inside the container's width. */
  lemma PlacedApart(s: seq<TreeNode>, l: nat, treew: real, distance: real)
    requires treew > 0.0
    requires forall k :: 0 <= k < |s| ==> PlacedAt(s[k], l, k, |s|, treew, distance)
    ensures forall i, j :: 0 <= i < j < |s| ==> !Overlap(s[i], s[j])
    ensures forall k :: 0 <= k < |s| ==> 0.0 < s[k].x && s[k].x + BOX_WIDTH < treew + BOX_WIDTH
  {
    var room := Room(|s|, treew);
    forall i, j | 0 <= i < j < |s| ensures !Overlap(s[i], s[j]) {
      var a, b := RowAt(room, i), RowAt(room, j);
      if a == b {
        SameRowApart(|s|, treew, i, j);
      } else if a < b {
        OtherRowApart(l, distance, room, a, b);
      } else {
        OtherRowApart(l, distance, room, b, a);
      }
    }
    forall k | 0 <= k < |s| ensures 0.0 < s[k].x && s[k].x + BOX_WIDTH < treew + BOX_WIDTH {
      InsideX(|s|, treew, k);
    }
  }

  /** What `n` layers of boxes leave of the height, for each of them. */
  function LayerDistance(yc: real, n: nat): real
    requires n > 0
  {
    (yc - n as real * BOX_HEIGHT) / n as real
  }

  /** The rows of a layer of `count` nodes fit into a strip of this height. */
  predicate Fits(count: nat, treew: real, strip: real)
    requires treew != 0.0
  {
    Room(count, treew) as real * (BOX_HEIGHT + 5.0) <= strip
  }

  /** The box lies in the `l`-th of the strips, counted from the top. */
  ghost predicate InStrip(n: TreeNode, l: nat, strip: real)
    reads n
  {
    n.y.Some? && l as real * strip <= n.y.value && n.y.value + BOX_HEIGHT <= (l as real + 1.0) * strip
  }

  ghost predicate InStrips(s: seq<TreeNode>, l: nat, strip: real)
    reads s
  {
    forall k :: 0 <= k < |s| ==> InStrip(s[k], l, strip)
  }

  /** With the height divided evenly among the layers, one that fits lies in its own strip. */
  lemma PlacedInStrip(s: seq<TreeNode>, l: nat, treew: real, distance: real)
    requires treew > 0.0 && Fits(|s|, treew, distance + BOX_HEIGHT)
    requires forall k :: 0 <= k < |s| ==> PlacedAt(s[k], l, k, |s|, treew, distance)
    ensures InStrips(s, l, distance + BOX_HEIGHT)
  {
    var room := Room(|s|, treew);
    forall k | 0 <= k < |s| ensures InStrip(s[k], l, distance + BOX_HEIGHT) {
      var need := |s| as real * BOX_WIDTH / treew;
      assert need >= 0.0;
      RowInStrip(l, distance, room, RowAt(room, k));
    }
  }

  lemma RowInStrip(l: nat, distance: real, room: int, row: int)
    requires 0 <= row < room && room as real * (BOX_HEIGHT + 5.0) <= distance + BOX_HEIGHT
    ensures l as real * (distance + BOX_HEIGHT) <= BoxY(l, distance, room, row)
    ensures BoxY(l, distance, room, row) + BOX_HEIGHT <= (l as real + 1.0) * (distance + BOX_HEIGHT)
  {
    var strip := distance + BOX_HEIGHT;
    assert (l as real + 0.5) * strip == l as real * strip + 0.5 * strip;
    assert (l as real + 1.0) * strip == l as real * strip + strip;
    assert (row as real - room as real / 2.0) * (BOX_HEIGHT + 5.0)
      == row as real * (BOX_HEIGHT + 5.0) - room as real * (BOX_HEIGHT + 5.0) / 2.0;
  }

  /** Boxes in different strips do not overlap. */
  lemma StripsApart(a: TreeNode, b: TreeNode, l: nat, m: nat, strip: real)
    requires l < m && InStrip(a, l, strip) && InStrip(b, m, strip)
    ensures !Overlap(a, b) && !Overlap(b, a)
  {
    assert (l as real + 1.0) * strip == l as real * strip + strip;
    assert (m - l - 1) as real * strip >= 0.0;
    assert m as real * strip == (l as real + 1.0) * strip + (m - l - 1) as real * strip;
  }

  // ----- The tree as it runs --------------------------------------------------------------------

  class Tree {
    var NodeList: seq<TreeNode>
    var NodeLayers: seq<seq<TreeNode>>

    ghost predicate Valid()
      reads this
    {
      Consistent(NodeList, NodeLayers)
    }

    constructor ()
      ensures Valid() && Distinct(NodeList)
      ensures |NodeList| == 1 && NodeList[0].id == "0" && fresh(NodeList[0])
      ensures NodeLayers == [[], NodeList]
    {
      var rootNode := new TreeNode("0", "DROP");
      NodeList := [rootNode];
      NodeLayers := [[], [rootNode]];
      assert Split("0") == ["0"] by {
        SplitPlain("0");
      }
      new;
      assert NodeList[..0] == [];
    }

    /** Refused when the layer above is missing; otherwise the node is appended to the
        list and to its layer. */
    method AddNode(node: TreeNode) returns (inserted: bool)
      requires Valid() && node.Valid()
      modifies this
      ensures Valid()
      ensures inserted <==> node.layer <= |old(NodeLayers)|
      ensures !inserted ==> NodeList == old(NodeList) && NodeLayers == old(NodeLayers)
      ensures inserted ==> NodeList == old(NodeList) + [node]
      ensures inserted ==> NodeLayers == Added(old(NodeLayers), node)
      ensures Distinct(old(NodeList)) && Address(node.id) && (forall n :: n in old(NodeList) ==> n.id != node.id) ==>
        Distinct(NodeList)
    {
      var l := node.layer;
      if l > |NodeLayers| {
        return false;
      }
      ghost var list, layers := NodeList, NodeLayers;
      if l == |NodeLayers| {
        NodeLayers := NodeLayers + [[]];
      }
      NodeList := NodeList + [node];
      NodeLayers := NodeLayers[l := NodeLayers[l] + [node]];
      AddedConsistent(list, layers, node);
      if l == |layers| {
        assert [] + [node] == [node];
      }
      assert NodeLayers == Added(layers, node);
      AddedDistinct(list, node);
      inserted := true;
    }

    method FindParent(n: TreeNode, number: string -> Option<real>) returns (node: Lookup)
      requires Valid()
      ensures node == ParentOf(NodeLayers, n, number)
    {
      node := No;
      if n.layer == 0 {
        node := Found(NodeLayers[1][0]);
      } else if n.layer > 1 {
        if n.layer - 1 >= |NodeLayers| {
          return TypeError;
        }
        var above := NodeLayers[n.layer - 1];
        for i := 0 to |above|
          invariant node == LastMatch(above[..i], n.parentId, number)
        {
          assert above[..i + 1][..i] == above[..i];
          if Matches(n.parentId, above[i].id, number) {
            node := Found(above[i]);
          }
        }
        assert above[..|above|] == above;
      }
    }

    method FindById(id: string, number: string -> Option<real>) returns (node: Lookup)
      requires Valid()
      ensures node == ById(NodeLayers, id, number)
    {
      node := Found(NodeLayers[1][0]);
      var splittedId := Split(id);
      var layer := |splittedId|;
      if layer == 2 {
        if number(splittedId[0]) == Some(1.0) {
          layer := 0;
        }
      }
      if layer >= |NodeLayers| {
        return TypeError;
      }
      var nodes := NodeLayers[layer];
      assert nodes[0..] == nodes;
      for i := 0 to |nodes|
        invariant node == Found(NodeLayers[1][0])
        invariant FirstWithId(nodes, id) == FirstWithId(nodes[i..], id)
      {
        assert nodes[i..][1..] == nodes[i + 1..];
        if nodes[i].id == id {
          node := Found(nodes[i]);
          break;
        }
      }
    }

    method FindChild(n: TreeNode, number: string -> Option<real>) returns (nodes: Option<seq<TreeNode>>)
      requires Valid()
      ensures nodes == ChildrenOf(NodeLayers, n, number)
    {
      var found: seq<TreeNode> := [];
      var limit := |NodeLayers| - 1;
      if n.layer > 1 && n.layer < limit {
        var below := NodeLayers[n.layer + 1];
        for i := 0 to |below|
          invariant found == WithParent(below[..i], n.id, number)
        {
          assert below[..i + 1][..i] == below[..i];
          if Matches(below[i].parentId, n.id, number) {
            found := found + [below[i]];
          }
        }
        assert below[..|below|] == below;
      }
      if n.layer == 1 {
        for i := 0 to |NodeLayers[0]|
          invariant found == NodeLayers[0][..i]
        {
          found := found + [NodeLayers[0][i]];
        }
        if |NodeLayers| == 2 {
          return None;
        }
        for i := 0 to |NodeLayers[2]|
          invariant found == NodeLayers[0] + NodeLayers[2][..i]
        {
          found := found + [NodeLayers[2][i]];
        }
        assert NodeLayers[2][..|NodeLayers[2]|] == NodeLayers[2];
      }
      nodes := Some(found);
    }

    /** `sort(SortByID)`: some arrangement in which no id comes before a smaller one. */
    method SortLayer(l: nat)
      requires l < |NodeLayers|
      modifies this`NodeLayers
      ensures |NodeLayers| == |old(NodeLayers)| && multiset(NodeLayers[l]) == multiset(old(NodeLayers)[l])
      ensures SortedById(NodeLayers[l])
      ensures NodeLayers == old(NodeLayers)[l := NodeLayers[l]]
    {
      var layer := NodeLayers[l];
      IdsOrder(layer);
      var s := Sorting.Sort(layer, InOrder);
      NodeLayers := NodeLayers[l := s];
    }

    /** The boxes of layer `l` stand where its count and the container say. */
    ghost predicate LayerPlaced(l: nat, treew: real, distance: real)
      requires l < |NodeLayers|
      reads this, NodeLayers[l]
    {
      forall k :: 0 <= k < |NodeLayers[l]| ==> PlacedAt(NodeLayers[l][k], l, k, |NodeLayers[l]|, treew, distance)
    }

    /** The loop over one sorted layer. */
    method PlaceLayer(l: nat, treew: real, distance: real)
      requires l < |NodeLayers|
      modifies NodeLayers[l]
      ensures EachOnce(NodeLayers[l]) ==> LayerPlaced(l, treew, distance)
    {
      var sortedarray := NodeLayers[l];
      var nodeInLayer := |sortedarray|;
      // None: nothing fits, and the number of rows is infinite.
      var room := if treew == 0.0 then None else Some((nodeInLayer as real * BOX_WIDTH / treew).Floor + 1);
      var yOff := 0;
      for n := 0 to nodeInLayer
        invariant room.Some? ==> yOff == RowAt(room.value, n)
        invariant EachOnce(sortedarray) ==> forall k :: 0 <= k < n ==>
          PlacedAt(sortedarray[k], l, k, nodeInLayer, treew, distance)
      {
        sortedarray[n].y := if room.None? then None
          else Some((l as real + 0.5) * (distance + BOX_HEIGHT)
                    + (yOff as real - room.value as real / 2.0) * (BOX_HEIGHT + 5.0));
        sortedarray[n].x := treew / nodeInLayer as real / 2.0 + n as real * (treew / nodeInLayer as real);
        sortedarray[n].conny := distance / 3.0;
        assert PlacedAt(sortedarray[n], l, n, nodeInLayer, treew, distance);
        if room.None? {
          yOff := yOff + 1;
        } else if room.value > 1 {
          NextRow(room.value, n);
          yOff := (yOff + 1) % room.value;
        }
      }
    }

    /** The layers before `m` are sorted, and if no node is listed twice they are placed. */
    ghost predicate PlacedBefore(m: nat, treew: real, distance: real)
      requires m <= |NodeLayers|
      reads this, set k, i | 0 <= k < |NodeLayers| && 0 <= i < |NodeLayers[k]| :: NodeLayers[k][i]
    {
      forall k :: 0 <= k < m ==> SortedById(NodeLayers[k]) && (EachOnce(NodeList) ==> LayerPlaced(k, treew, distance))
    }

    method LayOut(l: nat, treew: real, distance: real)
      requires Valid() && l < |NodeLayers|
      requires PlacedBefore(l, treew, distance)
      modifies this`NodeLayers, NodeList
      ensures Valid() && |NodeLayers| == |old(NodeLayers)|
      ensures PlacedBefore(l + 1, treew, distance)
    {
      SortLayer(l);
      RearrangedConsistent(NodeList, old(NodeLayers), l, NodeLayers[l]);
      LayerNodes(NodeList, NodeLayers, l);
      PlaceLayer(l, treew, distance);
    }

    /** NodeCoo(tree) in a container of `xc` by `yc`: it only rearranges the layers, and unless
        a node is listed twice, no two boxes of a layer overlap or leave the width of a
        container wider than a box; and a layer whose rows fit into its part of the height
        stays there, so that it does not overlap another such layer. */
    method NodeCoo(xc: real, yc: real)
      requires Valid()
      modifies this`NodeLayers, NodeList
      ensures Valid() && |NodeLayers| == |old(NodeLayers)|
      ensures PlacedBefore(|NodeLayers|, xc - BOX_WIDTH, LayerDistance(yc, |NodeLayers|))
      ensures xc > BOX_WIDTH && EachOnce(NodeList) ==> forall l :: 0 <= l < |NodeLayers| ==> Separate(NodeLayers[l], xc)
      ensures xc > BOX_WIDTH && EachOnce(NodeList) ==> Stripped(xc, yc)
    {
      PlaceLayers(xc - BOX_WIDTH, LayerDistance(yc, |NodeLayers|));
      if xc > BOX_WIDTH && EachOnce(NodeList) {
        LayersPlaced(xc, yc);
      }
    }

    /** The loop over the layers. */
    method PlaceLayers(treew: real, layer_distance: real)
      requires Valid()
      modifies this`NodeLayers, NodeList
      ensures Valid() && |NodeLayers| == |old(NodeLayers)|
      ensures PlacedBefore(|NodeLayers|, treew, layer_distance)
    {
      for l := 0 to |NodeLayers|
        invariant Valid() && |NodeLayers| == |old(NodeLayers)|
        invariant PlacedBefore(l, treew, layer_distance)
      {
        LayOut(l, treew, layer_distance);
      }
    }

    ghost predicate Stripped(xc: real, yc: real)
      requires xc > BOX_WIDTH
      reads this, set k, i | 0 <= k < |NodeLayers| && 0 <= i < |NodeLayers[k]| :: NodeLayers[k][i]
    {
      forall l :: 0 <= l < |NodeLayers| && Fits(|NodeLayers[l]|, xc - BOX_WIDTH, yc / |NodeLayers| as real) ==>
        InStrips(NodeLayers[l], l, yc / |NodeLayers| as real)
    }

    lemma LayersPlaced(xc: real, yc: real)
      requires Valid() && xc > BOX_WIDTH && EachOnce(NodeList)
      requires PlacedBefore(|NodeLayers|, xc - BOX_WIDTH, LayerDistance(yc, |NodeLayers|))
      ensures forall l :: 0 <= l < |NodeLayers| ==> Separate(NodeLayers[l], xc)
      ensures Stripped(xc, yc)
    {
      var n := |NodeLayers|;
      var distance := LayerDistance(yc, n);
      forall l | 0 <= l < n ensures Separate(NodeLayers[l], xc) {
        LayerSeparate(l, xc, distance);
      }
      StripHeight(yc, n);
      forall l | 0 <= l < n && Fits(|NodeLayers[l]|, xc - BOX_WIDTH, yc / n as real)
        ensures InStrips(NodeLayers[l], l, yc / n as real)
      {
        PlacedInStrip(NodeLayers[l], l, xc - BOX_WIDTH, distance);
      }
    }

    lemma LayerSeparate(l: nat, xc: real, distance: real)
      requires l < |NodeLayers| && xc > BOX_WIDTH && LayerPlaced(l, xc - BOX_WIDTH, distance)
      ensures Separate(NodeLayers[l], xc)
    {
      PlacedApart(NodeLayers[l], l, xc - BOX_WIDTH, distance);
    }
  }

  lemma StripHeight(yc: real, n: nat)
    requires n > 0
    ensures LayerDistance(yc, n) + BOX_HEIGHT == yc / n as real
  {
  }

  lemma RearrangedConsistent(list: seq<TreeNode>, layers: seq<seq<TreeNode>>, l: nat, s: seq<TreeNode>)
    requires Consistent(list, layers) && l < |layers| && multiset(s) == multiset(layers[l])
    ensures Consistent(list, layers[l := s])
  {
    assert |multiset(s)| == |s| && |multiset(layers[l])| == |layers[l]|;
  }

  ghost predicate EachOnce(list: seq<TreeNode>) {
    forall i, j :: 0 <= i < j < |list| ==> list[i] != list[j]
  }

  ghost predicate Separate(s: seq<TreeNode>, xc: real)
    reads s
  {
    && (forall i, j :: 0 <= i < j < |s| ==> !Overlap(s[i], s[j]))
    && (forall k :: 0 <= k < |s| ==> 0.0 < s[k].x && s[k].x + BOX_WIDTH < xc)
  }

  lemma NextRow(room: int, n: nat)
    requires room > 1
    ensures (n % room + 1) % room == (n + 1) % room
  {
    var a, b := n / room, n % room;
    assert n + 1 == room * a + (b + 1);
    if b + 1 == room {
      Remainder(n + 1, room, a + 1, 0);
      Remainder(room, room, 1, 0);
    } else {
      Remainder(n + 1, room, a, b + 1);
      Remainder(b + 1, room, 0, b + 1);
    }
  }

  lemma SmallMultiple(room: int, d: int)
    requires -room < room * d < room
    ensures d == 0
  {
  }

  lemma Remainder(x: int, room: int, q: int, r: int)
    requires room > 0 && 0 <= r < room && x == room * q + r
    ensures x % room == r
  {
    SmallMultiple(room, q - x / room);
  }

  lemma {:induction false} OfLayerDistinct(list: seq<TreeNode>, l: nat, n: TreeNode)
    requires EachOnce(list)
    ensures multiset(OfLayer(list, l))[n] <= 1
    decreases |list|
  {
    if list != [] {
      var init, last := list[..|list| - 1], list[|list| - 1];
      OfLayerDistinct(init, l, n);
      OfLayerMember(init, l, n);
      assert n in OfLayer(init, l) <==> n in multiset(OfLayer(init, l));
    }
  }

  /** A layer's nodes are listed, each once if it is listed once, and in no other layer. */
  lemma LayerNodes(list: seq<TreeNode>, layers: seq<seq<TreeNode>>, l: nat)
    requires Consistent(list, layers) && l < |layers|
    ensures forall k :: 0 <= k < |layers[l]| ==> layers[l][k] in list
    ensures EachOnce(list) ==> EachOnce(layers[l])
    ensures forall m, i, j :: 0 <= m < |layers| && m != l && 0 <= i < |layers[l]| && 0 <= j < |layers[m]| ==>
      layers[l][i] != layers[m][j]
  {
    var s := layers[l];
    forall k | 0 <= k < |s| ensures s[k] in list {
      InLayer(list, layers, l, s[k]);
    }
    forall i, j | EachOnce(list) && 0 <= i < j < |s| ensures s[i] != s[j] {
      OfLayerDistinct(list, l, s[i]);
      assert s == s[..j] + [s[j]] + s[j + 1..];
      assert s[i] in s[..j] && multiset(s[..j])[s[i]] >= 1;
    }
    forall m, i, j | 0 <= m < |layers| && m != l && 0 <= i < |s| && 0 <= j < |layers[m]| ensures s[i] != layers[m][j] {
      InLayer(list, layers, l, s[i]);
      InLayer(list, layers, m, layers[m][j]);
    }
  }

  function Added(layers: seq<seq<TreeNode>>, node: TreeNode): seq<seq<TreeNode>>
    requires node.layer <= |layers|
  {
    if node.layer == |layers| then layers + [[node]] else layers[node.layer := layers[node.layer] + [node]]
  }

  lemma AddedConsistent(list: seq<TreeNode>, layers: seq<seq<TreeNode>>, node: TreeNode)
    requires Consistent(list, layers) && node.Valid() && node.layer <= |layers|
    ensures Consistent(list + [node], Added(layers, node))
  {
    var more := Added(layers, node);
    assert (list + [node])[..|list|] == list;
    forall l | 0 <= l < |more| ensures multiset(more[l]) == multiset(OfLayer(list + [node], l)) {
      LayerAdded(list, layers, node, l);
    }
    forall k | 0 <= k < |list + [node]| ensures (list + [node])[k].Valid() && (list + [node])[k].layer < |more| {
      assert (list + [node])[k] == if k < |list| then list[k] else node;
    }
    forall l | 1 <= l < |more| ensures more[l] != [] {
    }
  }

  lemma LayerAdded(list: seq<TreeNode>, layers: seq<seq<TreeNode>>, node: TreeNode, l: nat)
    requires Consistent(list, layers) && node.layer <= |layers| && l < |Added(layers, node)|
    ensures multiset(Added(layers, node)[l]) == multiset(OfLayer(list + [node], l))
  {
    assert (list + [node])[..|list|] == list;
    if l == |layers| {
      NoneThere(list, l);
    }
  }

  lemma {:induction false} NoneThere(list: seq<TreeNode>, l: nat)
    requires forall k :: 0 <= k < |list| ==> list[k].layer < l
    ensures OfLayer(list, l) == []
  {
    if list != [] {
      NoneThere(list[..|list| - 1], l);
    }
  }

  lemma AddedDistinct(list: seq<TreeNode>, node: TreeNode)
    ensures Distinct(list) && Address(node.id) && (forall n :: n in list ==> n.id != node.id) ==>
      Distinct(list + [node])
  {
    if Distinct(list) && Address(node.id) && (forall n :: n in list ==> n.id != node.id) {
      var i :| 0 <= i < |list| && list[i].id == "0";
      assert (list + [node])[i].id == "0";
      forall i, j | 0 <= i < j < |list + [node]| ensures (list + [node])[i].id != (list + [node])[j].id {
        assert (list + [node])[i] in list;
      }
    }
  }
}
