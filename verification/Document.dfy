// The part of the DOM that Sizzle reads: a finite tree whose nodes are named
// by the path of child positions leading to them from the root.  The root
// path [] is the `document` node.

module Document {
  import opened Wrappers

  /** `element` is `nodeType === 1`; text, comment and document nodes are not elements. */
  datatype Tree = Node(element: bool, children: seq<Tree>)

  type Path = seq<nat>

  datatype Dir = ParentNode | PreviousSibling

  function Init(p: Path): (r: Path)
    requires p != []
  {
    p[..|p| - 1]
  }

  function Last(p: Path): nat
    requires p != []
  {
    p[|p| - 1]
  }

  /** The subtree a path leads to, if the document has such a node. */
  function At(t: Tree, p: Path): Option<Tree> {
    if p == [] then Some(t)
    else
      match At(t, Init(p))
      case None => None
      case Some(u) => if Last(p) < |u.children| then Some(u.children[Last(p)]) else None
  }

  predicate InDoc(t: Tree, p: Path) {
    At(t, p).Some?
  }

  predicate IsElement(t: Tree, p: Path) {
    At(t, p).Some? && At(t, p).value.element
  }

  /** `elem[dir]` */
  function Step(dir: Dir, p: Path): Option<Path> {
    if p == [] then None
    else
      match dir
      case ParentNode => Some(Init(p))
      case PreviousSibling => if Last(p) == 0 then None else Some(Init(p) + [Last(p) - 1])
  }

  /** How many steps in direction `dir` are left. */
  function Remaining(dir: Dir, p: Path): nat {
    if p == [] then 0 else if dir == ParentNode then |p| else Last(p)
  }

  /** The node `k` steps away in direction `dir`. */
  function Along(dir: Dir, p: Path, k: nat): Option<Path>
    decreases k
  {
    if k == 0 then Some(p)
    else
      match Step(dir, p)
      case None => None
      case Some(q) => Along(dir, q, k - 1)
  }

  lemma StepDecreases(dir: Dir, p: Path)
    ensures Step(dir, p).Some? ==> Remaining(dir, Step(dir, p).value) < Remaining(dir, p)
  {
    if Step(dir, p).Some? && dir == PreviousSibling {
      var q := Step(dir, p).value;
      assert Last(q) == Last(p) - 1;
    }
  }

  /** Falls with every step in either direction. */
  function Weight(p: Path): nat {
    if p == [] then 0 else Weight(Init(p)) + Last(p) + 1
  }

  lemma StepLightens(dir: Dir, p: Path)
    ensures Step(dir, p).Some? ==> Weight(Step(dir, p).value) < Weight(p)
  {
    if Step(dir, p).Some? && dir == PreviousSibling {
      var q := Step(dir, p).value;
      assert Init(q) == Init(p) && Last(q) == Last(p) - 1;
    }
  }

  // ----- Document order ----------------------------------------------------

  /** The nodes of `t`, itself first, in document order; `base` is its own path. */
  function NodesFrom(t: Tree, base: Path): (r: seq<Path>)
    decreases t, |t.children| + 1
  {
    [base] + ChildNodes(t, base, 0)
  }

  /** The nodes below the children of `t` from position `i` on. */
  function ChildNodes(t: Tree, base: Path, i: nat): (r: seq<Path>)
    requires i <= |t.children|
    decreases t, |t.children| - i
  {
    if i == |t.children| then []
    else NodesFrom(t.children[i], base + [i]) + ChildNodes(t, base, i + 1)
  }

  function Nodes(t: Tree): seq<Path> {
    NodesFrom(t, [])
  }

  function Where(ps: seq<Path>, test: Path -> bool): (r: seq<Path>) {
    if ps == [] then []
    else (if test(ps[0]) then [ps[0]] else []) + Where(ps[1..], test)
  }

  /** `getElementsByTagName("*")` on the document. */
  function Elements(t: Tree): seq<Path> {
    Where(ChildNodes(t, [], 0), p => IsElement(t, p))
  }
}
