/** The tree builder and checker of the binary-trees benchmark (the Computer Language
    Benchmarks Game program), common to its C, Rust, Java, JavaScript and Python versions. */
module BinaryTrees {
  import opened Wrappers

  /** A tree node. Every version stores two nullable child links and an integer item; the
      field order is that of the Python tuple `(left, right, item)`. */
  datatype Node = Node(left: Option<Node>, right: Option<Node>, item: int)

  function Max(a: int, b: int): (r: int) { if a < b then b else a }

  /** Rust's `Node::new(item)`: a node without children, which checks to its own item and is
      the perfect tree of height 0 when its item is 0. */
  function NewLeaf(item: int): (r: Node)
    ensures Full(r) && Height(r) == 0
    ensures Checkable(r) && CheckTree(r) == item && Check(r) == Some(item)
    ensures item == 0 <==> Perfect(r, 0)
  {
    Node(None, None, item)
  }

  /** Rust's `Node::new_with_children(item, left, right)`: two full subtrees give a full
      tree, and two perfect subtrees of height `item - 1` give the perfect tree of height
      `item`. */
  function NewWithChildren(item: int, left: Node, right: Node): (r: Node)
    ensures Full(r) <==> Full(left) && Full(right)
    ensures Height(r) == 1 + Max(Height(left), Height(right))
    ensures item > 0 && Perfect(left, item - 1) && Perfect(right, item - 1) ==> Perfect(r, item)
  {
    Node(Some(left), Some(right), item)
  }

  /** Every node has either two children or none. */
  ghost predicate Full(t: Node)
  {
    && (t.left.Some? <==> t.right.Some?)
    && (t.left.Some? ==> Full(t.left.value))
    && (t.right.Some? ==> Full(t.right.value))
  }

  /** What the left-only NULL test of `check_tree`/`checkTree` needs to dereference `right`
      safely: every node that has a left child also has a right child. */
  ghost predicate Checkable(t: Node)
  {
    && (t.left.Some? ==> t.right.Some? && Checkable(t.left.value) && Checkable(t.right.value))
  }

  /** The height of a tree: 0 for a node without a left child. */
  function Height(t: Node): (r: nat)
  {
    match t.left
    case None => 0
    case Some(l) =>
      var hl := Height(l);
      var hr := if t.right.Some? then Height(t.right.value) else 0;
      1 + Max(hl, hr)
  }

  /** A perfect tree of height `h`: every path from the root has exactly `h` edges, and the
      node at distance `k` from the root carries item `h - k` (leaves carry 0). */
  ghost predicate Perfect(t: Node, h: nat)
    decreases h
  {
    if h == 0 then t.left.None? && t.right.None? && t.item == 0
    else
      && t.left.Some? && t.right.Some? && t.item == h
      && Perfect(t.left.value, h - 1) && Perfect(t.right.value, h - 1)
  }

  /** `make_tree(depth)`: a node with item `depth` and two copies of `make_tree(depth - 1)`
      when `depth > 0`, otherwise a leaf with item 0. */
  function MakeTree(depth: int): (r: Node)
    ensures Perfect(r, Max(depth, 0))
    decreases Max(depth, 0)
  {
    if depth <= 0 then NewLeaf(0)
    else NewWithChildren(depth, MakeTree(depth - 1), MakeTree(depth - 1))
  }

  /** `check_tree(node)` in C, Java, JavaScript and Python: a node without a left child
      yields its item, any other node `item + check(left) - check(right)`. */
  function CheckTree(t: Node): (r: int)
    requires Checkable(t)
    ensures Full(t) ==> Check(t) == Some(r)
  {
    match t.left
    case None => t.item
    case Some(l) => t.item + CheckTree(l) - CheckTree(t.right.value)
  }

  /** Rust's `Node::check`, which matches on both children; the mixed case is
      `unreachable!()`, a panic, modelled as `None`. It panics exactly on a tree with a
      node that has one child. */
  function Check(t: Node): (r: Option<int>)
    ensures r.Some? <==> Full(t)
  {
    match (t.left, t.right)
    case (None, None) => Some(t.item)
    case (Some(l), Some(r)) =>
      (match (Check(l), Check(r))
       case (Some(cl), Some(cr)) => Some(t.item + cl - cr)
       case _ => None)
    case _ => None
  }

  /** A perfect tree has two children or none at every node. */
  lemma {:induction false} PerfectIsFull(t: Node, h: nat)
    requires Perfect(t, h)
    ensures Full(t) && Height(t) == h
  {
    if h > 0 {
      PerfectIsFull(t.left.value, h - 1);
      PerfectIsFull(t.right.value, h - 1);
    }
  }

  /** A full tree passes the left-only NULL test safely. */
  lemma {:induction false} FullIsCheckable(t: Node)
    requires Full(t)
    ensures Checkable(t)
  {
    if t.left.Some? {
      FullIsCheckable(t.left.value);
      FullIsCheckable(t.right.value);
    }
  }

  /** Every tree `make_tree` builds has two children or none at every node, so the left-only
      test of `check_tree` is sound and Rust's `unreachable!()` arm is never hit. */
  lemma MakeTreeIsFull(depth: int)
    ensures Full(MakeTree(depth)) && Checkable(MakeTree(depth))
    ensures Height(MakeTree(depth)) == Max(depth, 0)
    ensures Check(MakeTree(depth)) == Some(CheckTree(MakeTree(depth)))
  {
    PerfectIsFull(MakeTree(depth), Max(depth, 0));
    FullIsCheckable(MakeTree(depth));
  }

  /** The check of a perfect tree of height `h` is `h`: the two subtrees of every inner node
      are alike, so their checks cancel and only the root's item remains. */
  lemma {:induction false} CheckPerfect(t: Node, h: nat)
    requires Perfect(t, h)
    ensures Checkable(t) && CheckTree(t) == h
  {
    PerfectIsFull(t, h);
    FullIsCheckable(t);
    if h > 0 {
      CheckPerfect(t.left.value, h - 1);
      CheckPerfect(t.right.value, h - 1);
    }
  }

  /** `check_tree(make_tree(d)) == max(d, 0)` in every version. */
  lemma CheckMakeTree(depth: int)
    ensures Checkable(MakeTree(depth)) && CheckTree(MakeTree(depth)) == Max(depth, 0)
  {
    CheckPerfect(MakeTree(depth), Max(depth, 0));
  }

  /** Rust's `make_tree(d).check() == max(d, 0)`. */
  lemma RustCheckMakeTree(depth: int)
    ensures Check(MakeTree(depth)) == Some(Max(depth, 0))
  {
    CheckMakeTree(depth);
    MakeTreeIsFull(depth);
  }
}
