/** avltree.c on its own data: nodes with parent, child and cached depth fields,
    relinked in place. Each operation is proved against the trees of AvlShape. */
module AvlHeap {
  import opened AvlShape

  /** The node graph at `at` is exactly the tree t: child links, parent links
      (`up` for the root) and cached depths. */
  ghost predicate Linked(t: Tree, at: Node?, up: Node?)
    reads Nodes(t)
  {
    match t
    case Nil => at == null
    case Bin(l, n, r) =>
      && at == n && n.parent == up && n.depth == Height(t)
      && Linked(l, n.left, n) && Linked(r, n.right, n)
  }

  function DepthOf(n: Node?): int
    reads n
  {
    if n == null then 0 else n.depth
  }

  /** The macro HEIGHT: from the cached depths of the children. */
  function HeightOf(n: Node?): int
    reads n, if n == null then {} else {n.left, n.right}
  {
    if n == null then 0 else Max(DepthOf(n.left), DepthOf(n.right)) + 1
  }

  lemma HeightIs(t: Tree, at: Node?, up: Node?)
    requires Linked(t, at, up)
    ensures HeightOf(at) == Height(t)
  {
    if t.Bin? {
      assert DepthOf(t.node.left) == Height(t.left) && DepthOf(t.node.right) == Height(t.right);
    }
  }

  /** Points the root of t, if there is one, at a new parent. */
  method Reparent(at: Node?, parent: Node, ghost t: Tree, ghost up: Node?)
    requires Linked(t, at, up) && Distinct(t)
    modifies Nodes(t)
    ensures Linked(t, at, parent)
  {
    if at != null {
      at.parent := parent;
    }
  }

  /** n->depth = HEIGHT(n), when everything below n is in order. */
  method SetDepth(n: Node, ghost l: Tree, ghost r: Tree)
    requires Linked(l, n.left, n) && Linked(r, n.right, n) && n !in Nodes(l) && n !in Nodes(r)
    modifies n`depth
    ensures Linked(Bin(l, n, r), n, n.parent)
  {
    assert DepthOf(n.left) == Height(l) && DepthOf(n.right) == Height(r);
    n.depth := HeightOf(n);
  }

  /** The right subtree of temp becomes the left one of the node. */
  method TakeRight(node: Node, temp: Node, ghost b: Tree)
    requires node != temp && node !in Nodes(b) && temp !in Nodes(b) && Distinct(b) && Linked(b, temp.right, temp)
    modifies node`left, Nodes(b)
    ensures Linked(b, node.left, node)
  {
    assert allocated(Nodes(b));
    node.left := temp.right;
    Reparent(node.left, node, b, temp);
  }

  method TakeLeft(node: Node, temp: Node, ghost b: Tree)
    requires node != temp && node !in Nodes(b) && temp !in Nodes(b) && Distinct(b) && Linked(b, temp.left, temp)
    modifies node`right, Nodes(b)
    ensures Linked(b, node.right, node)
  {
    assert allocated(Nodes(b));
    node.right := temp.left;
    Reparent(node.right, node, b, temp);
  }

  /** The links of LL; depths are still to be set. */
  method TurnLL(node: Node, ghost a: Tree, ghost b: Tree, ghost c: Tree) returns (temp: Node)
    requires node.left != null && node.left != node
    requires var la, lb, lc :=
        Linked(a, node.left.left, node.left), Linked(b, node.left.right, node.left), Linked(c, node.right, node);
      la && lb && lc
    requires node !in Nodes(a) && node !in Nodes(b) && node !in Nodes(c)
    requires node.left !in Nodes(a) && node.left !in Nodes(b) && node.left !in Nodes(c)
    requires Nodes(a) !! Nodes(b) && Nodes(b) !! Nodes(c) && Distinct(b)
    modifies node, node.left, Nodes(b)
    ensures temp == old(node.left) && temp.right == node && node.parent == temp && temp.parent == old(node.parent)
    ensures var la, lb, lc := Linked(a, temp.left, temp), Linked(b, node.left, node), Linked(c, node.right, node);
      la && lb && lc
  {
    assert allocated(Nodes(a)) && allocated(Nodes(b)) && allocated(Nodes(c));
    temp := node.left;
    TakeRight(node, temp, b);
    temp.parent := node.parent;
    temp.right := node;
    node.parent := temp;
  }

  method LL(node: Node, ghost a: Tree, ghost b: Tree, ghost c: Tree) returns (temp: Node)
    requires node.left != null && node.left != node
    requires var la, lb, lc :=
        Linked(a, node.left.left, node.left), Linked(b, node.left.right, node.left), Linked(c, node.right, node);
      la && lb && lc
    requires node !in Nodes(a) && node !in Nodes(b) && node !in Nodes(c)
    requires node.left !in Nodes(a) && node.left !in Nodes(b) && node.left !in Nodes(c)
    requires Nodes(a) !! Nodes(b) && Nodes(b) !! Nodes(c) && Distinct(b)
    modifies node, node.left, Nodes(b)
    ensures temp == old(node.left)
    ensures var linked := Linked(Bin(a, temp, Bin(b, node, c)), temp, old(node.parent)); linked
  {
    assert allocated(Nodes(a)) && allocated(Nodes(c)) && allocated(Nodes(b));
    temp := TurnLL(node, a, b, c);
    SetDepth(node, b, c);
    SetDepth(temp, a, Bin(b, node, c));
  }

  /** The links of RR; depths are still to be set. */
  method TurnRR(node: Node, ghost a: Tree, ghost b: Tree, ghost c: Tree) returns (temp: Node)
    requires node.right != null && node.right != node
    requires var la, lb, lc :=
        Linked(a, node.left, node), Linked(b, node.right.left, node.right), Linked(c, node.right.right, node.right);
      la && lb && lc
    requires node !in Nodes(a) && node !in Nodes(b) && node !in Nodes(c)
    requires node.right !in Nodes(a) && node.right !in Nodes(b) && node.right !in Nodes(c)
    requires Nodes(a) !! Nodes(b) && Nodes(b) !! Nodes(c) && Distinct(b)
    modifies node, node.right, Nodes(b)
    ensures temp == old(node.right) && temp.left == node && node.parent == temp && temp.parent == old(node.parent)
    ensures var la, lb, lc := Linked(a, node.left, node), Linked(b, node.right, node), Linked(c, temp.right, temp);
      la && lb && lc
  {
    assert allocated(Nodes(a)) && allocated(Nodes(b)) && allocated(Nodes(c));
    temp := node.right;
    TakeLeft(node, temp, b);
    temp.parent := node.parent;
    temp.left := node;
    node.parent := temp;
  }

  method RR(node: Node, ghost a: Tree, ghost b: Tree, ghost c: Tree) returns (temp: Node)
    requires node.right != null && node.right != node
    requires var la, lb, lc :=
        Linked(a, node.left, node), Linked(b, node.right.left, node.right), Linked(c, node.right.right, node.right);
      la && lb && lc
    requires node !in Nodes(a) && node !in Nodes(b) && node !in Nodes(c)
    requires node.right !in Nodes(a) && node.right !in Nodes(b) && node.right !in Nodes(c)
    requires Nodes(a) !! Nodes(b) && Nodes(b) !! Nodes(c) && Distinct(b)
    modifies node, node.right, Nodes(b)
    ensures temp == old(node.right)
    ensures var linked := Linked(Bin(Bin(a, node, b), temp, c), temp, old(node.parent)); linked
  {
    assert allocated(Nodes(a)) && allocated(Nodes(c)) && allocated(Nodes(b));
    temp := TurnRR(node, a, b, c);
    SetDepth(node, a, b);
    SetDepth(temp, Bin(a, node, b), c);
  }

  method RL(node: Node, ghost a: Tree, ghost b: Tree, ghost y: Node, ghost c: Tree, ghost x: Node, ghost d: Tree)
    returns (top: Node)
    requires Linked(a, node.left, node) && Linked(Bin(Bin(b, y, c), x, d), node.right, node)
    requires Distinct(Bin(a, node, Bin(Bin(b, y, c), x, d)))
    modifies node, Nodes(Bin(Bin(b, y, c), x, d))
    ensures var linked := Linked(Bin(Bin(a, node, b), y, Bin(c, x, d)), top, old(node.parent)); linked
  {
    assert allocated(Nodes(a)) && allocated(Nodes(b));
    assert Distinct(Bin(Bin(b, y, c), x, d)) && Distinct(Bin(b, y, c));
    node.right := LL(node.right, b, c, d);
    assert allocated(Nodes(Bin(c, x, d)));
    ghost var la, lb := Linked(a, node.left, node), Linked(b, node.right.left, node.right);
    assert la && lb;
    top := RR(node, a, b, Bin(c, x, d));
  }

  method LR(node: Node, ghost a: Tree, ghost x: Node, ghost b: Tree, ghost y: Node, ghost c: Tree, ghost d: Tree)
    returns (top: Node)
    requires Linked(Bin(a, x, Bin(b, y, c)), node.left, node) && Linked(d, node.right, node)
    requires Distinct(Bin(Bin(a, x, Bin(b, y, c)), node, d))
    modifies node, Nodes(Bin(a, x, Bin(b, y, c)))
    ensures var linked := Linked(Bin(Bin(a, x, b), y, Bin(c, node, d)), top, old(node.parent)); linked
  {
    assert allocated(Nodes(c)) && allocated(Nodes(d));
    assert Distinct(Bin(a, x, Bin(b, y, c))) && Distinct(Bin(b, y, c));
    node.left := RR(node.left, a, b, c);
    assert allocated(Nodes(Bin(a, x, b)));
    ghost var lb, lc := Linked(c, node.left.right, node.left), Linked(d, node.right, node);
    assert lb && lc;
    top := LL(node, Bin(a, x, b), c, d);
  }

  /** avl_tree_adjust. Whatever the shape, it never follows a null link. */
  method AdjustNode(node: Node, ghost l: Tree, ghost r: Tree) returns (top: Node)
    requires Linked(Bin(l, node, r), node, node.parent)
    requires Distinct(Bin(l, node, r))
    modifies Nodes(Bin(l, node, r))
    ensures Linked(Adjust(Bin(l, node, r)), top, old(node.parent))
  {
    var left, right := node.left, node.right;
    HeightIs(l, left, node);
    HeightIs(r, right, node);
    if -2 < HeightOf(left) - HeightOf(right) < 2 {
      return node;
    }
    if HeightOf(left) > HeightOf(right) {
      HeightIs(l.left, left.left, left);
      HeightIs(l.right, left.right, left);
      if HeightOf(left.left) > HeightOf(left.right) {
        top := LL(node, l.left, l.right, r);
      } else {
        top := LR(node, l.left, l.node, l.right.left, l.right.node, l.right.right, r);
      }
    } else {
      HeightIs(r.left, right.left, right);
      HeightIs(r.right, right.right, right);
      if HeightOf(right.left) > HeightOf(right.right) {
        top := RL(node, l, r.left.left, r.left.node, r.left.right, r.node, r.right);
      } else {
        top := RR(node, l, r.left, r.right);
      }
    }
  }

  function Holder(c: Path, top: Node?): Node? {
    if c.Top? then top else c.node
  }

  /** The nodes of the path c are linked around a hole whose root is `hole`; the
      topmost of them has the parent `top`. Depths on the path itself are stale. */
  ghost predicate PathLinked(c: Path, hole: Node?, top: Node?)
    reads PathNodes(c)
  {
    match c
    case Top => true
    case LeftOf(n, r, up) =>
      && n.left == hole && n.parent == Holder(up, top)
      && Linked(r, n.right, n) && PathLinked(up, n, top)
    case RightOf(l, n, up) =>
      && n.right == hole && n.parent == Holder(up, top)
      && Linked(l, n.left, n) && PathLinked(up, n, top)
  }

  /** The topmost node of a path, or the root of what is in its hole. */
  function TopOf(d: Path, hole: Node?): Node? {
    if d.Top? then hole else TopOf(d.up, d.node)
  }

  lemma {:induction false} PathAppend(d: Path, e: Path, hole: Node?, top: Node?)
    requires PathLinked(d, hole, Holder(e, top)) && PathLinked(e, TopOf(d, hole), top)
    ensures PathLinked(Append(d, e), hole, top)
    ensures TopOf(Append(d, e), hole) == TopOf(e, TopOf(d, hole))
    ensures Holder(Append(d, e), top) == Holder(d, Holder(e, top))
  {
    if d.Top? {
    } else {
      PathAppend(d.up, e, d.node, top);
    }
  }

  /** The node graph seen from the node p: its subtrees l and r, and the path c to
      the root. Only p and the nodes on c may have stale depths. */
  ghost predicate Focus(c: Path, l: Tree, p: Node, r: Tree)
    reads p, Nodes(l), Nodes(r), PathNodes(c)
  {
    var lower, upper, above := Linked(l, p.left, p), Linked(r, p.right, p), PathLinked(c, p, null);
    var distinct, apart := Distinct(Bin(l, p, r)), Apart(c, Nodes(Bin(l, p, r)));
    p.parent == Holder(c, null) && lower && upper && above && distinct && apart
  }

  method RefreshDepth(p: Node, ghost c: Path, ghost l: Tree, ghost r: Tree)
    requires Focus(c, l, p, r)
    modifies p
    ensures Focus(c, l, p, r) && Linked(Bin(l, p, r), p, p.parent)
  {
    assert allocated(Nodes(l)) && allocated(Nodes(r)) && allocated(PathNodes(c));
    ApartIsDisjoint(c, Nodes(Bin(l, p, r)));
    assert p in Nodes(Bin(l, p, r));
    p.depth := HeightOf(p);
  }

  /** One turn of the loop at a left child: adjust it, now seen from its parent. */
  method ClimbLeft(p: Node, ghost c: Path, ghost l: Tree, ghost r: Tree) returns (q: Node)
    requires c.LeftOf? && Focus(c, l, p, r) && Linked(Bin(l, p, r), p, p.parent)
    modifies Nodes(Bin(l, p, r)), c.node
    ensures q == c.node && Focus(c.up, Adjust(Bin(l, p, r)), q, c.right)
  {
    assert allocated(Nodes(c.right)) && allocated(PathNodes(c.up));
    AdjustKeeps(Bin(l, p, r));
    ApartIsDisjoint(c.up, Nodes(Bin(l, p, r)) + {c.node} + Nodes(c.right));
    q := p.parent;
    q.left := AdjustNode(q.left, l, r);
    ghost var beside, above := Linked(c.right, q.right, q), PathLinked(c.up, q, null);
    assert beside && above;
    assert Nodes(Bin(Adjust(Bin(l, p, r)), q, c.right)) == Nodes(Bin(l, p, r)) + {q} + Nodes(c.right);
  }

  method ClimbRight(p: Node, ghost c: Path, ghost l: Tree, ghost r: Tree) returns (q: Node)
    requires c.RightOf? && Focus(c, l, p, r) && Linked(Bin(l, p, r), p, p.parent)
    modifies Nodes(Bin(l, p, r)), c.node
    ensures q == c.node && Focus(c.up, c.left, q, Adjust(Bin(l, p, r)))
  {
    assert allocated(Nodes(c.left)) && allocated(PathNodes(c.up));
    AdjustKeeps(Bin(l, p, r));
    ApartIsDisjoint(c.up, Nodes(c.left) + {c.node} + Nodes(Bin(l, p, r)));
    q := p.parent;
    q.right := AdjustNode(q.right, l, r);
    ghost var beside, above := Linked(c.left, q.left, q), PathLinked(c.up, q, null);
    assert beside && above;
    assert Nodes(Bin(c.left, q, Adjust(Bin(l, p, r)))) == Nodes(c.left) + {q} + Nodes(Bin(l, p, r));
  }

  lemma FocusSide(c: Path, l: Tree, p: Node, r: Tree)
    requires Focus(c, l, p, r)
    ensures p.parent == Holder(c, null)
    ensures c.LeftOf? ==> p == p.parent.left
    ensures c.RightOf? ==> p != p.parent.left
  {
  }

  /** What the loop does at p when p has a parent. */
  method Climb(p: Node, ghost c: Path, ghost l: Tree, ghost r: Tree)
    returns (q: Node, ghost c': Path, ghost l': Tree, ghost r': Tree)
    requires Focus(c, l, p, r) && Linked(Bin(l, p, r), p, p.parent) && p.parent != null
    modifies Nodes(Bin(l, p, r)), p.parent
    ensures Focus(c', l', q, r') && !c.Top? && c' == c.up
    ensures Up(c', Adjust(Bin(l', q, r'))) == Up(c, Adjust(Bin(l, p, r)))
    ensures Nodes(Bin(l', q, r')) <= Nodes(Bin(l, p, r)) + PathNodes(c) && PathNodes(c') <= PathNodes(c)
    ensures Length(c') < Length(c)
  {
    FocusSide(c, l, p, r);
    AdjustKeeps(Bin(l, p, r));
    c' := c.up;
    if p == p.parent.left {
      l', r' := Adjust(Bin(l, p, r)), c.right;
      q := ClimbLeft(p, c, l, r);
    } else {
      l', r' := c.left, Adjust(Bin(l, p, r));
      q := ClimbRight(p, c, l, r);
    }
  }

  /** The subtree t, whose root is p, hangs in the node graph at the end of the path c. */
  ghost predicate Found(c: Path, t: Tree, p: Node?)
    reads Nodes(t), PathNodes(c)
  {
    var below, above := Linked(t, p, Holder(c, null)), PathLinked(c, p, null);
    var distinct, apart := Distinct(t), Apart(c, Nodes(t));
    below && above && distinct && apart
  }

  /** Moving the focus down one link. */
  lemma Descend(c: Path, t: Tree)
    requires t.Bin? && Distinct(t) && Apart(c, Nodes(t))
    requires Linked(t, t.node, Holder(c, null)) && PathLinked(c, t.node, null)
    ensures Apart(LeftOf(t.node, t.right, c), Nodes(t.left))
    ensures Apart(RightOf(t.left, t.node, c), Nodes(t.right))
    ensures PathLinked(LeftOf(t.node, t.right, c), t.node.left, null)
    ensures PathLinked(RightOf(t.left, t.node, c), t.node.right, null)
  {
  }

  /** The link that a search for the key follows. */
  ghost function Next(n: Node, key: int): Node?
    reads n
  {
    if key > n.key then n.right else n.left
  }

  /** A search from the node `top` on comes by the nodes `above`, and no others, to p. */
  ghost predicate Walked(above: seq<Node>, top: Node?, key: int, p: Node?)
    reads above
  {
    && (if above == [] then p == top else above[0] == top && p == Next(above[|above| - 1], key))
    && forall i | 0 < i < |above| :: above[i] == Next(above[i - 1], key)
  }

  lemma WalksOn(above: seq<Node>, top: Node?, key: int, p: Node)
    requires Walked(above, top, key, p)
    ensures Walked(above + [p], top, key, Next(p, key))
  {
  }

  method MakeLeaf(node: Node, parent: Node)
    modifies node
    ensures Linked(Bin(Nil, node, Nil), node, parent)
  {
    node.parent := parent;
    node.left, node.right := null, null;
    node.depth := 1;
  }

  /** add_to_left */
  method AddToLeft(node: Node, p: Node, ghost c: Path, ghost r: Tree)
    requires Focus(c, Nil, p, r) && node !in {p} + Nodes(r) + PathNodes(c)
    modifies node, p
    ensures Focus(c, Bin(Nil, node, Nil), p, r)
  {
    assert allocated(Nodes(r)) && allocated(PathNodes(c));
    ApartIsDisjoint(c, Nodes(Bin(Nil, p, r)));
    ghost var leaf := Bin(Nil, node, Nil);
    assert Nodes(leaf) == {node} && Nodes(Bin(leaf, p, r)) == Nodes(Bin(Nil, p, r)) + {node};
    ApartOff(c, Nodes(Bin(Nil, p, r)), Nodes(Bin(leaf, p, r)));
    p.left := node;
    MakeLeaf(node, p);
  }

  /** add_to_right */
  method AddToRight(node: Node, p: Node, ghost c: Path, ghost l: Tree)
    requires Focus(c, l, p, Nil) && node !in {p} + Nodes(l) + PathNodes(c)
    modifies node, p
    ensures Focus(c, l, p, Bin(Nil, node, Nil))
  {
    assert allocated(Nodes(l)) && allocated(PathNodes(c));
    ApartIsDisjoint(c, Nodes(Bin(l, p, Nil)));
    ghost var leaf := Bin(Nil, node, Nil);
    assert Nodes(leaf) == {node} && Nodes(Bin(l, p, leaf)) == Nodes(Bin(l, p, Nil)) + {node};
    ApartOff(c, Nodes(Bin(l, p, Nil)), Nodes(Bin(l, p, leaf)));
    p.right := node;
    MakeLeaf(node, p);
  }

  /** The node a path under `top` hangs from. */
  function HolderUnder(d: Path, top: Node): Node {
    if d.Top? then top else d.node
  }

  /** Walks to the largest node below the right link of `top`. */
  method FindMax(top: Node, ghost t: Tree) returns (temp: Node, ghost d: Path, ghost a: Tree)
    requires t.Bin? && Linked(t, top.right, top) && Distinct(t)
    ensures temp == MaxNode(t) && !d.LeftOf? && top.right == TopOf(d, temp)
    ensures Linked(Bin(a, temp, Nil), temp, Holder(d, top)) && PathLinked(d, temp, top)
    ensures Distinct(Bin(a, temp, Nil)) && Apart(d, Nodes(Bin(a, temp, Nil)))
    ensures Nodes(Bin(a, temp, Nil)) + PathNodes(d) == Nodes(t) && Up(d, a) == RemoveMax(t)
  {
    temp := top.right;
    ghost var u := t;
    d := Top;
    while temp.right != null
      invariant Linked(u, temp, Holder(d, top)) && PathLinked(d, temp, top) && top.right == TopOf(d, temp)
      invariant u.Bin? && Distinct(u) && Apart(d, Nodes(u)) && Nodes(u) + PathNodes(d) == Nodes(t)
      invariant MaxNode(u) == MaxNode(t) && Up(d, RemoveMax(u)) == RemoveMax(t) && !d.LeftOf?
      decreases u
    {
      d, u := RightOf(u.left, temp, d), u.right;
      temp := temp.right;
    }
    a := u.left;
  }

  /** Unhooks the node at the end of the path d below the right link of `top`,
      leaving its left subtree a there. */
  method UnhookMax(top: Node, temp: Node, ghost d: Path, ghost a: Tree) returns (q: Node)
    requires !d.LeftOf? && top.right == TopOf(d, temp)
    requires Linked(Bin(a, temp, Nil), temp, Holder(d, top)) && PathLinked(d, temp, top)
    requires Distinct(Bin(a, temp, Nil)) && Apart(d, Nodes(Bin(a, temp, Nil)))
    requires top !in Nodes(Bin(a, temp, Nil)) + PathNodes(d)
    modifies HolderUnder(d, top)`right, Nodes(a)
    ensures q == HolderUnder(d, top) && top.right == TopOf(d, q.right)
    ensures var below, above, apart := Linked(a, q.right, q), PathLinked(d, q.right, top), Apart(d, Nodes(a));
      below && above && apart
  {
    assert allocated(Nodes(a)) && allocated(PathNodes(d));
    ApartIsDisjoint(d, Nodes(Bin(a, temp, Nil)));
    ApartOff(d, Nodes(Bin(a, temp, Nil)), Nodes(a));
    if d.RightOf? {
      ApartIsDisjoint(d.up, Nodes(d.left) + {d.node} + Nodes(Bin(a, temp, Nil)));
      assert allocated(Nodes(d.left)) && allocated(PathNodes(d.up));
    }
    q := temp.parent;
    q.right := temp.left;
    Reparent(temp.left, q, a, temp);
  }

  /** How a deletion leaves the node graph below the deleted node's parent: temp
      stands where the node stood, and the lowest changed subtree h hangs at the
      end of the path g below it. Nothing points at temp from above yet. */
  ghost predicate Spliced(g: Path, h: Tree, hole: Node?, temp: Node?, above: Node?)
    reads Nodes(h), PathNodes(g)
  {
    && Linked(h, hole, Holder(g, above)) && Distinct(h)
    && PathLinked(g, hole, above) && Apart(g, Nodes(h)) && TopOf(g, hole) == temp
  }

  /** The replacement is a direct child of the node. */
  method SpliceDirectLeft(node: Node, ghost t: Tree, ghost above: Node?) returns (temp: Node)
    requires Linked(t, node, above) && Distinct(t) && t.left.Bin? && t.left.right.Nil?
    modifies Nodes(t)
    ensures node.parent == above
    ensures Spliced(Top, Bin(t.left.left, t.left.node, t.right), temp, temp, above)
  {
    ghost var a, c := t.left.left, t.right;
    assert allocated(Nodes(a)) && Distinct(t.left);
    assert node !in Nodes(a) && node !in Nodes(c) && t.left.node !in Nodes(c) && Nodes(a) !! Nodes(c);
    temp := node.left;
    temp.right := node.right;
    Reparent(temp.right, temp, c, node);
    temp.parent := node.parent;
    assert Linked(a, temp.left, temp) && Linked(c, temp.right, temp);
    temp.depth := HeightOf(temp);
    assert temp.depth == Height(Bin(a, temp, c));
  }

  /** Puts temp, unhooked from below node.left, in the node's place. */
  method TakePlaceLeft(node: Node, temp: Node, ghost r: Tree)
    requires node.left != null && Linked(r, node.right, node) && Distinct(r)
    requires temp != node && temp != node.left && node != node.left
    requires temp !in Nodes(r) && node !in Nodes(r) && node.left !in Nodes(r)
    modifies temp, node.left`parent, Nodes(r)
    ensures temp.left == node.left && temp.left.parent == temp
    ensures temp.parent == node.parent && Linked(r, temp.right, temp)
  {
    temp.left := node.left;
    temp.left.parent := temp;
    temp.right := node.right;
    Reparent(temp.right, temp, r, node);
    temp.parent := node.parent;
    temp.depth := HeightOf(temp);
  }

  /** Everything of the node's subtree but temp and r, between the unhooking of
      temp and its taking the node's place. */
  ghost predicate Waiting(x: Node, l: Tree, d: Path, q: Node, a: Tree)
    reads x`left, x`right, q`right, Nodes(l), Nodes(a), PathNodes(d)
  {
    var beside, below, between := Linked(l, x.left, x), Linked(a, q.right, q), PathLinked(d, q.right, x);
    q == HolderUnder(d, x) && x.right == TopOf(d, q.right) && beside && below && between
  }

  method TakeOutMax(x: Node, ghost t: Tree, ghost node: Node)
    returns (temp: Node, p: Node, ghost d: Path, ghost a: Tree)
    requires Linked(t, x, node) && Distinct(t) && t.right.Bin?
    modifies x`right, Nodes(t.right)
    ensures Waiting(x, t.left, d, p, a) && !d.LeftOf?
    ensures temp == MaxNode(t) && temp !in Nodes(a) && temp !in PathNodes(d)
    ensures Nodes(a) + PathNodes(d) + {temp} == Nodes(t.right)
    ensures Up(d, a) == RemoveMax(t.right) && Distinct(a) && Apart(d, Nodes(a))
  {
    assert allocated(Nodes(t.left));
    temp, d, a := FindMax(x, t.right);
    ApartIsDisjoint(d, Nodes(Bin(a, temp, Nil)));
    p := UnhookMax(x, temp, d, a);
  }

  lemma JoinLeft(x: Node, l: Tree, d: Path, p: Node, a: Tree, temp: Node, r: Tree)
    requires Waiting(x, l, d, p, a) && x.parent == temp
    requires temp.left == x && Linked(r, temp.right, temp)
    ensures var g := Append(d, RightOf(l, x, LeftOf(temp, r, Top)));
      && PathLinked(g, p.right, temp.parent) && TopOf(g, p.right) == temp
      && Holder(g, temp.parent) == p && Linked(a, p.right, p)
  {
    assert TopOf(LeftOf(temp, r, Top), x) == temp;
    PathAppend(d, RightOf(l, x, LeftOf(temp, r, Top)), p.right, temp.parent);
  }

  lemma Regroup(a: set<Node>, d: set<Node>, l: set<Node>, r: set<Node>, m: set<Node>, x: Node, temp: Node)
    requires a + d + {temp} == m
    ensures a + (d + (l + {x} + ({temp} + r))) == (l + {x} + m) + r
  {
  }

  /** The path below temp after it took the place of the root of t. */
  lemma ApartLeft(t: Tree, d: Path, a: Tree, temp: Node)
    requires t.Bin? && t.left.Bin? && Distinct(t) && Apart(d, Nodes(a))
    requires Nodes(a) + PathNodes(d) + {temp} == Nodes(t.left.right)
    requires temp !in Nodes(a) && temp !in PathNodes(d)
    ensures Apart(Append(d, RightOf(t.left.left, t.left.node, LeftOf(temp, t.right, Top))), Nodes(a))
  {
    ApartAppend(d, RightOf(t.left.left, t.left.node, LeftOf(temp, t.right, Top)), Nodes(a));
  }

  lemma NodesLeft(t: Tree, d: Path, a: Tree, temp: Node)
    requires t.Bin? && t.left.Bin? && Nodes(a) + PathNodes(d) + {temp} == Nodes(t.left.right)
    ensures Nodes(a) + PathNodes(Append(d, RightOf(t.left.left, t.left.node, LeftOf(temp, t.right, Top))))
         == Nodes(t.left) + Nodes(t.right)
  {
    assert PathNodes(LeftOf(temp, t.right, Top)) == {temp} + Nodes(t.right);
    NodesAppend(d, RightOf(t.left.left, t.left.node, LeftOf(temp, t.right, Top)));
    Regroup(Nodes(a), PathNodes(d), Nodes(t.left.left), Nodes(t.right), Nodes(t.left.right), t.left.node, temp);
  }

  lemma UpLeft(x: Node, l: Tree, r: Tree, d: Path, a: Tree, temp: Node)
    ensures Up(Append(d, RightOf(l, x, LeftOf(temp, r, Top))), a)
         == Adjust(Bin(Adjust(Bin(l, x, Up(d, a))), temp, r))
  {
    var e := RightOf(l, x, LeftOf(temp, r, Top));
    UpAppend(d, e, a);
    var u := Adjust(Bin(l, x, Up(d, a)));
    assert Up(e, Up(d, a)) == Up(LeftOf(temp, r, Top), u);
    assert Up(LeftOf(temp, r, Top), u) == Up(Top, Adjust(Bin(u, temp, r)));
  }

  method InstallLeft(node: Node, temp: Node, ghost l: Tree, ghost r: Tree, ghost d: Path, ghost p: Node, ghost a: Tree)
    requires node.left != null && Waiting(node.left, l, d, p, a) && Linked(r, node.right, node) && Distinct(r)
    requires temp != node && temp != node.left && node != node.left
    requires temp !in Nodes(l) && temp !in Nodes(r) && temp !in Nodes(a) && temp !in PathNodes(d)
    requires node !in Nodes(r) && node !in Nodes(a) && node !in PathNodes(d)
    requires node.left !in Nodes(l) && node.left !in Nodes(r) && node.left !in Nodes(a) && node.left !in PathNodes(d)
    requires Nodes(l) !! Nodes(r) && Nodes(a) !! Nodes(r) && PathNodes(d) !! Nodes(r)
    modifies temp, node.left`parent, Nodes(r)
    ensures var g := Append(d, RightOf(l, node.left, LeftOf(temp, r, Top)));
      && PathLinked(g, p.right, node.parent) && TopOf(g, p.right) == temp
      && Holder(g, node.parent) == p && Linked(a, p.right, p)
  {
    assert allocated(Nodes(l)) && allocated(Nodes(a)) && allocated(PathNodes(d));
    TakePlaceLeft(node, temp, r);
    JoinLeft(node.left, l, d, p, a, temp, r);
  }

  method SpliceDeepLeft(node: Node, ghost t: Tree, ghost above: Node?)
    returns (temp: Node, p: Node, ghost g: Path, ghost h: Tree)
    requires Linked(t, node, above) && Distinct(t) && t.left.Bin? && t.left.right.Bin?
    modifies Nodes(t)
    ensures p == Holder(g, above) && node.parent == above
    ensures Spliced(g, h, p.right, temp, above) && Nodes(h) + PathNodes(g) == Nodes(t.left) + Nodes(t.right)
    ensures Up(g, h) == Adjust(Bin(RemoveMax(t.left), MaxNode(t.left), t.right))
  {
    ghost var d;
    assert allocated(Nodes(t.right)) && Distinct(t.left);
    temp, p, d, h := TakeOutMax(node.left, t.left, node);
    assert Nodes(h) <= Nodes(t.left.right) && PathNodes(d) <= Nodes(t.left.right);
    assert Nodes(t.left.right) <= Nodes(t.left);
    InstallLeft(node, temp, t.left.left, t.right, d, p, h);
    ApartLeft(t, d, h, temp);
    NodesLeft(t, d, h, temp);
    UpLeft(node.left, t.left.left, t.right, d, h, temp);
    g := Append(d, RightOf(t.left.left, node.left, LeftOf(temp, t.right, Top)));
  }

  // ----- The mirror image: the smallest node of the right subtree -----

  method FindMin(top: Node, ghost t: Tree) returns (temp: Node, ghost d: Path, ghost a: Tree)
    requires t.Bin? && Linked(t, top.left, top) && Distinct(t)
    ensures temp == MinNode(t) && !d.RightOf? && top.left == TopOf(d, temp)
    ensures Linked(Bin(Nil, temp, a), temp, Holder(d, top)) && PathLinked(d, temp, top)
    ensures Distinct(Bin(Nil, temp, a)) && Apart(d, Nodes(Bin(Nil, temp, a)))
    ensures Nodes(Bin(Nil, temp, a)) + PathNodes(d) == Nodes(t) && Up(d, a) == RemoveMin(t)
  {
    temp := top.left;
    ghost var u := t;
    d := Top;
    while temp.left != null
      invariant Linked(u, temp, Holder(d, top)) && PathLinked(d, temp, top) && top.left == TopOf(d, temp)
      invariant u.Bin? && Distinct(u) && Apart(d, Nodes(u)) && Nodes(u) + PathNodes(d) == Nodes(t)
      invariant MinNode(u) == MinNode(t) && Up(d, RemoveMin(u)) == RemoveMin(t) && !d.RightOf?
      decreases u
    {
      d, u := LeftOf(temp, u.right, d), u.left;
      temp := temp.left;
    }
    a := u.right;
  }

  method UnhookMin(top: Node, temp: Node, ghost d: Path, ghost a: Tree) returns (q: Node)
    requires !d.RightOf? && top.left == TopOf(d, temp)
    requires Linked(Bin(Nil, temp, a), temp, Holder(d, top)) && PathLinked(d, temp, top)
    requires Distinct(Bin(Nil, temp, a)) && Apart(d, Nodes(Bin(Nil, temp, a)))
    requires top !in Nodes(Bin(Nil, temp, a)) + PathNodes(d)
    modifies HolderUnder(d, top)`left, Nodes(a)
    ensures q == HolderUnder(d, top) && top.left == TopOf(d, q.left)
    ensures var below, above, apart := Linked(a, q.left, q), PathLinked(d, q.left, top), Apart(d, Nodes(a));
      below && above && apart
  {
    assert allocated(Nodes(a)) && allocated(PathNodes(d));
    ApartIsDisjoint(d, Nodes(Bin(Nil, temp, a)));
    ApartOff(d, Nodes(Bin(Nil, temp, a)), Nodes(a));
    if d.LeftOf? {
      ApartIsDisjoint(d.up, Nodes(Bin(Nil, temp, a)) + {d.node} + Nodes(d.right));
      assert allocated(Nodes(d.right)) && allocated(PathNodes(d.up));
    }
    q := temp.parent;
    q.left := temp.right;
    Reparent(temp.right, q, a, temp);
  }

  method SpliceDirectRight(node: Node, ghost t: Tree, ghost above: Node?) returns (temp: Node)
    requires Linked(t, node, above) && Distinct(t) && t.right.Bin? && t.right.left.Nil?
    modifies Nodes(t)
    ensures node.parent == above
    ensures Spliced(Top, Bin(t.left, t.right.node, t.right.right), temp, temp, above)
  {
    ghost var a, c := t.left, t.right.right;
    assert allocated(Nodes(c)) && Distinct(t.right);
    assert node !in Nodes(a) && node !in Nodes(c) && t.right.node !in Nodes(a) && Nodes(a) !! Nodes(c);
    temp := node.right;
    temp.parent := node.parent;
    temp.left := node.left;
    Reparent(temp.left, temp, a, node);
    assert Linked(a, temp.left, temp) && Linked(c, temp.right, temp);
    temp.depth := HeightOf(temp);
    assert temp.depth == Height(Bin(a, temp, c));
  }

  method TakePlaceRight(node: Node, temp: Node, ghost l: Tree)
    requires node.right != null && Linked(l, node.left, node) && Distinct(l)
    requires temp != node && temp != node.right && node != node.right
    requires temp !in Nodes(l) && node !in Nodes(l) && node.right !in Nodes(l)
    modifies temp, node.right`parent, Nodes(l)
    ensures temp.right == node.right && temp.right.parent == temp
    ensures temp.parent == node.parent && Linked(l, temp.left, temp)
  {
    temp.right := node.right;
    temp.right.parent := temp;
    temp.parent := node.parent;
    temp.left := node.left;
    Reparent(temp.left, temp, l, node);
    temp.depth := HeightOf(temp);
  }

  ghost predicate WaitingRight(x: Node, r: Tree, d: Path, q: Node, a: Tree)
    reads x`left, x`right, q`left, Nodes(r), Nodes(a), PathNodes(d)
  {
    var beside, below, between := Linked(r, x.right, x), Linked(a, q.left, q), PathLinked(d, q.left, x);
    q == HolderUnder(d, x) && x.left == TopOf(d, q.left) && beside && below && between
  }

  method TakeOutMin(x: Node, ghost t: Tree, ghost node: Node)
    returns (temp: Node, p: Node, ghost d: Path, ghost a: Tree)
    requires Linked(t, x, node) && Distinct(t) && t.left.Bin?
    modifies x`left, Nodes(t.left)
    ensures WaitingRight(x, t.right, d, p, a) && !d.RightOf?
    ensures temp == MinNode(t) && temp !in Nodes(a) && temp !in PathNodes(d)
    ensures Nodes(a) + PathNodes(d) + {temp} == Nodes(t.left)
    ensures Up(d, a) == RemoveMin(t.left) && Distinct(a) && Apart(d, Nodes(a))
  {
    assert allocated(Nodes(t.right));
    temp, d, a := FindMin(x, t.left);
    ApartIsDisjoint(d, Nodes(Bin(Nil, temp, a)));
    p := UnhookMin(x, temp, d, a);
  }

  lemma JoinRight(x: Node, r: Tree, d: Path, p: Node, a: Tree, temp: Node, l: Tree)
    requires WaitingRight(x, r, d, p, a) && x.parent == temp
    requires temp.right == x && Linked(l, temp.left, temp)
    ensures var g := Append(d, LeftOf(x, r, RightOf(l, temp, Top)));
      && PathLinked(g, p.left, temp.parent) && TopOf(g, p.left) == temp
      && Holder(g, temp.parent) == p && Linked(a, p.left, p)
  {
    assert TopOf(RightOf(l, temp, Top), x) == temp;
    PathAppend(d, LeftOf(x, r, RightOf(l, temp, Top)), p.left, temp.parent);
  }

  lemma ApartRight(t: Tree, d: Path, a: Tree, temp: Node)
    requires t.Bin? && t.right.Bin? && Distinct(t) && Apart(d, Nodes(a))
    requires Nodes(a) + PathNodes(d) + {temp} == Nodes(t.right.left)
    requires temp !in Nodes(a) && temp !in PathNodes(d)
    ensures Apart(Append(d, LeftOf(t.right.node, t.right.right, RightOf(t.left, temp, Top))), Nodes(a))
  {
    ApartAppend(d, LeftOf(t.right.node, t.right.right, RightOf(t.left, temp, Top)), Nodes(a));
  }

  lemma NodesRight(t: Tree, d: Path, a: Tree, temp: Node)
    requires t.Bin? && t.right.Bin? && Nodes(a) + PathNodes(d) + {temp} == Nodes(t.right.left)
    ensures Nodes(a) + PathNodes(Append(d, LeftOf(t.right.node, t.right.right, RightOf(t.left, temp, Top))))
         == Nodes(t.left) + Nodes(t.right)
  {
    assert PathNodes(RightOf(t.left, temp, Top)) == Nodes(t.left) + {temp};
    NodesAppend(d, LeftOf(t.right.node, t.right.right, RightOf(t.left, temp, Top)));
    Regroup(Nodes(a), PathNodes(d), Nodes(t.right.right), Nodes(t.left), Nodes(t.right.left), t.right.node, temp);
  }

  lemma UpRight(x: Node, l: Tree, r: Tree, d: Path, a: Tree, temp: Node)
    ensures Up(Append(d, LeftOf(x, r, RightOf(l, temp, Top))), a)
         == Adjust(Bin(l, temp, Adjust(Bin(Up(d, a), x, r))))
  {
    var e := LeftOf(x, r, RightOf(l, temp, Top));
    UpAppend(d, e, a);
    var u := Adjust(Bin(Up(d, a), x, r));
    assert Up(e, Up(d, a)) == Up(RightOf(l, temp, Top), u);
    assert Up(RightOf(l, temp, Top), u) == Up(Top, Adjust(Bin(l, temp, u)));
  }

  method InstallRight(node: Node, temp: Node, ghost l: Tree, ghost r: Tree, ghost d: Path, ghost p: Node, ghost a: Tree)
    requires node.right != null && WaitingRight(node.right, r, d, p, a) && Linked(l, node.left, node) && Distinct(l)
    requires temp != node && temp != node.right && node != node.right
    requires temp !in Nodes(l) && temp !in Nodes(r) && temp !in Nodes(a) && temp !in PathNodes(d)
    requires node !in Nodes(l) && node !in Nodes(a) && node !in PathNodes(d)
    requires node.right !in Nodes(l) && node.right !in Nodes(r)
    requires node.right !in Nodes(a) && node.right !in PathNodes(d)
    requires Nodes(l) !! Nodes(r) && Nodes(a) !! Nodes(l) && PathNodes(d) !! Nodes(l)
    modifies temp, node.right`parent, Nodes(l)
    ensures var g := Append(d, LeftOf(node.right, r, RightOf(l, temp, Top)));
      && PathLinked(g, p.left, node.parent) && TopOf(g, p.left) == temp
      && Holder(g, node.parent) == p && Linked(a, p.left, p)
  {
    assert allocated(Nodes(r)) && allocated(Nodes(a)) && allocated(PathNodes(d));
    TakePlaceRight(node, temp, l);
    JoinRight(node.right, r, d, p, a, temp, l);
  }

  method SpliceDeepRight(node: Node, ghost t: Tree, ghost above: Node?)
    returns (temp: Node, p: Node, ghost g: Path, ghost h: Tree)
    requires Linked(t, node, above) && Distinct(t) && t.right.Bin? && t.right.left.Bin?
    modifies Nodes(t)
    ensures p == Holder(g, above) && node.parent == above
    ensures Spliced(g, h, p.left, temp, above) && Nodes(h) + PathNodes(g) == Nodes(t.left) + Nodes(t.right)
    ensures Up(g, h) == Adjust(Bin(t.left, MinNode(t.right), RemoveMin(t.right)))
  {
    ghost var d;
    assert allocated(Nodes(t.left)) && Distinct(t.right);
    temp, p, d, h := TakeOutMin(node.right, t.right, node);
    assert Nodes(h) <= Nodes(t.right.left) && PathNodes(d) <= Nodes(t.right.left);
    assert Nodes(t.right.left) <= Nodes(t.right);
    InstallRight(node, temp, t.left, t.right.right, d, p, h);
    ApartRight(t, d, h, temp);
    NodesRight(t, d, h, temp);
    UpRight(node.right, t.left, t.right.right, d, h, temp);
    g := Append(d, LeftOf(node.right, t.right.right, RightOf(t.left, temp, Top)));
  }

  /** The choice of the node temp that replaces a deleted one, and its move; p is
      where retracing starts. A direct child is told from a deeper node by whether
      the walk to the extreme node takes a step. */
  method Splice(node: Node, ghost t: Tree, ghost above: Node?)
    returns (temp: Node?, p: Node?, ghost g: Path, ghost h: Tree, ghost hole: Node?)
    requires t.Bin? && Linked(t, node, above) && Distinct(t)
    modifies Nodes(t)
    ensures Spliced(g, h, hole, temp, above) && p == Holder(g, above) && (g.Top? ==> temp == hole)
    ensures Nodes(h) + PathNodes(g) == Nodes(t.left) + Nodes(t.right)
    ensures Up(g, h) == RemoveRoot(t) && node.parent == above
  {
    HeightIs(t.left, node.left, node);
    HeightIs(t.right, node.right, node);
    p, temp := node.parent, null;
    g, h, hole := Top, Nil, null;
    if node.left != null || node.right != null {
      if HeightOf(node.left) > HeightOf(node.right) {
        assert Linked(t.left.right, node.left.right, node.left);
        if node.left.right != null {
          temp, p, g, h := SpliceDeepLeft(node, t, above);
          hole := p.right;
        } else {
          temp := SpliceDirectLeft(node, t, above);
          h, hole := Bin(t.left.left, t.left.node, t.right), temp;
        }
      } else {
        assert Linked(t.right.left, node.right.left, node.right);
        if node.right.left != null {
          temp, p, g, h := SpliceDeepRight(node, t, above);
          hole := p.left;
        } else {
          temp := SpliceDirectRight(node, t, above);
          h, hole := Bin(t.left, t.right.node, t.right.right), temp;
        }
      }
    }
  }

  /** Points the node's parent, if it has one, at temp instead. */
  method ReplaceChild(node: Node, temp: Node?, ghost c: Path, ghost s: set<Node>)
    requires PathLinked(c, node, null) && node.parent == Holder(c, null) && Apart(c, s) && node in s
    modifies if c.Top? then {} else {c.node}
    ensures PathLinked(c, temp, null)
  {
    if !c.Top? {
      assert allocated(PathNodes(c.up)) && allocated(Nodes(if c.LeftOf? then c.right else c.left));
      ApartIsDisjoint(c.up, if c.LeftOf? then s + {c.node} + Nodes(c.right) else Nodes(c.left) + {c.node} + s);
    }
    if node.parent != null {
      if node == node.parent.left {
        node.parent.left := temp;
      } else if node == node.parent.right {
        node.parent.right := temp;
      }
    }
  }

  /** Takes the node at the end of the path c out of the graph. */
  method Detach(node: Node, ghost c: Path, ghost t: Tree)
    returns (temp: Node?, p: Node?, ghost g: Path, ghost h: Tree, ghost hole: Node?)
    requires t.Bin? && Found(c, t, node)
    modifies Nodes(t), if c.Top? then {} else {c.node}
    ensures PathLinked(g, hole, null) && Linked(h, hole, Holder(g, null))
    ensures Distinct(h) && Apart(g, Nodes(h))
    ensures p == Holder(g, null) && (p == null ==> temp == hole)
    ensures Up(g, h) == Up(c, RemoveRoot(t))
    ensures Nodes(h) + PathNodes(g) == Nodes(t.left) + Nodes(t.right) + PathNodes(c)
  {
    assert allocated(PathNodes(c));
    ApartIsDisjoint(c, Nodes(t));
    ghost var d;
    temp, p, d, h, hole := Splice(node, t, Holder(c, null));
    assert allocated(Nodes(h)) && allocated(PathNodes(d));
    assert Nodes(h) <= Nodes(t) && PathNodes(d) <= Nodes(t);
    ReplaceChild(node, temp, c, Nodes(t));
    assert Spliced(d, h, hole, temp, Holder(c, null));
    PathAppend(d, c, hole, null);
    ApartOff(c, Nodes(t), Nodes(h) + PathNodes(d));
    ApartAppend(d, c, Nodes(h));
    NodesAppend(d, c);
    UpAppend(d, c, h);
    g := Append(d, c);
  }

  class AvlTree {
    var root: Node?
    var count: int
    ghost var tree: Tree
    ghost var repr: set<Node>

    /** Keys are 16 bits wide, and so is m_node_cnt: it reads 0 for a tree that holds
        every key. It is first written when the first node is added. */
    ghost predicate Valid()
      reads this, repr
    {
      && repr == Nodes(tree)
      && KeysFit(repr)
      && (tree.Bin? ==> count == if |repr| == 0x1_0000 then 0 else |repr|)
      && var linked, ordered := Linked(tree, root, null), Ordered(tree); linked && ordered
    }

    constructor ()
      ensures Valid() && tree == Nil
    {
      root, tree, repr := null, Nil, {};
    }

    /** query_by_key, with where it ended: the subtree t found (Nil if none), the path c
        above it, the nodes above it in the order in which it came by them, and how many
        nodes it visited. */
    method QueryByKey(key: int)
      returns (p: Node?, ghost c: Path, ghost t: Tree, ghost above: seq<Node>, ghost visits: nat)
      requires Linked(tree, root, null) && Distinct(tree)
      ensures t == Find(tree, key) && Fill(c, t) == tree && Toward(c, key)
      ensures visits == Length(c) + if p == null then 0 else 1
      ensures |above| == Length(c) && var walked := Walked(above, root, key, p); walked
      ensures Found(c, t, p) && Nodes(t) <= Nodes(tree) && PathNodes(c) <= Nodes(tree)
      ensures p != null ==> t.Bin? && p == t.node && Up(c, RemoveRoot(t)) == Delete(tree, key)
      ensures p == null ==> t.Nil?
    {
      p, c, t, above, visits := root, Top, tree, [], 0;
      while p != null
        invariant Find(t, key) == Find(tree, key) && Fill(c, t) == tree && Toward(c, key)
        invariant visits == |above| == Length(c) && var walked := Walked(above, root, key, p); walked
        invariant Linked(t, p, Holder(c, null)) && PathLinked(c, p, null)
        invariant Distinct(t) && Apart(c, Nodes(t))
        invariant Nodes(t) <= Nodes(tree) && PathNodes(c) <= Nodes(tree)
        invariant Up(c, Delete(t, key)) == Delete(tree, key)
        decreases t
      {
        Descend(c, t);
        WalksOn(above, root, key, p);
        visits := visits + 1;
        if key > p.key {
          above, p, c, t := above + [p], p.right, RightOf(t.left, t.node, c), t.right;
        } else if key < p.key {
          above, p, c, t := above + [p], p.left, LeftOf(t.node, t.right, c), t.left;
        } else {
          break;
        }
      }
    }

    /** The loop that ends both avl_tree_add and avl_tree_del_by_key: from the lowest
        node whose subtree changed, refresh depths and adjust up to the root. */
    method Retrace(start: Node, ghost path: Path, ghost lower: Tree, ghost upper: Tree, ghost result: Tree)
      requires var focus := Focus(path, lower, start, upper); focus
      requires result == Up(path, Adjust(Bin(lower, start, upper)))
      modifies `root, `tree, Nodes(Bin(lower, start, upper)), PathNodes(path)
      ensures tree == result
      ensures var linked := Linked(tree, root, null); linked
    {
      var p := start;
      ghost var c, l, r := path, lower, upper;
      ghost var all := Nodes(Bin(lower, start, upper)) + PathNodes(path);
      while true
        invariant Focus(c, l, p, r)
        invariant Up(c, Adjust(Bin(l, p, r))) == result
        invariant Nodes(Bin(l, p, r)) <= all && PathNodes(c) <= all
        decreases Length(c)
      {
        RefreshDepth(p, c, l, r);
        FocusSide(c, l, p, r);
        if p.parent == null {
          tree := result;
          var top := AdjustNode(p, l, r);
          assert Linked(tree, top, null) && allocated(Nodes(tree));
          root := top;
          assert Linked(tree, root, null);
          return;
        }
        p, c, l, r := Climb(p, c, l, r);
      }
    }

    /** The search of avl_tree_add: hangs n under the node p it ends at, unless a
        node on the way has the same key. */
    method Attach(n: Node) returns (p: Node?, ghost c: Path, ghost l: Tree, ghost r: Tree)
      requires Linked(tree, root, null) && Distinct(tree) && tree.Bin?
      requires repr == Nodes(tree) && n !in repr
      modifies n, repr
      ensures p == null <==> Find(tree, n.key).Bin?
      ensures p == null ==> unchanged(repr)
      ensures p != null ==>
        && Focus(c, l, p, r) && Nodes(Bin(l, p, r)) <= repr + {n} && PathNodes(c) <= repr
        && Up(c, Adjust(Bin(l, p, r))) == Insert(tree, n)
    {
      p := root;
      ghost var t;
      c, t, l, r := Top, tree, Nil, Nil;
      while true
        invariant p != null && Find(t, n.key) == Find(tree, n.key)
        invariant Linked(t, p, Holder(c, null)) && PathLinked(c, p, null)
        invariant Distinct(t) && Apart(c, Nodes(t))
        invariant Nodes(t) <= Nodes(tree) && PathNodes(c) <= Nodes(tree)
        invariant Up(c, Insert(t, n)) == Insert(tree, n)
        invariant unchanged(repr)
        decreases t
      {
        Descend(c, t);
        l, r := t.left, t.right;
        if n.key < p.key {
          if p.left == null {
            AddToLeft(n, p, c, r);
            l := Bin(Nil, n, Nil);
            return;
          }
          p, c, t := p.left, LeftOf(p, r, c), l;
        } else if n.key > p.key {
          if p.right == null {
            AddToRight(n, p, c, l);
            r := Bin(Nil, n, Nil);
            return;
          }
          p, c, t := p.right, RightOf(l, p, c), r;
        } else {
          p := null;
          return;
        }
      }
    }

    /** Keys are 16 bits wide. */
    static ghost predicate KeysFit(nodes: set<Node>) {
      forall n | n in nodes :: 0 <= n.key < 0x1_0000
    }

    ghost method Remember(n: Node)
      requires var linked, ordered := Linked(tree, root, null), Ordered(tree); linked && ordered
      requires Nodes(tree) == repr + {n} && n !in repr
      requires count == (if |repr| == 0xFFFF then 0 else |repr| + 1)
      requires KeysFit(Nodes(tree))
      modifies `repr
      ensures Valid() && repr == old(repr) + {n}
    {
      assert allocated(Nodes(tree));
      repr := repr + {n};
    }

    method CountIn(ghost n: Node)
      requires var linked, ordered := Linked(tree, root, null), Ordered(tree); linked && ordered
      requires Nodes(tree) == repr + {n} && n !in repr && count == |repr|
      requires KeysFit(Nodes(tree))
      modifies `count, `repr
      ensures Valid() && repr == old(repr) + {n}
    {
      assert allocated(Nodes(tree));
      NodesFit(tree, 0, 0x1_0000);
      count := if count == 0xFFFF then 0 else count + 1;
      Remember(n);
    }

    /** Retraces from p, below which the node n was just hung, and counts it. */
    method Settle(p: Node, ghost c: Path, ghost l: Tree, ghost r: Tree, ghost n: Node, ghost grown: Tree)
      requires var focus := Focus(c, l, p, r); focus
      requires Nodes(Bin(l, p, r)) <= repr + {n} && PathNodes(c) <= repr
      requires grown == Up(c, Adjust(Bin(l, p, r)))
      requires var ordered, fit := Ordered(grown), KeysFit(Nodes(grown)); ordered && fit
      requires Nodes(grown) == repr + {n} && n !in repr && count == |repr|
      modifies this, repr, n
      ensures Valid() && tree == grown && repr == old(repr) + {n}
    {
      Retrace(p, c, l, r, grown);
      CountIn(n);
    }

    method AddFirst(n: Node)
      requires root == null && 0 <= n.key < 0x1_0000
      modifies this, n
      ensures Valid() && tree == Bin(Nil, n, Nil) && repr == {n}
    {
      n.depth := 1;
      n.left, n.right, n.parent := null, null, null;
      root := n;
      count := 1;
      tree, repr := Bin(Nil, n, Nil), {n};
      assert Linked(Nil, n.left, n) && Linked(Nil, n.right, n) && n.depth == Height(tree);
      assert Linked(tree, root, null);
    }

    /** The part of avl_tree_add for a tree that is not empty. */
    method AddBelow(n: Node) returns (ret: int)
      requires Valid() && root != null && n !in repr && 0 <= n.key < 0x1_0000
      modifies this, repr, n
      ensures Valid()
      ensures ret == if n.key in Keys(old(tree)) then -3 else 0
      ensures ret == -3 ==> unchanged(this) && unchanged(repr)
      ensures ret == 0 ==> tree == Insert(old(tree), n)
    {
      FindFinds(tree, n.key);
      OrderedIsDistinct(tree);
      var p, c, l, r := Attach(n);
      if p == null {
        return -3;
      }
      InsertKeeps(tree, n);
      NodesFit(Insert(tree, n), 0, 0x1_0000);
      Settle(p, c, l, r, n, Insert(tree, n));
      ret := 0;
    }

    /** avl_tree_add, for an element whose key is given. The result 0 means the node
        was added and -3 that the key was there already. */
    method Add(key: int) returns (ret: int, ghost node: Node)
      requires Valid() && 0 <= key < 0x1_0000
      modifies this, repr
      ensures Valid()
      ensures ret == if key in Keys(old(tree)) then -3 else 0
      ensures ret == -3 ==> unchanged(this) && unchanged(repr)
      ensures ret == 0 ==> fresh(node) && node.key == key && tree == Insert(old(tree), node)
    {
      var n := new Node(key);
      node := n;
      if root == null {
        AddFirst(n);
        ret := 0;
      } else {
        ret := AddBelow(n);
      }
    }

    /** The count is that of the nodes modulo 2^16, so it reads 0 for a tree that holds
        every key. */
    lemma CountWraps()
      requires Valid() && tree.Bin?
      ensures count == |Nodes(tree)| % 0x1_0000
      ensures count == 0 <==> |Nodes(tree)| == 0x1_0000
    {
      NodesFit(tree, 0, 0x1_0000);
      assert tree.node in Nodes(tree);
    }

    /** The end of avl_tree_del_by_key: retraces from the parent p of the lowest
        changed subtree h, or makes h the whole tree. */
    method Finish(p: Node?, temp: Node?, ghost hole: Node?, ghost g: Path, ghost h: Tree)
      requires PathLinked(g, hole, null) && Linked(h, hole, Holder(g, null))
      requires Distinct(h) && Apart(g, Nodes(h))
      requires p == Holder(g, null) && (p == null ==> temp == hole)
      modifies `root, `tree, Nodes(h), PathNodes(g)
      ensures tree == Up(g, h) && var linked := Linked(tree, root, null); linked
    {
      if p == null {
        assert allocated(Nodes(h));
        root := temp;
        tree := h;
      } else {
        ghost var l, r := if g.LeftOf? then h else g.left, if g.LeftOf? then g.right else h;
        Retrace(p, g.up, l, r, Up(g, h));
      }
    }

    ghost method Forget(n: Node)
      requires var linked, ordered := Linked(tree, root, null), Ordered(tree); linked && ordered
      requires Nodes(tree) == repr - {n} && n in repr
      requires |repr| <= 0x1_0000 && count == |repr| - 1 && KeysFit(repr)
      modifies `repr
      ensures Valid() && repr == old(repr) - {n}
    {
      assert allocated(Nodes(tree));
      repr := repr - {n};
    }

    /** Takes out the node that was found, leaving the tree `rest`. */
    method Remove(node: Node, ghost c: Path, ghost t: Tree, ghost rest: Tree)
      requires t.Bin? && Found(c, t, node) && Nodes(t) <= repr && PathNodes(c) <= repr
      requires rest == Up(c, RemoveRoot(t)) && Ordered(rest) && Nodes(rest) == repr - {node}
      requires |repr| <= 0x1_0000 && count == if |repr| == 0x1_0000 then 0 else |repr|
      requires KeysFit(repr)
      modifies this, repr
      ensures Valid() && tree == rest && repr == old(repr) - {node}
    {
      count := if count == 0 then 0xFFFF else count - 1;
      var temp, p, g, h, hole := Detach(node, c, t);
      Finish(p, temp, hole, g, h);
      Forget(node);
    }

    /** avl_tree_del_by_key: 0, or -1 as an unsigned byte when there is no such key. */
    method DelByKey(key: int) returns (ret: int)
      requires Valid()
      modifies this, repr
      ensures Valid()
      ensures ret == if key in Keys(old(tree)) then 0 else 0xFF
      ensures ret != 0 ==> unchanged(this) && unchanged(repr)
      ensures ret == 0 ==> tree == Delete(old(tree), key)
    {
      FindFinds(tree, key);
      OrderedIsDistinct(tree);
      NodesFit(tree, 0, 0x1_0000);
      var node, c, t, _, _ := QueryByKey(key);
      if node == null {
        return 0xFF;
      }
      DeleteFound(tree, key);
      Remove(node, c, t, Delete(tree, key));
      ret := 0;
    }
  }

  ghost predicate HasKeys(t: Tree, n: nat) {
    forall k :: k in Keys(t) <==> 0 <= k < n
  }

  lemma OneMoreKey(t: Tree, node: Node, n: nat)
    requires Ordered(t) && HasKeys(t, n) && node.key == n
    ensures HasKeys(Insert(t, node), n + 1)
  {
    InsertKeeps(t, node);
    forall k
      ensures k in Keys(Insert(t, node)) <==> k in Keys(t) || k == n
    {
      assert node in Nodes(Insert(t, node));
    }
  }

  lemma KeySide(t: Tree, k: int)
    requires t.Bin? && Ordered(t) && k in Keys(t)
    ensures k < t.node.key ==> k in Keys(t.left)
    ensures k > t.node.key ==> k in Keys(t.right)
  {
    var n :| n in Nodes(t) && n.key == k;
  }

  /** There are no fewer nodes than keys. */
  lemma {:induction false} NodesFill(t: Tree, lo: int, hi: int)
    requires Ordered(t) && forall k | lo <= k < hi :: k in Keys(t)
    ensures |Nodes(t)| >= hi - lo
  {
    if t.Nil? {
      assert lo < hi ==> lo in Keys(t);
    } else {
      var key := t.node.key;
      OrderedIsDistinct(t);
      forall k | lo <= k < hi
        ensures k < key ==> k in Keys(t.left)
        ensures k > key ==> k in Keys(t.right)
      {
        KeySide(t, k);
      }
      NodesFill(t.left, lo, if key < hi then key else hi);
      NodesFill(t.right, if key < lo then lo else key + 1, hi);
    }
  }

  /** One more key on top of those below it. */
  method AddNext(tree: AvlTree, key: nat)
    requires tree.Valid() && HasKeys(tree.tree, key) && key < 0x1_0000
    modifies tree, tree.repr
    ensures tree.Valid() && HasKeys(tree.tree, key + 1) && fresh(tree.repr - old(tree.repr))
  {
    ghost var was := tree.tree;
    var ret, node := tree.Add(key);
    OneMoreKey(was, node, key);
    InsertKeeps(was, node);
  }

  /** A tree of all keys can be built, and its count reads 0. */
  method FullTree() returns (tree: AvlTree)
    ensures tree.Valid() && |Nodes(tree.tree)| == 0x1_0000 && tree.count == 0
  {
    tree := new AvlTree();
    var key := 0;
    while key < 0x1_0000
      invariant 0 <= key <= 0x1_0000 && tree.Valid() && HasKeys(tree.tree, key)
      invariant fresh(tree) && fresh(tree.repr)
    {
      AddNext(tree, key);
      key := key + 1;
    }
    NodesFit(tree.tree, 0, 0x1_0000);
    NodesFill(tree.tree, 0, 0x1_0000);
    tree.CountWraps();
  }
}
