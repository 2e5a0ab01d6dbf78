/** The search trees that the node graph of avltree.c stands for, and what its
    rebalancing does to them. A tree here names the very nodes of the heap, so
    that AvlHeap can say which objects each part of a tree is made of. */
module AvlShape {

  /** struct _avl_node. The key is fixed when the node is made. */
  class Node {
    var parent: Node?
    var left: Node?
    var right: Node?
    var depth: int
    const key: int

    constructor (key: int)
      ensures this.key == key
    {
      this.key := key;
      parent, left, right, depth := null, null, null, 1;
    }
  }

  datatype Tree = Nil | Bin(left: Tree, node: Node, right: Tree)

  function Max(a: int, b: int): int {
    if a > b then a else b
  }

  function Height(t: Tree): nat {
    match t
    case Nil => 0
    case Bin(l, _, r) => 1 + Max(Height(l), Height(r))
  }

  ghost function Nodes(t: Tree): set<Node> {
    match t
    case Nil => {}
    case Bin(l, n, r) => Nodes(l) + {n} + Nodes(r)
  }

  ghost predicate Below(t: Tree, k: int) {
    forall n | n in Nodes(t) :: n.key < k
  }

  ghost predicate Above(t: Tree, k: int) {
    forall n | n in Nodes(t) :: k < n.key
  }

  ghost predicate Ordered(t: Tree) {
    match t
    case Nil => true
    case Bin(l, n, r) => Below(l, n.key) && Above(r, n.key) && Ordered(l) && Ordered(r)
  }

  /** No node occurs twice. */
  ghost predicate Distinct(t: Tree) {
    match t
    case Nil => true
    case Bin(l, n, r) =>
      n !in Nodes(l) && n !in Nodes(r) && Nodes(l) !! Nodes(r) && Distinct(l) && Distinct(r)
  }

  predicate Near(a: int, b: int) {
    -1 <= a - b <= 1
  }

  predicate Balanced(t: Tree) {
    match t
    case Nil => true
    case Bin(l, _, r) => Near(Height(l), Height(r)) && Balanced(l) && Balanced(r)
  }

  lemma {:induction false} OrderedIsDistinct(t: Tree)
    requires Ordered(t)
    ensures Distinct(t)
  {
    if t.Nil? {
    } else {
      OrderedIsDistinct(t.left);
      OrderedIsDistinct(t.right);
    }
  }

  // ----- Rotations and avl_tree_adjust -----

  function RotateLL(t: Tree): Tree
    requires t.Bin? && t.left.Bin?
  {
    Bin(t.left.left, t.left.node, Bin(t.left.right, t.node, t.right))
  }

  function RotateRR(t: Tree): Tree
    requires t.Bin? && t.right.Bin?
  {
    Bin(Bin(t.left, t.node, t.right.left), t.right.node, t.right.right)
  }

  function RotateRL(t: Tree): Tree
    requires t.Bin? && t.right.Bin? && t.right.left.Bin?
  {
    RotateRR(t.(right := RotateLL(t.right)))
  }

  function RotateLR(t: Tree): Tree
    requires t.Bin? && t.left.Bin? && t.left.right.Bin?
  {
    RotateLL(t.(left := RotateRR(t.left)))
  }

  function Adjust(t: Tree): Tree
    requires t.Bin?
  {
    var hl, hr := Height(t.left), Height(t.right);
    if Near(hl, hr) then t
    else if hl > hr then
      if Height(t.left.left) > Height(t.left.right) then RotateLL(t) else RotateLR(t)
    else
      if Height(t.right.left) > Height(t.right.right) then RotateRL(t) else RotateRR(t)
  }

  lemma RotationKeeps(a: Tree, x: Node, b: Tree, n: Node, c: Tree)
    ensures Nodes(Bin(Bin(a, x, b), n, c)) == Nodes(Bin(a, x, Bin(b, n, c)))
    ensures Distinct(Bin(Bin(a, x, b), n, c)) <==> Distinct(Bin(a, x, Bin(b, n, c)))
    ensures Ordered(Bin(Bin(a, x, b), n, c)) <==> Ordered(Bin(a, x, Bin(b, n, c)))
  {
    var l, r := Bin(a, x, b), Bin(b, n, c);
    assert Nodes(l) == Nodes(a) + {x} + Nodes(b);
    assert Nodes(r) == Nodes(b) + {n} + Nodes(c);
    assert x in Nodes(l) && n in Nodes(r);
    if Ordered(Bin(l, n, c)) {
      assert x.key < n.key && Ordered(l) && Above(c, n.key) && Below(b, n.key);
      assert Above(r, x.key);
    }
    if Ordered(Bin(a, x, r)) {
      assert x.key < n.key && Ordered(r) && Below(a, x.key) && Above(b, x.key);
      assert Below(l, n.key);
    }
  }

  lemma LLKeeps(t: Tree)
    requires t.Bin? && t.left.Bin?
    ensures Nodes(RotateLL(t)) == Nodes(t) && (Distinct(t) <==> Distinct(RotateLL(t)))
    ensures Ordered(t) <==> Ordered(RotateLL(t))
  {
    RotationKeeps(t.left.left, t.left.node, t.left.right, t.node, t.right);
  }

  lemma RRKeeps(t: Tree)
    requires t.Bin? && t.right.Bin?
    ensures Nodes(RotateRR(t)) == Nodes(t) && (Distinct(t) <==> Distinct(RotateRR(t)))
    ensures Ordered(t) <==> Ordered(RotateRR(t))
  {
    RotationKeeps(t.left, t.node, t.right.left, t.right.node, t.right.right);
  }

  /** Whatever the shape, adjusting loses no node and keeps the search order. */
  lemma AdjustKeeps(t: Tree)
    requires t.Bin?
    ensures Nodes(Adjust(t)) == Nodes(t) && (Distinct(t) <==> Distinct(Adjust(t)))
    ensures Ordered(t) <==> Ordered(Adjust(t))
  {
    var hl, hr := Height(t.left), Height(t.right);
    if Near(hl, hr) {
    } else if hl > hr {
      if Height(t.left.left) > Height(t.left.right) {
        LLKeeps(t);
      } else {
        RRKeeps(t.left);
        LLKeeps(t.(left := RotateRR(t.left)));
      }
    } else if Height(t.right.left) > Height(t.right.right) {
      LLKeeps(t.right);
      RRKeeps(t.(right := RotateLL(t.right)));
    } else {
      RRKeeps(t);
    }
  }

  /** The one shape of balanced siblings two apart that avl_tree_adjust gets
      wrong: it takes LR, not LL, when the left child's subtrees are level. */
  predicate Tie(l: Tree, r: Tree) {
    && Height(l) == Height(r) + 2
    && Height(l.left) == Height(l.right)
    && Height(l.right.left) < Height(l.right.right)
  }

  lemma LeftHeavyLR(t: Tree)
    requires t.Bin? && Balanced(t.left) && Balanced(t.right)
    requires Height(t.left) == Height(t.right) + 2 && Height(t.left.left) <= Height(t.left.right)
    ensures Balanced(Adjust(t)) <==> !Tie(t.left, t.right)
    ensures Height(t.left) <= Height(Adjust(t)) <= Height(t)
    ensures Height(Adjust(t)) == if Height(t.left.left) == Height(t.left.right) then Height(t) else Height(t.left)
  {
    var l, y := t.left, t.left.right;
    var a, b := Bin(l.left, l.node, y.left), Bin(y.right, t.node, t.right);
    assert Adjust(t) == Bin(a, y.node, b);
    assert Height(a) == 1 + Max(Height(l.left), Height(y.left)) && Height(b) == Height(l) - 1;
  }

  lemma AdjustLeftHeavy(t: Tree)
    requires t.Bin? && Balanced(t.left) && Balanced(t.right)
    requires Height(t.left) == Height(t.right) + 2
    ensures Balanced(Adjust(t)) <==> !Tie(t.left, t.right)
    ensures Height(t.left) <= Height(Adjust(t)) <= Height(t)
    ensures Height(t.left.left) == Height(t.left.right) ==> Height(Adjust(t)) == Height(t)
    ensures Height(t.left.left) != Height(t.left.right) ==> Height(Adjust(t)) == Height(t.left)
  {
    var l := t.left;
    if Height(l.left) > Height(l.right) {
      assert Adjust(t) == Bin(l.left, l.node, Bin(l.right, t.node, t.right));
    } else {
      LeftHeavyLR(t);
    }
  }

  lemma AdjustRightHeavy(t: Tree)
    requires t.Bin? && Balanced(t.left) && Balanced(t.right)
    requires Height(t.right) == Height(t.left) + 2
    ensures Balanced(Adjust(t))
    ensures Height(t.right) <= Height(Adjust(t)) <= Height(t)
    ensures Height(t.right.left) == Height(t.right.right) ==> Height(Adjust(t)) == Height(t)
    ensures Height(t.right.left) != Height(t.right.right) ==> Height(Adjust(t)) == Height(t.right)
  {
    var r := t.right;
    if Height(r.left) > Height(r.right) {
      var y := r.left;
      assert Adjust(t) == Bin(Bin(t.left, t.node, y.left), y.node, Bin(y.right, r.node, r.right));
    } else {
      assert Adjust(t) == Bin(Bin(t.left, t.node, r.left), r.node, r.right);
    }
  }

  /** Exactly when one adjustment of balanced siblings at most two apart leaves a
      balanced tree, and what it does to the height. */
  lemma AdjustBalance(t: Tree)
    requires t.Bin? && Balanced(t.left) && Balanced(t.right)
    requires -2 <= Height(t.left) - Height(t.right) <= 2
    ensures Balanced(Adjust(t)) <==> !Tie(t.left, t.right)
    ensures Max(Height(t.left), Height(t.right)) <= Height(Adjust(t)) <= Height(t)
    ensures Tie(t.left, t.right) ==> Height(Adjust(t)) == Height(t)
  {
    if Height(t.left) == Height(t.right) + 2 {
      AdjustLeftHeavy(t);
    } else if Height(t.right) == Height(t.left) + 2 {
      AdjustRightHeavy(t);
    }
  }

  // ----- Looking up, inserting -----

  /** The subtree a search from the root arrives at, Nil if the key is not there. */
  function Find(t: Tree, k: int): Tree {
    if t.Nil? || t.node.key == k then t
    else if k < t.node.key then Find(t.left, k)
    else Find(t.right, k)
  }

  function Insert(t: Tree, n: Node): Tree {
    if t.Nil? then Bin(Nil, n, Nil)
    else if n.key < t.node.key then Adjust(t.(left := Insert(t.left, n)))
    else if n.key > t.node.key then Adjust(t.(right := Insert(t.right, n)))
    else t
  }

  ghost function Keys(t: Tree): set<int> {
    set n | n in Nodes(t) :: n.key
  }

  lemma {:induction false} FindFinds(t: Tree, k: int)
    requires Ordered(t)
    ensures Find(t, k).Bin? ==> Find(t, k).node in Nodes(t) && Find(t, k).node.key == k
    ensures forall n | n in Nodes(t) && n.key == k :: Find(t, k).Bin? && Find(t, k).node == n
  {
    if t.Nil? {
    } else {
      FindFinds(t.left, k);
      FindFinds(t.right, k);
    }
  }

  /** There are no more nodes than keys. */
  lemma {:induction false} NodesFit(t: Tree, lo: int, hi: int)
    requires Ordered(t) && lo <= hi && forall n | n in Nodes(t) :: lo <= n.key < hi
    ensures |Nodes(t)| <= hi - lo
  {
    if t.Nil? {
    } else {
      assert t.node in Nodes(t);
      NodesFit(t.left, lo, t.node.key);
      NodesFit(t.right, t.node.key + 1, hi);
      OrderedIsDistinct(t);
    }
  }

  /** Inserting an absent key adds exactly that node and keeps the search order,
      whether or not the tree is balanced. */
  lemma {:induction false} InsertKeeps(t: Tree, n: Node)
    requires Ordered(t) && n.key !in Keys(t)
    ensures Nodes(Insert(t, n)) == Nodes(t) + {n} && Ordered(Insert(t, n))
  {
    if t.Nil? {
    } else {
      assert t.node in Nodes(t);
      if n.key < t.node.key {
        InsertKeeps(t.left, n);
        AdjustKeeps(t.(left := Insert(t.left, n)));
      } else {
        InsertKeeps(t.right, n);
        AdjustKeeps(t.(right := Insert(t.right, n)));
      }
    }
  }

  lemma GrowLeft(t: Tree)
    requires t.Bin? && Balanced(t.left) && Balanced(t.right)
    requires -1 <= Height(t.left) - Height(t.right) <= 2
    requires Height(t.left) == Height(t.right) + 2 ==> Height(t.left.left) != Height(t.left.right)
    ensures Balanced(Adjust(t))
    ensures Adjust(t) == t || Height(Adjust(t)) == Height(t.left)
  {
    if Height(t.left) == Height(t.right) + 2 {
      AdjustLeftHeavy(t);
    }
  }

  lemma GrowRight(t: Tree)
    requires t.Bin? && Balanced(t.left) && Balanced(t.right)
    requires -1 <= Height(t.right) - Height(t.left) <= 2
    requires Height(t.right) == Height(t.left) + 2 ==> Height(t.right.left) != Height(t.right.right)
    ensures Balanced(Adjust(t))
    ensures Adjust(t) == t || Height(Adjust(t)) == Height(t.right)
  {
    if Height(t.right) == Height(t.left) + 2 {
      AdjustRightHeavy(t);
    }
  }

  /** Inserting keeps balance. A tree that grew has one side taller, which is why
      insertion never reaches the tie. */
  lemma {:induction false} InsertBalance(t: Tree, n: Node)
    requires Balanced(t)
    ensures Balanced(Insert(t, n)) && Height(t) <= Height(Insert(t, n)) <= Height(t) + 1
    ensures Insert(t, n).Bin?
    ensures t.Bin? && Height(Insert(t, n)) > Height(t) ==>
              Height(Insert(t, n).left) != Height(Insert(t, n).right)
  {
    if t.Nil? {
    } else if n.key < t.node.key {
      InsertBalance(t.left, n);
      var u := t.(left := Insert(t.left, n));
      assert Insert(t, n) == Adjust(u);
      GrowLeft(u);
    } else if n.key > t.node.key {
      InsertBalance(t.right, n);
      var u := t.(right := Insert(t.right, n));
      assert Insert(t, n) == Adjust(u);
      GrowRight(u);
    }
  }

  /** Whether inserting n meets the tie of avl_tree_adjust on the way back up. */
  predicate InsertTies(t: Tree, n: Node) {
    t.Bin? &&
    if n.key < t.node.key then InsertTies(t.left, n) || Tie(Insert(t.left, n), t.right)
    else n.key > t.node.key && (InsertTies(t.right, n) || Tie(t.left, Insert(t.right, n)))
  }

  /** In a balanced tree no adjustment of an insertion does. */
  lemma {:induction false} InsertMeetsNoTie(t: Tree, n: Node)
    requires Balanced(t)
    ensures !InsertTies(t, n)
  {
    if t.Nil? {
    } else if n.key < t.node.key {
      InsertMeetsNoTie(t.left, n);
      InsertBalance(t.left, n);
    } else if n.key > t.node.key {
      InsertMeetsNoTie(t.right, n);
      InsertBalance(t.right, n);
    }
  }

  // ----- Deleting -----

  function MaxNode(t: Tree): Node
    requires t.Bin?
  {
    if t.right.Nil? then t.node else MaxNode(t.right)
  }

  function MinNode(t: Tree): Node
    requires t.Bin?
  {
    if t.left.Nil? then t.node else MinNode(t.left)
  }

  function RemoveMax(t: Tree): Tree
    requires t.Bin?
  {
    if t.right.Nil? then t.left else Adjust(t.(right := RemoveMax(t.right)))
  }

  function RemoveMin(t: Tree): Tree
    requires t.Bin?
  {
    if t.left.Nil? then t.right else Adjust(t.(left := RemoveMin(t.left)))
  }

  /** What takes the place of t when its root is deleted. A direct child that
      moves up is not adjusted itself. */
  function RemoveRoot(t: Tree): Tree
    requires t.Bin?
  {
    var Bin(l, _, r) := t;
    if l.Nil? && r.Nil? then Nil
    else if Height(l) > Height(r) then
      if l.right.Nil? then Bin(l.left, l.node, r) else Adjust(Bin(RemoveMax(l), MaxNode(l), r))
    else
      if r.left.Nil? then Bin(l, r.node, r.right) else Adjust(Bin(l, MinNode(r), RemoveMin(r)))
  }

  function Delete(t: Tree, k: int): Tree {
    if t.Nil? then Nil
    else if k < t.node.key then Adjust(t.(left := Delete(t.left, k)))
    else if k > t.node.key then Adjust(t.(right := Delete(t.right, k)))
    else RemoveRoot(t)
  }

  lemma {:induction false} RemoveMaxKeeps(t: Tree)
    requires t.Bin? && Ordered(t)
    ensures MaxNode(t) in Nodes(t) && Nodes(RemoveMax(t)) == Nodes(t) - {MaxNode(t)}
    ensures Below(RemoveMax(t), MaxNode(t).key) && Ordered(RemoveMax(t))
  {
    if t.right.Nil? {
    } else {
      RemoveMaxKeeps(t.right);
      AdjustKeeps(t.(right := RemoveMax(t.right)));
    }
  }

  lemma {:induction false} RemoveMinKeeps(t: Tree)
    requires t.Bin? && Ordered(t)
    ensures MinNode(t) in Nodes(t) && Nodes(RemoveMin(t)) == Nodes(t) - {MinNode(t)}
    ensures Above(RemoveMin(t), MinNode(t).key) && Ordered(RemoveMin(t))
  {
    if t.left.Nil? {
    } else {
      RemoveMinKeeps(t.left);
      AdjustKeeps(t.(left := RemoveMin(t.left)));
    }
  }

  lemma JoinAtMax(l: Tree, n: Node, r: Tree)
    requires Ordered(Bin(l, n, r)) && l.Bin?
    ensures Ordered(Bin(RemoveMax(l), MaxNode(l), r))
    ensures Nodes(Bin(RemoveMax(l), MaxNode(l), r)) == Nodes(l) + Nodes(r)
  {
    RemoveMaxKeeps(l);
    assert MaxNode(l).key < n.key;
  }

  lemma JoinAtMin(l: Tree, n: Node, r: Tree)
    requires Ordered(Bin(l, n, r)) && r.Bin?
    ensures Ordered(Bin(l, MinNode(r), RemoveMin(r)))
    ensures Nodes(Bin(l, MinNode(r), RemoveMin(r))) == Nodes(l) + Nodes(r)
  {
    RemoveMinKeeps(r);
    assert n.key < MinNode(r).key;
  }

  lemma RemoveRootKeeps(t: Tree)
    requires t.Bin? && Ordered(t)
    ensures Nodes(RemoveRoot(t)) == Nodes(t.left) + Nodes(t.right) && Ordered(RemoveRoot(t))
  {
    var Bin(l, n, r) := t;
    if l.Nil? && r.Nil? {
    } else if Height(l) > Height(r) {
      JoinAtMax(l, n, r);
      if l.right.Bin? {
        AdjustKeeps(Bin(RemoveMax(l), MaxNode(l), r));
      }
    } else {
      JoinAtMin(l, n, r);
      if r.left.Bin? {
        AdjustKeeps(Bin(l, MinNode(r), RemoveMin(r)));
      }
    }
  }

  ghost function Without(s: set<Node>, k: int): set<Node> {
    set n | n in s && n.key != k
  }

  /** One level of a deletion: k was removed from one side. */
  lemma ShrunkSide(t: Tree, k: int, l: Tree, r: Tree)
    requires t.Bin? && Ordered(t) && Ordered(l) && Ordered(r) && k != t.node.key
    requires Nodes(l) == Without(Nodes(t.left), k) && Nodes(r) == Without(Nodes(t.right), k)
    ensures Nodes(Bin(l, t.node, r)) == Without(Nodes(t), k) && Ordered(Bin(l, t.node, r))
  {
  }

  /** Deleting removes exactly the node with that key and keeps the search order,
      from any ordered tree: balance plays no part. */
  lemma {:induction false} DeleteKeeps(t: Tree, k: int)
    requires Ordered(t)
    ensures Nodes(Delete(t, k)) == Without(Nodes(t), k) && Ordered(Delete(t, k))
  {
    if t.Nil? {
    } else if k < t.node.key {
      DeleteKeeps(t.left, k);
      assert Without(Nodes(t.right), k) == Nodes(t.right);
      ShrunkSide(t, k, Delete(t.left, k), t.right);
      AdjustKeeps(t.(left := Delete(t.left, k)));
    } else if k > t.node.key {
      DeleteKeeps(t.right, k);
      assert Without(Nodes(t.left), k) == Nodes(t.left);
      ShrunkSide(t, k, t.left, Delete(t.right, k));
      AdjustKeeps(t.(right := Delete(t.right, k)));
    } else {
      RemoveRootKeeps(t);
      assert Without(Nodes(t), k) == Nodes(t.left) + Nodes(t.right);
    }
  }

  /** For the node that a search for k finds. */
  lemma DeleteFound(t: Tree, k: int)
    requires Ordered(t) && Find(t, k).Bin?
    ensures Ordered(Delete(t, k)) && Find(t, k).node in Nodes(t)
    ensures Nodes(Delete(t, k)) == Nodes(t) - {Find(t, k).node}
  {
    FindFinds(t, k);
    DeleteKeeps(t, k);
  }

  /** Whether taking out the largest node meets the tie on the way back up. */
  predicate RemoveMaxTies(t: Tree)
    requires t.Bin?
  {
    t.right.Bin? && (RemoveMaxTies(t.right) || Tie(t.left, RemoveMax(t.right)))
  }

  /** Whether deleting k meets the tie on the way back up: only below a right turn
      of the search, or on the right spine of a deleted left-heavy node. */
  predicate DeleteTies(t: Tree, k: int) {
    t.Bin? &&
    if k < t.node.key then DeleteTies(t.left, k)
    else if k > t.node.key then DeleteTies(t.right, k) || Tie(t.left, Delete(t.right, k))
    else Height(t.left) > Height(t.right) && RemoveMaxTies(t.left)
  }

  lemma {:induction false} RemoveMaxBalance(t: Tree)
    requires t.Bin? && Balanced(t)
    ensures Height(t) - 1 <= Height(RemoveMax(t)) <= Height(t)
    ensures RemoveMaxTies(t) ==> Height(RemoveMax(t)) == Height(t)
    ensures Balanced(RemoveMax(t)) <==> !RemoveMaxTies(t)
  {
    if t.right.Nil? {
    } else {
      RemoveMaxBalance(t.right);
      if !RemoveMaxTies(t.right) {
        AdjustBalance(t.(right := RemoveMax(t.right)));
      }
    }
  }

  lemma {:induction false} RemoveMinBalance(t: Tree)
    requires t.Bin? && Balanced(t)
    ensures Height(t) - 1 <= Height(RemoveMin(t)) <= Height(t)
    ensures Balanced(RemoveMin(t))
  {
    if t.left.Nil? {
    } else {
      RemoveMinBalance(t.left);
      AdjustBalance(t.(left := RemoveMin(t.left)));
    }
  }

  lemma RemoveRootBalance(t: Tree)
    requires t.Bin? && Balanced(t)
    ensures Height(t) - 1 <= Height(RemoveRoot(t)) <= Height(t)
    ensures DeleteTies(t, t.node.key) ==> Height(RemoveRoot(t)) == Height(t)
    ensures Balanced(RemoveRoot(t)) <==> !DeleteTies(t, t.node.key)
  {
    var Bin(l, n, r) := t;
    if l.Nil? && r.Nil? {
    } else if Height(l) > Height(r) {
      RemoveMaxBalance(l);
    } else {
      RemoveMinBalance(r);
    }
  }

  /** From a balanced tree, deleting k leaves a balanced tree exactly when no
      adjustment on the way up meets the tie. */
  lemma {:induction false} DeleteBalance(t: Tree, k: int)
    requires Balanced(t)
    ensures Height(t) - 1 <= Height(Delete(t, k)) <= Height(t)
    ensures DeleteTies(t, k) ==> Height(Delete(t, k)) == Height(t)
    ensures Balanced(Delete(t, k)) <==> !DeleteTies(t, k)
  {
    if t.Nil? {
    } else {
      if k < t.node.key {
        DeleteBalance(t.left, k);
        if !DeleteTies(t.left, k) {
          AdjustBalance(t.(left := Delete(t.left, k)));
        }
      } else if k > t.node.key {
        DeleteBalance(t.right, k);
        if !DeleteTies(t.right, k) {
          AdjustBalance(t.(right := Delete(t.right, k)));
        }
      } else {
        RemoveRootBalance(t);
      }
    }
  }

  // ----- The condition read off the tree before the deletion -----

  /** The subtrees of l are level, and the right one of them is right-heavy. */
  predicate Leans(l: Tree) {
    l.Bin? && l.right.Bin? && Height(l.left) == Height(l.right) && Height(l.right.left) < Height(l.right.right)
  }

  /** Whether t gets lower when its right side does: not if the left side is as high,
      and not if it is higher with level subtrees, since the double rotation is taken. */
  predicate LowerOnRight(t: Tree)
    requires t.Bin?
  {
    || Height(t.left) < Height(t.right)
    || (Height(t.left) > Height(t.right) && Height(t.left.left) != Height(t.left.right))
  }

  predicate LowerOnLeft(t: Tree)
    requires t.Bin?
  {
    || Height(t.right) < Height(t.left)
    || (Height(t.right) > Height(t.left) && Height(t.right.left) != Height(t.right.right))
  }

  /** Whether taking out the greatest node lowers t. */
  predicate MaxLowers(t: Tree)
    requires t.Bin?
  {
    t.right.Nil? || (MaxLowers(t.right) && LowerOnRight(t))
  }

  predicate MinLowers(t: Tree)
    requires t.Bin?
  {
    t.left.Nil? || (MinLowers(t.left) && LowerOnLeft(t))
  }

  predicate RootLowers(t: Tree)
    requires t.Bin?
  {
    if Height(t.left) > Height(t.right) then MaxLowers(t.left)
    else t.right.Nil? || (Height(t.left) < Height(t.right) && MinLowers(t.right))
  }

  /** Whether deleting k lowers t. */
  predicate Lowers(t: Tree, k: int) {
    t.Bin? &&
    if k < t.node.key then Lowers(t.left, k) && LowerOnLeft(t)
    else if k > t.node.key then Lowers(t.right, k) && LowerOnRight(t)
    else RootLowers(t)
  }

  /** The tie will be met at the root of t if its right side gets lower. */
  predicate AtRisk(t: Tree)
    requires t.Bin?
  {
    Leans(t.left) && Height(t.left) == Height(t.right) + 1
  }

  predicate MaxWillTie(t: Tree)
    requires t.Bin?
  {
    t.right.Bin? && (MaxWillTie(t.right) || (AtRisk(t) && MaxLowers(t.right)))
  }

  /** Whether deleting k will meet the tie, from the heights in t alone. */
  predicate WillTie(t: Tree, k: int) {
    t.Bin? &&
    if k < t.node.key then WillTie(t.left, k)
    else if k > t.node.key then WillTie(t.right, k) || (AtRisk(t) && Lowers(t.right, k))
    else Height(t.left) > Height(t.right) && MaxWillTie(t.left)
  }

  /** The right side of a balanced tree became r, one lower or as high as before. */
  lemma LowerRight(t: Tree, r: Tree)
    requires t.Bin? && Balanced(t) && Height(t.right) - 1 <= Height(r) <= Height(t.right)
    requires Height(r) < Height(t.right) ==> Balanced(r)
    ensures Height(Adjust(t.(right := r))) < Height(t) <==> Height(r) < Height(t.right) && LowerOnRight(t)
    ensures Tie(t.left, r) <==> AtRisk(t) && Height(r) < Height(t.right)
  {
    var u := t.(right := r);
    if Height(u.left) == Height(r) + 2 {
      AdjustLeftHeavy(u);
    }
  }

  lemma LowerLeft(t: Tree, l: Tree)
    requires t.Bin? && Balanced(t) && Height(t.left) - 1 <= Height(l) <= Height(t.left)
    requires Height(l) < Height(t.left) ==> Balanced(l)
    ensures Height(Adjust(t.(left := l))) < Height(t) <==> Height(l) < Height(t.left) && LowerOnLeft(t)
  {
    var u := t.(left := l);
    if Height(u.right) == Height(l) + 2 {
      AdjustRightHeavy(u);
    }
  }

  lemma {:induction false} MaxTells(t: Tree)
    requires t.Bin? && Balanced(t)
    ensures RemoveMaxTies(t) <==> MaxWillTie(t)
    ensures Height(RemoveMax(t)) < Height(t) <==> MaxLowers(t)
  {
    if t.right.Nil? {
    } else {
      MaxTells(t.right);
      RemoveMaxBalance(t.right);
      LowerRight(t, RemoveMax(t.right));
    }
  }

  lemma {:induction false} MinTells(t: Tree)
    requires t.Bin? && Balanced(t)
    ensures Height(RemoveMin(t)) < Height(t) <==> MinLowers(t)
  {
    if t.left.Nil? {
    } else {
      MinTells(t.left);
      RemoveMinBalance(t.left);
      LowerLeft(t, RemoveMin(t.left));
    }
  }

  lemma RootTells(t: Tree)
    requires t.Bin? && Balanced(t)
    ensures Height(RemoveRoot(t)) < Height(t) <==> RootLowers(t)
  {
    var Bin(l, _, r) := t;
    if l.Nil? && r.Nil? {
    } else if Height(l) > Height(r) {
      MaxTells(l);
      RemoveMaxBalance(l);
    } else {
      MinTells(r);
      RemoveMinBalance(r);
    }
  }

  lemma {:induction false} DeleteTells(t: Tree, k: int)
    requires Balanced(t)
    ensures DeleteTies(t, k) <==> WillTie(t, k)
    ensures Height(Delete(t, k)) < Height(t) <==> Lowers(t, k)
  {
    if t.Nil? {
    } else if k < t.node.key {
      DeleteTells(t.left, k);
      DeleteBalance(t.left, k);
      LowerLeft(t, Delete(t.left, k));
    } else if k > t.node.key {
      DeleteTells(t.right, k);
      DeleteBalance(t.right, k);
      LowerRight(t, Delete(t.right, k));
    } else {
      RootTells(t);
      if t.left.Bin? {
        MaxTells(t.left);
      }
    }
  }

  /** Before a key is deleted from a balanced tree, its heights tell whether the tree will
      still be balanced, and whether it will be lower. */
  lemma DeleteForetold(t: Tree, k: int)
    requires Balanced(t)
    ensures Balanced(Delete(t, k)) <==> !WillTie(t, k)
    ensures Height(Delete(t, k)) == Height(t) - if Lowers(t, k) then 1 else 0
  {
    DeleteTells(t, k);
    DeleteBalance(t, k);
  }

  // ----- Paths from a subtree up to the root -----

  /** What surrounds a subtree: the nodes above it and their other subtrees. */
  datatype Path =
    | Top
    | LeftOf(node: Node, right: Tree, up: Path)
    | RightOf(left: Tree, node: Node, up: Path)

  ghost function PathNodes(c: Path): set<Node> {
    match c
    case Top => {}
    case LeftOf(n, r, up) => {n} + Nodes(r) + PathNodes(up)
    case RightOf(l, n, up) => Nodes(l) + {n} + PathNodes(up)
  }

  function Length(c: Path): nat {
    if c.Top? then 0 else 1 + Length(c.up)
  }

  /** The tree whose subtree at the end of the path is t. */
  function Fill(c: Path, t: Tree): Tree {
    match c
    case Top => t
    case LeftOf(n, r, up) => Fill(up, Bin(t, n, r))
    case RightOf(l, n, up) => Fill(up, Bin(l, n, t))
  }

  /** At every node of the path the keys send a search for k the way the path goes. */
  predicate Toward(c: Path, k: int) {
    match c
    case Top => true
    case LeftOf(n, r, up) => k < n.key && Toward(up, k)
    case RightOf(l, n, up) => k > n.key && Toward(up, k)
  }

  /** A path is no longer than the tree is high. */
  lemma {:induction false} PathFits(c: Path, t: Tree)
    ensures Length(c) + Height(t) <= Height(Fill(c, t))
  {
    match c
    case Top =>
    case LeftOf(n, r, up) => PathFits(up, Bin(t, n, r));
    case RightOf(l, n, up) => PathFits(up, Bin(l, n, t));
  }

  /** The tree after a subtree became t and every node above it was adjusted. */
  function Up(c: Path, t: Tree): Tree {
    match c
    case Top => t
    case LeftOf(n, r, up) => Up(up, Adjust(Bin(t, n, r)))
    case RightOf(l, n, up) => Up(up, Adjust(Bin(l, n, t)))
  }

  /** The nodes of the path are distinct, and distinct from s. */
  ghost predicate Apart(c: Path, s: set<Node>) {
    match c
    case Top => true
    case LeftOf(n, r, up) =>
      n !in s && n !in Nodes(r) && s !! Nodes(r) && Distinct(r) && Apart(up, s + {n} + Nodes(r))
    case RightOf(l, n, up) =>
      n !in s && n !in Nodes(l) && s !! Nodes(l) && Distinct(l) && Apart(up, Nodes(l) + {n} + s)
  }

  lemma {:induction false} ApartIsDisjoint(c: Path, s: set<Node>)
    requires Apart(c, s)
    ensures PathNodes(c) !! s
  {
    match c
    case Top =>
    case LeftOf(n, r, up) => ApartIsDisjoint(up, s + {n} + Nodes(r));
    case RightOf(l, n, up) => ApartIsDisjoint(up, Nodes(l) + {n} + s);
  }

  /** Whatever lies off the path can stand below it. */
  lemma {:induction false} ApartOff(c: Path, s: set<Node>, s': set<Node>)
    requires Apart(c, s) && PathNodes(c) !! s'
    ensures Apart(c, s')
  {
    match c
    case Top =>
    case LeftOf(n, r, up) =>
      ApartIsDisjoint(up, s + {n} + Nodes(r));
      ApartOff(up, s + {n} + Nodes(r), s' + {n} + Nodes(r));
    case RightOf(l, n, up) =>
      ApartIsDisjoint(up, Nodes(l) + {n} + s);
      ApartOff(up, Nodes(l) + {n} + s, Nodes(l) + {n} + s');
  }

  /** The path d continued by the path e. */
  function Append(d: Path, e: Path): Path {
    match d
    case Top => e
    case LeftOf(n, r, up) => LeftOf(n, r, Append(up, e))
    case RightOf(l, n, up) => RightOf(l, n, Append(up, e))
  }

  lemma {:induction false} UpAppend(d: Path, e: Path, t: Tree)
    ensures Up(Append(d, e), t) == Up(e, Up(d, t))
  {
    match d
    case Top =>
    case LeftOf(n, r, up) => UpAppend(up, e, Adjust(Bin(t, n, r)));
    case RightOf(l, n, up) => UpAppend(up, e, Adjust(Bin(l, n, t)));
  }

  lemma {:induction false} NodesAppend(d: Path, e: Path)
    ensures PathNodes(Append(d, e)) == PathNodes(d) + PathNodes(e)
  {
    if d.Top? {
    } else {
      NodesAppend(d.up, e);
    }
  }

  lemma {:induction false} ApartAppend(d: Path, e: Path, s: set<Node>)
    requires Apart(d, s) && Apart(e, s + PathNodes(d))
    ensures Apart(Append(d, e), s)
  {
    match d
    case Top =>
      assert s + PathNodes(d) == s;
    case LeftOf(n, r, up) =>
      assert (s + {n} + Nodes(r)) + PathNodes(up) == s + PathNodes(d);
      ApartAppend(up, e, s + {n} + Nodes(r));
    case RightOf(l, n, up) =>
      assert (Nodes(l) + {n} + s) + PathNodes(up) == s + PathNodes(d);
      ApartAppend(up, e, Nodes(l) + {n} + s);
  }
}
