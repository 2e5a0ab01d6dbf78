/** What holds of the search trees over whole runs of insertions and deletions. */
module AvlRuns {
  import opened AvlShape

  datatype Op = Put(node: Node) | Del(key: int)

  /** One call on the tree: a key that is there already is not added. */
  ghost function Step(t: Tree, op: Op): Tree {
    match op
    case Put(n) => if n.key in Keys(t) then t else Insert(t, n)
    case Del(k) => Delete(t, k)
  }

  ghost function Run(t: Tree, ops: seq<Op>): Tree {
    if ops == [] then t else Step(Run(t, ops[..|ops| - 1]), ops[|ops| - 1])
  }

  /** The keys a set would hold after the same run. */
  ghost function KeysAfter(ks: set<int>, ops: seq<Op>): set<int> {
    if ops == [] then ks else
      var before := KeysAfter(ks, ops[..|ops| - 1]);
      match ops[|ops| - 1]
      case Put(n) => before + {n.key}
      case Del(k) => before - {k}
  }

  /** Whether an adjustment of the call meets the tie of avl_tree_adjust. */
  ghost predicate Ties(t: Tree, op: Op) {
    match op
    case Put(n) => n.key !in Keys(t) && InsertTies(t, n)
    case Del(k) => WillTie(t, k)
  }

  ghost predicate NoTies(t: Tree, ops: seq<Op>) {
    ops == [] ||
    var before := ops[..|ops| - 1];
    NoTies(t, before) && !Ties(Run(t, before), ops[|ops| - 1])
  }

  function Fib(n: nat): nat {
    if n < 2 then n else Fib(n - 1) + Fib(n - 2)
  }

  lemma {:induction false} FibGrows(n: nat)
    ensures Fib(n) <= Fib(n + 1)
  {
    if n < 2 {
    } else {
      FibGrows(n - 1);
      FibGrows(n - 2);
    }
  }

  /** If the subtrees are as big as their heights demand, so is the tree. */
  lemma FibOfHeights(h: nat, l: nat, r: nat, sizeL: nat, sizeR: nat)
    requires Near(l, r) && h == 1 + Max(l, r)
    requires Fib(l + 2) <= sizeL + 1 && Fib(r + 2) <= sizeR + 1
    ensures Fib(h + 2) <= sizeL + 1 + sizeR + 1
  {
    var m := Max(l, r);
    assert Fib(m + 3) == Fib(m + 2) + Fib(m + 1);
    FibGrows(m + 1);
  }

  function Size(t: Tree): nat {
    if t.Nil? then 0 else Size(t.left) + 1 + Size(t.right)
  }

  lemma {:induction false} CountNodes(t: Tree)
    requires Distinct(t)
    ensures |Nodes(t)| == Size(t)
  {
    if t.Nil? {
    } else {
      CountNodes(t.left);
      CountNodes(t.right);
      CountUnion(Nodes(t.left), t.node, Nodes(t.right));
    }
  }

  lemma CountUnion(a: set<Node>, n: Node, b: set<Node>)
    requires n !in a && n !in b && a !! b
    ensures |a + {n} + b| == |a| + 1 + |b|
  {
    assert |a + {n}| == |a| + 1;
  }

  lemma {:induction false} BalancedIsBigger(t: Tree)
    requires Balanced(t)
    ensures Fib(Height(t) + 2) <= Size(t) + 1
  {
    if t.Nil? {
    } else {
      BalancedIsBigger(t.left);
      BalancedIsBigger(t.right);
      FibOfHeights(Height(t), Height(t.left), Height(t.right), Size(t.left), Size(t.right));
    }
  }

  /** A balanced tree of height h has at least Fib(h + 2) - 1 nodes. */
  lemma BalancedIsBig(t: Tree)
    requires Balanced(t) && Distinct(t)
    ensures Fib(Height(t) + 2) <= |Nodes(t)| + 1
  {
    BalancedIsBigger(t);
    CountNodes(t);
  }

  /** Over any run, ties or no ties, the tree is a search tree that holds exactly
      the keys put in and not deleted since. */
  lemma {:induction false} RunKeeps(t: Tree, ops: seq<Op>)
    requires Ordered(t)
    ensures Ordered(Run(t, ops)) && Keys(Run(t, ops)) == KeysAfter(Keys(t), ops)
  {
    if ops == [] {
    } else {
      var before := Run(t, ops[..|ops| - 1]);
      RunKeeps(t, ops[..|ops| - 1]);
      match ops[|ops| - 1] {
        case Put(n) =>
          if n.key !in Keys(before) {
            InsertKeeps(before, n);
          }
        case Del(k) =>
          DeleteKeeps(before, k);
      }
    }
  }

  /** A run without ties keeps balance. */
  lemma {:induction false} RunBalance(t: Tree, ops: seq<Op>)
    requires Balanced(t) && NoTies(t, ops)
    ensures Balanced(Run(t, ops))
  {
    if ops == [] {
    } else {
      var before := Run(t, ops[..|ops| - 1]);
      RunBalance(t, ops[..|ops| - 1]);
      match ops[|ops| - 1] {
        case Put(n) => InsertBalance(before, n);
        case Del(k) => DeleteForetold(before, k);
      }
    }
  }

  /** No adjustment of any insertion meets the tie, however many there are. */
  lemma {:induction false} PutsOnly(t: Tree, ops: seq<Op>)
    requires Balanced(t) && forall op | op in ops :: op.Put?
    ensures NoTies(t, ops)
  {
    if ops == [] {
    } else {
      var before := ops[..|ops| - 1];
      PutsOnly(t, before);
      RunBalance(t, before);
      assert ops[|ops| - 1].Put?;
      InsertMeetsNoTie(Run(t, before), ops[|ops| - 1].node);
    }
  }

  lemma SearchBound(t: Tree, k: int, c: Path)
    requires var balanced, distinct := Balanced(t), Distinct(t); balanced && distinct
    requires Fill(c, Find(t, k)) == t
    ensures Length(c) + (if Find(t, k).Bin? then 1 else 0) <= Height(t)
    ensures Fib(Height(t) + 2) <= |Nodes(t)| + 1
  {
    PathFits(c, Find(t, k));
    BalancedIsBig(t);
  }

  lemma GrownIsSound(ops: seq<Op>)
    requires NoTies(Nil, ops)
    ensures var t := Run(Nil, ops);
      var balanced, distinct := Balanced(t), Distinct(t); balanced && distinct
  {
    RunKeeps(Nil, ops);
    RunBalance(Nil, ops);
    OrderedIsDistinct(Run(Nil, ops));
  }

  /** After any run without ties, a lookup visits at most h nodes, where Fib(h + 2) is
      at most one more than the number of nodes: the path c to where it ends, and the
      node it finds. */
  lemma LookupBound(ops: seq<Op>, t: Tree, k: int, c: Path)
    requires NoTies(Nil, ops) && t == Run(Nil, ops) && t == Fill(c, Find(t, k))
    ensures Length(c) + (if Find(t, k).Bin? then 1 else 0) <= Height(t)
    ensures Fib(Height(t) + 2) <= |Nodes(t)| + 1
  {
    GrownIsSound(ops);
    SearchBound(t, k, c);
  }

  lemma LookupBoundAfterPuts(ops: seq<Op>, t: Tree, k: int, c: Path)
    requires (forall op | op in ops :: op.Put?) && t == Run(Nil, ops) && t == Fill(c, Find(t, k))
    ensures Balanced(t) && Length(c) + (if Find(t, k).Bin? then 1 else 0) <= Height(t)
    ensures Fib(Height(t) + 2) <= |Nodes(t)| + 1
  {
    PutsOnly(Nil, ops);
    RunBalance(Nil, ops);
    LookupBound(ops, t, k, c);
  }

  lemma PutLeft(t: Tree, n: Node, l: Tree)
    requires t.Bin? && n.key < t.node.key && Insert(t.left, n) == l && Near(Height(l), Height(t.right))
    ensures Insert(t, n) == Bin(l, t.node, t.right)
  {
  }

  lemma PutRight(t: Tree, n: Node, r: Tree)
    requires t.Bin? && n.key > t.node.key && Insert(t.right, n) == r && Near(Height(t.left), Height(r))
    ensures Insert(t, n) == Bin(t.left, t.node, r)
  {
  }

  function Leaf(n: Node): Tree {
    Bin(Nil, n, Nil)
  }

  /** Eight nodes in balance, with a left child whose subtrees are level and lean
      to the right within. */
  function TieTree(n: seq<Node>): Tree
    requires |n| == 9
  {
    Bin(Bin(Bin(Leaf(n[1]), n[2], Nil), n[3], Bin(Nil, n[4], Leaf(n[5]))), n[6], Bin(Nil, n[7], Leaf(n[8])))
  }

  predicate Numbered(n: seq<Node>) {
    |n| == 9 && forall i | 0 <= i < 9 :: n[i].key == i
  }

  lemma GrowFive(n: seq<Node>)
    requires Numbered(n)
    ensures Insert(Insert(Insert(Insert(Insert(Nil, n[6]), n[3]), n[7]), n[2]), n[4])
         == Bin(Bin(Leaf(n[2]), n[3], Leaf(n[4])), n[6], Leaf(n[7]))
  {
    PutLeft(Leaf(n[6]), n[3], Leaf(n[3]));
    PutRight(Bin(Leaf(n[3]), n[6], Nil), n[7], Leaf(n[7]));
    var l := Bin(Leaf(n[2]), n[3], Nil);
    PutLeft(Leaf(n[3]), n[2], Leaf(n[2]));
    PutLeft(Bin(Leaf(n[3]), n[6], Leaf(n[7])), n[2], l);
    PutRight(l, n[4], Leaf(n[4]));
    PutLeft(Bin(l, n[6], Leaf(n[7])), n[4], Bin(Leaf(n[2]), n[3], Leaf(n[4])));
  }

  lemma GrowEight(n: seq<Node>)
    requires Numbered(n)
    ensures Insert(Insert(Insert(Bin(Bin(Leaf(n[2]), n[3], Leaf(n[4])), n[6], Leaf(n[7])), n[8]), n[1]), n[5])
         == TieTree(n)
  {
    var l, r := Bin(Leaf(n[2]), n[3], Leaf(n[4])), Bin(Nil, n[7], Leaf(n[8]));
    PutRight(Leaf(n[7]), n[8], Leaf(n[8]));
    PutRight(Bin(l, n[6], Leaf(n[7])), n[8], r);
    var l2, l4 := Bin(Leaf(n[1]), n[2], Nil), Bin(Nil, n[4], Leaf(n[5]));
    PutLeft(Leaf(n[2]), n[1], Leaf(n[1]));
    PutLeft(l, n[1], l2);
    PutLeft(Bin(l, n[6], r), n[1], Bin(l2, n[3], Leaf(n[4])));
    PutRight(Leaf(n[4]), n[5], Leaf(n[5]));
    PutRight(Bin(l2, n[3], Leaf(n[4])), n[5], l4);
    PutLeft(Bin(Bin(l2, n[3], Leaf(n[4])), n[6], r), n[5], Bin(l2, n[3], l4));
  }

  lemma TieTreeBreaks(n: seq<Node>)
    requires Numbered(n)
    ensures Balanced(TieTree(n)) && !Balanced(Delete(TieTree(n), 8))
  {
    var t := TieTree(n);
    assert Balanced(t.left.left) && Balanced(t.left.right) && Balanced(t.left) && Balanced(t.right);
    assert Delete(t.right, 8) == Leaf(n[7]);
    assert Tie(t.left, Leaf(n[7]));
    DeleteBalance(t, 8);
  }

  /** The tie is within reach: a balanced tree of eight nodes, grown from the empty
      tree by insertions, that one deletion leaves out of balance. */
  lemma TieReached(n: seq<Node>)
    requires Numbered(n)
    ensures var five := Insert(Insert(Insert(Insert(Insert(Nil, n[6]), n[3]), n[7]), n[2]), n[4]);
      var t := Insert(Insert(Insert(five, n[8]), n[1]), n[5]);
      Balanced(t) && !Balanced(Delete(t, 8))
  {
    GrowFive(n);
    GrowEight(n);
    TieTreeBreaks(n);
  }
}
