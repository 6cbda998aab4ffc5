/**
 The gap tree of the frame sorter: an AVL tree of byte intervals, ordered by start and
 then by end.  `Btree` is the mutable object; `Tree` is the value its root points to.
 */
module GapTree {
  import opened Protocol

  /** Half-open interval [start, end) of stream offsets. */
  datatype ByteInterval = ByteInterval(start: int, end: int)

  /** The strict order behind `ByteInterval.Comp`. */
  predicate Less(a: ByteInterval, b: ByteInterval) {
    a.start < b.start || (a.start == b.start && a.end < b.end)
  }

  /** Overlapping or touching, the condition under which `ByteInterval.Match` answers 0. */
  predicate Touches(a: ByteInterval, b: ByteInterval) {
    a.start <= b.end && a.end >= b.start
  }

  datatype Tree = Nil | Node(value: ByteInterval, left: Tree, right: Tree, height: int)

  ghost function Elems(t: Tree): (s: set<ByteInterval>) {
    match t
    case Nil => {}
    case Node(v, l, r, _) => Elems(l) + {v} + Elems(r)
  }

  function Height(t: Tree): int {
    if t.Nil? then 0 else t.height
  }

  function Balance(t: Tree): int {
    if t.Nil? then 0 else Height(t.left) - Height(t.right)
  }

  /** Node with its height recomputed from its children. */
  function Mk(v: ByteInterval, l: Tree, r: Tree): Tree {
    Node(v, l, r, Max(Height(l), Height(r)) + 1)
  }

  ghost predicate AllBelow(t: Tree, v: ByteInterval) {
    forall x :: x in Elems(t) ==> Less(x, v)
  }

  ghost predicate AllAbove(t: Tree, v: ByteInterval) {
    forall x :: x in Elems(t) ==> Less(v, x)
  }

  ghost predicate Ordered(t: Tree) {
    t.Node? ==>
      && Ordered(t.left) && Ordered(t.right)
      && AllBelow(t.left, t.value) && AllAbove(t.right, t.value)
  }

  /** Stored heights are the real heights and siblings differ by at most one. */
  ghost predicate Avl(t: Tree) {
    t.Node? ==>
      && Avl(t.left) && Avl(t.right)
      && t.height == Max(Height(t.left), Height(t.right)) + 1
      && -1 <= Balance(t) <= 1
  }

  lemma {:induction t} HeightNonNegative(t: Tree)
    requires Avl(t)
    ensures Height(t) >= 0
    ensures Height(t) == 0 <==> t.Nil?
  {
  }

  function RotateRight(n: Tree): (r: Tree)
    requires n.Node? && n.left.Node?
    ensures Elems(r) == Elems(n)
    ensures Ordered(n) ==> Ordered(r)
  {
    var l := n.left;
    assert Ordered(n) ==> Ordered(l) && Ordered(n.right);
    assert l.value in Elems(l) && Elems(l.left) <= Elems(l) && Elems(l.right) <= Elems(l);
    Mk(l.value, l.left, Mk(n.value, l.right, n.right))
  }

  function RotateLeft(n: Tree): (r: Tree)
    requires n.Node? && n.right.Node?
    ensures Elems(r) == Elems(n)
    ensures Ordered(n) ==> Ordered(r)
  {
    var t := n.right;
    assert Ordered(n) ==> Ordered(t) && Ordered(n.left);
    assert t.value in Elems(t) && Elems(t.left) <= Elems(t) && Elems(t.right) <= Elems(t);
    Mk(t.value, Mk(n.value, n.left, t.left), t.right)
  }

  /** Left rotation of the left child, then right rotation of the node. */
  function DoubleRight(n: Tree): (r: Tree)
    requires n.Node? && n.left.Node? && n.left.right.Node?
    ensures Elems(r) == Elems(n)
    ensures Ordered(n) ==> Ordered(r)
    ensures var l, m := n.left, n.left.right;
            r == Mk(m.value, Mk(l.value, l.left, m.left), Mk(n.value, m.right, n.right))
  {
    assert Ordered(n) ==> Ordered(n.left);
    RotateRight(Node(n.value, RotateLeft(n.left), n.right, n.height))
  }

  /** Right rotation of the right child, then left rotation of the node. */
  function DoubleLeft(n: Tree): (r: Tree)
    requires n.Node? && n.right.Node? && n.right.left.Node?
    ensures Elems(r) == Elems(n)
    ensures Ordered(n) ==> Ordered(r)
    ensures var l, m := n.right, n.right.left;
            r == Mk(m.value, Mk(n.value, n.left, m.left), Mk(l.value, m.right, l.right))
  {
    assert Ordered(n) ==> Ordered(n.right);
    RotateLeft(Node(n.value, n.left, RotateRight(n.right), n.height))
  }

  lemma SingleRightAvl(n: Tree)
    requires n.Node? && Avl(n.left) && Avl(n.right) && Balance(n) == 2
    requires n.left.Node? && Balance(n.left) >= 0
    ensures Avl(RotateRight(n))
    ensures Height(n.left) + (if Balance(n.left) == 0 then 1 else 0) == Height(RotateRight(n))
  {
  }

  lemma SingleLeftAvl(n: Tree)
    requires n.Node? && Avl(n.left) && Avl(n.right) && Balance(n) == -2
    requires n.right.Node? && Balance(n.right) <= 0
    ensures Avl(RotateLeft(n))
    ensures Height(n.right) + (if Balance(n.right) == 0 then 1 else 0) == Height(RotateLeft(n))
  {
  }

  lemma DoubleRightAvl(n: Tree)
    requires n.Node? && Avl(n.left) && Avl(n.right) && Balance(n) == 2
    requires n.left.Node? && Balance(n.left) == -1
    ensures n.left.right.Node? && Avl(DoubleRight(n))
    ensures Height(DoubleRight(n)) == Height(n.left)
  {
    HeightNonNegative(n.left.left);
    HeightNonNegative(n.left.right);
  }

  lemma DoubleLeftAvl(n: Tree)
    requires n.Node? && Avl(n.left) && Avl(n.right) && Balance(n) == -2
    requires n.right.Node? && Balance(n.right) == 1
    ensures n.right.left.Node? && Avl(DoubleLeft(n))
    ensures Height(DoubleLeft(n)) == Height(n.right)
  {
    HeightNonNegative(n.right.left);
    HeightNonNegative(n.right.right);
  }

  /** What a rebalancing step keeps and restores. */
  ghost predicate Rebalanced(n: Tree, r: Tree)
    requires n.Node?
  {
    && Elems(r) == Elems(n)
    && (Ordered(n) ==> Ordered(r))
    && Avl(r)
    && (-1 <= Balance(n) <= 1 ==> r == n)
    && n.height - 1 <= Height(r) <= n.height
  }

  /** An unbalanced node whose taller child leans towards the side the new value went to. */
  ghost predicate LeansTowards(n: Tree, v: ByteInterval) {
    && n.Node? && Avl(n.left) && Avl(n.right)
    && n.height == Max(Height(n.left), Height(n.right)) + 1
    && -2 <= Balance(n) <= 2
    && (Balance(n) == 2 ==> n.left.Node? && Leans(n.left, v))
    && (Balance(n) == -2 ==> n.right.Node? && Leans(n.right, v))
  }

  ghost predicate Leans(c: Tree, v: ByteInterval)
    requires c.Node?
  {
    && v != c.value
    && (Less(v, c.value) ==> Balance(c) == 1)
    && (Less(c.value, v) ==> Balance(c) == -1)
  }

  /** The rebalancing at the end of `insert`, for the freshly inserted value `v`. */
  method RebalanceInsert(n: Tree, v: ByteInterval) returns (r: Tree)
    requires LeansTowards(n, v)
    ensures Rebalanced(n, r)
    ensures !(-1 <= Balance(n) <= 1) ==> Height(r) == n.height - 1
  {
    r := n;
    if Balance(n) > 1 {
      if Less(v, n.left.value) {
        SingleRightAvl(n);
        r := RotateRight(n);
      } else if Less(n.left.value, v) {
        DoubleRightAvl(n);
        r := DoubleRight(n);
      }
    } else if Balance(n) < -1 {
      if Less(n.right.value, v) {
        SingleLeftAvl(n);
        r := RotateLeft(n);
      } else if Less(v, n.right.value) {
        DoubleLeftAvl(n);
        r := DoubleLeft(n);
      }
    }
  }

  /** What `insert` establishes; `grew` carries the shape fact the next level up relies on. */
  ghost predicate Inserted(t: Tree, v: ByteInterval, r: Tree) {
    && r.Node? && Ordered(r) && Avl(r)
    && Elems(r) == Elems(t) + {v}
    && Height(t) <= Height(r) <= Height(t) + 1
    && (v in Elems(t) ==> Height(r) == Height(t))
    && (t.Node? && Height(r) > Height(t) ==>
          Leans(r, v))
  }

  /** Carries `Inserted` from the child that took `v` to the rebalanced parent. */
  lemma InsertedAbove(t: Tree, v: ByteInterval, n: Tree, r: Tree)
    requires t.Node? && Ordered(t) && Avl(t)
    requires n.Node? && n == Mk(t.value, n.left, n.right)
    requires Less(t.value, v) ==> n.left == t.left && Inserted(t.right, v, n.right)
    requires Less(v, t.value) ==> n.right == t.right && Inserted(t.left, v, n.left)
    requires v != t.value
    requires Rebalanced(n, r)
    requires !(-1 <= Balance(n) <= 1) ==> Height(r) == n.height - 1
    ensures Inserted(t, v, r)
  {
    assert Ordered(n);
    assert v in Elems(t) ==> v in Elems(if Less(v, t.value) then t.left else t.right);
  }

  method Insert(t: Tree, v: ByteInterval) returns (r: Tree, added: bool)
    requires Ordered(t) && Avl(t)
    ensures Inserted(t, v, r)
    ensures added <==> v !in Elems(t)
    decreases t
  {
    if t.Nil? {
      r, added := Mk(v, Nil, Nil), true;
    } else if Less(t.value, v) {
      HeightNonNegative(t.left);
      var right;
      right, added := Insert(t.right, v);
      var n := Mk(t.value, t.left, right);
      r := RebalanceInsert(n, v);
      InsertedAbove(t, v, n, r);
    } else if Less(v, t.value) {
      HeightNonNegative(t.right);
      var left;
      left, added := Insert(t.left, v);
      var n := Mk(t.value, left, t.right);
      r := RebalanceInsert(n, v);
      InsertedAbove(t, v, n, r);
    } else {
      r, added := Node(v, t.left, t.right, t.height), false;
    }
  }

  /** The smallest value of a non-empty tree. */
  function Leftmost(t: Tree): (m: ByteInterval)
    requires t.Node?
    ensures m in Elems(t)
    ensures Ordered(t) ==> forall x :: x in Elems(t) ==> x == m || Less(m, x)
  {
    if t.left.Nil? then t.value else Leftmost(t.left)
  }

  /** The rebalancing at the end of `deleteNode`. */
  method RebalanceDelete(n: Tree) returns (r: Tree)
    requires n.Node? && Avl(n.left) && Avl(n.right)
    requires n.height == Max(Height(n.left), Height(n.right)) + 1
    requires -2 <= Balance(n) <= 2
    ensures Rebalanced(n, r)
  {
    HeightNonNegative(n.left);
    HeightNonNegative(n.right);
    r := n;
    if Balance(n) > 1 {
      if Balance(n.left) >= 0 {
        SingleRightAvl(n);
        r := RotateRight(n);
      } else {
        DoubleRightAvl(n);
        r := DoubleRight(n);
      }
    } else if Balance(n) < -1 {
      if Balance(n.right) <= 0 {
        SingleLeftAvl(n);
        r := RotateLeft(n);
      } else {
        DoubleLeftAvl(n);
        r := DoubleLeft(n);
      }
    }
  }

  ghost predicate Deleted(t: Tree, v: ByteInterval, r: Tree) {
    && Ordered(r) && Avl(r)
    && Elems(r) == Elems(t) - {v}
    && Height(t) - 1 <= Height(r) <= Height(t)
  }

  /** Carries `Deleted` from the shrunk child to the rebalanced parent. */
  lemma DeletedAbove(t: Tree, v: ByteInterval, n: Tree, r: Tree)
    requires t.Node? && Ordered(t) && Avl(t) && v != t.value
    requires n.Node? && n == Mk(t.value, n.left, n.right)
    requires Less(t.value, v) ==> n.left == t.left && Deleted(t.right, v, n.right)
    requires Less(v, t.value) ==> n.right == t.right && Deleted(t.left, v, n.left)
    requires Rebalanced(n, r)
    ensures Deleted(t, v, r)
  {
    assert Elems(n) == Elems(t) - {v};
    assert Ordered(n);
  }

  /** Replacing the root by the minimum of its right subtree. */
  lemma DeletedRoot(t: Tree, n: Tree, r: Tree)
    requires t.Node? && Ordered(t) && Avl(t) && t.right.Node?
    requires n.Node? && n == Mk(Leftmost(t.right), t.left, n.right) && Deleted(t.right, Leftmost(t.right), n.right)
    requires Rebalanced(n, r)
    ensures Deleted(t, t.value, r)
  {
    assert Elems(n) == Elems(t) - {t.value};
    assert Ordered(n);
  }

  method Delete(t: Tree, v: ByteInterval) returns (r: Tree, deleted: bool)
    requires Ordered(t) && Avl(t)
    ensures Deleted(t, v, r)
    ensures deleted <==> v in Elems(t)
    decreases t
  {
    if t.Nil? {
      return Nil, false;
    }
    HeightNonNegative(t.left);
    HeightNonNegative(t.right);
    if Less(v, t.value) {
      var left;
      left, deleted := Delete(t.left, v);
      var n := Mk(t.value, left, t.right);
      r := RebalanceDelete(n);
      DeletedAbove(t, v, n, r);
    } else if Less(t.value, v) {
      var right;
      right, deleted := Delete(t.right, v);
      var n := Mk(t.value, t.left, right);
      r := RebalanceDelete(n);
      DeletedAbove(t, v, n, r);
    } else if t.left.Nil? {
      r, deleted := t.right, true;
    } else if t.right.Nil? {
      r, deleted := t.left, true;
    } else {
      var m := Leftmost(t.right);
      var right;
      right, deleted := Delete(t.right, m);
      deleted := true;
      var n := Mk(m, t.left, right);
      r := RebalanceDelete(n);
      DeletedRoot(t, n, r);
    }
  }

  /** No two intervals overlap, not even by touching at an end. */
  ghost predicate Separated(s: set<ByteInterval>) {
    && (forall g :: g in s ==> g.start < g.end)
    && (forall g, h :: g in s && h in s && g.start < h.start ==> g.end < h.start)
    && (forall g, h :: g in s && h in s && g.start == h.start ==> g == h)
  }

  lemma SeparatedParts(part: set<ByteInterval>, s: set<ByteInterval>)
    requires Separated(s) && part <= s
    ensures Separated(part)
  {
  }

  /** `r` lists exactly the intervals of `s` that overlap or touch `c`, in ascending order. */
  ghost predicate Matches(s: set<ByteInterval>, c: ByteInterval, r: seq<ByteInterval>) {
    && (forall i, j :: 0 <= i < j < |r| ==> Less(r[i], r[j]))
    && (forall g :: g in r <==> g in s && Touches(g, c))
  }

  /** Joining the matches of both subtrees around a matching root. */
  lemma MatchesAround(t: Tree, c: ByteInterval, before: seq<ByteInterval>, after: seq<ByteInterval>)
    requires t.Node? && Ordered(t) && Touches(t.value, c)
    requires Matches(Elems(t.left), c, before) && Matches(Elems(t.right), c, after)
    ensures Matches(Elems(t), c, before + [t.value] + after)
  {
    var r := before + [t.value] + after;
    forall i, j | 0 <= i < j < |r|
      ensures Less(r[i], r[j])
    {
      assert i < |before| ==> r[i] == before[i] && r[i] in before;
      assert j > |before| ==> r[j] == after[j - |before| - 1] && r[j] in after;
    }
  }

  /** When the root lies after `c`, so does its right subtree. */
  lemma MatchesLeft(t: Tree, c: ByteInterval, r: seq<ByteInterval>)
    requires t.Node? && Ordered(t) && t.value.start > c.end
    requires Matches(Elems(t.left), c, r)
    ensures Matches(Elems(t), c, r)
  {
    assert forall g :: g in Elems(t.right) ==> Less(t.value, g) && !Touches(g, c);
    assert Elems(t) == Elems(t.left) + {t.value} + Elems(t.right);
  }

  /** When the root lies before `c`, so does its left subtree: its intervals end before the root. */
  lemma MatchesRight(t: Tree, c: ByteInterval, r: seq<ByteInterval>)
    requires t.Node? && Ordered(t) && Separated(Elems(t)) && t.value.end < c.start
    requires Matches(Elems(t.right), c, r)
    ensures Matches(Elems(t), c, r)
  {
    var s := Elems(t);
    assert s == Elems(t.left) + {t.value} + Elems(t.right);
    forall g | g in Elems(t.left)
      ensures !Touches(g, c)
    {
      assert g in s && t.value in s && Less(g, t.value);
    }
  }

  /** In-order search that prunes the subtrees lying wholly before or after `c`. */
  method Match(t: Tree, c: ByteInterval) returns (r: seq<ByteInterval>)
    requires Ordered(t) && Separated(Elems(t))
    ensures Matches(Elems(t), c, r)
    decreases t
  {
    if t.Nil? {
      return [];
    }
    SeparatedParts(Elems(t.left), Elems(t));
    SeparatedParts(Elems(t.right), Elems(t));
    if t.value.start > c.end {
      r := Match(t.left, c);
      MatchesLeft(t, c, r);
    } else if t.value.end < c.start {
      r := Match(t.right, c);
      MatchesRight(t, c, r);
    } else {
      var before := Match(t.left, c);
      var after := Match(t.right, c);
      r := before + [t.value] + after;
      MatchesAround(t, c, before, after);
    }
  }

  /** Fewest nodes an AVL tree of height `h` can have. */
  function MinNodes(h: int): nat {
    if h <= 0 then 0 else if h == 1 then 1 else 1 + MinNodes(h - 1) + MinNodes(h - 2)
  }

  lemma {:induction false} MinNodesMonotone(a: int, b: int)
    requires a <= b
    ensures MinNodes(a) <= MinNodes(b)
    decreases b - a
  {
    if a < b {
      MinNodesMonotone(a, b - 1);
    }
  }

  lemma ElemsCount(t: Tree)
    requires t.Node? && Ordered(t)
    ensures |Elems(t)| == |Elems(t.left)| + 1 + |Elems(t.right)|
  {
    var l, r := Elems(t.left), Elems(t.right);
    assert t.value !in l && t.value !in r;
    forall x | x in l
      ensures x !in r
    {
      assert Less(x, t.value);
    }
    assert l !! {t.value} && (l + {t.value}) !! r;
    assert |l + {t.value}| == |l| + 1;
  }

  lemma MinNodesStep(l: int, r: int)
    requires l >= 0 && r >= 0 && -1 <= l - r <= 1
    ensures MinNodes(Max(l, r) + 1) <= 1 + MinNodes(l) + MinNodes(r)
  {
    var h := Max(l, r) + 1;
    MinNodesMonotone(h - 2, l);
    MinNodesMonotone(h - 2, r);
  }

  function Count(t: Tree): nat {
    if t.Nil? then 0 else 1 + Count(t.left) + Count(t.right)
  }

  lemma {:induction false} CountElems(t: Tree)
    requires Ordered(t)
    ensures |Elems(t)| == Count(t)
  {
    if t.Node? {
      CountElems(t.left);
      CountElems(t.right);
      ElemsCount(t);
    }
  }

  lemma {:induction false} NodesForHeight(t: Tree)
    requires Avl(t)
    ensures Count(t) >= MinNodes(Height(t))
  {
    if t.Node? {
      HeightNonNegative(t.left);
      HeightNonNegative(t.right);
      NodesForHeight(t.left);
      NodesForHeight(t.right);
      MinNodesStep(Height(t.left), Height(t.right));
    }
  }

  /** With at most 20002 gaps a height never leaves the range of the source's 8-bit field. */
  lemma HeightFitsInt8(t: Tree)
    requires Ordered(t) && Avl(t)
    requires |Elems(t)| <= 20_002
    ensures 0 <= Height(t) <= 20
  {
    HeightNonNegative(t);
    NodesForHeight(t);
    CountElems(t);
    if Height(t) > 20 {
      MinNodesMonotone(21, Height(t));
    }
  }

  lemma CardOfInsert(s: set<ByteInterval>, v: ByteInterval)
    ensures |s + {v}| == |s| + (if v in s then 0 else 1)
  {
    if v in s {
      assert s + {v} == s;
    }
  }

  type SearchTree = t: Tree | Ordered(t) && Avl(t) witness Nil

  class Btree {
    var root: SearchTree
    var len: int

    /** The intervals in the tree. */
    ghost var values: set<ByteInterval>

    ghost predicate Valid()
      reads this
    {
      values == Elems(root) && len == |values|
    }

    lemma LenIsCount()
      requires Valid()
      ensures len == |values|
    {
    }

    constructor ()
      ensures Valid() && values == {}
    {
      root, len := Nil, 0;
      values := {};
    }

    method InsertValue(v: ByteInterval)
      requires Valid()
      modifies this
      ensures Valid() && values == old(values) + {v}
    {
      CardOfInsert(values, v);
      var t, added := Insert(root, v);
      root := t;
      if added {
        len := len + 1;
      }
      values := values + {v};
    }

    method DeleteValue(v: ByteInterval)
      requires Valid()
      modifies this
      ensures Valid() && values == old(values) - {v}
    {
      var t, deleted := Delete(root, v);
      root := t;
      if deleted {
        len := len - 1;
      }
      values := values - {v};
    }

    method MatchValues(c: ByteInterval) returns (r: seq<ByteInterval>)
      requires Valid() && Separated(values)
      ensures Matches(values, c, r)
    {
      r := Match(root, c);
    }
  }
}
