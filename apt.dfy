/**
 * The expression trees of apt/apt.go. A node is a leaf (X, Y or a
 * constant), a single node with one child (Sin, Cos, Atan), a double node
 * with a left and a right child (Atan2, SimplexNoise, +, -, *, /) or a
 * triple node with three children (Lerp); every child is a node or nil.
 *
 * `Apt` is such a tree as a value, on which `NodeCount`, `String` and the
 * effect of `AddRandom` are defined. `AptNode` is the pointer structure
 * that `AddRandom` updates in place; its `View` is the tree it holds. The
 * random draws are a parameter: `draw(0)` is the first `rand.Intn` answer,
 * `draw(1)` the next one, and so on; `d` counts the draws already used.
 */
module Apt {
  import opened Wrappers

  datatype LeafOp = X | Y | Constant(value: real)
  datatype SingleOp = Sin | Cos | Atan
  datatype DoubleOp = Atan2 | Noise | Plus | Minus | Mult | Div
  datatype TripleOp = Lerp

  datatype Apt =
    | Leaf(leaf: LeafOp)
    | Single(single: SingleOp, child: Option<Apt>)
    | Double(double: DoubleOp, leftChild: Option<Apt>, rightChild: Option<Apt>)
    | Triple(triple: TripleOp, firstChild: Option<Apt>, secondChild: Option<Apt>, thirdChild: Option<Apt>)

  /** What a child slot contributes to `NodeCount`: nil is no node and one nil. */
  function Slot(k: Option<Apt>): (c: (int, int))
    ensures c.0 >= 0 && c.1 >= 0
    ensures k.None? <==> c == (0, 1)
    decreases k
  {
    match k
    case None => (0, 1)
    case Some(t) => Count(t)
  }

  /** `NodeCount`: the number of nodes of the tree and the number of its nil child slots. */
  function Count(t: Apt): (c: (int, int))
    ensures c.0 >= 1 && c.1 >= 0
    decreases t
  {
    match t
    case Leaf(_) => (1, 0)
    case Single(_, c) => (1 + Slot(c).0, Slot(c).1)
    case Double(_, l, r) => (1 + Slot(l).0 + Slot(r).0, Slot(l).1 + Slot(r).1)
    case Triple(_, a, b, c) => (1 + Slot(a).0 + Slot(b).0 + Slot(c).0, Slot(a).1 + Slot(b).1 + Slot(c).1)
  }

  /** Child slots of each kind of node. */
  function Arity(t: Apt): nat
  {
    match t
    case Leaf(_) => 0
    case Single(_, _) => 1
    case Double(_, _, _) => 2
    case Triple(_, _, _, _) => 3
  }

  /** A node whose children are all nil. */
  predicate Bare(t: Apt)
  {
    match t
    case Leaf(_) => true
    case Single(_, c) => c.None?
    case Double(_, l, r) => l.None? && r.None?
    case Triple(_, a, b, c) => a.None? && b.None? && c.None?
  }

  /**
   * The node counts of the source: a leaf is (1, 0), and a nil child adds
   * no node and one nil, so a node with nothing below it counts one node
   * and one nil per slot.
   */
  lemma BareCount(t: Apt)
    requires Bare(t)
    ensures Count(t) == (1, Arity(t))
  {
  }

  /** `s` is `t` with some nil slots filled: every node of `t` is still there, with the same operator. */
  predicate Grown(s: Apt, t: Apt)
    decreases t
  {
    match t
    case Leaf(_) => s == t
    case Single(op, c) => s.Single? && s.single == op && SlotGrown(s.child, c)
    case Double(op, l, r) =>
      s.Double? && s.double == op && SlotGrown(s.leftChild, l) && SlotGrown(s.rightChild, r)
    case Triple(op, a, b, c) =>
      s.Triple? && s.triple == op && SlotGrown(s.firstChild, a) && SlotGrown(s.secondChild, b) &&
      SlotGrown(s.thirdChild, c)
  }

  /** A nil slot may be filled with anything; a filled one keeps a grown child. */
  predicate SlotGrown(k': Option<Apt>, k: Option<Apt>)
    decreases k
  {
    match k
    case None => true
    case Some(t) => k'.Some? && Grown(k'.value, t)
  }

  /** `AddRandom` applied to a slot: nil takes the node, a child passes it on. */
  function AddTo(k: Option<Apt>, n: Apt, draw: nat -> nat, d: nat): (r: (Option<Apt>, bool))
    ensures r.0.Some?
    decreases k
  {
    match k
    case None => (Some(n), true)
    case Some(c) =>
      var sub := Add(c, n, draw, d);
      (Some(sub.0), sub.1)
  }

  /**
   * `AddRandom(n)` on the tree `t`: a leaf drops `n`; a single node uses
   * its child slot; a double node draws 0 for the left slot and anything
   * else for the right; a triple node draws 0, 1 or anything else for the
   * first, second or third. The flag tells whether `n` was placed.
   */
  function Add(t: Apt, n: Apt, draw: nat -> nat, d: nat): (r: (Apt, bool))
    ensures Arity(r.0) == Arity(t)
    decreases t
  {
    match t
    case Leaf(_) => (t, false)
    case Single(op, c) =>
      var s := AddTo(c, n, draw, d);
      (Single(op, s.0), s.1)
    case Double(op, l, r) =>
      if draw(d) == 0 then
        var s := AddTo(l, n, draw, d + 1);
        (Double(op, s.0, r), s.1)
      else
        var s := AddTo(r, n, draw, d + 1);
        (Double(op, l, s.0), s.1)
    case Triple(op, a, b, c) =>
      if draw(d) == 0 then
        var s := AddTo(a, n, draw, d + 1);
        (Triple(op, s.0, b, c), s.1)
      else if draw(d) == 1 then
        var s := AddTo(b, n, draw, d + 1);
        (Triple(op, a, s.0, c), s.1)
      else
        var s := AddTo(c, n, draw, d + 1);
        (Triple(op, a, b, s.0), s.1)
  }

  /** Every tree is grown from itself. */
  lemma {:induction false} GrownRefl(t: Apt)
    ensures Grown(t, t)
    decreases t
  {
    match t
    case Leaf(_) =>
    case Single(_, c) => SlotGrownRefl(c);
    case Double(_, l, r) => SlotGrownRefl(l); SlotGrownRefl(r);
    case Triple(_, a, b, c) => SlotGrownRefl(a); SlotGrownRefl(b); SlotGrownRefl(c);
  }

  lemma {:induction false} SlotGrownRefl(k: Option<Apt>)
    ensures SlotGrown(k, k)
    decreases k
  {
    if k.Some? {
      GrownRefl(k.value);
    }
  }

  /** `AddRandom` keeps every node of the tree, each with its operator, and only fills nil slots. */
  lemma {:induction false} AddKeepsNodes(t: Apt, n: Apt, draw: nat -> nat, d: nat)
    ensures Grown(Add(t, n, draw, d).0, t)
    decreases t
  {
    match t
    case Leaf(_) =>
    case Single(_, c) => AddToKeepsNodes(c, n, draw, d);
    case Double(_, l, r) =>
      if draw(d) == 0 {
        AddToKeepsNodes(l, n, draw, d + 1);
        SlotGrownRefl(r);
      } else {
        SlotGrownRefl(l);
        AddToKeepsNodes(r, n, draw, d + 1);
      }
    case Triple(_, a, b, c) =>
      if draw(d) == 0 {
        AddToKeepsNodes(a, n, draw, d + 1);
        SlotGrownRefl(b);
        SlotGrownRefl(c);
      } else if draw(d) == 1 {
        SlotGrownRefl(a);
        AddToKeepsNodes(b, n, draw, d + 1);
        SlotGrownRefl(c);
      } else {
        SlotGrownRefl(a);
        SlotGrownRefl(b);
        AddToKeepsNodes(c, n, draw, d + 1);
      }
  }

  /** The same for a slot: a filled slot keeps a grown child, a nil one takes the node. */
  lemma {:induction false} AddToKeepsNodes(k: Option<Apt>, n: Apt, draw: nat -> nat, d: nat)
    ensures SlotGrown(AddTo(k, n, draw, d).0, k)
    decreases k
  {
    if k.Some? {
      AddKeepsNodes(k.value, n, draw, d);
    }
  }

  /**
   * A stored node brings in its own nodes and nils and fills one nil slot;
   * a dropped one (the path ended at a leaf) leaves the tree as it was.
   */
  lemma {:induction false} AddCounts(t: Apt, n: Apt, draw: nat -> nat, d: nat)
    ensures Add(t, n, draw, d).1 ==> Count(Add(t, n, draw, d).0) == (Count(t).0 + Count(n).0, Count(t).1 + Count(n).1 - 1)
    ensures !Add(t, n, draw, d).1 ==> Add(t, n, draw, d).0 == t
    decreases t, 3
  {
    match t
    case Leaf(_) =>
    case Single(op, c) =>
      AddCountsSingle(op, c, n, draw, d);
    case Double(op, l, r) =>
      AddCountsDouble(op, l, r, n, draw, d);
    case Triple(op, a, b, c) =>
      AddCountsTriple(op, a, b, c, n, draw, d);
  }

  /** The counts `AddCounts` promises for the result `r` of adding `n` to `t`. */
  ghost predicate CountsAfter(t: Apt, n: Apt, r: (Apt, bool))
  {
    (r.1 ==> Count(r.0) == (Count(t).0 + Count(n).0, Count(t).1 + Count(n).1 - 1)) && (!r.1 ==> r.0 == t)
  }

  /** `AddCounts` for a single node: the node goes down its one slot. */
  lemma {:induction false} AddCountsSingle(op: SingleOp, c: Option<Apt>, n: Apt, draw: nat -> nat, d: nat)
    ensures CountsAfter(Single(op, c), n, Add(Single(op, c), n, draw, d))
    decreases Single(op, c), 0
  {
    var s := AddTo(c, n, draw, d);
    AddToCounts(c, n, draw, d);
    assert Add(Single(op, c), n, draw, d) == (Single(op, s.0), s.1);
    if s.1 {
      SingleGrows(op, c, s.0, Count(n).0, Count(n).1 - 1);
    }
  }

  /** `AddCounts` for a double node: the draw picks the slot the node goes down. */
  lemma {:induction false} AddCountsDouble(op: DoubleOp, l: Option<Apt>, r: Option<Apt>, n: Apt, draw: nat -> nat, d: nat)
    ensures CountsAfter(Double(op, l, r), n, Add(Double(op, l, r), n, draw, d))
    decreases Double(op, l, r), 2
  {
    if draw(d) == 0 {
      AddCountsLeft(op, l, r, n, draw, d);
    } else {
      AddCountsRight(op, l, r, n, draw, d);
    }
  }

  /** `AddCounts` for a double node whose draw picks the left slot. */
  lemma {:induction false} AddCountsLeft(op: DoubleOp, l: Option<Apt>, r: Option<Apt>, n: Apt, draw: nat -> nat, d: nat)
    requires draw(d) == 0
    ensures CountsAfter(Double(op, l, r), n, Add(Double(op, l, r), n, draw, d))
    decreases Double(op, l, r), 0
  {
    var s := AddTo(l, n, draw, d + 1);
    AddToCounts(l, n, draw, d + 1);
    assert Add(Double(op, l, r), n, draw, d) == (Double(op, s.0, r), s.1);
    if s.1 {
      DoubleLeftGrows(op, l, s.0, r, Count(n).0, Count(n).1 - 1);
    }
  }

  /** `AddCounts` for a double node whose draw picks the right slot. */
  lemma {:induction false} AddCountsRight(op: DoubleOp, l: Option<Apt>, r: Option<Apt>, n: Apt, draw: nat -> nat, d: nat)
    requires draw(d) != 0
    ensures CountsAfter(Double(op, l, r), n, Add(Double(op, l, r), n, draw, d))
    decreases Double(op, l, r), 0
  {
    var s := AddTo(r, n, draw, d + 1);
    AddToCounts(r, n, draw, d + 1);
    assert Add(Double(op, l, r), n, draw, d) == (Double(op, l, s.0), s.1);
    if s.1 {
      DoubleRightGrows(op, l, r, s.0, Count(n).0, Count(n).1 - 1);
    }
  }

  /** `AddCounts` for a triple node: the draw picks the slot the node goes down. */
  lemma {:induction false} AddCountsTriple(op: TripleOp, a: Option<Apt>, b: Option<Apt>, c: Option<Apt>, n: Apt, draw: nat -> nat, d: nat)
    ensures CountsAfter(Triple(op, a, b, c), n, Add(Triple(op, a, b, c), n, draw, d))
    decreases Triple(op, a, b, c), 2
  {
    if draw(d) == 0 {
      AddCountsFirst(op, a, b, c, n, draw, d);
    } else if draw(d) == 1 {
      AddCountsSecond(op, a, b, c, n, draw, d);
    } else {
      AddCountsThird(op, a, b, c, n, draw, d);
    }
  }

  /** `AddCounts` for a triple node whose draw picks the first slot. */
  lemma {:induction false} AddCountsFirst(op: TripleOp, a: Option<Apt>, b: Option<Apt>, c: Option<Apt>, n: Apt, draw: nat -> nat, d: nat)
    requires draw(d) == 0
    ensures CountsAfter(Triple(op, a, b, c), n, Add(Triple(op, a, b, c), n, draw, d))
    decreases Triple(op, a, b, c), 0
  {
    var s := AddTo(a, n, draw, d + 1);
    AddToCounts(a, n, draw, d + 1);
    assert Add(Triple(op, a, b, c), n, draw, d) == (Triple(op, s.0, b, c), s.1);
    if s.1 {
      TripleFirstGrows(op, a, s.0, b, c, Count(n).0, Count(n).1 - 1);
    }
  }

  /** `AddCounts` for a triple node whose draw picks the second slot. */
  lemma {:induction false} AddCountsSecond(op: TripleOp, a: Option<Apt>, b: Option<Apt>, c: Option<Apt>, n: Apt, draw: nat -> nat, d: nat)
    requires draw(d) == 1
    ensures CountsAfter(Triple(op, a, b, c), n, Add(Triple(op, a, b, c), n, draw, d))
    decreases Triple(op, a, b, c), 0
  {
    var s := AddTo(b, n, draw, d + 1);
    AddToCounts(b, n, draw, d + 1);
    assert Add(Triple(op, a, b, c), n, draw, d) == (Triple(op, a, s.0, c), s.1);
    if s.1 {
      TripleSecondGrows(op, a, b, s.0, c, Count(n).0, Count(n).1 - 1);
    }
  }

  /** `AddCounts` for a triple node whose draw picks the third slot. */
  lemma {:induction false} AddCountsThird(op: TripleOp, a: Option<Apt>, b: Option<Apt>, c: Option<Apt>, n: Apt, draw: nat -> nat, d: nat)
    requires draw(d) > 1
    ensures CountsAfter(Triple(op, a, b, c), n, Add(Triple(op, a, b, c), n, draw, d))
    decreases Triple(op, a, b, c), 0
  {
    var s := AddTo(c, n, draw, d + 1);
    AddToCounts(c, n, draw, d + 1);
    assert Add(Triple(op, a, b, c), n, draw, d) == (Triple(op, a, b, s.0), s.1);
    if s.1 {
      TripleThirdGrows(op, a, b, c, s.0, Count(n).0, Count(n).1 - 1);
    }
  }

  /** Growing the slot of a single node by `(dn, dz)` grows its count by as much. */
  lemma SingleGrows(op: SingleOp, c: Option<Apt>, c': Option<Apt>, dn: int, dz: int)
    requires Slot(c') == (Slot(c).0 + dn, Slot(c).1 + dz)
    ensures Count(Single(op, c')) == (Count(Single(op, c)).0 + dn, Count(Single(op, c)).1 + dz)
  {
  }

  /** Growing the left slot of a double node by `(dn, dz)` grows its count by as much. */
  lemma DoubleLeftGrows(op: DoubleOp, l: Option<Apt>, l': Option<Apt>, r: Option<Apt>, dn: int, dz: int)
    requires Slot(l') == (Slot(l).0 + dn, Slot(l).1 + dz)
    ensures Count(Double(op, l', r)) == (Count(Double(op, l, r)).0 + dn, Count(Double(op, l, r)).1 + dz)
  {
  }

  /** Growing the right slot of a double node by `(dn, dz)` grows its count by as much. */
  lemma DoubleRightGrows(op: DoubleOp, l: Option<Apt>, r: Option<Apt>, r': Option<Apt>, dn: int, dz: int)
    requires Slot(r') == (Slot(r).0 + dn, Slot(r).1 + dz)
    ensures Count(Double(op, l, r')) == (Count(Double(op, l, r)).0 + dn, Count(Double(op, l, r)).1 + dz)
  {
  }

  /** Growing the first slot of a triple node by `(dn, dz)` grows its count by as much. */
  lemma TripleFirstGrows(op: TripleOp, a: Option<Apt>, a': Option<Apt>, b: Option<Apt>, c: Option<Apt>, dn: int, dz: int)
    requires Slot(a') == (Slot(a).0 + dn, Slot(a).1 + dz)
    ensures Count(Triple(op, a', b, c)) == (Count(Triple(op, a, b, c)).0 + dn, Count(Triple(op, a, b, c)).1 + dz)
  {
  }

  /** Growing the second slot of a triple node by `(dn, dz)` grows its count by as much. */
  lemma TripleSecondGrows(op: TripleOp, a: Option<Apt>, b: Option<Apt>, b': Option<Apt>, c: Option<Apt>, dn: int, dz: int)
    requires Slot(b') == (Slot(b).0 + dn, Slot(b).1 + dz)
    ensures Count(Triple(op, a, b', c)) == (Count(Triple(op, a, b, c)).0 + dn, Count(Triple(op, a, b, c)).1 + dz)
  {
  }

  /** Growing the third slot of a triple node by `(dn, dz)` grows its count by as much. */
  lemma TripleThirdGrows(op: TripleOp, a: Option<Apt>, b: Option<Apt>, c: Option<Apt>, c': Option<Apt>, dn: int, dz: int)
    requires Slot(c') == (Slot(c).0 + dn, Slot(c).1 + dz)
    ensures Count(Triple(op, a, b, c')) == (Count(Triple(op, a, b, c)).0 + dn, Count(Triple(op, a, b, c)).1 + dz)
  {
  }

  /** `AddCounts` for a child slot: a nil slot takes the node, a child passes it on. */
  lemma {:induction false} AddToCounts(k: Option<Apt>, n: Apt, draw: nat -> nat, d: nat)
    ensures AddTo(k, n, draw, d).1 ==> Slot(AddTo(k, n, draw, d).0) == (Slot(k).0 + Count(n).0, Slot(k).1 + Count(n).1 - 1)
    ensures !AddTo(k, n, draw, d).1 ==> AddTo(k, n, draw, d).0 == k
    decreases k, 4
  {
    match k
    case None =>
    case Some(c) =>
      AddCounts(c, n, draw, d);
  }

  /** A leaf keeps nothing that is added to it. */
  lemma LeafDrops(op: LeafOp, n: Apt, draw: nat -> nat, d: nat)
    ensures Add(Leaf(op), n, draw, d) == (Leaf(op), false)
  {
  }

  /** A nil slot that the draw picks receives the node itself. */
  lemma EmptySlotStores(op: DoubleOp, r: Option<Apt>, n: Apt, draw: nat -> nat, d: nat)
    requires draw(d) == 0
    ensures Add(Double(op, None, r), n, draw, d) == (Double(op, Some(n), r), true)
  {
  }

  /** Nodes `AddRandom` could be handed: `GetRandomNode` for draw `r` of `rand.Intn(10)`. */
  function RandomNode(r: nat): (t: Apt)
    requires r < 10
    ensures Bare(t) && Arity(t) > 0
  {
    match r
    case 0 => Double(Plus, None, None)
    case 1 => Double(Minus, None, None)
    case 2 => Double(Mult, None, None)
    case 3 => Double(Div, None, None)
    case 4 => Double(Atan2, None, None)
    case 5 => Single(Atan, None)
    case 6 => Single(Cos, None)
    case 7 => Single(Sin, None)
    case 8 => Double(Noise, None, None)
    case _ => Triple(Lerp, None, None, None)
  }

  /** `GetRandomLeaf` for draw `r` of `rand.Intn(3)` and `f` from `rand.Float32()`. */
  function RandomLeaf(r: nat, f: real): (t: Apt)
    requires r < 3
    ensures t.Leaf? && (r == 2 <==> t.leaf.Constant?) && (r == 2 ==> t.leaf.value == 2.0 * f - 1.0)
  {
    if r == 0 then Leaf(X) else if r == 1 then Leaf(Y) else Leaf(Constant(f * 2.0 - 1.0))
  }

  /**
   * Every operator with children comes out of `GetRandomNode` for some
   * draw, and a new node has one node and one nil per slot.
   */
  lemma RandomNodeCovers(t: Apt)
    requires Bare(t) && Arity(t) > 0
    ensures exists r :: 0 <= r < 10 && RandomNode(r) == t
    ensures Count(t) == (1, Arity(t))
  {
    match t
    case Single(op, _) =>
      if op == Sin { assert RandomNode(7) == t; }
      else if op == Cos { assert RandomNode(6) == t; }
      else { assert RandomNode(5) == t; }
    case Double(op, _, _) =>
      if op == Plus { assert RandomNode(0) == t; }
      else if op == Minus { assert RandomNode(1) == t; }
      else if op == Mult { assert RandomNode(2) == t; }
      else if op == Div { assert RandomNode(3) == t; }
      else if op == Atan2 { assert RandomNode(4) == t; }
      else { assert RandomNode(8) == t; }
    case Triple(_, _, _, _) => assert RandomNode(9) == t;
  }

  // ---------------------------------------------------------------------
  // The nodes as the source keeps them: structs whose child fields
  // `AddRandom` assigns.

  datatype Kind =
    | LeafKind(leaf: LeafOp)
    | SingleKind(single: SingleOp)
    | DoubleKind(double: DoubleOp)
    | TripleKind(triple: TripleOp)

  /** The kind of the root of a tree. */
  function KindOf(t: Apt): Kind
  {
    match t
    case Leaf(op) => LeafKind(op)
    case Single(op, _) => SingleKind(op)
    case Double(op, _, _) => DoubleKind(op)
    case Triple(op, _, _, _) => TripleKind(op)
  }

  /**
   * A node of the tree. `first` is `Child` of a single node, `LeftChild` of
   * a double node and `FirstChild` of a triple node; `second` is
   * `RightChild` or `SecondChild`; `third` is `ThirdChild`. Slots a kind
   * does not have stay nil.
   */
  class AptNode {
    const kind: Kind
    var first: AptNode?
    var second: AptNode?
    var third: AptNode?
    ghost var Repr: set<object>

    /** The children are subtrees that share no node with each other or with this one. */
    ghost predicate Valid()
      reads this, Repr
      decreases Repr, 1
    {
      this in Repr &&
      (kind.LeafKind? ==> first == null) &&
      (!kind.DoubleKind? && !kind.TripleKind? ==> second == null) &&
      (!kind.TripleKind? ==> third == null) &&
      (first != null ==> first in Repr && first.Repr <= Repr && this !in first.Repr && first.Valid()) &&
      (second != null ==> second in Repr && second.Repr <= Repr && this !in second.Repr && second.Valid()) &&
      (third != null ==> third in Repr && third.Repr <= Repr && this !in third.Repr && third.Valid()) &&
      (first != null && second != null ==> first.Repr !! second.Repr) &&
      (first != null && third != null ==> first.Repr !! third.Repr) &&
      (second != null && third != null ==> second.Repr !! third.Repr)
    }

    /** A node of kind `kind` with nil children, as `GetRandomNode` and `GetRandomLeaf` make them. */
    constructor (kind: Kind)
      ensures Valid() && fresh(Repr) && Bare(View()) && KindOf(View()) == kind
    {
      this.kind := kind;
      first, second, third := null, null, null;
      Repr := {this};
    }

    ghost function FirstView(): Option<Apt>
      requires Valid()
      reads this, Repr
      decreases Repr, 0
    {
      if first == null then None else Some(first.View())
    }

    ghost function SecondView(): Option<Apt>
      requires Valid()
      reads this, Repr
      decreases Repr, 0
    {
      if second == null then None else Some(second.View())
    }

    ghost function ThirdView(): Option<Apt>
      requires Valid()
      reads this, Repr
      decreases Repr, 0
    {
      if third == null then None else Some(third.View())
    }

    /** The tree below this node. */
    ghost function View(): (t: Apt)
      requires Valid()
      reads this, Repr
      ensures KindOf(t) == kind
      decreases Repr, 2
    {
      match kind
      case LeafKind(op) => Leaf(op)
      case SingleKind(op) => Single(op, FirstView())
      case DoubleKind(op) => Double(op, FirstView(), SecondView())
      case TripleKind(op) => Triple(op, FirstView(), SecondView(), ThirdView())
    }

    /**
     * `AddRandom(n)`: a leaf drops `n`; otherwise the node picks a slot
     * (drawing one when it has two or three) and either stores `n` there,
     * when it is nil, or passes `n` down to the child in it. The tree
     * becomes what `Add` says, and `n`'s nodes join this tree exactly when
     * `n` was stored.
     */
    method AddRandom(n: AptNode, draw: nat -> nat, d: nat)
      requires Valid() && n.Valid() && Repr !! n.Repr
      modifies Repr
      ensures Valid()
      ensures var r := Add(old(View()), n.View(), draw, d);
        View() == r.0 && Repr == old(Repr) + (if r.1 then n.Repr else {})
      decreases Repr, 1
    {
      match kind
      case LeafKind(_) =>
      case SingleKind(_) =>
        AddFirst(n, draw, d);
      case DoubleKind(_) =>
        if draw(d) == 0 {
          AddFirst(n, draw, d + 1);
        } else {
          AddSecond(n, draw, d + 1);
        }
      case TripleKind(_) =>
        if draw(d) == 0 {
          AddFirst(n, draw, d + 1);
        } else if draw(d) == 1 {
          AddSecond(n, draw, d + 1);
        } else {
          AddThird(n, draw, d + 1);
        }
    }

    /** `AddRandom` on the first slot; the other slots keep their trees. */
    method AddFirst(n: AptNode, draw: nat -> nat, d: nat)
      requires Valid() && n.Valid() && Repr !! n.Repr && !kind.LeafKind?
      modifies Repr
      ensures Valid()
      ensures var r := AddTo(old(FirstView()), n.View(), draw, d);
        FirstView() == r.0 && SecondView() == old(SecondView()) && ThirdView() == old(ThirdView()) &&
        Repr == old(Repr) + (if r.1 then n.Repr else {})
      decreases Repr, 0
    {
      if first == null {
        first := n;
        Repr := Repr + n.Repr;
      } else {
        ghost var sub := Add(first.View(), n.View(), draw, d);
        Repr := Repr + (if sub.1 then n.Repr else {});
        first.AddRandom(n, draw, d);
      }
    }

    /** `AddRandom` on the second slot; the other slots keep their trees. */
    method AddSecond(n: AptNode, draw: nat -> nat, d: nat)
      requires Valid() && n.Valid() && Repr !! n.Repr && (kind.DoubleKind? || kind.TripleKind?)
      modifies Repr
      ensures Valid()
      ensures var r := AddTo(old(SecondView()), n.View(), draw, d);
        SecondView() == r.0 && FirstView() == old(FirstView()) && ThirdView() == old(ThirdView()) &&
        Repr == old(Repr) + (if r.1 then n.Repr else {})
      decreases Repr, 0
    {
      if second == null {
        second := n;
        Repr := Repr + n.Repr;
      } else {
        ghost var sub := Add(second.View(), n.View(), draw, d);
        Repr := Repr + (if sub.1 then n.Repr else {});
        second.AddRandom(n, draw, d);
      }
    }

    /** `AddRandom` on the third slot; the other slots keep their trees. */
    method AddThird(n: AptNode, draw: nat -> nat, d: nat)
      requires Valid() && n.Valid() && Repr !! n.Repr && kind.TripleKind?
      modifies Repr
      ensures Valid()
      ensures var r := AddTo(old(ThirdView()), n.View(), draw, d);
        ThirdView() == r.0 && FirstView() == old(FirstView()) && SecondView() == old(SecondView()) &&
        Repr == old(Repr) + (if r.1 then n.Repr else {})
      decreases Repr, 0
    {
      if third == null {
        third := n;
        Repr := Repr + n.Repr;
      } else {
        ghost var sub := Add(third.View(), n.View(), draw, d);
        Repr := Repr + (if sub.1 then n.Repr else {});
        third.AddRandom(n, draw, d);
      }
    }
  }

  // ---------------------------------------------------------------------
  // String

  /** Every child slot is filled, so `String` can be called on every node. */
  predicate Complete(t: Apt)
  {
    match t
    case Leaf(_) => true
    case Single(_, c) => c.Some? && Complete(c.value)
    case Double(_, l, r) => l.Some? && r.Some? && Complete(l.value) && Complete(r.value)
    case Triple(_, a, b, c) => a.Some? && b.Some? && c.Some? && Complete(a.value) && Complete(b.value) && Complete(c.value)
  }

  /** The names `String` prints. */
  function SingleName(op: SingleOp): (name: string)
    ensures '(' !in name && ')' !in name
  {
    match op
    case Sin => "Sin"
    case Cos => "Cos"
    case Atan => "Atan"
  }

  function DoubleName(op: DoubleOp): (name: string)
    ensures '(' !in name && ')' !in name
  {
    match op
    case Atan2 => "Atan2"
    case Noise => "SimplexNoise"
    case Plus => "+"
    case Minus => "-"
    case Mult => "*"
    case Div => "/"
  }

  function TripleName(op: TripleOp): (name: string)
    ensures '(' !in name && ')' !in name
  {
    "Lerp"
  }

  /**
   * `String`: "X", "Y", a constant as `formatFloat` prints it, or the
   * operator and its children between "( " and " )", separated by single
   * spaces. A nil child would make the source crash, so the tree must be
   * complete.
   */
  function Show(t: Apt, formatFloat: real -> string): (s: string)
    requires Complete(t)
    ensures !t.Leaf? ==> |s| >= 4 && s[0] == '(' && s[|s| - 1] == ')'
  {
    match t
    case Leaf(X) => "X"
    case Leaf(Y) => "Y"
    case Leaf(Constant(v)) => formatFloat(v)
    case Single(op, c) => "( " + SingleName(op) + " " + Show(c.value, formatFloat) + " )"
    case Double(op, l, r) =>
      "( " + DoubleName(op) + " " + Show(l.value, formatFloat) + " " + Show(r.value, formatFloat) + " )"
    case Triple(op, a, b, c) =>
      "( " + TripleName(op) + " " + Show(a.value, formatFloat) + " " + Show(b.value, formatFloat) + " " +
      Show(c.value, formatFloat) + " )"
  }

  /** Nodes with children. */
  function Inner(t: Apt): nat
  {
    match t
    case Leaf(_) => 0
    case Single(_, c) => 1 + InnerOf(c)
    case Double(_, l, r) => 1 + InnerOf(l) + InnerOf(r)
    case Triple(_, a, b, c) => 1 + InnerOf(a) + InnerOf(b) + InnerOf(c)
  }

  function InnerOf(k: Option<Apt>): nat
  {
    match k
    case None => 0
    case Some(t) => Inner(t)
  }

  /** Occurrences of `c` in `s`. */
  function Occ(s: string, c: char): nat
  {
    if s == [] then 0 else (if s[0] == c then 1 else 0) + Occ(s[1..], c)
  }

  lemma {:induction false} OccAppend(a: string, b: string, c: char)
    ensures Occ(a + b, c) == Occ(a, c) + Occ(b, c)
  {
    if a == [] {
      assert a + b == b;
    } else {
      assert (a + b)[1..] == a[1..] + b;
      OccAppend(a[1..], b, c);
    }
  }

  lemma {:induction false} OccAbsent(s: string, c: char)
    requires c !in s
    ensures Occ(s, c) == 0
  {
    if s != [] {
      assert s[0] != c;
      assert c !in s[1..];
      OccAbsent(s[1..], c);
    }
  }

  /** The printed form of a number never contains a parenthesis. */
  ghost predicate PlainNumbers(formatFloat: real -> string)
  {
    forall v :: '(' !in formatFloat(v) && ')' !in formatFloat(v)
  }

  /**
   * The text of a complete tree is bracketed once per node with children:
   * it holds exactly that many '(' and exactly that many ')'.
   */
  lemma {:induction false} ShowBalanced(t: Apt, formatFloat: real -> string)
    requires Complete(t) && PlainNumbers(formatFloat)
    ensures Occ(Show(t, formatFloat), '(') == Inner(t)
    ensures Occ(Show(t, formatFloat), ')') == Inner(t)
    decreases t, 1
  {
    var f := formatFloat;
    match t
    case Leaf(X) =>
      NoBrackets("X");
    case Leaf(Y) =>
      NoBrackets("Y");
    case Leaf(Constant(v)) =>
      NoBrackets(f(v));
    case Single(op, c) =>
      ShowBalanced(c.value, f);
      Wrap1(SingleName(op), Show(c.value, f), '(');
      Wrap1(SingleName(op), Show(c.value, f), ')');
    case Double(op, l, r) =>
      ShowBalancedDouble(op, l.value, r.value, f);
    case Triple(op, a, b, c) =>
      ShowBalancedTriple(op, a.value, b.value, c.value, f);
  }

  /** The double-node case of `ShowBalanced`. */
  lemma {:induction false} ShowBalancedDouble(op: DoubleOp, l: Apt, r: Apt, f: real -> string)
    requires Complete(l) && Complete(r) && PlainNumbers(f)
    ensures var t := Double(op, Some(l), Some(r));
      Occ(Show(t, f), '(') == Inner(t) && Occ(Show(t, f), ')') == Inner(t)
    decreases Double(op, Some(l), Some(r)), 0
  {
    ShowBalanced(l, f);
    ShowBalanced(r, f);
    Wrap2(DoubleName(op), Show(l, f), Show(r, f), '(');
    Wrap2(DoubleName(op), Show(l, f), Show(r, f), ')');
  }

  /** The triple-node case of `ShowBalanced`. */
  lemma {:induction false} ShowBalancedTriple(op: TripleOp, a: Apt, b: Apt, c: Apt, f: real -> string)
    requires Complete(a) && Complete(b) && Complete(c) && PlainNumbers(f)
    ensures var t := Triple(op, Some(a), Some(b), Some(c));
      Occ(Show(t, f), '(') == Inner(t) && Occ(Show(t, f), ')') == Inner(t)
    decreases Triple(op, Some(a), Some(b), Some(c)), 0
  {
    ShowBalanced(a, f);
    ShowBalanced(b, f);
    ShowBalanced(c, f);
    Wrap3(TripleName(op), Show(a, f), Show(b, f), Show(c, f), '(');
    Wrap3(TripleName(op), Show(a, f), Show(b, f), Show(c, f), ')');
  }

  lemma NoBrackets(s: string)
    requires '(' !in s && ')' !in s
    ensures Occ(s, '(') == 0 && Occ(s, ')') == 0
  {
    OccAbsent(s, '(');
    OccAbsent(s, ')');
  }

  /** The fixed parts: "( " opens one bracket, " )" closes one, " " neither. */
  lemma Punctuation(c: char)
    requires c == '(' || c == ')'
    ensures Occ("( ", c) == if c == '(' then 1 else 0
    ensures Occ(" )", c) == if c == ')' then 1 else 0
    ensures Occ(" ", c) == 0
  {
    assert "( "[1..] == " " && " )"[1..] == ")" && " "[1..] == [] && ")"[1..] == [];
  }

  /** "( name a )" holds one `c` more than `a`. */
  lemma Wrap1(name: string, a: string, c: char)
    requires '(' !in name && ')' !in name && (c == '(' || c == ')')
    ensures Occ("( " + name + " " + a + " )", c) == 1 + Occ(a, c)
  {
    Punctuation(c);
    OccAbsent(name, c);
    OccAppend("( ", name, c);
    OccAppend("( " + name, " ", c);
    OccAppend("( " + name + " ", a, c);
    OccAppend("( " + name + " " + a, " )", c);
  }

  /** "( name a b )" holds one `c` more than `a` and `b`. */
  lemma Wrap2(name: string, a: string, b: string, c: char)
    requires '(' !in name && ')' !in name && (c == '(' || c == ')')
    ensures Occ("( " + name + " " + a + " " + b + " )", c) == 1 + Occ(a, c) + Occ(b, c)
  {
    Punctuation(c);
    OccAbsent(name, c);
    OccAppend("( ", name, c);
    OccAppend("( " + name, " ", c);
    OccAppend("( " + name + " ", a, c);
    OccAppend("( " + name + " " + a, " ", c);
    OccAppend("( " + name + " " + a + " ", b, c);
    OccAppend("( " + name + " " + a + " " + b, " )", c);
  }

  /** "( name a b d )" holds one `c` more than `a`, `b` and `d`. */
  lemma Wrap3(name: string, a: string, b: string, d: string, c: char)
    requires '(' !in name && ')' !in name && (c == '(' || c == ')')
    ensures Occ("( " + name + " " + a + " " + b + " " + d + " )", c) == 1 + Occ(a, c) + Occ(b, c) + Occ(d, c)
  {
    Punctuation(c);
    OccAbsent(name, c);
    OccAppend("( ", name, c);
    OccAppend("( " + name, " ", c);
    OccAppend("( " + name + " ", a, c);
    OccAppend("( " + name + " " + a, " ", c);
    OccAppend("( " + name + " " + a + " ", b, c);
    OccAppend("( " + name + " " + a + " " + b, " ", c);
    OccAppend("( " + name + " " + a + " " + b + " ", d, c);
    OccAppend("( " + name + " " + a + " " + b + " " + d, " )", c);
  }
}
