/** Deleting from an AVL tree, as values: what is unlinked, and how the balances above are repaired. */
module AvlDeletions {
  import opened AvlTrees
  import opened AvlTables

  function Child(t: Tree, right: bool): Tree
    requires t.Node?
  {
    if right then t.right else t.left
  }

  function WithChild(t: Tree, right: bool, c: Tree): (u: Tree)
    requires t.Node?
    ensures u.Node? && Child(u, right) == c && Child(u, !right) == Child(t, !right)
    ensures u.id == t.id && u.key == t.key && u.balance == t.balance
  {
    if right then t.(right := c) else t.(left := c)
  }

  /** The balance of a node that leans to this side by one. */
  function Lean(right: bool): int {
    if right then 1 else -1
  }

  // ---------------------------------------------------------------- the repair of one node

  /** The node leans to this side by two, on a child that allows a rotation. */
  ghost predicate CanTurn(y: Tree, right: bool) {
    && y.Node? && y.balance == 2 * Lean(right) && Child(y, right).Node?
    && var x := Child(y, right);
       -1 <= x.balance <= 1 && (x.balance != Lean(right) ==>
           Child(x, !right).Node? && -1 <= Child(x, !right).balance <= 1)
  }

  /** A single rotation, or a double one if the child leans the other way. */
  ghost function Turn(y: Tree, right: bool): (u: Tree)
    requires CanTurn(y, right)
    ensures u.Node?
  {
    var x, s := Child(y, right), Lean(right);
    if x.balance == -s then
      var w := Child(x, !right);
      WithChild(WithChild(w.(balance := 0),
                          right, WithChild(x.(balance := if w.balance == -s then s else 0), !right, Child(w, right))),
                !right, WithChild(y.(balance := if w.balance == s then -s else 0), right, Child(w, !right)))
    else
      WithChild(x.(balance := if x.balance == 0 then -s else 0),
                !right, WithChild(y.(balance := if x.balance == 0 then s else 0), right, Child(x, !right)))
  }

  /** On a child that leans itself it is the rotation insertion makes. */
  lemma TurnIsRotate(y: Tree, right: bool)
    requires CanTurn(y, right) && Child(y, right).balance != 0
    ensures CanRotate(y) && Turn(y, right) == Rotate(y)
  {
  }

  lemma RotateIsTurn(y: Tree)
    requires Leaning(y) && CanRotate(y) && (y.balance == -2 || y.balance == 2)
    ensures CanTurn(y, y.balance == 2) && Turn(y, y.balance == 2) == Rotate(y)
  {
  }

  /** Two too high on this side, and otherwise in order. */
  ghost predicate Uneven(y: Tree, right: bool) {
    && y.Node? && Balanced(y.left) && Balanced(y.right)
    && y.balance == Height(y.right) - Height(y.left) == 2 * Lean(right)
  }

  /** The rotation restores balance; the tree keeps its height only if the child did not lean. */
  lemma TurnBalanced(y: Tree, right: bool)
    requires Uneven(y, right)
    ensures CanTurn(y, right) && Balanced(Turn(y, right))
    ensures Height(Turn(y, right)) == Height(y) - if Child(y, right).balance == 0 then 0 else 1
  {
    var x := Child(y, right);
    assert Balanced(x) && x.Node?;
    if x.balance == 0 {
      assert Child(x, !right).Node? && Balanced(Child(x, !right));
    } else {
      assert Balanced(Child(x, !right));
      TurnIsRotate(y, right);
      if right {
        RotateLeaningRight(y);
      } else {
        RotateLeaningLeft(y);
      }
    }
  }

  lemma TurnAlike(y: Tree, right: bool)
    requires CanTurn(y, right)
    ensures Alike(y, Turn(y, right))
  {
    var x := Child(y, right);
    if x.balance != 0 {
      TurnIsRotate(y, right);
      RotateAlike(y);
    } else {
      var u := Turn(y, right);
      hide Alike;
      if right {
        Slide(y, x, y.left, x.left, x.right, 1, -1, y.balance, x.balance);
        Reverse(u, y);
      } else {
        Slide(x, y, x.left, x.right, y.right, x.balance, y.balance, 1, -1);
      }
    }
  }

  // ---------------------------------------------------------------- balances that are out of date

  /** The balance of a node with these heights on one side and on the other. */
  function Tilt(right: bool, here: int, there: int): int {
    if right then here - there else there - here
  }

  /** The height the balances on the route still stand for, when the subtree `k` steps down has become one lower. */
  ghost function Recorded(t: Tree, key: int, k: nat): nat {
    if k == 0 then Height(t) + 1
    else if t.Leaf? then 0
    else
      var here := Recorded(Toward(t, key), key, k - 1);
      1 + if here > Height(Away(t, key)) then here else Height(Away(t, key))
  }

  /** Balances are right but for the subtree `k` steps down, which has become one lower than they say. */
  ghost predicate OffBelow(t: Tree, key: int, k: nat) {
    if k == 0 then Balanced(t)
    else
      && t.Node? && -1 <= t.balance <= 1 && Balanced(Away(t, key)) && OffBelow(Toward(t, key), key, k - 1)
      && t.balance == Tilt(key >= t.key, Recorded(Toward(t, key), key, k - 1), Height(Away(t, key)))
  }

  lemma {:induction false} OffNode(t: Tree, key: int, k: nat)
    requires OffBelow(t, key, k) && k > 0
    ensures Sub(t, key, k - 1).Node? && OffBelow(Sub(t, key, k - 1), key, 1)
    decreases k
  {
    if k > 1 {
      OffNode(Toward(t, key), key, k - 1);
    }
  }

  function WithToward(t: Tree, key: int, c: Tree): (u: Tree)
    requires t.Node?
    ensures u.Node? && Toward(u, key) == c && Away(u, key) == Away(t, key) && u.key == t.key && u.balance == t.balance
  {
    if key < t.key then t.(left := c) else t.(right := c)
  }

  lemma PutBelow(t: Tree, key: int, m: nat, u: Tree)
    requires m > 0 && t.Node?
    ensures Put(t, key, m, u) == WithToward(t, key, Put(Toward(t, key), key, m - 1, u))
    ensures Sub(t, key, m) == Sub(Toward(t, key), key, m - 1)
  {
  }

  lemma OffAbove(t: Tree, key: int, c: Tree, k: nat)
    requires t.Node? && Balanced(t) && OffBelow(c, key, k) && Recorded(c, key, k) == Height(Toward(t, key))
    ensures var u := WithToward(t, key, c);
            OffBelow(u, key, k + 1) && Recorded(u, key, k + 1) == Height(t)
  {
  }

  lemma BalancedSides(t: Tree, key: int)
    requires Balanced(t) && t.Node?
    ensures Balanced(Toward(t, key)) && Balanced(Away(t, key))
  {
  }

  /** A subtree that is off, put where one of its recorded height was. */
  lemma {:induction false} PutOff(t: Tree, key: int, m: nat, u: Tree, k: nat)
    requires Balanced(t) && (m > 0 ==> Sub(t, key, m - 1).Node?)
    requires OffBelow(u, key, k) && Recorded(u, key, k) == Height(Sub(t, key, m))
    ensures OffBelow(Put(t, key, m, u), key, m + k) && Recorded(Put(t, key, m, u), key, m + k) == Height(t)
    decreases m
  {
    hide OffBelow, Recorded, Balanced, Height;
    if m > 0 {
      PutBelow(t, key, m, u);
      BalancedSides(t, key);
      PutOff(Toward(t, key), key, m - 1, u, k);
      OffAbove(t, key, Put(Toward(t, key), key, m - 1, u), m - 1 + k);
    }
  }

  lemma OffParts(t: Tree, key: int, k: nat)
    requires k > 1 && OffBelow(t, key, k)
    ensures t.Node? && OffBelow(Toward(t, key), key, k - 1)
  {
  }

  lemma RepairedBelow(t: Tree, key: int, k: nat, c: Tree)
    requires k > 1 && OffBelow(t, key, k)
    ensures Balanced(c) && Height(c) == Recorded(Toward(t, key), key, k - 1) ==>
              Balanced(WithToward(t, key, c)) && Height(WithToward(t, key, c)) == Recorded(t, key, k)
    ensures OffBelow(c, key, k - 2) && Recorded(c, key, k - 2) == Recorded(Toward(t, key), key, k - 1) ==>
              OffBelow(WithToward(t, key, c), key, k - 1)
              && Recorded(WithToward(t, key, c), key, k - 1) == Recorded(t, key, k)
  {
  }

  /** A repaired subtree makes the whole tree right if it is as high as recorded, and shifts the fault up if it is one
      lower. */
  lemma {:induction false} PutRepaired(t: Tree, key: int, k: nat, u: Tree)
    requires k > 0 && OffBelow(t, key, k) && Balanced(u)
    ensures Height(u) == Recorded(Sub(t, key, k - 1), key, 1) ==>
              Balanced(Put(t, key, k - 1, u)) && Height(Put(t, key, k - 1, u)) == Recorded(t, key, k)
    ensures Height(u) + 1 == Recorded(Sub(t, key, k - 1), key, 1) ==>
              OffBelow(Put(t, key, k - 1, u), key, k - 1)
              && Recorded(Put(t, key, k - 1, u), key, k - 1) == Recorded(t, key, k)
    decreases k
  {
    if k == 1 {
      FaultHere(u, key);
    } else {
      OffParts(t, key, k);
      PutBelow(t, key, k - 1, u);
      hide OffBelow, Recorded, Balanced, Height;
      PutRepaired(Toward(t, key), key, k - 1, u);
      RepairedBelow(t, key, k, Put(Toward(t, key), key, k - 2, u));
    }
  }

  lemma FaultHere(u: Tree, key: int)
    ensures OffBelow(u, key, 0) <==> Balanced(u)
    ensures Recorded(u, key, 0) == Height(u) + 1
  {
  }

  /** The lowest node whose balance is off, with the balance corrected. */
  ghost function Corrected(y: Tree, key: int): Tree
    requires y.Node?
  {
    y.(balance := y.balance - Lean(key >= y.key))
  }

  ghost predicate NeedsTurn(y: Tree, key: int)
    requires y.Node?
  {
    Corrected(y, key).balance == 2 || Corrected(y, key).balance == -2
  }

  /** What takes the place of that node. */
  ghost function Repaired(y: Tree, key: int): (u: Tree)
    requires OffBelow(y, key, 1)
    ensures u.Node?
  {
    var z := Corrected(y, key);
    if NeedsTurn(y, key) then CorrectedUneven(y, key); Turn(z, key < y.key) else z
  }

  lemma CorrectedUneven(y: Tree, key: int)
    requires OffBelow(y, key, 1)
    ensures var z := Corrected(y, key);
            && z.balance == Height(z.right) - Height(z.left) && -2 <= z.balance <= 2
            && (NeedsTurn(y, key) ==> Uneven(z, key < y.key) && CanTurn(z, key < y.key))
  {
    assert OffBelow(Toward(y, key), key, 0);
    if NeedsTurn(y, key) {
      TurnBalanced(Corrected(y, key), key < y.key);
    }
  }

  /** The repair is done once the subtree is as high as it was. */
  ghost predicate RepairEnds(y: Tree, key: int)
    requires OffBelow(y, key, 1)
  {
    var z := Corrected(y, key);
    if NeedsTurn(y, key) then CorrectedUneven(y, key); Child(z, key < y.key).balance == 0
    else z.balance != 0
  }

  lemma RepairedBalanced(y: Tree, key: int)
    requires OffBelow(y, key, 1)
    ensures Balanced(Repaired(y, key))
    ensures Height(Repaired(y, key)) + (if RepairEnds(y, key) then 0 else 1) == Recorded(y, key, 1)
    ensures Alike(y, Repaired(y, key))
  {
    var z := Corrected(y, key);
    CorrectedUneven(y, key);
    assert Alike(y, z);
    if NeedsTurn(y, key) {
      TurnBalanced(z, key < y.key);
      TurnAlike(z, key < y.key);
      Chain(y, z, Turn(z, key < y.key));
    } else {
      assert Balanced(Toward(y, key)) && Balanced(z);
    }
  }

  lemma {:induction false} PutAlike(t: Tree, key: int, m: nat, u: Tree)
    requires Sub(t, key, m).Node? && Alike(Sub(t, key, m), u)
    ensures Alike(t, Put(t, key, m, u))
    decreases m
  {
    if m > 0 {
      PutAlike(Toward(t, key), key, m - 1, u);
      if key < t.key {
        AlikeLeft(t, Put(t.left, key, m - 1, u));
      } else {
        AlikeRight(t, Put(t.right, key, m - 1, u));
      }
    }
  }

  // ---------------------------------------------------------------- taking a node out

  /** `u` is `t` without one node, order and identities kept. */
  ghost predicate Lacks(t: Tree, u: Tree, key: int, id: nat) {
    && Keys(u) == Keys(t) - {key} && Ids(u) == Ids(t) - {id} && Size(u) + 1 == Size(t)
    && Ordered(u) && Distinct(u) && key in Keys(t) && id in Ids(t)
  }

  lemma {:induction false} PutLacks(t: Tree, key: int, m: nat, u: Tree, id: nat)
    requires Ordered(t) && Distinct(t) && Sub(t, key, m).Node? && Lacks(Sub(t, key, m), u, key, id)
    ensures Lacks(t, Put(t, key, m, u), key, id)
    decreases m
  {
    if m > 0 {
      var c := Toward(t, key);
      PutLacks(c, key, m - 1, u, id);
      LacksAbove(t, key, Put(c, key, m - 1, u), id);
    }
  }

  lemma LacksAbove(t: Tree, key: int, c: Tree, id: nat)
    requires Ordered(t) && Distinct(t) && t.Node? && Lacks(Toward(t, key), c, key, id)
    ensures Lacks(t, if key < t.key then t.(left := c) else t.(right := c), key, id)
  {
    assert key in Keys(Toward(t, key)) && id in Ids(Toward(t, key));
  }

  /** The leftmost node. */
  ghost function Least(t: Tree): (s: Tree)
    requires t.Node?
    ensures s.Node? && s.left.Leaf?
  {
    if t.left.Leaf? then t else Least(t.left)
  }

  ghost function LeastDepth(t: Tree): nat
    requires t.Node?
  {
    if t.left.Leaf? then 0 else 1 + LeastDepth(t.left)
  }

  ghost function WithoutLeast(t: Tree): Tree
    requires t.Node?
  {
    if t.left.Leaf? then t.right else t.(left := WithoutLeast(t.left))
  }

  lemma {:induction false} LeastOut(t: Tree)
    requires t.Node? && Ordered(t) && Distinct(t)
    ensures Lacks(t, WithoutLeast(t), Least(t).key, Least(t).id) && Over(WithoutLeast(t), Least(t).key)
    decreases t
  {
    if t.left.Node? {
      LeastOut(t.left);
      var s := Least(t);
      assert s.key in Keys(t.left) && s.key < t.key && s.id in Ids(t.left);
    }
  }

  lemma OverLeft(t: Tree, key: int)
    requires t.Node? && t.left.Node? && Over(WithoutLeast(t), key)
    ensures key < t.key && Over(WithoutLeast(t.left), key)
  {
    var u := WithoutLeast(t);
    assert t.key in Keys(u);
    forall x | x in Keys(WithoutLeast(t.left)) ensures x > key {
      assert x in Keys(u);
    }
  }

  /** The subtree that took the place of the leftmost node is one lower, and the balances above it are off. */
  lemma {:induction false} LeastOff(t: Tree, key: int)
    requires t.Node? && Balanced(t) && Over(WithoutLeast(t), key)
    ensures OffBelow(WithoutLeast(t), key, LeastDepth(t)) && Recorded(WithoutLeast(t), key, LeastDepth(t)) == Height(t)
    decreases t
  {
    if t.left.Node? {
      OverLeft(t, key);
      BalancedSides(t, key);
      hide OffBelow, Recorded, Height, Balanced, Over;
      LeastOff(t.left, key);
      OffAbove(t, key, WithoutLeast(t.left), LeastDepth(t.left));
    } else {
      assert Height(t.left) == 0;
    }
  }

  /** What takes the place of a node taken out: its left side, or else its successor. */
  ghost function Successor(p: Tree): Tree
    requires p.Node?
  {
    if p.right.Leaf? then p.left
    else
      var s := Least(p.right);
      Node(s.id, s.key, p.balance, p.left, WithoutLeast(p.right))
  }

  /** The route to where the balances are off goes by this key, this far. */
  ghost function SuccessorKey(p: Tree): int
    requires p.Node?
  {
    if p.right.Leaf? then p.key else Least(p.right).key
  }

  ghost function SuccessorDepth(p: Tree): nat
    requires p.Node?
  {
    if p.right.Leaf? then 0 else 1 + LeastDepth(p.right)
  }

  lemma SuccessorLacks(p: Tree)
    requires p.Node? && Ordered(p) && Distinct(p)
    ensures Lacks(p, Successor(p), p.key, p.id)
    ensures p.right.Node? ==> SuccessorKey(p) in Keys(p)
  {
    if p.right.Node? {
      LeastOut(p.right);
      var s := Least(p.right);
      assert s.key in Keys(p.right) && s.id in Ids(p.right) && s.key > p.key;
      assert Under(p.left, s.key);
    }
  }

  lemma OffReplaced(p: Tree, id: nat, key: int, c: Tree, k: nat)
    requires p.Node? && Balanced(p) && OffBelow(c, key, k) && Recorded(c, key, k) == Height(p.right)
    ensures var u := Node(id, key, p.balance, p.left, c);
            OffBelow(u, key, k + 1) && Recorded(u, key, k + 1) == Height(p)
  {
    var like := Node(id, key, p.balance, p.left, p.right);
    OffAbove(like, key, c, k);
  }

  lemma GoodChildren(p: Tree)
    requires Good(p) && p.Node?
    ensures Good(p.left) && Good(p.right) && Balanced(p) && Balanced(p.right) && Ordered(p.right) && Distinct(p.right)
    ensures p.right.Leaf? ==> Height(p) == Height(p.left) + 1
  {
  }

  lemma LeastOver(p: Tree)
    requires p.Node? && Ordered(p) && Distinct(p)
    ensures Over(WithoutLeast(p), Least(p).key)
  {
    LeastOut(p);
  }

  lemma SuccessorOff(p: Tree)
    requires Good(p) && p.Node?
    ensures OffBelow(Successor(p), SuccessorKey(p), SuccessorDepth(p))
    ensures Recorded(Successor(p), SuccessorKey(p), SuccessorDepth(p)) == Height(p)
  {
    hide Good, Balanced, Height, Recorded, OffBelow, Least, LeastDepth, WithoutLeast, Ordered, Distinct, Over;
    GoodChildren(p);
    if p.right.Leaf? {
      assert Balanced(p.left) by { GoodIs(p.left); }
      FaultHere(p.left, p.key);
    } else {
      var s := Least(p.right);
      LeastOver(p.right);
      LeastOff(p.right, s.key);
      OffReplaced(p, s.id, s.key, WithoutLeast(p.right), LeastDepth(p.right));
    }
  }

  /** The routes to two keys of the same subtree agree down to there. */
  lemma {:induction false} SameRoute(t: Tree, key: int, other: int, m: nat, u: Tree)
    requires Ordered(t) && Sub(t, key, m).Node? && key in Keys(Sub(t, key, m)) && other in Keys(Sub(t, key, m))
    ensures Sub(t, other, m) == Sub(t, key, m) && Put(t, other, m, u) == Put(t, key, m, u)
    ensures m > 0 ==>
        Sub(t, key, m - 1).Node? && Sub(t, other, m - 1) == Sub(t, key, m - 1) && (key < Sub(t, key, m - 1).key <==>
        other < Sub(t, key, m - 1).key)
    ensures key in Keys(t) && other in Keys(t)
    decreases m
  {
    if m > 0 {
      SameRoute(Toward(t, key), key, other, m - 1, u);
    }
  }

  lemma SubGood(t: Tree, key: int, m: nat)
    requires Good(t)
    ensures Good(Sub(t, key, m)) && Ordered(t) && Distinct(t) && Balanced(t)
    ensures Ordered(Sub(t, key, m)) && Distinct(Sub(t, key, m))
  {
    SubKeeps(t, key, m);
  }

  lemma RootKey(p: Tree)
    requires p.Node?
    ensures p.key in Keys(p)
  {
  }

  lemma {:induction false} AboveSub(t: Tree, key: int, m: nat)
    requires m > 0 && Sub(t, key, m).Node?
    ensures Sub(t, key, m - 1).Node?
  {
    SubPrev(t, key, m - 1);
  }

  /** Unlinking a node: the tree lacks just its key, and at most the balances on one route are off. */
  lemma Unlinked(t: Tree, key: int, m: nat)
    requires Good(t) && Sub(t, key, m).Node? && Sub(t, key, m).key == key
    ensures var p := Sub(t, key, m);
            var u := Put(t, key, m, Successor(p));
            && Lacks(t, u, key, p.id) && u == Put(t, SuccessorKey(p), m, Successor(p))
            && OffBelow(u, SuccessorKey(p), m + SuccessorDepth(p))
  {
    hide Good, Ordered, Distinct, Balanced, Lacks, OffBelow, Recorded, Height, Keys, Successor, SuccessorKey,
        SuccessorDepth, Sub, Put;
    var p := Sub(t, key, m);
    SubGood(t, key, m);
    SuccessorLacks(p);
    SuccessorOff(p);
    PutLacks(t, key, m, Successor(p), p.id);
    RootKey(p);
    KeyThere(p);
    SameRoute(t, key, SuccessorKey(p), m, Successor(p));
    if m > 0 {
      AboveSub(t, key, m);
      AboveSub(t, SuccessorKey(p), m);
    }
    PutOff(t, SuccessorKey(p), m, Successor(p), SuccessorDepth(p));
  }

  lemma KeyThere(p: Tree)
    requires p.Node? && (p.right.Node? ==> SuccessorKey(p) in Keys(p))
    ensures SuccessorKey(p) in Keys(p)
  {
  }

  lemma GoodIs(t: Tree)
    ensures Good(t) <==> Ordered(t) && Balanced(t) && Distinct(t)
  {
  }

  /** One step of the repair. */
  lemma RepairStep(t: Tree, key: int, k: nat)
    requires k > 0 && OffBelow(t, key, k)
    ensures Sub(t, key, k - 1).Node? && OffBelow(Sub(t, key, k - 1), key, 1)
    ensures var y := Sub(t, key, k - 1);
            var u := Put(t, key, k - 1, Repaired(y, key));
            Alike(t, u) && if RepairEnds(y, key) then Balanced(u) else OffBelow(u, key, k - 1)
  {
    OffNode(t, key, k);
    var y := Sub(t, key, k - 1);
    RepairedBalanced(y, key);
    PutRepaired(t, key, k, Repaired(y, key));
    PutAlike(t, key, k - 1, Repaired(y, key));
  }
}
