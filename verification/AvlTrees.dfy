/** AVL trees as values: search order, balance, and what inserting a key does to them. */
module AvlTrees {

  /** `id` names the node in memory; `balance` is the height of the right subtree less that of the left one. */
  datatype Tree = Leaf | Node(id: nat, key: int, balance: int, left: Tree, right: Tree)

  ghost function Height(t: Tree): nat {
    if t.Leaf? then 0
    else 1 + if Height(t.left) > Height(t.right) then Height(t.left) else Height(t.right)
  }

  ghost function Keys(t: Tree): set<int> {
    if t.Leaf? then {} else Keys(t.left) + {t.key} + Keys(t.right)
  }

  ghost function Ids(t: Tree): set<nat> {
    if t.Leaf? then {} else Ids(t.left) + {t.id} + Ids(t.right)
  }

  ghost function Size(t: Tree): nat {
    if t.Leaf? then 0 else Size(t.left) + 1 + Size(t.right)
  }

  ghost predicate Under(t: Tree, k: int) {
    forall x | x in Keys(t) :: x < k
  }

  ghost predicate Over(t: Tree, k: int) {
    forall x | x in Keys(t) :: x > k
  }

  ghost predicate Ordered(t: Tree) {
    t.Node? ==> Under(t.left, t.key) && Over(t.right, t.key) && Ordered(t.left) && Ordered(t.right)
  }

  ghost predicate Distinct(t: Tree) {
    t.Node? ==>
        t.id !in Ids(t.left) && t.id !in Ids(t.right) && Ids(t.left) !! Ids(t.right) && Distinct(t.left)
        && Distinct(t.right)
  }

  ghost predicate Balanced(t: Tree) {
    t.Node? ==>
        -1 <= t.balance <= 1 && t.balance == Height(t.right) - Height(t.left) && Balanced(t.left) && Balanced(t.right)
  }

  ghost predicate Good(t: Tree) {
    Ordered(t) && Balanced(t) && Distinct(t)
  }

  // ---------------------------------------------------------------- height

  function Fib(n: nat): nat {
    if n < 2 then n else Fib(n - 1) + Fib(n - 2)
  }

  lemma {:induction false} FibGrows(n: nat)
    ensures Fib(n) <= Fib(n + 1)
    decreases n
  {
    if n > 1 {
      FibGrows(n - 1);
      FibGrows(n - 2);
    }
  }

  lemma {:induction false} FibMonotone(m: nat, n: nat)
    requires m <= n
    ensures Fib(m) <= Fib(n)
    decreases n
  {
    if m < n {
      FibMonotone(m, n - 1);
      FibGrows(n - 1);
    }
  }

  /** A balanced tree of a given height has many nodes. */
  lemma {:induction false} SizeOfHeight(t: Tree)
    requires Balanced(t)
    ensures Size(t) + 1 >= Fib(Height(t) + 2)
    decreases t
  {
    hide Fib;
    FibStep(Height(t));
    if t.Node? {
      SizeOfHeight(t.left);
      SizeOfHeight(t.right);
      FibMonotone(Height(t), Height(t.left) + 2);
      FibMonotone(Height(t), Height(t.right) + 2);
    } else {
      FibTwo();
    }
  }

  lemma FibStep(n: nat)
    ensures Fib(n + 2) == Fib(n + 1) + Fib(n)
  {
  }

  lemma FibTwo()
    ensures Fib(2) == 1
  {
  }

  /** Any tree of fewer than this many nodes is at most as high as the arrays for paths are long. */
  lemma HeightBound(t: Tree, most: nat)
    requires Balanced(t) && Size(t) + 1 < Fib(most + 3)
    ensures Height(t) <= most
  {
    SizeOfHeight(t);
    if Height(t) > most {
      FibMonotone(most + 3, Height(t) + 2);
    }
  }

  lemma FibJump(m: nat)
    ensures Fib(m + 12) == 144 * Fib(m + 1) + 89 * Fib(m)
    ensures Fib(m + 13) == 233 * Fib(m + 1) + 144 * Fib(m)
  {
    hide Fib;
    FibStep(m);
    FibStep(m + 1);
    FibStep(m + 2);
    FibStep(m + 3);
    FibStep(m + 4);
    FibStep(m + 5);
    FibStep(m + 6);
    FibStep(m + 7);
    FibStep(m + 8);
    FibStep(m + 9);
    FibStep(m + 10);
    FibStep(m + 11);
  }

  /** No tree that fits in a 64-bit address space is higher than 92. */
  lemma HeightInMemory(t: Tree)
    requires Balanced(t) && Size(t) < 0x1_0000_0000_0000_0000
    ensures Height(t) <= 92
  {
    FibJump(0);
    assert Fib(0) == 0 && Fib(1) == 1;
    hide Fib;
    FibStep(11);
    FibJump(11);
    FibJump(23);
    FibJump(35);
    FibJump(47);
    FibJump(59);
    FibJump(71);
    FibJump(83);
    HeightBound(t, 92);
  }

  // ---------------------------------------------------------------- insertion

  function Toward(t: Tree, key: int): Tree
    requires t.Node?
  {
    if key < t.key then t.left else t.right
  }

  /** All balances on the way to `key` are zero. */
  predicate Calm(t: Tree, key: int) {
    t.Node? ==> t.balance == 0 && Calm(Toward(t, key), key)
  }

  /** A new leaf where `key` belongs, with the balances on the way there adjusted. */
  ghost function Grow(t: Tree, key: int, n: nat): (u: Tree)
    ensures u.Node?
  {
    if t.Leaf? then Node(n, key, 0, Leaf, Leaf)
    else if key < t.key then t.(balance := t.balance - 1, left := Grow(t.left, key, n))
    else t.(balance := t.balance + 1, right := Grow(t.right, key, n))
  }

  ghost predicate CanRotate(y: Tree) {
    && y.Node?
    && (y.balance == -2 ==>
        y.left.Node? && (y.left.balance == -1 || (y.left.right.Node? && -1 <= y.left.right.balance <= 1)))
    && (y.balance == 2 ==>
        y.right.Node? && (y.right.balance == 1 || (y.right.left.Node? && -1 <= y.right.left.balance <= 1)))
  }

  /** Rebalance a tree whose root leans by two. */
  ghost function Rotate(y: Tree): Tree
    requires CanRotate(y)
  {
    if y.balance == -2 then
      var x := y.left;
      if x.balance == -1 then x.(balance := 0, right := y.(balance := 0, left := x.right))
      else
        var w := x.right;
        w.(balance := 0,
           left := x.(balance := if w.balance == 1 then -1 else 0, right := w.left),
           right := y.(balance := if w.balance == -1 then 1 else 0, left := w.right))
    else if y.balance == 2 then
      var x := y.right;
      if x.balance == 1 then x.(balance := 0, left := y.(balance := 0, right := x.left))
      else
        var w := x.left;
        w.(balance := 0,
           right := x.(balance := if w.balance == -1 then 1 else 0, left := w.right),
           left := y.(balance := if w.balance == 1 then -1 else 0, right := w.left))
    else y
  }

  lemma GrowKeys(t: Tree, key: int, n: nat)
    ensures Keys(Grow(t, key, n)) == Keys(t) + {key} && Ids(Grow(t, key, n)) == Ids(t) + {n}
    ensures Size(Grow(t, key, n)) == Size(t) + 1
  {
  }

  lemma GrowOrdered(t: Tree, key: int, n: nat)
    requires Ordered(t) && key !in Keys(t)
    ensures Ordered(Grow(t, key, n))
  {
    if t.Node? {
      GrowKeys(t.left, key, n);
      GrowKeys(t.right, key, n);
    }
  }

  lemma GrowDistinct(t: Tree, key: int, n: nat)
    requires Distinct(t) && n !in Ids(t)
    ensures Distinct(Grow(t, key, n))
  {
    if t.Node? {
      GrowKeys(t.left, key, n);
      GrowKeys(t.right, key, n);
    }
  }

  /** Where all balances are zero, the new leaf makes the tree higher. */
  lemma {:induction false} GrowCalm(t: Tree, key: int, n: nat)
    requires Balanced(t) && Calm(t, key)
    ensures Balanced(Grow(t, key, n)) && Height(Grow(t, key, n)) == Height(t) + 1
    ensures t.Node? ==> Grow(t, key, n).balance == if key < t.key then -1 else 1
    decreases t
  {
    if t.Node? {
      GrowCalm(Toward(t, key), key, n);
    }
  }

  /** The tree with the lowest unbalanced node on the way to `key` grown and rebalanced. */
  ghost function Inserted(t: Tree, key: int, n: nat): Tree
    requires Balanced(t)
  {
    if t.Leaf? then Node(n, key, 0, Leaf, Leaf)
    else if Calm(Toward(t, key), key) then GrowRotates(t, key, n); Rotate(Grow(t, key, n))
    else if key < t.key then t.(left := Inserted(t.left, key, n))
    else t.(right := Inserted(t.right, key, n))
  }

  lemma GrowRotates(t: Tree, key: int, n: nat)
    requires t.Node? && Balanced(t) && Calm(Toward(t, key), key)
    ensures CanRotate(Grow(t, key, n))
  {
    GrowCalm(Toward(t, key), key, n);
  }

  /** Leaning by two, and by a child that leans itself. */
  ghost predicate Leaning(y: Tree) {
    && y.Node? && Balanced(y.left) && Balanced(y.right)
    && y.balance == Height(y.right) - Height(y.left)
    && (y.balance == -2 ==> y.left.Node? && y.left.balance != 0)
    && (y.balance == 2 ==> y.right.Node? && y.right.balance != 0)
  }

  lemma RotateLeaningLeft(y: Tree)
    requires Leaning(y) && y.balance == -2 && CanRotate(y)
    ensures Balanced(Rotate(y)) && Height(Rotate(y)) == Height(y) - 1
  {
    var x, r := y.left, Rotate(y);
    if x.balance != -1 {
      assert Balanced(x.right);
      assert Balanced(r.left) && Balanced(r.right);
    }
  }

  lemma RotateLeaningRight(y: Tree)
    requires Leaning(y) && y.balance == 2 && CanRotate(y)
    ensures Balanced(Rotate(y)) && Height(Rotate(y)) == Height(y) - 1
  {
    var x, r := y.right, Rotate(y);
    if x.balance != 1 {
      assert Balanced(x.left);
      assert Balanced(r.left) && Balanced(r.right);
    }
  }

  lemma RotateBalanced(t: Tree, key: int, n: nat)
    requires t.Node? && Balanced(t) && Calm(Toward(t, key), key)
    ensures var y := Grow(t, key, n);
            && CanRotate(y)
            && Balanced(Rotate(y))
            && Height(Rotate(y)) == Height(t) + if t.balance == 0 then 1 else 0
  {
    GrowRotates(t, key, n);
    GrowCalm(Toward(t, key), key, n);
    var y := Grow(t, key, n);
    assert Leaning(y);
    if y.balance == -2 {
      RotateLeaningLeft(y);
    } else if y.balance == 2 {
      RotateLeaningRight(y);
    }
  }

  /** What a rotation keeps. */
  ghost predicate Alike(t: Tree, u: Tree) {
    && Keys(t) == Keys(u) && Ids(t) == Ids(u) && Size(t) == Size(u)
    && (Ordered(t) <==> Ordered(u)) && (Distinct(t) <==> Distinct(u))
  }

  /** The basic move: `x` over `y` or `y` over `x`, whatever the balances. */
  lemma Slide(x: Tree, y: Tree, a: Tree, b: Tree, c: Tree, x1: int, y1: int, x2: int, y2: int)
    requires x.Node? && y.Node?
    ensures Alike(y.(balance := y1, left := x.(balance := x1, left := a, right := b), right := c),
                  x.(balance := x2, left := a, right := y.(balance := y2, left := b, right := c)))
  {
    var t := y.(balance := y1, left := x.(balance := x1, left := a, right := b), right := c);
    var u := x.(balance := x2, left := a, right := y.(balance := y2, left := b, right := c));
    SlideIds(x, y, a, b, c, t, u);
    SlideOrder(x, y, a, b, c, t, u);
  }

  lemma SlideIds(x: Tree, y: Tree, a: Tree, b: Tree, c: Tree, t: Tree, u: Tree)
    requires x.Node? && y.Node? && t.Node? && u.Node? && t.left.Node? && u.right.Node?
    requires t.id == u.right.id == y.id && t.left.id == u.id == x.id && t.key == u.right.key == y.key
        && t.left.key == u.key == x.key
    requires t.left.left == u.left == a && t.left.right == u.right.left == b && t.right == u.right.right == c
    ensures Keys(t) == Keys(u) && Ids(t) == Ids(u) && Size(t) == Size(u) && (Distinct(t) <==> Distinct(u))
  {
    assert Ids(t.left) == Ids(a) + {x.id} + Ids(b) && Ids(u.right) == Ids(b) + {y.id} + Ids(c);
    assert Keys(t.left) == Keys(a) + {x.key} + Keys(b) && Keys(u.right) == Keys(b) + {y.key} + Keys(c);
    assert Ids(t) == Ids(t.left) + {y.id} + Ids(c) && Ids(u) == Ids(a) + {x.id} + Ids(u.right);
    assert Keys(t) == Keys(t.left) + {y.key} + Keys(c) && Keys(u) == Keys(a) + {x.key} + Keys(u.right);
    SlideSets(Ids(a), Ids(b), Ids(c), x.id, y.id);
    SlideSets(Keys(a), Keys(b), Keys(c), x.key, y.key);
    assert Distinct(t) == (Distinct(t.left) && Distinct(c) && y.id !in Ids(t.left) && y.id !in Ids(c)
        && Ids(t.left) !! Ids(c));
    assert Distinct(u) == (Distinct(u.right) && Distinct(a) && x.id !in Ids(u.right) && x.id !in Ids(a)
        && Ids(a) !! Ids(u.right));
  }

  lemma SlideSets<T>(a: set<T>, b: set<T>, c: set<T>, x: T, y: T)
    ensures (a + {x} + b) + {y} + c == a + {x} + (b + {y} + c)
  {
  }

  lemma SlideOrder(x: Tree, y: Tree, a: Tree, b: Tree, c: Tree, t: Tree, u: Tree)
    requires x.Node? && y.Node? && t.Node? && u.Node? && t.left.Node? && u.right.Node?
    requires t.id == u.right.id == y.id && t.left.id == u.id == x.id && t.key == u.right.key == y.key
        && t.left.key == u.key == x.key
    requires t.left.left == u.left == a && t.left.right == u.right.left == b && t.right == u.right.right == c
    ensures Ordered(t) <==> Ordered(u)
  {
    assert Keys(t.left) == Keys(a) + {x.key} + Keys(b) && Keys(u.right) == Keys(b) + {y.key} + Keys(c);
    hide Keys;
    if Ordered(t) {
      assert x.key in Keys(t.left) && x.key < y.key;
      assert Ordered(t.left);
      assert Under(b, y.key) && Over(b, x.key) && Over(c, y.key);
      assert Over(u.right, x.key);
    }
    if Ordered(u) {
      assert y.key in Keys(u.right) && x.key < y.key;
      assert Ordered(u.right);
      assert Under(a, x.key) && Under(b, y.key);
      assert Under(t.left, y.key);
    }
  }

  lemma AlikeLeft(y: Tree, l: Tree)
    requires y.Node? && Alike(y.left, l)
    ensures Alike(y, y.(left := l))
  {
  }

  lemma AlikeRight(y: Tree, r: Tree)
    requires y.Node? && Alike(y.right, r)
    ensures Alike(y, y.(right := r))
  {
  }

  lemma RotateAlike(y: Tree)
    requires CanRotate(y)
    ensures Alike(y, Rotate(y))
  {
    hide Alike, Keys, Ids, Ordered, Distinct, Size;
    assert Alike(y, y) by { SameAlike(y); }
    if y.balance == -2 {
      var x := y.left;
      if x.balance == -1 {
        Slide(x, y, x.left, x.right, y.right, x.balance, y.balance, 0, 0);
      } else {
        var w := x.right;
        var b, c := if w.balance == 1 then -1 else 0, if w.balance == -1 then 1 else 0;
        Slide(x, w, x.left, w.left, w.right, b, 5, x.balance, w.balance);
        var l := w.(balance := 5, left := x.(balance := b, right := w.left));
        Reverse(l, x);
        AlikeLeft(y, l);
        Slide(w, y, l.left, w.right, y.right, 5, y.balance, 0, c);
        Chain(y, y.(left := l), Rotate(y));
      }
    } else if y.balance == 2 {
      var x := y.right;
      if x.balance == 1 {
        Slide(y, x, y.left, x.left, x.right, 0, 0, y.balance, x.balance);
        Reverse(Rotate(y), y);
      } else {
        var w := x.left;
        var b, c := if w.balance == -1 then 1 else 0, if w.balance == 1 then -1 else 0;
        Slide(w, x, w.left, w.right, x.right, w.balance, x.balance, 5, b);
        var r := w.(balance := 5, right := x.(balance := b, left := w.right));
        AlikeRight(y, r);
        Slide(y, w, y.left, w.left, r.right, c, 0, y.balance, 5);
        Reverse(Rotate(y), y.(right := r));
        Chain(y, y.(right := r), Rotate(y));
      }
    }
  }

  lemma SameAlike(t: Tree)
    ensures Alike(t, t)
  {
  }

  lemma Reverse(t: Tree, u: Tree)
    requires Alike(t, u)
    ensures Alike(u, t)
  {
  }

  lemma Chain(t: Tree, u: Tree, v: Tree)
    requires Alike(t, u) && Alike(u, v)
    ensures Alike(t, v)
  {
  }

  /** Inserting keeps the order and the exact balances, adds just the new key, and makes the tree higher only
      if all balances on the way were zero. */
  lemma {:induction false} InsertedGood(t: Tree, key: int, n: nat)
    requires Good(t) && key !in Keys(t) && n !in Ids(t)
    ensures Good(Inserted(t, key, n))
    ensures Keys(Inserted(t, key, n)) == Keys(t) + {key} && Ids(Inserted(t, key, n)) == Ids(t) + {n}
    ensures Height(Inserted(t, key, n)) == Height(t) + if Calm(t, key) then 1 else 0
    ensures Size(Inserted(t, key, n)) == Size(t) + 1
    decreases t
  {
    if t.Node? {
      if Calm(Toward(t, key), key) {
        hide Ordered, Balanced, Distinct, Keys, Ids, Grow, Rotate, CanRotate, Size, Height;
        GrowKeys(t, key, n);
        GrowOrdered(t, key, n);
        GrowDistinct(t, key, n);
        RotateBalanced(t, key, n);
        RotateAlike(Grow(t, key, n));
      } else {
        hide Ordered, Balanced, Distinct, Keys, Ids, Grow, Rotate, CanRotate, Size, Height;
        GoodSides(t);
        KeySides(t, key, n);
        InsertedGood(Toward(t, key), key, n);
        ReplaceSide(t, key, n, Inserted(Toward(t, key), key, n));
      }
    }
  }

  lemma GoodSides(t: Tree)
    requires Good(t) && t.Node?
    ensures Good(t.left) && Good(t.right) && Balanced(t.left) && Balanced(t.right)
  {
  }

  lemma KeySides(t: Tree, key: int, n: nat)
    requires t.Node? && key !in Keys(t) && n !in Ids(t)
    ensures key !in Keys(Toward(t, key)) && n !in Ids(Toward(t, key)) && key != t.key
  {
  }

  /** A subtree replaced by one of the same height with one more key. */
  lemma ReplaceSide(t: Tree, key: int, n: nat, c: Tree)
    requires Good(t) && t.Node? && key != t.key && n !in Ids(t) && Good(c)
    requires Keys(c) == Keys(Toward(t, key)) + {key} && Ids(c) == Ids(Toward(t, key)) + {n}
    requires Height(c) == Height(Toward(t, key)) && Size(c) == Size(Toward(t, key)) + 1
    ensures var u := if key < t.key then t.(left := c) else t.(right := c);
            Good(u) && Keys(u) == Keys(t) + {key} && Ids(u) == Ids(t) + {n} && Height(u) == Height(t)
                && Size(u) == Size(t) + 1
  {
  }

  // ---------------------------------------------------------------- what stays in place

  /** `u` is `t` with leaves added and balances changed: every node keeps its place. */
  ghost predicate Extends(t: Tree, u: Tree) {
    t.Node? ==> u.Node? && u.id == t.id && u.key == t.key && Extends(t.left, u.left) && Extends(t.right, u.right)
  }

  lemma ExtendsSelf(t: Tree)
    ensures Extends(t, t)
  {
  }

  lemma GrowExtends(t: Tree, key: int, n: nat)
    ensures Extends(t, Grow(t, key, n))
  {
    if t.Node? {
      ExtendsSelf(t.left);
      ExtendsSelf(t.right);
    }
  }
}
