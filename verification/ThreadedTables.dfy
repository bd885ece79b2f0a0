/** The threaded AVL table: insertion, deletion and traversal, in place. */
module ThreadedTables {
  import opened AvlTrees
  import opened AvlDeletions
  import opened AvlTables
  import opened ThreadedTrees

  class ThreadedTable {
    var root: int
    var knots: seq<Knot>
    var count: nat
    var duplicateFound: bool
    ghost var tree: Tree

    ghost predicate Valid()
      reads this
    {
      root == Link(tree) && Wired(knots, tree, NULL, NULL) && Good(tree) && Size(tree) == count
    }

    constructor ()
      ensures Valid() && tree == Leaf && knots == []
    {
      root, knots, count, duplicateFound, tree := NULL, [], 0, false, Leaf;
    }

    /** One rotation: `y` leans to this side, and its child there the same way or not at all. */
    method TurnOnce(y: nat, right: bool, ghost t: Tree, ghost lo: int, ghost hi: int) returns (x: nat)
      requires Wired(knots, t, lo, hi) && Distinct(t) && CanTurn(t, right) && t.id == y
          && Child(t, right).balance != -Lean(right)
      modifies `knots
      ensures Wired(knots, Turn(t, right), lo, hi) && x == Turn(t, right).id && Rest(old(knots), knots, Ids(t))
          && KeysKept(old(knots), knots)
    {
      ghost var before := knots;
      TurnApart(t, right);
      assert Wired(knots, Child(t, right), if right then t.id else lo, if right then hi else t.id);
      x := Ptr(knots[y], right);
      assert x == Child(t, right).id && x < |knots| && knots[x].balance == Child(t, right).balance
          && x == Turn(t, right).id;
      assert HasChild(knots[y], right) && (knots[x].balance == 0 ==> HasChild(knots[x], !right));
      hide Wired, Ids, Distinct, CanTurn, Turn;
      Swing(x, y, right);
      SingleWired(before, knots, t, right, lo, hi);
    }

    /** The links, threads and balances of a single rotation. */
    method Swing(x: nat, y: nat, right: bool)
      requires x < |knots| && y < |knots| && x != y && HasChild(knots[y], right)
          && (knots[x].balance == 0 ==> HasChild(knots[x], !right))
      modifies `knots
      ensures Rest(old(knots), knots, {y, x}) && KeysKept(old(knots), knots)
      ensures var was, s := old(knots), if old(knots)[x].balance == 0 then Lean(right) else 0;
              && knots[x] == WithTag(WithPtr(was[x], !right, y), !right, true).(balance := -s)
              && knots[y] == WithTag(WithPtr(was[y], right, if HasChild(was[x], !right) then Ptr(was[x], !right)
                  else x),
                                     right, HasChild(was[x], !right)).(balance := s)
    {
      if knots[x].balance == 0 {
        knots := knots[y := WithPtr(knots[y], right, Ptr(knots[x], !right))];
        knots := knots[x := WithPtr(knots[x], !right, y)];
        knots := knots[x := knots[x].(balance := -Lean(right))][y := knots[y].(balance := Lean(right))];
      } else {
        if HasChild(knots[x], !right) {
          knots := knots[y := WithPtr(knots[y], right, Ptr(knots[x], !right))];
        } else {
          knots := knots[x := WithTag(knots[x], !right, true)];
          knots := knots[y := WithPtr(WithTag(knots[y], right, false), right, x)];
        }
        knots := knots[x := WithPtr(knots[x], !right, y)];
        knots := knots[x := knots[x].(balance := 0)][y := knots[y].(balance := 0)];
      }
    }

    /** Two rotations: `y` leans to this side, and its child there the other way. */
    method TurnTwice(y: nat, right: bool, ghost t: Tree, ghost lo: int, ghost hi: int) returns (w: nat)
      requires Wired(knots, t, lo, hi) && Distinct(t) && CanTurn(t, right) && t.id == y
          && Child(t, right).balance == -Lean(right)
      modifies `knots
      ensures Wired(knots, Turn(t, right), lo, hi) && w == Turn(t, right).id && Rest(old(knots), knots, Ids(t))
          && KeysKept(old(knots), knots)
    {
      ghost var before := knots;
      TurnApartTwo(t, right);
      assert Wired(knots, Child(t, right), if right then t.id else lo, if right then hi else t.id);
      assert Wired(knots, Child(Child(t, right), !right), if right then t.id else Child(t, right).id, if right
          then Child(t, right).id else t.id);
      var x: nat := Ptr(knots[y], right);
      w := Ptr(knots[x], !right);
      assert x == Child(t, right).id && w == Child(Child(t, right), !right).id && x < |knots| && w < |knots|;
      assert -1 <= knots[w].balance <= 1 && w == Turn(t, right).id;
      assert HasChild(knots[y], right) && HasChild(knots[x], !right);
      hide Wired, Ids, Distinct, CanTurn, Turn;
      Exchange(x, y, w, right);
      DoubleWired(before, knots, t, right, lo, hi);
    }

    /** The links, balances and threads of a double rotation. */
    method Exchange(x: nat, y: nat, w: nat, right: bool)
      requires x < |knots| && y < |knots| && w < |knots| && x != y && x != w && y != w && -1 <= knots[w].balance <= 1
      requires HasChild(knots[y], right) && HasChild(knots[x], !right)
      modifies `knots
      ensures Rest(old(knots), knots, {y, x, w}) && KeysKept(old(knots), knots)
      ensures var was, s := old(knots), Lean(right);
              && knots[x] == WithTag(WithPtr(was[x], !right, if HasChild(was[w], right) then Ptr(was[w], right) else w),
                                     !right, HasChild(was[w], right)).(balance := if was[w].balance == -s then s else 0)
              && knots[y] == WithTag(WithPtr(was[y], right, if HasChild(was[w], !right) then Ptr(was[w], !right)
                  else w),
                                     right, HasChild(was[w], !right)).(balance := if was[w].balance == s then -s else 0)
              && knots[w] == Knot(if right then y else x, if right then x else y, true, true, was[w].key, 0)
    {
      ExchangeLinks(x, y, w, right);
      ExchangeBalances(x, y, w, right);
      ExchangeThreads(x, y, w, right);
    }

    method ExchangeLinks(x: nat, y: nat, w: nat, right: bool)
      requires x < |knots| && y < |knots| && w < |knots| && x != y && x != w && y != w
      modifies `knots
      ensures Rest(old(knots), knots, {y, x, w}) && KeysKept(old(knots), knots)
      ensures knots[x] == WithPtr(old(knots)[x], !right, Ptr(old(knots)[w], right))
      ensures knots[y] == WithPtr(old(knots)[y], right, Ptr(old(knots)[w], !right))
      ensures knots[w] == WithPtr(WithPtr(old(knots)[w], right, x), !right, y)
    {
      knots := knots[x := WithPtr(knots[x], !right, Ptr(knots[w], right))];
      knots := knots[w := WithPtr(knots[w], right, x)];
      knots := knots[y := WithPtr(knots[y], right, Ptr(knots[w], !right))];
      knots := knots[w := WithPtr(knots[w], !right, y)];
    }

    method ExchangeBalances(x: nat, y: nat, w: nat, right: bool)
      requires x < |knots| && y < |knots| && w < |knots| && x != y && x != w && y != w && -1 <= knots[w].balance <= 1
      modifies `knots
      ensures Rest(old(knots), knots, {y, x, w}) && KeysKept(old(knots), knots)
      ensures knots[x] == old(knots)[x].(balance := if old(knots)[w].balance == -Lean(right) then Lean(right) else 0)
      ensures knots[y] == old(knots)[y].(balance := if old(knots)[w].balance == Lean(right) then -Lean(right) else 0)
      ensures knots[w] == old(knots)[w].(balance := 0)
    {
      var s := Lean(right);
      if knots[w].balance == s {
        knots := knots[x := knots[x].(balance := 0)][y := knots[y].(balance := -s)];
      } else if knots[w].balance == 0 {
        knots := knots[x := knots[x].(balance := 0)][y := knots[y].(balance := 0)];
      } else {
        knots := knots[x := knots[x].(balance := s)][y := knots[y].(balance := 0)];
      }
      knots := knots[w := knots[w].(balance := 0)];
    }

    /** An empty side of the new root becomes a thread to it from below. */
    method ExchangeThreads(x: nat, y: nat, w: nat, right: bool)
      requires x < |knots| && y < |knots| && w < |knots| && x != y && x != w && y != w
      requires HasChild(knots[y], right) && HasChild(knots[x], !right)
      modifies `knots
      ensures Rest(old(knots), knots, {y, x, w}) && KeysKept(old(knots), knots)
      ensures knots[x] == if HasChild(old(knots)[w], right) then old(knots)[x]
          else WithPtr(WithTag(old(knots)[x], !right, false), !right, w)
      ensures knots[y] == if HasChild(old(knots)[w], !right) then old(knots)[y]
          else WithPtr(WithTag(old(knots)[y], right, false), right, w)
      ensures knots[w] == WithTag(WithTag(old(knots)[w], right, true), !right, true)
    {
      if !HasChild(knots[w], right) {
        knots := knots[x := WithPtr(WithTag(knots[x], !right, false), !right, w)];
        knots := knots[w := WithTag(knots[w], right, true)];
      }
      if !HasChild(knots[w], !right) {
        knots := knots[y := WithPtr(WithTag(knots[y], right, false), right, w)];
        knots := knots[w := WithTag(knots[w], !right, true)];
      }
    }

    // -------------------------------------------------------------- insertion

    /** A table of few enough nodes is low enough to insert into. */
    lemma HeightFits()
      requires Valid() && count + 1 < Fib(MOST_TURNS + 3)
      ensures Height(tree) <= MOST_TURNS
    {
      HeightBound(tree, MOST_TURNS);
    }

    /** Go down to where `key` is or belongs, remembering the last node with a balance and the turns after it. */
    method Descend(key: int) returns (found: int, z: int, y: int, p: int, dir: bool, da: array<bool>, k: nat,
        ghost m: nat)
      requires Valid() && Height(tree) <= MOST_TURNS
      ensures fresh(da)
      ensures found != NULL ==>
          found in Ids(tree) && 0 <= found < |knots| && knots[found].key == key && key in Keys(tree)
      ensures found == NULL ==>
          key !in Keys(tree) && Going(tree, key, m, k, z, y, p, NULL, dir, da[..]) && (root == NULL ==> !dir)
    {
      PlainShape(knots, tree, NULL, NULL);
      ghost var cells := Plain(knots);
      hide Good, Keys, Ids, Going, Shape, Wired, Ordered, Distinct, Balanced, Size, Fib, Ideal, Bare;
      da := new bool[MOST_TURNS];
      m, k := 0, 0;
      z, y, dir := NULL, root, false;
      p, found := z, NULL;
      GoFirst(tree, key, y, dir, da[..]);
      if y != NULL {
        var q := z;
        p := y;
        while true
          invariant da.Length == MOST_TURNS && Going(tree, key, m, k, z, y, q, p, dir, da[..]) && p != NULL
          decreases Height(Sub(tree, key, m + k))
        {
          AtNode(cells, tree, key, m, k, z, y, q, p, dir, da[..]);
          NodeLinks(knots, tree, key, m + k);
          if key == knots[p].key {
            found := p;
            return;
          }
          ghost var turns, right := da[..], key > knots[p].key;
          if knots[p].balance != 0 {
            GoOver(tree, key, m, k, z, y, q, p, dir, turns, right);
            z, y := q, p;
            m := m + k;
            k := 0;
          } else {
            GoOn(tree, key, m, k, z, y, q, p, dir, turns, right);
          }
          dir := key > knots[p].key;
          da[k] := dir;
          assert da[..] == turns[k := right];
          k := k + 1;
          if !HasChild(knots[p], dir) {
            break;
          }
          q, p := p, Ptr(knots[p], dir);
        }
      }
      GoneAll(tree, key, m, k, z, y, p, dir, da[..]);
    }

    /** Follow the turns from `y` to the new leaf and adjust the balances. */
    method AdjustBalances(key: int, y: nat, n: nat, da: array<bool>, ghost ty: Tree, ghost lo: int, ghost hi: int)
      requires Wired(knots, Grown(ty, key, n, 0), lo, hi) && Distinct(ty) && n !in Ids(ty) && ty.Node? && y == ty.id
      requires TurnsBelow(ty, key, Depth(ty, key), da[..])
      modifies `knots
      ensures Wired(knots, Grow(ty, key, n), lo, hi) && Rest(old(knots), knots, Ids(ty)) && KeysKept(old(knots), knots)
    {
      hide Wired, Ids, Distinct, TurnsBelow;
      var p: int, k := y, 0;
      while p != n
        invariant k <= Depth(ty, key) && p == StepOf(ty, key, n, k)
        invariant Wired(knots, Grown(ty, key, n, k), lo, hi) && Rest(old(knots), knots, Ids(ty))
            && KeysKept(old(knots), knots)
        decreases Depth(ty, key) - k
      {
        DepthSub(ty, key, k);
        BumpWired(knots, ty, lo, hi, key, n, k);
        TurnAt(ty, key, Depth(ty, key), da[..], k);
        if da[k] {
          knots := knots[p := knots[p].(balance := knots[p].balance + 1)];
        } else {
          knots := knots[p := knots[p].(balance := knots[p].balance - 1)];
        }
        StepDown(knots, ty, lo, hi, key, n, k, k + 1);
        NotNew(ty, key, n, k + 1);
        p := Ptr(knots[p], da[k]);
        k := k + 1;
      }
      NotNew(ty, key, n, k);
      GrownAll(ty, key, n, k);
    }

    /** Rotate at `y` if it leans by two. */
    method Rebalance(y: nat, ghost t: Tree, ghost lo: int, ghost hi: int) returns (rotated: bool, w: nat)
      requires Wired(knots, t, lo, hi) && Distinct(t) && CanRotate(t) && Leaning(t) && t.id == y && -2 <= t.balance <= 2
      modifies `knots
      ensures Wired(knots, Rotate(t), lo, hi) && Rest(old(knots), knots, Ids(t)) && KeysKept(old(knots), knots)
          && w == Rotate(t).id
      ensures rotated == (t.balance == -2 || t.balance == 2) && (!rotated ==> knots == old(knots) && Rotate(t) == t)
    {
      rotated, w := false, y;
      assert knots[y].balance == t.balance;
      if knots[y].balance == -2 || knots[y].balance == 2 {
        RotateIsTurn(t);
        var right := knots[y].balance == 2;
        var x := Ptr(knots[y], right);
        assert x == Child(t, right).id && Wired(knots, Child(t, right), if right then t.id else lo, if right then hi
            else t.id);
        if knots[x].balance == (if right then 1 else -1) {
          w := TurnOnce(y, right, t, lo, hi);
        } else {
          w := TurnTwice(y, right, t, lo, hi);
        }
        rotated := true;
      }
    }

    /** Hang a new node from node `p` with two threads, or make it the root. */
    method Attach(key: int, p: int, dir: bool) returns (n: nat)
      requires if p == NULL then root == NULL && !dir else root != NULL && 0 <= p < |knots|
      modifies `knots, `root, `count
      ensures n == |old(knots)| && |knots| == n + 1 && count == old(count) + 1
      ensures root == if p == NULL then n else old(root)
      ensures p == NULL ==> knots[n] == Knot(NULL, NULL, false, false, key, 0)
      ensures p != NULL ==>
          knots[n] == WithPtr(WithPtr(Knot(NULL, NULL, false, false, key, 0), dir, Ptr(old(knots)[p], dir)), !dir, p)
      ensures forall id: nat | id < n ::
                knots[id] == if id == p then WithTag(WithPtr(old(knots)[p], dir, n), dir, true) else old(knots)[id]
    {
      n := |knots|;
      count := count + 1;
      var knot := Knot(NULL, NULL, false, false, key, 0);
      knot := WithPtr(knot, dir, if p == NULL then root else Ptr(knots[p], dir));
      if root != NULL {
        knots := knots[p := WithTag(knots[p], dir, true)];
        knot := WithPtr(knot, !dir, p);
      } else {
        knot := WithPtr(knot, true, NULL);
      }
      knots := knots + [knot];
      if p == NULL {
        root := n;
      } else {
        knots := knots[p := WithPtr(knots[p], dir, n)];
      }
    }

    /** Let node `z` point to the rotated subtree, or make that the root. */
    method Relink(z: int, y: nat, w: nat)
      requires z == NULL || 0 <= z < |knots|
      modifies `knots, `root
      ensures if z == NULL then root == w && knots == old(knots)
              else root == old(root) && knots == old(knots)[z := WithPtr(old(knots)[z], y != old(knots)[z].left, w)]
    {
      if z == NULL {
        root := w;
      } else {
        knots := knots[z := WithPtr(knots[z], y != knots[z].left, w)];
      }
    }

    /** Adjust the balances from `y` to a new leaf, and rotate at `y` if need be. */
    method Regrow(key: int, y: nat, n: nat, da: array<bool>, ghost ty: Tree, ghost lo: int, ghost hi: int)
      returns (rotated: bool, w: nat)
      requires Wired(knots, Grown(ty, key, n, 0), lo, hi) && Distinct(ty) && n !in Ids(ty) && ty.Node? && y == ty.id
      requires TurnsBelow(ty, key, Depth(ty, key), da[..]) && CanRotate(Grow(ty, key, n)) && Leaning(Grow(ty, key, n))
      requires Distinct(Grow(ty, key, n)) && Ids(Grow(ty, key, n)) == Ids(ty) + {n}
          && -2 <= Grow(ty, key, n).balance <= 2 && Grow(ty, key, n).id == y
      modifies `knots
      ensures Wired(knots, Rotate(Grow(ty, key, n)), lo, hi) && Rest(old(knots), knots, Ids(ty) + {n})
          && KeysKept(old(knots), knots)
      ensures w == Rotate(Grow(ty, key, n)).id && (!rotated ==> w == y)
    {
      hide Wired, Ids, Distinct, Grow, Grown, Rotate, CanRotate, Leaning, TurnsBelow, Depth;
      AdjustBalances(key, y, n, da, ty, lo, hi);
      rotated, w := Rebalance(y, Grow(ty, key, n), lo, hi);
    }

    /** Repair the tree above a new leaf. */
    method Repair(key: int, z: int, y: nat, n: nat, da: array<bool>, ghost m: nat, ghost t: Tree,
        ghost before: seq<Knot>)
      requires Wired(before, t, NULL, NULL) && Good(t) && key !in Keys(t) && n == |before| && |knots| == n + 1
          && root == Link(t)
      requires Sub(t, key, m).Node? && y == Sub(t, key, m).id && z == Parent(t, key, m)
      requires Calm(Toward(Sub(t, key, m), key), key) && (m > 0 ==> Sub(t, key, m).balance != 0)
      requires Wired(knots, Grown(Sub(t, key, m), key, n, 0), Lo(t, key, m, NULL), Hi(t, key, m, NULL))
      requires Beyond(before, knots, Ids(Sub(t, key, m)))
      requires TurnsBelow(Sub(t, key, m), key, Depth(Sub(t, key, m), key), da[..])
      modifies `knots, `root
      ensures Wired(knots, Inserted(t, key, n), NULL, NULL) && root == Link(Inserted(t, key, n)) && |knots| == n + 1
          && KeysKept(old(knots), knots)
    {
      ghost var ty := Sub(t, key, m);
      ghost var lo, hi := Lo(t, key, m, NULL), Hi(t, key, m, NULL);
      ghost var u := Rotated(before, t, key, n, m);
      hide Wired, Good, Ids, Keys, Distinct, Sub, Put, Inserted, Grow, Grown, Rotate, CanRotate, TurnsBelow, Depth,
          Calm, Leaning, Lo, Hi, Parent,
        Toward, Beyond, Rest;
      ghost var linked := knots;
      var rotated, w := Regrow(key, y, n, da, ty, lo, hi);
      ghost var mid := knots;
      BeyondRest(before, linked, mid, Ids(ty), Ids(ty) + {n});
      if rotated {
        Relink(z, y, w);
      }
      InstalledHere(before, mid, knots, t, key, n, m, u, z, rotated);
    }

    /** Add a key that is not there. */
    method AddKey(key: int, z: int, y: int, p: int, dir: bool, da: array<bool>, k: nat, ghost m: nat)
      returns (slot: nat)
      requires Valid() && key !in Keys(tree) && Going(tree, key, m, k, z, y, p, NULL, dir, da[..])
          && (root == NULL ==> !dir)
      modifies `knots, `root, `count
      ensures slot == |old(knots)| && |knots| == slot + 1 && knots[slot].key == key
      ensures Wired(knots, Inserted(tree, key, slot), NULL, NULL) && root == Link(Inserted(tree, key, slot))
      ensures count == old(count) + 1
      ensures KeysKept(old(knots), knots)
    {
      ghost var before, t := knots, tree;
      PlainShape(knots, tree, NULL, NULL);
      Arrived(Plain(knots), tree, key, m, k, z, y, p, dir, da[..]);
      SubWired(knots, tree, NULL, NULL, key, m);
      hide Good, Wired, Shape, Ids, Keys, Sub, Calm, Depth, Inserted, TurnsBelow, Going, Distinct, Balanced, Size, Lo,
          Hi;
      slot := Attach(key, p, dir);
      if y == NULL {
        OnlyNode(knots, t, key, slot);
      } else {
        LeafWired(before, knots, Sub(t, key, m), Lo(t, key, m, NULL), Hi(t, key, m, NULL), key, p, dir);
        Repair(key, z, y, slot, da, m, t, before);
      }
    }

    /** Add a key, or find it. */
    method Probe(key: int) returns (slot: nat)
      requires Valid() && Height(tree) <= MOST_TURNS
      modifies this
      ensures Valid()
      ensures duplicateFound == (key in old(Keys(tree)))
      ensures Keys(tree) == old(Keys(tree)) + {key} && count == old(count) + if duplicateFound then 0 else 1
      ensures slot in Ids(tree) && slot < |knots| && knots[slot].key == key
      ensures duplicateFound ==> tree == old(tree) && knots == old(knots)
      ensures KeysKept(old(knots), knots) && Ids(tree) == old(Ids(tree)) + {slot}
    {
      duplicateFound := false;
      assert Balanced(tree) && Distinct(tree);
      WiredIds(knots, tree, NULL, NULL);
      hide Good, Wired, Ids, Keys, Inserted, Going, Balanced, Size;
      var found, z, y, p, dir, da, k, m := Descend(key);
      if found != NULL {
        duplicateFound := true;
        return found;
      }
      slot := AddKey(key, z, y, p, dir, da, k, m);
      InsertedGood(tree, key, slot);
      tree := Inserted(tree, key, slot);
    }

    // -------------------------------------------------------------- deletion

    /** The node above one on the route, found by following threads on both sides; null above the root. */
    method FindParent(node: nat, ghost key: int, ghost m: nat) returns (p: int)
      requires Wired(knots, tree, NULL, NULL) && Distinct(tree) && root == Link(tree) && Sub(tree, key, m).Node?
          && node == Sub(tree, key, m).id
      ensures p == Parent(tree, key, m)
    {
      if node == root {
        if m > 0 {
          SubBelow(tree, key, m);
        }
        return NULL;
      }
      ghost var t, lo, hi := Sub(tree, key, m), Lo(tree, key, m, NULL), Hi(tree, key, m, NULL);
      AboveSub(tree, key, m);
      SubWired(knots, tree, NULL, NULL, key, m);
      FarNeighbour(knots, tree, NULL, NULL, key, m);
      NeighboursOutside(tree, NULL, NULL, key, m);
      WiredIds(knots, tree, NULL, NULL);
      hide Sub, Lo, Hi, Ids, Distinct;
      var x, y := node, node;
      ghost var tx, ty, h, l := t, t, hi, lo;
      while true
        invariant tx.Node? && x == tx.id && Wired(knots, tx, lo, h) && ty.Node? && y == ty.id && Wired(knots, ty, l, hi)
        decreases tx
      {
        if !HasChild(knots[y], true) {
          p := Ptr(knots[y], true);
          if p == NULL || Ptr(knots[p], false) != node {
            p := FarLeft(x, tx, lo, h);
          }
          return;
        } else if !HasChild(knots[x], false) {
          p := Ptr(knots[x], false);
          if p == NULL || Ptr(knots[p], true) != node {
            p := FarRight(y, ty, l, hi);
          }
          return;
        }
        x, y := Ptr(knots[x], false), Ptr(knots[y], true);
        h, l := tx.id, ty.id;
        tx, ty := tx.left, ty.right;
      }
    }

    /** Down the left side and along the last thread. */
    method FarLeft(x: nat, ghost t: Tree, ghost lo: int, ghost hi: int) returns (p: int)
      requires t.Node? && x == t.id && Wired(knots, t, lo, hi)
      ensures p == lo
    {
      var n := x;
      ghost var tn, h := t, hi;
      while HasChild(knots[n], false)
        invariant tn.Node? && n == tn.id && Wired(knots, tn, lo, h)
        decreases tn
      {
        n := Ptr(knots[n], false);
        h, tn := tn.id, tn.left;
      }
      return Ptr(knots[n], false);
    }

    method FarRight(y: nat, ghost t: Tree, ghost lo: int, ghost hi: int) returns (p: int)
      requires t.Node? && y == t.id && Wired(knots, t, lo, hi)
      ensures p == hi
    {
      var n := y;
      ghost var tn, l := t, lo;
      while HasChild(knots[n], true)
        invariant tn.Node? && n == tn.id && Wired(knots, tn, l, hi)
        decreases tn
      {
        n := Ptr(knots[n], true);
        l, tn := tn.id, tn.right;
      }
      return Ptr(knots[n], true);
    }

    /** Go down to `key`, remembering the node above. */
    method Seek(key: int) returns (found: bool, p: int, q: int, dir: bool, ghost m: nat)
      requires Valid()
      ensures found ==> Sub(tree, key, m).Node? && p == Sub(tree, key, m).id && key == Sub(tree, key, m).key
      ensures found ==>
          q == Parent(tree, key, m) && (if m == 0 then !dir
              else Sub(tree, key, m - 1).Node? && dir == (key >= Sub(tree, key, m - 1).key))
      ensures found == (key in Keys(tree))
    {
      p, q, dir, m := root, NULL, false, 0;
      if root == NULL {
        return false, p, q, dir, 0;
      }
      assert Ordered(tree) && Distinct(tree);
      while true
        invariant Sub(tree, key, m).Node? && p == Sub(tree, key, m).id && q == Parent(tree, key, m)
        invariant if m == 0 then !dir else Sub(tree, key, m - 1).Node? && dir == (key >= Sub(tree, key, m - 1).key)
        invariant Ordered(Sub(tree, key, m)) && (key in Keys(Sub(tree, key, m)) <==> key in Keys(tree))
        decreases Height(Sub(tree, key, m))
      {
        NodeLinks(knots, tree, key, m);
        SubNext(tree, key, m);
        if key == knots[p].key {
          return true, p, q, dir, m;
        }
        ghost var t := Sub(tree, key, m);
        TowardKeeps(t, key);
        dir := key > knots[p].key;
        q := p;
        if !HasChild(knots[p], dir) {
          return false, p, q, dir, m;
        }
        p := Ptr(knots[p], dir);
        m := m + 1;
      }
    }

    /** Let node `q` point to `link`, or make that the root. */
    method Hook(q: int, dir: bool, link: int)
      requires q == NULL || 0 <= q < |knots|
      modifies `knots, `root
      ensures if q == NULL then root == link && knots == old(knots)
              else root == old(root) && knots == old(knots)[q := WithPtr(old(knots)[q], dir, link)]
      ensures KeysKept(old(knots), knots)
    {
      if q == NULL {
        root := link;
      } else {
        knots := knots[q := WithPtr(knots[q], dir, link)];
      }
    }

    /** Set the right thread of the rightmost node below `t`. */
    method RethreadRight(t: nat, target: int, ghost tree0: Tree, ghost lo: int, ghost hi: int)
      requires tree0.Node? && t == tree0.id && Wired(knots, tree0, lo, hi) && Distinct(tree0)
      modifies `knots
      ensures Wired(knots, tree0, lo, target) && Rest(old(knots), knots, Ids(tree0))
      ensures KeysKept(old(knots), knots)
    {
      var n := t;
      ghost var tn, l := tree0, lo;
      while HasChild(knots[n], true)
        invariant tn.Node? && n == tn.id && Wired(knots, tn, l, hi) && Greatest(tn) == Greatest(tree0)
        decreases tn
      {
        n := Ptr(knots[n], true);
        l, tn := tn.id, tn.right;
      }
      ghost var before := knots;
      GreatestIn(knots, tree0, lo, hi);
      WiredIds(knots, tree0, lo, hi);
      knots := knots[n := WithPtr(knots[n], true, target)];
      Retarget(before, knots, tree0, lo, hi, target);
    }

    /** What the methods that take a node out need to know of it. */
    ghost predicate Found(key: int, m: nat, p: int, q: int, dir: bool)
      reads this
    {
      && Wired(knots, tree, NULL, NULL) && Ordered(tree) && Distinct(tree) && root == Link(tree)
      && Sub(tree, key, m).Node? && p == Sub(tree, key, m).id && q == Parent(tree, key, m)
      && if m == 0 then !dir else Sub(tree, key, m - 1).Node? && dir == (key >= Sub(tree, key, m - 1).key)
    }

    lemma FoundFacts(key: int, m: nat, p: int, q: int, dir: bool)
      requires Found(key, m, p, q, dir)
      ensures var t, lo, hi := Sub(tree, key, m), Lo(tree, key, m, NULL), Hi(tree, key, m, NULL);
              && t.Node? && p == t.id && Wired(knots, t, lo, hi) && Ordered(t) && Distinct(t) && 0 <= p < |knots|
                  && knots[p] == Ideal(t, lo, hi)
              && (if m == 0 then q == NULL && !dir && lo == hi == NULL && root == p
                  else 0 <= q < |knots| && q !in Ids(t) && dir == (key >= knots[q].key)
                       && Hooked(knots[q], dir, t, if dir then hi else lo) == knots[q])
    {
      SubWired(knots, tree, NULL, NULL, key, m);
      SubIds(tree, key, m);
      SubOrdered(tree, key, m);
      if m > 0 {
        AboveLinks(knots, tree, NULL, NULL, key, m);
      }
    }

    /** A node with nothing on the right: its left side takes its place. */
    method TakePlain(p: nat, q: int, dir: bool, ghost key: int, ghost m: nat)
      requires Found(key, m, p, q, dir) && Sub(tree, key, m).right.Leaf?
      modifies `knots, `root
      ensures Wired(knots, Put(tree, key, m, Sub(tree, key, m).left), NULL, NULL)
      ensures root == Link(Put(tree, key, m, Sub(tree, key, m).left)) && |knots| == |old(knots)|
      ensures KeysKept(old(knots), knots)
    {
      FoundFacts(key, m, p, q, dir);
      ghost var before, t, lo, hi := knots, Sub(tree, key, m), Lo(tree, key, m, NULL), Hi(tree, key, m, NULL);
      assert Wired(knots, t.left, lo, t.id) && Distinct(t.left) && Ids(t.left) <= Ids(t) && p !in Ids(t.left);
      hide Wired, Ids, Distinct, Ordered, Sub, Put, Lo, Hi;
      ghost var mid;
      if HasChild(knots[p], false) {
        RethreadRight(knots[p].left, knots[p].right, t.left, lo, t.id);
        mid := knots;
        assert knots[p] == before[p];
        Hook(q, dir, knots[p].left);
      } else {
        mid := knots;
        WiredLeaf(knots, t.left, lo, hi);
        Hook(q, dir, Ptr(knots[p], dir));
        if q != NULL {
          knots := knots[q := WithTag(knots[q], dir, false)];
        }
      }
      HookWired(before, mid, knots, tree, key, m, t.left);
      PutLink(tree, key, m, t.left);
    }

    /** The right child has nothing on its left: it takes the place. */
    method TakeRight(p: nat, q: int, dir: bool, ghost key: int, ghost m: nat) returns (r: nat)
      requires Found(key, m, p, q, dir) && Sub(tree, key, m).right.Node? && Sub(tree, key, m).right.left.Leaf?
      modifies `knots, `root
      ensures Wired(knots, Put(tree, key, m, Successor(Sub(tree, key, m))), NULL, NULL)
          && r == Successor(Sub(tree, key, m)).id
      ensures root == Link(Put(tree, key, m, Successor(Sub(tree, key, m)))) && |knots| == |old(knots)|
      ensures KeysKept(old(knots), knots)
    {
      FoundFacts(key, m, p, q, dir);
      ghost var before, t, lo, hi := knots, Sub(tree, key, m), Lo(tree, key, m, NULL), Hi(tree, key, m, NULL);
      TakeFacts(knots, t, lo, hi);
      r := knots[p].right;
      assert r == Least(t.right).id && Least(t.right) == t.right && knots[r] == Ideal(t.right, t.id, hi);
      ghost var u := Successor(t);
      assert Ideal(u, lo, hi) == Knot(knots[p].left, knots[r].right, knots[p].leftChild, knots[r].rightChild,
          knots[r].key, knots[p].balance);
      hide Wired, Ids, Distinct, Ordered, Sub, Put, Lo, Hi, Successor, Least;
      knots := knots[r := knots[r].(left := knots[p].left, leftChild := knots[p].leftChild)];
      RestFrame(before, knots, {r}, t.left, lo, t.id);
      if HasChild(knots[r], false) {
        RethreadRight(knots[r].left, r, t.left, lo, t.id);
      } else {
        WiredLeaf(knots, t.left, lo, r);
      }
      ghost var threaded := knots;
      knots := knots[r := knots[r].(balance := knots[p].balance)];
      RestFrame(threaded, knots, {r}, t.left, lo, r);
      ghost var mid := knots;
      SuccessorWired(before, mid, t, lo, hi);
      Hook(q, dir, r);
      HookWired(before, mid, knots, tree, key, m, u);
      PutLink(tree, key, m, u);
    }

    /** The leftmost node on the right takes the place; its own right side goes to its parent. */
    method TakeLeast(p: nat, q: int, dir: bool, ghost key: int, ghost m: nat) returns (r: nat, s: nat)
      requires Found(key, m, p, q, dir) && Sub(tree, key, m).right.Node? && Sub(tree, key, m).right.left.Node?
      modifies `knots, `root
      ensures Wired(knots, Put(tree, key, m, Successor(Sub(tree, key, m))), NULL, NULL)
      ensures s == Successor(Sub(tree, key, m)).id && r == LeastParent(Sub(tree, key, m).right).id
      ensures root == Link(Put(tree, key, m, Successor(Sub(tree, key, m)))) && |knots| == |old(knots)|
      ensures KeysKept(old(knots), knots)
    {
      FoundFacts(key, m, p, q, dir);
      ghost var before, t, lo, hi := knots, Sub(tree, key, m), Lo(tree, key, m, NULL), Hi(tree, key, m, NULL);
      TakeFacts(knots, t, lo, hi);
      r, s := FindLeast(knots[p].right, t.right, t.id, hi);
      hide Wired, Ids, Distinct, Ordered, Sub, Put, Lo, Hi, Successor, Least, LeastParent;
      LiftLeast(p, r, s, t, lo, hi);
      ghost var mid := knots;
      Hook(q, dir, s);
      HookWired(before, mid, knots, tree, key, m, Successor(t));
      PutLink(tree, key, m, Successor(t));
    }

    /** Let the leftmost node on the right of `p` go, and give it the links and the balance of `p`. */
    method LiftLeast(p: nat, r: nat, s: nat, ghost t: Tree, ghost lo: int, ghost hi: int)
      requires Wired(knots, t, lo, hi) && Ordered(t) && Distinct(t) && t.Node? && t.right.Node? && t.right.left.Node?
      requires p == t.id && r == LeastParent(t.right).id && s == Least(t.right).id
      modifies `knots
      ensures Wired(knots, Successor(t), lo, hi) && Rest(old(knots), knots, Ids(t))
      ensures KeysKept(old(knots), knots)
    {
      ghost var before := knots;
      TakeFacts(knots, t, lo, hi);
      LeastThere(knots, t, lo, hi);
      assert Ids(t) == Ids(t.left) + {t.id} + Ids(t.right);
      hide Wired, Ids, Distinct, Ordered, Successor, Least, LeastParent;
      if HasChild(knots[s], true) {
        knots := knots[r := knots[r].(left := knots[s].right)];
      } else {
        knots := knots[r := knots[r].(left := s, leftChild := false)];
      }
      assert knots[r] == Hooked(before[r], false, Least(t.right).right, s);
      knots := knots[s := knots[s].(left := knots[p].left)];
      RestFrame(before, knots, {r, s}, t.left, lo, t.id);
      if HasChild(knots[p], false) {
        RethreadRight(knots[p].left, s, t.left, lo, t.id);
      } else {
        WiredLeaf(knots, t.left, lo, s);
      }
      ghost var threaded := knots;
      assert knots[p] == before[p] && knots[r] == Hooked(before[r], false, Least(t.right).right, s);
      TakeOver(p, s);
      RestFrame(threaded, knots, {s}, t.left, lo, s);
      SuccessorWired(before, knots, t, lo, hi);
    }

    method TakeOver(p: nat, s: nat)
      requires p < |knots| && s < |knots| && p != s && knots[s].left == knots[p].left && !knots[s].leftChild
      modifies `knots
      ensures Rest(old(knots), knots, {s})
      ensures knots[s] == Knot(knots[p].left, knots[p].right, knots[p].leftChild, true, old(knots)[s].key,
          knots[p].balance)
      ensures KeysKept(old(knots), knots)
    {
      if HasChild(knots[p], false) {
        knots := knots[s := knots[s].(leftChild := true)];
      }
      knots := knots[s := knots[s].(right := knots[p].right, rightChild := true)];
      knots := knots[s := knots[s].(balance := knots[p].balance)];
    }

    /** Down the left side to the last node and its parent. */
    method FindLeast(from: nat, ghost t: Tree, ghost lo: int, ghost hi: int) returns (r: nat, s: nat)
      requires t.Node? && t.left.Node? && from == t.id && Wired(knots, t, lo, hi)
      ensures r == LeastParent(t).id && s == Least(t).id
    {
      r := from;
      ghost var tr, h := t, hi;
      while true
        invariant tr.Node? && tr.left.Node? && r == tr.id && Wired(knots, tr, lo, h)
        invariant LeastParent(tr) == LeastParent(t) && Least(tr) == Least(t)
        decreases tr
      {
        s := Ptr(knots[r], false);
        if !HasChild(knots[s], false) {
          return;
        }
        r := s;
        h, tr := tr.id, tr.left;
      }
    }

    /** One repair: the balance of `y`, whose side `dir` has become lower, and a rotation if it leans by two. */
    method RepairNode(y: nat, q: int, dir: bool, turn: bool, ghost key: int, ghost m: nat) returns (ends: bool)
      requires Found(key, m, y, q, turn) && OffBelow(Sub(tree, key, m), key, 1) && dir == (key >= Sub(tree, key, m).key)
      modifies `knots, `root
      ensures ends == RepairEnds(Sub(tree, key, m), key)
      ensures Wired(knots, Put(tree, key, m, Repaired(Sub(tree, key, m), key)), NULL, NULL)
      ensures root == Link(Put(tree, key, m, Repaired(Sub(tree, key, m), key)))
      ensures KeysKept(old(knots), knots)
    {
      FoundFacts(key, m, y, q, turn);
      ghost var before, t, lo, hi := knots, Sub(tree, key, m), Lo(tree, key, m, NULL), Hi(tree, key, m, NULL);
      RepairedFacts(t, key);
      hide Wired, Ids, Distinct, Ordered, Sub, Put, Lo, Hi, OffBelow, Repaired, RepairEnds, NeedsTurn;
      var turned, w;
      ends, turned, w := CorrectNode(y, dir, key, t, lo, hi);
      ghost var mid := knots;
      if turned {
        Hook(q, turn, w);
      }
      HookWired(before, mid, knots, tree, key, m, Repaired(t, key));
      PutLink(tree, key, m, Repaired(t, key));
    }

    method CorrectNode(y: nat, dir: bool, ghost key: int, ghost t: Tree, ghost lo: int, ghost hi: int)
      returns (ends: bool, turned: bool, w: nat)
      requires Wired(knots, t, lo, hi) && t.Node? && y == t.id && Distinct(t) && OffBelow(t, key, 1)
          && dir == (key >= t.key)
      modifies `knots
      ensures ends == RepairEnds(t, key)
      ensures Wired(knots, Repaired(t, key), lo, hi) && w == Repaired(t, key).id && Rest(old(knots), knots, Ids(t))
      ensures !turned ==> w == y
      ensures KeysKept(old(knots), knots)
    {
      ghost var z := Corrected(t, key);
      CorrectedUneven(t, key);
      assert Distinct(z) && Ids(z) == Ids(t) && t.id in Ids(t) && knots[t.id].balance == t.balance;
      BalanceOnly(knots, t, lo, hi, z.balance);
      hide OffBelow, Ids, Distinct, Turn, CanTurn;
      if dir {
        knots := knots[y := knots[y].(balance := knots[y].balance - 1)];
      } else {
        knots := knots[y := knots[y].(balance := knots[y].balance + 1)];
      }
      assert Wired(knots, z, lo, hi);
      turned, w := false, y;
      ends := knots[y].balance == (if dir then -1 else 1);
      if knots[y].balance == (if dir then -2 else 2) {
        ends, w := TurnNode(y, !dir, z, lo, hi);
        turned := true;
      }
    }

    method TurnNode(y: nat, right: bool, ghost z: Tree, ghost lo: int, ghost hi: int) returns (even: bool, w: nat)
      requires Wired(knots, z, lo, hi) && CanTurn(z, right) && Distinct(z) && y == z.id
      modifies `knots
      ensures even == (Child(z, right).balance == 0)
      ensures Wired(knots, Turn(z, right), lo, hi) && w == Turn(z, right).id && Rest(old(knots), knots, Ids(z))
      ensures KeysKept(old(knots), knots)
    {
      var x := Ptr(knots[y], right);
      assert x == Child(z, right).id && Wired(knots, Child(z, right), if right then z.id else lo, if right then hi
          else z.id);
      assert knots[x].balance == Child(z, right).balance;
      even := knots[x].balance == 0;
      if knots[x].balance == (if right then -1 else 1) {
        w := TurnTwice(y, right, z, lo, hi);
      } else {
        w := TurnOnce(y, right, z, lo, hi);
      }
    }

    /** Take a node out. What comes back is the lowest node whose balance is off, and on which side. */
    method TakeOut(p: nat, q: int, dir: bool, ghost key: int, ghost m: nat) returns (off: int, side: bool)
      requires Good(tree) && Found(key, m, p, q, dir) && Sub(tree, key, m).key == key
      modifies `knots, `root
      ensures var t := Sub(tree, key, m);
              var after, route, k := Put(tree, key, m, Successor(t)), SuccessorKey(t), m + SuccessorDepth(t);
              && Wired(knots, after, NULL, NULL) && root == Link(after) && off == Parent(after, route, k)
              && (k > 0 ==> Sub(after, route, k - 1).Node? && side == (route >= Sub(after, route, k - 1).key))
      ensures KeysKept(old(knots), knots)
    {
      NodeLinks(knots, tree, key, m);
      ghost var t := Sub(tree, key, m);
      Unlinked(tree, key, m);
      RouteAfter(tree, key, m);
      if !HasChild(knots[p], true) {
        TakePlain(p, q, dir, key, m);
        off, side := q, dir;
      } else {
        var r := knots[p].right;
        RightLinks(knots, tree, key, m);
        if !HasChild(knots[r], false) {
          off := TakeRight(p, q, dir, key, m);
          side := true;
        } else {
          var s;
          off, s := TakeLeast(p, q, dir, key, m);
          side := false;
        }
      }
    }

    /** Repair the balances upwards until a subtree keeps its height. */
    method RepairUp(off: int, side: bool, ghost key: int, ghost depth: nat)
      requires Wired(knots, tree, NULL, NULL) && Ordered(tree) && Distinct(tree) && root == Link(tree)
      requires OffBelow(tree, key, depth) && off == Parent(tree, key, depth)
      requires depth > 0 ==> Sub(tree, key, depth - 1).Node? && side == (key >= Sub(tree, key, depth - 1).key)
      modifies `knots, `root, `tree
      ensures Wired(knots, tree, NULL, NULL) && root == Link(tree) && Balanced(tree) && Alike(old(tree), tree)
      ensures KeysKept(old(knots), knots)
    {
      var q, dir := off, side;
      ghost var k := depth;
      SameAlike(tree);
      hide Wired, Ordered, Distinct, OffBelow, Sub, Put, Alike, Balanced, Repaired, RepairEnds;
      FaultAtTop(tree, key, k);
      while q != NULL
        invariant Wired(knots, tree, NULL, NULL) && Ordered(tree) && Distinct(tree) && root == Link(tree)
            && Alike(old(tree), tree) && KeysKept(old(knots), knots)
        invariant OffBelow(tree, key, k) && q == Parent(tree, key, k)
        invariant k > 0 ==> Sub(tree, key, k - 1).Node? && dir == (key >= Sub(tree, key, k - 1).key)
        invariant q == NULL ==> Balanced(tree)
        decreases k
      {
        FaultAtTop(tree, key, k);
        var y: nat := q;
        RepairStep(tree, key, k);
        q := FindParent(y, key, k - 1);
        if k > 1 {
          ParentLinks(knots, tree, key, k - 1);
          AboveSub(tree, key, k - 1);
          AboveLinks(knots, tree, NULL, NULL, key, k - 1);
        }
        TopParent(tree, key, k - 1);
        var turn := q != NULL && knots[q].left != y;
        ghost var t, u := tree, Repaired(Sub(tree, key, k - 1), key);
        var ends := RepairNode(y, q, dir, turn, key, k - 1);
        tree := Put(tree, key, k - 1, u);
        RepairedStep(old(tree), t, tree);
        PutParent(t, key, k - 1, u);
        if ends {
          break;
        }
        dir := turn;
        k := k - 1;
        FaultAtTop(tree, key, k);
      }
    }

    /** Remove a key, if it is there. */
    method Delete(key: int) returns (found: bool)
      requires Valid()
      modifies this
      ensures Valid()
      ensures found == (key in old(Keys(tree)))
      ensures Keys(tree) == old(Keys(tree)) - {key} && count == old(count) - if found then 1 else 0
      ensures !found ==> tree == old(tree) && knots == old(knots)
      ensures KeysKept(old(knots), knots)
      ensures found ==> exists gone ::
          gone in old(Ids(tree)) && Ids(tree) == old(Ids(tree)) - {gone} && gone < |old(knots)|
          && old(knots)[gone].key == key
    {
      var p, q, dir;
      ghost var m;
      found, p, q, dir, m := Seek(key);
      if !found {
        return;
      }
      IsFound(key, m, p, q, dir);
      RemoveNode(key, p, q, dir, m);
      count := count - 1;
    }

    lemma IsFound(key: int, m: nat, p: nat, q: int, dir: bool)
      requires Good(tree) && Found(key, m, p, q, dir)
      ensures Sub(tree, key, m).Node? && p == Sub(tree, key, m).id
      ensures p in Ids(tree) && p < |knots| && knots[p].key == Sub(tree, key, m).key
    {
      SubWired(knots, tree, NULL, NULL, key, m);
      SubKeeps(tree, key, m);
    }

    /** Take a node out and repair the balances. */
    method RemoveNode(key: int, p: nat, q: int, dir: bool, ghost m: nat)
      requires Good(tree) && Found(key, m, p, q, dir) && Sub(tree, key, m).Node? && Sub(tree, key, m).key == key
      modifies `knots, `root, `tree
      ensures Wired(knots, tree, NULL, NULL) && root == Link(tree) && Good(tree)
      ensures key in old(Keys(tree)) && Keys(tree) == old(Keys(tree)) - {key} && Size(tree) + 1 == old(Size(tree))
      ensures Ids(tree) == old(Ids(tree)) - {p}
      ensures KeysKept(old(knots), knots)
    {
      hide *;
      ghost var after, route, depth := Removal(tree, key, m);
      assert p == Sub(tree, key, m).id by { IsFound(key, m, p, q, dir); }
      ghost var before := knots;
      var off, side := TakeOut(p, q, dir, key, m);
      ghost var mid := knots;
      tree := after;
      RepairUp(off, side, route, depth);
      AlikeParts(after, tree);
      KeysKeptOn(before, mid, knots);
    }

    // -------------------------------------------------------------- in key order

    /** The least node, or null. */
    method First() returns (n: int)
      requires Valid()
      ensures if tree.Leaf? then n == NULL else IsNode(n) && forall x | x in Keys(tree) :: knots[n].key <= x
    {
      n := root;
      if n != NULL {
        n := DownLeft(n, tree, NULL, NULL);
      }
    }

    /** The greatest node, or null. */
    method Last() returns (n: int)
      requires Valid()
      ensures if tree.Leaf? then n == NULL else IsNode(n) && forall x | x in Keys(tree) :: x <= knots[n].key
    {
      n := root;
      if n != NULL {
        n := DownRight(n, tree, NULL, NULL);
      }
    }

    ghost predicate IsNode(n: int)
      reads this
    {
      n in Ids(tree) && 0 <= n < |knots|
    }

    method DownLeft(x: nat, ghost t: Tree, ghost lo: int, ghost hi: int) returns (n: nat)
      requires t.Node? && x == t.id && Wired(knots, t, lo, hi) && Ordered(t)
      ensures n in Ids(t) && n < |knots| && knots[n].key in Keys(t) && forall x | x in Keys(t) :: knots[n].key <= x
    {
      n := x;
      ghost var tn, h := t, hi;
      while HasChild(knots[n], false)
        invariant tn.Node? && n == tn.id && Wired(knots, tn, lo, h) && Ordered(tn) && Ids(tn) <= Ids(t)
            && Keys(tn) <= Keys(t)
        invariant forall x | x in Keys(t) && x !in Keys(tn) :: x > tn.key
        decreases tn
      {
        assert tn.left.Node? ==> tn.left.key in Keys(tn.left);
        n := Ptr(knots[n], false);
        h, tn := tn.id, tn.left;
      }
    }

    method DownRight(y: nat, ghost t: Tree, ghost lo: int, ghost hi: int) returns (n: nat)
      requires t.Node? && y == t.id && Wired(knots, t, lo, hi) && Ordered(t)
      ensures n in Ids(t) && n < |knots| && knots[n].key in Keys(t) && forall x | x in Keys(t) :: x <= knots[n].key
    {
      n := y;
      ghost var tn, l := t, lo;
      while HasChild(knots[n], true)
        invariant tn.Node? && n == tn.id && Wired(knots, tn, l, hi) && Ordered(tn) && Ids(tn) <= Ids(t)
            && Keys(tn) <= Keys(t)
        invariant forall x | x in Keys(t) && x !in Keys(tn) :: x < tn.key
        decreases tn
      {
        assert tn.right.Node? ==> tn.right.key in Keys(tn.right);
        n := Ptr(knots[n], true);
        l, tn := tn.id, tn.right;
      }
    }

    /** The next node in key order, the first one after null, null after the last. */
    method Next(node: int) returns (n: int)
      requires Valid() && (node != NULL ==> IsNode(node))
      ensures node == NULL ==>
          if tree.Leaf? then n == NULL else IsNode(n) && forall x | x in Keys(tree) :: knots[n].key <= x
      ensures node != NULL && n == NULL ==> forall x | x in Keys(tree) :: x <= knots[node].key
      ensures node != NULL && n != NULL ==> IsNode(n) && knots[n].key > knots[node].key
      ensures node != NULL && n != NULL ==> forall x | x in Keys(tree) && x > knots[node].key :: knots[n].key <= x
    {
      if node == NULL {
        n := First();
        return;
      }
      ghost var key := knots[node].key;
      ghost var m := RouteTo(knots, tree, NULL, NULL, node);
      SubWired(knots, tree, NULL, NULL, key, m);
      Between(knots, tree, NULL, NULL, key, m);
      NeighboursOutside(tree, NULL, NULL, key, m);
      WiredIds(knots, tree, NULL, NULL);
      ghost var t := Sub(tree, key, m);
      n := Ptr(knots[node], true);
      if HasChild(knots[node], true) {
        n := DownLeft(n, t.right, t.id, Hi(tree, key, m, NULL));
      }
    }

    /** The previous node in key order, the last one before null, null before the first. */
    method Previous(node: int) returns (n: int)
      requires Valid() && (node != NULL ==> IsNode(node))
      ensures node == NULL ==>
          if tree.Leaf? then n == NULL else IsNode(n) && forall x | x in Keys(tree) :: x <= knots[n].key
      ensures node != NULL && n == NULL ==> forall x | x in Keys(tree) :: x >= knots[node].key
      ensures node != NULL && n != NULL ==> IsNode(n) && knots[n].key < knots[node].key
      ensures node != NULL && n != NULL ==> forall x | x in Keys(tree) && x < knots[node].key :: x <= knots[n].key
    {
      if node == NULL {
        n := Last();
        return;
      }
      ghost var key := knots[node].key;
      ghost var m := RouteTo(knots, tree, NULL, NULL, node);
      SubWired(knots, tree, NULL, NULL, key, m);
      Between(knots, tree, NULL, NULL, key, m);
      NeighboursOutside(tree, NULL, NULL, key, m);
      WiredIds(knots, tree, NULL, NULL);
      ghost var t := Sub(tree, key, m);
      n := Ptr(knots[node], false);
      if HasChild(knots[node], false) {
        n := DownRight(n, t.left, Lo(tree, key, m, NULL), t.id);
      }
    }
  }
}
