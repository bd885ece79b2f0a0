/** AVL trees in memory: nodes in an arena, linked, rebalanced and rotated in place. */
module AvlTables {
  import opened AvlTrees

  /** A node. A link of -1 is null. */
  datatype Cell = Cell(left: int, right: int, key: int, balance: int)

  const NULL := -1

  /** Slots for cached descent paths. */
  const MAX_HEIGHT := 92

  function Link(t: Tree): int {
    if t.Leaf? then NULL else t.id
  }

  /** The tree is what the links say. */
  ghost predicate Shape(cells: seq<Cell>, t: Tree) {
    t.Node? ==>
      && t.id < |cells| && cells[t.id] == Cell(Link(t.left), Link(t.right), t.key, t.balance)
      && Shape(cells, t.left) && Shape(cells, t.right)
  }

  function Side(c: Cell, right: bool): int {
    if right then c.right else c.left
  }

  function WithSide(c: Cell, right: bool, link: int): Cell {
    if right then c.(right := link) else c.(left := link)
  }

  lemma ShapeFrame(cells: seq<Cell>, after: seq<Cell>, t: Tree)
    requires Shape(cells, t)
    requires forall id | id in Ids(t) :: id < |after| && (id < |cells| ==> after[id] == cells[id])
    ensures Shape(after, t)
  {
  }

  lemma ShapeIds(cells: seq<Cell>, t: Tree)
    requires Shape(cells, t)
    ensures forall id | id in Ids(t) :: id < |cells|
  {
  }

  // ---------------------------------------------------------------- the route to a key

  /** The subtree `m` steps down the route to `key`. */
  ghost function Sub(t: Tree, key: int, m: nat): Tree {
    if m == 0 || t.Leaf? then t else Sub(Toward(t, key), key, m - 1)
  }

  lemma {:induction false} SubNext(t: Tree, key: int, m: nat)
    requires Sub(t, key, m).Node?
    ensures Sub(t, key, m + 1) == Toward(Sub(t, key, m), key)
    decreases m
  {
    if m > 0 {
      SubNext(Toward(t, key), key, m - 1);
    }
  }

  lemma {:induction false} SubPrev(t: Tree, key: int, m: nat)
    requires Sub(t, key, m + 1).Node?
    ensures Sub(t, key, m).Node? && Sub(t, key, m + 1) == Toward(Sub(t, key, m), key)
    decreases m
  {
    if m > 0 {
      SubPrev(Toward(t, key), key, m - 1);
    }
  }

  lemma {:induction false} SubSub(t: Tree, key: int, m: nat, k: nat)
    requires Sub(t, key, m).Node?
    ensures Sub(t, key, m + k) == Sub(Sub(t, key, m), key, k)
    decreases m
  {
    if m > 0 {
      SubSub(Toward(t, key), key, m - 1, k);
    }
  }

  lemma {:induction false} SubKeeps(t: Tree, key: int, m: nat)
    requires Good(t)
    ensures Good(Sub(t, key, m)) && Ids(Sub(t, key, m)) <= Ids(t)
    ensures Sub(t, key, m).Node? ==> m + Height(Sub(t, key, m)) <= Height(t) && Sub(t, key, m).id in Ids(t)
    decreases m
  {
    if m > 0 && t.Node? {
      SubKeeps(Toward(t, key), key, m - 1);
    }
  }

  lemma {:induction false} SubShape(cells: seq<Cell>, t: Tree, key: int, m: nat)
    requires Shape(cells, t)
    ensures Shape(cells, Sub(t, key, m))
    decreases m
  {
    if m > 0 && t.Node? {
      SubShape(cells, Toward(t, key), key, m - 1);
    }
  }

  lemma TowardKeeps(t: Tree, key: int)
    requires Ordered(t) && t.Node? && key != t.key
    ensures key in Keys(t) <==> key in Keys(Toward(t, key))
  {
  }

  /** The tree with the subtree at that place replaced. */
  ghost function Put(t: Tree, key: int, m: nat, u: Tree): Tree {
    if m == 0 || t.Leaf? then u
    else if key < t.key then t.(left := Put(t.left, key, m - 1, u))
    else t.(right := Put(t.right, key, m - 1, u))
  }

  /** Outside the replaced subtree nothing changes but the link to it, in node `z`. */
  ghost predicate Elsewhere(cells: seq<Cell>, after: seq<Cell>, t: Tree, key: int, m: nat, z: int, link: int) {
    forall id | id in Ids(t) && id !in Ids(Sub(t, key, m)) && id < |cells| ::
      && id < |after|
      && after[id] == if id == z then WithSide(cells[id], key >= cells[id].key, link) else cells[id]
  }

  /** The node above the subtree, or null when that is the whole tree. */
  ghost function Parent(t: Tree, key: int, m: nat): int {
    if m == 0 then NULL else Link(Sub(t, key, m - 1))
  }

  function Away(t: Tree, key: int): Tree
    requires t.Node?
  {
    if key < t.key then t.right else t.left
  }

  lemma PutOne(cells: seq<Cell>, after: seq<Cell>, t: Tree, key: int, m: nat, z: int, link: int)
    requires Shape(cells, t) && Good(t) && m > 0 && Sub(t, key, m).Node? && t.Node?
    requires z == Parent(t, key, m) && Elsewhere(cells, after, t, key, m, z, link)
    ensures Elsewhere(cells, after, Toward(t, key), key, m - 1, if m == 1 then NULL else z, link)
    ensures Shape(after, Away(t, key))
    ensures t.id < |after| && after[t.id] == if m == 1 then WithSide(cells[t.id], key >= t.key, link) else cells[t.id]
  {
    var c := Toward(t, key);
    SubKeeps(c, key, m - 1);
    if m > 1 {
      ParentBelow(t, key, m);
    }
    assert Sub(t, key, m) == Sub(c, key, m - 1);
    ShapeIds(cells, t);
    forall id | id in Ids(Away(t, key)) ensures id < |cells| && id < |after| && after[id] == cells[id] {
      assert id in Ids(t) && id !in Ids(c) && id != t.id && id != z;
    }
    ShapeFrame(cells, after, Away(t, key));
  }

  lemma {:induction false} PutShape(cells: seq<Cell>, after: seq<Cell>, t: Tree, key: int, m: nat, u: Tree)
    requires Shape(cells, t) && Good(t) && Sub(t, key, m).Node?
    requires Elsewhere(cells, after, t, key, m, Parent(t, key, m), Link(u)) && Shape(after, u)
    ensures Shape(after, Put(t, key, m, u))
    ensures m > 0 ==> Link(Put(t, key, m, u)) == Link(t)
    decreases m
  {
    if m > 0 {
      hide Elsewhere, Good;
      PutOne(cells, after, t, key, m, Parent(t, key, m), Link(u));
      GoodToward(t, key);
      if m > 1 {
        ParentBelow(t, key, m);
      }
      PutShape(cells, after, Toward(t, key), key, m - 1, u);
    }
  }

  lemma GoodToward(t: Tree, key: int)
    requires Good(t) && t.Node?
    ensures Good(Toward(t, key))
  {
  }

  lemma ParentBelow(t: Tree, key: int, m: nat)
    requires Good(t) && m > 1 && Sub(t, key, m).Node?
    ensures t.Node? && Parent(t, key, m) == Parent(Toward(t, key), key, m - 1) && Sub(t, key, m - 1).Node?
    ensures Parent(t, key, m) != t.id && Parent(t, key, m) in Ids(Toward(t, key))
  {
    SubPrev(t, key, m - 1);
    NotBelow(t, key);
    hide Good, Distinct, Ids;
    SubKeeps(Toward(t, key), key, m - 2);
  }

  lemma NotBelow(t: Tree, key: int)
    requires Good(t)
    ensures t.Node? ==> Good(Toward(t, key)) && t.id !in Ids(Toward(t, key))
  {
  }

  /** Inserting works on the last node with a balance on the way, or on the root. */
  lemma {:induction false} PutInserted(t: Tree, key: int, n: nat, m: nat)
    requires Good(t) && Sub(t, key, m).Node? && (m > 0 ==> Sub(t, key, m).balance != 0)
    requires Calm(Toward(Sub(t, key, m), key), key)
    ensures Balanced(Sub(t, key, m)) && CanRotate(Grow(Sub(t, key, m), key, n))
    ensures Inserted(t, key, n) == Put(t, key, m, Rotate(Grow(Sub(t, key, m), key, n)))
    decreases m
  {
    if m == 0 {
      GrowRotates(t, key, n);
    } else {
      NotCalm(Toward(t, key), key, m - 1);
      PutInserted(Toward(t, key), key, n, m - 1);
    }
  }

  lemma {:induction false} NotCalm(t: Tree, key: int, m: nat)
    requires Sub(t, key, m).Node? && Sub(t, key, m).balance != 0
    ensures !Calm(t, key)
    decreases m
  {
    if m > 0 {
      NotCalm(Toward(t, key), key, m - 1);
    }
  }

  lemma {:induction false} PutExtends(t: Tree, key: int, m: nat, u: Tree)
    requires Extends(Sub(t, key, m), u) && Sub(t, key, m).Node?
    ensures Extends(t, Put(t, key, m, u))
    decreases m
  {
    if m > 0 {
      PutExtends(Toward(t, key), key, m - 1, u);
      ExtendsSelf(Away(t, key));
    }
  }

  // ---------------------------------------------------------------- the new leaf

  /** `t` with the new leaf linked and the balances of the first `j` nodes on the way there adjusted. */
  ghost function Grown(t: Tree, key: int, n: nat, j: nat): (u: Tree)
    ensures u.Node?
  {
    if t.Leaf? then Node(n, key, 0, Leaf, Leaf)
    else
      var rest := if j > 0 then j - 1 else 0;
      if key < t.key then t.(balance := if j > 0 then t.balance - 1 else t.balance, left := Grown(t.left, key, n, rest))
      else t.(balance := if j > 0 then t.balance + 1 else t.balance, right := Grown(t.right, key, n, rest))
  }

  ghost function Depth(t: Tree, key: int): nat {
    if t.Leaf? then 0 else 1 + Depth(Toward(t, key), key)
  }

  lemma {:induction false} GrownAll(t: Tree, key: int, n: nat, j: nat)
    requires j >= Depth(t, key)
    ensures Grown(t, key, n, j) == Grow(t, key, n)
    decreases t
  {
    if t.Node? {
      GrownAll(Toward(t, key), key, n, j - 1);
    }
  }

  lemma {:induction false} GrownIds(t: Tree, key: int, n: nat, j: nat)
    ensures Ids(Grown(t, key, n, j)) == Ids(t) + {n} && (Distinct(t) && n !in Ids(t) ==> Distinct(Grown(t, key, n, j)))
    ensures t.Node? ==> Link(Grown(t, key, n, j)) == t.id
    decreases t
  {
    if t.Node? {
      GrownIds(Toward(t, key), key, n, if j > 0 then j - 1 else 0);
    }
  }

  /** Linking the new leaf to the last node on the route. */
  lemma {:induction false} LinkLeaf(cells: seq<Cell>, after: seq<Cell>, t: Tree, key: int, q: int)
    requires Shape(cells, t) && Distinct(t) && t.Node? && q == Link(Sub(t, key, Depth(t, key) - 1))
    requires |after| == |cells| + 1 && after[|cells|] == Cell(NULL, NULL, key, 0)
    requires forall id | 0 <= id < |cells| ::
               after[id] == if id == q then WithSide(cells[id], key >= cells[id].key, |cells|) else cells[id]
    ensures Shape(after, Grown(t, key, |cells|, 0)) && q in Ids(t)
    decreases t
  {
    var c, n := Toward(t, key), |cells|;
    ShapeIds(cells, t);
    if c.Leaf? {
      assert q == t.id;
    } else {
      LinkLeaf(cells, after, c, key, q);
      assert q in Ids(c);
      GrownIds(c, key, n, 0);
    }
    forall id | id in Ids(Away(t, key)) ensures id < |cells| && id != q {
      assert id in Ids(t) && id !in Ids(c) && id != t.id;
    }
    ShapeFrame(cells, after, Away(t, key));
  }

  function Bumped(c: Cell, right: bool): Cell {
    c.(balance := if right then c.balance + 1 else c.balance - 1)
  }

  /** Adjusting one more balance on the way down. */
  lemma {:induction false} BumpOne(cells: seq<Cell>, t: Tree, key: int, n: nat, j: nat)
    requires Distinct(t) && n !in Ids(t) && j < Depth(t, key) && Shape(cells, Grown(t, key, n, j))
    ensures Sub(t, key, j).Node? && Sub(t, key, j).id in Ids(t) && Sub(t, key, j).id < |cells|
    ensures var id := Sub(t, key, j).id;
            && cells[id].key == Sub(t, key, j).key
            && Shape(cells[id := Bumped(cells[id], key >= cells[id].key)], Grown(t, key, n, j + 1))
    decreases t
  {
    var c := Toward(t, key);
    GrownIds(c, key, n, 0);
    ShapeIds(cells, Grown(t, key, n, j));
    GrownIds(t, key, n, j);
    var after := cells;
    if j == 0 {
      after := cells[t.id := Bumped(cells[t.id], key >= t.key)];
      ShapeFrame(cells, after, Grown(c, key, n, 0));
    } else {
      GrownIds(c, key, n, j - 1);
      GrownIds(c, key, n, j);
      BumpOne(cells, c, key, n, j - 1);
      var id := Sub(c, key, j - 1).id;
      after := cells[id := Bumped(cells[id], key >= cells[id].key)];
    }
    ShapeFrame(cells, after, Away(t, key));
  }

  // ---------------------------------------------------------------- the table

  /** Only nodes of the tree change, and their keys do not. */
  ghost predicate OnlyIn(before: seq<Cell>, after: seq<Cell>, ids: set<nat>) {
    && |after| == |before|
    && forall id | 0 <= id < |before| :: after[id].key == before[id].key && (id !in ids ==> after[id] == before[id])
  }

  /** The node is in memory as it should be; its subtrees are not looked at. */
  predicate Here(cells: seq<Cell>, t: Tree)
    requires t.Node?
  {
    t.id < |cells| && cells[t.id] == Cell(Link(t.left), Link(t.right), t.key, t.balance)
  }

  /** Nodes other than the rotated ones stay as they were. */
  ghost predicate Others(before: seq<Cell>, after: seq<Cell>, ids: set<nat>) {
    |after| == |before| && forall id: nat | id < |before| && id !in ids :: after[id] == before[id]
  }

  lemma FrameOthers(before: seq<Cell>, after: seq<Cell>, ids: set<nat>, t: Tree)
    requires Shape(before, t) && Others(before, after, ids) && Ids(t) !! ids
    ensures Shape(after, t)
  {
    ShapeIds(before, t);
    ShapeFrame(before, after, t);
  }

  lemma Assemble(cells: seq<Cell>, t: Tree)
    requires t.Node? && Here(cells, t) && Shape(cells, t.left) && Shape(cells, t.right)
    ensures Shape(cells, t)
  {
  }

  lemma SingleShape(before: seq<Cell>, after: seq<Cell>, x: Tree, y: Tree, a: Tree, b: Tree, c: Tree, top: Tree,
      under: Tree)
    requires Shape(before, a) && Shape(before, b) && Shape(before, c) && x.Node? && y.Node?
    requires {x.id, y.id} !! Ids(a) && {x.id, y.id} !! Ids(b) && {x.id, y.id} !! Ids(c)
    requires top.Node? && under.Node?
    requires Others(before, after, {x.id, y.id}) && Here(after, top) && Here(after, under)
    requires (top.left == a && top.right == under && under.left == b && under.right == c)
          || (top.right == c && top.left == under && under.left == a && under.right == b)
    ensures Shape(after, top)
  {
    hide Others, Ids, Shape, Here;
    FrameOthers(before, after, {x.id, y.id}, a);
    FrameOthers(before, after, {x.id, y.id}, b);
    FrameOthers(before, after, {x.id, y.id}, c);
    Assemble(after, under);
    Assemble(after, top);
  }

  lemma Framed(before: seq<Cell>, after: seq<Cell>, ids: set<nat>, t: Tree)
    requires t.Node? && Shape(before, t.left) && Shape(before, t.right) && ids !! Ids(t.left) && ids !! Ids(t.right)
    requires Others(before, after, ids) && Here(after, t)
    ensures Shape(after, t)
  {
    hide Others, Ids, Shape, Here;
    FrameOthers(before, after, ids, t.left);
    FrameOthers(before, after, ids, t.right);
    Assemble(after, t);
  }

  ghost predicate Unrotated(before: seq<Cell>, ids: set<nat>, t: Tree) {
    t.Node? && Shape(before, t.left) && Shape(before, t.right) && ids !! Ids(t.left) && ids !! Ids(t.right)
  }

  lemma DoubleShape(before: seq<Cell>, after: seq<Cell>, ids: set<nat>, top: Tree)
    requires top.Node? && Unrotated(before, ids, top.left) && Unrotated(before, ids, top.right)
    requires Others(before, after, ids) && Here(after, top) && Here(after, top.left) && Here(after, top.right)
    ensures Shape(after, top)
  {
    Framed(before, after, ids, top.left);
    Framed(before, after, ids, top.right);
    Assemble(after, top);
  }

  /** The nodes next to the root of a tree are apart from everything else. */
  lemma Apart(t: Tree)
    requires Distinct(t) && t.Node?
    ensures t.left.Node? ==>
        t.left.id != t.id && {t.id, t.left.id} !! Ids(t.left.left) && {t.id, t.left.id} !! Ids(t.left.right)
        && {t.id, t.left.id} !! Ids(t.right)
    ensures t.right.Node? ==>
        t.right.id != t.id && {t.id, t.right.id} !! Ids(t.right.left) && {t.id, t.right.id} !! Ids(t.right.right)
        && {t.id, t.right.id} !! Ids(t.left)
  {
    assert Distinct(t.left) && Distinct(t.right);
  }

  lemma ApartTwo(t: Tree)
    requires Distinct(t) && CanRotate(t) && (t.balance == -2 || t.balance == 2)
    requires t.balance == -2 ==> t.left.balance != -1
    requires t.balance == 2 ==> t.right.balance != 1
    ensures var u := Rotate(t);
            && u.left.Node? && u.right.Node?
            && var ids := {u.id, u.left.id, u.right.id};
               && ids !! Ids(u.left.left) && ids !! Ids(u.left.right) && ids !! Ids(u.right.left)
                   && ids !! Ids(u.right.right)
               && ids <= Ids(t) && u.id != u.left.id && u.id != u.right.id && u.left.id != u.right.id
  {
    if t.balance == -2 {
      Apart(t);
      Apart(t.left);
    } else {
      Apart(t);
      Apart(t.right);
    }
  }

  /** The three nodes of a double rotation in memory, and the subtrees it moves. */
  lemma DoubleParts(cells: seq<Cell>, t: Tree)
    requires Shape(cells, t) && Distinct(t) && CanRotate(t) && (t.balance == -2 || t.balance == 2)
    requires t.balance == -2 ==> t.left.balance != -1
    requires t.balance == 2 ==> t.right.balance != 1
    ensures var x := if t.balance == -2 then t.left else t.right;
            var w := if t.balance == -2 then x.right else x.left;
            var u, ids := Rotate(t), {t.id, x.id, w.id};
            && Here(cells, t) && Here(cells, x) && Here(cells, w) && x.id != t.id && w.id != x.id && w.id != t.id
            && ids <= Ids(t) && Unrotated(cells, ids, u.left) && Unrotated(cells, ids, u.right)
  {
    var x := if t.balance == -2 then t.left else t.right;
    assert Shape(cells, x) && Shape(cells, if t.balance == -2 then x.right else x.left);
    ApartTwo(t);
  }

  // ---------------------------------------------------------------- the descent

  ghost predicate TurnOk(t: Tree, key: int, d: nat, right: bool) {
    Sub(t, key, d).Node? && right == (key > Sub(t, key, d).key) && key != Sub(t, key, d).key
  }

  ghost predicate TurnsOk(t: Tree, key: int, m: nat, k: nat, da: seq<bool>) {
    k <= |da| && forall j | 0 <= j < k :: TurnOk(t, key, m + j, da[j])
  }

  /** Node `p` is `m + k` steps down the route, and `y` the last one before it with a balance, `m` steps down. */
  ghost predicate Going(t: Tree, key: int, m: nat, k: nat, z: int, y: int, q: int, p: int, dir: bool, da: seq<bool>) {
    var ty, tp := Sub(t, key, m), Sub(t, key, m + k);
    && p == Link(tp) && y == Link(ty) && z == Parent(t, key, m) && q == Parent(t, key, m + k)
    && (key in Keys(t) <==> key in Keys(tp))
    && (if k == 0 then m == 0
        else
          && ty.Node? && (m > 0 ==> ty.balance != 0)
          && (Calm(tp, key) ==> Calm(Toward(ty, key), key))
          && k <= |da| && dir == da[k - 1])
    && Depth(ty, key) == k + Depth(tp, key)
    && TurnsOk(t, key, m, k, da)
  }

  lemma AtNode(cells: seq<Cell>, t: Tree, key: int, m: nat, k: nat, z: int, y: int, q: int, p: int, dir: bool,
      da: seq<bool>)
    requires Shape(cells, t) && Good(t) && Height(t) <= |da|
    requires Going(t, key, m, k, z, y, q, p, dir, da) && p != NULL
    ensures var tp := Sub(t, key, m + k);
            && tp.Node? && 0 <= p < |cells| && k < |da| && p in Ids(t)
            && cells[p] == Cell(Link(tp.left), Link(tp.right), tp.key, tp.balance)
            && Sub(t, key, m + k + 1) == Toward(tp, key) && Height(Toward(tp, key)) < Height(tp)
            && (key == tp.key ==> key in Keys(t))
            && (key != tp.key ==> (key in Keys(t) <==> key in Keys(Toward(tp, key))))
  {
    SubKeeps(t, key, m + k);
    SubShape(cells, t, key, m + k);
    SubNext(t, key, m + k);
    if key != Sub(t, key, m + k).key {
      TowardKeeps(Sub(t, key, m + k), key);
    }
  }

  lemma TurnsMore(t: Tree, key: int, m: nat, k: nat, da: seq<bool>, right: bool)
    requires TurnsOk(t, key, m, k, da) && k < |da|
    requires Sub(t, key, m + k).Node? && right == (key > Sub(t, key, m + k).key) && key != Sub(t, key, m + k).key
    ensures TurnsOk(t, key, m, k + 1, da[k := right])
  {
    var turns := da[k := right];
    forall j | 0 <= j < k + 1 ensures TurnOk(t, key, m + j, turns[j]) {
      assert j < k ==> turns[j] == da[j];
    }
  }

  lemma GoOn(t: Tree, key: int, m: nat, k: nat, z: int, y: int, q: int, p: int, dir: bool, da: seq<bool>, right: bool)
    requires Going(t, key, m, k, z, y, q, p, dir, da) && k < |da|
    requires var tp := Sub(t, key, m + k);
             && tp.Node? && key != tp.key && right == (key > tp.key) && tp.balance == 0
             && Sub(t, key, m + k + 1) == Toward(tp, key)
             && (key in Keys(t) <==> key in Keys(Toward(tp, key)))
    ensures Going(t, key, m, k + 1, z, y, p, Link(Toward(Sub(t, key, m + k), key)), right, da[k := right])
  {
    var ty, tp, turns := Sub(t, key, m), Sub(t, key, m + k), da[k := right];
    TurnsMore(t, key, m, k, da, right);
    assert Calm(Toward(tp, key), key) ==> Calm(Toward(ty, key), key);
    assert Depth(ty, key) == k + 1 + Depth(Toward(tp, key), key);
    assert p == Parent(t, key, m + (k + 1));
    assert key in Keys(t) <==> key in Keys(Sub(t, key, m + (k + 1)));
    hide Keys;
  }

  lemma GoOver(t: Tree, key: int, m: nat, k: nat, z: int, y: int, q: int, p: int, dir: bool, da: seq<bool>, right: bool)
    requires Going(t, key, m, k, z, y, q, p, dir, da) && k < |da|
    requires var tp := Sub(t, key, m + k);
             && tp.Node? && key != tp.key && right == (key > tp.key) && tp.balance != 0
             && Sub(t, key, m + k + 1) == Toward(tp, key)
             && (key in Keys(t) <==> key in Keys(Toward(tp, key)))
    ensures Going(t, key, m + k, 1, q, p, p, Link(Toward(Sub(t, key, m + k), key)), right, da[0 := right])
  {
    hide Keys;
  }

  /** Where the descent ends: the last node on the route, below node `y`. */
  lemma Arrived(cells: seq<Cell>, t: Tree, key: int, m: nat, k: nat, z: int, y: int, q: int, dir: bool, da: seq<bool>)
    requires Shape(cells, t) && Good(t) && Going(t, key, m, k, z, y, q, NULL, dir, da)
    ensures (y == NULL <==> t.Leaf?) && (t.Leaf? ==> q == NULL)
    ensures t.Node? ==>
              var ty := Sub(t, key, m);
              && ty.Node? && y == ty.id && Good(ty) && Distinct(ty) && Shape(cells, ty) && Ids(ty) <= Ids(t)
              && 0 < k == Depth(ty, key) <= |da| && q == Link(Sub(ty, key, k - 1)) && 0 <= q < |cells|
              && dir == (key >= cells[q].key) && TurnsBelow(ty, key, k, da)
              && Calm(Toward(ty, key), key) && (m > 0 ==> ty.balance != 0) && z == Parent(t, key, m)
  {
    if t.Node? {
      var ty := Sub(t, key, m);
      SubKeeps(t, key, m);
      SubShape(cells, t, key, m);
      hide Good;
      SubSub(t, key, m, k - 1);
      SubShape(cells, t, key, m + k - 1);
      assert TurnOk(t, key, m + (k - 1), da[k - 1]);
      forall j | 0 <= j < k ensures TurnOk(ty, key, j, da[j]) {
        assert TurnOk(t, key, m + j, da[j]);
        SubSub(t, key, m, j);
      }
    }
  }

  ghost predicate TurnsBelow(t: Tree, key: int, k: nat, da: seq<bool>) {
    k <= |da| && forall j | 0 <= j < k :: TurnOk(t, key, j, da[j])
  }

  /** The node `j` steps down the route, the new leaf after the last. */
  ghost function StepOf(t: Tree, key: int, n: nat, j: nat): int {
    if Sub(t, key, j).Node? then Sub(t, key, j).id else n
  }

  lemma {:induction false} NextStep(cells: seq<Cell>, t: Tree, key: int, n: nat, i: nat, j: nat)
    requires Shape(cells, Grown(t, key, n, j)) && Sub(t, key, i).Node?
    ensures Sub(t, key, i).id < |cells|
    ensures Side(cells[Sub(t, key, i).id], key >= Sub(t, key, i).key) == StepOf(t, key, n, i + 1)
    decreases i
  {
    var c := Toward(t, key);
    assert Sub(t, key, i + 1) == Sub(c, key, i);
    if i > 0 {
      NextStep(cells, c, key, n, i - 1, if j > 0 then j - 1 else 0);
    } else {
      GrownIds(c, key, n, if j > 0 then j - 1 else 0);
    }
  }

  lemma {:induction false} DepthSub(t: Tree, key: int, j: nat)
    ensures Sub(t, key, j).Node? <==> j < Depth(t, key)
    decreases j
  {
    if j > 0 && t.Node? {
      DepthSub(Toward(t, key), key, j - 1);
    }
  }

  lemma ParentApart(cells: seq<Cell>, t: Tree, key: int, m: nat)
    requires Shape(cells, t) && Good(t) && Sub(t, key, m).Node? && m > 0
    ensures var z := Parent(t, key, m);
            && 0 <= z < |cells| && z in Ids(t) && z !in Ids(Sub(t, key, m))
            && (key >= cells[z].key) == (Sub(t, key, m).id != cells[z].left)
            && Side(cells[z], key >= cells[z].key) == Sub(t, key, m).id
  {
    SubPrev(t, key, m - 1);
    SubKeeps(t, key, m - 1);
    SubShape(cells, t, key, m - 1);
    var u := Sub(t, key, m - 1);
    assert u.left.Node? ==> u.left.id in Ids(u.left);
    assert u.right.Node? ==> u.right.id in Ids(u.right);
  }

  /** The new subtree is in place, and so the new tree. */
  lemma Installed(before: seq<Cell>, mid: seq<Cell>, after: seq<Cell>, t: Tree, key: int, n: nat, m: nat, u: Tree)
    requires Shape(before, t) && Good(t) && Sub(t, key, m).Node? && n == |before| && |mid| == |after| == n + 1
    requires Shape(mid, u) && Ids(u) == Ids(Sub(t, key, m)) + {n}
    requires forall id: nat | id < n && id !in Ids(Sub(t, key, m)) :: mid[id] == before[id]
    requires var z := Parent(t, key, m);
             if m == 0 then after == mid
             else 0 <= z < |mid| && after == mid[z := WithSide(mid[z], key >= mid[z].key, Link(u))]
    ensures Shape(after, Put(t, key, m, u))
    ensures m > 0 ==> Link(Put(t, key, m, u)) == Link(t)
  {
    var z := Parent(t, key, m);
    if m > 0 {
      ParentApart(before, t, key, m);
      ShapeFrame(mid, after, u) by {
        ShapeIds(mid, u);
        forall id | id in Ids(u) ensures id < |after| && after[id] == mid[id] {
        }
      }
    }
    assert Elsewhere(before, after, t, key, m, z, Link(u));
    PutShape(before, after, t, key, m, u);
  }

  /** Nodes keep their keys. */
  ghost predicate KeysStay(before: seq<Cell>, after: seq<Cell>) {
    |before| <= |after| && forall id: nat | id < |before| :: after[id].key == before[id].key
  }

  class AvlTable {
    var root: int
    var cells: seq<Cell>
    var count: nat
    /** Goes up with every rotation. */
    var generation: int
    ghost var tree: Tree

    ghost predicate Valid()
      reads this
    {
      root == Link(tree) && Shape(cells, tree) && Good(tree) && Size(tree) == count
    }

    constructor ()
      ensures Valid() && tree == Leaf && cells == []
    {
      root, cells, count, generation, tree := NULL, [], 0, 0, Leaf;
    }

    /** Rotate a node that leans left by two. */
    method LeanLeft(y: nat, ghost t: Tree) returns (w: nat)
      requires Shape(cells, t) && Distinct(t) && CanRotate(t) && t.id == y && t.balance == -2
      modifies `cells
      ensures Shape(cells, Rotate(t)) && w == Rotate(t).id && OnlyIn(old(cells), cells, Ids(t))
    {
      ghost var before := cells;
      Apart(t);
      assert Shape(cells, t.left) && Distinct(t.left);
      var x: nat := cells[y].left;
      if cells[x].balance == -1 {
        w := x;
        cells := cells[y := cells[y].(left := cells[x].right)];
        cells := cells[x := cells[x].(right := y)];
        cells := cells[x := cells[x].(balance := 0)][y := cells[y].(balance := 0)];
        SingleShape(before, cells, t.left, t, t.left.left, t.left.right, t.right, Rotate(t), Rotate(t).right);
      } else {
        w := DoubleLeft(x, y, t);
      }
    }

    method DoubleLeft(x: nat, y: nat, ghost t: Tree) returns (w: nat)
      requires Shape(cells, t) && Distinct(t) && CanRotate(t) && t.id == y && t.balance == -2
      requires t.left.id == x && t.left.balance != -1
      modifies `cells
      ensures Shape(cells, Rotate(t)) && w == Rotate(t).id && OnlyIn(old(cells), cells, Ids(t))
    {
      ghost var before := cells;
      ghost var u := Rotate(t);
      DoubleParts(cells, t);
      w := cells[x].right;
      ghost var ids := {y, x, w};
      hide Shape, Ids, Distinct, CanRotate, Rotate, Height, Keys, Unrotated;
      cells := cells[x := cells[x].(right := cells[w].left)];
      cells := cells[w := cells[w].(left := x)];
      cells := cells[y := cells[y].(left := cells[w].right)];
      cells := cells[w := cells[w].(right := y)];
      if cells[w].balance == -1 {
        cells := cells[x := cells[x].(balance := 0)][y := cells[y].(balance := 1)];
      } else if cells[w].balance == 0 {
        cells := cells[x := cells[x].(balance := 0)][y := cells[y].(balance := 0)];
      } else {
        cells := cells[x := cells[x].(balance := -1)][y := cells[y].(balance := 0)];
      }
      cells := cells[w := cells[w].(balance := 0)];
      DoubleShape(before, cells, ids, u);
    }

    /** Rotate a node that leans right by two. */
    method LeanRight(y: nat, ghost t: Tree) returns (w: nat)
      requires Shape(cells, t) && Distinct(t) && CanRotate(t) && t.id == y && t.balance == 2
      modifies `cells
      ensures Shape(cells, Rotate(t)) && w == Rotate(t).id && OnlyIn(old(cells), cells, Ids(t))
    {
      ghost var before := cells;
      Apart(t);
      assert Shape(cells, t.right) && Distinct(t.right);
      var x: nat := cells[y].right;
      if cells[x].balance == 1 {
        w := x;
        cells := cells[y := cells[y].(right := cells[x].left)];
        cells := cells[x := cells[x].(left := y)];
        cells := cells[x := cells[x].(balance := 0)][y := cells[y].(balance := 0)];
        SingleShape(before, cells, t.right, t, t.left, t.right.left, t.right.right, Rotate(t), Rotate(t).left);
      } else {
        w := DoubleRight(x, y, t);
      }
    }

    method DoubleRight(x: nat, y: nat, ghost t: Tree) returns (w: nat)
      requires Shape(cells, t) && Distinct(t) && CanRotate(t) && t.id == y && t.balance == 2
      requires t.right.id == x && t.right.balance != 1
      modifies `cells
      ensures Shape(cells, Rotate(t)) && w == Rotate(t).id && OnlyIn(old(cells), cells, Ids(t))
    {
      ghost var before := cells;
      ghost var u := Rotate(t);
      DoubleParts(cells, t);
      w := cells[x].left;
      ghost var ids := {y, x, w};
      hide Shape, Ids, Distinct, CanRotate, Rotate, Height, Keys, Unrotated;
      cells := cells[x := cells[x].(left := cells[w].right)];
      cells := cells[w := cells[w].(right := x)];
      cells := cells[y := cells[y].(right := cells[w].left)];
      cells := cells[w := cells[w].(left := y)];
      if cells[w].balance == 1 {
        cells := cells[x := cells[x].(balance := 0)][y := cells[y].(balance := -1)];
      } else if cells[w].balance == 0 {
        cells := cells[x := cells[x].(balance := 0)][y := cells[y].(balance := 0)];
      } else {
        cells := cells[x := cells[x].(balance := 1)][y := cells[y].(balance := 0)];
      }
      cells := cells[w := cells[w].(balance := 0)];
      DoubleShape(before, cells, ids, u);
    }

    lemma HeightFits()
      requires Valid() && count + 1 < Fib(MAX_HEIGHT + 3)
      ensures Height(tree) <= MAX_HEIGHT
    {
      HeightBound(tree, MAX_HEIGHT);
    }

    /** Go down to where `key` is or belongs, remembering the last node with a balance and the turns after it. */
    method Descend(key: int) returns (found: int, z: int, y: int, q: int, dir: bool, da: array<bool>, k: nat,
        ghost m: nat)
      requires Valid() && count + 1 < Fib(MAX_HEIGHT + 3)
      ensures fresh(da)
      ensures found != NULL ==>
          found in Ids(tree) && 0 <= found < |cells| && cells[found].key == key && key in Keys(tree)
      ensures found == NULL ==> key !in Keys(tree) && Going(tree, key, m, k, z, y, q, NULL, dir, da[..])
    {
      HeightFits();
      hide Good, Keys, Ids, Going;
      da := new bool[MAX_HEIGHT];
      m, k := 0, 0;
      z, y, dir := NULL, root, false;
      q, found := z, NULL;
      var p := y;
      GoFirst(tree, key, y, dir, da[..]);
      while p != NULL
        invariant da.Length == MAX_HEIGHT && Going(tree, key, m, k, z, y, q, p, dir, da[..])
        decreases Height(Sub(tree, key, m + k))
      {
        AtNode(cells, tree, key, m, k, z, y, q, p, dir, da[..]);
        var c := cells[p];
        if key == c.key {
          found := p;
          return;
        }
        ghost var turns, right := da[..], key > c.key;
        if c.balance != 0 {
          GoOver(tree, key, m, k, z, y, q, p, dir, turns, right);
          z, y := q, p;
          m := m + k;
          k := 0;
        } else {
          GoOn(tree, key, m, k, z, y, q, p, dir, turns, right);
        }
        dir := key > c.key;
        da[k] := dir;
        assert da[..] == turns[k := right];
        k := k + 1;
        q := p;
        p := Side(c, dir);
      }
      GoneAll(tree, key, m, k, z, y, q, dir, da[..]);
    }

    /** Follow the turns from `y` to the new leaf and adjust the balances. */
    method AdjustBalances(key: int, y: nat, n: nat, da: array<bool>, ghost ty: Tree)
      requires Shape(cells, Grown(ty, key, n, 0)) && Distinct(ty) && n !in Ids(ty) && ty.Node? && y == ty.id
      requires TurnsBelow(ty, key, Depth(ty, key), da[..])
      modifies `cells
      ensures Shape(cells, Grow(ty, key, n)) && OnlyIn(old(cells), cells, Ids(ty))
    {
      hide Shape, Ids, Distinct, TurnsBelow;
      var p: int, k := y, 0;
      while p != n
        invariant k <= Depth(ty, key) && p == StepOf(ty, key, n, k)
        invariant Shape(cells, Grown(ty, key, n, k)) && OnlyIn(old(cells), cells, Ids(ty))
        decreases Depth(ty, key) - k
      {
        DepthSub(ty, key, k);
        BumpOne(cells, ty, key, n, k);
        assert TurnOk(ty, key, k, da[..][k]) by { TurnAt(ty, key, Depth(ty, key), da[..], k); }
        cells := cells[p := Bumped(cells[p], da[k])];
        NextStep(cells, ty, key, n, k, k + 1);
        NotNew(ty, key, n, k + 1);
        p := Side(cells[p], da[k]);
        k := k + 1;
      }
      NotNew(ty, key, n, k);
      GrownAll(ty, key, n, k);
    }

    /** Rotate at `y` if it leans by two. */
    method Rebalance(y: nat, ghost t: Tree) returns (rotated: bool, w: nat)
      requires Shape(cells, t) && Distinct(t) && CanRotate(t) && t.id == y && -2 <= t.balance <= 2
      modifies `cells
      ensures Shape(cells, Rotate(t)) && OnlyIn(old(cells), cells, Ids(t))
      ensures rotated == (t.balance == -2 || t.balance == 2)
          && (if rotated then w == Rotate(t).id else cells == old(cells))
    {
      rotated, w := false, y;
      if cells[y].balance == -2 {
        w := LeanLeft(y, t);
        rotated := true;
      } else if cells[y].balance == 2 {
        w := LeanRight(y, t);
        rotated := true;
      }
    }

    /** Hang a new node from node `q`, or make it the root. */
    method Attach(key: int, q: int, dir: bool) returns (n: nat)
      requires q == NULL || 0 <= q < |cells|
      modifies `cells, `root, `count
      ensures n == |old(cells)| && |cells| == n + 1 && cells[n] == Cell(NULL, NULL, key, 0) && count == old(count) + 1
      ensures forall id: nat | id < n ::
                cells[id] == if id == q then WithSide(old(cells)[id], dir, n) else old(cells)[id]
      ensures root == if q == NULL then n else old(root)
    {
      n := |cells|;
      cells := cells + [Cell(NULL, NULL, key, 0)];
      if q == NULL {
        root := n;
      } else {
        cells := cells[q := WithSide(cells[q], dir, n)];
      }
      count := count + 1;
    }

    /** Let node `z` point to the rotated subtree, or make that the root. */
    method Relink(z: int, y: nat, w: nat)
      requires z == NULL || 0 <= z < |cells|
      modifies `cells, `root, `generation
      ensures generation == old(generation) + 1
      ensures if z == NULL then root == w && cells == old(cells)
              else root == old(root) && cells == old(cells)[z := WithSide(old(cells)[z], y != old(cells)[z].left, w)]
    {
      if z == NULL {
        root := w;
      } else {
        cells := cells[z := WithSide(cells[z], y != cells[z].left, w)];
      }
      generation := generation + 1;
    }

    /** Repair the tree above a new leaf. */
    method Repair(key: int, z: int, y: nat, n: nat, da: array<bool>, ghost m: nat, ghost t: Tree,
        ghost before: seq<Cell>)
      requires Shape(before, t) && Good(t) && key !in Keys(t) && n == |before| && |cells| == n + 1 && root == Link(t)
      requires Sub(t, key, m).Node? && y == Sub(t, key, m).id && z == Parent(t, key, m)
      requires Calm(Toward(Sub(t, key, m), key), key) && (m > 0 ==> Sub(t, key, m).balance != 0)
      requires Shape(cells, Grown(Sub(t, key, m), key, n, 0))
      requires forall id: nat | id < n && id !in Ids(Sub(t, key, m)) :: cells[id] == before[id]
      requires TurnsBelow(Sub(t, key, m), key, Depth(Sub(t, key, m), key), da[..])
      modifies `cells, `root, `generation
      ensures Shape(cells, Inserted(t, key, n)) && root == Link(Inserted(t, key, n)) && KeysStay(old(cells), cells)
          && |cells| == n + 1
      ensures generation == old(generation) + if Extends(t, Inserted(t, key, n)) then 0 else 1
    {
      ghost var ty := Sub(t, key, m);
      ghost var grown := Grow(ty, key, n);
      PutInserted(t, key, n, m);
      FreshLeaf(before, t, key, n, m);
      if m > 0 {
        ParentApart(before, t, key, m);
      }
      hide Shape, Good, Ids, Keys, Distinct, Sub, Put, Inserted, Grow, Grown, Rotate, CanRotate, TurnsBelow, Depth,
          Calm, Extends;
      AdjustBalances(key, y, n, da, ty);
      var rotated, w := Rebalance(y, grown);
      ghost var mid := cells;
      if rotated {
        Relink(z, y, w);
        Installed(before, mid, cells, t, key, n, m, Rotate(grown));
        RotatedMoves(ty, key, n);
        PutMoves(t, key, m, Rotate(grown));
      } else {
        NoRotation(grown);
        StillLinked(before, mid, t, key, m);
        Installed(before, mid, cells, t, key, n, m, grown);
        PutExtends(t, key, m, grown);
      }
    }

    /** Add a key that is not there. */
    method AddKey(key: int, z: int, y: int, q: int, dir: bool, da: array<bool>, k: nat, ghost m: nat)
      returns (slot: nat)
      requires Valid() && key !in Keys(tree) && Going(tree, key, m, k, z, y, q, NULL, dir, da[..])
      modifies this
      ensures slot == |old(cells)| && |cells| == slot + 1 && cells[slot].key == key && KeysStay(old(cells), cells)
      ensures Shape(cells, Inserted(old(tree), key, slot)) && root == Link(Inserted(old(tree), key, slot))
      ensures tree == old(tree) && count == old(count) + 1
      ensures generation == old(generation) + if Extends(tree, Inserted(tree, key, slot)) then 0 else 1
    {
      hide Good, Shape, Ids, Keys, Sub, Calm, Depth, Inserted, TurnsBelow, Going, Distinct, Balanced, Extends, Size;
      ghost var before, t := cells, tree;
      Arrived(cells, tree, key, m, k, z, y, q, dir, da[..]);
      slot := Attach(key, q, dir);
      if y == NULL {
        FirstNode(cells, t, key, slot);
      } else {
        LinkLeaf(before, cells, Sub(t, key, m), key, q);
        Repair(key, z, y, slot, da, m, t, before);
      }
    }

    /** Add a key, or find it. Nodes stay where they are unless something is rotated. */
    method Probe(key: int) returns (slot: nat, added: bool)
      requires Valid() && count + 1 < Fib(MAX_HEIGHT + 3)
      modifies this
      ensures Valid()
      ensures added == (key !in old(Keys(tree)))
      ensures tree == if added then Inserted(old(tree), key, slot) else old(tree)
      ensures Keys(tree) == old(Keys(tree)) + {key} && count == old(count) + if added then 1 else 0
      ensures slot in Ids(tree) && slot < |cells| && cells[slot].key == key
      ensures !added ==> tree == old(tree) && cells == old(cells) && generation == old(generation)
      ensures KeysStay(old(cells), cells) && Ids(old(tree)) <= Ids(tree)
      ensures generation == old(generation) + if Extends(old(tree), tree) then 0 else 1
    {
      GoodParts(cells, tree);
      hide Good, Shape, Ids, Keys, Inserted, Going, Balanced, Extends, Size;
      var found, z, y, q, dir, da, k, m := Descend(key);
      if found != NULL {
        ExtendsSelf(tree);
        return found, false;
      }
      slot := AddKey(key, z, y, q, dir, da, k, m);
      added := true;
      InsertedGood(tree, key, slot);
      tree := Inserted(tree, key, slot);
    }
  }

  /** A rotation puts another node where the old root was. */
  lemma RotatedMoves(t: Tree, key: int, n: nat)
    requires t.Node? && Distinct(Grow(t, key, n)) && CanRotate(Grow(t, key, n))
    requires Grow(t, key, n).balance == -2 || Grow(t, key, n).balance == 2
    ensures Grow(t, key, n).Node? && Rotate(Grow(t, key, n)).id != t.id
  {
    var u := Grow(t, key, n);
    if u.balance == -2 {
      assert u.left.id in Ids(u.left) && (u.left.right.Node? ==> u.left.right.id in Ids(u.left));
    } else {
      assert u.right.id in Ids(u.right) && (u.right.left.Node? ==> u.right.left.id in Ids(u.right));
    }
  }

  lemma {:induction false} PutMoves(t: Tree, key: int, m: nat, u: Tree)
    requires Sub(t, key, m).Node? && u.Node? && u.id != Sub(t, key, m).id
    ensures !Extends(t, Put(t, key, m, u))
    decreases m
  {
    if m > 0 {
      PutMoves(Toward(t, key), key, m - 1, u);
    }
  }

  lemma GoodParts(cells: seq<Cell>, t: Tree)
    requires Shape(cells, t) && Good(t)
    ensures Balanced(t) && Distinct(t) && (forall id | id in Ids(t) :: id < |cells|)
  {
    ShapeIds(cells, t);
  }

  lemma FreshLeaf(before: seq<Cell>, t: Tree, key: int, n: nat, m: nat)
    requires Shape(before, t) && Good(t) && n == |before| && Sub(t, key, m).Node?
        && Calm(Toward(Sub(t, key, m), key), key)
    ensures var ty := Sub(t, key, m);
            var grown := Grow(ty, key, n);
            && n !in Ids(t) && n !in Ids(ty) && Distinct(ty) && Distinct(grown) && Ids(grown) == Ids(ty) + {n}
            && grown.id == ty.id && -2 <= grown.balance <= 2 && CanRotate(grown) && Ids(Rotate(grown)) == Ids(grown)
            && Extends(ty, grown)
  {
    var ty := Sub(t, key, m);
    ShapeIds(before, t);
    SubKeeps(t, key, m);
    GrowKeys(ty, key, n);
    GrowDistinct(ty, key, n);
    GrowRotates(ty, key, n);
    RotateAlike(Grow(ty, key, n));
    GrowExtends(ty, key, n);
  }

  lemma NoRotation(u: Tree)
    requires CanRotate(u) && -2 < u.balance < 2
    ensures Rotate(u) == u
  {
  }

  lemma StillLinked(before: seq<Cell>, mid: seq<Cell>, t: Tree, key: int, m: nat)
    requires Shape(before, t) && Good(t) && Sub(t, key, m).Node? && |before| <= |mid|
    requires forall id: nat | id < |before| && id !in Ids(Sub(t, key, m)) :: mid[id] == before[id]
    ensures m > 0 ==> var z := Parent(t, key, m);
              0 <= z < |mid| && mid == mid[z := WithSide(mid[z], key >= mid[z].key, Sub(t, key, m).id)]
  {
    if m > 0 {
      ParentApart(before, t, key, m);
    }
  }

  lemma FirstNode(cells: seq<Cell>, t: Tree, key: int, n: nat)
    requires t.Leaf? && n < |cells| && cells[n] == Cell(NULL, NULL, key, 0)
    ensures Shape(cells, Inserted(t, key, n)) && Link(Inserted(t, key, n)) == n && Extends(t, Inserted(t, key, n))
  {
  }

  lemma TurnAt(t: Tree, key: int, k: nat, da: seq<bool>, j: nat)
    requires TurnsBelow(t, key, k, da) && j < k
    ensures j < |da| && TurnOk(t, key, j, da[j])
  {
  }

  lemma {:induction false} NotNew(t: Tree, key: int, n: nat, j: nat)
    requires n !in Ids(t)
    ensures j < Depth(t, key) <==> StepOf(t, key, n, j) != n
    decreases j
  {
    if j > 0 && t.Node? {
      NotNew(Toward(t, key), key, n, j - 1);
    }
  }

  lemma GoFirst(t: Tree, key: int, y: int, dir: bool, da: seq<bool>)
    requires y == Link(t)
    ensures Going(t, key, 0, 0, NULL, y, NULL, y, dir, da)
  {
  }

  lemma GoneAll(t: Tree, key: int, m: nat, k: nat, z: int, y: int, q: int, dir: bool, da: seq<bool>)
    requires Going(t, key, m, k, z, y, q, NULL, dir, da)
    ensures key !in Keys(t)
  {
  }
}
