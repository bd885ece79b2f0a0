/** Threaded AVL trees in memory: an empty side of a node links to the node's neighbour in key order. */
module ThreadedTrees {
  import opened AvlTrees
  import opened AvlDeletions
  import opened AvlTables

  /** A node. A link that is no child link is a thread; -1 is null. */
  datatype Knot = Knot(left: int, right: int, leftChild: bool, rightChild: bool, key: int, balance: int)

  /** Slots for cached turns. */
  const MOST_TURNS := 32

  function Ptr(c: Knot, right: bool): int {
    if right then c.right else c.left
  }

  function HasChild(c: Knot, right: bool): bool {
    if right then c.rightChild else c.leftChild
  }

  function WithPtr(c: Knot, right: bool, link: int): Knot {
    if right then c.(right := link) else c.(left := link)
  }

  function WithTag(c: Knot, right: bool, child: bool): Knot {
    if right then c.(rightChild := child) else c.(leftChild := child)
  }

  /** The link to a subtree, or past it to the neighbour when it is empty. */
  function LinkTo(t: Tree, neighbour: int): int {
    if t.Leaf? then neighbour else t.id
  }

  /** What the node at the root of `t` must hold when its tree lies between nodes `lo` and `hi`. */
  function Ideal(t: Tree, lo: int, hi: int): Knot
    requires t.Node?
  {
    Knot(LinkTo(t.left, lo), LinkTo(t.right, hi), t.left.Node?, t.right.Node?, t.key, t.balance)
  }

  /** The tree is what the links say, and every thread leads to the neighbour in key order. */
  ghost predicate Wired(knots: seq<Knot>, t: Tree, lo: int, hi: int) {
    t.Node? ==>
      && t.id < |knots| && knots[t.id] == Ideal(t, lo, hi)
      && Wired(knots, t.left, lo, t.id) && Wired(knots, t.right, t.id, hi)
  }

  // ---------------------------------------------------------------- frames

  lemma WiredIds(knots: seq<Knot>, t: Tree, lo: int, hi: int)
    requires Wired(knots, t, lo, hi)
    ensures forall id | id in Ids(t) :: id < |knots|
  {
  }

  lemma WiredFrame(before: seq<Knot>, after: seq<Knot>, t: Tree, lo: int, hi: int)
    requires Wired(before, t, lo, hi)
    requires forall id | id in Ids(t) :: id < |after| && (id < |before| ==> after[id] == before[id])
    ensures Wired(after, t, lo, hi)
  {
  }

  /** Nodes other than these stay as they were. */
  ghost predicate Rest(before: seq<Knot>, after: seq<Knot>, ids: set<nat>) {
    |after| == |before| && forall id: nat | id < |before| && id !in ids :: after[id] == before[id]
  }

  /** The same where `after` may have more nodes. */
  ghost predicate Beyond(before: seq<Knot>, after: seq<Knot>, ids: set<nat>) {
    |before| <= |after| && forall id: nat | id < |before| && id !in ids :: after[id] == before[id]
  }

  lemma BeyondRest(before: seq<Knot>, mid: seq<Knot>, after: seq<Knot>, ids: set<nat>, more: set<nat>)
    requires Beyond(before, mid, ids) && Rest(mid, after, more) && forall id | id in more :: id in ids || id >= |before|
    ensures Beyond(before, after, ids) && |after| == |mid|
  {
  }

  ghost predicate KeysKept(before: seq<Knot>, after: seq<Knot>) {
    |before| <= |after| && forall id: nat | id < |before| :: after[id].key == before[id].key
  }

  lemma KeysKeptOn(before: seq<Knot>, mid: seq<Knot>, after: seq<Knot>)
    requires KeysKept(before, mid) && KeysKept(mid, after)
    ensures KeysKept(before, after)
  {
  }

  lemma RestFrame(before: seq<Knot>, after: seq<Knot>, ids: set<nat>, t: Tree, lo: int, hi: int)
    requires Wired(before, t, lo, hi) && Rest(before, after, ids) && Ids(t) !! ids
    ensures Wired(after, t, lo, hi)
  {
    WiredIds(before, t, lo, hi);
    WiredFrame(before, after, t, lo, hi);
  }

  ghost predicate KnotOk(knots: seq<Knot>, t: Tree, lo: int, hi: int) {
    t.Node? && t.id < |knots| && knots[t.id] == Ideal(t, lo, hi)
  }

  lemma Tied(knots: seq<Knot>, t: Tree, lo: int, hi: int)
    requires KnotOk(knots, t, lo, hi) && Wired(knots, t.left, lo, t.id) && Wired(knots, t.right, t.id, hi)
    ensures Wired(knots, t, lo, hi)
  {
  }

  lemma TiedRest(before: seq<Knot>, after: seq<Knot>, ids: set<nat>, t: Tree, lo: int, hi: int)
    requires KnotOk(after, t, lo, hi) && Rest(before, after, ids)
    requires Wired(before, t.left, lo, t.id) && Wired(before, t.right, t.id, hi) && ids !! Ids(t.left)
        && ids !! Ids(t.right)
    ensures Wired(after, t, lo, hi)
  {
    hide Rest, Ids, Wired, KnotOk;
    RestFrame(before, after, ids, t.left, lo, t.id) by { KnotNode(after, t, lo, hi); }
    RestFrame(before, after, ids, t.right, t.id, hi) by { KnotNode(after, t, lo, hi); }
    KnotNode(after, t, lo, hi);
    Tied(after, t, lo, hi);
  }

  lemma KnotNode(knots: seq<Knot>, t: Tree, lo: int, hi: int)
    requires KnotOk(knots, t, lo, hi)
    ensures t.Node?
  {
  }

  // ---------------------------------------------------------------- a place on the route

  /** The neighbours of the subtree `m` steps down the route. */
  ghost function Lo(t: Tree, key: int, m: nat, lo: int): int {
    if m == 0 || t.Leaf? then lo
    else if key < t.key then Lo(t.left, key, m - 1, lo) else Lo(t.right, key, m - 1, t.id)
  }

  ghost function Hi(t: Tree, key: int, m: nat, hi: int): int {
    if m == 0 || t.Leaf? then hi
    else if key < t.key then Hi(t.left, key, m - 1, t.id) else Hi(t.right, key, m - 1, hi)
  }

  lemma {:induction false} SubWired(knots: seq<Knot>, t: Tree, lo: int, hi: int, key: int, m: nat)
    requires Wired(knots, t, lo, hi)
    ensures Wired(knots, Sub(t, key, m), Lo(t, key, m, lo), Hi(t, key, m, hi))
    decreases m
  {
    if m > 0 && t.Node? {
      if key < t.key {
        SubWired(knots, t.left, lo, t.id, key, m - 1);
      } else {
        SubWired(knots, t.right, t.id, hi, key, m - 1);
      }
    }
  }

  /** The last step: the neighbours one step further down. */
  lemma {:induction false} LastStep(t: Tree, lo: int, hi: int, key: int, m: nat)
    requires m > 0 && Sub(t, key, m - 1).Node?
    ensures Sub(t, key, m) == Toward(Sub(t, key, m - 1), key)
    ensures Lo(t, key, m, lo) == if key < Sub(t, key, m - 1).key then Lo(t, key, m - 1, lo) else Sub(t, key, m - 1).id
    ensures Hi(t, key, m, hi) == if key < Sub(t, key, m - 1).key then Sub(t, key, m - 1).id else Hi(t, key, m - 1, hi)
    decreases m
  {
    if m > 1 {
      if key < t.key {
        LastStep(t.left, lo, t.id, key, m - 1);
      } else {
        LastStep(t.right, t.id, hi, key, m - 1);
      }
    }
  }

  /** A link of a node with its tag. */
  function Hooked(c: Knot, right: bool, t: Tree, neighbour: int): Knot {
    WithTag(WithPtr(c, right, LinkTo(t, neighbour)), right, t.Node?)
  }

  /** Outside the replaced subtree nothing changes but the link to it. */
  ghost predicate Outside(before: seq<Knot>, after: seq<Knot>, t: Tree, lo: int, hi: int, key: int, m: nat, u: Tree) {
    forall id | id in Ids(t) && id !in Ids(Sub(t, key, m)) && id < |before| ::
      && id < |after|
      && after[id] ==
           if m > 0 && Sub(t, key, m - 1).Node? && id == Sub(t, key, m - 1).id
           then Hooked(before[id], key >= before[id].key, u, if key >= before[id].key then Hi(t, key, m, hi)
               else Lo(t, key, m, lo))
           else before[id]
  }

  lemma OutsideBelow(before: seq<Knot>, after: seq<Knot>, t: Tree, lo: int, hi: int, key: int, m: nat, u: Tree)
    requires Wired(before, t, lo, hi) && Distinct(t) && m > 0 && Sub(t, key, m - 1).Node? && t.Node?
    requires Outside(before, after, t, lo, hi, key, m, u)
    ensures m > 1 ==> key < t.key ==> Outside(before, after, t.left, lo, t.id, key, m - 1, u)
    ensures m > 1 ==> key >= t.key ==> Outside(before, after, t.right, t.id, hi, key, m - 1, u)
    ensures Wired(after, Away(t, key), if key < t.key then t.id else lo, if key < t.key then hi else t.id)
    ensures t.id < |after| && after[t.id] ==
              if m == 1 then Hooked(before[t.id], key >= t.key, u, if key >= t.key then hi else lo) else before[t.id]
  {
    var c := Toward(t, key);
    WiredIds(before, t, lo, hi);
    SubIds(c, key, m - 1);
    if m > 1 {
      SubIds(c, key, m - 2);
      assert Sub(t, key, m - 1) == Sub(c, key, m - 2);
    }
    assert t.id !in Ids(c) && t.id in Ids(t) && Sub(t, key, m) == Sub(c, key, m - 1);
    assert before[t.id].key == t.key;
    if m > 1 {
      assert Sub(t, key, m - 1).id != t.id;
      assert after[t.id] == before[t.id];
    } else {
      assert Sub(t, key, 0) == t && Lo(c, key, 0, lo) == lo && Hi(c, key, 0, hi) == hi;
      assert Hi(t, key, 1, hi) == if key < t.key then t.id else hi;
      assert Lo(t, key, 1, lo) == if key < t.key then lo else t.id;
    }
    forall id | id in Ids(Away(t, key)) ensures id < |after| && after[id] == before[id] {
      assert id in Ids(t) && id !in Ids(c) && id != t.id;
    }
    WiredFrame(before, after, Away(t, key), if key < t.key then t.id else lo, if key < t.key then hi else t.id);
  }

  lemma {:induction false} SubIds(t: Tree, key: int, m: nat)
    ensures Ids(Sub(t, key, m)) <= Ids(t) && (Sub(t, key, m).Node? ==> Sub(t, key, m).id in Ids(t))
    ensures Distinct(t) ==> Distinct(Sub(t, key, m))
    decreases m
  {
    if m > 0 && t.Node? {
      SubIds(Toward(t, key), key, m - 1);
    }
  }

  /** Replacing a subtree in memory replaces it in the tree, threads and all. */
  lemma {:induction false} PutWired(before: seq<Knot>, after: seq<Knot>, t: Tree, lo: int, hi: int, key: int, m: nat,
      u: Tree)
    requires Wired(before, t, lo, hi) && Distinct(t) && (m > 0 ==> Sub(t, key, m - 1).Node?)
    requires Wired(after, u, Lo(t, key, m, lo), Hi(t, key, m, hi)) && Outside(before, after, t, lo, hi, key, m, u)
    ensures Wired(after, Put(t, key, m, u), lo, hi)
    ensures m > 0 ==> Link(Put(t, key, m, u)) == Link(t)
    decreases m
  {
    if m > 0 {
      assert t.Node?;
      OutsideBelow(before, after, t, lo, hi, key, m, u);
      hide Outside;
      if m > 1 {
        assert Sub(t, key, m - 1) == Sub(Toward(t, key), key, m - 2);
        if key < t.key {
          PutWired(before, after, t.left, lo, t.id, key, m - 1, u);
        } else {
          PutWired(before, after, t.right, t.id, hi, key, m - 1, u);
        }
      }
    }
  }

  /** The node above a subtree links to it. */
  lemma AboveLinks(knots: seq<Knot>, t: Tree, lo: int, hi: int, key: int, m: nat)
    requires Wired(knots, t, lo, hi) && Distinct(t) && m > 0 && Sub(t, key, m - 1).Node?
    ensures var z := Sub(t, key, m - 1);
            && z.id < |knots| && z.id in Ids(t) && z.id !in Ids(Sub(t, key, m)) && knots[z.id].key == z.key
            && Hooked(knots[z.id], key >= z.key, Sub(t, key, m), if key >= z.key then Hi(t, key, m, hi)
                else Lo(t, key, m, lo)) == knots[z.id]
  {
    SubWired(knots, t, lo, hi, key, m - 1);
    LastStep(t, lo, hi, key, m);
    SubIds(t, key, m - 1);
  }

  /** Changing the balance of one node. */
  lemma BalanceWired(knots: seq<Knot>, t: Tree, lo: int, hi: int, key: int, m: nat, b: int)
    requires Wired(knots, t, lo, hi) && Distinct(t) && Sub(t, key, m).Node?
    ensures Sub(t, key, m).id < |knots|
    ensures Wired(knots[Sub(t, key, m).id := knots[Sub(t, key, m).id].(balance := b)],
        Put(t, key, m, Sub(t, key, m).(balance := b)), lo, hi)
    ensures Link(Put(t, key, m, Sub(t, key, m).(balance := b))) == Link(t)
  {
    var y := Sub(t, key, m);
    SubWired(knots, t, lo, hi, key, m);
    SubIds(t, key, m);
    if m > 0 {
      AboveSub(t, key, m);
      AboveLinks(knots, t, lo, hi, key, m);
    }
    var u, after := y.(balance := b), knots[y.id := knots[y.id].(balance := b)];
    assert Rest(knots, after, {y.id});
    TiedRest(knots, after, {y.id}, u, Lo(t, key, m, lo), Hi(t, key, m, hi));
    assert Outside(knots, after, t, lo, hi, key, m, u);
    PutWired(knots, after, t, lo, hi, key, m, u);
  }

  // ---------------------------------------------------------------- seen without its threads

  function Bare(c: Knot): Cell {
    Cell(if c.leftChild then c.left else NULL, if c.rightChild then c.right else NULL, c.key, c.balance)
  }

  function Plain(knots: seq<Knot>): (cells: seq<Cell>)
    ensures |cells| == |knots| && forall k | 0 <= k < |knots| :: cells[k] == Bare(knots[k])
  {
    seq(|knots|, k requires 0 <= k < |knots| => Bare(knots[k]))
  }

  lemma PlainShape(knots: seq<Knot>, t: Tree, lo: int, hi: int)
    requires Wired(knots, t, lo, hi)
    ensures Shape(Plain(knots), t)
  {
    if t.Node? {
      PlainShape(knots, t.left, lo, t.id);
      PlainShape(knots, t.right, t.id, hi);
    }
  }

  // ---------------------------------------------------------------- rotation in memory

  /** The nodes a rotation touches are apart from the subtrees it moves. */
  lemma TurnApart(t: Tree, right: bool)
    requires CanTurn(t, right) && Distinct(t)
    ensures var x := Child(t, right);
            && x.id != t.id && {t.id, x.id} !! Ids(Child(x, right)) && {t.id, x.id} !! Ids(Child(t, !right))
                && {t.id, x.id} !! Ids(Child(x, !right))
            && x.id in Ids(t) && t.id in Ids(t)
  {
    Apart(t);
  }

  lemma TurnApartTwo(t: Tree, right: bool)
    requires CanTurn(t, right) && Distinct(t) && Child(t, right).balance == -Lean(right)
    ensures var x := Child(t, right);
            var w := Child(x, !right);
            var ids := {t.id, x.id, w.id};
            && t.id != x.id && t.id != w.id && x.id != w.id && ids <= Ids(t)
            && ids !! Ids(Child(x, right)) && ids !! Ids(Child(t, !right)) && ids !! Ids(Child(w, right))
                && ids !! Ids(Child(w, !right))
  {
    Apart(t);
    Apart(Child(t, right));
  }

  /** After a single rotation. */
  lemma SingleWired(before: seq<Knot>, after: seq<Knot>, t: Tree, right: bool, lo: int, hi: int)
    requires Wired(before, t, lo, hi) && Distinct(t) && CanTurn(t, right) && Child(t, right).balance != -Lean(right)
    requires Rest(before, after, {t.id, Child(t, right).id})
    requires var x, y, s := Child(t, right).id, t.id, Lean(right);
             && x < |before| && y < |before|
             && after[x] == WithTag(WithPtr(before[x], !right, y), !right,
                 true).(balance := if Child(t, right).balance == 0 then -s else 0)
             && after[y] == WithTag(WithPtr(before[y], right, if HasChild(before[x], !right)
                 then Ptr(before[x], !right) else x),
                                    right, HasChild(before[x], !right)).(balance := if Child(t, right).balance == 0
                                        then s else 0)
    ensures Wired(after, Turn(t, right), lo, hi)
  {
    var x, u := Child(t, right), Turn(t, right);
    var under := Child(u, !right);
    TurnApart(t, right);
    var ids := {t.id, x.id};
    assert Wired(before, x, if right then t.id else lo, if right then hi else t.id);
    hide Ids, Distinct, Rest;
    if right {
      TiedRest(before, after, ids, under, lo, u.id);
      RestFrame(before, after, ids, u.right, u.id, hi);
    } else {
      TiedRest(before, after, ids, under, u.id, hi);
      RestFrame(before, after, ids, u.left, lo, u.id);
    }
    Tied(after, u, lo, hi);
  }

  /** After a double rotation. */
  lemma DoubleWired(before: seq<Knot>, after: seq<Knot>, t: Tree, right: bool, lo: int, hi: int)
    requires Wired(before, t, lo, hi) && Distinct(t) && CanTurn(t, right) && Child(t, right).balance == -Lean(right)
    requires var x, y, w, s := Child(t, right).id, t.id, Child(Child(t, right), !right).id, Lean(right);
             && x < |before| && y < |before| && w < |before| && Rest(before, after, {y, x, w})
             && after[x] == WithTag(WithPtr(before[x], !right, if HasChild(before[w], right) then Ptr(before[w], right)
                 else w),
                                    !right, HasChild(before[w], right)).(balance := if before[w].balance == -s then s
                                        else 0)
             && after[y] == WithTag(WithPtr(before[y], right, if HasChild(before[w], !right)
                 then Ptr(before[w], !right) else w),
                                    right, HasChild(before[w], !right)).(balance := if before[w].balance == s then -s
                                        else 0)
             && after[w] == Knot(if right then y else x, if right then x else y, true, true, before[w].key, 0)
    ensures Wired(after, Turn(t, right), lo, hi)
  {
    var x, u := Child(t, right), Turn(t, right);
    var w := Child(x, !right);
    TurnApartTwo(t, right);
    var ids := {t.id, x.id, w.id};
    assert Wired(before, x, if right then t.id else lo, if right then hi else t.id);
    assert Wired(before, w, if right then t.id else x.id, if right then x.id else t.id);
    hide Ids, Distinct, Rest;
    TiedRest(before, after, ids, u.left, lo, u.id);
    TiedRest(before, after, ids, u.right, u.id, hi);
    Tied(after, u, lo, hi);
  }

  // ---------------------------------------------------------------- the new leaf

  lemma {:induction false} GrownIsPut(t: Tree, key: int, n: nat)
    ensures Grown(t, key, n, 0) == Put(t, key, Depth(t, key), Node(n, key, 0, Leaf, Leaf))
    decreases t
  {
    if t.Node? {
      GrownIsPut(Toward(t, key), key, n);
    }
  }

  lemma NoSubtrees(knots: seq<Knot>, t: Tree, lo: int, hi: int)
    requires KnotOk(knots, t, lo, hi) && t.left.Leaf? && t.right.Leaf?
    ensures Wired(knots, t, lo, hi)
  {
  }

  /** Hanging the new leaf from the last node on the route: it takes over the thread and leaves one back. */
  lemma LeafWired(before: seq<Knot>, after: seq<Knot>, t: Tree, lo: int, hi: int, key: int, p: nat, right: bool)
    requires Wired(before, t, lo, hi) && Distinct(t) && t.Node? && p == Link(Sub(t, key, Depth(t, key) - 1))
        && p < |before|
    requires right == (key >= before[p].key) && |after| == |before| + 1
    requires after[|before|] == WithPtr(WithPtr(Knot(NULL, NULL, false, false, key, 0), right, Ptr(before[p], right)),
        !right, p)
    requires forall id: nat | id < |before| :: after[id] == if id == p
        then WithTag(WithPtr(before[p], right, |before|), right, true) else before[id]
    ensures Wired(after, Grown(t, key, |before|, 0), lo, hi) && p in Ids(t)
  {
    var d, n := Depth(t, key), |before|;
    var u := Node(n, key, 0, Leaf, Leaf);
    DepthSub(t, key, d);
    DepthSub(t, key, d - 1);
    LastStep(t, lo, hi, key, d);
    SubWired(before, t, lo, hi, key, d - 1);
    WiredIds(before, t, lo, hi);
    SubIds(t, key, d - 1);
    assert KnotOk(after, u, Lo(t, key, d, lo), Hi(t, key, d, hi));
    NoSubtrees(after, u, Lo(t, key, d, lo), Hi(t, key, d, hi));
    assert Outside(before, after, t, lo, hi, key, d, u);
    PutWired(before, after, t, lo, hi, key, d, u);
    GrownIsPut(t, key, n);
  }

  /** Adjusting one more balance replaces one node. */
  lemma {:induction false} BumpIsPut(t: Tree, key: int, n: nat, j: nat)
    requires j < Depth(t, key)
    ensures var y := Sub(Grown(t, key, n, j), key, j);
            && y.Node? && Sub(t, key, j).Node? && y.id == Sub(t, key, j).id && y.key == Sub(t, key, j).key
            && Put(Grown(t, key, n, j), key, j, y.(balance := y.balance + Lean(key >= y.key))) == Grown(t, key, n,
                j + 1)
    decreases j
  {
    if j > 0 {
      var c, g := Toward(t, key), Grown(t, key, n, j);
      BumpIsPut(c, key, n, j - 1);
      assert Toward(g, key) == Grown(c, key, n, j - 1);
      assert Sub(g, key, j) == Sub(Grown(c, key, n, j - 1), key, j - 1) && Sub(t, key, j) == Sub(c, key, j - 1);
    }
  }

  lemma BumpWired(knots: seq<Knot>, t: Tree, lo: int, hi: int, key: int, n: nat, j: nat)
    requires Distinct(t) && n !in Ids(t) && j < Depth(t, key) && Wired(knots, Grown(t, key, n, j), lo, hi)
    ensures Sub(t, key, j).Node? && Sub(t, key, j).id < |knots| && Sub(t, key, j).id in Ids(t)
    ensures var id := Sub(t, key, j).id;
            && knots[id].key == Sub(t, key, j).key
            && Wired(knots[id := knots[id].(balance := knots[id].balance + Lean(key >= knots[id].key))],
                Grown(t, key, n, j + 1), lo, hi)
  {
    var g := Grown(t, key, n, j);
    BumpIsPut(t, key, n, j);
    GrownIds(t, key, n, j);
    SubIds(t, key, j);
    SubWired(knots, g, lo, hi, key, j);
    var y := Sub(g, key, j);
    BalanceWired(knots, g, lo, hi, key, j, y.balance + Lean(key >= y.key));
  }

  /** A child link leads one step down the route. */
  lemma StepDown(knots: seq<Knot>, t: Tree, lo: int, hi: int, key: int, n: nat, i: nat, j: nat)
    requires Wired(knots, Grown(t, key, n, j), lo, hi) && Sub(t, key, i).Node?
    ensures Sub(t, key, i).id < |knots|
    ensures Ptr(knots[Sub(t, key, i).id], key >= Sub(t, key, i).key) == StepOf(t, key, n, i + 1)
  {
    PlainShape(knots, Grown(t, key, n, j), lo, hi);
    NextStep(Plain(knots), t, key, n, i, j);
  }

  lemma GrownLeaning(t: Tree, key: int, n: nat)
    requires t.Node? && Balanced(t) && Calm(Toward(t, key), key)
    ensures Leaning(Grow(t, key, n)) && CanRotate(Grow(t, key, n)) && -2 <= Grow(t, key, n).balance <= 2
  {
    GrowRotates(t, key, n);
    GrowCalm(Toward(t, key), key, n);
  }

  /** What is known of the new leaf's subtree. */
  lemma GrownFacts(before: seq<Knot>, t: Tree, key: int, n: nat, m: nat)
    requires Wired(before, t, NULL, NULL) && Good(t) && n == |before| && Sub(t, key, m).Node?
        && Calm(Toward(Sub(t, key, m), key), key)
    ensures var ty := Sub(t, key, m);
            var grown := Grow(ty, key, n);
            && n !in Ids(t) && n !in Ids(ty) && Distinct(ty) && Distinct(grown) && Ids(grown) == Ids(ty) + {n}
            && grown.id == ty.id && -2 <= grown.balance <= 2 && CanRotate(grown) && Leaning(grown)
                && Ids(Rotate(grown)) == Ids(grown)
  {
    PlainShape(before, t, NULL, NULL);
    FreshLeaf(Plain(before), t, key, n, m);
    SubGood(t, key, m);
    assert Balanced(Sub(t, key, m)) by { GoodIs(Sub(t, key, m)); }
    GrownLeaning(Sub(t, key, m), key, n);
  }

  /** The new subtree is in place, and so the new tree. */
  lemma InstalledWired(before: seq<Knot>, mid: seq<Knot>, after: seq<Knot>, t: Tree, key: int, n: nat, m: nat, u: Tree)
    requires Wired(before, t, NULL, NULL) && Good(t) && Sub(t, key, m).Node? && n == |before| && |mid| == |after|
        && |before| <= |mid|
    requires u.Node? && Wired(mid, u, Lo(t, key, m, NULL), Hi(t, key, m, NULL))
    requires (forall id | id in Ids(u) :: id in Ids(Sub(t, key, m)) || id >= n)
    requires Beyond(before, mid, Ids(Sub(t, key, m)))
    requires var z := Parent(t, key, m);
             if m == 0 then after == mid
             else 0 <= z < |mid| && after == mid[z := WithPtr(mid[z], key >= mid[z].key, u.id)]
    ensures Wired(after, Put(t, key, m, u), NULL, NULL)
    ensures m > 0 ==> Link(Put(t, key, m, u)) == Link(t)
  {
    if m > 0 {
      AboveSub(t, key, m);
      AboveLinks(before, t, NULL, NULL, key, m);
      WiredIds(mid, u, Lo(t, key, m, NULL), Hi(t, key, m, NULL));
      WiredFrame(mid, after, u, Lo(t, key, m, NULL), Hi(t, key, m, NULL));
    }
    assert Outside(before, after, t, NULL, NULL, key, m, u);
    PutWired(before, after, t, NULL, NULL, key, m, u);
  }

  // ---------------------------------------------------------------- taking a node out, in memory

  /** The rightmost node. */
  ghost function Greatest(t: Tree): (s: Tree)
    requires t.Node?
    ensures s.Node? && s.right.Leaf?
  {
    if t.right.Leaf? then t else Greatest(t.right)
  }

  lemma {:induction false} GreatestIn(knots: seq<Knot>, t: Tree, lo: int, hi: int)
    requires t.Node? && Wired(knots, t, lo, hi)
    ensures Greatest(t).id in Ids(t) && Greatest(t).id < |knots|
    decreases t
  {
    if t.right.Node? {
      GreatestIn(knots, t.right, t.id, hi);
    }
  }

  /** Only the rightmost node knows the right neighbour. */
  lemma {:induction false} Retarget(before: seq<Knot>, after: seq<Knot>, t: Tree, lo: int, hi: int, other: int)
    requires t.Node? && Wired(before, t, lo, hi) && Distinct(t)
    requires forall id | id in Ids(t) :: id < |after| && (id < |before| ==> after[id] == if id == Greatest(t).id
        then before[id].(right := other) else before[id])
    ensures Wired(after, t, lo, other)
    decreases t
  {
    WiredIds(before, t, lo, hi);
    if t.right.Node? {
      GreatestIn(before, t.right, t.id, hi);
      Retarget(before, after, t.right, t.id, hi, other);
    }
    WiredFrame(before, after, t.left, lo, t.id) by {
      GreatestIn(before, t, lo, hi);
      assert t.right.Node? ==> Greatest(t).id in Ids(t.right);
    }
  }

  /** The parent of the leftmost node. */
  ghost function LeastParent(t: Tree): (r: Tree)
    requires t.Node? && t.left.Node?
    ensures r.Node? && r.left.Node?
  {
    if t.left.left.Leaf? then t else LeastParent(t.left)
  }

  lemma {:induction false} LeastIn(knots: seq<Knot>, t: Tree, lo: int, hi: int)
    requires t.Node? && Wired(knots, t, lo, hi)
    ensures Least(t).id in Ids(t) && Least(t).id < |knots| && knots[Least(t).id] == Ideal(Least(t), lo,
        knots[Least(t).id].right)
    ensures Least(t).right.Leaf? && t.left.Node? ==> knots[Least(t).id].right == LeastParent(t).id
    ensures t.left.Node? ==>
        LeastParent(t).id in Ids(t) && LeastParent(t).id < |knots| && (Distinct(t) ==> LeastParent(t).id != Least(t).id)
    ensures t.left.Node? ==>
        LeastParent(t).left == Least(t) && knots[LeastParent(t).id].left == Least(t).id
        && knots[LeastParent(t).id].leftChild
    decreases t
  {
    if t.left.Node? {
      LeastIn(knots, t.left, lo, t.id);
    }
  }

  /** Cutting the leftmost node out below its parent: it becomes the left neighbour of what is left. */
  lemma {:induction false} CutLeast(before: seq<Knot>, after: seq<Knot>, t: Tree, lo: int, hi: int)
    requires t.Node? && t.left.Node? && Wired(before, t, lo, hi) && Distinct(t)
    requires forall id | id in Ids(t) && id != Least(t).id :: id < |after| && (id < |before| ==>
               after[id] == if id == LeastParent(t).id then Hooked(before[id], false, Least(t).right, Least(t).id)
                   else before[id])
    ensures Wired(after, WithoutLeast(t), Least(t).id, hi)
    decreases t
  {
    var s, r := Least(t), LeastParent(t);
    WiredIds(before, t, lo, hi);
    LeastIn(before, t, lo, hi);
    LeastIn(before, t.left, lo, t.id);
    WiredFrame(before, after, t.right, t.id, hi) by {
      assert s.id in Ids(t.left);
      assert r.id == t.id || r.id in Ids(t.left);
    }
    if t.left.left.Leaf? {
      WiredFrame(before, after, s.right, s.id, t.id);
    } else {
      assert LeastParent(t.left) == r && Least(t.left) == s && r.id in Ids(t.left);
      CutLeast(before, after, t.left, lo, t.id);
    }
  }

  /** Where the balances are off after the leftmost node has gone. */
  lemma {:induction false} LeastRoute(t: Tree, key: int)
    requires t.Node? && t.left.Node? && Over(WithoutLeast(t), key)
    ensures LeastDepth(t) > 0 && Sub(WithoutLeast(t), key, LeastDepth(t) - 1).Node?
    ensures Sub(WithoutLeast(t), key, LeastDepth(t) - 1).id == LeastParent(t).id
        && key < Sub(WithoutLeast(t), key, LeastDepth(t) - 1).key
    decreases t
  {
    var u := WithoutLeast(t);
    assert t.key in Keys(u) && key < t.key;
    if t.left.left.Node? {
      assert Over(WithoutLeast(t.left), key) by {
        forall x | x in Keys(WithoutLeast(t.left)) ensures x > key {
          assert x in Keys(u);
        }
      }
      LeastRoute(t.left, key);
    }
  }

  /** A changed subtree hooked to the node above it, or made the root. */
  lemma HookWired(before: seq<Knot>, mid: seq<Knot>, after: seq<Knot>, t: Tree, key: int, m: nat, u: Tree)
    requires Wired(before, t, NULL, NULL) && Distinct(t) && Sub(t, key, m).Node?
    requires Wired(mid, u, Lo(t, key, m, NULL), Hi(t, key, m, NULL)) && Ids(u) <= Ids(Sub(t, key, m))
    requires Rest(before, mid, Ids(Sub(t, key, m)))
    requires if m == 0 then after == mid
             else
               var z := Parent(t, key, m);
               && 0 <= z < |mid|
               && after == mid[z := Hooked(mid[z], key >= mid[z].key, u, if key >= mid[z].key then Hi(t, key, m, NULL)
                   else Lo(t, key, m, NULL))]
    ensures Wired(after, Put(t, key, m, u), NULL, NULL)
    ensures m > 0 ==> Link(Put(t, key, m, u)) == Link(t)
  {
    var lo, hi := Lo(t, key, m, NULL), Hi(t, key, m, NULL);
    if m > 0 {
      AboveSub(t, key, m);
      AboveLinks(before, t, NULL, NULL, key, m);
      WiredIds(mid, u, lo, hi);
      WiredFrame(mid, after, u, lo, hi);
    }
    assert Outside(before, after, t, NULL, NULL, key, m, u);
    PutWired(before, after, t, NULL, NULL, key, m, u);
  }

  /** The nearer neighbour above a node is its parent; the other one does not link to it. */
  lemma {:induction false} FarNeighbour(knots: seq<Knot>, t: Tree, lo: int, hi: int, key: int, m: nat)
    requires Wired(knots, t, lo, hi) && Distinct(t) && m > 0 && Sub(t, key, m).Node? && Sub(t, key, m - 1).Node?
    ensures var u, id, l, h := Sub(t, key, m - 1), Sub(t, key, m).id, Lo(t, key, m, lo), Hi(t, key, m, hi);
            && u.id < |knots|
            && if key < u.key then h == u.id && knots[u.id].left == id
                && (l == lo || (0 <= l < |knots| && knots[l].right != id))
               else l == u.id && knots[u.id].right == id && (h == hi || (0 <= h < |knots| && knots[h].left != id))
    decreases m
  {
    if m > 1 {
      var c := Toward(t, key);
      assert Sub(t, key, m) == Sub(c, key, m - 1) && Sub(t, key, m - 1) == Sub(c, key, m - 2);
      SubBelow(c, key, m - 1);
      if key < t.key {
        FarNeighbour(knots, t.left, lo, t.id, key, m - 1);
      } else {
        FarNeighbour(knots, t.right, t.id, hi, key, m - 1);
      }
    } else {
      assert Sub(t, key, 1) == Toward(t, key);
    }
  }

  lemma SubBelow(t: Tree, key: int, m: nat)
    requires Distinct(t) && m > 0 && Sub(t, key, m).Node?
    ensures t.Node? && Sub(t, key, m).id != t.id && Sub(t, key, m).id in Ids(t)
  {
    SubIds(Toward(t, key), key, m - 1);
  }

  /** The successor in place of the node taken out, its children rewired. */
  lemma SuccessorWired(before: seq<Knot>, mid: seq<Knot>, t: Tree, lo: int, hi: int)
    requires Wired(before, t, lo, hi) && t.Node? && t.right.Node? && Distinct(t)
    requires var s := Least(t.right);
             && s.id < |mid| && mid[s.id] == Ideal(Successor(t), lo, hi) && Wired(mid, t.left, lo, s.id)
             && forall id | id in Ids(t.right) && id != s.id :: id < |mid| && (id < |before| ==>
                  mid[id] == if t.right.left.Node? && id == LeastParent(t.right).id
                      then Hooked(before[id], false, s.right, s.id) else before[id])
    ensures Wired(mid, Successor(t), lo, hi)
  {
    var r, s, u := t.right, Least(t.right), Successor(t);
    if r.left.Node? {
      CutLeast(before, mid, r, t.id, hi);
    } else {
      WiredFrame(before, mid, r.right, r.id, hi);
    }
    Tied(mid, u, lo, hi);
  }

  /** The nodes around the one to be taken out. */
  lemma TakeFacts(knots: seq<Knot>, t: Tree, lo: int, hi: int)
    requires Wired(knots, t, lo, hi) && t.Node? && t.right.Node? && Ordered(t) && Distinct(t)
    ensures var s := Least(t.right);
            && s.id < |knots| && s.id in Ids(t.right) && s.id != t.id && s.id !in Ids(t.left) && t.id !in Ids(t.left)
            && Ids(t.left) !! Ids(t.right) && t.id !in Ids(t.right) && Distinct(t.left)
            && knots[s.id].rightChild == s.right.Node? && !knots[s.id].leftChild && knots[s.id].key == s.key
            && Ids(Successor(t)) <= Ids(t) && Successor(t).Node? && Successor(t).id == s.id
            && (t.right.left.Node? ==>
                LeastParent(t.right).id in Ids(t.right) && LeastParent(t.right).id != s.id
                && LeastParent(t.right).id < |knots|)
    ensures Wired(knots, t.left, lo, t.id) && t.id < |knots| && knots[t.id] == Ideal(t, lo, hi)
    ensures forall id | id in Ids(t.right) :: id < |knots|
  {
    WiredIds(knots, t.right, t.id, hi);
    LeastIn(knots, t.right, t.id, hi);
    SuccessorLacks(t);
  }

  /** The rotated subtree that insertion puts in place. */
  lemma Rotated(before: seq<Knot>, t: Tree, key: int, n: nat, m: nat) returns (u: Tree)
    requires Wired(before, t, NULL, NULL) && Good(t) && n == |before| && Sub(t, key, m).Node?
    requires Calm(Toward(Sub(t, key, m), key), key) && (m > 0 ==> Sub(t, key, m).balance != 0)
    ensures var ty := Sub(t, key, m);
            var grown := Grow(ty, key, n);
            && n !in Ids(ty) && Distinct(ty) && Distinct(grown) && Ids(grown) == Ids(ty) + {n} && grown.id == ty.id
            && -2 <= grown.balance <= 2 && CanRotate(grown) && Leaning(grown) && Balanced(t)
            && u == Rotate(grown) && u.Node? && Ids(u) == Ids(ty) + {n} && Inserted(t, key, n) == Put(t, key, m, u)
    ensures m > 0 ==> 0 <= Parent(t, key, m) < n
    ensures m == 0 ==> Parent(t, key, m) == NULL
  {
    PutInserted(t, key, n, m);
    GrownFacts(before, t, key, n, m);
    if m > 0 {
      ParentLinks(before, t, key, m);
    }
    u := Rotate(Grow(Sub(t, key, m), key, n));
  }

  /** It is in place whether or not the link to it had to change. */
  lemma InstalledHere(before: seq<Knot>, mid: seq<Knot>, after: seq<Knot>, t: Tree, key: int, n: nat, m: nat, u: Tree,
      z: int, changed: bool)
    requires Wired(before, t, NULL, NULL) && Good(t) && Sub(t, key, m).Node? && n == |before| && n <= |mid| == |after|
    requires u.Node? && Wired(mid, u, Lo(t, key, m, NULL), Hi(t, key, m, NULL)) && Ids(u) == Ids(Sub(t, key, m)) + {n}
    requires Beyond(before, mid, Ids(Sub(t, key, m))) && z == Parent(t, key, m)
    requires if changed && z != NULL then 0 <= z < |mid| && after == mid[z := WithPtr(mid[z],
        Sub(t, key, m).id != mid[z].left, u.id)] else after == mid
    requires !changed ==> u.id == Sub(t, key, m).id
    ensures Wired(after, Put(t, key, m, u), NULL, NULL)
    ensures m > 0 ==> Link(Put(t, key, m, u)) == Link(t)
    ensures m == 0 ==> Link(Put(t, key, m, u)) == u.id
  {
    if m > 0 {
      ParentLinks(before, t, key, m);
    }
    InstalledWired(before, mid, after, t, key, n, m, u);
  }

  // ---------------------------------------------------------------- routes through the tree

  /** The route to a node goes by its key. */
  lemma {:induction false} RouteTo(knots: seq<Knot>, t: Tree, lo: int, hi: int, id: nat) returns (m: nat)
    requires Wired(knots, t, lo, hi) && Ordered(t) && Distinct(t) && id in Ids(t)
    ensures id < |knots| && knots[id].key in Keys(t) && Sub(t, knots[id].key, m).Node?
    ensures Sub(t, knots[id].key, m).id == id && Sub(t, knots[id].key, m).key == knots[id].key
    decreases t
  {
    if id == t.id {
      m := 0;
    } else if id in Ids(t.left) {
      var n := RouteTo(knots, t.left, lo, t.id, id);
      m := n + 1;
    } else {
      var n := RouteTo(knots, t.right, t.id, hi, id);
      m := n + 1;
    }
  }

  /** The neighbours, where there are any, have keys on either side of the tree. */
  ghost predicate Fence(knots: seq<Knot>, t: Tree, lo: int, hi: int) {
    && (lo != NULL ==> 0 <= lo < |knots| && Over(t, knots[lo].key))
    && (hi != NULL ==> 0 <= hi < |knots| && Under(t, knots[hi].key))
  }

  /** Every other key is at or beyond a neighbour. */
  lemma {:induction false} Between(knots: seq<Knot>, t: Tree, lo: int, hi: int, key: int, m: nat)
    requires Wired(knots, t, lo, hi) && Ordered(t) && Sub(t, key, m).Node? && Fence(knots, t, lo, hi)
    ensures var u, l, h := Sub(t, key, m), Lo(t, key, m, lo), Hi(t, key, m, hi);
            && Fence(knots, u, l, h) && Keys(u) <= Keys(t) && Ids(u) <= Ids(t) && Ordered(u)
            && (lo != NULL ==> l != NULL && knots[l].key >= knots[lo].key)
                && (hi != NULL ==> h != NULL && knots[h].key <= knots[hi].key)
            && forall x | x in Keys(t) :: x in Keys(u) || (l != NULL && x <= knots[l].key)
                || (h != NULL && x >= knots[h].key)
    decreases m
  {
    if m > 0 {
      assert Keys(t.left) <= Keys(t) && Keys(t.right) <= Keys(t);
      if key < t.key {
        assert Fence(knots, t.left, lo, t.id);
        Between(knots, t.left, lo, t.id, key, m - 1);
      } else {
        assert Fence(knots, t.right, t.id, hi);
        Between(knots, t.right, t.id, hi, key, m - 1);
      }
    }
  }

  lemma {:induction false} PutParent(t: Tree, key: int, m: nat, u: Tree)
    requires m > 0 ==> Sub(t, key, m - 1).Node?
    ensures Sub(Put(t, key, m, u), key, m) == u && Parent(Put(t, key, m, u), key, m) == Parent(t, key, m)
    ensures m > 0 ==>
        Sub(Put(t, key, m, u), key, m - 1).Node? && Sub(Put(t, key, m, u), key, m - 1).key == Sub(t, key, m - 1).key
    decreases m
  {
    if m > 0 {
      var c, p := Toward(t, key), Put(t, key, m, u);
      assert t.Node?;
      assert m > 1 ==> Sub(t, key, m - 1) == Sub(c, key, m - 2);
      PutParent(c, key, m - 1, u);
      assert Toward(p, key) == Put(c, key, m - 1, u);
      assert m > 1 ==> Sub(p, key, m - 1) == Sub(Toward(p, key), key, m - 2);
    }
  }

  /** Where the balances are off after a node has been taken out. */
  lemma RouteAfter(t: Tree, key: int, m: nat)
    requires Good(t) && Sub(t, key, m).Node? && Sub(t, key, m).key == key
    ensures var p := Sub(t, key, m);
            var after, route, k := Put(t, key, m, Successor(p)), SuccessorKey(p), m + SuccessorDepth(p);
            && (k > 0 ==> Sub(after, route, k - 1).Node?)
            && (m > 0 ==> Sub(t, key, m - 1).Node?)
            && (p.right.Leaf? ==> route == key && k == m && Parent(after, route, k) == Parent(t, key, m)
                                  && (m > 0 ==> Sub(after, route, k - 1).key == Sub(t, key, m - 1).key))
            && (p.right.Node? && p.right.left.Leaf? ==>
                  k > 0 && Parent(after, route, k) == Successor(p).id && route == Sub(after, route, k - 1).key)
            && (p.right.Node? && p.right.left.Node? ==>
                  k > 0 && Parent(after, route, k) == LeastParent(p.right).id && route < Sub(after, route, k - 1).key)
  {
    var p := Sub(t, key, m);
    SubGood(t, key, m);
    if m > 0 {
      AboveSub(t, key, m);
    }
    if p.right.Leaf? {
      PutParent(t, key, m, Successor(p));
    } else {
      RouteRight(t, key, m);
    }
  }

  lemma RouteRight(t: Tree, key: int, m: nat)
    requires Ordered(t) && Distinct(t) && Sub(t, key, m).Node? && Sub(t, key, m).key == key
        && Sub(t, key, m).right.Node?
    requires Ordered(Sub(t, key, m)) && Distinct(Sub(t, key, m))
    ensures var p := Sub(t, key, m);
            var after, route, k := Put(t, key, m, Successor(p)), SuccessorKey(p), m + SuccessorDepth(p);
            && k > 0 && Sub(after, route, k - 1).Node?
            && (p.right.left.Leaf? ==>
                Parent(after, route, k) == Successor(p).id && route == Sub(after, route, k - 1).key)
            && (p.right.left.Node? ==>
                Parent(after, route, k) == LeastParent(p.right).id && route < Sub(after, route, k - 1).key)
  {
    var p := Sub(t, key, m);
    var u, route := Successor(p), SuccessorKey(p);
    var after := Put(t, key, m, u);
    RootKey(p);
    SuccessorLacks(p);
    SameRoute(t, key, route, m, u);
    PutParent(t, route, m, u);
    assert Ordered(p.right) && Distinct(p.right) && u.Node? && u.key == route && u.right == WithoutLeast(p.right);
    hide Put, Keys, Ids, Ordered, Distinct, Successor, Lacks;
    if p.right.left.Node? {
      LeastOver(p.right);
      LeastRoute(p.right, route);
      hide WithoutLeast, LeastParent, Least, LeastDepth;
      SubSub(after, route, m, 1 + (LeastDepth(p.right) - 1));
      OneDown(u, route, LeastDepth(p.right) - 1);
    }
  }

  lemma OneDown(u: Tree, route: int, d: nat)
    requires u.Node? && u.key == route
    ensures Sub(u, route, 1 + d) == Sub(u.right, route, d)
  {
  }

  lemma RightLinks(knots: seq<Knot>, t: Tree, key: int, m: nat)
    requires Wired(knots, t, NULL, NULL) && Sub(t, key, m).Node? && Sub(t, key, m).right.Node?
    ensures var p := Sub(t, key, m);
            && p.id < |knots| && knots[p.id].right == p.right.id && p.right.id < |knots|
            && knots[p.right.id].leftChild == p.right.left.Node?
  {
    SubWired(knots, t, NULL, NULL, key, m);
  }

  lemma FaultAtTop(t: Tree, key: int, k: nat)
    requires OffBelow(t, key, k)
    ensures k == 0 <==> Parent(t, key, k) == NULL
    ensures k == 0 ==> Balanced(t)
    ensures k > 0 ==> Sub(t, key, k - 1).Node? && Parent(t, key, k) == Sub(t, key, k - 1).id
  {
    if k > 0 {
      OffNode(t, key, k);
    }
  }

  lemma TopParent(t: Tree, key: int, m: nat)
    requires Sub(t, key, m).Node?
    ensures m == 0 <==> Parent(t, key, m) == NULL
    ensures m > 0 ==> Sub(t, key, m - 1).Node? && Parent(t, key, m) == Sub(t, key, m - 1).id
  {
    if m > 0 {
      AboveSub(t, key, m);
    }
  }

  /** The tree with the node taken out, and where its balances are off. */
  lemma Removal(t: Tree, key: int, m: nat) returns (after: Tree, route: int, depth: nat)
    requires Good(t) && Sub(t, key, m).Node? && Sub(t, key, m).key == key
    ensures var p := Sub(t, key, m);
            after == Put(t, key, m, Successor(p)) && route == SuccessorKey(p) && depth == m + SuccessorDepth(p)
    ensures Ordered(after) && Distinct(after) && OffBelow(after, route, depth)
    ensures Keys(after) == Keys(t) - {key} && Size(after) + 1 == Size(t) && key in Keys(t)
    ensures Ids(after) == Ids(t) - {Sub(t, key, m).id}
  {
    hide Good, OffBelow, Successor, SuccessorKey, SuccessorDepth, Put, Sub;
    Unlinked(t, key, m);
    var p := Sub(t, key, m);
    after, route, depth := Put(t, key, m, Successor(p)), SuccessorKey(p), m + SuccessorDepth(p);
  }

  lemma AlikeParts(t: Tree, u: Tree)
    requires Alike(t, u) && Ordered(t) && Distinct(t) && Balanced(u)
    ensures Good(u) && Keys(u) == Keys(t) && Size(u) == Size(t) && Ids(u) == Ids(t)
  {
  }

  lemma RepairedStep(first: Tree, t: Tree, u: Tree)
    requires Alike(first, t) && Alike(t, u) && Ordered(t) && Distinct(t)
    ensures Alike(first, u) && Ordered(u) && Distinct(u)
  {
  }

  lemma RepairedFacts(t: Tree, key: int)
    requires OffBelow(t, key, 1) && Distinct(t)
    ensures Ids(Repaired(t, key)) == Ids(t)
  {
    RepairedBalanced(t, key);
  }

  /** The link of a node on the route, and the thread where the route ends. */
  lemma NodeLinks(knots: seq<Knot>, t: Tree, key: int, m: nat)
    requires Wired(knots, t, NULL, NULL) && Sub(t, key, m).Node?
    ensures var p := Sub(t, key, m);
            && p.id < |knots| && knots[p.id].key == p.key && knots[p.id].balance == p.balance
            && (forall right :: HasChild(knots[p.id], right) == Child(p, right).Node?)
            && (forall right :: Child(p, right).Node? ==> Ptr(knots[p.id], right) == Child(p, right).id)
  {
    SubWired(knots, t, NULL, NULL, key, m);
  }

  /** A neighbour of a subtree is outside it. */
  lemma {:induction false} NeighboursOutside(t: Tree, lo: int, hi: int, key: int, m: nat)
    requires Distinct(t)
    ensures var l := Lo(t, key, m, lo); l == lo || (l in Ids(t) && l !in Ids(Sub(t, key, m)))
    ensures var h := Hi(t, key, m, hi); h == hi || (h in Ids(t) && h !in Ids(Sub(t, key, m)))
    decreases m
  {
    if m > 0 && t.Node? {
      SubIds(Toward(t, key), key, m - 1);
      if key < t.key {
        NeighboursOutside(t.left, lo, t.id, key, m - 1);
      } else {
        NeighboursOutside(t.right, t.id, hi, key, m - 1);
      }
    }
  }

  lemma {:induction false} ParentLinks(knots: seq<Knot>, t: Tree, key: int, m: nat)
    requires Wired(knots, t, NULL, NULL) && Distinct(t) && Sub(t, key, m).Node? && m > 0
    ensures var z := Parent(t, key, m);
            && 0 <= z < |knots| && z in Ids(t) && z !in Ids(Sub(t, key, m))
            && (key >= knots[z].key) == (Sub(t, key, m).id != knots[z].left)
            && Ptr(knots[z], key >= knots[z].key) == Sub(t, key, m).id
  {
    AboveSub(t, key, m);
    AboveLinks(knots, t, NULL, NULL, key, m);
    SubWired(knots, t, NULL, NULL, key, m - 1);
    NeighboursOutside(t, NULL, NULL, key, m - 1);
    LastStep(t, NULL, NULL, key, m);
    SubIds(t, key, m - 1);
    var u := Sub(t, key, m - 1);
    assert Distinct(u) && u.right.Node? ==> u.right.id in Ids(u.right);
    assert u.left.Node? ==> u.left.id in Ids(u.left);
    assert u.right.Node? ==> u.right.id in Ids(u);
  }

  lemma OnlyNode(knots: seq<Knot>, t: Tree, key: int, n: nat)
    requires t.Leaf? && n < |knots| && knots[n] == Knot(NULL, NULL, false, false, key, 0)
    ensures Wired(knots, Inserted(t, key, n), NULL, NULL) && Link(Inserted(t, key, n)) == n
  {
  }

  lemma {:induction false} SubOrdered(t: Tree, key: int, m: nat)
    requires Ordered(t)
    ensures Ordered(Sub(t, key, m))
    decreases m
  {
    if m > 0 && t.Node? {
      SubOrdered(Toward(t, key), key, m - 1);
    }
  }

  lemma WiredLeaf(knots: seq<Knot>, t: Tree, lo: int, hi: int)
    requires t.Leaf?
    ensures Wired(knots, t, lo, hi)
  {
  }

  lemma PutLink(t: Tree, key: int, m: nat, u: Tree)
    ensures m == 0 ==> Link(Put(t, key, m, u)) == Link(u)
  {
  }

  /** The leftmost node on the right, its parent and its links. */
  lemma LeastThere(knots: seq<Knot>, t: Tree, lo: int, hi: int)
    requires Wired(knots, t, lo, hi) && t.Node? && t.right.Node? && t.right.left.Node? && Distinct(t)
    ensures var s, r := Least(t.right), LeastParent(t.right);
            && s.id < |knots| && r.id < |knots| && knots[r.id].leftChild
            && (s.right.Node? ==> knots[s.id].right == s.right.id)
            && r.id !in Ids(t.left) && s.id !in Ids(t.left) && r.id != t.id && s.id != t.id && r.id != s.id
            && knots[s.id].rightChild == s.right.Node? && !knots[s.id].leftChild && knots[s.id].key == s.key
            && Ideal(Successor(t), lo, hi) == Knot(knots[t.id].left, knots[t.id].right, knots[t.id].leftChild, true,
                s.key, t.balance)
  {
    LeastIn(knots, t.right, t.id, hi);
    LeastLinks(knots, t.right, t.id, hi);
  }

  lemma {:induction false} LeastLinks(knots: seq<Knot>, t: Tree, lo: int, hi: int)
    requires Wired(knots, t, lo, hi) && t.Node?
    ensures Least(t).id < |knots| && (Least(t).right.Node? ==> knots[Least(t).id].right == Least(t).right.id)
    decreases t
  {
    if t.left.Node? {
      LeastLinks(knots, t.left, lo, t.id);
    }
  }

  lemma BalanceOnly(knots: seq<Knot>, t: Tree, lo: int, hi: int, b: int)
    requires t.Node? && Wired(knots, t, lo, hi) && Distinct(t)
    ensures t.id < |knots| && Wired(knots[t.id := knots[t.id].(balance := b)], t.(balance := b), lo, hi)
  {
    BalanceWired(knots, t, lo, hi, t.key, 0, b);
  }
}
