/** Traversers: they remember the nodes above their place, and rebuild that when the tree has been rotated. */
module AvlTraversers {
  import opened AvlTrees
  import opened AvlTables

  datatype Found = Nothing | Key(key: int)

  /** The first key after `k`, by descent. */
  ghost function Succ(t: Tree, k: int): Found {
    if t.Leaf? then Nothing
    else if k < t.key then
      var left := Succ(t.left, k);
      if left == Nothing then Key(t.key) else left
    else Succ(t.right, k)
  }

  /** `next` is the least of the keys after `k`, or there is none. */
  ghost predicate IsLeastAfter(keys: set<int>, k: int, next: Found) {
    match next
    case Nothing => forall x | x in keys :: x <= k
    case Key(s) => s in keys && s > k && forall x | x in keys && x > k :: x >= s
  }

  lemma {:induction false} SuccIsLeast(t: Tree, k: int)
    requires Ordered(t)
    ensures IsLeastAfter(Keys(t), k, Succ(t, k))
    decreases t
  {
    if t.Node? {
      SuccIsLeast(t.left, k);
      SuccIsLeast(t.right, k);
    }
  }

  /** `next` comes after the current item, or first when there is none. */
  ghost predicate IsNext(keys: set<int>, current: Found, next: Found) {
    match current
    case Nothing => IsLeast(keys, next)
    case Key(k) => IsLeastAfter(keys, k, next)
  }

  ghost predicate Greater(keys: set<int>, current: Found) {
    current.Key? && exists x :: x in keys && x > current.key
  }

  lemma SuccIfGreater(t: Tree, k: int)
    requires Ordered(t)
    ensures Greater(Keys(t), Key(k)) <==> Succ(t, k) != Nothing
  {
    SuccIsLeast(t, k);
  }

  lemma NextIsGreater(keys: set<int>, k: int, next: Found)
    requires IsLeastAfter(keys, k, next)
    ensures next != Nothing <==> Greater(keys, Key(k))
  {
  }

  ghost predicate IsLeast(keys: set<int>, first: Found) {
    match first
    case Nothing => keys == {}
    case Key(s) => s in keys && forall x | x in keys :: x >= s
  }

  ghost predicate IsGreatest(keys: set<int>, last: Found) {
    match last
    case Nothing => keys == {}
    case Key(s) => s in keys && forall x | x in keys :: x <= s
  }

  /** The first key of all, or the last. */
  ghost predicate IsEnd(keys: set<int>, right: bool, found: Found) {
    if right then IsGreatest(keys, found) else IsLeast(keys, found)
  }

  /** The least of the keys that are not below `k`, or there is none. */
  ghost predicate IsAtOrAfter(keys: set<int>, k: int, found: Found) {
    match found
    case Nothing => forall x | x in keys :: x < k
    case Key(s) => s in keys && s >= k && forall x | x in keys && x >= k :: x >= s
  }

  // ---------------------------------------------------------------- how many nodes a search passes

  function Child(t: Tree, right: bool): Tree
    requires t.Node?
  {
    if right then t.right else t.left
  }

  /** On the way to the least or the greatest key. */
  ghost function Spine(t: Tree, right: bool): (n: nat)
    ensures t.Node? ==> n < Height(t)
  {
    if t.Leaf? || Child(t, right).Leaf? then 0 else 1 + Spine(Child(t, right), right)
  }

  /** On the way to `key`, or to where it is found missing. */
  ghost function Passed(t: Tree, key: int): (n: nat)
    ensures n <= Height(t)
  {
    if t.Leaf? || t.key == key then 0 else 1 + Passed(Toward(t, key), key)
  }

  // ---------------------------------------------------------------- places in the tree

  /** The node is `d` steps down the route to its own key, and these are the nodes before it. */
  ghost predicate OnPath(t: Tree, k: int, d: nat, node: int, above: seq<int>) {
    && |above| == d && Sub(t, k, d).Node? && Sub(t, k, d).id == node && Sub(t, k, d).key == k
    && forall j | 0 <= j < d :: above[j] == Link(Sub(t, k, j))
  }

  lemma {:induction false} IdKey(cells: seq<Cell>, t: Tree, id: nat)
    requires Shape(cells, t) && id in Ids(t)
    ensures t.Node? && id < |cells| && cells[id].key in Keys(t)
    decreases t
  {
    if id != t.id {
      if id in Ids(t.left) {
        IdKey(cells, t.left, id);
      } else {
        IdKey(cells, t.right, id);
      }
    }
  }

  /** A node that is not the root is on the side its key points to. */
  lemma NodeToward(cells: seq<Cell>, t: Tree, id: nat)
    requires Shape(cells, t) && Good(t) && id in Ids(t) && id != t.id
    ensures id < |cells| && id in Ids(Toward(t, cells[id].key)) && cells[id].key != t.key
        && Toward(t, cells[id].key).Node?
  {
    if id in Ids(t.left) {
      IdKey(cells, t.left, id);
    } else {
      IdKey(cells, t.right, id);
    }
  }

  /** Keys below the same subtree share the route to it. */
  lemma {:induction false} RoutesAgree(t: Tree, k: int, h: int, d: nat, j: nat)
    requires Ordered(t) && h in Keys(Sub(t, k, d)) && j <= d
    ensures Sub(t, h, j) == Sub(t, k, j)
    decreases j
  {
    if j > 0 && t.Node? {
      SubKeys(Toward(t, k), k, d - 1);
      assert h in Keys(Toward(t, k));
      assert Toward(t, h) == Toward(t, k);
      RoutesAgree(Toward(t, k), k, h, d - 1, j - 1);
    }
  }

  lemma {:induction false} SubKeys(t: Tree, k: int, d: nat)
    requires Ordered(t)
    ensures Keys(Sub(t, k, d)) <= Keys(t) && Ordered(Sub(t, k, d))
    decreases d
  {
    if d > 0 && t.Node? {
      SubKeys(Toward(t, k), k, d - 1);
    }
  }

  /** The place of a node found on the route to some other key. */
  lemma PlaceOf(t: Tree, k: int, d: nat, above: seq<int>)
    requires Ordered(t) && Sub(t, k, d).Node? && |above| == d
    requires forall j | 0 <= j < d :: above[j] == Link(Sub(t, k, j))
    ensures OnPath(t, Sub(t, k, d).key, d, Sub(t, k, d).id, above)
  {
    var h := Sub(t, k, d).key;
    forall j: nat | j <= d ensures Sub(t, h, j) == Sub(t, k, j) {
      RoutesAgree(t, k, h, d, j);
    }
  }

  /** One step down. */
  lemma PushPath(t: Tree, k: int, d: nat, node: int, above: seq<int>, right: bool)
    requires Ordered(t) && OnPath(t, k, d, node, above)
    requires (if right then Sub(t, k, d).right else Sub(t, k, d).left).Node?
    ensures var c := if right then Sub(t, k, d).right else Sub(t, k, d).left;
            OnPath(t, c.key, d + 1, c.id, above + [node]) && Sub(t, c.key, d + 1) == c
  {
    var s := Sub(t, k, d);
    var c := if right then s.right else s.left;
    SubKeys(t, k, d);
    assert c.key in Keys(c) && c.key in Keys(s);
    forall j: nat | j <= d ensures Sub(t, c.key, j) == Sub(t, k, j) {
      RoutesAgree(t, k, c.key, d, j);
    }
    SubNext(t, c.key, d);
    assert Toward(s, c.key) == c;
  }

  /** Nothing below a node decides its successor unless it is there. */
  lemma {:induction false} SuccDown(t: Tree, k: int, d: nat)
    requires Succ(Sub(t, k, d), k) != Nothing
    ensures Succ(t, k) == Succ(Sub(t, k, d), k)
    decreases d
  {
    if d > 0 && t.Node? {
      SuccDown(Toward(t, k), k, d - 1);
    }
  }

  /** One step up, when nothing after `k` is below. */
  lemma SuccUp(t: Tree, k: int, d: nat)
    requires Ordered(t) && d > 0 && Sub(t, k, d).Node? && Succ(Sub(t, k, d), k) == Nothing
    ensures var p := Sub(t, k, d - 1);
            && p.Node? && Sub(t, k, d) == Toward(p, k)
            && Succ(p, k) == if k < p.key then Key(p.key) else Nothing
  {
    SubPrev(t, k, d - 1);
  }

  lemma {:induction false} ExtendsSub(t: Tree, u: Tree, k: int, d: nat)
    requires Extends(t, u) && Sub(t, k, d).Node?
    ensures Sub(u, k, d).Node? && Sub(u, k, d).id == Sub(t, k, d).id && Sub(u, k, d).key == Sub(t, k, d).key
    decreases d
  {
    if d > 0 {
      ExtendsSub(Toward(t, k), Toward(u, k), k, d - 1);
    }
  }

  /** Insertion without rotation leaves every place as it was. */
  lemma PathStays(t: Tree, u: Tree, k: int, d: nat, node: int, above: seq<int>)
    requires Extends(t, u) && OnPath(t, k, d, node, above)
    ensures OnPath(u, k, d, node, above)
  {
    forall j | 0 <= j <= d ensures Link(Sub(u, k, j)) == Link(Sub(t, k, j)) && Sub(t, k, j).Node? {
      PathNodes(t, k, d, j);
      ExtendsSub(t, u, k, j);
    }
    ExtendsSub(t, u, k, d);
  }

  lemma {:induction false} PathNodes(t: Tree, k: int, d: nat, j: nat)
    requires Sub(t, k, d).Node? && j <= d
    ensures Sub(t, k, j).Node?
    decreases d - j
  {
    if j < d {
      PathNodes(t, k, d, j + 1);
      SubPrev(t, k, j);
    }
  }

  // ---------------------------------------------------------------- the traverser

  class Traverser {
    const table: AvlTable
    const stack: array<int>
    var node: int
    var height: nat
    var generation: int

    /** At the same generation as the tree, the stack holds the nodes above the current one. With a `base` above 0 it
        holds them on top of that many leftovers. */
    ghost predicate Valid(base: nat := 0)
      reads this, table, stack
    {
      && table.Valid() && stack.Length == MAX_HEIGHT && generation <= table.generation
      && (node == NULL ==> height == 0)
      && (node != NULL ==> node >= 0 && node in Ids(table.tree))
      && (node != NULL && generation == table.generation ==> InPlace(base))
      && (base > 0 ==> Leftovers(base))
    }

    ghost predicate InPlace(base: nat := 0)
      reads this, table, stack
    {
      && 0 <= node < |table.cells| && base <= height <= stack.Length
      && OnPath(table.tree, table.cells[node].key, height - base, node, stack[base..height])
    }

    /** The lowest slots hold nodes of the tree, and there is room for a whole path above them. */
    ghost predicate Leftovers(base: nat)
      reads this, table, stack
    {
      && base + Height(table.tree) <= MAX_HEIGHT == stack.Length
      && forall j | 0 <= j < base :: stack[j] in Ids(table.tree) && 0 <= stack[j] < |table.cells|
    }

    constructor (table: AvlTable)
      requires table.Valid()
      ensures Valid() && this.table == table && node == NULL && fresh(stack)
    {
      this.table := table;
      stack := new int[MAX_HEIGHT];
      node, height, generation := NULL, 0, table.generation;
    }

    ghost function Current(): Found
      reads this, table
    {
      if 0 <= node < |table.cells| then Key(table.cells[node].key) else Nothing
    }

    /** Whatever the stack has come to, start over. */
    method Reset()
      requires table.Valid() && stack.Length == MAX_HEIGHT
      modifies this
      ensures Valid() && node == NULL && height == 0 && generation == table.generation
    {
      node, height, generation := NULL, 0, table.generation;
    }

    /** Find the current node again from the root. */
    method Refresh(ghost base: nat)
      requires Valid(base) && Fits(table)
      modifies this`height, this`generation, stack
      ensures Valid() && generation == table.generation
    {
      hide AvlTable.Valid, Good, Ids, Keys;
      TableParts(table);
      generation := table.generation;
      if node != NULL {
        ghost var t := table.tree;
        IdKey(table.cells, t, node);
        var key := table.cells[node].key;
        height := 0;
        var i := table.root;
        while i != node
          invariant node in Ids(Sub(t, key, height)) && Sub(t, key, height).Node? && i == Sub(t, key, height).id
          invariant generation == table.generation
          invariant height <= stack.Length && forall j | 0 <= j < height :: stack[j] == Link(Sub(t, key, j))
          decreases Height(Sub(t, key, height))
        {
          AtPlace(table.cells, t, key, height);
          NodeToward(table.cells, Sub(t, key, height), node);
          stack[height] := i;
          height := height + 1;
          i := Side(table.cells[i], key > table.cells[i].key);
        }
        AtPlace(table.cells, t, key, height);
      }
    }

    /** Remember node `x` and take one step down. */
    method Push(x: nat, right: bool, ghost k: int, ghost base: nat)
      requires Ordered(table.tree) && base <= height < stack.Length
      requires OnPath(table.tree, k, height - base, x, stack[base..height])
      requires Child(Sub(table.tree, k, height - base), right).Node?
      modifies this`height, stack
      ensures height == old(height) + 1 && stack[..base] == old(stack[..base])
      ensures var t, d := table.tree, old(height) - base;
              var c := Child(Sub(t, k, d), right);
              OnPath(t, c.key, d + 1, c.id, stack[base..height]) && Sub(t, c.key, d + 1) == c
    {
      ghost var above := stack[base..height];
      PushPath(table.tree, k, height - base, x, above, right);
      stack[height] := x;
      height := height + 1;
      assert stack[base..height] == above + [x];
    }

    /** Go down to the least key below the current place. */
    method Leftmost(x: nat, ghost k: int, ghost base: nat) returns (y: nat)
      requires table.Valid() && stack.Length == MAX_HEIGHT && base <= height <= stack.Length
      requires base + Height(table.tree) <= MAX_HEIGHT
      requires OnPath(table.tree, k, height - base, x, stack[base..height])
      modifies this`height, stack
      ensures base <= height <= stack.Length && y in Ids(table.tree) && y < |table.cells|
          && stack[..base] == old(stack[..base])
      ensures OnPath(table.tree, table.cells[y].key, height - base, y, stack[base..height])
      ensures IsEnd(Keys(old(Sub(table.tree, k, height - base))), false, Key(table.cells[y].key))
    {
      hide AvlTable.Valid, Good, Ids, IsEnd;
      TableParts(table);
      ghost var t := table.tree;
      ghost var d: nat := height - base;
      ghost var top := Sub(t, k, d);
      ghost var key := k;
      y := x;
      while true
        invariant height == base + d <= stack.Length && OnPath(t, key, d, y, stack[base..height])
            && stack[..base] == old(stack[..base])
        invariant forall least ::
                    IsEnd(Keys(Sub(t, key, d)), false, Key(least)) ==> IsEnd(Keys(top), false, Key(least))
        decreases Height(Sub(t, key, d))
      {
        AtPlace(table.cells, t, key, d);
        ghost var s := Sub(t, key, d);
        if table.cells[y].left == NULL {
          EndIsRoot(s, false);
          break;
        }
        EndIsBelow(s, false);
        Push(y, false, key, base);
        y := table.cells[y].left;
        key, d := s.left.key, d + 1;
      }
    }

    /** The place was reached with the path to it on top of what the stack held before. So the traverser is right now
        exactly when that was nothing, or when it will notice that it is out of date. */
    ghost predicate OnTopOf(below: seq<int>)
      reads this, table, stack
    {
      && node in Ids(table.tree) && InPlace(|below|) && stack[..|below|] == below
      && (InPlace() <==> below == [])
      && (generation <= table.generation ==> (Valid() <==> below == [] || generation != table.generation))
    }

    lemma Arrived(below: seq<int>)
      requires table.Valid() && stack.Length == MAX_HEIGHT && node in Ids(table.tree)
      requires InPlace(|below|) && stack[..|below|] == below
      ensures OnTopOf(below)
    {
      hide AvlTable.Valid, Ids;
      TableParts(table);
      var key, b := table.cells[node].key, |below|;
      OnePlace(table.tree, key, height - b, node, stack[b..height], height, stack[..height]);
      assert stack[0..height] == stack[..height];
    }

    /** The first item of all, or the last. The nodes above it are pushed on those remembered before, which are left
        there: that may be more than the stack has room for. */
    method GoToEnd(right: bool) returns (fits: bool, found: Found)
      requires table.Valid() && height <= MAX_HEIGHT == stack.Length
      modifies this`node, this`height, stack
      ensures fits <==> old(height) + Spine(table.tree, right) <= MAX_HEIGHT
      ensures fits ==> height == old(height) + Spine(table.tree, right)
      ensures fits && found == Nothing ==> height == old(height)
      ensures fits ==> IsEnd(Keys(table.tree), right, found) && (node == NULL <==> found == Nothing)
      ensures fits && found != Nothing ==> OnTopOf(old(stack[..height])) && Current() == found
      ensures !fits ==> height == MAX_HEIGHT
    {
      hide AvlTable.Valid, Good, Ids, OnTopOf, Shape, IsEnd, Keys, Height, Ordered;
      TableParts(table);
      ghost var t, height0, below := table.tree, height, stack[..height];
      var x := table.root;
      if x == NULL {
        node := x;
        NoEnd(right);
        return true, Nothing;
      }
      ghost var key, d := t.key, 0;
      while Side(table.cells[x], right) != NULL
        invariant height == height0 + d <= MAX_HEIGHT && d + Spine(Sub(t, key, d), right) == Spine(t, right)
        invariant 0 <= x < |table.cells| && OnPath(t, key, d, x, stack[height0..height])
        invariant stack[..height0] == below
        invariant forall k :: IsEnd(Keys(Sub(t, key, d)), right, Key(k)) ==> IsEnd(Keys(t), right, Key(k))
        decreases Height(Sub(t, key, d))
      {
        AtPlace(table.cells, t, key, d);
        if height == MAX_HEIGHT {
          return false, Nothing;
        }
        ghost var s := Sub(t, key, d);
        EndIsBelow(s, right);
        Push(x, right, key, height0);
        x := Side(table.cells[x], right);
        key, d := Child(s, right).key, d + 1;
        AtPlace(table.cells, t, key, d);
      }
      AtPlace(table.cells, t, key, d);
      EndIsRoot(Sub(t, key, d), right);
      node := x;
      Arrived(below);
      return true, Key(table.cells[x].key);
    }

    method First() returns (fits: bool, found: Found)
      requires table.Valid() && height <= MAX_HEIGHT == stack.Length
      modifies this`node, this`height, stack
      ensures fits <==> old(height) + Spine(table.tree, false) <= MAX_HEIGHT
      ensures fits ==> height == old(height) + Spine(table.tree, false)
      ensures fits && found == Nothing ==> height == old(height)
      ensures !fits ==> height == MAX_HEIGHT
      ensures fits ==> IsLeast(Keys(table.tree), found) && (node == NULL <==> found == Nothing)
      ensures fits && found != Nothing ==> OnTopOf(old(stack[..height])) && Current() == found
    {
      fits, found := GoToEnd(false);
    }

    method Last() returns (fits: bool, found: Found)
      requires table.Valid() && height <= MAX_HEIGHT == stack.Length
      modifies this`node, this`height, stack
      ensures fits <==> old(height) + Spine(table.tree, true) <= MAX_HEIGHT
      ensures fits ==> height == old(height) + Spine(table.tree, true)
      ensures fits && found == Nothing ==> height == old(height)
      ensures !fits ==> height == MAX_HEIGHT
      ensures fits ==> IsGreatest(Keys(table.tree), found) && (node == NULL <==> found == Nothing)
      ensures fits && found != Nothing ==> OnTopOf(old(stack[..height])) && Current() == found
    {
      fits, found := GoToEnd(true);
    }

    /** Go to `key` if it is there, on top of what the stack held before; otherwise to nowhere, with an empty stack. */
    method Find(key: int) returns (fits: bool, found: bool)
      requires table.Valid() && height <= MAX_HEIGHT == stack.Length
      modifies this`node, this`height, stack
      ensures fits <==> old(height) + Passed(table.tree, key) <= MAX_HEIGHT
      ensures fits ==> found == (key in Keys(table.tree))
      ensures fits && found ==> OnTopOf(old(stack[..height])) && Current() == Key(key)
      ensures fits && found ==> height == old(height) + Passed(table.tree, key)
      ensures fits && !found ==> node == NULL && height == 0 && (generation <= table.generation ==> Valid())
    {
      hide AvlTable.Valid, Good, Ids, OnTopOf, Ordered, Shape, Height;
      TableParts(table);
      ghost var t, height0, below, d := table.tree, height, stack[..height], 0;
      var p := table.root;
      while p != NULL
        invariant height == height0 + d <= MAX_HEIGHT && d + Passed(Sub(t, key, d), key) == Passed(t, key)
        invariant p == Link(Sub(t, key, d)) && (key in Keys(Sub(t, key, d)) <==> key in Keys(t))
        invariant forall j | 0 <= j < d :: stack[height0 + j] == Link(Sub(t, key, j))
        invariant stack[..height0] == below
        decreases Height(Sub(t, key, d))
      {
        AtPlace(table.cells, t, key, d);
        if key == table.cells[p].key {
          node := p;
          assert OnPath(t, key, d, p, stack[height0..height]);
          Arrived(below);
          return true, true;
        }
        if height == MAX_HEIGHT {
          return false, false;
        }
        TowardKeeps(Sub(t, key, d), key);
        stack[height] := p;
        height := height + 1;
        p := Side(table.cells[p], key > table.cells[p].key);
        d := d + 1;
      }
      height, node := 0, NULL;
      return true, false;
    }

    /** Go to the first item at `key` or after it. When there is none nothing is changed, not even the place. */
    method AtOrAfter(key: int) returns (fits: bool, found: Found)
      requires table.Valid() && height <= MAX_HEIGHT == stack.Length
      modifies this`node, this`height, stack
      ensures IsAtOrAfter(Keys(table.tree), key, found)
      ensures found == Nothing ==> fits && node == old(node) && height == old(height) && stack[..] == old(stack[..])
      ensures found != Nothing ==> (fits <==> old(height) + Passed(table.tree, found.key) <= MAX_HEIGHT)
      ensures found != Nothing && fits ==> OnTopOf(old(stack[..height])) && Current() == found
    {
      found := LeastFrom(table, key);
      if found == Nothing {
        return true, found;
      }
      var there;
      fits, there := Find(found.key);
    }

    /** The least item after the current one, or the least of all when there is none. Insertions in between do not
        matter. With leftovers below the path, the item after the greatest is the topmost leftover and not the end of
        the walk. */
    method Next(ghost base: nat := 0) returns (found: Found)
      requires Valid(base) && Fits(table)
      modifies this, stack
      ensures Current() == found
      ensures old(node == NULL || generation != table.generation) || base == 0 ==>
                Valid() && IsNext(Keys(table.tree), old(Current()), found)
      ensures old(node != NULL && generation == table.generation) && base > 0 ==>
                if Greater(Keys(table.tree), old(Current())) then Valid(base)
                    && IsNext(Keys(table.tree), old(Current()), found)
                else found == old(Key(table.cells[stack[base - 1]].key))
      ensures generation == table.generation
      ensures old(node != NULL && generation == table.generation) ==> stack[..base] == old(stack[..base])
    {
      hide AvlTable.Valid, Good, Ids, Keys, IsLeast, IsLeastAfter, OnPath;
      TableParts(table);
      ghost var from := base;
      if generation != table.generation {
        Refresh(base);
        from := 0;
      }
      if node == NULL {
        var fits;
        fits, found := First();
        assert fits;
        return;
      }
      ghost var t := table.tree;
      var x: nat := node;
      IdKey(table.cells, t, x);
      ghost var k := table.cells[x].key;
      SuccIsLeast(t, k);
      SuccIfGreater(t, k);
      if table.cells[x].right != NULL {
        found := StepRight(x, k, from);
        NextIsGreater(Keys(t), k, found);
      } else {
        found := ClimbOut(x, k, from);
      }
    }

    lemma Landed(base: nat, below: seq<int>)
      requires table.Valid() && stack.Length == MAX_HEIGHT && generation == table.generation && InPlace(base)
      requires node in Ids(table.tree) && |below| == base <= MAX_HEIGHT && stack[..base] == below
      requires base > 0 ==> base + Height(table.tree) <= MAX_HEIGHT
      requires base > 0 ==> forall id | id in below :: id in Ids(table.tree) && 0 <= id < |table.cells|
      ensures Valid(base)
    {
      forall j | 0 <= j < base ensures stack[j] in Ids(table.tree) && 0 <= stack[j] < |table.cells| {
        assert stack[j] == below[j] && below[j] in below;
      }
    }

    /** Something is to the right: the next item is the least there. */
    method StepRight(x: nat, ghost k: int, ghost base: nat) returns (found: Found)
      requires Valid(base) && Fits(table) && generation == table.generation
      requires node == x < |table.cells| && k == table.cells[x].key && table.cells[x].right != NULL
      modifies this`node, this`height, stack
      ensures Valid(base) && Current() == found && found != Nothing && IsLeastAfter(Keys(table.tree), k, found)
      ensures stack[..base] == old(stack[..base])
    {
      hide AvlTable.Valid, Good, Ids, Keys, IsEnd, IsLeastAfter;
      TableParts(table);
      ghost var t, below, d := table.tree, stack[..base], height - base;
      AtPlace(table.cells, t, k, d);
      ghost var s := Sub(t, k, d);
      assert OnPath(t, k, d, x, stack[base..height]) && s.id == x;
      assert base > 0 ==> forall id | id in below :: id in Ids(t) && 0 <= id < |table.cells|;
      assert base + Height(t) <= MAX_HEIGHT;
      hide OnPath, Shape, Ordered, Sub, Fits, Height, Leftovers, Traverser.Valid;
      Push(x, true, k, base);
      var y := Leftmost(table.cells[x].right, s.right.key, base);
      node := y;
      found := Key(table.cells[y].key);
      RightIsNext(t, k, d, s.right, table.cells[y].key);
      Landed(base, below);
    }

    /** Nothing is to the right: the next item is above, at the first step up that comes from the left. */
    method ClimbOut(start: nat, ghost k: int, ghost base: nat) returns (found: Found)
      requires Valid(base) && Fits(table) && generation == table.generation
      requires node == start < |table.cells| && k == table.cells[start].key && table.cells[start].right == NULL
      modifies this`node, this`height
      ensures Current() == found
      ensures base == 0 || Succ(table.tree, k) != Nothing ==> Valid(base) && IsLeastAfter(Keys(table.tree), k, found)
      ensures base > 0 && Succ(table.tree, k) == Nothing ==> found == Key(table.cells[stack[base - 1]].key)
    {
      hide AvlTable.Valid, Good, Ids, Keys, IsLeastAfter, Shape, Ordered, Succ, Fits, Toward, Height;
      TableParts(table);
      ghost var t := table.tree;
      ghost var d: nat := height - base;
      AtPlace(table.cells, t, k, d);
      NothingRight(Sub(t, k, d));
      SuccIsLeast(t, k);
      var x: int := start;
      var y: int;
      ghost var left := false;
      while true
        invariant height == base + d <= stack.Length && Sub(t, k, d).Node? && x == Sub(t, k, d).id
        invariant forall j | 0 <= j < d :: stack[base + j] == Link(Sub(t, k, j))
        invariant Succ(Sub(t, k, d), k) == Nothing
        decreases height
      {
        if height == 0 {
          node := NULL;
          return Nothing;
        }
        y := x;
        height := height - 1;
        x := stack[height];
        left := d == 0;
        if left {
          RightBelow(table.cells, t, x);
        } else {
          OneUp(table.cells, t, k, d);
          d := d - 1;
        }
        if y != table.cells[x].right {
          break;
        }
      }
      if !left {
        NextPlace(table.cells, t, k, d, stack[base..height]);
      }
      node := x;
      return Key(table.cells[x].key);
    }

    /** Add a key to the tree and go there. */
    method Insert(key: int) returns (slot: nat)
      requires Valid() && Fits(table)
      modifies this, table
      ensures Valid() && Current() == Key(key) && Keys(table.tree) == old(Keys(table.tree)) + {key}
    {
      var added;
      slot, added := table.Probe(key);
      node := slot;
      generation := table.generation - 1;
    }

    /** Others may add keys to the tree: the place stays good, or is known to be out of date. */
    method AddElsewhere(key: int)
      requires Valid() && Fits(table)
      modifies table
      ensures Valid() && Current() == old(Current()) && Keys(table.tree) == old(Keys(table.tree)) + {key}
    {
      ghost var t := table.tree;
      assert node != NULL ==> 0 <= node < |table.cells| by {
        if node != NULL {
          IdKey(table.cells, t, node);
        }
      }
      var _, _ := table.Probe(key);
      if node != NULL && generation == table.generation {
        PathStays(t, table.tree, table.cells[node].key, height, node, stack[..height]);
      }
    }
  }

  /** The tree is small enough for the stack. */
  ghost predicate Fits(table: AvlTable)
    reads table
  {
    table.count + 1 < Fib(MAX_HEIGHT + 3)
  }

  lemma TableParts(table: AvlTable)
    requires table.Valid()
    ensures Shape(table.cells, table.tree) && Good(table.tree) && Ordered(table.tree) && table.root == Link(table.tree)
    ensures Fits(table) ==> Height(table.tree) <= MAX_HEIGHT
  {
    if Fits(table) {
      table.HeightFits();
    }
  }

  /** What the node at a place looks like in memory. */
  lemma AtPlace(cells: seq<Cell>, t: Tree, key: int, d: nat)
    requires Shape(cells, t) && Good(t) && Sub(t, key, d).Node?
    ensures var s := Sub(t, key, d);
            && Shape(cells, s) && Good(s) && s.id in Ids(t) && s.id < |cells|
            && cells[s.id] == Cell(Link(s.left), Link(s.right), s.key, s.balance)
            && Sub(t, key, d + 1) == Toward(s, key) && Height(s.left) < Height(s) && Height(s.right) < Height(s)
            && d + Height(s) <= Height(t) && Height(s) > 0
  {
    SubKeeps(t, key, d);
    SubShape(cells, t, key, d);
    SubNext(t, key, d);
  }

  lemma NoEnd(right: bool)
    ensures IsEnd(Keys(Leaf), right, Nothing)
  {
  }

  lemma EndIsRoot(s: Tree, right: bool)
    requires Ordered(s) && s.Node? && Child(s, right).Leaf?
    ensures IsEnd(Keys(s), right, Key(s.key))
  {
  }

  lemma EndIsBelow(s: Tree, right: bool)
    requires Ordered(s) && s.Node? && Child(s, right).Node?
    ensures forall k :: IsEnd(Keys(Child(s, right)), right, Key(k)) ==> IsEnd(Keys(s), right, Key(k))
  {
    assert Child(s, right).key in Keys(Child(s, right));
  }

  /** The least key of the tree that is not below `key`. */
  method LeastFrom(table: AvlTable, key: int) returns (found: Found)
    requires table.Valid()
    ensures IsAtOrAfter(Keys(table.tree), key, found)
  {
    hide AvlTable.Valid, Good, Ids, Keys;
    TableParts(table);
    ghost var t, d := table.tree, 0;
    SuccIsLeast(t, key - 1);
    var p := table.root;
    found := Nothing;
    while p != NULL
      invariant p == Link(Sub(t, key, d)) && Ordered(Sub(t, key, d))
      invariant var below := Succ(Sub(t, key, d), key - 1);
                Succ(t, key - 1) == if below == Nothing then found else below
      decreases Height(Sub(t, key, d))
    {
      AtPlace(table.cells, t, key, d);
      SubKeys(t, key, d);
      SubKeys(t, key, d + 1);
      if key == table.cells[p].key {
        NothingBetween(Sub(t, key, d), key);
        found := Key(key);
        break;
      }
      if key < table.cells[p].key {
        found := Key(table.cells[p].key);
      }
      p := Side(table.cells[p], key > table.cells[p].key);
      d := d + 1;
    }
    assert found == Succ(t, key - 1);
  }

  lemma NothingBetween(s: Tree, key: int)
    requires Ordered(s) && s.Node? && s.key == key
    ensures Succ(s, key - 1) == Key(key)
  {
    SuccIsLeast(s.left, key - 1);
  }

  lemma {:induction false} BelowApart(t: Tree, k: int, d: nat, e: nat)
    requires Good(t) && d < e && Sub(t, k, e).Node?
    ensures Sub(t, k, d).Node? && Sub(t, k, e).id != Sub(t, k, d).id
    decreases d
  {
    if d == 0 {
      SubKeeps(Toward(t, k), k, e - 1);
    } else {
      BelowApart(Toward(t, k), k, d - 1, e - 1);
    }
  }

  /** A node has only one place. */
  lemma OnePlace(t: Tree, k: int, d: nat, node: int, above: seq<int>, e: nat, other: seq<int>)
    requires Good(t) && OnPath(t, k, d, node, above)
    ensures OnPath(t, k, e, node, other) ==> e == d
  {
    if OnPath(t, k, e, node, other) {
      if d < e {
        BelowApart(t, k, d, e);
      } else if e < d {
        BelowApart(t, k, e, d);
      }
    }
  }

  lemma WhichSide(p: Tree, k: int)
    requires Good(p) && p.Node? && Toward(p, k).Node?
    ensures Toward(p, k).id == Link(p.right) <==> k >= p.key
  {
    assert p.left.Node? ==> p.left.id in Ids(p.left);
    assert p.right.Node? ==> p.right.id in Ids(p.right);
  }

  lemma NothingRight(s: Tree)
    requires s.Node? && s.right.Leaf?
    ensures Succ(s, s.key) == Nothing
  {
  }

  /** One step up from where nothing after `k` is below: the link taken tells whether the node above is the next one. */
  lemma OneUp(cells: seq<Cell>, t: Tree, k: int, d: nat)
    requires Shape(cells, t) && Good(t) && d > 0 && Sub(t, k, d).Node? && Succ(Sub(t, k, d), k) == Nothing
    ensures var p := Sub(t, k, d - 1);
            && p.Node? && p.id < |cells| && Link(p) == p.id && p.id in Ids(t)
            && Succ(p, k) == if Sub(t, k, d).id == cells[p.id].right then Nothing else Key(p.key)
  {
    SuccUp(t, k, d);
    AtPlace(cells, t, k, d - 1);
    WhichSide(Sub(t, k, d - 1), k);
  }

  /** The next node, found above, and the path to it. */
  lemma NextPlace(cells: seq<Cell>, t: Tree, k: int, d: nat, above: seq<int>)
    requires Shape(cells, t) && Good(t) && Sub(t, k, d).Node? && Succ(Sub(t, k, d), k) == Key(Sub(t, k, d).key)
    requires |above| == d && forall j | 0 <= j < d :: above[j] == Link(Sub(t, k, j))
    ensures var p := Sub(t, k, d);
            && p.id < |cells| && p.id in Ids(t) && cells[p.id].key == p.key
            && OnPath(t, p.key, d, p.id, above) && Succ(t, k) == Key(p.key)
  {
    SuccDown(t, k, d);
    PlaceOf(t, k, d, above);
    AtPlace(cells, t, k, d);
  }

  /** The root is on nobody's right. */
  lemma {:induction false} RightBelow(cells: seq<Cell>, t: Tree, id: nat)
    requires Shape(cells, t) && Distinct(t) && id in Ids(t)
    ensures id < |cells| && (cells[id].right == NULL || (cells[id].right in Ids(t) && cells[id].right != t.id))
    decreases t
  {
    if id != t.id {
      if id in Ids(t.left) {
        RightBelow(cells, t.left, id);
      } else {
        RightBelow(cells, t.right, id);
      }
    }
  }

  lemma RightIsNext(t: Tree, k: int, d: nat, right: Tree, least: int)
    requires Ordered(t) && Sub(t, k, d).Node? && Sub(t, k, d).key == k && Sub(t, k, d).right == right && right.Node?
    requires IsEnd(Keys(right), false, Key(least))
    ensures IsLeastAfter(Keys(t), k, Key(least))
  {
    SubKeys(t, k, d);
    SuccIsLeast(right, k);
    assert right.key in Keys(right);
    SuccDown(t, k, d);
    SuccIsLeast(t, k);
  }

  /** Two keys, the second on the right of the first. */
  ghost function TwoKeys(first: nat, second: nat): Tree {
    Node(first, 1, 1, Leaf, Node(second, 2, 0, Leaf, Leaf))
  }

  lemma TwoInserted(first: nat, second: nat)
    ensures Balanced(Leaf) && Inserted(Leaf, 1, first) == Node(first, 1, 0, Leaf, Leaf)
        && Balanced(Inserted(Leaf, 1, first))
    ensures Inserted(Inserted(Leaf, 1, first), 2, second) == TwoKeys(first, second)
  {
    var t := Inserted(Leaf, 1, first);
    assert Grow(t.right, 2, second) == Node(second, 2, 0, Leaf, Leaf);
    assert Grow(t, 2, second) == TwoKeys(first, second);
    assert CanRotate(Grow(t, 2, second)) && Rotate(Grow(t, 2, second)) == Grow(t, 2, second);
  }

  lemma TwoFacts(first: nat, second: nat)
    ensures var t := TwoKeys(first, second);
            Keys(t) == {1, 2} && Height(t) == 2 && first in Ids(t) && Size(t) == 2
  {
    assert Keys(Leaf) == {} && Height(Leaf) == 0;
  }

  lemma TwoPlaces(first: nat, second: nat, d: nat)
    ensures var t := TwoKeys(first, second);
            Sub(t, 2, d) == if d == 0 then t else if d == 1 then t.right else Leaf
  {
    if d > 1 {
      assert Sub(TwoKeys(first, second).right, 2, d - 1) == Sub(Leaf, 2, d - 2);
    }
  }

  lemma SecondPlace(first: nat, second: nat, node: int, d: nat, above: seq<int>)
    requires OnPath(TwoKeys(first, second), 2, d, node, above)
    ensures d == 1 && above == [first]
  {
    TwoPlaces(first, second, d);
    TwoPlaces(first, second, 0);
  }

  lemma RoomForTwo()
    ensures 3 < Fib(MAX_HEIGHT + 3)
  {
    assert Fib(5) == 5;
    FibMonotone(5, MAX_HEIGHT + 3);
  }

  method TwoKeyTable() returns (table: AvlTable, ghost first: nat, ghost second: nat)
    ensures fresh(table) && table.Valid() && table.tree == TwoKeys(first, second) && Fits(table)
    ensures first < |table.cells| && table.cells[first].key == 1
  {
    hide *;
    RoomForTwo();
    table := new AvlTable();
    SmallTree(table);
    var one, _ := table.Probe(1);
    TwoInserted(one, one);
    SmallTree(table);
    ghost var before := table.cells;
    var two, _ := table.Probe(2);
    KeyStays(before, table.cells, one);
    first, second := one, two;
    TwoInserted(first, second);
    TwoFacts(first, second);
    SmallTree(table);
    SmallFits(table);
  }

  /** What little there is to know of the trees on the way there. */
  lemma SmallTree(table: AvlTable)
    requires table.Valid()
    ensures table.count == Size(table.tree)
    ensures table.tree == Leaf ==> Keys(table.tree) == {} && table.count == 0
    ensures table.tree.Node? && table.tree.left == table.tree.right == Leaf ==>
        Keys(table.tree) == {table.tree.key} && table.count == 1
  {
    assert Keys(Leaf) == {};
  }

  lemma KeyStays(before: seq<Cell>, after: seq<Cell>, id: nat)
    requires KeysStay(before, after) && id < |before|
    ensures id < |after| && after[id].key == before[id].key
  {
  }

  lemma SmallFits(table: AvlTable)
    requires table.count <= 2
    ensures Fits(table)
  {
    RoomForTwo();
  }

  /** A walk over two items that has come to the second, with the first on its stack. */
  method WalkToSecond() returns (walk: Traverser, a: Found, b: Found, ghost first: nat, ghost second: nat)
    ensures fresh(walk) && fresh(walk.stack) && walk.Valid() && walk.generation == walk.table.generation
    ensures walk.table.tree == TwoKeys(first, second) && Fits(walk.table) && walk.height == 1 && walk.node != NULL
    ensures walk.stack[0] == first && first < |walk.table.cells| && walk.table.cells[first].key == 1
    ensures a == Key(1) && b == Key(2)
  {
    var table;
    table, first, second := TwoKeyTable();
    TwoFacts(first, second);
    hide Fib, Fits, TwoKeys, Keys, Height, Ids, OnPath, Sub, AvlTable.Valid;
    walk := new Traverser(table);
    a := walk.Next();
    b := walk.Next();
    SecondPlace(first, second, walk.node, walk.height, walk.stack[..walk.height]);
  }

  /** Going back to the first item in the middle of a walk: after the greatest item the walk does not end, but goes
      on with an item that was left on the stack. */
  method FirstMidWalk() returns (answers: seq<Found>)
    ensures answers == [Key(1), Key(2), Key(1), Key(2), Key(1)]
  {
    var walk, a, b, first, second := WalkToSecond();
    TwoFacts(first, second);
    hide Fib, Fits, TwoKeys, Keys, Height, Ids, OnPath, Sub, AvlTable.Valid;
    var fits, c := walk.First();
    assert c == Key(1) && walk.stack[0] == first && walk.Valid(1);
    var d := walk.Next(1);
    assert d == Key(2) && walk.stack[0] == first;
    var e := walk.Next(1);
    return [a, b, c, d, e];
  }

  /** Looking for an item after the greatest: nothing is found, and the walk goes on from its old place as if it had not
      been sent to the null item. */
  method AtOrAfterEnd() returns (answers: seq<Found>)
    ensures answers == [Key(1), Nothing, Key(2)]
  {
    var table;
    ghost var first, second;
    table, first, second := TwoKeyTable();
    TwoFacts(first, second);
    hide Fib, Fits, TwoKeys, Keys, Height, Ids, OnPath, Sub, AvlTable.Valid;
    var walk := new Traverser(table);
    var a := walk.Next();
    var fits, b := walk.AtOrAfter(3);
    assert b == Nothing && walk.Current() == a == Key(1);
    var c := walk.Next();
    return [a, b, c];
  }

  /** Going back to the first item again and again fills the stack, unless the first item is the root. */
  method FirstUntilFull(walk: Traverser) returns (calls: nat)
    requires walk.table.Valid() && walk.height <= MAX_HEIGHT == walk.stack.Length && Spine(walk.table.tree, false) > 0
    modifies walk`node, walk`height, walk.stack
    ensures var n := Spine(walk.table.tree, false);
            old(walk.height) + calls * n <= MAX_HEIGHT < old(walk.height) + (calls + 1) * n
  {
    hide AvlTable.Valid, Spine, Traverser.OnTopOf;
    calls := 0;
    ghost var n := Spine(walk.table.tree, false);
    var fits, found := walk.First();
    while fits
      invariant walk.height <= MAX_HEIGHT
      invariant if fits then walk.height == old(walk.height) + (calls + 1) * n
                else old(walk.height) + calls * n <= MAX_HEIGHT < old(walk.height) + (calls + 1) * n
      decreases fits, MAX_HEIGHT - walk.height
    {
      calls := calls + 1;
      fits, found := walk.First();
    }
  }
}
