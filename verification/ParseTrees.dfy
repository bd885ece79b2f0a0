/** The trees of an and/or graph as tree values, and the complete listing of them. */
module ParseTrees {
  import opened Trees
  import opened TreeIterators

  /** An or-node with the and-node chosen for it and the trees of that and-node's or-nodes, cause first. */
  datatype PTree = Node(or: nat, choice: nat, children: seq<PTree>)

  /** `f` has one tree for each or-node of `agenda`. */
  ghost predicate Fits(b: Bocage, agenda: seq<nat>, f: seq<PTree>)
    decreases f
  {
    && |f| == |agenda|
    && (f == [] ||
        (FitsOne(b, agenda[0], f[0]) && Fits(b, agenda[1..], f[1..])))
  }

  ghost predicate FitsOne(b: Bocage, o: nat, t: PTree)
    decreases t
  {
    && t.or == o && o < |b.ors| && t.choice < |b.ors[o].ands|
    && Fits(b, Children(b.ors[o].ands[t.choice]), t.children)
  }

  /** The choices in preorder. */
  ghost function Encode(f: seq<PTree>): seq<nat>
    decreases f
  {
    if f == [] then [] else [f[0].choice] + Encode(f[0].children) + Encode(f[1..])
  }

  /** An or-node and the number of the and-node chosen for it. */
  datatype Pick = Pick(or: nat, choice: nat)

  /** The nodes in preorder, as they stand on the iterator's stack. */
  ghost function Nodes(f: seq<PTree>): seq<Pick>
    decreases f
  {
    if f == [] then [] else [Pick(f[0].or, f[0].choice)] + Nodes(f[0].children) + Nodes(f[1..])
  }

  /** The non-empty or-nodes, with repetitions. */
  ghost function NonEmpties(b: Bocage, f: seq<PTree>): multiset<nat>
    decreases f
  {
    if f == [] then multiset{}
    else (if f[0].or < |b.ors| && b.ors[f[0].or].nonEmpty then multiset{f[0].or} else multiset{})
         + NonEmpties(b, f[0].children) + NonEmpties(b, f[1..])
  }

  /** No non-empty or-node occurs twice, and none of `used` at all. */
  ghost predicate Once(m: multiset<nat>, used: set<nat>) {
    forall o | o in m :: m[o] == 1 && o !in used
  }

  lemma EncodeAppend(f: seq<PTree>, h: seq<PTree>)
    ensures Encode(f + h) == Encode(f) + Encode(h)
  {
    if f == [] {
      assert f + h == h;
    } else {
      assert (f + h)[1..] == f[1..] + h;
      EncodeAppend(f[1..], h);
    }
  }

  lemma NodesAppend(f: seq<PTree>, h: seq<PTree>)
    ensures Nodes(f + h) == Nodes(f) + Nodes(h)
  {
    if f == [] {
      assert f + h == h;
    } else {
      assert (f + h)[1..] == f[1..] + h;
      NodesAppend(f[1..], h);
    }
  }

  lemma NonEmptiesAppend(b: Bocage, f: seq<PTree>, h: seq<PTree>)
    ensures NonEmpties(b, f + h) == NonEmpties(b, f) + NonEmpties(b, h)
  {
    if f == [] {
      assert f + h == h;
    } else {
      assert (f + h)[1..] == f[1..] + h;
      NonEmptiesAppend(b, f[1..], h);
    }
  }

  lemma FitsAppend(b: Bocage, s: seq<nat>, t: seq<nat>, f: seq<PTree>, h: seq<PTree>)
    requires |f| == |s|
    ensures Fits(b, s + t, f + h) <==> Fits(b, s, f) && Fits(b, t, h)
  {
    if f == [] {
      assert f + h == h && s + t == t;
    } else {
      assert (f + h)[1..] == f[1..] + h && (s + t)[1..] == s[1..] + t;
      FitsAppend(b, s[1..], t, f[1..], h);
    }
  }

  /** The total number of nodes, to recur on. */
  ghost function Size(f: seq<PTree>): nat
    decreases f
  {
    if f == [] then 0 else 1 + Size(f[0].children) + Size(f[1..])
  }

  lemma SizeAppend(f: seq<PTree>, h: seq<PTree>)
    ensures Size(f + h) == Size(f) + Size(h)
  {
    if f == [] {
      assert f + h == h;
    } else {
      assert (f + h)[1..] == f[1..] + h;
      SizeAppend(f[1..], h);
    }
  }

  lemma EncodeUnfold(f: seq<PTree>)
    requires f != []
    ensures Encode(f) == [f[0].choice] + Encode(f[0].children + f[1..])
  {
    EncodeAppend(f[0].children, f[1..]);
  }

  lemma SizeUnfold(f: seq<PTree>)
    requires f != []
    ensures Size(f[0].children + f[1..]) < Size(f)
  {
    SizeAppend(f[0].children, f[1..]);
  }

  lemma NodesUnfold(f: seq<PTree>)
    requires f != []
    ensures Nodes(f) == [Pick(f[0].or, f[0].choice)] + Nodes(f[0].children + f[1..])
  {
    NodesAppend(f[0].children, f[1..]);
  }

  lemma NonEmptiesUnfold(b: Bocage, f: seq<PTree>)
    requires f != [] && f[0].or < |b.ors|
    ensures NonEmpties(b, f) == (if b.ors[f[0].or].nonEmpty then multiset{f[0].or}
        else multiset{}) + NonEmpties(b, f[0].children + f[1..])
  {
    NonEmptiesAppend(b, f[0].children, f[1..]);
  }

  /** A forest that fits, seen at its first tree, and the other way round. */
  lemma FitsUnfold(b: Bocage, agenda: seq<nat>, f: seq<PTree>)
    requires f != [] && agenda != [] && f[0].or == agenda[0] < |b.ors| && f[0].choice < |b.ors[agenda[0]].ands|
    requires |f[0].children| == |Children(b.ors[agenda[0]].ands[f[0].choice])|
    ensures Fits(b, agenda, f) <==>
            Fits(b, Children(b.ors[agenda[0]].ands[f[0].choice]) + agenda[1..], f[0].children + f[1..])
  {
    FitsAppend(b, Children(b.ors[agenda[0]].ands[f[0].choice]), agenda[1..], f[0].children, f[1..]);
  }

  lemma FitsHead(b: Bocage, agenda: seq<nat>, f: seq<PTree>)
    requires Fits(b, agenda, f)
    ensures f == [] <==> agenda == []
    ensures f != [] ==>
              && FitsOne(b, agenda[0], f[0]) && f[0].or == agenda[0] < |b.ors| && f[0].choice < |b.ors[agenda[0]].ands|
              && |f[0].children| == |Children(b.ors[agenda[0]].ands[f[0].choice])|
  {
    if f != [] {
      FitsLength(b, Children(b.ors[agenda[0]].ands[f[0].choice]), f[0].children);
    }
  }

  /** Unfolding the first tree of a forest. */
  lemma UnfoldFirst(b: Bocage, agenda: seq<nat>, f: seq<PTree>)
    requires Fits(b, agenda, f) && f != []
    ensures agenda != [] && f[0].or == agenda[0] < |b.ors| && f[0].choice < |b.ors[agenda[0]].ands|
    ensures var unfolded := f[0].children + f[1..];
            && Fits(b, Children(b.ors[agenda[0]].ands[f[0].choice]) + agenda[1..], unfolded)
            && Encode(f) == [f[0].choice] + Encode(unfolded)
            && Size(unfolded) < Size(f)
            && NonEmpties(b, f) == (if b.ors[agenda[0]].nonEmpty then multiset{agenda[0]}
                else multiset{}) + NonEmpties(b, unfolded)
  {
    hide Fits, FitsOne, Encode, Size, NonEmpties, Children;
    FitsHead(b, agenda, f);
    FitsUnfold(b, agenda, f);
    EncodeUnfold(f);
    SizeUnfold(f);
    NonEmptiesUnfold(b, f);
  }

  /** A forest without repetitions is a run that ends with nothing to do. */
  lemma {:induction false} ForestRuns(b: Bocage, c: Config, f: seq<PTree>)
    requires Fits(b, c.agenda, f) && Once(NonEmpties(b, f), c.used)
    ensures Runs(b, c, Encode(f)) && After(b, c, Encode(f)).agenda == []
    decreases Size(f)
  {
    hide Fits, FitsOne, Size, NonEmpties;
    FitsHead(b, c.agenda, f);
    if f != [] {
      UnfoldFirst(b, c.agenda, f);
      var x, unfolded, p := f[0].choice, f[0].children + f[1..], Encode(f);
      OnceUnfolds(b, c, f);
      ForestRuns(b, Step(b, c, x), unfolded);
      hide Encode;
      assert p[0] == x && p[1..] == Encode(unfolded);
    }
  }

  lemma OnceUnfolds(b: Bocage, c: Config, f: seq<PTree>)
    requires f != [] && c.agenda != [] && f[0].or == c.agenda[0] < |b.ors|
    requires f[0].choice < |b.ors[c.agenda[0]].ands|
    ensures Once(NonEmpties(b, f), c.used) <==>
            CanStep(b, c, f[0].choice) && Once(NonEmpties(b, f[0].children + f[1..]), Step(b, c, f[0].choice).used)
  {
    NonEmptiesUnfold(b, f);
    hide NonEmpties;
    var o, m := c.agenda[0], NonEmpties(b, f[0].children + f[1..]);
    var all := NonEmpties(b, f);
    assert forall q | q in m :: q in all && all[q] >= m[q];
    assert b.ors[o].nonEmpty ==> o in all && all[o] == 1 + m[o];
    assert forall q | q != o :: all[q] == m[q];
  }

  /** And every such run comes from a forest. */
  lemma {:induction false} RunIsForest(b: Bocage, c: Config, p: seq<nat>) returns (f: seq<PTree>)
    requires Runs(b, c, p) && After(b, c, p).agenda == []
    ensures Fits(b, c.agenda, f) && Encode(f) == p && Once(NonEmpties(b, f), c.used)
    decreases |p|
  {
    if p == [] {
      f := [];
    } else {
      var o, x := c.agenda[0], p[0];
      var unfolded := RunIsForest(b, Step(b, c, x), p[1..]);
      var kids := Children(b.ors[o].ands[x]);
      FitsLength(b, kids + c.agenda[1..], unfolded);
      hide Fits, FitsOne, Encode, NonEmpties, Once, Runs, After, Children;
      f := [Node(o, x, unfolded[..|kids|])] + unfolded[|kids|..];
      assert f[1..] == unfolded[|kids|..] && f[0].children + f[1..] == unfolded;
      FitsUnfold(b, c.agenda, f);
      EncodeUnfold(f);
      OnceUnfolds(b, c, f);
      assert p == [x] + p[1..];
    }
  }

  lemma FitsLength(b: Bocage, agenda: seq<nat>, f: seq<PTree>)
    requires Fits(b, agenda, f)
    ensures |f| == |agenda|
  {
  }

  /** A parse tree of the graph: it hangs from the top or-node and uses no non-empty or-node twice. */
  ghost predicate TreeOf(b: Bocage, t: PTree) {
    FitsOne(b, b.top, t) && Once(NonEmpties(b, [t]), {})
  }

  /** The choice sequences the iterator works with are exactly the parse trees. */
  lemma ChoicesAreTrees(b: Bocage, p: seq<nat>)
    ensures IsTree(b, p) <==> exists t :: TreeOf(b, t) && p == Encode([t])
  {
    if IsTree(b, p) {
      var f := RunIsForest(b, Initial(b), p);
      assert f == [f[0]] && FitsOne(b, b.top, f[0]);
      assert TreeOf(b, f[0]);
    }
    if t :| TreeOf(b, t) && p == Encode([t]) {
      assert Fits(b, [b.top], [t]);
      ForestRuns(b, Initial(b), [t]);
    }
  }

  // ---------------------------------------------------------------- the iterator's stack is a tree

  ghost function Picks(stack: seq<Nook>): (p: seq<Pick>)
    ensures |p| == |stack|
  {
    seq(|stack|, k requires 0 <= k < |stack| => Pick(stack[k].or, stack[k].choice))
  }

  /** The nodes a run of choices visits. */
  ghost function Visited(b: Bocage, c: Config, p: seq<nat>): seq<Pick>
    requires Runs(b, c, p)
    decreases |p|
  {
    if p == [] then [] else [Pick(c.agenda[0], p[0])] + Visited(b, Step(b, c, p[0]), p[1..])
  }

  lemma {:induction false} VisitedSnoc(b: Bocage, c: Config, p: seq<nat>, x: nat)
    requires Runs(b, c, p + [x])
    ensures Runs(b, c, p) && CanStep(b, After(b, c, p), x)
    ensures Visited(b, c, p + [x]) == Visited(b, c, p) + [Pick(After(b, c, p).agenda[0], x)]
    decreases |p|
  {
    RunsSnoc(b, c, p, x);
    if p == [] {
      assert (p + [x])[1..] == [];
    } else {
      assert (p + [x])[1..] == p[1..] + [x];
      VisitedSnoc(b, Step(b, c, p[0]), p[1..], x);
    }
  }

  lemma {:induction false} GrownVisits(b: Bocage, stack: seq<Nook>)
    requires Grown(b, stack)
    ensures Runs(b, Initial(b), Choices(stack)) && Visited(b, Initial(b), Choices(stack)) == Picks(stack)
    decreases |stack|
  {
    hide Used, Agenda;
    var n := stack[|stack| - 1];
    GrownRuns(b, stack);
    if |stack| == 1 {
      assert Choices(stack) == [] + [n.choice];
      VisitedSnoc(b, Initial(b), [], n.choice);
    } else {
      var prev := Restore(stack);
      RestoreShape(b, stack);
      GrownVisits(b, prev);
      GrownRuns(b, prev);
      VisitedSnoc(b, Initial(b), Choices(prev), n.choice);
      assert Picks(stack) == Picks(prev) + [Pick(n.or, n.choice)];
    }
  }

  lemma {:induction false} ForestVisits(b: Bocage, c: Config, f: seq<PTree>)
    requires Fits(b, c.agenda, f) && Runs(b, c, Encode(f))
    ensures Visited(b, c, Encode(f)) == Nodes(f)
    decreases Size(f)
  {
    if f != [] {
      hide Fits, FitsOne, Size, NonEmpties, Encode, Nodes, Children;
      UnfoldFirst(b, c.agenda, f);
      var x, unfolded, p := f[0].choice, f[0].children + f[1..], Encode(f);
      assert p[0] == x && p[1..] == Encode(unfolded);
      ForestVisits(b, Step(b, c, x), unfolded);
      NodesUnfold(f);
    }
  }

  /** Between calls the iterator's stack holds the nodes of a parse tree in preorder. */
  lemma StackIsTree(b: Bocage, stack: seq<Nook>) returns (t: PTree)
    requires Grown(b, stack) && Agenda(b, stack) == []
    ensures TreeOf(b, t) && Nodes([t]) == Picks(stack) && Encode([t]) == Choices(stack)
  {
    GrownRuns(b, stack);
    GrownVisits(b, stack);
    ChoicesAreTrees(b, Choices(stack));
    t :| TreeOf(b, t) && Choices(stack) == Encode([t]);
    assert Fits(b, [b.top], [t]);
    ForestVisits(b, Initial(b), [t]);
  }

  lemma {:induction false} EncodeInjective(b: Bocage, agenda: seq<nat>, f: seq<PTree>, h: seq<PTree>)
    requires Fits(b, agenda, f) && Fits(b, agenda, h) && Encode(f) == Encode(h)
    ensures f == h
    decreases Size(f)
  {
    FitsHead(b, agenda, f);
    FitsHead(b, agenda, h);
    if f != [] {
      hide Fits, FitsOne, Size, NonEmpties, Encode, Children;
      UnfoldFirst(b, agenda, f);
      UnfoldFirst(b, agenda, h);
      SameCons(f[0].choice, Encode(f[0].children + f[1..]), h[0].choice, Encode(h[0].children + h[1..]));
      EncodeInjective(b, Children(b.ors[agenda[0]].ands[f[0].choice]) + agenda[1..], f[0].children + f[1..],
          h[0].children + h[1..]);
      SplitAt(f[0].children, f[1..], h[0].children, h[1..]);
      assert f == [f[0]] + f[1..] && h == [h[0]] + h[1..];
    }
  }

  lemma SameCons(x: nat, s: seq<nat>, y: nat, t: seq<nat>)
    requires [x] + s == [y] + t
    ensures x == y && s == t
  {
    assert ([x] + s)[0] == x && ([y] + t)[0] == y;
    assert s == ([x] + s)[1..] && t == ([y] + t)[1..];
  }

  lemma SplitAt(a: seq<PTree>, c: seq<PTree>, d: seq<PTree>, e: seq<PTree>)
    requires |a| == |d| && a + c == d + e
    ensures a == d && c == e
  {
    assert a == (a + c)[..|a|] && d == (d + e)[..|a|];
    assert c == (a + c)[|a|..] && e == (d + e)[|a|..];
  }

  /** Distinct parse trees have distinct choice sequences, so listing the sequences lists the trees. */
  lemma TreesDiffer(b: Bocage, t: PTree, u: PTree)
    requires TreeOf(b, t) && TreeOf(b, u) && Encode([t]) == Encode([u])
    ensures t == u
  {
    assert Fits(b, [b.top], [t]) && Fits(b, [b.top], [u]);
    EncodeInjective(b, [b.top], [t], [u]);
  }

  // ---------------------------------------------------------------- the whole listing

  ghost predicate Ascending(s: seq<seq<nat>>) {
    forall k, m | 0 <= k < m < |s| :: Less(s[k], s[m])
  }

  lemma LessOrder(p: seq<nat>, q: seq<nat>, r: seq<nat>)
    ensures !Less(p, p)
    ensures Less(p, q) && Less(q, r) ==> Less(p, r)
  {
    if Less(p, q) && Less(q, r) {
      var k: nat :| k < |p| && k < |q| && p[..k] == q[..k] && p[k] < q[k];
      var m: nat :| m < |q| && m < |r| && q[..m] == r[..m] && q[m] < r[m];
      var n := if k < m then k else m;
      assert p[..n] == p[..k][..n] == q[..n] == q[..m][..n] == r[..n];
      assert k < m ==> q[k] == q[..m][k] == r[k];
      assert m < k ==> p[m] == p[..k][m] == q[m];
    }
  }

  /** What has been listed so far: in order, all trees, and every other tree is still to come. */
  ghost predicate ListedSoFar(b: Bocage, last: Option<seq<nat>>, trees: seq<seq<nat>>) {
    && Ascending(trees)
    && (forall d | d in trees :: IsTree(b, d))
    && (forall d | IsTree(b, d) :: d in trees || Listed(b, last, d))
    && (if trees == [] then last == None else last == Some(trees[|trees| - 1]))
  }

  lemma ListOne(b: Bocage, last: Option<seq<nat>>, trees: seq<seq<nat>>, t: seq<nat>)
    requires ListedSoFar(b, last, trees) && IsNext(b, last, t)
    ensures ListedSoFar(b, Some(t), trees + [t])
  {
    var more := trees + [t];
    forall k, m | 0 <= k < m < |more| ensures Less(more[k], more[m]) {
      if m == |trees| {
        LessOrder(more[k], trees[|trees| - 1], t);
      }
    }
    forall d | IsTree(b, d) ensures d in more || Listed(b, Some(t), d) {
      assert d in trees ==> d in more;
      assert more[|trees|] == t;
    }
  }

  /** Calling the iterator until it gives up yields every parse tree, each once; a nulling parse has the empty one. */
  method ListAll(it: TreeIterator) returns (trees: seq<seq<nat>>)
    requires it.Valid() && it.parseCount == 0 && !it.exhausted
    modifies it
    ensures forall d :: d in trees <==> if it.isNulling then d == [] else IsTree(it.b, d)
    ensures forall k, m | 0 <= k < m < |trees| :: trees[k] != trees[m]
  {
    hide TreeIterator.Valid, IsNext, NoneLeft, ListedSoFar;
    trees := [];
    assert ListedSoFar(it.b, it.Last(), trees) by { NothingListed(it.b); }
    var size := 0;
    while size != -1
      invariant it.Valid()
      invariant it.isNulling ==> trees == (if it.parseCount == 0 then [] else [[]])
      invariant size == -1 ==> if it.isNulling then it.parseCount == 1 else ListingDone(it.b, trees)
      invariant size != -1 ==> !it.exhausted && (it.isNulling || ListedSoFar(it.b, it.Last(), trees))
      decreases size != -1, if size != -1 then it.Remaining() else 0
    {
      ghost var last := it.Last();
      size := it.Next();
      if size != -1 {
        if !it.isNulling {
          ListOne(it.b, last, trees, Choices(it.stack));
        }
        trees := trees + [CurrentChoices(it.stack)];
      } else if !it.isNulling {
        AllListed(it.b, last, trees);
      }
    }
  }

  ghost predicate ListingDone(b: Bocage, trees: seq<seq<nat>>) {
    && (forall d :: d in trees <==> IsTree(b, d))
    && (forall k, m | 0 <= k < m < |trees| :: trees[k] != trees[m])
  }

  lemma NothingListed(b: Bocage)
    ensures ListedSoFar(b, None, [])
  {
  }

  lemma AllListed(b: Bocage, last: Option<seq<nat>>, trees: seq<seq<nat>>)
    requires ListedSoFar(b, last, trees) && NoneLeft(b, last)
    ensures ListingDone(b, trees)
  {
    forall k, m | 0 <= k < m < |trees| ensures trees[k] != trees[m] {
      LessOrder(trees[k], trees[m], trees[m]);
    }
  }

  function CurrentChoices(stack: seq<Nook>): (p: seq<nat>)
    ensures p == Choices(stack)
  {
    seq(|stack|, k requires 0 <= k < |stack| => stack[k].choice)
  }
}
