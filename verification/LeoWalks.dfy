/** The chains of completions that Leo items stand for, followed step by step. */
module LeoWalks {
  import opened Grammars
  import opened Derivations
  import opened EarleySets

  // ---------------------------------------------------------------- which symbols get a Leo item

  /** Only item `y` of the set waits for `a`; its rule is right-recursive, and `a` is its last symbol. */
  ghost predicate SoleFinal(g: Grammar, items: seq<Item>, a: nat, y: Item) {
    && y in items && PostdotIs(g, y, a)
    && (forall z | z in items && PostdotIs(g, z, a) :: z == y)
    && |g.rightRecursive| == |g.irls| && g.rightRecursive[y.irl]
    && InRange(g, Next(y)) && IsComplete(g, Next(y))
  }

  ghost predicate Eligible(g: Grammar, items: seq<Item>, a: nat) {
    exists y :: SoleFinal(g, items, a, y)
  }

  /** Leo items are exactly those of the eligible symbols, in every set but the first; none without the switch. */
  ghost predicate MemoExact(g: Grammar, sets: Sets, useLeo: bool) {
    forall j, a: nat | j in sets :: HasLim(sets[j].postdot, a) <==> useLeo && j > 0 && Eligible(g, sets[j].items, a)
  }

  // ---------------------------------------------------------------- the base of a Leo item

  lemma BaseOf(g: Grammar, items: seq<Item>, area: Postdots, b: nat)
    requires IndexOk(g, items, area) && HasLim(area, b)
    ensures LimAt(area, b).base in items && PostdotIs(g, LimAt(area, b).base, b)
  {
    assert PimsOk(g, items, b, area[b]) && area[b][1].item == LimAt(area, b).base;
  }

  lemma LimIsNotStart(g: Grammar, items: seq<Item>, area: Postdots, a: nat)
    requires RulesOk(g) && IndexOk(g, items, area) && HasLim(area, a)
    ensures a != g.irls[g.start].lhs
  {
    BaseOf(g, items, area, a);
    assert a in g.irls[LimAt(area, a).base.irl].rhs;
  }

  /** The base of a Leo item is the only item waiting for its symbol. */
  lemma SoleWaiter(g: Grammar, ts: set<Token>, sets: Sets, j: nat, items: seq<Item>, area: Postdots, b: nat, y: Item)
    requires SetComplete(g, ts, sets, j, items) && IndexOk(g, items, area) && HasLim(area, b)
    requires Valid(g, ts, y, j) && PostdotIs(g, y, b)
    ensures y == LimAt(area, b).base
  {
    assert Covered(g, sets, items, y);
    assert PimsOk(g, items, b, area[b]) && YimPim(y) in area[b];
  }

  // ---------------------------------------------------------------- the walk along the memo

  /** From base `y` on, the bases met by going to the Leo item for each left side at its origin, until there is none. */
  ghost predicate Walk(g: Grammar, sets: Sets, y: Item, ys: seq<Item>)
    decreases |ys|
  {
    && ys != [] && ys[0] == y && InRange(g, y) && y.origin in sets
    && if HasLim(sets[y.origin].postdot, Lhs(g, y))
       then |ys| > 1 && Walk(g, sets, LimAt(sets[y.origin].postdot, Lhs(g, y)).base, ys[1..])
       else |ys| == 1
  }

  /** The Leo item is populated with the completion at the end of its walk. */
  ghost predicate EndsWalk(g: Grammar, sets: Sets, l: Lim, ys: seq<Item>) {
    Populated(g, l) && Walk(g, sets, l.base, ys) && TopItem(g, l) == Next(ys[|ys| - 1])
  }

  ghost predicate HasWalk(g: Grammar, sets: Sets, l: Lim) {
    exists ys :: EndsWalk(g, sets, l, ys)
  }

  lemma {:induction false} WalkUnique(g: Grammar, sets: Sets, y: Item, ys: seq<Item>, zs: seq<Item>)
    requires Walk(g, sets, y, ys) && Walk(g, sets, y, zs)
    ensures ys == zs
    decreases |ys|
  {
    if HasLim(sets[y.origin].postdot, Lhs(g, y)) {
      WalkUnique(g, sets, LimAt(sets[y.origin].postdot, Lhs(g, y)).base, ys[1..], zs[1..]);
      assert ys == [ys[0]] + ys[1..] && zs == [zs[0]] + zs[1..];
    }
  }

  /** The walk goes up the reasons for predicting the rule of its base, so it ends. */
  lemma {:induction false} WalkExists(g: Grammar, ts: set<Token>, sets: Sets, n: nat, j: nat, a: nat, s: Spine)
    returns (ys: seq<Item>)
    requires RulesOk(g) && SetsOk(g, ts, sets, n) && j in sets && HasLim(sets[j].postdot, a)
    requires Predicts(g, ts, LimAt(sets[j].postdot, a).base.irl, LimAt(sets[j].postdot, a).base.origin, s)
    ensures EndsWalk(g, sets, LimAt(sets[j].postdot, a), ys)
    decreases s
  {
    var l := LimAt(sets[j].postdot, a);
    var y := l.base;
    assert SetOk(g, ts, sets, j) && LimOk(g, sets, l);
    var i, b := y.origin, Lhs(g, y);
    if HasLim(sets[i].postdot, b) {
      assert SetOk(g, ts, sets, i);
      LimIsNotStart(g, sets[i].items, sets[i].postdot, b);
      ParentIsBase(g, ts, sets, i, y.irl, s);
      var rest := WalkExists(g, ts, sets, n, i, b, s.up);
      ys := [y] + rest;
      assert ys[1..] == rest && ys[|ys| - 1] == rest[|rest| - 1];
    } else {
      ys := [y];
    }
  }

  lemma ParentIsBase(g: Grammar, ts: set<Token>, sets: Sets, i: nat, r: nat, s: Spine)
    requires RulesOk(g) && SetOk(g, ts, sets, i) && Predicts(g, ts, r, i, s) && r != g.start
    requires HasLim(sets[i].postdot, g.irls[r].lhs)
    ensures s.Under? && s.parent == LimAt(sets[i].postdot, g.irls[r].lhs).base
  {
    assert Predicts(g, ts, s.parent.irl, s.parent.origin, s.up);
    assert Valid(g, ts, s.parent, i);
    SoleWaiter(g, ts, sets, i, sets[i].items, sets[i].postdot, g.irls[r].lhs, s.parent);
  }

  /** In right sets every Leo item equals the walk it replaces. */
  lemma MemoIsWalk(g: Grammar, ts: set<Token>, sets: Sets, n: nat, j: nat, a: nat)
    requires RulesOk(g) && SetsOk(g, ts, sets, n) && j in sets && HasLim(sets[j].postdot, a)
    ensures HasWalk(g, sets, LimAt(sets[j].postdot, a))
  {
    assert SetOk(g, ts, sets, j);
    BaseOf(g, sets[j].items, sets[j].postdot, a);
    var y := LimAt(sets[j].postdot, a).base;
    assert Valid(g, ts, y, j);
    var s :| Predicts(g, ts, y.irl, y.origin, s);
    var ys := WalkExists(g, ts, sets, n, j, a, s);
  }

  // ---------------------------------------------------------------- the same chain without the memo

  /** From `y` on, the items a chain of completions advances one after the other, found among the items alone: go on
      as long as a single, final, right-recursive item waits for the left side. */
  ghost predicate CompletionChain(g: Grammar, sets: Sets, y: Item, ys: seq<Item>)
    decreases |ys|
  {
    && ys != [] && ys[0] == y && InRange(g, y) && y.origin in sets
    && if y.origin > 0 && Eligible(g, sets[y.origin].items, Lhs(g, y))
       then |ys| > 1 && SoleFinal(g, sets[y.origin].items, Lhs(g, y), ys[1]) && CompletionChain(g, sets, ys[1], ys[1..])
       else |ys| == 1
  }

  lemma {:induction false} WalkIsChain(g: Grammar, ts: set<Token>, sets: Sets, n: nat, y: Item, ys: seq<Item>)
    requires SetsOk(g, ts, sets, n) && MemoExact(g, sets, true)
    ensures Walk(g, sets, y, ys) <==> CompletionChain(g, sets, y, ys)
    decreases |ys|
  {
    if InRange(g, y) && y.origin in sets && ys != [] && HasLim(sets[y.origin].postdot, Lhs(g, y)) {
      var i, b := y.origin, Lhs(g, y);
      assert SetOk(g, ts, sets, i);
      BaseOf(g, sets[i].items, sets[i].postdot, b);
      var z :| SoleFinal(g, sets[i].items, b, z);
      assert z == LimAt(sets[i].postdot, b).base;
      if |ys| > 1 {
        WalkIsChain(g, ts, sets, n, z, ys[1..]);
      }
    }
  }

  /** The Leo item is populated with the end of the one chain of completions from its base. */
  ghost predicate EndsChain(g: Grammar, sets: Sets, l: Lim) {
    exists ys :: CompletionChain(g, sets, l.base, ys) && IsOnly(g, sets, l.base, ys) && EndsIn(g, l, ys)
  }

  ghost predicate IsOnly(g: Grammar, sets: Sets, y: Item, ys: seq<Item>) {
    forall zs | CompletionChain(g, sets, y, zs) :: zs == ys
  }

  ghost predicate EndsIn(g: Grammar, l: Lim, ys: seq<Item>) {
    ys != [] && Populated(g, l) && TopItem(g, l) == Next(ys[|ys| - 1])
  }

  /** Where the Leo items are exact, each one's top is the end of the one chain of completions that it skips. */
  lemma MemoIsChain(g: Grammar, ts: set<Token>, sets: Sets, n: nat, j: nat, a: nat)
    requires RulesOk(g) && SetsOk(g, ts, sets, n) && MemoExact(g, sets, true) && j in sets && HasLim(sets[j].postdot, a)
    ensures var l := LimAt(sets[j].postdot, a);
            SoleFinal(g, sets[j].items, a, l.base) && EndsChain(g, sets, l)
  {
    var l := LimAt(sets[j].postdot, a);
    MemoIsWalk(g, ts, sets, n, j, a);
    var ys :| EndsWalk(g, sets, l, ys);
    WalkIsChain(g, ts, sets, n, l.base, ys);
    forall zs | CompletionChain(g, sets, l.base, zs) ensures zs == ys {
      WalkIsChain(g, ts, sets, n, l.base, zs);
      WalkUnique(g, sets, l.base, ys, zs);
    }
    assert SetOk(g, ts, sets, j);
    BaseOf(g, sets[j].items, sets[j].postdot, a);
    var z :| SoleFinal(g, sets[j].items, a, z);
  }
}
